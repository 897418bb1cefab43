// Names of MCP tools: printed from a server and a tool, parsed back by server prefix.

module ToolNames {
  import opened Options

  const MARK := "mcp_"

  /** A server name that is not already marked gets the mark. */
  function Prefix(server: string): string {
    (if MARK <= server then server else MARK + server) + "_"
  }

  function PrintName(server: string, tool: string): string {
    Prefix(server) + tool
  }

  datatype Origin = Origin(server: string, tool: string)

  // ---- printing ----

  /** Servers in the order in which they were connected, with their tools. */
  type Catalogue = seq<(string, seq<string>)>

  function NamesOf(server: string, tools: seq<string>): (names: seq<string>)
    ensures |names| == |tools|
    ensures forall k :: 0 <= k < |tools| ==> names[k] == PrintName(server, tools[k])
  {
    seq(|tools|, k requires 0 <= k < |tools| => PrintName(server, tools[k]))
  }

  function AllNames(catalogue: Catalogue): seq<string> {
    if catalogue == [] then []
    else AllNames(catalogue[..|catalogue| - 1]) + NamesOf(catalogue[|catalogue| - 1].0, catalogue[|catalogue| - 1].1)
  }

  method GetAllTools(catalogue: Catalogue) returns (names: seq<string>)
    ensures names == AllNames(catalogue)
  {
    names := [];
    for i := 0 to |catalogue|
      invariant names == AllNames(catalogue[..i])
    {
      var (server, tools) := catalogue[i];
      ghost var before := names;
      for k := 0 to |tools|
        invariant names == before + NamesOf(server, tools)[..k]
      {
        var name := if MARK <= server then server + "_" + tools[k] else MARK + server + "_" + tools[k];
        assert name == PrintName(server, tools[k]);
        names := names + [name];
      }
      assert catalogue[..i + 1][..i] == catalogue[..i];
      assert NamesOf(server, tools)[..|tools|] == NamesOf(server, tools);
    }
    assert catalogue[..|catalogue|] == catalogue;
  }

  // ---- parsing ----

  ghost predicate Matches(server: string, name: string) {
    Prefix(server) <= name
  }

  ghost predicate FirstMatch(servers: seq<string>, name: string, i: nat) {
    && i < |servers| && Matches(servers[i], name)
    && forall j :: 0 <= j < i ==> !Matches(servers[j], name)
  }

  /** The first configured server whose prefix fits decides; an empty server or tool name then
      counts as not found. */
  ghost predicate ResolvesTo(servers: seq<string>, name: string, origin: Option<Origin>) {
    match origin
    case Some(o) =>
      && o.server != "" && o.tool != "" && name == PrintName(o.server, o.tool)
      && exists i: nat :: FirstMatch(servers, name, i) && servers[i] == o.server
    case None =>
      forall i: nat :: FirstMatch(servers, name, i) ==> servers[i] == "" || name == Prefix(servers[i])
  }

  method Resolve(servers: seq<string>, name: string) returns (origin: Option<Origin>)
    ensures ResolvesTo(servers, name, origin)
  {
    var server: Option<string> := None;
    var tool := "";
    var i := 0;
    while i < |servers|
      invariant 0 <= i <= |servers|
      invariant server.None?
      invariant forall j :: 0 <= j < i ==> !Matches(servers[j], name)
    {
      var prefix := if MARK <= servers[i] then servers[i] else MARK + servers[i];
      if prefix + "_" <= name {
        assert prefix + "_" == Prefix(servers[i]);
        server := Some(servers[i]);
        tool := name[|prefix| + 1..];
        assert FirstMatch(servers, name, i);
        assert name == PrintName(servers[i], tool);
        break;
      }
      i := i + 1;
    }
    if server.None? || server.value == "" || tool == "" {
      assert server.Some? && tool == "" ==> name == Prefix(server.value);
      return None;
    }
    return Some(Origin(server.value, tool));
  }

  /** At most one answer: the first match is unique and fixes the tool. */
  lemma ResolutionIsUnique(servers: seq<string>, name: string, a: Option<Origin>, b: Option<Origin>)
    requires ResolvesTo(servers, name, a) && ResolvesTo(servers, name, b)
    ensures a == b
  {
    if a.Some? || b.Some? {
      var o := if a.Some? then a.value else b.value;
      var i: nat :| FirstMatch(servers, name, i) && servers[i] == o.server;
      assert name[|Prefix(o.server)|..] == o.tool;
      if a.Some? && b.Some? {
        var j: nat :| FirstMatch(servers, name, j) && servers[j] == b.value.server;
        assert i == j;
        assert name[|Prefix(b.value.server)|..] == b.value.tool;
      }
    }
  }

  // ---- round trip ----

  ghost predicate RoundTrips(servers: seq<string>, server: string, tool: string) {
    ResolvesTo(servers, PrintName(server, tool), Some(Origin(server, tool)))
  }

  /** One printed name parses back exactly when no earlier server's prefix fits it. */
  lemma RoundTripsIff(servers: seq<string>, i: nat, tool: string)
    requires i < |servers| && servers[i] != "" && tool != ""
    requires forall j :: 0 <= j < i ==> servers[j] != servers[i]
    ensures RoundTrips(servers, servers[i], tool) <==>
            forall j :: 0 <= j < i ==> !Matches(servers[j], PrintName(servers[i], tool))
  {
  }

  /** No server's prefix begins another's. */
  ghost predicate PrefixFree(servers: seq<string>) {
    forall i, j :: 0 <= i < j < |servers| ==>
      !(Prefix(servers[i]) <= Prefix(servers[j])) && !(Prefix(servers[j]) <= Prefix(servers[i]))
  }

  lemma PrefixesComparable(a: string, b: string, s: string)
    requires a <= s && b <= s
    ensures a <= b || b <= a
  {
  }

  ghost predicate EverythingRoundTrips(servers: seq<string>) {
    forall i, tool :: 0 <= i < |servers| && tool != "" ==> RoundTrips(servers, servers[i], tool)
  }

  lemma PrefixFreeRoundTrips(servers: seq<string>, i: nat, tool: string)
    requires i < |servers| && servers[i] != "" && tool != ""
    requires forall j :: 0 <= j < i ==> servers[j] != servers[i]
    requires PrefixFree(servers)
    ensures RoundTrips(servers, servers[i], tool)
  {
  }

  /** Of two servers with comparable prefixes, the later one has a tool that does not parse back. */
  lemma ComparablePrefixesClash(servers: seq<string>, i: nat, j: nat)
    requires i < j < |servers| && servers[j] != ""
    requires forall k :: 0 <= k < j ==> servers[k] != servers[j]
    requires Prefix(servers[i]) <= Prefix(servers[j]) || Prefix(servers[j]) <= Prefix(servers[i])
    ensures exists tool :: tool != "" && !RoundTrips(servers, servers[j], tool)
  {
    var p, q := Prefix(servers[i]), Prefix(servers[j]);
    var tool := if p <= q then "t" else p[|q|..];
    assert p <= q + tool by {
      if !(p <= q) {
        assert q + tool == p;
      }
    }
    assert Matches(servers[i], PrintName(servers[j], tool));
    RoundTripsIff(servers, j, tool);
    assert !RoundTrips(servers, servers[j], tool);
  }

  /** Parsing undoes printing for every tool of every server exactly when the prefixes are
      prefix-free. */
  lemma ParsingUndoesPrintingIff(servers: seq<string>)
    requires forall i :: 0 <= i < |servers| ==> servers[i] != ""
    requires forall i, j :: 0 <= i < j < |servers| ==> servers[i] != servers[j]
    ensures EverythingRoundTrips(servers) <==> PrefixFree(servers)
  {
    if PrefixFree(servers) {
      forall i, tool | 0 <= i < |servers| && tool != ""
        ensures RoundTrips(servers, servers[i], tool)
      {
        PrefixFreeRoundTrips(servers, i, tool);
      }
    }
    if !PrefixFree(servers) {
      var i, j :| 0 <= i < j < |servers| && (Prefix(servers[i]) <= Prefix(servers[j]) || Prefix(servers[j]) <= Prefix(servers[i]));
      ComparablePrefixesClash(servers, i, j);
    }
  }

  /** Printed names of different tools differ when the prefixes are prefix-free. */
  lemma NamesDiffer(servers: seq<string>, i: nat, j: nat, tool: string, tool': string)
    requires i < |servers| && j < |servers|
    requires PrefixFree(servers)
    requires PrintName(servers[i], tool) == PrintName(servers[j], tool')
    ensures i == j && tool == tool'
  {
    var name := PrintName(servers[i], tool);
    assert Prefix(servers[i]) <= name && Prefix(servers[j]) <= name;
    PrefixesComparable(Prefix(servers[i]), Prefix(servers[j]), name);
    assert name[|Prefix(servers[i])|..] == tool;
    assert name[|Prefix(servers[j])|..] == tool';
  }

  /** Two servers called "a" and "a_b": tool "t" of the second parses as tool "b_t" of the first. */
  lemma UnderscoreClash()
    ensures PrintName("a_b", "t") == "mcp_a_b_t"
    ensures ResolvesTo(["a", "a_b"], "mcp_a_b_t", Some(Origin("a", "b_t")))
    ensures !RoundTrips(["a", "a_b"], "a_b", "t")
  {
    var servers, name := ["a", "a_b"], "mcp_a_b_t";
    assert "a"[0] != 'm' && "a_b"[0] != 'm';
    assert Prefix("a") == "mcp_a_" && Prefix("a_b") == "mcp_a_b_";
    assert name[..|Prefix("a")|] == Prefix("a");
    assert name == PrintName("a", "b_t");
    assert FirstMatch(servers, name, 0);
    RoundTripsIff(servers, 1, "t");
    assert Matches(servers[0], PrintName(servers[1], "t"));
  }
}

// Overlapping text windows on two levels: parents for context, children for recall.

module DocumentChunker {
  /** Which characters `strip` removes. */
  type Space = char -> bool

  datatype ParentChunk = ParentChunk(content: string, children: seq<string>)

  // ---- stripping ----

  function StripLeft(space: Space, s: string): string {
    if s != [] && space(s[0]) then StripLeft(space, s[1..]) else s
  }

  function StripRight(space: Space, s: string): string {
    if s != [] && space(s[|s| - 1]) then StripRight(space, s[..|s| - 1]) else s
  }

  function Strip(space: Space, s: string): string {
    StripRight(space, StripLeft(space, s))
  }

  /** `phrase` occurs in `text` at position `p`. */
  ghost predicate At(phrase: string, text: string, p: int) {
    0 <= p && p + |phrase| <= |text| && text[p..p + |phrase|] == phrase
  }

  /** Positions in a piece of a text are positions in the text. */
  lemma AtInPiece(phrase: string, text: string, from: nat, to: nat, p: int)
    requires from <= to <= |text|
    ensures At(phrase, text[from..to], p) ==> At(phrase, text, from + p)
    ensures At(phrase, text, from + p) && 0 <= p && p + |phrase| <= to - from ==> At(phrase, text[from..to], p)
  {
    if 0 <= p && p + |phrase| <= to - from {
      var inner, outer := text[from..to][p..p + |phrase|], text[from + p..from + p + |phrase|];
      assert forall k :: 0 <= k < |phrase| ==> inner[k] == outer[k];
      assert inner == outer;
    }
  }

  ghost predicate Occurs(phrase: string, text: string) {
    exists p :: At(phrase, text, p)
  }

  /** A phrase that neither begins nor ends in white space. */
  ghost predicate Solid(space: Space, phrase: string) {
    phrase != [] && !space(phrase[0]) && !space(phrase[|phrase| - 1])
  }

  lemma {:induction false} StripLeftKeeps(space: Space, s: string, phrase: string, p: int)
    requires Solid(space, phrase) && At(phrase, s, p)
    ensures Occurs(phrase, StripLeft(space, s))
    decreases |s|
  {
    assert s[p] == phrase[0];
    if space(s[0]) {
      assert s[1..][p - 1..p - 1 + |phrase|] == s[p..p + |phrase|];
      StripLeftKeeps(space, s[1..], phrase, p - 1);
    } else {
      assert At(phrase, StripLeft(space, s), p);
    }
  }

  lemma {:induction false} StripRightKeeps(space: Space, s: string, phrase: string, p: int)
    requires Solid(space, phrase) && At(phrase, s, p)
    ensures Occurs(phrase, StripRight(space, s))
    decreases |s|
  {
    assert s[p + |phrase| - 1] == s[p..p + |phrase|][|phrase| - 1];
    if space(s[|s| - 1]) {
      assert s[..|s| - 1][p..p + |phrase|] == s[p..p + |phrase|];
      StripRightKeeps(space, s[..|s| - 1], phrase, p);
    } else {
      assert At(phrase, StripRight(space, s), p);
    }
  }

  /** Stripping breaks no solid phrase. */
  lemma StripKeeps(space: Space, s: string, phrase: string)
    requires Solid(space, phrase) && Occurs(phrase, s)
    ensures Occurs(phrase, Strip(space, s))
  {
    var p :| At(phrase, s, p);
    StripLeftKeeps(space, s, phrase, p);
    var q :| At(phrase, StripLeft(space, s), q);
    StripRightKeeps(space, StripLeft(space, s), phrase, q);
  }

  lemma {:induction false} StripLeftShape(space: Space, s: string)
    ensures var r := StripLeft(space, s);
            && |r| <= |s| && s[|s| - |r|..] == r
            && (r != [] ==> !space(r[0]))
  {
    if s != [] && space(s[0]) {
      StripLeftShape(space, s[1..]);
    }
  }

  lemma {:induction false} StripRightShape(space: Space, s: string)
    ensures var r := StripRight(space, s);
            && r <= s
            && (r != [] ==> !space(r[|r| - 1]))
  {
    if s != [] && space(s[|s| - 1]) {
      StripRightShape(space, s[..|s| - 1]);
    }
  }

  /** What is left after stripping is empty or solid, and is a piece of the text. */
  lemma StripShape(space: Space, s: string)
    ensures var r := Strip(space, s);
            (r == [] || Solid(space, r)) && |r| <= |s| && Occurs(r, s)
  {
    var left := StripLeft(space, s);
    var r := Strip(space, s);
    StripLeftShape(space, s);
    StripRightShape(space, left);
    hide StripLeft, StripRight;
    var p := |s| - |left|;
    assert s[p..p + |r|] == left[..|r|];
    assert At(r, s, p);
  }

  // ---- one level of windows ----

  function Step(size: nat, overlap: nat): (step: nat)
    ensures step > 0
  {
    if size > overlap then size - overlap else 1
  }

  function SliceEnd(text: string, start: nat, size: nat): (end: nat)
    requires start <= |text|
    ensures start <= end <= |text|
  {
    if start + size <= |text| then start + size else |text|
  }

  /** At most `size` characters from `start`. */
  function Slice(text: string, start: nat, size: nat): string
    requires start <= |text|
  {
    text[start..SliceEnd(text, start, size)]
  }

  /** The windows from `start` on: cut, stripped, and kept unless empty. */
  function WindowsFrom(space: Space, text: string, size: nat, step: nat, start: nat): seq<string>
    requires step > 0
    decreases if start < |text| then |text| - start else 0
  {
    if start >= |text| then []
    else
      var chunk := Strip(space, Slice(text, start, size));
      (if chunk != [] then [chunk] else []) + WindowsFrom(space, text, size, step, start + step)
  }

  function Windows(space: Space, text: string, size: nat, overlap: nat): seq<string> {
    if |text| <= size then [text] else WindowsFrom(space, text, size, Step(size, overlap), 0)
  }

  lemma WindowsUnfold(space: Space, text: string, size: nat, step: nat, start: nat, chunks: seq<string>)
    requires step > 0 && start < |text|
    ensures var chunk := Strip(space, Slice(text, start, size));
            chunks + WindowsFrom(space, text, size, step, start) ==
            (if chunk != [] then chunks + [chunk] else chunks) + WindowsFrom(space, text, size, step, start + step)
  {
  }

  method Window(space: Space, text: string, size: nat, overlap: nat) returns (chunks: seq<string>)
    ensures chunks == Windows(space, text, size, overlap)
  {
    if |text| <= size {
      return [text];
    }
    chunks := [];
    var start := 0;
    var step := if size > overlap then size - overlap else 1;
    ghost var all := WindowsFrom(space, text, size, step, 0);
    assert Windows(space, text, size, overlap) == all;
    assert forall past: nat :: past >= |text| ==> WindowsFrom(space, text, size, step, past) == [];
    hide *;
    while start < |text|
      invariant start >= 0
      invariant chunks + WindowsFrom(space, text, size, step, start) == all
      decreases |text| - start
    {
      WindowsUnfold(space, text, size, step, start, chunks);
      var chunk := Strip(space, Slice(text, start, size));
      if chunk != [] {
        chunks := chunks + [chunk];
      }
      start := start + step;
    }
  }

  /** Chunks are solid pieces of the text, no longer than a window. */
  lemma {:induction false} WindowsFromShape(space: Space, text: string, size: nat, step: nat, start: nat, chunk: string)
    requires step > 0
    requires chunk in WindowsFrom(space, text, size, step, start)
    ensures Solid(space, chunk) && |chunk| <= size && Occurs(chunk, text)
    decreases if start < |text| then |text| - start else 0
  {
    var slice := Slice(text, start, size);
    if chunk == Strip(space, slice) && chunk != [] {
      StripShape(space, slice);
      var p :| At(chunk, slice, p);
      AtInPiece(chunk, text, start, SliceEnd(text, start, size), p);
    } else {
      WindowsFromShape(space, text, size, step, start + step, chunk);
    }
  }

  lemma PhraseInThisWindow(space: Space, text: string, size: nat, start: nat, phrase: string, p: nat)
    requires Solid(space, phrase) && At(phrase, text, p)
    requires start <= p && p + |phrase| <= start + size
    ensures var chunk := Strip(space, Slice(text, start, size));
            chunk != [] && Occurs(phrase, chunk)
  {
    AtInPiece(phrase, text, start, SliceEnd(text, start, size), p - start);
    StripKeeps(space, Slice(text, start, size), phrase);
  }

  /** A solid phrase whose length exceeds the overlap by at most one falls inside the last window
      that starts at or before it. */
  lemma {:induction false} PhraseInSomeWindow(space: Space, text: string, size: nat, step: nat, start: nat, phrase: string, p: nat)
    requires step > 0
    requires Solid(space, phrase) && At(phrase, text, p)
    requires |phrase| + step <= size + 1
    requires start <= p
    ensures exists chunk :: chunk in WindowsFrom(space, text, size, step, start) && Occurs(phrase, chunk)
    decreases |text| - start
  {
    if start + step <= p {
      PhraseInSomeWindow(space, text, size, step, start + step, phrase, p);
      var chunk :| chunk in WindowsFrom(space, text, size, step, start + step) && Occurs(phrase, chunk);
      assert chunk in WindowsFrom(space, text, size, step, start);
    } else {
      PhraseInThisWindow(space, text, size, start, phrase, p);
      assert Strip(space, Slice(text, start, size)) in WindowsFrom(space, text, size, step, start);
    }
  }

  /** No boundary breaks a solid phrase of at most overlap + 1 characters; with an overlap as large
      as the window, of at most a window. */
  lemma WindowsKeepPhrases(space: Space, text: string, size: nat, overlap: nat, phrase: string)
    requires Solid(space, phrase) && Occurs(phrase, text)
    requires if size > overlap then |phrase| <= overlap + 1 else |phrase| <= size
    ensures exists chunk :: chunk in Windows(space, text, size, overlap) && Occurs(phrase, chunk)
  {
    if |text| <= size {
      assert text in Windows(space, text, size, overlap);
    } else {
      var p :| At(phrase, text, p);
      PhraseInSomeWindow(space, text, size, Step(size, overlap), 0, phrase, p);
    }
  }

  function Repeat(c: char, n: nat): (s: string)
    ensures |s| == n && forall i :: 0 <= i < n ==> s[i] == c
  {
    seq(n, i => c)
  }

  lemma {:induction false} ChunkOfSlice(space: Space, text: string, size: nat, step: nat, start: nat, chunk: string) returns (at: nat)
    requires step > 0 && chunk in WindowsFrom(space, text, size, step, start)
    ensures at < |text| && (at == start || at >= start + step) && chunk == Strip(space, Slice(text, at, size))
    decreases if start < |text| then |text| - start else 0
  {
    hide Strip, Slice;
    if chunk == Strip(space, Slice(text, start, size)) {
      at := start;
    } else {
      at := ChunkOfSlice(space, text, size, step, start + step, chunk);
    }
  }

  /** A phrase in a window is in the text, inside the bounds of the window. */
  lemma PhraseOfSlice(space: Space, text: string, size: nat, at: nat, phrase: string) returns (p: nat)
    requires at <= |text| && Occurs(phrase, Strip(space, Slice(text, at, size)))
    ensures At(phrase, text, p) && at <= p && p + |phrase| <= at + size
  {
    var slice := Slice(text, at, size);
    var chunk := Strip(space, slice);
    StripShape(space, slice);
    hide Strip;
    var q :| At(phrase, chunk, q);
    var r :| At(chunk, slice, r);
    AtInPiece(phrase, slice, r, r + |chunk|, q);
    AtInPiece(phrase, text, at, SliceEnd(text, at, size), r + q);
    p := at + r + q;
  }

  /** The bound is sharp: for every size and overlap and every greater length there is a solid phrase of
      that length in a text of which no window holds it. */
  lemma LongerPhraseBroken(space: Space, size: nat, overlap: nat, length: nat) returns (text: string, phrase: string)
    requires !space('b') && !space('c')
    requires length > if size > overlap then overlap + 1 else size
    ensures |phrase| == length && Solid(space, phrase) && Occurs(phrase, text)
    ensures forall chunk :: chunk in Windows(space, text, size, overlap) ==> !Occurs(phrase, chunk)
  {
    var step := Step(size, overlap);
    phrase := "b" + Repeat('c', length - 1);
    text := Repeat('a', step - 1) + phrase;
    assert text[step - 1..step - 1 + length] == phrase;
    assert At(phrase, text, step - 1);
    forall p: nat | At(phrase, text, p)
      ensures p == step - 1
    {
      assert text[p] == text[p..p + |phrase|][0] == 'b';
    }
    forall chunk | chunk in Windows(space, text, size, overlap)
      ensures !Occurs(phrase, chunk)
    {
      var at := ChunkOfSlice(space, text, size, step, 0, chunk);
      hide Strip, Slice;
      if Occurs(phrase, chunk) {
        var p := PhraseOfSlice(space, text, size, at, phrase);
        assert false;
      }
    }
  }

  // ---- both levels ----

  /** The stripped lines that are not empty. */
  function SolidLines(space: Space, lines: seq<string>): seq<string> {
    if lines == [] then []
    else (if Strip(space, lines[0]) != [] then [Strip(space, lines[0])] else []) + SolidLines(space, lines[1..])
  }

  function JoinLines(lines: seq<string>): string {
    if lines == [] then [] else if |lines| == 1 then lines[0] else lines[0] + "\n" + JoinLines(lines[1..])
  }

  function Normalized(space: Space, lines: seq<string>): string {
    JoinLines(SolidLines(space, lines))
  }

  lemma {:induction false} SolidConcat(space: Space, a: seq<string>, b: seq<string>)
    ensures SolidLines(space, a + b) == SolidLines(space, a) + SolidLines(space, b)
    ensures [] !in SolidLines(space, a)
  {
    if a == [] {
      assert a + b == b;
    } else {
      assert (a + b)[1..] == a[1..] + b && (a + b)[0] == a[0];
      SolidConcat(space, a[1..], b);
      hide Strip;
      var first := if Strip(space, a[0]) != [] then [Strip(space, a[0])] else [];
      assert SolidLines(space, a + b) == first + (SolidLines(space, a[1..]) + SolidLines(space, b));
    }
  }

  lemma {:induction false} JoinConcat(a: seq<string>, b: seq<string>)
    requires a != [] && b != []
    ensures JoinLines(a + b) == JoinLines(a) + "\n" + JoinLines(b)
  {
    assert (a + b)[1..] == a[1..] + b;
    if |a| > 1 {
      JoinConcat(a[1..], b);
    }
  }

  lemma JoinsToNothing(lines: seq<string>)
    requires [] !in lines
    ensures JoinLines(lines) == [] <==> lines == []
  {
  }

  /** A normalised line is the stripped line; normalised texts are joined by one line break, unless one
      of them is empty. */
  lemma NormalizedConcat(space: Space, line: string, a: seq<string>, b: seq<string>)
    ensures Normalized(space, [line]) == Strip(space, line)
    ensures var left, right := Normalized(space, a), Normalized(space, b);
            Normalized(space, a + b) == if left == [] then right else if right == [] then left else left + "\n" + right
  {
    assert [line][1..] == [];
    SolidConcat(space, a, b);
    SolidConcat(space, b, []);
    var left, right := SolidLines(space, a), SolidLines(space, b);
    JoinsToNothing(left);
    JoinsToNothing(right);
    assert [] + right == right && left + [] == left;
    if left != [] && right != [] {
      JoinConcat(left, right);
    }
  }

  function Families(space: Space, parents: seq<string>, childSize: nat, overlap: nat): (families: seq<ParentChunk>)
    ensures |families| == |parents|
    ensures forall i :: 0 <= i < |parents| ==>
              families[i] == ParentChunk(parents[i], Windows(space, parents[i], childSize, overlap))
  {
    if parents == [] then []
    else [ParentChunk(parents[0], Windows(space, parents[0], childSize, overlap))]
         + Families(space, parents[1..], childSize, overlap)
  }

  /** The parent and child chunks of a text given as its lines. */
  method ChunkParentChild(space: Space, lines: seq<string>, parentSize: nat, childSize: nat, overlap: nat)
    returns (families: seq<ParentChunk>)
    ensures families == if Normalized(space, lines) == [] then []
                        else Families(space, Windows(space, Normalized(space, lines), parentSize, overlap), childSize, overlap)
  {
    var normalized := Normalized(space, lines);
    if normalized == [] {
      return [];
    }
    var parents := Window(space, normalized, parentSize, overlap);
    hide Windows, Normalized, Families;
    families := [];
    ghost var all := Families(space, parents, childSize, overlap);
    for i := 0 to |parents|
      invariant families == all[..i]
    {
      var children := Window(space, parents[i], childSize, overlap);
      families := families + [ParentChunk(parents[i], children)];
    }
  }

  lemma {:induction false} PhraseInJoined(lines: seq<string>, i: nat, phrase: string)
    requires i < |lines|
    requires Occurs(phrase, lines[i])
    ensures Occurs(phrase, JoinLines(lines))
  {
    var text := JoinLines(lines);
    if i == 0 {
      var p :| At(phrase, lines[0], p);
      assert text[..|lines[0]|] == lines[0];
      assert text[p..p + |phrase|] == lines[0][p..p + |phrase|];
      assert At(phrase, text, p);
    } else {
      PhraseInJoined(lines[1..], i - 1, phrase);
      var rest := JoinLines(lines[1..]);
      var p :| At(phrase, rest, p);
      var offset := |lines[0]| + 1;
      assert text[offset..] == rest;
      assert text[offset + p..offset + p + |phrase|] == rest[p..p + |phrase|];
      assert At(phrase, text, offset + p);
    }
  }

  lemma {:induction false} SolidLineKept(space: Space, lines: seq<string>, i: nat)
    requires i < |lines| && Strip(space, lines[i]) != []
    ensures Strip(space, lines[i]) in SolidLines(space, lines)
  {
    if i > 0 {
      SolidLineKept(space, lines[1..], i - 1);
    }
  }

  lemma PhraseInNormalized(space: Space, lines: seq<string>, i: nat, phrase: string)
    requires i < |lines|
    requires Solid(space, phrase) && Occurs(phrase, lines[i])
    ensures Occurs(phrase, Normalized(space, lines))
  {
    StripKeeps(space, lines[i], phrase);
    var line := Strip(space, lines[i]);
    assert line != [];
    SolidLineKept(space, lines, i);
    var solid := SolidLines(space, lines);
    var k :| 0 <= k < |solid| && solid[k] == line;
    PhraseInJoined(solid, k, phrase);
  }

  /** Every solid phrase of at most overlap + 1 characters of the normalised document, line breaks
      included, is unbroken in some parent and in some child of that same parent. */
  lemma PhraseSurvivesBothLevels(space: Space, lines: seq<string>, parentSize: nat, childSize: nat, overlap: nat, phrase: string)
    requires parentSize > overlap && childSize > overlap
    requires Solid(space, phrase) && Occurs(phrase, Normalized(space, lines)) && |phrase| <= overlap + 1
    ensures exists family, child ::
              && family in Families(space, Windows(space, Normalized(space, lines), parentSize, overlap), childSize, overlap)
              && Occurs(phrase, family.content)
              && child in family.children && Occurs(phrase, child)
  {
    WindowsKeepPhrases(space, Normalized(space, lines), parentSize, overlap, phrase);
    var parents := Windows(space, Normalized(space, lines), parentSize, overlap);
    var parent :| parent in parents && Occurs(phrase, parent);
    WindowsKeepPhrases(space, parent, childSize, overlap, phrase);
    var child :| child in Windows(space, parent, childSize, overlap) && Occurs(phrase, child);
    var k :| 0 <= k < |parents| && parents[k] == parent;
    var family := Families(space, parents, childSize, overlap)[k];
    assert family.content == parent && child in family.children;
  }

  /** In particular every such phrase on one line of the document. */
  lemma LinePhraseSurvives(space: Space, lines: seq<string>, i: nat, parentSize: nat, childSize: nat, overlap: nat, phrase: string)
    requires parentSize > overlap && childSize > overlap
    requires i < |lines|
    requires Solid(space, phrase) && Occurs(phrase, lines[i]) && |phrase| <= overlap + 1
    ensures exists family, child ::
              && family in Families(space, Windows(space, Normalized(space, lines), parentSize, overlap), childSize, overlap)
              && Occurs(phrase, family.content)
              && child in family.children && Occurs(phrase, child)
  {
    PhraseInNormalized(space, lines, i, phrase);
    PhraseSurvivesBothLevels(space, lines, parentSize, childSize, overlap, phrase);
  }

  lemma WindowsShape(space: Space, text: string, size: nat, overlap: nat, chunk: string)
    requires text != []
    requires chunk in Windows(space, text, size, overlap)
    ensures 0 < |chunk| <= size && Occurs(chunk, text)
  {
    if |text| <= size {
      assert text[0..0 + |text|] == text;
      assert At(text, text, 0);
    } else {
      WindowsFromShape(space, text, size, Step(size, overlap), 0, chunk);
    }
  }

  /** Chunks of both levels are not empty, fit their window, and are pieces of what they were cut
      from. */
  lemma ChunksFit(space: Space, lines: seq<string>, parentSize: nat, childSize: nat, overlap: nat)
    ensures var text := Normalized(space, lines);
            text != [] ==>
              forall family :: family in Families(space, Windows(space, text, parentSize, overlap), childSize, overlap) ==>
                && 0 < |family.content| <= parentSize && Occurs(family.content, text)
                && forall child :: child in family.children ==> 0 < |child| <= childSize && Occurs(child, family.content)
  {
    var text := Normalized(space, lines);
    var parents := Windows(space, text, parentSize, overlap);
    forall family | text != [] && family in Families(space, parents, childSize, overlap)
      ensures 0 < |family.content| <= parentSize && Occurs(family.content, text)
      ensures forall child :: child in family.children ==> 0 < |child| <= childSize && Occurs(child, family.content)
    {
      var k :| 0 <= k < |parents| && Families(space, parents, childSize, overlap)[k] == family;
      assert family.content in parents;
      WindowsShape(space, text, parentSize, overlap, family.content);
      forall child | child in family.children
        ensures 0 < |child| <= childSize && Occurs(child, family.content)
      {
        WindowsShape(space, family.content, childSize, overlap, child);
      }
    }
  }
}

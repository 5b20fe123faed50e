/** The paragraph chunker of the document upload path
    (backend/app/services/chunking.py): the text is split into lines, each
    line is stripped, blank lines are dropped, and the remaining paragraphs
    are packed greedily, in order, into chunks joined with a newline. */
module Chunking {
  import opened Text

  /** Default `max_chars` of `chunk_text`. */
  const DefaultMaxChars: int := 2000

  /** A paragraph as the chunker keeps it: non-empty, stripped, one line. */
  predicate IsParagraph(p: string) {
    p != [] && IsStripped(p) && '\n' !in p
  }

  predicate AllParagraphs(ps: seq<string>) {
    forall i :: 0 <= i < |ps| ==> IsParagraph(ps[i])
  }

  /** `[p.strip() for p in lines if p.strip()]`. */
  function StripNonBlank(lines: seq<string>): (r: seq<string>)
    requires forall i :: 0 <= i < |lines| ==> '\n' !in lines[i]
    ensures AllParagraphs(r)
    ensures |r| <= |lines|
    ensures r == [] <==> AllBlank(lines)
    decreases |lines|
  {
    if |lines| == 0 then []
    else
      var p := Strip(lines[0]);
      var rest := StripNonBlank(lines[1..]);
      if p != [] then
        assert IsParagraph(p) by {
          StripKeepsOut(lines[0], '\n');
        }
        ParagraphsCons(p, rest);
        [p] + rest
      else rest
  }

  lemma ParagraphsCons(p: string, rest: seq<string>)
    requires IsParagraph(p) && AllParagraphs(rest)
    ensures AllParagraphs([p] + rest)
  {
    var r := [p] + rest;
    forall i | 0 <= i < |r| ensures IsParagraph(r[i]) {
      if i > 0 {
        assert r[i] == rest[i - 1];
      }
    }
  }

  /** Extraction works line by line: the paragraphs of two runs of lines
      are those of the first run followed by those of the second. */
  lemma {:induction false} StripNonBlankAppend(a: seq<string>, b: seq<string>)
    requires forall i :: 0 <= i < |a| ==> '\n' !in a[i]
    requires forall i :: 0 <= i < |b| ==> '\n' !in b[i]
    ensures StripNonBlank(a + b) == StripNonBlank(a) + StripNonBlank(b)
    decreases |a|
  {
    if |a| == 0 {
      assert a + b == b;
    } else {
      var ab := a + b;
      assert ab[0] == a[0];
      assert ab[1..] == a[1..] + b;
      StripNonBlankAppend(a[1..], b);
    }
  }

  /** One line yields its stripped text when it has a non-space character,
      and nothing when it is blank. */
  lemma StripNonBlankLine(l: string)
    requires '\n' !in l
    ensures StripNonBlank([l]) == if HasNonSpace(l) then [Strip(l)] else []
  {
    assert [l][1..] == [];
  }

  /** No line has a non-space character. */
  predicate AllBlank(lines: seq<string>)
    decreases |lines|
  {
    |lines| == 0 || (!HasNonSpace(lines[0]) && AllBlank(lines[1..]))
  }

  /** `AllBlank` line by line: no line has a non-space character. */
  lemma {:induction false} AllBlankIff(lines: seq<string>)
    ensures AllBlank(lines) <==> forall i :: 0 <= i < |lines| ==> !HasNonSpace(lines[i])
    decreases |lines|
  {
    if |lines| > 0 {
      AllBlankIff(lines[1..]);
      assert forall i :: 1 <= i < |lines| ==> lines[i] == lines[1..][i - 1];
    }
  }

  /** The paragraphs of `text`, in order: its stripped non-blank lines. */
  function Paragraphs(text: string): (r: seq<string>)
    ensures AllParagraphs(r)
  {
    StripNonBlank(Split(text, '\n'))
  }

  /** Python's running `current_len` for a group: each paragraph counts its
      length plus one for the newline that follows it. */
  function Weight(g: seq<string>): nat
    decreases |g|
  {
    if |g| == 0 then 0 else |g[0]| + 1 + Weight(g[1..])
  }

  /** The groups laid end to end. */
  function Flatten(gs: seq<seq<string>>): seq<string>
    decreases |gs|
  {
    if |gs| == 0 then [] else gs[0] + Flatten(gs[1..])
  }

  /** The reference definition of the chunker's packing, independent of its
      loop: the groups cover the paragraphs exactly and in order, none is
      empty, a group of two or more paragraphs fits the budget, and the first
      paragraph of each next group would not have fitted into the previous
      group. */
  predicate IsGreedyPacking(paras: seq<string>, gs: seq<seq<string>>, maxChars: int) {
    && Flatten(gs) == paras
    && (forall i :: 0 <= i < |gs| ==> |gs[i]| > 0)
    && (forall i :: 0 <= i < |gs| ==> |gs[i]| >= 2 ==> Weight(gs[i]) <= maxChars)
    && (forall i :: 0 <= i < |gs| - 1 ==> Weight(gs[i]) + |gs[i + 1][0]| + 1 > maxChars)
  }

  /** The loop of `chunk_text` from some iteration on: `current` is the open
      group and `currentLen` its running length. The result is a greedy
      packing of the open group followed by the remaining paragraphs. */
  function PackFrom(paras: seq<string>, maxChars: int, current: seq<string>, currentLen: int)
    : (gs: seq<seq<string>>)
    requires currentLen == Weight(current)
    requires |current| >= 2 ==> Weight(current) <= maxChars
    ensures IsGreedyPacking(current + paras, gs, maxChars)
    decreases |paras|
  {
    if |paras| == 0 then
      assert current + paras == current;
      if |current| > 0 then
        assert Flatten([current]) == current + Flatten([]);
        [current]
      else []
    else
      var p := paras[0];
      if currentLen + |p| + 1 > maxChars && |current| > 0 then
        assert Weight([p]) == |p| + 1 + Weight([]);
        var rest := PackFrom(paras[1..], maxChars, [p], |p| + 1);
        assert [p] + paras[1..] == paras;
        FlattenHead(rest);
        GreedyCons(current, rest, paras, maxChars);
        [current] + rest
      else
        WeightConcat(current, [p]);
        assert Weight([p]) == |p| + 1 + Weight([]);
        assert current + paras == (current + [p]) + paras[1..];
        PackFrom(paras[1..], maxChars, current + [p], currentLen + |p| + 1)
  }

  /** `chunk_text`'s packing of a list of paragraphs, from an empty buffer. */
  function Pack(paras: seq<string>, maxChars: int): (gs: seq<seq<string>>)
    ensures IsGreedyPacking(paras, gs, maxChars)
  {
    assert [] + paras == paras;
    PackFrom(paras, maxChars, [], 0)
  }

  /** `"\n".join(g)` for every group. */
  function JoinGroups(gs: seq<seq<string>>): (r: seq<string>)
    ensures |r| == |gs|
    ensures forall i :: 0 <= i < |gs| ==> r[i] == Join(gs[i], "\n")
    decreases |gs|
  {
    if |gs| == 0 then [] else [Join(gs[0], "\n")] + JoinGroups(gs[1..])
  }

  /** `c.split("\n")` for every chunk. */
  function LineGroups(chunks: seq<string>): (r: seq<seq<string>>)
    ensures |r| == |chunks|
    ensures forall i :: 0 <= i < |chunks| ==> r[i] == Split(chunks[i], '\n')
    decreases |chunks|
  {
    if |chunks| == 0 then [] else [Split(chunks[0], '\n')] + LineGroups(chunks[1..])
  }

  /** `chunk_text(text, max_chars)`. Every chunk is non-empty; splitting the
      chunks back into lines yields exactly the paragraphs of the text; a
      chunk of several paragraphs is shorter than `maxChars`; the first line
      of each next chunk would have overflowed the previous one; there are
      never more chunks than paragraphs, and there are none exactly when the
      text is blank. */
  function ChunkText(text: string, maxChars: int): (chunks: seq<string>)
    ensures forall i :: 0 <= i < |chunks| ==> chunks[i] != []
    ensures Flatten(LineGroups(chunks)) == Paragraphs(text)
    ensures forall i :: 0 <= i < |chunks| && '\n' in chunks[i] ==> |chunks[i]| < maxChars
    ensures forall i :: 0 <= i < |chunks| - 1 ==>
              |chunks[i]| + |Split(chunks[i + 1], '\n')[0]| + 2 > maxChars
    ensures |chunks| <= |Paragraphs(text)|
    ensures chunks == [] <==> !HasNonSpace(text)
  {
    var paras := Paragraphs(text);
    var gs := Pack(paras, maxChars);
    var chunks := JoinGroups(gs);
    GroupsOfParagraphs(gs);
    GroupChunks(gs, maxChars);
    FewerGroups(gs);
    ParagraphsEmptyIff(text);
    chunks
  }

  // ---------------------------------------------------------------------
  // Properties of ChunkText relating several calls or all packings

  /** The chunker's packing is the only greedy packing: any grouping of the
      paragraphs that meets the reference definition joins to exactly the
      chunks `chunk_text` returns. */
  lemma ChunkTextUnique(text: string, maxChars: int, gs: seq<seq<string>>)
    requires IsGreedyPacking(Paragraphs(text), gs, maxChars)
    ensures ChunkText(text, maxChars) == JoinGroups(gs)
  {
    GreedyPackingUnique(Paragraphs(text), gs, Pack(Paragraphs(text), maxChars), maxChars);
  }

  /** The line groups of the chunks are themselves a greedy packing of the
      paragraphs. */
  lemma ChunkTextIsGreedy(text: string, maxChars: int)
    ensures IsGreedyPacking(Paragraphs(text), LineGroups(ChunkText(text, maxChars)), maxChars)
  {
    var gs := Pack(Paragraphs(text), maxChars);
    GroupsOfParagraphs(gs);
    GroupChunks(gs, maxChars);
  }

  /** A paragraph too long to share a chunk (`len + 1 > max_chars`) is never
      split: it is emitted as a chunk of its own. */
  lemma OversizedParagraphStandsAlone(text: string, maxChars: int, k: int)
    requires 0 <= k < |Paragraphs(text)|
    requires |Paragraphs(text)[k]| + 1 > maxChars
    ensures Paragraphs(text)[k] in ChunkText(text, maxChars)
  {
    var paras := Paragraphs(text);
    var gs := Pack(paras, maxChars);
    var i := OversizedGroup(paras, gs, maxChars, k);
    assert JoinGroups(gs)[i] == Join([paras[k]], "\n");
  }

  /** In a greedy packing, a paragraph too long to share a group is a group
      of its own. */
  lemma OversizedGroup(paras: seq<string>, gs: seq<seq<string>>, maxChars: int, k: int) returns (i: int)
    requires IsGreedyPacking(paras, gs, maxChars)
    requires 0 <= k < |paras| && |paras[k]| + 1 > maxChars
    ensures 0 <= i < |gs| && gs[i] == [paras[k]]
  {
    var j;
    i, j := FlattenIndex(gs, k);
    var g := gs[i];
    assert |g| >= 2 ==> Weight(g) <= maxChars;
    assert Weight(g) >= |g[j]| + 1 by {
      WeightConcat(g[..j], g[j..]);
      assert g[..j] + g[j..] == g;
      WeightConcat([g[j]], g[j + 1..]);
      assert [g[j]] + g[j + 1..] == g[j..];
    }
    assert |g| == 1;
  }

  /** Chunking is idempotent: re-chunking the chunks joined by newlines gives
      back the same chunks. */
  lemma ChunkTextIdempotent(text: string, maxChars: int)
    ensures ChunkText(Join(ChunkText(text, maxChars), "\n"), maxChars) == ChunkText(text, maxChars)
  {
    var paras := Paragraphs(text);
    var gs := Pack(paras, maxChars);
    var chunks := JoinGroups(gs);
    GroupsOfParagraphs(gs);
    JoinFlatten(gs);
    var joined := Join(chunks, "\n");
    assert joined == Join(paras, "\n");
    if |paras| == 0 {
      assert Split(joined, '\n') == [""];
      assert Paragraphs(joined) == paras;
    } else {
      SplitJoin(paras, '\n');
      StripNonBlankOfParagraphs(paras);
      assert Paragraphs(joined) == paras;
    }
  }

  // ---------------------------------------------------------------------
  // Helpers

  lemma {:induction false} WeightConcat(a: seq<string>, b: seq<string>)
    ensures Weight(a + b) == Weight(a) + Weight(b)
    decreases |a|
  {
    if |a| == 0 {
      assert a + b == b;
    } else {
      assert (a + b)[1..] == a[1..] + b;
      WeightConcat(a[1..], b);
    }
  }

  lemma WeightPrefix(g: seq<string>, k: int)
    requires 0 <= k <= |g|
    ensures Weight(g[..k]) <= Weight(g)
  {
    WeightConcat(g[..k], g[k..]);
    assert g[..k] + g[k..] == g;
  }

  lemma FlattenHead(gs: seq<seq<string>>)
    requires |gs| > 0 && |gs[0]| > 0
    ensures |Flatten(gs)| > 0 && Flatten(gs)[0] == gs[0][0]
  {
  }

  lemma {:induction false} FlattenIndex(gs: seq<seq<string>>, k: int) returns (i: int, j: int)
    requires 0 <= k < |Flatten(gs)|
    ensures 0 <= i < |gs| && 0 <= j < |gs[i]| && gs[i][j] == Flatten(gs)[k]
    decreases |gs|
  {
    if k < |gs[0]| {
      i, j := 0, k;
    } else {
      var i', j' := FlattenIndex(gs[1..], k - |gs[0]|);
      i, j := i' + 1, j';
    }
  }

  lemma {:induction false} FewerGroups(gs: seq<seq<string>>)
    requires forall i :: 0 <= i < |gs| ==> |gs[i]| > 0
    ensures |gs| <= |Flatten(gs)|
    ensures gs == [] <==> Flatten(gs) == []
    decreases |gs|
  {
    if |gs| > 0 {
      FewerGroups(gs[1..]);
    }
  }

  /** Prepending a group that fits and that the next group's first paragraph
      would overflow keeps a packing greedy. */
  lemma GreedyCons(g: seq<string>, rest: seq<seq<string>>, paras: seq<string>, maxChars: int)
    requires IsGreedyPacking(paras, rest, maxChars)
    requires |g| > 0
    requires |g| >= 2 ==> Weight(g) <= maxChars
    requires |rest| > 0 ==> Weight(g) + |rest[0][0]| + 1 > maxChars
    ensures IsGreedyPacking(g + paras, [g] + rest, maxChars)
  {
    var gs := [g] + rest;
    assert gs[1..] == rest;
    assert Flatten(gs) == g + paras;
    forall i | 0 <= i < |gs|
      ensures |gs[i]| > 0
      ensures |gs[i]| >= 2 ==> Weight(gs[i]) <= maxChars
    {
      if i > 0 {
        assert gs[i] == rest[i - 1];
      }
    }
    forall i | 0 <= i < |gs| - 1
      ensures Weight(gs[i]) + |gs[i + 1][0]| + 1 > maxChars
    {
      if i > 0 {
        assert gs[i] == rest[i - 1] && gs[i + 1] == rest[i];
      }
    }
  }

  /** Dropping the first group of a greedy packing leaves a greedy packing
      of the remaining paragraphs. */
  lemma GreedyTail(paras: seq<string>, gs: seq<seq<string>>, maxChars: int)
    requires IsGreedyPacking(paras, gs, maxChars)
    requires |gs| > 0
    ensures |gs[0]| <= |paras| && paras[..|gs[0]|] == gs[0]
    ensures IsGreedyPacking(paras[|gs[0]|..], gs[1..], maxChars)
  {
    assert paras == gs[0] + Flatten(gs[1..]);
    var t := gs[1..];
    forall i | 0 <= i < |t| - 1
      ensures Weight(t[i]) + |t[i + 1][0]| + 1 > maxChars
    {
      assert t[i] == gs[i + 1] && t[i + 1] == gs[i + 2];
    }
  }

  /** In two greedy packings of the same paragraphs, the first group of one
      is at least as long as that of the other. */
  lemma FirstGroupNotShorter(paras: seq<string>, a: seq<seq<string>>, b: seq<seq<string>>, maxChars: int)
    requires IsGreedyPacking(paras, a, maxChars)
    requires IsGreedyPacking(paras, b, maxChars)
    requires |a| > 0 && |b| > 0
    ensures |a[0]| >= |b[0]|
  {
    GreedyTail(paras, a, maxChars);
    GreedyTail(paras, b, maxChars);
    var x, y := a[0], b[0];
    if |x| < |y| {
      var tail := Flatten(a[1..]);
      assert paras == x + tail;
      assert |a| > 1;
      FlattenHead(a[1..]);
      var n := a[1][0];
      assert paras[|x|] == n;
      assert y[..|x|] == x;
      assert y[..|x| + 1] == x + [n];
      WeightConcat(x, [n]);
      assert Weight([n]) == |n| + 1 + Weight([]);
      WeightPrefix(y, |x| + 1);
    }
  }

  /** Greedy packings are unique. */
  lemma {:induction false} GreedyPackingUnique(paras: seq<string>, a: seq<seq<string>>, b: seq<seq<string>>, maxChars: int)
    requires IsGreedyPacking(paras, a, maxChars)
    requires IsGreedyPacking(paras, b, maxChars)
    ensures a == b
    decreases |a|
  {
    FewerGroups(a);
    FewerGroups(b);
    if |a| > 0 && |b| > 0 {
      FirstGroupNotShorter(paras, a, b, maxChars);
      FirstGroupNotShorter(paras, b, a, maxChars);
      GreedyTail(paras, a, maxChars);
      GreedyTail(paras, b, maxChars);
      GreedyPackingUnique(paras[|a[0]|..], a[1..], b[1..], maxChars);
      assert a == [a[0]] + a[1..] && b == [b[0]] + b[1..];
    }
  }

  /** Every group of a packing of paragraphs holds paragraphs. */
  lemma {:induction false} GroupsOfParagraphs(gs: seq<seq<string>>)
    requires AllParagraphs(Flatten(gs))
    ensures forall i :: 0 <= i < |gs| ==> AllParagraphs(gs[i])
    decreases |gs|
  {
    if |gs| > 0 {
      var f := Flatten(gs);
      assert f == gs[0] + Flatten(gs[1..]);
      forall j | 0 <= j < |gs[0]| ensures IsParagraph(gs[0][j]) {
        assert f[j] == gs[0][j];
      }
      forall j | 0 <= j < |Flatten(gs[1..])| ensures IsParagraph(Flatten(gs[1..])[j]) {
        assert f[|gs[0]| + j] == Flatten(gs[1..])[j];
      }
      GroupsOfParagraphs(gs[1..]);
      forall i | 1 <= i < |gs| ensures AllParagraphs(gs[i]) {
        assert gs[i] == gs[1..][i - 1];
      }
    }
  }

  /** Length and shape of one joined group of paragraphs. */
  lemma {:induction false} JoinedGroup(g: seq<string>)
    requires |g| > 0 && AllParagraphs(g)
    ensures |Join(g, "\n")| == Weight(g) - 1
    ensures Weight(g) >= |g[0]| + 1
    ensures '\n' in Join(g, "\n") <==> |g| >= 2
    ensures Split(Join(g, "\n"), '\n') == g
    decreases |g|
  {
    SplitJoin(g, '\n');
    if |g| >= 2 {
      JoinedGroup(g[1..]);
      var s := Join(g, "\n");
      assert s == g[0] + "\n" + Join(g[1..], "\n");
      assert s[|g[0]|] == '\n';
    }
  }

  /** The string-level facts of a greedy packing of paragraphs, once each
      group is joined into a chunk. */
  lemma GroupChunks(gs: seq<seq<string>>, maxChars: int)
    requires IsGreedyPacking(Flatten(gs), gs, maxChars)
    requires forall i :: 0 <= i < |gs| ==> AllParagraphs(gs[i])
    ensures LineGroups(JoinGroups(gs)) == gs
    ensures forall i :: 0 <= i < |gs| ==> JoinGroups(gs)[i] != []
    ensures forall i :: 0 <= i < |gs| && '\n' in JoinGroups(gs)[i] ==> |JoinGroups(gs)[i]| < maxChars
    ensures forall i :: 0 <= i < |gs| - 1 ==>
              |JoinGroups(gs)[i]| + |Split(JoinGroups(gs)[i + 1], '\n')[0]| + 2 > maxChars
  {
    var cs := JoinGroups(gs);
    forall i | 0 <= i < |gs|
      ensures Split(cs[i], '\n') == gs[i]
      ensures cs[i] != []
      ensures '\n' in cs[i] ==> |cs[i]| < maxChars
      ensures |cs[i]| == Weight(gs[i]) - 1
    {
      JoinedGroup(gs[i]);
    }
    assert LineGroups(cs) == gs;
  }

  /** The joined chunks are the joined paragraphs. */
  lemma {:induction false} JoinFlatten(gs: seq<seq<string>>)
    requires forall i :: 0 <= i < |gs| ==> |gs[i]| > 0
    ensures Join(JoinGroups(gs), "\n") == Join(Flatten(gs), "\n")
    decreases |gs|
  {
    if |gs| == 1 {
      assert gs[1..] == [];
      assert Flatten(gs) == gs[0];
      assert JoinGroups(gs) == [Join(gs[0], "\n")];
    } else if |gs| > 1 {
      JoinFlatten(gs[1..]);
      FewerGroups(gs[1..]);
      var cs := JoinGroups(gs);
      assert cs == [cs[0]] + JoinGroups(gs[1..]);
      JoinAppend(gs[0], Flatten(gs[1..]), "\n");
    }
  }

  /** Paragraphs are fixed points of strip-and-drop-blank. */
  lemma {:induction false} StripNonBlankOfParagraphs(ps: seq<string>)
    requires AllParagraphs(ps)
    ensures StripNonBlank(ps) == ps
    decreases |ps|
  {
    if |ps| > 0 {
      var rest := ps[1..];
      assert AllParagraphs(rest) by {
        forall i | 0 <= i < |rest| ensures IsParagraph(rest[i]) {
          assert rest[i] == ps[i + 1];
        }
      }
      StripNonBlankOfParagraphs(rest);
      StripNonBlankParagraphHead(ps);
    }
  }

  lemma StripNonBlankParagraphHead(ps: seq<string>)
    requires AllParagraphs(ps) && |ps| > 0
    ensures StripNonBlank(ps) == [ps[0]] + StripNonBlank(ps[1..])
  {
    assert IsParagraph(ps[0]);
    assert Strip(ps[0]) == ps[0];
  }

  /** A string has a non-space character exactly when one of its lines does
      (the newline separator is itself whitespace). */
  lemma {:induction false} BlankLines(parts: seq<string>)
    ensures HasNonSpace(Join(parts, "\n")) <==> !AllBlank(parts)
    decreases |parts|
  {
    if |parts| == 1 {
      assert parts[1..] == [];
    } else if |parts| >= 2 {
      BlankLines(parts[1..]);
      var rest := Join(parts[1..], "\n");
      NonSpaceConcat(parts[0], "\n");
      NonSpaceConcat(parts[0] + "\n", rest);
    }
  }

  lemma NonSpaceConcat(a: string, b: string)
    ensures HasNonSpace(a + b) <==> HasNonSpace(a) || HasNonSpace(b)
  {
    var s := a + b;
    if HasNonSpace(s) {
      var k :| 0 <= k < |s| && !IsSpace(s[k]);
      if k < |a| {
        assert a[k] == s[k];
      } else {
        assert b[k - |a|] == s[k];
      }
    }
    if HasNonSpace(a) {
      var k :| 0 <= k < |a| && !IsSpace(a[k]);
      assert s[k] == a[k];
    }
    if HasNonSpace(b) {
      var k :| 0 <= k < |b| && !IsSpace(b[k]);
      assert s[|a| + k] == b[k];
    }
  }

  /** The paragraphs of two texts joined by a newline are the paragraphs of
      the first followed by those of the second. */
  lemma ParagraphsAppend(a: string, b: string)
    ensures Paragraphs(a + "\n" + b) == Paragraphs(a) + Paragraphs(b)
  {
    SplitAppend(a, b, '\n');
    StripNonBlankAppend(Split(a, '\n'), Split(b, '\n'));
  }

  /** A single line is one paragraph, its stripped text, unless it is blank. */
  lemma ParagraphsOfLine(l: string)
    requires '\n' !in l
    ensures Paragraphs(l) == if HasNonSpace(l) then [Strip(l)] else []
  {
    assert Split(l, '\n') == [l];
    StripNonBlankLine(l);
  }

  lemma ParagraphsEmptyIff(text: string)
    ensures Paragraphs(text) == [] <==> !HasNonSpace(text)
  {
    BlankLines(Split(text, '\n'));
  }
}

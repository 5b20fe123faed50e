/** The few Python `str` operations the backend relies on, over strings of
    Unicode code points: `isspace`, `strip`, `split` on one separator
    character, and `join`. */
module Text {

  /** Python's `str.isspace()` for one code point: the ASCII controls TAB to
      CR, the information separators U+001C to U+001F, SPACE, NEL, NBSP, and
      the Unicode space separators and line/paragraph separators. */
  predicate IsSpace(c: char) {
    var n := c as int;
    || (0x09 <= n <= 0x0D)
    || (0x1C <= n <= 0x20)
    || n == 0x85
    || n == 0xA0
    || n == 0x1680
    || (0x2000 <= n <= 0x200A)
    || n == 0x2028
    || n == 0x2029
    || n == 0x202F
    || n == 0x205F
    || n == 0x3000
  }

  /** Some character of `s` is not whitespace (Python: `bool(s.strip())`). */
  predicate HasNonSpace(s: string) {
    exists i :: 0 <= i < |s| && !IsSpace(s[i])
  }

  /** `s` neither starts nor ends with whitespace. */
  predicate IsStripped(s: string) {
    s == [] || (!IsSpace(s[0]) && !IsSpace(s[|s| - 1]))
  }

  /** `s.lstrip()`: drops exactly the leading run of whitespace. */
  function TrimLeft(s: string): (r: string)
    ensures |r| <= |s| && r == s[|s| - |r|..]
    ensures forall k :: 0 <= k < |s| - |r| ==> IsSpace(s[k])
    ensures r == [] || !IsSpace(r[0])
  {
    if |s| > 0 && IsSpace(s[0]) then TrimLeft(s[1..]) else s
  }

  /** `s.rstrip()`: drops exactly the trailing run of whitespace. */
  function TrimRight(s: string): (r: string)
    ensures |r| <= |s| && r == s[..|r|]
    ensures forall k :: |r| <= k < |s| ==> IsSpace(s[k])
    ensures r == [] || !IsSpace(r[|r| - 1])
  {
    if |s| > 0 && IsSpace(s[|s| - 1]) then TrimRight(s[..|s| - 1]) else s
  }

  /** Every character of `t` is whitespace. */
  predicate AllSpace(t: string) {
    forall k :: 0 <= k < |t| ==> IsSpace(t[k])
  }

  /** `r` is the slice of `s` starting at `a`, and what `s` holds before and
      after that slice is whitespace. */
  ghost predicate StripsAt(s: string, a: int, r: string) {
    && 0 <= a <= |s| - |r|
    && r == s[a..a + |r|]
    && AllSpace(s[..a])
    && AllSpace(s[a + |r|..])
  }

  /** `s.strip()`: the slice of `s` left once the leading and the trailing
      whitespace runs are removed. */
  function Strip(s: string): (r: string)
    ensures IsStripped(r)
    ensures exists a :: StripsAt(s, a, r)
    ensures r != [] <==> HasNonSpace(s)
    ensures IsStripped(s) ==> r == s
  {
    var l := TrimLeft(s);
    var r := TrimRight(l);
    TrimsStripAt(s, l, r);
    assert StripsAt(s, |s| - |l|, r);
    TrimsKeepNonSpace(s);
    r
  }

  /** A suffix `l` of `s` after a whitespace run, cut back to a prefix `r`
      before a whitespace run, sits in `s` as `StripsAt` describes. */
  lemma TrimsStripAt(s: string, l: string, r: string)
    requires |l| <= |s| && l == s[|s| - |l|..]
    requires forall k :: 0 <= k < |s| - |l| ==> IsSpace(s[k])
    requires |r| <= |l| && r == l[..|r|]
    requires forall k :: |r| <= k < |l| ==> IsSpace(l[k])
    ensures StripsAt(s, |s| - |l|, r)
  {
    var a := |s| - |l|;
    assert r == s[a..a + |r|] by {
      SliceOfSuffix(s, a, |r|);
    }
    assert AllSpace(s[..a]) by {
      PrefixAllSpace(s, a);
    }
    assert AllSpace(s[a + |r|..]) by {
      SuffixAllSpace(l, |r|);
      DropOfSuffix(s, a, |r|);
    }
  }

  lemma SliceOfSuffix(s: string, a: int, m: int)
    requires 0 <= a <= |s| && 0 <= m <= |s| - a
    ensures s[a..][..m] == s[a..a + m]
  {
  }

  lemma DropOfSuffix(s: string, a: int, m: int)
    requires 0 <= a <= |s| && 0 <= m <= |s| - a
    ensures s[a..][m..] == s[a + m..]
  {
  }

  lemma PrefixAllSpace(s: string, a: int)
    requires 0 <= a <= |s|
    requires forall k :: 0 <= k < a ==> IsSpace(s[k])
    ensures AllSpace(s[..a])
  {
  }

  lemma SuffixAllSpace(s: string, m: int)
    requires 0 <= m <= |s|
    requires forall k :: m <= k < |s| ==> IsSpace(s[k])
    ensures AllSpace(s[m..])
  {
    forall k | 0 <= k < |s| - m ensures IsSpace(s[m..][k]) {
      assert s[m..][k] == s[m + k];
    }
  }

  lemma TrimsKeepNonSpace(s: string)
    ensures HasNonSpace(s) ==> TrimRight(TrimLeft(s)) != []
  {
    if HasNonSpace(s) {
      var l := TrimLeft(s);
      var i :| 0 <= i < |s| && !IsSpace(s[i]);
      KeepsNonSpace(s, l, i);
    }
  }

  /** A non-space character of `s` survives in a suffix `l` that drops only
      whitespace, so cutting trailing whitespace from `l` leaves something. */
  lemma KeepsNonSpace(s: string, l: string, i: int)
    requires |l| <= |s| && l == s[|s| - |l|..]
    requires forall k :: 0 <= k < |s| - |l| ==> IsSpace(s[k])
    requires 0 <= i < |s| && !IsSpace(s[i])
    ensures TrimRight(l) != []
  {
    var j := i - (|s| - |l|);
    assert l[j] == s[i];
    var r := TrimRight(l);
    assert j < |r|;
  }

  /** Stripping never introduces a character: a separator absent from `s` is
      absent from `Strip(s)`. */
  lemma StripKeepsOut(s: string, c: char)
    requires c !in s
    ensures c !in Strip(s)
  {
    var r := Strip(s);
    var a :| StripsAt(s, a, r);
  }

  /** Each part's length plus one separator's: what a part occupies in a
      join, counting a separator after every part, the last one included. */
  function Footprint(parts: seq<string>, sep: string): nat
    decreases |parts|
  {
    if |parts| == 0 then 0 else |parts[0]| + |sep| + Footprint(parts[1..], sep)
  }

  /** `sep.join(parts)`; the empty list joins to the empty string. */
  function Join(parts: seq<string>, sep: string): string
    decreases |parts|
  {
    if |parts| == 0 then ""
    else if |parts| == 1 then parts[0]
    else parts[0] + sep + Join(parts[1..], sep)
  }

  /** The parts appear in order with one separator between neighbours and
      none at either end: a join starts with its first part and is one
      separator shorter than the footprint. */
  lemma {:induction false} JoinShape(parts: seq<string>, sep: string)
    ensures |parts| == 0 ==> Join(parts, sep) == []
    ensures |parts| > 0 ==> |Join(parts, sep)| + |sep| == Footprint(parts, sep)
    ensures |parts| > 0 ==> Join(parts, sep)[..|parts[0]|] == parts[0]
    decreases |parts|
  {
    if |parts| > 1 {
      JoinShape(parts[1..], sep);
    }
  }

  /** The first position of `c` in `s`. */
  function IndexOf(s: string, c: char): (i: nat)
    requires c in s
    ensures i < |s| && s[i] == c && c !in s[..i]
  {
    if s[0] == c then 0
    else
      var j := IndexOf(s[1..], c);
      assert s[..j + 1] == [s[0]] + s[1..][..j];
      j + 1
  }

  /** `s.split(sep)` for a one-character separator: the pieces between
      separators, never an empty list, none containing `sep`, and joining them
      back with `sep` restores `s`. */
  function Split(s: string, sep: char): (r: seq<string>)
    ensures |r| >= 1
    ensures forall i :: 0 <= i < |r| ==> sep !in r[i]
    ensures Join(r, [sep]) == s
    decreases |s|
  {
    if sep !in s then [s]
    else
      var i := IndexOf(s, sep);
      var rest := Split(s[i + 1..], sep);
      var r := [s[..i]] + rest;
      assert r[1..] == rest;
      assert s == s[..i] + [sep] + s[i + 1..];
      r
  }

  /** Joining two non-empty lists: the separator appears once between them. */
  lemma {:induction false} JoinAppend(a: seq<string>, b: seq<string>, sep: string)
    requires |a| >= 1 && |b| >= 1
    ensures Join(a + b, sep) == Join(a, sep) + sep + Join(b, sep)
    decreases |a|
  {
    if |a| == 1 {
      assert (a + b)[1..] == b;
    } else {
      assert (a + b)[1..] == a[1..] + b;
      JoinAppend(a[1..], b, sep);
    }
  }

  /** `split` undoes `join` when no part contains the separator: the pieces
      come back exactly, none lost, merged or reordered. */
  lemma {:induction false} SplitJoin(parts: seq<string>, sep: char)
    requires |parts| >= 1
    requires forall i :: 0 <= i < |parts| ==> sep !in parts[i]
    ensures Split(Join(parts, [sep]), sep) == parts
    decreases |parts|
  {
    if |parts| > 1 {
      var p := parts[0];
      var tail := Join(parts[1..], [sep]);
      assert Join(parts, [sep]) == p + [sep] + tail;
      SplitCons(p, tail, sep);
      SplitJoin(parts[1..], sep);
      assert parts == [p] + parts[1..];
    }
  }

  /** Splitting at the first separator: the piece before it, then the split
      of the rest. */
  lemma SplitCons(p: string, tail: string, sep: char)
    requires sep !in p
    ensures Split(p + [sep] + tail, sep) == [p] + Split(tail, sep)
  {
    var s := p + [sep] + tail;
    assert s[|p|] == sep;
    var i := IndexOf(s, sep);
    assert s[..|p|] == p;
    assert i == |p|;
    assert s[i + 1..] == tail;
  }

  /** Splitting two strings joined by the separator gives the pieces of the
      first followed by the pieces of the second. */
  lemma {:induction false} SplitAppend(a: string, b: string, sep: char)
    ensures Split(a + [sep] + b, sep) == Split(a, sep) + Split(b, sep)
    decreases |a|
  {
    if sep !in a {
      SplitCons(a, b, sep);
    } else {
      var i := IndexOf(a, sep);
      SplitAppend(a[i + 1..], b, sep);
      SplitAppendStep(a, b, sep, i);
    }
  }

  /** The inductive step of `SplitAppend`: splitting at the first separator
      of `a`. */
  lemma SplitAppendStep(a: string, b: string, sep: char, i: int)
    requires 0 <= i < |a| && a[i] == sep && sep !in a[..i]
    requires Split(a[i + 1..] + [sep] + b, sep) == Split(a[i + 1..], sep) + Split(b, sep)
    ensures Split(a + [sep] + b, sep) == Split(a, sep) + Split(b, sep)
  {
    SplitAtAppend(a, b, sep, i);
    SplitAt(a, sep, i);
    ConsAppend(a[..i], Split(a[i + 1..], sep), Split(b, sep));
  }

  /** Splitting at the first separator, given by its position. */
  lemma SplitAt(s: string, sep: char, i: int)
    requires 0 <= i < |s| && s[i] == sep && sep !in s[..i]
    ensures Split(s, sep) == [s[..i]] + Split(s[i + 1..], sep)
  {
    assert IndexOf(s, sep) == i;
  }

  /** `SplitAt` for `a + [sep] + b`, where the first separator lies in `a`. */
  lemma SplitAtAppend(a: string, b: string, sep: char, i: int)
    requires 0 <= i < |a| && a[i] == sep && sep !in a[..i]
    ensures Split(a + [sep] + b, sep) == [a[..i]] + Split(a[i + 1..] + [sep] + b, sep)
  {
    var s := a + [sep] + b;
    assert s[..i] == a[..i];
    assert s[i + 1..] == a[i + 1..] + [sep] + b;
    SplitAt(s, sep, i);
  }

  lemma ConsAppend(p: string, xs: seq<string>, ys: seq<string>)
    ensures [p] + (xs + ys) == ([p] + xs) + ys
  {
  }

  /** Removing trailing whitespace from `a + b` leaves `a` untouched when `b`
      has a non-space character. */
  lemma {:induction false} TrimRightAppend(a: string, b: string)
    requires HasNonSpace(b)
    ensures TrimRight(a + b) == a + TrimRight(b)
    decreases |b|
  {
    var s := a + b;
    if IsSpace(b[|b| - 1]) {
      var b' := b[..|b| - 1];
      assert s[..|s| - 1] == a + b';
      var i :| 0 <= i < |b| && !IsSpace(b[i]);
      assert i < |b| - 1 && b'[i] == b[i];
      TrimRightAppend(a, b');
    }
  }

  /** Removing trailing whitespace from `a + b` removes all of `b` when `b`
      is blank. */
  lemma {:induction false} TrimRightBlank(a: string, b: string)
    requires !HasNonSpace(b)
    ensures TrimRight(a + b) == TrimRight(a)
    decreases |b|
  {
    if |b| > 0 {
      var s := a + b;
      assert !IsSpace(b[|b| - 1]) ==> HasNonSpace(b);
      assert s[..|s| - 1] == a + b[..|b| - 1];
      var b' := b[..|b| - 1];
      assert !HasNonSpace(b') by {
        forall i | 0 <= i < |b'| ensures IsSpace(b'[i]) {
          assert b'[i] == b[i];
          assert !IsSpace(b[i]) ==> HasNonSpace(b);
        }
      }
      TrimRightBlank(a, b');
    } else {
      assert a + b == a;
    }
  }

  lemma TrimLeftSpaceHead(c: char, rest: string)
    requires IsSpace(c)
    ensures TrimLeft([c] + rest) == TrimLeft(rest)
  {
    var t := [c] + rest;
    assert t[1..] == rest;
  }

  lemma TrimLeftNonSpaceHead(s: string)
    requires |s| > 0 && !IsSpace(s[0])
    ensures TrimLeft(s) == s
  {
  }

  lemma TrimRightSpaceTail(body: string, c: char)
    requires IsSpace(c)
    ensures TrimRight(body + [c]) == TrimRight(body)
  {
    var t := body + [c];
    assert t[..|t| - 1] == body;
  }

  lemma StripIsTrims(s: string)
    ensures Strip(s) == TrimRight(TrimLeft(s))
  {
  }
}

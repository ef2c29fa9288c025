/** The pieces of Python's built-in `str`, `list` and exception machinery that the
    contact book relies on, narrowed to ASCII text. */
module Builtins {

  /** The exceptions the contact book raises or catches. */
  datatype Exception =
    | ValueError(message: string)
    | TypeError
    | KeyError
    | NameError

  function Max(a: int, b: int): (m: int)
    ensures m >= a && m >= b && (m == a || m == b)
  {
    if a >= b then a else b
  }

  // ---------------------------------------------------------------------------
  // Characters

  predicate IsAsciiDigit(c: char) {
    '0' <= c <= '9'
  }

  /** `str.isdigit()`, restricted to ASCII digits: false on the empty string. */
  predicate IsDigits(s: string) {
    |s| > 0 && forall i :: 0 <= i < |s| ==> IsAsciiDigit(s[i])
  }

  function LowerChar(c: char): char {
    if 'A' <= c <= 'Z' then (c as int - 'A' as int + 'a' as int) as char else c
  }

  /** `str.lower()` on ASCII text: length-preserving, character by character. */
  function Lower(s: string): (r: string)
    ensures |r| == |s|
    ensures forall i :: 0 <= i < |s| ==> r[i] == LowerChar(s[i])
  {
    seq(|s|, i requires 0 <= i < |s| => LowerChar(s[i]))
  }

  // ---------------------------------------------------------------------------
  // Searching

  /** `list.index`-like search: the first position holding `x`, or -1. */
  function IndexOf<T(==)>(s: seq<T>, x: T): (i: int)
    ensures -1 <= i < |s|
    ensures i == -1 <==> x !in s
    ensures 0 <= i ==> s[i] == x && x !in s[..i]
  {
    if s == [] then -1
    else if s[0] == x then 0
    else
      var j := IndexOf(s[1..], x);
      assert s[1..][..if j < 0 then 0 else j] == s[1..1 + if j < 0 then 0 else j];
      if j == -1 then -1 else j + 1
  }

  /** `list.remove(x)` once the element is known to be present: the first
      occurrence goes, everything else keeps its order; without `x` nothing changes. */
  function RemoveFirst<T(==)>(s: seq<T>, x: T): (r: seq<T>)
    ensures x in s ==> |r| == |s| - 1
    ensures x !in s ==> r == s
  {
    var i := IndexOf(s, x);
    if i == -1 then s else s[..i] + s[i + 1..]
  }

  /** Cutting out position `i` takes exactly one copy of `s[i]` out of the multiset. */
  lemma CutMultiset<T>(s: seq<T>, i: int)
    requires 0 <= i < |s|
    ensures multiset(s[..i] + s[i + 1..]) == multiset(s) - multiset{s[i]}
  {
    assert s == s[..i] + [s[i]] + s[i + 1..];
  }

  /** No element occurs twice. */
  predicate Distinct<T(==)>(s: seq<T>) {
    forall i, j :: 0 <= i < j < |s| ==> s[i] != s[j]
  }

  /** Cutting out position `i` shifts everything after it down by one and keeps
      a sequence without repeats free of them. */
  lemma CutAt<T>(s: seq<T>, i: int)
    requires 0 <= i < |s|
    ensures var r := s[..i] + s[i + 1..];
            && |r| == |s| - 1
            && (forall a :: 0 <= a < i ==> r[a] == s[a])
            && (forall a :: i <= a < |r| ==> r[a] == s[a + 1])
            && (Distinct(s) ==> Distinct(r))
  {
    var r := s[..i] + s[i + 1..];
    assert forall a :: i <= a < |r| ==> r[a] == s[a + 1];
    if Distinct(s) {
      forall a, b | 0 <= a < b < |r| ensures r[a] != r[b] {
        var a', b' := if a < i then a else a + 1, if b < i then b else b + 1;
        assert r[a] == s[a'] && r[b] == s[b'];
      }
    }
  }

  /** In a sequence without repeats, the first occurrence of an element is its only one. */
  lemma IndexOfDistinct<T>(s: seq<T>, i: int)
    requires Distinct(s) && 0 <= i < |s|
    ensures IndexOf(s, s[i]) == i
  {
    var k := IndexOf(s, s[i]);
    assert s[..i + 1][i] == s[i];
  }

  /** Removing an element from a sequence without repeats removes it entirely and
      keeps the others. */
  lemma RemoveFirstDistinct<T>(s: seq<T>, x: T)
    requires Distinct(s)
    ensures Distinct(RemoveFirst(s, x))
    ensures forall y :: y in RemoveFirst(s, x) <==> y in s && y != x
  {
    var i := IndexOf(s, x);
    if i != -1 {
      CutAt(s, i);
      forall y ensures y in RemoveFirst(s, x) <==> y in s && y != x {
        CutMembers(s, i, y);
      }
    }
  }

  /** Cutting out position `i` of a sequence without repeats removes exactly
      the element there. */
  lemma CutMembers<T>(s: seq<T>, i: int, y: T)
    requires Distinct(s) && 0 <= i < |s|
    ensures y in s[..i] + s[i + 1..] <==> y in s && y != s[i]
  {
    var r := s[..i] + s[i + 1..];
    CutAt(s, i);
    if y in r {
      var a :| 0 <= a < |r| && r[a] == y;
      var b := if a < i then a else a + 1;
      assert s[b] == y && b != i;
    }
    if y in s && y != s[i] {
      var a :| 0 <= a < |s| && s[a] == y;
      assert r[if a < i then a else a - 1] == y;
    }
  }

  predicate OccursAt(s: string, sub: string, i: int) {
    0 <= i && i + |sub| <= |s| && s[i..i + |sub|] == sub
  }

  /** `str.find`: the first position at which `sub` occurs in `s`, or -1. */
  function Find(s: string, sub: string): (r: int)
    ensures -1 <= r <= |s|
    ensures r == -1 <==> forall i :: !OccursAt(s, sub, i)
    ensures 0 <= r ==> OccursAt(s, sub, r) && forall i :: 0 <= i < r ==> !OccursAt(s, sub, i)
    decreases |s|
  {
    if |sub| > |s| then -1
    else if s[..|sub|] == sub then assert OccursAt(s, sub, 0); 0
    else
      var r := Find(s[1..], sub);
      assert !OccursAt(s, sub, 0);
      OccursShift(s, sub);
      if r == -1 then -1 else assert OccursAt(s, sub, r + 1); r + 1
  }

  lemma OccursShift(s: string, sub: string)
    requires |s| > 0
    ensures forall i {:trigger OccursAt(s, sub, i)} :: 0 < i ==> (OccursAt(s, sub, i) <==> OccursAt(s[1..], sub, i - 1))
  {
    forall i | 0 < i ensures OccursAt(s, sub, i) <==> OccursAt(s[1..], sub, i - 1) {
      if i + |sub| <= |s| {
        var u, v := s[i..i + |sub|], s[1..][i - 1..i - 1 + |sub|];
        assert forall k :: 0 <= k < |sub| ==> u[k] == v[k];
      }
    }
  }

  /** `sub` cannot occur in `s` when one of its characters never does. */
  lemma AbsentByChar(s: string, sub: string, j: int)
    requires 0 <= j < |sub| && sub[j] !in s
    ensures !Contains(s, sub)
  {
    forall i ensures !OccursAt(s, sub, i) {
      if 0 <= i && i + |sub| <= |s| {
        assert s[i..i + |sub|][j] == s[i + j];
      }
    }
  }

  /** `sub` cannot occur in `s` when two of its adjacent characters never occur
      together there. */
  lemma AbsentByPair(s: string, sub: string, j: int)
    requires 0 <= j && j + 1 < |sub|
    requires forall i :: 0 <= i < |s| - 1 ==> !(s[i] == sub[j] && s[i + 1] == sub[j + 1])
    ensures !Contains(s, sub)
  {
    forall i ensures !OccursAt(s, sub, i) {
      if 0 <= i && i + |sub| <= |s| {
        assert s[i..i + |sub|][j] == s[i + j] && s[i..i + |sub|][j + 1] == s[i + j + 1];
      }
    }
  }

  /** Python's `sub in s` on strings. */
  predicate Contains(s: string, sub: string) {
    exists i | 0 <= i <= |s| - |sub| :: OccursAt(s, sub, i)
  }

  // ---------------------------------------------------------------------------
  // Splitting and joining

  /** `sep.join(parts)`. */
  function Join(sep: string, parts: seq<string>): string
  {
    if parts == [] then ""
    else if |parts| == 1 then parts[0]
    else parts[0] + sep + Join(sep, parts[1..])
  }

  lemma JoinPrepend(sep: string, p: string, parts: seq<string>)
    requires parts != []
    ensures Join(sep, [p] + parts) == p + sep + Join(sep, parts)
  {
    assert ([p] + parts)[1..] == parts;
  }

  lemma {:induction false} JoinAppend(sep: string, parts: seq<string>, last: string)
    requires parts != []
    ensures Join(sep, parts + [last]) == Join(sep, parts) + sep + last
    decreases |parts|
  {
    if |parts| > 1 {
      assert (parts + [last])[1..] == parts[1..] + [last];
      JoinAppend(sep, parts[1..], last);
    }
  }

  /** Each part followed by the separator. */
  function Suffixed(parts: seq<string>, sep: string): (r: seq<string>)
    ensures |r| == |parts| && forall k :: 0 <= k < |parts| ==> r[k] == parts[k] + sep
  {
    seq(|parts|, k requires 0 <= k < |parts| => parts[k] + sep)
  }

  /** A join with one more separator at its end is the concatenation of the
      parts, each followed by the separator. */
  lemma {:induction false} JoinThenSep(sep: string, parts: seq<string>)
    requires parts != []
    ensures Join(sep, parts) + sep == Concat(Suffixed(parts, sep))
    decreases |parts|
  {
    var all := Suffixed(parts, sep);
    assert Concat(all) == all[0] + Concat(all[1..]);
    if |parts| == 1 {
      assert all[1..] == [];
    } else {
      var rest := parts[1..];
      JoinThenSep(sep, rest);
      assert all[1..] == Suffixed(rest, sep);
      assert Join(sep, parts) + sep == (parts[0] + sep) + (Join(sep, rest) + sep);
    }
  }

  /** Ten-character parts joined by "; ": part `k` fills the ten characters from
      `12 * k` on, and no separator trails the last one. */
  lemma JoinedTens(vs: seq<string>)
    requires forall k :: 0 <= k < |vs| ==> |vs[k]| == 10
    ensures vs == [] ==> Join("; ", vs) == ""
    ensures vs != [] ==> |Join("; ", vs)| + 2 == 12 * |vs|
    ensures forall k :: 0 <= k < |vs| ==>
              12 * k + 10 <= |Join("; ", vs)| && Join("; ", vs)[12 * k..12 * k + 10] == vs[k]
  {
    if vs != [] {
      var joined, lines := Join("; ", vs), Suffixed(vs, "; ");
      var padded := joined + "; ";
      assert forall j :: 0 <= j < |lines| ==> |lines[j]| == 12;
      JoinThenSep("; ", vs);
      ConcatWidth(lines, 12);
      forall k | 0 <= k < |vs|
        ensures 12 * k + 10 <= |joined| && joined[12 * k..12 * k + 10] == vs[k]
      {
        ConcatFixedWidth(lines, 12, k);
        assert padded[12 * k..12 * k + 12] == vs[k] + "; ";
        assert joined[12 * k..12 * k + 10] == padded[12 * k..12 * k + 12][..10];
      }
    }
  }

  /** In ten-character parts joined by "; ", the separator after part `k` fills
      the two characters from `12 * k + 10` on. */
  lemma JoinedTensGap(vs: seq<string>, k: int)
    requires forall j :: 0 <= j < |vs| ==> |vs[j]| == 10
    requires 0 <= k < |vs| - 1
    ensures 12 * k + 12 <= |Join("; ", vs)| && Join("; ", vs)[12 * k + 10..12 * k + 12] == "; "
  {
    var joined, lines := Join("; ", vs), Suffixed(vs, "; ");
    var padded := joined + "; ";
    assert forall j :: 0 <= j < |lines| ==> |lines[j]| == 12;
    JoinThenSep("; ", vs);
    ConcatWidth(lines, 12);
    assert padded[12 * k..12 * k + 12] == vs[k] + "; " by { ConcatFixedWidth(lines, 12, k); }
    assert padded[12 * k + 10..12 * k + 12] == "; " by {
      assert padded[12 * k + 10..12 * k + 12] == padded[12 * k..12 * k + 12][10..12];
    }
    assert joined[12 * k + 10..12 * k + 12] == padded[12 * k + 10..12 * k + 12];
  }

  /** A fixed prefix followed by ten-character parts joined by "; ": part `k`
      starts `12 * k` characters after the prefix, the separator fills the two
      characters after it, and nothing trails the last part. */
  lemma PrefixedTens(prefix: string, vs: seq<string>)
    requires forall k :: 0 <= k < |vs| ==> |vs[k]| == 10
    ensures var text, n := prefix + Join("; ", vs), |prefix|;
            && (vs == [] ==> text == prefix)
            && (vs != [] ==> |text| + 2 == n + 12 * |vs|)
            && (forall k :: 0 <= k < |vs| ==> n + 12 * k + 10 <= |text| && text[n + 12 * k..n + 12 * k + 10] == vs[k])
            && (forall k :: 0 <= k < |vs| - 1 ==> n + 12 * k + 12 <= |text| && text[n + 12 * k + 10..n + 12 * k + 12] == "; ")
  {
    var joined := Join("; ", vs);
    JoinedTens(vs);
    forall k | 0 <= k < |vs|
      ensures (prefix + joined)[|prefix| + 12 * k..|prefix| + 12 * k + 10] == vs[k]
    {
      SliceAfterPrefix(prefix, joined, 12 * k, 12 * k + 10);
    }
    forall k | 0 <= k < |vs| - 1
      ensures 12 * k + 12 <= |joined| && (prefix + joined)[|prefix| + 12 * k + 10..|prefix| + 12 * k + 12] == "; "
    {
      JoinedTensGap(vs, k);
      SliceAfterPrefix(prefix, joined, 12 * k + 10, 12 * k + 12);
    }
  }

  /** `''.join(parts)`. */
  function Concat(parts: seq<string>): string
  {
    if parts == [] then "" else parts[0] + Concat(parts[1..])
  }

  lemma {:induction false} ConcatAppend(parts: seq<string>, last: string)
    ensures Concat(parts + [last]) == Concat(parts) + last
    decreases |parts|
  {
    if parts != [] {
      assert (parts + [last])[1..] == parts[1..] + [last];
      ConcatAppend(parts[1..], last);
    }
  }

  /** One more part of a prefix adds that part at the end. */
  lemma ConcatPrefix(parts: seq<string>, i: nat)
    requires i < |parts|
    ensures Concat(parts[..i + 1]) == Concat(parts[..i]) + parts[i]
  {
    assert parts[..i + 1] == parts[..i] + [parts[i]];
    ConcatAppend(parts[..i], parts[i]);
  }

  /** Lines of one common width `w` concatenate into `|lines| * w` characters. */
  lemma {:induction false} ConcatWidth(lines: seq<string>, w: nat)
    requires forall j :: 0 <= j < |lines| ==> |lines[j]| == w
    ensures |Concat(lines)| == |lines| * w
    decreases |lines|
  {
    if lines != [] {
      ConcatWidth(lines[1..], w);
      assert |lines| * w == w + |lines[1..]| * w;
    }
  }

  lemma SliceAfterPrefix(x: string, y: string, a: nat, b: nat)
    requires a <= b <= |y|
    ensures (x + y)[|x| + a..|x| + b] == y[a..b]
  {
  }

  /** In lines of one common width `w`, line `k` fills positions `k * w` up to
      `(k + 1) * w` of their concatenation. */
  lemma {:induction false} ConcatFixedWidth(lines: seq<string>, w: nat, k: nat)
    requires forall j :: 0 <= j < |lines| ==> |lines[j]| == w
    requires k < |lines|
    ensures (k + 1) * w <= |Concat(lines)| && Concat(lines)[k * w..(k + 1) * w] == lines[k]
    decreases |lines|
  {
    ConcatWidth(lines, w);
    var rest := lines[1..];
    assert Concat(lines) == lines[0] + Concat(rest);
    if k > 0 {
      var j := k - 1;
      ConcatFixedWidth(rest, w, j);
      var lo, hi := j * w, (j + 1) * w;
      assert k * w == w + lo && (k + 1) * w == w + hi;
      SliceAfterPrefix(lines[0], Concat(rest), lo, hi);
    }
  }

  /** `s.split(sep)` for a one-character separator: every occurrence splits, empty
      pieces are kept, and the empty string gives `[""]`. */
  function Split(s: string, sep: char): (parts: seq<string>)
    ensures |parts| >= 1
    ensures forall k :: 0 <= k < |parts| ==> sep !in parts[k]
    decreases |s|
  {
    var i := IndexOf(s, sep);
    if i == -1 then [s] else [s[..i]] + Split(s[i + 1..], sep)
  }

  /** Joining the pieces of a split with the separator gives back the text. */
  lemma {:induction false} JoinSplit(s: string, sep: char)
    ensures Join([sep], Split(s, sep)) == s
    decreases |s|
  {
    var i := IndexOf(s, sep);
    if i != -1 {
      var rest := Split(s[i + 1..], sep);
      JoinPrepend([sep], s[..i], rest);
      JoinSplit(s[i + 1..], sep);
      assert s == s[..i] + [sep] + s[i + 1..];
    }
  }

  /** Splitting a join gives back the pieces when none of them holds the separator. */
  lemma {:induction false} SplitJoin(parts: seq<string>, sep: char)
    requires |parts| >= 1
    requires forall k :: 0 <= k < |parts| ==> sep !in parts[k]
    ensures Split(Join([sep], parts), sep) == parts
    decreases |parts|
  {
    if |parts| > 1 {
      var p, rest := parts[0], Join([sep], parts[1..]);
      var s := Join([sep], parts);
      assert s == p + [sep] + rest;
      assert Split(s, sep) == [p] + Split(rest, sep) by {
        assert s[..|p|] == p && s[|p| + 1..] == rest;
        SplitAtFirstGap(s, p, sep);
      }
      SplitJoin(parts[1..], sep);
      assert parts == [p] + parts[1..];
    }
  }

  /** A text that starts with a piece free of the separator, then the separator,
      splits into that piece followed by the pieces of the rest. */
  lemma SplitAtFirstGap(s: string, p: string, sep: char)
    requires |p| < |s| && s[..|p|] == p && s[|p|] == sep && sep !in p
    ensures Split(s, sep) == [p] + Split(s[|p| + 1..], sep)
  {
    IndexOfFirstGap(s, p, sep);
  }

  lemma IndexOfFirstGap(s: string, p: string, sep: char)
    requires |p| < |s| && s[..|p|] == p && s[|p|] == sep && sep !in p
    ensures IndexOf(s, sep) == |p|
  {
    assert sep in s;
    assert forall k :: 0 <= k < |p| ==> s[k] == p[k];
  }

  /** `s[n:]`: Python slicing clamps a start beyond the end. */
  function Drop(s: string, n: nat): (r: string)
    ensures |r| == if n < |s| then |s| - n else 0
  {
    if n < |s| then s[n..] else ""
  }

  /** `xs[:n]`. */
  function Take<T>(xs: seq<T>, n: nat): (r: seq<T>)
    ensures |r| == if n < |xs| then n else |xs|
  {
    if n < |xs| then xs[..n] else xs
  }

  // ---------------------------------------------------------------------------
  // Padding

  function Spaces(n: nat): (r: string)
    ensures |r| == n && forall i :: 0 <= i < n ==> r[i] == ' '
  {
    seq(n, _ => ' ')
  }

  /** `s.ljust(w)`: `s` followed by spaces up to width `w`; never truncates. */
  function LJust(s: string, w: int): (r: string)
    ensures |r| == Max(|s|, w)
    ensures r[..|s|] == s
    ensures forall i :: |s| <= i < |r| ==> r[i] == ' '
  {
    if w <= |s| then s else s + Spaces(w - |s|)
  }

  /** The left margin CPython's `str.center` gives: half the margin, plus one
      when both the margin and the width are odd. */
  function CenterLeft(len: nat, w: int): nat
  {
    if w <= len then 0
    else var marg := w - len; marg / 2 + (if marg % 2 == 1 && w % 2 == 1 then 1 else 0)
  }

  /** `s.center(w)`. */
  function Center(s: string, w: int): (r: string)
    ensures |r| == Max(|s|, w)
    ensures var left := CenterLeft(|s|, w);
            var right := |r| - |s| - left;
            && 0 <= right
            && -1 <= left - right <= 1
            && r == Spaces(left) + s + Spaces(right)
  {
    if w <= |s| then s
    else Spaces(CenterLeft(|s|, w)) + s + Spaces(w - |s| - CenterLeft(|s|, w))
  }

  // ---------------------------------------------------------------------------
  // Column widths

  /** The running maximum of `width = max(len(x), width)` over `xs`, starting at `width`:
      at least `width` and at least every length. */
  function Widest(xs: seq<string>, width: int): (w: int)
    ensures w >= width
    ensures forall k :: 0 <= k < |xs| ==> |xs[k]| <= w
  {
    if xs == [] then width
    else
      var w := Widest(xs[1..], Max(|xs[0]|, width));
      assert forall k :: 1 <= k < |xs| ==> xs[k] == xs[1..][k - 1];
      w
  }

  /** The width is no larger than it must be: it is the starting width or the
      length of one of the strings. */
  lemma {:induction false} WidestAttained(xs: seq<string>, width: int)
    ensures var w := Widest(xs, width);
            w == width || exists k :: 0 <= k < |xs| && w == |xs[k]|
  {
    if xs != [] {
      WidestAttained(xs[1..], Max(|xs[0]|, width));
      var w := Widest(xs[1..], Max(|xs[0]|, width));
      if w != Max(|xs[0]|, width) {
        var k :| 0 <= k < |xs[1..]| && w == |xs[1..][k]|;
        assert w == |xs[k + 1]|;
      } else if w != width {
        assert w == |xs[0]|;
      }
    }
  }

  /** One step of the running maximum. */
  lemma WidestStep(xs: seq<string>, i: nat, width: int)
    requires i < |xs|
    ensures Widest(xs[i..], width) == Widest(xs[i + 1..], Max(|xs[i]|, width))
  {
    assert xs[i..][1..] == xs[i + 1..];
  }

  // ---------------------------------------------------------------------------
  // Decorated calls

  /** What a decorated handler did: returned a reply or raised. */
  datatype Call = Returned(message: string) | Raised(exception: Exception)
}

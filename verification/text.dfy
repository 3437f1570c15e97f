/** The string primitives the query builder relies on: JavaScript's
    `Array.prototype.join`, and the splitting a query reader performs to take a
    query string apart again. */
module Text {

  predicate IsPrefix(p: string, s: string)
  {
    |p| <= |s| && s[..|p|] == p
  }

  predicate IsSuffix(p: string, s: string)
  {
    |p| <= |s| && s[|s| - |p|..] == p
  }

  /** `parts.join(sep)`: the parts with `sep` between neighbours; the empty
      array joins to the empty string. */
  function Join(parts: seq<string>, sep: string): (s: string)
    ensures |parts| > 0 ==> IsPrefix(parts[0], s)
    ensures |parts| > 0 ==> IsSuffix(parts[|parts| - 1], s)
  {
    if |parts| == 0 then ""
    else if |parts| == 1 then parts[0]
    else parts[0] + sep + Join(parts[1..], sep)
  }

  /** `s.split(c)` for a one-character separator: the maximal pieces between
      separators, in order; splitting the empty string gives one empty piece. */
  function Split(s: string, c: char): (pieces: seq<string>)
    ensures |pieces| > 0
    ensures forall i :: 0 <= i < |pieces| ==> c !in pieces[i]
    decreases |s|
  {
    if |s| == 0 then [""]
    else
      var rest := Split(s[1..], c);
      if s[0] == c then [""] + rest
      else [[s[0]] + rest[0]] + rest[1..]
  }

  /** The text before the first `c` and the text after it; without a `c`
      the whole string is the first half. */
  function SplitFirst(s: string, c: char): (r: (string, string))
    ensures c !in r.0
    ensures c in s ==> s == r.0 + [c] + r.1
    ensures c !in s ==> r == (s, "")
    decreases |s|
  {
    if |s| == 0 then ("", "")
    else if s[0] == c then ("", s[1..])
    else
      var r' := SplitFirst(s[1..], c);
      assert s == [s[0]] + s[1..];
      ([s[0]] + r'.0, r'.1)
  }

  /** Splitting a string that holds no separator yields the string itself. */
  lemma {:induction false} SplitNoSeparator(s: string, c: char)
    requires c !in s
    ensures Split(s, c) == [s]
    decreases |s|
  {
    if |s| > 0 {
      SplitNoSeparator(s[1..], c);
      assert [s[0]] + s[1..] == s;
    }
  }

  /** A separator-free head is split off as the first piece. */
  lemma {:induction false} SplitAfterPiece(a: string, c: char, t: string)
    requires c !in a
    ensures Split(a + [c] + t, c) == [a] + Split(t, c)
    decreases |a|
  {
    var s := a + [c] + t;
    if |a| == 0 {
      assert s[1..] == t;
    } else {
      assert s[1..] == a[1..] + [c] + t;
      SplitAfterPiece(a[1..], c, t);
      assert [a[0]] + a[1..] == a;
    }
  }

  /** Splitting a join recovers the parts when no part holds the separator. */
  lemma {:induction false} SplitJoin(parts: seq<string>, c: char)
    requires |parts| > 0
    requires forall i :: 0 <= i < |parts| ==> c !in parts[i]
    ensures Split(Join(parts, [c]), c) == parts
    decreases |parts|
  {
    if |parts| == 1 {
      SplitNoSeparator(parts[0], c);
    } else {
      SplitJoin(parts[1..], c);
      SplitAfterPiece(parts[0], c, Join(parts[1..], [c]));
      assert [parts[0]] + parts[1..] == parts;
    }
  }

  /** The text before the first `c` is recovered when it holds no `c`. */
  lemma {:induction false} SplitFirstAfter(k: string, c: char, v: string)
    requires c !in k
    ensures SplitFirst(k + [c] + v, c) == (k, v)
    decreases |k|
  {
    var s := k + [c] + v;
    if |k| == 0 {
      assert s[1..] == v;
    } else {
      assert s[1..] == k[1..] + [c] + v;
      SplitFirstAfter(k[1..], c, v);
      assert [k[0]] + k[1..] == k;
    }
  }

  /** A prefix of a prefix is a prefix. */
  lemma PrefixOfPrefix(p: string, v: string, s: string)
    requires IsPrefix(p + v, s)
    ensures IsPrefix(p, s)
  {
    assert s[..|p|] == (p + v)[..|p|];
  }

  /** A suffix of a suffix is a suffix. */
  lemma SuffixOfSuffix(p: string, v: string, s: string)
    requires IsSuffix(p + v, s)
    ensures IsSuffix(v, s)
  {
    assert s[|s| - |v|..] == (p + v)[|p|..];
  }

  /** Putting a head in front keeps prefixes (behind the head) and suffixes. */
  lemma AffixesUnderHead(h: string, p: string, v: string, s: string)
    requires IsPrefix(p, s) && IsSuffix(v, s)
    ensures IsPrefix(h + p, h + s) && IsSuffix(v, h + s)
  {
    assert (h + s)[..|h + p|] == h + s[..|p|];
    assert (h + s)[|h + s| - |v|..] == s[|s| - |v|..];
  }
}

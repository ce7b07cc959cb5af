/**
 * The handful of Python string operations the pages use: `str.strip()`,
 * single-character `str.replace`, `sep.join(parts)` and splitting at a
 * separator character.
 */
module Text {

  /** The characters Python's `str.isspace()` accepts, which `str.strip()` removes. */
  const Whitespace: set<char> := {
    ' ', '\t', '\n', '\r', '\U{B}', '\U{C}', '\U{1C}', '\U{1D}', '\U{1E}', '\U{1F}',
    '\U{85}', '\U{A0}', '\U{1680}', '\U{2000}', '\U{2001}', '\U{2002}', '\U{2003}',
    '\U{2004}', '\U{2005}', '\U{2006}', '\U{2007}', '\U{2008}', '\U{2009}', '\U{200A}',
    '\U{2028}', '\U{2029}', '\U{202F}', '\U{205F}', '\U{3000}'
  }

  predicate IsSpace(c: char)
  {
    c in Whitespace
  }

  predicate AllSpace(s: string)
  {
    forall i :: 0 <= i < |s| ==> IsSpace(s[i])
  }

  /** Number of space characters `s.lstrip()` removes from the front of `s`. */
  function LeadingSpace(s: string): (n: nat)
    ensures n <= |s| && AllSpace(s[..n])
    ensures n == |s| || !IsSpace(s[n])
  {
    if s == [] || !IsSpace(s[0]) then 0
    else
      var n := 1 + LeadingSpace(s[1..]);
      assert forall k :: 1 <= k < n ==> s[k] == s[1..][k - 1];
      n
  }

  /** Number of space characters `s.rstrip()` removes from the end of `s`. */
  function TrailingSpace(s: string): (n: nat)
    ensures n <= |s| && AllSpace(s[|s| - n..])
    ensures n == |s| || !IsSpace(s[|s| - n - 1])
  {
    if s == [] || !IsSpace(s[|s| - 1]) then 0
    else
      var t := s[..|s| - 1];
      var n := 1 + TrailingSpace(t);
      assert forall k :: |s| - n <= k < |s| - 1 ==> s[k] == t[k];
      n
  }

  /** `s.strip()`: the slice of `s` between its leading and its trailing space; it has no space at
      either end, and it is empty exactly when `s` is all space. */
  function Strip(s: string): (r: string)
    ensures exists i, j :: 0 <= i <= j <= |s| && r == s[i..j] && AllSpace(s[..i]) && AllSpace(s[j..])
    ensures r == [] || (!IsSpace(r[0]) && !IsSpace(r[|r| - 1]))
    ensures r == [] <==> AllSpace(s)
  {
    var i := LeadingSpace(s);
    if i == |s| then
      assert s[..i] == s;
      assert AllSpace(s[..i]) && AllSpace(s[i..]);
      []
    else
      var n := TrailingSpace(s);
      var j := |s| - n;
      assert s[i..j][0] == s[i] && s[i..j][j - i - 1] == s[j - 1];
      s[i..j]
  }

  /** `s.replace(a, b)` for single characters `a` and `b`. */
  function Replace(s: string, a: char, b: char): (r: string)
    ensures |r| == |s|
    ensures forall i :: 0 <= i < |s| ==> r[i] == (if s[i] == a then b else s[i])
    ensures a != b ==> a !in r
  {
    seq(|s|, i requires 0 <= i < |s| => if s[i] == a then b else s[i])
  }

  /** Replacing `a` by a character `b` that `s` does not contain can be undone. */
  lemma ReplaceRoundTrip(s: string, a: char, b: char)
    requires b !in s
    ensures Replace(Replace(s, a, b), b, a) == s
  {
    var t := Replace(s, a, b);
    var u := Replace(t, b, a);
    forall i | 0 <= i < |s|
      ensures u[i] == s[i]
    {
      if s[i] == a {
      } else {
        assert s[i] != b && t[i] == s[i];
      }
    }
  }

  /** Replacement works character by character, so it distributes over concatenation. */
  lemma ReplaceConcat(s: string, t: string, a: char, b: char)
    ensures Replace(s + t, a, b) == Replace(s, a, b) + Replace(t, a, b)
  {
  }

  /** `sep.join(parts)`. */
  function Join(sep: string, parts: seq<string>): (r: string)
    ensures |parts| == 0 ==> r == []
    ensures |parts| == 1 ==> r == parts[0]
    ensures |parts| > 1 ==> |r| >= |parts[0]| + |sep| && r[..|parts[0]|] == parts[0]
  {
    if |parts| == 0 then []
    else if |parts| == 1 then parts[0]
    else parts[0] + sep + Join(sep, parts[1..])
  }

  /** Each part with `pre` in front. */
  function PrefixEach(pre: string, parts: seq<string>): seq<string>
  {
    seq(|parts|, k requires 0 <= k < |parts| => pre + parts[k])
  }

  /** A prefix on the first part comes out in front of the join. */
  lemma JoinPrefixHead(sep: string, pre: string, x: string, ys: seq<string>)
    ensures Join(sep, [pre + x] + ys) == pre + Join(sep, [x] + ys)
  {
    if |ys| > 0 {
      assert ([pre + x] + ys)[1..] == ys == ([x] + ys)[1..];
    }
  }

  /** Joining with `c` followed by `pre` is joining with `c` alone once `pre` is put in front of
      every part but the first. */
  lemma {:induction false} JoinLongSeparator(c: char, pre: string, parts: seq<string>)
    requires |parts| > 0
    ensures Join([c] + pre, parts) == Join([c], [parts[0]] + PrefixEach(pre, parts[1..]))
  {
    if |parts| > 1 {
      var j := Join([c] + pre, parts[1..]);
      var rest := PrefixEach(pre, parts[2..]);
      var q := [parts[0]] + PrefixEach(pre, parts[1..]);
      JoinLongSeparator(c, pre, parts[1..]);
      assert parts[1..][1..] == parts[2..];
      assert j == Join([c], [parts[1]] + rest);
      assert q[1..] == [pre + parts[1]] + rest;
      JoinPrefixHead([c], pre, parts[1], rest);
      assert Join([c], q) == parts[0] + [c] + (pre + j);
      assert Join([c] + pre, parts) == parts[0] + ([c] + pre) + j;
    }
  }

  /** Position of the first `c` in `s`. */
  function IndexOf(s: string, c: char): (i: nat)
    requires c in s
    ensures i < |s| && s[i] == c && c !in s[..i]
  {
    if s[0] == c then 0 else 1 + IndexOf(s[1..], c)
  }

  /** `s.split(c)` for one separator character: the pieces between the separators, in order. */
  function Split(s: string, c: char): (r: seq<string>)
    ensures |r| >= 1
    ensures forall k :: 0 <= k < |r| ==> c !in r[k]
    ensures c !in s ==> r == [s]
    decreases |s|
  {
    if c in s then
      var i := IndexOf(s, c);
      [s[..i]] + Split(s[i + 1..], c)
    else
      [s]
  }

  lemma {:induction false} IndexOfAfterPrefix(p: string, c: char, tail: string)
    requires c !in p
    ensures c in p + [c] + tail && IndexOf(p + [c] + tail, c) == |p|
  {
    var s := p + [c] + tail;
    assert s[|p|] == c;
    if p != [] {
      assert s[1..] == p[1..] + [c] + tail;
      IndexOfAfterPrefix(p[1..], c, tail);
    }
  }

  /** Splitting at `c` where no piece of the join contains `c` gives the pieces back. */
  lemma {:induction false} SplitJoin(parts: seq<string>, c: char)
    requires |parts| > 0
    requires forall k :: 0 <= k < |parts| ==> c !in parts[k]
    ensures Split(Join([c], parts), c) == parts
  {
    if |parts| > 1 {
      var rest := Join([c], parts[1..]);
      var s := Join([c], parts);
      assert s == parts[0] + [c] + rest;
      IndexOfAfterPrefix(parts[0], c, rest);
      assert s[..|parts[0]|] == parts[0];
      assert s[|parts[0]| + 1..] == rest;
      SplitJoin(parts[1..], c);
    }
  }

  /** Splitting a join whose separator is `c` followed by `pre` at `c` gives the parts, each after
      the first with `pre` in front. */
  lemma SplitJoinLongSeparator(c: char, pre: string, parts: seq<string>)
    requires |parts| > 0 && c !in pre
    requires forall k :: 0 <= k < |parts| ==> c !in parts[k]
    ensures Split(Join([c] + pre, parts), c) == [parts[0]] + PrefixEach(pre, parts[1..])
  {
    var pieces := [parts[0]] + PrefixEach(pre, parts[1..]);
    JoinLongSeparator(c, pre, parts);
    forall k | 0 <= k < |pieces|
      ensures c !in pieces[k]
    {
      if k > 0 {
        assert pieces[k] == pre + parts[k];
      }
    }
    SplitJoin(pieces, c);
  }

  /** Splitting `p + [c] + q` where `p` has no `c` yields `p` and then the pieces of `q`. */
  lemma SplitCons(p: string, c: char, q: string)
    requires c !in p
    ensures Split(p + [c] + q, c) == [p] + Split(q, c)
  {
    var s := p + [c] + q;
    IndexOfAfterPrefix(p, c, q);
    assert s[..|p|] == p;
    assert s[|p| + 1..] == q;
  }
}

/** Definitions shared by the other modules. */
module Basics {

  datatype Option<+T> = None | Some(value: T)

  function Max(a: real, b: real): real { if a >= b then a else b }

  function Min(a: real, b: real): real { if a <= b then a else b }

  /** Unicode White_Space, as `char::is_whitespace` decides it. */
  predicate IsWhitespace(c: char) {
    var n := c as int;
    || 0x09 <= n <= 0x0D
    || n == 0x20 || n == 0x85 || n == 0xA0 || n == 0x1680
    || 0x2000 <= n <= 0x200A
    || n == 0x2028 || n == 0x2029 || n == 0x202F || n == 0x205F || n == 0x3000
  }

  predicate Blank(s: string) { forall i :: 0 <= i < |s| ==> IsWhitespace(s[i]) }

  /** `str::trim_start`. */
  function TrimStart(s: string): (r: string)
    ensures r == [] || !IsWhitespace(r[0])
  {
    if s != [] && IsWhitespace(s[0]) then TrimStart(s[1..]) else s
  }

  /** `str::trim_end`. */
  function TrimEnd(s: string): (r: string)
    ensures r <= s
    ensures r == [] || !IsWhitespace(r[|r| - 1])
  {
    if s != [] && IsWhitespace(s[|s| - 1]) then TrimEnd(s[..|s| - 1]) else s
  }

  /** `str::trim`. */
  function Trim(s: string): string { TrimEnd(TrimStart(s)) }

  /** `char::to_ascii_lowercase`. */
  function LowerChar(c: char): char {
    if 'A' <= c <= 'Z' then ((c as int) + 32) as char else c
  }

  /** `str::to_ascii_lowercase`. */
  function Lower(s: string): (r: string)
    ensures |r| == |s|
    ensures forall i :: 0 <= i < |s| ==> r[i] == LowerChar(s[i])
  {
    seq(|s|, i requires 0 <= i < |s| => LowerChar(s[i]))
  }

  /** `str::eq_ignore_ascii_case`. */
  predicate EqIgnoreCase(a: string, b: string) { Lower(a) == Lower(b) }

  ghost predicate Increasing(s: seq<nat>) { forall i, j :: 0 <= i < j < |s| ==> s[i] < s[j] }

  /** The elements of `s` that satisfy `keep`, in order (`Vec::retain`). */
  function Filter<T(!new)>(s: seq<T>, keep: T -> bool): seq<T> {
    if s == [] then []
    else (if keep(s[0]) then [s[0]] else []) + Filter(s[1..], keep)
  }

  lemma ConcatAssoc<T>(a: seq<T>, b: seq<T>, c: seq<T>)
    ensures (a + b) + c == a + (b + c)
  {
  }

  lemma {:induction false} FilterMembers<T(!new)>(s: seq<T>, keep: T -> bool)
    ensures forall x :: x in Filter(s, keep) <==> x in s && keep(x)
  {
    if s != [] {
      FilterMembers(s[1..], keep);
      assert s == [s[0]] + s[1..];
    }
  }

  lemma {:induction false} FilterAppend<T(!new)>(a: seq<T>, b: seq<T>, keep: T -> bool)
    ensures Filter(a + b, keep) == Filter(a, keep) + Filter(b, keep)
  {
    if a == [] {
      assert a + b == b;
    } else {
      assert (a + b)[0] == a[0] && (a + b)[1..] == a[1..] + b;
      FilterAppend(a[1..], b, keep);
      ConcatAssoc(if keep(a[0]) then [a[0]] else [], Filter(a[1..], keep), Filter(b, keep));
    }
  }

  lemma {:induction false} FilterKeepsAll<T(!new)>(s: seq<T>, keep: T -> bool)
    requires forall x :: x in s ==> keep(x)
    ensures Filter(s, keep) == s
  {
    if s != [] {
      FilterKeepsAll(s[1..], keep);
    }
  }

  lemma {:induction false} FilterNone<T(!new)>(s: seq<T>, keep: T -> bool)
    requires forall x :: x in s ==> !keep(x)
    ensures Filter(s, keep) == []
  {
    if s != [] {
      FilterNone(s[1..], keep);
    }
  }

  lemma FilterAroundOne<T(!new)>(pre: seq<T>, m: T, post: seq<T>, keep: T -> bool)
    requires (forall x :: x in pre ==> keep(x)) && (forall x :: x in post ==> keep(x))
    ensures Filter(pre + ([m] + post), keep) == pre + ((if keep(m) then [m] else []) + post)
  {
    FilterAppend(pre, [m] + post, keep);
    FilterAppend([m], post, keep);
    FilterKeepsAll(pre, keep);
    FilterKeepsAll(post, keep);
  }

  lemma {:induction false} FilterSame<T(!new)>(s: seq<T>, p: T -> bool, q: T -> bool)
    requires forall x :: x in s ==> p(x) == q(x)
    ensures Filter(s, p) == Filter(s, q)
  {
    if s != [] {
      FilterSame(s[1..], p, q);
    }
  }

  lemma {:induction false} FilterBoth<T(!new)>(s: seq<T>, p: T -> bool, q: T -> bool)
    requires forall x :: q(x) ==> p(x)
    ensures Filter(Filter(s, p), q) == Filter(s, q)
  {
    if s != [] {
      FilterBoth(s[1..], p, q);
      var rest := Filter(s[1..], p);
      FilterAppend([s[0]], rest, q);
      assert Filter(s, p) == if p(s[0]) then [s[0]] + rest else rest;
    }
  }

  /** The first position whose element satisfies `p`, or the length (`position`). */
  function FirstWhere<T(!new)>(s: seq<T>, p: T -> bool): (i: nat)
    ensures i <= |s| && (i < |s| ==> p(s[i]))
    ensures forall k :: 0 <= k < i ==> !p(s[k])
  {
    if s == [] || p(s[0]) then 0 else 1 + FirstWhere(s[1..], p)
  }

  lemma {:induction false} FirstWhereIs<T(!new)>(s: seq<T>, p: T -> bool, i: nat)
    requires i <= |s| && (i < |s| ==> p(s[i]))
    requires forall k :: 0 <= k < i ==> !p(s[k])
    ensures FirstWhere(s, p) == i
  {
    var first := FirstWhere(s, p);
    assert first < |s| ==> p(s[first]);
  }

  lemma AnyOf<T>(s: set<T>) returns (x: T)
    requires s != {}
    ensures x in s
  {
    x :| x in s;
  }

  ghost predicate IsLeast<T(!new)>(s: set<T>, weight: T -> int, x: T) {
    x in s && forall y :: y in s ==> weight(x) <= weight(y)
  }

  lemma {:induction false} LeastExists<T(!new)>(s: set<T>, weight: T -> int)
    requires s != {}
    ensures exists x :: IsLeast(s, weight, x)
  {
    var x := AnyOf(s);
    if s == {x} {
      assert IsLeast(s, weight, x);
    } else {
      LeastExists(s - {x}, weight);
      var z :| IsLeast(s - {x}, weight, z);
      assert IsLeast(s, weight, if weight(x) <= weight(z) then x else z);
    }
  }

  /** The concatenation of a list of strings. */
  function Flat<T>(parts: seq<seq<T>>): seq<T> {
    if parts == [] then [] else parts[0] + Flat(parts[1..])
  }
}

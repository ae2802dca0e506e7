/** The JavaScript built-ins that the route components lean on, stated over
    Dafny sequences: `Array.prototype.filter`, `Array.from(new Set(xs))`,
    `String.prototype.toLowerCase` and `String.prototype.includes`. */
module Builtins {

  datatype Option<+T> = None | Some(value: T)

  /** `xs.filter(p)`: the elements of `xs` that satisfy `p`, in their order. */
  function Filter<T>(xs: seq<T>, p: T -> bool): (r: seq<T>)
    ensures |r| <= |xs|
    ensures forall i :: 0 <= i < |r| ==> r[i] in xs && p(r[i])
    ensures forall i :: 0 <= i < |xs| && p(xs[i]) ==> xs[i] in r
  {
    if xs == [] then [] else (if p(xs[0]) then [xs[0]] else []) + Filter(xs[1..], p)
  }

  /** `filter` keeps every occurrence: a value that satisfies `p` occurs in
      the result as often as in `xs`, and any other value not at all. */
  lemma {:induction false} FilterKeepsMultiplicity<T>(xs: seq<T>, p: T -> bool, x: T)
    ensures multiset(Filter(xs, p))[x] == if p(x) then multiset(xs)[x] else 0
  {
    if xs != [] {
      var head, tail := xs[0], xs[1..];
      FilterKeepsMultiplicity(tail, p, x);
      var front: seq<T> := if p(head) then [head] else [];
      var rest := Filter(tail, p);
      assert Filter(xs, p) == front + rest;
      assert xs == [head] + tail;
      calc {
        multiset(Filter(xs, p))[x];
        multiset(front)[x] + multiset(rest)[x];
        (if p(x) then multiset([head])[x] else 0) + multiset(rest)[x];
      }
    }
  }

  /** `xs.map(f)` as React renders it, skipping every `null` entry: the
      values of the non-null results, in order. */
  function FilterMap<A, B>(xs: seq<A>, f: A -> Option<B>): (r: seq<B>)
    ensures |r| <= |xs|
  {
    if xs == [] then []
    else (if f(xs[0]).Some? then [f(xs[0]).value] else []) + FilterMap(xs[1..], f)
  }

  /** Skipping the `null` results is filtering on "not null" first: one
      value per kept element, in order, each the result for that element. */
  lemma {:induction false} FilterMapIsFilterThenMap<A, B>(xs: seq<A>, f: A -> Option<B>, p: A -> bool)
    requires forall x :: p(x) == f(x).Some?
    ensures |FilterMap(xs, f)| == |Filter(xs, p)|
    ensures forall i :: 0 <= i < |Filter(xs, p)| ==> f(Filter(xs, p)[i]) == Some(FilterMap(xs, f)[i])
  {
    if xs != [] {
      FilterMapIsFilterThenMap(xs[1..], f, p);
      var r, rest := FilterMap(xs, f), FilterMap(xs[1..], f);
      var kept, restKept := Filter(xs, p), Filter(xs[1..], p);
      if p(xs[0]) {
        assert r == [f(xs[0]).value] + rest;
        assert kept == [xs[0]] + restKept;
        forall i | 1 <= i < |kept| ensures f(kept[i]) == Some(r[i]) {
          assert kept[i] == restKept[i - 1] && r[i] == rest[i - 1];
        }
      } else {
        assert r == rest && kept == restKept;
      }
    }
  }

  /** `xs.findIndex(p)`: the index of the first element satisfying `p`;
      `None` stands for the -1 that JavaScript returns when there is none. */
  function FindIndex<T>(xs: seq<T>, p: T -> bool): (r: Option<nat>)
    ensures r.Some? ==> r.value < |xs| && p(xs[r.value])
    ensures r.Some? ==> forall j :: 0 <= j < r.value ==> !p(xs[j])
    ensures r.None? ==> forall j :: 0 <= j < |xs| ==> !p(xs[j])
  {
    if xs == [] then None
    else if p(xs[0]) then Some(0)
    else match FindIndex(xs[1..], p)
      case None => None
      case Some(k) => Some(k + 1)
  }

  /** `xs.find(p)`: the first element satisfying `p`, if any. */
  function Find<T>(xs: seq<T>, p: T -> bool): (r: Option<T>)
    ensures r.Some? ==> r.value in xs && p(r.value)
    ensures r.None? <==> forall j :: 0 <= j < |xs| ==> !p(xs[j])
  {
    if xs == [] then None
    else if p(xs[0]) then Some(xs[0])
    else Find(xs[1..], p)
  }

  /** `find` returns the element at the index `findIndex` reports. */
  lemma {:induction false} FindAgreesWithFindIndex<T>(xs: seq<T>, p: T -> bool)
    ensures Find(xs, p).Some? <==> FindIndex(xs, p).Some?
    ensures FindIndex(xs, p).Some? ==> Find(xs, p).value == xs[FindIndex(xs, p).value]
  {
    if xs != [] && !p(xs[0]) {
      FindAgreesWithFindIndex(xs[1..], p);
    }
  }

  /** `sub` is what remains of `xs` after deleting some of its elements:
      an order-preserving subsequence. */
  ghost predicate IsSubsequence<T>(sub: seq<T>, xs: seq<T>)
    decreases |xs|
  {
    if xs == [] then sub == []
    else
      || IsSubsequence(sub, xs[1..])
      || (sub != [] && sub[0] == xs[0] && IsSubsequence(sub[1..], xs[1..]))
  }

  lemma {:induction false} FilterIsSubsequence<T>(xs: seq<T>, p: T -> bool)
    ensures IsSubsequence(Filter(xs, p), xs)
  {
    if xs != [] {
      FilterIsSubsequence(xs[1..], p);
      var r := Filter(xs, p);
      if p(xs[0]) {
        assert r == [xs[0]] + Filter(xs[1..], p);
        assert r != [] && r[0] == xs[0] && r[1..] == Filter(xs[1..], p);
      } else {
        assert r == Filter(xs[1..], p);
      }
    }
  }

  /** Filtering with a predicate every element satisfies gives the input back. */
  lemma {:induction false} FilterKeepsAll<T>(xs: seq<T>, p: T -> bool)
    requires forall i :: 0 <= i < |xs| ==> p(xs[i])
    ensures Filter(xs, p) == xs
  {
    if xs != [] {
      FilterKeepsAll(xs[1..], p);
      assert [xs[0]] + xs[1..] == xs;
    }
  }

  /** The index of the first occurrence of `x` in `xs`. */
  function FirstAt<T(==)>(xs: seq<T>, x: T): (k: nat)
    requires x in xs
    ensures k < |xs| && xs[k] == x
    ensures forall j :: 0 <= j < k ==> xs[j] != x
  {
    if xs[0] == x then 0 else 1 + FirstAt(xs[1..], x)
  }

  /** Cutting off the last element moves no first occurrence that remains. */
  lemma FirstAtInPrefix<T>(xs: seq<T>, ys: seq<T>)
    requires xs != []
    requires forall i :: 0 <= i < |ys| ==> ys[i] in xs[..|xs| - 1]
    ensures forall i :: 0 <= i < |ys| ==> FirstAt(xs[..|xs| - 1], ys[i]) == FirstAt(xs, ys[i])
  {
    var front := xs[..|xs| - 1];
    forall i | 0 <= i < |ys| ensures FirstAt(front, ys[i]) == FirstAt(xs, ys[i]) {
      var a, b := FirstAt(front, ys[i]), FirstAt(xs, ys[i]);
      assert xs[a] == ys[i];
      assert front[b] == ys[i];
    }
  }

  /** `Array.from(new Set(xs))`: the distinct values of `xs`; a value
      already in the set stays where it was, a new one goes to the end. */
  function Unique<T(==)>(xs: seq<T>): (r: seq<T>)
    ensures forall i, j :: 0 <= i < j < |r| ==> r[i] != r[j]
    ensures forall i :: 0 <= i < |r| ==> r[i] in xs
    ensures forall i :: 0 <= i < |xs| ==> xs[i] in r
    decreases |xs|
  {
    if xs == [] then []
    else
      var front := Unique(xs[..|xs| - 1]);
      assert forall i :: 0 <= i < |xs| - 1 ==> xs[i] == xs[..|xs| - 1][i];
      if xs[|xs| - 1] in front then front else front + [xs[|xs| - 1]]
  }

  /** The values of `Unique(xs)` come in the order of their first
      occurrence in `xs`, as a `Set` iterates in insertion order. */
  lemma {:induction false} UniqueKeepsFirstOrder<T>(xs: seq<T>)
    ensures forall i, j :: 0 <= i < j < |Unique(xs)| ==> FirstAt(xs, Unique(xs)[i]) < FirstAt(xs, Unique(xs)[j])
  {
    if xs != [] {
      var front, last := xs[..|xs| - 1], xs[|xs| - 1];
      UniqueKeepsFirstOrder(front);
      var r := Unique(front);
      FirstAtInPrefix(xs, r);
      if last !in r {
        var u := Unique(xs);
        assert u == r + [last];
        assert last !in front;
        assert FirstAt(xs, last) == |xs| - 1;
        forall i, j | 0 <= i < j < |u| ensures FirstAt(xs, u[i]) < FirstAt(xs, u[j]) {
          assert u[i] == r[i];
          if j == |r| {
            assert FirstAt(xs, r[i]) == FirstAt(front, r[i]) < |front|;
          } else {
            assert u[j] == r[j];
          }
        }
      }
    }
  }

  /** The capitals `toLowerCase` folds here: the ASCII letters and the
      Latin-1 capitals (U+00C0..U+00DE except the multiplication sign U+00D7). */
  predicate IsCapital(c: char)
  {
    'A' <= c <= 'Z' || ('À' <= c <= 'Þ' && c != '×')
  }

  /** `c.toLowerCase()` on one character: a capital becomes its small
      letter, 32 code points on. */
  function LowerChar(c: char): (d: char)
  {
    if IsCapital(c) then (c as int + 32) as char else c
  }

  /** `s.toLowerCase()`: the same number of characters, none of them a
      capital, and every character that is not a capital kept as it is. */
  function Lower(s: string): (r: string)
    ensures |r| == |s|
    ensures forall i :: 0 <= i < |s| ==> r[i] == LowerChar(s[i])
    ensures forall i :: 0 <= i < |r| ==> !IsCapital(r[i])
    ensures forall i :: 0 <= i < |s| && !IsCapital(s[i]) ==> r[i] == s[i]
  {
    seq(|s|, i requires 0 <= i < |s| => LowerChar(s[i]))
  }

  lemma LowerIsIdempotent(s: string)
    ensures Lower(Lower(s)) == Lower(s)
  {
    assert forall i :: 0 <= i < |s| ==> Lower(Lower(s))[i] == Lower(s)[i];
  }

  /** `needle` occurs in `hay` starting at offset `i`. */
  predicate OccursAt(hay: string, needle: string, i: int)
  {
    0 <= i && i + |needle| <= |hay| && hay[i..i + |needle|] == needle
  }

  /** `hay.includes(needle)`: `needle` occurs in `hay` at some offset; the
      empty string occurs in every string, and nothing longer than `hay`. */
  predicate Contains(hay: string, needle: string)
    ensures needle == [] ==> Contains(hay, needle)
    ensures Contains(hay, needle) ==> |needle| <= |hay|
  {
    assert needle == [] ==> OccursAt(hay, needle, 0);
    exists i | 0 <= i <= |hay| - |needle| :: OccursAt(hay, needle, i)
  }
}

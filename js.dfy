/** JavaScript values, coercions and array helpers that the command handler relies on. */
module Js {

  /** An optional value: `undefined` or present. */
  datatype Option<+T> = None | Some(value: T) {

    /** `x ?? fallback` */
    function GetOr(fallback: T): T {
      match this
      case Some(v) => v
      case None => fallback
    }
  }

  /** A primitive an interaction option carries (`string | number | boolean`), or `undefined`. */
  datatype Value = Str(s: string) | Num(x: real) | Bool(b: bool) | Undefined

  /** JavaScript truthiness of a primitive: `''`, `0`, `false` and `undefined` are falsy. */
  predicate Truthy(v: Value) {
    match v
    case Str(s) => s != ""
    case Num(x) => x != 0.0
    case Bool(b) => b
    case Undefined => false
  }

  /** Truthiness of an optional boolean flag such as `testOnly`. */
  predicate FlagSet(flag: Option<bool>) {
    flag == Some(true)
  }

  /** String coercion of a property that may be undefined, as in `a + ' ' + b`. */
  function Coerce(s: Option<string>): string {
    s.GetOr("undefined")
  }

  /** `Array.prototype.filter`: the elements satisfying `p`, in their original order. */
  function Filter<T>(p: T -> bool, s: seq<T>): (r: seq<T>)
    ensures |r| <= |s|
    ensures forall i :: 0 <= i < |r| ==> p(r[i])
    ensures multiset(r) <= multiset(s)
  {
    if s == [] then []
    else
      var rest := Filter(p, s[1..]);
      assert s == [s[0]] + s[1..];
      if p(s[0]) then [s[0]] + rest else rest
  }

  /** Every element satisfying the predicate is kept. */
  lemma {:induction false} FilterKeeps<T>(p: T -> bool, s: seq<T>, i: nat)
    requires i < |s| && p(s[i])
    ensures s[i] in Filter(p, s)
  {
    if i > 0 {
      assert s[i] == s[1..][i - 1];
      FilterKeeps(p, s[1..], i - 1);
    }
  }

  /** Every element the filter keeps satisfies the predicate. */
  lemma FilterMember<T>(p: T -> bool, s: seq<T>, x: T)
    ensures x in Filter(p, s) ==> p(x)
  {
    if x in Filter(p, s) {
      var i :| 0 <= i < |Filter(p, s)| && Filter(p, s)[i] == x;
    }
  }

  /** Filtering a non-empty list: the head, if it qualifies, then the filtered tail. */
  lemma FilterCons<T>(p: T -> bool, s: seq<T>)
    requires s != []
    ensures Filter(p, s) == (if p(s[0]) then [s[0]] else []) + Filter(p, s[1..])
  {
  }

  /** Two complementary filters split a list: nothing is lost and nothing is duplicated. */
  lemma {:induction false} FilterSplit<T>(p: T -> bool, q: T -> bool, s: seq<T>)
    requires forall i :: 0 <= i < |s| ==> q(s[i]) == !p(s[i])
    ensures multiset(Filter(p, s)) + multiset(Filter(q, s)) == multiset(s)
  {
    if s != [] {
      assert forall i :: 0 <= i < |s[1..]| ==> s[1..][i] == s[i + 1];
      FilterSplit(p, q, s[1..]);
      FilterSplitStep(p, q, s);
    }
  }

  lemma FilterSplitStep<T>(p: T -> bool, q: T -> bool, s: seq<T>)
    requires s != [] && q(s[0]) == !p(s[0])
    requires multiset(Filter(p, s[1..])) + multiset(Filter(q, s[1..])) == multiset(s[1..])
    ensures multiset(Filter(p, s)) + multiset(Filter(q, s)) == multiset(s)
  {
    var head, tail := multiset([s[0]]), s[1..];
    assert s == [s[0]] + tail;
    assert multiset(s) == head + multiset(tail);
    FilterCons(p, s);
    FilterCons(q, s);
    var fp, fq := Filter(p, tail), Filter(q, tail);
    if p(s[0]) {
      assert multiset(Filter(p, s)) == head + multiset(fp);
      assert multiset(Filter(q, s)) == multiset(fq);
    } else {
      assert multiset(Filter(p, s)) == multiset(fp);
      assert multiset(Filter(q, s)) == head + multiset(fq);
    }
  }

  /** Filtering keeps relative order: it distributes over concatenation. */
  lemma {:induction false} FilterAppend<T>(p: T -> bool, a: seq<T>, b: seq<T>)
    ensures Filter(p, a + b) == Filter(p, a) + Filter(p, b)
  {
    if a == [] {
      assert a + b == b;
    } else {
      assert (a + b)[1..] == a[1..] + b;
      FilterAppend(p, a[1..], b);
    }
  }

  /** `Array.prototype.flatMap`: the concatenation of what `f` yields for each element, in order. */
  function FlatMap<T, U>(f: T -> seq<U>, s: seq<T>): seq<U> {
    if s == [] then [] else f(s[0]) + FlatMap(f, s[1..])
  }

  /** Mapping element by element distributes over concatenation. */
  lemma {:induction false} FlatMapAppend<T, U>(f: T -> seq<U>, a: seq<T>, b: seq<T>)
    ensures FlatMap(f, a + b) == FlatMap(f, a) + FlatMap(f, b)
  {
    if a == [] {
      assert a + b == b;
    } else {
      assert (a + b)[1..] == a[1..] + b;
      FlatMapAppend(f, a[1..], b);
    }
  }

  /** Appending one element appends what `f` yields for it. */
  lemma FlatMapSnoc<T, U>(f: T -> seq<U>, s: seq<T>, x: T)
    ensures FlatMap(f, s + [x]) == FlatMap(f, s) + f(x)
  {
    FlatMapAppend(f, s, [x]);
    assert [x][1..] == [];
  }

  /**
   * When `f` yields, for each element, the `p`-filtered output of `g`, mapping with `f` is
   * mapping with `g` and then filtering.
   */
  lemma {:induction false} FlatMapFilter<T, U>(f: T -> seq<U>, g: T -> seq<U>, p: U -> bool, s: seq<T>)
    requires forall i :: 0 <= i < |s| ==> f(s[i]) == Filter(p, g(s[i]))
    ensures FlatMap(f, s) == Filter(p, FlatMap(g, s))
  {
    if s != [] {
      assert forall i :: 0 <= i < |s[1..]| ==> s[1..][i] == s[i + 1];
      FlatMapFilter(f, g, p, s[1..]);
      FilterAppend(p, g(s[0]), FlatMap(g, s[1..]));
    }
  }
}

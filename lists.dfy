/** Array searches the extractor uses on lines: `find`/`findIndex` and
    `filter`. */
module Lists {
  import opened Wrappers

  /** `findIndex`: the first position whose element satisfies `P`. */
  function FirstWhere<T>(xs: seq<T>, P: T -> bool): (r: Option<nat>)
    ensures r.Some? ==> r.value < |xs| && P(xs[r.value]) && forall j :: 0 <= j < r.value ==> !P(xs[j])
    ensures r.None? ==> forall j :: 0 <= j < |xs| ==> !P(xs[j])
    decreases |xs|
  {
    if |xs| == 0 then None
    else if P(xs[0]) then Some(0)
    else match FirstWhere(xs[1..], P)
      case Some(i) => Some(i + 1)
      case None => None
  }

  /** `findIndex` returns the first position whose element satisfies `P`,
      whichever way that position is found. */
  lemma FirstWhereIsFirst<T>(xs: seq<T>, P: T -> bool)
    ensures forall i :: 0 <= i < |xs| && P(xs[i]) && (forall j :: 0 <= j < i ==> !P(xs[j])) ==>
      FirstWhere(xs, P) == Some(i)
  {
  }

  /** The least `q` with `p <= q <= n` and `ok(q)`: the leftmost start a
      pattern search tries successfully. */
  function LeastFrom(p: nat, n: nat, ok: nat -> bool): (r: Option<nat>)
    ensures r.Some? ==> p <= r.value <= n && ok(r.value) && forall q :: p <= q < r.value ==> !ok(q)
    ensures r.None? ==> forall q :: p <= q <= n ==> !ok(q)
    decreases n + 1 - p
  {
    if p > n then None
    else if ok(p) then Some(p)
    else LeastFrom(p + 1, n, ok)
  }

  /** `find(P) || dflt`: the first element satisfying `P`, else `dflt`. */
  function FindOr<T>(xs: seq<T>, P: T -> bool, dflt: T): (r: T)
    ensures FirstWhere(xs, P).Some? ==> r == xs[FirstWhere(xs, P).value]
    ensures FirstWhere(xs, P).None? ==> r == dflt
  {
    match FirstWhere(xs, P)
    case Some(i) => xs[i]
    case None => dflt
  }

  /** Concatenation is associative. */
  lemma Assoc<T>(x: seq<T>, y: seq<T>, z: seq<T>)
    ensures x + (y + z) == (x + y) + z
  {
  }

  /** Dropping the head of a concatenation drops it from the first part. */
  lemma TailAppend<T>(x: seq<T>, y: seq<T>)
    requires |x| > 0
    ensures (x + y)[0] == x[0] && (x + y)[1..] == x[1..] + y
  {
  }

  /** `map(f)`. */
  function Map<A, B>(xs: seq<A>, f: A -> B): (r: seq<B>)
    ensures |r| == |xs| && forall k :: 0 <= k < |xs| ==> r[k] == f(xs[k])
  {
    seq(|xs|, k requires 0 <= k < |xs| => f(xs[k]))
  }

  /** `filter(P)`: the elements satisfying `P`, in their order. */
  function Filter<T>(xs: seq<T>, P: T -> bool): (r: seq<T>)
    ensures |r| <= |xs|
    ensures forall k :: 0 <= k < |r| ==> P(r[k])
    decreases |xs|
  {
    if |xs| == 0 then [] else (if P(xs[0]) then [xs[0]] else []) + Filter(xs[1..], P)
  }

  /** Filtering keeps exactly the elements that satisfy `P`. */
  lemma {:induction false} FilterMember<T>(xs: seq<T>, P: T -> bool, x: T)
    ensures x in Filter(xs, P) <==> x in xs && P(x)
    decreases |xs|
  {
    if |xs| > 0 {
      FilterMember(xs[1..], P, x);
      assert xs == [xs[0]] + xs[1..];
    }
  }

  /** Filtering keeps order: what it keeps before any place comes before
      what it keeps from that place on. */
  lemma FilterSplit<T>(xs: seq<T>, P: T -> bool)
    ensures forall i :: 0 <= i <= |xs| ==> Filter(xs, P) == Filter(xs[..i], P) + Filter(xs[i..], P)
  {
    forall i | 0 <= i <= |xs| ensures Filter(xs, P) == Filter(xs[..i], P) + Filter(xs[i..], P) {
      assert xs == xs[..i] + xs[i..];
      FilterAppend(xs[..i], xs[i..], P);
    }
  }

  lemma {:induction false} FilterAppend<T>(a: seq<T>, b: seq<T>, P: T -> bool)
    ensures Filter(a + b, P) == Filter(a, P) + Filter(b, P)
    decreases |a|
  {
    if |a| > 0 {
      assert (a + b)[1..] == a[1..] + b;
      FilterAppend(a[1..], b, P);
    } else {
      assert a + b == b;
    }
  }

  /** Filtering three elements keeps those that pass, in their order. */
  lemma FilterThree<T>(a: T, b: T, c: T, P: T -> bool)
    ensures Filter([a, b, c], P) == (if P(a) then [a] else []) + (if P(b) then [b] else []) + (if P(c) then [c] else [])
  {
    assert [a, b, c][1..] == [b, c];
    assert [b, c][1..] == [c];
    assert [c][1..] == [];
    assert Filter([c], P) == (if P(c) then [c] else []);
    assert Filter([b, c], P) == (if P(b) then [b] else []) + Filter([c], P);
  }

  /** Filtering a sequence every element of which passes leaves it whole. */
  lemma {:induction false} FilterAll<T>(xs: seq<T>, P: T -> bool)
    requires forall k :: 0 <= k < |xs| ==> P(xs[k])
    ensures Filter(xs, P) == xs
    decreases |xs|
  {
    if |xs| > 0 {
      FilterAll(xs[1..], P);
    }
  }
}

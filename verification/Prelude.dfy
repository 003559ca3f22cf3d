/** Failure-carrying results and a few sequence functions shared by the other modules. */
module Prelude {

  datatype Option<+T> = None | Some(value: T) {
    predicate IsFailure() { None? }

    function PropagateFailure<U>(): Option<U>
      requires None?
    {
      None
    }

    function Extract(): T
      requires Some?
    {
      value
    }
  }

  datatype Result<+T, +E> = Ok(value: T) | Err(error: E) {
    predicate IsFailure() { Err? }

    function PropagateFailure<U>(): Result<U, E>
      requires Err?
    {
      Err(error)
    }

    function Extract(): T
      requires Ok?
    {
      value
    }
  }

  /** All the sequences of `parts`, one after the other. */
  function Flatten<T>(parts: seq<seq<T>>): seq<T> {
    if parts == [] then [] else parts[0] + Flatten(parts[1..])
  }

  lemma {:induction false} FlattenAppend<T>(a: seq<seq<T>>, b: seq<seq<T>>)
    ensures Flatten(a + b) == Flatten(a) + Flatten(b)
  {
    if a == [] {
      assert a + b == b;
    } else {
      calc {
        Flatten(a + b);
        { assert (a + b)[0] == a[0] && (a + b)[1..] == a[1..] + b; }
        a[0] + Flatten(a[1..] + b);
        { FlattenAppend(a[1..], b); }
        a[0] + (Flatten(a[1..]) + Flatten(b));
        Flatten(a) + Flatten(b);
      }
    }
  }

  /** `f` applied to every element, in order. */
  function MapSeq<T, U>(xs: seq<T>, f: T -> U): (ys: seq<U>)
    ensures |ys| == |xs|
    ensures forall i :: 0 <= i < |xs| ==> ys[i] == f(xs[i])
  {
    if xs == [] then [] else [f(xs[0])] + MapSeq(xs[1..], f)
  }

  /** The elements that satisfy `keep`, in order. */
  function Filter<T>(xs: seq<T>, keep: T -> bool): (ys: seq<T>)
    ensures |ys| <= |xs|
  {
    if xs == [] then [] else (if keep(xs[0]) then [xs[0]] else []) + Filter(xs[1..], keep)
  }

  lemma {:induction false} FilterAppend<T>(a: seq<T>, b: seq<T>, keep: T -> bool)
    ensures Filter(a + b, keep) == Filter(a, keep) + Filter(b, keep)
  {
    if a == [] {
      assert a + b == b;
    } else {
      var h := if keep(a[0]) then [a[0]] else [];
      calc {
        Filter(a + b, keep);
        { assert (a + b)[0] == a[0] && (a + b)[1..] == a[1..] + b; }
        h + Filter(a[1..] + b, keep);
        { FilterAppend(a[1..], b, keep); }
        h + (Filter(a[1..], keep) + Filter(b, keep));
        h + Filter(a[1..], keep) + Filter(b, keep);
      }
    }
  }

  /** `ys` are the elements of `xs` at the places `at`, which are in order and are those of what is kept. */
  ghost predicate Picks<T>(xs: seq<T>, keep: T -> bool, at: seq<nat>, ys: seq<T>) {
    && |at| == |ys|
    && (forall k :: 0 <= k < |at| ==> at[k] < |xs| && ys[k] == xs[at[k]])
    && PlacesOf(xs, keep, at)
  }

  ghost predicate PlacesOf<T>(xs: seq<T>, keep: T -> bool, at: seq<nat>) {
    && (forall a, b :: 0 <= a < b < |at| ==> at[a] < at[b])
    && (forall i: nat :: i in at <==> i < |xs| && keep(xs[i]))
  }

  lemma PlacesStep<T>(xs: seq<T>, keep: T -> bool, at: seq<nat>)
    requires xs != [] && PlacesOf(xs[..|xs| - 1], keep, at)
    ensures PlacesOf(xs, keep, at + if keep(xs[|xs| - 1]) then [|xs| - 1] else [])
  {
    var n := |xs| - 1;
    assert forall k :: 0 <= k < |at| ==> at[k] in at;
    assert forall i: nat :: i in at + [n] <==> i in at || i == n;
    assert at + [] == at;
  }

  /** Elements picked are in order, each once, and there are no others. */
  ghost predicate Picked<T>(xs: seq<T>, keep: T -> bool, ys: seq<T>) {
    exists at :: Picks(xs, keep, at, ys)
  }

  lemma PickedStep<T>(xs: seq<T>, keep: T -> bool, ys: seq<T>)
    requires xs != [] && Picked(xs[..|xs| - 1], keep, ys)
    ensures Picked(xs, keep, ys + if keep(xs[|xs| - 1]) then [xs[|xs| - 1]] else [])
  {
    var at: seq<nat> :| Picks(xs[..|xs| - 1], keep, at, ys);
    PlacesStep(xs, keep, at);
    var last := xs[|xs| - 1];
    assert Picks(xs, keep, at + if keep(last) then [|xs| - 1] else [], ys + if keep(last) then [last] else []);
  }

  lemma NothingPicked<T>(keep: T -> bool)
    ensures Picked([], keep, [])
  {
    assert Picks([], keep, [], []);
  }

  lemma PickedMembers<T>(xs: seq<T>, keep: T -> bool, ys: seq<T>, x: T)
    requires Picked(xs, keep, ys)
    ensures x in ys <==> x in xs && keep(x)
  {
    var at: seq<nat> :| Picks(xs, keep, at, ys);
    if x in xs && keep(x) {
      var i :| 0 <= i < |xs| && xs[i] == x;
      assert i in at;
      var k :| 0 <= k < |at| && at[k] == i;
      assert ys[k] == x;
    }
    if x in ys {
      var k :| 0 <= k < |ys| && ys[k] == x;
      assert at[k] in at;
    }
  }

  predicate Distinct<T(==)>(xs: seq<T>) {
    forall i, j :: 0 <= i < j < |xs| ==> xs[i] != xs[j]
  }

  /** `saturating_sub`. */
  function SaturatingSub(a: nat, b: nat): nat {
    if a >= b then a - b else 0
  }

  function Min(a: nat, b: nat): nat {
    if a <= b then a else b
  }

  // ---- division -----------------------------------------------------------------------------

  lemma MulAtLeast(n: int, k: int)
    requires n > 0 && k >= 1
    ensures n * k >= n
  {
  }

  lemma QuotientUnique(n: int, q: int, r: int, q': int, r': int)
    requires n * q + r == n * q' + r' && 0 <= r < n && 0 <= r' < n
    ensures q == q'
  {
    assert n * (q - q') == n * q - n * q' && n * (q' - q) == n * q' - n * q;
    if q > q' {
      MulAtLeast(n, q - q');
    } else if q' > q {
      MulAtLeast(n, q' - q);
    }
  }

  lemma DivStep(a: nat, n: nat)
    requires 0 < n <= a
    ensures a / n == (a - n) / n + 1
  {
    var q, r := (a - n) / n, (a - n) % n;
    assert a == n * (q + 1) + r;
    QuotientUnique(n, q + 1, r, a / n, a % n);
  }

  lemma TimesMonotone(x: nat, y: nat, b: nat)
    requires x <= y
    ensures x * b <= y * b
  {
    assert y * b == x * b + (y - x) * b;
  }
}

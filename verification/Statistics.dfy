/** The two reductions `format_road_condition` applies to a bucket's lists:
    the most frequent value, computed the way `Counter` and `max` compute it,
    and the arithmetic mean.

    Counter keeps its keys in the order of their first occurrence, and
    `max(items, key=count)` keeps the first item whose count no later item
    exceeds. Together they return the most frequent value whose first
    occurrence is earliest; `IsMode` states that without reference to the
    counter, and `ModeCharacterized` proves the two agree. */
module Statistics {
  import opened Results

  /** One item of a `Counter`: a value and the number of times it was added. */
  datatype Entry<T> = Entry(value: T, count: nat)

  /** The number of occurrences of `x` in `xs`. */
  function Occurrences<T(==)>(xs: seq<T>, x: T): nat {
    multiset(xs)[x]
  }

  /** The index of the first occurrence of `x` in `xs`. */
  function FirstIndex<T(==)>(xs: seq<T>, x: T): (i: nat)
    requires x in xs
    ensures i < |xs| && xs[i] == x
    ensures forall j :: 0 <= j < i ==> xs[j] != x
  {
    if xs[0] == x then 0 else 1 + FirstIndex(xs[1..], x)
  }

  /** The keys of a counter, in its iteration order. */
  function Keys<T>(c: seq<Entry<T>>): (ks: seq<T>)
    ensures |ks| == |c|
    ensures forall i :: 0 <= i < |c| ==> ks[i] == c[i].value
  {
    seq(|c|, i requires 0 <= i < |c| => c[i].value)
  }

  /** Adding one element to a counter: an existing key keeps its place and
      gains one; a new key is appended with count 1. */
  function Increment<T(==)>(c: seq<Entry<T>>, x: T): (r: seq<Entry<T>>)
    ensures |r| > 0
  {
    if x in Keys(c) then
      seq(|c|, i requires 0 <= i < |c| =>
        if c[i].value == x then c[i].(count := c[i].count + 1) else c[i])
    else
      c + [Entry(x, 1)]
  }

  /** `Counter(xs).items()`: the elements are added one by one, in order. */
  function Tally<T(==)>(xs: seq<T>): (c: seq<Entry<T>>)
    ensures |xs| > 0 ==> |c| > 0
  {
    if |xs| == 0 then [] else Increment(Tally(xs[..|xs| - 1]), xs[|xs| - 1])
  }

  /** `c` counts `xs`: every element of `xs` is a key, every key is counted
      exactly, and keys appear in the order of their first occurrence. */
  ghost predicate Tallies<T>(c: seq<Entry<T>>, xs: seq<T>) {
    && (forall i :: 0 <= i < |c| ==> c[i].value in xs && c[i].count == Occurrences(xs, c[i].value))
    && (forall x :: x in xs ==> x in Keys(c))
    && (forall i, j :: 0 <= i < j < |c| ==> FirstIndex(xs, c[i].value) < FirstIndex(xs, c[j].value))
  }

  /** The index `max(items, key=count)` selects: it scans left to right and
      replaces its candidate only by a strictly larger count. */
  function FirstMaximum<T>(c: seq<Entry<T>>): (m: nat)
    requires |c| > 0
    ensures m < |c|
    ensures forall j :: 0 <= j < |c| ==> c[j].count <= c[m].count
    ensures forall j :: 0 <= j < m ==> c[j].count < c[m].count
  {
    if |c| == 1 then 0
    else
      var m := FirstMaximum(c[..|c| - 1]);
      if c[|c| - 1].count > c[m].count then |c| - 1 else m
  }

  /** `max(Counter(xs).items(), key=operator.itemgetter(1))[0]`; `max` of
      an empty sequence raises ValueError. */
  function Mode<T(==)>(xs: seq<T>): (r: Result<T>)
    ensures r.Success? <==> |xs| > 0
    ensures r.Failure? ==> r.error == ValueError
  {
    if |xs| == 0 then Failure(ValueError)
    else
      var c := Tally(xs);
      Success(c[FirstMaximum(c)].value)
  }

  /** `v` is a most frequent element of `xs`, and among the most frequent
      ones the one that occurs first. */
  ghost predicate IsMode<T>(xs: seq<T>, v: T) {
    && v in xs
    && (forall u :: u in xs ==> Occurrences(xs, u) <= Occurrences(xs, v))
    && (forall u :: u in xs && Occurrences(xs, u) == Occurrences(xs, v) ==> FirstIndex(xs, v) <= FirstIndex(xs, u))
  }

  /** The first occurrence of an element is not moved by appending. */
  lemma FirstIndexAppend<T>(xs: seq<T>, y: T, v: T)
    requires v in xs
    ensures FirstIndex(xs + [y], v) == FirstIndex(xs, v)
  {
    var i := FirstIndex(xs, v);
    var k := FirstIndex(xs + [y], v);
    assert (xs + [y])[i] == v;
    assert xs[k] == (xs + [y])[k];
  }

  /** A new element first occurs at the position where it is appended. */
  lemma FirstIndexAppendNew<T>(xs: seq<T>, y: T)
    requires y !in xs
    ensures FirstIndex(xs + [y], y) == |xs|
  {
    assert forall j :: 0 <= j < |xs| ==> (xs + [y])[j] == xs[j] != y;
  }

  /** The positions of the values of `xs` are not moved by appending `x`. */
  lemma FirstIndicesAppend<T>(xs: seq<T>, x: T)
    ensures forall v :: v in xs ==> FirstIndex(xs + [x], v) == FirstIndex(xs, v)
  {
    forall v | v in xs
      ensures FirstIndex(xs + [x], v) == FirstIndex(xs, v)
    {
      FirstIndexAppend(xs, x, v);
    }
  }

  /** Incrementing an existing key counts `xs + [x]` exactly. */
  lemma ExistingCounts<T>(c: seq<Entry<T>>, xs: seq<T>, x: T)
    requires Tallies(c, xs) && x in Keys(c)
    ensures forall i :: 0 <= i < |Increment(c, x)| ==>
      Increment(c, x)[i].value in xs + [x]
      && Increment(c, x)[i].count == Occurrences(xs + [x], Increment(c, x)[i].value)
  {
    var r := Increment(c, x);
    assert multiset(xs + [x]) == multiset(xs) + multiset{x};
    forall i | 0 <= i < |r|
      ensures r[i].value in xs + [x] && r[i].count == Occurrences(xs + [x], r[i].value)
    {
      assert r[i].value == c[i].value;
    }
  }

  /** Incrementing an existing key keeps every key in its place. */
  lemma ExistingKeys<T>(c: seq<Entry<T>>, xs: seq<T>, x: T)
    requires Tallies(c, xs) && x in Keys(c)
    ensures forall u :: u in xs + [x] ==> u in Keys(Increment(c, x))
  {
    var r := Increment(c, x);
    assert Keys(r) == Keys(c);
    forall u | u in xs + [x]
      ensures u in Keys(r)
    {
      if u != x {
        assert u in xs;
      }
    }
  }

  /** Incrementing an existing key keeps the keys in first-occurrence order. */
  lemma ExistingOrder<T>(c: seq<Entry<T>>, xs: seq<T>, x: T)
    requires Tallies(c, xs) && x in Keys(c)
    ensures forall i, j :: 0 <= i < j < |Increment(c, x)| ==>
      FirstIndex(xs + [x], Increment(c, x)[i].value) < FirstIndex(xs + [x], Increment(c, x)[j].value)
  {
    var r := Increment(c, x);
    FirstIndicesAppend(xs, x);
    assert forall i :: 0 <= i < |r| ==> r[i].value == c[i].value;
  }

  /** Appending a new key counts `xs + [x]` exactly. */
  lemma NewCounts<T>(c: seq<Entry<T>>, xs: seq<T>, x: T)
    requires Tallies(c, xs) && x !in Keys(c)
    ensures forall i :: 0 <= i < |Increment(c, x)| ==>
      Increment(c, x)[i].value in xs + [x]
      && Increment(c, x)[i].count == Occurrences(xs + [x], Increment(c, x)[i].value)
  {
    var r := Increment(c, x);
    assert x !in xs;
    assert multiset(xs + [x]) == multiset(xs) + multiset{x};
    forall i | 0 <= i < |r|
      ensures r[i].value in xs + [x] && r[i].count == Occurrences(xs + [x], r[i].value)
    {
      if i < |c| {
        assert r[i] == c[i];
      }
    }
  }

  /** Appending a new key leaves every element of `xs + [x]` a key. */
  lemma NewKeys<T>(c: seq<Entry<T>>, xs: seq<T>, x: T)
    requires Tallies(c, xs) && x !in Keys(c)
    ensures forall u :: u in xs + [x] ==> u in Keys(Increment(c, x))
  {
    var r := Increment(c, x);
    forall u | u in xs + [x]
      ensures u in Keys(r)
    {
      if u == x {
        assert Keys(r)[|c|] == x;
      } else {
        assert u in xs;
        var k :| 0 <= k < |c| && Keys(c)[k] == u;
        assert Keys(r)[k] == u;
      }
    }
  }

  /** A new key is appended after the keys that occur before it. */
  lemma NewOrder<T>(c: seq<Entry<T>>, xs: seq<T>, x: T)
    requires Tallies(c, xs) && x !in Keys(c)
    ensures forall i, j :: 0 <= i < j < |Increment(c, x)| ==>
      FirstIndex(xs + [x], Increment(c, x)[i].value) < FirstIndex(xs + [x], Increment(c, x)[j].value)
  {
    var r := Increment(c, x);
    assert x !in xs;
    FirstIndicesAppend(xs, x);
    FirstIndexAppendNew(xs, x);
    forall i, j | 0 <= i < j < |r|
      ensures FirstIndex(xs + [x], r[i].value) < FirstIndex(xs + [x], r[j].value)
    {
      assert r[i] == c[i];
      if j < |c| {
        assert r[j] == c[j];
      }
    }
  }

  /** Incrementing a counter of `xs` by `x` gives a counter of `xs + [x]`. */
  lemma IncrementTallies<T>(c: seq<Entry<T>>, xs: seq<T>, x: T)
    requires Tallies(c, xs)
    ensures Tallies(Increment(c, x), xs + [x])
  {
    if x in Keys(c) {
      ExistingCounts(c, xs, x);
      ExistingKeys(c, xs, x);
      ExistingOrder(c, xs, x);
    } else {
      NewCounts(c, xs, x);
      NewKeys(c, xs, x);
      NewOrder(c, xs, x);
    }
  }

  /** `Tally` builds exactly the counter of its input. */
  lemma {:induction false} TallyCorrect<T>(xs: seq<T>)
    ensures Tallies(Tally(xs), xs)
  {
    if |xs| > 0 {
      var ys := xs[..|xs| - 1];
      TallyCorrect(ys);
      IncrementTallies(Tally(ys), ys, xs[|xs| - 1]);
      assert ys + [xs[|xs| - 1]] == xs;
    }
  }

  /** The value `Mode` returns is the earliest of the most frequent values. */
  lemma ModeIsMode<T>(xs: seq<T>)
    requires |xs| > 0
    ensures IsMode(xs, Mode(xs).value)
  {
    var c := Tally(xs);
    TallyCorrect(xs);
    var m := FirstMaximum(c);
    var v := c[m].value;
    forall u | u in xs
      ensures Occurrences(xs, u) <= Occurrences(xs, v)
      ensures Occurrences(xs, u) == Occurrences(xs, v) ==> FirstIndex(xs, v) <= FirstIndex(xs, u)
    {
      assert u in Keys(c);
      var j :| 0 <= j < |c| && Keys(c)[j] == u;
      assert c[j].value == u;
    }
  }

  /** At most one value is the earliest most frequent value. */
  lemma IsModeUnique<T>(xs: seq<T>, v: T, w: T)
    requires IsMode(xs, v) && IsMode(xs, w)
    ensures v == w
  {
    assert FirstIndex(xs, v) == FirstIndex(xs, w);
  }

  /** `Mode` succeeds exactly on non-empty input, and then returns precisely
      the value `IsMode` describes: the answer does not depend on anything
      but the multiplicities and first positions of the values. */
  lemma ModeCharacterized<T>(xs: seq<T>, v: T)
    ensures Mode(xs) == Success(v) <==> IsMode(xs, v)
  {
    if IsMode(xs, v) {
      ModeIsMode(xs);
      IsModeUnique(xs, v, Mode(xs).value);
    } else if |xs| > 0 {
      ModeIsMode(xs);
    }
  }

  /** The sum of a list of reals, as `sum` computes it (exactly). */
  function Sum(xs: seq<real>): real {
    if |xs| == 0 then 0.0 else xs[0] + Sum(xs[1..])
  }

  /** `sum(xs) / len(xs)`; dividing by the length of an empty list raises
      ZeroDivisionError. The result times the count is the sum. */
  function Mean(xs: seq<real>): (r: Result<real>)
    ensures r.Success? <==> |xs| > 0
    ensures r.Failure? ==> r.error == ZeroDivisionError
    ensures r.Success? ==> r.value * (|xs| as real) == Sum(xs)
  {
    if |xs| == 0 then Failure(ZeroDivisionError) else Success(Sum(xs) / (|xs| as real))
  }

  /** Bounds on every element bound the sum by the count times the bound. */
  lemma {:induction false} SumBounds(xs: seq<real>, lo: real, hi: real)
    requires forall i :: 0 <= i < |xs| ==> lo <= xs[i] <= hi
    ensures lo * (|xs| as real) <= Sum(xs) <= hi * (|xs| as real)
  {
    if |xs| > 0 {
      SumBounds(xs[1..], lo, hi);
      assert forall i :: 0 <= i < |xs[1..]| ==> xs[1..][i] == xs[i + 1];
    }
  }

  /** The mean of non-empty readings lies within any bounds on the readings. */
  lemma MeanBounds(xs: seq<real>, lo: real, hi: real)
    requires |xs| > 0
    requires forall i :: 0 <= i < |xs| ==> lo <= xs[i] <= hi
    ensures lo <= Mean(xs).value <= hi
  {
    SumBounds(xs, lo, hi);
    var n := |xs| as real;
    var m := Mean(xs).value;
    assert m * n == Sum(xs);
  }

  /** A single reading reduces to itself under both reductions. */
  lemma SingletonReductions<T>(x: T, t: real)
    ensures Mode([x]) == Success(x)
    ensures Mean([t]) == Success(t)
  {
    ModeCharacterized([x], x);
    assert Sum([t]) == t + Sum([]);
  }
}

/**
  The mixed-radix counter that enumerates combinations of key columns. A counter is an
  ordered map from column numbers to digits, kept here as a sequence in key order.
 */
module Odometer {
  import opened Common

  datatype Digit = Digit(val: nat, base: nat)

  datatype Col = Col(key: nat, d: Digit)

  type Index = seq<Col>

  ghost predicate Ordered(ix: Index) {
    forall i, j :: 0 <= i < j < |ix| ==> ix[i].key < ix[j].key
  }

  /** Digits are below their bases. */
  predicate Valid(ix: Index) {
    forall i :: 0 <= i < |ix| ==> ix[i].d.val < ix[i].d.base
  }

  /** The number the digits spell, the first one least significant. */
  function Number(ix: Index): nat {
    if ix == [] then 0 else ix[0].d.val + ix[0].d.base * Number(ix[1..])
  }

  function Total(ix: Index): nat {
    if ix == [] then 1 else ix[0].d.base * Total(ix[1..])
  }

  function Set(c: Col, v: nat): Col {
    c.(d := c.d.(val := v))
  }

  predicate AllZero(ix: Index) {
    forall i :: 0 <= i < |ix| ==> ix[i].d.val == 0
  }

  /** One step, with the carry out of the last digit. */
  function Next(ix: Index): (r: (Index, bool))
    ensures |r.0| == |ix|
  {
    if ix == [] then ([], true)
    else if ix[0].d.val + 1 < ix[0].d.base then ([Set(ix[0], ix[0].d.val + 1)] + ix[1..], false)
    else var r := Next(ix[1..]); ([Set(ix[0], 0)] + r.0, r.1)
  }

  // ---- numbers ----

  lemma {:induction false} NumberBounds(ix: Index)
    requires Valid(ix)
    ensures 0 <= Number(ix) < Total(ix)
  {
    if ix != [] {
      NumberBounds(ix[1..]);
      var d, n, t := ix[0].d, Number(ix[1..]), Total(ix[1..]);
      assert d.base * n + d.base <= d.base * t by { MulStep(d.base, n, t); }
    }
  }

  lemma {:induction false} MulStep(b: nat, n: nat, t: nat)
    requires n < t
    ensures b * n + b <= b * t
    decreases t
  {
    if n + 1 < t {
      MulStep(b, n, t - 1);
      assert b * t == b * (t - 1) + b;
    }
  }

  ghost predicate SameShape(a: Index, b: Index) {
    |a| == |b| && forall i :: 0 <= i < |a| ==> a[i].key == b[i].key && a[i].d.base == b[i].d.base
  }

  lemma {:induction false} ShapeTotal(a: Index, b: Index)
    requires SameShape(a, b)
    ensures Total(a) == Total(b)
  {
    if a != [] {
      ShapeTotal(a[1..], b[1..]);
    }
  }

  /** A step adds one; past the end it wraps round to zero. */
  lemma {:induction false} NextCounts(ix: Index)
    requires Valid(ix)
    ensures var (ix', carry) := Next(ix);
            && Valid(ix') && SameShape(ix, ix')
            && (carry <==> Number(ix) + 1 == Total(ix))
            && (carry ==> AllZero(ix') && Number(ix') == 0)
            && (!carry ==> Number(ix') == Number(ix) + 1)
  {
    if ix != [] {
      var (ix', carry) := Next(ix);
      NumberBounds(ix[1..]);
      if ix[0].d.val + 1 < ix[0].d.base {
        assert ix'[1..] == ix[1..];
        MulStep(ix[0].d.base, Number(ix[1..]), Total(ix[1..]));
      } else {
        NextCounts(ix[1..]);
        var r := Next(ix[1..]);
        assert ix'[1..] == r.0;
        CarryArithmetic(ix[0].d, Number(ix[1..]), Total(ix[1..]), Number(r.0));
      }
    }
  }

  lemma CarryArithmetic(d: Digit, n: nat, t: nat, n': nat)
    requires d.val + 1 == d.base && n < t
    ensures d.val + d.base * n + 1 == d.base * t <==> n + 1 == t
    ensures n' == n + 1 ==> d.base * n' == d.val + d.base * n + 1
    ensures n' == 0 ==> d.base * n' == 0
  {
    assert d.base * (n + 1) == d.base * n + d.base;
    if n + 1 < t {
      MulStep(d.base, n + 1, t);
    }
  }

  /** Equal numbers, equal digits. */
  lemma {:induction false} NumberIsInjective(a: Index, b: Index)
    requires Valid(a) && Valid(b) && SameShape(a, b) && Number(a) == Number(b)
    ensures a == b
  {
    if a != [] {
      var base, n, m := a[0].d.base, Number(a[1..]), Number(b[1..]);
      SplitDigit(base, a[0].d.val, n, b[0].d.val, m);
      NumberIsInjective(a[1..], b[1..]);
      assert a == [a[0]] + a[1..] && b == [b[0]] + b[1..];
    }
  }

  lemma SplitDigit(base: nat, x: nat, n: nat, y: nat, m: nat)
    requires x < base && y < base && x + base * n == y + base * m
    ensures x == y && n == m
  {
    if n < m { MulStep(base, n, m); }
    if m < n { MulStep(base, m, n); }
  }

  // ---- the loops ----

  class Counter {
    var cols: Index

    /** `init_index`. */
    method Init() returns (ret: int)
      requires forall i :: 0 <= i < |cols| ==> cols[i].d.base > 0
      modifies this
      ensures ret == if cols == [] then -1 else 0
      ensures SameShape(old(cols), cols) && Valid(cols) && AllZero(cols)
    {
      if |cols| == 0 {
        return -1;
      }
      var i := 0;
      while i < |cols|
        invariant 0 <= i <= |cols| && SameShape(old(cols), cols)
        invariant forall j :: 0 <= j < i ==> cols[j].d.val == 0
      {
        cols := cols[i := Set(cols[i], 0)];
        i := i + 1;
      }
      return 0;
    }

    /** `index_increase`: add one to the first digit and carry. */
    method Increase() returns (ret: int)
      requires Valid(cols)
      modifies this
      ensures cols == Next(old(cols)).0 && ret == if Next(old(cols)).1 then -1 else 0
    {
      if |cols| == 0 {
        return -1;
      }
      hide Next, Carrying;
      ghost var was := cols;
      var i := 0;
      StartCarrying(was);
      cols := cols[0 := Set(cols[0], cols[0].d.val + 1)];
      while cols[i].d.val >= cols[i].d.base
        invariant 0 <= i < |was| == |cols| && Carrying(was, cols, i)
        decreases |was| - i
      {
        Carry(was, cols, i);
        cols := cols[i := Set(cols[i], 0)];
        i := i + 1;
        if i == |cols| {
          return -1;
        }
        cols := cols[i := Set(cols[i], cols[i].d.val + 1)];
      }
      Stop(was, cols, i);
      return 0;
    }

    /** `index_reverse_increase`: the same from the last digit down. */
    method ReverseIncrease() returns (ret: int)
      requires Valid(cols)
      modifies this
      ensures cols == Stepped(old(cols), true).0 && ret == if Stepped(old(cols), true).1 then -1 else 0
    {
      if |cols| == 0 {
        return -1;
      }
      hide Stepped, BackCarrying;
      ghost var was := cols;
      var p := |cols| - 1;
      BackStart(was);
      cols := cols[p := Set(cols[p], cols[p].d.val + 1)];
      while cols[p].d.val >= cols[p].d.base
        invariant 0 <= p < |was| == |cols| && BackCarrying(was, cols, p)
        decreases p
      {
        BackCarry(was, cols, p);
        cols := cols[p := Set(cols[p], 0)];
        if p == 0 {
          return -1;
        }
        p := p - 1;
        cols := cols[p := Set(cols[p], cols[p].d.val + 1)];
      }
      BackStop(was, cols, p);
      return 0;
    }

    /** Take out all bound columns but the first. */
    method TakeOut(bound: seq<nat>)
      requires |bound| > 1
      modifies this
      ensures cols == ErasedAll(old(cols), bound[1..])
    {
      var i := 1;
      while i < |bound|
        invariant 1 <= i <= |bound| && cols == ErasedAll(old(cols), bound[1..i])
      {
        ErasedAllStep(old(cols), bound, i);
        cols := Erased(cols, bound[i]);
        i := i + 1;
      }
      assert bound[1..i] == bound[1..];
    }

    /** Copy the first bound column to the others. */
    method PutBack(bound: seq<nat>)
      requires |bound| > 1 && Distinct(bound)
      modifies this
      ensures cols == PutAll(old(cols), bound[1..], Get(old(cols), bound[0]))
    {
      hide Get, PutAll;
      ghost var e, d := cols, Get(cols, bound[0]);
      PutNothing(e, d, bound);
      var i := 1;
      while i < |bound|
        invariant 1 <= i <= |bound| && cols == PutAll(e, bound[1..i], d)
      {
        PutAllStep(e, bound, i, d);
        cols := Put(cols, bound[i], Get(cols, bound[0]));
        i := i + 1;
      }
      assert bound[1..i] == bound[1..];
    }

    /** `index_increase` with bound columns. */
    method IncreaseBound(bound: seq<nat>) returns (ret: int)
      requires BoundOk(cols, bound)
      modifies this
      ensures cols == BoundStep(old(cols), bound, false).0 &&
              ret == if BoundStep(old(cols), bound, false).1 then -1 else 0
      ensures BoundOk(cols, bound)
    {
      hide BoundOk, Next, ErasedAll, PutAll, Get;
      BoundStepKeeps(cols, bound, false);
      BoundParts(cols, bound);
      if |bound| <= 1 {
        ret := Increase();
      } else {
        TakeOut(bound);
        ret := Increase();
        PutBack(bound);
      }
    }

    /** `index_reverse_increase` with bound columns. */
    method ReverseIncreaseBound(bound: seq<nat>) returns (ret: int)
      requires BoundOk(cols, bound)
      modifies this
      ensures cols == BoundStep(old(cols), bound, true).0 &&
              ret == if BoundStep(old(cols), bound, true).1 then -1 else 0
      ensures BoundOk(cols, bound)
    {
      hide BoundOk, Stepped, ErasedAll, PutAll, Get;
      BoundStepKeeps(cols, bound, true);
      BoundParts(cols, bound);
      if |bound| <= 1 {
        ret := ReverseIncrease();
      } else {
        TakeOut(bound);
        ret := ReverseIncrease();
        PutBack(bound);
      }
    }
  }

  // ---- either direction ----

  function Reversed(ix: Index): (r: Index)
    ensures |r| == |ix|
  {
    seq(|ix|, i requires 0 <= i < |ix| => ix[|ix| - 1 - i])
  }

  lemma ReversedAt(ix: Index, i: nat)
    requires i < |ix|
    ensures Reversed(ix)[i] == ix[|ix| - 1 - i]
  {
  }

  lemma ReversedSet(ix: Index, i: nat, c: Col)
    requires i < |ix|
    ensures Reversed(ix[|ix| - 1 - i := c]) == Reversed(ix)[i := c]
  {
  }

  lemma ReversedTwice(ix: Index)
    ensures Reversed(Reversed(ix)) == ix
  {
  }

  /** `Carrying` for the loop that comes from the last digit. */
  ghost predicate BackCarrying(was: Index, cols: Index, p: nat)
    requires p < |was|
  {
    |cols| == |was| && Carrying(Reversed(was), Reversed(cols), |was| - 1 - p)
  }

  lemma BackStart(was: Index)
    requires was != []
    ensures var p := |was| - 1; BackCarrying(was, was[p := Set(was[p], was[p].d.val + 1)], p)
  {
    hide Carrying, Reversed, Set;
    var p := |was| - 1;
    StartCarrying(Reversed(was));
    ReversedAt(was, 0);
    ReversedSet(was, 0, Set(was[p], was[p].d.val + 1));
  }

  lemma BackCarry(was: Index, cols: Index, p: nat)
    requires p < |was| && BackCarrying(was, cols, p) && cols[p].d.val >= cols[p].d.base
    ensures |cols| == |was|
    ensures var c := cols[p := Set(cols[p], 0)];
            if p == 0 then c == Stepped(was, true).0 && Stepped(was, true).1
            else BackCarrying(was, c[p - 1 := Set(c[p - 1], c[p - 1].d.val + 1)], p - 1)
  {
    hide Carrying, Reversed, Set, Next;
    var i, c := |was| - 1 - p, cols[p := Set(cols[p], 0)];
    ReversedAt(cols, i);
    Carry(Reversed(was), Reversed(cols), i);
    ReversedSet(cols, i, Set(cols[p], 0));
    if p == 0 {
      ReversedTwice(c);
    } else {
      ReversedAt(c, i + 1);
      ReversedSet(c, i + 1, Set(c[p - 1], c[p - 1].d.val + 1));
    }
  }

  lemma BackStop(was: Index, cols: Index, p: nat)
    requires p < |was| && BackCarrying(was, cols, p) && cols[p].d.val < cols[p].d.base
    ensures cols == Stepped(was, true).0 && !Stepped(was, true).1
  {
    hide Carrying, Reversed, Next;
    ReversedAt(cols, |was| - 1 - p);
    Stop(Reversed(was), Reversed(cols), |was| - 1 - p);
    ReversedTwice(cols);
  }

  /** The digits in the order they are stepped. */
  function Oriented(ix: Index, back: bool): Index {
    if back then Reversed(ix) else ix
  }

  function Stepped(ix: Index, back: bool): (Index, bool) {
    var r := Next(Oriented(ix, back));
    (Oriented(r.0, back), r.1)
  }

  lemma SteppedIsNext(ix: Index, back: bool)
    ensures Oriented(Stepped(ix, back).0, back) == Next(Oriented(ix, back)).0
  {
    hide Next, Reversed;
    ReversedTwice(Next(Oriented(ix, back)).0);
  }

  lemma SteppedShape(ix: Index, back: bool)
    requires Valid(ix)
    ensures Valid(Stepped(ix, back).0) && SameShape(ix, Stepped(ix, back).0)
  {
    hide Next;
    NextCounts(Oriented(ix, back));
  }

  /** One step with bound columns: all but the first are taken out, and copied back afterwards. */
  function BoundStep(ix: Index, bound: seq<nat>, back: bool): (Index, bool) {
    if |bound| <= 1 then Stepped(ix, back)
    else
      var r := Stepped(ErasedAll(ix, bound[1..]), back);
      (PutAll(r.0, bound[1..], Get(r.0, bound[0])), r.1)
  }

  ghost predicate BoundOk(ix: Index, bound: seq<nat>) {
    Valid(ix) && Ordered(ix) && Distinct(bound) && forall k :: k in bound ==> Has(ix, k)
  }

  lemma BoundParts(ix: Index, bound: seq<nat>)
    requires BoundOk(ix, bound)
    ensures Valid(ix) && Distinct(bound) && (|bound| > 1 ==> Valid(ErasedAll(ix, bound[1..])))
  {
    if |bound| > 1 {
      ErasedAllValid(ix, bound[1..]);
    }
  }

  /** The columns of `bound` all show the digit of its first one. */
  ghost predicate Tied(ix: Index, bound: seq<nat>) {
    forall k :: k in bound ==> Get(ix, k).val == Get(ix, bound[0]).val
  }

  /** A bound step is a step of the independent digits, and ties the bound columns together. */
  lemma BoundStepKeeps(ix: Index, bound: seq<nat>, back: bool)
    requires BoundOk(ix, bound)
    ensures var r := BoundStep(ix, bound, back);
            && BoundOk(r.0, bound) && (forall k :: Has(r.0, k) <==> Has(ix, k))
            && Independent(r.0, bound) == Stepped(Independent(ix, bound), back).0
            && r.1 == Stepped(Independent(ix, bound), back).1
            && Tied(r.0, bound)
  {
    hide Stepped, ErasedAll, PutAll, Get, Has;
    if |bound| <= 1 {
      SteppedShape(ix, back);
      SameHas(ix, Stepped(ix, back).0);
      ShapeOrdered(ix, Stepped(ix, back).0);
    } else {
      var ks := bound[1..];
      var e0 := ErasedAll(ix, ks);
      ErasedAllValid(ix, ks);
      SteppedShape(e0, back);
      var e := Stepped(e0, back).0;
      SameHas(e0, e);
      ShapeOrdered(e0, e);
      var d := Get(e, bound[0]);
      ErasedAllGone(ix, ks, bound[0]);
      assert bound == [bound[0]] + ks && bound[0] in bound && bound[0] !in ks;
      GetValid(e, bound[0]);
      BoundResult(ix, e, bound, d);
      PutAllKeeps(e, ks, d);
    }
  }

  lemma ShapeOrdered(a: Index, b: Index)
    requires SameShape(a, b) && Ordered(a)
    ensures Ordered(b)
  {
  }

  lemma {:induction false} GetValid(ix: Index, k: nat)
    requires Valid(ix) && Has(ix, k)
    ensures Get(ix, k).val < Get(ix, k).base && Col(k, Get(ix, k)) in ix
  {
    HasSplit(ix, k);
    if ix[0].key == k {
      assert ix[0] in ix;
    } else {
      GetValid(ix[1..], k);
      assert ix == [ix[0]] + ix[1..];
    }
  }

  lemma {:induction false} PutIn(ix: Index, k: nat, d: Digit, c: Col)
    requires c in Put(ix, k, d)
    ensures c in ix || c == Col(k, d)
  {
    if !(ix == [] || k < ix[0].key) {
      assert ix == [ix[0]] + ix[1..];
      if ix[0].key != k && c != ix[0] {
        PutIn(ix[1..], k, d, c);
      }
    }
  }

  lemma {:induction false} PutKeeps(ix: Index, k: nat, d: Digit)
    requires Valid(ix) && Ordered(ix) && d.val < d.base
    ensures Valid(Put(ix, k, d)) && Ordered(Put(ix, k, d))
  {
    if !(ix == [] || k <= ix[0].key) {
      PutKeeps(ix[1..], k, d);
      var rest := Put(ix[1..], k, d);
      OrderedTail(ix);
      forall c | c in rest ensures ix[0].key < c.key {
        PutIn(ix[1..], k, d, c);
      }
      ConsKeeps(ix[0], rest);
    } else if ix != [] && ix[0].key == k {
      OrderedTail(ix);
      ConsKeeps(Col(k, d), ix[1..]);
    } else {
      if ix != [] { OrderedTail(ix); }
      forall c | c in ix ensures k < c.key {
        assert c == ix[0] || c in ix[1..];
      }
      ConsKeeps(Col(k, d), ix);
    }
  }

  lemma OrderedTail(ix: Index)
    requires Ordered(ix) && ix != []
    ensures Ordered(ix[1..]) && forall c :: c in ix[1..] ==> ix[0].key < c.key
  {
    forall c | c in ix[1..] ensures ix[0].key < c.key {
      var i :| 0 <= i < |ix[1..]| && ix[1..][i] == c;
      assert ix[i + 1] == c;
    }
  }

  lemma ConsKeeps(c: Col, rest: Index)
    requires Valid(rest) && Ordered(rest) && c.d.val < c.d.base && forall x :: x in rest ==> c.key < x.key
    ensures Valid([c] + rest) && Ordered([c] + rest)
  {
    OrderedCons(c, rest);
  }

  lemma {:induction false} PutAllKeeps(ix: Index, ks: seq<nat>, d: Digit)
    requires Valid(ix) && Ordered(ix) && d.val < d.base
    ensures Valid(PutAll(ix, ks, d)) && Ordered(PutAll(ix, ks, d))
  {
    if ks != [] {
      PutAllKeeps(ix, ks[..|ks| - 1], d);
      PutKeeps(PutAll(ix, ks[..|ks| - 1], d), ks[|ks| - 1], d);
    }
  }

  // ---- enumeration with bound columns ----

  /** `k` bound steps from `ix`. */
  function BoundAfter(ix: Index, bound: seq<nat>, back: bool, k: nat): Index {
    if k == 0 then ix else BoundStep(BoundAfter(ix, bound, back, k - 1), bound, back).0
  }

  /** The independent digits in stepping order. */
  function Free(ix: Index, bound: seq<nat>, back: bool): Index {
    Oriented(Independent(ix, bound), back)
  }

  lemma {:induction false} BoundAfterIsAfter(ix: Index, bound: seq<nat>, back: bool, k: nat)
    requires BoundOk(ix, bound) && Tied(ix, bound)
    ensures var x := BoundAfter(ix, bound, back, k);
            && BoundOk(x, bound) && Tied(x, bound) && (forall c :: Has(x, c) <==> Has(ix, c))
            && Free(x, bound, back) == After(Free(ix, bound, back), k)
            && BoundStep(x, bound, back).1 == Next(After(Free(ix, bound, back), k)).1
  {
    hide BoundOk, Tied, BoundStep, Next, Independent, Reversed, Has;
    if k > 0 {
      var y := BoundAfter(ix, bound, back, k - 1);
      BoundAfterIsAfter(ix, bound, back, k - 1);
      BoundStepKeeps(y, bound, back);
      SteppedIsNext(Independent(y, bound), back);
    }
    BoundStepKeeps(BoundAfter(ix, bound, back, k), bound, back);
  }

  lemma FreeZero(ix: Index, bound: seq<nat>, back: bool)
    requires BoundOk(ix, bound) && AllZero(ix)
    ensures Valid(Free(ix, bound, back)) && AllZero(Free(ix, bound, back)) && Tied(ix, bound)
  {
    hide Get, Has;
    if |bound| > 1 {
      ErasedAllValid(ix, bound[1..]);
      ErasedAllZero(ix, bound[1..]);
    }
    forall k | k in bound ensures Get(ix, k).val == 0 {
      ZeroGet(ix, k);
    }
    if |bound| > 0 {
      ZeroGet(ix, bound[0]);
    }
  }

  lemma {:induction false} ZeroGet(ix: Index, k: nat)
    requires AllZero(ix)
    ensures Get(ix, k).val == 0
  {
    if ix != [] {
      ZeroGet(ix[1..], k);
    }
  }

  lemma {:induction false} ErasedZero(ix: Index, k: nat)
    requires AllZero(ix)
    ensures AllZero(Erased(ix, k))
  {
    if ix != [] {
      ErasedZero(ix[1..], k);
    }
  }

  lemma {:induction false} ErasedAllZero(ix: Index, ks: seq<nat>)
    requires AllZero(ix)
    ensures AllZero(ErasedAll(ix, ks))
  {
    if ks != [] {
      ErasedAllZero(ix, ks[..|ks| - 1]);
      ErasedZero(ErasedAll(ix, ks[..|ks| - 1]), ks[|ks| - 1]);
    }
  }

  /**
    From all zeros, repeated bound increases, in either direction, visit each combination of the
    independent digits exactly once ...
   */
  lemma BoundVisitsEachOnce(ix: Index, bound: seq<nat>, back: bool, target: Index)
    requires BoundOk(ix, bound) && AllZero(ix) && Valid(target) && SameShape(Free(ix, bound, back), target)
    ensures var n := Total(Free(ix, bound, back));
            && Number(target) < n && Free(BoundAfter(ix, bound, back, Number(target)), bound, back) == target
            && forall k :: 0 <= k < n && Free(BoundAfter(ix, bound, back, k), bound, back) == target ==>
                             k == Number(target)
  {
    hide BoundOk, Tied, BoundAfter, Free, After, Valid, SameShape;
    FreeZero(ix, bound, back);
    var f := Free(ix, bound, back);
    VisitsEachOnce(f, target);
    BoundAfterIsAfter(ix, bound, back, Number(target));
    forall k | 0 <= k < Total(f) && Free(BoundAfter(ix, bound, back, k), bound, back) == target
      ensures k == Number(target)
    {
      BoundAfterIsAfter(ix, bound, back, k);
    }
  }

  /** ... with the bound columns equal throughout, and success reported until the last combination ... */
  lemma BoundStaysTied(ix: Index, bound: seq<nat>, back: bool, k: nat)
    requires BoundOk(ix, bound) && AllZero(ix) && k < Total(Free(ix, bound, back))
    ensures var x := BoundAfter(ix, bound, back, k);
            && BoundOk(x, bound) && Tied(x, bound) && Number(Free(x, bound, back)) == k
            && (BoundStep(x, bound, back).1 <==> k + 1 == Total(Free(ix, bound, back)))
  {
    hide BoundOk, Tied, BoundAfter, Free, After, Valid, BoundStep, Next;
    FreeZero(ix, bound, back);
    BoundAfterIsAfter(ix, bound, back, k);
    Enumerates(Free(ix, bound, back), k);
  }

  /** ... when the end is reported with every column back at zero. */
  lemma BoundEndsAtZero(ix: Index, bound: seq<nat>, back: bool)
    requires BoundOk(ix, bound) && AllZero(ix)
    ensures Total(Free(ix, bound, back)) > 0
    ensures var last := BoundStep(BoundAfter(ix, bound, back, Total(Free(ix, bound, back)) - 1), bound, back);
            last.1 && forall k :: Has(ix, k) ==> Has(last.0, k) && Get(last.0, k).val == 0
  {
    hide BoundOk, Tied, Free, After, Valid, BoundStep, Next, Get, Has;
    FreeZero(ix, bound, back);
    var f := Free(ix, bound, back);
    EndsAtZero(f);
    var n := Total(f);
    BoundAfterIsAfter(ix, bound, back, n - 1);
    BoundAfterIsAfter(ix, bound, back, n);
    AfterStep(f, n);
    var x := BoundAfter(ix, bound, back, n);
    forall k | Has(ix, k) ensures Get(x, k).val == 0 {
      FreeTellsAll(x, bound, back, k);
    }
  }

  lemma AfterStep(ix: Index, n: nat)
    requires n > 0
    ensures After(ix, n) == Next(After(ix, n - 1)).0
  {
  }

  /** With the independent digits at zero and the bound columns tied, every digit is zero. */
  lemma FreeTellsAll(x: Index, bound: seq<nat>, back: bool, k: nat)
    requires BoundOk(x, bound) && Tied(x, bound) && AllZero(Free(x, bound, back))
    ensures Get(x, k).val == 0
  {
    hide Get, Has, Valid;
    var ind := Independent(x, bound);
    if back { ReversedZero(ind); }
    if |bound| <= 1 {
      ZeroGet(x, k);
    } else {
      var ks := bound[1..];
      assert bound == [bound[0]] + ks && bound[0] !in ks;
      ErasedAllGet(x, ks, k);
      ErasedAllGet(x, ks, bound[0]);
      ZeroGet(ind, k);
      ZeroGet(ind, bound[0]);
    }
  }

  lemma ReversedZero(ix: Index)
    requires AllZero(Reversed(ix))
    ensures AllZero(ix)
  {
    forall i | 0 <= i < |ix| ensures ix[i].d.val == 0 {
      ReversedAt(ix, |ix| - 1 - i);
    }
  }

  lemma {:induction false} ErasedGet(ix: Index, e: nat, k: nat)
    requires k != e
    ensures Get(Erased(ix, e), k) == Get(ix, k)
  {
    if ix != [] {
      ErasedGet(ix[1..], e, k);
      if ix[0].key == e {
        assert Erased(ix, e) == Erased(ix[1..], e);
      } else {
        assert Erased(ix, e)[1..] == Erased(ix[1..], e);
      }
    }
  }

  lemma {:induction false} ErasedAllGet(ix: Index, ks: seq<nat>, k: nat)
    ensures k !in ks ==> Get(ErasedAll(ix, ks), k) == Get(ix, k)
  {
    if ks != [] && k !in ks {
      var n := |ks| - 1;
      assert ks[n] in ks && forall x :: x in ks[..n] ==> x in ks;
      ErasedAllGet(ix, ks[..n], k);
      ErasedGet(ErasedAll(ix, ks[..n]), ks[n], k);
    }
  }

  lemma SameHas(a: Index, b: Index)
    requires SameShape(a, b)
    ensures forall k :: Has(a, k) <==> Has(b, k)
  {
  }

  lemma ErasedAllStep(ix: Index, bound: seq<nat>, i: nat)
    requires 1 <= i < |bound|
    ensures ErasedAll(ix, bound[1..i + 1]) == Erased(ErasedAll(ix, bound[1..i]), bound[i])
  {
    assert bound[1..i + 1][..i - 1] == bound[1..i];
  }

  lemma PutNothing(ix: Index, d: Digit, bound: seq<nat>)
    requires |bound| > 1
    ensures PutAll(ix, bound[1..1], d) == ix
  {
  }

  /** Copying from the first bound column again and again copies the same digit. */
  lemma PutAllStep(ix: Index, bound: seq<nat>, i: nat, d: Digit)
    requires 1 <= i < |bound| && Distinct(bound) && d == Get(ix, bound[0])
    ensures PutAll(ix, bound[1..i + 1], d) == Put(PutAll(ix, bound[1..i], d), bound[i], d)
    ensures Get(PutAll(ix, bound[1..i], d), bound[0]) == d
  {
    assert bound[1..i + 1][..i - 1] == bound[1..i];
    PutAllMeans(ix, bound[1..i], d, bound[0]);
  }

  lemma {:induction false} ErasedAllValid(ix: Index, ks: seq<nat>)
    requires Valid(ix) && Ordered(ix)
    ensures Valid(ErasedAll(ix, ks)) && Ordered(ErasedAll(ix, ks))
  {
    if ks != [] {
      var a, k := ErasedAll(ix, ks[..|ks| - 1]), ks[|ks| - 1];
      ErasedAllValid(ix, ks[..|ks| - 1]);
      ErasedIn(a, k);
      var r := Erased(a, k);
      forall i | 0 <= i < |r| ensures r[i].d.val < r[i].d.base {
        assert r[i] in r;
      }
    }
  }

  lemma BoundResult(was: Index, e: Index, bound: seq<nat>, d: Digit)
    requires |bound| > 1 && Distinct(bound) && (forall k :: k in bound ==> Has(was, k))
    requires (forall k :: Has(e, k) <==> Has(ErasedAll(was, bound[1..]), k)) && d == Get(e, bound[0])
    ensures ErasedAll(PutAll(e, bound[1..], d), bound[1..]) == e
    ensures forall k :: k in bound ==> Get(PutAll(e, bound[1..], d), k) == d
    ensures forall k :: Has(PutAll(e, bound[1..], d), k) <==> Has(was, k)
  {
    hide Has, Get, PutAll, ErasedAll;
    var ks := bound[1..];
    assert bound == [bound[0]] + ks;
    forall k ensures (Has(e, k) <==> Has(was, k) && k !in ks)
      ensures Get(PutAll(e, ks, d), k) == if k in ks then d else Get(e, k)
      ensures Has(PutAll(e, ks, d), k) <==> Has(e, k) || k in ks
    {
      ErasedAllGone(was, ks, k);
      PutAllMeans(e, ks, d, k);
    }
    assert forall k :: k in ks ==> k in bound;
    PutAllErased(e, ks, d);
  }

  /** Digits before `i` are final, digit `i` has been stepped, the step of the digits from `i` on is what is left. */
  ghost predicate Carrying(was: Index, cols: Index, i: nat)
    requires i < |was|
  {
    && |cols| == |was|
    && (forall j :: 0 <= j < i ==> cols[j] == Next(was).0[j])
    && cols[i] == Set(was[i], was[i].d.val + 1)
    && (forall j :: i < j < |was| ==> cols[j] == was[j])
    && LeftToStep(was, i)
  }

  ghost predicate LeftToStep(was: Index, i: nat)
    requires i <= |was|
  {
    var n, m := Next(was), Next(was[i..]);
    (forall j :: i <= j < |was| ==> n.0[j] == m.0[j - i]) && m.1 == n.1
  }

  lemma CarryNext(was: Index, i: nat)
    requires i < |was| && LeftToStep(was, i) && was[i].d.val + 1 >= was[i].d.base
    ensures Next(was).0[i] == Set(was[i], 0) && LeftToStep(was, i + 1)
  {
    hide Next, Set;
    var tail, rest := was[i..], was[i + 1..];
    assert tail[0] == was[i] && tail[1..] == rest;
    NextCarries(tail);
    var n, m, k := Next(was), Next(tail), Next(rest);
    assert n.0[i] == m.0[i - i];
    forall j | i + 1 <= j < |was| ensures n.0[j] == k.0[j - (i + 1)] {
      assert n.0[j] == m.0[j - i];
    }
  }

  lemma StartCarrying(was: Index)
    requires was != []
    ensures Carrying(was, was[0 := Set(was[0], was[0].d.val + 1)], 0)
  {
    hide Next, Set;
    assert was[0..] == was;
  }

  lemma Carry(was: Index, cols: Index, i: nat)
    requires i < |was| && Carrying(was, cols, i) && cols[i].d.val >= cols[i].d.base
    ensures |cols| == |was|
    ensures var c := cols[i := Set(cols[i], 0)];
            if i + 1 == |was| then c == Next(was).0 && Next(was).1
            else Carrying(was, c[i + 1 := Set(c[i + 1], c[i + 1].d.val + 1)], i + 1)
  {
    hide Next, LeftToStep;
    CarryNext(was, i);
    if i + 1 == |was| {
      NothingLeft(was);
    }
  }

  lemma NothingLeft(was: Index)
    requires LeftToStep(was, |was|)
    ensures Next(was).1
  {
    hide Next;
    NextOfNone(was[|was|..]);
  }

  lemma Stop(was: Index, cols: Index, i: nat)
    requires i < |was| && Carrying(was, cols, i) && cols[i].d.val < cols[i].d.base
    ensures cols == Next(was).0 && !Next(was).1
  {
    hide Next;
    var tail := was[i..];
    assert tail[0] == was[i];
    NextStops(tail);
    var n, m := Next(was), Next(tail);
    forall j | i <= j < |was| ensures cols[j] == n.0[j] {
      assert n.0[j] == m.0[j - i];
      if j > i {
        assert m.0[j - i] == tail[1..][j - i - 1] == was[j];
      }
    }
  }

  lemma NextCarries(ix: Index)
    requires ix != [] && ix[0].d.val + 1 >= ix[0].d.base
    ensures Next(ix) == ([Set(ix[0], 0)] + Next(ix[1..]).0, Next(ix[1..]).1)
  {
  }

  lemma NextStops(ix: Index)
    requires ix != [] && ix[0].d.val + 1 < ix[0].d.base
    ensures Next(ix) == ([Set(ix[0], ix[0].d.val + 1)] + ix[1..], false)
  {
  }

  lemma NextOfNone(ix: Index)
    requires ix == []
    ensures Next(ix) == ([], true)
  {
  }

  // ---- the whole enumeration ----

  /** `k` steps from `ix`. */
  function After(ix: Index, k: nat): Index {
    if k == 0 then ix else Next(After(ix, k - 1)).0
  }

  /** Before the last combination every step moves to the next number and reports success. */
  lemma {:induction false} Enumerates(ix: Index, k: nat)
    requires Valid(ix) && AllZero(ix) && k < Total(ix)
    ensures Valid(After(ix, k)) && SameShape(ix, After(ix, k)) && Number(After(ix, k)) == k
    ensures Next(After(ix, k)).1 <==> k + 1 == Total(ix)
  {
    hide Next;
    if k == 0 {
      ZeroNumber(ix);
    } else {
      Enumerates(ix, k - 1);
      NextCounts(After(ix, k - 1));
      ShapeTotal(ix, After(ix, k - 1));
    }
    NextCounts(After(ix, k));
    ShapeTotal(ix, After(ix, k));
  }

  lemma {:induction false} ZeroNumber(ix: Index)
    requires AllZero(ix)
    ensures Number(ix) == 0
  {
    if ix != [] {
      ZeroNumber(ix[1..]);
    }
  }

  /** From all zeros, each combination is visited exactly once ... */
  lemma VisitsEachOnce(ix: Index, target: Index)
    requires Valid(ix) && AllZero(ix) && Valid(target) && SameShape(ix, target)
    ensures Number(target) < Total(ix) && After(ix, Number(target)) == target
    ensures forall k :: 0 <= k < Total(ix) && After(ix, k) == target ==> k == Number(target)
  {
    hide Next, After;
    NumberBounds(target);
    ShapeTotal(ix, target);
    Enumerates(ix, Number(target));
    NumberIsInjective(After(ix, Number(target)), target);
    forall k | 0 <= k < Total(ix) && After(ix, k) == target ensures k == Number(target) {
      Enumerates(ix, k);
    }
  }

  /** ... and the last step reports the end with all digits back at zero. */
  lemma EndsAtZero(ix: Index)
    requires Valid(ix) && AllZero(ix)
    ensures Total(ix) > 0
    ensures var last := Next(After(ix, Total(ix) - 1)); last.1 && last.0 == ix
  {
    hide Next, After;
    NumberBounds(ix);
    ZeroNumber(ix);
    Enumerates(ix, Total(ix) - 1);
    NextCounts(After(ix, Total(ix) - 1));
    NumberIsInjective(Next(After(ix, Total(ix) - 1)).0, ix);
  }

  // ---- bound columns ----

  function Erased(ix: Index, k: nat): Index {
    if ix == [] then [] else (if ix[0].key == k then [] else [ix[0]]) + Erased(ix[1..], k)
  }

  /** `index[k] = d` on the ordered map. */
  function Put(ix: Index, k: nat, d: Digit): Index {
    if ix == [] || k < ix[0].key then [Col(k, d)] + ix
    else if ix[0].key == k then [Col(k, d)] + ix[1..]
    else [ix[0]] + Put(ix[1..], k, d)
  }

  predicate Has(ix: Index, k: nat) {
    exists i :: 0 <= i < |ix| && ix[i].key == k
  }

  function Get(ix: Index, k: nat): Digit {
    if ix == [] then Digit(0, 0) else if ix[0].key == k then ix[0].d else Get(ix[1..], k)
  }

  function ErasedAll(ix: Index, ks: seq<nat>): Index {
    if ks == [] then ix else Erased(ErasedAll(ix, ks[..|ks| - 1]), ks[|ks| - 1])
  }

  function PutAll(ix: Index, ks: seq<nat>, d: Digit): Index {
    if ks == [] then ix else Put(PutAll(ix, ks[..|ks| - 1], d), ks[|ks| - 1], d)
  }

  /** The columns that count on their own: all but the bound ones after the first. */
  function Independent(ix: Index, bound: seq<nat>): Index {
    if |bound| <= 1 then ix else ErasedAll(ix, bound[1..])
  }

  lemma OrderedCons(c: Col, rest: Index)
    requires Ordered(rest) && forall x :: x in rest ==> c.key < x.key
    ensures Ordered([c] + rest)
  {
  }

  lemma {:induction false} ErasedIn(ix: Index, k: nat)
    requires Ordered(ix)
    ensures Ordered(Erased(ix, k)) && forall c :: c in Erased(ix, k) <==> c in ix && c.key != k
  {
    if ix != [] {
      ErasedIn(ix[1..], k);
      var rest := Erased(ix[1..], k);
      forall c | c in rest ensures ix[0].key < c.key {
        var i :| 0 <= i < |ix[1..]| && ix[1..][i] == c;
        assert ix[i + 1] == c;
      }
      OrderedCons(ix[0], rest);
      assert ix == [ix[0]] + ix[1..];
      if ix[0].key == k {
        assert Erased(ix, k) == rest;
      }
    }
  }

  lemma {:induction false} PutErased(ix: Index, k: nat, d: Digit)
    requires !Has(ix, k)
    ensures Erased(Put(ix, k, d), k) == ix
  {
    if ix == [] || k < ix[0].key {
      NotThere(ix, k);
      assert Put(ix, k, d)[1..] == ix;
    } else {
      assert ix[0].key != k;
      forall i | 0 <= i < |ix[1..]| ensures ix[1..][i].key != k {
        assert ix[i + 1].key != k;
      }
      PutErased(ix[1..], k, d);
      assert Put(ix, k, d)[1..] == Put(ix[1..], k, d);
    }
  }

  lemma {:induction false} NotThere(ix: Index, k: nat)
    requires !Has(ix, k)
    ensures Erased(ix, k) == ix
  {
    if ix != [] {
      assert ix[0].key != k;
      forall i | 0 <= i < |ix[1..]| ensures ix[1..][i].key != k {
        assert ix[i + 1].key != k;
      }
      NotThere(ix[1..], k);
    }
  }

  lemma {:induction false} GetPut(ix: Index, k: nat, d: Digit, k2: nat)
    ensures Get(Put(ix, k, d), k2) == if k2 == k then d else Get(ix, k2)
    ensures Has(Put(ix, k, d), k2) <==> Has(ix, k2) || k2 == k
  {
    var p := Put(ix, k, d);
    HasSplit(ix, k2);
    HasSplit(p, k2);
    if ix == [] || k < ix[0].key {
      assert p[1..] == ix;
    } else if ix[0].key == k {
      assert p[1..] == ix[1..];
    } else {
      assert p[1..] == Put(ix[1..], k, d);
      GetPut(ix[1..], k, d, k2);
    }
  }

  lemma HasSplit(ix: Index, k: nat)
    ensures Has(ix, k) <==> ix != [] && (ix[0].key == k || Has(ix[1..], k))
  {
    if ix != [] && Has(ix[1..], k) {
      var i :| 0 <= i < |ix[1..]| && ix[1..][i].key == k;
      assert ix[i + 1].key == k;
    }
    if Has(ix, k) && ix[0].key != k {
      var i :| 0 <= i < |ix| && ix[i].key == k;
      assert ix[1..][i - 1].key == k;
    }
  }

  lemma {:induction false} PutAllMeans(ix: Index, ks: seq<nat>, d: Digit, k: nat)
    ensures Get(PutAll(ix, ks, d), k) == if k in ks then d else Get(ix, k)
    ensures Has(PutAll(ix, ks, d), k) <==> Has(ix, k) || k in ks
  {
    if ks != [] {
      var n := |ks| - 1;
      assert ks == ks[..n] + [ks[n]];
      PutAllMeans(ix, ks[..n], d, k);
      GetPut(PutAll(ix, ks[..n], d), ks[n], d, k);
    }
  }

  lemma ErasedCons(c: Col, rest: Index, k: nat)
    ensures Erased([c] + rest, k) == (if c.key == k then [] else [c]) + Erased(rest, k)
  {
    assert ([c] + rest)[1..] == rest;
  }

  lemma {:induction false} ErasedSwap(ix: Index, a: nat, b: nat)
    ensures Erased(Erased(ix, a), b) == Erased(Erased(ix, b), a)
  {
    if ix != [] {
      ErasedSwap(ix[1..], a, b);
      ErasedCons(ix[0], Erased(ix[1..], a), b);
      ErasedCons(ix[0], Erased(ix[1..], b), a);
      assert ix[0].key == a ==> Erased(ix, a) == Erased(ix[1..], a);
      assert ix[0].key == b ==> Erased(ix, b) == Erased(ix[1..], b);
    }
  }

  lemma {:induction false} ErasedAllSwap(ix: Index, ks: seq<nat>, k: nat)
    ensures Erased(ErasedAll(ix, ks), k) == ErasedAll(Erased(ix, k), ks)
  {
    if ks != [] {
      var n := |ks| - 1;
      ErasedAllSwap(ix, ks[..n], k);
      ErasedSwap(ErasedAll(ix, ks[..n]), ks[n], k);
    }
  }

  /** Putting bound columns back and taking them out again changes nothing. */
  lemma {:induction false} PutAllErased(ix: Index, ks: seq<nat>, d: Digit)
    requires Distinct(ks) && forall k :: k in ks ==> !Has(ix, k)
    ensures ErasedAll(PutAll(ix, ks, d), ks) == ix
  {
    if ks != [] {
      var n := |ks| - 1;
      var mid := PutAll(ix, ks[..n], d);
      assert ks == ks[..n] + [ks[n]] && ks[n] in ks && ks[n] !in ks[..n];
      PutAllMeans(ix, ks[..n], d, ks[n]);
      PutErased(mid, ks[n], d);
      ErasedAllSwap(Put(mid, ks[n], d), ks[..n], ks[n]);
      PutAllErased(ix, ks[..n], d);
    }
  }

  lemma {:induction false} ErasedGone(ix: Index, k: nat, k2: nat)
    ensures Has(Erased(ix, k), k2) <==> Has(ix, k2) && k2 != k
  {
    HasSplit(ix, k2);
    if ix != [] {
      ErasedGone(ix[1..], k, k2);
      if ix[0].key != k {
        HasSplit(Erased(ix, k), k2);
        assert Erased(ix, k)[1..] == Erased(ix[1..], k);
      } else {
        assert Erased(ix, k) == Erased(ix[1..], k);
      }
    }
  }

  lemma {:induction false} ErasedAllGone(ix: Index, ks: seq<nat>, k: nat)
    ensures Has(ErasedAll(ix, ks), k) <==> Has(ix, k) && k !in ks
  {
    if ks != [] {
      var n := |ks| - 1;
      assert ks == ks[..n] + [ks[n]];
      ErasedAllGone(ix, ks[..n], k);
      ErasedGone(ErasedAll(ix, ks[..n]), ks[n], k);
    }
  }
}

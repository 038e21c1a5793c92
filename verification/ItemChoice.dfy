/**
  The choice of items for a New-Order request: the i-th draw `t`, uniform in
  [0, n - 1 - i], is turned into the t-th item not chosen yet.
 */
module ItemChoice {
  import opened Common

  /** How many of the first elements are at most `x`: the inner counting loop. */
  function CountLe(buf: seq<int>, x: int): (c: nat)
    ensures c <= |buf|
  {
    if buf == [] then 0 else CountLe(buf[..|buf| - 1], x) + if buf[|buf| - 1] <= x then 1 else 0
  }

  /** How many values of [0, r) are not in `buf`. */
  function UnusedBelow(buf: seq<int>, r: nat): nat {
    if r == 0 then 0 else UnusedBelow(buf, r - 1) + if r - 1 in buf then 0 else 1
  }

  ghost predicate InRange(buf: seq<int>, n: int) {
    forall i :: 0 <= i < |buf| ==> 0 <= buf[i] < n
  }

  lemma {:induction false} CountMonotone(buf: seq<int>, x: int, y: int)
    requires x <= y
    ensures CountLe(buf, x) <= CountLe(buf, y)
  {
    if buf != [] {
      CountMonotone(buf[..|buf| - 1], x, y);
    }
  }

  lemma {:induction false} CountStep(buf: seq<int>, x: int)
    requires Distinct(buf)
    ensures CountLe(buf, x) == CountLe(buf, x - 1) + if x in buf then 1 else 0
  {
    if buf != [] {
      var n := |buf| - 1;
      assert buf == buf[..n] + [buf[n]];
      assert buf[n] !in buf[..n];
      CountStep(buf[..n], x);
    }
  }

  lemma {:induction false} CountNone(buf: seq<int>, x: int)
    requires forall i :: 0 <= i < |buf| ==> x < buf[i]
    ensures CountLe(buf, x) == 0
  {
    if buf != [] {
      CountNone(buf[..|buf| - 1], x);
    }
  }

  lemma {:induction false} CountAll(buf: seq<int>, x: int)
    requires forall i :: 0 <= i < |buf| ==> buf[i] <= x
    ensures CountLe(buf, x) == |buf|
  {
    if buf != [] {
      CountAll(buf[..|buf| - 1], x);
    }
  }

  /** Values below `r`: used or unused. */
  lemma {:induction false} UsedAndUnused(buf: seq<int>, r: nat, n: int)
    requires Distinct(buf) && InRange(buf, n)
    ensures UnusedBelow(buf, r) == r - CountLe(buf, r - 1)
  {
    if r == 0 {
      CountNone(buf, -1);
    } else {
      UsedAndUnused(buf, r - 1, n);
      CountStep(buf, r - 1);
    }
  }

  /** The adjustment loop for one draw. */
  method Adjust(buf: seq<int>, n: int, t: int) returns (item: int)
    requires Distinct(buf) && InRange(buf, n) && 0 <= t <= n - 1 - |buf|
    ensures 0 <= item < n && item !in buf
    ensures UnusedBelow(buf, item) == t
  {
    item := t;
    var pre, less := 0, 0;
    while true
      invariant item == t + pre && 0 <= pre <= CountLe(buf, item)
      invariant forall x :: 0 <= x < item ==> x - CountLe(buf, x) < t
      decreases |buf| - pre
    {
      less := Less(buf, item);
      if less == pre {
        break;
      }
      forall x | item <= x < t + less ensures x - CountLe(buf, x) < t {
        CountMonotone(buf, item, x);
      }
      CountMonotone(buf, item, item + (less - pre));
      item := item + (less - pre);
      pre := less;
    }
    Landed(buf, n, t, item);
  }

  /** The least `x` with `x - CountLe(x) == t` is the t-th unused value. */
  lemma Landed(buf: seq<int>, n: int, t: int, item: int)
    requires Distinct(buf) && InRange(buf, n) && 0 <= t <= n - 1 - |buf|
    requires item == t + CountLe(buf, item) && forall x :: 0 <= x < item ==> x - CountLe(buf, x) < t
    ensures 0 <= item < n && item !in buf && UnusedBelow(buf, item) == t
  {
    CountStep(buf, item);
    CountNone(buf, -1);
    CountAll(buf, n - 1);
    UsedAndUnused(buf, item, n);
  }

  method Less(buf: seq<int>, x: int) returns (c: nat)
    ensures c == CountLe(buf, x)
  {
    c := 0;
    var j := 0;
    while j < |buf|
      invariant 0 <= j <= |buf| && c == CountLe(buf[..j], x)
    {
      assert buf[..j + 1][..j] == buf[..j];
      if buf[j] <= x {
        c := c + 1;
      }
      j := j + 1;
    }
    assert buf[..j] == buf;
  }

  /** The items a sequence of draws leads to. */
  ghost predicate Chosen(buf: seq<int>, draws: seq<int>, n: int) {
    && |buf| == |draws| && Distinct(buf) && InRange(buf, n)
    && forall i :: 0 <= i < |buf| ==> UnusedBelow(buf[..i], buf[i]) == draws[i]
  }

  ghost predicate Draws(draws: seq<int>, n: int) {
    forall i :: 0 <= i < |draws| ==> 0 <= draws[i] <= n - 1 - i
  }

  lemma ChosenStep(buf: seq<int>, draws: seq<int>, n: int, item: int)
    requires |buf| < |draws| && Chosen(buf, draws[..|buf|], n) && 0 <= item < n && item !in buf
    requires UnusedBelow(buf, item) == draws[|buf|]
    ensures Chosen(buf + [item], draws[..|buf| + 1], n)
  {
    var b := buf + [item];
    forall i | 0 <= i < |b| ensures UnusedBelow(b[..i], b[i]) == draws[i] {
      if i < |buf| {
        assert b[..i] == buf[..i];
        assert draws[..|buf|][i] == draws[i];
      } else {
        assert b[..i] == buf;
      }
    }
  }

  /** The item loop of a request; `draws` are the random numbers it gets. */
  method ChooseItems(draws: seq<int>, n: int) returns (buf: array<int>)
    requires Draws(draws, n)
    ensures fresh(buf) && Chosen(buf[..], draws, n)
  {
    buf := new int[|draws|];
    var i := 0;
    while i < |draws|
      invariant 0 <= i <= |draws| && Chosen(buf[..i], draws[..i], n)
    {
      var item := Adjust(buf[..i], n, draws[i]);
      ChosenStep(buf[..i], draws, n, item);
      assert draws[..i][..|buf[..i]|] == draws[..i];
      buf[i] := item;
      assert buf[..i + 1] == buf[..i] + [item];
      i := i + 1;
    }
    assert draws[..i] == draws && buf[..i] == buf[..];
  }

  lemma {:induction false} UnusedMonotone(buf: seq<int>, a: nat, b: nat)
    requires a <= b
    ensures UnusedBelow(buf, a) <= UnusedBelow(buf, b)
    ensures a < b && a !in buf ==> UnusedBelow(buf, a) < UnusedBelow(buf, b)
    decreases b
  {
    if a < b {
      UnusedMonotone(buf, a, b - 1);
    }
  }

  /** Different draws give different items ... */
  lemma RankIsInjective(buf: seq<int>, a: nat, b: nat)
    requires a !in buf && b !in buf && UnusedBelow(buf, a) == UnusedBelow(buf, b)
    ensures a == b
  {
    hide UnusedBelow;
    if a < b { UnusedMonotone(buf, a, b); }
    if b < a { UnusedMonotone(buf, b, a); }
  }

  /** ... every unused item is some draw's ... */
  lemma RankIsInRange(buf: seq<int>, n: int, item: nat)
    requires Distinct(buf) && InRange(buf, n) && item < n && item !in buf
    ensures 0 <= UnusedBelow(buf, item) <= n - 1 - |buf|
  {
    hide CountLe, UnusedBelow;
    UsedAndUnused(buf, n, n);
    CountAll(buf, n - 1);
    UnusedMonotone(buf, item, n);
  }

  /** ... so draws and choices correspond one to one. */
  lemma {:induction false} ChoiceIsUnique(buf: seq<int>, buf2: seq<int>, draws: seq<int>, n: int)
    requires Chosen(buf, draws, n) && Chosen(buf2, draws, n)
    ensures buf == buf2
    decreases |draws|
  {
    hide Chosen, UnusedBelow;
    SameLength(buf, draws, n);
    SameLength(buf2, draws, n);
    if draws != [] {
      var k := |draws| - 1;
      ChosenPrefix(buf, draws, n);
      ChosenPrefix(buf2, draws, n);
      ChoiceIsUnique(buf[..k], buf2[..k], draws[..k], n);
      RankIsInjective(buf[..k], buf[k], buf2[k]);
      assert buf == buf[..k] + [buf[k]] && buf2 == buf2[..k] + [buf2[k]];
    }
  }

  lemma SameLength(buf: seq<int>, draws: seq<int>, n: int)
    requires Chosen(buf, draws, n)
    ensures |buf| == |draws|
  {
  }

  lemma ChosenPrefix(buf: seq<int>, draws: seq<int>, n: int)
    requires Chosen(buf, draws, n) && draws != []
    ensures var k := |draws| - 1;
            |buf| == |draws| && Chosen(buf[..k], draws[..k], n) && 0 <= buf[k] && buf[k] !in buf[..k] &&
            UnusedBelow(buf[..k], buf[k]) == draws[k]
  {
    var k := |draws| - 1;
    forall i | 0 <= i < k ensures UnusedBelow(buf[..k][..i], buf[..k][i]) == draws[..k][i] {
      assert buf[..k][..i] == buf[..i];
    }
  }

  lemma EveryChoiceHasDraws(buf: seq<int>, n: int) returns (draws: seq<int>)
    requires Distinct(buf) && InRange(buf, n)
    ensures Draws(draws, n) && Chosen(buf, draws, n)
  {
    draws := seq(|buf|, i requires 0 <= i < |buf| => UnusedBelow(buf[..i], buf[i]));
    forall i | 0 <= i < |buf| ensures 0 <= draws[i] <= n - 1 - i {
      RankIsInRange(buf[..i], n, buf[i]);
    }
  }
}

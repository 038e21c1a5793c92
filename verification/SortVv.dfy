/**
  `Graph::sort_vv`: a bubble sort whose inner loop starts at `i` instead of 0.
  It always permutes its input; this module proves exactly which inputs it sorts.
 */
module SortVv {

  /** Flags 0 and 1; the source stops at its check for any other. */
  datatype Flag = Up | Down

  /** Ids are sorted upwards or downwards: `a` has to move behind `b`. */
  predicate OutOfOrder(a: int, b: int, flag: Flag) {
    if flag == Up then a > b else a < b
  }

  predicate Sorted(s: seq<int>, flag: Flag) {
    forall i, j :: 0 <= i < j < |s| ==> !OutOfOrder(s[i], s[j], flag)
  }

  /** One sweep that carries the extreme element `c` through `rest`. */
  function Sweep(c: int, rest: seq<int>, flag: Flag): (t: seq<int>)
    ensures |t| == |rest| + 1
    decreases |rest|
  {
    if rest == [] then [c]
    else if OutOfOrder(c, rest[0], flag) then [rest[0]] + Sweep(c, rest[1..], flag)
    else [c] + Sweep(rest[0], rest[1..], flag)
  }

  /** The whole procedure: sweep everything, fix the first element, go on with the rest. */
  function SortVvSpec(s: seq<int>, flag: Flag): (t: seq<int>)
    ensures |t| == |s|
    decreases |s|
  {
    if |s| <= 1 then s
    else
      var t := Sweep(s[0], s[1..], flag);
      [t[0]] + SortVvSpec(t[1..], flag)
  }

  /** How many of `s` have to move behind `x`. */
  function Ahead(s: seq<int>, x: int, flag: Flag): nat {
    if s == [] then 0
    else Ahead(s[..|s| - 1], x, flag) + if OutOfOrder(s[|s| - 1], x, flag) then 1 else 0
  }

  /** No element has more elements to move behind it than half its position, rounded up. */
  ghost predicate NearlySorted(s: seq<int>, flag: Flag) {
    forall p :: 0 <= p < |s| ==> Ahead(s[..p], s[p], flag) <= (p + 1) / 2
  }

  lemma {:induction false} SweepPermutes(c: int, rest: seq<int>, flag: Flag)
    ensures multiset(Sweep(c, rest, flag)) == multiset([c] + rest)
    decreases |rest|
  {
    if rest != [] {
      assert rest == [rest[0]] + rest[1..];
      SweepPermutes(if OutOfOrder(c, rest[0], flag) then c else rest[0], rest[1..], flag);
    }
  }

  /** The result is always a permutation of the input. */
  lemma {:induction false} SortVvPermutes(s: seq<int>, flag: Flag)
    ensures multiset(SortVvSpec(s, flag)) == multiset(s)
    decreases |s|
  {
    if |s| > 1 {
      var t := Sweep(s[0], s[1..], flag);
      SweepPermutes(s[0], s[1..], flag);
      assert s == [s[0]] + s[1..];
      SortVvPermutes(t[1..], flag);
      assert t == [t[0]] + t[1..];
    }
  }

  /** The sweep after `k` comparisons of the in-place loop: `k` elements placed, `s[k]` carried. */
  function Swept(s: seq<int>, k: nat, flag: Flag): (t: seq<int>)
    requires k < |s|
    ensures |t| == |s|
  {
    if k == 0 then s
    else
      var u := Swept(s, k - 1, flag);
      if OutOfOrder(u[k - 1], u[k], flag) then u[k - 1 := u[k]][k := u[k - 1]] else u
  }

  /** Doing the loop from the front or from the back is the same sweep. */
  lemma {:induction false} SweptIsSweep(s: seq<int>, k: nat, flag: Flag)
    requires k < |s|
    ensures var t := Swept(s, k, flag);
            && t[k + 1..] == s[k + 1..]
            && t[..k] + Sweep(t[k], t[k + 1..], flag) == Sweep(s[0], s[1..], flag)
  {
    if k == 0 {
      assert s[..0] == [];
    } else {
      SweptIsSweep(s, k - 1, flag);
      SweepOne(Swept(s, k - 1, flag), Swept(s, k, flag), k, flag);
      assert s[k + 1..] == s[k..][1..];
    }
  }

  /** One comparison of the loop is one unfolding of the sweep. */
  lemma SweepOne(u: seq<int>, t: seq<int>, k: nat, flag: Flag)
    requires 0 < k < |u| && t == if OutOfOrder(u[k - 1], u[k], flag) then u[k - 1 := u[k]][k := u[k - 1]] else u
    ensures t[k + 1..] == u[k + 1..] == u[k..][1..]
    ensures t[..k] + Sweep(t[k], t[k + 1..], flag) == u[..k - 1] + Sweep(u[k - 1], u[k..], flag)
  {
    hide OutOfOrder;
    assert u[k..][0] == u[k];
    assert t[..k] == u[..k - 1] + [t[k - 1]];
  }

  /** The inner loop of `sort_vv`, started at `i`. */
  method SweepFrom(vv: array<int>, i: nat, flag: Flag)
    requires i < vv.Length
    modifies vv
    ensures vv[..i] == old(vv[..i])
    ensures vv[i..] == Sweep(old(vv[i]), old(vv[i + 1..]), flag)
  {
    ghost var s := vv[i..];
    assert s[0] == vv[i] && s[1..] == vv[i + 1..];
    var j := i;
    while j < vv.Length - 1
      invariant i <= j <= vv.Length - 1
      invariant vv[..i] == old(vv[..i])
      invariant vv[i..] == Swept(s, j - i, flag)
    {
      ghost var u := vv[i..];
      assert vv[j] == u[j - i] && vv[j + 1] == u[j + 1 - i];
      if OutOfOrder(vv[j], vv[j + 1], flag) {
        vv[j], vv[j + 1] := vv[j + 1], vv[j];
        assert vv[i..] == u[j - i := u[j - i + 1]][j - i + 1 := u[j - i]];
      }
      j := j + 1;
    }
    SweptIsSweep(s, |s| - 1, flag);
    ghost var t := Swept(s, |s| - 1, flag);
    assert t[|s|..] == [] && t == t[..|s| - 1] + [t[|s| - 1]];
  }

  lemma SpecStep(done: seq<int>, s: seq<int>, flag: Flag)
    requires |s| > 1
    ensures var t := Sweep(s[0], s[1..], flag);
            done + SortVvSpec(s, flag) == (done + [t[0]]) + SortVvSpec(t[1..], flag)
  {
  }

  /** `sort_vv` run in place. */
  method Sort(vv: array<int>, flag: Flag)
    requires vv.Length > 0
    modifies vv
    ensures vv[..] == SortVvSpec(old(vv[..]), flag)
  {
    hide Sweep, SortVvSpec;
    ghost var goal := SortVvSpec(vv[..], flag);
    assert vv[0..] == vv[..];
    var i := 0;
    while i < vv.Length - 1
      invariant 0 <= i <= vv.Length - 1
      invariant vv[..i] + SortVvSpec(vv[i..], flag) == goal
    {
      ghost var s, done := vv[i..], vv[..i];
      assert s[0] == vv[i] && s[1..] == vv[i + 1..];
      SweepFrom(vv, i, flag);
      SpecStep(done, s, flag);
      assert vv[i + 1..] == vv[i..][1..] && vv[..i + 1] == done + [vv[i..][0]];
      i := i + 1;
    }
    SpecOfOne(vv[i..], flag);
    assert vv[..] == vv[..i] + vv[i..];
  }

  lemma SpecOfOne(s: seq<int>, flag: Flag)
    requires |s| == 1
    ensures SortVvSpec(s, flag) == s
  {
  }

  // ---- which inputs come out sorted ----

  lemma AheadWithout(b: seq<int>, k: nat, x: int, flag: Flag)
    requires k < |b|
    ensures Ahead(b, x, flag) == Ahead(b[..k] + b[k + 1..], x, flag) + if OutOfOrder(b[k], x, flag) then 1 else 0
  {
    var y := b[k];
    assert b == (b[..k] + [y]) + b[k + 1..];
    AheadSplit(b[..k], b[k + 1..], x, flag);
    AheadSplit(b[..k] + [y], b[k + 1..], x, flag);
    assert (b[..k] + [y])[..k] == b[..k];
  }

  lemma {:induction false} AheadOfMultiset(a: seq<int>, b: seq<int>, x: int, flag: Flag)
    requires multiset(a) == multiset(b)
    ensures Ahead(a, x, flag) == Ahead(b, x, flag)
    decreases |a|
  {
    if a == [] {
      assert |b| == |multiset(b)| == 0;
    } else {
      hide Ahead, OutOfOrder;
      var n := |a| - 1;
      var k := SameElement(a, b);
      AheadWithout(a, n, x, flag);
      AheadWithout(b, k, x, flag);
      AheadOfMultiset(a[..n] + a[n + 1..], b[..k] + b[k + 1..], x, flag);
    }
  }

  /** The last element of `a` taken out of both. */
  lemma SameElement(a: seq<int>, b: seq<int>) returns (k: nat)
    requires multiset(a) == multiset(b) && a != []
    ensures k < |b| && b[k] == a[|a| - 1]
    ensures multiset(a[..|a| - 1] + a[|a|..]) == multiset(b[..k] + b[k + 1..])
  {
    var y := a[|a| - 1];
    assert y in multiset(a) && y in b;
    k :| 0 <= k < |b| && b[k] == y;
    BagWithout(a, |a| - 1);
    BagWithout(b, k);
  }

  lemma BagWithout(b: seq<int>, k: nat)
    requires k < |b|
    ensures multiset(b[..k] + b[k + 1..]) == multiset(b) - multiset{b[k]}
  {
    assert b == b[..k] + [b[k]] + b[k + 1..];
  }

  lemma {:induction false} AheadSplit(a: seq<int>, b: seq<int>, x: int, flag: Flag)
    ensures Ahead(a + b, x, flag) == Ahead(a, x, flag) + Ahead(b, x, flag)
    decreases |b|
  {
    if b == [] {
      assert a + b == a;
    } else {
      assert (a + b)[..|a + b| - 1] == a + b[..|b| - 1];
      AheadSplit(a, b[..|b| - 1], x, flag);
    }
  }

  lemma {:induction false} AheadNone(s: seq<int>, x: int, flag: Flag)
    requires forall y :: y in s ==> !OutOfOrder(y, x, flag)
    ensures Ahead(s, x, flag) == 0
    decreases |s|
  {
    if s != [] {
      assert s[|s| - 1] in s;
      AheadNone(s[..|s| - 1], x, flag);
    }
  }

  lemma {:induction false} AheadAll(s: seq<int>, x: int, flag: Flag)
    requires forall i :: 0 <= i < |s| ==> OutOfOrder(s[i], x, flag)
    ensures Ahead(s, x, flag) == |s|
    decreases |s|
  {
    if s != [] {
      AheadAll(s[..|s| - 1], x, flag);
    }
  }

  /** After `k` comparisons the first `k + 1` elements are permuted and the rest untouched. */
  lemma {:induction false} SweptPermutes(s: seq<int>, k: nat, flag: Flag)
    requires k < |s|
    ensures var t := Swept(s, k, flag);
            && t[k + 1..] == s[k + 1..]
            && multiset(t[..k] + [t[k]]) == multiset(s[..k + 1])
  {
    if k > 0 {
      SweptPermutes(s, k - 1, flag);
      SweptBag(s, Swept(s, k - 1, flag), Swept(s, k, flag), k);
    } else {
      assert s[..1] == [s[0]];
    }
  }

  lemma TwoMore(a: seq<int>, x: int, y: int)
    ensures multiset(a + [x] + [y]) == multiset(a) + multiset{x, y}
    ensures multiset(a + [x]) + multiset{y} == multiset(a) + multiset{x, y}
  {
  }

  /** One comparison permutes the two elements it looks at. */
  lemma CompareBag(u: seq<int>, k: nat, t: seq<int>)
    requires 0 < k < |u| && (t == u || t == u[k - 1 := u[k]][k := u[k - 1]])
    ensures t[k + 1..] == u[k + 1..]
    ensures multiset(t[..k] + [t[k]]) == multiset(u[..k - 1] + [u[k - 1]]) + multiset{u[k]}
  {
    var a := u[..k - 1];
    assert t[..k] == a + [t[k - 1]];
    TwoMore(a, t[k - 1], t[k]);
    TwoMore(a, u[k - 1], u[k]);
  }

  lemma SweptBag(s: seq<int>, u: seq<int>, t: seq<int>, k: nat)
    requires 0 < k < |s| == |u| && (t == u || t == u[k - 1 := u[k]][k := u[k - 1]])
    requires u[k..] == s[k..] && multiset(u[..k - 1] + [u[k - 1]]) == multiset(s[..k])
    ensures t[k + 1..] == s[k + 1..] && multiset(t[..k] + [t[k]]) == multiset(s[..k + 1])
  {
    CompareBag(u, k, t);
    assert u[k..][0] == u[k] && s[k..][0] == s[k];
    assert u[k + 1..] == u[k..][1..] && s[k + 1..] == s[k..][1..];
    assert s[..k + 1] == s[..k] + [s[k]];
  }

  /** ... and position `k` carries the extreme of the first `k + 1` elements. */
  lemma {:induction false} SweptCarries(s: seq<int>, k: nat, flag: Flag)
    requires k < |s|
    ensures forall i :: 0 <= i <= k ==> !OutOfOrder(s[i], Swept(s, k, flag)[k], flag)
  {
    if k > 0 {
      SweptCarries(s, k - 1, flag);
      SweptPermutes(s, k - 1, flag);
      assert Swept(s, k - 1, flag)[k..][0] == s[k..][0];
    }
  }

  lemma {:induction false} SweptKeepsFront(s: seq<int>, j: nat, k: nat, flag: Flag)
    requires j <= k < |s|
    ensures Swept(s, k, flag)[..j] == Swept(s, j, flag)[..j]
    decreases k
  {
    if j < k {
      SweptKeepsFront(s, j, k - 1, flag);
    }
  }

  /** A sweep takes one from every positive count and moves it one place to the front. */
  lemma AheadAfterSweep(s: seq<int>, j: nat, flag: Flag)
    requires j + 1 < |s|
    ensures var t := Sweep(s[0], s[1..], flag);
            var before := Ahead(s[..j + 1], s[j + 1], flag);
            Ahead(t[..j], t[j], flag) == if before == 0 then 0 else before - 1
  {
    var n := |s| - 1;
    SweptIsSweep(s, n, flag);
    var t := Swept(s, n, flag);
    assert t[n + 1..] == [] && t == t[..n] + [t[n]];
    SweptKeepsFront(s, j + 1, n, flag);
    SweptKeepsFront(s, j, j + 1, flag);
    SweptCarries(s, j, flag);
    SweptPermutes(s, j, flag);
    var u, w := Swept(s, j, flag), Swept(s, j + 1, flag);
    assert u[j + 1..][0] == u[j + 1] && s[j + 1..][0] == s[j + 1];
    assert t[..j] == t[..j + 1][..j] == w[..j] == u[..j];
    assert t[j] == t[..j + 1][j] == w[j];
    AheadOfMultiset(u[..j] + [u[j]], s[..j + 1], s[j + 1], flag);
    AheadOfMultiset(u[..j] + [u[j]], s[..j + 1], u[j], flag);
    assert (u[..j] + [u[j]])[..j] == u[..j];
    AheadNone(s[..j + 1], u[j], flag);
    if !OutOfOrder(u[j], s[j + 1], flag) {
      AheadNone(s[..j + 1], s[j + 1], flag);
    }
  }

  lemma WholeSweep(s: seq<int>, flag: Flag)
    requires |s| > 0
    ensures Swept(s, |s| - 1, flag) == Sweep(s[0], s[1..], flag)
  {
    hide Swept;
    var t := Swept(s, |s| - 1, flag);
    SweptIsSweep(s, |s| - 1, flag);
    assert t[|s|..] == [] && t == t[..|s| - 1] + [t[|s| - 1]];
  }

  lemma LastAfterSweep(s: seq<int>, flag: Flag)
    requires |s| > 0
    ensures var t := Sweep(s[0], s[1..], flag);
            Ahead(t[..|s| - 1], t[|s| - 1], flag) == 0
  {
    hide Sweep, Swept, Ahead;
    var n := |s| - 1;
    WholeSweep(s, flag);
    SweptCarries(s, n, flag);
    SweptPermutes(s, n, flag);
    var t := Swept(s, n, flag);
    assert s[..n + 1] == s;
    AheadOfMultiset(t[..n] + [t[n]], s, t[n], flag);
    AheadNone(s, t[n], flag);
    AheadPrefix(t[..n], t[n], t[n], flag);
  }

  lemma AheadPrefix(s: seq<int>, y: int, x: int, flag: Flag)
    ensures Ahead(s, x, flag) <= Ahead(s + [y], x, flag)
  {
    assert (s + [y])[..|s|] == s;
  }

  /** Position of the first least element. */
  lemma {:induction false} FirstLeast(s: seq<int>, flag: Flag) returns (m: nat)
    requires |s| > 0
    ensures m < |s|
    ensures forall i :: 0 <= i < m ==> OutOfOrder(s[i], s[m], flag)
    ensures forall i :: 0 <= i < |s| ==> !OutOfOrder(s[m], s[i], flag)
    decreases |s|
  {
    if |s| == 1 {
      m := 0;
    } else {
      m := FirstLeast(s[..|s| - 1], flag);
      if OutOfOrder(s[m], s[|s| - 1], flag) {
        m := |s| - 1;
      }
    }
  }

  ghost predicate HeadLeast(t: seq<int>, flag: Flag)
    requires |t| > 0
  {
    forall i :: 0 <= i < |t| ==> !OutOfOrder(t[0], t[i], flag)
  }

  lemma NearlySortedHead(s: seq<int>, flag: Flag)
    requires |s| > 1 && NearlySorted(s, flag)
    ensures HeadLeast(Sweep(s[0], s[1..], flag), flag)
  {
    var m := FirstLeast(s, flag);
    AheadAll(s[..m], s[m], flag);
    var t := Sweep(s[0], s[1..], flag);
    SweepPermutes(s[0], s[1..], flag);
    assert s == [s[0]] + s[1..];
    forall i | 0 <= i < |t| ensures !OutOfOrder(t[0], t[i], flag) {
      assert t[i] in multiset(t);
      assert t[i] in multiset(s);
    }
  }

  lemma AheadOfTail(t: seq<int>, p: nat, flag: Flag)
    requires p + 1 < |t| && HeadLeast(t, flag)
    ensures Ahead(t[1..][..p], t[1..][p], flag) == Ahead(t[..p + 1], t[p + 1], flag)
  {
    assert t[..p + 1] == [t[0]] + t[1..][..p];
    AheadSplit([t[0]], t[1..][..p], t[p + 1], flag);
    assert [t[0]][..0] == [];
  }

  lemma NearlySortedStep(s: seq<int>, flag: Flag)
    requires |s| > 1
    ensures var t := Sweep(s[0], s[1..], flag);
            NearlySorted(s, flag) <==> HeadLeast(t, flag) && NearlySorted(t[1..], flag)
  {
    var t := Sweep(s[0], s[1..], flag);
    if NearlySorted(s, flag) {
      NearlySortedHead(s, flag);
      forall p | 0 <= p < |t[1..]| ensures Ahead(t[1..][..p], t[1..][p], flag) <= (p + 1) / 2 {
        AheadOfTail(t, p, flag);
        if p + 2 < |s| {
          AheadAfterSweep(s, p + 1, flag);
        } else {
          LastAfterSweep(s, flag);
        }
      }
    }
    if HeadLeast(t, flag) && NearlySorted(t[1..], flag) {
      forall p | 0 <= p < |s| ensures Ahead(s[..p], s[p], flag) <= (p + 1) / 2 {
        if p > 0 {
          AheadAfterSweep(s, p - 1, flag);
          if p > 1 {
            AheadOfTail(t, p - 2, flag);
          }
        }
      }
    }
  }

  /** Putting a head in front of a permutation of `rest`. */
  lemma SortedWithHead(head: int, rest: seq<int>, r: seq<int>, flag: Flag)
    requires multiset(r) == multiset(rest)
    ensures Sorted([head] + r, flag) <==> HeadLeast([head] + rest, flag) && Sorted(r, flag)
  {
    var whole, t := [head] + r, [head] + rest;
    if Sorted(whole, flag) {
      forall i | 0 <= i < |t| ensures !OutOfOrder(t[0], t[i], flag) {
        if i > 0 {
          assert t[i] == rest[i - 1] && rest[i - 1] in multiset(rest);
          assert t[i] in multiset(r);
          var k :| 0 <= k < |r| && r[k] == t[i];
          assert !OutOfOrder(whole[0], whole[k + 1], flag);
        }
      }
      forall i, j | 0 <= i < j < |r| ensures !OutOfOrder(r[i], r[j], flag) {
        assert r[i] == whole[i + 1] && r[j] == whole[j + 1];
      }
    }
    if HeadLeast(t, flag) && Sorted(r, flag) {
      forall j | 0 <= j < |r| ensures !OutOfOrder(head, r[j], flag) {
        assert r[j] in multiset(r);
        assert r[j] in multiset(rest);
        var k :| 0 <= k < |rest| && rest[k] == r[j];
        assert t[k + 1] == r[j];
      }
    }
  }

  /** `sort_vv` sorts exactly the nearly sorted inputs. */
  lemma {:induction false} SortsIffNearlySorted(s: seq<int>, flag: Flag)
    ensures Sorted(SortVvSpec(s, flag), flag) <==> NearlySorted(s, flag)
    decreases |s|
  {
    if |s| > 1 {
      var t := Sweep(s[0], s[1..], flag);
      NearlySortedStep(s, flag);
      SortsIffNearlySorted(t[1..], flag);
      SortVvPermutes(t[1..], flag);
      SortedWithHead(t[0], t[1..], SortVvSpec(t[1..], flag), flag);
      assert t == [t[0]] + t[1..];
    }
  }

  /** 3, 2, 1 comes out as 2, 1, 3. */
  lemma SortVvFails()
    ensures SortVvSpec([3, 2, 1], Up) == [2, 1, 3]
    ensures !Sorted(SortVvSpec([3, 2, 1], Up), Up) && !NearlySorted([3, 2, 1], Up)
  {
    assert [3, 2, 1][1..] == [2, 1] && [2, 1][1..] == [1];
    assert Sweep(3, [1], Up) == [1, 3];
    assert Sweep(3, [2, 1], Up) == [2, 1, 3];
    assert [2, 1, 3][1..] == [1, 3] && [1, 3][1..] == [3];
    assert SortVvSpec([1, 3], Up) == [1, 3];
    var r := SortVvSpec([3, 2, 1], Up);
    assert r[0] == 2 && r[1] == 1;
    SortsIffNearlySorted([3, 2, 1], Up);
  }
}

/** The ordered multimap under a sorted table: entries in the order of their multi-column keys. */
module Multimap {

  type MultiKey = seq<int>
  type Id = nat
  type Entries = seq<(MultiKey, Id)>

  /** The columns `which` of a row, as a key. */
  function Pick(c: seq<int>, which: seq<nat>): (k: MultiKey)
    requires forall j :: 0 <= j < |which| ==> which[j] < |c|
    ensures |k| == |which|
  {
    seq(|which|, j requires 0 <= j < |which| => c[which[j]])
  }

  /** Column by column, the first difference decides. */
  predicate Less(a: MultiKey, b: MultiKey)
    requires |a| == |b|
  {
    a != [] && (a[0] < b[0] || (a[0] == b[0] && Less(a[1..], b[1..])))
  }

  /** `SortedMultiKey::compare`. */
  method Compare(a: MultiKey, b: MultiKey) returns (c: int)
    requires |a| == |b|
    ensures c in {-1, 0, 1}
    ensures c == -1 <==> Less(a, b)
    ensures c == 0 <==> a == b
    ensures c == 1 <==> Less(b, a)
  {
    var i := 0;
    while i < |a|
      invariant 0 <= i <= |a| && a[..i] == b[..i]
      invariant Less(a[i..], b[i..]) <==> Less(a, b)
      invariant Less(b[i..], a[i..]) <==> Less(b, a)
    {
      assert a[i..][1..] == a[i + 1..] && b[i..][1..] == b[i + 1..];
      LessIsStrict(a, b);
      if a[i] < b[i] {
        return -1;
      } else if a[i] > b[i] {
        return 1;
      }
      i := i + 1;
    }
    return 0;
  }

  lemma {:induction false} LessIsStrict(a: MultiKey, b: MultiKey)
    requires |a| == |b|
    ensures !(Less(a, b) && Less(b, a)) && (Less(a, b) ==> a != b)
  {
    if a != [] {
      LessIsStrict(a[1..], b[1..]);
    }
  }

  lemma {:induction false} LessTotal(a: MultiKey, b: MultiKey)
    requires |a| == |b|
    ensures Less(a, b) || Less(b, a) || a == b
  {
    if a != [] {
      LessTotal(a[1..], b[1..]);
      assert a == [a[0]] + a[1..] && b == [b[0]] + b[1..];
    }
  }

  lemma {:induction false} LessTrans(a: MultiKey, b: MultiKey, c: MultiKey)
    requires |a| == |b| == |c| && Less(a, b) && Less(b, c)
    ensures Less(a, c)
  {
    if a[0] == b[0] == c[0] {
      LessTrans(a[1..], b[1..], c[1..]);
    }
  }

  /** Less means: equal up to some column, and smaller there. */
  lemma {:induction false} LessIff(a: MultiKey, b: MultiKey)
    requires |a| == |b|
    ensures Less(a, b) <==> exists i :: 0 <= i < |a| && a[..i] == b[..i] && a[i] < b[i]
  {
    if a != [] {
      LessIff(a[1..], b[1..]);
      if a[0] < b[0] {
        assert a[..0] == b[..0];
      } else if Less(a, b) {
        var i :| 0 <= i < |a[1..]| && a[1..][..i] == b[1..][..i] && a[1..][i] < b[1..][i];
        assert a[..i + 1] == [a[0]] + a[1..][..i] && b[..i + 1] == [b[0]] + b[1..][..i];
        assert a[i + 1] < b[i + 1];
      }
      if i :| 0 <= i < |a| && a[..i] == b[..i] && a[i] < b[i] {
        if i > 0 {
          assert a[..i][0] == b[..i][0];
          assert a[1..][..i - 1] == a[..i][1..] && b[1..][..i - 1] == b[..i][1..];
          assert a[1..][i - 1] < b[1..][i - 1];
        }
      }
    }
  }

  /** All keys have `n` columns. */
  predicate Keyed(m: Entries, n: nat) {
    forall i :: 0 <= i < |m| ==> |m[i].0| == n
  }

  predicate Sorted(m: Entries, n: nat)
    requires Keyed(m, n)
  {
    forall i, j :: 0 <= i < j < |m| ==> !Less(m[j].0, m[i].0)
  }

  predicate Ok(m: Entries, n: nat) {
    Keyed(m, n) && Sorted(m, n)
  }

  function LowerBound(m: Entries, k: MultiKey): (i: nat)
    requires Keyed(m, |k|)
    ensures i <= |m|
  {
    if m == [] || !Less(m[0].0, k) then 0 else 1 + LowerBound(m[1..], k)
  }

  function UpperBound(m: Entries, k: MultiKey): (i: nat)
    requires Keyed(m, |k|)
    ensures i <= |m|
  {
    if m == [] || Less(k, m[0].0) then 0 else 1 + UpperBound(m[1..], k)
  }

  lemma {:induction false} LowerBoundSplits(m: Entries, k: MultiKey, j: nat)
    requires Ok(m, |k|) && j < |m|
    ensures j < LowerBound(m, k) <==> Less(m[j].0, k)
  {
    if !Less(m[0].0, k) {
      if Less(m[j].0, k) {
        NotLessTrans(k, m[0].0, m[j].0);
      }
    } else if j > 0 {
      LowerBoundSplits(m[1..], k, j - 1);
    }
  }

  /** k <= a and a <= b give k <= b. */
  lemma NotLessTrans(k: MultiKey, a: MultiKey, b: MultiKey)
    requires |k| == |a| == |b| && !Less(a, k) && !Less(b, a)
    ensures !Less(b, k)
  {
    LessTotal(k, a);
    if Less(b, k) && Less(k, a) { LessTrans(b, k, a); }
  }

  lemma {:induction false} UpperBoundSplits(m: Entries, k: MultiKey, j: nat)
    requires Ok(m, |k|) && j < |m|
    ensures j < UpperBound(m, k) <==> !Less(k, m[j].0)
  {
    if Less(k, m[0].0) {
      if j > 0 && !Less(k, m[j].0) {
        NotLessTrans(m[0].0, m[j].0, k);
      }
    } else if j > 0 {
      UpperBoundSplits(m[1..], k, j - 1);
    }
  }

  function Inserted(m: Entries, k: MultiKey, v: Id): (r: Entries)
    requires Keyed(m, |k|)
    ensures |r| == |m| + 1
  {
    m[..UpperBound(m, k)] + [(k, v)] + m[UpperBound(m, k)..]
  }

  function Erased(m: Entries, i: nat): (r: Entries)
    requires i < |m|
    ensures |r| == |m| - 1
  {
    m[..i] + m[i + 1..]
  }

  predicate Has(m: Entries, k: MultiKey, v: Id) {
    exists i :: 0 <= i < |m| && m[i] == (k, v)
  }

  /** No id twice. */
  predicate Unique(m: Entries) {
    forall i, j :: 0 <= i < j < |m| ==> m[i].1 != m[j].1
  }

  lemma InsertedOk(m: Entries, k: MultiKey, v: Id)
    requires Ok(m, |k|)
    ensures Ok(Inserted(m, k, v), |k|)
  {
    var u, r := UpperBound(m, k), Inserted(m, k, v);
    forall i, j | 0 <= i < j < |r| ensures !Less(r[j].0, r[i].0) {
      if i == u {
        UpperBoundSplits(m, k, j - 1);
        LessIsStrict(k, m[j - 1].0);
      } else if j == u {
        UpperBoundSplits(m, k, i);
      } else {
        assert r[i] == m[if i < u then i else i - 1] && r[j] == m[if j < u then j else j - 1];
      }
    }
  }

  lemma InsertedHas(m: Entries, k: MultiKey, v: Id, k2: MultiKey, v2: Id)
    requires Keyed(m, |k|)
    ensures Has(Inserted(m, k, v), k2, v2) <==> Has(m, k2, v2) || (k2, v2) == (k, v)
  {
    hide UpperBound;
    var u, r := UpperBound(m, k), Inserted(m, k, v);
    assert r[u] == (k, v);
    if Has(m, k2, v2) {
      var i :| 0 <= i < |m| && m[i] == (k2, v2);
      assert r[if i < u then i else i + 1] == m[i];
    }
    if Has(r, k2, v2) && (k2, v2) != (k, v) {
      var i :| 0 <= i < |r| && r[i] == (k2, v2);
      assert m[if i < u then i else i - 1] == r[i];
    }
  }

  lemma InsertedUnique(m: Entries, k: MultiKey, v: Id)
    requires Keyed(m, |k|) && Unique(m) && forall k2 :: !Has(m, k2, v)
    ensures Unique(Inserted(m, k, v))
  {
    var u, r := UpperBound(m, k), Inserted(m, k, v);
    forall i | 0 <= i < |r| && i != u ensures r[i].1 != v && r[i] == m[if i < u then i else i - 1] {
      var e := m[if i < u then i else i - 1];
      if e.1 == v {
        assert Has(m, e.0, v);
      }
    }
  }

  lemma ErasedOk(m: Entries, i: nat, n: nat)
    requires Ok(m, n) && i < |m|
    ensures Ok(Erased(m, i), n)
  {
    var r := Erased(m, i);
    forall a | 0 <= a < |r| ensures r[a] == m[if a < i then a else a + 1] {
    }
  }

  lemma ErasedHas(m: Entries, i: nat, k: MultiKey, v: Id)
    requires Unique(m) && i < |m|
    ensures Has(Erased(m, i), k, v) <==> Has(m, k, v) && (k, v) != m[i]
    ensures Unique(Erased(m, i))
  {
    var r := Erased(m, i);
    forall a | 0 <= a < |r| ensures r[a] == m[if a < i then a else a + 1] {
    }
    if Has(m, k, v) && (k, v) != m[i] {
      var j :| 0 <= j < |m| && m[j] == (k, v);
      assert r[if j < i then j else j - 1] == m[j];
    }
  }

  /** Find `v` among the entries with key `k`, as `remove(row)` does. */
  method Find(m: Entries, k: MultiKey, v: Id) returns (found: bool, i: nat)
    requires Ok(m, |k|)
    ensures found <==> Has(m, k, v)
    ensures found ==> i < |m| && m[i] == (k, v)
  {
    i := LowerBound(m, k);
    var hi := UpperBound(m, k);
    forall j | 0 <= j < |m| ensures m[j].0 == k <==> LowerBound(m, k) <= j < hi {
      LowerBoundSplits(m, k, j);
      UpperBoundSplits(m, k, j);
      LessTotal(m[j].0, k);
      LessIsStrict(k, k);
    }
    while i < hi
      invariant LowerBound(m, k) <= i
      invariant forall j :: LowerBound(m, k) <= j < i && j < |m| ==> m[j] != (k, v)
    {
      if m[i].1 == v {
        return true, i;
      }
      i := i + 1;
    }
    return false, i;
  }

  /** The stretch a query walks. */
  datatype Query =
    | Equal(k: MultiKey)
    | LessThan(k: MultiKey)
    | GreaterThan(k: MultiKey)
    | Between(lo: MultiKey, hi: MultiKey)
    | All
  {
    predicate Width(n: nat) {
      match this
      case Equal(k) => |k| == n
      case LessThan(k) => |k| == n
      case GreaterThan(k) => |k| == n
      case Between(lo, hi) => |lo| == |hi| == n && Less(lo, hi)
      case All => true
    }

    predicate Matches(k2: MultiKey)
      requires Width(|k2|)
    {
      match this
      case Equal(k) => k2 == k
      case LessThan(k) => Less(k2, k)
      case GreaterThan(k) => Less(k, k2)
      case Between(lo, hi) => Less(lo, k2) && Less(k2, hi)
      case All => true
    }
  }

  function Begin(m: Entries, q: Query, n: nat): (i: nat)
    requires Keyed(m, n) && q.Width(n)
    ensures i <= |m|
  {
    match q
    case Equal(k) => LowerBound(m, k)
    case LessThan(k) => 0
    case GreaterThan(k) => UpperBound(m, k)
    case Between(lo, _) => UpperBound(m, lo)
    case All => 0
  }

  function End(m: Entries, q: Query, n: nat): (i: nat)
    requires Keyed(m, n) && q.Width(n)
    ensures i <= |m|
  {
    match q
    case Equal(k) => UpperBound(m, k)
    case LessThan(k) => LowerBound(m, k)
    case GreaterThan(k) => |m|
    case Between(_, hi) => LowerBound(m, hi)
    case All => |m|
  }

  /** The bounds enclose exactly the matching entries. */
  lemma QueryIsExact(m: Entries, q: Query, n: nat, j: nat)
    requires Ok(m, n) && q.Width(n) && j < |m|
    ensures Begin(m, q, n) <= j < End(m, q, n) <==> q.Matches(m[j].0)
  {
    match q
    case Equal(k) =>
      LowerBoundSplits(m, k, j);
      UpperBoundSplits(m, k, j);
      LessTotal(m[j].0, k);
      LessIsStrict(k, k);
    case LessThan(k) => LowerBoundSplits(m, k, j);
    case GreaterThan(k) => UpperBoundSplits(m, k, j);
    case Between(lo, hi) =>
      UpperBoundSplits(m, lo, j);
      LowerBoundSplits(m, hi, j);
    case All =>
  }
}

/**
  What the hash depends on: every byte. Each step is a bijection in the word it mixes in and in the
  state it starts from, so changing one byte always changes the value.
 */
module HashSpread {
  import opened XxHash

  // ---- what undoes each operation ----

  function Minus(x: bv32, y: bv32): bv32 {
    x - y
  }

  lemma PlusBack(x: bv32, y: bv32)
    ensures Minus(Plus(x, y), y) == x && Minus(Plus(x, y), x) == y
  {
  }

  function Rotr(x: bv32, r: Turn): bv32 {
    match r
    case R1 => x.RotateRight(1)
    case R7 => x.RotateRight(7)
    case R11 => x.RotateRight(11)
    case R12 => x.RotateRight(12)
    case R13 => x.RotateRight(13)
    case R17 => x.RotateRight(17)
    case R18 => x.RotateRight(18)
  }

  lemma RotlIs(x: bv32)
    ensures Rotl(x, R1) == x.RotateLeft(1) && Rotl(x, R7) == x.RotateLeft(7) && Rotl(x, R11) == x.RotateLeft(11)
    ensures Rotl(x, R12) == x.RotateLeft(12) && Rotl(x, R13) == x.RotateLeft(13) && Rotl(x, R17) == x.RotateLeft(17)
    ensures Rotl(x, R18) == x.RotateLeft(18)
  {
  }

  lemma RotrIs(x: bv32)
    ensures Rotr(x.RotateLeft(1), R1) == x && Rotr(x.RotateLeft(7), R7) == x && Rotr(x.RotateLeft(11), R11) == x
    ensures Rotr(x.RotateLeft(12), R12) == x && Rotr(x.RotateLeft(13), R13) == x && Rotr(x.RotateLeft(17), R17) == x
    ensures Rotr(x.RotateLeft(18), R18) == x
  {
  }

  lemma RotlBack(x: bv32, r: Turn)
    ensures Rotr(Rotl(x, r), r) == x
  {
    hide Rotl, Rotr;
    RotlIs(x);
    RotrIs(x);
  }

  function Unfolded(x: bv32, f: Shift): bv32 {
    match f
    case S15 => x ^ (x >> 15) ^ (x >> 30)
    case S13 => x ^ (x >> 13) ^ (x >> 26)
    case S16 => x ^ (x >> 16)
  }

  lemma FoldedIs(x: bv32)
    ensures Folded(x, S15) == x ^ (x >> 15) && Folded(x, S13) == x ^ (x >> 13) && Folded(x, S16) == x ^ (x >> 16)
  {
  }

  lemma UnfoldedIs(x: bv32)
    ensures Unfolded(x ^ (x >> 15), S15) == x && Unfolded(x ^ (x >> 13), S13) == x
    ensures Unfolded(x ^ (x >> 16), S16) == x
  {
  }

  lemma FoldedBack(x: bv32, f: Shift)
    ensures Unfolded(Folded(x, f), f) == x
  {
    hide Folded, Unfolded;
    FoldedIs(x);
    UnfoldedIs(x);
  }

  /** Multiplying by the inverse of the prime. */
  function Over(x: bv32, p: Prime): bv32 {
    match p
    case P1 => x * 244002641
    case P2 => x * 3066638151
    case P3 => x * 2828982549
    case P4 => x * 2701016015
    case P5 => x * 2923004241
  }

  lemma TimesIs(x: bv32)
    ensures Times(x, P1) == x * 2654435761 && Times(x, P2) == x * 2246822519 && Times(x, P3) == x * 3266489917
    ensures Times(x, P4) == x * 668265263 && Times(x, P5) == x * 374761393
  {
  }

  lemma OverIs(x: bv32)
    ensures Over(x * 2654435761, P1) == x && Over(x * 2246822519, P2) == x && Over(x * 3266489917, P3) == x
    ensures Over(x * 668265263, P4) == x && Over(x * 374761393, P5) == x
  {
  }

  lemma TimesBack(x: bv32, p: Prime)
    ensures Over(Times(x, p), p) == x
  {
    hide Times, Over;
    TimesIs(x);
    OverIs(x);
  }

  // ---- the steps keep different words apart ----

  lemma MixedApart(h: bv32, k: bv32, x: bv32, y: bv32, p: Prime, r: Turn, q: Prime)
    requires (h != k && x == y) || (h == k && x != y)
    ensures Mixed(h, x, p, r, q) != Mixed(k, y, p, r, q)
  {
    hide Times, Rotl, Rotr, Plus, Minus, Over;
    var a, b := Plus(h, Times(x, p)), Plus(k, Times(y, p));
    TimesBack(x, p);
    TimesBack(y, p);
    PlusBack(h, Times(x, p));
    PlusBack(k, Times(y, p));
    RotlBack(a, r);
    RotlBack(b, r);
    TimesBack(Rotl(a, r), q);
    TimesBack(Rotl(b, r), q);
  }

  lemma AvalancheApart(h: bv32, k: bv32)
    requires h != k
    ensures Avalanche(h) != Avalanche(k)
  {
    hide Times, Folded, Unfolded, Over;
    var h1, k1 := Times(Folded(h, S15), P2), Times(Folded(k, S15), P2);
    var h2, k2 := Times(Folded(h1, S13), P3), Times(Folded(k1, S13), P3);
    FoldedBack(h, S15);
    FoldedBack(k, S15);
    TimesBack(Folded(h, S15), P2);
    TimesBack(Folded(k, S15), P2);
    FoldedBack(h1, S13);
    FoldedBack(k1, S13);
    TimesBack(Folded(h1, S13), P3);
    TimesBack(Folded(k1, S13), P3);
    FoldedBack(h2, S16);
    FoldedBack(k2, S16);
  }

  lemma PlusApart(x: bv32, y: bv32, z: bv32)
    requires x != y
    ensures Plus(x, z) != Plus(y, z) && Plus(z, x) != Plus(z, y)
  {
    hide Plus, Minus;
    PlusBack(x, z);
    PlusBack(y, z);
    PlusBack(z, x);
    PlusBack(z, y);
  }

  lemma WidenApart(x: bv8, y: bv8)
    requires x != y
    ensures x as bv32 != y as bv32
  {
  }

  lemma BytesApart(b0: bv8, b1: bv8, b2: bv8, b3: bv8, c0: bv8, c1: bv8, c2: bv8, c3: bv8)
    requires b0 != c0 || b1 != c1 || b2 != c2 || b3 != c3
    ensures (b0 as bv32) | ((b1 as bv32) << 8) | ((b2 as bv32) << 16) | ((b3 as bv32) << 24) !=
            (c0 as bv32) | ((c1 as bv32) << 8) | ((c2 as bv32) << 16) | ((c3 as bv32) << 24)
  {
  }

  lemma WordApart(b: Bytes, c: Bytes, i: nat)
    requires i + 4 <= |b| == |c|
    requires b[i] != c[i] || b[i + 1] != c[i + 1] || b[i + 2] != c[i + 2] || b[i + 3] != c[i + 3]
    ensures ReadLE32(b, i) != ReadLE32(c, i)
  {
    BytesApart(b[i], b[i + 1], b[i + 2], b[i + 3], c[i], c[i + 1], c[i + 2], c[i + 3]);
  }

  // ---- strings that differ in one byte ----

  /** `b` and `c` differ at position `i` and nowhere else. */
  ghost predicate OneOff(b: Bytes, c: Bytes, i: nat) {
    i < |b| == |c| && b[i] != c[i] && forall j :: 0 <= j < |b| && j != i ==> b[j] == c[j]
  }

  lemma OneOffTail(b: Bytes, c: Bytes, i: nat, n: nat)
    requires OneOff(b, c, i) && n <= |b|
    ensures if i < n then b[n..] == c[n..] else b[..n] == c[..n] && OneOff(b[n..], c[n..], i - n)
  {
  }

  lemma {:induction false} TailApart(h: bv32, k: bv32, b: Bytes)
    requires h != k
    ensures Tail(h, b) != Tail(k, b)
    decreases |b|
  {
    hide Mixed;
    if |b| >= 4 {
      var w := ReadLE32(b, 0);
      MixedApart(h, k, w, w, P3, R17, P4);
      TailApart(MixWord(h, w), MixWord(k, w), b[4..]);
    } else if b != [] {
      MixedApart(h, k, b[0] as bv32, b[0] as bv32, P5, R11, P1);
      TailApart(MixByte(h, b[0]), MixByte(k, b[0]), b[1..]);
    }
  }

  lemma {:induction false} TailSees(h: bv32, b: Bytes, c: Bytes, i: nat)
    requires OneOff(b, c, i)
    ensures Tail(h, b) != Tail(h, c)
    decreases |b|
  {
    hide Mixed, ReadLE32;
    if |b| >= 4 {
      OneOffTail(b, c, i, 4);
      var w, x := ReadLE32(b, 0), ReadLE32(c, 0);
      if i < 4 {
        WordApart(b, c, 0);
        MixedApart(h, h, w, x, P3, R17, P4);
        TailApart(MixWord(h, w), MixWord(h, x), b[4..]);
      } else {
        SameWord(b, c);
        TailSees(MixWord(h, w), b[4..], c[4..], i - 4);
      }
    } else {
      OneOffTail(b, c, i, 1);
      if i < 1 {
        WidenApart(b[0], c[0]);
        MixedApart(h, h, b[0] as bv32, c[0] as bv32, P5, R11, P1);
        TailApart(MixByte(h, b[0]), MixByte(h, c[0]), b[1..]);
      } else {
        TailSees(MixByte(h, b[0]), b[1..], c[1..], i - 1);
      }
    }
  }

  lemma SameWord(b: Bytes, c: Bytes)
    requires |b| == |c| >= 4 && b[..4] == c[..4]
    ensures ReadLE32(b, 0) == ReadLE32(c, 0)
  {
    assert b[0] == b[..4][0] && b[1] == b[..4][1] && b[2] == b[..4][2] && b[3] == b[..4][3];
  }

  /** Exactly one lane differs. */
  predicate OneLane(l: Lanes, m: Lanes) {
    || (l.v1 != m.v1 && l.v2 == m.v2 && l.v3 == m.v3 && l.v4 == m.v4)
    || (l.v1 == m.v1 && l.v2 != m.v2 && l.v3 == m.v3 && l.v4 == m.v4)
    || (l.v1 == m.v1 && l.v2 == m.v2 && l.v3 != m.v3 && l.v4 == m.v4)
    || (l.v1 == m.v1 && l.v2 == m.v2 && l.v3 == m.v3 && l.v4 != m.v4)
  }

  lemma RoundApart(v: bv32, w: bv32, x: bv32, y: bv32)
    requires (v != w && x == y) || (v == w && x != y)
    ensures Round(v, x) != Round(w, y)
  {
    hide Mixed;
    MixedApart(v, w, x, y, P2, R13, P1);
  }

  lemma StripeApart(l: Lanes, m: Lanes, b: Bytes)
    requires OneLane(l, m) && |b| == 16
    ensures OneLane(Stripe(l, b), Stripe(m, b))
  {
    hide Round, ReadLE32;
    if l.v1 != m.v1 { RoundApart(l.v1, m.v1, ReadLE32(b, 0), ReadLE32(b, 0)); }
    if l.v2 != m.v2 { RoundApart(l.v2, m.v2, ReadLE32(b, 4), ReadLE32(b, 4)); }
    if l.v3 != m.v3 { RoundApart(l.v3, m.v3, ReadLE32(b, 8), ReadLE32(b, 8)); }
    if l.v4 != m.v4 { RoundApart(l.v4, m.v4, ReadLE32(b, 12), ReadLE32(b, 12)); }
  }

  lemma WordsOfStripe(b: Bytes, c: Bytes, i: nat, k: nat)
    requires OneOff(b, c, i) && |b| == 16 && k <= 12
    ensures ReadLE32(b, k) == ReadLE32(c, k) <==> !(k <= i < k + 4)
  {
    hide ReadLE32;
    if k <= i < k + 4 { WordApart(b, c, k); } else { SameWordAt(b, c, k); }
  }

  lemma SameWordAt(b: Bytes, c: Bytes, k: nat)
    requires k + 4 <= |b| == |c|
    requires b[k] == c[k] && b[k + 1] == c[k + 1] && b[k + 2] == c[k + 2] && b[k + 3] == c[k + 3]
    ensures ReadLE32(b, k) == ReadLE32(c, k)
  {
  }

  lemma StripeSees(l: Lanes, b: Bytes, c: Bytes, i: nat)
    requires OneOff(b, c, i) && |b| == 16
    ensures OneLane(Stripe(l, b), Stripe(l, c))
  {
    hide Round, ReadLE32, OneOff;
    WordsOfStripe(b, c, i, 0);
    WordsOfStripe(b, c, i, 4);
    WordsOfStripe(b, c, i, 8);
    WordsOfStripe(b, c, i, 12);
    InStripe(b, c, i);
    if i < 4 { RoundApart(l.v1, l.v1, ReadLE32(b, 0), ReadLE32(c, 0)); }
    else if i < 8 { RoundApart(l.v2, l.v2, ReadLE32(b, 4), ReadLE32(c, 4)); }
    else if i < 12 { RoundApart(l.v3, l.v3, ReadLE32(b, 8), ReadLE32(c, 8)); }
    else { RoundApart(l.v4, l.v4, ReadLE32(b, 12), ReadLE32(c, 12)); }
  }

  lemma InStripe(b: Bytes, c: Bytes, i: nat)
    requires OneOff(b, c, i)
    ensures i < |b| == |c|
  {
  }

  lemma {:induction false} StripesApart(l: Lanes, m: Lanes, b: Bytes)
    requires OneLane(l, m)
    ensures OneLane(Stripes(l, b), Stripes(m, b))
    decreases |b|
  {
    hide OneLane, Stripe;
    if |b| >= 16 {
      StripeApart(l, m, b[..16]);
      StripesApart(Stripe(l, b[..16]), Stripe(m, b[..16]), b[16..]);
    }
  }

  lemma {:induction false} StripesSee(l: Lanes, b: Bytes, c: Bytes, i: nat)
    requires OneOff(b, c, i) && i < |b| - |b| % 16
    ensures OneLane(Stripes(l, b), Stripes(l, c))
    decreases |b|
  {
    hide OneLane, Stripe;
    OneOffTail(b, c, i, 16);
    if i < 16 {
      assert OneOff(b[..16], c[..16], i);
      StripeSees(l, b[..16], c[..16], i);
      StripesApart(Stripe(l, b[..16]), Stripe(l, c[..16]), b[16..]);
    } else {
      SameRemainder(16, |b| - 16);
      StripesSee(Stripe(l, b[..16]), b[16..], c[16..], i - 16);
    }
  }

  lemma MergeApart(l: Lanes, m: Lanes)
    requires OneLane(l, m)
    ensures Merge(l) != Merge(m)
  {
    hide Rotl, Rotr, Plus;
    RotlBack(l.v1, R1);
    RotlBack(m.v1, R1);
    RotlBack(l.v2, R7);
    RotlBack(m.v2, R7);
    RotlBack(l.v3, R12);
    RotlBack(m.v3, R12);
    RotlBack(l.v4, R18);
    RotlBack(m.v4, R18);
    SumApart(Rotl(l.v1, R1), Rotl(l.v2, R7), Rotl(l.v3, R12), Rotl(l.v4, R18),
             Rotl(m.v1, R1), Rotl(m.v2, R7), Rotl(m.v3, R12), Rotl(m.v4, R18));
  }

  lemma SumApart(a1: bv32, a2: bv32, a3: bv32, a4: bv32, b1: bv32, b2: bv32, b3: bv32, b4: bv32)
    requires OneLane(Lanes(a1, a2, a3, a4), Lanes(b1, b2, b3, b4))
    ensures Plus(Plus(Plus(a1, a2), a3), a4) != Plus(Plus(Plus(b1, b2), b3), b4)
  {
    hide Plus, Minus;
    PlusBack(a1, a2);
    PlusBack(b1, b2);
    PlusBack(Plus(a1, a2), a3);
    PlusBack(Plus(b1, b2), b3);
    PlusBack(Plus(Plus(a1, a2), a3), a4);
    PlusBack(Plus(Plus(b1, b2), b3), b4);
  }

  lemma StripesOnRest(l: Lanes, b: Bytes, c: Bytes, i: nat)
    requires OneOff(b, c, i) && i >= |b| - |b| % 16
    ensures Stripes(l, b) == Stripes(l, c) && OneOff(Rest(b), Rest(c), i - (|b| - |b| % 16))
  {
    var n := |b| - |b| % 16;
    OneOffTail(b, c, i, n);
    StripesIgnoreRest(l, b);
    StripesIgnoreRest(l, c);
  }

  /** The state before the tail. */
  function Start(b: Bytes, seed: bv32): bv32 {
    AddLength(if |b| >= 16 then Merge(Stripes(Init(seed), b)) else Short(seed), |b|)
  }

  lemma HashIs(b: Bytes, seed: bv32)
    ensures Hash(b, seed) == Avalanche(Tail(Start(b, seed), Rest(b)))
  {
    hide Stripes, Merge, Init, Avalanche, Tail, Short, AddLength, Rest;
  }

  lemma LengthApart(h: bv32, k: bv32, n: nat)
    requires h != k
    ensures AddLength(h, n) != AddLength(k, n)
  {
    hide Plus;
    PlusApart(h, k, (n % 0x1_0000_0000) as bv32);
  }

  lemma StripedByte(b: Bytes, c: Bytes, i: nat, seed: bv32)
    requires OneOff(b, c, i) && i < |b| - |b| % 16
    ensures Start(b, seed) != Start(c, seed) && Rest(b) == Rest(c)
  {
    hide Stripes, Merge, Init, Short, AddLength, OneOff, Rest;
    InStripe(b, c, i);
    StripesSee(Init(seed), b, c, i);
    MergeApart(Stripes(Init(seed), b), Stripes(Init(seed), c));
    LengthApart(Merge(Stripes(Init(seed), b)), Merge(Stripes(Init(seed), c)), |b|);
    OneOffRest(b, c, i);
  }

  lemma RestByte(b: Bytes, c: Bytes, i: nat, seed: bv32)
    requires OneOff(b, c, i) && i >= |b| - |b| % 16
    ensures Start(b, seed) == Start(c, seed) && OneOff(Rest(b), Rest(c), i - (|b| - |b| % 16))
  {
    hide Stripes, Merge, Init, Short, AddLength, OneOff, Rest;
    InStripe(b, c, i);
    StripesOnRest(Init(seed), b, c, i);
  }

  /** Two strings that differ in exactly one byte have different hashes. */
  lemma OneByteMatters(b: Bytes, c: Bytes, i: nat, seed: bv32)
    requires OneOff(b, c, i)
    ensures Hash(b, seed) != Hash(c, seed)
  {
    hide Start, Avalanche, Tail, OneOff, Rest, Hash;
    if i < |b| - |b| % 16 {
      StripedByte(b, c, i, seed);
      TailApart(Start(b, seed), Start(c, seed), Rest(b));
    } else {
      RestByte(b, c, i, seed);
      TailSees(Start(b, seed), Rest(b), Rest(c), i - (|b| - |b| % 16));
    }
    HashIs(b, seed);
    HashIs(c, seed);
    AvalancheApart(Tail(Start(b, seed), Rest(b)), Tail(Start(c, seed), Rest(c)));
  }

  lemma OneOffRest(b: Bytes, c: Bytes, i: nat)
    requires OneOff(b, c, i) && i < |b| - |b| % 16
    ensures Rest(b) == Rest(c)
  {
    OneOffTail(b, c, i, |b| - |b| % 16);
  }

  // ---- one value ----

  /** The bytes 0 to 20: one stripe, one word and one byte. */
  const SAMPLE: Bytes := [0, 1, 2, 3, 4, 5, 6, 7, 8, 9, 10, 11, 12, 13, 14, 15, 16, 17, 18, 19, 20]

  lemma SampleWords()
    ensures ReadLE32(SAMPLE, 0) == 50462976 && ReadLE32(SAMPLE, 4) == 117835012
    ensures ReadLE32(SAMPLE, 8) == 185207048 && ReadLE32(SAMPLE, 12) == 252579084 && ReadLE32(SAMPLE, 16) == 319951120
  {
  }

  lemma SampleRounds()
    ensures Round(606290984, 50462976) == 4162305227 && Round(2246822519, 117835012) == 35811739
    ensures Round(0, 185207048) == 3568353444 && Round(1640531535, 252579084) == 3736827252
  {
  }

  lemma SampleMerge()
    ensures Init(0) == Lanes(606290984, 2246822519, 0, 1640531535)
    ensures Merge(Lanes(4162305227, 35811739, 3568353444, 3736827252)) == 3813019472
    ensures Plus(3813019472, 21) == 3813019493
  {
  }

  lemma SampleTail()
    ensures MixWord(3813019493, 319951120) == 409941062 && MixByte(409941062, 20) == 1296099049
  {
  }

  lemma SampleAvalanche()
    ensures Avalanche(1296099049) == 3334124689
  {
  }

  /** Twenty-one bytes: a stripe, a word and a byte. */
  lemma HashOf21(b: Bytes, seed: bv32)
    requires |b| == 21
    ensures var l := Init(seed);
            var m := Lanes(Round(l.v1, ReadLE32(b, 0)), Round(l.v2, ReadLE32(b, 4)), Round(l.v3, ReadLE32(b, 8)),
                           Round(l.v4, ReadLE32(b, 12)));
            Hash(b, seed) == Avalanche(MixByte(MixWord(AddLength(Merge(m), 21), ReadLE32(b, 16)), b[20]))
  {
    hide ReadLE32, Round, Merge, Init, MixWord, MixByte, Avalanche, AddLength;
    StripeAt(Init(seed), b, 0);
    assert b[0..16] == b[..16];
    ShortStays(Stripe(Init(seed), b[..16]), b[16..]);
    ReadAt(b, 16, 0);
    TailOf5(AddLength(Merge(Stripe(Init(seed), b[..16])), 21), b[16..]);
  }

  lemma TailOf5(h: bv32, b: Bytes)
    requires |b| == 5
    ensures Tail(h, b) == MixByte(MixWord(h, ReadLE32(b, 0)), b[4])
  {
    hide ReadLE32, MixWord, MixByte;
    var c := b[4..];
    assert c == [b[4]] && c[1..] == [];
    assert Tail(MixWord(h, ReadLE32(b, 0)), c) == Tail(MixByte(MixWord(h, ReadLE32(b, 0)), c[0]), c[1..]);
  }

  lemma SampleLength()
    ensures |SAMPLE| == 21 && SAMPLE[20] == 20
  {
  }

  lemma AddTwentyOne(h: bv32)
    ensures AddLength(h, 21) == Plus(h, 21)
  {
    hide Plus;
    assert 21 % 0x1_0000_0000 == 21;
  }

  /** The value of the sample pins the constants, the rotations and the shifts. */
  lemma SampleValue()
    ensures Hash(SAMPLE, 0) == 3334124689
  {
    hide ReadLE32, Round, Merge, Init, MixWord, MixByte, Avalanche, AddLength, Hash;
    SampleWords();
    SampleRounds();
    SampleMerge();
    SampleTail();
    SampleAvalanche();
    SampleLength();
    AddTwentyOne(3813019472);
    HashOf21(SAMPLE, 0);
  }
}

/**
  XXH32: hashing a string in chunks through a 16-byte carry buffer gives the same value
  as hashing it at once.
 */
module XxHash {

  type Bytes = seq<bv8>

  /** `PRIME32_1` to `PRIME32_5`. */
  datatype Prime = P1 | P2 | P3 | P4 | P5

  const PRIME32_1: bv32 := 2654435761
  const PRIME32_2: bv32 := 2246822519
  const PRIME32_5: bv32 := 374761393

  /** The longest string the one-shot call can be given: its length is an `int`. */
  const MAX_LEN := 0x7fff_ffff

  datatype Lanes = Lanes(v1: bv32, v2: bv32, v3: bv32, v4: bv32)

  // ---- the mixing steps ----

  function ReadLE32(b: Bytes, i: nat): bv32
    requires i + 4 <= |b|
  {
    (b[i] as bv32) | ((b[i + 1] as bv32) << 8) | ((b[i + 2] as bv32) << 16) | ((b[i + 3] as bv32) << 24)
  }

  function Plus(x: bv32, y: bv32): bv32 {
    x + y
  }

  function Times(x: bv32, p: Prime): bv32 {
    match p
    case P1 => x * 2654435761
    case P2 => x * 2246822519
    case P3 => x * 3266489917
    case P4 => x * 668265263
    case P5 => x * 374761393
  }

  /** The amounts by which words are rotated. */
  datatype Turn = R1 | R7 | R11 | R12 | R13 | R17 | R18

  /** `XXH_rotl32`. */
  function Rotl(x: bv32, r: Turn): bv32 {
    match r
    case R1 => x.RotateLeft(1)
    case R7 => x.RotateLeft(7)
    case R11 => x.RotateLeft(11)
    case R12 => x.RotateLeft(12)
    case R13 => x.RotateLeft(13)
    case R17 => x.RotateLeft(17)
    case R18 => x.RotateLeft(18)
  }

  datatype Shift = S15 | S13 | S16

  function Folded(x: bv32, f: Shift): bv32 {
    match f
    case S15 => x ^ (x >> 15)
    case S13 => x ^ (x >> 13)
    case S16 => x ^ (x >> 16)
  }

  /** Add a multiple of the word, rotate, multiply. */
  function Mixed(h: bv32, w: bv32, p: Prime, r: Turn, q: Prime): bv32 {
    Times(Rotl(Plus(h, Times(w, p)), r), q)
  }

  function Round(v: bv32, w: bv32): bv32 {
    Mixed(v, w, P2, R13, P1)
  }

  function Merge(l: Lanes): bv32 {
    Plus(Plus(Plus(Rotl(l.v1, R1), Rotl(l.v2, R7)), Rotl(l.v3, R12)), Rotl(l.v4, R18))
  }

  function MixWord(h: bv32, w: bv32): bv32 {
    Mixed(h, w, P3, R17, P4)
  }

  function MixByte(h: bv32, b: bv8): bv32 {
    Mixed(h, b as bv32, P5, R11, P1)
  }

  function Avalanche(h: bv32): bv32 {
    Folded(Times(Folded(Times(Folded(h, S15), P2), S13), P3), S16)
  }

  function Init(seed: bv32): Lanes {
    Lanes(seed + PRIME32_1 + PRIME32_2, seed + PRIME32_2, seed + 0, seed - PRIME32_1)
  }

  /** Where short strings start. */
  function Short(seed: bv32): bv32 {
    seed + PRIME32_5
  }

  /** The length is added truncated to 32 bits. */
  function AddLength(h: bv32, n: nat): bv32 {
    Plus(h, (n % 0x1_0000_0000) as bv32)
  }

  // ---- the algorithm as described ----

  /** Four rounds on one stripe of 16 bytes. */
  function Stripe(l: Lanes, b: Bytes): Lanes
    requires |b| >= 16
  {
    Lanes(Round(l.v1, ReadLE32(b, 0)), Round(l.v2, ReadLE32(b, 4)), Round(l.v3, ReadLE32(b, 8)),
          Round(l.v4, ReadLE32(b, 12)))
  }

  /** All whole stripes of `b`. */
  function Stripes(l: Lanes, b: Bytes): Lanes
    decreases |b|
  {
    if |b| < 16 then l else Stripes(Stripe(l, b[..16]), b[16..])
  }

  /** What is left after the whole stripes. */
  function Rest(b: Bytes): Bytes {
    b[|b| - |b| % 16..]
  }

  /** The last fewer than 16 bytes: words, then bytes. */
  function Tail(h: bv32, b: Bytes): bv32
    decreases |b|
  {
    if |b| >= 4 then Tail(MixWord(h, ReadLE32(b, 0)), b[4..])
    else if b == [] then h
    else Tail(MixByte(h, b[0]), b[1..])
  }

  function Hash(b: Bytes, seed: bv32): bv32 {
    var h := if |b| >= 16 then Merge(Stripes(Init(seed), b)) else Short(seed);
    Avalanche(Tail(AddLength(h, |b|), Rest(b)))
  }

  // ---- stripes of a concatenation ----

  lemma {:induction false} StripesConcat(l: Lanes, a: Bytes, b: Bytes)
    requires |a| % 16 == 0
    ensures Stripes(l, a + b) == Stripes(Stripes(l, a), b)
    decreases |a|
  {
    hide Stripe;
    if a == [] {
      assert a + b == b;
    } else {
      assert (a + b)[..16] == a[..16] && (a + b)[16..] == a[16..] + b;
      StripesConcat(Stripe(l, a[..16]), a[16..], b);
    }
  }

  lemma OneStripe(l: Lanes, b: Bytes)
    requires |b| == 16
    ensures Stripes(l, b) == Stripe(l, b)
  {
    assert b[..16] == b && b[16..] == [];
  }

  /** The bytes after the last whole stripe do not reach the lanes. */
  lemma StripesIgnoreRest(l: Lanes, b: Bytes)
    ensures Stripes(l, b) == Stripes(l, b[..|b| - |b| % 16])
  {
    var n := |b| - |b| % 16;
    assert b == b[..n] + b[n..];
    StripesConcat(l, b[..n], b[n..]);
  }

  /** Feeding more: the carried bytes and the new ones together. */
  lemma StripesGrow(seed: bv32, fed: Bytes, more: Bytes)
    ensures Stripes(Init(seed), fed + more) == Stripes(Stripes(Init(seed), fed), Rest(fed) + more)
    ensures Rest(fed + more) == Rest(Rest(fed) + more)
  {
    hide Stripe, Init;
    var n := |fed| - |fed| % 16;
    WholePart(|fed|);
    assert fed + more == fed[..n] + (Rest(fed) + more);
    StripesConcat(Init(seed), fed[..n], Rest(fed) + more);
    StripesIgnoreRest(Init(seed), fed);
    RestAfter(fed[..n], Rest(fed) + more);
  }

  lemma WholePart(n: nat)
    ensures (n - n % 16) % 16 == 0
  {
  }

  /** Whole stripes in front change nothing about what is left over. */
  lemma RestAfter(a: Bytes, b: Bytes)
    requires |a| % 16 == 0
    ensures Rest(a + b) == Rest(b)
  {
    SameRemainder(|a|, |b|);
  }

  lemma {:induction false} SameRemainder(m: nat, n: nat)
    requires m % 16 == 0
    ensures (m + n) % 16 == n % 16
    decreases m
  {
    if m > 0 {
      SameRemainder(m - 16, n);
      var k := m - 16 + n;
      assert (k + 16) % 16 == k % 16;
    }
  }

  // ---- the shared loops ----

  method MixTail(h0: bv32, b: Bytes, start: nat) returns (h: bv32)
    requires start <= |b|
    ensures h == Tail(h0, b[start..])
  {
    hide MixWord, MixByte, ReadLE32;
    h := h0;
    var p := start;
    while p + 4 <= |b|
      invariant start <= p <= |b| && Tail(h, b[p..]) == Tail(h0, b[start..])
    {
      ReadAt(b, p, 0);
      assert b[p..][4..] == b[p + 4..];
      h := MixWord(h, ReadLE32(b, p));
      p := p + 4;
    }
    while p < |b|
      invariant start <= p <= |b| < p + 4 && Tail(h, b[p..]) == Tail(h0, b[start..])
    {
      assert b[p..][1..] == b[p + 1..];
      h := MixByte(h, b[p]);
      p := p + 1;
    }
  }

  lemma ReadAt(b: Bytes, p: nat, i: nat)
    requires p + i + 4 <= |b|
    ensures ReadLE32(b[p..], i) == ReadLE32(b, p + i)
  {
  }

  /** The stripe loop, from a position with at least one whole stripe left. */
  method MixStripes(l: Lanes, b: Bytes, start: nat) returns (v: Lanes, p: nat)
    requires start + 16 <= |b|
    ensures start <= p <= |b| < p + 16 && (p - start) % 16 == 0
    ensures v == Stripes(l, b[start..])
  {
    hide Round, ReadLE32;
    var v1, v2, v3, v4 := l.v1, l.v2, l.v3, l.v4;
    p := start;
    while p + 16 <= |b|
      invariant start <= p <= |b| && (p - start) % 16 == 0
      invariant Stripes(Lanes(v1, v2, v3, v4), b[p..]) == Stripes(l, b[start..])
    {
      var s := b[p..p + 16];
      assert b[p..][..16] == s && b[p..][16..] == b[p + 16..];
      StripeAt(Lanes(v1, v2, v3, v4), b, p);
      v1 := Round(v1, ReadLE32(b, p));
      v2 := Round(v2, ReadLE32(b, p + 4));
      v3 := Round(v3, ReadLE32(b, p + 8));
      v4 := Round(v4, ReadLE32(b, p + 12));
      p := p + 16;
    }
    v := Lanes(v1, v2, v3, v4);
  }

  lemma StripeAt(l: Lanes, b: Bytes, p: nat)
    requires p + 16 <= |b|
    ensures Stripe(l, b[p..p + 16]) ==
            Lanes(Round(l.v1, ReadLE32(b, p)), Round(l.v2, ReadLE32(b, p + 4)),
                  Round(l.v3, ReadLE32(b, p + 8)), Round(l.v4, ReadLE32(b, p + 12)))
  {
    hide Round;
  }

  /** The stripe loop stops where the rest begins. */
  lemma RestFrom(b: Bytes, p: nat)
    requires p <= |b| < p + 16 && p % 16 == 0
    ensures b[p..] == Rest(b)
  {
    SameRemainder(p, |b| - p);
  }

  /** `XXH32`: the whole string at once. */
  method OneShot(b: Bytes, seed: bv32) returns (h: bv32)
    requires |b| <= MAX_LEN
    ensures h == Hash(b, seed)
  {
    hide Stripes, Merge, Init, Avalanche, Tail, Short, AddLength, Rest;
    var p := 0;
    if |b| >= 16 {
      var v;
      v, p := MixStripes(Init(seed), b, 0);
      assert b[0..] == b;
      h := Merge(v);
    } else {
      h := Short(seed);
    }
    h := AddLength(h, |b|);
    RestFrom(b, p);
    h := MixTail(h, b, p);
    h := Avalanche(h);
  }

  /** `XXH_state32_t`. */
  class State {
    var totalLen: nat
    var seed: bv32
    var v: Lanes
    var memsize: nat
    var memory: array<bv8>
    ghost var fed: Bytes

    ghost predicate Valid()
      reads this, memory
    {
      && memory.Length == 16 && memsize < 16
      && totalLen == |fed| && v == Stripes(Init(seed), fed) && memory[..memsize] == Rest(fed)
    }

    /** `XXH32_init`, `XXH32_resetState`. */
    constructor (seed: bv32)
      ensures Valid() && fed == [] && this.seed == seed && fresh(memory)
    {
      this.seed := seed;
      v := Init(seed);
      totalLen, memsize, fed := 0, 0, [];
      memory := new bv8[16](i => 0);
    }

    /** `memcpy` into the buffer. */
    method Copy(b: Bytes, at: nat)
      requires at + |b| <= memory.Length
      modifies memory
      ensures memory[..] == old(memory[..at]) + b + old(memory[at + |b|..])
    {
      var i := 0;
      while i < |b|
        invariant 0 <= i <= |b|
        invariant memory[..] == old(memory[..at]) + b[..i] + old(memory[at + i..])
      {
        ghost var was := memory[..];
        memory[at + i] := b[i];
        assert memory[..] == was[..at + i] + [b[i]] + was[at + i + 1..];
        assert b[..i + 1] == b[..i] + [b[i]];
        i := i + 1;
      }
    }

    /** `XXH32_update`. */
    method Update(b: Bytes)
      requires Valid() && |fed| + |b| <= MAX_LEN
      modifies this, memory
      ensures Valid() && fed == old(fed) + b && seed == old(seed) && memory == old(memory)
    {
      hide Stripes, Stripe, Init;
      ghost var carried := Rest(fed);
      StripesGrow(seed, fed, b);
      totalLen := totalLen + |b|;
      fed := fed + b;
      if memsize + |b| < 16 {
        Copy(b, memsize);
        memsize := memsize + |b|;
        ShortStays(v, carried + b);
        assert memory[..memsize] == carried + b;
        return;
      }
      var p := 0;
      if memsize > 0 {
        p := 16 - memsize;
        Copy(b[..p], memsize);
        assert memory[..] == carried + b[..p];
        FirstStripe(v, carried, b, p);
        v := Stripe(v, memory[..]);
        memsize := 0;
      } else {
        assert carried == [] && carried + b == b == b[0..];
      }
      FinishUpdate(b, p, carried);
    }

    /** The rest of the update: whole stripes from `p`, then carry what is left. */
    method FinishUpdate(b: Bytes, p0: nat, ghost carried: Bytes)
      requires p0 <= |b| && memsize == 0 && memory.Length == 16 && totalLen == |fed|
      requires Stripes(Init(seed), fed) == Stripes(v, b[p0..]) && Rest(fed) == Rest(b[p0..])
      modifies this`v, this`memsize, memory
      ensures Valid()
    {
      hide Stripes, Init;
      var p := p0;
      if p + 16 <= |b| {
        v, p := MixStripes(v, b, p0);
      } else {
        ShortStays(v, b[p0..]);
      }
      assert b[p..] == Rest(b[p0..]);
      if p < |b| {
        Copy(b[p..], 0);
        memsize := |b| - p;
      }
      assert memory[..memsize] == b[p..];
    }

    /** `XXH32_intermediateDigest`: the value so far. */
    method Digest() returns (h: bv32)
      requires Valid()
      ensures h == Hash(fed, seed)
    {
      hide Stripes, Merge, Init, Avalanche, Tail, Short, AddLength;
      if totalLen >= 16 {
        h := Merge(v);
      } else {
        h := Short(seed);
      }
      h := AddLength(h, totalLen);
      var m := memory[..memsize];
      assert m[0..] == m;
      h := MixTail(h, m, 0);
      h := Avalanche(h);
    }
  }

  lemma ShortStays(l: Lanes, b: Bytes)
    requires |b| < 16
    ensures Stripes(l, b) == l && Rest(b) == b
  {
  }

  /** The carry buffer topped up to one stripe. */
  lemma FirstStripe(l: Lanes, carried: Bytes, b: Bytes, p: nat)
    requires 0 < |carried| < 16 && p == 16 - |carried| <= |b|
    ensures Stripes(l, carried + b) == Stripes(Stripe(l, carried + b[..p]), b[p..])
    ensures Rest(carried + b) == Rest(b[p..])
  {
    hide Stripe;
    assert carried + b == (carried + b[..p]) + b[p..];
    StripesConcat(l, carried + b[..p], b[p..]);
    OneStripe(l, carried + b[..p]);
  }

  function Concat(chunks: seq<Bytes>): Bytes {
    if chunks == [] then [] else Concat(chunks[..|chunks| - 1]) + chunks[|chunks| - 1]
  }

  /** Reset, any number of updates, digest: the hash of the whole. */
  method Streamed(chunks: seq<Bytes>, seed: bv32) returns (h: bv32)
    requires |Concat(chunks)| <= MAX_LEN
    ensures h == Hash(Concat(chunks), seed)
  {
    hide Hash;
    var state := new State(seed);
    var i := 0;
    while i < |chunks|
      invariant 0 <= i <= |chunks| && state.Valid() && state.seed == seed && fresh(state) && fresh(state.memory)
      invariant state.fed == Concat(chunks[..i])
    {
      assert chunks[..i + 1][..i] == chunks[..i];
      ConcatPrefix(chunks, i + 1);
      state.Update(chunks[i]);
      i := i + 1;
    }
    assert chunks[..i] == chunks;
    h := state.Digest();
  }

  lemma {:induction false} ConcatPrefix(chunks: seq<Bytes>, i: nat)
    requires i <= |chunks|
    ensures |Concat(chunks[..i])| <= |Concat(chunks)|
    decreases |chunks|
  {
    if i < |chunks| {
      assert chunks[..|chunks| - 1][..i] == chunks[..i];
      ConcatPrefix(chunks[..|chunks| - 1], i);
    } else {
      assert chunks[..i] == chunks;
    }
  }

  /** The streaming value and the one-shot value agree, for every split of the string. */
  method BothWays(chunks: seq<Bytes>, seed: bv32) returns (streamed: bv32, oneShot: bv32)
    requires |Concat(chunks)| <= MAX_LEN
    ensures streamed == oneShot == Hash(Concat(chunks), seed)
  {
    hide Hash;
    streamed := Streamed(chunks, seed);
    oneShot := OneShot(Concat(chunks), seed);
  }
}

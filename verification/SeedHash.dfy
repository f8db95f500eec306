/** How the seed helper makes the new seed (early/helpers/seedrng.cc): a hash over a prefix, the
    two clocks, the old seeds and the bytes drawn from the kernel, put over the end of those. */
module SeedHash {
  import opened Blake2sSpec
  import opened Blake2s

  const HASH_LEN := 32
  const SIZE_MAX := 0x1_0000_0000_0000_0000

  function Bits(b0: bool, b1: bool, b2: bool, b3: bool, b4: bool, b5: bool, b6: bool, b7: bool): byte {
    (if b0 then 0x01 else 0) | (if b1 then 0x02 else 0) | (if b2 then 0x04 else 0) | (if b3 then 0x08 else 0) |
    (if b4 then 0x10 else 0) | (if b5 then 0x20 else 0) | (if b6 then 0x40 else 0) | (if b7 then 0x80 else 0)
  }

  function Odd(n: nat): bool {
    n % 2 == 1
  }

  function Half(n: nat, k: nat): nat {
    if k == 0 then n else Half(n / 2, k - 1)
  }

  /** The lowest byte of a number. */
  function Octet(n: nat): byte {
    Bits(Odd(n), Odd(Half(n, 1)), Odd(Half(n, 2)), Odd(Half(n, 3)),
         Odd(Half(n, 4)), Odd(Half(n, 5)), Odd(Half(n, 6)), Odd(Half(n, 7)))
  }

  /** A `size_t` in memory, least significant byte first. */
  function SizeBytes(n: nat, k: nat := 8): (b: seq<byte>)
    ensures |b| == k
    decreases k
  {
    if k == 0 then [] else [Octet(n)] + SizeBytes(Half(n, 8), k - 1)
  }

  function Power256(k: nat): nat {
    if k == 0 then 1 else 256 * Power256(k - 1)
  }

  lemma BitsInjective(b0: bool, b1: bool, b2: bool, b3: bool, b4: bool, b5: bool, b6: bool, b7: bool,
                      c0: bool, c1: bool, c2: bool, c3: bool, c4: bool, c5: bool, c6: bool, c7: bool)
    requires Bits(b0, b1, b2, b3, b4, b5, b6, b7) == Bits(c0, c1, c2, c3, c4, c5, c6, c7)
    ensures b0 == c0 && b1 == c1 && b2 == c2 && b3 == c3 && b4 == c4 && b5 == c5 && b6 == c6 && b7 == c7
  {
  }

  lemma {:induction false} HalvesDecide(m: nat, n: nat, k: nat)
    requires Half(m, k) == Half(n, k) && forall i :: 0 <= i < k ==> Odd(Half(m, i)) == Odd(Half(n, i))
    ensures m == n
  {
    if k > 0 {
      forall i | 0 <= i < k - 1
        ensures Odd(Half(m / 2, i)) == Odd(Half(n / 2, i))
      {
        assert Half(m, i + 1) == Half(m / 2, i) && Half(n, i + 1) == Half(n / 2, i);
        assert Odd(Half(m, i + 1)) == Odd(Half(n, i + 1));
      }
      HalvesDecide(m / 2, n / 2, k - 1);
      assert Half(m, 0) == m && Half(n, 0) == n;
      assert Odd(Half(m, 0)) == Odd(Half(n, 0));
    }
  }

  lemma OctetDecides(m: nat, n: nat)
    requires Octet(m) == Octet(n) && Half(m, 8) == Half(n, 8)
    ensures m == n
  {
    hide Bits, Half, Odd;
    BitsInjective(Odd(m), Odd(Half(m, 1)), Odd(Half(m, 2)), Odd(Half(m, 3)),
                  Odd(Half(m, 4)), Odd(Half(m, 5)), Odd(Half(m, 6)), Odd(Half(m, 7)),
                  Odd(n), Odd(Half(n, 1)), Odd(Half(n, 2)), Odd(Half(n, 3)),
                  Odd(Half(n, 4)), Odd(Half(n, 5)), Odd(Half(n, 6)), Odd(Half(n, 7)));
    NoHalf(m);
    NoHalf(n);
    HalvesDecide(m, n, 8);
  }

  lemma NoHalf(n: nat)
    ensures Half(n, 0) == n
  {
  }

  lemma {:induction false} HalfBounded(n: nat, k: nat, p: nat)
    requires n < Power2(k) * p
    ensures Half(n, k) < p
  {
    if k > 0 {
      assert Power2(k) * p == 2 * (Power2(k - 1) * p);
      HalfBounded(n / 2, k - 1, p);
    }
  }

  function Power2(k: nat): nat {
    if k == 0 then 1 else 2 * Power2(k - 1)
  }

  lemma {:induction false} SizeBytesInjective(m: nat, n: nat, k: nat)
    requires m < Power256(k) && n < Power256(k) && SizeBytes(m, k) == SizeBytes(n, k)
    ensures m == n
    decreases k
  {
    hide Octet, Half;
    if k > 0 {
      assert SizeBytes(m, k)[0] == SizeBytes(n, k)[0];
      assert SizeBytes(m, k)[1..] == SizeBytes(Half(m, 8), k - 1) && SizeBytes(n, k)[1..] == SizeBytes(Half(n, 8), k - 1);
      assert Power2(8) == 256;
      HalfBounded(m, 8, Power256(k - 1));
      HalfBounded(n, 8, Power256(k - 1));
      SizeBytesInjective(Half(m, 8), Half(n, 8), k - 1);
      OctetDecides(m, n);
    }
  }

  /** The bit of value 2 to the power of j. */
  predicate BitOf(b: byte, j: nat)
    requires j < 8
  {
    var mask: seq<byte> := [0x01, 0x02, 0x04, 0x08, 0x10, 0x20, 0x40, 0x80];
    b & mask[j] != 0
  }

  lemma BitsAt(b0: bool, b1: bool, b2: bool, b3: bool, b4: bool, b5: bool, b6: bool, b7: bool, j: nat)
    requires j < 8
    ensures BitOf(Bits(b0, b1, b2, b3, b4, b5, b6, b7), j) == [b0, b1, b2, b3, b4, b5, b6, b7][j]
  {
  }

  lemma {:induction false} HalfIsQuotient(n: nat, k: nat)
    ensures Power2(k) > 0 && Half(n, k) == n / Power2(k)
  {
    if k > 0 {
      HalfIsQuotient(n / 2, k - 1);
      TwiceHalved(n, Power2(k - 1));
    }
  }

  lemma TwiceHalved(n: nat, p: nat)
    requires p > 0
    ensures n / 2 / p == n / (2 * p)
  {
    var q := n / (2 * p);
    var r := n - 2 * p * q;
    assert n == (2 * p) * q + r && 0 <= r < 2 * p;
    assert n / 2 == p * q + r / 2 && 0 <= r / 2 < p;
    Quotient(n / 2, p, q, r / 2);
  }

  lemma Quotient(n: nat, p: nat, q: nat, r: nat)
    requires n == p * q + r && r < p
    ensures n / p == q
  {
    var d := n / p;
    assert n == p * d + n % p;
    TimesAscends(p, d, q);
    TimesAscends(p, q, d);
  }

  lemma TimesAscends(p: nat, a: nat, b: nat)
    ensures a < b ==> p * a + p <= p * b
  {
    if a < b {
      TimesAdds(p, a + 1, b - a - 1);
      TimesAdds(p, a, 1);
    }
  }

  lemma TimesAdds(p: nat, a: nat, b: nat)
    ensures p * (a + b) == p * a + p * b
  {
  }

  lemma {:induction false} HalvesAdd(n: nat, i: nat, j: nat)
    ensures Half(Half(n, i), j) == Half(n, i + j)
  {
    if i > 0 {
      HalvesAdd(n / 2, i - 1, j);
    }
  }

  lemma {:induction false} SizeBytesAt(n: nat, k: nat, i: nat)
    requires i < k
    ensures SizeBytes(n, k)[i] == Octet(Half(n, 8 * i))
    decreases k
  {
    hide Octet;
    if i > 0 {
      SizeBytesAt(Half(n, 8), k - 1, i - 1);
      HalvesAdd(n, 8, 8 * (i - 1));
    }
  }

  /** A size in memory: bit j of byte i is bit 8 i + j of the number. */
  lemma SizeBytesBits(n: nat, i: nat, j: nat)
    requires i < 8 && j < 8
    ensures Power2(8 * i + j) > 0 && BitOf(SizeBytes(n)[i], j) == Odd(n / Power2(8 * i + j))
  {
    SizeBytesAt(n, 8, i);
    HalvesAdd(n, 8 * i, j);
    HalfIsQuotient(n, 8 * i + j);
    OctetAt(Half(n, 8 * i), j);
    hide Octet, Half, BitOf, SizeBytes;
  }

  lemma OctetAt(m: nat, j: nat)
    requires j < 8
    ensures BitOf(Octet(m), j) == Odd(Half(m, j))
  {
    BitsAt(Odd(m), Odd(Half(m, 1)), Odd(Half(m, 2)), Odd(Half(m, 3)),
           Odd(Half(m, 4)), Odd(Half(m, 5)), Odd(Half(m, 6)), Odd(Half(m, 7)), j);
    NoHalf(m);
    hide Bits, BitOf, Half, Odd;
  }

  /** Seeds as they are hashed: each after its length. */
  function Item(seed: seq<byte>): seq<byte> {
    SizeBytes(|seed|) + seed
  }

  function Items(seeds: seq<seq<byte>>): seq<byte> {
    if seeds == [] then [] else Item(seeds[0]) + Items(seeds[1..])
  }

  predicate Sized(seeds: seq<seq<byte>>) {
    forall i :: 0 <= i < |seeds| ==> |seeds[i]| < SIZE_MAX
  }

  lemma SizeMaxIs()
    ensures Power256(8) == SIZE_MAX
  {
    assert Power256(4) == 0x1_0000_0000;
  }

  /** An item ends where its length says, so it can be told from what follows it. */
  lemma ItemDecides(a: seq<byte>, b: seq<byte>, x: seq<byte>, y: seq<byte>)
    requires |a| < SIZE_MAX && |b| < SIZE_MAX && Item(a) + x == Item(b) + y
    ensures a == b && x == y
  {
    hide SizeBytes;
    var s, m, n := Item(a) + x, |a|, |b|;
    assert s[..8] == SizeBytes(m) && s[..8] == SizeBytes(n);
    SizeMaxIs();
    SizeBytesInjective(m, n, 8);
    assert s[8..8 + m] == a && s[8..8 + m] == b;
    assert s[8 + m..] == x && s[8 + m..] == y;
  }

  /** The seeds can be told from what is hashed: no two lists of seeds look the same. */
  lemma {:induction false} ItemsInjective(a: seq<seq<byte>>, b: seq<seq<byte>>)
    requires Sized(a) && Sized(b) && Items(a) == Items(b)
    ensures a == b
  {
    ItemsNotEmpty(a);
    ItemsNotEmpty(b);
    if a != [] && b != [] {
      ItemDecides(a[0], b[0], Items(a[1..]), Items(b[1..]));
      ItemsInjective(a[1..], b[1..]);
      assert a == [a[0]] + a[1..] && b == [b[0]] + b[1..];
    }
    hide Item;
  }

  lemma ItemsNotEmpty(seeds: seq<seq<byte>>)
    ensures Items(seeds) == [] <==> seeds == []
  {
    hide SizeBytes;
  }

  const PREFIX := "SeedRNG v1 Old+New Prefix"

  function Ascii(s: string): (b: seq<byte>)
    ensures |b| == |s|
  {
    seq(|s|, i requires 0 <= i < |s| => (s[i] as int % 256) as byte)
  }

  /** All that a run hashes; the bytes drawn from the kernel are the last of the seeds. */
  function HashInput(realtime: seq<byte>, boottime: seq<byte>, seeds: seq<seq<byte>>): seq<byte> {
    Ascii(PREFIX) + realtime + boottime + Items(seeds)
  }

  /** The prefix comes first, then the real time, then the time since boot, then each seed with its
      length in eight bytes before it. */
  lemma HashInputLayout(realtime: seq<byte>, boottime: seq<byte>, seeds: seq<seq<byte>>)
    requires |realtime| == |boottime| == 16
    ensures var x := HashInput(realtime, boottime, seeds);
            && |x| >= 57 && x[..25] == Ascii("SeedRNG v1 Old+New Prefix") && x[25..41] == realtime && x[41..57] == boottime
            && x[57..] == Items(seeds)
  {
    assert |Ascii(PREFIX)| == 25;
    hide Ascii, Items;
  }

  lemma ItemsLayout(seeds: seq<seq<byte>>)
    ensures seeds == [] ==> Items(seeds) == []
    ensures seeds != [] ==>
              var x, n := Items(seeds), |seeds[0]|;
              && |x| >= 8 + n && x[..8] == SizeBytes(n) && x[8..8 + n] == seeds[0] && x[8 + n..] == Items(seeds[1..])
  {
    if seeds != [] {
      var size := SizeBytes(|seeds[0]|);
      hide SizeBytes;
      assert Items(seeds) == size + seeds[0] + Items(seeds[1..]);
    }
  }

  /** Runs that differ in a clock, an old seed or the drawn bytes hash different things. */
  lemma HashInputInjective(r: seq<byte>, b: seq<byte>, seeds: seq<seq<byte>>,
                           r': seq<byte>, b': seq<byte>, seeds': seq<seq<byte>>)
    requires |r| == |b| == |r'| == |b'| == 16 && Sized(seeds) && Sized(seeds')
    requires HashInput(r, b, seeds) == HashInput(r', b', seeds')
    ensures r == r' && b == b' && seeds == seeds'
  {
    hide Items, Ascii;
    var x, y, n := HashInput(r, b, seeds), HashInput(r', b', seeds'), |Ascii(PREFIX)|;
    assert x[n..n + 16] == r && y[n..n + 16] == r';
    assert x[n + 16..n + 32] == b && y[n + 16..n + 32] == b';
    assert x[n + 32..] == Items(seeds) && y[n + 32..] == Items(seeds');
    ItemsInjective(seeds, seeds');
  }

  method Absorb(state: State, bytes: seq<byte>)
    requires state.Valid()
    modifies state, state.h, state.t, state.buf
    ensures state.Valid() && state.fed == old(state.fed) + bytes && state.outlen == old(state.outlen)
  {
    hide Holds;
    var inp := new byte[|bytes|](i requires 0 <= i < |bytes| => bytes[i]);
    assert inp[..] == bytes;
    state.Update(inp);
  }

  lemma {:induction false} ItemsSnoc(seeds: seq<seq<byte>>, last: seq<byte>)
    ensures Items(seeds + [last]) == Items(seeds) + Item(last)
  {
    hide Item;
    if seeds == [] {
      assert [] + [last] == [last] && [last][1..] == [];
      assert Items([last]) == Item(last) + [];
    } else {
      ItemsSnoc(seeds[1..], last);
      assert (seeds + [last])[1..] == seeds[1..] + [last];
      var first, rest := Item(seeds[0]), Items(seeds[1..]);
      assert first + (rest + Item(last)) == (first + rest) + Item(last);
    }
  }

  lemma NoItems()
    ensures Items([]) == []
  {
  }

  /** The hashing in `main`: the digest of it all replaces the last bytes that were drawn. */
  method MakeSeed(realtime: seq<byte>, boottime: seq<byte>, seeds: seq<seq<byte>>, newSeed: array<byte>)
    requires newSeed.Length >= HASH_LEN
    modifies newSeed
    ensures var drawn := old(newSeed[..]);
            newSeed[..] == drawn[..|drawn| - HASH_LEN]
                        + Digest(HashInput(realtime, boottime, seeds + [drawn]), HASH_LEN)
  {
    hide Digest, Holds, Items, SizeBytes;
    ghost var drawn := newSeed[..];
    var state := new State(HASH_LEN);
    Absorb(state, Ascii(PREFIX));
    Absorb(state, realtime);
    Absorb(state, boottime);
    NoItems();
    assert seeds[..0] == [] && state.fed == HashInput(realtime, boottime, []);
    for i := 0 to |seeds|
      invariant state.Valid() && state.outlen == HASH_LEN && newSeed[..] == drawn
      invariant fresh(state) && fresh(state.h) && fresh(state.t) && fresh(state.f) && fresh(state.buf)
      invariant state.fed == HashInput(realtime, boottime, seeds[..i])
    {
      Absorb(state, SizeBytes(|seeds[i]|));
      Absorb(state, seeds[i]);
      ItemsSnoc(seeds[..i], seeds[i]);
      assert seeds[..i] + [seeds[i]] == seeds[..i + 1];
    }
    assert seeds[..|seeds|] == seeds;
    Absorb(state, SizeBytes(newSeed.Length));
    state.Update(newSeed);
    ItemsSnoc(seeds, drawn);
    assert state.fed == HashInput(realtime, boottime, seeds + [drawn]);
    state.Final(newSeed, newSeed.Length - HASH_LEN);
    assert newSeed[..] == newSeed[..newSeed.Length - HASH_LEN] + newSeed[newSeed.Length - HASH_LEN..];
  }
}

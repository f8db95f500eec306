/** The streaming BLAKE2s of the seed helper (early/helpers/seedrng.cc): a state updated in
    place that always keeps a last, non-empty block back. */
module Blake2s {
  import opened Blake2sSpec

  // Where the code spells an operation in its own way.

  /** `ror32`. */
  function Ror32(w: word, shift: nat): word
    requires 0 < shift < 32
  {
    (w >> shift) | (w << (32 - shift))
  }

  lemma Ror32IsRotation(w: word)
    ensures Ror32(w, 16) == RotR(w, 16) && Ror32(w, 12) == RotR(w, 12)
    ensures Ror32(w, 8) == RotR(w, 8) && Ror32(w, 7) == RotR(w, 7)
  {
  }

  lemma XorAssociates(a: word, b: word, c: word)
    ensures Xor(a, Xor(b, c)) == Xor(Xor(a, b), c)
  {
  }

  lemma XorZero(a: word)
    ensures Xor(a, 0) == a
  {
  }

  /** `G`, in place. */
  method Mix(v: array<word>, a: nat, b: nat, c: nat, d: nat, x: word, y: word)
    requires v.Length == 16 && a < 16 && b < 16 && c < 16 && d < 16
    modifies v
    ensures v[..] == G(old(v[..]), a, b, c, d, x, y)
  {
    hide Add, Xor, RotR, Ror32;
    ghost var s0 := v[..];
    v[a] := Add(v[a], Add(v[b], x));
    ghost var s1 := s0[a := Add(s0[a], Add(s0[b], x))];
    assert v[..] == s1;
    Ror32IsRotation(Xor(v[d], v[a]));
    v[d] := Ror32(Xor(v[d], v[a]), 16);
    ghost var s2 := s1[d := RotR(Xor(s1[d], s1[a]), 16)];
    assert v[..] == s2;
    v[c] := Add(v[c], v[d]);
    ghost var s3 := s2[c := Add(s2[c], s2[d])];
    assert v[..] == s3;
    Ror32IsRotation(Xor(v[b], v[c]));
    v[b] := Ror32(Xor(v[b], v[c]), 12);
    ghost var s4 := s3[b := RotR(Xor(s3[b], s3[c]), 12)];
    assert v[..] == s4;
    v[a] := Add(v[a], Add(v[b], y));
    ghost var s5 := s4[a := Add(s4[a], Add(s4[b], y))];
    assert v[..] == s5;
    Ror32IsRotation(Xor(v[d], v[a]));
    v[d] := Ror32(Xor(v[d], v[a]), 8);
    ghost var s6 := s5[d := RotR(Xor(s5[d], s5[a]), 8)];
    assert v[..] == s6;
    v[c] := Add(v[c], v[d]);
    ghost var s7 := s6[c := Add(s6[c], s6[d])];
    assert v[..] == s7;
    Ror32IsRotation(Xor(v[b], v[c]));
    v[b] := Ror32(Xor(v[b], v[c]), 7);
    assert v[..] == s7[b := RotR(Xor(s7[b], s7[c]), 7)];
  }

  /** `ROUND(r)`, in place. */
  method MixRound(v: array<word>, m: seq<word>, r: nat)
    requires v.Length == 16 && |m| == 16 && r < 10
    modifies v
    ensures r < |SIGMA| && Row(SIGMA[r]) && v[..] == Round(old(v[..]), m, SIGMA[r])
  {
    SigmaRows(r);
    hide Row, SIGMA, Columns, Diagonals;
    MixColumns(v, m, SIGMA[r]);
    MixDiagonals(v, m, SIGMA[r]);
  }

  method MixColumns(v: array<word>, m: seq<word>, s: seq<nat>)
    requires v.Length == 16 && |m| == 16 && Row(s)
    modifies v
    ensures v[..] == Columns(old(v[..]), m, s)
  {
    hide G;
    Mix(v, 0, 4, 8, 12, m[s[0]], m[s[1]]);
    Mix(v, 1, 5, 9, 13, m[s[2]], m[s[3]]);
    Mix(v, 2, 6, 10, 14, m[s[4]], m[s[5]]);
    Mix(v, 3, 7, 11, 15, m[s[6]], m[s[7]]);
  }

  method MixDiagonals(v: array<word>, m: seq<word>, s: seq<nat>)
    requires v.Length == 16 && |m| == 16 && Row(s)
    modifies v
    ensures v[..] == Diagonals(old(v[..]), m, s)
  {
    hide G;
    Mix(v, 0, 5, 10, 15, m[s[8]], m[s[9]]);
    Mix(v, 1, 6, 11, 12, m[s[10]], m[s[11]]);
    Mix(v, 2, 7, 8, 13, m[s[12]], m[s[13]]);
    Mix(v, 3, 4, 9, 14, m[s[14]], m[s[15]]);
  }

  ghost predicate CounterIs(t0: uint32, t1: uint32, total: nat) {
    t0 == Low(total) && t1 == High(total)
  }

  /** The two counter words carry the number of bytes compressed, modulo 2^64. */
  lemma CounterValue(t0: uint32, t1: uint32, total: nat)
    requires CounterIs(t0, t1, total)
    ensures t0 + WORD * t1 == total % (WORD * WORD)
  {
    var q := total / WORD;
    assert total == WORD * q + total % WORD;
    assert q == WORD * (q / WORD) + q % WORD;
    var w := WORD * t1 + t0;
    assert total == WORD * WORD * (q / WORD) + w;
    ModUnique(total, WORD * WORD, q / WORD, w);
  }

  lemma ModUnique(x: nat, m: nat, q: nat, r: nat)
    requires 0 <= r < m && x == m * q + r
    ensures x / m == q && x % m == r
  {
    var q', r' := x / m, x % m;
    assert x == m * q' + r';
    assert m * q' == m * q + m * (q' - q) && m * q == m * q' + m * (q - q');
    if q' > q { TimesAtLeast(m, q' - q); }
    if q' < q { TimesAtLeast(m, q - q'); }
  }

  lemma TimesAtLeast(m: nat, d: nat)
    requires d >= 1
    ensures m * d >= m
  {
  }

  /** The carry: the low word wrapped exactly when it came out smaller than the increment. */
  lemma CarryIsExact(total: nat, inc: uint32)
    ensures var t0 := (Low(total) + inc) % WORD;
            t0 == Low(total + inc) && High(total + inc) == (High(total) + if t0 < inc then 1 else 0) % WORD
  {
    var q, r := total / WORD, total % WORD;
    var carry := if r + inc >= WORD then 1 else 0;
    ModUnique(total + inc, WORD, q + carry, r + inc - carry * WORD);
    ModUnique(r + inc, WORD, carry, r + inc - carry * WORD);
    var q1, r1 := q / WORD, q % WORD;
    var c2 := if r1 + carry >= WORD then 1 else 0;
    ModUnique(q + carry, WORD, q1 + c2, r1 + carry - c2 * WORD);
    ModUnique(r1 + carry, WORD, c2, r1 + carry - c2 * WORD);
  }

  /** How much of a message of `n` bytes has been compressed: all whole blocks but the last
      one, so a non-empty message always leaves 1 to 64 bytes in the buffer. */
  function Done(n: nat): (d: nat)
    ensures d % 64 == 0 && d <= n && (n == 0 ==> d == 0) && (n > 0 ==> 1 <= n - d <= 64)
  {
    if n == 0 then 0 else (n - 1) / 64 * 64
  }

  lemma DoneUnique(n: nat, d: nat)
    requires d % 64 == 0 && d <= n && (n == 0 ==> d == 0) && (n > 0 ==> 1 <= n - d <= 64)
    ensures d == Done(n)
  {
  }

  /** `c` bytes of a message have been compressed and the next ones are buffered. */
  ghost predicate At(h: seq<word>, t0: uint32, t1: uint32, held: seq<byte>, outlen: nat, msg: seq<byte>, c: nat) {
    && outlen <= 32 && c % 64 == 0 && c + |held| <= |msg|
    && held == msg[c..c + |held|]
    && h == Chain(InitialState(outlen), msg, c / 64)
    && CounterIs(t0, t1, c)
  }

  /** The state reached by any sequence of updates that fed `msg`: all of it is accounted for,
      and the last block is held back. */
  ghost predicate Holds(h: seq<word>, t0: uint32, t1: uint32, buf: seq<byte>, buflen: nat, outlen: nat, msg: seq<byte>) {
    && |buf| == 64 && buflen <= 64 && Done(|msg|) + buflen == |msg|
    && At(h, t0, t1, buf[..buflen], outlen, msg, Done(|msg|))
  }

  /** More input leaves what was compressed as it is. */
  lemma AtExtends(h: seq<word>, t0: uint32, t1: uint32, held: seq<byte>, outlen: nat, msg: seq<byte>, c: nat, more: seq<byte>)
    requires At(h, t0, t1, held, outlen, msg, c)
    ensures At(h, t0, t1, held, outlen, msg + more, c)
  {
    hide F, CounterIs, InitialState;
    ChainExtends(InitialState(outlen), msg, more, c / 64);
    assert (msg + more)[c..c + |held|] == msg[c..c + |held|];
  }

  /** Buffering the bytes that follow. */
  lemma AtBuffered(h: seq<word>, t0: uint32, t1: uint32, held: seq<byte>, outlen: nat, msg: seq<byte>, c: nat, next: seq<byte>)
    requires At(h, t0, t1, held, outlen, msg, c)
    requires c + |held| + |next| <= |msg| && next == msg[c + |held|..c + |held| + |next|]
    ensures At(h, t0, t1, held + next, outlen, msg, c)
  {
    hide F, CounterIs, InitialState, Chain;
    assert held + next == msg[c..c + |held + next|];
  }

  /** Compressing the next `k` blocks of the message. */
  lemma AtCompressed(h: seq<word>, t0: uint32, t1: uint32, held: seq<byte>, outlen: nat, msg: seq<byte>, c: nat,
                     data: seq<byte>, k: nat, h': seq<word>, t0': uint32, t1': uint32, c': nat)
    requires At(h, t0, t1, held, outlen, msg, c) && |h| == 8
    requires c' == c + 64 * k <= |msg| && |data| == 64 * k && data == msg[c..c']
    requires h' == Blocks(h, data, c, 64, false, k) && CounterIs(t0', t1', c')
    ensures At(h', t0', t1', [], outlen, msg, c')
  {
    hide F, CounterIs;
    var j := c / 64;
    BlocksContinueChain(InitialState(outlen), msg, j, k);
    assert data[..64 * k] == msg[64 * j..][..64 * k];
    BlocksPrefix(h, data, msg[64 * j..], c, 64, false, k);
    assert c' / 64 == j + k;
  }

  /** Blocks compressed one after the other, the counter going up by `inc` for each. */
  function Blocks(h: seq<word>, data: seq<byte>, t: nat, inc: nat, last: bool, k: nat): (r: seq<word>)
    requires |h| == 8 && 64 * k <= |data|
    ensures |r| == 8
  {
    hide F;
    if k == 0 then h
    else F(Blocks(h, data, t, inc, last, k - 1), data[64 * (k - 1)..64 * k], t + k * inc, last)
  }

  /** The last-block flag word. */
  function FlagWord(last: bool): word { if last then 0xFFFF_FFFF else 0 }

  lemma {:induction false} ChainExtends(h: seq<word>, msg: seq<byte>, more: seq<byte>, k: nat)
    requires |h| == 8 && 64 * k <= |msg|
    ensures Chain(h, msg + more, k) == Chain(h, msg, k)
  {
    hide F;
    if k > 0 {
      ChainExtends(h, msg, more, k - 1);
      assert (msg + more)[64 * (k - 1)..64 * k] == msg[64 * (k - 1)..64 * k];
    }
  }

  /** Compressing the next `k` blocks of a message continues its chain. */
  lemma {:induction false} BlocksContinueChain(h: seq<word>, msg: seq<byte>, j: nat, k: nat)
    requires |h| == 8 && 64 * (j + k) <= |msg|
    ensures Blocks(Chain(h, msg, j), msg[64 * j..], 64 * j, 64, false, k) == Chain(h, msg, j + k)
  {
    hide F;
    if k > 0 {
      BlocksContinueChain(h, msg, j, k - 1);
      assert msg[64 * j..][64 * (k - 1)..64 * k] == msg[64 * (j + k - 1)..64 * (j + k)];
      assert 64 * j + k * 64 == 64 * (j + k);
    }
  }

  lemma {:induction false} BlocksPrefix(h: seq<word>, a: seq<byte>, b: seq<byte>, t: nat, inc: nat, last: bool, k: nat)
    requires |h| == 8 && 64 * k <= |a| && 64 * k <= |b| && a[..64 * k] == b[..64 * k]
    ensures Blocks(h, a, t, inc, last, k) == Blocks(h, b, t, inc, last, k)
  {
    hide F;
    if k > 0 {
      assert a[..64 * (k - 1)] == a[..64 * k][..64 * (k - 1)] == b[..64 * (k - 1)];
      BlocksPrefix(h, a, b, t, inc, last, k - 1);
      assert a[64 * (k - 1)..64 * k] == a[..64 * k][64 * (k - 1)..] == b[64 * (k - 1)..64 * k];
    }
  }

  /** `blake2s_state`. The ghost field is the message fed so far. */
  class State {
    const h: array<word>
    const t: array<uint32>
    const f: array<word>
    const buf: array<byte>
    var buflen: nat
    var outlen: nat
    ghost var fed: seq<byte>

    ghost predicate Shape()
      reads this
    {
      && h.Length == 8 && t.Length == 2 && f.Length == 2 && buf.Length == 64 && outlen <= 32
      && h != f && Apart(t) && Apart(buf) && (t as object) != buf
    }

    /** An array that is neither `h` nor `f`. */
    ghost predicate Apart(a: object)
    {
      a != h && a != f
    }

    /** Between updates. */
    ghost predicate Valid()
      reads this, h, t, f, buf
    {
      Shape() && f[0] == 0 && f[1] == 0 && Holds(h[..], t[0], t[1], buf[..], buflen, outlen, fed)
    }

    /** `blake2s_init`. */
    constructor (outlen: nat)
      requires outlen <= 32
      ensures Valid() && fed == [] && this.outlen == outlen
      ensures fresh(h) && fresh(t) && fresh(f) && fresh(buf)
    {
      IvLength();
      hide IV, Holds;
      h := new word[8](i requires 0 <= i < 8 => IV[i]);
      t := new uint32[2](_ => 0);
      f := new word[2](_ => 0);
      buf := new byte[64](_ => 0);
      this.buflen, this.outlen, this.fed := 0, outlen, [];
      new;
      h[0] := Xor(h[0], 0x0101_0000 | (outlen as word));
      assert h[..] == InitialState(outlen);
      EmptyHolds(h[..], t[0], t[1], buf[..], outlen);
    }

    /** `blake2s_increment_counter`. */
    method IncrementCounter(inc: uint32, ghost total: nat)
      requires Shape() && CounterIs(t[0], t[1], total)
      modifies t
      ensures CounterIs(t[0], t[1], total + inc)
    {
      CarryIsExact(total, inc);
      t[0] := (t[0] + inc) % WORD;
      t[1] := (t[1] + if t[0] < inc then 1 else 0) % WORD;
    }

    /** The body of `blake2s_compress`: one block against the current counter. */
    method CompressBlock(block: array<byte>, off: nat, ghost total: nat, ghost last: bool)
      requires Shape() && off + 64 <= block.Length
      requires f[0] == FlagWord(last) && f[1] == 0 && CounterIs(t[0], t[1], total)
      modifies h
      ensures h[..] == F(old(h[..]), block[off..off + 64], total, last)
    {
      hide F, Rounds, Words, XorHalves, Word, Round;
      ghost var h0, data := h[..], block[off..off + 64];
      var m := new word[16];
      for i := 0 to 16
        invariant m[..i] == Words(data)[..i]
        invariant h[..] == h0
      {
        m[i] := Word(block[off + 4 * i], block[off + 4 * i + 1], block[off + 4 * i + 2], block[off + 4 * i + 3]);
        assert m[i] == Words(data)[i];
      }
      assert m[..] == m[..16] == Words(data);
      var v := new word[16];
      FillWork(v, total, last);
      ghost var v0 := v[..];
      RoundsStep(v0, m[..], 0);
      for r := 0 to 10
        invariant v[..] == Rounds(v0, m[..], r)
        invariant m[..] == Words(data) && h[..] == h0
      {
        MixRound(v, m[..], r);
        RoundsStep(v0, m[..], r);
      }
      FoldWork(v);
      FIs(h0, data, total, last);
    }

    /** The set-up of the work vector. */
    method FillWork(v: array<word>, ghost total: nat, ghost last: bool)
      requires Shape() && v.Length == 16 && v != h && v != f
      requires f[0] == FlagWord(last) && f[1] == 0 && CounterIs(t[0], t[1], total)
      modifies v
      ensures v[..] == WorkVector(h[..], total, last)
    {
      WorkVectorIs(h[..], total, last);
      hide Xor, IV, WorkVector;
      for i := 0 to 8
        invariant forall j :: 0 <= j < i ==> v[j] == h[j]
      {
        v[i] := h[i];
      }
      v[8] := IV[0];
      v[9] := IV[1];
      v[10] := IV[2];
      v[11] := IV[3];
      v[12] := Xor(IV[4], t[0] as word);
      v[13] := Xor(IV[5], t[1] as word);
      v[14] := Xor(IV[6], f[0]);
      v[15] := Xor(IV[7], f[1]);
      Assembled(v[..], h[..]);
    }

    /** The feed-forward of the two halves into the state. */
    method FoldWork(v: array<word>)
      requires Shape() && v.Length == 16 && v != h
      modifies h
      ensures h[..] == XorHalves(old(h[..]), v[..])
    {
      hide Xor;
      for i := 0 to 8
        invariant forall j :: 0 <= j < i ==> h[j] == Xor(Xor(old(h[j]), v[j]), v[j + 8])
        invariant forall j :: i <= j < 8 ==> h[j] == old(h[j])
      {
        XorAssociates(h[i], v[i], v[i + 8]);
        h[i] := Xor(h[i], Xor(v[i], v[i + 8]));
      }
    }

    /** `blake2s_compress`: `nblocks` blocks from position `off` on. */
    method Compress(block: array<byte>, off: nat, nblocks: nat, inc: uint32, ghost total: nat, ghost after: nat, ghost last: bool)
      requires Shape() && off + 64 * nblocks <= block.Length && Apart(block) && (block as object) != t
      requires f[0] == FlagWord(last) && f[1] == 0 && CounterIs(t[0], t[1], total) && after == total + nblocks * inc
      modifies h, t
      ensures CounterIs(t[0], t[1], after)
      ensures h[..] == Blocks(old(h[..]), block[off..off + 64 * nblocks], total, inc, last, nblocks)
    {
      hide F, CounterIs;
      ghost var data, h0, now := block[off..off + 64 * nblocks], h[..], total;
      var left, at := nblocks, off;
      ghost var k := 0;
      while left > 0
        invariant left == nblocks - k && at == off + 64 * k && now == total + k * inc
        invariant CounterIs(t[0], t[1], now)
        invariant f[0] == FlagWord(last) && f[1] == 0 && block[off..off + 64 * nblocks] == data
        invariant h[..] == Blocks(h0, data, total, inc, last, k)
      {
        IncrementCounter(inc, now);
        now := now + inc;
        assert now == total + (k + 1) * inc;
        CompressBlock(block, at, now, last);
        SliceOfSlice(block[..], off, 64 * nblocks, 64 * k, at);
        assert block[at..at + 64] == data[64 * k..64 * (k + 1)];
        BlocksStep(h0, data, total, inc, last, k, now);
        at := at + 64;
        left := left - 1;
        k := k + 1;
      }
      assert k == nblocks && now == after;
    }
  
    /** Mid-update: `c` bytes of `msg` compressed, `buflen` more in the buffer. */
    ghost predicate Reached(msg: seq<byte>, c: nat)
      reads this, h, t, f, buf
    {
      && Shape() && f[0] == 0 && f[1] == 0 && buflen <= 64
      && At(h[..], t[0], t[1], buf[..buflen], outlen, msg, c)
    }

    /** `memcpy(buf + buflen, in, n)`. */
    method Buffer(inp: array<byte>, from: nat, n: nat, ghost msg: seq<byte>, ghost c: nat)
      requires Reached(msg, c) && buflen + n <= 64 && from + n <= inp.Length && inp != buf
      requires c + buflen + n <= |msg| && inp[from..from + n] == msg[c + buflen..c + buflen + n]
      modifies buf, `buflen
      ensures Reached(msg, c) && buflen == old(buflen) + n
    {
      hide At;
      ghost var h0, t0, t1, held, next := h[..], t[0], t[1], buf[..buflen], inp[from..from + n];
      AtBuffered(h0, t0, t1, held, outlen, msg, c, next);
      forall i | 0 <= i < n { buf[buflen + i] := inp[from + i]; }
      assert buf[..buflen + n] == held + next;
      assert h[..] == h0;
      buflen := buflen + n;
    }

    /** Blocks of the message are compressed, from the buffer when it is full or from the input. */
    method CompressMessage(block: array<byte>, off: nat, nblocks: nat, ghost msg: seq<byte>, ghost c: nat, ghost c': nat)
      requires Reached(msg, c) && off + 64 * nblocks <= block.Length && Apart(block) && (block as object) != t
      requires c' == c + 64 * nblocks <= |msg| && block[off..off + 64 * nblocks] == msg[c..c']
      modifies h, t
      ensures f[0] == 0 && f[1] == 0 && At(h[..], t[0], t[1], [], outlen, msg, c')
    {
      ghost var h0, t0, t1, held, data := h[..], t[0], t[1], buf[..buflen], block[off..off + 64 * nblocks];
      AtCounter(h0, t0, t1, held, outlen, msg, c);
      hide At, F, CounterIs, Blocks;
      Compress(block, off, nblocks, 64, c, c', false);
      AtCompressed(h0, t0, t1, held, outlen, msg, c, data, nblocks, h[..], t[0], t[1], c');
    }
  
    /** Mid-update: everything up to position `pos` of the input, with which the message ends,
        is compressed or buffered. */
    ghost predicate Consumed(msg: seq<byte>, c: nat, inp: seq<byte>, pos: nat)
      reads this, h, t, f, buf
    {
      Reached(msg, c) && pos <= |inp| <= |msg| && c + buflen == |msg| - |inp| + pos && msg[|msg| - |inp|..] == inp
    }

    /** The first half of an update: a full buffer is compressed when more follows it. */
    method Flush(inp: array<byte>, ghost msg: seq<byte>, ghost c: nat) returns (pos: nat, ghost c': nat)
      requires Consumed(msg, c, inp[..], 0) && Apart(inp) && (inp as object) != t && inp != buf && inp.Length > 0
      modifies h, t, buf, `buflen
      ensures Consumed(msg, c', inp[..], pos) && pos < inp.Length
      ensures (pos == 0 && buflen + inp.Length <= 64) || buflen == 0
    {
      hide At;
      var fill := 64 - buflen;
      pos, c' := 0, c;
      if inp.Length > fill {
        ghost var input, to := inp[..], c + 64;
        InputSlice(msg, input, 0, fill, c + buflen, to);
        assert inp[0..0 + fill] == input[0..0 + fill];
        assert c + buflen + fill == to;
        Buffer(inp, 0, fill, msg, c);
        assert buf[0..0 + 64 * 1] == buf[..buflen];
        AtHolds(h[..], t[0], t[1], buf[..buflen], outlen, msg, c);
        CompressMessage(buf, 0, 1, msg, c, to);
        buflen := 0;
        assert buf[..buflen] == [];
        pos, c' := fill, to;
        assert inp[..] == input;
      }
    }

    /** The second half: whole blocks are compressed where they are, but never the last one. */
    method Bulk(inp: array<byte>, pos: nat, ghost msg: seq<byte>, ghost c: nat) returns (pos': nat, ghost c': nat)
      requires Consumed(msg, c, inp[..], pos) && Apart(inp) && (inp as object) != t && inp != buf && pos < inp.Length
      requires buflen + (inp.Length - pos) <= 64 || buflen == 0
      modifies h, t
      ensures Consumed(msg, c', inp[..], pos') && pos' < inp.Length && buflen + (inp.Length - pos') <= 64
    {
      hide At;
      var left := inp.Length - pos;
      pos', c' := pos, c;
      if left > 64 {
        var nblocks := (left + 63) / 64;
        var bulk := 64 * (nblocks - 1);
        ghost var input, to := inp[..], c + bulk;
        InputSlice(msg, input, pos, bulk, c, to);
        assert inp[pos..pos + bulk] == input[pos..pos + bulk];
        CompressMessage(inp, pos, nblocks - 1, msg, c, to);
        assert buf[..buflen] == [];
        pos', c' := pos + bulk, to;
        assert inp[..] == input;
      }
    }

    /** The end: what is left goes to the buffer. */
    method KeepRest(inp: array<byte>, pos: nat, ghost msg: seq<byte>, ghost c: nat)
      requires Consumed(msg, c, inp[..], pos) && inp != buf && pos < inp.Length && buflen + (inp.Length - pos) <= 64
      modifies buf, `buflen
      ensures Reached(msg, c) && 0 < buflen && c + buflen == |msg|
    {
      hide At;
      var left := inp.Length - pos;
      ghost var to := |msg|;
      InputSlice(msg, inp[..], pos, left, c + buflen, to);
      assert inp[pos..pos + left] == inp[..][pos..pos + left] && c + buflen + left == to;
      Buffer(inp, pos, left, msg, c);
    }

    /** `blake2s_update`: the buffer is emptied once it is full and more follows, whole blocks
        of the input are compressed where they are, and what is left, at least one byte, is
        held back. */
    method Update(inp: array<byte>)
      requires Valid() && Apart(inp) && (inp as object) != t && inp != buf
      modifies this, h, t, buf
      ensures Valid() && fed == old(fed) + inp[..] && outlen == old(outlen)
    {
      hide At, Holds;
      ghost var input, msg, c := inp[..], fed + inp[..], Done(|fed|);
      UpdateStarts(h[..], t[0], t[1], buf[..], buflen, outlen, fed, input);
      if inp.Length == 0 {
        assert msg == fed;
        return;
      }
      fed := msg;
      assert Consumed(msg, c, input, 0);
      var pos;
      pos, c := Flush(inp, msg, c);
      pos, c := Bulk(inp, pos, msg, c);
      KeepRest(inp, pos, msg, c);
      UpdateEnds(h[..], t[0], t[1], buf[..], buflen, outlen, msg, c);
    }

    /** `memset(buf + buflen, 0, 64 - buflen)`. */
    method Pad()
      requires Shape() && buflen <= 64
      modifies buf
      ensures buf[..] == old(buf[..buflen]) + Zeros(64 - buflen)
    {
      forall i | buflen <= i < 64 { buf[i] := 0; }
    }

    /** Setting the last-block flag and padding the buffer. */
    method PrepareLast()
      requires Valid()
      modifies f, buf
      ensures Shape() && f[0] == FlagWord(true) && f[1] == 0
      ensures CounterIs(t[0], t[1], Done(|fed|)) && Done(|fed|) + buflen == |fed|
      ensures h[..] == Chain(InitialState(outlen), fed, Done(|fed|) / 64)
      ensures buf[..] == fed[Done(|fed|)..] + Zeros(64 - buflen)
    {
      LastFacts(h[..], t[0], t[1], buf[..], buflen, outlen, fed);
      hide Holds, CounterIs, Chain;
      ghost var h0 := h[..];
      f[0] := 0xFFFF_FFFF;
      Pad();
      assert h[..] == h0;
    }

    /** The compression of the last block. */
    method CompressLast()
      requires Valid()
      modifies h, t, f, buf
      ensures h[..] == LastState(old(fed), outlen)
    {
      hide Holds, CounterIs, F, LastState, Blocks, Chain;
      PrepareLast();
      ghost var block := buf[0..0 + 64 * 1];
      assert block == buf[..];
      LastBlock(h[..], fed[Done(|fed|)..], outlen, fed, Done(|fed|), block, buflen);
      Compress(buf, 0, 1, buflen, Done(|fed|), |fed|, true);
    }

    /** The words of the state written out, least significant byte first. */
    method PutWords(out: array<byte>, at: nat)
      requires Shape() && at + outlen <= out.Length && Apart(out)
      modifies out
      ensures out[at..at + outlen] == Serialized(h[..])[..outlen]
      ensures out[..at] == old(out[..at]) && out[at + outlen..] == old(out[at + outlen..])
    {
      ghost var words := h[..];
      for i := 0 to outlen
        invariant h[..] == words
        invariant forall j :: 0 <= j < i ==> out[at + j] == Serialized(words)[j]
        invariant forall j :: 0 <= j < out.Length && (j < at || at + outlen <= j) ==> out[j] == old(out[j])
      {
        SerializedAt(words, i);
        out[at + i] := Bytes(h[i / 4])[i % 4];
      }
    }

    /** `blake2s_final`: the digest of everything fed, in place of the bytes at `at`. */
    method Final(out: array<byte>, at: nat)
      requires Valid() && at + outlen <= out.Length && Apart(out) && (out as object) != t && out != buf
      modifies h, t, f, buf, out
      ensures out[at..at + outlen] == Digest(fed, outlen)
      ensures out[..at] == old(out[..at]) && out[at + outlen..] == old(out[at + outlen..])
    {
      hide LastState, Digest, Holds, Serialized;
      ghost var before := out[..];
      CompressLast();
      assert out[..] == before;
      PutWords(out, at);
      LastIsDigest(fed, outlen);
    }
  }

  /** The state after the last block of a message. */
  ghost function LastState(msg: seq<byte>, outlen: nat): (h: seq<word>)
    requires outlen <= 32
    ensures |h| == 8
  {
    hide F, Chain;
    var c := Done(|msg|);
    F(Chain(InitialState(outlen), msg, c / 64), msg[c..] + Zeros(c + 64 - |msg|), |msg|, true)
  }

  lemma LastFacts(h: seq<word>, t0: uint32, t1: uint32, buf: seq<byte>, buflen: nat, outlen: nat, msg: seq<byte>)
    requires Holds(h, t0, t1, buf, buflen, outlen, msg)
    ensures |buf| == 64 && buflen <= 64 && outlen <= 32 && Done(|msg|) + buflen == |msg|
    ensures buf[..buflen] == msg[Done(|msg|)..] && CounterIs(t0, t1, Done(|msg|))
    ensures h == Chain(InitialState(outlen), msg, Done(|msg|) / 64)
  {
    hide Chain, CounterIs, InitialState;
  }

  lemma LastBlock(h: seq<word>, held: seq<byte>, outlen: nat, msg: seq<byte>, c: nat, block: seq<byte>, inc: nat)
    requires outlen <= 32 && c == Done(|msg|) && held == msg[c..] && h == Chain(InitialState(outlen), msg, c / 64)
    requires inc == |held| && block == held + Zeros(64 - inc)
    ensures |block| == 64 && Blocks(h, block, c, inc, true, 1) == LastState(msg, outlen)
  {
    hide F, Chain, InitialState, Blocks;
    OneBlock(h, block, c, inc, true, |msg|);
  }

  lemma OneBlock(h: seq<word>, block: seq<byte>, t: nat, inc: nat, last: bool, now: nat)
    requires |h| == 8 && |block| == 64 && now == t + inc
    ensures Blocks(h, block, t, inc, last, 1) == F(h, block, now, last)
  {
    hide F;
    assert block[64 * 0..64 * 1] == block;
    assert Blocks(h, block, t, inc, last, 0) == h;
    assert t + 1 * inc == now;
  }

  /** Holding the last block back and padding it is the one-shot definition. */
  lemma LastIsDigest(msg: seq<byte>, outlen: nat)
    requires outlen <= 32
    ensures Serialized(LastState(msg, outlen))[..outlen] == Digest(msg, outlen)
  {
    hide F, InitialState;
    var c := Done(|msg|);
    var dd := if msg == [] then 1 else (|msg| + 63) / 64;
    assert 64 * (dd - 1) == c;
    var padding := Zeros(64 * dd - |msg|);
    ChainExtends(InitialState(outlen), msg, padding, dd - 1);
    assert (msg + padding)[c..] == msg[c..] + padding;
  }

  lemma {:induction false} SerializedAt(h: seq<word>, i: nat)
    requires i < 4 * |h|
    ensures Serialized(h)[i] == Bytes(h[i / 4])[i % 4]
  {
    hide Bytes;
    if i >= 4 {
      SerializedAt(h[1..], i - 4);
      assert (i - 4) / 4 == i / 4 - 1 && (i - 4) % 4 == i % 4;
    }
  }

  /** A stretch of the input is a stretch of the message that ends with it. */
  lemma InputSlice(msg: seq<byte>, inp: seq<byte>, pos: nat, n: nat, a: nat, b: nat)
    requires pos + n <= |inp| <= |msg| && msg[|msg| - |inp|..] == inp
    requires a == |msg| - |inp| + pos && b == a + n
    ensures msg[a..b] == inp[pos..pos + n]
  {
    assert inp[pos..pos + n] == msg[|msg| - |inp|..][pos..pos + n];
  }

  lemma AtHolds(h: seq<word>, t0: uint32, t1: uint32, held: seq<byte>, outlen: nat, msg: seq<byte>, c: nat)
    requires At(h, t0, t1, held, outlen, msg, c)
    ensures c + |held| <= |msg| && held == msg[c..c + |held|]
  {
    hide Chain, CounterIs;
  }

  /** More input leaves what was reached as it is. */
  lemma UpdateStarts(h: seq<word>, t0: uint32, t1: uint32, buf: seq<byte>, buflen: nat, outlen: nat, fed: seq<byte>, inp: seq<byte>)
    requires Holds(h, t0, t1, buf, buflen, outlen, fed)
    ensures buflen <= 64 && |buf| == 64 && Done(|fed|) + buflen == |fed|
    ensures At(h, t0, t1, buf[..buflen], outlen, fed + inp, Done(|fed|))
  {
    hide At;
    AtExtends(h, t0, t1, buf[..buflen], outlen, fed, Done(|fed|), inp);
  }

  /** Once the whole message is compressed or buffered, with the last block held back. */
  lemma UpdateEnds(h: seq<word>, t0: uint32, t1: uint32, buf: seq<byte>, buflen: nat, outlen: nat, msg: seq<byte>, c: nat)
    requires |buf| == 64 && buflen <= 64 && c + buflen == |msg| && (buflen == 0 ==> c == 0)
    requires At(h, t0, t1, buf[..buflen], outlen, msg, c)
    ensures Holds(h, t0, t1, buf, buflen, outlen, msg)
  {
    hide Chain, CounterIs;
    DoneUnique(|msg|, c);
  }

  lemma AtCounter(h: seq<word>, t0: uint32, t1: uint32, held: seq<byte>, outlen: nat, msg: seq<byte>, c: nat)
    requires At(h, t0, t1, held, outlen, msg, c)
    ensures CounterIs(t0, t1, c)
  {
  }

  lemma SliceOfSlice(b: seq<byte>, off: nat, n: nat, i: nat, at: nat)
    requires off + n <= |b| && i + 64 <= n && at == off + i
    ensures b[at..at + 64] == b[off..off + n][i..i + 64]
  {
    var outer, inner := b[off..off + n], b[at..at + 64];
    forall j | 0 <= j < 64 ensures inner[j] == outer[i..i + 64][j] {
      assert outer[i + j] == b[off + (i + j)];
    }
  }

  lemma BlocksStep(h: seq<word>, data: seq<byte>, t: nat, inc: nat, last: bool, k: nat, now: nat)
    requires |h| == 8 && 64 * (k + 1) <= |data| && now == t + (k + 1) * inc
    ensures Blocks(h, data, t, inc, last, k + 1) == F(Blocks(h, data, t, inc, last, k), data[64 * k..64 * (k + 1)], now, last)
  {
    hide F;
  }

  lemma Assembled(v: seq<word>, h: seq<word>)
    requires |v| == 16 && |h| == 8 && forall j :: 0 <= j < 8 ==> v[j] == h[j]
    ensures v == h + [v[8], v[9], v[10], v[11], v[12], v[13], v[14], v[15]]
  {
    assert v[..8] == h;
    assert v[8..] == [v[8], v[9], v[10], v[11], v[12], v[13], v[14], v[15]];
    assert v == v[..8] + v[8..];
  }

  lemma WorkVectorIs(h: seq<word>, total: nat, last: bool)
    requires |h| == 8
    ensures |IV| == 8
    ensures WorkVector(h, total, last) == h + [IV[0], IV[1], IV[2], IV[3],
      Xor(IV[4], Low(total) as word), Xor(IV[5], High(total) as word), Xor(IV[6], FlagWord(last)), Xor(IV[7], 0)]
  {
    IvLength();
    XorZero(IV[6]);
    XorZero(IV[7]);
    hide Xor, IV, Low, High;
    var w := h + IV;
    assert w[12] == IV[4] && w[13] == IV[5] && w[14] == IV[6] && w[15] == IV[7];
  }

  lemma RoundsStep(v: seq<word>, m: seq<word>, r: nat)
    requires |v| == 16 && |m| == 16 && r < 10
    ensures Rounds(v, m, 0) == v
    ensures r < |SIGMA| && Row(SIGMA[r]) && Rounds(v, m, r + 1) == Round(Rounds(v, m, r), m, SIGMA[r])
  {
    SigmaRows(r);
    hide Round, SIGMA;
  }

  lemma FIs(h: seq<word>, block: seq<byte>, t: nat, last: bool)
    requires |h| == 8 && |block| == 64
    ensures F(h, block, t, last) == XorHalves(h, Rounds(WorkVector(h, t, last), Words(block), 10))
  {
  }

  lemma IvLength()
    ensures |IV| == 8
  {
  }

  lemma EmptyHolds(h: seq<word>, t0: uint32, t1: uint32, buf: seq<byte>, outlen: nat)
    requires |buf| == 64 && outlen <= 32 && h == InitialState(outlen) && t0 == 0 && t1 == 0
    ensures Holds(h, t0, t1, buf, 0, outlen, [])
  {
  }

  /** What the state holds after a non-empty message, in numbers: the buffer has the last 1 to
      64 bytes, the counter words the number of bytes before them modulo 2^64, and `h` is the
      chain over the blocks before them. */
  lemma HeldBack(h: seq<word>, t0: uint32, t1: uint32, buf: seq<byte>, buflen: nat, outlen: nat, msg: seq<byte>)
    requires Holds(h, t0, t1, buf, buflen, outlen, msg) && msg != []
    ensures 1 <= buflen <= 64 && buflen <= |msg| && buflen == |msg| - 64 * ((|msg| + 63) / 64 - 1)
    ensures |buf| == 64 && buf[..buflen] == msg[|msg| - buflen..]
    ensures t0 + WORD * t1 == (|msg| - buflen) % (WORD * WORD)
    ensures outlen <= 32 && h == Chain(InitialState(outlen), msg, (|msg| - buflen) / 64)
  {
    hide Chain, CounterIs;
    LastFacts(h, t0, t1, buf, buflen, outlen, msg);
    CounterValue(t0, t1, Done(|msg|));
  }

  function Flatten(chunks: seq<seq<byte>>): seq<byte> {
    if chunks == [] then [] else chunks[0] + Flatten(chunks[1..])
  }

  lemma {:induction false} FlattenSnoc(chunks: seq<seq<byte>>, last: seq<byte>)
    ensures Flatten(chunks + [last]) == Flatten(chunks) + last
  {
    if chunks == [] {
      assert Flatten([last]) == last + Flatten([last][1..]);
    } else {
      assert (chunks + [last])[1..] == chunks[1..] + [last];
      FlattenSnoc(chunks[1..], last);
    }
  }

  /** Feeding a message in any pieces, empty ones included, gives the digest of the message. */
  method HashChunks(chunks: seq<seq<byte>>, outlen: nat) returns (digest: seq<byte>)
    requires outlen <= 32
    ensures digest == Digest(Flatten(chunks), outlen)
  {
    hide Digest, Holds;
    var state := new State(outlen);
    for i := 0 to |chunks|
      invariant state.Valid() && state.fed == Flatten(chunks[..i]) && state.outlen == outlen
      invariant fresh(state) && fresh(state.h) && fresh(state.t) && fresh(state.f) && fresh(state.buf)
    {
      var chunk := chunks[i];
      var inp := new byte[|chunk|](k requires 0 <= k < |chunk| => chunk[k]);
      assert inp[..] == chunk;
      state.Update(inp);
      FlattenSnoc(chunks[..i], chunk);
      assert chunks[..i] + [chunk] == chunks[..i + 1];
    }
    assert chunks[..|chunks|] == chunks;
    var out := new byte[outlen];
    state.Final(out, 0);
    digest := out[..];
    assert out[0..0 + outlen] == out[..];
  }
}

/** Unkeyed BLAKE2s as sections 2 and 3 of RFC 7693 define it: one message, hashed in one go. */
module Blake2sSpec {

  const WORD: int := 0x1_0000_0000

  type word = bv32
  type uint32 = x: int | 0 <= x < 0x1_0000_0000
  type byte = bv8

  // Word operations (sections 2.1 and 2.3); addition wraps around.

  function Add(a: word, b: word): word { a + b }

  function Xor(a: word, b: word): word { a ^ b }

  function RotR(w: word, n: nat): word
    requires n < 32
  {
    w.RotateRight(n)
  }

  /** Section 2.6. */
  const IV: seq<word> := [
    0x6A09E667, 0xBB67AE85, 0x3C6EF372, 0xA54FF53A,
    0x510E527F, 0x9B05688C, 0x1F83D9AB, 0x5BE0CD19
  ]

  /** Section 2.7. */
  const SIGMA: seq<seq<nat>> := [
    [0, 1, 2, 3, 4, 5, 6, 7, 8, 9, 10, 11, 12, 13, 14, 15],
    [14, 10, 4, 8, 9, 15, 13, 6, 1, 12, 0, 2, 11, 7, 5, 3],
    [11, 8, 12, 0, 5, 2, 15, 13, 10, 14, 3, 6, 7, 1, 9, 4],
    [7, 9, 3, 1, 13, 12, 11, 14, 2, 6, 5, 10, 4, 0, 15, 8],
    [9, 0, 5, 7, 2, 4, 10, 15, 14, 1, 11, 12, 6, 8, 3, 13],
    [2, 12, 6, 10, 0, 11, 8, 3, 4, 13, 7, 5, 15, 14, 1, 9],
    [12, 5, 1, 15, 14, 13, 4, 10, 0, 7, 6, 3, 9, 2, 8, 11],
    [13, 11, 7, 14, 12, 1, 3, 9, 5, 0, 15, 4, 8, 6, 2, 10],
    [6, 15, 14, 9, 11, 3, 0, 8, 12, 2, 13, 7, 1, 4, 10, 5],
    [10, 2, 8, 4, 7, 6, 1, 5, 15, 11, 9, 14, 3, 12, 13, 0]
  ]

  /** A row of SIGMA: sixteen indices of message words. */
  ghost predicate Row(s: seq<nat>) {
    |s| == 16 && forall i :: 0 <= i < 16 ==> s[i] < 16
  }

  lemma SigmaRows(r: nat)
    requires r < 10
    ensures |SIGMA| == 10 && Row(SIGMA[r])
  {
  }

  /** The mixing function (section 3.1). A sum of three words is the same in any order. */
  function G(v: seq<word>, a: nat, b: nat, c: nat, d: nat, x: word, y: word): (r: seq<word>)
    requires |v| == 16 && a < 16 && b < 16 && c < 16 && d < 16
    ensures |r| == 16
  {
    var v := v[a := Add(v[a], Add(v[b], x))];
    var v := v[d := RotR(Xor(v[d], v[a]), 16)];
    var v := v[c := Add(v[c], v[d])];
    var v := v[b := RotR(Xor(v[b], v[c]), 12)];
    var v := v[a := Add(v[a], Add(v[b], y))];
    var v := v[d := RotR(Xor(v[d], v[a]), 8)];
    var v := v[c := Add(v[c], v[d])];
    v[b := RotR(Xor(v[b], v[c]), 7)]
  }

  /** One round of cryptographic mixing: columns, then diagonals (section 3.2). */
  function Round(v: seq<word>, m: seq<word>, s: seq<nat>): (r: seq<word>)
    requires |v| == 16 && |m| == 16 && Row(s)
    ensures |r| == 16
  {
    Diagonals(Columns(v, m, s), m, s)
  }

  function Columns(v: seq<word>, m: seq<word>, s: seq<nat>): (r: seq<word>)
    requires |v| == 16 && |m| == 16 && Row(s)
    ensures |r| == 16
  {
    var v := G(v, 0, 4, 8, 12, m[s[0]], m[s[1]]);
    var v := G(v, 1, 5, 9, 13, m[s[2]], m[s[3]]);
    var v := G(v, 2, 6, 10, 14, m[s[4]], m[s[5]]);
    G(v, 3, 7, 11, 15, m[s[6]], m[s[7]])
  }

  function Diagonals(v: seq<word>, m: seq<word>, s: seq<nat>): (r: seq<word>)
    requires |v| == 16 && |m| == 16 && Row(s)
    ensures |r| == 16
  {
    var v := G(v, 0, 5, 10, 15, m[s[8]], m[s[9]]);
    var v := G(v, 1, 6, 11, 12, m[s[10]], m[s[11]]);
    var v := G(v, 2, 7, 8, 13, m[s[12]], m[s[13]]);
    G(v, 3, 4, 9, 14, m[s[14]], m[s[15]])
  }

  function Rounds(v: seq<word>, m: seq<word>, n: nat): (r: seq<word>)
    requires |v| == 16 && |m| == 16 && n <= 10
    ensures |r| == 16
  {
    if n == 0 then v else
      SigmaRows(n - 1);
      Round(Rounds(v, m, n - 1), m, SIGMA[n - 1])
  }

  /** A word read from four bytes, least significant first (section 2.4). */
  function Word(b0: byte, b1: byte, b2: byte, b3: byte): word {
    b0 as word | ((b1 as word) << 8) | ((b2 as word) << 16) | ((b3 as word) << 24)
  }

  function Words(block: seq<byte>): (m: seq<word>)
    requires |block| == 64
    ensures |m| == 16
    ensures forall i :: 0 <= i < 16 ==> m[i] == Word(block[4 * i], block[4 * i + 1], block[4 * i + 2], block[4 * i + 3])
  {
    seq(16, i requires 0 <= i < 16 => Word(block[4 * i], block[4 * i + 1], block[4 * i + 2], block[4 * i + 3]))
  }

  /** The low and high word of the offset counter: two words (section 2.2), so it wraps. */
  function Low(t: nat): uint32 { t % WORD }
  function High(t: nat): uint32 { t / WORD % WORD }

  /** The local work vector of the compression function. */
  function WorkVector(h: seq<word>, t: nat, last: bool): (v: seq<word>)
    requires |h| == 8
    ensures |v| == 16
  {
    var v := h + IV;
    var v := v[12 := Xor(v[12], Low(t) as word)];
    var v := v[13 := Xor(v[13], High(t) as word)];
    if last then v[14 := Xor(v[14], 0xFFFF_FFFF)] else v
  }

  function XorHalves(h: seq<word>, v: seq<word>): (r: seq<word>)
    requires |h| == 8 && |v| == 16
    ensures |r| == 8 && forall i :: 0 <= i < 8 ==> r[i] == Xor(Xor(h[i], v[i]), v[i + 8])
  {
    seq(8, i requires 0 <= i < 8 => Xor(Xor(h[i], v[i]), v[i + 8]))
  }

  /** The compression function (section 3.2). */
  function F(h: seq<word>, block: seq<byte>, t: nat, last: bool): (r: seq<word>)
    requires |h| == 8 && |block| == 64
    ensures |r| == 8
  {
    XorHalves(h, Rounds(WorkVector(h, t, last), Words(block), 10))
  }

  /** The state after the first `k` blocks, none of them the last. */
  function Chain(h: seq<word>, data: seq<byte>, k: nat): (r: seq<word>)
    requires |h| == 8 && 64 * k <= |data|
    ensures |r| == 8
  {
    hide F;
    if k == 0 then h else F(Chain(h, data, k - 1), data[64 * (k - 1)..64 * k], 64 * k, false)
  }

  /** The parameter block in the first word: digest length, no key, fanout and depth one
      (section 2.5). */
  function InitialState(outlen: nat): (h: seq<word>)
    requires outlen <= 32
    ensures |h| == 8
  {
    IV[0 := Xor(IV[0], 0x0101_0000 | (outlen as word))]
  }

  function Zeros(n: nat): (z: seq<byte>)
    ensures |z| == n && forall i :: 0 <= i < n ==> z[i] == 0
  {
    seq(n, _ => 0)
  }

  function Bytes(w: word): (b: seq<byte>)
    ensures |b| == 4
  {
    [(w & 0xFF) as byte, ((w >> 8) & 0xFF) as byte, ((w >> 16) & 0xFF) as byte, ((w >> 24) & 0xFF) as byte]
  }

  function Serialized(h: seq<word>): (b: seq<byte>)
    ensures |b| == 4 * |h|
  {
    if h == [] then [] else Bytes(h[0]) + Serialized(h[1..])
  }

  /** The digest of a message without key (section 3.3): the message is padded with zeros to
      whole blocks, an empty one to a single block. */
  function Digest(msg: seq<byte>, outlen: nat): (d: seq<byte>)
    requires outlen <= 32
    ensures |d| == outlen
  {
    hide F, Chain;
    var dd := if msg == [] then 1 else (|msg| + 63) / 64;
    var padded := msg + Zeros(64 * dd - |msg|);
    var h := Chain(InitialState(outlen), padded, dd - 1);
    Serialized(F(h, padded[64 * (dd - 1)..], |msg|, true))[..outlen]
  }
}

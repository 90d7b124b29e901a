/** SHA-1 as lib/hashlib.c computes it, against FIPS 180-4. */
module Sha1 {
  import opened Bits
  import opened HashVector
  import opened HashWriter

  type Word = bv32

  const BLOCK_WORDS: nat := 16
  const NR_ROUNDS: nat := 80

  // ----- Section 5.1.1: padding

  /** The number of zero bits after the one bit, for a message of l bits. */
  function ZeroBits(l: nat): (k: nat)
    ensures k < 512 && (l + 1 + k) % 512 == 448
  {
    (959 - l % 512) % 512
  }

  /** It is the smallest number that leaves room for 64 bits at the end of a block. */
  lemma ZeroBitsSmallest(l: nat, k: nat)
    requires (l + 1 + k) % 512 == 448
    ensures ZeroBits(l) <= k
  {
    var z, q, p := ZeroBits(l), (l + 1 + ZeroBits(l)) / 512, (l + 1 + k) / 512;
    assert l + 1 + z == 512 * q + 448 && l + 1 + k == 512 * p + 448;
    assert k == z + 512 * (p - q);
  }

  /** The number of zero bytes, and of blocks, for a message of n bytes. */
  lemma ZeroBytes(n: nat) returns (z: nat, blocks: nat)
    ensures ZeroBits(8 * n) == 8 * z + 7 && z < 64
    ensures n + 9 + z == 64 * blocks
  {
    var q, r := n / 64, n % 64;
    DivModUnique(8 * n, 512, q, 8 * r);
    z := if r <= 55 then 55 - r else 119 - r;
    blocks := if r <= 55 then q + 1 else q + 2;
  }

  function Zeros(n: nat): (z: string)
    ensures |z| == n && forall i :: 0 <= i < n ==> z[i] == 0 as char
  {
    seq(n, _ => 0 as char)
  }

  /** A one bit, zero bits and the number of bits after the message. */
  function Padded(m: string): string {
    m + [0x80 as char] + Zeros(ZeroBits(8 * |m|) / 8) + BigEndian(8 * |m|, 8)
  }

  /** A padded message is made of whole blocks, and of no more than needed. */
  lemma PaddedBlocks(m: string)
    ensures |Padded(m)| % 64 == 0
    ensures |m| + 9 <= |Padded(m)| < |m| + 9 + 64
  {
    var z, blocks := ZeroBytes(|m|);
    assert (8 * z + 7) / 8 == z;
    DivModUnique(|Padded(m)|, 64, blocks, 0);
  }

  /** Different messages give different blocks. */
  lemma PaddedInjective(m: string, n: string)
    requires 8 * |m| < HashVector.U64 && 8 * |n| < HashVector.U64 && Padded(m) == Padded(n)
    ensures m == n
  {
    var p, q := Padded(m), Padded(n);
    assert p[|p| - 8..] == BigEndian(8 * |m|, 8) && q[|q| - 8..] == BigEndian(8 * |n|, 8);
    LongCancel(8 * |m|, 8 * |n|, "", "");
    assert m == p[..|m|] && n == q[..|n|];
  }

  /** ALIGN_UP */
  function AlignUp(v: nat, bits: nat): nat {
    AndNot(v + (Pow2(bits) - 1), Pow2(bits) - 1)
  }

  lemma AlignUp512(v: nat) returns (a: nat)
    ensures AlignUp(v, 9) == 512 * a && v <= 512 * a < v + 512
  {
    assert Pow2(9) == 512 && IsPow2(512);
    AlignPow2Spec(v + 511, 512);
    a := AlignUp(v, 9) / 512;
  }

  lemma SameBlocks(n: nat, z: nat, blocks: nat, a: nat)
    requires n + 9 + z == 64 * blocks && z < 64
    requires 8 * n + 65 <= 512 * a < 8 * n + 65 + 512
    ensures a == blocks
  {
  }

  lemma PaddedLength(m: string) returns (z: nat, blocks: nat)
    ensures |Padded(m)| == |m| + 9 + z == 64 * blocks && z < 64
  {
    z, blocks := ZeroBytes(|m|);
  }

  /** ALIGN_UP gives exactly the room that is needed. */
  lemma PaddedSize(m: string)
    ensures AlignUp(8 * |m| + 64 + 1, 9) == 8 * |Padded(m)|
  {
    var z, blocks := PaddedLength(m);
    var a := AlignUp512(8 * |m| + 64 + 1);
    SameBlocks(|m|, z, blocks, a);
  }

  method Copy(out: array<char>, buf: string)
    requires |buf| <= out.Length
    modifies out
    ensures out[..|buf|] == buf
  {
    for b := 0 to |buf|
      invariant out[..b] == buf[..b]
    {
      out[b] := buf[b];
    }
  }

  method Zero(out: array<char>, from: nat, to: nat)
    requires from <= to <= out.Length
    modifies out
    ensures out[..to] == old(out[..from]) + Zeros(to - from)
  {
    for b := from to to
      invariant out[..b] == old(out[..from]) + Zeros(b - from)
    {
      out[b] := 0 as char;
    }
  }

  /** preprocess.  The position in the buffer is a 32-bit number, so the message has to be short
    * enough for it. */
  method Preprocess(buf: string) returns (out: array<char>, n: nat)
    requires |buf| + 9 <= HashVector.U32
    ensures fresh(out) && out[..] == Padded(buf) && 64 * n == |Padded(buf)|
  {
    var l := |buf| * 8;
    var newL := AlignUp(l + 64 + 1, 9);
    PaddedSize(buf);
    ghost var z, blocks := PaddedLength(buf);
    DivModUnique(newL, 8, 64 * blocks, 0);
    DivModUnique(newL, 512, blocks, 0);
    n := newL / 512;
    out := FillBlocks(buf, l, newL / 8);
  }

  method FillBlocks(buf: string, l: nat, newSize: nat) returns (out: array<char>)
    requires l == 8 * |buf| && newSize == |Padded(buf)|
    ensures fresh(out) && out[..] == Padded(buf)
  {
    out := new char[newSize](_ => 0 as char);
    var b := |buf|;
    Copy(out, buf);
    out[b] := 0x80 as char;
    b := b + 1;
    ghost var front := buf + [0x80 as char];
    assert out[..b] == front;
    Zero(out, b, newSize - 8);
    b := newSize - 8;
    ghost var was := out[..];
    assert was[..b] == front + Zeros(b - |front|);
    WriteBe(out, b, l, 8);
    assert was[b + 8..] == [];
  }

  // ----- Section 4.1.1: functions on words

  /** ROTLONE */
  function RotlOne(x: Word): Word {
    (x << 1) | (x >> 31)
  }

  /** rotl */
  function Rotl(n: nat, x: Word): Word {
    if n == 0 then x else RotlOne(Rotl(n - 1, x))
  }

  lemma {:induction false} RotlAdd(m: nat, n: nat, x: Word)
    ensures Rotl(m + n, x) == Rotl(m, Rotl(n, x))
  {
    if m > 0 {
      RotlAdd(m - 1, n, x);
    }
  }

  lemma RotlFive(x: Word)
    ensures Rotl(5, x) == (x << 5) | (x >> 27)
  {
    assert Rotl(0, x) == x;
    assert Rotl(1, x) == RotlOne(x);
    assert Rotl(2, x) == RotlOne(RotlOne(x));
    assert Rotl(3, x) == RotlOne(RotlOne(RotlOne(x)));
    assert Rotl(4, x) == RotlOne(RotlOne(RotlOne(RotlOne(x))));
    assert Rotl(5, x) == RotlOne(RotlOne(RotlOne(RotlOne(RotlOne(x)))));
  }

  lemma RotlFifteen(x: Word)
    ensures Rotl(15, x) == (x << 15) | (x >> 17)
  {
    RotlFive(x);
    RotlFive(Rotl(5, x));
    RotlFive(Rotl(10, x));
    RotlAdd(5, 5, x);
    RotlAdd(5, 10, x);
    FiveFiveFive(x);
  }

  lemma FiveFiveFive(x: Word)
    ensures var y := (x << 5) | (x >> 27);
            var z := (y << 5) | (y >> 27);
            (z << 5) | (z >> 27) == (x << 15) | (x >> 17)
  {
  }

  lemma FifteenFifteen(x: Word)
    ensures var y := (x << 15) | (x >> 17);
            (y << 15) | (y >> 17) == (x << 30) | (x >> 2)
  {
  }

  /** Rotating one bit at a time is the rotation of the standard, for the numbers of bits that it is
    * used with. */
  lemma RotlStandard(x: Word)
    ensures Rotl(1, x) == (x << 1) | (x >> 31)
    ensures Rotl(5, x) == (x << 5) | (x >> 27)
    ensures Rotl(30, x) == (x << 30) | (x >> 2)
  {
    assert Rotl(0, x) == x;
    RotlFive(x);
    RotlFifteen(x);
    RotlFifteen(Rotl(15, x));
    RotlAdd(15, 15, x);
    FifteenFifteen(x);
  }

  /** ROTL for the numbers of bits that it is used with */
  function Rot(n: nat, x: Word): Word
    requires n == 1 || n == 5 || n == 30
  {
    if n == 1 then (x << 1) | (x >> 31)
    else if n == 5 then (x << 5) | (x >> 27)
    else (x << 30) | (x >> 2)
  }

  method RotateLeft(n: nat, x: Word) returns (r: Word)
    requires n == 1 || n == 5 || n == 30
    ensures r == Rot(n, x)
  {
    r := Iterate(n, x);
    RotlStandard(x);
  }

  method Iterate(n: nat, x: Word) returns (r: Word)
    ensures r == Rotl(n, x)
  {
    r := x;
    for i := 0 to n
      invariant r == Rotl(i, x)
    {
      r := RotlOne(r);
    }
  }

  function Ch(x: Word, y: Word, z: Word): Word {
    (x & y) ^ (!x & z)
  }

  function Parity(x: Word, y: Word, z: Word): Word {
    x ^ y ^ z
  }

  function Maj(x: Word, y: Word, z: Word): Word {
    (x & y) ^ (x & z) ^ (y & z)
  }

  function F(t: nat, x: Word, y: Word, z: Word): Word {
    if t <= 19 then Ch(x, y, z)
    else if t <= 39 then Parity(x, y, z)
    else if t <= 59 then Maj(x, y, z)
    else Parity(x, y, z)
  }

  /** Section 4.2.1 */
  function K(t: nat): Word {
    if t <= 19 then 0x5a827999
    else if t <= 39 then 0x6ed9eba1
    else if t <= 59 then 0x8f1bbcdc
    else 0xca62c1d6
  }

  // ----- Section 6.1: the hash

  /** The five hash values, or the five working variables. */
  datatype State5 = State5(a: Word, b: Word, c: Word, d: Word, e: Word) {
    function Plus(v: State5): State5 {
      State5(a + v.a, b + v.b, c + v.c, d + v.d, e + v.e)
    }
  }

  /** Section 5.3.1 */
  const INITIAL_STATE := State5(0x67452301, 0xefcdab89, 0x98badcfe, 0x10325476, 0xc3d2e1f0)

  function U8(c: char): Word {
    (c as int % 256) as bv32
  }

  /** The word that four bytes make, the highest first. */
  function WordOf(a: char, b: char, c: char, d: char): Word {
    (U8(a) << 24) + (U8(b) << 16) + (U8(c) << 8) + U8(d)
  }

  /** read_be */
  function ReadBe(m: string, p: nat): Word
    requires p + 4 <= |m|
  {
    WordOf(m[p], m[p + 1], m[p + 2], m[p + 3])
  }

  predicate HasBlock(m: string, i: nat) {
    64 * i + 64 <= |m|
  }

  /** Block i as words. */
  function BlockWords(m: string, i: nat): (w: seq<Word>)
    requires HasBlock(m, i)
    ensures |w| == BLOCK_WORDS
  {
    seq(BLOCK_WORDS, t requires 0 <= t < BLOCK_WORDS => ReadBe(m, 64 * i + 4 * t))
  }

  /** The first n words of the schedule of a block. */
  function Schedule(block: seq<Word>, n: nat): (w: seq<Word>)
    requires |block| == BLOCK_WORDS
    ensures |w| == n
  {
    if n <= BLOCK_WORDS then block[..n]
    else
      var w := Schedule(block, n - 1);
      w + [Mixed(w, n - 1)]
  }

  function Mixed(w: seq<Word>, t: nat): Word
    requires 16 <= t <= |w|
  {
    Rot(1, w[t - 3] ^ w[t - 8] ^ w[t - 14] ^ w[t - 16])
  }

  function Sum(p: Word, q: Word, r: Word, s: Word, t: Word): Word {
    p + q + r + s + t
  }

  /** Round t with word w of the schedule. */
  function Round(v: State5, t: nat, w: Word): State5 {
    State5(Sum(Rot(5, v.a), F(t, v.b, v.c, v.d), v.e, K(t), w), v.a, Rot(30, v.b), v.c, v.d)
  }

  function Rounds(v: State5, w: seq<Word>, n: nat): State5
    requires n <= |w|
  {
    if n == 0 then v else Round(Rounds(v, w, n - 1), n - 1, w[n - 1])
  }

  function NextValue(h: State5, m: string, i: nat): State5
    requires HasBlock(m, i)
  {
    var w := Schedule(BlockWords(m, i), NR_ROUNDS);
    h.Plus(Rounds(h, w, |w|))
  }

  /** The hash values after n blocks. */
  function HashValue(m: string, n: nat): State5
    requires 64 * n <= |m|
  {
    if n == 0 then INITIAL_STATE
    else
      var h := HashValue(m, n - 1);
      NextValue(h, m, n - 1)
  }

  /** Words with the highest byte of each first. */
  function WordBytes(ws: seq<nat>): (b: string)
    ensures |b| == 4 * |ws|
  {
    if ws == [] then "" else WordBytes(ws[..|ws| - 1]) + BigEndian(ws[|ws| - 1], 4)
  }

  function Words5(v: State5): (ws: seq<nat>)
    ensures |ws| == 5
  {
    [v.a as nat, v.b as nat, v.c as nat, v.d as nat, v.e as nat]
  }

  function Digest(v: State5): (b: string)
    ensures |b| == 20
  {
    WordBytes(Words5(v))
  }

  /** SHA-1 of a message. */
  function Sha1Of(m: string): string {
    Digest(HashValue(Padded(m), |Padded(m)| / 64))
  }

  // ----- The code

  method PrepareConstantsK(k: array<Word>)
    requires k.Length == 80
    modifies k
    ensures forall t :: 0 <= t < 80 ==> k[t] == K(t)
  {
    for t := 0 to 20
      invariant forall u :: 0 <= u < t ==> k[u] == K(u)
    {
      k[t] := 0x5a827999;
    }
    for t := 20 to 40
      invariant forall u :: 0 <= u < t ==> k[u] == K(u)
    {
      k[t] := 0x6ed9eba1;
    }
    for t := 40 to 60
      invariant forall u :: 0 <= u < t ==> k[u] == K(u)
    {
      k[t] := 0x8f1bbcdc;
    }
    for t := 60 to 80
      invariant forall u :: 0 <= u < t ==> k[u] == K(u)
    {
      k[t] := 0xca62c1d6;
    }
  }

  method MixedWord(w: array<Word>, t: nat) returns (r: Word)
    requires 16 <= t < w.Length
    ensures r == Mixed(w[..t], t)
  {
    r := RotateLeft(1, w[t - 3] ^ w[t - 8] ^ w[t - 14] ^ w[t - 16]);
  }

  method WordsOfBlock(message: string, w: array<Word>, i: nat)
    requires w.Length == NR_ROUNDS && HasBlock(message, i)
    modifies w
    ensures w[..BLOCK_WORDS] == BlockWords(message, i)
  {
    for t := 0 to BLOCK_WORDS
      invariant forall u :: 0 <= u < t ==> w[u] == BlockWords(message, i)[u]
    {
      w[t] := ReadBe(message, 64 * i + 4 * t);
    }
  }

  /** prepare_message_schedule_W */
  method PrepareMessageScheduleW(message: string, w: array<Word>, i: nat)
    requires w.Length == NR_ROUNDS && HasBlock(message, i)
    modifies w
    ensures w[..] == Schedule(BlockWords(message, i), NR_ROUNDS)
  {
    WordsOfBlock(message, w, i);
    ghost var block := w[..BLOCK_WORDS];
    for t := BLOCK_WORDS to NR_ROUNDS
      invariant w[..t] == Schedule(block, t)
    {
      var r := MixedWord(w, t);
      w[t] := r;
    }
    assert w[..NR_ROUNDS] == w[..];
  }

  /** One round; k is the constant of the round. */
  method RunRound(v: State5, t: nat, k: Word, w: Word) returns (r: State5)
    requires k == K(t)
    ensures r == Round(v, t, w)
  {
    var left := RotateLeft(5, v.a);
    var c := RotateLeft(30, v.b);
    r := State5(Sum(left, F(t, v.b, v.c, v.d), v.e, k, w), v.a, c, v.c, v.d);
  }

  /** The rounds of a block. */
  method RunRounds(v: State5, k: array<Word>, w: array<Word>) returns (r: State5)
    requires k.Length == w.Length == NR_ROUNDS && forall t :: 0 <= t < NR_ROUNDS ==> k[t] == K(t)
    ensures r == Rounds(v, w[..], w.Length)
  {
    r := v;
    for t := 0 to w.Length
      invariant r == Rounds(v, w[..], t)
    {
      r := RunRound(r, t, k[t], w[t]);
    }
  }

  /** write_digest */
  method WriteDigest(h: seq<nat>) returns (d: array<char>)
    ensures fresh(d) && d[..] == WordBytes(h)
  {
    d := new char[4 * |h|](_ => 0 as char);
    for i := 0 to |h|
      invariant fresh(d) && d[..4 * i] == WordBytes(h[..i])
    {
      ghost var was := d[..];
      WriteBe(d, 4 * i, h[i], 4);
      assert h[..i + 1][..i] == h[..i];
      assert d[..4 * (i + 1)] == was[..4 * i] + BigEndian(h[i], 4);
    }
    assert h[..|h|] == h && d[..4 * |h|] == d[..];
  }

  /** One block: its schedule, its rounds, and the new hash values. */
  method HashBlock(message: string, w: array<Word>, k: array<Word>, h: State5, i: nat) returns (r: State5)
    requires w.Length == k.Length == NR_ROUNDS && w != k && HasBlock(message, i)
    requires forall t :: 0 <= t < NR_ROUNDS ==> k[t] == K(t)
    modifies w
    ensures r == NextValue(h, message, i)
  {
    PrepareMessageScheduleW(message, w, i);
    var v := RunRounds(h, k, w);
    r := h.Plus(v);
  }

  method HashBlocks(message: string, n: nat) returns (h: State5)
    requires 64 * n <= |message|
    ensures h == HashValue(message, n)
  {
    var w, k := new Word[NR_ROUNDS](_ => 0), new Word[NR_ROUNDS](_ => 0);
    PrepareConstantsK(k);
    h := INITIAL_STATE;
    for i := 0 to n
      invariant h == HashValue(message, i)
      invariant forall t :: 0 <= t < NR_ROUNDS ==> k[t] == K(t)
    {
      h := HashBlock(message, w, k, h, i);
    }
  }

  /** hash_sha1 */
  method HashSha1(buf: string) returns (digest: array<char>)
    requires |buf| + 9 <= HashVector.U32
    ensures fresh(digest) && digest[..] == Sha1Of(buf)
  {
    var message, n := Preprocess(buf);
    var h := HashBlocks(message[..], n);
    digest := WriteDigest(Words5(h));
  }

  /** litmus_test_hash: the hash of a test is SHA-1 of its vector, and the machine stops exactly when
    * some of its code is malformed. */
  method LitmusTestHash(test: Test) returns (ok: bool, digest: array<char>)
    requires test.Fits()
    requires test.CodeOk() ==> |Vector(test)| + 9 <= HashVector.U32
    ensures ok <==> test.CodeOk()
    ensures ok ==> fresh(digest) && digest[..] == Sha1Of(Vector(test))
  {
    var buf;
    ok, buf := TestVector(test);
    digest := buf;
    if ok {
      digest := HashSha1(buf[..]);
    }
  }

  // ----- The hash as text

  const HEX := "0123456789abcdef"

  function HexByte(c: char): (h: string)
    ensures |h| == 2
  {
    [HEX[c as int / 16 % 16], HEX[c as int % 16]]
  }

  /** Two hexadecimal digits for each byte. */
  function Hex(d: string): (h: string)
    ensures |h| == 2 * |d|
  {
    if d == "" then "" else Hex(d[..|d| - 1]) + HexByte(d[|d| - 1])
  }

  lemma HexDigitInjective(a: nat, b: nat)
    requires a < 16 && b < 16 && HEX[a] == HEX[b]
    ensures a == b
  {
  }

  lemma HexByteInjective(c: char, d: char)
    requires c as int < 256 && d as int < 256 && HexByte(c) == HexByte(d)
    ensures c == d
  {
    assert HexByte(c)[0] == HexByte(d)[0] && HexByte(c)[1] == HexByte(d)[1];
    HexDigitInjective(c as int / 16, d as int / 16);
    HexDigitInjective(c as int % 16, d as int % 16);
  }

  predicate Octets(d: string) {
    forall k :: 0 <= k < |d| ==> d[k] as int < 256
  }

  /** Different digests are printed differently. */
  lemma {:induction false} HexInjective(d: string, e: string)
    requires Octets(d) && Octets(e) && Hex(d) == Hex(e)
    ensures d == e
  {
    if d != "" {
      var n := |d| - 1;
      SplitEqual(Hex(d[..n]), Hex(e[..n]), HexByte(d[n]), HexByte(e[n]));
      HexInjective(d[..n], e[..n]);
      HexByteInjective(d[n], e[n]);
      SameLists(d, e);
    }
  }

  /** hexdigest; the 0 that ends the string is the last byte. */
  method Hexdigest(p: string, out: array<char>)
    requires |p| == 20 && out.Length == 41
    modifies out
    ensures out[..] == Hex(p) + [0 as char]
  {
    for i := 0 to 20
      invariant out[..2 * i] == Hex(p[..i])
    {
      assert p[..i + 1][..i] == p[..i];
      out[2 * i] := HEX[p[i] as int / 16 % 16];
      out[2 * i + 1] := HEX[p[i] as int % 16];
    }
    assert p[..20] == p;
    out[40] := 0 as char;
  }
}

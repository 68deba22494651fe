/** SHA-1 as pd_sha1.c computes it (a streaming context, unrolled rounds with renamed registers, a
    circular schedule written over the block) and as FIPS 180-4 defines it. */
module Sha1 {
  type Byte = bv8
  type Word = bv32

  const BLOCK := 64

  // ---- FIPS 180-4 -------------------------------------------------------------------

  datatype Regs = Regs(a: Word, b: Word, c: Word, d: Word, e: Word)

  /** Section 5.3.1. */
  const H0 := Regs(0x67452301, 0xEFCDAB89, 0x98BADCFE, 0x10325476, 0xC3D2E1F0)

  /** Section 2.2.2: rotation to the left. */
  function Rol(x: Word, n: bv6): Word
    requires n < 32
  {
    (x << n) | (x >> (32 - n))
  }

  /** Section 4.1.1: Ch, Parity, Maj, Parity. */
  function F(t: nat, x: Word, y: Word, z: Word): Word {
    if t < 20 then (x & y) ^ (!x & z)
    else if 40 <= t < 60 then (x & y) ^ (x & z) ^ (y & z)
    else x ^ y ^ z
  }

  /** Section 4.2.1. */
  function K(t: nat): Word {
    if t < 20 then 0x5A827999 else if t < 40 then 0x6ED9EBA1 else if t < 60 then 0x8F1BBCDC else 0xCA62C1D6
  }

  /** Section 6.1.2, step 1: the 80 words of the message schedule. */
  function W(m: seq<Word>, t: nat): Word
    requires |m| == 16
  {
    if t < 16 then m[t] else Rol(W(m, t - 3) ^ W(m, t - 8) ^ W(m, t - 14) ^ W(m, t - 16), 1)
  }

  function Sum5(v: Word, f: Word, z: Word, k: Word, w: Word): Word {
    v + f + z + k + w
  }

  /** Step 3, one round. */
  function Round(r: Regs, t: nat, w: Word): Regs {
    Regs(Sum5(Rol(r.a, 5), F(t, r.b, r.c, r.d), r.e, K(t), w), r.a, Rol(r.b, 30), r.c, r.d)
  }

  /** The first t rounds. */
  function Rounds(r: Regs, m: seq<Word>, t: nat): Regs
    requires |m| == 16
  {
    if t == 0 then r else Round(Rounds(r, m, t - 1), t - 1, W(m, t - 1))
  }

  /** Four bytes as a word, most significant first. */
  function BigEndian(b0: Byte, b1: Byte, b2: Byte, b3: Byte): Word {
    ((b0 as Word) << 24) | ((b1 as Word) << 16) | ((b2 as Word) << 8) | (b3 as Word)
  }

  function WordOf(b: seq<Byte>): Word
    requires |b| == 4
  {
    BigEndian(b[0], b[1], b[2], b[3])
  }

  function Words(block: seq<Byte>): (m: seq<Word>)
    requires |block| == BLOCK
    ensures |m| == 16
  {
    seq(16, i requires 0 <= i < 16 => WordOf(block[4 * i..4 * i + 4]))
  }

  function AddRegs(r: Regs, s: Regs): Regs {
    Regs(r.a + s.a, r.b + s.b, r.c + s.c, r.d + s.d, r.e + s.e)
  }

  /** One block. */
  function Compress(h: Regs, block: seq<Byte>): Regs
    requires |block| == BLOCK
  {
    AddRegs(h, Rounds(h, Words(block), 80))
  }

  function Process(h: Regs, bytes: seq<Byte>): Regs
    requires |bytes| % BLOCK == 0
    decreases |bytes|
  {
    if bytes == [] then h else Process(Compress(h, bytes[..BLOCK]), bytes[BLOCK..])
  }

  /** Euclid's division, for the constants that are used. */
  lemma Divided64(n: int, q: int, r: int)
    requires n == 64 * q + r && 0 <= r < 64
    ensures n / 64 == q && n % 64 == r
  {
  }

  lemma Divided256(n: int, q: int, r: int)
    requires n == 256 * q + r && 0 <= r < 256
    ensures n / 256 == q && n % 256 == r
  {
  }

  lemma DividedBy(n: int, q: int, r: int, d: int)
    requires d == 0x100_0000 || d == 0x1_0000_0000 || d == 0x2000_0000
    requires n == d * q + r && 0 <= r < d
    ensures n / d == q && n % d == r
  {
    if d == 0x100_0000 {
    } else if d == 0x1_0000_0000 {
    } else {
    }
  }

  /** Section 5.1.1: how many zero bytes go between the 1 bit and the length. */
  function ZeroCount(n: nat): (k: nat)
    ensures k < BLOCK && (n + 1 + k) % BLOCK == 56
  {
    var r := n % 64;
    var k := if r <= 55 then 55 - r else 119 - r;
    Divided64(n + 1 + k, n / 64 + (if r <= 55 then 0 else 1), 56);
    k
  }

  /** A byte of a number, and the number shifted right by k bytes. */
  function Low8(n: nat): Byte {
    (n % 256) as Byte
  }

  function Shr(n: nat, k: nat): nat {
    if k == 0 then n else Shr(n / 256, k - 1)
  }

  /** A number as eight bytes, most significant first, modulo 2 to the 64. */
  function Length64(n: nat): (s: seq<Byte>)
    ensures |s| == 8
  {
    [Low8(Shr(n, 7)), Low8(Shr(n, 6)), Low8(Shr(n, 5)), Low8(Shr(n, 4)),
     Low8(Shr(n, 3)), Low8(Shr(n, 2)), Low8(Shr(n, 1)), Low8(Shr(n, 0))]
  }

  function Zeros(k: nat): (s: seq<Byte>)
    ensures |s| == k
  {
    seq(k, _ => 0)
  }

  function Padded(msg: seq<Byte>): (s: seq<Byte>)
    ensures |s| % BLOCK == 0
  {
    var k := ZeroCount(|msg|);
    var n := |msg| + 1 + k;
    Divided64(n + 8, n / 64 + 1, 0);
    msg + [0x80] + Zeros(k) + Length64(8 * |msg|)
  }

  function BytesOf(w: Word): seq<Byte> {
    [((w >> 24) & 255) as Byte, ((w >> 16) & 255) as Byte, ((w >> 8) & 255) as Byte, (w & 255) as Byte]
  }

  function Sha1(msg: seq<Byte>): seq<Byte> {
    var h := Process(H0, Padded(msg));
    BytesOf(h.a) + BytesOf(h.b) + BytesOf(h.c) + BytesOf(h.d) + BytesOf(h.e)
  }

  lemma {:induction false} ProcessAppend(h: Regs, x: seq<Byte>, y: seq<Byte>)
    requires |x| % BLOCK == 0 && |y| % BLOCK == 0
    ensures (|x| + |y|) % BLOCK == 0
    ensures Process(h, x + y) == Process(Process(h, x), y)
    decreases |x|
  {
    hide Compress;
    if x == [] {
      assert x + y == y;
    } else {
      assert (x + y)[..BLOCK] == x[..BLOCK] && (x + y)[BLOCK..] == x[BLOCK..] + y;
      ProcessAppend(Compress(h, x[..BLOCK]), x[BLOCK..], y);
    }
  }

  // ---- the bit tricks ---------------------------------------------------------------

  /** The choose and majority forms of the macros. */
  lemma Choose(w: Word, x: Word, y: Word)
    ensures ((w & (x ^ y)) ^ y) == (w & x) ^ (!w & y)
  {
  }

  lemma Majority(w: Word, x: Word, y: Word)
    ensures (((w | x) & y) | (w & x)) == (w & x) ^ (w & y) ^ (x & y)
  {
  }

  /** A little-endian load of the four bytes. */
  function Load(b0: Byte, b1: Byte, b2: Byte, b3: Byte): Word {
    (b0 as Word) | ((b1 as Word) << 8) | ((b2 as Word) << 16) | ((b3 as Word) << 24)
  }

  /** blk0 turns it around. */
  function Swap(x: Word): Word {
    (Rol(x, 24) & 0xFF00FF00) | (Rol(x, 8) & 0x00FF00FF)
  }

  lemma SwapLoad(b0: Byte, b1: Byte, b2: Byte, b3: Byte)
    ensures Swap(Load(b0, b1, b2, b3)) == BigEndian(b0, b1, b2, b3)
  {
  }

  // ---- pd_sha1_transform ------------------------------------------------------------

  /** The state of the circular schedule l before round t of a block whose words are m. */
  ghost predicate Schedule(l: seq<Word>, m: seq<Word>, t: nat) {
    && |l| == |m| == 16
    && if t < 16 then forall s :: 0 <= s < 16 ==> (if s < t then l[s] else Swap(l[s])) == m[s]
       else forall s :: t - 16 <= s < t ==> l[s % 16] == W(m, s)
  }

  lemma EarlyStep(l: seq<Word>, m: seq<Word>, t: nat)
    requires Schedule(l, m, t) && t < 16
    ensures Swap(l[t]) == W(m, t) && Schedule(l[t := Swap(l[t])], m, t + 1)
  {
    hide Swap, Rol;
    var k := l[t := Swap(l[t])];
    if t == 15 {
      forall s | 0 <= s < 16
        ensures k[s % 16] == W(m, s)
      {
      }
    }
  }

  lemma Around(t: nat)
    requires 16 <= t
    ensures (t + 13) % 16 == (t - 3) % 16 && (t + 8) % 16 == (t - 8) % 16
    ensures (t + 2) % 16 == (t - 14) % 16 && t % 16 == (t - 16) % 16
  {
    OnceAround(t - 3);
    OnceAround(t - 8);
    OnceAround(t - 14);
    OnceAround(t - 16);
  }

  lemma OnceAround(k: nat)
    ensures (k + 16) % 16 == k % 16
  {
  }

  lemma OtherPlace(s: nat, t: nat)
    requires t - 16 < s < t
    ensures s % 16 != t % 16
  {
  }

  lemma LateStep(l: seq<Word>, m: seq<Word>, t: nat)
    requires Schedule(l, m, t) && 16 <= t
    ensures Rol(l[(t + 13) % 16] ^ l[(t + 8) % 16] ^ l[(t + 2) % 16] ^ l[t % 16], 1) == W(m, t)
    ensures Schedule(l[t % 16 := W(m, t)], m, t + 1)
  {
    hide Rol;
    Around(t);
    assert l[(t - 3) % 16] == W(m, t - 3) && l[(t - 8) % 16] == W(m, t - 8);
    assert l[(t - 14) % 16] == W(m, t - 14) && l[(t - 16) % 16] == W(m, t - 16);
    LateKeeps(l, m, t, W(m, t));
  }

  lemma LateKeeps(l: seq<Word>, m: seq<Word>, t: nat, w: Word)
    requires Schedule(l, m, t) && 16 <= t && w == W(m, t)
    ensures Schedule(l[t % 16 := w], m, t + 1)
  {
    hide Rol, W;
    var k := l[t % 16 := w];
    forall s | t + 1 - 16 <= s < t + 1
      ensures k[s % 16] == W(m, s)
    {
      if s < t {
        OtherPlace(s, t);
      }
    }
  }

  /** The macros blk0 and blk: the word for round t, written where the oldest one was. */
  method NextWord(l: array<Word>, t: nat, ghost m: seq<Word>) returns (w: Word)
    requires l.Length == 16 && |m| == 16 && Schedule(l[..], m, t)
    modifies l
    ensures w == W(m, t) && Schedule(l[..], m, t + 1)
  {
    hide Rol, Swap, W, Schedule;
    ghost var was := l[..];
    if t < 16 {
      EarlyStep(was, m, t);
      l[t] := Swap(l[t]);
      assert l[..] == was[t := Swap(was[t])];
      w := l[t];
    } else {
      LateStep(was, m, t);
      w := Rol(l[(t + 13) % 16] ^ l[(t + 8) % 16] ^ l[(t + 2) % 16] ^ l[t % 16], 1);
      l[t % 16] := w;
      assert l[..] == was[t % 16 := w];
    }
  }

  /** The logical functions as the macros spell them. */
  function MacroF(t: nat, w: Word, x: Word, y: Word): Word {
    if t < 20 then (w & (x ^ y)) ^ y
    else if 40 <= t < 60 then ((w | x) & y) | (w & x)
    else w ^ x ^ y
  }

  lemma MacroFIsF(t: nat, w: Word, x: Word, y: Word)
    ensures MacroF(t, w, x, y) == F(t, w, x, y)
  {
    Choose(w, x, y);
    Majority(w, x, y);
  }

  /** z += f + block + K + rol (v, 5) */
  function MacroSum(z: Word, f: Word, w: Word, k: Word, v: Word): Word {
    z + (f + w + k + v)
  }

  lemma SumInAnyOrder(z: Word, f: Word, w: Word, k: Word, v: Word)
    ensures MacroSum(z, f, w, k, v) == Sum5(v, f, z, k, w)
  {
  }

  /** The macros R0 to R4: round t, where v to z stand for a to e. */
  method MacroRound(l: array<Word>, t: nat, v: Word, w: Word, x: Word, y: Word, z: Word,
                    ghost r: Regs, ghost m: seq<Word>)
    returns (z': Word, w': Word)
    requires l.Length == 16 && |m| == 16 && Schedule(l[..], m, t) && Regs(v, w, x, y, z) == Rounds(r, m, t)
    modifies l
    ensures Schedule(l[..], m, t + 1) && Regs(z', v, w', x, y) == Rounds(r, m, t + 1)
  {
    hide Schedule, Rol, W, F, K, MacroF, Rounds, Sum5, MacroSum;
    MacroFIsF(t, w, x, y);
    OneMore(r, m, t);
    var word := NextWord(l, t, m);
    SumInAnyOrder(z, F(t, w, x, y), word, K(t), Rol(v, 5));
    z' := MacroSum(z, MacroF(t, w, x, y), word, K(t), Rol(v, 5));
    w' := Rol(w, 30);
  }

  lemma OneMore(r: Regs, m: seq<Word>, t: nat)
    requires |m| == 16
    ensures Rounds(r, m, t + 1) == Round(Rounds(r, m, t), t, W(m, t))
  {
  }

  lemma FourBytes(block: array<Byte>, at: nat, k: nat)
    requires at + BLOCK <= block.Length && k + 4 <= BLOCK
    ensures block[at..at + BLOCK][k..k + 4]
            == [block[at + k], block[at + k + 1], block[at + k + 2], block[at + k + 3]]
  {
    var bytes := block[at..at + BLOCK];
    assert bytes[k] == block[at + k] && bytes[k + 1] == block[at + k + 1];
    assert bytes[k + 2] == block[at + k + 2] && bytes[k + 3] == block[at + k + 3];
  }

  /** The block's words as a little-endian machine reads them. */
  method LoadBlock(block: array<Byte>, at: nat) returns (l: array<Word>)
    requires at + BLOCK <= block.Length
    ensures fresh(l) && l.Length == 16 && Schedule(l[..], Words(block[at..at + BLOCK]), 0)
  {
    l := new Word[16];
    ghost var m := Words(block[at..at + BLOCK]);
    var i := 0;
    while i < 16
      invariant i <= 16 && forall s :: 0 <= s < i ==> Swap(l[s]) == m[s]
    {
      hide Swap, Load, BigEndian;
      var p := at + 4 * i;
      l[i] := Load(block[p], block[p + 1], block[p + 2], block[p + 3]);
      SwapLoad(block[p], block[p + 1], block[p + 2], block[p + 3]);
      FourBytes(block, at, 4 * i);
      i := i + 1;
    }
  }

  /** The eighty rounds, five at a time so that the renamed registers come round again. */
  method AllRounds(l: array<Word>, r: Regs, ghost m: seq<Word>) returns (s: Regs)
    requires l.Length == 16 && |m| == 16 && Schedule(l[..], m, 0)
    modifies l
    ensures s == Rounds(r, m, 80)
  {
    hide Schedule, Round, Rounds;
    var a, b, c, d, e := r.a, r.b, r.c, r.d, r.e;
    NoRounds(r, m);
    var t := 0;
    while t < 80
      invariant t <= 80 && t % 5 == 0 && Schedule(l[..], m, t) && Regs(a, b, c, d, e) == Rounds(r, m, t)
    {
      e, b := MacroRound(l, t, a, b, c, d, e, r, m);
      d, a := MacroRound(l, t + 1, e, a, b, c, d, r, m);
      c, e := MacroRound(l, t + 2, d, e, a, b, c, r, m);
      b, d := MacroRound(l, t + 3, c, d, e, a, b, r, m);
      a, c := MacroRound(l, t + 4, b, c, d, e, a, r, m);
      t := t + 5;
    }
    s := Regs(a, b, c, d, e);
  }

  lemma NoRounds(r: Regs, m: seq<Word>)
    requires |m| == 16
    ensures Rounds(r, m, 0) == r
  {
  }

  /** `pd_sha1_transform`: the schedule is written over the block, so its bytes are lost. */
  method Transform(h: Regs, block: array<Byte>, at: nat) returns (s: Regs)
    requires at + BLOCK <= block.Length
    modifies block
    ensures s == Compress(h, old(block[at..at + BLOCK]))
    ensures block[..at] == old(block[..at]) && block[at + BLOCK..] == old(block[at + BLOCK..])
  {
    hide Rounds, Words, Schedule;
    var l := LoadBlock(block, at);
    var r := AllRounds(l, h, Words(block[at..at + BLOCK]));
    s := AddRegs(h, r);
    Overwrite(block, at);
  }

  /** The block was the schedule's storage: anything may be left there. */
  method Overwrite(block: array<Byte>, at: nat)
    requires at + BLOCK <= block.Length
    modifies block
    ensures block[..at] == old(block[..at]) && block[at + BLOCK..] == old(block[at + BLOCK..])
  {
    var i := 0;
    while i < BLOCK
      invariant i <= BLOCK
      invariant forall k :: 0 <= k < at || at + BLOCK <= k < block.Length ==> block[k] == old(block[k])
    {
      block[at + i] := *;
      i := i + 1;
    }
  }

  // ---- the context ------------------------------------------------------------------

  /** How many of n bytes are in complete blocks. */
  function Done(n: nat): (d: nat)
    ensures d <= n < d + BLOCK && d % BLOCK == 0 && n - d == n % BLOCK
  {
    n - n % BLOCK
  }

  /** The two halves of the bit count after n bytes. */
  function CountLow(n: nat): nat {
    8 * n % 0x1_0000_0000
  }

  function CountHigh(n: nat): nat {
    8 * n / 0x1_0000_0000 % 0x1_0000_0000
  }

  lemma PlaceInBlock(n: nat)
    ensures CountLow(n) / 8 % BLOCK == n % BLOCK
  {
    var q, r := n / 0x2000_0000, n % 0x2000_0000;
    DividedBy(8 * n, q, 8 * r, 0x1_0000_0000);
    Divided64(n, 0x80_0000 * q + r / 64, r % 64);
  }

  /** The carry of the bit count. */
  lemma Divided(v: nat, q: nat, r: nat)
    requires v == 0x1_0000_0000 * q + r && r < 0x1_0000_0000
    ensures v / 0x1_0000_0000 == q && v % 0x1_0000_0000 == r
  {
  }

  /** There is a carry into the high half. */
  predicate Overflows(low: nat, len: nat) {
    low + 8 * len % 0x1_0000_0000 >= 0x1_0000_0000
  }

  lemma HighOf(q: nat, x: nat)
    ensures (q + x) % 0x1_0000_0000 == (q % 0x1_0000_0000 + x) % 0x1_0000_0000
  {
    var c, r := q / 0x1_0000_0000, q % 0x1_0000_0000;
    var d, t := (r + x) / 0x1_0000_0000, (r + x) % 0x1_0000_0000;
    Divided(q + x, c + d, t);
  }

  lemma CountOn(n: nat, len: nat)
    ensures CountLow(n) < 0x1_0000_0000 && CountLow(n + len) == (CountLow(n) + 8 * len) % 0x1_0000_0000
    ensures var carry := if CountLow(n) + 8 * len % 0x1_0000_0000 >= 0x1_0000_0000 then 1 else 0;
            CountHigh(n + len) == (CountHigh(n) + len / 0x2000_0000 + carry) % 0x1_0000_0000
  {
    var q, r := 8 * n / 0x1_0000_0000, 8 * n % 0x1_0000_0000;
    var p, t := len / 0x2000_0000, 8 * (len % 0x2000_0000);
    Divided(8 * len, p, t);
    var carry := if r + t >= 0x1_0000_0000 then 1 else 0;
    Divided(8 * (n + len), q + p + carry, r + t - carry * 0x1_0000_0000);
    Divided(r + 8 * len, p + carry, r + t - carry * 0x1_0000_0000);
    HighOf(q, p + carry);
  }

  /** The comparison finds the carry of a short update, and always one in a long update. */
  lemma Carries(low: nat, len: nat, sum: nat)
    requires low < 0x1_0000_0000 && sum == (low + 8 * len) % 0x1_0000_0000
    ensures len < 0x2000_0000 ==> (sum < 8 * len <==> low + 8 * len % 0x1_0000_0000 >= 0x1_0000_0000)
    ensures len >= 0x2000_0000 ==> sum < 8 * len
  {
    if len < 0x2000_0000 {
      Divided(8 * len, 0, 8 * len);
      var carry := if low + 8 * len >= 0x1_0000_0000 then 1 else 0;
      Divided(low + 8 * len, carry, low + 8 * len - carry * 0x1_0000_0000);
    }
  }

  lemma AddTwice(h: nat, x: nat, y: nat)
    ensures ((h + x) % 0x1_0000_0000 + y) % 0x1_0000_0000 == (h + x + y) % 0x1_0000_0000
  {
    HighOf(h + x, y);
  }

  lemma OneTooMany(h: nat, carry: nat, taken: nat)
    requires carry <= taken <= 1
    ensures (h + taken) % 0x1_0000_0000 == (h + carry) % 0x1_0000_0000 <==> taken == carry
  {
    HighOf(h, 1);
    HighOf(h, 0);
  }

  class Context {
    var state: Regs
    var count0: nat
    var count1: nat
    const buffer: array<Byte>
    /** All the bytes so far. */
    ghost var msg: seq<Byte>

    ghost predicate Valid()
      reads this, buffer
    {
      && buffer.Length == BLOCK && count0 == CountLow(|msg|) && count1 == CountHigh(|msg|)
      && state == Process(H0, msg[..Done(|msg|)])
      && buffer[..|msg| % BLOCK] == msg[Done(|msg|)..]
    }

    /** `pd_sha1_init` */
    constructor ()
      ensures Valid() && msg == [] && fresh(buffer)
    {
      state := H0;
      count0, count1 := 0, 0;
      buffer := new Byte[BLOCK];
      msg := [];
    }

    /** memcpy(&buffer[j], &data[i], n) */
    method Copy(j: nat, data: array<Byte>, i: nat, n: nat)
      requires j + n <= buffer.Length && i + n <= data.Length && data != buffer
      modifies buffer
      ensures buffer[..j] == old(buffer[..j]) && buffer[j..j + n] == data[i..i + n]
    {
      var k := 0;
      while k < n
        invariant k <= n && buffer[..j] == old(buffer[..j]) && buffer[j..j + k] == data[i..i + k]
      {
        buffer[j + k] := data[i + k];
        assert buffer[j..j + k + 1] == buffer[j..j + k] + [data[i + k]];
        k := k + 1;
      }
    }

    /** The blocks of `pd_sha1_update`: the one in the buffer is filled up and processed, then
        those that lie in the data, from i on. */
    method Blocks(data: array<Byte>, j: nat) returns (i: nat)
      requires buffer.Length == BLOCK && j < BLOCK <= j + data.Length && data != buffer
      modifies this`state, buffer, data
      ensures i <= data.Length < i + BLOCK && (j + i) % BLOCK == 0
      ensures data[i..] == old(data[i..])
      ensures state == Process(old(state), old(buffer[..j] + data[..i]))
    {
      hide Compress, Process;
      ghost var bytes, head, h := data[..], buffer[..j], state;
      i := BLOCK - j;
      Copy(j, data, 0, i);
      assert buffer[0..0 + BLOCK] == head + bytes[..i];
      state := Transform(state, buffer, 0);
      OneBlock(h, head + bytes[..i]);
      while i + BLOCK - 1 < data.Length
        invariant BLOCK - j <= i <= data.Length && (j + i) % BLOCK == 0
        invariant data[i..] == bytes[i..]
        invariant state == Process(h, head + bytes[..i])
      {
        NextBlock(data, i, bytes, h, head);
        i := i + BLOCK;
      }
    }

    /** One block straight from the data. */
    method NextBlock(data: array<Byte>, i: nat, ghost bytes: seq<Byte>, ghost h: Regs, ghost head: seq<Byte>)
      requires i + BLOCK <= data.Length == |bytes| && data[i..] == bytes[i..]
      requires (|head| + i) % BLOCK == 0 && state == Process(h, head + bytes[..i])
      modifies this`state, data
      ensures data[i + BLOCK..] == bytes[i + BLOCK..]
      ensures state == Process(h, head + bytes[..i + BLOCK])
    {
      hide Compress, Process;
      ghost var block, rest := bytes[i..i + BLOCK], bytes[i + BLOCK..];
      assert data[i..i + BLOCK] == data[i..][..BLOCK] == block;
      assert data[i + BLOCK..] == data[i..][BLOCK..] == rest;
      ghost var before := state;
      state := Transform(state, data, i);
      OneBlock(before, block);
      ProcessAppend(h, head + bytes[..i], block);
      assert head + bytes[..i] + block == head + bytes[..i + BLOCK];
    }

    lemma OneBlock(h: Regs, block: seq<Byte>)
      requires |block| == BLOCK
      ensures Process(h, block) == Compress(h, block)
    {
      assert block[..BLOCK] == block && block[BLOCK..] == [];
    }

    /** The bit count of `pd_sha1_update`, in two 32-bit words. The carry is taken from a comparison
        with a 64-bit length in bits, so that it is right if and only if that has 32 bits or there
        is a carry. */
    method CountBits(len: nat, ghost n: nat)
      requires len < 0x2000_0000_0000_0000 && count0 == CountLow(n) && count1 == CountHigh(n)
      modifies this`count0, this`count1
      ensures count0 == CountLow(n + len)
      ensures count1 == CountHigh(n + len) <==> len < 0x2000_0000 || Overflows(CountLow(n), len)
    {
      CountOn(n, len);
      hide CountLow, CountHigh;
      ghost var carry := if CountLow(n) + 8 * len % 0x1_0000_0000 >= 0x1_0000_0000 then 1 else 0;
      count0 := (count0 + 8 * len) % 0x1_0000_0000;
      Carries(CountLow(n), len, count0);
      ghost var taken := if count0 < 8 * len then 1 else 0;
      if count0 < 8 * len {
        count1 := (count1 + 1) % 0x1_0000_0000;
      }
      count1 := (count1 + len / 0x2000_0000) % 0x1_0000_0000;
      AddTwice(old(count1), taken, len / 0x2000_0000);
      OneTooMany(old(count1) + len / 0x2000_0000, carry, taken);
    }

    /** Where the data goes in the buffer, and the bit count with it. */
    method Begin(len: nat, ghost n: nat) returns (j: nat)
      requires len < 0x2000_0000 && count0 == CountLow(n) && count1 == CountHigh(n)
      modifies this`count0, this`count1
      ensures j == n % BLOCK && count0 == CountLow(n + len) && count1 == CountHigh(n + len)
    {
      PlaceInBlock(n);
      j := count0 / 8 % BLOCK;
      hide CountLow, CountHigh, Overflows;
      CountBits(len, n);
    }

    /** `pd_sha1_update`. The data is overwritten where blocks were processed in place. */
    method Update(data: array<Byte>)
      requires Valid() && data != buffer && data.Length < 0x2000_0000
      modifies this, buffer, data
      ensures Valid() && msg == old(msg) + old(data[..])
    {
      hide Compress, Process, CountLow, CountHigh, Done;
      ghost var was, bytes := msg, data[..];
      var len := data.Length;
      var j := Begin(len, |msg|);
      msg := msg + bytes;
      ghost var h, head := state, buffer[..j];
      var i := 0;
      if j + len > BLOCK - 1 {
        i := Blocks(data, j);
        j := 0;
      }
      assert data[i..i + (len - i)] == bytes[i..];
      Copy(j, data, i, len - i);
      assert buffer[j..j + (len - i)] == bytes[i..];
      if i == 0 {
        assert bytes[i..] == bytes;
        Filled(was, bytes, h, head);
      } else {
        Advanced(was, bytes, h, head, i);
      }
    }

    lemma Filled(was: seq<Byte>, bytes: seq<Byte>, h: Regs, head: seq<Byte>)
      requires h == Process(H0, was[..Done(|was|)]) && head == was[Done(|was|)..]
      requires msg == was + bytes && buffer.Length == BLOCK
      requires count0 == CountLow(|msg|) && count1 == CountHigh(|msg|)
      requires |head| + |bytes| < BLOCK && state == h && buffer[..|head|] == head
      requires buffer[|head|..|head| + |bytes|] == bytes
      ensures Valid()
    {
      hide Process, CountLow, CountHigh;
      var d := Done(|was|);
      DoneIs(|msg|, d);
      assert msg[..d] == was[..d] && msg[d..] == head + bytes;
      assert buffer[..|head| + |bytes|] == buffer[..|head|] + buffer[|head|..|head| + |bytes|];
    }

    lemma Advanced(was: seq<Byte>, bytes: seq<Byte>, h: Regs, head: seq<Byte>, i: nat)
      requires h == Process(H0, was[..Done(|was|)]) && head == was[Done(|was|)..] && i <= |bytes|
      requires msg == was + bytes && buffer.Length == BLOCK
      requires count0 == CountLow(|msg|) && count1 == CountHigh(|msg|)
      requires (|head| + i) % BLOCK == 0 && |bytes| < i + BLOCK && state == Process(h, head + bytes[..i])
      requires buffer[..|bytes| - i] == bytes[i..]
      ensures Valid()
    {
      hide Process, CountLow, CountHigh;
      var d, n := Done(|was|), |was|;
      SumOfBlocks(d, |head| + i);
      DoneIs(|msg|, n + i);
      assert msg[..n + i] == was[..d] + (head + bytes[..i]) && msg[n + i..] == bytes[i..];
      ProcessAppend(H0, was[..d], head + bytes[..i]);
    }

    lemma DoneIs(n: nat, d: nat)
      requires d <= n < d + BLOCK && d % BLOCK == 0
      ensures Done(n) == d && n % BLOCK == n - d
    {
    }

    lemma SumOfBlocks(d: nat, e: nat)
      requires d % BLOCK == 0 && e % BLOCK == 0
      ensures (d + e) % BLOCK == 0
    {
    }

    /** The zero bytes of the padding are the fewest that do. */
    lemma FewestZeros(n: nat, k: nat)
      requires k <= ZeroCount(n)
      ensures (n + 1 + k) % BLOCK == 56 <==> k == ZeroCount(n)
    {
      var q, r := n / 64, n % 64;
      if r + 1 + k < 64 {
        Divided64(n + 1 + k, q, r + 1 + k);
      } else {
        Divided64(n + 1 + k, q + 1, r + 1 + k - 64);
      }
    }

    lemma Low8Of(n: nat, m: nat)
      requires n % 256 == m % 256
      ensures Low8(n) == Low8(m)
    {
    }

    /** Bytes that are shifted out do not depend on what is cut off above. */
    lemma CutOnce(n: nat)
      ensures n % 0x1_0000_0000 / 256 == n / 256 % 0x100_0000 && n % 0x1_0000_0000 % 256 == n % 256
    {
      var q, r := n / 0x1_0000_0000, n % 0x1_0000_0000;
      var a, b := r / 256, r % 256;
      Divided256(n, 0x100_0000 * q + a, b);
      DividedBy(0x100_0000 * q + a, q, a, 0x100_0000);
    }

    lemma CutTwice(n: nat)
      ensures n % 0x100_0000 / 256 == n / 256 % 0x1_0000 && n % 0x100_0000 % 256 == n % 256
    {
      var q, r := n / 0x100_0000, n % 0x100_0000;
      var a, b := r / 256, r % 256;
      Divided256(n, 0x1_0000 * q + a, b);
      assert (0x1_0000 * q + a) % 0x1_0000 == a;
    }

    lemma CutThrice(n: nat)
      ensures n % 0x1_0000 / 256 == n / 256 % 256 && n % 0x1_0000 % 256 == n % 256
    {
      var q, r := n / 0x1_0000, n % 0x1_0000;
      var a, b := r / 256, r % 256;
      Divided256(n, 256 * q + a, b);
      Divided256(256 * q + a, q, a);
    }

    /** The low four bytes of a number are those of its low 32 bits. */
    lemma LowBytes(n: nat)
      ensures var lo := n % 0x1_0000_0000;
              && Low8(Shr(n, 0)) == Low8(Shr(lo, 0)) && Low8(Shr(n, 1)) == Low8(Shr(lo, 1))
              && Low8(Shr(n, 2)) == Low8(Shr(lo, 2)) && Low8(Shr(n, 3)) == Low8(Shr(lo, 3))
    {
      hide Low8;
      var lo := n % 0x1_0000_0000;
      var n1 := n / 256;
      var n2 := n1 / 256;
      var n3 := n2 / 256;
      CutOnce(n);
      CutTwice(n1);
      CutThrice(n2);
      Shifts(n);
      Shifts(lo);
      Low8Of(n, lo);
      Low8Of(n1, lo / 256);
      Low8Of(n2, lo / 256 / 256);
      Low8Of(n3, lo / 256 / 256 / 256);
    }

    lemma Shifts(n: nat)
      ensures Shr(n, 0) == n && Shr(n, 1) == n / 256 && Shr(n, 2) == n / 256 / 256 && Shr(n, 3) == n / 256 / 256 / 256
    {
      assert Shr(n / 256, 1) == Shr(n / 256 / 256, 0);
      assert Shr(n / 256, 2) == Shr(n / 256 / 256, 1) == Shr(n / 256 / 256 / 256, 0);
    }

    lemma {:induction false} ShiftTwice(n: nat, j: nat, k: nat)
      ensures Shr(n, j + k) == Shr(Shr(n, j), k)
    {
      if j > 0 {
        ShiftTwice(n / 256, j - 1, k);
      }
    }

    lemma FourBytes(n: nat)
      ensures Shr(n, 4) == n / 0x1_0000_0000
    {
      Shifts(n);
      ShiftTwice(n, 3, 1);
      assert n / 256 / 256 == n / 0x1_0000;
      assert n / 0x1_0000 / 256 == n / 0x100_0000;
      assert n / 0x100_0000 / 256 == n / 0x1_0000_0000;
    }

    /** The bytes of the bit count, taken from its two halves. */
    lemma CountBytes(n: nat)
      ensures var hi, lo := CountHigh(n), CountLow(n);
              Length64(8 * n) ==
              [Low8(Shr(hi, 3)), Low8(Shr(hi, 2)), Low8(Shr(hi, 1)), Low8(Shr(hi, 0)),
               Low8(Shr(lo, 3)), Low8(Shr(lo, 2)), Low8(Shr(lo, 1)), Low8(Shr(lo, 0))]
    {
      hide Low8, Shr;
      var m := 8 * n;
      FourBytes(m);
      ShiftTwice(m, 4, 3);
      ShiftTwice(m, 4, 2);
      ShiftTwice(m, 4, 1);
      ShiftTwice(m, 4, 0);
      LowBytes(m / 0x1_0000_0000);
      LowBytes(m);
    }

    /** One more byte, as the padding does it. */
    method UpdateByte(b: Byte)
      requires Valid()
      modifies this, buffer
      ensures Valid() && msg == old(msg) + [b]
    {
      var one := new Byte[1](_ => b);
      assert one[..] == [b];
      Update(one);
    }

    /** The padding of `pd_sha1_final`. */
    method Pad()
      requires Valid()
      modifies this, buffer
      ensures Valid() && msg == Padded(old(msg))
    {
      hide Process, ZeroCount, Valid, Length64;
      ghost var m := msg;
      var finalcount := FinalCount();
      ghost var length := finalcount[..];
      UpdateByte(0x80);
      ghost var k := 0;
      assert m + [0x80] == m + [0x80] + Zeros(0);
      FewestZeros(|m|, k);
      PlaceIs();
      while count0 / 8 % BLOCK * 8 != 448
        invariant Valid() && k <= ZeroCount(|m|) && msg == m + [0x80] + Zeros(k)
        invariant count0 / 8 % BLOCK == |msg| % BLOCK
        invariant finalcount[..] == length && finalcount != buffer
        decreases ZeroCount(|m|) - k
      {
        FewestZeros(|m|, k);
        UpdateByte(0);
        assert m + [0x80] + Zeros(k) + [0] == m + [0x80] + Zeros(k + 1);
        k := k + 1;
        PlaceIs();
      }
      FewestZeros(|m|, k);
      Update(finalcount);
    }

    lemma PlaceIs()
      requires Valid()
      ensures count0 / 8 % BLOCK == |msg| % BLOCK
    {
      PlaceInBlock(|msg|);
    }

    /** The message length in bits, before the padding. */
    method FinalCount() returns (bytes: array<Byte>)
      requires Valid()
      ensures fresh(bytes) && bytes.Length == 8 && bytes[..] == Length64(8 * |msg|)
    {
      CountBytes(|msg|);
      hide Process, CountLow, CountHigh, Length64, Low8, Shr;
      bytes := new Byte[]
        [Low8(Shr(count1, 3)), Low8(Shr(count1, 2)), Low8(Shr(count1, 1)), Low8(Shr(count1, 0)),
         Low8(Shr(count0, 3)), Low8(Shr(count0, 2)), Low8(Shr(count0, 1)), Low8(Shr(count0, 0))];
      assert bytes[..] ==
             [Low8(Shr(count1, 3)), Low8(Shr(count1, 2)), Low8(Shr(count1, 1)), Low8(Shr(count1, 0)),
              Low8(Shr(count0, 3)), Low8(Shr(count0, 2)), Low8(Shr(count0, 1)), Low8(Shr(count0, 0))];
    }

    /** `pd_sha1_final`: the digest of everything that was given to `Update`. */
    method Final() returns (digest: seq<Byte>)
      requires Valid()
      modifies this, buffer
      ensures digest == Sha1(old(msg))
      ensures state == Regs(0, 0, 0, 0, 0) && count0 == count1 == 0
      ensures forall i :: 0 <= i < buffer.Length ==> buffer[i] == 0
    {
      Pad();
      WholeBlocks(msg);
      var h := state;
      digest := BytesOf(h.a) + BytesOf(h.b) + BytesOf(h.c) + BytesOf(h.d) + BytesOf(h.e);
      state, count0, count1 := Regs(0, 0, 0, 0, 0), 0, 0;
      var i := 0;
      while i < buffer.Length
        invariant i <= buffer.Length && forall j :: 0 <= j < i ==> buffer[j] == 0
        invariant state == Regs(0, 0, 0, 0, 0) && count0 == count1 == 0
      {
        buffer[i] := 0;
        i := i + 1;
      }
    }

    lemma WholeBlocks(m: seq<Byte>)
      requires |m| % BLOCK == 0
      ensures m[..Done(|m|)] == m
    {
    }
  }

  function Joined(pieces: seq<seq<Byte>>): seq<Byte> {
    if pieces == [] then [] else Joined(pieces[..|pieces| - 1]) + pieces[|pieces| - 1]
  }

  /** A message handed over in any pieces: the digest is that of the whole. */
  method Hash(pieces: seq<seq<Byte>>) returns (digest: seq<Byte>)
    requires forall i :: 0 <= i < |pieces| ==> |pieces[i]| < 0x2000_0000
    ensures digest == Sha1(Joined(pieces))
  {
    hide Sha1, Context.Valid;
    var context := new Context();
    var i := 0;
    assert pieces[..0] == [];
    while i < |pieces|
      invariant i <= |pieces| && context.Valid() && context.msg == Joined(pieces[..i])
      invariant fresh(context) && fresh(context.buffer)
    {
      var piece := pieces[i];
      var data := new Byte[|piece|](k requires 0 <= k < |piece| => piece[k]);
      assert data[..] == piece;
      assert pieces[..i + 1][..i] == pieces[..i];
      context.Update(data);
      i := i + 1;
    }
    assert pieces[..i] == pieces;
    digest := context.Final();
  }
}

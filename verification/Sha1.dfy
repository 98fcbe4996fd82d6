/**
 * SHA-1 as in FIPS PUB 180-1, and the streaming implementation of ExtNet/common/sha1.c, whose
 * context collects a message in blocks of 64 octets.
 */
module Sha1 {
  import opened Common

  type word = bv32

  // ---------------------------------------------------------------- FIPS PUB 180-1

  /** The circular left shift of section 3 of FIPS PUB 180-1. */
  function Rotl(n: nat, x: word): word
    requires n < 32
  {
    (x << n) | (x >> (32 - n))
  }

  /** The three rotations in use, in arithmetic modulo 2^32: what is shifted out at the top comes in at the bottom. */
  lemma {:induction false} RotlIsArithmetic(x: word)
    ensures Rotl(1, x) == 2 * x + (x >> 31)
    ensures Rotl(5, x) == 32 * x + (x >> 27)
    ensures Rotl(30, x) == 0x4000_0000 * x + (x >> 2)
  {
    Shifts(x);
  }

  lemma {:induction false} Shifts(x: word)
    ensures (x << 1) | (x >> 31) == 2 * x + (x >> 31)
    ensures (x << 5) | (x >> 27) == 32 * x + (x >> 27)
    ensures (x << 30) | (x >> 2) == 0x4000_0000 * x + (x >> 2)
  {}

  /** The logical functions of section 5 of FIPS PUB 180-1. */
  function F(t: nat, b: word, c: word, d: word): word {
    if t < 20 then (b & c) | (!b & d)
    else if t < 40 then b ^ c ^ d
    else if t < 60 then (b & c) | (b & d) | (c & d)
    else b ^ c ^ d
  }

  /** The constants of section 6 of FIPS PUB 180-1. */
  function K(t: nat): word {
    if t < 20 then 0x5A827999 else if t < 40 then 0x6ED9EBA1 else if t < 60 then 0x8F1BBCDC else 0xCA62C1D6
  }

  /** The five words of chaining value or of working registers. */
  datatype Regs = Regs(a: word, b: word, c: word, d: word, e: word)

  const INITIAL := Regs(0x67452301, 0xEFCDAB89, 0x98BADCFE, 0x10325476, 0xC3D2E1F0)

  /** Four octets as a big-endian word. */
  function Word(b0: byte, b1: byte, b2: byte, b3: byte): word {
    (b0 as word << 24) | (b1 as word << 16) | (b2 as word << 8) | b3 as word
  }

  function Mix(w3: word, w8: word, w14: word, w16: word): word {
    Rotl(1, w3 ^ w8 ^ w14 ^ w16)
  }

  /** A schedule word is the exclusive or of four earlier ones, rotated by one. */
  lemma {:induction false} MixRotates(w3: word, w8: word, w14: word, w16: word)
    ensures var x := w3 ^ w8 ^ w14 ^ w16; Mix(w3, w8, w14, w16) == 2 * x + (x >> 31)
  {
    RotlIsArithmetic(w3 ^ w8 ^ w14 ^ w16);
    hide Rotl;
  }

  /** The first `n` words of the message schedule, steps (a) and (b) in section 7 of FIPS PUB 180-1. */
  function Schedule(block: seq<byte>, n: nat): (w: seq<word>)
    requires |block| == 64 && n <= 80
    ensures |w| == n
  {
    if n == 0 then []
    else
      var t := n - 1;
      var w := Schedule(block, t);
      w + [if t < 16 then Word(block[4 * t], block[4 * t + 1], block[4 * t + 2], block[4 * t + 3])
           else Mix(w[t - 3], w[t - 8], w[t - 14], w[t - 16])]
  }

  /** Addition of words is modulo 2^32. */
  function Sum(x: word, y: word, z: word, u: word, v: word): word {
    x + y + z + u + v
  }

  /** Step (d) in section 7 of FIPS PUB 180-1 for one `t`. */
  function Round(r: Regs, t: nat, w: word): Regs {
    Regs(Sum(Rotl(5, r.a), F(t, r.b, r.c, r.d), r.e, w, K(t)), r.a, Rotl(30, r.b), r.c, r.d)
  }

  function Rounds(h: Regs, w: seq<word>, n: nat): Regs
    requires n <= |w|
  {
    if n == 0 then h else Round(Rounds(h, w, n - 1), n - 1, w[n - 1])
  }

  function Plus(x: word, y: word): word {
    x + y
  }

  /** Steps (a) to (e) in section 7 of FIPS PUB 180-1: one block. */
  function Compress(h: Regs, block: seq<byte>): Regs
    requires |block| == 64
  {
    var r := Rounds(h, Schedule(block, 80), 80);
    Regs(Plus(h.a, r.a), Plus(h.b, r.b), Plus(h.c, r.c), Plus(h.d, r.d), Plus(h.e, r.e))
  }

  function HashBlocks(s: seq<byte>): Regs
    requires |s| % 64 == 0
  {
    if s == [] then INITIAL else Compress(HashBlocks(s[..|s| - 64]), s[|s| - 64..])
  }

  function Zeros(n: nat): (z: seq<byte>)
    ensures |z| == n
  {
    seq(n, i => 0)
  }

  function Octet(n: nat): byte {
    n % 256
  }

  /** A 64-bit number, most significant octet first. */
  function BigEndian64(n: nat): (s: seq<byte>)
    ensures |s| == 8
  {
    [Octet(n / 0x100_0000_0000_0000), Octet(n / 0x1_0000_0000_0000),
     Octet(n / 0x100_0000_0000), Octet(n / 0x1_0000_0000),
     Octet(n / 0x100_0000), Octet(n / 0x1_0000), Octet(n / 0x100), Octet(n)]
  }

  /** Number of zero octets between the octet 0x80 and the length. */
  function Gap(n: nat): (k: nat)
    ensures (n + 1 + k + 8) % 64 == 0 && k < 64
  {
    (119 - n % 64) % 64
  }

  /** The padded message, section 4 of FIPS PUB 180-1, for a message of whole octets. */
  function Pad(m: seq<byte>): (p: seq<byte>)
    ensures |p| % 64 == 0
  {
    m + [0x80] + Zeros(Gap(|m|)) + BigEndian64(8 * |m|)
  }

  /** Octet `k` of a word, the most significant first. */
  function WordOctet(x: word, k: nat): byte
    requires k < 4
  {
    (x >> (8 * (3 - k))) as int % 256
  }

  function RegsWord(r: Regs, i: nat): word
    requires i < 5
  {
    match i case 0 => r.a case 1 => r.b case 2 => r.c case 3 => r.d case 4 => r.e
  }

  /** The message digest: the chaining value after the padded message, as 20 octets. */
  function Digest(m: seq<byte>): (d: seq<byte>)
    ensures |d| == 20
  {
    var h := HashBlocks(Pad(m));
    seq(20, (i: int) requires 0 <= i < 20 => WordOctet(RegsWord(h, i / 4), i % 4))
  }

  // ---------------------------------------------------------------- the padding

  lemma {:induction false} HashBlocksAppend(s: seq<byte>, block: seq<byte>)
    requires |s| % 64 == 0 && |block| == 64
    ensures HashBlocks(s + block) == Compress(HashBlocks(s), block)
  {
    hide Compress;
    assert (s + block)[..|s + block| - 64] == s && (s + block)[|s + block| - 64..] == block;
  }

  lemma {:induction false} DropOctet(n: nat, k: nat)
    requires k in {1, 0x100, 0x1_0000, 0x100_0000, 0x1_0000_0000, 0x100_0000_0000, 0x1_0000_0000_0000}
    ensures n / k == n / (k * 256) * 256 + n / k % 256
  {}

  /** Equal leading octets and equal next octets. */
  lemma {:induction false} NextOctetEqual(a: nat, b: nat, k: nat)
    requires k in {1, 0x100, 0x1_0000, 0x100_0000, 0x1_0000_0000, 0x100_0000_0000, 0x1_0000_0000_0000}
    requires a / (k * 256) == b / (k * 256) && Octet(a / k) == Octet(b / k)
    ensures a / k == b / k
  {
    DropOctet(a, k);
    DropOctet(b, k);
  }

  lemma {:induction false} OctetsOf(n: nat)
    ensures var s := BigEndian64(n);
      && s[0] == Octet(n / 0x100_0000_0000_0000) && s[1] == Octet(n / 0x1_0000_0000_0000)
      && s[2] == Octet(n / 0x100_0000_0000) && s[3] == Octet(n / 0x1_0000_0000)
      && s[4] == Octet(n / 0x100_0000) && s[5] == Octet(n / 0x1_0000)
      && s[6] == Octet(n / 0x100) && s[7] == Octet(n / 1)
  {
    hide Octet;
  }

  lemma {:induction false} FirstOctet(n: nat)
    requires n < TWO_64
    ensures Octet(n / 0x100_0000_0000_0000) == n / 0x100_0000_0000_0000
  {}

  lemma {:induction false} BigEndianInjective(a: nat, b: nat)
    requires a < TWO_64 && b < TWO_64 && BigEndian64(a) == BigEndian64(b)
    ensures a == b
  {
    hide BigEndian64, Octet;
    OctetsOf(a);
    OctetsOf(b);
    FirstOctet(a);
    FirstOctet(b);
    NextOctetEqual(a, b, 0x1_0000_0000_0000);
    NextOctetEqual(a, b, 0x100_0000_0000);
    NextOctetEqual(a, b, 0x1_0000_0000);
    NextOctetEqual(a, b, 0x100_0000);
    NextOctetEqual(a, b, 0x1_0000);
    NextOctetEqual(a, b, 0x100);
    NextOctetEqual(a, b, 1);
  }

  /** The length in the last eight octets makes the padding injective on messages below 2^64 bits. */
  lemma {:induction false} PadInjective(a: seq<byte>, b: seq<byte>)
    requires 8 * |a| < TWO_64 && 8 * |b| < TWO_64 && Pad(a) == Pad(b)
    ensures a == b
  {
    assert Pad(a)[|Pad(a)| - 8..] == BigEndian64(8 * |a|);
    assert Pad(b)[|Pad(b)| - 8..] == BigEndian64(8 * |b|);
    BigEndianInjective(8 * |a|, 8 * |b|);
    assert Pad(a)[..|a|] == a && Pad(b)[..|b|] == b;
  }

  /** The complete blocks of a message. */
  function Whole(m: seq<byte>): (w: seq<byte>)
    ensures |w| % 64 == 0
  {
    m[..|m| - |m| % 64]
  }

  /** What is left of a message after its complete blocks. */
  function Part(m: seq<byte>): (p: seq<byte>)
    ensures |p| == |m| % 64
  {
    m[|m| - |m| % 64..]
  }

  /** The incomplete block `p` of a message of `n` octets, continued by the padding. */
  function LastBlocks(p: seq<byte>, n: nat): (s: seq<byte>)
    requires |p| < 64
    ensures |s| == if |p| <= 55 then 64 else 128
  {
    if |p| <= 55 then p + [0x80] + Zeros(55 - |p|) + BigEndian64(8 * n)
    else p + [0x80] + Zeros(63 - |p|) + (Zeros(56) + BigEndian64(8 * n))
  }

  /** Padding completes the last incomplete block, with a second block when fewer than nine octets are free. */
  lemma {:induction false} PadSplits(m: seq<byte>)
    ensures Pad(m) == Whole(m) + LastBlocks(Part(m), |m|)
  {
    hide BigEndian64;
    var i := |m| % 64;
    assert m == Whole(m) + Part(m);
    assert Gap(|m|) == if i <= 55 then 55 - i else 119 - i;
    if i > 55 {
      assert Zeros(Gap(|m|)) == Zeros(63 - i) + Zeros(56);
    }
  }

  /** The chaining value after the padded message, from the one after its complete blocks. */
  lemma {:induction false} HashOfPad(m: seq<byte>)
    ensures var h, s := HashBlocks(Whole(m)), LastBlocks(Part(m), |m|);
            HashBlocks(Pad(m)) == if |s| == 64 then Compress(h, s) else Compress(Compress(h, s[..64]), s[64..])
  {
    hide Compress, LastBlocks, Pad, HashBlocks;
    var w, s := Whole(m), LastBlocks(Part(m), |m|);
    PadSplits(m);
    if |s| == 64 {
      HashBlocksAppend(w, s);
    } else {
      assert w + s == w + s[..64] + s[64..];
      HashBlocksAppend(w, s[..64]);
      HashBlocksAppend(w + s[..64], s[64..]);
    }
  }

  lemma {:induction false} NothingHashed()
    ensures Whole([]) == [] && Part([]) == [] && HashBlocks([]) == INITIAL
  {
    hide Compress;
  }

  /** One more octet either extends the incomplete block or completes it. */
  lemma {:induction false} OneMore(m: seq<byte>, b: byte)
    ensures |Part(m)| < 63 ==> Whole(m + [b]) == Whole(m) && Part(m + [b]) == Part(m) + [b]
    ensures |Part(m)| == 63 ==>
              && Part(m + [b]) == [] && Whole(m + [b]) == m + [b]
              && HashBlocks(m + [b]) == Compress(HashBlocks(Whole(m)), Part(m) + [b])
  {
    hide Compress, HashBlocks;
    var n := |m|;
    var k := n - n % 64;
    assert (m + [b])[..k] == m[..k] && (m + [b])[k..] == m[k..] + [b];
    assert m == m[..k] + m[k..];
    if n % 64 < 63 {
      assert n + 1 - (n + 1) % 64 == k;
    } else {
      assert (n + 1) % 64 == 0;
      assert m + [b] == Whole(m) + (Part(m) + [b]);
      HashBlocksAppend(Whole(m), Part(m) + [b]);
    }
  }

  // ---------------------------------------------------------------- the streaming context

  const SUCCESS := 0
  const NULL := 1
  const STATE_ERROR := 3

  class Context {
    const intermediateHash: array<word>
    const messageBlock: array<byte>
    var lengthLow: nat
    var lengthHigh: nat
    var blockIndex: nat
    var computed: bool
    var corrupted: nat
    /** The octets taken in since the last reset. */
    ghost var absorbed: seq<byte>

    ghost predicate Shape()
      reads this
    {
      && intermediateHash.Length == 5 && messageBlock.Length == 64
      && (intermediateHash as object) != messageBlock
      && lengthLow < TWO_32 && lengthHigh < TWO_32
    }

    ghost function H(): Regs
      reads this, intermediateHash
      requires intermediateHash.Length == 5
    {
      Regs(intermediateHash[0], intermediateHash[1], intermediateHash[2], intermediateHash[3], intermediateHash[4])
    }

    /** Still taking octets: everything but the last incomplete block has been hashed. */
    ghost predicate Open()
      reads this, intermediateHash, messageBlock
    {
      && Shape() && !computed && corrupted == 0
      && lengthHigh * TWO_32 + lengthLow == 8 * |absorbed|
      && blockIndex == |Part(absorbed)| < 64
      && messageBlock[..blockIndex] == Part(absorbed)
      && H() == HashBlocks(Whole(absorbed))
    }

    /** The digest has been computed and can be read again. */
    ghost predicate Done()
      reads this, intermediateHash, messageBlock
    {
      && Shape() && computed && corrupted == 0 && blockIndex == 0
      && H() == HashBlocks(Pad(absorbed))
    }

    ghost predicate Valid()
      reads this, intermediateHash, messageBlock
    {
      Shape() && blockIndex < 64 && (corrupted == 0 ==> Open() || Done())
    }

    constructor ()
      ensures Open() && absorbed == []
      ensures fresh(intermediateHash) && fresh(messageBlock)
    {
      intermediateHash := new word[5];
      messageBlock := new byte[64];
      lengthLow, lengthHigh, blockIndex, computed, corrupted, absorbed := 0, 0, 0, false, 0, [];
      new;
      Reset();
    }

    method Reset()
      requires Shape()
      modifies this, intermediateHash
      ensures Open() && absorbed == []
    {
      hide HashBlocks, Whole, Part;
      NothingHashed();
      lengthLow, lengthHigh, blockIndex := 0, 0, 0;
      intermediateHash[0] := 0x67452301;
      intermediateHash[1] := 0xEFCDAB89;
      intermediateHash[2] := 0x98BADCFE;
      intermediateHash[3] := 0x10325476;
      intermediateHash[4] := 0xC3D2E1F0;
      computed, corrupted := false, 0;
      absorbed := [];
    }

    /** One octet into the context: the body of the loop in `SHA1Input`. */
    method Absorb(b: byte)
      requires Open()
      modifies this, intermediateHash, messageBlock
      ensures Valid() && !computed && absorbed == old(absorbed) + [b]
      ensures if 8 * (|old(absorbed)| + 1) < TWO_64 then Open() else corrupted == 1
    {
      hide Compress, HashBlocks, Part, Whole;
      OneMore(absorbed, b);
      absorbed := absorbed + [b];
      messageBlock[blockIndex] := b;
      blockIndex := blockIndex + 1;
      assert messageBlock[..blockIndex] == Part(old(absorbed)) + [b];
      CountOctet(|old(absorbed)|);
      if blockIndex == 64 {
        assert messageBlock[..] == messageBlock[..64];
        ProcessMessageBlock();
      }
    }

    /** The two-word counter of bits; `n` is the number of octets counted so far. */
    method CountOctet(ghost n: nat)
      requires Shape() && corrupted == 0 && lengthHigh * TWO_32 + lengthLow == 8 * n
      modifies this`lengthLow, this`lengthHigh, this`corrupted
      ensures Shape()
      ensures if 8 * (n + 1) < TWO_64 then corrupted == 0 && lengthHigh * TWO_32 + lengthLow == 8 * (n + 1)
              else corrupted == 1
    {
      lengthLow := (lengthLow + 8) % TWO_32;
      if lengthLow == 0 {
        lengthHigh := (lengthHigh + 1) % TWO_32;
        if lengthHigh == 0 {
          corrupted := 1;
        }
      }
    }

    /** `message` is None for a null pointer. */
    method Input(message: Option<seq<byte>>, length: nat) returns (r: nat)
      requires Valid() && (message.Some? ==> length <= |message.value|)
      modifies this, intermediateHash, messageBlock
      ensures Valid()
      ensures length == 0 ==> r == 0
      ensures length > 0 && message.None? ==> r == 1
      ensures length == 0 || message.None? ==>
                absorbed == old(absorbed) && computed == old(computed) && corrupted == old(corrupted)
      ensures length > 0 && message.Some? && old(computed) ==> r == 3 && corrupted == 3
      ensures length > 0 && message.Some? && !old(computed) && old(corrupted) != 0 ==>
                r == old(corrupted) && corrupted == old(corrupted)
      ensures length > 0 && message.Some? && (old(computed) || old(corrupted) != 0) ==> absorbed == old(absorbed)
      ensures length > 0 && message.Some? && old(Open()) ==>
                && r == 0
                && if 8 * (|old(absorbed)| + length) < TWO_64
                   then Open() && absorbed == old(absorbed) + message.value[..length]
                   else corrupted == 1
    {
      hide HashBlocks, Part, Whole, Pad;
      if length == 0 {
        return SUCCESS;
      }
      if message.None? {
        return NULL;
      }
      if computed {
        corrupted := STATE_ERROR;
        return STATE_ERROR;
      }
      if corrupted != 0 {
        return corrupted;
      }
      ghost var start := absorbed;
      var i := 0;
      while i < length && corrupted == 0
        invariant 0 <= i <= length && Valid() && !computed
        invariant absorbed == start + message.value[..i]
        invariant if 8 * |absorbed| < TWO_64 then Open() else corrupted == 1
      {
        assert message.value[..i + 1] == message.value[..i] + [message.value[i]];
        Absorb(message.value[i]);
        i := i + 1;
      }
      r := SUCCESS;
    }

    method FillZeros(limit: nat)
      requires Shape() && blockIndex <= limit <= 64
      modifies this`blockIndex, messageBlock
      ensures blockIndex == limit
      ensures messageBlock[..limit] == old(messageBlock[..blockIndex]) + Zeros(limit - old(blockIndex))
    {
      ghost var start := blockIndex;
      while blockIndex < limit
        invariant start <= blockIndex <= limit
        invariant messageBlock[..blockIndex] == old(messageBlock[..blockIndex]) + Zeros(blockIndex - start)
      {
        messageBlock[blockIndex] := 0;
        blockIndex := blockIndex + 1;
      }
    }

    /** The message length as the last eight octets of the block. */
    method StoreLength()
      requires Shape()
      modifies messageBlock
      ensures messageBlock[..] == old(messageBlock[..56]) + BigEndian64(lengthHigh * TWO_32 + lengthLow)
    {
      messageBlock[56] := lengthHigh / 0x100_0000 % 256;
      messageBlock[57] := lengthHigh / 0x1_0000 % 256;
      messageBlock[58] := lengthHigh / 0x100 % 256;
      messageBlock[59] := lengthHigh % 256;
      messageBlock[60] := lengthLow / 0x100_0000 % 256;
      messageBlock[61] := lengthLow / 0x1_0000 % 256;
      messageBlock[62] := lengthLow / 0x100 % 256;
      messageBlock[63] := lengthLow % 256;
      LengthOctets(lengthHigh, lengthLow);
    }

    method PadMessage()
      requires Open()
      modifies this`blockIndex, intermediateHash, messageBlock
      ensures Shape() && blockIndex == 0 && H() == HashBlocks(Pad(absorbed))
    {
      hide Compress, HashBlocks, Part, Whole, Pad, BigEndian64, Zeros;
      HashOfPad(absorbed);
      ghost var p := Part(absorbed);
      if blockIndex > 55 {
        messageBlock[blockIndex] := 0x80;
        blockIndex := blockIndex + 1;
        assert messageBlock[..blockIndex] == p + [0x80];
        FillZeros(64);
        assert messageBlock[..] == messageBlock[..64] == LastBlocks(p, |absorbed|)[..64];
        ProcessMessageBlock();
        FillZeros(56);
        assert messageBlock[..56] == Zeros(56);
      } else {
        messageBlock[blockIndex] := 0x80;
        blockIndex := blockIndex + 1;
        assert messageBlock[..blockIndex] == p + [0x80];
        FillZeros(56);
      }
      StoreLength();
      assert messageBlock[..] == LastBlocks(p, |absorbed|)[if |p| <= 55 then 0 else 64..];
      ProcessMessageBlock();
    }

    /** `digest` is null for a null pointer. */
    method Result(digest: array?<byte>) returns (r: nat)
      requires Valid() && (digest != null ==> digest.Length == 20 && digest != messageBlock)
      modifies this, intermediateHash, messageBlock, digest
      ensures Valid() && absorbed == old(absorbed)
      ensures digest == null ==> r == 1 && computed == old(computed) && corrupted == old(corrupted)
      ensures digest != null && old(corrupted) != 0 ==> r == old(corrupted) && corrupted == old(corrupted)
      ensures digest != null && old(corrupted) == 0 ==> r == 0 && Done() && digest[..] == Digest(absorbed)
    {
      hide HashBlocks, Pad, Digest, Whole, Part;
      if digest == null {
        return NULL;
      }
      if corrupted != 0 {
        return corrupted;
      }
      if !computed {
        PadMessage();
        ClearBlock();
        lengthLow, lengthHigh, computed := 0, 0, true;
      }
      WriteDigest(digest);
      r := SUCCESS;
    }

    /** The message may be sensitive: clear it out. */
    method ClearBlock()
      requires Shape()
      modifies messageBlock
      ensures messageBlock[..] == Zeros(64)
    {
      for i := 0 to 64
        invariant messageBlock[..i] == Zeros(i)
      {
        messageBlock[i] := 0;
      }
    }

    method WriteDigest(digest: array<byte>)
      requires Done() && digest.Length == 20 && digest != messageBlock
      modifies digest
      ensures digest[..] == Digest(absorbed)
    {
      hide HashBlocks, Pad, WordOctet;
      for i := 0 to 20
        invariant forall k :: 0 <= k < i ==> digest[k] == Digest(absorbed)[k]
      {
        assert intermediateHash[i / 4] == RegsWord(H(), i / 4);
        digest[i] := WordOctet(intermediateHash[i / 4], i % 4);
      }
    }

    method ProcessMessageBlock()
      requires Shape()
      modifies this`blockIndex, intermediateHash
      ensures Shape() && blockIndex == 0
      ensures H() == Compress(old(H()), messageBlock[..])
    {
      hide Rounds, Schedule, Plus;
      var w := ExpandBlock();
      var r := RunRounds(w);
      intermediateHash[0] := Plus(intermediateHash[0], r.a);
      intermediateHash[1] := Plus(intermediateHash[1], r.b);
      intermediateHash[2] := Plus(intermediateHash[2], r.c);
      intermediateHash[3] := Plus(intermediateHash[3], r.d);
      intermediateHash[4] := Plus(intermediateHash[4], r.e);
      blockIndex := 0;
    }

    /** The first two loops of the block function: the 80 words of the schedule. */
    method ExpandBlock() returns (w: array<word>)
      requires Shape()
      ensures fresh(w) && w[..] == Schedule(messageBlock[..], 80)
    {
      hide Word, Mix, Schedule;
      ghost var block := messageBlock[..];
      w := new word[80];
      ScheduleStarts(block);
      for t := 0 to 16
        invariant w[..t] == Schedule(block, t)
      {
        ScheduleNext(block, t);
        w[t] := Word(messageBlock[t * 4], messageBlock[t * 4 + 1], messageBlock[t * 4 + 2], messageBlock[t * 4 + 3]);
      }
      for t := 16 to 80
        invariant w[..t] == Schedule(block, t)
      {
        ScheduleNext(block, t);
        w[t] := Mix(w[t - 3], w[t - 8], w[t - 14], w[t - 16]);
      }
    }

    /** The four loops of the block function over A to E. */
    method RunRounds(w: array<word>) returns (r: Regs)
      requires Shape() && w.Length == 80
      ensures r == Rounds(H(), w[..], 80)
    {
      hide Rounds, Rotl, Sum;
      ghost var h, s := H(), w[..];
      var a, b, c, d, e := intermediateHash[0], intermediateHash[1], intermediateHash[2], intermediateHash[3],
                           intermediateHash[4];
      RoundsStart(h, s);
      for t := 0 to 20
        invariant Regs(a, b, c, d, e) == Rounds(h, s, t)
      {
        RoundsNext(h, s, t);
        var temp := Sum(Rotl(5, a), (b & c) | (!b & d), e, w[t], 0x5A827999);
        e, d, c, b, a := d, c, Rotl(30, b), a, temp;
      }
      for t := 20 to 40
        invariant Regs(a, b, c, d, e) == Rounds(h, s, t)
      {
        RoundsNext(h, s, t);
        var temp := Sum(Rotl(5, a), b ^ c ^ d, e, w[t], 0x6ED9EBA1);
        e, d, c, b, a := d, c, Rotl(30, b), a, temp;
      }
      for t := 40 to 60
        invariant Regs(a, b, c, d, e) == Rounds(h, s, t)
      {
        RoundsNext(h, s, t);
        var temp := Sum(Rotl(5, a), (b & c) | (b & d) | (c & d), e, w[t], 0x8F1BBCDC);
        e, d, c, b, a := d, c, Rotl(30, b), a, temp;
      }
      for t := 60 to 80
        invariant Regs(a, b, c, d, e) == Rounds(h, s, t)
      {
        RoundsNext(h, s, t);
        var temp := Sum(Rotl(5, a), b ^ c ^ d, e, w[t], 0xCA62C1D6);
        e, d, c, b, a := d, c, Rotl(30, b), a, temp;
      }
      r := Regs(a, b, c, d, e);
    }
  }

  lemma {:induction false} HighOctet(high: nat, low: nat, k: nat)
    requires low < TWO_32 && k in {1, 0x100, 0x1_0000, 0x100_0000}
    ensures (high * TWO_32 + low) / (TWO_32 * k) == high / k
  {
    assert (high * TWO_32 + low) / TWO_32 == high;
  }

  lemma {:induction false} LowOctet(high: nat, low: nat, k: nat)
    requires low < TWO_32 && k in {1, 0x100, 0x1_0000, 0x100_0000}
    ensures Octet((high * TWO_32 + low) / k) == Octet(low / k)
  {
    var x := high * TWO_32 + low;
    if k == 1 {
      SameOctet(x, low, high * 0x100_0000);
    } else if k == 0x100 {
      assert x / 0x100 == low / 0x100 + high * 0x100_0000;
      SameOctet(x / 0x100, low / 0x100, high * 0x1_0000);
    } else if k == 0x1_0000 {
      assert x / 0x1_0000 == low / 0x1_0000 + high * 0x1_0000;
      SameOctet(x / 0x1_0000, low / 0x1_0000, high * 0x100);
    } else {
      assert x / 0x100_0000 == low / 0x100_0000 + high * 0x100;
      SameOctet(x / 0x100_0000, low / 0x100_0000, high);
    }
  }

  lemma {:induction false} SameOctet(x: nat, y: nat, q: nat)
    requires x == y + q * 256
    ensures Octet(x) == Octet(y)
  {}

  lemma {:induction false} LengthOctets(high: nat, low: nat)
    requires high < TWO_32 && low < TWO_32
    ensures BigEndian64(high * TWO_32 + low) ==
            [Octet(high / 0x100_0000), Octet(high / 0x1_0000), Octet(high / 0x100), Octet(high),
             Octet(low / 0x100_0000), Octet(low / 0x1_0000), Octet(low / 0x100), Octet(low)]
  {
    hide Octet;
    HighOctet(high, low, 0x100_0000);
    HighOctet(high, low, 0x1_0000);
    HighOctet(high, low, 0x100);
    HighOctet(high, low, 1);
    LowOctet(high, low, 0x100_0000);
    LowOctet(high, low, 0x1_0000);
    LowOctet(high, low, 0x100);
    LowOctet(high, low, 1);
  }

  lemma ScheduleStarts(block: seq<byte>)
    requires |block| == 64
    ensures Schedule(block, 0) == []
  {}

  lemma ScheduleNext(block: seq<byte>, t: nat)
    requires |block| == 64 && t < 80
    ensures var w := Schedule(block, t);
            && (t < 16 ==>
                  var b0, b1, b2, b3 := block[4 * t], block[4 * t + 1], block[4 * t + 2], block[4 * t + 3];
                  Schedule(block, t + 1) == w + [Word(b0, b1, b2, b3)])
            && (t >= 16 ==> Schedule(block, t + 1) == w + [Mix(w[t - 3], w[t - 8], w[t - 14], w[t - 16])])
  {
    hide Word, Mix;
  }

  lemma RoundsStart(h: Regs, w: seq<word>)
    ensures Rounds(h, w, 0) == h
  {}

  lemma RoundsNext(h: Regs, w: seq<word>, t: nat)
    requires t < |w|
    ensures Rounds(h, w, t + 1) == Round(Rounds(h, w, t), t, w[t])
  {
    hide Round;
  }

  // ---------------------------------------------------------------- whole messages

  function Concat(pieces: seq<seq<byte>>): seq<byte> {
    if pieces == [] then [] else Concat(pieces[..|pieces| - 1]) + pieces[|pieces| - 1]
  }

  /** However a message below 2^64 bits is cut into pieces, the digest is the one of the whole message. */
  method HashPieces(pieces: seq<seq<byte>>) returns (digest: array<byte>)
    requires 8 * |Concat(pieces)| < TWO_64
    ensures digest[..] == Digest(Concat(pieces))
  {
    var context := new Context();
    assert pieces[..0] == [];
    for i := 0 to |pieces|
      invariant context.Open() && context.absorbed == Concat(pieces[..i])
      invariant fresh(context) && fresh(context.intermediateHash) && fresh(context.messageBlock)
    {
      ConcatNext(pieces, i);
      var r := context.Input(Some(pieces[i]), |pieces[i]|);
    }
    assert pieces[..|pieces|] == pieces;
    digest := new byte[20];
    var r := context.Result(digest);
  }

  lemma {:induction false} ConcatNext(pieces: seq<seq<byte>>, i: nat)
    requires i < |pieces|
    ensures Concat(pieces[..i + 1]) == Concat(pieces[..i]) + pieces[i]
    ensures |Concat(pieces[..i + 1])| <= |Concat(pieces)|
    decreases |pieces|
  {
    assert pieces[..i + 1][..i] == pieces[..i];
    if i + 1 == |pieces| {
      assert pieces[..i + 1] == pieces;
    } else {
      var front := pieces[..|pieces| - 1];
      ConcatNext(front, i);
      assert front[..i + 1] == pieces[..i + 1];
    }
  }
}

/**
 * `parseWsHead` of ExtNet/ws/WsStickyWrap.cpp: a WebSocket frame parser that is called again and again while bytes
 * arrive, and takes one step at a call. It is compared with a parser that sees the whole stream at once, and with
 * the framing of RFC 6455.
 */
module WsFrame {
  import opened Common

  // ---------------------------------------------------------------- bits

  function Xor(a: nat, b: nat): nat
    decreases a + b
  {
    if a == 0 && b == 0 then 0 else 2 * Xor(a / 2, b / 2) + (a + b) % 2
  }

  function Or(a: nat, b: nat): nat
    decreases a + b
  {
    if a == 0 && b == 0 then 0 else 2 * Or(a / 2, b / 2) + if a % 2 == 1 || b % 2 == 1 then 1 else 0
  }

  lemma {:induction false} XorSplit(a: nat, b: nat)
    ensures Xor(a, b) == 2 * Xor(a / 2, b / 2) + (a + b) % 2
  {
  }

  lemma {:induction false} XorTwice(a: nat, b: nat)
    ensures Xor(Xor(a, b), b) == a
    decreases a + b
  {
    if a != 0 || b != 0 {
      hide Xor;
      var d, r := Xor(a / 2, b / 2), (a + b) % 2;
      XorSplit(a, b);
      XorSplit(2 * d + r, b);
      XorTwice(a / 2, b / 2);
      Parity(a, b, d);
    }
  }

  /** Exclusive or, digit by digit. */
  lemma {:induction false} XorBit(a: nat, b: nat, i: nat)
    ensures Bit(Xor(a, b), i) == (Bit(a, i) + Bit(b, i)) % 2
    decreases i
  {
    XorSplit(a, b);
    var d, r := Xor(a / 2, b / 2), (a + b) % 2;
    hide Xor;
    assert (2 * d + r) / 2 == d && (2 * d + r) % 2 == r;
    if i == 0 {
      assert (a % 2 + b % 2) % 2 == r;
    } else {
      XorBit(a / 2, b / 2, i - 1);
    }
  }

  lemma {:induction false} OrSplit(a: nat, b: nat)
    ensures Or(a, b) == 2 * Or(a / 2, b / 2) + if a % 2 == 1 || b % 2 == 1 then 1 else 0
  {}

  /** Or, digit by digit. */
  lemma {:induction false} OrBit(a: nat, b: nat, i: nat)
    ensures Bit(Or(a, b), i) == if Bit(a, i) == 1 || Bit(b, i) == 1 then 1 else 0
    decreases i
  {
    OrSplit(a, b);
    var d, r := Or(a / 2, b / 2), if a % 2 == 1 || b % 2 == 1 then 1 else 0;
    hide Or;
    assert (2 * d + r) / 2 == d && (2 * d + r) % 2 == r;
    if i > 0 {
      OrBit(a / 2, b / 2, i - 1);
    }
  }

  lemma {:induction false} Parity(a: nat, b: nat, d: nat)
    ensures (2 * d + (a + b) % 2) / 2 == d
    ensures (2 * d + (a + b) % 2 + b) % 2 == a % 2
    ensures a == 2 * (a / 2) + a % 2
  {
  }

  lemma {:induction false} XorFits(a: nat, b: nat, k: nat)
    requires a < Pow2(k) && b < Pow2(k)
    ensures Xor(a, b) < Pow2(k)
    decreases k
  {
    if k > 0 && (a != 0 || b != 0) {
      XorFits(a / 2, b / 2, k - 1);
    }
  }

  lemma {:induction false} OrZero(a: nat)
    ensures Or(a, 0) == a
  {
    if a != 0 {
      OrZero(a / 2);
    }
  }

  lemma {:induction false} OrAtLeast(a: nat, b: nat)
    ensures Or(a, b) >= a && Or(a, b) >= b
    decreases a + b
  {
    if a != 0 || b != 0 {
      OrAtLeast(a / 2, b / 2);
    }
  }

  /** Disjoint bits: or is a sum. */
  lemma {:induction false} OrApart(x: nat, y: nat, k: nat)
    requires y < Pow2(k)
    ensures Or(x * Pow2(k), y) == x * Pow2(k) + y
    decreases k
  {
    if k == 0 {
      OrZero(x);
    } else {
      OrApart(x, y / 2, k - 1);
      var a := x * Pow2(k - 1);
      Twice(x, Pow2(k - 1));
      OrEven(a, y);
    }
  }

  lemma {:induction false} Twice(x: int, p: int)
    ensures x * (2 * p) == 2 * (x * p)
  {
  }

  lemma {:induction false} OrEven(a: nat, y: nat)
    ensures Or(2 * a, y) == 2 * Or(a, y / 2) + y % 2
  {
    assert 2 * a / 2 == a && 2 * a % 2 == 0;
  }

  lemma {:induction false} Pow2Sum(a: nat, b: nat)
    ensures Pow2(a + b) == Pow2(a) * Pow2(b)
    decreases a
  {
    if a > 0 {
      Pow2Sum(a - 1, b);
      assert 2 * Pow2(a - 1) * Pow2(b) == Pow2(a) * Pow2(b);
    }
  }

  lemma {:induction false} Powers()
    ensures Pow2(1) == 2 && Pow2(8) == 256 && Pow2(16) == 65536
    ensures Pow2(48) == 0x1_0000_0000_0000 && Pow2(56) == 0x100_0000_0000_0000 && Pow2(64) == TWO_64
  {
    assert Pow2(8) == 256 && Pow2(1) == 2;
    hide Pow2;
    Pow2Sum(8, 8);
    Pow2Sum(16, 16);
    Pow2Sum(32, 16);
    Pow2Sum(48, 8);
    Pow2Sum(56, 8);
  }

  function XorByte(a: byte, b: byte): byte {
    assert Pow2(8) == 256;
    XorFits(a, b, 8);
    Xor(a, b)
  }

  // ---------------------------------------------------------------- the length of a frame

  /** A signed char converted to an unsigned 64-bit integer. */
  function SignExtended(b: byte): nat {
    if b < 128 then b else TWO_64 - 256 + b
  }

  /** Digit 7, the sign, is repeated in the digits above it. */
  lemma {:induction false} SignExtendedBit(b: byte, i: nat)
    requires i < 64
    ensures Bit(SignExtended(b), i) == Bit(b, if i < 7 then i else 7)
  {
    Powers();
    if b < 128 {
      assert Pow2(7) == 128;
      hide Pow2;
      if i >= 7 {
        BitAbove(b, 7, i);
        BitAbove(b, 7, 7);
      }
    } else {
      hide Pow2;
      BitApart(Pow2(56) - 1, b, 8, i);
      assert SignExtended(b) == (Pow2(56) - 1) * Pow2(8) + b;
      if i >= 8 {
        Ones(56, i - 8);
      }
      SignBit(b);
    }
  }

  lemma {:induction false} SignBit(b: byte)
    ensures b >= 128 ==> Bit(b, 7) == 1
  {
    assert b >= 128 ==> b / 2 / 2 / 2 / 2 / 2 / 2 / 2 == 1;
  }

  lemma {:induction false} BitAbove(y: nat, k: nat, i: nat)
    requires y < Pow2(k) && k <= i
    ensures Bit(y, i) == 0
    decreases k
  {
    if k == 0 {
      BitZero(i);
    } else {
      BitAbove(y / 2, k - 1, i - 1);
    }
  }

  lemma {:induction false} BitApart(x: nat, y: nat, k: nat, i: nat)
    requires y < Pow2(k)
    ensures Bit(x * Pow2(k) + y, i) == if i < k then Bit(y, i) else Bit(x, i - k)
    decreases k
  {
    if k > 0 {
      var a := x * Pow2(k - 1);
      Twice(x, Pow2(k - 1));
      assert (2 * a + y) / 2 == a + y / 2 && (2 * a + y) % 2 == y % 2;
      if i > 0 {
        BitApart(x, y / 2, k - 1, i - 1);
      }
    }
  }

  lemma {:induction false} Ones(k: nat, i: nat)
    requires i < k
    ensures Bit(Pow2(k) - 1, i) == 1
    decreases k
  {
    assert (Pow2(k) - 1) / 2 == Pow2(k - 1) - 1 && (Pow2(k) - 1) % 2 == 1;
    if i > 0 {
      Ones(k - 1, i - 1);
    }
  }

  function Shifted(x: nat, k: nat): (r: nat)
    ensures r < TWO_64
  {
    x * Pow2(k) % TWO_64
  }

  /** The or of the first n of the bytes, each sign-extended and shifted to its place in a big-endian number. */
  function Joined(s: seq<byte>, n: nat): nat
    requires n <= |s|
  {
    if n == 0 then 0 else Or(Joined(s, n - 1), Shifted(SignExtended(s[n - 1]), 8 * (|s| - n)))
  }

  function BigEndian(s: seq<byte>): nat {
    if s == [] then 0 else 256 * BigEndian(s[..|s| - 1]) + s[|s| - 1]
  }

  lemma {:induction false} BigEndianBelow(s: seq<byte>)
    ensures BigEndian(s) < Pow2(8 * |s|)
  {
    if s != [] {
      BigEndianBelow(s[..|s| - 1]);
      Pow2Sum(8, 8 * (|s| - 1));
      assert Pow2(8) == 256;
    }
  }

  lemma {:induction false} BigEndianHalf(s: seq<byte>)
    requires s != [] && s[0] < 128
    ensures 2 * BigEndian(s) < Pow2(8 * |s|)
  {
    hide Pow2;
    Powers();
    if |s| > 1 {
      BigEndianHalf(s[..|s| - 1]);
      Pow2Sum(8, 8 * (|s| - 1));
      Pow2Sum(1, 8 * (|s| - 1) - 1);
      HalfStep(BigEndian(s[..|s| - 1]), Pow2(8 * (|s| - 1)), s[|s| - 1]);
    } else {
      assert s[..0] == [];
    }
  }

  lemma {:induction false} HalfStep(x: nat, p: nat, b: byte)
    requires 2 * x < p && p % 2 == 0
    ensures 2 * (256 * x + b) < 256 * p
  {
  }

  lemma {:induction false} JoinedPlain(s: seq<byte>, n: nat)
    requires n <= |s| <= 8 && forall i | 0 <= i < n :: s[i] < 128
    ensures Joined(s, n) == BigEndian(s[..n]) * Pow2(8 * (|s| - n))
  {
    hide Or, Pow2, Shifted;
    if n > 0 {
      JoinedPlain(s, n - 1);
      var m := 8 * (|s| - n);
      assert s[..n][..n - 1] == s[..n - 1];
      Shift(s[n - 1], m);
      OrApart(BigEndian(s[..n - 1]), s[n - 1] * Pow2(m), m + 8);
      Regroup(BigEndian(s[..n - 1]), s[n - 1], m);
    }
  }

  lemma {:induction false} Shift(b: byte, m: nat)
    requires m <= 56
    ensures Shifted(b, m) == b * Pow2(m) < Pow2(m + 8)
  {
    hide Pow2;
    Powers();
    Pow2Sum(8, m);
    Pow2Sum(56 - m, m);
    Times(b, 256, Pow2(m));
    AtLeast(Pow2(56 - m), Pow2(m));
  }

  lemma {:induction false} AtLeast(a: int, c: int)
    requires a > 0 && c > 0
    ensures c <= a * c
  {
  }

  lemma {:induction false} Times(a: int, b: int, c: int)
    requires a < b && c > 0
    ensures a * c < b * c
  {
  }

  lemma {:induction false} Regroup(x: nat, b: byte, m: nat)
    ensures x * Pow2(m + 8) + b * Pow2(m) == (256 * x + b) * Pow2(m)
  {
    Pow2Sum(8, m);
    assert Pow2(8) == 256;
    assert x * (256 * Pow2(m)) == 256 * x * Pow2(m);
  }

  /** One byte with its top bit set fills every higher bit. */
  lemma {:induction false} JoinedHuge(s: seq<byte>, n: nat, i: nat)
    requires i < n <= |s| && s[i] >= 128 && |s| - 1 - i <= 6
    ensures Joined(s, n) >= TWO_64 / 2
    decreases n
  {
    var rest, term := Joined(s, n - 1), Shifted(SignExtended(s[n - 1]), 8 * (|s| - n));
    OrAtLeast(rest, term);
    if i < n - 1 {
      JoinedHuge(s, n - 1, i);
    } else {
      ShiftHuge(s[i], 8 * (|s| - n));
    }
  }

  lemma {:induction false} ShiftHuge(b: byte, m: nat)
    requires b >= 128 && m <= 48
    ensures Shifted(SignExtended(b), m) >= TWO_64 / 2
  {
    hide Pow2;
    var p, d := Pow2(m), 256 - b;
    Powers();
    Pow2Sum(48 - m, m);
    AtLeast(Pow2(48 - m), p);
    Wrapped(p, d);
  }

  lemma {:induction false} Wrapped(p: nat, d: nat)
    requires 0 < p <= 0x1_0000_0000_0000 && 0 < d <= 128
    ensures (TWO_64 - d) * p % TWO_64 == TWO_64 - d * p >= TWO_64 / 2
  {
    Products(p, d);
    BorrowOne(TWO_64, d, p);
    Remainder(p - 1, TWO_64 - d * p);
  }

  lemma {:induction false} BorrowOne(t: int, d: int, p: int)
    ensures (t - d) * p == t * (p - 1) + (t - d * p)
  {
    assert (t - d) * p == t * p - d * p;
    assert t * (p - 1) == t * p - t;
  }

  lemma {:induction false} Products(p: nat, d: nat)
    requires 0 < p <= 0x1_0000_0000_0000 && 0 < d <= 128
    ensures 0 < d * p <= TWO_64 / 2
  {
    AtLeast(d, p);
    AtMost(d, 128, p);
  }

  lemma {:induction false} AtMost(a: nat, b: nat, c: nat)
    requires a <= b
    ensures a * c <= b * c
  {
  }

  lemma {:induction false} Remainder(q: nat, r: nat)
    requires r < TWO_64
    ensures (TWO_64 * q + r) % TWO_64 == r
  {
  }

  /**
   * Section 5.2 of RFC 6455 reads an extended length of two or eight bytes as a big-endian number, whose first bit is
   * zero in the long form. The code computes that number exactly when no byte has its top bit set.
   */
  lemma {:induction false} ExtendedLength(s: seq<byte>)
    requires |s| == 2 || (|s| == 8 && s[0] < 128)
    ensures Joined(s, |s|) == BigEndian(s) <==> forall i | 0 <= i < |s| :: s[i] < 128
    ensures (exists i | 0 <= i < |s| :: s[i] >= 128) ==> Joined(s, |s|) >= TWO_64 / 2
  {
    hide Pow2, Joined, BigEndian;
    Powers();
    if i :| 0 <= i < |s| && s[i] >= 128 {
      JoinedHuge(s, |s|, i);
      if |s| == 2 {
        BigEndianBelow(s);
      } else {
        BigEndianHalf(s);
      }
    } else {
      JoinedPlain(s, |s|);
      assert s[..|s|] == s;
      PowZero();
    }
  }

  lemma {:induction false} PowZero()
    ensures Pow2(0) == 1
  {
  }

  // ---------------------------------------------------------------- frames

  /** Bytes between the first two of a header and its four mask bytes. */
  function Extra(second: byte): nat {
    if second % 128 == 126 then 2 else if second % 128 == 127 then 8 else 0
  }

  function HeaderSize(second: byte): nat {
    2 + Extra(second) + 4
  }

  predicate IsHeader(h: seq<byte>) {
    |h| >= 2 && |h| == HeaderSize(h[1])
  }

  /** The payload length that the code reads from a header, of which the mask bytes may still be missing. */
  function Length(h: seq<byte>): nat
    requires |h| >= 2 && |h| >= 2 + Extra(h[1])
  {
    if Extra(h[1]) == 0 then h[1] % 128 else Joined(h[2..2 + Extra(h[1])], Extra(h[1]))
  }

  function Key(h: seq<byte>): (key: seq<byte>)
    requires |h| >= 4
    ensures |key| == 4
  {
    h[|h| - 4..]
  }

  /** Byte i of the payload is masked with byte i mod 4 of the key. */
  function Unmasked(key: seq<byte>, data: seq<byte>): (plain: seq<byte>)
    requires |key| == 4
    ensures |plain| == |data|
  {
    UnmaskedFrom(key, 0, data)
  }

  /** The same for data that begin at byte k of the payload. */
  function UnmaskedFrom(key: seq<byte>, k: nat, data: seq<byte>): (plain: seq<byte>)
    requires |key| == 4
    ensures |plain| == |data|
  {
    seq(|data|, i requires 0 <= i < |data| => XorByte(data[i], key[(k + i) % 4]))
  }

  lemma {:induction false} UnmaskedConcat(key: seq<byte>, a: seq<byte>, b: seq<byte>)
    requires |key| == 4
    ensures Unmasked(key, a + b) == Unmasked(key, a) + UnmaskedFrom(key, |a|, b)
  {
  }

  lemma {:induction false} UnmaskedTwice(key: seq<byte>, data: seq<byte>)
    requires |key| == 4
    ensures Unmasked(key, Unmasked(key, data)) == data
  {
    forall i | 0 <= i < |data| ensures Unmasked(key, Unmasked(key, data))[i] == data[i] {
      XorTwice(data[i], key[i % 4]);
    }
  }

  /** Section 5.3 of RFC 6455: every digit of octet j is added, modulo 2, to that of octet j mod 4 of the key. */
  lemma {:induction false} UnmaskedBit(key: seq<byte>, data: seq<byte>, j: nat, i: nat)
    requires |key| == 4 && j < |data|
    ensures Bit(Unmasked(key, data)[j], i) == (Bit(data[j], i) + Bit(key[j % 4], i)) % 2
  {
    XorBit(data[j], key[j % 4], i);
  }

  /** A complete frame: its header as received and its payload with the mask taken off. */
  datatype Frame = Frame(header: seq<byte>, payload: seq<byte>)

  predicate Good(f: Frame) {
    && IsHeader(f.header) && |f.payload| == Length(f.header) < 65536
    && 255 !in Unmasked(Key(f.header), f.payload)
  }

  /** The bytes of a frame as received, and as they stand in the buffer once it is parsed. */
  function Raw(f: Frame): (s: seq<byte>)
    requires |f.header| >= 4
    ensures |s| == |f.header| + |f.payload|
  {
    f.header + Unmasked(Key(f.header), f.payload)
  }

  function Plain(f: Frame): seq<byte> {
    f.header + f.payload
  }

  predicate AllGood(fs: seq<Frame>) {
    forall i | 0 <= i < |fs| :: Good(fs[i])
  }

  function Raws(fs: seq<Frame>): seq<byte>
    requires AllGood(fs)
  {
    if fs == [] then [] else Raws(fs[..|fs| - 1]) + Raw(fs[|fs| - 1])
  }

  function Plains(fs: seq<Frame>): seq<byte> {
    if fs == [] then [] else Plains(fs[..|fs| - 1]) + Plain(fs[|fs| - 1])
  }

  // ---------------------------------------------------------------- the whole-stream parser

  /** Where the first byte 0xFF is, or the length of s. */
  function FirstFF(s: seq<byte>): (k: nat)
    ensures k <= |s| && 255 !in s[..k] && (k < |s| ==> s[k] == 255)
  {
    if s == [] || s[0] == 255 then 0
    else
      var k := FirstFF(s[1..]) + 1;
      assert s[..k] == [s[0]] + s[1..][..k - 1];
      k
  }

  lemma {:induction false} FirstFFIs(s: seq<byte>, k: nat)
    requires k <= |s| && 255 !in s[..k] && (k < |s| ==> s[k] == 255)
    ensures FirstFF(s) == k
  {
    var j := FirstFF(s);
    assert forall i | 0 <= i < k :: s[..k][i] == s[i];
    assert forall i | 0 <= i < j :: s[..j][i] == s[i];
  }

  datatype Outcome = Short | Bad(at: nat) | Done(frame: Frame)

  /** The first frame of s, if all of it is there and no byte of its masked payload is 0xFF. */
  function ParseOne(s: seq<byte>): (r: Outcome)
    ensures r.Done? ==> IsHeader(r.frame.header) && |Plain(r.frame)| <= |s|
  {
    if |s| < 2 || |s| < HeaderSize(s[1]) then Short
    else
      var h := s[..HeaderSize(s[1])];
      var rest := s[|h|..];
      var k := FirstFF(rest);
      if Length(h) <= k && Length(h) < 65536 then Done(Frame(h, Unmasked(Key(h), rest[..Length(h)])))
      else if k < |rest| then Bad(|h| + k)
      else Short
  }

  /** What is left at the end: the beginning of a frame, or a byte at which the parser gave up. */
  datatype End = Partial(at: nat) | Rejected(at: nat)

  datatype Parsed = Parsed(frames: seq<Frame>, end: End)

  function Later(e: End, k: nat): End {
    match e case Partial(at) => Partial(at + k) case Rejected(at) => Rejected(at + k)
  }

  function After(fs: seq<Frame>, k: nat, p: Parsed): Parsed {
    Parsed(fs + p.frames, Later(p.end, k))
  }

  function ParseAll(s: seq<byte>): Parsed
    decreases |s|
  {
    match ParseOne(s)
    case Short => Parsed([], Partial(0))
    case Bad(at) => Parsed([], Rejected(at))
    case Done(f) => After([f], |Plain(f)|, ParseAll(s[|Plain(f)|..]))
  }

  /** A frame is parsed from its own bytes, whatever follows. */
  lemma {:induction false} ParseRaw(f: Frame, rest: seq<byte>)
    requires Good(f)
    ensures ParseOne(Raw(f) + rest) == Done(f)
  {
    hide Unmasked, XorByte, Joined, FirstFF;
    var s, h := Raw(f) + rest, f.header;
    var masked := Unmasked(Key(h), f.payload);
    assert s[..|h|] == h && s[|h|..] == masked + rest;
    var k := FirstFF(masked + rest);
    assert |masked| <= k by {
      assert forall i | 0 <= i < |masked| :: (masked + rest)[i] == masked[i];
    }
    assert (masked + rest)[..|masked|] == masked;
    UnmaskedTwice(Key(h), f.payload);
  }

  /** What is parsed is there. */
  lemma {:induction false} ParsedIsRaw(s: seq<byte>)
    requires ParseOne(s).Done?
    ensures Good(ParseOne(s).frame) && Raw(ParseOne(s).frame) <= s
  {
    hide Unmasked, XorByte, Joined, FirstFF;
    var h := s[..HeaderSize(s[1])];
    var rest := s[|h|..];
    var data := rest[..Length(h)];
    UnmaskedTwice(Key(h), data);
    assert 255 !in data by {
      var k := FirstFF(rest);
      assert rest[..k][..Length(h)] == data;
    }
    assert s == h + rest && rest == data + rest[|data|..];
  }

  lemma {:induction false} FrontAndLast(fs: seq<Frame>)
    requires AllGood(fs) && fs != []
    ensures AllGood(fs[..|fs| - 1]) && Good(fs[|fs| - 1]) && |fs[|fs| - 1].header| >= 4
    ensures Raws(fs) == Raws(fs[..|fs| - 1]) + Raw(fs[|fs| - 1])
  {
  }

  lemma {:induction false} ParseHead(f: Frame, rest: seq<byte>)
    requires Good(f)
    ensures ParseAll(Raw(f) + rest) == After([f], |Raw(f)|, ParseAll(rest))
  {
    hide Unmasked;
    ParseRaw(f, rest);
    hide ParseOne;
    assert |Plain(f)| == |Raw(f)| > 0;
    assert (Raw(f) + rest)[|Raw(f)|..] == rest;
  }

  lemma {:induction false} AfterAfter(fs: seq<Frame>, f: Frame, k: nat, m: nat, p: Parsed)
    ensures After(fs, k, After([f], m, p)) == After(fs + [f], k + m, p)
  {
    assert fs + ([f] + p.frames) == fs + [f] + p.frames;
  }

  lemma {:induction false} NoFrames(rest: seq<byte>)
    ensures AllGood([]) && Raws([]) + rest == rest && After([], |Raws([])|, ParseAll(rest)) == ParseAll(rest)
  {
    hide ParseAll;
    assert [] + rest == rest && [] + ParseAll(rest).frames == ParseAll(rest).frames;
  }

  /** A stream that begins with complete frames. */
  lemma {:induction false} ParseRaws(fs: seq<Frame>, rest: seq<byte>)
    requires AllGood(fs)
    ensures ParseAll(Raws(fs) + rest) == After(fs, |Raws(fs)|, ParseAll(rest))
    decreases |fs|
  {
    hide ParseAll, Raw, Raws, Good, AllGood, After, IsHeader, Plain;
    if fs == [] {
      NoFrames(rest);
    } else {
      FrontAndLast(fs);
      var n := |fs| - 1;
      var f, front := fs[n], fs[..n];
      assert Raws(fs) + rest == Raws(front) + (Raw(f) + rest);
      ParseRaws(front, Raw(f) + rest);
      ParseHead(f, rest);
      AfterAfter(front, f, |Raws(front)|, |Raw(f)|, ParseAll(rest));
      assert front + [f] == fs;
    }
  }

  // ---------------------------------------------------------------- stages of one frame

  const INIT_HEAD := 1
  const READ_PAYLOAD := 2
  const READ_MASK_KEY := 4
  const READ_DATA := 5

  /**
   * The parser has used the first bytes of `rest`, the stream from the start of the current frame. `shown` is the
   * same part of the buffer, and `taken` counts payload bytes.
   */
  predicate Stage(rest: seq<byte>, shown: seq<byte>, used: nat, op: nat, len: nat, masks: seq<byte>, taken: nat) {
    && |shown| == |rest| && used <= |rest| && shown[used..] == rest[used..] && |masks| == 4
    && (op == INIT_HEAD || op == READ_PAYLOAD || op == READ_MASK_KEY || op == READ_DATA)
    && (op == INIT_HEAD ==> used == 0)
    && (op == READ_PAYLOAD || op == READ_MASK_KEY ==> taken == 0)
    && (op == READ_PAYLOAD ==> used == 2 && shown[..2] == rest[..2])
    && (op == READ_MASK_KEY ==>
          used >= 2 && used == 2 + Extra(rest[1]) && shown[..used] == rest[..used] && len == Length(rest))
    && (op == READ_DATA ==>
          |rest| >= 2 && used == HeaderSize(rest[1]) + taken &&
          shown[..used - taken] == rest[..used - taken] && InPayload(rest, shown, used, len, masks, taken))
  }

  predicate InPayload(rest: seq<byte>, shown: seq<byte>, used: nat, len: nat, masks: seq<byte>, taken: nat)
    requires |shown| == |rest| && taken + 6 <= used <= |rest| && |masks| == 4
    requires used == HeaderSize(rest[1]) + taken
  {
    && len == Length(rest) && masks == Key(rest[..used - taken])
    && shown[used - taken..used] == Unmasked(masks, rest[used - taken..used])
    && 255 !in rest[used - taken..used]
    && (len < 65536 ==> taken < len || taken == len == 0)
  }

  lemma {:induction false} SameLength(s: seq<byte>, t: seq<byte>)
    requires |s| >= 2 && 2 + Extra(s[1]) <= |s| && s[..2 + Extra(s[1])] <= t
    ensures Length(t) == Length(s)
  {
    var k := 2 + Extra(s[1]);
    assert t[..k] == s[..k] && s[1] == s[..k][1] && t[1] == t[..k][1];
    assert s[2..k] == s[..k][2..k] && t[2..k] == t[..k][2..k];
  }

  /** More bytes arrive. */
  lemma {:induction false} StageGrows(
      rest: seq<byte>, shown: seq<byte>, more: seq<byte>, used: nat, op: nat, len: nat, masks: seq<byte>, taken: nat)
    requires Stage(rest, shown, used, op, len, masks, taken)
    ensures Stage(rest + more, shown + more, used, op, len, masks, taken)
  {
    var r, s := rest + more, shown + more;
    assert s[used..] == shown[used..] + more && r[used..] == rest[used..] + more;
    assert r[..used] == rest[..used] && s[..used] == shown[..used];
    if op == READ_MASK_KEY {
      SameLength(rest, r);
    }
    if op == READ_DATA {
      SameLength(rest, r);
      var h := used - taken;
      assert r[..h] == rest[..h] && s[..h] == shown[..h];
      assert r[h..used] == rest[h..used] && s[h..used] == shown[h..used];
    }
  }

  lemma {:induction false} AtStart(rest: seq<byte>, len: nat, masks: seq<byte>, taken: nat)
    requires |masks| == 4
    ensures Stage(rest, rest, 0, INIT_HEAD, len, masks, taken)
  {
  }

  lemma {:induction false} ToPayload(rest: seq<byte>, shown: seq<byte>, len: nat, masks: seq<byte>, taken: nat)
    requires Stage(rest, shown, 0, INIT_HEAD, len, masks, taken) && |rest| >= 2
    ensures Stage(rest, shown, 2, READ_PAYLOAD, 0, [0, 0, 0, 0], 0)
  {
    assert shown[0..] == shown && rest[0..] == rest;
  }

  /** What the next call finds. */
  lemma {:induction false} StageOp(
      rest: seq<byte>, shown: seq<byte>, used: nat, op: nat, len: nat, masks: seq<byte>, taken: nat)
    requires Stage(rest, shown, used, op, len, masks, taken)
    ensures op == INIT_HEAD || op == READ_PAYLOAD || op == READ_MASK_KEY || op == READ_DATA
    ensures op == INIT_HEAD ==> used == 0
    ensures op == READ_PAYLOAD ==> used == 2 && |rest| >= 2 && rest[1] == shown[1]
    ensures op == READ_PAYLOAD && |rest| >= 2 + Extra(rest[1]) ==> (
      var e := Extra(rest[1]);
      Length(rest) == if e == 0 then shown[1] % 128 else Joined(shown[2..2 + e], e))
    ensures op == READ_DATA && len < 65536 ==> taken < len || taken == len == 0
  {
    if op == READ_PAYLOAD {
      assert shown == shown[..2] + shown[2..] && rest == rest[..2] + rest[2..];
    }
  }

  lemma {:induction false} ToMask(rest: seq<byte>, shown: seq<byte>, len: nat, masks: seq<byte>, taken: nat)
    requires Stage(rest, shown, 2, READ_PAYLOAD, len, masks, taken) && |rest| >= 2 + Extra(rest[1])
    ensures Stage(rest, shown, 2 + Extra(rest[1]), READ_MASK_KEY, Length(rest), masks, taken)
  {
    assert shown == shown[..2] + shown[2..] && rest == rest[..2] + rest[2..];
  }

  lemma {:induction false} ToData(rest: seq<byte>, shown: seq<byte>, used: nat, len: nat, masks: seq<byte>, taken: nat)
    requires Stage(rest, shown, used, READ_MASK_KEY, len, masks, taken) && |rest| >= used + 4
    ensures Stage(rest, shown, used + 4, READ_DATA, len, shown[used..used + 4], taken)
  {
    assert shown == shown[..used] + shown[used..] && rest == rest[..used] + rest[used..];
    assert rest[..used + 4][used..] == rest[used..used + 4];
    assert Unmasked(rest[used..used + 4], []) == [];
  }

  /** The buffer after k payload bytes have been unmasked in place, the first of them byte i of the payload. */
  function Advanced(shown: seq<byte>, used: nat, k: nat, masks: seq<byte>, i: nat): (now: seq<byte>)
    requires used + k <= |shown| && |masks| == 4
    ensures |now| == |shown|
  {
    shown[..used] + UnmaskedFrom(masks, i, shown[used..used + k]) + shown[used + k..]
  }

  lemma {:induction false} AdvancedData(
      rest: seq<byte>, shown: seq<byte>, used: nat, len: nat, masks: seq<byte>, taken: nat, k: nat)
    requires Stage(rest, shown, used, READ_DATA, len, masks, taken)
    requires used + k <= |rest| && 255 !in shown[used..used + k]
    ensures var now, h := Advanced(shown, used, k, masks, taken), used - taken;
      && now[..h] == rest[..h] && now[used + k..] == rest[used + k..]
      && now[h..used + k] == Unmasked(masks, rest[h..used + k]) && 255 !in rest[h..used + k]
  {
    hide Unmasked, UnmaskedFrom, Length;
    var now, h := Advanced(shown, used, k, masks, taken), used - taken;
    var x := shown[used..used + k];
    assert rest[used..used + k] == rest[used..][..k] == x;
    assert rest[h..used + k] == rest[h..used] + x;
    UnmaskedConcat(masks, rest[h..used], x);
    assert shown[used + k..] == shown[used..][k..] && rest[used + k..] == rest[used..][k..];
    assert shown[..used] == shown[..h] + shown[h..used];
    assert now == (shown[..h] + (shown[h..used] + UnmaskedFrom(masks, taken, x))) + shown[used + k..];
  }

  /** Payload bytes are unmasked, and more of them are to come. */
  lemma {:induction false} MoreData(
      rest: seq<byte>, shown: seq<byte>, used: nat, len: nat, masks: seq<byte>, taken: nat, k: nat)
    requires Stage(rest, shown, used, READ_DATA, len, masks, taken)
    requires used + k <= |rest| && 255 !in shown[used..used + k] && (len < 65536 ==> taken + k < len || k == 0)
    ensures Stage(rest, Advanced(shown, used, k, masks, taken), used + k, READ_DATA, len, masks, taken + k)
  {
    AdvancedData(rest, shown, used, len, masks, taken, k);
    hide Advanced, Unmasked, Length;
  }

  lemma {:induction false} NotYetUsed(
      rest: seq<byte>, shown: seq<byte>, used: nat, op: nat, len: nat, masks: seq<byte>, taken: nat, i: nat)
    requires Stage(rest, shown, used, op, len, masks, taken) && used <= i < |rest|
    ensures rest[i] == shown[i]
  {
    assert rest[i] == rest[used..][i - used] && shown[i] == shown[used..][i - used];
  }

  /** The last payload byte is unmasked: the frame is complete. */
  lemma {:induction false} Completed(
      rest: seq<byte>, shown: seq<byte>, used: nat, len: nat, masks: seq<byte>, taken: nat, k: nat)
    returns (f: Frame)
    requires Stage(rest, shown, used, READ_DATA, len, masks, taken)
    requires used + k <= |rest| && 255 !in shown[used..used + k] && taken + k == len < 65536
    ensures Good(f) && Raw(f) == rest[..used + k] && f.header == rest[..used - taken]
    ensures var now := Advanced(shown, used, k, masks, taken);
      Plain(f) == now[..used + k] && now[used + k..] == rest[used + k..]
  {
    AdvancedData(rest, shown, used, len, masks, taken, k);
    hide Advanced, Unmasked, Length;
    var h, now := used - taken, Advanced(shown, used, k, masks, taken);
    f := Frame(rest[..h], now[h..used + k]);
    SameLength(rest, rest[..h]);
    UnmaskedTwice(masks, rest[h..used + k]);
    assert rest[..used + k] == rest[..h] + rest[h..used + k];
    assert now[..used + k] == now[..h] + now[h..used + k];
  }

  // ---------------------------------------------------------------- what a stage says about the whole stream

  /** No call can do anything more with n bytes that are left. */
  predicate Stuck(op: nat, second: byte, n: nat) {
    || n == 0
    || (op == INIT_HEAD && n < 2)
    || (op == READ_PAYLOAD && n < Extra(second))
    || (op == READ_MASK_KEY && n < 4)
  }

  /** States in which a step need not use any bytes. */
  function Rank(op: nat): nat {
    if op == READ_PAYLOAD || op == READ_DATA then 1 else 0
  }

  /** A frame without payload, whose header has been read but whose end is seen only by the next call. */
  predicate PendingEmpty(op: nat, len: nat) {
    op == READ_DATA && len == 0
  }

  lemma {:induction false} StuckIsShort(
      rest: seq<byte>, shown: seq<byte>, used: nat, op: nat, len: nat, masks: seq<byte>, taken: nat)
    requires Stage(rest, shown, used, op, len, masks, taken) && !PendingEmpty(op, len)
    requires Stuck(op, if op == READ_PAYLOAD then rest[1] else 0, |rest| - used)
    ensures ParseOne(rest).Short?
  {
    if op == READ_DATA {
      var h := used - taken;
      SameLength(rest, rest[..h]);
      assert rest[h..used] == rest[h..];
      FirstFFIs(rest[h..], |rest| - h);
    }
  }

  lemma {:induction false} PendingIsDone(
      rest: seq<byte>, shown: seq<byte>, used: nat, op: nat, len: nat, masks: seq<byte>, taken: nat)
    requires Stage(rest, shown, used, op, len, masks, taken) && PendingEmpty(op, len)
    ensures ParseOne(rest) == Done(Frame(rest[..used], []))
  {
    SameLength(rest, rest[..used]);
    assert rest[used..][..0] == [];
    assert Unmasked(Key(rest[..used]), []) == [];
  }

  lemma {:induction false} TakeOfDrop(s: seq<byte>, h: nat, k: nat)
    requires h + k <= |s|
    ensures s[h..][..k] == s[h..h + k]
  {
    forall i | 0 <= i < k ensures s[h..][..k][i] == s[h..h + k][i] {
    }
  }

  lemma {:induction false} RejectedIsBad(
      rest: seq<byte>, shown: seq<byte>, used: nat, len: nat, masks: seq<byte>, taken: nat)
    requires Stage(rest, shown, used, READ_DATA, len, masks, taken)
    requires used < |rest| && rest[used] == 255 && (taken < len || len >= 65536)
    ensures ParseOne(rest) == Bad(used)
  {
    var h := used - taken;
    SameLength(rest, rest[..h]);
    TakeOfDrop(rest, h, taken);
    FirstFFIs(rest[h..], taken);
  }

  // ---------------------------------------------------------------- the resumable parser

  lemma {:induction false} Appended(fs: seq<Frame>, f: Frame)
    requires AllGood(fs) && Good(f)
    ensures AllGood(fs + [f]) && Raws(fs + [f]) == Raws(fs) + Raw(f) && Plains(fs + [f]) == Plains(fs) + Plain(f)
  {
    hide Good, Raw, Plain;
    assert (fs + [f])[..|fs|] == fs;
  }

  lemma {:induction false} OneFrameOn(s: seq<byte>, start: nat, n: nat)
    requires start + n <= |s|
    ensures s[..start + n] == s[..start] + s[start..][..n] && s[start + n..] == s[start..][n..]
  {
  }

  lemma {:induction false} OneFrameOnArray(a: array<byte>, start: nat, n: nat, size: nat)
    requires start + n <= size <= a.Length
    ensures a[..start + n] == a[..start] + a[start..size][..n] && a[start + n..size] == a[start..size][n..]
  {
  }

  /** What unmasking does to the part of the buffer from the start of the frame. */
  lemma {:induction false} AdvancedSlice(
      was: seq<byte>, p: nat, k: nat, masks: seq<byte>, taken: nat, start: nat, size: nat)
    requires start <= p && p + k <= size <= |was| && |masks| == 4
    ensures var now := Advanced(was, p, k, masks, taken % 65536);
      && now[..start] == was[..start]
      && now[start..size] == Advanced(was[start..size], p - start, k, masks, taken)
  {
    hide UnmaskedFrom;
    var mine, x := was[start..size], was[p..p + k];
    var plain := UnmaskedFrom(masks, taken, x);
    UnmaskedWraps(masks, taken, x);
    SliceOfSlice(was, start, size, p - start, p - start + k);
    SliceOfSlice(was, start, size, 0, p - start);
    SliceOfSlice(was, start, size, p - start + k, |mine|);
    Splice(was, plain, p, p + k, start, size);
  }

  lemma {:induction false} SliceOfSlice(s: seq<byte>, a: nat, b: nat, c: nat, d: nat)
    requires a <= b <= |s| && c <= d <= b - a
    ensures s[a..b][c..d] == s[a + c..a + d]
  {
    forall i | 0 <= i < d - c ensures s[a..b][c..d][i] == s[a + c..a + d][i] {
    }
  }

  lemma {:induction false} Splice(was: seq<byte>, x: seq<byte>, p: nat, q: nat, start: nat, size: nat)
    requires start <= p <= q <= size <= |was| && |x| == q - p
    ensures (was[..p] + x + was[q..])[start..size] == was[start..p] + x + was[q..size]
    ensures (was[..p] + x + was[q..])[..start] == was[..start]
  {
  }

  lemma {:induction false} UnmaskedWraps(masks: seq<byte>, taken: nat, data: seq<byte>)
    requires |masks| == 4
    ensures UnmaskedFrom(masks, taken % 65536, data) == UnmaskedFrom(masks, taken, data)
  {
    hide XorByte;
    var a, b := UnmaskedFrom(masks, taken % 65536, data), UnmaskedFrom(masks, taken, data);
    forall j | 0 <= j < |data| ensures a[j] == b[j] {
      SameRemainder(taken, j);
    }
  }

  lemma {:induction false} FourTimes(a: nat, c: nat)
    ensures (a + 4 * c) % 4 == a % 4
  {
  }

  lemma {:induction false} SameRemainder(taken: nat, j: nat)
    ensures (taken % 65536 + j) % 4 == (taken + j) % 4
  {
    var q, m := taken / 65536, taken % 65536;
    FourTimes(m + j, q * 16384);
  }

  /** Byte i of an eight-byte length, in its place. */
  function Placed(s: seq<byte>, i: nat): nat
    requires i < |s|
  {
    Shifted(SignExtended(s[i]), 8 * (|s| - 1 - i))
  }

  lemma {:induction false} ZeroOr(a: nat)
    ensures Or(0, a) == a
  {
    if a != 0 {
      ZeroOr(a / 2);
    }
  }

  lemma {:induction false} JoinedOne(s: seq<byte>)
    requires s != []
    ensures Joined(s, 1) == Placed(s, 0)
  {
    ZeroOr(Placed(s, 0));
  }

  lemma {:induction false} JoinedStep(s: seq<byte>, n: nat)
    requires n < |s|
    ensures Joined(s, n + 1) == Or(Joined(s, n), Placed(s, n))
  {
  }

  lemma {:induction false} JoinedTwo(s: seq<byte>)
    requires |s| == 2
    ensures Joined(s, 2) == Or(Placed(s, 0), SignExtended(s[1]))
  {
    assert Placed(s, 1) == SignExtended(s[1]) by { PowZero(); }
    hide Joined, Or, Placed, Shifted, SignExtended;
    JoinedOne(s);
    JoinedStep(s, 1);
  }

  lemma {:induction false} JoinedEight(s: seq<byte>)
    requires |s| == 8
    ensures Joined(s, 8) ==
      Or(Or(Or(Or(Or(Or(Or(Placed(s, 0), Placed(s, 1)), Placed(s, 2)), Placed(s, 3)), Placed(s, 4)), Placed(s, 5)),
            Placed(s, 6)), SignExtended(s[7]))
  {
    assert Placed(s, 7) == SignExtended(s[7]) by { PowZero(); }
    hide Joined, Or, Placed, Shifted, SignExtended;
    JoinedOne(s);
    JoinedStep(s, 1);
    JoinedStep(s, 2);
    JoinedStep(s, 3);
    JoinedStep(s, 4);
    JoinedStep(s, 5);
    JoinedStep(s, 6);
    JoinedStep(s, 7);
  }

  lemma {:induction false} AdvancedStep(was: seq<byte>, p: nat, k: nat, masks: seq<byte>, i: nat)
    requires p + k < |was| && |masks| == 4
    ensures Advanced(was, p, k, masks, i)[p + k] == was[p + k]
    ensures Advanced(was, p, k + 1, masks, i) ==
            Advanced(was, p, k, masks, i)[p + k := XorByte(was[p + k], masks[(i + k) % 4])]
  {
    assert was[p..p + k + 1][..k] == was[p..p + k];
  }

  lemma {:induction false} NothingAdvanced(was: seq<byte>, p: nat, masks: seq<byte>, i: nat)
    requires p <= |was| && |masks| == 4
    ensures Advanced(was, p, 0, masks, i) == was
  {
  }

  /** How many of n bytes the data state takes if none of them is 0xFF. */
  function Wanted(index: nat, len: nat, n: nat): (k: nat)
    ensures k <= n
  {
    if len >= 65536 || index + n <= len then n else if index <= len then len - index else 0
  }

  lemma {:induction false} WantedMore(index: nat, len: nat, n: nat, k: nat)
    requires index < 65536 && k <= Wanted(index, len, n)
    ensures k < Wanted(index, len, n) <==> (index + k) % 65536 < len && k < n
  {
  }

  /** The index and the true count of payload bytes agree on whether the frame is complete. */
  lemma {:induction false} IndexOrCount(taken: nat, len: nat, n: nat, k: nat)
    requires (len < 65536 ==> taken < len || taken == len == 0) && k <= Wanted(taken % 65536, len, n)
    ensures (taken % 65536 + k) % 65536 == (taken + k) % 65536
    ensures k < Wanted(taken % 65536, len, n) ==> k < n && (len < 65536 ==> taken + k < len)
    ensures k == Wanted(taken % 65536, len, n) ==> ((taken + k) % 65536 >= len <==> taken + k == len < 65536)
    ensures len < 65536 ==> taken + k <= len
    ensures k == 0 == Wanted(taken % 65536, len, n) && n > 0 ==> taken == len < 65536
  {
    assert (taken % 65536 + k) % 65536 == (taken + k) % 65536;
  }

  /** The 16-bit index still selects the right mask byte after it has wrapped around. */
  lemma {:induction false} NextIndex(index: nat, k: nat)
    ensures ((index + k) % 65536 + 1) % 65536 == (index + k + 1) % 65536
    ensures (index + k) % 65536 % 4 == (index + k) % 4
  {
    var q, r := (index + k) / 65536, (index + k) % 65536;
    assert (q * 65536 + r) % 4 == r % 4;
  }

  lemma {:induction false} MoreBehind(s: seq<byte>, more: seq<byte>, start: nat)
    requires start <= |s|
    ensures (s + more)[start..] == s[start..] + more && (s + more)[..start] == s[..start]
  {
  }

  lemma {:induction false} TwoSlices(was: seq<byte>, now: seq<byte>, bytes: seq<byte>, start: nat, size: nat)
    requires start <= size && size + |bytes| <= |was| == |now|
    requires now[..size] == was[..size] && now[size..size + |bytes|] == bytes
    ensures now[..start] == was[..start] && now[start..size + |bytes|] == was[start..size] + bytes
  {
    assert now[..start] == now[..size][..start] && was[..start] == was[..size][..start];
    assert now[start..size] == now[..size][start..] && was[start..size] == was[..size][start..];
    assert now[start..size + |bytes|] == now[start..size] + now[size..size + |bytes|];
  }

  class Parser {
    var buf: array<byte>
    var op: nat
    /** Where the first header byte of the frame is: a pointer into the buffer in the source. */
    var wbs: nat
    var len: nat
    const masks: array<byte>
    /** 16 bits wide. */
    var parseIndex: nat

    /** The bytes that have arrived, and how many of them earlier calls have used. */
    var dataSize: nat
    var readSize: nat
    var rejected: bool

    ghost var stream: seq<byte>
    ghost var frames: seq<Frame>
    ghost var taken: nat
    /** After a rejection: the position of the byte 0xFF. */
    ghost var stop: nat

    predicate Shape()
      reads this`buf, this`parseIndex
    {
      masks.Length == 4 && masks != buf && parseIndex < 65536
    }

    constructor (capacity: nat)
      ensures Valid() && fresh(buf) && fresh(masks) && buf.Length == capacity
      ensures stream == [] && frames == [] && !rejected && op == INIT_HEAD && readSize == dataSize == 0 && Todo() == 0
    {
      hide Stage, Length, Raw, Plain, Good;
      buf, masks := new byte[capacity], new byte[4];
      op, wbs, len, parseIndex, dataSize, readSize, rejected := INIT_HEAD, 0, 0, 0, 0, 0, false;
      stream, frames, taken, stop := [], [], 0, 0;
      new;
      assert Raws([]) == [] && Plains([]) == [];
      AtStart([], 0, masks[..], 0);
    }

    // One method for each state, with exactly what it does to the fields.

    method InitHead(pbuff: nat, n: nat) returns (readlen: nat)
      requires Shape()
      modifies this`op, this`wbs, this`len, this`parseIndex, masks
      ensures Shape()
      ensures n < 2 ==> readlen == 0 && op == old(op) && wbs == old(wbs) && len == old(len) &&
                        parseIndex == old(parseIndex) && masks[..] == old(masks[..])
      ensures n >= 2 ==> readlen == 2 && op == READ_PAYLOAD && wbs == pbuff && len == 0 &&
                         parseIndex == 0 && masks[..] == [0, 0, 0, 0]
    {
      readlen := 0;
      if n >= 2 {
        wbs := pbuff;
        readlen := 2;
        len := 0;
        masks[0], masks[1], masks[2], masks[3] := 0, 0, 0, 0;
        op := READ_PAYLOAD;
        parseIndex := 0;
      }
    }

    method ReadPayload(pbuff: nat, n: nat) returns (readlen: nat)
      requires Shape() && wbs + 1 < buf.Length && pbuff + n <= buf.Length
      modifies this`op, this`len
      ensures var e := Extra(buf[wbs + 1]);
        && readlen == (if n < e then 0 else e)
        && op == (if n < e then old(op) else READ_MASK_KEY)
        && len == (if n < e then old(len) else if e == 0 then buf[wbs + 1] % 128
                   else Joined(buf[pbuff..pbuff + e], e))
    {
      hide Joined, Or, Shifted, SignExtended;
      readlen := 0;
      var payLoad := buf[wbs + 1] % 128;
      if payLoad < 126 {
        len := payLoad;
        op := READ_MASK_KEY;
      } else if payLoad == 126 && n >= 2 {
        ghost var p := buf[pbuff..pbuff + 2];
        len := Or(Shifted(SignExtended(buf[pbuff]), 8), SignExtended(buf[pbuff + 1]));
        JoinedTwo(p);
        readlen := 2;
        op := READ_MASK_KEY;
      } else if payLoad == 127 && n >= 8 {
        len := LongLength(pbuff);
        readlen := 8;
        op := READ_MASK_KEY;
      }
    }

    method LongLength(pbuff: nat) returns (r: nat)
      requires pbuff + 8 <= buf.Length
      ensures r == Joined(buf[pbuff..pbuff + 8], 8)
    {
      hide Or, Shifted, SignExtended;
      var b0, b1 := Shifted(SignExtended(buf[pbuff]), 56), Shifted(SignExtended(buf[pbuff + 1]), 48);
      var b2, b3 := Shifted(SignExtended(buf[pbuff + 2]), 40), Shifted(SignExtended(buf[pbuff + 3]), 32);
      var b4, b5 := Shifted(SignExtended(buf[pbuff + 4]), 24), Shifted(SignExtended(buf[pbuff + 5]), 16);
      var b6, b7 := Shifted(SignExtended(buf[pbuff + 6]), 8), SignExtended(buf[pbuff + 7]);
      r := Or(Or(Or(Or(Or(Or(Or(b0, b1), b2), b3), b4), b5), b6), b7);
      ghost var p := buf[pbuff..pbuff + 8];
      JoinedEight(p);
    }

    method ReadMaskKey(pbuff: nat, n: nat) returns (readlen: nat)
      requires Shape() && pbuff + n <= buf.Length
      modifies this`op, masks
      ensures readlen == (if n < 4 then 0 else 4)
      ensures op == if n < 4 then old(op) else READ_DATA
      ensures masks[..] == if n < 4 then old(masks[..]) else buf[pbuff..pbuff + 4]
    {
      readlen := 0;
      if n >= 4 {
        masks[0], masks[1], masks[2], masks[3] := buf[pbuff], buf[pbuff + 1], buf[pbuff + 2], buf[pbuff + 3];
        readlen := 4;
        op := READ_DATA;
      }
    }

    method UnmaskByte(p: nat)
      requires Shape() && p < buf.Length
      modifies buf
      ensures buf[..] == old(buf[..])[p := XorByte(old(buf[p]), masks[parseIndex % 4])]
    {
      buf[p] := XorByte(buf[p], masks[parseIndex % 4]);
    }

    /** k is how many payload bytes are unmasked. */
    method ReadData(pbuff: nat, n: nat) returns (readlen: int, ghost k: nat)
      requires Shape() && pbuff + n <= buf.Length
      modifies this`op, this`parseIndex, buf
      ensures Shape()
      ensures k <= Wanted(old(parseIndex), len, n) && 255 !in old(buf[..])[pbuff..pbuff + k]
      ensures k < Wanted(old(parseIndex), len, n) ==> readlen == -1 && old(buf[..])[pbuff + k] == 255
      ensures k == Wanted(old(parseIndex), len, n) ==> readlen == k
      ensures buf[..] == Advanced(old(buf[..]), pbuff, k, masks[..], old(parseIndex))
      ensures parseIndex == (old(parseIndex) + k) % 65536
      ensures op == if readlen >= 0 && parseIndex >= len then INIT_HEAD else old(op)
    {
      hide Advanced, Wanted, XorByte;
      ghost var index, was := parseIndex, buf[..];
      ghost var w := Wanted(index, len, n);
      readlen, k := 0, 0;
      NothingAdvanced(was, pbuff, masks[..], index);
      while parseIndex < len && readlen < n
        invariant readlen == k <= w && parseIndex == (index + k) % 65536
        invariant 255 !in was[pbuff..pbuff + k] && op == old(op)
        invariant buf[..] == Advanced(was, pbuff, k, masks[..], index)
        decreases n - readlen
      {
        WantedMore(index, len, n, k);
        NextIndex(index, k);
        AdvancedStep(was, pbuff, k, masks[..], index);
        var cur := buf[pbuff + readlen];
        assert cur == was[pbuff + k];
        if cur == 255 {
          return -1, k;
        }
        assert was[pbuff..pbuff + k + 1] == was[pbuff..pbuff + k] + [cur];
        UnmaskByte(pbuff + readlen);
        parseIndex := (parseIndex + 1) % 65536;
        readlen := readlen + 1;
        k := k + 1;
      }
      WantedMore(index, len, n, k);
      if parseIndex >= len {
        op := INIT_HEAD;
      }
    }

    // The fields and the stream.

    /** The stream and the buffer from the start of the current frame. */
    ghost function Rest(): seq<byte>
      reads this`stream, this`frames
      requires AllGood(frames) && |Raws(frames)| <= |stream|
    {
      stream[|Raws(frames)|..]
    }

    ghost function Shown(): seq<byte>
      reads this`buf, this`dataSize, this`frames, buf
      requires AllGood(frames) && |Raws(frames)| <= dataSize <= buf.Length
    {
      buf[|Raws(frames)|..dataSize]
    }

    /**
     * The calls so far have used the first `read` bytes. Complete frames stand in the buffer with their payloads
     * unmasked; of the current frame the part that has been used does; what comes after is as it arrived.
     */
    ghost predicate ValidAt(read: nat)
      reads this`buf, this`op, this`wbs, this`len, this`parseIndex, this`dataSize, this`stream, this`frames,
        this`taken, buf, masks
    {
      && Shape() && |stream| == dataSize <= buf.Length && read <= dataSize && AllGood(frames)
      && |Raws(frames)| <= read && stream[..|Raws(frames)|] == Raws(frames)
      && buf[..|Raws(frames)|] == Plains(frames)
      && (op != INIT_HEAD ==> wbs == |Raws(frames)|) && parseIndex == taken % 65536
      && Stage(Rest(), Shown(), read - |Raws(frames)|, op, len, masks[..], taken)
    }

    /** After a rejection the parser stands before a payload byte 0xFF. */
    ghost predicate Valid()
      reads this, buf, masks
    {
      readSize <= dataSize && if rejected then ValidAt(stop) && Refused() else ValidAt(readSize)
    }

    ghost predicate Refused()
      reads this`op, this`taken, this`len, this`stop, this`stream
    {
      op == READ_DATA && (taken < len || len >= 65536) && stop < |stream| && stream[stop] == 255
    }

    /** The frames whose bytes have all been used. */
    ghost function Seen(): seq<Frame>
      reads this
      requires AllGood(frames) && |Raws(frames)| <= readSize <= |stream|
    {
      if PendingEmpty(op, len) then frames + [Frame(stream[|Raws(frames)|..readSize], [])] else frames
    }

    /** A call that sees n bytes can do nothing. */
    ghost predicate Idle(n: nat)
      reads this`buf, this`op, this`wbs, buf
    {
      Stuck(op, if op == READ_PAYLOAD && wbs + 1 < buf.Length then buf[wbs + 1] else 0, n)
    }

    method PayloadStep(pbuff: nat, n: nat) returns (readlen: int)
      requires ValidAt(pbuff) && op == READ_PAYLOAD && n <= dataSize - pbuff
      modifies this`op, this`len
      ensures 0 <= readlen <= n && ValidAt(pbuff + readlen)
      ensures readlen == if n < Extra(buf[wbs + 1]) then 0 else Extra(buf[wbs + 1])
      ensures op == if n < Extra(buf[wbs + 1]) then READ_PAYLOAD else READ_MASK_KEY
    {
      hide Raws, Plains, AllGood, Stage, Joined, Length, Extra;
      ghost var start, l := |Raws(frames)|, len;
      ghost var rest, shown := Rest(), Shown();
      StageOp(rest, shown, pbuff - start, op, l, masks[..], taken);
      assert buf[wbs + 1] == rest[1];
      readlen := ReadPayload(pbuff, n);
      if n >= Extra(rest[1]) {
        ToMask(rest, shown, l, masks[..], taken);
        assert pbuff == start + 2 && readlen == Extra(rest[1]);
        SliceOfSlice(buf[..], start, dataSize, 2, 2 + readlen);
      }
    }

    /** What does not depend on the stage: `rest` and `now` are the stream and the buffer from the frame's start. */
    ghost predicate Around(rest: seq<byte>, now: seq<byte>)
      reads this`buf, this`parseIndex, this`dataSize, this`stream, this`frames, buf
    {
      && Shape() && |stream| == dataSize <= buf.Length && AllGood(frames) && |Raws(frames)| <= dataSize
      && stream[..|Raws(frames)|] == Raws(frames) && buf[..|Raws(frames)|] == Plains(frames)
      && rest == Rest() && now == Shown()
    }

    /** The data state, told by the number of payload bytes taken instead of the index. */
    method CountData(pbuff: nat, n: nat) returns (readlen: int, ghost k: nat)
      requires Shape() && pbuff + n <= buf.Length && op == READ_DATA && parseIndex == taken % 65536
      requires len < 65536 ==> taken < len || taken == len == 0
      modifies this`op, this`parseIndex, buf
      ensures Shape() && parseIndex == (taken + k) % 65536
      ensures k <= n && (readlen == k || (readlen == -1 && k < n && op == READ_DATA))
      ensures op == if readlen == k && taken + k == len < 65536 then INIT_HEAD else READ_DATA
      ensures len < 65536 && op != INIT_HEAD ==> taken + k < len
      ensures readlen == 0 && n > 0 ==> op == INIT_HEAD
      ensures 255 !in old(buf[..])[pbuff..pbuff + k] && (readlen == -1 ==> old(buf[..])[pbuff + k] == 255)
      ensures buf[..] == Advanced(old(buf[..]), pbuff, k, masks[..], taken % 65536)
    {
      hide Wanted, Advanced;
      readlen, k := ReadData(pbuff, n);
      IndexOrCount(taken, len, n, k);
    }

    /** The data state, told from `start`, where the frame starts. */
    method MoveData(pbuff: nat, n: nat, ghost rest: seq<byte>, ghost shown: seq<byte>, ghost start: nat)
      returns (readlen: int, ghost k: nat)
      requires Around(rest, shown) && start == |Raws(frames)| <= pbuff && n <= dataSize - pbuff && op == READ_DATA
      requires parseIndex == taken % 65536 && (len < 65536 ==> taken < len || taken == len == 0)
      modifies this`op, this`parseIndex, buf
      ensures k <= n && (readlen == k || (readlen == -1 && k < n && op == READ_DATA))
      ensures op == if readlen == k && taken + k == len < 65536 then INIT_HEAD else READ_DATA
      ensures len < 65536 && op != INIT_HEAD ==> taken + k < len
      ensures readlen == 0 && n > 0 ==> op == INIT_HEAD
      ensures parseIndex == (taken + k) % 65536
      ensures var used := pbuff - start;
        && used + k <= |rest| == |shown| && 255 !in shown[used..used + k]
        && (readlen == -1 ==> shown[used + k] == 255)
        && Around(rest, Advanced(shown, used, k, masks[..], taken))
    {
      hide Raws, Plains, AllGood, UnmaskedFrom, Advanced;
      ghost var used, m, was := pbuff - start, masks[..], buf[..];
      readlen, k := CountData(pbuff, n);
      AdvancedSlice(was, pbuff, k, m, taken, start, dataSize);
      SliceOfSlice(was, start, dataSize, used, used + k);
      assert k < n ==> was[pbuff + k] == shown[used + k];
    }

    lemma {:induction false} Opened(read: nat)
      requires ValidAt(read)
      ensures |stream| == dataSize && AllGood(frames) && |Raws(frames)| <= read <= dataSize <= buf.Length
      ensures Around(Rest(), Shown()) && |Rest()| == |Shown()| == dataSize - |Raws(frames)|
      ensures masks.Length == 4 && masks != buf
      ensures (op != INIT_HEAD ==> wbs == |Raws(frames)|) && parseIndex == taken % 65536
      ensures Stage(Rest(), Shown(), read - |Raws(frames)|, op, len, masks[..], taken)
    {
      hide Raws, Plains, AllGood, Stage;
    }

    method DataStep(pbuff: nat, n: nat) returns (readlen: int)
      requires ValidAt(pbuff) && op == READ_DATA && n <= dataSize - pbuff
      modifies this`op, this`parseIndex, this`frames, this`taken, this`stop, buf
      ensures -1 <= readlen <= n && old(frames) <= frames
      ensures readlen == 0 && n > 0 ==> op == INIT_HEAD
      ensures readlen >= 0 ==> ValidAt(pbuff + readlen)
      ensures readlen == -1 ==> ValidAt(stop) && Refused() && pbuff <= stop < pbuff + n
    {
      hide Raws, Plains, AllGood, Stage, Unmasked, UnmaskedFrom, Length, Advanced, Good, Raw, Plain;
      hide ValidAt, Around;
      Opened(pbuff);
      ghost var rest, shown, used := Rest(), Shown(), pbuff - |Raws(frames)|;
      ghost var t, k := taken, 0;
      StageOp(rest, shown, used, op, len, masks[..], t);
      readlen, k := MoveData(pbuff, n, rest, shown, |Raws(frames)|);
      taken, stop := t + k, pbuff + k;
      if op == INIT_HEAD {
        Complete(rest, shown, used, t, k);
      } else {
        Advance(rest, shown, used, t, k);
      }
    }

    /** Some payload bytes have been unmasked. */
    ghost method Advance(rest: seq<byte>, shown: seq<byte>, used: nat, t: nat, k: nat)
      requires masks.Length == 4 && used + k <= |rest| == |shown|
      requires Stage(rest, shown, used, READ_DATA, len, masks[..], t)
      requires 255 !in shown[used..used + k] && (len < 65536 ==> t + k < len || k == 0)
      requires Around(rest, Advanced(shown, used, k, masks[..], t))
      requires op == READ_DATA && taken == t + k && parseIndex == taken % 65536 && wbs == |Raws(frames)|
      ensures ValidAt(|Raws(frames)| + used + k)
      ensures used + k < |rest| ==> |Raws(frames)| + used + k < |stream| &&
                                    stream[|Raws(frames)| + used + k] == shown[used + k]
    {
      hide Raws, Plains, AllGood, Stage, Unmasked, UnmaskedFrom, Length, Advanced, Good, Raw, Plain;
      MoreData(rest, shown, used, len, masks[..], t, k);
      if used + k < |rest| {
        NotYetUsed(rest, shown, used, READ_DATA, len, masks[..], t, used + k);
      }
    }

    /** The last payload byte of a frame has been unmasked. */
    ghost method Complete(rest: seq<byte>, shown: seq<byte>, used: nat, t: nat, k: nat)
      requires masks.Length == 4 && used + k <= |rest| == |shown|
      requires Stage(rest, shown, used, READ_DATA, len, masks[..], t)
      requires 255 !in shown[used..used + k] && t + k == len < 65536
      requires Around(rest, Advanced(shown, used, k, masks[..], t))
      requires op == INIT_HEAD && taken == t + k && parseIndex == taken % 65536
      modifies this`frames
      ensures ValidAt(old(|Raws(frames)|) + used + k) && old(frames) <= frames
    {
      hide Raws, Plains, AllGood, Stage, Unmasked, UnmaskedFrom, Length, Advanced, Good, Raw, Plain;
      ghost var start := |Raws(frames)|;
      ghost var now := Advanced(shown, used, k, masks[..], t);
      var f := Completed(rest, shown, used, len, masks[..], t, k);
      Appended(frames, f);
      frames := frames + [f];
      OneFrameOn(stream, start, used + k);
      OneFrameOnArray(buf, start, used + k, dataSize);
      assert Rest() == rest[used + k..] && Shown() == now[used + k..];
      AtStart(Rest(), len, masks[..], taken);
    }

    method HeadStep(pbuff: nat, n: nat) returns (readlen: nat)
      requires ValidAt(pbuff) && op == INIT_HEAD && n <= dataSize - pbuff
      modifies this`op, this`wbs, this`len, this`parseIndex, this`taken, masks
      ensures readlen <= n && ValidAt(pbuff + readlen)
      ensures readlen == (if n < 2 then 0 else 2) && op == if n < 2 then INIT_HEAD else READ_PAYLOAD
    {
      hide Raws, Plains, AllGood, Stage, Extra;
      ghost var rest, shown, used := Rest(), Shown(), pbuff - |Raws(frames)|;
      ghost var l, m, t := len, masks[..], taken;
      StageOp(rest, shown, used, op, l, m, t);
      readlen := InitHead(pbuff, n);
      if n >= 2 {
        taken := 0;
        ToPayload(rest, shown, l, m, t);
      }
    }

    method MaskStep(pbuff: nat, n: nat) returns (readlen: nat)
      requires ValidAt(pbuff) && op == READ_MASK_KEY && n <= dataSize - pbuff
      modifies this`op, masks
      ensures readlen <= n && ValidAt(pbuff + readlen)
      ensures readlen == (if n < 4 then 0 else 4) && op == if n < 4 then READ_MASK_KEY else READ_DATA
    {
      hide Raws, Plains, AllGood, Stage, Extra;
      ghost var start, m := |Raws(frames)|, masks[..];
      ghost var rest, shown, used := Rest(), Shown(), pbuff - start;
      readlen := ReadMaskKey(pbuff, n);
      if n >= 4 {
        SliceOfSlice(buf[..], start, dataSize, used, used + 4);
        ToData(rest, shown, used, len, m, taken);
      }
    }

    /** `parseWsHead` for n bytes at pbuff. */
    method ParseWsHead(pbuff: nat, n: int) returns (readlen: int)
      requires ValidAt(pbuff) && n <= dataSize - pbuff
      modifies this`op, this`wbs, this`len, this`parseIndex, this`frames, this`taken, this`stop, masks, buf
      ensures readlen >= 0 ==> ValidAt(pbuff + readlen)
      ensures readlen < 0 ==> readlen == -1 && ValidAt(stop) && Refused() && pbuff <= stop < pbuff + n
      ensures old(frames) <= frames && readlen <= (if n > 0 then n else 0)
      ensures n <= 0 || old(Idle(n)) ==> readlen == 0 && op == old(op)
      ensures n >= 0 && old(Idle(n)) ==> Idle(n)
      ensures n > 0 && !old(Idle(n)) && readlen >= 0 ==> 2 * readlen + Rank(old(op)) > Rank(op)
    {
      hide Raws, Plains, AllGood, Stage, Extra;
      StageOp(Rest(), Shown(), pbuff - |Raws(frames)|, op, len, masks[..], taken);
      hide ValidAt, Refused;
      readlen := 0;
      if n > 0 {
        if op == INIT_HEAD {
          readlen := HeadStep(pbuff, n);
        } else if op == READ_PAYLOAD {
          readlen := PayloadStep(pbuff, n);
        } else if op == READ_MASK_KEY {
          readlen := MaskStep(pbuff, n);
        } else {
          readlen := DataStep(pbuff, n);
        }
      }
    }

    /** New bytes are copied behind those that are there, if there is room for more than them. */
    method Arrive(bytes: seq<byte>) returns (ok: bool)
      requires Valid()
      modifies this`dataSize, this`stream, buf
      ensures Valid()
      ensures ok <==> 0 < |bytes| < buf.Length - old(dataSize)
      ensures stream == if ok then old(stream) + bytes else old(stream)
    {
      hide ValidAt;
      ok := 0 < |bytes| < buf.Length - dataSize;
      if ok {
        Extend(bytes, if rejected then stop else readSize);
      }
    }

    method Extend(bytes: seq<byte>, ghost read: nat)
      requires ValidAt(read) && |bytes| <= buf.Length - dataSize
      modifies this`dataSize, this`stream, buf
      ensures ValidAt(read) && stream == old(stream) + bytes && dataSize == old(dataSize) + |bytes|
    {
      hide Raws, Plains, AllGood, Stage, Length, Advanced, Unmasked;
      ghost var start, rest, shown := |Raws(frames)|, Rest(), Shown();
      StageGrows(rest, shown, bytes, read - start, op, len, masks[..], taken);
      MoreBehind(stream, bytes, start);
      CopyBehind(bytes, start);
      dataSize := dataSize + |bytes|;
      stream := stream + bytes;
    }

    method CopyBehind(bytes: seq<byte>, ghost start: nat)
      requires start <= dataSize && dataSize + |bytes| <= buf.Length
      modifies buf
      ensures buf[..start] == old(buf[..start])
      ensures buf[start..dataSize + |bytes|] == old(buf[start..dataSize]) + bytes
    {
      ghost var was := buf[..];
      CopyIn(bytes);
      TwoSlices(was, buf[..], bytes, start, dataSize);
    }

    method CopyIn(bytes: seq<byte>)
      requires dataSize + |bytes| <= buf.Length
      modifies buf
      ensures buf[..][..dataSize] == old(buf[..])[..dataSize] && buf[..][dataSize..dataSize + |bytes|] == bytes
    {
      for i := 0 to |bytes|
        invariant buf[..][..dataSize] == old(buf[..])[..dataSize] && buf[..][dataSize..dataSize + i] == bytes[..i]
      {
        buf[dataSize + i] := bytes[i];
        assert buf[..][dataSize..dataSize + i + 1] == buf[..][dataSize..dataSize + i] + [bytes[i]];
      }
    }

    /** Steps that are left for the bytes at hand. */
    function Work(): nat
      reads this
      requires readSize <= dataSize
    {
      2 * (dataSize - readSize) + Rank(op)
    }

    /** Steps that are left before the parser has nothing more to do. */
    ghost function Todo(): nat
      reads this, buf
      requires readSize <= dataSize
    {
      if rejected || Idle(dataSize - readSize) then 0 else Work()
    }

    /** One call that sees the bytes not yet used. */
    method Call()
      requires Valid() && !rejected
      modifies this`op, this`wbs, this`len, this`parseIndex, this`frames, this`taken, this`stop, masks, buf,
        this`readSize, this`rejected
      ensures Valid() && old(frames) <= frames
      ensures old(Idle(dataSize - readSize)) ==>
                !rejected && readSize == old(readSize) && op == old(op) && Idle(dataSize - readSize)
      ensures !old(Idle(dataSize - readSize)) ==> rejected || Work() < old(Work())
      ensures Todo() == 0 || Todo() < old(Todo())
    {
      hide ValidAt, Refused, Shape, Stage;
      var readlen := ParseWsHead(readSize, dataSize - readSize);
      if readlen >= 0 {
        readSize := readSize + readlen;
      } else {
        rejected := true;
      }
    }
  }

  // ---------------------------------------------------------------- main results

  /** The frames seen so far are the first ones of the stream, in whatever pieces it came. */
  lemma {:induction false} SeenSoFar(p: Parser)
    requires p.Valid() && !p.rejected
    ensures p.Seen() <= ParseAll(p.stream).frames
  {
    hide Raws, Plains, AllGood, Stage, ParseAll;
    assert p.stream == Raws(p.frames) + p.Rest();
    ParseRaws(p.frames, p.Rest());
    if PendingEmpty(p.op, p.len) {
      PendingIsDone(p.Rest(), p.Shown(), p.readSize - |Raws(p.frames)|, p.op, p.len, p.masks[..], p.taken);
      DoneFirst(p.Rest());
      assert p.Rest()[..p.readSize - |Raws(p.frames)|] == p.stream[|Raws(p.frames)|..p.readSize];
    }
  }

  lemma {:induction false} DoneFirst(s: seq<byte>)
    requires ParseOne(s).Done?
    ensures ParseAll(s).frames != [] && ParseAll(s).frames[0] == ParseOne(s).frame
  {
  }

  /** A rejection happens where the whole-stream parser gives up. */
  lemma {:induction false} RejectedThere(p: Parser)
    requires p.Valid() && p.rejected
    ensures ParseAll(p.stream) == Parsed(p.frames, Rejected(p.stop))
  {
    hide Raws, Plains, AllGood, ParseAll, Stage;
    var start := |Raws(p.frames)|;
    var rest := p.Rest();
    assert p.stream == Raws(p.frames) + rest;
    ParseRaws(p.frames, rest);
    RejectedIsBad(rest, p.Shown(), p.stop - start, p.len, p.masks[..], p.taken);
    BadAll(rest);
  }

  /** The position after the last complete frame, once nothing is left to do. */
  ghost function FramesEnd(p: Parser): nat
    reads p
    requires AllGood(p.frames)
  {
    if PendingEmpty(p.op, p.len) then p.readSize else |Raws(p.frames)|
  }

  /** When nothing is left to do, the frames seen are those of the whole stream. */
  lemma {:induction false} SeenAtTheEnd(p: Parser)
    requires p.Valid() && !p.rejected && p.Idle(p.dataSize - p.readSize)
    ensures ParseAll(p.stream) == Parsed(p.Seen(), Partial(FramesEnd(p)))
  {
    hide Raws, Plains, AllGood, ParseAll, Stage;
    var start, rest, shown := |Raws(p.frames)|, p.Rest(), p.Shown();
    var used := p.readSize - start;
    assert p.stream == Raws(p.frames) + rest;
    ParseRaws(p.frames, rest);
    StageOp(rest, shown, used, p.op, p.len, p.masks[..], p.taken);
    if PendingEmpty(p.op, p.len) {
      PendingIsDone(rest, shown, used, p.op, p.len, p.masks[..], p.taken);
      assert rest[..used] == rest == p.stream[start..p.readSize];
      EmptyAtEnd(rest);
    } else {
      StuckIsShort(rest, shown, used, p.op, p.len, p.masks[..], p.taken);
      ShortAll(rest);
    }
  }

  lemma {:induction false} BadAll(s: seq<byte>)
    requires ParseOne(s).Bad?
    ensures ParseAll(s) == Parsed([], Rejected(ParseOne(s).at))
  {
  }

  lemma {:induction false} ShortAll(s: seq<byte>)
    requires ParseOne(s).Short?
    ensures ParseAll(s) == Parsed([], Partial(0))
  {
  }

  lemma {:induction false} EmptyAtEnd(s: seq<byte>)
    requires ParseOne(s) == Done(Frame(s, []))
    ensures ParseAll(s) == Parsed([Frame(s, [])], Partial(|s|))
  {
    assert s[|s|..] == [];
    ShortAll([]);
  }

  datatype Event = Arrival(bytes: seq<byte>) | Step

  /** The stream that arrives: pieces for which there is no room are dropped. */
  function Arrived(capacity: nat, events: seq<Event>): seq<byte> {
    if events == [] then []
    else
      var before := Arrived(capacity, events[..|events| - 1]);
      match events[|events| - 1]
      case Arrival(bytes) => if 0 < |bytes| < capacity - |before| then before + bytes else before
      case Step => before
  }

  lemma {:induction false} NothingTodo(p: Parser)
    requires p.rejected && p.readSize <= p.dataSize
    ensures p.Todo() == 0
  {}

  lemma {:induction false} TodoBound(p: Parser)
    requires p.Valid()
    ensures p.Todo() <= 2 * |p.stream| + 1
  {
    hide Stage, Raws, Plains, AllGood;
  }

  method Happen(p: Parser, event: Event)
    requires p.Valid()
    modifies p, p.buf, p.masks
    ensures p.Valid() && p.buf == old(p.buf) && old(p.stream) <= p.stream && old(p.frames) <= p.frames
    ensures p.stream == match event
      case Arrival(bytes) =>
        if 0 < |bytes| < p.buf.Length - |old(p.stream)| then old(p.stream) + bytes else old(p.stream)
      case Step => old(p.stream)
    ensures event.Step? ==> p.Todo() == 0 || p.Todo() < old(p.Todo())
    ensures p.Todo() <= 2 * |p.stream| + 1
  {
    assert p.dataSize == |p.stream|;
    hide Parser.ValidAt, Parser.Refused, Parser.Idle, Parser.Todo;
    match event {
      case Arrival(bytes) => var _ := p.Arrive(bytes);
      case Step =>
        if p.rejected {
          NothingTodo(p);
        } else {
          p.Call();
        }
    }
    TodoBound(p);
  }

  /** How many calls come after the last arrival. */
  function Trailing(events: seq<Event>): nat {
    if events == [] || !events[|events| - 1].Step? then 0 else Trailing(events[..|events| - 1]) + 1
  }

  lemma {:induction false} TrailingCalls(events: seq<Event>, n: nat)
    requires n <= |events|
    ensures (forall i | |events| - n <= i < |events| :: events[i].Step?) ==> Trailing(events) >= n
    decreases n
  {
    if n > 0 && forall i | |events| - n <= i < |events| :: events[i].Step? {
      TrailingCalls(events[..|events| - 1], n - 1);
    }
  }

  /**
   * A connection: bytes arrive in pieces and calls are made in between, in any order. If at the end nothing is left
   * for a call to do, or a call has rejected the stream, then the frames, their payloads and the place of the
   * rejection depend on the stream alone. Two calls for each byte and two more are enough to come to that.
   */
  method Connection(capacity: nat, events: seq<Event>) returns (p: Parser)
    ensures p.Valid() && p.stream == Arrived(capacity, events)
    ensures var calls := 2 * |p.stream| + 2;
      |events| >= calls && (forall i | |events| - calls <= i < |events| :: events[i].Step?) ==>
        p.rejected || p.Idle(p.dataSize - p.readSize)
    ensures p.rejected ==> ParseAll(p.stream) == Parsed(p.frames, Rejected(p.stop))
    ensures !p.rejected ==> p.Seen() <= ParseAll(p.stream).frames
    ensures !p.rejected && p.Idle(p.dataSize - p.readSize) ==>
      ParseAll(p.stream) == Parsed(p.Seen(), Partial(FramesEnd(p)))
  {
    p := Deliver(capacity, events);
    hide ParseAll, Stage, Raws, Plains, Parser.ValidAt;
    if |events| >= 2 * |p.stream| + 2 {
      TrailingCalls(events, 2 * |p.stream| + 2);
    }
    if p.rejected {
      RejectedThere(p);
    } else {
      SeenSoFar(p);
      if p.Idle(p.dataSize - p.readSize) {
        SeenAtTheEnd(p);
      }
    }
  }

  /** All events, one after the other. */
  method Deliver(capacity: nat, events: seq<Event>) returns (p: Parser)
    ensures p.Valid() && p.stream == Arrived(capacity, events)
    ensures p.Todo() == 0 || p.Todo() + Trailing(events) <= 2 * |p.stream| + 1
  {
    p := new Parser(capacity);
    hide Parser.ValidAt, Parser.Refused;
    for i := 0 to |events|
      invariant p.Valid() && p.stream == Arrived(capacity, events[..i]) && p.buf.Length == capacity
      invariant fresh(p) && fresh(p.buf) && fresh(p.masks)
      invariant p.Todo() == 0 || p.Todo() + Trailing(events[..i]) <= 2 * |p.stream| + 1
    {
      hide Parser.Todo;
      assert events[..i + 1][..i] == events[..i];
      Happen(p, events[i]);
    }
    assert events[..|events|] == events;
  }

  // ---------------------------------------------------------------- section 5 of RFC 6455

  function NumberBytes(n: nat, width: nat): (s: seq<byte>)
    ensures |s| == width
  {
    if width == 0 then [] else NumberBytes(n / 256, width - 1) + [n % 256]
  }

  lemma {:induction false} NumberBytesIs(n: nat, width: nat)
    requires n < Pow2(8 * width)
    ensures BigEndian(NumberBytes(n, width)) == n
    decreases width
  {
    if width > 0 {
      var s := NumberBytes(n, width);
      Pow2Sum(8, 8 * (width - 1));
      Powers();
      assert n / 256 < Pow2(8 * (width - 1));
      NumberBytesIs(n / 256, width - 1);
      assert s[..|s| - 1] == NumberBytes(n / 256, width - 1);
    }
  }

  /** The length, in the fewest bytes, after its seven-bit field. */
  function LengthBytes(n: nat): seq<byte> {
    if n < 126 then [] else if n < 65536 then NumberBytes(n, 2) else NumberBytes(n, 8)
  }

  function SevenBits(n: nat): byte {
    if n < 126 then n else if n < 65536 then 126 else 127
  }

  /** A masked frame as a client sends it; `first` holds FIN, the reserved bits and the opcode. */
  function Header(first: byte, key: seq<byte>, n: nat): seq<byte> {
    [first, 128 + SevenBits(n)] + LengthBytes(n) + key
  }

  function Encode(first: byte, key: seq<byte>, payload: seq<byte>): seq<byte>
    requires |key| == 4
  {
    Header(first, key, |payload|) + Unmasked(key, payload)
  }

  /** What section 5.2 of RFC 6455 says of a header: the mask bit is set, and the length takes the fewest octets. */
  lemma {:induction false} HeaderLayout(first: byte, key: seq<byte>, n: nat)
    requires |key| == 4 && n < TWO_64 / 2
    ensures var h := Header(first, key, n);
      && |h| == (if n <= 125 then 6 else if n <= 65535 then 8 else 14)
      && h[0] == first && h[1] == 128 + (if n <= 125 then n else if n <= 65535 then 126 else 127)
      && (126 <= n <= 65535 ==> BigEndian(h[2..4]) == n)
      && (n >= 65536 ==> BigEndian(h[2..10]) == n)
      && h[|h| - 4..] == key
  {
    hide NumberBytes, BigEndian;
    HeaderShape(first, key, n);
    if n >= 65536 {
      EightBytes(n);
    } else if n >= 126 {
      TwoBytes(n);
    }
  }

  lemma {:induction false} XorFour(a: nat, b: nat)
    ensures Xor(a, b) == 16 * Xor(a / 16, b / 16) + 8 * ((a / 8 + b / 8) % 2) + 4 * ((a / 4 + b / 4) % 2)
                         + 2 * ((a / 2 + b / 2) % 2) + (a + b) % 2
  {
    hide Xor;
    XorSplit(a, b);
    XorSplit(a / 2, b / 2);
    XorSplit(a / 4, b / 4);
    XorSplit(a / 8, b / 8);
    assert a / 2 / 2 == a / 4 && a / 4 / 2 == a / 8 && a / 8 / 2 == a / 16;
    assert b / 2 / 2 == b / 4 && b / 4 / 2 == b / 8 && b / 8 / 2 == b / 16;
  }

  lemma {:induction false} HelloBytes()
    ensures Xor(0x48, 0x37) == 0x7f && Xor(0x65, 0xfa) == 0x9f && Xor(0x6c, 0x21) == 0x4d
    ensures Xor(0x6c, 0x3d) == 0x51 && Xor(0x6f, 0x37) == 0x58
  {
    hide Xor;
    HelloHalves();
    XorFour(0x48, 0x37);
    XorFour(0x65, 0xfa);
    XorFour(0x6c, 0x21);
    XorFour(0x6c, 0x3d);
    XorFour(0x6f, 0x37);
  }

  lemma {:induction false} HelloHalves()
    ensures Xor(4, 3) == 7 && Xor(6, 15) == 9 && Xor(6, 2) == 4 && Xor(6, 3) == 5
  {
    hide Xor;
    XorFour(4, 3);
    XorFour(6, 15);
    XorFour(6, 2);
    XorFour(6, 3);
    XorNothing();
  }

  lemma {:induction false} XorNothing()
    ensures Xor(0, 0) == 0
  {}

  /** The masked frame in section 5.7 of RFC 6455, a text message "Hello". */
  lemma {:induction false} Hello()
    ensures Encode(0x81, [0x37, 0xfa, 0x21, 0x3d], [0x48, 0x65, 0x6c, 0x6c, 0x6f]) ==
            [0x81, 0x85, 0x37, 0xfa, 0x21, 0x3d, 0x7f, 0x9f, 0x4d, 0x51, 0x58]
  {
    HelloBytes();
    hide Xor;
    var key, data: seq<byte> := [0x37, 0xfa, 0x21, 0x3d], [0x48, 0x65, 0x6c, 0x6c, 0x6f];
    assert Unmasked(key, data) == [0x7f, 0x9f, 0x4d, 0x51, 0x58];
    assert LengthBytes(5) == [];
  }

  /** What the parser asks of a frame's key and payload. */
  predicate Meets(key: seq<byte>, payload: seq<byte>)
    requires |key| == 4
  {
    && |payload| < 65536
    && (|payload| >= 126 ==> |payload| / 256 < 128 && |payload| % 256 < 128)
    && 255 !in Unmasked(key, payload)
  }

  /**
   * Exactly these frames are understood: those of at most 65535 payload bytes in which no byte of a two-byte length
   * has its top bit set and no masked byte is 0xFF. Any other frame is rejected or swallows what follows.
   */
  lemma {:induction false} Understood(first: byte, key: seq<byte>, payload: seq<byte>, rest: seq<byte>)
    requires |key| == 4 && |payload| < TWO_64 / 2
    ensures ParseOne(Encode(first, key, payload) + rest) == Done(Frame(Header(first, key, |payload|), payload)) <==>
              Meets(key, payload)
    ensures ParseOne(Encode(first, key, payload) + rest).Done? <==> Meets(key, payload)
  {
    hide ParseOne, Unmasked, Header, Good, Raw;
    var h, masked := Header(first, key, |payload|), Unmasked(key, payload);
    if Meets(key, payload) {
      GoodFrame(first, key, payload);
      ParseRaw(Frame(h, payload), rest);
    } else {
      HeaderParts(first, key, |payload|);
      hide IsHeader, Length;
      NotDone(h, masked + rest, masked);
      assert h + masked + rest == h + (masked + rest);
    }
  }

  lemma {:induction false} GoodFrame(first: byte, key: seq<byte>, payload: seq<byte>)
    requires |key| == 4 && Meets(key, payload)
    ensures var f := Frame(Header(first, key, |payload|), payload);
      Good(f) && Raw(f) == Encode(first, key, payload)
  {
    hide Unmasked;
    HeaderParts(first, key, |payload|);
  }

  /** A frame whose length is not understood, or which has a byte 0xFF in its masked payload, is never complete. */
  lemma {:induction false} NotDone(h: seq<byte>, s: seq<byte>, masked: seq<byte>)
    requires IsHeader(h) && masked <= s
    requires Length(h) >= 65536 || (Length(h) == |masked| && 255 in masked)
    ensures !ParseOne(h + s).Done?
  {
    hide Joined, FirstFF;
    assert (h + s)[..|h|] == h && (h + s)[|h|..] == s;
    if Length(h) < 65536 {
      var k := FirstFF(s);
      var i :| 0 <= i < |masked| && masked[i] == 255;
      assert s[i] == 255;
      assert k <= i by {
        assert forall j | 0 <= j < k :: s[..k][j] == s[j];
      }
    }
  }

  lemma {:induction false} HeaderParts(first: byte, key: seq<byte>, n: nat)
    requires |key| == 4 && n < TWO_64 / 2
    ensures var h := Header(first, key, n);
      && IsHeader(h) && Key(h) == key
      && (if n < 126 || (n < 65536 && n / 256 < 128 && n % 256 < 128) then Length(h) == n else Length(h) >= 65536)
  {
    hide Joined, BigEndian, NumberBytes, Header, Key;
    HeaderShape(first, key, n);
    if n >= 65536 {
      EightBytes(n);
      ExtendedLength(NumberBytes(n, 8));
    } else if n >= 126 {
      var s := NumberBytes(n, 2);
      TwoBytes(n);
      ExtendedLength(s);
      assert s[0] == n / 256 && s[1] == n % 256;
    }
  }

  lemma {:induction false} HeaderShape(first: byte, key: seq<byte>, n: nat)
    requires |key| == 4
    ensures var h := Header(first, key, n);
      && |h| >= 2 && h[1] % 128 == SevenBits(n) && |LengthBytes(n)| == Extra(h[1])
      && IsHeader(h) && Key(h) == key && h[2..2 + Extra(h[1])] == LengthBytes(n)
  {
    hide NumberBytes;
    var two, bytes := [first, 128 + SevenBits(n)], LengthBytes(n);
    var h := Header(first, key, n);
    assert h == two + bytes + key && h[1] == two[1];
    assert |bytes| == Extra(h[1]);
    Middle(two, bytes, key);
  }

  lemma {:induction false} Middle(a: seq<byte>, b: seq<byte>, c: seq<byte>)
    ensures (a + b + c)[|a|..|a| + |b|] == b && (a + b + c)[|a| + |b|..] == c
  {
  }

  lemma {:induction false} TwoBytes(n: nat)
    requires n < 65536
    ensures NumberBytes(n, 2) == [n / 256, n % 256] && BigEndian(NumberBytes(n, 2)) == n
  {
    assert NumberBytes(n / 256, 1) == NumberBytes(n / 256 / 256, 0) + [n / 256 % 256];
    hide BigEndian;
    Powers();
    NumberBytesIs(n, 2);
  }

  lemma {:induction false} EightBytes(n: nat)
    requires n < TWO_64 / 2
    ensures var s := NumberBytes(n, 8); s[0] < 128 && BigEndian(s) == n
  {
    hide BigEndian, NumberBytes, Pow2;
    Powers();
    NumberBytesIs(n, 8);
    TopByte(NumberBytes(n, 8));
  }

  lemma {:induction false} TopByte(s: seq<byte>)
    requires s != []
    ensures BigEndian(s) >= s[0] * Pow2(8 * (|s| - 1))
  {
    hide Pow2;
    PowZero();
    if |s| > 1 {
      var m := 8 * (|s| - 2);
      TopByte(s[..|s| - 1]);
      Pow2Sum(8, m);
      Powers();
      Times256(s[0], Pow2(m), BigEndian(s[..|s| - 1]));
    } else {
      assert s[..0] == [];
    }
  }

  lemma {:induction false} Times256(b: nat, p: nat, x: nat)
    requires x >= b * p
    ensures 256 * x >= b * (256 * p)
  {
    assert b * (256 * p) == 256 * (b * p);
  }

  // ---------------------------------------------------------------- messages over a connection

  datatype Message = Message(first: byte, key: seq<byte>, payload: seq<byte>)

  predicate Sendable(ms: seq<Message>) {
    forall i :: 0 <= i < |ms| ==> |ms[i].key| == 4 && |ms[i].payload| < TWO_64 / 2
  }

  function EncodeAll(ms: seq<Message>): seq<byte>
    requires Sendable(ms)
  {
    if ms == [] then [] else Encode(ms[0].first, ms[0].key, ms[0].payload) + EncodeAll(ms[1..])
  }

  /** The frames of the messages before the first that does not meet the parser's conditions. */
  function Delivered(ms: seq<Message>): seq<Frame>
    requires Sendable(ms)
  {
    if ms == [] || !Meets(ms[0].key, ms[0].payload) then []
    else [Frame(Header(ms[0].first, ms[0].key, |ms[0].payload|), ms[0].payload)] + Delivered(ms[1..])
  }

  lemma {:induction false} DeliveredAll(ms: seq<Message>)
    requires Sendable(ms)
    ensures |Delivered(ms)| == |ms| <==> forall i :: 0 <= i < |ms| ==> Meets(ms[i].key, ms[i].payload)
    ensures |Delivered(ms)| <= |ms|
    ensures forall i :: 0 <= i < |Delivered(ms)| ==>
              var m := ms[i]; Delivered(ms)[i] == Frame(Header(m.first, m.key, |m.payload|), m.payload)
  {
    hide Meets;
    if ms != [] && Meets(ms[0].key, ms[0].payload) {
      DeliveredAll(ms[1..]);
      assert forall i | 0 < i < |ms| :: ms[i] == ms[1..][i - 1];
      assert forall i | 0 <= i < |ms| - 1 :: ms[1..][i] == ms[i + 1];
    }
  }

  lemma {:induction false} ParseMessages(ms: seq<Message>)
    requires Sendable(ms)
    ensures ParseAll(EncodeAll(ms)).frames == Delivered(ms)
    ensures |Delivered(ms)| == |ms| ==> ParseAll(EncodeAll(ms)).end.Partial?
    decreases |ms|
  {
    hide ParseOne, Unmasked, Meets, LengthBytes;
    if ms == [] {
      ParseNothing();
    } else {
      var m, rest := ms[0], EncodeAll(ms[1..]);
      Understood(m.first, m.key, m.payload, rest);
      if Meets(m.key, m.payload) {
        var f := Frame(Header(m.first, m.key, |m.payload|), m.payload);
        GoodFrame(m.first, m.key, m.payload);
        ParseHead(f, rest);
        ParseMessages(ms[1..]);
      } else {
        DeliveredAll(ms);
      }
    }
  }

  lemma {:induction false} ParseNothing()
    ensures ParseAll([]) == Parsed([], Partial(0))
  {
    assert ParseOne([]).Short?;
  }

  /**
   * Messages encoded as RFC 6455 says and delivered in any pieces, with calls at any times: what is seen, once nothing
   * is left to do or the stream is rejected, is exactly the messages before the first that does not meet the
   * conditions. So all of them are seen if and only if all of them meet the conditions.
   */
  lemma {:induction false} MessagesSeen(p: Parser, ms: seq<Message>)
    requires p.Valid() && Sendable(ms) && p.stream == EncodeAll(ms)
    requires p.rejected || p.Idle(p.dataSize - p.readSize)
    ensures (if p.rejected then p.frames else p.Seen()) == Delivered(ms)
    ensures |Delivered(ms)| == |ms| ==> !p.rejected
    ensures |Delivered(ms)| == |ms| <==> forall i :: 0 <= i < |ms| ==> Meets(ms[i].key, ms[i].payload)
  {
    hide ParseAll, EncodeAll, Delivered, Meets, Stage, Raws, Plains;
    ParseMessages(ms);
    DeliveredAll(ms);
    if p.rejected {
      RejectedThere(p);
    } else {
      SeenAtTheEnd(p);
    }
  }
}

/**
 * The UTF-8 automaton of ExtNet/common/utf8.c, compared with the grammar in section 4 of RFC 3629
 * and with the encoding in section 3 of RFC 3629. Masks of low bits are remainders, shifts are
 * multiplications, and code points are 32-bit values.
 */
module Utf8 {
  import opened Common

  const ACCEPT: nat := 0
  const REJECT: nat := 1

  // ---------------------------------------------------------------- the table, line by line

  const L00: seq<nat> := [0,0,0,0,0,0,0,0,0,0,0,0,0,0,0,0,0,0,0,0,0,0,0,0,0,0,0,0,0,0,0,0]
  const L80: seq<nat> := [1,1,1,1,1,1,1,1,1,1,1,1,1,1,1,1,9,9,9,9,9,9,9,9,9,9,9,9,9,9,9,9]
  const LA0: seq<nat> := [7,7,7,7,7,7,7,7,7,7,7,7,7,7,7,7,7,7,7,7,7,7,7,7,7,7,7,7,7,7,7,7]
  const LC0: seq<nat> := [8,8,2,2,2,2,2,2,2,2,2,2,2,2,2,2,2,2,2,2,2,2,2,2,2,2,2,2,2,2,2,2]
  const LE0: seq<nat> := [0xa,0x3,0x3,0x3,0x3,0x3,0x3,0x3,0x3,0x3,0x3,0x3,0x3,0x4,0x3,0x3]
  const LF0: seq<nat> := [0xb,0x6,0x6,0x6,0x5,0x8,0x8,0x8,0x8,0x8,0x8,0x8,0x8,0x8,0x8,0x8]
  const S0: seq<nat> := [0x0,0x1,0x2,0x3,0x5,0x8,0x7,0x1,0x1,0x1,0x4,0x6,0x1,0x1,0x1,0x1]
  const S12: seq<nat> := [1,1,1,1,1,1,1,1,1,1,1,1,1,1,1,1,1,0,1,1,1,1,1,0,1,0,1,1,1,1,1,1]
  const S34: seq<nat> := [1,2,1,1,1,1,1,2,1,2,1,1,1,1,1,1,1,1,1,1,1,1,1,2,1,1,1,1,1,1,1,1]
  const S56: seq<nat> := [1,2,1,1,1,1,1,1,1,2,1,1,1,1,1,1,1,1,1,1,1,1,1,3,1,3,1,1,1,1,1,1]
  const S78: seq<nat> := [1,3,1,1,1,1,1,3,1,3,1,1,1,1,1,1,1,3,1,1,1,1,1,1,1,1,1,1,1,1,1,1]

  const ASCII := L00 + L00 + L00 + L00
  const NON_ASCII := L80 + LA0 + LC0 + LE0 + LF0
  const CLASSES := ASCII + NON_ASCII
  const STATES := S0 + S12 + S34 + S56 + S78
  const UTF8D := CLASSES + STATES

  /** The class of a byte, in closed form. */
  function Class(b: byte): nat {
    if b < 0x80 then 0
    else if b < 0x90 then 1
    else if b < 0xA0 then 9
    else if b < 0xC0 then 7
    else if b < 0xC2 then 8
    else if b < 0xE0 then 2
    else if b == 0xE0 then 10
    else if b == 0xED then 4
    else if b < 0xF0 then 3
    else if b == 0xF0 then 11
    else if b < 0xF4 then 6
    else if b == 0xF4 then 5
    else 8
  }

  /** The transition function on classes, in closed form. */
  function Next(state: nat, class': nat): nat
    requires state <= 8 && class' <= 11
  {
    match state
    case 0 =>
      (match class'
       case 0 => 0 case 2 => 2 case 3 => 3 case 4 => 5 case 5 => 8 case 6 => 7
       case 10 => 4 case 11 => 6 case _ => 1)
    case 2 => if class' in {1, 7, 9} then 0 else 1
    case 3 => if class' in {1, 7, 9} then 2 else 1
    case 4 => if class' == 7 then 2 else 1
    case 5 => if class' in {1, 9} then 2 else 1
    case 6 => if class' in {7, 9} then 3 else 1
    case 7 => if class' in {1, 7, 9} then 3 else 1
    case 8 => if class' == 1 then 3 else 1
    case _ => 1
  }

  lemma LengthsOfLines()
    ensures |L00| == |L80| == |LA0| == |LC0| == |S12| == |S34| == |S56| == |S78| == 32
    ensures |LE0| == |LF0| == |S0| == 16
  {}

  lemma LowLines(i: nat)
    requires i < 32
    ensures L00[i] == 0 && LA0[i] == 7
  {}

  lemma MiddleLines(i: nat)
    requires i < 32
    ensures L80[i] == (if i < 16 then 1 else 9) && LC0[i] == (if i < 2 then 8 else 2)
  {}

  lemma HighLines(i: nat)
    requires i < 16
    ensures LE0[i] == (if i == 0 then 10 else if i == 13 then 4 else 3)
    ensures LF0[i] == if i == 0 then 11 else if i < 4 then 6 else if i == 4 then 5 else 8
  {}

  lemma StateLines(class': nat)
    requires class' <= 11
    ensures S0[class'] == Next(0, class')
    ensures S12[class'] == Next(1, class') && S12[16 + class'] == Next(2, class')
    ensures S34[class'] == Next(3, class') && S34[16 + class'] == Next(4, class')
    ensures S56[class'] == Next(5, class') && S56[16 + class'] == Next(6, class')
    ensures S78[class'] == Next(7, class') && S78[16 + class'] == Next(8, class')
  {}

  lemma TableOfAscii(i: nat)
    requires i < 128
    ensures |ASCII| == 128 && ASCII[i] == 0
  {
    hide L00;
    LengthsOfLines();
    LowLines(if i < 32 then i else if i < 64 then i - 32 else if i < 96 then i - 64 else i - 96);
  }

  lemma TableOfNonAscii(i: nat)
    requires i < 128
    ensures |NON_ASCII| == 128 && NON_ASCII[i] == Class(0x80 + i)
  {
    hide L80, LA0, LC0, LE0, LF0;
    LengthsOfLines();
    if i < 32 {
      MiddleLines(i);
      assert NON_ASCII[i] == L80[i];
    } else if i < 64 {
      LowLines(i - 32);
      assert NON_ASCII[i] == LA0[i - 32];
    } else if i < 96 {
      MiddleLines(i - 64);
      assert NON_ASCII[i] == LC0[i - 64];
    } else if i < 112 {
      HighLines(i - 96);
      assert NON_ASCII[i] == LE0[i - 96];
    } else {
      HighLines(i - 112);
      assert NON_ASCII[i] == LF0[i - 112];
    }
  }

  lemma TableOfClasses(b: byte)
    ensures |CLASSES| == 256 && CLASSES[b] == Class(b)
  {
    hide ASCII, NON_ASCII;
    TableOfAscii(if b < 0x80 then b else 0);
    TableOfNonAscii(if b < 0x80 then 0 else b - 0x80);
  }

  lemma TableOfStates(state: nat, class': nat)
    requires state <= 8 && class' <= 11
    ensures |STATES| == 144 && STATES[state * 16 + class'] == Next(state, class')
  {
    hide S0, S12, S34, S56, S78, Next;
    LengthsOfLines();
    StateLines(class');
    var i := state * 16 + class';
    if state == 0 {
      assert STATES[i] == S0[i];
    } else if state <= 2 {
      assert STATES[i] == S12[i - 16];
    } else if state <= 4 {
      assert STATES[i] == S34[i - 48];
    } else if state <= 6 {
      assert STATES[i] == S56[i - 80];
    } else {
      assert STATES[i] == S78[i - 112];
    }
  }

  /** Both look-ups of `decode` stay inside the 400 entries and find the closed forms. */
  lemma TableIsAutomaton(state: nat, b: byte)
    requires state <= 8
    ensures |UTF8D| == 400 && UTF8D[b] == Class(b) <= 11
    ensures 256 + state * 16 + UTF8D[b] < 400
    ensures UTF8D[256 + state * 16 + UTF8D[b]] == Next(state, Class(b)) <= 8
  {
    hide CLASSES, STATES;
    TableOfClasses(b);
    assert UTF8D[b] == CLASSES[b];
    TableOfStates(state, Class(b));
    assert UTF8D[256 + state * 16 + UTF8D[b]] == STATES[state * 16 + Class(b)];
  }

  // ---------------------------------------------------------------- the automaton

  /** The two variables that `decode` updates. */
  datatype Dfa = Dfa(state: nat, codep: nat)

  predicate Ok(d: Dfa) {
    d.state <= 8 && d.codep < TWO_32
  }

  /** `(0xff >> class) & b`. */
  function Masked(b: byte, class': nat): nat {
    match class'
    case 0 => b
    case 1 => b % 128
    case 2 => b % 64
    case 3 => b % 32
    case 4 => b % 16
    case 5 => b % 8
    case 6 => b % 4
    case 7 => b % 2
    case _ => 0
  }

  lemma {:induction false} LowBits(n: nat, k: nat, i: nat)
    ensures Bit(n % Pow2(k), i) == if i < k then Bit(n, i) else 0
    decreases i
  {
    if k == 0 {
      BitZero(i);
    } else {
      Half(n, Pow2(k - 1));
      if i > 0 {
        LowBits(n / 2, k - 1, i - 1);
      }
    }
  }

  lemma {:induction false} Half(n: nat, w: nat)
    requires w > 0
    ensures n % (2 * w) / 2 == n / 2 % w && n % (2 * w) % 2 == n % 2
  {
    var q, m := n / 2 / w, n / 2 % w;
    assert n / 2 == w * q + m && n == 2 * (n / 2) + n % 2;
    Remainder(n, 2 * w, q, 2 * m + n % 2);
  }

  lemma {:induction false} Remainder(n: nat, w: nat, q: nat, m: nat)
    requires m < w && n == w * q + m
    ensures n % w == m
  {
    var d := q - n / w;
    assert w * d == n % w - m;
    SmallMultiple(w, d);
  }

  lemma {:induction false} SmallMultiple(w: int, d: int)
    requires -w < w * d < w
    ensures d == 0
  {}

  /** The low bits of a byte, as many as 0xff has left after a shift to the right by its class. */
  lemma {:induction false} MaskedBit(b: byte, class': nat, i: nat)
    ensures Bit(Masked(b, class'), i) == if i + class' < 8 then Bit(b, i) else 0
  {
    if class' <= 7 {
      LowBits(b, 8 - class', i);
      assert Pow2(1) == 2 && Pow2(2) == 4 && Pow2(3) == 8 && Pow2(4) == 16;
      assert Pow2(5) == 32 && Pow2(6) == 64 && Pow2(7) == 128 && Pow2(8) == 256;
    } else {
      BitZero(i);
    }
  }

  /** One call of `decode`. */
  function Step(d: Dfa, b: byte): (d': Dfa)
    requires Ok(d)
    ensures Ok(d')
  {
    Dfa(Next(d.state, Class(b)),
        if d.state != ACCEPT then b % 64 + d.codep * 64 % TWO_32 else Masked(b, Class(b)))
  }

  /** The automaton after all bytes of `s`. */
  function Fold(d: Dfa, s: seq<byte>): (d': Dfa)
    requires Ok(d)
    ensures Ok(d')
  {
    if s == [] then d else Step(Fold(d, s[..|s| - 1]), s[|s| - 1])
  }

  /** The code points held each time the automaton is back in ACCEPT. */
  function Emitted(d: Dfa, s: seq<byte>): seq<nat>
    requires Ok(d)
  {
    if s == [] then []
    else
      var e := Emitted(d, s[..|s| - 1]);
      if Fold(d, s).state == ACCEPT then e + [Fold(d, s).codep] else e
  }

  method Decode(state: nat, codep: nat, b: byte) returns (state': nat, codep': nat)
    requires state <= 8 && codep < TWO_32
    ensures Dfa(state', codep') == Step(Dfa(state, codep), b)
  {
    hide UTF8D;
    TableIsAutomaton(state, b);
    var class' := UTF8D[b];
    codep' := if state != ACCEPT then b % 64 + codep * 64 % TWO_32 else Masked(b, class');
    state' := UTF8D[256 + state * 16 + class'];
  }

  /** Reading two pieces one after the other is reading their concatenation. */
  lemma {:induction false} FoldConcat(d: Dfa, a: seq<byte>, b: seq<byte>)
    requires Ok(d)
    ensures Fold(d, a + b) == Fold(Fold(d, a), b)
    ensures Emitted(d, a + b) == Emitted(d, a) + Emitted(Fold(d, a), b)
  {
    if b == [] {
      assert a + b == a;
    } else {
      assert (a + b)[..|a + b| - 1] == a + b[..|b| - 1];
      FoldConcat(d, a, b[..|b| - 1]);
    }
  }

  lemma {:induction false} RejectIsFinal(d: Dfa, s: seq<byte>)
    requires Ok(d) && d.state == REJECT
    ensures Fold(d, s).state == REJECT
  {
    if s != [] {
      RejectIsFinal(d, s[..|s| - 1]);
    }
  }

  // ---------------------------------------------------------------- RFC 3629

  predicate Tail(b: byte) { 0x80 <= b <= 0xBF }

  /** The productions UTF8-1 to UTF8-4 in section 4 of RFC 3629. */
  predicate Char(c: seq<byte>) {
    match |c|
    case 1 => c[0] <= 0x7F
    case 2 => 0xC2 <= c[0] <= 0xDF && Tail(c[1])
    case 3 =>
      Tail(c[2]) &&
      (|| (c[0] == 0xE0 && 0xA0 <= c[1] <= 0xBF)
       || (0xE1 <= c[0] <= 0xEC && Tail(c[1]))
       || (c[0] == 0xED && 0x80 <= c[1] <= 0x9F)
       || (0xEE <= c[0] <= 0xEF && Tail(c[1])))
    case 4 =>
      Tail(c[2]) && Tail(c[3]) &&
      (|| (c[0] == 0xF0 && 0x90 <= c[1] <= 0xBF)
       || (0xF1 <= c[0] <= 0xF3 && Tail(c[1]))
       || (c[0] == 0xF4 && 0x80 <= c[1] <= 0x8F))
    case _ => false
  }

  function Join(chars: seq<seq<byte>>): seq<byte> {
    if chars == [] then [] else chars[0] + Join(chars[1..])
  }

  /** A sequence of octets generated by the grammar. */
  ghost predicate WellFormed(s: seq<byte>) {
    exists chars: seq<seq<byte>> :: (forall i :: 0 <= i < |chars| ==> Char(chars[i])) && Join(chars) == s
  }

  predicate Scalar(cp: nat) { cp < 0xD800 || 0xE000 <= cp <= 0x10FFFF }

  /** The encoding in section 3 of RFC 3629. */
  function Encoding(cp: nat): (c: seq<byte>)
    requires Scalar(cp)
  {
    if cp < 0x80 then [cp]
    else if cp < 0x800 then [0xC0 + cp / 64, Six(cp)]
    else if cp < 0x10000 then [0xE0 + cp / 4096, Six(cp / 64), Six(cp)]
    else [0xF0 + cp / 0x40000, Six(cp / 4096), Six(cp / 64), Six(cp)]
  }

  /** A tail octet with the low six bits of `n`. */
  /** Examples in section 7 of RFC 3629. */
  lemma {:induction false} KnownEncodings()
    ensures Encoding(0x41) == [0x41] && Encoding(0x391) == [0xCE, 0x91] && Encoding(0x2262) == [0xE2, 0x89, 0xA2]
    ensures Encoding(0xD55C) == [0xED, 0x95, 0x9C] && Encoding(0x233B4) == [0xF0, 0xA3, 0x8E, 0xB4]
  {}

  function Six(n: nat): byte {
    0x80 + n % 64
  }

  function Encodings(cps: seq<nat>): (s: seq<byte>)
    requires forall i :: 0 <= i < |cps| ==> Scalar(cps[i])
  {
    if cps == [] then [] else Encoding(cps[0]) + Encodings(cps[1..])
  }

  /** The payload of an octet below `m`, a power of two. */
  function Low(b: byte, m: nat): (n: nat)
    requires m > 0
    ensures n < m
  {
    b % m
  }

  /** The number a character stands for: its payload bits in base 64. */
  function ValueOf(c: seq<byte>): (cp: nat)
    requires Char(c)
  {
    match |c|
    case 1 => c[0]
    case 2 => Low(c[0], 32) * 64 + Low(c[1], 64)
    case 3 => (Low(c[0], 16) * 64 + Low(c[1], 64)) * 64 + Low(c[2], 64)
    case 4 => ((Low(c[0], 8) * 64 + Low(c[1], 64)) * 64 + Low(c[2], 64)) * 64 + Low(c[3], 64)
  }

  /** Quotients of a number written in base 64. */
  lemma {:induction false} Base64Digits(a: nat, b: nat, c: nat, e: nat)
    requires b < 64 && c < 64 && e < 64
    ensures var n2 := a * 64 + b; var n3 := n2 * 64 + c; var n4 := n3 * 64 + e;
            && n2 / 64 == a && n2 % 64 == b
            && n3 / 64 == n2 && n3 / 4096 == a && n3 % 64 == c
            && n4 / 64 == n3 && n4 / 4096 == n2 && n4 / 0x40000 == a && n4 % 64 == e
  {}

  lemma {:induction false} Quotients(n: nat)
    ensures n / 4096 == n / 64 / 64 && n / 0x40000 == n / 4096 / 64
    ensures n == n / 64 * 64 + n % 64
  {}

  lemma {:induction false} CharOfTwo(c: seq<byte>)
    requires Char(c) && |c| == 2
    ensures Scalar(ValueOf(c)) && Encoding(ValueOf(c)) == c
  {
    Base64Digits(c[0] % 32, c[1] % 64, 0, 0);
  }

  lemma {:induction false} CharOfThree(c: seq<byte>)
    requires Char(c) && |c| == 3
    ensures Scalar(ValueOf(c)) && Encoding(ValueOf(c)) == c
  {
    Base64Digits(c[0] % 16, c[1] % 64, c[2] % 64, 0);
    assert c[0] == 0xE0 + c[0] % 16 && c[1] == 0x80 + c[1] % 64 && c[2] == 0x80 + c[2] % 64;
  }

  lemma {:induction false} CharOfFour(c: seq<byte>)
    requires Char(c) && |c| == 4
    ensures Scalar(ValueOf(c)) && Encoding(ValueOf(c)) == c
  {
    Base64Digits(c[0] % 8, c[1] % 64, c[2] % 64, c[3] % 64);
    assert c[0] == 0xF0 + c[0] % 8 && c[1] == 0x80 + c[1] % 64 && c[2] == 0x80 + c[2] % 64 && c[3] == 0x80 + c[3] % 64;
  }

  /** Every character of the grammar is the encoding of its value, a Unicode scalar value. */
  lemma {:induction false} CharIsEncoding(c: seq<byte>)
    requires Char(c)
    ensures Scalar(ValueOf(c)) && Encoding(ValueOf(c)) == c
  {
    hide Encoding;
    if |c| == 1 {
      CharOfOne(c);
    } else if |c| == 2 {
      CharOfTwo(c);
    } else if |c| == 3 {
      CharOfThree(c);
    } else {
      CharOfFour(c);
    }
  }

  lemma {:induction false} CharOfOne(c: seq<byte>)
    requires Char(c) && |c| == 1
    ensures Scalar(ValueOf(c)) && Encoding(ValueOf(c)) == c
  {}

  /** Every scalar value has an encoding that the grammar allows, and no other value shares it. */
  lemma {:induction false} EncodingIsChar(cp: nat)
    requires Scalar(cp)
    ensures Char(Encoding(cp)) && ValueOf(Encoding(cp)) == cp
  {
    Quotients(cp);
    Quotients(cp / 64);
    Quotients(cp / 4096);
    var c := Encoding(cp);
    if 0x800 <= cp < 0x10000 {
      EncodingOfThree(cp);
    } else if 0x10000 <= cp {
      EncodingOfFour(cp);
    }
  }

  lemma {:induction false} EncodingOfThree(cp: nat)
    requires 0x800 <= cp < 0x10000 && Scalar(cp)
    ensures Char(Encoding(cp)) && ValueOf(Encoding(cp)) == cp
  {
    Quotients(cp);
    Quotients(cp / 64);
    var c, a := Encoding(cp), cp / 4096;
    assert a < 16 && c[0] == 0xE0 + a && c[0] % 16 == a;
    assert Low(c[1], 64) == cp / 64 % 64 && Low(c[2], 64) == cp % 64;
  }

  lemma {:induction false} EncodingOfFour(cp: nat)
    requires 0x10000 <= cp && Scalar(cp)
    ensures Char(Encoding(cp)) && ValueOf(Encoding(cp)) == cp
  {
    Quotients(cp);
    Quotients(cp / 64);
    Quotients(cp / 4096);
    var c, a := Encoding(cp), cp / 0x40000;
    assert a < 5 && c[0] == 0xF0 + a && c[0] % 8 == a;
    assert Low(c[1], 64) == cp / 4096 % 64 && Low(c[2], 64) == cp / 64 % 64 && Low(c[3], 64) == cp % 64;
  }

  // ---------------------------------------------------------------- one character

  lemma {:induction false} FoldSmall(d: Dfa, a: byte, b: byte, c: byte, e: byte)
    requires Ok(d)
    ensures Fold(d, [a]) == Step(d, a)
    ensures Fold(d, [a, b]) == Step(Step(d, a), b)
    ensures Fold(d, [a, b, c]) == Step(Step(Step(d, a), b), c)
    ensures Fold(d, [a, b, c, e]) == Step(Step(Step(Step(d, a), b), c), e)
  {
    hide Step;
    assert [a][..0] == [] && [a, b][..1] == [a] && [a, b, c][..2] == [a, b] && [a, b, c, e][..3] == [a, b, c];
    assert Fold(d, [a]) == Step(Fold(d, []), a);
    assert Fold(d, [a, b]) == Step(Fold(d, [a]), b);
    assert Fold(d, [a, b, c]) == Step(Fold(d, [a, b]), c);
  }

  lemma {:induction false} StepsOfOne(d: Dfa, a: byte)
    requires Ok(d) && d.state == ACCEPT && Char([a])
    ensures Step(d, a) == Dfa(ACCEPT, ValueOf([a]))
  {}

  lemma {:induction false} StepsOfTwo(d: Dfa, a: byte, b: byte)
    requires Ok(d) && d.state == ACCEPT && Char([a, b])
    ensures Step(d, a).state !in {ACCEPT, REJECT}
    ensures Step(Step(d, a), b) == Dfa(ACCEPT, ValueOf([a, b]))
  {
    var d1 := Step(d, a);
    assert d1 == Dfa(2, a % 32);
  }

  lemma {:induction false} StepsOfThree(d: Dfa, a: byte, b: byte, c: byte)
    requires Ok(d) && d.state == ACCEPT && Char([a, b, c])
    ensures Step(d, a).state !in {ACCEPT, REJECT} && Step(Step(d, a), b).state !in {ACCEPT, REJECT}
    ensures Step(Step(Step(d, a), b), c) == Dfa(ACCEPT, ValueOf([a, b, c]))
  {
    var d1 := Step(d, a);
    assert d1.codep == a % 16;
    var d2 := Step(d1, b);
    assert d2 == Dfa(2, a % 16 * 64 + b % 64);
  }

  lemma {:induction false} StepsOfFour(d: Dfa, a: byte, b: byte, c: byte, e: byte)
    requires Ok(d) && d.state == ACCEPT && Char([a, b, c, e])
    ensures Step(d, a).state !in {ACCEPT, REJECT} && Step(Step(d, a), b).state !in {ACCEPT, REJECT}
    ensures Step(Step(Step(d, a), b), c).state !in {ACCEPT, REJECT}
    ensures Step(Step(Step(Step(d, a), b), c), e) == Dfa(ACCEPT, ValueOf([a, b, c, e]))
  {
    var d1 := Step(d, a);
    assert d1.codep == a % 8;
    var d2 := Step(d1, b);
    assert d2 == Dfa(3, a % 8 * 64 + b % 64);
    var d3 := Step(d2, c);
    assert d3 == Dfa(2, a % 8 * 4096 + b % 64 * 64 + c % 64);
  }

  /** A character takes the automaton from ACCEPT back to ACCEPT, not before its last byte, with its value. */
  lemma {:induction false} CharAccepted(d: Dfa, c: seq<byte>)
    requires Ok(d) && d.state == ACCEPT && Char(c)
    ensures Fold(d, c) == Dfa(ACCEPT, ValueOf(c))
    ensures forall k :: 0 < k < |c| ==> Fold(d, c[..k]).state !in {ACCEPT, REJECT}
  {
    hide Step, Fold, ValueOf;
    var z: byte := 0;
    if |c| == 1 {
      FoldSmall(d, c[0], z, z, z);
      assert c == [c[0]];
      StepsOfOne(d, c[0]);
    } else if |c| == 2 {
      FoldSmall(d, c[0], c[1], z, z);
      assert c == [c[0], c[1]] && c[..1] == [c[0]];
      StepsOfTwo(d, c[0], c[1]);
    } else if |c| == 3 {
      FoldSmall(d, c[0], c[1], c[2], z);
      assert c == [c[0], c[1], c[2]] && c[..1] == [c[0]] && c[..2] == [c[0], c[1]];
      StepsOfThree(d, c[0], c[1], c[2]);
    } else {
      FoldSmall(d, c[0], c[1], c[2], c[3]);
      assert c == [c[0], c[1], c[2], c[3]];
      assert c[..1] == [c[0]] && c[..2] == [c[0], c[1]] && c[..3] == [c[0], c[1], c[2]];
      StepsOfFour(d, c[0], c[1], c[2], c[3]);
    }
  }

  lemma {:induction false} CharEmits(d: Dfa, c: seq<byte>)
    requires Ok(d) && d.state == ACCEPT && Char(c)
    ensures Emitted(d, c) == [ValueOf(c)]
  {
    hide Step, ValueOf;
    CharAccepted(d, c);
    var p := c[..|c| - 1];
    assert forall k :: 0 <= k <= |p| ==> p[..k] == c[..k];
    QuietEmitsNothing(d, p);
  }

  lemma {:induction false} QuietEmitsNothing(d: Dfa, s: seq<byte>)
    requires Ok(d) && forall k :: 0 < k <= |s| ==> Fold(d, s[..k]).state != ACCEPT
    ensures Emitted(d, s) == []
  {
    if s != [] {
      var p := s[..|s| - 1];
      assert s[..|s|] == s;
      assert forall k :: 0 <= k <= |p| ==> p[..k] == s[..k];
      QuietEmitsNothing(d, p);
    }
  }

  /** Byte by byte, returning to ACCEPT means that a character of the grammar is complete. */
  lemma {:induction false} FirstBytes(d: Dfa, a: byte, b: byte, c: byte, e: byte)
    requires Ok(d) && d.state == ACCEPT
    ensures var d1 := Step(d, a); var d2 := Step(d1, b); var d3 := Step(d2, c); var d4 := Step(d3, e);
            && (d1.state == ACCEPT <==> Char([a]))
            && (d1.state !in {ACCEPT, REJECT} && d2.state == ACCEPT ==> Char([a, b]))
            && (d1.state !in {ACCEPT, REJECT} && d2.state !in {ACCEPT, REJECT} && d3.state == ACCEPT ==>
                  Char([a, b, c]))
            && (d1.state !in {ACCEPT, REJECT} && d2.state !in {ACCEPT, REJECT} && d3.state !in {ACCEPT, REJECT} ==>
                  if d4.state == ACCEPT then Char([a, b, c, e]) else d4.state == REJECT)
  {}

  /** An accepted string begins with a character of the grammar. */
  lemma {:induction false} FirstChar(d: Dfa, s: seq<byte>) returns (n: nat)
    requires Ok(d) && d.state == ACCEPT && s != [] && Fold(d, s).state == ACCEPT
    ensures 1 <= n <= |s| && Char(s[..n])
  {
    hide Step, Char;
    var a, b := s[0], if |s| > 1 then s[1] else 0;
    var c, e := if |s| > 2 then s[2] else 0, if |s| > 3 then s[3] else 0;
    FoldSmall(d, a, b, c, e);
    FirstBytes(d, a, b, c, e);
    n := 1;
    while n < 4 && n < |s| && Fold(d, s[..n]).state !in {ACCEPT, REJECT}
      invariant 1 <= n <= 4 && n <= |s|
      invariant forall k :: 1 <= k < n ==> Fold(d, s[..k]).state !in {ACCEPT, REJECT}
    {
      n := n + 1;
    }
    assert s[..1] == [a];
    assert n >= 2 ==> s[..2] == [a, b];
    assert n >= 3 ==> s[..3] == [a, b, c];
    assert n >= 4 ==> s[..4] == [a, b, c, e];
    if Fold(d, s[..n]).state == REJECT {
      assert s == s[..n] + s[n..];
      FoldConcat(d, s[..n], s[n..]);
      RejectIsFinal(Fold(d, s[..n]), s[n..]);
      assert false;
    }
    assert n == |s| ==> s[..n] == s;
  }

  // ---------------------------------------------------------------- strings

  lemma {:induction false} JoinAccepted(d: Dfa, chars: seq<seq<byte>>)
    requires Ok(d) && d.state == ACCEPT && forall i :: 0 <= i < |chars| ==> Char(chars[i])
    ensures Fold(d, Join(chars)).state == ACCEPT
    decreases |chars|
  {
    if chars != [] {
      CharAccepted(d, chars[0]);
      FoldConcat(d, chars[0], Join(chars[1..]));
      JoinAccepted(Fold(d, chars[0]), chars[1..]);
    }
  }

  lemma {:induction false} AcceptedSplits(d: Dfa, s: seq<byte>) returns (chars: seq<seq<byte>>)
    requires Ok(d) && d.state == ACCEPT && Fold(d, s).state == ACCEPT
    ensures (forall i :: 0 <= i < |chars| ==> Char(chars[i])) && Join(chars) == s
    decreases |s|
  {
    if s == [] {
      chars := [];
    } else {
      var n := FirstChar(d, s);
      CharAccepted(d, s[..n]);
      assert s == s[..n] + s[n..];
      FoldConcat(d, s[..n], s[n..]);
      var rest := AcceptedSplits(Fold(d, s[..n]), s[n..]);
      chars := [s[..n]] + rest;
    }
  }

  /** Acceptance is membership in the grammar, for strings of any length and any earlier code point. */
  lemma {:induction false} AcceptsExactly(d: Dfa, s: seq<byte>)
    requires Ok(d) && d.state == ACCEPT
    ensures Fold(d, s).state == ACCEPT <==> WellFormed(s)
  {
    if Fold(d, s).state == ACCEPT {
      var chars := AcceptedSplits(d, s);
    }
    if WellFormed(s) {
      var chars: seq<seq<byte>> :| (forall i :: 0 <= i < |chars| ==> Char(chars[i])) && Join(chars) == s;
      JoinAccepted(d, chars);
    }
  }

  /** An accepted string is the encoding of the code points the automaton emits, all scalar values. */
  lemma {:induction false} DecodesExactly(d: Dfa, s: seq<byte>)
    requires Ok(d) && d.state == ACCEPT && Fold(d, s).state == ACCEPT
    ensures forall i :: 0 <= i < |Emitted(d, s)| ==> Scalar(Emitted(d, s)[i])
    ensures Encodings(Emitted(d, s)) == s
    decreases |s|
  {
    hide Step, Encoding, ValueOf, Char;
    if s != [] {
      var n := FirstChar(d, s);
      var c, r := s[..n], s[n..];
      CharAccepted(d, c);
      CharEmits(d, c);
      CharIsEncoding(c);
      assert s == c + r;
      FoldConcat(d, c, r);
      DecodesExactly(Fold(d, c), r);
      assert Emitted(d, s)[1..] == Emitted(Fold(d, c), r);
    }
  }

  /** Encoding any scalar values gives an accepted string from which the automaton emits them again. */
  lemma {:induction false} EncodedDecodes(d: Dfa, cps: seq<nat>)
    requires Ok(d) && d.state == ACCEPT && forall i :: 0 <= i < |cps| ==> Scalar(cps[i])
    ensures Fold(d, Encodings(cps)).state == ACCEPT && Emitted(d, Encodings(cps)) == cps
    decreases |cps|
  {
    hide Step, Encoding, ValueOf, Char;
    if cps != [] {
      var c := Encoding(cps[0]);
      EncodingIsChar(cps[0]);
      CharAccepted(d, c);
      CharEmits(d, c);
      FoldConcat(d, c, Encodings(cps[1..]));
      EncodedDecodes(Fold(d, c), cps[1..]);
    }
  }

  /**
   * Whenever the automaton is in ACCEPT, the bytes since it was last there are one character of the
   * grammar and `codep` is the scalar value whose encoding they are.
   */
  lemma {:induction false} LastCharacter(d: Dfa, s: seq<byte>) returns (n: nat)
    requires Ok(d) && d.state == ACCEPT && s != [] && Fold(d, s).state == ACCEPT
    ensures n < |s| && Fold(d, s[..n]).state == ACCEPT
    ensures forall k :: n < k < |s| ==> Fold(d, s[..k]).state != ACCEPT
    ensures Scalar(Fold(d, s).codep) && Encoding(Fold(d, s).codep) == s[n..]
    decreases |s|
  {
    hide Step, Encoding, ValueOf, Char;
    var m := FirstChar(d, s);
    var c, r := s[..m], s[m..];
    CharAccepted(d, c);
    CharIsEncoding(c);
    assert s == c + r;
    FoldConcat(d, c, r);
    if m == |s| {
      n := 0;
      assert c == s && s[..0] == [] && s[0..] == s;
    } else {
      var p := LastCharacter(Fold(d, c), r);
      n := m + p;
      assert s[n..] == r[p..];
      forall k | n <= k < |s| ensures Fold(d, s[..k]) == Fold(Fold(d, c), r[..k - m]) {
        assert s[..k] == c + r[..k - m];
        FoldConcat(d, c, r[..k - m]);
      }
    }
  }

  // ---------------------------------------------------------------- prefixes and pieces

  /** The state does not depend on the code point. */
  lemma {:induction false} StateOnly(d: Dfa, e: Dfa, s: seq<byte>)
    requires Ok(d) && Ok(e) && d.state == e.state
    ensures Fold(d, s).state == Fold(e, s).state
  {
    if s != [] {
      StateOnly(d, e, s[..|s| - 1]);
    }
  }

  /** Bytes that complete the character begun in a state other than REJECT. */
  function Completion(state: nat): seq<byte>
    requires state <= 8 && state != REJECT
  {
    match state
    case 0 => []
    case 2 => [0x80]
    case 3 => [0x80, 0x80]
    case 4 => [0xA0, 0x80]
    case 5 => [0x80, 0x80]
    case 6 => [0x90, 0x80, 0x80]
    case _ => [0x80, 0x80, 0x80]
  }

  lemma {:induction false} CompletionAccepted(d: Dfa)
    requires Ok(d) && d.state != REJECT
    ensures Fold(d, Completion(d.state)).state == ACCEPT
  {
    var s := Completion(d.state);
    if s != [] {
      FoldSmall(d, s[0], 0x80, 0x80, 0x80);
      assert s == if |s| == 1 then [s[0]] else if |s| == 2 then [s[0], 0x80] else [s[0], 0x80, 0x80];
    }
  }

  /** The automaton has not rejected exactly when some continuation is well-formed. */
  lemma {:induction false} PrefixExactly(d: Dfa, s: seq<byte>)
    requires Ok(d) && d.state == ACCEPT
    ensures Fold(d, s).state != REJECT <==> exists t: seq<byte> :: WellFormed(s + t)
  {
    if Fold(d, s).state != REJECT {
      var t := Completion(Fold(d, s).state);
      CompletionAccepted(Fold(d, s));
      FoldConcat(d, s, t);
      AcceptsExactly(d, s + t);
    }
    forall t: seq<byte> | WellFormed(s + t)
      ensures Fold(d, s).state != REJECT
    {
      AcceptsExactly(d, s + t);
      FoldConcat(d, s, t);
      if Fold(d, s).state == REJECT {
        RejectIsFinal(Fold(d, s), t);
      }
    }
  }

  /** Validating two pieces in turn from the returned state is validating the whole. */
  lemma {:induction false} PiecesCompose(state: nat, a: seq<byte>, b: seq<byte>)
    requires state <= 8
    ensures Fold(Dfa(Fold(Dfa(state, 0), a).state, 0), b).state == Fold(Dfa(state, 0), a + b).state
  {
    FoldConcat(Dfa(state, 0), a, b);
    StateOnly(Dfa(Fold(Dfa(state, 0), a).state, 0), Fold(Dfa(state, 0), a), b);
  }

  // ---------------------------------------------------------------- the validators

  /** `state` is the value of a previous call or 0; any larger value would leave the table. */
  method IsUtf8LenState(s: seq<byte>, start: nat) returns (state: nat)
    requires start <= 8
    ensures state == Fold(Dfa(start, 0), s).state
  {
    var codepoint: nat := 0;
    state := start;
    for i := 0 to |s|
      invariant state <= 8 && codepoint < TWO_32 && Dfa(state, codepoint) == Fold(Dfa(start, 0), s[..i])
    {
      assert s[..i + 1][..i] == s[..i];
      state, codepoint := Decode(state, codepoint, s[i]);
    }
    assert s[..|s|] == s;
  }

  method IsUtf8Len(s: seq<byte>) returns (valid: bool)
    ensures valid <==> WellFormed(s)
  {
    var codepoint: nat :| codepoint < TWO_32;  // not initialised in the source
    var state := 0;
    ghost var d := Dfa(state, codepoint);
    for i := 0 to |s|
      invariant state <= 8 && codepoint < TWO_32 && Dfa(state, codepoint) == Fold(d, s[..i])
    {
      assert s[..i + 1][..i] == s[..i];
      state, codepoint := Decode(state, codepoint, s[i]);
    }
    assert s[..|s|] == s;
    AcceptsExactly(d, s);
    valid := state == ACCEPT;
  }

  /** The bytes of a C string. */
  function BeforeNul(s: seq<byte>): (t: seq<byte>)
    requires 0 in s
    ensures |t| < |s| && s[..|t|] == t && s[|t|] == 0 && 0 !in t
  {
    if s[0] == 0 then [] else [s[0]] + BeforeNul(s[1..])
  }

  lemma {:induction false} BeforeNulIs(s: seq<byte>, n: nat)
    requires n < |s| && s[n] == 0 && 0 !in s[..n]
    ensures BeforeNul(s) == s[..n]
  {
    var t := BeforeNul(s);
    assert forall i | 0 <= i < n :: s[..n][i] == s[i];
    assert forall i | 0 <= i < |t| :: t[i] == s[i];
  }

  /** The NUL-terminated variant. */
  method IsUtf8(s: seq<byte>) returns (valid: bool)
    requires 0 in s
    ensures valid <==> WellFormed(BeforeNul(s))
  {
    var codepoint: nat :| codepoint < TWO_32;
    var state, i := 0, 0;
    ghost var d := Dfa(state, codepoint);
    while s[i] != 0
      invariant 0 <= i < |s| && 0 !in s[..i]
      invariant state <= 8 && codepoint < TWO_32 && Dfa(state, codepoint) == Fold(d, s[..i])
      decreases |s| - i
    {
      assert s[..i + 1][..i] == s[..i];
      state, codepoint := Decode(state, codepoint, s[i]);
      i := i + 1;
    }
    AcceptsExactly(d, s[..i]);
    BeforeNulIs(s, i);
    valid := state == ACCEPT;
  }
}

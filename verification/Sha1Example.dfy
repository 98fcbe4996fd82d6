/**
 * The known answer in Appendix A of FIPS PUB 180-1: the digest of the message "abc", computed from the definitions on
 * literal words. The schedule is taken sixteen words at a time, the rounds eight at a time.
 */
module Sha1Example {
  import opened Common
  import opened Sha1

  // ---------------------------------------------------------------- many steps at a time

  /** Word k of the two sequences put together. */
  function At(p: seq<word>, q: seq<word>, k: nat): word
    requires k < |p| + |q|
  {
    if k < |p| then p[k] else q[k - |p|]
  }

  /** Sixteen words of the schedule and the sixteen after them. */
  predicate Follows(p: seq<word>, q: seq<word>) {
    && |p| == |q| == 16
    && q[0] == Mix(p[13], p[8], p[2], p[0])
    && q[1] == Mix(p[14], p[9], p[3], p[1])
    && q[2] == Mix(p[15], p[10], p[4], p[2])
    && q[3] == Mix(q[0], p[11], p[5], p[3])
    && q[4] == Mix(q[1], p[12], p[6], p[4])
    && q[5] == Mix(q[2], p[13], p[7], p[5])
    && q[6] == Mix(q[3], p[14], p[8], p[6])
    && q[7] == Mix(q[4], p[15], p[9], p[7])
    && q[8] == Mix(q[5], q[0], p[10], p[8])
    && q[9] == Mix(q[6], q[1], p[11], p[9])
    && q[10] == Mix(q[7], q[2], p[12], p[10])
    && q[11] == Mix(q[8], q[3], p[13], p[11])
    && q[12] == Mix(q[9], q[4], p[14], p[12])
    && q[13] == Mix(q[10], q[5], p[15], p[13])
    && q[14] == Mix(q[11], q[6], q[0], p[14])
    && q[15] == Mix(q[12], q[7], q[1], p[15])
  }

  lemma {:induction false} FollowsAt(p: seq<word>, q: seq<word>, i: nat)
    requires Follows(p, q) && i < 16
    ensures q[i] == Mix(At(p, q, i + 13), At(p, q, i + 8), At(p, q, i + 2), At(p, q, i))
  {
    hide Mix;
    match i {
      case 0 => case 1 => case 2 => case 3 => case 4 => case 5 => case 6 => case 7 =>
      case 8 => case 9 => case 10 => case 11 => case 12 => case 13 => case 14 => case _ =>
    }
  }

  lemma {:induction false} ScheduleFollows(block: seq<byte>, t: nat, p: seq<word>, q: seq<word>)
    requires |block| == 64 && 16 <= t <= 64 && Schedule(block, t)[t - 16..] == p && Follows(p, q)
    ensures Schedule(block, t + 16) == Schedule(block, t) + q
  {
    assert |q| == 16;
    hide Mix, Word, Schedule, Follows, At;
    var s := Schedule(block, t);
    assert s + q[..0] == s && q[..16] == q;
    for i := 0 to 16
      invariant Schedule(block, t + i) == s + q[..i]
    {
      WordFollows(block, t, s, p, q, i);
    }
  }

  lemma {:induction false} WordFollows(block: seq<byte>, t: nat, s: seq<word>, p: seq<word>, q: seq<word>, i: nat)
    requires |block| == 64 && |s| == t && 16 <= t <= 64 && s[t - 16..] == p && Follows(p, q) && i < |q| == 16
    requires Schedule(block, t + i) == s + q[..i]
    ensures Schedule(block, t + i + 1) == s + q[..i + 1]
  {
    hide Mix, Word, Schedule, Follows, At;
    ScheduleNext(block, t + i);
    FollowsAt(p, q, i);
    Reaches(s, p, q, i, 3);
    Reaches(s, p, q, i, 8);
    Reaches(s, p, q, i, 14);
    Reaches(s, p, q, i, 16);
    assert s + q[..i] + [q[i]] == s + q[..i + 1];
  }

  lemma {:induction false} Reaches(s: seq<word>, p: seq<word>, q: seq<word>, i: nat, d: nat)
    requires |s| >= |p| && s[|s| - |p|..] == p && i < |q| && 0 < d <= |p|
    ensures (s + q[..i])[|s| + i - d] == At(p, q, |p| + i - d)
  {
    assert i < d ==> s[|s| - |p|..][|p| + i - d] == s[|s| + i - d];
  }

  /**
   * The rounds shift their five registers along, so they amount to one sequence of words: each from the five before it,
   * the newest first.
   */
  function NextWord(t: nat, a: word, b: word, c: word, d: word, e: word, w: word): word {
    Sum(Rotl(5, a), F(t, b, Rotl(30, c), Rotl(30, d)), Rotl(30, e), w, K(t))
  }

  function Registers(a: word, b: word, c: word, d: word, e: word): Regs {
    Regs(a, b, Rotl(30, c), Rotl(30, d), Rotl(30, e))
  }

  lemma {:induction false} RoundIsNext(t: nat, a: word, b: word, c: word, d: word, e: word, w: word)
    ensures Round(Registers(a, b, c, d, e), t, w) == Registers(NextWord(t, a, b, c, d, e, w), a, b, c, d)
  {
    hide Rotl, F, K, Sum;
  }

  /** Five words of that sequence, the oldest first, and the eight after them. */
  predicate Turns(t: nat, w: seq<word>, p: seq<word>, q: seq<word>) {
    && |w| == |q| == 8 && |p| == 5
    && q[0] == NextWord(t + 0, p[4], p[3], p[2], p[1], p[0], w[0])
    && q[1] == NextWord(t + 1, q[0], p[4], p[3], p[2], p[1], w[1])
    && q[2] == NextWord(t + 2, q[1], q[0], p[4], p[3], p[2], w[2])
    && q[3] == NextWord(t + 3, q[2], q[1], q[0], p[4], p[3], w[3])
    && q[4] == NextWord(t + 4, q[3], q[2], q[1], q[0], p[4], w[4])
    && q[5] == NextWord(t + 5, q[4], q[3], q[2], q[1], q[0], w[5])
    && q[6] == NextWord(t + 6, q[5], q[4], q[3], q[2], q[1], w[6])
    && q[7] == NextWord(t + 7, q[6], q[5], q[4], q[3], q[2], w[7])
  }

  /** The registers that hold words i to i + 4 of p and q. */
  function RegistersAt(p: seq<word>, q: seq<word>, i: nat): Regs
    requires |p| == 5 && i <= |q|
  {
    Registers(At(p, q, i + 4), At(p, q, i + 3), At(p, q, i + 2), At(p, q, i + 1), At(p, q, i))
  }

  lemma {:induction false} OneTurn(t: nat, w: seq<word>, p: seq<word>, q: seq<word>, i: nat)
    requires Turns(t, w, p, q) && i < 8
    ensures RegistersAt(p, q, i + 1) == Round(RegistersAt(p, q, i), t + i, w[i])
  {
    hide NextWord, Registers, Round;
    assert At(p, q, i + 5) == q[i] == NextWord(
      t + i, At(p, q, i + 4), At(p, q, i + 3), At(p, q, i + 2), At(p, q, i + 1), At(p, q, i), w[i]) by {
      match i {
        case 0 => case 1 => case 2 => case 3 => case 4 => case 5 => case 6 => case _ =>
      }
    }
    RoundIsNext(t + i, At(p, q, i + 4), At(p, q, i + 3), At(p, q, i + 2), At(p, q, i + 1), At(p, q, i), w[i]);
  }

  lemma {:induction false} RoundsTurn(
      h: Regs, w: seq<word>, t: nat, v: seq<word>, p: seq<word>, q: seq<word>, i: nat)
    requires t + 8 <= |w| && v == w[t..t + 8] && Turns(t, v, p, q) && i <= 8 && |p| == 5 && |q| == 8
    requires Rounds(h, w, t) == RegistersAt(p, q, 0)
    ensures Rounds(h, w, t + i) == RegistersAt(p, q, i)
    decreases i
  {
    hide Turns, RegistersAt, Round, Rounds;
    if i > 0 {
      RoundsTurn(h, w, t, v, p, q, i - 1);
      assert v[i - 1] == w[t + i - 1];
      RoundsNext(h, w, t + i - 1);
      OneTurn(t, v, p, q, i - 1);
    }
  }

  // ---------------------------------------------------------------- the message "abc"

  const ABC: seq<byte> := [0x61, 0x62, 0x63]

  /** The 80 words of the schedule. */
  const W0: seq<word> := [
    0x61626380, 0x00000000, 0x00000000, 0x00000000, 0x00000000, 0x00000000, 0x00000000, 0x00000000]
  const W1: seq<word> := [
    0x00000000, 0x00000000, 0x00000000, 0x00000000, 0x00000000, 0x00000000, 0x00000000, 0x00000018]
  const W2: seq<word> := [
    0xC2C4C700, 0x00000000, 0x00000030, 0x85898E01, 0x00000000, 0x00000060, 0x0B131C03, 0x00000030]
  const W3: seq<word> := [
    0x85898EC1, 0x16263806, 0x00000000, 0x00000180, 0x2C4C700C, 0x000000F0, 0x93AFB507, 0x5898E048]
  const W4: seq<word> := [
    0x8E9A9202, 0x00000600, 0xB131C0F0, 0x16263BC6, 0x4EBED41E, 0x626380A1, 0x16263806, 0x000018C0]
  const W5: seq<word> := [
    0xD2E138C4, 0x00000F00, 0x3AFB5079, 0x898E04E5, 0xE2BA3C2B, 0x000060C0, 0x053A37CD, 0x74458547]
  const W6: seq<word> := [
    0xDA9415ED, 0x26380A16, 0x626383A1, 0x4EBF54DE, 0x3835B44B, 0x0000F600, 0x1E84C7A3, 0x98E04D98]
  const W7: seq<word> := [
    0x651D16A0, 0x62658CA1, 0x458544D6, 0x44584CB7, 0x7BA06619, 0x6380AEA2, 0x0AE55269, 0x627B49A1]
  const W8: seq<word> := [
    0x7CD45C9D, 0x000F0000, 0xFB50753A, 0xEC6765E8, 0xBA3C2BE2, 0x0060C000, 0x3A37CD05, 0x458546F4]
  const W9: seq<word> := [
    0xB8599DD6, 0x380A1A26, 0x01E02203, 0xE7CC3456, 0xE6E60B69, 0x00F60A00, 0x5795EF4F, 0x822E0879]

  /** The words of the five registers at the start, three of them rotated back, and those of the 80 rounds. */
  const A0: seq<word> := [0x0F4B87C3, 0x40C951D8, 0x62EB73FA, 0xEFCDAB89, 0x67452301]
  const A1: seq<word> := [
    0x0116FC33, 0x8990536D, 0xA1390F08, 0xCDD8E11B, 0xCFD499DE, 0x3FC7CA40, 0x993E30C1, 0x9E8C07D4]
  const A2: seq<word> := [
    0x4B6AE328, 0x8351F929, 0xFBDA9E89, 0x63188FE4, 0x4607B664, 0x9128F695, 0x196BEE77, 0x20BDD62F]
  const A3: seq<word> := [
    0x4E925823, 0x82AA6728, 0xDC64901D, 0xFD9E1D7D, 0x1A37B0CA, 0x33A23BFC, 0x21283486, 0xD541F12D]
  const A4: seq<word> := [
    0xC7567DC6, 0x48413BA4, 0xBE35FBD5, 0x4AA84D97, 0x8370B52E, 0xC5FBAF5D, 0x1267B407, 0x3B845D33]
  const A5: seq<word> := [
    0x046FAA0A, 0x2C0EBC11, 0x21796AD4, 0xDCBBB0CB, 0x0F511FD8, 0xDC63973F, 0x4C986405, 0x32DE1CBA]
  const A6: seq<word> := [
    0xFC87DEDF, 0x970A0D5C, 0x7F193DC5, 0xEE1B1AAF, 0x40F28E09, 0x1C51E1F2, 0xA01B846C, 0xBEAD02CA]
  const A7: seq<word> := [
    0xBAF39337, 0x120731C5, 0x641DB2CE, 0x3847AD66, 0xE490436D, 0x27E9F1D8, 0x7B71F76D, 0x5E6456AF]
  const A8: seq<word> := [
    0xC846093F, 0xD262FF50, 0x09D785FD, 0x3F52DE5A, 0xD756C147, 0x548C9CB2, 0xB66C020B, 0x6B61C9E1]
  const A9: seq<word> := [
    0x19DFA7AC, 0x101655F9, 0x0C3DF2B4, 0x78DD4D2B, 0x497093C0, 0x3F2588C2, 0xC199F8C7, 0x39859DE7]
  const A10: seq<word> := [
    0xEDB42DE4, 0x11793F6F, 0x5EE76897, 0x63F7DAB7, 0xA079B7D9, 0x860D21CC, 0x5738D5E1, 0x42541B35]

  lemma {:induction false} Follows1()
    ensures Follows(W0 + W1, W2 + W3)
  {
    var p: seq<word> := [
      0x61626380, 0x00000000, 0x00000000, 0x00000000, 0x00000000, 0x00000000, 0x00000000, 0x00000000,
      0x00000000, 0x00000000, 0x00000000, 0x00000000, 0x00000000, 0x00000000, 0x00000000, 0x00000018];
    var q: seq<word> := [
      0xC2C4C700, 0x00000000, 0x00000030, 0x85898E01, 0x00000000, 0x00000060, 0x0B131C03, 0x00000030,
      0x85898EC1, 0x16263806, 0x00000000, 0x00000180, 0x2C4C700C, 0x000000F0, 0x93AFB507, 0x5898E048];
    assert Follows(p, q);
    assert W0 + W1 == p && W2 + W3 == q;
  }

  lemma {:induction false} Follows2()
    ensures Follows(W2 + W3, W4 + W5)
  {
    var p: seq<word> := [
      0xC2C4C700, 0x00000000, 0x00000030, 0x85898E01, 0x00000000, 0x00000060, 0x0B131C03, 0x00000030,
      0x85898EC1, 0x16263806, 0x00000000, 0x00000180, 0x2C4C700C, 0x000000F0, 0x93AFB507, 0x5898E048];
    var q: seq<word> := [
      0x8E9A9202, 0x00000600, 0xB131C0F0, 0x16263BC6, 0x4EBED41E, 0x626380A1, 0x16263806, 0x000018C0,
      0xD2E138C4, 0x00000F00, 0x3AFB5079, 0x898E04E5, 0xE2BA3C2B, 0x000060C0, 0x053A37CD, 0x74458547];
    assert Follows(p, q);
    assert W2 + W3 == p && W4 + W5 == q;
  }

  lemma {:induction false} Follows3()
    ensures Follows(W4 + W5, W6 + W7)
  {
    var p: seq<word> := [
      0x8E9A9202, 0x00000600, 0xB131C0F0, 0x16263BC6, 0x4EBED41E, 0x626380A1, 0x16263806, 0x000018C0,
      0xD2E138C4, 0x00000F00, 0x3AFB5079, 0x898E04E5, 0xE2BA3C2B, 0x000060C0, 0x053A37CD, 0x74458547];
    var q: seq<word> := [
      0xDA9415ED, 0x26380A16, 0x626383A1, 0x4EBF54DE, 0x3835B44B, 0x0000F600, 0x1E84C7A3, 0x98E04D98,
      0x651D16A0, 0x62658CA1, 0x458544D6, 0x44584CB7, 0x7BA06619, 0x6380AEA2, 0x0AE55269, 0x627B49A1];
    assert Follows(p, q);
    assert W4 + W5 == p && W6 + W7 == q;
  }

  lemma {:induction false} Follows4()
    ensures Follows(W6 + W7, W8 + W9)
  {
    var p: seq<word> := [
      0xDA9415ED, 0x26380A16, 0x626383A1, 0x4EBF54DE, 0x3835B44B, 0x0000F600, 0x1E84C7A3, 0x98E04D98,
      0x651D16A0, 0x62658CA1, 0x458544D6, 0x44584CB7, 0x7BA06619, 0x6380AEA2, 0x0AE55269, 0x627B49A1];
    var q: seq<word> := [
      0x7CD45C9D, 0x000F0000, 0xFB50753A, 0xEC6765E8, 0xBA3C2BE2, 0x0060C000, 0x3A37CD05, 0x458546F4,
      0xB8599DD6, 0x380A1A26, 0x01E02203, 0xE7CC3456, 0xE6E60B69, 0x00F60A00, 0x5795EF4F, 0x822E0879];
    assert Follows(p, q);
    assert W6 + W7 == p && W8 + W9 == q;
  }

  lemma {:induction false} Turns0()
    ensures Turns(0, W0, A0, A1)
  {}

  lemma {:induction false} Turns1()
    ensures Turns(8, W1, A1[3..], A2)
  {
    assert A1[3..] == [0xCDD8E11B, 0xCFD499DE, 0x3FC7CA40, 0x993E30C1, 0x9E8C07D4];
  }

  lemma {:induction false} Turns2()
    ensures Turns(16, W2, A2[3..], A3)
  {
    assert A2[3..] == [0x63188FE4, 0x4607B664, 0x9128F695, 0x196BEE77, 0x20BDD62F];
  }

  lemma {:induction false} Turns3()
    ensures Turns(24, W3, A3[3..], A4)
  {
    assert A3[3..] == [0xFD9E1D7D, 0x1A37B0CA, 0x33A23BFC, 0x21283486, 0xD541F12D];
  }

  lemma {:induction false} Turns4()
    ensures Turns(32, W4, A4[3..], A5)
  {
    assert A4[3..] == [0x4AA84D97, 0x8370B52E, 0xC5FBAF5D, 0x1267B407, 0x3B845D33];
  }

  lemma {:induction false} Turns5()
    ensures Turns(40, W5, A5[3..], A6)
  {
    assert A5[3..] == [0xDCBBB0CB, 0x0F511FD8, 0xDC63973F, 0x4C986405, 0x32DE1CBA];
  }

  lemma {:induction false} Turns6()
    ensures Turns(48, W6, A6[3..], A7)
  {
    assert A6[3..] == [0xEE1B1AAF, 0x40F28E09, 0x1C51E1F2, 0xA01B846C, 0xBEAD02CA];
  }

  lemma {:induction false} Turns7()
    ensures Turns(56, W7, A7[3..], A8)
  {
    assert A7[3..] == [0x3847AD66, 0xE490436D, 0x27E9F1D8, 0x7B71F76D, 0x5E6456AF];
  }

  lemma {:induction false} Turns8()
    ensures Turns(64, W8, A8[3..], A9)
  {
    assert A8[3..] == [0x3F52DE5A, 0xD756C147, 0x548C9CB2, 0xB66C020B, 0x6B61C9E1];
  }

  lemma {:induction false} Turns9()
    ensures Turns(72, W9, A9[3..], A10)
  {
    assert A9[3..] == [0x78DD4D2B, 0x497093C0, 0x3F2588C2, 0xC199F8C7, 0x39859DE7];
  }

  lemma {:induction false} SixteenWords(block: seq<byte>)
    requires |block| == 64
    ensures |Schedule(block, 16)| == 16
    ensures forall i | 0 <= i < 16 ::
              Schedule(block, 16)[i] == Word(block[4 * i], block[4 * i + 1], block[4 * i + 2], block[4 * i + 3])
  {
    hide Word, Mix, Schedule;
    for t := 0 to 16
      invariant forall i | 0 <= i < t ::
                  Schedule(block, t)[i] == Word(block[4 * i], block[4 * i + 1], block[4 * i + 2], block[4 * i + 3])
    {
      ScheduleNext(block, t);
    }
  }

  /** The one block of the padded message: the message, the octet 0x80, zeros, and the length 24. */
  const BLOCK: seq<byte> := ABC + [0x80] + Zeros(59) + [24]

  lemma {:induction false} PaddedAbc()
    ensures |BLOCK| == 64 && Pad(ABC) == BLOCK
  {
    assert BigEndian64(24) == Zeros(7) + [24];
    assert Gap(3) == 52;
    assert Zeros(52) + Zeros(7) == Zeros(59);
  }

  lemma {:induction false} FirstWords()
    ensures |BLOCK| == 64 && Schedule(BLOCK, 16) == W0 + W1
  {
    SixteenWords(BLOCK);
    assert Word(0x61, 0x62, 0x63, 0x80) == 0x61626380 && Word(0, 0, 0, 0) == 0 && Word(0, 0, 0, 24) == 0x18;
    hide Word, Schedule;
    var s := Schedule(BLOCK, 16);
    assert BLOCK[0] == 0x61 && BLOCK[1] == 0x62 && BLOCK[2] == 0x63 && BLOCK[3] == 0x80;
    assert forall k :: 4 <= k < 63 ==> BLOCK[k] == 0;
    assert BLOCK[63] == 24;
    assert forall i :: 0 < i < 15 ==> (W0 + W1)[i] == 0;
  }

  lemma {:induction false} AbcWords48() returns (w: seq<word>)
    ensures |BLOCK| == 64 && w == Schedule(BLOCK, 48)
    ensures w[0..8] == W0 && w[8..16] == W1 && w[16..24] == W2 && w[24..32] == W3 && w[32..40] == W4
    ensures w[40..48] == W5 && w[32..] == W4 + W5
  {
    FirstWords();
    Sizes();
    hide Schedule, Follows, BLOCK, W0, W1, W2, W3, W4, W5, W6, W7, W8, W9;
    var s := Schedule(BLOCK, 16);
    assert s[0..] == s;
    Follows1();
    w := NextWords(s, 16, W0 + W1, W2, W3);
    Follows2();
    w := NextWords(w, 32, W2 + W3, W4, W5);
  }

  lemma {:induction false} AbcWords() returns (w: seq<word>)
    ensures |BLOCK| == 64 && w == Schedule(BLOCK, 80)
    ensures w[0..8] == W0 && w[8..16] == W1 && w[16..24] == W2 && w[24..32] == W3 && w[32..40] == W4
    ensures w[40..48] == W5 && w[48..56] == W6 && w[56..64] == W7 && w[64..72] == W8 && w[72..80] == W9
  {
    Sizes();
    hide Schedule, Follows, BLOCK, W0, W1, W2, W3, W4, W5, W6, W7, W8, W9;
    w := AbcWords48();
    Follows3();
    w := NextWords(w, 48, W4 + W5, W6, W7);
    Follows4();
    w := NextWords(w, 64, W6 + W7, W8, W9);
  }

  lemma {:induction false} NextWords(s: seq<word>, t: nat, p: seq<word>, a: seq<word>, b: seq<word>)
    returns (w: seq<word>)
    requires |BLOCK| == 64 && 16 <= t <= 64 && s == Schedule(BLOCK, t) && s[t - 16..] == p
    requires |a| == |b| == 8 && Follows(p, a + b)
    ensures w == Schedule(BLOCK, t + 16) && w[..t] == s && w[t..] == a + b
    ensures w[t..t + 8] == a && w[t + 8..t + 16] == b && forall i, j | 0 <= i <= j <= t :: w[i..j] == s[i..j]
  {
    hide Schedule, Follows, BLOCK;
    ScheduleFollows(BLOCK, t, p, a + b);
    w := Schedule(BLOCK, t + 16);
    assert w == s + (a + b);
  }

  lemma {:induction false} Sizes()
    ensures |W0| == |W1| == |W2| == |W3| == |W4| == |W5| == |W6| == |W7| == |W8| == |W9| == 8
    ensures |A0| == 5
    ensures |A1| == |A2| == |A3| == |A4| == |A5| == |A6| == |A7| == |A8| == |A9| == |A10| == 8
  {}

  /** Eight rounds on from the last five words of a. */
  lemma {:induction false} EightRounds(h: Regs, w: seq<word>, t: nat, v: seq<word>, p: seq<word>, q: seq<word>)
    requires t + 8 <= |w| && v == w[t..t + 8] && |p| == 5 && |q| == 8 && Turns(t, v, p, q)
    requires Rounds(h, w, t) == RegistersAt(p, [], 0)
    ensures Rounds(h, w, t + 8) == RegistersAt(q[3..], [], 0)
  {
    hide Turns, Rounds, Registers;
    RoundsTurn(h, w, t, v, p, q, 8);
  }

  lemma {:induction false} AbcRounds40(w: seq<word>)
    requires |w| == 80 && w[0..8] == W0 && w[8..16] == W1 && w[16..24] == W2 && w[24..32] == W3 && w[32..40] == W4
    ensures |A5| == 8 && Rounds(INITIAL, w, 40) == RegistersAt(A5[3..], [], 0)
  {
    Sizes();
    assert Rounds(INITIAL, w, 0) == INITIAL == RegistersAt(A0, [], 0);
    hide Rounds, Turns, RegistersAt, INITIAL;
    hide A0, A1, A2, A3, A4, A5, W0, W1, W2, W3, W4;
    Turns0();
    EightRounds(INITIAL, w, 0, W0, A0, A1);
    Turns1();
    EightRounds(INITIAL, w, 8, W1, A1[3..], A2);
    Turns2();
    EightRounds(INITIAL, w, 16, W2, A2[3..], A3);
    Turns3();
    EightRounds(INITIAL, w, 24, W3, A3[3..], A4);
    Turns4();
    EightRounds(INITIAL, w, 32, W4, A4[3..], A5);
  }

  lemma {:induction false} AbcRounds(w: seq<word>)
    requires |w| == 80 && |A5| == 8 && Rounds(INITIAL, w, 40) == RegistersAt(A5[3..], [], 0)
    requires w[40..48] == W5 && w[48..56] == W6 && w[56..64] == W7 && w[64..72] == W8 && w[72..80] == W9
    ensures |A10| == 8 && Rounds(INITIAL, w, 80) == RegistersAt(A10[3..], [], 0)
  {
    Sizes();
    hide Rounds, Turns, RegistersAt, INITIAL;
    hide A5, A6, A7, A8, A9, A10, W5, W6, W7, W8, W9;
    Turns5();
    EightRounds(INITIAL, w, 40, W5, A5[3..], A6);
    Turns6();
    EightRounds(INITIAL, w, 48, W6, A6[3..], A7);
    Turns7();
    EightRounds(INITIAL, w, 56, W7, A7[3..], A8);
    Turns8();
    EightRounds(INITIAL, w, 64, W8, A8[3..], A9);
    Turns9();
    EightRounds(INITIAL, w, 72, W9, A9[3..], A10);
  }

  lemma {:induction false} LastRegisters()
    ensures |A10| == 8
    ensures RegistersAt(A10[3..], [], 0) == Regs(0x42541B35, 0x5738D5E1, 0x21834873, 0x681E6DF6, 0xD8FDF6AD)
  {
    var a := A10[3..];
    assert a == [0x63F7DAB7, 0xA079B7D9, 0x860D21CC, 0x5738D5E1, 0x42541B35];
    assert Registers(a[4], a[3], a[2], a[1], a[0]) ==
           Registers(0x42541B35, 0x5738D5E1, 0x860D21CC, 0xA079B7D9, 0x63F7DAB7);
  }

  lemma {:induction false} HashOfAbc()
    ensures HashBlocks(Pad(ABC)) == Regs(0xA9993E36, 0x4706816A, 0xBA3E2571, 0x7850C26C, 0x9CD0D89D)
  {
    hide Rounds, Schedule, RegistersAt, BLOCK, HashBlocks, Pad, Zeros, Compress, INITIAL;
    hide A5, A10, W0, W1, W2, W3, W4, W5, W6, W7, W8, W9;
    var w := AbcWords();
    AbcRounds40(w);
    AbcRounds(w);
    LastRegisters();
    PaddedAbc();
    CompressOfAbc(w);
    OneBlock(BLOCK);
  }

  lemma {:induction false} OneBlock(block: seq<byte>)
    requires |block| == 64
    ensures HashBlocks(block) == Compress(INITIAL, block)
  {
    hide Compress, INITIAL;
    assert block[..|block| - 64] == [] && block[|block| - 64..] == block;
  }

  lemma {:induction false} CompressOfAbc(w: seq<word>)
    requires |BLOCK| == 64 && w == Schedule(BLOCK, 80)
    requires Rounds(INITIAL, w, 80) == Regs(0x42541B35, 0x5738D5E1, 0x21834873, 0x681E6DF6, 0xD8FDF6AD)
    ensures Compress(INITIAL, BLOCK) == Regs(0xA9993E36, 0x4706816A, 0xBA3E2571, 0x7850C26C, 0x9CD0D89D)
  {
    hide Rounds, Schedule, BLOCK;
  }

  predicate Octets(x: word, a: byte, b: byte, c: byte, d: byte) {
    WordOctet(x, 0) == a && WordOctet(x, 1) == b && WordOctet(x, 2) == c && WordOctet(x, 3) == d
  }

  lemma {:induction false} OctetsOfAbc()
    ensures Octets(0xA9993E36, 0xa9, 0x99, 0x3e, 0x36)
    ensures Octets(0x4706816A, 0x47, 0x06, 0x81, 0x6a)
    ensures Octets(0xBA3E2571, 0xba, 0x3e, 0x25, 0x71)
    ensures Octets(0x7850C26C, 0x78, 0x50, 0xc2, 0x6c)
    ensures Octets(0x9CD0D89D, 0x9c, 0xd0, 0xd8, 0x9d)
  {}

  /** The digest of "abc". */
  lemma {:induction false} DigestOfAbc()
    ensures Digest(ABC) == [
      0xa9, 0x99, 0x3e, 0x36, 0x47, 0x06, 0x81, 0x6a, 0xba, 0x3e,
      0x25, 0x71, 0x78, 0x50, 0xc2, 0x6c, 0x9c, 0xd0, 0xd8, 0x9d]
  {
    HashOfAbc();
    OctetsOfAbc();
    hide HashBlocks, Pad, WordOctet;
  }
}

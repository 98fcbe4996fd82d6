/**
 * The Base64 codec of ExtNet/common/base64.c. Values of type `unsigned char` are integers below
 * 256, so the shifts and masks of the source appear as division, remainder and multiplication by
 * powers of two. Pointers into a buffer are indices.
 */
module Base64 {
  import opened Common

  const UPPER := "ABCDEFGHIJKLMNOPQRSTUVWXYZ"
  const LOWER := "abcdefghijklmnopqrstuvwxyz"
  const DIGITS := "0123456789"
  const TABLE := UPPER + LOWER + DIGITS + "+/"

  const LF: byte := 10
  const PAD: byte := 61
  const SKIP: byte := 0x80
  /** Characters on a full line. */
  const LINE := 72

  type Sextet = x: nat | x < 64

  // ---------------------------------------------------------------- the alphabet

  /** Entry `i` of the encoding table, in closed form (see TableIsLetter). */
  function Letter(i: Sextet): byte {
    if i < 26 then 65 + i
    else if i < 52 then 97 + (i - 26)
    else if i < 62 then 48 + (i - 52)
    else if i == 62 then 43 else 47
  }

  /** What the decoding table holds for `c`: a sextet, 0 for '=', or SKIP. */
  function Value(c: byte): (v: byte)
    ensures v == SKIP || v < 64
  {
    if 65 <= c <= 90 then c - 65
    else if 97 <= c <= 122 then c - 97 + 26
    else if 48 <= c <= 57 then c - 48 + 52
    else if c == 43 then 62
    else if c == 47 then 63
    else if c == PAD then 0
    else SKIP
  }

  lemma {:induction false} UpperAt(i: nat)
    requires i < 26
    ensures UPPER[i] as int == 65 + i
  {}

  lemma {:induction false} LowerAt(i: nat)
    requires i < 26
    ensures LOWER[i] as int == 97 + i
  {}

  lemma {:induction false} DigitAt(i: nat)
    requires i < 10
    ensures DIGITS[i] as int == 48 + i
  {}

  /** The literal table of the source has 64 entries, and Letter is its closed form. */
  lemma {:induction false} TableIsLetter(i: Sextet)
    ensures |TABLE| == 64 && TABLE[i] as int == Letter(i)
  {
    if i < 26 {
      UpperAt(i);
      assert TABLE[i] == UPPER[i];
    } else if i < 52 {
      LowerAt(i - 26);
      assert TABLE[i] == LOWER[i - 26];
    } else if i < 62 {
      DigitAt(i - 52);
      assert TABLE[i] == DIGITS[i - 52];
    }
  }

  /**
   * The alphabet in section 5.2 of RFC 1341, in octets: the letters 'A' to 'Z' and 'a' to 'z', the digits, '+' and '/'.
   * The decoder keeps these and '=', and nothing else.
   */
  lemma {:induction false} Alphabet(i: Sextet, c: byte)
    ensures |TABLE| == 64 && TABLE[i] as int == Letter(i)
    ensures Letter(i) == (if i <= 25 then 65 + i else if i <= 51 then 71 + i else if i <= 61 then i - 4
                          else if i == 62 then 43 else 47)
    ensures Value(Letter(i)) == i && Value(61) == 0
    ensures Value(c) == 0x80 <==>
              !(65 <= c <= 90 || 97 <= c <= 122 || 48 <= c <= 57 || c == 43 || c == 47 || c == 61)
  {
    TableIsLetter(i);
  }

  /** The two tables are inverse to each other, and neither '=' nor LF is a letter. */
  lemma {:induction false} TablesInverse(i: Sextet, c: byte)
    ensures Value(Letter(i)) == i && Letter(i) != PAD && Letter(i) != LF
    ensures Value(c) < 64 && c != PAD ==> Letter(Value(c)) == c
  {}

  // ---------------------------------------------------------------- what encoding means

  /** The quantum of four characters that stands for three bytes. */
  function Quad(a: byte, b: byte, c: byte): (q: seq<byte>) {
    [Letter(a / 4), Letter(a % 4 * 16 + b / 16), Letter(b % 16 * 4 + c / 64), Letter(c % 64)]
  }

  /** Section 5.2 of RFC 1341 without the line breaks: 24-bit groups and the padded last group. */
  function Quads(x: seq<byte>): (q: seq<byte>)
    ensures |q| == (|x| + 2) / 3 * 4 && |q| % 4 == 0
  {
    if |x| == 0 then []
    else if |x| == 1 then Quad(x[0], 0, 0)[..2] + [PAD, PAD]
    else if |x| == 2 then Quad(x[0], x[1], 0)[..3] + [PAD]
    else Quad(x[0], x[1], x[2]) + Quads(x[3..])
  }

  /** A line feed after each full line of 72 characters. */
  function Breaks(s: seq<byte>): (r: seq<byte>)
    ensures |r| == |s| + |s| / LINE
  {
    if |s| < LINE then s else s[..LINE] + [LF] + Breaks(s[LINE..])
  }

  /** The text for `x`: lines of 72 characters, each of them, the last included, ended by LF. */
  function Encoded(x: seq<byte>): (r: seq<byte>) {
    var q := Quads(x);
    Breaks(q) + if |q| % LINE == 0 then [] else [LF]
  }

  // ---------------------------------------------------------------- what decoding means

  /** A character that the decoder does not skip. */
  predicate Kept(c: byte) {
    Value(c) != SKIP
  }

  /** Whole groups of four kept characters. */
  ghost predicate Whole(f: seq<byte>) {
    |f| % 4 == 0 && forall i :: 0 <= i < |f| ==> Kept(f[i])
  }

  function Filter(s: seq<byte>): (f: seq<byte>)
    ensures |f| <= |s|
    ensures forall i :: 0 <= i < |f| ==> Kept(f[i])
  {
    if s == [] then []
    else Filter(s[..|s| - 1]) + if Kept(s[|s| - 1]) then [s[|s| - 1]] else []
  }

  /** Number of '=' in a string. */
  function Pads(s: seq<byte>): (n: nat)
    ensures n <= |s|
  {
    if s == [] then 0 else Pads(s[..|s| - 1]) + if s[|s| - 1] == PAD then 1 else 0
  }

  /** The three bytes that four sextets pack. */
  function Unpack(a: Sextet, b: Sextet, c: Sextet, d: Sextet): (t: seq<byte>)
    ensures |t| == 3
  {
    [a * 4 + b / 16, b % 16 * 16 + c / 4, c % 4 * 64 + d]
  }

  /** The three bytes of a group of four characters. */
  function Triple(g: seq<byte>): (t: seq<byte>)
    requires |g| == 4 && forall i :: 0 <= i < 4 ==> Kept(g[i])
    ensures |t| == 3
  {
    assert Kept(g[0]) && Kept(g[1]) && Kept(g[2]) && Kept(g[3]);
    Unpack(Value(g[0]), Value(g[1]), Value(g[2]), Value(g[3]))
  }

  /** Groups of four up to and including the first one that holds '='. */
  function Groups(f: seq<byte>): (r: Option<seq<byte>>)
    requires |f| % 4 == 0 && forall i :: 0 <= i < |f| ==> Kept(f[i])
    ensures r.Some? ==> |r.value| <= |f| / 4 * 3
  {
    if f == [] then Some([])
    else
      var p := Pads(f[..4]);
      var t := Triple(f[..4]);
      if p == 0 then Prepend(t, Groups(f[4..]))
      else if p <= 2 then Some(t[..3 - p])
      else None
  }

  function Prepend(t: seq<byte>, r: Option<seq<byte>>): Option<seq<byte>> {
    if r.Some? then Some(t + r.value) else None
  }

  function Decoded(s: seq<byte>): (r: Option<seq<byte>>)
    ensures r.Some? ==> |r.value| <= |Filter(s)| / 4 * 3
  {
    var f := Filter(s);
    if f == [] || |f| % 4 != 0 then None else Groups(f)
  }

  // ---------------------------------------------------------------- round trip

  lemma {:induction false} FilterConcat(a: seq<byte>, b: seq<byte>)
    ensures Filter(a + b) == Filter(a) + Filter(b)
  {
    if b == [] {
      assert a + b == a;
    } else {
      assert (a + b)[..|a + b| - 1] == a + b[..|b| - 1];
      FilterConcat(a, b[..|b| - 1]);
    }
  }

  lemma {:induction false} FilterKeeps(s: seq<byte>)
    requires forall i :: 0 <= i < |s| ==> Kept(s[i])
    ensures Filter(s) == s
  {
    if s != [] {
      FilterKeeps(s[..|s| - 1]);
    }
  }

  lemma {:induction false} QuadsKept(x: seq<byte>)
    ensures forall i :: 0 <= i < |Quads(x)| ==> Kept(Quads(x)[i])
  {
    if |x| >= 3 {
      QuadsKept(x[3..]);
    }
  }

  lemma {:induction false} FilterBreaks(s: seq<byte>)
    requires forall i :: 0 <= i < |s| ==> Kept(s[i])
    ensures Filter(Breaks(s)) == s
  {
    if |s| < LINE {
      FilterKeeps(s);
    } else {
      var rest := s[LINE..];
      FilterBreaks(rest);
      FilterKeeps(s[..LINE]);
      FilterConcat(s[..LINE] + [LF], Breaks(rest));
      FilterConcat(s[..LINE], [LF]);
      assert Filter([LF]) == [];
    }
  }

  lemma {:induction false} FilterEncoded(x: seq<byte>)
    ensures Filter(Encoded(x)) == Quads(x)
  {
    hide Quads, Breaks, Filter;
    var q := Quads(x);
    QuadsKept(x);
    FilterBreaks(q);
    FilterConcat(Breaks(q), [LF]);
    NoFeed();
    assert Filter(Breaks(q)) + [] == Filter(Breaks(q)) && Breaks(q) + [] == Breaks(q);
  }

  lemma {:induction false} NoFeed()
    ensures Filter([LF]) == []
  {}

  lemma {:induction false} PadsOfFour(g: seq<byte>)
    requires |g| == 4
    ensures Pads(g) == (if g[0] == PAD then 1 else 0) + (if g[1] == PAD then 1 else 0)
                       + (if g[2] == PAD then 1 else 0) + (if g[3] == PAD then 1 else 0)
  {
    assert g[..3][..2] == g[..2] && g[..2][..1] == g[..1];
    assert Pads(g) == Pads(g[..3]) + if g[3] == PAD then 1 else 0;
    assert Pads(g[..3]) == Pads(g[..2]) + if g[2] == PAD then 1 else 0;
    assert Pads(g[..2]) == Pads(g[..1]) + if g[1] == PAD then 1 else 0;
  }

  /** Packing into sextets and unpacking again is the identity, with zeros for missing bytes. */
  lemma {:induction false} UnpackOfPack(a: byte, b: byte, c: byte)
    ensures Unpack(a / 4, a % 4 * 16 + b / 16, b % 16 * 4 + c / 64, c % 64) == [a, b, c]
  {
    Halves(a % 4, b / 16, 16);
    Halves(b % 16, c / 64, 4);
  }

  lemma {:induction false} Halves(high: nat, low: nat, k: nat)
    requires low < k && k in {4, 16}
    ensures (high * k + low) / k == high && (high * k + low) % k == low
  {}

  lemma {:induction false} TripleOfQuad(a: byte, b: byte, c: byte)
    ensures var q := Quad(a, b, c);
            && Kept(q[0]) && Kept(q[1]) && Kept(q[2]) && Kept(q[3])
            && Triple(q) == [a, b, c] && Pads(q) == 0
  {
    TablesInverse(a / 4, 0);
    TablesInverse(a % 4 * 16 + b / 16, 0);
    TablesInverse(b % 16 * 4 + c / 64, 0);
    TablesInverse(c % 64, 0);
    UnpackOfPack(a, b, c);
    PadsOfFour(Quad(a, b, c));
  }

  /** The padded last group of one or two bytes. */
  lemma {:induction false} GroupsOfTail(x: seq<byte>)
    requires 1 <= |x| <= 2
    ensures var q := Quads(x);
            && (forall i :: 0 <= i < |q| ==> Kept(q[i]))
            && Groups(q) == Some(x)
  {
    var q := Quads(x);
    var b := if |x| == 2 then x[1] else 0;
    QuadsKept(x);
    TripleOfQuad(x[0], b, 0);
    TablesInverse(x[0] / 4, 0);
    TablesInverse(x[0] % 4 * 16 + b / 16, 0);
    TablesInverse(b % 16 * 4, 0);
    assert q[0] == Letter(x[0] / 4) && q[1] == Letter(x[0] % 4 * 16 + b / 16) && q[3] == PAD;
    assert |x| == 2 ==> q[2] == Letter(b % 16 * 4);
    assert |x| == 1 ==> q[2] == PAD;
    PadsOfFour(q);
    UnpackOfPack(x[0], b, 0);
    assert Triple(q) == [x[0], b, 0];
    assert q[..4] == q;
    assert [x[0], b, 0][..|x|] == x;
  }

  lemma {:induction false} GroupsOfQuads(x: seq<byte>)
    ensures (forall i :: 0 <= i < |Quads(x)| ==> Kept(Quads(x)[i])) && Groups(Quads(x)) == Some(x)
  {
    QuadsKept(x);
    if |x| >= 3 {
      GroupsOfQuads(x[3..]);
      TripleOfQuad(x[0], x[1], x[2]);
      var q := Quads(x);
      assert q[..4] == Quad(x[0], x[1], x[2]) && q[4..] == Quads(x[3..]);
      assert x == [x[0], x[1], x[2]] + x[3..];
    } else if |x| > 0 {
      GroupsOfTail(x);
    }
  }

  lemma {:induction false} DecodedIsGroups(s: seq<byte>, f: seq<byte>)
    requires Filter(s) == f && |f| % 4 == 0
    ensures (forall i :: 0 <= i < |f| ==> Kept(f[i]))
    ensures Decoded(s) == if f == [] then None else Groups(f)
  {}

  /** The law the codec is for: decoding what was encoded gives the bytes back, unless there are none. */
  lemma {:induction false} RoundTrip(x: seq<byte>)
    ensures Decoded(Encoded(x)) == if x == [] then None else Some(x)
  {
    FilterEncoded(x);
    GroupsOfQuads(x);
    DecodedIsGroups(Encoded(x), Quads(x));
  }

  /** The text determines the bytes. */
  lemma {:induction false} EncodedInjective(x: seq<byte>, y: seq<byte>)
    requires Encoded(x) == Encoded(y)
    ensures x == y
  {
    RoundTrip(x);
    RoundTrip(y);
  }

  /** Bytes outside the alphabet never matter to the decoder. */
  lemma {:induction false} DecodeSkipsNoise(s: seq<byte>)
    ensures Decoded(s) == Decoded(Filter(s))
  {
    FilterKeeps(Filter(s));
  }

  /**
   * The decoder rejects exactly the texts with no kept character, with a count of kept characters
   * that 4 does not divide, and those whose first group holding '=' holds more than two.
   */
  lemma {:induction false} DecodeAccepts(s: seq<byte>)
    ensures Decoded(s).Some? <==>
              && Filter(s) != [] && |Filter(s)| % 4 == 0
              && forall k :: 0 <= k < |Filter(s)| / 4 && FirstPadded(Filter(s), k) ==> Pads(Group(Filter(s), k)) <= 2
  {
    if Filter(s) != [] && |Filter(s)| % 4 == 0 {
      GroupsAccept(Filter(s));
    }
  }

  function Group(f: seq<byte>, k: nat): (g: seq<byte>)
    requires k < |f| / 4
    ensures |g| == 4
  {
    f[4 * k..4 * k + 4]
  }

  /** Group `k` holds '=' and no earlier group does. */
  predicate FirstPadded(f: seq<byte>, k: nat)
    requires k < |f| / 4
  {
    Pads(Group(f, k)) > 0 && forall j :: 0 <= j < k ==> Pads(Group(f, j)) == 0
  }

  lemma {:induction false} GroupsAccept(f: seq<byte>)
    requires |f| % 4 == 0 && forall i :: 0 <= i < |f| ==> Kept(f[i])
    ensures Groups(f).Some? <==>
              forall k :: 0 <= k < |f| / 4 && FirstPadded(f, k) ==> Pads(Group(f, k)) <= 2
  {
    if f != [] {
      assert Group(f, 0) == f[..4];
      if Pads(f[..4]) > 0 {
        assert FirstPadded(f, 0);
      } else {
        hide Pads, Triple, FirstPadded;
        var rest := f[4..];
        GroupsAccept(rest);
        forall k: nat | k < |rest| / 4
          ensures Group(rest, k) == Group(f, k + 1) && (FirstPadded(rest, k) <==> FirstPadded(f, k + 1))
        {
          NextGroups(f, k);
        }
        NotFirst(f);
        if forall k :: 0 <= k < |rest| / 4 && FirstPadded(rest, k) ==> Pads(Group(rest, k)) <= 2 {
          forall k | 0 <= k < |f| / 4 && FirstPadded(f, k) ensures Pads(Group(f, k)) <= 2 {
            assert Group(rest, k - 1) == Group(f, k);
          }
        } else {
          var k :| 0 <= k < |rest| / 4 && FirstPadded(rest, k) && Pads(Group(rest, k)) > 2;
          assert FirstPadded(f, k + 1);
        }
      }
    }
  }

  lemma {:induction false} NotFirst(f: seq<byte>)
    requires |f| >= 4 && Pads(f[..4]) == 0
    ensures !FirstPadded(f, 0)
  {
    assert Group(f, 0) == f[..4];
  }

  lemma {:induction false} NextGroups(f: seq<byte>, k: nat)
    requires |f| >= 4 && Pads(f[..4]) == 0 && k < |f[4..]| / 4
    ensures Group(f[4..], k) == Group(f, k + 1) && (FirstPadded(f[4..], k) <==> FirstPadded(f, k + 1))
  {
    hide Pads;
    var rest := f[4..];
    assert Group(f, 0) == f[..4];
    forall j | 0 <= j <= k ensures Group(rest, j) == Group(f, j + 1) {
    }
    if FirstPadded(rest, k) {
      forall j | 0 <= j < k + 1 ensures Pads(Group(f, j)) == 0 {
        assert j > 0 ==> Group(rest, j - 1) == Group(f, j);
      }
    }
    if FirstPadded(f, k + 1) {
      forall j | 0 <= j < k ensures Pads(Group(rest, j)) == 0 {
        assert Group(rest, j) == Group(f, j + 1);
      }
    }
  }

  // ---------------------------------------------------------------- sizes and lines

  /** The buffer size computed in 64-bit arithmetic, every operation reduced modulo 2^64. */
  function AllocSize(len: nat): nat {
    var a := (len * 4 % TWO_64 / 3 + 4) % TWO_64;
    ((a + a / LINE) % TWO_64 + 1) % TWO_64
  }

  /**
   * The one comparison after the size computation detects every wrap-around: for a 64-bit length it
   * fails exactly when `len * 4` does not fit in 64 bits, and otherwise nothing wrapped.
   */
  lemma {:induction false} WrapTestComplete(len: nat)
    requires len < TWO_64
    ensures AllocSize(len) < len <==> len * 4 >= TWO_64
    ensures len * 4 < TWO_64 ==> AllocSize(len) == len * 4 / 3 + 4 + (len * 4 / 3 + 4) / LINE + 1
  {
    var w := len * 4 % TWO_64;
    AllocIs(len, w);
    Reduced(len * 4, w);
    hide AllocSize;
    if len * 4 >= TWO_64 {
      TooSmall(len, w);
    } else {
      assert len * 4 / 3 >= len;
    }
  }

  lemma {:induction false} Reduced(x: nat, w: nat)
    requires w == x % TWO_64
    ensures w < TWO_64 && if x < TWO_64 then w == x else w <= x - TWO_64
  {}

  /** Only the multiplication can wrap around. */
  lemma {:induction false} AllocIs(len: nat, w: nat)
    requires w == len * 4 % TWO_64
    ensures AllocSize(len) == w / 3 + 4 + (w / 3 + 4) / LINE + 1
  {
    var a := w / 3 + 4;
    Reduced(len * 4, w);
    SmallSize(w, a, a / LINE);
    Reduced(a, a % TWO_64);
    Reduced(a + a / LINE, (a + a / LINE) % TWO_64);
    Reduced(a + a / LINE + 1, (a + a / LINE + 1) % TWO_64);
  }

  lemma {:induction false} SmallSize(w: nat, a: nat, b: nat)
    requires w < TWO_64 && a == w / 3 + 4 && b == a / LINE
    ensures a + b + 1 < TWO_64
  {
    assert 3 * a <= w + 12 && LINE * b <= a;
  }

  lemma {:induction false} TooSmall(len: nat, w: nat)
    requires len < TWO_64 <= len * 4 && w < TWO_64 && w <= len * 4 - TWO_64
    ensures w / 3 + 4 + (w / 3 + 4) / LINE + 1 < len
  {
    var a := w / 3 + 4;
    var b := a / LINE;
    assert 3 * a <= w + 12 && LINE * b <= a;
  }

  /** The text and its final NUL fit in the buffer. */
  lemma {:induction false} EncodedFits(n: nat)
    ensures var l := (n + 2) / 3 * 4;
            l + (l + LINE - 1) / LINE + 1 <= n * 4 / 3 + 4 + (n * 4 / 3 + 4) / LINE + 1
  {
    var l := (n + 2) / 3 * 4;
    var a := n * 4 / 3 + 4;
    assert l < a;
    assert l % 4 == 0;
    assert (l + LINE - 1) / LINE <= l / LINE + 1;
  }

  lemma {:induction false} EncodedLength(x: seq<byte>)
    ensures var l := (|x| + 2) / 3 * 4; |Encoded(x)| == l + (l + 71) / 72
  {
    var l := (|x| + 2) / 3 * 4;
    if l % LINE == 0 {
      assert (l + LINE - 1) / LINE == l / LINE;
    } else {
      assert (l + LINE - 1) / LINE == l / LINE + 1;
    }
  }

  lemma {:induction false} OneLineOn(k: nat)
    ensures (k + LINE + 1) % (LINE + 1) == k % (LINE + 1)
  {}

  lemma {:induction false} BreaksAt(s: seq<byte>, i: nat)
    requires i < |Breaks(s)| && forall j :: 0 <= j < |s| ==> Kept(s[j])
    ensures Breaks(s)[i] == LF <==> i % (LINE + 1) == LINE
  {
    if |s| >= LINE && i > LINE {
      var k := i - (LINE + 1);
      BreaksAt(s[LINE..], k);
      assert Breaks(s)[i] == Breaks(s[LINE..])[k];
      OneLineOn(k);
    } else {
      assert Breaks(s)[i] == if i == LINE then LF else s[i];
    }
  }

  lemma {:induction false} WholeLines(n: nat)
    requires n % LINE == 0 && n > 0
    ensures (n + n / LINE - 1) % (LINE + 1) == LINE
  {
    var m := n / LINE - 1;
    assert n + n / LINE - 1 == 73 * m + 72;
    LastOfLine(m);
  }

  lemma {:induction false} LastOfLine(m: nat)
    ensures (73 * m + 72) % 73 == 72
  {}

  /** Line feeds stand after every 72 characters and at the end of the text, and nowhere else. */
  lemma {:induction false} LinesOf72(x: seq<byte>, i: nat)
    requires i < |Encoded(x)|
    ensures Encoded(x)[i] == 10 <==> i % 73 == 72 || i == |Encoded(x)| - 1
  {
    var q := Quads(x);
    QuadsKept(x);
    if i < |Breaks(q)| {
      BreaksAt(q, i);
      if i == |Encoded(x)| - 1 {
        WholeLines(|q|);
      }
    }
  }

  // ---------------------------------------------------------------- the encoder

  /** The number of '=' that complete the last group. */
  function Missing(n: nat): (k: nat)
    ensures k <= 2 && (n + k) % 3 == 0
  {
    (3 - n % 3) % 3
  }

  lemma {:induction false} QuadsPadded(x: seq<byte>, j: nat)
    requires j < |Quads(x)|
    ensures Quads(x)[j] == 61 <==> j >= |Quads(x)| - Missing(|x|)
  {
    if |x| >= 3 {
      var q, rest := Quad(x[0], x[1], x[2]), x[3..];
      QuadNotPads(x[0], x[1], x[2]);
      MissingSame(|rest|);
      assert Quads(x) == q + Quads(rest);
      if j >= 4 {
        QuadsPadded(rest, j - 4);
      } else {
        MissingFew(rest);
      }
    } else {
      QuadNotPads(x[0], if |x| > 1 then x[1] else 0, 0);
      hide Quad;
    }
  }

  lemma {:induction false} MissingSame(n: nat)
    ensures Missing(n + 3) == Missing(n)
  {}

  lemma {:induction false} MissingFew(x: seq<byte>)
    ensures Missing(|x|) <= |Quads(x)|
  {}

  lemma {:induction false} QuadNotPads(a: byte, b: byte, c: byte)
    ensures var q := Quad(a, b, c); |q| == 4 && q[0] != 61 && q[1] != 61 && q[2] != 61 && q[3] != 61
  {
    LettersNotPads();
    hide Letter;
  }

  lemma {:induction false} LettersNotPads()
    ensures forall i: Sextet :: Letter(i) != 61
  {}

  /** Lines end in a line feed, and what pads the last group stands before the last one. */
  lemma {:induction false} PadsAtEnd(q: seq<byte>, k: nat, i: nat)
    requires |q| % 4 == 0 && q != [] && k <= 2
    requires forall j | 0 <= j < |q| :: q[j] == 61 <==> j >= |q| - k
    requires i < |Breaks(q) + if |q| % LINE == 0 then [] else [LF]|
    ensures var r := Breaks(q) + if |q| % LINE == 0 then [] else [LF];
      r[|r| - 1] == 10 && (r[i] == 61 <==> |r| - 1 - k <= i < |r| - 1)
    decreases |q|
  {
    var end := if |q| % LINE == 0 then [] else [LF];
    if |q| <= LINE {
      if |q| == LINE {
        assert q[LINE..] == [] && q[..LINE] == q && Breaks([]) == [];
      }
      assert Breaks(q) + end == q + [LF];
    } else {
      var rest := q[LINE..];
      assert |rest| % LINE == |q| % LINE;
      var r := Breaks(rest) + end;
      assert Breaks(q) + end == q[..LINE] + [LF] + r;
      forall j | 0 <= j < |rest| ensures rest[j] == 61 <==> j >= |rest| - k {
        assert rest[j] == q[LINE + j];
      }
      PadsAtEnd(rest, k, if i > LINE then i - LINE - 1 else 0);
    }
  }

  /** The text of any bytes ends in as many '=' as bytes are missing in the last group, and a line feed. */
  lemma {:induction false} Padding(x: seq<byte>, i: nat)
    requires i < |Encoded(x)|
    ensures var e := Encoded(x);
      e[|e| - 1] == 10 && (e[i] == 61 <==> |e| - 1 - Missing(|x|) <= i < |e| - 1)
  {
    forall j | 0 <= j < |Quads(x)| ensures Quads(x)[j] == 61 <==> j >= |Quads(x)| - Missing(|x|) {
      QuadsPadded(x, j);
    }
    hide Quads;
    if Quads(x) == [] {
      NothingEncoded(x);
      assert false;
    }
    PadsAtEnd(Quads(x), Missing(|x|), i);
  }

  lemma {:induction false} NothingEncoded(x: seq<byte>)
    requires Quads(x) == []
    ensures Encoded(x) == []
  {}

  /** The texts of "M", "Ma" and "Man". */
  lemma {:induction false} KnownTexts()
    ensures Encoded([77]) == [84, 81, 61, 61, 10]
    ensures Encoded([77, 97]) == [84, 87, 69, 61, 10]
    ensures Encoded([77, 97, 110]) == [84, 87, 70, 117, 10]
  {
    assert Quads([77]) == [84, 81, 61, 61] && Quads([77, 97]) == [84, 87, 69, 61];
    assert [77, 97, 110][3..] == [] && Quads([77, 97, 110]) == [84, 87, 70, 117];
    hide Quads;
  }

  /** And back. */
  lemma {:induction false} KnownDecodings()
    ensures Decoded([84, 81, 61, 61, 10]) == Some([77]) && Decoded([84, 87, 69, 61, 10]) == Some([77, 97])
  {
    KnownTexts();
    RoundTrip([77]);
    RoundTrip([77, 97]);
    hide Decoded, Encoded;
  }

  lemma {:induction false} QuadsAppend(x: seq<byte>, y: seq<byte>)
    requires |x| % 3 == 0
    ensures Quads(x + y) == Quads(x) + Quads(y)
  {
    if x == [] {
      assert x + y == y;
    } else {
      assert (x + y)[3..] == x[3..] + y;
      QuadsAppend(x[3..], y);
    }
  }

  lemma {:induction false} BreaksAppend(s: seq<byte>, t: seq<byte>)
    requires |s| % LINE + |t| <= LINE && t != []
    ensures var r := Breaks(s) + t;
            Breaks(s + t) == if |s| % LINE + |t| == LINE then r + [LF] else r
  {
    if |s| < LINE {
      if |s| + |t| == LINE {
        assert (s + t)[..LINE] == s + t && (s + t)[LINE..] == [];
      }
    } else {
      var line, rest := s[..LINE] + [LF], s[LINE..];
      assert (s + t)[..LINE] == s[..LINE] && (s + t)[LINE..] == rest + t;
      assert |rest| % LINE == |s| % LINE;
      BreaksAppend(rest, t);
      assert Breaks(s) == line + Breaks(rest) && Breaks(s + t) == line + Breaks(rest + t);
      hide Breaks;
      assert line + Breaks(rest) + t == line + (Breaks(rest) + t);
      assert line + (Breaks(rest) + t) + [LF] == line + (Breaks(rest) + t + [LF]);
    }
  }

  /** A quantum never straddles a line break. */
  lemma {:induction false} LineRoom(k: nat)
    ensures k * 4 % LINE <= LINE - 4
  {
    assert k == k / 18 * 18 + k % 18;
    assert k * 4 == LINE * (k / 18) + k % 18 * 4;
  }

  lemma {:induction false} EncodeStep(x: seq<byte>, y: seq<byte>)
    requires |x| % 3 == 0 && 1 <= |y| <= 3
    ensures var q := Quads(x);
            && Quads(x + y) == q + Quads(y)
            && |Quads(x + y)| % LINE == (if |q| % LINE + 4 == LINE then 0 else |q| % LINE + 4)
            && |q| % LINE + 4 <= LINE
            && var r := Breaks(q) + Quads(y);
            && Breaks(Quads(x + y)) == (if |q| % LINE + 4 == LINE then r + [LF] else r)
  {
    QuadsAppend(x, y);
    LineRoom((|x| + 2) / 3);
    BreaksAppend(Quads(x), Quads(y));
  }

  /** `base64_table[i]`. */
  method TableAt(i: Sextet) returns (c: byte)
    ensures c == Letter(i)
  {
    TableIsLetter(i);
    c := TABLE[i] as int;
  }

  /** What is written for a prefix is no longer than the whole text. */
  lemma {:induction false} PrefixFits(x: seq<byte>, k: nat)
    requires k <= |x|
    ensures |Breaks(Quads(x[..k]))| <= |Breaks(Quads(x))| <= |Encoded(x)|
  {
    assert |Quads(x[..k])| <= |Quads(x)|;
  }

  method Encode(src: seq<byte>, mallocOk: bool) returns (out: array?<byte>, outLen: nat)
    requires |src| < TWO_64
    ensures out == null <==> |src| * 4 >= TWO_64 || !mallocOk
    ensures out != null ==>
              && out.Length == AllocSize(|src|) && outLen < out.Length
              && out[..outLen] == Encoded(src) && out[outLen] == 0
  {
    var len := |src|;
    var olen := (len * 4 % TWO_64 / 3 + 4) % TWO_64;
    olen := (olen + olen / LINE) % TWO_64;
    olen := (olen + 1) % TWO_64;
    WrapTestComplete(len);
    if olen < len || !mallocOk {
      return null, 0;
    }
    var buf := new byte[olen];
    EncodedFits(len);
    EncodedLength(src);
    var end := EncodeInto(src, buf);
    buf[end] := 0;
    return buf, end;
  }

  /** `*pos++ = c`. */
  method Put(out: array<byte>, pos: nat, c: byte) returns (next: nat)
    requires pos < out.Length
    modifies out
    ensures next == pos + 1 && out[..next] == old(out[..pos]) + [c]
    ensures forall j :: next <= j < out.Length ==> out[j] == old(out[j])
  {
    out[pos] := c;
    next := pos + 1;
  }

  /** The part of the encoder between the allocation and the NUL. */
  method EncodeInto(src: seq<byte>, out: array<byte>) returns (pos: nat)
    requires |Encoded(src)| < out.Length
    modifies out
    ensures pos < out.Length && out[..pos] == Encoded(src)
  {
    var in', at, lineLen := EncodeGroups(src, out);
    EncodeLast(src, in');
    pos := at;
    if |src| - in' != 0 {
      pos := EncodeTail(src, out, in', at);
      lineLen := lineLen + 4;
    }
    if lineLen != 0 {
      pos := Put(out, pos, LF);
    }
  }

  /** The loop over full groups of three bytes. */
  method EncodeGroups(src: seq<byte>, out: array<byte>) returns (in': nat, pos: nat, lineLen: nat)
    requires |Encoded(src)| < out.Length
    modifies out
    ensures in' <= |src| < in' + 3 && in' % 3 == 0
    ensures lineLen == |Quads(src[..in'])| % LINE
    ensures pos < out.Length && out[..pos] == Breaks(Quads(src[..in']))
  {
    hide Quads, Breaks, Encoded;
    NothingWritten();
    var len := |src|;
    in', pos, lineLen := 0, 0, 0;
    while len - in' >= 3
      invariant 0 <= in' <= len && in' % 3 == 0
      invariant lineLen == |Quads(src[..in'])| % LINE
      invariant pos < out.Length && out[..pos] == Breaks(Quads(src[..in']))
    {
      pos, lineLen := EncodeRound(src, out, in', pos, lineLen);
      in' := in' + 3;
    }
  }

  /** The body of that loop: a group and, at the end of a line, a line feed. */
  method EncodeRound(src: seq<byte>, out: array<byte>, in': nat, start: nat, line: nat)
    returns (pos: nat, lineLen: nat)
    requires in' + 3 <= |src| && in' % 3 == 0 && |Encoded(src)| < out.Length && start < out.Length
    requires line == |Quads(src[..in'])| % LINE && out[..start] == Breaks(Quads(src[..in']))
    modifies out
    ensures lineLen == |Quads(src[..in' + 3])| % LINE
    ensures pos < out.Length && out[..pos] == Breaks(Quads(src[..in' + 3]))
  {
    hide Quads, Breaks, Encoded;
    GroupWritten(src, in');
    pos := EncodeGroup(src, out, in', start);
    lineLen := line + 4;
    if lineLen >= 72 {
      pos := Put(out, pos, LF);
      lineLen := 0;
    }
  }

  lemma {:induction false} NothingWritten()
    ensures Quads([]) == [] && Breaks([]) == []
  {}

  lemma {:induction false} GroupWritten(x: seq<byte>, k: nat)
    requires k + 3 <= |x| && k % 3 == 0
    ensures var q, q' := Quads(x[..k]), Quads(x[..k + 3]);
            && |q'| % LINE == (if |q| % LINE + 4 == LINE then 0 else |q| % LINE + 4)
            && |q| % LINE + 4 <= LINE
            && var w := Breaks(q) + Quads(x[k..k + 3]);
            && Breaks(q') == (if |q| % LINE + 4 == LINE then w + [LF] else w)
            && |Breaks(q')| <= |Encoded(x)|
  {
    assert x[..k + 3] == x[..k] + x[k..k + 3];
    EncodeStep(x[..k], x[k..k + 3]);
    PrefixFits(x, k + 3);
  }

  /** One full group: the first four assignments of the loop body. */
  method EncodeGroup(src: seq<byte>, out: array<byte>, in': nat, start: nat) returns (pos: nat)
    requires in' + 3 <= |src| && start + 4 <= out.Length
    modifies out
    ensures pos == start + 4 && out[..pos] == old(out[..start]) + Quads(src[in'..in' + 3])
    ensures forall j :: pos <= j < out.Length ==> out[j] == old(out[j])
  {
    var c := TableAt(src[in'] / 4);
    pos := Put(out, start, c);
    c := TableAt(src[in'] % 4 * 16 + src[in' + 1] / 16);
    pos := Put(out, pos, c);
    c := TableAt(src[in' + 1] % 16 * 4 + src[in' + 2] / 64);
    pos := Put(out, pos, c);
    c := TableAt(src[in' + 2] % 64);
    pos := Put(out, pos, c);
  }

  /** The padded group for the last one or two bytes. */
  method EncodeTail(src: seq<byte>, out: array<byte>, in': nat, start: nat) returns (pos: nat)
    requires in' < |src| < in' + 3 && start + 4 < out.Length
    modifies out
    ensures pos == start + 4 && out[..pos] == old(out[..start]) + Quads(src[in'..])
    ensures forall j :: pos <= j < out.Length ==> out[j] == old(out[j])
  {
    var c := TableAt(src[in'] / 4);
    pos := Put(out, start, c);
    if |src| - in' == 1 {
      c := TableAt(src[in'] % 4 * 16);
      pos := Put(out, pos, c);
      pos := Put(out, pos, PAD);
    } else {
      c := TableAt(src[in'] % 4 * 16 + src[in' + 1] / 16);
      pos := Put(out, pos, c);
      c := TableAt(src[in' + 1] % 16 * 4);
      pos := Put(out, pos, c);
    }
    pos := Put(out, pos, PAD);
  }

  /** What is left to write once all full groups are written. */
  lemma {:induction false} EncodeLast(x: seq<byte>, k: nat)
    requires k <= |x| < k + 3 && k % 3 == 0
    ensures var q := Quads(x[..k]);
            Encoded(x) == Breaks(q) + Quads(x[k..]) + if k == |x| && |q| % LINE == 0 then [] else [LF]
  {
    if k == |x| {
      assert x[..k] == x && Breaks(Quads(x)) + Quads(x[k..]) == Breaks(Quads(x));
    } else {
      assert x == x[..k] + x[k..];
      EncodeStep(x[..k], x[k..]);
    }
  }

  // ---------------------------------------------------------------- the decoder

  /** The decoding table: memset, the loop over the encoding table, and the entry of '='. */
  method DecodingTable() returns (dtable: array<byte>)
    ensures dtable.Length == 256 && forall c: byte :: dtable[c] == Value(c)
    ensures fresh(dtable)
  {
    dtable := new byte[256](_ => SKIP);
    for i := 0 to 64
      invariant forall c: byte :: dtable[c] == if Value(c) < i && c != PAD then Value(c) else SKIP
    {
      var c := TableAt(i);
      TablesInverse(i, 0);
      forall d: byte ensures Value(d) == i && d != PAD <==> d == c {
        TablesInverse(i, d);
      }
      dtable[c] := i;
    }
    dtable[PAD] := 0;
  }

  lemma {:induction false} FilterNext(x: seq<byte>, i: nat)
    requires i < |x|
    ensures var f := Filter(x[..i]);
            Filter(x[..i + 1]) == if Kept(x[i]) then f + [x[i]] else f
  {
    assert x[..i + 1][..i] == x[..i];
  }

  lemma {:induction false} FilterNil()
    ensures Filter([]) == [] && Pads([]) == 0
  {}

  lemma {:induction false} FilterHead(x: seq<byte>, i: nat)
    requires i < |x|
    ensures var f := Filter(x[i + 1..]);
            Filter(x[i..]) == if Kept(x[i]) then [x[i]] + f else f
  {
    assert x[i..] == [x[i]] + x[i + 1..];
    FilterConcat([x[i]], x[i + 1..]);
    assert [x[i]][..0] == [];
  }

  /** What one complete group contributes to the result. */
  lemma {:induction false} GroupRead(r: seq<byte>, done: seq<byte>)
    requires |r| >= 4 && Whole(r)
    ensures Whole(r[4..])
    ensures var g := r[..4];
            Prepend(done, Groups(r)) ==
            if Pads(g) == 0 then Prepend(done + Triple(g), Groups(r[4..]))
            else if Pads(g) <= 2 then Some((done + Triple(g))[..|done| + 3 - Pads(g)])
            else None
  {
    var t := Triple(r[..4]);
    if Pads(r[..4]) == 0 {
      var rest := Groups(r[4..]);
      if rest.Some? {
        assert done + (t + rest.value) == done + t + rest.value;
      }
    } else if Pads(r[..4]) <= 2 {
      assert done + t[..3 - Pads(r[..4])] == (done + t)[..|done| + 3 - Pads(r[..4])];
    }
  }

  /** The decoder has written `done`, holds `part` of a group in `block`, and still has `rest` to read. */
  ghost predicate Reading(all: seq<byte>, done: seq<byte>, part: seq<byte>, rest: seq<byte>) {
    && |part| < 4 && Whole(all) && Whole(part + rest)
    && 4 * |done| + 3 * |part + rest| == 3 * |all|
    && Groups(all) == Prepend(done, Groups(part + rest))
  }

  lemma {:induction false} ReadingStarts(all: seq<byte>)
    requires Whole(all)
    ensures Reading(all, [], [], all)
  {
    assert [] + all == all;
    assert Groups(all).Some? ==> [] + Groups(all).value == Groups(all).value;
  }

  lemma {:induction false} ReadingEnds(all: seq<byte>, done: seq<byte>, part: seq<byte>)
    requires Reading(all, done, part, [])
    ensures Groups(all) == Some(done)
  {
    assert part + [] == [];
    assert done + [] == done;
  }

  lemma {:induction false} ReadChar(all: seq<byte>, done: seq<byte>, part: seq<byte>, c: byte, rest: seq<byte>)
    requires Reading(all, done, part, [c] + rest)
    ensures var g := part + [c];
            && |done| + 3 <= |all| / 4 * 3
            && Pads(g) == Pads(part) + (if c == PAD then 1 else 0)
            && (forall i :: 0 <= i < |g| ==> Kept(g[i]))
            && (|g| < 4 ==> Reading(all, done, g, rest))
  {
    var g := part + [c];
    assert g[..|part|] == part;
    assert g + rest == part + ([c] + rest);
    assert forall i :: 0 <= i < |g| ==> g[i] == (g + rest)[i];
  }

  lemma {:induction false} ReadGroup(all: seq<byte>, done: seq<byte>, part: seq<byte>, c: byte, rest: seq<byte>)
    requires Reading(all, done, part, [c] + rest) && |part| == 3
    ensures var g := part + [c];
            && (forall i :: 0 <= i < |g| ==> Kept(g[i]))
            && (Pads(g) == 0 ==> Reading(all, done + Triple(g), [], rest))
            && (1 <= Pads(g) <= 2 ==> Groups(all) == Some((done + Triple(g))[..|done| + 3 - Pads(g)]))
            && (Pads(g) > 2 ==> Groups(all) == None)
  {
    var r, g := part + ([c] + rest), part + [c];
    assert r[..4] == g && r[4..] == rest == [] + rest;
    assert forall i :: 0 <= i < |g| ==> g[i] == r[i];
    GroupRead(r, done);
  }

  method Decode(src: seq<byte>, mallocOk: bool) returns (out: array?<byte>, outLen: nat)
    requires |src| < TWO_64
    ensures out == null <==> Decoded(src) == None || !mallocOk
    ensures out != null ==>
              && out.Length == |Filter(src)| / 4 * 3 && outLen <= out.Length
              && Decoded(src) == Some(out[..outLen])
  {
    var dtable := DecodingTable();
    var len := |src|;
    var count := 0;
    for i := 0 to len
      invariant count == |Filter(src[..i])|
      invariant dtable.Length == 256 && forall c: byte :: dtable[c] == Value(c)
    {
      FilterNext(src, i);
      if dtable[src[i]] != SKIP {
        count := count + 1;
      }
    }
    assert src[..len] == src;
    if count == 0 || count % 4 != 0 || !mallocOk {
      return null, 0;
    }
    var buf := new byte[count / 4 * 3];
    var ok;
    ok, outLen := DecodeInto(src, dtable, buf);
    return if ok then buf else null, outLen;
  }

  /** The second loop; `ok` is false where the source frees the buffer for invalid padding. */
  method DecodeInto(src: seq<byte>, dtable: array<byte>, out: array<byte>) returns (ok: bool, pos: nat)
    requires dtable != out && dtable.Length == 256 && forall c: byte :: dtable[c] == Value(c)
    requires |Filter(src)| % 4 == 0 && out.Length == |Filter(src)| / 4 * 3
    modifies out
    ensures ok <==> Groups(Filter(src)).Some?
    ensures ok ==> pos <= out.Length && Groups(Filter(src)) == Some(out[..pos])
  {
    hide Value, Filter, Groups, Pads, Triple, Prepend, Whole;
    FilterNil();
    ghost var all := Filter(src);
    ghost var part, rest := [], all;
    var block := new byte[4];
    var count, pad := 0, 0;
    pos := 0;
    ReadingStarts(all);
    assert src[0..] == src && out[..0] == [];
    var i := 0;
    while i < |src|
      invariant 0 <= i <= |src|
      invariant pos <= out.Length && rest == Filter(src[i..]) && Reading(all, out[..pos], part, rest)
      invariant count == |part| && pad == Pads(part)
      invariant forall j :: 0 <= j < count ==> block[j] == Value(part[j])
    {
      FilterHead(src, i);
      ghost var tail := Filter(src[i + 1..]);
      var tmp := dtable[src[i]];
      if tmp == SKIP {
        i := i + 1;
        continue;
      }
      ghost var g, done := part + [src[i]], out[..pos];
      ReadChar(all, done, part, src[i], tail);
      if src[i] == PAD {
        pad := pad + 1;
      }
      block[count] := tmp;
      assert forall j :: 0 <= j < count + 1 ==> block[j] == Value(g[j]);
      count := count + 1;
      if count == 4 {
        ReadGroup(all, done, part, src[i], tail);
        ok, pos := WriteGroup(out, pos, block, pad, g);
        if !ok || pad != 0 {
          return ok, pos;
        }
        count := 0;
        g := [];
      }
      part, rest := g, tail;
      i := i + 1;
    }
    assert src[i..] == [];
    ReadingEnds(all, out[..pos], part);
    ok := true;
  }

  method PutThree(out: array<byte>, start: nat, a: byte, b: byte, c: byte) returns (pos: nat)
    requires start + 3 <= out.Length
    modifies out
    ensures pos == start + 3 && out[..pos] == old(out[..start]) + [a, b, c]
  {
    pos := Put(out, start, a);
    pos := Put(out, pos, b);
    pos := Put(out, pos, c);
  }

  /** The three bytes of a complete group, less those that its `pad` pad characters take back. */
  method WriteGroup(out: array<byte>, start: nat, block: array<byte>, pad: nat, ghost g: seq<byte>)
    returns (ok: bool, pos: nat)
    requires out != block && block.Length == 4 && start + 3 <= out.Length
    requires |g| == 4 && forall j :: 0 <= j < 4 ==> Kept(g[j]) && block[j] == Value(g[j])
    modifies out
    ensures ok <==> pad <= 2
    ensures ok ==> pos == start + 3 - pad
    ensures ok ==> out[..pos] == (old(out[..start]) + Triple(g))[..pos]
    ensures pad == 0 ==> out[..pos] == old(out[..start]) + Triple(g)
  {
    assert block[0] == Value(g[0]) && block[1] == Value(g[1]) && block[2] == Value(g[2]) && block[3] == Value(g[3]);
    assert Kept(g[0]) && Kept(g[1]) && Kept(g[2]) && Kept(g[3]);
    hide Value;
    pos := PutThree(out, start, block[0] * 4 + block[1] / 16, block[1] % 16 * 16 + block[2] / 4,
      block[2] % 4 * 64 + block[3]);
    ok := true;
    ghost var full := out[..pos];
    assert full == old(out[..start]) + Triple(g);
    if pad != 0 {
      if pad == 1 {
        pos := pos - 1;
      } else if pad == 2 {
        pos := pos - 2;
      } else {
        return false, 0;
      }
    }
    assert out[..pos] == full[..pos];
  }
}

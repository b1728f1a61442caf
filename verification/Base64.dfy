/** Base64, as in section 4 of RFC 4648.  Bytes and characters are both bytes here. */
module Base64 {
  import opened Basics

  const PAD: Byte := 61

  // ------------------------------------------------------------------
  // The alphabet
  // ------------------------------------------------------------------

  function FirstCodes(n: Byte): (c: Byte) {
    if n == 0 then 65 else if n == 1 then 66 else if n == 2 then 67 else if n == 3 then 68 else
    if n == 4 then 69 else if n == 5 then 70 else if n == 6 then 71 else if n == 7 then 72 else
    if n == 8 then 73 else if n == 9 then 74 else if n == 10 then 75 else if n == 11 then 76 else
    if n == 12 then 77 else if n == 13 then 78 else if n == 14 then 79 else 80
  }

  function SecondCodes(n: Byte): (c: Byte) {
    if n == 16 then 81 else if n == 17 then 82 else if n == 18 then 83 else if n == 19 then 84 else
    if n == 20 then 85 else if n == 21 then 86 else if n == 22 then 87 else if n == 23 then 88 else
    if n == 24 then 89 else if n == 25 then 90 else if n == 26 then 97 else if n == 27 then 98 else
    if n == 28 then 99 else if n == 29 then 100 else if n == 30 then 101 else 102
  }

  function ThirdCodes(n: Byte): (c: Byte) {
    if n == 32 then 103 else if n == 33 then 104 else if n == 34 then 105 else if n == 35 then 106 else
    if n == 36 then 107 else if n == 37 then 108 else if n == 38 then 109 else if n == 39 then 110 else
    if n == 40 then 111 else if n == 41 then 112 else if n == 42 then 113 else if n == 43 then 114 else
    if n == 44 then 115 else if n == 45 then 116 else if n == 46 then 117 else 118
  }

  function FourthCodes(n: Byte): (c: Byte) {
    if n == 48 then 119 else if n == 49 then 120 else if n == 50 then 121 else if n == 51 then 122 else
    if n == 52 then 48 else if n == 53 then 49 else if n == 54 then 50 else if n == 55 then 51 else
    if n == 56 then 52 else if n == 57 then 53 else if n == 58 then 54 else if n == 59 then 55 else
    if n == 60 then 56 else if n == 61 then 57 else if n == 62 then 43 else 47
  }

  /** base64_code: the characters A-Z, a-z, 0-9, + and /. */
  function Code(n: Byte): (c: Byte)
    requires n < 64
  {
    if n < 16 then FirstCodes(n) else if n < 32 then SecondCodes(n)
    else if n < 48 then ThirdCodes(n) else FourthCodes(n)
  }

  function Base2Chr(n: Byte): (c: Byte) {
    var m := n & 0x3F;
    if m < 26 then m + 65
    else if m < 52 then m - 26 + 97
    else if m < 62 then m - 52 + 48
    else if m == 62 then 43
    else 47
  }

  /** The place of a character in the alphabet, or 64. */
  function Chr2Base(c: Byte): (n: Byte)
    ensures n <= 64
  {
    if 65 <= c <= 90 then c - 65
    else if 97 <= c <= 122 then c - 97 + 26
    else if 48 <= c <= 57 then c - 48 + 52
    else if c == 43 then 62
    else if c == 47 then 63
    else 64
  }

  predicate Valid(c: Byte) {
    Chr2Base(c) < 64
  }

  /** The table and the formula give the same alphabet. */
  lemma CodeIsBase2Chr(n: Byte)
    requires n < 64
    ensures Code(n) == Base2Chr(n)
  {}

  lemma BaseChrBase(n: Byte)
    requires n < 64
    ensures Chr2Base(Base2Chr(n)) == n && Base2Chr(n) != PAD && Base2Chr(n) != 0
  {}

  lemma ChrBaseChr(c: Byte)
    requires Valid(c)
    ensures Base2Chr(Chr2Base(c)) == c && c != PAD && c != 0
  {}

  /** Characters of the alphabet and places in it correspond. */
  lemma CodeRoundTrip(n: Byte)
    requires n < 64
    ensures Chr2Base(Code(n)) == n && Code(n) != PAD && Code(n) != 0
  {
    hide Code, Base2Chr, Chr2Base;
    CodeIsBase2Chr(n);
    BaseChrBase(n);
  }

  lemma ChrRoundTrip(c: Byte)
    requires Valid(c)
    ensures Code(Chr2Base(c)) == c && c != PAD && c != 0
  {
    hide Code, Base2Chr, Chr2Base;
    ChrBaseChr(c);
    CodeIsBase2Chr(Chr2Base(c));
  }

  // ------------------------------------------------------------------
  // Three bytes and four sextets
  // ------------------------------------------------------------------

  function Sextet0(a: Byte): (n: Byte)
    ensures n < 64
  {
    a >> 2
  }

  function Sextet1(a: Byte, b: Byte): (n: Byte)
    ensures n < 64
  {
    ((a & 0x03) << 4) | (b >> 4)
  }

  function Sextet2(b: Byte, d: Byte): (n: Byte)
    ensures n < 64
  {
    ((b & 0x0F) << 2) | (d >> 6)
  }

  function Sextet3(d: Byte): (n: Byte)
    ensures n < 64
  {
    d & 0x3F
  }

  function Byte0(p: Byte, q: Byte): (a: Byte) {
    (p << 2) | (q >> 4)
  }

  function Byte1(q: Byte, r: Byte): (b: Byte) {
    (q << 4) | (r >> 2)
  }

  function Byte2(r: Byte, s: Byte): (d: Byte) {
    (r << 6) | s
  }

  /** The places in base64_code that Encode computes from the 24 bits of a group. */
  function Index0(c: bv32): (n: Byte)
    ensures n < 64
  {
    ((c & 0x00fc0000) >> 18) as bv8
  }

  function Index1(c: bv32): (n: Byte)
    ensures n < 64
  {
    ((c & 0x0003f000) >> 12) as bv8
  }

  function Index2(c: bv32): (n: Byte)
    ensures n < 64
  {
    ((c & 0x00000fc0) >> 6) as bv8
  }

  function Index3(c: bv32): (n: Byte)
    ensures n < 64
  {
    (c & 0x0000003f) as bv8
  }

  /** The 24 bits of a group. */
  function Bits24(a: Byte, b: Byte, d: Byte): (c: bv32) {
    ((a as bv32) * 256 + (b as bv32)) * 256 + (d as bv32)
  }

  /** What the masks and shifts of Encode take out of the 24 bits of three bytes. */
  lemma MasksAreSextets(a: Byte, b: Byte, d: Byte)
    ensures Index0(Bits24(a, b, d)) == Sextet0(a) && Index1(Bits24(a, b, d)) == Sextet1(a, b)
    ensures Index2(Bits24(a, b, d)) == Sextet2(b, d) && Index3(Bits24(a, b, d)) == Sextet3(d)
  {}

  /** What Decode puts together is what Encode took apart. */
  lemma BytesBack(a: Byte, b: Byte, d: Byte)
    ensures Byte0(Sextet0(a), Sextet1(a, b)) == a
    ensures Byte1(Sextet1(a, b), Sextet2(b, d)) == b
    ensures Byte2(Sextet2(b, d), Sextet3(d)) == d
  {}

  /** What Encode takes apart is what Decode put together. */
  lemma SextetsBack(p: Byte, q: Byte, r: Byte, s: Byte)
    requires p < 64 && q < 64 && r < 64 && s < 64
    ensures var a, b, d := Byte0(p, q), Byte1(q, r), Byte2(r, s);
            && Sextet0(a) == p && Sextet1(a, b) == q && Sextet2(b, d) == r && Sextet3(d) == s
            && (q & 0x0F == 0 ==> Sextet1(a, 0) == q) && (r & 0x03 == 0 ==> Sextet2(b, 0) == r)
  {}

  // ------------------------------------------------------------------
  // Whole strings
  // ------------------------------------------------------------------

  /** The encoding of a group of three bytes. */
  function Quad(a: Byte, b: Byte, d: Byte): (r: seq<Byte>)
    ensures |r| == 4
  {
    [Code(Sextet0(a)), Code(Sextet1(a, b)), Code(Sextet2(b, d)), Code(Sextet3(d))]
  }

  function Encoded(x: seq<Byte>): (r: seq<Byte>) {
    if x == [] then []
    else if |x| == 1 then [Code(Sextet0(x[0])), Code(Sextet1(x[0], 0)), PAD, PAD]
    else if |x| == 2 then [Code(Sextet0(x[0])), Code(Sextet1(x[0], x[1])), Code(Sextet2(x[1], 0)), PAD]
    else Quad(x[0], x[1], x[2]) + Encoded(x[3..])
  }

  /** The bits that Decode keeps after a character of value c in the given phase. */
  function Keep(t: Byte, c: Byte, phase: nat): (r: Byte) {
    if phase == 0 then c << 2 else if phase == 1 then c << 4 else if phase == 2 then c << 6 else t
  }

  /** The byte that Decode writes for a character of value c in phase 1, 2 or 3. */
  function Emit(t: Byte, c: Byte, phase: nat): (r: Byte) {
    if phase == 1 then t | (c >> 4) else if phase == 2 then t | (c >> 2) else t | c
  }

  /** The bytes that the loop of Decode still writes from character i on, t being the bits it
      has kept.  The phase is the place of the character, skipped ones included. */
  function DecodedFrom(s: seq<Byte>, i: nat, t: Byte): (r: seq<Byte>)
    decreases |s| - i
  {
    if i >= |s| || s[i] == PAD || s[i] == 0 then []
    else
      var c := Chr2Base(s[i]);
      if c == 64 then DecodedFrom(s, i + 1, t)
      else if i % 4 == 0 then DecodedFrom(s, i + 1, Keep(t, c, 0))
      else [Emit(t, c, i % 4)] + DecodedFrom(s, i + 1, Keep(t, c, i % 4))
  }

  /** What one round of the loop of Decode leaves to be written. */
  lemma DecodedRound(s: seq<Byte>, i: nat, t: Byte)
    requires i < |s|
    ensures var c := Chr2Base(s[i]);
            DecodedFrom(s, i, t) ==
            if s[i] == PAD || s[i] == 0 then []
            else if c == 64 then DecodedFrom(s, i + 1, t)
            else if i % 4 == 0 then DecodedFrom(s, i + 1, Keep(t, c, 0))
            else [Emit(t, c, i % 4)] + DecodedFrom(s, i + 1, Keep(t, c, i % 4))
  {}

  lemma NothingLeft(s: seq<Byte>, i: nat, t: Byte)
    requires i >= |s|
    ensures DecodedFrom(s, i, t) == []
  {}

  lemma SamePhase(n: nat, i: nat)
    requires n % 4 == 0
    ensures (n + i) % 4 == i % 4
  {
    assert n == 4 * (n / 4);
    var q, m := i / 4, i % 4;
    assert i == 4 * q + m;
    assert n + i == 4 * (n / 4 + q) + m;
  }

  /** Whole groups in front do not matter. */
  lemma {:induction false} DecodedShift(a: seq<Byte>, s: seq<Byte>, i: nat, t: Byte)
    requires |a| % 4 == 0
    ensures DecodedFrom(a + s, |a| + i, t) == DecodedFrom(s, i, t)
    decreases |s| - i
  {
    hide Chr2Base, Keep, Emit, DecodedFrom;
    if i >= |s| {
      NothingLeft(s, i, t);
      NothingLeft(a + s, |a| + i, t);
    } else {
      assert (a + s)[|a| + i] == s[i];
      SamePhase(|a|, i);
      var c := Chr2Base(s[i]);
      DecodedRound(s, i, t);
      DecodedRound(a + s, |a| + i, t);
      DecodedShift(a, s, i + 1, t);
      DecodedShift(a, s, i + 1, Keep(t, c, i % 4));
    }
  }

  predicate Good(c: Byte) {
    Valid(c) && c != PAD && c != 0
  }

  /** One character of the alphabet. */
  lemma DecodedStep(s: seq<Byte>, i: nat, t: Byte)
    requires i < |s| && Good(s[i])
    ensures var c := Chr2Base(s[i]);
            DecodedFrom(s, i, t) ==
            (if i % 4 == 0 then [] else [Emit(t, c, i % 4)]) + DecodedFrom(s, i + 1, Keep(t, c, i % 4))
  {}

  lemma EmitsAreBytes(t: Byte, p: Byte, q: Byte, r: Byte, u: Byte)
    ensures Emit(Keep(t, p, 0), q, 1) == Byte0(p, q)
    ensures Emit(Keep(Keep(t, p, 0), q, 1), r, 2) == Byte1(q, r)
    ensures Emit(Keep(Keep(Keep(t, p, 0), q, 1), r, 2), u, 3) == Byte2(r, u)
  {}

  /** A group of four characters gives three bytes, whatever bits were kept before. */
  lemma DecodedGroup(s: seq<Byte>, t: Byte) returns (t': Byte)
    requires |s| >= 4 && Good(s[0]) && Good(s[1]) && Good(s[2]) && Good(s[3])
    ensures var p, q, r, u := Chr2Base(s[0]), Chr2Base(s[1]), Chr2Base(s[2]), Chr2Base(s[3]);
            DecodedFrom(s, 0, t) == [Byte0(p, q), Byte1(q, r), Byte2(r, u)] + DecodedFrom(s[4..], 0, t')
  {
    hide Chr2Base, DecodedFrom, Good, Keep, Emit, Byte0, Byte1, Byte2;
    var p, q, r, u := Chr2Base(s[0]), Chr2Base(s[1]), Chr2Base(s[2]), Chr2Base(s[3]);
    EmitsAreBytes(t, p, q, r, u);
    DecodedStep(s, 0, t);
    t' := Keep(t, p, 0);
    DecodedStep(s, 1, t');
    t' := Keep(t', q, 1);
    DecodedStep(s, 2, t');
    t' := Keep(t', r, 2);
    DecodedStep(s, 3, t');
    t' := Keep(t', u, 3);
    assert s == s[..4] + s[4..];
    DecodedShift(s[..4], s[4..], 0, t');
  }

  /** A last group with padding gives one or two bytes. */
  lemma DecodedEnd(s: seq<Byte>, t: Byte)
    requires |s| == 4 && Good(s[0]) && Good(s[1]) && (Good(s[2]) || s[2] == PAD) && s[3] == PAD
    ensures var p, q, r := Chr2Base(s[0]), Chr2Base(s[1]), Chr2Base(s[2]);
            DecodedFrom(s, 0, t) == if s[2] == PAD then [Byte0(p, q)] else [Byte0(p, q), Byte1(q, r)]
  {
    hide Chr2Base, DecodedFrom, Good, Keep, Emit, Byte0, Byte1, Byte2;
    var p, q, r := Chr2Base(s[0]), Chr2Base(s[1]), Chr2Base(s[2]);
    EmitsAreBytes(t, p, q, r, 0);
    DecodedStep(s, 0, t);
    var t1 := Keep(t, p, 0);
    DecodedStep(s, 1, t1);
    var t2 := Keep(t1, q, 1);
    if s[2] == PAD {
      DecodedStop(s, 2, t2);
    } else {
      DecodedStep(s, 2, t2);
      DecodedStop(s, 3, Keep(t2, r, 2));
    }
  }

  lemma DecodedStop(s: seq<Byte>, i: nat, t: Byte)
    requires i >= |s| || s[i] == PAD
    ensures DecodedFrom(s, i, t) == []
  {}

  // ------------------------------------------------------------------
  // Decoding and encoding undo each other
  // ------------------------------------------------------------------

  lemma GoodCode(n: Byte)
    requires n < 64
    ensures Good(Code(n)) && Chr2Base(Code(n)) == n
  {
    CodeRoundTrip(n);
  }

  /** Decoding undoes encoding, whatever bits were kept before. */
  lemma {:induction false} DecodeEncode(x: seq<Byte>, t: Byte)
    ensures DecodedFrom(Encoded(x), 0, t) == x
    decreases |x|
  {
    hide Code, Chr2Base, DecodedFrom, Good, Sextet0, Sextet1, Sextet2, Sextet3, Byte0, Byte1, Byte2;
    var s := Encoded(x);
    if x == [] {
      DecodedStop(s, 0, t);
    } else {
      var a, b, d := x[0], if |x| > 1 then x[1] else 0, if |x| > 2 then x[2] else 0;
      GoodCode(Sextet0(a));
      GoodCode(Sextet1(a, b));
      GoodCode(Sextet2(b, d));
      GoodCode(Sextet3(d));
      BytesBack(a, b, d);
      if |x| < 3 {
        DecodedEnd(s, t);
      } else {
        var t' := DecodedGroup(s, t);
        assert s[4..] == Encoded(x[3..]);
        DecodeEncode(x[3..], t');
        assert x == [a, b, d] + x[3..];
      }
    }
  }

  /** Groups of four characters of the alphabet; the last may be padded, and then has no bits
      set that stand for no byte. */
  predicate Canonical(s: seq<Byte>) {
    s == [] ||
    (|s| >= 4 && Good(s[0]) && Good(s[1]) &&
     (|| (Good(s[2]) && Good(s[3]) && Canonical(s[4..]))
      || (|s| == 4 && Good(s[2]) && s[3] == PAD && Chr2Base(s[2]) & 0x03 == 0)
      || (|s| == 4 && s[2] == PAD && s[3] == PAD && Chr2Base(s[1]) & 0x0F == 0)))
  }

  lemma LowBits(a: Byte)
    ensures Sextet1(a, 0) & 0x0F == 0 && Sextet2(a, 0) & 0x03 == 0
  {}

  /** The characters of the first group of a string that is not empty. */
  lemma FirstGroup(x: seq<Byte>)
    requires x != []
    ensures var s := Encoded(x);
            && |s| >= 4 && Good(s[0]) && Good(s[1])
            && (if |x| == 1 then |s| == 4 && s[2] == PAD && s[3] == PAD && Chr2Base(s[1]) & 0x0F == 0
                else if |x| == 2 then |s| == 4 && Good(s[2]) && s[3] == PAD && Chr2Base(s[2]) & 0x03 == 0
                else Good(s[2]) && Good(s[3]) && s[4..] == Encoded(x[3..]))
  {
    hide Code, Chr2Base, Good, Sextet0, Sextet1, Sextet2, Sextet3;
    var a, b, d := x[0], if |x| > 1 then x[1] else 0, if |x| > 2 then x[2] else 0;
    GoodCode(Sextet0(a));
    GoodCode(Sextet1(a, b));
    GoodCode(Sextet2(b, d));
    GoodCode(Sextet3(d));
    LowBits(a);
    LowBits(b);
  }

  /** Encode emits groups of four characters, of the alphabet or padding. */
  lemma {:induction false} EncodedCanonical(x: seq<Byte>)
    ensures Canonical(Encoded(x)) && |Encoded(x)| == (|x| + 2) / 3 * 4
    ensures forall i | 0 <= i < |Encoded(x)| :: Good(Encoded(x)[i]) || Encoded(x)[i] == PAD
    decreases |x|
  {
    hide Chr2Base, Good, Encoded;
    if x == [] {
      NoneEncoded();
    } else {
      FirstGroup(x);
      if |x| >= 3 {
        EncodedCanonical(x[3..]);
        assert forall i | 4 <= i < |Encoded(x)| :: Encoded(x)[i] == Encoded(x)[4..][i - 4];
      }
    }
  }

  lemma GoodChr(c: Byte)
    requires Good(c)
    ensures Chr2Base(c) < 64 && Code(Chr2Base(c)) == c
  {
    ChrRoundTrip(c);
  }

  /** Encoding undoes decoding on canonical strings. */
  lemma {:induction false} EncodeDecode(s: seq<Byte>, t: Byte)
    requires Canonical(s)
    ensures Encoded(DecodedFrom(s, 0, t)) == s
    decreases |s|
  {
    hide Code, Chr2Base, DecodedFrom, Good, Sextet0, Sextet1, Sextet2, Sextet3, Byte0, Byte1, Byte2;
    if s == [] {
      DecodedStop(s, 0, t);
    } else {
      GoodChr(s[0]);
      GoodChr(s[1]);
      var p, q := Chr2Base(s[0]), Chr2Base(s[1]);
      if s[3] == PAD {
        EncodeDecodeEnd(s, t);
      } else {
        GoodChr(s[2]);
        GoodChr(s[3]);
        var r, u := Chr2Base(s[2]), Chr2Base(s[3]);
        var t' := DecodedGroup(s, t);
        SextetsBack(p, q, r, u);
        EncodeDecode(s[4..], t');
        var x := DecodedFrom(s, 0, t);
        assert x[3..] == DecodedFrom(s[4..], 0, t');
        assert s == [s[0], s[1], s[2], s[3]] + s[4..];
      }
    }
  }

  lemma EncodeDecodeEnd(s: seq<Byte>, t: Byte)
    requires Canonical(s) && |s| >= 4 && s[3] == PAD
    ensures Encoded(DecodedFrom(s, 0, t)) == s
  {
    hide Code, Chr2Base, DecodedFrom, Good, Sextet0, Sextet1, Sextet2, Sextet3, Byte0, Byte1, Byte2;
    PadNotGood();
    GoodChr(s[0]);
    GoodChr(s[1]);
    DecodedEnd(s, t);
    var p, q := Chr2Base(s[0]), Chr2Base(s[1]);
    if s[2] == PAD {
      SextetsBack(p, q, 0, 0);
    } else {
      GoodChr(s[2]);
      SextetsBack(p, q, Chr2Base(s[2]), 0);
    }
    assert s == [s[0], s[1], s[2], s[3]];
  }

  lemma PadNotGood()
    ensures !Good(PAD)
  {}

  /** Encoding what was decoded gives the string back if and only if it was canonical. */
  lemma CanonicalExactly(s: seq<Byte>)
    ensures Encoded(DecodedFrom(s, 0, 0)) == s <==> Canonical(s)
  {
    hide Encoded, DecodedFrom, Canonical;
    if Canonical(s) {
      EncodeDecode(s, 0);
    }
    EncodedCanonical(DecodedFrom(s, 0, 0));
  }

  // ------------------------------------------------------------------
  // Encode and Decode
  // ------------------------------------------------------------------

  /** Base64EncodeLen */
  function EncodeLen(n: nat): (r: nat) {
    (n + 2) / 3 * 4 + 1
  }

  /** Base64DecodeLen */
  function DecodeLen(n: nat): (r: nat) {
    n / 4 * 3 + 2
  }

  /** The four characters of the group at place i, the bytes past the end counting as zero. */
  function GroupAt(x: seq<Byte>, i: nat): (r: seq<Byte>)
    requires i < |x|
    ensures |r| == 4
  {
    var c := Bits24(x[i], if i + 1 < |x| then x[i + 1] else 0, if i + 2 < |x| then x[i + 2] else 0);
    [Code(Index0(c)), Code(Index1(c)),
     if i + 3 > |x| + 1 then PAD else Code(Index2(c)),
     if i + 3 > |x| then PAD else Code(Index3(c))]
  }

  lemma EncodedGroup(x: seq<Byte>, i: nat)
    requires i < |x|
    ensures Encoded(x[i..]) == GroupAt(x, i) + if i + 3 <= |x| then Encoded(x[i + 3..]) else []
  {
    hide Code, Index0, Index1, Index2, Index3, Bits24, Sextet0, Sextet1, Sextet2, Sextet3;
    var y := x[i..];
    MasksAreSextets(x[i], if i + 1 < |x| then x[i + 1] else 0, if i + 2 < |x| then x[i + 2] else 0);
    assert |y| > 1 ==> y[1] == x[i + 1];
    assert |y| > 2 ==> y[2] == x[i + 2];
    if |y| >= 3 {
      assert y[3..] == x[i + 3..];
    }
  }

  lemma Zeroes(a: Byte, b: Byte, d: Byte)
    ensures Bits24(a, 0, 0) == (a as bv32) * 256 * 256
    ensures Bits24(a, b, 0) == ((a as bv32) * 256 + (b as bv32)) * 256
    ensures Bits24(a, b, d) == ((a as bv32) * 256 + (b as bv32)) * 256 + (d as bv32)
  {}

  /** The 24 bits of the group at place start, and the place behind it. */
  method ReadGroup(src: seq<Byte>, start: nat) returns (c: bv32, i: nat)
    requires start < |src|
    ensures i == start + 3
    ensures c == Bits24(src[start], if start + 1 < |src| then src[start + 1] else 0,
                        if start + 2 < |src| then src[start + 2] else 0)
  {
    hide Bits24;
    Zeroes(src[start], if start + 1 < |src| then src[start + 1] else 0,
           if start + 2 < |src| then src[start + 2] else 0);
    i := start;
    c := src[i] as bv32;
    i := i + 1;
    c := c * 256;
    if i < |src| {
      c := c + src[i] as bv32;
    }
    i := i + 1;
    c := c * 256;
    if i < |src| {
      c := c + src[i] as bv32;
    }
    i := i + 1;
  }

  /** The body of the loop of Encode: one group is written at place p. */
  method WriteGroup(src: seq<Byte>, start: nat, buf: array<Byte>, p: nat) returns (i: nat)
    requires start < |src| && p + 4 <= buf.Length
    modifies buf
    ensures i == start + 3
    ensures buf[..p + 4] == old(buf[..p]) + GroupAt(src, start)
  {
    hide Code, Index0, Index1, Index2, Index3, Bits24;
    var c: bv32;
    c, i := ReadGroup(src, start);
    buf[p], buf[p + 1], buf[p + 2], buf[p + 3] := Code(Index0(c)), Code(Index1(c)), Code(Index2(c)), Code(Index3(c));
    if i > |src| {
      buf[p + 3] := PAD;
    }
    if i > |src| + 1 {
      buf[p + 2] := PAD;
    }
  }

  /** There is room for each group, and for the zero behind the last. */
  lemma EncodeRoom(n: nat, g: nat)
    ensures 3 * g < n ==> 4 * g + 4 < EncodeLen(n)
    ensures 3 * g <= n + 2 ==> 4 * g < EncodeLen(n)
  {}

  method Encode(src: seq<Byte>) returns (ok: bool, dst: seq<Byte>)
    ensures ok <==> src != []
    ensures dst == Encoded(src)
  {
    hide Encoded, GroupAt, EncodeLen;
    NoneEncoded();
    if |src| == 0 {
      return false, [];
    }
    var buf := new Byte[EncodeLen(|src|)];
    var i, p := 0, 0;
    ghost var g, rest := 0, Encoded(src);
    assert src[0..] == src;
    EncodeRoom(|src|, 0);
    while i < |src|
      invariant i == 3 * g && p == 4 * g && i <= |src| + 2 && p < buf.Length
      invariant rest == if i <= |src| then Encoded(src[i..]) else []
      invariant Encoded(src) == buf[..p] + rest
    {
      Assemble(buf[..p], GroupAt(src, i), if i + 3 <= |src| then Encoded(src[i + 3..]) else []);
      EncodeRoom(|src|, g);
      EncodeRoom(|src|, g + 1);
      EncodedGroup(src, i);
      i := WriteGroup(src, i, buf, p);
      rest := if i <= |src| then Encoded(src[i..]) else [];
      p, g := p + 4, g + 1;
    }
    assert i <= |src| ==> src[i..] == [];
    assert rest == [];
    assert Encoded(src) == buf[..p];
    dst := Terminate(buf, p);
    ok := true;
  }

  /** The zero behind the text is not part of it. */
  method Terminate(buf: array<Byte>, p: nat) returns (dst: seq<Byte>)
    requires p < buf.Length
    modifies buf
    ensures dst == old(buf[..p])
  {
    buf[p] := 0;
    dst := buf[..p];
  }

  lemma Assemble(a: seq<Byte>, b: seq<Byte>, c: seq<Byte>)
    ensures a + (b + c) == (a + b) + c
  {}

  lemma NoneEncoded()
    ensures Encoded([]) == []
  {}

  /** The most bytes that can have been written before character i. */
  function Written(i: nat): (r: nat) {
    i / 4 * 3 + if i % 4 == 0 then 0 else i % 4 - 1
  }

  /** The next byte, if any, is written within Base64DecodeLen. */
  lemma WriteBound(i: nat, n: nat)
    requires i < n
    ensures Written(i) < DecodeLen(n) && Written(i + 1) == if i % 4 == 0 then Written(i) else Written(i) + 1
  {}

  lemma Regroup(a: seq<Byte>, x: Byte, b: seq<Byte>)
    ensures a + ([x] + b) == (a + [x]) + b
  {}

  /** Decode, for any string; every byte is written within Base64DecodeLen. */
  method Decode(src: seq<Byte>) returns (ok: bool, dst: seq<Byte>)
    ensures ok <==> src != []
    ensures dst == DecodedFrom(src, 0, 0) && |dst| <= DecodeLen(|src|)
  {
    hide Chr2Base, Keep, Emit, DecodedFrom, Written, DecodeLen;
    if |src| == 0 {
      DecodedStop(src, 0, 0);
      return false, [];
    }
    var buf := new Byte[DecodeLen(|src|)];
    var i, p, t: Byte := 0, 0, 0;
    ghost var rest := DecodedFrom(src, 0, 0);
    NoneWritten();
    while i < |src| && src[i] != PAD && src[i] != 0
      invariant 0 <= i <= |src| && 0 <= p <= Written(i) && p <= buf.Length
      invariant DecodedFrom(src, 0, 0) == buf[..p] + rest && rest == DecodedFrom(src, i, t)
    {
      WriteBound(i, |src|);
      DecodedRound(src, i, t);
      var c := Chr2Base(src[i]);
      if c != 64 {
        if i % 4 != 0 {
          var b := Emit(t, c, i % 4);
          ghost var done := buf[..p];
          buf[p] := b;
          assert buf[..p + 1] == done + [b];
          Regroup(done, b, DecodedFrom(src, i + 1, Keep(t, c, i % 4)));
          p := p + 1;
        }
        t := Keep(t, c, i % 4);
      }
      i := i + 1;
      rest := DecodedFrom(src, i, t);
    }
    if i < |src| {
      DecodedRound(src, i, t);
    } else {
      DecodedStop(src, i, t);
    }
    dst := buf[..p];
    assert dst + [] == dst;
    ok := true;
  }

  lemma NoneWritten()
    ensures Written(0) == 0
  {}

  // ------------------------------------------------------------------
  // Decoding any string
  // ------------------------------------------------------------------

  /** Decode stops at the first padding or zero: what comes behind does not matter. */
  lemma {:induction false} DecodedPrefix(s: seq<Byte>, n: nat, i: nat, t: Byte)
    requires i <= n < |s| && (s[n] == PAD || s[n] == 0)
    ensures DecodedFrom(s, i, t) == DecodedFrom(s[..n], i, t)
    decreases n - i
  {
    hide Chr2Base, Keep, Emit, DecodedFrom;
    DecodedRound(s, i, t);
    if i == n {
      NothingLeft(s[..n], i, t);
    } else {
      DecodedRound(s[..n], i, t);
      var c := Chr2Base(s[i]);
      DecodedPrefix(s, n, i + 1, t);
      DecodedPrefix(s, n, i + 1, Keep(t, c, i % 4));
      DecodedPrefix(s, n, i + 1, Keep(t, c, 0));
    }
  }

  /** Characters outside the alphabet give no byte and keep no bits; but their places count. */
  lemma {:induction false} InvalidSkipped(s: seq<Byte>, i: nat, n: nat, t: Byte)
    requires i <= n <= |s| && forall j | i <= j < n :: !Valid(s[j]) && s[j] != PAD && s[j] != 0
    ensures DecodedFrom(s, i, t) == DecodedFrom(s, n, t)
    decreases n - i
  {
    hide Keep, Emit, DecodedFrom, Chr2Base, Valid;
    if i < n {
      DecodedRound(s, i, t);
      InvalidIs(s[i]);
      InvalidSkipped(s, i + 1, n, t);
    }
  }

  lemma InvalidIs(c: Byte)
    requires !Valid(c) && c != PAD
    ensures Chr2Base(c) == 64
  {}

  /** How many of the places from i up to the first padding or zero hold a character of the
      alphabet and are not the first of a group. */
  function Given(s: seq<Byte>, i: nat): (r: nat)
    decreases |s| - i
  {
    if i >= |s| || s[i] == PAD || s[i] == 0 then 0
    else Given(s, i + 1) + if Valid(s[i]) && i % 4 != 0 then 1 else 0
  }

  /** Every such place gives one byte, and no other does. */
  lemma {:induction false} BytesGiven(s: seq<Byte>, i: nat, t: Byte)
    ensures |DecodedFrom(s, i, t)| == Given(s, i)
    decreases |s| - i
  {
    hide Keep, Emit, DecodedFrom, Chr2Base, Valid;
    if i >= |s| {
      NothingLeft(s, i, t);
    } else {
      DecodedRound(s, i, t);
      if s[i] != PAD && s[i] != 0 {
        var c := Chr2Base(s[i]);
        ValidIs(s[i]);
        BytesGiven(s, i + 1, t);
        BytesGiven(s, i + 1, Keep(t, c, 0));
        BytesGiven(s, i + 1, Keep(t, c, i % 4));
      }
    }
  }

  lemma ValidIs(c: Byte)
    requires c != PAD
    ensures Valid(c) <==> Chr2Base(c) != 64
  {}
}

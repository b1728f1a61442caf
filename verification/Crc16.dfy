/** CRC-16/XMODEM: the table, the loop over it, and division of polynomials. */
module Crc16 {
  import opened Basics

  // ------------------------------------------------------------------
  // The table of the client
  // ------------------------------------------------------------------

  function Row0(i: bv16): (r: bv16) {
    if i == 0 then 0x0000 else if i == 1 then 0x1021 else if i == 2 then 0x2042 else if i == 3 then 0x3063 else
    if i == 4 then 0x4084 else if i == 5 then 0x50a5 else if i == 6 then 0x60c6 else if i == 7 then 0x70e7 else
    if i == 8 then 0x8108 else if i == 9 then 0x9129 else if i == 10 then 0xa14a else if i == 11 then 0xb16b else
    if i == 12 then 0xc18c else if i == 13 then 0xd1ad else if i == 14 then 0xe1ce else 0xf1ef
  }

  function Row1(i: bv16): (r: bv16) {
    if i == 16 then 0x1231 else if i == 17 then 0x0210 else if i == 18 then 0x3273 else if i == 19 then 0x2252 else
    if i == 20 then 0x52b5 else if i == 21 then 0x4294 else if i == 22 then 0x72f7 else if i == 23 then 0x62d6 else
    if i == 24 then 0x9339 else if i == 25 then 0x8318 else if i == 26 then 0xb37b else if i == 27 then 0xa35a else
    if i == 28 then 0xd3bd else if i == 29 then 0xc39c else if i == 30 then 0xf3ff else 0xe3de
  }

  function Row2(i: bv16): (r: bv16) {
    if i == 32 then 0x2462 else if i == 33 then 0x3443 else if i == 34 then 0x0420 else if i == 35 then 0x1401 else
    if i == 36 then 0x64e6 else if i == 37 then 0x74c7 else if i == 38 then 0x44a4 else if i == 39 then 0x5485 else
    if i == 40 then 0xa56a else if i == 41 then 0xb54b else if i == 42 then 0x8528 else if i == 43 then 0x9509 else
    if i == 44 then 0xe5ee else if i == 45 then 0xf5cf else if i == 46 then 0xc5ac else 0xd58d
  }

  function Row3(i: bv16): (r: bv16) {
    if i == 48 then 0x3653 else if i == 49 then 0x2672 else if i == 50 then 0x1611 else if i == 51 then 0x0630 else
    if i == 52 then 0x76d7 else if i == 53 then 0x66f6 else if i == 54 then 0x5695 else if i == 55 then 0x46b4 else
    if i == 56 then 0xb75b else if i == 57 then 0xa77a else if i == 58 then 0x9719 else if i == 59 then 0x8738 else
    if i == 60 then 0xf7df else if i == 61 then 0xe7fe else if i == 62 then 0xd79d else 0xc7bc
  }

  function Row4(i: bv16): (r: bv16) {
    if i == 64 then 0x48c4 else if i == 65 then 0x58e5 else if i == 66 then 0x6886 else if i == 67 then 0x78a7 else
    if i == 68 then 0x0840 else if i == 69 then 0x1861 else if i == 70 then 0x2802 else if i == 71 then 0x3823 else
    if i == 72 then 0xc9cc else if i == 73 then 0xd9ed else if i == 74 then 0xe98e else if i == 75 then 0xf9af else
    if i == 76 then 0x8948 else if i == 77 then 0x9969 else if i == 78 then 0xa90a else 0xb92b
  }

  function Row5(i: bv16): (r: bv16) {
    if i == 80 then 0x5af5 else if i == 81 then 0x4ad4 else if i == 82 then 0x7ab7 else if i == 83 then 0x6a96 else
    if i == 84 then 0x1a71 else if i == 85 then 0x0a50 else if i == 86 then 0x3a33 else if i == 87 then 0x2a12 else
    if i == 88 then 0xdbfd else if i == 89 then 0xcbdc else if i == 90 then 0xfbbf else if i == 91 then 0xeb9e else
    if i == 92 then 0x9b79 else if i == 93 then 0x8b58 else if i == 94 then 0xbb3b else 0xab1a
  }

  function Row6(i: bv16): (r: bv16) {
    if i == 96 then 0x6ca6 else if i == 97 then 0x7c87 else if i == 98 then 0x4ce4 else if i == 99 then 0x5cc5 else
    if i == 100 then 0x2c22 else if i == 101 then 0x3c03 else if i == 102 then 0x0c60 else if i == 103 then 0x1c41 else
    if i == 104 then 0xedae else if i == 105 then 0xfd8f else if i == 106 then 0xcdec else if i == 107 then 0xddcd else
    if i == 108 then 0xad2a else if i == 109 then 0xbd0b else if i == 110 then 0x8d68 else 0x9d49
  }

  function Row7(i: bv16): (r: bv16) {
    if i == 112 then 0x7e97 else if i == 113 then 0x6eb6 else if i == 114 then 0x5ed5 else if i == 115 then 0x4ef4 else
    if i == 116 then 0x3e13 else if i == 117 then 0x2e32 else if i == 118 then 0x1e51 else if i == 119 then 0x0e70 else
    if i == 120 then 0xff9f else if i == 121 then 0xefbe else if i == 122 then 0xdfdd else if i == 123 then 0xcffc else
    if i == 124 then 0xbf1b else if i == 125 then 0xaf3a else if i == 126 then 0x9f59 else 0x8f78
  }

  function Row8(i: bv16): (r: bv16) {
    if i == 128 then 0x9188 else if i == 129 then 0x81a9 else if i == 130 then 0xb1ca else if i == 131 then 0xa1eb else
    if i == 132 then 0xd10c else if i == 133 then 0xc12d else if i == 134 then 0xf14e else if i == 135 then 0xe16f else
    if i == 136 then 0x1080 else if i == 137 then 0x00a1 else if i == 138 then 0x30c2 else if i == 139 then 0x20e3 else
    if i == 140 then 0x5004 else if i == 141 then 0x4025 else if i == 142 then 0x7046 else 0x6067
  }

  function Row9(i: bv16): (r: bv16) {
    if i == 144 then 0x83b9 else if i == 145 then 0x9398 else if i == 146 then 0xa3fb else if i == 147 then 0xb3da else
    if i == 148 then 0xc33d else if i == 149 then 0xd31c else if i == 150 then 0xe37f else if i == 151 then 0xf35e else
    if i == 152 then 0x02b1 else if i == 153 then 0x1290 else if i == 154 then 0x22f3 else if i == 155 then 0x32d2 else
    if i == 156 then 0x4235 else if i == 157 then 0x5214 else if i == 158 then 0x6277 else 0x7256
  }

  function RowA(i: bv16): (r: bv16) {
    if i == 160 then 0xb5ea else if i == 161 then 0xa5cb else if i == 162 then 0x95a8 else if i == 163 then 0x8589 else
    if i == 164 then 0xf56e else if i == 165 then 0xe54f else if i == 166 then 0xd52c else if i == 167 then 0xc50d else
    if i == 168 then 0x34e2 else if i == 169 then 0x24c3 else if i == 170 then 0x14a0 else if i == 171 then 0x0481 else
    if i == 172 then 0x7466 else if i == 173 then 0x6447 else if i == 174 then 0x5424 else 0x4405
  }

  function RowB(i: bv16): (r: bv16) {
    if i == 176 then 0xa7db else if i == 177 then 0xb7fa else if i == 178 then 0x8799 else if i == 179 then 0x97b8 else
    if i == 180 then 0xe75f else if i == 181 then 0xf77e else if i == 182 then 0xc71d else if i == 183 then 0xd73c else
    if i == 184 then 0x26d3 else if i == 185 then 0x36f2 else if i == 186 then 0x0691 else if i == 187 then 0x16b0 else
    if i == 188 then 0x6657 else if i == 189 then 0x7676 else if i == 190 then 0x4615 else 0x5634
  }

  function RowC(i: bv16): (r: bv16) {
    if i == 192 then 0xd94c else if i == 193 then 0xc96d else if i == 194 then 0xf90e else if i == 195 then 0xe92f else
    if i == 196 then 0x99c8 else if i == 197 then 0x89e9 else if i == 198 then 0xb98a else if i == 199 then 0xa9ab else
    if i == 200 then 0x5844 else if i == 201 then 0x4865 else if i == 202 then 0x7806 else if i == 203 then 0x6827 else
    if i == 204 then 0x18c0 else if i == 205 then 0x08e1 else if i == 206 then 0x3882 else 0x28a3
  }

  function RowD(i: bv16): (r: bv16) {
    if i == 208 then 0xcb7d else if i == 209 then 0xdb5c else if i == 210 then 0xeb3f else if i == 211 then 0xfb1e else
    if i == 212 then 0x8bf9 else if i == 213 then 0x9bd8 else if i == 214 then 0xabbb else if i == 215 then 0xbb9a else
    if i == 216 then 0x4a75 else if i == 217 then 0x5a54 else if i == 218 then 0x6a37 else if i == 219 then 0x7a16 else
    if i == 220 then 0x0af1 else if i == 221 then 0x1ad0 else if i == 222 then 0x2ab3 else 0x3a92
  }

  function RowE(i: bv16): (r: bv16) {
    if i == 224 then 0xfd2e else if i == 225 then 0xed0f else if i == 226 then 0xdd6c else if i == 227 then 0xcd4d else
    if i == 228 then 0xbdaa else if i == 229 then 0xad8b else if i == 230 then 0x9de8 else if i == 231 then 0x8dc9 else
    if i == 232 then 0x7c26 else if i == 233 then 0x6c07 else if i == 234 then 0x5c64 else if i == 235 then 0x4c45 else
    if i == 236 then 0x3ca2 else if i == 237 then 0x2c83 else if i == 238 then 0x1ce0 else 0x0cc1
  }

  function RowF(i: bv16): (r: bv16) {
    if i == 240 then 0xef1f else if i == 241 then 0xff3e else if i == 242 then 0xcf5d else if i == 243 then 0xdf7c else
    if i == 244 then 0xaf9b else if i == 245 then 0xbfba else if i == 246 then 0x8fd9 else if i == 247 then 0x9ff8 else
    if i == 248 then 0x6e17 else if i == 249 then 0x7e36 else if i == 250 then 0x4e55 else if i == 251 then 0x5e74 else
    if i == 252 then 0x2e93 else if i == 253 then 0x3eb2 else if i == 254 then 0x0ed1 else 0x1ef0
  }

  /** crc16Table */
  function Table(i: bv16): (r: bv16)
    requires i < 256
  {
    if i < 16 then Row0(i) else
    if i < 32 then Row1(i) else
    if i < 48 then Row2(i) else
    if i < 64 then Row3(i) else
    if i < 80 then Row4(i) else
    if i < 96 then Row5(i) else
    if i < 112 then Row6(i) else
    if i < 128 then Row7(i) else
    if i < 144 then Row8(i) else
    if i < 160 then Row9(i) else
    if i < 176 then RowA(i) else
    if i < 192 then RowB(i) else
    if i < 208 then RowC(i) else
    if i < 224 then RowD(i) else
    if i < 240 then RowE(i) else
    RowF(i)
  }

  // ------------------------------------------------------------------
  // One bit at a time
  // ------------------------------------------------------------------

  /** Addition of polynomials. */
  function Xor(a: bv16, b: bv16): (r: bv16) {
    a ^ b
  }

  /** Multiplication by x, modulo x^16 + x^12 + x^5 + 1. */
  function Shift1(r: bv16): (s: bv16) {
    Xor(r << 1, if r & 0x8000 == 0x8000 then 0x1021 else 0)
  }

  function Shift8(r: bv16): (s: bv16) {
    Shift1(Shift1(Shift1(Shift1(Shift1(Shift1(Shift1(Shift1(r))))))))
  }

  lemma FirstPart(i: bv16)
    requires 0 <= i < 32
    ensures Table(i) == Shift8(i << 8)
  {}

  lemma SecondPart(i: bv16)
    requires 32 <= i < 64
    ensures Table(i) == Shift8(i << 8)
  {}

  lemma ThirdPart(i: bv16)
    requires 64 <= i < 96
    ensures Table(i) == Shift8(i << 8)
  {}

  lemma FourthPart(i: bv16)
    requires 96 <= i < 128
    ensures Table(i) == Shift8(i << 8)
  {}

  lemma FifthPart(i: bv16)
    requires 128 <= i < 160
    ensures Table(i) == Shift8(i << 8)
  {}

  lemma SixthPart(i: bv16)
    requires 160 <= i < 192
    ensures Table(i) == Shift8(i << 8)
  {}

  lemma SeventhPart(i: bv16)
    requires 192 <= i < 224
    ensures Table(i) == Shift8(i << 8)
  {}

  lemma EighthPart(i: bv16)
    requires 224 <= i < 256
    ensures Table(i) == Shift8(i << 8)
  {}

  /** Every entry of the table is its index, divided one bit at a time. */
  lemma TableRight(i: bv16)
    requires i < 256
    ensures Table(i) == Shift8(i << 8)
  {
    hide Table, Shift8;
    if i < 32 {
      FirstPart(i);
    } else if i < 64 {
      SecondPart(i);
    } else if i < 96 {
      ThirdPart(i);
    } else if i < 128 {
      FourthPart(i);
    } else if i < 160 {
      FifthPart(i);
    } else if i < 192 {
      SixthPart(i);
    } else if i < 224 {
      SeventhPart(i);
    } else {
      EighthPart(i);
    }
  }

  // ------------------------------------------------------------------
  // The loop of the client
  // ------------------------------------------------------------------

  /** The register after one more byte, divided one bit at a time. */
  function AddByte(crc: bv16, b: Byte): (r: bv16) {
    Shift8(Xor(crc, (b as bv16) << 8))
  }

  /** The bit-by-bit checksum of data, from register crc on. */
  function BitCrc(crc: bv16, data: seq<Byte>): (r: bv16) {
    if data == [] then crc else AddByte(BitCrc(crc, data[..|data| - 1]), data[|data| - 1])
  }

  lemma XorCommutes(a: bv16, b: bv16)
    ensures Xor(a, b) == Xor(b, a)
  {}

  lemma XorAssociates(a: bv16, b: bv16, c: bv16)
    ensures Xor(Xor(a, b), c) == Xor(a, Xor(b, c))
  {}

  lemma XorSelf(a: bv16)
    ensures Xor(a, a) == 0 && Xor(a, 0) == a
  {}

  /** Adding g to either operand adds it to the sum, adding it to both does not. */
  lemma XorMoves(a: bv16, b: bv16, g: bv16)
    ensures Xor(Xor(a, g), b) == Xor(a, Xor(b, g)) == Xor(Xor(a, b), g)
    ensures Xor(Xor(a, g), Xor(b, g)) == Xor(a, b)
  {
    hide Xor;
    XorAssociates(a, g, b);
    XorAssociates(a, b, g);
    XorAssociates(a, g, Xor(b, g));
    XorAssociates(g, g, b);
    XorCommutes(g, b);
    XorCommutes(0, b);
    XorSelf(g);
    XorSelf(b);
  }

  lemma TopXor(a: bv16, b: bv16)
    ensures Xor(a, b) & 0x8000 == 0x8000 <==> (a & 0x8000 == 0x8000) != (b & 0x8000 == 0x8000)
  {}

  lemma RawShift(a: bv16, b: bv16)
    ensures (a ^ b) << 1 == (a << 1) ^ (b << 1)
  {}

  lemma XorIs(a: bv16, b: bv16)
    ensures Xor(a, b) == a ^ b
  {}

  lemma ShiftXor(a: bv16, b: bv16)
    ensures Xor(a, b) << 1 == Xor(a << 1, b << 1)
  {
    hide Xor;
    XorIs(a, b);
    XorIs(a << 1, b << 1);
    RawShift(a, b);
  }

  lemma Shift1Linear(a: bv16, b: bv16)
    ensures Shift1(Xor(a, b)) == Xor(Shift1(a), Shift1(b))
  {
    hide Xor;
    TopXor(a, b);
    ShiftXor(a, b);
    var x, y := a << 1, b << 1;
    XorMoves(x, y, 0x1021);
    XorSelf(x);
    XorSelf(y);
    XorSelf(Xor(x, y));
  }

  lemma Shift8Linear(a: bv16, b: bv16)
    ensures Shift8(Xor(a, b)) == Xor(Shift8(a), Shift8(b))
  {
    hide Shift1, Xor;
    var x, y := a, b;
    Shift1Linear(x, y);
    x, y := Shift1(x), Shift1(y);
    Shift1Linear(x, y);
    x, y := Shift1(x), Shift1(y);
    Shift1Linear(x, y);
    x, y := Shift1(x), Shift1(y);
    Shift1Linear(x, y);
    x, y := Shift1(x), Shift1(y);
    Shift1Linear(x, y);
    x, y := Shift1(x), Shift1(y);
    Shift1Linear(x, y);
    x, y := Shift1(x), Shift1(y);
    Shift1Linear(x, y);
    x, y := Shift1(x), Shift1(y);
    Shift1Linear(x, y);
  }

  lemma IndexIs(crc: bv16, b: Byte)
    ensures Index(crc, b) == ((crc >> 8) ^ (b as bv16)) & 0x00FF && b as bv16 < 256
  {}

  /** What the register and the byte look like before the eight shifts. */
  lemma StepParts(crc: bv16, b: bv16, i: bv16)
    requires b < 256 && i == ((crc >> 8) ^ b) & 0x00FF
    ensures Xor(i << 8, crc & 0x00FF) == Xor(crc, b << 8)
    ensures (crc & 0x00FF) << 8 == crc << 8 && crc & 0x00FF < 256
  {}

  lemma LowByteShifts(y: bv16)
    requires y < 256
    ensures Shift8(y) == y << 8
  {}

  /** The index of the client's loop is within the table. */
  function Index(crc: bv16, b: Byte): (i: bv16)
    ensures i < 256
  {
    ((crc >> 8) ^ (b as bv16)) & 0x00FF
  }

  lemma StepRight(crc: bv16, b: bv16, i: bv16)
    requires b < 256 && i < 256 && i == ((crc >> 8) ^ b) & 0x00FF
    ensures Xor(crc << 8, Table(i)) == Shift8(Xor(crc, b << 8))
  {
    hide Table, Shift8, Xor;
    StepParts(crc, b, i);
    var l := crc & 0x00FF;
    TableRight(i);
    LowByteShifts(l);
    Shift8Linear(i << 8, l);
    XorCommutes(Table(i), crc << 8);
  }

  /** The step of the client's loop is eight steps of the division. */
  lemma TableStep(crc: bv16, b: Byte)
    ensures Xor(crc << 8, Table(Index(crc, b))) == AddByte(crc, b)
  {
    hide Table, Shift8, Xor, Index;
    IndexIs(crc, b);
    StepRight(crc, b as bv16, Index(crc, b));
  }

  /** CRC16 */
  method Compute(data: seq<Byte>) returns (crc: bv16)
    ensures crc == BitCrc(0, data)
  {
    hide Table, AddByte, Index, Xor;
    crc := 0;
    for i := 0 to |data|
      invariant crc == BitCrc(0, data[..i])
    {
      assert data[..i + 1][..i] == data[..i];
      TableStep(crc, data[i]);
      XorIs(crc << 8, Table(Index(crc, data[i])));
      crc := (crc << 8) ^ Table(Index(crc, data[i]));
    }
    assert data[..|data|] == data;
  }

  // ------------------------------------------------------------------
  // Division of polynomials
  // ------------------------------------------------------------------

  /** The coefficient of x^i in the polynomial whose coefficients are s, highest first. */
  predicate Coef(s: seq<bool>, i: int) {
    0 <= i < |s| && s[|s| - 1 - i]
  }

  function Mask(i: int): (r: bv16)
    requires 0 <= i < 16
  {
    if i == 0 then 0x0001 else if i == 1 then 0x0002 else if i == 2 then 0x0004 else if i == 3 then 0x0008 else
    if i == 4 then 0x0010 else if i == 5 then 0x0020 else if i == 6 then 0x0040 else if i == 7 then 0x0080 else
    if i == 8 then 0x0100 else if i == 9 then 0x0200 else if i == 10 then 0x0400 else if i == 11 then 0x0800 else
    if i == 12 then 0x1000 else if i == 13 then 0x2000 else if i == 14 then 0x4000 else 0x8000
  }

  predicate Has(r: bv16, mask: bv16) {
    r & mask != 0
  }

  /** The coefficient of x^i in the polynomial in a register. */
  predicate Bit(r: bv16, i: int) {
    0 <= i < 16 && Has(r, Mask(i))
  }

  /** The coefficient of x^i in the product of q and x^16 + x^12 + x^5 + 1. */
  predicate Product(q: seq<bool>, i: int) {
    ((Coef(q, i) != Coef(q, i - 5)) != Coef(q, i - 12)) != Coef(q, i - 16)
  }

  datatype Division = Division(quotient: seq<bool>, remainder: bv16)

  /** The next coefficient is brought down. */
  function Feed(r: bv16, b: bool): (s: bv16) {
    Xor(Shift1(r), if b then 1 else 0)
  }

  /** Long division by x^16 + x^12 + x^5 + 1. */
  function Divide(p: seq<bool>): (d: Division) {
    if p == [] then Division([], 0)
    else
      var d := Divide(p[..|p| - 1]);
      Division(d.quotient + [Bit(d.remainder, 15)], Feed(d.remainder, p[|p| - 1]))
  }

  predicate OneBit(mask: bv16) {
    mask != 0 && mask & (mask - 1) == 0
  }

  lemma MaskOneBit(i: int)
    requires 0 <= i < 16
    ensures OneBit(Mask(i)) && (i > 0 ==> Mask(i) == Mask(i - 1) << 1)
  {}

  lemma HasXor(a: bv16, b: bv16, mask: bv16)
    requires OneBit(mask)
    ensures Has(a ^ b, mask) <==> Has(a, mask) != Has(b, mask)
  {}

  lemma HasShift(a: bv16, mask: bv16, next: bv16)
    requires OneBit(mask) && next == mask << 1 && next != 0
    ensures Has(a << 1, next) <==> Has(a, mask)
  {}

  lemma HasLow(a: bv16)
    ensures !Has(a << 1, 1)
  {}

  lemma BitXor(a: bv16, b: bv16, i: int)
    ensures Bit(Xor(a, b), i) == (Bit(a, i) != Bit(b, i))
  {
    hide Xor, Mask, Has, OneBit;
    if 0 <= i < 16 {
      MaskOneBit(i);
      XorIs(a, b);
      HasXor(a, b, Mask(i));
    }
  }

  lemma BitShift(a: bv16, i: int)
    ensures Bit(a << 1, i) == (i < 16 && Bit(a, i - 1))
  {
    hide Mask, Has;
    if i == 0 {
      LowMask();
      HasLow(a);
    } else if 0 < i < 16 {
      MaskOneBit(i);
      MaskOneBit(i - 1);
      HasShift(a, Mask(i - 1), Mask(i));
    }
  }

  lemma LowMask()
    ensures Mask(0) == 1
  {}

  /** The bits of the constants in a step of the division. */
  lemma BitConstants(i: int)
    ensures !Bit(0, i) && Bit(1, i) == (i == 0) && Bit(0x1021, i) == (i == 0 || i == 5 || i == 12)
  {}

  lemma TopBit(a: bv16)
    ensures Bit(a, 15) == (a & 0x8000 == 0x8000)
  {}

  lemma FeedBits(r: bv16, b: bool, i: int)
    ensures Bit(Feed(r, b), i) ==
            (if i == 0 then b != Bit(r, 15)
             else if i == 5 || i == 12 then Bit(r, i - 1) != Bit(r, 15)
             else i < 16 && Bit(r, i - 1))
  {
    hide Bit, Xor;
    var low: bv16 := if b then 1 else 0;
    var g: bv16 := if r & 0x8000 == 0x8000 then 0x1021 else 0;
    TopBit(r);
    BitXor(Shift1(r), low, i);
    BitXor(r << 1, g, i);
    BitShift(r, i);
    BitConstants(i);
    Outside(r, -1);
  }

  lemma Outside(r: bv16, i: int)
    requires !(0 <= i < 16)
    ensures !Bit(r, i)
  {}

  /** Dividend equals divisor times quotient plus remainder. */
  lemma {:induction false} DivideRight(p: seq<bool>, i: int)
    ensures |Divide(p).quotient| == |p|
    ensures Coef(p, i) == (Product(Divide(p).quotient, i) != Bit(Divide(p).remainder, i))
  {
    hide Bit, Feed, Coef;
    CoefBelow([]);
    NoCoef();
    if p == [] {
      BitConstants(i);
    } else {
      var d, b := Divide(p[..|p| - 1]), p[|p| - 1];
      DivideRight(p[..|p| - 1], i - 1);
      FeedBits(d.remainder, b, i);
      assert p == p[..|p| - 1] + [b];
      CoefAppend(p[..|p| - 1], b, i);
      var t := Bit(d.remainder, 15);
      CoefAppend(d.quotient, t, i);
      CoefAppend(d.quotient, t, i - 5);
      CoefAppend(d.quotient, t, i - 12);
      CoefAppend(d.quotient, t, i - 16);
      CoefBelow(p);
      CoefBelow(d.quotient);
      if !(0 <= i - 1 < 16) {
        Outside(d.remainder, i - 1);
      }
    }
  }

  lemma CoefAppend(s: seq<bool>, b: bool, i: int)
    ensures Coef(s + [b], i) == if i == 0 then b else Coef(s, i - 1)
  {}

  lemma NoCoef()
    ensures forall i :: !Coef([], i)
  {}

  lemma CoefBelow(s: seq<bool>)
    ensures forall i | i < 0 :: !Coef(s, i)
  {}

  // ------------------------------------------------------------------
  // The checksum is the remainder of the message times x^16
  // ------------------------------------------------------------------

  function Times(n: nat, r: bv16): (s: bv16) {
    if n == 0 then r else Shift1(Times(n - 1, r))
  }

  lemma {:induction false} TimesLinear(n: nat, a: bv16, b: bv16)
    ensures Times(n, Xor(a, b)) == Xor(Times(n, a), Times(n, b))
  {
    hide Shift1, Xor;
    if n > 0 {
      TimesLinear(n - 1, a, b);
      Shift1Linear(Times(n - 1, a), Times(n - 1, b));
    }
  }

  lemma {:induction false} TimesShift(n: nat, r: bv16)
    ensures Times(n, Shift1(r)) == Shift1(Times(n, r))
  {
    hide Shift1;
    if n > 0 {
      TimesShift(n - 1, r);
    }
  }

  lemma TimesConstants()
    ensures Times(16, 1) == 0x1021 && Times(16, 0) == 0
    ensures Shift1(0x8000) == 0x1021 && Shift1(0) == 0
  {
    assert Times(4, 1) == 0x0010 && Times(4, 0) == 0;
    assert Times(8, 1) == 0x0100 && Times(8, 0) == 0;
    assert Times(12, 1) == 0x1000 && Times(12, 0) == 0;
  }

  /** The register after one more bit of the message, which enters at the top. */
  function AddBit(u: bv16, b: bool): (r: bv16) {
    Shift1(Xor(u, if b then 0x8000 else 0))
  }

  function AddBits(u: bv16, p: seq<bool>): (r: bv16) {
    if p == [] then u else AddBit(AddBits(u, p[..|p| - 1]), p[|p| - 1])
  }

  /** Bits that enter at the top are sixteen shifts ahead of long division. */
  lemma {:induction false} AddBitsAhead(p: seq<bool>)
    ensures AddBits(0, p) == Times(16, Divide(p).remainder)
  {
    hide Shift1, Xor, Times;
    TimesConstants();
    if p != [] {
      var r, b := Divide(p[..|p| - 1]).remainder, p[|p| - 1];
      AddBitsAhead(p[..|p| - 1]);
      TimesLinear(16, Shift1(r), if b then 1 else 0);
      TimesShift(16, r);
      Shift1Linear(Times(16, r), if b then 0x8000 else 0);
    }
  }

  function Zeros(n: nat): (r: seq<bool>) {
    seq(n, _ => false)
  }

  lemma {:induction false} DivideZeros(p: seq<bool>, n: nat)
    ensures Divide(p + Zeros(n)).remainder == Times(n, Divide(p).remainder)
  {
    hide Shift1, Xor;
    var q := p + Zeros(n);
    if n == 0 {
      assert q == p;
    } else {
      assert q[..|q| - 1] == p + Zeros(n - 1) && !q[|q| - 1];
      DivideZeros(p, n - 1);
      XorSelf(Shift1(Times(n - 1, Divide(p).remainder)));
    }
  }

  /** The bits of a byte, highest first. */
  function ByteBits(b: Byte): (r: seq<bool>) {
    [b & 0x80 != 0, b & 0x40 != 0, b & 0x20 != 0, b & 0x10 != 0,
     b & 0x08 != 0, b & 0x04 != 0, b & 0x02 != 0, b & 0x01 != 0]
  }

  function AllBits(data: seq<Byte>): (r: seq<bool>) {
    if data == [] then [] else AllBits(data[..|data| - 1]) + ByteBits(data[|data| - 1])
  }

  lemma {:induction false} AddBitsConcat(u: bv16, p: seq<bool>, q: seq<bool>)
    ensures AddBits(u, p + q) == AddBits(AddBits(u, p), q)
  {
    if q == [] {
      assert p + q == p;
    } else {
      AddBitsConcat(u, p, q[..|q| - 1]);
      assert (p + q)[..|p + q| - 1] == p + q[..|q| - 1];
    }
  }

  function Top(y: bv16): (r: bv16) {
    if Has(y, 0x8000) then 0x8000 else 0
  }

  function Rest(y: bv16): (r: bv16) {
    y & 0x7FFF
  }

  lemma RawTop(y: bv16, t: bv16, l: bv16)
    requires t == (if y & 0x8000 != 0 then 0x8000 else 0) && l == y & 0x7FFF
    ensures t ^ l == y
  {
    assert (y & 0x8000) ^ (y & 0x7FFF) == y;
    assert y & 0x8000 == 0 || y & 0x8000 == 0x8000;
  }

  lemma TopIs(y: bv16)
    ensures Top(y) == (if y & 0x8000 != 0 then 0x8000 else 0) && Rest(y) == y & 0x7FFF
  {}

  lemma TopAndRest(y: bv16)
    ensures Xor(Top(y), Rest(y)) == y
  {
    hide Xor, Top, Rest;
    TopIs(y);
    RawTop(y, Top(y), Rest(y));
    XorIs(Top(y), Rest(y));
  }

  lemma RestIs(y: bv16)
    ensures Rest(y) & 0x8000 == 0 && Rest(y) << 1 == y << 1
  {}

  lemma RestShifts(y: bv16)
    ensures Shift1(Rest(y)) == y << 1
  {
    hide Xor, Rest;
    RestIs(y);
    XorSelf(y << 1);
  }

  /** Shifting a register and a message together shifts the top bit of the message in. */
  lemma Peel(u: bv16, y: bv16)
    ensures Shift1(Xor(u, y)) == Xor(AddBit(u, Has(y, 0x8000)), y << 1)
  {
    hide Xor, Has, Shift1, Rest;
    TopAndRest(y);
    RestShifts(y);
    XorAssociates(u, Top(y), Rest(y));
    Shift1Linear(Xor(u, Top(y)), Rest(y));
  }

  lemma TopBits(b: Byte, y: bv16)
    requires y == (b as bv16) << 8
    ensures Has(y, 0x8000) <==> b & 0x80 != 0
    ensures Has(y << 1, 0x8000) <==> b & 0x40 != 0
    ensures Has(y << 2, 0x8000) <==> b & 0x20 != 0
    ensures Has(y << 3, 0x8000) <==> b & 0x10 != 0
    ensures Has(y << 4, 0x8000) <==> b & 0x08 != 0
    ensures Has(y << 5, 0x8000) <==> b & 0x04 != 0
    ensures Has(y << 6, 0x8000) <==> b & 0x02 != 0
    ensures Has(y << 7, 0x8000) <==> b & 0x01 != 0
    ensures y << 8 == 0
  {}

  lemma AddBitsStep(u: bv16, p: seq<bool>, k: nat)
    requires k < |p|
    ensures AddBits(u, p[..k + 1]) == AddBit(AddBits(u, p[..k]), p[k])
  {
    assert p[..k + 1][..k] == p[..k];
  }

  lemma ShiftsAdd(y: bv16)
    ensures (y << 1) << 1 == y << 2 && (y << 2) << 1 == y << 3 && (y << 3) << 1 == y << 4
    ensures (y << 4) << 1 == y << 5 && (y << 5) << 1 == y << 6 && (y << 6) << 1 == y << 7
    ensures (y << 7) << 1 == y << 8
  {}

  /** A byte entered at once is the byte entered bit by bit. */
  lemma ByteIsBits(u: bv16, b: Byte)
    ensures AddByte(u, b) == AddBits(u, ByteBits(b))
  {
    hide Xor, Has, Shift1, AddBit, AddBits;
    var y := (b as bv16) << 8;
    var p := ByteBits(b);
    TopBits(b, y);
    ShiftsAdd(y);
    var v := u;
    NoneAdded(u, p);
    Peel(v, y);
    AddBitsStep(u, p, 0);
    v := AddBit(v, p[0]);
    Peel(v, y << 1);
    AddBitsStep(u, p, 1);
    v := AddBit(v, p[1]);
    Peel(v, y << 2);
    AddBitsStep(u, p, 2);
    v := AddBit(v, p[2]);
    Peel(v, y << 3);
    AddBitsStep(u, p, 3);
    v := AddBit(v, p[3]);
    Peel(v, y << 4);
    AddBitsStep(u, p, 4);
    v := AddBit(v, p[4]);
    Peel(v, y << 5);
    AddBitsStep(u, p, 5);
    v := AddBit(v, p[5]);
    Peel(v, y << 6);
    AddBitsStep(u, p, 6);
    v := AddBit(v, p[6]);
    Peel(v, y << 7);
    AddBitsStep(u, p, 7);
    v := AddBit(v, p[7]);
    XorSelf(v);
  }

  lemma NoneAdded(u: bv16, p: seq<bool>)
    ensures AddBits(u, p[..0]) == u && p[..|p|] == p
  {}

  lemma {:induction false} BytesAreBits(data: seq<Byte>)
    ensures BitCrc(0, data) == AddBits(0, AllBits(data))
  {
    hide Xor, Shift1, AddByte, AddBit;
    if data != [] {
      var front, b := data[..|data| - 1], data[|data| - 1];
      BytesAreBits(front);
      ByteIsBits(BitCrc(0, front), b);
      AddBitsConcat(0, AllBits(front), ByteBits(b));
    }
  }

  /** The message followed by sixteen zeros: the message times x^16. */
  function Padded(data: seq<Byte>): (r: seq<bool>) {
    AllBits(data) + Zeros(16)
  }

  /** CRC16 is the remainder of the message times x^16 by x^16 + x^12 + x^5 + 1. */
  lemma CrcIsRemainder(data: seq<Byte>, i: int)
    ensures var q := Divide(Padded(data)).quotient;
            Coef(Padded(data), i) == (Product(q, i) != Bit(BitCrc(0, data), i))
  {
    hide Divide, Product, Bit, Coef, BitCrc, AddBits, Times;
    BytesAreBits(data);
    AddBitsAhead(AllBits(data));
    DivideZeros(AllBits(data), 16);
    DivideRight(Padded(data), i);
  }

  /** The polynomial q times the divisor, plus r. */
  ghost predicate Represents(p: seq<bool>, q: seq<bool>, r: bv16) {
    forall i :: Coef(p, i) == (Product(q, i) != Bit(r, i))
  }

  /** Two quotients for one dividend agree in every coefficient from x^n on: the highest in
      which they differ would show sixteen places above, where no remainder reaches. */
  lemma {:induction false} SameQuotient(p: seq<bool>, q: seq<bool>, r: bv16, q': seq<bool>, r': bv16, n: int)
    requires Represents(p, q, r) && Represents(p, q', r') && n >= 0
    ensures forall i | i >= n :: Coef(q, i) == Coef(q', i)
    decreases |q| + |q'| - n
  {
    hide Bit;
    if n < |q| || n < |q'| {
      SameQuotient(p, q, r, q', r', n + 1);
      Outside(r, n + 16);
      Outside(r', n + 16);
      assert Coef(p, n + 16) == Product(q, n + 16) == Product(q', n + 16);
    }
  }

  /** A register is known by its coefficients. */
  lemma SameBits(a: bv16, b: bv16)
    requires forall i | 0 <= i < 16 :: Bit(a, i) == Bit(b, i)
    ensures a == b
  {
    assert Bit(a, 0) == Bit(b, 0) && Bit(a, 1) == Bit(b, 1) && Bit(a, 2) == Bit(b, 2) && Bit(a, 3) == Bit(b, 3);
    assert Bit(a, 4) == Bit(b, 4) && Bit(a, 5) == Bit(b, 5) && Bit(a, 6) == Bit(b, 6) && Bit(a, 7) == Bit(b, 7);
    assert Bit(a, 8) == Bit(b, 8) && Bit(a, 9) == Bit(b, 9) && Bit(a, 10) == Bit(b, 10) && Bit(a, 11) == Bit(b, 11);
    assert Bit(a, 12) == Bit(b, 12) && Bit(a, 13) == Bit(b, 13) && Bit(a, 14) == Bit(b, 14) && Bit(a, 15) == Bit(b, 15);
  }

  /** The remainder is unique: whatever quotient is used, only CRC16 is left over. */
  lemma OnlyRemainder(data: seq<Byte>, q: seq<bool>, r: bv16)
    requires Represents(Padded(data), q, r)
    ensures r == BitCrc(0, data)
  {
    hide Divide, Bit, Coef, BitCrc;
    var p, q', r' := Padded(data), Divide(Padded(data)).quotient, BitCrc(0, data);
    forall i
      ensures Coef(p, i) == (Product(q', i) != Bit(r', i))
    {
      CrcIsRemainder(data, i);
    }
    SameQuotient(p, q, r, q', r', 0);
    CoefBelow(q);
    CoefBelow(q');
    SameBits(r, r');
  }
}

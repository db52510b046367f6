/** MD5 as RFC 1321 defines it (sections 3.1 to 3.5), over byte strings.
    32-bit words are naturals below 2^32; `/` and `%` by powers of two are the shifts and masks
    of the original. */
module Md5Spec {
  import opened Division

  const TWO_TO_THE_32: nat := 0x1_0000_0000
  const TWO_TO_THE_64: nat := 0x1_0000_0000_0000_0000
  const BLOCK: nat := 64

  type Byte = x: nat | x < 256
  type Uint32 = x: nat | x < TWO_TO_THE_32

  datatype Regs = Regs(a: Uint32, b: Uint32, c: Uint32, d: Uint32)

  /** Section 3.3: the initial value of the MD buffer. */
  const INITIAL := Regs(0x6745_2301, 0xEFCD_AB89, 0x98BA_DCFE, 0x1032_5476)

  // ---------------------------------------------------------------- 32-bit operations

  function Add(x: Uint32, y: Uint32): Uint32 { (x + y) % TWO_TO_THE_32 }

  function F(x: Uint32, y: Uint32, z: Uint32): Uint32 {
    ((x as bv32 & y as bv32) | (!(x as bv32) & z as bv32)) as Uint32
  }

  function G(x: Uint32, y: Uint32, z: Uint32): Uint32 {
    ((x as bv32 & z as bv32) | (y as bv32 & !(z as bv32))) as Uint32
  }

  function H(x: Uint32, y: Uint32, z: Uint32): Uint32 {
    (x as bv32 ^ y as bv32 ^ z as bv32) as Uint32
  }

  function I(x: Uint32, y: Uint32, z: Uint32): Uint32 {
    (y as bv32 ^ (x as bv32 | !(z as bv32))) as Uint32
  }

  /** Circular left shift. */
  function Rotate(x: Uint32, s: nat): Uint32
    requires 0 < s < 32
  {
    var w := x as bv32;
    ((w << s) | (w >> (32 - s))) as Uint32
  }

  // ---------------------------------------------------------------- section 3.4

  function T1(i: nat): Uint32 {
    match i
    case 0 => 0xD76A_A478
    case 1 => 0xE8C7_B756
    case 2 => 0x2420_70DB
    case 3 => 0xC1BD_CEEE
    case 4 => 0xF57C_0FAF
    case 5 => 0x4787_C62A
    case 6 => 0xA830_4613
    case 7 => 0xFD46_9501
    case 8 => 0x6980_98D8
    case 9 => 0x8B44_F7AF
    case 10 => 0xFFFF_5BB1
    case 11 => 0x895C_D7BE
    case 12 => 0x6B90_1122
    case 13 => 0xFD98_7193
    case 14 => 0xA679_438E
    case 15 => 0x49B4_0821
    case _ => 0
  }

  function T2(i: nat): Uint32 {
    match i
    case 0 => 0xF61E_2562
    case 1 => 0xC040_B340
    case 2 => 0x265E_5A51
    case 3 => 0xE9B6_C7AA
    case 4 => 0xD62F_105D
    case 5 => 0x0244_1453
    case 6 => 0xD8A1_E681
    case 7 => 0xE7D3_FBC8
    case 8 => 0x21E1_CDE6
    case 9 => 0xC337_07D6
    case 10 => 0xF4D5_0D87
    case 11 => 0x455A_14ED
    case 12 => 0xA9E3_E905
    case 13 => 0xFCEF_A3F8
    case 14 => 0x676F_02D9
    case 15 => 0x8D2A_4C8A
    case _ => 0
  }

  function T3(i: nat): Uint32 {
    match i
    case 0 => 0xFFFA_3942
    case 1 => 0x8771_F681
    case 2 => 0x6D9D_6122
    case 3 => 0xFDE5_380C
    case 4 => 0xA4BE_EA44
    case 5 => 0x4BDE_CFA9
    case 6 => 0xF6BB_4B60
    case 7 => 0xBEBF_BC70
    case 8 => 0x289B_7EC6
    case 9 => 0xEAA1_27FA
    case 10 => 0xD4EF_3085
    case 11 => 0x0488_1D05
    case 12 => 0xD9D4_D039
    case 13 => 0xE6DB_99E5
    case 14 => 0x1FA2_7CF8
    case 15 => 0xC4AC_5665
    case _ => 0
  }

  function T4(i: nat): Uint32 {
    match i
    case 0 => 0xF429_2244
    case 1 => 0x432A_FF97
    case 2 => 0xAB94_23A7
    case 3 => 0xFC93_A039
    case 4 => 0x655B_59C3
    case 5 => 0x8F0C_CC92
    case 6 => 0xFFEF_F47D
    case 7 => 0x8584_5DD1
    case 8 => 0x6FA8_7E4F
    case 9 => 0xFE2C_E6E0
    case 10 => 0xA301_4314
    case 11 => 0x4E08_11A1
    case 12 => 0xF753_7E82
    case 13 => 0xBD3A_F235
    case 14 => 0x2AD7_D2BB
    case 15 => 0xEB86_D391
    case _ => 0
  }

  /** Element i + 1 of the table T: the integer part of 2^32 * |sin(i + 1)|. */
  function T(i: nat): Uint32
    requires i < 64
  {
    if i < 16 then T1(i) else if i < 32 then T2(i - 16) else if i < 48 then T3(i - 32) else T4(i - 48)
  }

  /** The word of the block that step i uses. */
  function WordIndex(i: nat): (k: nat)
    requires i < 64
    ensures k < 16
  {
    if i < 16 then i
    else if i < 32 then (5 * i + 1) % 16
    else if i < 48 then (3 * i + 5) % 16
    else 7 * i % 16
  }

  /** The rotation of step i: four amounts per round, in turn. */
  function Shift(i: nat): (s: nat)
    requires i < 64
    ensures 0 < s < 32
  {
    var j := i % 4;
    if i < 16 then if j == 0 then 7 else if j == 1 then 12 else if j == 2 then 17 else 22
    else if i < 32 then if j == 0 then 5 else if j == 1 then 9 else if j == 2 then 14 else 20
    else if i < 48 then if j == 0 then 4 else if j == 1 then 11 else if j == 2 then 16 else 23
    else if j == 0 then 6 else if j == 1 then 10 else if j == 2 then 15 else 21
  }

  function Mix(i: nat, b: Uint32, c: Uint32, d: Uint32): Uint32
    requires i < 64
  {
    if i < 16 then F(b, c, d) else if i < 32 then G(b, c, d) else if i < 48 then H(b, c, d) else I(b, c, d)
  }

  /** b + ((a + mix + word + constant) <<< s) */
  function Operation(a: Uint32, b: Uint32, mix: Uint32, word: Uint32, s: nat, t: Uint32): Uint32
    requires 0 < s < 32
  {
    Add(b, Rotate((a + mix + word + t) % TWO_TO_THE_32, s))
  }

  /** The sixteen words of a block. */
  type Block = x: seq<Uint32> | |x| == 16 witness [0, 0, 0, 0, 0, 0, 0, 0, 0, 0, 0, 0, 0, 0, 0, 0]

  /** What step i computes from registers in the roles a, b, c, d. */
  function StepValue(x: Block, a: Uint32, b: Uint32, c: Uint32, d: Uint32, i: nat): Uint32
    requires i < 64
  {
    Operation(a, b, Mix(i, b, c, d), x[WordIndex(i)], Shift(i), T(i))
  }

  /** Step i: one operation, then the registers change roles. */
  function Step(x: Block, r: Regs, i: nat): Regs
    requires i < 64
  {
    Regs(r.d, StepValue(x, r.a, r.b, r.c, r.d, i), r.b, r.c)
  }

  function Steps(x: Block, r: Regs, i: nat, end: nat): Regs
    requires i <= end <= 64
    decreases end - i
  {
    if i == end then r else Steps(x, Step(x, r, i), i + 1, end)
  }

  function AddRegs(r: Regs, s: Regs): Regs {
    Regs(Add(r.a, s.a), Add(r.b, s.b), Add(r.c, s.c), Add(r.d, s.d))
  }

  function Compress(r: Regs, x: Block): Regs { AddRegs(r, Steps(x, r, 0, 64)) }

  // ---------------------------------------------------------------- sections 3.1, 3.2 and 3.5

  /** A word from its bytes, low-order byte first. */
  function Little(b0: nat, b1: nat, b2: nat, b3: nat): Uint32
    requires b0 < 0x100 && b1 < 0x100 && b2 < 0x100 && b3 < 0x100
  {
    b0 + 0x100 * b1 + 0x1_0000 * b2 + 0x100_0000 * b3
  }

  /** The parts of a word are its bytes, the first the lowest. */
  lemma LittleParts(b0: nat, b1: nat, b2: nat, b3: nat)
    requires b0 < 0x100 && b1 < 0x100 && b2 < 0x100 && b3 < 0x100
    ensures var w := Little(b0, b1, b2, b3);
            w % 0x100 == b0 && w / 0x100 % 0x100 == b1 && w / 0x1_0000 % 0x100 == b2 && w / 0x100_0000 == b3
  {
    hide Little;
    var w := Little(b0, b1, b2, b3);
    LittleSplits(b0, b1, b2, b3);
    Quotient(w, 0x100, b1 + 0x100 * b2 + 0x1_0000 * b3, b0);
    Quotient(w, 0x1_0000, b2 + 0x100 * b3, b0 + 0x100 * b1);
    Quotient(w, 0x100_0000, b3, b0 + 0x100 * b1 + 0x1_0000 * b2);
    Quotient(w / 0x100, 0x100, b2 + 0x100 * b3, b1);
    Quotient(w / 0x1_0000, 0x100, b3, b2);
  }

  lemma LittleSplits(b0: nat, b1: nat, b2: nat, b3: nat)
    requires b0 < 0x100 && b1 < 0x100 && b2 < 0x100 && b3 < 0x100
    ensures Little(b0, b1, b2, b3) == b0 + 0x100 * b1 + 0x1_0000 * b2 + 0x100_0000 * b3
  {
  }

  /** Word k of a byte string. */
  function WordAt(bytes: seq<Byte>, k: nat): Uint32
    requires 4 * k + 4 <= |bytes|
  {
    Little(bytes[4 * k], bytes[4 * k + 1], bytes[4 * k + 2], bytes[4 * k + 3])
  }

  function Words(bytes: seq<Byte>): Block
    requires |bytes| == BLOCK
  {
    seq(16, k requires 0 <= k < 16 => WordAt(bytes, k))
  }

  /** The bytes of a word, low-order first. */
  function Bytes(w: Uint32): (r: seq<Byte>)
    ensures |r| == 4
  {
    [w % 0x100, w / 0x100 % 0x100, w / 0x1_0000 % 0x100, w / 0x100_0000]
  }

  function Encoded(ws: seq<Uint32>): (r: seq<Byte>)
    ensures |r| == 4 * |ws|
  {
    if ws == [] then [] else Encoded(ws[..|ws| - 1]) + Bytes(ws[|ws| - 1])
  }

  /** The MD buffer after all the blocks of a byte string. */
  function Fold(bytes: seq<Byte>): Regs
    requires |bytes| % BLOCK == 0
  {
    if bytes == [] then INITIAL
    else Compress(Fold(bytes[..|bytes| - BLOCK]), Words(bytes[|bytes| - BLOCK..]))
  }

  /** A bit of one, then zeros until 64 bits are missing from a whole number of blocks. */
  function Filling(n: nat): (r: seq<Byte>)
    ensures 1 <= |r| <= BLOCK && (n + |r|) % BLOCK == 56
  {
    [0x80] + seq(if n % BLOCK < 56 then 55 - n % BLOCK else 119 - n % BLOCK, _ => 0)
  }

  /** The length in bits modulo 2^64, low-order word first. */
  function LengthBytes(n: nat): (r: seq<Byte>)
    ensures |r| == 8
  {
    var bits := 8 * n % TWO_TO_THE_64;
    Encoded([bits % TWO_TO_THE_32, bits / TWO_TO_THE_32])
  }

  function Padded(m: seq<Byte>): (r: seq<Byte>)
    ensures |r| % BLOCK == 0
  {
    hide Filling, LengthBytes;
    m + Filling(|m|) + LengthBytes(|m|)
  }

  /** The MD5 digest of a byte string. */
  function Digest(m: seq<Byte>): (r: seq<Byte>)
    ensures |r| == 16
  {
    var r := Fold(Padded(m));
    Encoded([r.a, r.b, r.c, r.d])
  }
}

/** The digest that identifies a flow rule (md5.c), proved against RFC 1321. */
module Md5 {
  import opened Md5Spec

  // ---------------------------------------------------------------- MD5Transform

  // the macros of md5.h

  function MacroF(x: Uint32, y: Uint32, z: Uint32): (r: Uint32)
    ensures r == F(x, y, z)
  {
    var x, y, z := x as bv32, y as bv32, z as bv32;
    ((x & y) | (!x & z)) as Uint32
  }

  function MacroG(x: Uint32, y: Uint32, z: Uint32): (r: Uint32)
    ensures r == G(x, y, z)
  {
    var x, y, z := x as bv32, y as bv32, z as bv32;
    ((x & z) | (y & !z)) as Uint32
  }

  function MacroH(x: Uint32, y: Uint32, z: Uint32): (r: Uint32)
    ensures r == H(x, y, z)
  {
    var x, y, z := x as bv32, y as bv32, z as bv32;
    (x ^ y ^ z) as Uint32
  }

  function MacroI(x: Uint32, y: Uint32, z: Uint32): (r: Uint32)
    ensures r == I(x, y, z)
  {
    var x, y, z := x as bv32, y as bv32, z as bv32;
    (y ^ (x | !z)) as Uint32
  }

  function RotateLeft(x: Uint32, n: nat): Uint32
    requires 0 < n < 32
  {
    var w := x as bv32;
    ((w << n) | (w >> (32 - n))) as Uint32
  }

  lemma SameRotation(x: Uint32, n: nat)
    requires 0 < n < 32
    ensures RotateLeft(x, n) == Rotate(x, n)
  {
  }

  /** += on unsigned int. */
  function Plus(x: Uint32, y: Uint32): Uint32 { (x + y) % 0x1_0000_0000 }

  /** a += mix + x + ac, rotated, += b. */
  function Accumulated(a: Uint32, b: Uint32, mix: Uint32, x: Uint32, s: nat, ac: Uint32): Uint32
    requires 0 < s < 32
  {
    Plus(RotateLeft(Plus(a, Plus(Plus(mix, x), ac)), s), b)
  }

  lemma MacroIsOperation(a: Uint32, b: Uint32, mix: Uint32, x: Uint32, s: nat, ac: Uint32)
    requires 0 < s < 32
    ensures Accumulated(a, b, mix, x, s, ac) == Operation(a, b, mix, x, s, ac)
  {
    hide Rotate, RotateLeft;
    AddWraps(mix + x, ac);
    AddWraps(mix + x + ac, a);
    SameRotation(Plus(a, Plus(Plus(mix, x), ac)), s);
  }

  lemma AddWraps(x: nat, y: nat)
    ensures (x % TWO_TO_THE_32 + y) % TWO_TO_THE_32 == (x + y) % TWO_TO_THE_32
  {
    var q := x / TWO_TO_THE_32;
    assert x + y == q * TWO_TO_THE_32 + (x % TWO_TO_THE_32 + y);
  }

  function FF(a: Uint32, b: Uint32, c: Uint32, d: Uint32, x: Uint32, s: nat, ac: Uint32): (r: Uint32)
    requires 0 < s < 32
    ensures r == Operation(a, b, F(b, c, d), x, s, ac)
  {
    hide Operation, Accumulated, F;
    MacroIsOperation(a, b, MacroF(b, c, d), x, s, ac);
    Accumulated(a, b, MacroF(b, c, d), x, s, ac)
  }

  function GG(a: Uint32, b: Uint32, c: Uint32, d: Uint32, x: Uint32, s: nat, ac: Uint32): (r: Uint32)
    requires 0 < s < 32
    ensures r == Operation(a, b, G(b, c, d), x, s, ac)
  {
    hide Operation, Accumulated, G;
    MacroIsOperation(a, b, MacroG(b, c, d), x, s, ac);
    Accumulated(a, b, MacroG(b, c, d), x, s, ac)
  }

  function HH(a: Uint32, b: Uint32, c: Uint32, d: Uint32, x: Uint32, s: nat, ac: Uint32): (r: Uint32)
    requires 0 < s < 32
    ensures r == Operation(a, b, H(b, c, d), x, s, ac)
  {
    hide Operation, Accumulated, H;
    MacroIsOperation(a, b, MacroH(b, c, d), x, s, ac);
    Accumulated(a, b, MacroH(b, c, d), x, s, ac)
  }

  function II(a: Uint32, b: Uint32, c: Uint32, d: Uint32, x: Uint32, s: nat, ac: Uint32): (r: Uint32)
    requires 0 < s < 32
    ensures r == Operation(a, b, I(b, c, d), x, s, ac)
  {
    hide Operation, Accumulated, I;
    MacroIsOperation(a, b, MacroI(b, c, d), x, s, ac);
    Accumulated(a, b, MacroI(b, c, d), x, s, ac)
  }

  /** Four steps bring the registers back to their roles. */
  lemma FourSteps(x: Block, r: Regs, i: nat, end: nat)
    requires i + 4 <= end <= 64
    ensures var a := StepValue(x, r.a, r.b, r.c, r.d, i);
            var d := StepValue(x, r.d, a, r.b, r.c, i + 1);
            var c := StepValue(x, r.c, d, a, r.b, i + 2);
            var b := StepValue(x, r.b, c, d, a, i + 3);
            Steps(x, r, i, end) == Steps(x, Regs(a, b, c, d), i + 4, end)
  {
    hide StepValue;
    var r1 := Step(x, r, i);
    var r2 := Step(x, r1, i + 1);
    var r3 := Step(x, r2, i + 2);
    assert Steps(x, r, i, end) == Steps(x, r1, i + 1, end);
    assert Steps(x, r1, i + 1, end) == Steps(x, r2, i + 2, end);
    assert Steps(x, r2, i + 2, end) == Steps(x, r3, i + 3, end);
  }

  lemma NoSteps(x: Block, r: Regs, i: nat)
    requires i <= 64
    ensures Steps(x, r, i, i) == r
  {
  }

  method Round1(r: Regs, x: Block) returns (a: Uint32, b: Uint32, c: Uint32, d: Uint32)
    ensures Regs(a, b, c, d) == Steps(x, r, 0, 16)
  {
    hide Operation, Steps, FF, F;
    a, b, c, d := r.a, r.b, r.c, r.d;
    a := FF(a, b, c, d, x[0], 7, 0xD76A_A478);
    d := FF(d, a, b, c, x[1], 12, 0xE8C7_B756);
    c := FF(c, d, a, b, x[2], 17, 0x2420_70DB);
    b := FF(b, c, d, a, x[3], 22, 0xC1BD_CEEE);
    FourSteps(x, r, 0, 16);
    ghost var r1 := Regs(a, b, c, d);
    a := FF(a, b, c, d, x[4], 7, 0xF57C_0FAF);
    d := FF(d, a, b, c, x[5], 12, 0x4787_C62A);
    c := FF(c, d, a, b, x[6], 17, 0xA830_4613);
    b := FF(b, c, d, a, x[7], 22, 0xFD46_9501);
    FourSteps(x, r1, 4, 16);
    ghost var r2 := Regs(a, b, c, d);
    a := FF(a, b, c, d, x[8], 7, 0x6980_98D8);
    d := FF(d, a, b, c, x[9], 12, 0x8B44_F7AF);
    c := FF(c, d, a, b, x[10], 17, 0xFFFF_5BB1);
    b := FF(b, c, d, a, x[11], 22, 0x895C_D7BE);
    FourSteps(x, r2, 8, 16);
    ghost var r3 := Regs(a, b, c, d);
    a := FF(a, b, c, d, x[12], 7, 0x6B90_1122);
    d := FF(d, a, b, c, x[13], 12, 0xFD98_7193);
    c := FF(c, d, a, b, x[14], 17, 0xA679_438E);
    b := FF(b, c, d, a, x[15], 22, 0x49B4_0821);
    FourSteps(x, r3, 12, 16);
    NoSteps(x, Regs(a, b, c, d), 16);
  }

  method Round2(r: Regs, x: Block) returns (a: Uint32, b: Uint32, c: Uint32, d: Uint32)
    ensures Regs(a, b, c, d) == Steps(x, r, 16, 32)
  {
    hide Operation, Steps, GG, G;
    a, b, c, d := r.a, r.b, r.c, r.d;
    a := GG(a, b, c, d, x[1], 5, 0xF61E_2562);
    d := GG(d, a, b, c, x[6], 9, 0xC040_B340);
    c := GG(c, d, a, b, x[11], 14, 0x265E_5A51);
    b := GG(b, c, d, a, x[0], 20, 0xE9B6_C7AA);
    FourSteps(x, r, 16, 32);
    ghost var r1 := Regs(a, b, c, d);
    a := GG(a, b, c, d, x[5], 5, 0xD62F_105D);
    d := GG(d, a, b, c, x[10], 9, 0x0244_1453);
    c := GG(c, d, a, b, x[15], 14, 0xD8A1_E681);
    b := GG(b, c, d, a, x[4], 20, 0xE7D3_FBC8);
    FourSteps(x, r1, 20, 32);
    ghost var r2 := Regs(a, b, c, d);
    a := GG(a, b, c, d, x[9], 5, 0x21E1_CDE6);
    d := GG(d, a, b, c, x[14], 9, 0xC337_07D6);
    c := GG(c, d, a, b, x[3], 14, 0xF4D5_0D87);
    b := GG(b, c, d, a, x[8], 20, 0x455A_14ED);
    FourSteps(x, r2, 24, 32);
    ghost var r3 := Regs(a, b, c, d);
    a := GG(a, b, c, d, x[13], 5, 0xA9E3_E905);
    d := GG(d, a, b, c, x[2], 9, 0xFCEF_A3F8);
    c := GG(c, d, a, b, x[7], 14, 0x676F_02D9);
    b := GG(b, c, d, a, x[12], 20, 0x8D2A_4C8A);
    FourSteps(x, r3, 28, 32);
    NoSteps(x, Regs(a, b, c, d), 32);
  }

  method Round3(r: Regs, x: Block) returns (a: Uint32, b: Uint32, c: Uint32, d: Uint32)
    ensures Regs(a, b, c, d) == Steps(x, r, 32, 48)
  {
    hide Operation, Steps, HH, H;
    a, b, c, d := r.a, r.b, r.c, r.d;
    a := HH(a, b, c, d, x[5], 4, 0xFFFA_3942);
    d := HH(d, a, b, c, x[8], 11, 0x8771_F681);
    c := HH(c, d, a, b, x[11], 16, 0x6D9D_6122);
    b := HH(b, c, d, a, x[14], 23, 0xFDE5_380C);
    FourSteps(x, r, 32, 48);
    ghost var r1 := Regs(a, b, c, d);
    a := HH(a, b, c, d, x[1], 4, 0xA4BE_EA44);
    d := HH(d, a, b, c, x[4], 11, 0x4BDE_CFA9);
    c := HH(c, d, a, b, x[7], 16, 0xF6BB_4B60);
    b := HH(b, c, d, a, x[10], 23, 0xBEBF_BC70);
    FourSteps(x, r1, 36, 48);
    ghost var r2 := Regs(a, b, c, d);
    a := HH(a, b, c, d, x[13], 4, 0x289B_7EC6);
    d := HH(d, a, b, c, x[0], 11, 0xEAA1_27FA);
    c := HH(c, d, a, b, x[3], 16, 0xD4EF_3085);
    b := HH(b, c, d, a, x[6], 23, 0x0488_1D05);
    FourSteps(x, r2, 40, 48);
    ghost var r3 := Regs(a, b, c, d);
    a := HH(a, b, c, d, x[9], 4, 0xD9D4_D039);
    d := HH(d, a, b, c, x[12], 11, 0xE6DB_99E5);
    c := HH(c, d, a, b, x[15], 16, 0x1FA2_7CF8);
    b := HH(b, c, d, a, x[2], 23, 0xC4AC_5665);
    FourSteps(x, r3, 44, 48);
    NoSteps(x, Regs(a, b, c, d), 48);
  }

  method Round4(r: Regs, x: Block) returns (a: Uint32, b: Uint32, c: Uint32, d: Uint32)
    ensures Regs(a, b, c, d) == Steps(x, r, 48, 64)
  {
    hide Operation, Steps, II, I;
    a, b, c, d := r.a, r.b, r.c, r.d;
    a := II(a, b, c, d, x[0], 6, 0xF429_2244);
    d := II(d, a, b, c, x[7], 10, 0x432A_FF97);
    c := II(c, d, a, b, x[14], 15, 0xAB94_23A7);
    b := II(b, c, d, a, x[5], 21, 0xFC93_A039);
    FourSteps(x, r, 48, 64);
    ghost var r1 := Regs(a, b, c, d);
    a := II(a, b, c, d, x[12], 6, 0x655B_59C3);
    d := II(d, a, b, c, x[3], 10, 0x8F0C_CC92);
    c := II(c, d, a, b, x[10], 15, 0xFFEF_F47D);
    b := II(b, c, d, a, x[1], 21, 0x8584_5DD1);
    FourSteps(x, r1, 52, 64);
    ghost var r2 := Regs(a, b, c, d);
    a := II(a, b, c, d, x[8], 6, 0x6FA8_7E4F);
    d := II(d, a, b, c, x[15], 10, 0xFE2C_E6E0);
    c := II(c, d, a, b, x[6], 15, 0xA301_4314);
    b := II(b, c, d, a, x[13], 21, 0x4E08_11A1);
    FourSteps(x, r2, 56, 64);
    ghost var r3 := Regs(a, b, c, d);
    a := II(a, b, c, d, x[4], 6, 0xF753_7E82);
    d := II(d, a, b, c, x[11], 10, 0xBD3A_F235);
    c := II(c, d, a, b, x[2], 15, 0x2AD7_D2BB);
    b := II(b, c, d, a, x[9], 21, 0xEB86_D391);
    FourSteps(x, r3, 60, 64);
    NoSteps(x, Regs(a, b, c, d), 64);
  }


  // ---------------------------------------------------------------- bytes and words

  method Encode(input: seq<Uint32>, len: nat) returns (output: seq<Byte>)
    requires len == 4 * |input|
    ensures output == Encoded(input)
  {
    output := [];
    var i, j := 0, 0;
    while j < len
      invariant j == 4 * i && i <= |input|
      invariant output == Encoded(input[..i])
    {
      assert input[..i + 1][..i] == input[..i];
      output := output + [input[i] % 0x100, input[i] / 0x100 % 0x100, input[i] / 0x1_0000 % 0x100,
                          input[i] / 0x100_0000];
      i, j := i + 1, j + 4;
    }
    assert input[..i] == input;
  }

  method Decode(input: seq<Byte>) returns (x: Block)
    requires |input| == BLOCK
    ensures x == Words(input)
  {
    var output := new Uint32[16];
    var i, j := 0, 0;
    while j < BLOCK
      invariant j == 4 * i && i <= 16
      invariant forall k :: 0 <= k < i ==> output[k] == WordAt(input, k)
    {
      output[i] := (input[j] as nat) + 0x100 * (input[j + 1] as nat) + 0x1_0000 * (input[j + 2] as nat)
                   + 0x100_0000 * (input[j + 3] as nat);
      i, j := i + 1, j + 4;
    }
    x := output[..];
    assert x == Words(input);
  }

  lemma {:induction false} StepsCompose(x: Block, r: Regs, i: nat, mid: nat, end: nat)
    requires i <= mid <= end <= 64
    ensures Steps(x, r, i, end) == Steps(x, Steps(x, r, i, mid), mid, end)
    decreases mid - i
  {
    hide Step;
    if i < mid {
      StepsCompose(x, Step(x, r, i), i + 1, mid, end);
    }
  }

  lemma FourRounds(x: Block, r: Regs, i: nat, j: nat, k: nat, end: nat)
    requires 0 <= i <= j <= k <= end <= 64
    ensures Steps(x, r, 0, end)
            == Steps(x, Steps(x, Steps(x, Steps(x, r, 0, i), i, j), j, k), k, end)
  {
    hide Steps;
    StepsCompose(x, r, 0, i, end);
    StepsCompose(x, Steps(x, r, 0, i), i, j, end);
    StepsCompose(x, Steps(x, Steps(x, r, 0, i), i, j), j, k, end);
  }

  function RegsOf(s: seq<Uint32>): Regs
    requires |s| == 4
  {
    Regs(s[0], s[1], s[2], s[3])
  }

  /** The unrolled transformation is one application of the compression function. */
  method Transform(state: array<Uint32>, block: seq<Byte>)
    requires state.Length == 4 && |block| == BLOCK
    modifies state
    ensures RegsOf(state[..]) == Compress(old(RegsOf(state[..])), Words(block))
  {
    hide Steps;
    var x := Decode(block);
    var r := Regs(state[0], state[1], state[2], state[3]);
    var a, b, c, d := Round1(r, x);
    a, b, c, d := Round2(Regs(a, b, c, d), x);
    a, b, c, d := Round3(Regs(a, b, c, d), x);
    a, b, c, d := Round4(Regs(a, b, c, d), x);
    FourRounds(x, r, 16, 32, 48, 64);
    state[0] := Plus(state[0], a);
    state[1] := Plus(state[1], b);
    state[2] := Plus(state[2], c);
    state[3] := Plus(state[3], d);
  }

  // ---------------------------------------------------------------- the bit counter

  /** The two words hold the length in bits modulo 2^64. */
  predicate Counts(low: Uint32, high: Uint32, n: nat) {
    high * TWO_TO_THE_32 + low == 8 * n % TWO_TO_THE_64
  }

  /** The position in the buffer is read off the counter. */
  lemma CounterGivesIndex(low: Uint32, high: Uint32, n: nat)
    requires Counts(low, high, n)
    ensures low / 8 % 64 == n % BLOCK == n - Whole(n)
  {
    var q := 8 * n / TWO_TO_THE_64;
    assert 8 * n == q * TWO_TO_THE_64 + high * TWO_TO_THE_32 + low;
    var j := q * 0x80_0000_0000_0000 + high * 0x80_0000;
    assert low == 8 * (n - 64 * j);
    SameRemainder(n, j);
  }

  lemma SameRemainder(n: nat, j: nat)
    requires 64 * j <= n
    ensures (n - 64 * j) % 64 == n % 64
  {
  }

  /** A two-word sum, carry included, is the sum modulo 2^64. */
  lemma TwoWordAdd(low: Uint32, high: Uint32, bits: Uint32, top: Uint32)
    ensures var low' := (low + bits) % TWO_TO_THE_32;
            var high' := if low' < bits then (high + 1) % TWO_TO_THE_32 else high;
            (high' + top) % TWO_TO_THE_32 * TWO_TO_THE_32 + low'
            == (high * TWO_TO_THE_32 + low + top * TWO_TO_THE_32 + bits) % TWO_TO_THE_64
  {
    var low' := (low + bits) % TWO_TO_THE_32;
    var carry := if low' < bits then 1 else 0;
    assert low + bits == carry * TWO_TO_THE_32 + low';
    var sum := high + carry + top;
    assert (high * TWO_TO_THE_32 + low + top * TWO_TO_THE_32 + bits) == sum * TWO_TO_THE_32 + low';
  }

  /** Adding the bits of an input. */
  lemma CounterAdds(low: Uint32, high: Uint32, n: nat, len: Uint32)
    requires Counts(low, high, n)
    ensures var bits := len * 8 % TWO_TO_THE_32;
            var low' := (low + bits) % TWO_TO_THE_32;
            var high' := if low' < bits then (high + 1) % TWO_TO_THE_32 else high;
            Counts(low', (high' + len / 0x2000_0000) % TWO_TO_THE_32, n + len)
  {
    var bits, top := len * 8 % TWO_TO_THE_32, len / 0x2000_0000;
    assert len * 8 == top * TWO_TO_THE_32 + bits;
    TwoWordAdd(low, high, bits, top);
    ModAdd(8 * n, 8 * len);
  }

  lemma ModAdd(x: nat, y: nat)
    ensures (x % TWO_TO_THE_64 + y) % TWO_TO_THE_64 == (x + y) % TWO_TO_THE_64
  {
    var q := x / TWO_TO_THE_64;
    assert x + y == q * TWO_TO_THE_64 + (x % TWO_TO_THE_64 + y);
  }

  // ---------------------------------------------------------------- the context

  const ZEROS: seq<Byte> := [0, 0, 0, 0, 0, 0, 0, 0, 0, 0, 0, 0, 0, 0, 0, 0]
  const PADDING: seq<Byte> := [0x80, 0, 0, 0, 0, 0, 0, 0, 0, 0, 0, 0, 0, 0, 0, 0] + ZEROS + ZEROS + ZEROS

  /** The offset the block loop of Update ends at. */
  function LastOffset(index: nat, len: nat): nat
    requires index < BLOCK <= index + len
  {
    BLOCK - index + (len - (BLOCK - index)) / BLOCK * BLOCK
  }

  /** The loop's unsigned i + 64 does not wrap before the loop ends. */
  predicate LoopEnds(index: nat, len: nat)
    requires index < BLOCK
  {
    len < BLOCK - index || LastOffset(index, len) + BLOCK < TWO_TO_THE_32
  }

  /** Every input shorter than 2^32 - 64 bytes is safe. */
  lemma ShortInputsEnd(index: nat, len: nat)
    requires index < BLOCK && len < TWO_TO_THE_32 - BLOCK
    ensures LoopEnds(index, len)
  {
  }

  /** The lengths that are safe: up to 2^32 - 65 from an empty buffer, and up to 2^32 - index - 1
      with `index` bytes buffered. */
  lemma SafeLengths(index: nat, len: nat)
    requires index < BLOCK
    ensures LoopEnds(index, len) <==> len < TWO_TO_THE_32 - (if index == 0 then BLOCK else index)
  {
  }

  /** Otherwise the wrapped guard holds once more, with fewer than 64 bytes left. */
  lemma LongInputsOverrun(index: nat, len: Uint32)
    requires index < BLOCK && !LoopEnds(index, len)
    ensures var i := LastOffset(index, len);
            i <= len < i + BLOCK && (i + BLOCK) % TWO_TO_THE_32 <= len
  {
  }

  /** The part of n bytes that makes whole blocks. */
  function Whole(n: nat): (r: nat)
    ensures r <= n < r + BLOCK && r % BLOCK == 0
  {
    n - n % BLOCK
  }

  class Context {
    var count0: Uint32
    var count1: Uint32
    const state: array<Uint32>
    const buffer: array<Byte>
    /** All bytes taken so far. */
    ghost var taken: seq<Byte>

    /** Complete blocks are in the state, the rest is at the front of the buffer. */
    ghost predicate Valid()
      reads this, state, buffer
    {
      && state.Length == 4 && buffer.Length == BLOCK
      && Counts(count0, count1, |taken|)
      && RegsOf(state[..]) == Fold(taken[..Whole(|taken|)])
      && buffer[..|taken| - Whole(|taken|)] == taken[Whole(|taken|)..]
    }

    /** MD5Init */
    constructor ()
      ensures Valid() && taken == [] && fresh(state) && fresh(buffer)
    {
      count0, count1 := 0, 0;
      state := new Uint32[4] [0x6745_2301, 0xEFCD_AB89, 0x98BA_DCFE, 0x1032_5476];
      buffer := new Byte[BLOCK](_ => 0);
      taken := [];
    }

    method Count(len: Uint32)
      modifies this`count0, this`count1
      ensures forall n: nat :: Counts(old(count0), old(count1), n) ==> Counts(count0, count1, n + len)
    {
      forall n: nat | Counts(count0, count1, n) {
        CounterAdds(count0, count1, n, len);
      }
      count0 := (count0 + len * 8 % TWO_TO_THE_32) % TWO_TO_THE_32;
      if count0 < len * 8 % TWO_TO_THE_32 {
        count1 := (count1 + 1) % TWO_TO_THE_32;
      }
      count1 := (count1 + len / 0x2000_0000) % TWO_TO_THE_32;
    }

    /** Copies bytes into the buffer at an index. */
    method Store(index: nat, bytes: seq<Byte>)
      requires buffer.Length == BLOCK && index + |bytes| <= BLOCK
      modifies buffer
      ensures buffer[..] == old(buffer[..index]) + bytes + old(buffer[index + |bytes|..])
      ensures buffer[..index + |bytes|] == old(buffer[..index]) + bytes
    {
      forall k | 0 <= k < |bytes| {
        buffer[index + k] := bytes[k];
      }
    }

    /** The block loop of MD5Update, from the offset where the first block ended. */
    method TakeBlocks(input: seq<Byte>, partlen: nat, ghost m: seq<Byte>) returns (i: nat)
      requires 0 < partlen <= BLOCK && partlen <= |input| < TWO_TO_THE_32 && LoopEnds(BLOCK - partlen, |input|)
      requires state.Length == 4 && |m + input[..partlen]| % BLOCK == 0
      requires RegsOf(state[..]) == Fold(m + input[..partlen])
      modifies state
      ensures i <= |input| < i + BLOCK && |m + input[..i]| % BLOCK == 0
      ensures RegsOf(state[..]) == Fold(m + input[..i])
    {
      hide Fold, Compress, Words, LoopEnds, Whole;
      var inputlen := |input|;
      i := partlen;
      while (i + 64) % TWO_TO_THE_32 <= inputlen
        invariant partlen <= i <= inputlen && (i - partlen) % 64 == 0
        invariant |m + input[..i]| % BLOCK == 0
        invariant RegsOf(state[..]) == Fold(m + input[..i])
        decreases inputlen - i
      {
        GuardIsExact(BLOCK - partlen, inputlen, i);
        NextBlock(m + input[..i], input, i, m);
        Transform(state, input[i..i + 64]);
        i := (i + 64) % TWO_TO_THE_32;
      }
      GuardIsExact(BLOCK - partlen, inputlen, i);
    }

    /** MD5Update */
    method Update(input: seq<Byte>)
      requires Valid() && |input| < TWO_TO_THE_32 && LoopEnds(|taken| % BLOCK, |input|)
      modifies this, state, buffer
      ensures Valid() && taken == old(taken) + input
    {
      hide Fold, Compress, Words, Counts, LoopEnds, Whole;
      ghost var m := taken;
      var inputlen := |input|;
      CounterGivesIndex(count0, count1, |taken|);
      var index := count0 / 8 % 64;
      var partlen := 64 - index;
      Count(inputlen);
      assert Counts(count0, count1, |m + input|);
      var i := 0;
      if inputlen >= partlen {
        Store(index, input[..partlen]);
        FirstBlock(m, |m| - index, input[..partlen], buffer[..]);
        Transform(state, buffer[..]);
        i := TakeBlocks(input, partlen, m);
        index := 0;
        TailOf(m, input, i);
      } else {
        ShortInput(m, input);
      }
      Store(index, input[i..]);
      taken := m + input;
    }

    /** MD5Final */
    method Final() returns (digest: seq<Byte>)
      requires Valid()
      modifies this, state, buffer
      ensures digest == Digest(old(taken))
    {
      hide Fold, Counts, LoopEnds, Encoded;
      ghost var m := taken;
      CounterGivesIndex(count0, count1, |taken|);
      var index := count0 / 8 % 64;
      var padlen := if index < 56 then 56 - index else 120 - index;
      LengthFromCounter(count0, count1, |m|);
      var bits := Encode([count0, count1], 8);
      PaddingIsFilling(|m|, padlen);
      ShortInputsEnd(|taken| % BLOCK, padlen);
      Update(PADDING[..padlen]);
      ShortInputsEnd(|taken| % BLOCK, 8);
      Update(bits);
      assert taken == Padded(m);
      assert Whole(|taken|) == |taken| && taken[..|taken|] == taken;
      digest := Encode(state[..], 16);
      assert state[..] == [state[0], state[1], state[2], state[3]];
    }
  }

  // ---------------------------------------------------------------- lemmas for Update and Final

  lemma FoldBlock(bytes: seq<Byte>, block: seq<Byte>)
    requires |bytes| % BLOCK == 0 && |block| == BLOCK
    ensures Fold(bytes + block) == Compress(Fold(bytes), Words(block))
  {
    hide Compress, Words;
    var all := bytes + block;
    assert all[..|all| - BLOCK] == bytes && all[|all| - BLOCK..] == block;
  }

  /** The buffer, once full, is the last block of what has been taken. */
  lemma FirstBlock(m: seq<Byte>, n: nat, head: seq<Byte>, block: seq<Byte>)
    requires n <= |m| && n % BLOCK == 0 && |m| + |head| == n + BLOCK && block == m[n..] + head
    ensures |m + head| % BLOCK == 0
    ensures Fold(m + head) == Compress(Fold(m[..n]), Words(block))
  {
    hide Fold, Compress, Words;
    FoldBlock(m[..n], block);
    assert m[..n] + block == m + head;
  }

  lemma NextBlock(bytes: seq<Byte>, input: seq<Byte>, i: nat, m: seq<Byte>)
    requires i + BLOCK <= |input| && bytes == m + input[..i] && |bytes| % BLOCK == 0
    ensures |m + input[..i + BLOCK]| % BLOCK == 0
    ensures Fold(m + input[..i + BLOCK]) == Compress(Fold(bytes), Words(input[i..i + BLOCK]))
  {
    hide Fold, Compress, Words;
    FoldBlock(bytes, input[i..i + BLOCK]);
    assert bytes + input[i..i + BLOCK] == m + input[..i + BLOCK];
  }

  /** The guard of the block loop, wrap-around included, says whether a block is left. */
  lemma GuardIsExact(index: nat, len: Uint32, i: nat)
    requires index < BLOCK && BLOCK - index <= i <= len && (i - (BLOCK - index)) % BLOCK == 0
    requires LoopEnds(index, len)
    ensures (i + BLOCK) % TWO_TO_THE_32 == i + BLOCK
  {
    var part := BLOCK - index;
    assert (i - part) / BLOCK <= (len - part) / BLOCK;
  }

  lemma TailOf(m: seq<Byte>, input: seq<Byte>, i: nat)
    requires i <= |input| < i + BLOCK && |m + input[..i]| % BLOCK == 0
    ensures var all := m + input;
            && Whole(|all|) == |m| + i
            && all[..Whole(|all|)] == m + input[..i]
            && all[Whole(|all|)..] == input[i..]
  {
  }

  lemma ShortInput(m: seq<Byte>, input: seq<Byte>)
    requires |input| < BLOCK - |m| % BLOCK
    ensures var all := m + input; var n := Whole(|m|);
            && Whole(|all|) == n
            && all[..n] == m[..n]
            && all[n..] == m[n..] + input
  {
    assert |m + input| - |m + input| % BLOCK == |m| - |m| % BLOCK;
  }

  lemma LengthFromCounter(low: Uint32, high: Uint32, n: nat)
    requires Counts(low, high, n)
    ensures Encoded([low, high]) == LengthBytes(n)
  {
    hide Encoded;
  }

  lemma PaddingIsFilling(n: nat, padlen: nat)
    requires padlen == if n % BLOCK < 56 then 56 - n % BLOCK else 120 - n % BLOCK
    ensures PADDING[..padlen] == Filling(n)
  {
    assert |PADDING| == 64 && PADDING[0] == 0x80 && forall k :: 1 <= k < 64 ==> PADDING[k] == 0;
  }

  // ---------------------------------------------------------------- any way of cutting the input

  function Concat(chunks: seq<seq<Byte>>): seq<Byte> {
    if chunks == [] then [] else Concat(chunks[..|chunks| - 1]) + chunks[|chunks| - 1]
  }

  /** The digest of an input does not depend on how it is cut into updates. */
  method DigestOfChunks(chunks: seq<seq<Byte>>) returns (digest: seq<Byte>)
    requires forall k :: 0 <= k < |chunks| ==> |chunks[k]| < TWO_TO_THE_32 - BLOCK
    ensures digest == Digest(Concat(chunks))
  {
    hide Digest;
    var context := new Context();
    for k := 0 to |chunks|
      invariant context.Valid() && fresh(context) && fresh(context.state) && fresh(context.buffer)
      invariant context.taken == Concat(chunks[..k])
    {
      ShortInputsEnd(|context.taken| % BLOCK, |chunks[k]|);
      context.Update(chunks[k]);
      assert chunks[..k + 1][..k] == chunks[..k];
    }
    assert chunks[..|chunks|] == chunks;
    digest := context.Final();
  }
}

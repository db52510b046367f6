/** The software flow table (librule) and the 32-bit register words it is mirrored in
    (libreg), for the OpenBox-S4 configuration: eight rules, little-endian processor. */
module RuleTable {
  import opened RuleMatch

  const RULES: nat := 8

  type Digest = d: seq<nat> | |d| == 4 witness [0, 0, 0, 0]

  /** struct fast_rule up to its padding; stats is the address of the statistics record, and
      a pointer and the word after it fill eight bytes. */
  datatype Rule = Rule(key: Key, mask: Key, priority: bv32, valid: bv32, action: bv32,
                       statsLen: bv32, stats: nat, spare: bv32, digest: Digest)

  const ZERO_RULE: Rule := Rule(NO_KEY, NO_KEY, 0, 0, 0, 0, 0, 0, [0, 0, 0, 0])

  /** Addresses are 32 bits wide on this board. */
  function AddressBits(a: nat): bv32 { (a % 0x1_0000_0000) as bv32 }

  /** The 32-bit words of a rule in memory. */
  function Half(r: Rule, h: nat): bv32
    requires h < 38
  {
    if h < 16 then Word32(r.key, h)
    else if h < 32 then Word32(r.mask, h - 16)
    else if h == 32 then r.priority
    else if h == 33 then r.valid
    else if h == 34 then r.action
    else if h == 35 then r.statsLen
    else if h == 36 then AddressBits(r.stats)
    else r.spare
  }

  /** The 64-bit words of a rule in memory. */
  function Word(r: Rule, i: nat): bv64
    requires i < 19
  {
    Join64(Half(r, 2 * i), Half(r, 2 * i + 1))
  }

  /** Four bytes as a little-endian word. */
  function Packed(s: seq<bv8>, at: nat): bv32
    requires at + 4 <= |s|
  {
    (s[at] as bv32) | (s[at + 1] as bv32 << 8) | (s[at + 2] as bv32 << 16) | (s[at + 3] as bv32 << 24)
  }

  /** The layout of a rule in memory: 16 words of key, 16 of mask, then priority, valid, action, the
      length and the address of its record. */
  lemma RuleLayout(r: Rule, h: nat)
    requires h < 38
    ensures h < 16 ==> Half(r, h) == Packed(r.key, 4 * h)
    ensures 16 <= h < 32 ==> Half(r, h) == Packed(r.mask, 4 * h - 64)
    ensures Half(r, 32) == r.priority && Half(r, 33) == r.valid && Half(r, 34) == r.action && Half(r, 35) == r.statsLen
    ensures r.stats < 0x1_0000_0000 ==> Half(r, 36) == r.stats as bv32
  {
    hide Packed, Word32;
    if h < 16 {
      WordIsPacked(r.key, h);
    } else if h < 32 {
      WordIsPacked(r.mask, h - 16);
    }
    if r.stats < 0x1_0000_0000 {
      AddressKept(r.stats);
    }
  }

  lemma WordIsPacked(s: seq<bv8>, h: nat)
    requires 4 * h + 4 <= |s|
    ensures Word32(s, h) == Packed(s, 4 * h)
  {
    hide Join16, Join32;
    BytesPacked(s[4 * h], s[4 * h + 1], s[4 * h + 2], s[4 * h + 3]);
  }

  lemma BytesPacked(a: bv8, b: bv8, c: bv8, d: bv8)
    ensures Join32(Join16(a, b), Join16(c, d))
            == (a as bv32) | (b as bv32 << 8) | (c as bv32 << 16) | (d as bv32 << 24)
  {
  }

  lemma AddressKept(a: nat)
    requires a < 0x1_0000_0000
    ensures AddressBits(a) == a as bv32
  {
  }

  // ---------------------------------------------------------------- the register space

  const REG_LEN: nat := 0x0100_0000
  const REG_WORDS: nat := 0x0040_0000
  const ACTION_REG: nat := 0x88000
  const DEFAULT_RULE: nat := 0x1F8
  const RULE_REG: nat := 0x100000
  const RULE_LEN: nat := 256

  type Regs = s: seq<bv32> | |s| == REG_WORDS ghost witness seq(REG_WORDS, _ => 0)

  function Low(v: bv64): bv32 { (v & 0xFFFF_FFFF) as bv32 }

  function High(v: bv64): bv32 { (v >> 32) as bv32 }

  function Swapped(v: bv64): bv64 { (v << 32) | (v >> 32) }

  lemma Halves(low: bv32, high: bv32)
    ensures Low(Join64(low, high)) == low && High(Join64(low, high)) == high
  {
  }

  lemma SwapHalves(v: bv64)
    ensures Low(Swapped(v)) == High(v) && High(Swapped(v)) == Low(v)
  {
  }

  lemma JoinHalves(v: bv64)
    ensures Join64(Low(v), High(v)) == v
  {
  }

  lemma SwapJoin(low: bv32, high: bv32)
    ensures Swapped(Join64(low, high)) == Join64(high, low)
  {
  }

  /** fast_reg_wr: the upper word at the address, the lower word after it. */
  function Written64(regs: Regs, addr: nat, v: bv64): Regs
    requires addr % 4 == 0 && addr + 8 <= REG_LEN
  {
    regs[addr / 4 := High(v)][addr / 4 + 1 := Low(v)]
  }

  function Read64(regs: Regs, addr: nat): bv64
    requires addr % 4 == 0 && addr + 8 <= REG_LEN
  {
    Join64(regs[addr / 4 + 1], regs[addr / 4])
  }

  function RuleAddr(idx: nat, i: nat): nat { RULE_REG + RULE_LEN * idx + 8 * i }

  /** openbox_rule_reg_wr: the halves go in swapped, so that they land in memory order. */
  function WrittenRuleReg(regs: Regs, idx: nat, i: nat, v: bv64): Regs
    requires idx < RULES && i < 32
  {
    Written64(regs, RuleAddr(idx, i), Swapped(v))
  }

  function ReadRuleReg(regs: Regs, idx: nat, i: nat): bv64
    requires idx < RULES && i < 32
  {
    Swapped(Read64(regs, RuleAddr(idx, i)))
  }

  function WrittenAction(regs: Regs, addr: nat, action: bv32): Regs
    requires addr % 8 == 0 && addr <= DEFAULT_RULE
  {
    Written64(regs, ACTION_REG + addr, action as bv64)
  }

  /** The first n words of a rule written to its place in the register space. */
  function WrittenWords(regs: Regs, idx: nat, r: Rule, n: nat): Regs
    requires idx < RULES && n <= 19
  {
    if n == 0 then regs else WrittenRuleReg(WrittenWords(regs, idx, r, n - 1), idx, n - 1, Word(r, n - 1))
  }

  /** Word numbers of the register space. */
  function RuleWord(idx: nat, h: nat): nat { 0x4_0000 + 64 * idx + h }

  function ActionWord(addr: nat): nat { (0x8_8000 + addr) / 4 + 1 }

  lemma ReadBack(regs: Regs, idx: nat, i: nat, v: bv64)
    requires idx < RULES && i < 32
    ensures ReadRuleReg(WrittenRuleReg(regs, idx, i, v), idx, i) == v
  {
    hide Join64, Low, High, Swapped;
    SwapHalves(v);
    JoinHalves(Swapped(v));
    SwapTwice(v);
  }

  lemma SwapTwice(v: bv64)
    ensures Swapped(Swapped(v)) == v
  {
  }

  lemma RuleRegAt(regs: Regs, idx: nat, i: nat, low: bv32, high: bv32)
    requires idx < RULES && i < 32
    ensures WrittenRuleReg(regs, idx, i, Join64(low, high))
            == regs[RuleWord(idx, 2 * i) := low][RuleWord(idx, 2 * i + 1) := high]
  {
    hide Join64, Low, High, Swapped;
    SwapJoin(low, high);
    Halves(high, low);
  }

  lemma ActionAt(regs: Regs, addr: nat, action: bv32)
    requires addr % 8 == 0 && addr <= DEFAULT_RULE
    ensures WrittenAction(regs, addr, action) == regs[ActionWord(addr) - 1 := 0][ActionWord(addr) := action]
  {
    hide Low, High;
    WidenedHalves(action);
  }

  lemma WidenedHalves(a: bv32)
    ensures High(a as bv64) == 0 && Low(a as bv64) == a
  {
  }

  lemma ZeroIsJoined()
    ensures Join64(0, 0) == 0
  {
  }

  lemma {:induction false} WordsAt(regs: Regs, idx: nat, r: Rule, n: nat, w: nat)
    requires idx < RULES && n <= 19 && w < REG_WORDS
    ensures WrittenWords(regs, idx, r, n)[w]
            == if RuleWord(idx, 0) <= w < RuleWord(idx, 2 * n) then Half(r, w - RuleWord(idx, 0)) else regs[w]
  {
    hide Half, Join64, WrittenRuleReg;
    if n > 0 {
      WordsAt(regs, idx, r, n - 1, w);
      RuleRegAt(WrittenWords(regs, idx, r, n - 1), idx, n - 1, Half(r, 2 * (n - 1)), Half(r, 2 * (n - 1) + 1));
    }
  }

  // ---------------------------------------------------------------- the table

  datatype Table = Table(rules: seq<Rule>, cnt: bv64, regs: Regs) {
    predicate Shaped() { |rules| == RULES }
  }

  /** write_rule_normal. */
  function Rewritten(t: Table, idx: nat, valid: bv32): Table
    requires t.Shaped() && idx < RULES
  {
    if valid == 0 then
      t.(rules := t.rules[idx := ZERO_RULE],
         regs := WrittenRuleReg(WrittenAction(t.regs, idx * 8, 0), idx, 16, Join64(0, 0)))
    else
      var r := t.rules[idx].(valid := valid);
      t.(rules := t.rules[idx := r],
         regs := WrittenRuleReg(WrittenWords(WrittenAction(t.regs, idx * 8, r.action), idx, r, 19),
                                idx, 16, Join64(r.priority, r.valid)))
  }

  predicate Live(r: Rule) { r.valid == 1 }

  predicate Carries(r: Rule, d: Digest) { Live(r) && r.digest == d }

  /** The least slot whose rule is live with this digest, or the number of slots. */
  function FindDigest(rules: seq<Rule>, d: Digest): (i: nat)
    ensures i <= |rules|
    ensures i < |rules| ==> Carries(rules[i], d)
    ensures forall j :: 0 <= j < i ==> !Carries(rules[j], d)
  {
    if rules == [] then 0
    else if Carries(rules[0], d) then 0
    else
      var i := FindDigest(rules[1..], d);
      assert forall j :: 0 <= j < i ==> !Carries(rules[1..][j], d);
      assert forall j :: 0 < j < i + 1 ==> rules[j] == rules[1..][j - 1];
      i + 1
  }

  /** The least slot whose rule is not live, or the number of slots. */
  function FindFree(rules: seq<Rule>): (i: nat)
    ensures i <= |rules|
    ensures i < |rules| ==> !Live(rules[i])
    ensures forall j :: 0 <= j < i ==> Live(rules[j])
  {
    if rules == [] then 0
    else if !Live(rules[0]) then 0
    else
      var i := FindFree(rules[1..]);
      assert forall j :: 0 <= j < i ==> Live(rules[1..][j]);
      assert forall j :: 0 < j < i + 1 ==> rules[j] == rules[1..][j - 1];
      i + 1
  }

  function Stored(t: Table, idx: nat, r: Rule): Table
    requires t.Shaped() && idx < RULES
  {
    Rewritten(t.(rules := t.rules[idx := r]), idx, 1)
  }

  /** fast_add_rule. */
  function Added(t: Table, r: Rule): Table
    requires t.Shaped()
  {
    if FindDigest(t.rules, r.digest) < RULES || FindFree(t.rules) == RULES then t
    else Stored(t.(cnt := t.cnt + 1), FindFree(t.rules), r)
  }

  /** What fast_add_rule returns: the first free slot seen before the search stopped, which
      for a rule already present is not the slot of that rule. */
  function AddResult(t: Table, r: Rule): int
    requires t.Shaped()
  {
    if FindFree(t.rules) < FindDigest(t.rules, r.digest) then FindFree(t.rules) else -1
  }

  /** fast_del_rule. */
  function Deleted(t: Table, idx: int): Table
    requires t.Shaped()
  {
    if 0 <= idx < RULES then Rewritten(t.(rules := t.rules[idx := ZERO_RULE]), idx, 0) else t
  }

  /** fast_modify_rule. */
  function Modified(t: Table, r: Rule, idx: int): Table
    requires t.Shaped()
  {
    if 0 <= idx < RULES then Stored(t, idx, r) else t
  }

  /** The first n words of a slot zeroed. */
  function ClearedWords(regs: Regs, idx: nat, n: nat): Regs
    requires idx < RULES && n <= 18
  {
    if n == 0 then regs else WrittenRuleReg(ClearedWords(regs, idx, n - 1), idx, n - 1, Join64(0, 0))
  }

  /** The first n slots zeroed, with their actions. */
  function ClearedSlots(regs: Regs, n: nat): Regs
    requires n <= RULES
  {
    if n == 0 then regs
    else WrittenAction(ClearedWords(ClearedSlots(regs, n - 1), n - 1, 18), (n - 1) * 8, 0)
  }

  function Blank(): (rules: seq<Rule>)
    ensures |rules| == RULES && forall i :: 0 <= i < RULES ==> rules[i] == ZERO_RULE
  {
    seq(RULES, _ => ZERO_RULE)
  }

  /** init_rule. */
  function Initial(regs: Regs, defaultAction: bv32): (t: Table)
    ensures t.Shaped()
  {
    Table(Blank(), 0, WrittenAction(ClearedSlots(regs, RULES), DEFAULT_RULE, defaultAction))
  }

  const NO_MATCH: bv32 := 0xFFFF_FFFF

  predicate Selects(r: Rule, key: Key) { Live(r) && MaskedEqual(r.key, key, r.mask) }

  /** The least slot whose rule selects the key, or the number of slots. */
  function FindMatch(rules: seq<Rule>, key: Key): (i: nat)
    ensures i <= |rules|
    ensures i < |rules| ==> Selects(rules[i], key)
    ensures forall j :: 0 <= j < i ==> !Selects(rules[j], key)
  {
    if rules == [] then 0
    else if Selects(rules[0], key) then 0
    else
      var i := FindMatch(rules[1..], key);
      assert forall j :: 0 <= j < i ==> !Selects(rules[1..][j], key);
      assert forall j :: 0 < j < i + 1 ==> rules[j] == rules[1..][j - 1];
      i + 1
  }

  class FlowTable {
    const rules: array<Rule>
    var cnt: bv64
    const regs: array<bv32>

    ghost predicate Valid() { rules.Length == RULES && regs.Length == REG_WORDS }

    ghost function State(): (t: Table)
      requires Valid()
      reads this, rules, regs
      ensures t.Shaped()
    {
      Table(rules[..], cnt, regs[..])
    }

    /** The table and the mapped register space before init_rule. */
    constructor (initial: Regs)
      ensures Valid() && regs[..] == initial && fresh(rules) && fresh(regs)
    {
      rules := new Rule[RULES](_ => ZERO_RULE);
      regs := new bv32[REG_WORDS](i requires 0 <= i < REG_WORDS => initial[i]);
      cnt := 0;
      new;
      assert regs[..] == initial;
    }

    method Init(defaultAction: bv32)
      requires Valid()
      modifies this, rules, regs
      ensures State() == Initial(old(regs[..]), defaultAction)
      ensures forall i :: 0 <= i < 8 ==> rules[i] == Rule(NO_KEY, NO_KEY, 0, 0, 0, 0, 0, 0, [0, 0, 0, 0])
    {
      hide WrittenRuleReg, WrittenAction, Join64;
      ghost var was: Regs := regs[..];
      for i := 0 to RULES
        invariant forall j :: 0 <= j < i ==> rules[j] == ZERO_RULE
        invariant regs[..] == was
      {
        rules[i] := ZERO_RULE;
      }
      cnt := 0;
      assert rules[..] == Blank();
      for i := 0 to RULES
        invariant rules[..] == Blank() && cnt == 0
        invariant regs[..] == ClearedSlots(was, i)
      {
        ClearSlot(i);
        ActionRegWrite(i * 8, 0);
      }
      ActionRegWrite(DEFAULT_RULE, defaultAction);
    }

    method ClearSlot(idx: nat)
      requires Valid() && idx < RULES
      modifies regs
      ensures regs[..] == ClearedWords(old(regs[..]), idx, 18)
    {
      hide WrittenRuleReg, Join64;
      ghost var was: Regs := regs[..];
      ZeroIsJoined();
      for j := 0 to 18
        invariant regs[..] == ClearedWords(was, idx, j)
      {
        RuleRegWrite(idx, j, 0);
      }
    }

    /** fast_reg_wr. */
    method RegWrite(addr: nat, v: bv64)
      requires Valid() && addr % 4 == 0 && addr + 8 <= REG_LEN
      modifies regs
      ensures regs[..] == Written64(old(regs[..]), addr, v)
    {
      regs[addr / 4] := High(v);
      regs[addr / 4 + 1] := Low(v);
    }

    method RuleRegWrite(idx: nat, i: nat, v: bv64)
      requires Valid() && idx < RULES && i < 32
      modifies regs
      ensures regs[..] == WrittenRuleReg(old(regs[..]), idx, i, v)
    {
      RegWrite(RULE_REG + (RULE_LEN * idx + 8 * i), Swapped(v));
    }

    method ActionRegWrite(addr: nat, action: bv32)
      requires Valid() && addr % 8 == 0 && addr <= DEFAULT_RULE
      modifies regs
      ensures regs[..] == WrittenAction(old(regs[..]), addr, action)
    {
      RegWrite(ACTION_REG + addr, action as bv64);
    }

    method WriteRule(idx: nat, valid: bv32)
      requires Valid() && idx < RULES
      modifies rules, regs
      ensures State() == Rewritten(old(State()), idx, valid)
    {
      hide WrittenRuleReg, WrittenAction, Join64, Half;
      var i, cnt3 := 0, 19;
      rules[idx] := rules[idx].(valid := valid);
      if valid == 0 {
        rules[idx] := ZERO_RULE;
        ActionRegWrite(idx * 8, 0);
      } else {
        ActionRegWrite(idx * 8, rules[idx].action);
        ghost var was := regs[..];
        ghost var all := rules[..];
        while i < cnt3
          invariant i <= 19 && rules[..] == all
          invariant regs[..] == WrittenWords(was, idx, all[idx], i)
        {
          RuleRegWrite(idx, i, Word(rules[idx], i));
          i := i + 1;
        }
      }
      RuleRegWrite(idx, 16, Join64(rules[idx].priority, rules[idx].valid));
    }

    method RuleExists(d: Digest) returns (idx: int)
      requires Valid()
      ensures idx == if FindDigest(rules[..], d) < RULES then FindDigest(rules[..], d) else -1
    {
      for i := 0 to RULES
        invariant forall j :: 0 <= j < i ==> !Carries(rules[j], d)
      {
        var r := rules[i];
        if r.valid == 1 && r.digest[0] == d[0] && r.digest[1] == d[1] && r.digest[2] == d[2] && r.digest[3] == d[3] {
          assert r.digest == d;
          return i;
        }
      }
      return -1;
    }

    /** The slot of the rule or -1, and the first free slot passed on the way or -1. */
    method RuleExistsAdd(d: Digest) returns (found: int, idx: int)
      requires Valid()
      ensures found == if FindDigest(rules[..], d) < RULES then FindDigest(rules[..], d) else -1
      ensures idx == if FindFree(rules[..]) < FindDigest(rules[..], d) then FindFree(rules[..]) else -1
    {
      idx := -1;
      for i := 0 to RULES
        invariant forall j :: 0 <= j < i ==> !Carries(rules[j], d)
        invariant idx == -1 ==> forall j :: 0 <= j < i ==> Live(rules[j])
        invariant idx != -1 ==> 0 <= idx < i && !Live(rules[idx]) && forall j :: 0 <= j < idx ==> Live(rules[j])
      {
        var r := rules[i];
        if r.valid == 1 {
          if r.digest[0] == d[0] && r.digest[1] == d[1] && r.digest[2] == d[2] && r.digest[3] == d[3] {
            assert r.digest == d;
            return i, idx;
          }
        } else if idx == -1 {
          idx := i;
        }
      }
      return -1, idx;
    }

    method Add(r: Rule) returns (idx: int)
      requires Valid()
      modifies this, rules, regs
      ensures State() == Added(old(State()), r)
      ensures idx == AddResult(old(State()), r)
    {
      hide FindDigest, FindFree, Rewritten;
      var ret: int;
      ret, idx := RuleExistsAdd(r.digest);
      if ret == -1 {
        if idx != -1 {
          rules[idx] := r;
          cnt := cnt + 1;
          WriteRule(idx, 1);
        } else {
          return -1;
        }
      }
    }

    method Modify(r: Rule, idx: int) returns (result: int)
      requires Valid()
      modifies rules, regs
      ensures State() == Modified(old(State()), r, idx)
      ensures result == if 0 <= idx < RULES then idx else -1
    {
      hide Rewritten;
      if idx >= 0 && idx < RULES {
        rules[idx] := r;
        WriteRule(idx, 1);
        return idx;
      }
      return -1;
    }

    method Delete(idx: int) returns (result: int)
      requires Valid()
      modifies rules, regs
      ensures State() == Deleted(old(State()), idx)
      ensures result == if 0 <= idx < RULES then idx else -1
    {
      hide Rewritten;
      if idx >= 0 && idx < RULES {
        rules[idx] := ZERO_RULE;
        WriteRule(idx, 0);
        return idx;
      }
      return -1;
    }

    /** fast_match_rule: the slot found is left in the ttl byte of the key. */
    method Match(key: array<bv8>) returns (action: bv32)
      requires Valid() && key.Length == KEY_BYTES
      modifies key
      ensures var k, i := old(key[..]), FindMatch(rules[..], old(key[..]));
              && key[..] == (if i < 8 then k[18 := i as bv8] else k)
              && action == (if i < 8 then rules[i].action else 0xFFFF_FFFF)
    {
      hide MaskedEqual;
      ghost var k: Key := key[..];
      for i := 0 to RULES
        invariant key[..] == k
        invariant forall j :: 0 <= j < i ==> !Selects(rules[j], k)
      {
        if rules[i].valid == 1 {
          var equal := CmpKey32(rules[i].key, key[..], rules[i].mask);
          if equal {
            key[TTL] := i as bv8;
            assert key[..] == k[TTL := i as bv8];
            return rules[i].action;
          }
        }
      }
      return NO_MATCH;
    }
  }
}

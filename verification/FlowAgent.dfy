/** The switch agent's flow state: the rule table, the statistics records it keeps beside it,
    and what each flow_mod does to them. */
module FlowAgent {
  import opened RuleMatch
  import opened RuleTable
  import opened FlowMod
  import opened NetworkOrder
  import M = FlowMatch
  import Spec = Md5Spec

  /** Addresses of allocated blocks; zero is NULL. */
  type Address = nat

  /** stats[i] is the record of rule i, and stats[8] that of the default rule. */
  datatype Agent = Agent(table: Table, stats: seq<Address>, heap: map<Address, seq<Byte>>) {
    predicate Shaped() { table.Shaped() && |stats| == SLOTS }
  }

  // ---------------------------------------------------------------- the rule of a message

  /** The first 132 bytes of a rule: key, mask and priority. */
  function IdentityBytes(key: Key, mask: Key, priority: seq<Byte>): (r: seq<Byte>)
    requires |priority| == 2
    ensures |r| == 132
  {
    ByteValues(key) + ByteValues(mask) + [priority[1], priority[0], 0, 0]
  }

  function DigestWords(d: seq<Byte>): Digest
    requires |d| == 16
  {
    [Spec.WordAt(d, 0), Spec.WordAt(d, 1), Spec.WordAt(d, 2), Spec.WordAt(d, 3)]
  }

  /** A rule is known by the digest of its key, mask and priority. */
  function Identity(key: Key, mask: Key, priority: seq<Byte>): Digest
    requires |priority| == 2
  {
    DigestWords(Spec.Digest(IdentityBytes(key, mask, priority)))
  }

  /** The key, the mask, the priority as a 32-bit number with its low byte first. */
  predicate LaidOut(b: seq<Byte>, key: Key, mask: Key, priority: seq<Byte>)
    requires |priority| == 2
  {
    && |b| == 132
    && (forall i :: 0 <= i < 64 ==> b[i] == key[i] as nat && b[64 + i] == mask[i] as nat)
    && (b[128] as nat) + (b[129] as nat) * 256 == (priority[0] as nat) * 256 + priority[1]
    && b[130] == b[131] == 0
  }

  lemma IdentityLayout(key: Key, mask: Key, priority: seq<Byte>)
    requires |priority| == 2
    ensures LaidOut(IdentityBytes(key, mask, priority), key, mask, priority)
  {
    var k, m := ByteValues(key), ByteValues(mask);
    var b := IdentityBytes(key, mask, priority);
    assert forall i :: 0 <= i < 64 ==> b[i] == k[i] && b[64 + i] == m[i];
  }

  lemma SameByte(a: bv8, b: bv8)
    requires a as nat == b as nat
    ensures a == b
  {
  }

  /** The layout has exactly one reading and one writing. */
  lemma LayoutDetermines(b: seq<Byte>, key: Key, mask: Key, priority: seq<Byte>, b': seq<Byte>, key': Key, mask': Key,
                         priority': seq<Byte>)
    requires |priority| == |priority'| == 2
    requires LaidOut(b, key, mask, priority) && LaidOut(b', key', mask', priority')
    ensures b == b' <==> key == key' && mask == mask' && priority == priority'
  {
    if b == b' {
      forall i | 0 <= i < 64
        ensures key[i] == key'[i] && mask[i] == mask'[i]
      {
        assert b[64 + i] == mask[i] as nat == mask'[i] as nat;
        SameByte(key[i], key'[i]);
        SameByte(mask[i], mask'[i]);
      }
    }
    if key == key' && mask == mask' && priority == priority' {
      forall i | 0 <= i < 132
        ensures b[i] == b'[i]
      {
        if i < 64 {
          assert b[i] == key[i] as nat;
        } else if i < 128 {
          assert b[64 + (i - 64)] == mask[i - 64] as nat;
        }
      }
    }
  }

  /** Two rules are told apart by every bit of key, mask and priority: the digested bytes are equal
      exactly when all three are. */
  lemma IdentityInjective(key: Key, mask: Key, priority: seq<Byte>, key': Key, mask': Key, priority': seq<Byte>)
    requires |priority| == |priority'| == 2
    ensures IdentityBytes(key, mask, priority) == IdentityBytes(key', mask', priority')
            <==> key == key' && mask == mask' && priority == priority'
  {
    hide LaidOut, IdentityBytes;
    IdentityLayout(key, mask, priority);
    IdentityLayout(key', mask', priority');
    LayoutDetermines(IdentityBytes(key, mask, priority), key, mask, priority,
                     IdentityBytes(key', mask', priority'), key', mask', priority');
  }

  /** Byte j of a digest kept as four words, low-order byte first. */
  function DigestByte(d: Digest, j: nat): nat
    requires j < 16
  {
    var w := d[j / 4];
    if j % 4 == 0 then w % 0x100
    else if j % 4 == 1 then w / 0x100 % 0x100
    else if j % 4 == 2 then w / 0x1_0000 % 0x100
    else w / 0x100_0000
  }

  lemma WordByte(w: Digest, d: seq<Byte>, j: nat)
    requires |d| == 16 && w == DigestWords(d) && j < 16
    ensures DigestByte(w, j) == d[j]
  {
    hide Spec.Little;
    var k := j / 4;
    assert 4 * k + j % 4 == j;
    Spec.LittleParts(d[4 * k], d[4 * k + 1], d[4 * k + 2], d[4 * k + 3]);
    FourWords(w, d, k);
  }

  lemma FourWords(w: Digest, d: seq<Byte>, k: nat)
    requires |d| == 16 && w == DigestWords(d) && k < 4
    ensures w[k] == Spec.WordAt(d, k)
  {
    hide Spec.WordAt;
  }

  /** The digest kept with the rule of a message is the MD5 digest of bytes so laid out. */
  lemma DigestOfRule(m: Message, b: seq<Byte>)
    requires Compiles(m) && |m.priority| == 2
    requires LaidOut(b, M.Compile(m.fields).key, M.Compile(m.fields).mask, m.priority)
    ensures forall j :: 0 <= j < 16 ==> DigestByte(RuleOf(m).digest, j) == Spec.Digest(b)[j]
  {
    hide LaidOut, M.Compile, Spec.Digest, WellFormed, M.AllSupported, DigestWords, DigestByte, IdentityBytes;
    var c := M.Compile(m.fields);
    IdentityLayout(c.key, c.mask, m.priority);
    LayoutDetermines(b, c.key, c.mask, m.priority, IdentityBytes(c.key, c.mask, m.priority), c.key, c.mask, m.priority);
    forall j | 0 <= j < 16
      ensures DigestByte(RuleOf(m).digest, j) == Spec.Digest(b)[j]
    {
      WordByte(RuleOf(m).digest, Spec.Digest(b), j);
    }
  }

  predicate Compiles(m: Message) {
    WellFormed(m) && M.AllSupported(m.fields) && M.AllFit(m.fields)
  }

  /** The rule compiled from a message, before it is given an action and a record. */
  function RuleOf(m: Message): Rule
    requires Compiles(m)
  {
    var c := M.Compile(m.fields);
    Rule(c.key, c.mask, HostPriority(m.priority), 0, 0, 0, 0, 0, Identity(c.key, c.mask, m.priority))
  }

  /** ntohs. */
  function HostPriority(priority: seq<Byte>): bv32
    requires |priority| == 2
  {
    Number(priority, 0) as bv32
  }

  /** The logical input port replaced by the physical one. */
  function Physical(key: Key, ports: Ports): Key {
    Put(key, PORT, [(key[PORT] & 0x0F) | (ports[PortNumber(key)] << 4)])
  }

  function PortNumber(key: Key): (n: nat)
    ensures n < 16
  {
    (key[PORT] >> 4) as nat
  }

  function Equipped(r: Rule, action: bv32, length: nat, p: Address): Rule
    requires length < 0x10000
  {
    r.(action := action, statsLen := length as bv32, stats := p)
  }

  // ---------------------------------------------------------------- the handlers

  /** free: NULL is allowed. */
  function Freed(heap: map<Address, seq<Byte>>, p: Address): map<Address, seq<Byte>> {
    if p == 0 then heap else heap - {p}
  }

  /** The action register of a slot written directly. */
  function ActionSet(t: Table, idx: nat, action: bv32): Table
    requires idx < RULES
  {
    t.(regs := WrittenAction(t.regs, idx * 8, action))
  }

  /** A rule the table does not have; p is the address malloc gave its record. */
  function Inserted(s: Agent, r: Rule, p: Address, record: seq<Byte>): (t: Agent)
    requires s.Shaped()
    ensures t.Shaped()
  {
    var idx := AddResult(s.table, r);
    var heap := s.heap[p := record];
    if 0 <= idx < RULES then Agent(Added(s.table, r), s.stats[idx := p], heap) else s.(heap := heap)
  }

  /** Strict deletion of the rule in a slot; the record built for the message is not freed. */
  function Dropped(s: Agent, idx: nat, p: Address, record: seq<Byte>): (t: Agent)
    requires s.Shaped() && idx < RULES
    ensures t.Shaped()
  {
    Agent(Deleted(ActionSet(s.table, idx, 0), idx), s.stats[idx := 0], Freed(s.heap[p := record], s.stats[idx]))
  }

  /** Strict modification of the rule in a slot. */
  function Replaced(s: Agent, idx: nat, r: Rule, p: Address, record: seq<Byte>): (t: Agent)
    requires s.Shaped() && idx < RULES
    ensures t.Shaped()
  {
    Agent(ActionSet(Modified(s.table, r, idx), idx, r.action), s.stats[idx := p],
          Freed(s.heap[p := record], s.stats[idx]))
  }

  /** The default rule: only its action register and its record. */
  function DefaultSet(s: Agent, action: bv32, p: Address, record: seq<Byte>): (t: Agent)
    requires s.Shaped()
    ensures t.Shaped()
  {
    Agent(s.table.(regs := WrittenAction(s.table.regs, DEFAULT_RULE, action)),
          s.stats[DEFAULT_SLOT := p], s.heap[p := record])
  }

  function VerdictOf(m: Message, ports: Ports): Verdict
    requires WellFormed(m) && m.instruction != []
  {
    Verdicts(m.instruction, INSTRUCTION_HEADER, Verdict(0, false), m.fields == [], ports)
  }

  /** Whether the message may put a rule into the table that is not there. */
  predicate MayInsert(m: Message) {
    m.command == Add || ((m.command == ModifyStrict || m.command == Modify) && m.fields != [])
  }

  /** A compiled rule, its action decided, goes by its digest and the command. */
  function Resolved(s: Agent, m: Message, r: Rule, p: Address, ports: Ports, record: seq<Byte>): (t: Agent)
    requires s.Shaped()
    ensures t.Shaped()
  {
    var idx := FindDigest(s.table.rules, r.digest);
    if idx == RULES then
      if MayInsert(m) then Inserted(s, r.(key := Physical(r.key, ports)), p, record) else s
    else if m.command == DeleteStrict then Dropped(s, idx, p, record)
    else if m.command == ModifyStrict then Replaced(s, idx, r, p, record)
    else s
  }

  /** handle_flow_mod_add. */
  function Handled(s: Agent, m: Message, p: Address, ports: Ports): (t: Agent)
    requires s.Shaped() && WellFormed(m)
    ensures t.Shaped()
  {
    if m.instruction == [] || !M.AllSupported(m.fields) then s
    else
      var v, record := VerdictOf(m, ports), RecordOf(m);
      FitWhenSupported(m.fields);
      if v.isDefault && s.stats[DEFAULT_SLOT] == 0 then DefaultSet(s, v.action, p, record)
      else Resolved(s, m, Equipped(RuleOf(m), v.action, EntryLength(m), p), p, ports, record)
  }

  predicate TakenAsDefault(s: Agent, m: Message, ports: Ports)
    requires s.Shaped() && WellFormed(m) && m.instruction != []
  {
    VerdictOf(m, ports).isDefault && s.stats[DEFAULT_SLOT] == 0
  }

  /** A message that gets as far as its rule: it has an instruction, fields the hardware knows,
      and is not made the default rule. */
  predicate Reaches(s: Agent, m: Message, ports: Ports)
    requires s.Shaped() && WellFormed(m)
  {
    m.command != Delete && m.instruction != [] && M.AllSupported(m.fields) && !TakenAsDefault(s, m, ports)
  }

  /** The rule of a message with its action and the address of its record. */
  function RequestOf(m: Message, ports: Ports, p: Address): Rule
    requires Compiles(m) && m.instruction != []
  {
    Equipped(RuleOf(m), VerdictOf(m, ports).action, EntryLength(m), p)
  }

  /** A message that needs a free slot when there is none; the agent then exits. */
  predicate Overflows(s: Agent, m: Message, ports: Ports)
    requires s.Shaped() && WellFormed(m)
  {
    && m.instruction != [] && M.AllSupported(m.fields) && M.AllFit(m.fields) && MayInsert(m)
    && !(VerdictOf(m, ports).isDefault && s.stats[DEFAULT_SLOT] == 0)
    && FindDigest(s.table.rules, RuleOf(m).digest) == RULES && FindFree(s.table.rules) == RULES
  }

  lemma FitWhenSupported(ts: seq<M.Tlv>)
    requires M.Walkable(ts) && M.AllSupported(ts)
    ensures M.AllFit(ts)
  {
  }

  /** Delete-all: the first n slots lose record and hardware action, and keep their rules. */
  function Silenced(s: Agent, n: nat): (r: Agent)
    requires s.Shaped() && n <= RULES
    ensures r.Shaped()
  {
    if n == 0 then s
    else
      var b, i := Silenced(s, n - 1), n - 1;
      Agent(ActionSet(b.table, i, 0), b.stats[i := 0], Freed(b.heap, b.stats[i]))
  }

  function CookieOf(record: seq<Byte>): seq<Byte> {
    if |record| >= 32 then record[24..32] else []
  }

  predicate HasCookie(s: Agent, i: nat, cookie: seq<Byte>)
    requires i < |s.stats|
  {
    s.stats[i] != 0 && s.stats[i] in s.heap && CookieOf(s.heap[s.stats[i]]) == cookie
  }

  function Withdrawn(s: Agent, i: nat): (r: Agent)
    requires s.Shaped() && i < RULES
    ensures r.Shaped()
  {
    Agent(ActionSet(Deleted(s.table, i), i, 0), s.stats[i := 0], Freed(s.heap, s.stats[i]))
  }

  /** Deletion by cookie over the first n slots. */
  function Cleaned(s: Agent, cookie: seq<Byte>, n: nat): (r: Agent)
    requires s.Shaped() && n <= RULES
    ensures r.Shaped()
  {
    if n == 0 then s
    else
      var b := Cleaned(s, cookie, n - 1);
      if HasCookie(b, n - 1, cookie) then Withdrawn(b, n - 1) else b
  }

  /** handle_flow_mod. */
  function Stepped(s: Agent, m: Message, p: Address, ports: Ports): (r: Agent)
    requires s.Shaped() && WellFormed(m)
    ensures r.Shaped()
  {
    hide Handled, Silenced, Cleaned, WellFormed;
    if m.command != Delete then Handled(s, m, p, ports)
    else if m.cookieMask == 0 then Silenced(s, RULES)
    else Cleaned(s, m.cookie, RULES)
  }
}

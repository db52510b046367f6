/** What one flow_mod does, as a message: when strict deletion undoes an add, when strict
    modification keeps the rule, and which messages leave a record nobody refers to. */
module FlowSemantics {
  import opened RuleMatch
  import opened RuleTable
  import opened RuleTableRuns
  import opened FlowMod
  import opened NetworkOrder
  import opened FlowAgent
  import opened FlowAgentRuns
  import M = FlowMatch

  // ---------------------------------------------------------------- the three ways a message goes

  lemma MessageCompiles(m: Message)
    requires WellFormed(m) && M.AllSupported(m.fields)
    ensures Compiles(m)
  {
    FieldsFit(m);
  }

  lemma ReachesRule(s: Agent, m: Message, p: Address, ports: Ports)
    requires s.Shaped() && WellFormed(m) && Reaches(s, m, ports)
    ensures Compiles(m) && m.instruction != []
    ensures Stepped(s, m, p, ports) == Resolved(s, m, RequestOf(m, ports, p), p, ports, RecordOf(m))
  {
    hide WellFormed, RuleOf, RecordOf, Resolved, Verdicts, M.AllSupported, M.AllFit;
    MessageCompiles(m);
  }

  lemma Ignored(s: Agent, m: Message, p: Address, ports: Ports)
    requires s.Shaped() && WellFormed(m) && m.command != FlowMod.Delete
    requires m.instruction == [] || !M.AllSupported(m.fields)
    ensures Stepped(s, m, p, ports) == s
  {
    hide WellFormed, M.AllSupported;
  }

  lemma MadeDefault(s: Agent, m: Message, p: Address, ports: Ports)
    requires s.Shaped() && WellFormed(m) && m.command != FlowMod.Delete && m.instruction != []
    requires M.AllSupported(m.fields) && TakenAsDefault(s, m, ports)
    ensures Stepped(s, m, p, ports) == DefaultSet(s, VerdictOf(m, ports).action, p, RecordOf(m))
  {
    hide WellFormed, M.AllSupported, Resolved, Verdicts, RecordOf, DefaultSet;
  }

  lemma RequestFields(m: Message, ports: Ports, p: Address)
    requires Compiles(m) && m.instruction != []
    ensures var r := RequestOf(m, ports, p);
            && r.stats == p && r.digest == RuleOf(m).digest && r.key == RuleOf(m).key && r.mask == RuleOf(m).mask
            && r.statsLen == EntryLength(m) as bv32 && r.priority == RuleOf(m).priority
            && r.action == VerdictOf(m, ports).action && r.valid == 0
  {
    hide WellFormed, M.Compile, RecordOf, Verdicts, Identity, HostPriority, M.AllSupported, M.AllFit;
  }

  // ---------------------------------------------------------------- adding

  lemma FreeSlotIsBlank(s: Agent, idx: nat)
    requires s.Shaped() && Sound(s) && idx < RULES && !Live(s.table.rules[idx])
    ensures s.table.rules[idx] == ZERO_RULE && s.stats[idx] == 0
  {
    hide Unique, ActsOnRecords, Image, GoodHeap;
  }

  /** The slot a new digest was stored in is the one a later search finds. */
  lemma FindsStored(rules: seq<Rule>, idx: nat, r: Rule)
    requires |rules| == RULES && idx < RULES && Live(r) && FindDigest(rules, r.digest) == RULES
    ensures FindDigest(rules[idx := r], r.digest) == idx
  {
    var after := rules[idx := r];
    assert Carries(after[idx], r.digest);
    forall j | 0 <= j < RULES && j != idx
      ensures !Carries(after[j], r.digest)
    {
      assert after[j] == rules[j];
    }
  }

  lemma NowLive(r: Rule)
    ensures Live(r.(valid := 1)) && r.(valid := 1).digest == r.digest
  {
  }

  /** The add of a rule that is new, with room for it. */
  predicate AddsNew(s: Agent, m: Message, ports: Ports)
    requires s.Shaped() && WellFormed(m)
  {
    && m.command == FlowMod.Add && Reaches(s, m, ports) && M.AllFit(m.fields)
    && FindDigest(s.table.rules, RuleOf(m).digest) == RULES && FindFree(s.table.rules) < RULES
  }

  /** What such an add leaves: its rule, with the physical port, in the least free slot. */
  lemma AddedParts(s: Agent, m: Message, p: Address, ports: Ports)
    requires s.Shaped() && WellFormed(m) && Sound(s) && Fresh(s, p) && AddsNew(s, m, ports)
    ensures Compiles(m) && m.instruction != []
    ensures var t := Stepped(s, m, p, ports); var idx := FindFree(s.table.rules); var r := RequestOf(m, ports, p);
            && Sound(t) && FindDigest(t.table.rules, RuleOf(m).digest) == idx
            && t.table.rules == s.table.rules[idx := r.(key := Physical(r.key, ports), valid := 1)]
            && t.stats == s.stats[idx := p] && t.heap == s.heap[p := RecordOf(m)]
  {
    hide Sound, Added, Inserted, WellFormed, RuleOf, RequestOf, RecordOf, Stored, Carries, Live, Reaches, Physical,
      Stepped, M.AllFit, M.AllSupported;
    ReachesRule(s, m, p, ports);
    RequestFields(m, ports, p);
    var r := RequestOf(m, ports, p);
    var r' := r.(key := Physical(r.key, ports));
    var idx := FindFree(s.table.rules);
    InsertedIs(s, r', p, RecordOf(m));
    StoredRules(s.table, idx, r', s.table.cnt + 1);
    NowLive(r');
    FindsStored(s.table.rules, idx, r'.(valid := 1));
    StepSound(s, m, p, ports);
  }

  // ---------------------------------------------------------------- strict deletion

  /** The rules, the records and the actions are as they were. */
  predicate Restored(s: Agent, u: Agent)
    requires s.Shaped() && u.Shaped()
  {
    && u.table.rules == s.table.rules && u.stats == s.stats
    && forall i :: 0 <= i < RULES ==> ActionOf(u.table.regs, i) == ActionOf(s.table.regs, i)
  }

  predicate SameMatch(m: Message, d: Message) { d.fields == m.fields && d.priority == m.priority }

  lemma SameRule(m: Message, d: Message)
    requires Compiles(m) && Compiles(d) && SameMatch(m, d)
    ensures RuleOf(d) == RuleOf(m)
  {
    hide WellFormed, M.Compile, Identity, HostPriority;
  }

  /** A strict deletion with the match and priority of the add before it brings back rules,
      records and actions exactly when it has an instruction and is not taken as the default
      rule. */
  lemma StrictDeleteUndoesAdd(s: Agent, m: Message, p: Address, d: Message, q: Address, ports: Ports)
    requires s.Shaped() && WellFormed(m) && Sound(s) && Fresh(s, p) && AddsNew(s, m, ports)
    requires WellFormed(d) && d.command == DeleteStrict && SameMatch(m, d) && Fresh(Stepped(s, m, p, ports), q)
    ensures var t := Stepped(s, m, p, ports);
            Restored(s, Stepped(t, d, q, ports)) <==> d.instruction != [] && !TakenAsDefault(t, d, ports)
  {
    hide Stepped, Sound, WellFormed, RuleOf, RequestOf, RecordOf, M.AllFit, M.AllSupported, Fresh, Physical,
      TakenAsDefault, ActionOf, Restored, SameMatch;
    AddedParts(s, m, p, ports);
    var t := Stepped(s, m, p, ports);
    SameFields(m, d);
    if d.instruction == [] {
      Ignored(t, d, q, ports);
      NotRestored(s, m, p, ports, t);
    } else if TakenAsDefault(t, d, ports) {
      MadeDefault(t, d, q, ports);
      NotRestored(s, m, p, ports, Stepped(t, d, q, ports));
    } else {
      DeleteRestores(s, m, p, d, q, ports);
    }
  }

  lemma SameFields(m: Message, d: Message)
    requires SameMatch(m, d)
    ensures d.fields == m.fields
  {
  }

  lemma NotRestored(s: Agent, m: Message, p: Address, ports: Ports, u: Agent)
    requires s.Shaped() && u.Shaped() && Compiles(m) && m.instruction != [] && FindFree(s.table.rules) < RULES
    requires var r := RequestOf(m, ports, p);
             u.table.rules == s.table.rules[FindFree(s.table.rules) := r.(key := Physical(r.key, ports), valid := 1)]
    ensures !Restored(s, u)
  {
    hide RequestOf, Physical;
    var idx := FindFree(s.table.rules);
    assert Live(u.table.rules[idx]) && !Live(s.table.rules[idx]);
  }

  lemma DeleteRestores(s: Agent, m: Message, p: Address, d: Message, q: Address, ports: Ports)
    requires s.Shaped() && WellFormed(m) && Sound(s) && Fresh(s, p) && AddsNew(s, m, ports)
    requires WellFormed(d) && d.command == DeleteStrict && SameMatch(m, d) && Fresh(Stepped(s, m, p, ports), q)
    requires Reaches(Stepped(s, m, p, ports), d, ports)
    ensures Restored(s, Stepped(Stepped(s, m, p, ports), d, q, ports))
  {
    hide Stepped, Sound, WellFormed, RuleOf, RequestOf, RecordOf, M.AllFit, M.AllSupported, Physical, Reaches,
      Fresh,
      ActionOf, Dropped, Live, SameMatch, Freed, Restored, Carries;
    var t := Stepped(s, m, p, ports);
    AddedParts(s, m, p, ports);
    ReachesRule(t, d, q, ports);
    SameRule(m, d);
    RequestFields(d, ports, q);
    var idx := FindFree(s.table.rules);
    FreeSlotIsBlank(s, idx);
    var u := Stepped(t, d, q, ports);
    DroppedParts(t, idx, q, RecordOf(d));
    PutBack(s.table.rules, idx, t.table.rules[idx]);
    PutBack(s.stats, idx, p);
    StepSound(t, d, q, ports);
    ActionsFromRecords(s, u);
    AllBack(s, u);
  }

  lemma PutBack<T>(xs: seq<T>, idx: nat, x: T)
    requires idx < |xs|
    ensures xs[idx := x][idx := xs[idx]] == xs
  {
  }

  lemma AllBack(s: Agent, u: Agent)
    requires s.Shaped() && u.Shaped() && u.table.rules == s.table.rules && u.stats == s.stats
    requires forall i :: 0 <= i < RULES ==> ActionOf(u.table.regs, i) == ActionOf(s.table.regs, i)
    ensures Restored(s, u)
  {
  }

  lemma DroppedParts(s: Agent, idx: nat, p: Address, record: seq<Byte>)
    requires s.Shaped() && idx < RULES
    ensures var u := Dropped(s, idx, p, record);
            && u.table.rules == s.table.rules[idx := ZERO_RULE] && u.stats == s.stats[idx := 0]
            && u.heap == Freed(s.heap[p := record], s.stats[idx])
  {
    hide Deleted, WrittenAction;
    DeletedRules(ActionSet(s.table, idx, 0), idx);
  }

  /** In sound states the action registers are determined by the rules and the records. */
  lemma ActionsFromRecords(s: Agent, u: Agent)
    requires s.Shaped() && u.Shaped() && Sound(s) && Sound(u)
    requires u.table.rules == s.table.rules && u.stats == s.stats
    ensures forall i :: 0 <= i < RULES ==> ActionOf(u.table.regs, i) == ActionOf(s.table.regs, i)
  {
    hide Unique, Pictured, RecordsInStep, GoodHeap, ActionOf;
  }

  // ---------------------------------------------------------------- strict modification

  /** The same masked comparison for every key, when only the byte of the input port differs. */
  lemma PortByteDecides(a: Key, v: bv8, mask: Key)
    ensures (forall k: Key :: MaskedEqual(a, k, mask) <==> MaskedEqual(Put(a, PORT, [v]), k, mask))
            <==> ByteMatches(a[PORT], v, mask[PORT])
  {
    hide ByteMatches;
    var b := Put(a, PORT, [v]);
    assert b[PORT] == v && forall j :: 0 <= j < KEY_BYTES && j != PORT ==> b[j] == a[j];
    forall j | 0 <= j < KEY_BYTES
      ensures ByteMatches(a[j], a[j], mask[j])
    {
      SameByte(a[j], mask[j]);
    }
    assert MaskedEqual(a, a, mask);
    ByteSymmetric(v, a[PORT], mask[PORT]);
    if ByteMatches(a[PORT], v, mask[PORT]) {
      forall k: Key
        ensures MaskedEqual(a, k, mask) <==> MaskedEqual(b, k, mask)
      {
        ByteTransitive(a[PORT], v, k[PORT], mask[PORT]);
      }
    }
  }

  lemma SameByte(a: bv8, m: bv8)
    ensures ByteMatches(a, a, m)
  {
  }

  lemma ByteSymmetric(a: bv8, b: bv8, m: bv8)
    ensures ByteMatches(a, b, m) <==> ByteMatches(b, a, m)
  {
  }

  lemma ByteTransitive(a: bv8, b: bv8, c: bv8, m: bv8)
    requires ByteMatches(a, b, m)
    ensures ByteMatches(a, c, m) <==> ByteMatches(b, c, m)
  {
  }

  /** What a strict modification that reaches the rule of an add leaves in its slot. */
  lemma ModifiedParts(s: Agent, m: Message, p: Address, c: Message, q: Address, ports: Ports)
    requires s.Shaped() && WellFormed(m) && Sound(s) && Fresh(s, p) && AddsNew(s, m, ports)
    requires WellFormed(c) && c.command == ModifyStrict && SameMatch(m, c) && Reaches(Stepped(s, m, p, ports), c, ports)
    ensures Compiles(m)
    ensures var idx := FindFree(s.table.rules);
            var r, after := RuleOf(m), Stepped(Stepped(s, m, p, ports), c, q, ports).table.rules[idx];
            Live(after) && after.key == r.key && after.mask == r.mask && after.priority == r.priority
  {
    hide Stepped, Sound, WellFormed, RuleOf, RequestOf, RecordOf, M.AllFit, M.AllSupported, Physical, Reaches,
      Fresh,
      SameMatch, Stored, Carries, Freed, WrittenAction;
    var t := Stepped(s, m, p, ports);
    AddedParts(s, m, p, ports);
    ReachesRule(t, c, q, ports);
    SameRule(m, c);
    RequestFields(c, ports, q);
    StoredRules(t.table, FindFree(s.table.rules), RequestOf(c, ports, q), t.table.cnt);
  }

  /** Strict modification stores the match without translating the input port, which the add
      did: the key stays exactly when the translation changes nothing, and the rule goes on
      selecting the same packets exactly when the two ports agree where the mask looks. */
  lemma StrictModifyKeepsMatch(s: Agent, m: Message, p: Address, c: Message, q: Address, ports: Ports)
    requires s.Shaped() && WellFormed(m) && Sound(s) && Fresh(s, p) && AddsNew(s, m, ports)
    requires WellFormed(c) && c.command == ModifyStrict && SameMatch(m, c) && Reaches(Stepped(s, m, p, ports), c, ports)
    ensures Compiles(m)
    ensures var idx, r := FindFree(s.table.rules), RuleOf(m); var t := Stepped(s, m, p, ports);
            var before, after := t.table.rules[idx], Stepped(t, c, q, ports).table.rules[idx];
            && after.mask == before.mask && after.priority == before.priority
            && (after.key == before.key <==> Physical(r.key, ports) == r.key)
            && ((forall k: Key :: Selects(before, k) <==> Selects(after, k))
                <==> ByteMatches(r.key[PORT], Physical(r.key, ports)[PORT], r.mask[PORT]))
  {
    hide Stepped, Sound, WellFormed, RuleOf, RequestOf, RecordOf, M.AllFit, M.AllSupported, Reaches, Fresh,
      SameMatch, MaskedEqual, ByteMatches, Put, Physical;
    ModifiedParts(s, m, p, c, q, ports);
    AddedParts(s, m, p, ports);
    RequestFields(m, ports, p);
    var idx, r := FindFree(s.table.rules), RuleOf(m);
    var t := Stepped(s, m, p, ports);
    var before, after := t.table.rules[idx], Stepped(t, c, q, ports).table.rules[idx];
    PhysicalIsPut(r.key, ports);
    PortByteDecides(r.key, Physical(r.key, ports)[PORT], r.mask);
    assert forall k: Key :: Selects(before, k) <==> MaskedEqual(Physical(r.key, ports), k, r.mask);
    assert forall k: Key :: Selects(after, k) <==> MaskedEqual(r.key, k, r.mask);
  }

  lemma PhysicalIsPut(key: Key, ports: Ports)
    ensures Physical(key, ports) == Put(key, PORT, [Physical(key, ports)[PORT]])
  {
  }

  /** A match on logical port 1, which is physical port 2: the add selects packets of port 2,
      and the strict modification changes that to port 1. */
  lemma ModifyMovesPort(m: Message, ports: Ports)
    requires Compiles(m) && m.fields == [M.Tlv(M.IN_PORT, false, 4, [0, 0, 0, 1])] && ports[1] == 2
    ensures RuleOf(m).key[PORT] == 0x10 && Physical(RuleOf(m).key, ports)[PORT] == 0x20
    ensures !ByteMatches(RuleOf(m).key[PORT], Physical(RuleOf(m).key, ports)[PORT], RuleOf(m).mask[PORT])
  {
    hide WellFormed, Identity, HostPriority;
    var c := M.Compile(m.fields);
    var none := m.fields[..|m.fields| - 1];
    assert none == [] && M.Compile(none) == M.BLANK;
    assert c == M.Apply(M.Compile(none), m.fields[0]);
    BlankBytes();
    OnePort();
    assert c.key[PORT] == 0x10 && c.mask[PORT] == 0xF0;
  }

  lemma BlankBytes()
    ensures M.BLANK.key[PORT] == 0 && M.BLANK.mask[PORT] == 0
  {
  }

  lemma OnePort()
    ensures (0 & 0x0F) | (1 << 4) == 0x10 as bv8 && 0 | 0xF0 == 0xF0 as bv8
    ensures (0x10 as bv8 >> 4) as nat == 1
    ensures (0x10 & 0x0F) | (2 << 4) == 0x20 as bv8
  {
  }

  // ---------------------------------------------------------------- lost records

  /** Every allocated record is the record of some slot. */
  predicate NoneLost(s: Agent) {
    forall h :: h in s.heap ==> h in s.stats
  }

  /** Strict deletion of a rule that is there, and an insertion with nowhere to go. */
  predicate LosesRecord(s: Agent, m: Message, d: Digest)
    requires s.Shaped()
  {
    if FindDigest(s.table.rules, d) < RULES then m.command == DeleteStrict else MayInsert(m) && Full(s.table.rules)
  }

  /** A message leaves a record nobody refers to exactly when it reaches its rule and finds one
      of those two cases. */
  lemma RecordsLost(s: Agent, m: Message, p: Address, ports: Ports)
    requires s.Shaped() && WellFormed(m) && Sound(s) && Fresh(s, p) && NoneLost(s)
    ensures Reaches(s, m, ports) ==> Compiles(m)
    ensures NoneLost(Stepped(s, m, p, ports))
            <==> !(Reaches(s, m, ports) && LosesRecord(s, m, RuleOf(m).digest))
  {
    hide Sound, WellFormed, RuleOf, RequestOf, RecordOf, Resolved, LosesRecord, NoneLost, DefaultSet, Stepped,
      M.AllFit, M.AllSupported, TakenAsDefault, Silenced, Cleaned, Fresh;
    if Reaches(s, m, ports) {
      ReachesRule(s, m, p, ports);
      RequestFields(m, ports, p);
      ResolvedLoses(s, m, RequestOf(m, ports, p), p, ports, RecordOf(m));
    } else if m.command == FlowMod.Delete {
      Deletion(s, m, p, ports);
      SilencedLosesNone(s, RULES);
      CleanedLosesNone(s, m.cookie, RULES);
    } else if m.instruction == [] || !M.AllSupported(m.fields) {
      Ignored(s, m, p, ports);
    } else {
      MadeDefault(s, m, p, ports);
      FreeDefault(s, m, ports);
      DefaultLosesNone(s, VerdictOf(m, ports).action, p, RecordOf(m));
    }
  }

  lemma Deletion(s: Agent, m: Message, p: Address, ports: Ports)
    requires s.Shaped() && WellFormed(m) && m.command == FlowMod.Delete
    ensures Stepped(s, m, p, ports) == if m.cookieMask == 0 then Silenced(s, RULES) else Cleaned(s, m.cookie, RULES)
  {
    hide Silenced, Cleaned, WellFormed;
  }

  lemma FreeDefault(s: Agent, m: Message, ports: Ports)
    requires s.Shaped() && WellFormed(m) && m.instruction != [] && TakenAsDefault(s, m, ports)
    ensures s.stats[DEFAULT_SLOT] == 0
  {
  }

  lemma DefaultLosesNone(s: Agent, action: bv32, p: Address, record: seq<Byte>)
    requires s.Shaped() && Sound(s) && Fresh(s, p) && NoneLost(s) && s.stats[DEFAULT_SLOT] == 0
    ensures NoneLost(DefaultSet(s, action, p, record))
  {
    hide Sound, WrittenAction;
    NotARecord(s, p);
    SlotKeeps(s.stats, DEFAULT_SLOT, p, s.heap);
  }

  /** Freeing the record of a slot and forgetting it loses none. */
  lemma ForgetLosesNone(s: Agent, idx: nat)
    requires s.Shaped() && Sound(s) && NoneLost(s) && idx < RULES
    ensures forall h :: h in Freed(s.heap, s.stats[idx]) ==> h in s.stats[idx := 0]
  {
    hide Sound;
    NoNull(s);
    forall h | h in Freed(s.heap, s.stats[idx])
      ensures h in s.stats[idx := 0]
    {
      var k :| 0 <= k < SLOTS && s.stats[k] == h;
      assert s.stats[idx := 0][k] == h;
    }
  }

  lemma NoNull(s: Agent)
    requires s.Shaped() && Sound(s)
    ensures 0 !in s.heap
  {
    hide Unique, Pictured, ActsOnRecords, RecordsInStep, GoodRecord;
  }

  lemma {:induction false} SilencedLosesNone(s: Agent, n: nat)
    requires s.Shaped() && Sound(s) && NoneLost(s) && n <= RULES
    ensures NoneLost(Silenced(s, n))
  {
    hide Sound, ActionSet, Freed;
    if n > 0 {
      SilencedLosesNone(s, n - 1);
      SilencedSound(s, n - 1);
      ForgetLosesNone(Silenced(s, n - 1), n - 1);
    }
  }

  lemma {:induction false} CleanedLosesNone(s: Agent, cookie: seq<Byte>, n: nat)
    requires s.Shaped() && Sound(s) && NoneLost(s) && n <= RULES
    ensures NoneLost(Cleaned(s, cookie, n))
  {
    hide Sound, ActionSet, Freed, Deleted, HasCookie;
    if n > 0 {
      CleanedLosesNone(s, cookie, n - 1);
      CleanedSound(s, cookie, n - 1);
      ForgetLosesNone(Cleaned(s, cookie, n - 1), n - 1);
    }
  }

  lemma ResolvedLoses(s: Agent, m: Message, r: Rule, p: Address, ports: Ports, record: seq<Byte>)
    requires s.Shaped() && Sound(s) && Fresh(s, p) && NoneLost(s)
    ensures NoneLost(Resolved(s, m, r, p, ports, record)) <==> !LosesRecord(s, m, r.digest)
  {
    hide Sound, Added, Deleted, Modified, ActionSet, Carries, Live, Physical;
    SoundRecords(s);
    var idx := FindDigest(s.table.rules, r.digest);
    var u := Resolved(s, m, r, p, ports, record);
    if idx == RULES {
      if MayInsert(m) {
        InsertLoses(s, r.(key := Physical(r.key, ports)), p, record);
      }
    } else if m.command == DeleteStrict {
      assert p in u.heap && p !in u.stats by { NotARecord(s, p); }
    } else if m.command == ModifyStrict {
      ReplaceLosesNone(s, idx, r, p, record);
    }
  }

  lemma NotARecord(s: Agent, p: Address)
    requires s.Shaped() && Sound(s) && Fresh(s, p)
    ensures p !in s.stats && 0 !in s.heap
  {
    hide Unique, Pictured, ActsOnRecords, GoodRecord;
  }

  lemma InsertLoses(s: Agent, r: Rule, p: Address, record: seq<Byte>)
    requires s.Shaped() && Sound(s) && Fresh(s, p) && NoneLost(s) && FindDigest(s.table.rules, r.digest) == RULES
    ensures NoneLost(Inserted(s, r, p, record)) <==> !Full(s.table.rules)
  {
    hide Sound, Added, Carries;
    NotARecord(s, p);
    var u := Inserted(s, r, p, record);
    var idx := FindFree(s.table.rules);
    if idx < RULES {
      FreeSlotIsBlank(s, idx);
      SlotKeeps(s.stats, idx, p, s.heap);
    } else {
      assert p in u.heap && p !in u.stats;
    }
  }

  lemma SlotKeeps(stats: seq<Address>, idx: nat, p: Address, heap: map<Address, seq<Byte>>)
    requires idx < |stats| && p != 0 && (stats[idx] != 0 ==> stats[idx] !in heap)
    requires forall h :: h in heap ==> h in stats
    requires 0 !in heap
    ensures p in stats[idx := p] && forall h :: h in heap ==> h in stats[idx := p]
  {
    var after := stats[idx := p];
    assert after[idx] == p;
    forall h | h in heap
      ensures h in after
    {
      var k :| 0 <= k < |stats| && stats[k] == h;
      assert after[k] == h;
    }
  }

  lemma ReplaceLosesNone(s: Agent, idx: nat, r: Rule, p: Address, record: seq<Byte>)
    requires s.Shaped() && Sound(s) && Fresh(s, p) && NoneLost(s) && idx < RULES
    ensures NoneLost(Replaced(s, idx, r, p, record))
  {
    hide Sound, Modified, ActionSet;
    NotARecord(s, p);
    SlotKeeps(s.stats, idx, p, Freed(s.heap, s.stats[idx]));
    var u := Replaced(s, idx, r, p, record);
    forall h | h in u.heap
      ensures h in u.stats
    {
      assert h == p || h in Freed(s.heap, s.stats[idx]);
    }
  }
}

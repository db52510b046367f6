/** What holds of the agent's flow state over every run of flow_mods: records and rules stay
    in step, no record is freed twice or used after it is freed, and the hardware acts on
    exactly the rules that have a record. */
module FlowAgentRuns {
  import opened RuleMatch
  import opened RuleTable
  import opened RuleTableRuns
  import opened FlowMod
  import opened NetworkOrder
  import opened FlowAgent
  import M = FlowMatch

  /** A record says its own length. */
  predicate GoodRecord(r: seq<Byte>) { RECORD_HEADER <= |r| <= LONGEST && RECORD_HEADER <= Number(r, 0) <= |r| }

  /** The record of a rule belongs to that live rule, and a live rule was given a record once;
      records are allocated and unshared. */
  predicate RecordsInStep(s: Agent)
    requires s.Shaped()
  {
    && (forall i :: 0 <= i < RULES && s.stats[i] != 0 ==>
          Live(s.table.rules[i]) && s.table.rules[i].stats == s.stats[i])
    && (forall i :: 0 <= i < RULES && Live(s.table.rules[i]) ==> s.table.rules[i].stats != 0)
    && (forall i :: 0 <= i < SLOTS && s.stats[i] != 0 ==> s.stats[i] in s.heap)
    && (forall i, j :: 0 <= i < j < SLOTS && s.stats[i] != 0 ==> s.stats[i] != s.stats[j])
  }

  predicate GoodHeap(s: Agent) {
    forall h :: h in s.heap ==> h != 0 && GoodRecord(s.heap[h])
  }

  /** A slot with a record does what its rule says, and one without does nothing. */
  predicate ActsOnRecords(s: Agent)
    requires s.Shaped()
  {
    forall i :: 0 <= i < RULES ==>
      ActionOf(s.table.regs, i) == if s.stats[i] != 0 then s.table.rules[i].action else 0
  }

  predicate Sound(s: Agent)
    requires s.Shaped()
  {
    RecordsInStep(s) && GoodHeap(s) && ActsOnRecords(s) && Pictured(s.table) && Unique(s.table.rules)
  }

  // ---------------------------------------------------------------- one slot changes

  /** Only slot idx of the table changes: it gets rule r and action a. */
  predicate TableChange(s: Table, t: Table, idx: nat, r: Rule, a: bv32)
    requires s.Shaped() && t.Shaped() && idx < RULES
  {
    && t.rules == s.rules[idx := r]
    && (forall i :: 0 <= i < RULES ==>
          ActionOf(t.regs, i) == if i == idx then a else ActionOf(s.regs, i))
    && DefaultAction(t.regs) == DefaultAction(s.regs)
  }

  /** Nothing but gone is freed, and what is new is a good record. */
  predicate HeapChange(s: map<Address, seq<Byte>>, t: map<Address, seq<Byte>>, gone: Address) {
    && (forall h :: h in s && h != gone ==> h in t)
    && (forall h :: h in t ==> (h in s && t[h] == s[h]) || (h != 0 && GoodRecord(t[h])))
  }

  /** From s to t only slot idx changes: it gets rule r, record q and action a. */
  predicate SlotChange(s: Agent, t: Agent, idx: nat, r: Rule, q: Address, a: bv32)
    requires s.Shaped() && t.Shaped() && idx < RULES
  {
    && TableChange(s.table, t.table, idx, r, a)
    && t.stats == s.stats[idx := q]
    && HeapChange(s.heap, t.heap, s.stats[idx])
    && (q != 0 ==> q in t.heap && q !in s.heap && Live(r) && r.stats == q && a == r.action)
    && (q == 0 ==> a == 0)
    && (Live(r) ==> r.stats != 0)
  }

  lemma FreedChange(s: map<Address, seq<Byte>>, gone: Address)
    ensures HeapChange(s, Freed(s, gone), gone)
  {
  }

  lemma SwappedChange(s: map<Address, seq<Byte>>, p: Address, record: seq<Byte>, gone: Address)
    requires GoodRecord(record) && p != 0 && p !in s && p != gone
    ensures HeapChange(s, Freed(s[p := record], gone), gone) && p in Freed(s[p := record], gone)
  {
  }

  lemma GrownChange(s: map<Address, seq<Byte>>, p: Address, record: seq<Byte>, gone: Address)
    requires GoodRecord(record) && p != 0 && p !in s
    ensures HeapChange(s, s[p := record], gone)
  {
  }

  lemma ChangeKeepsSound(s: Agent, t: Agent, idx: nat, r: Rule, q: Address, a: bv32)
    requires s.Shaped() && t.Shaped() && idx < RULES && Sound(s) && SlotChange(s, t, idx, r, q, a)
    requires Pictured(t.table) && Unique(t.table.rules)
    ensures Sound(t) && DefaultAction(t.table.regs) == DefaultAction(s.table.regs)
  {
    hide Pictured, Unique, ActionOf, DefaultAction, GoodRecord, Live;
    ChangeKeepsRecords(s, t, idx, r, q, a);
  }

  lemma ChangeKeepsRecords(s: Agent, t: Agent, idx: nat, r: Rule, q: Address, a: bv32)
    requires s.Shaped() && t.Shaped() && idx < RULES && RecordsInStep(s) && SlotChange(s, t, idx, r, q, a)
    ensures RecordsInStep(t)
  {
    hide ActionOf, DefaultAction, GoodRecord, Live;
    forall i | 0 <= i < SLOTS && t.stats[i] != 0
      ensures t.stats[i] in t.heap
    {
      if i != idx && s.stats[idx] != 0 {
        assert s.stats[i] != s.stats[idx];
      }
    }
  }

  // ---------------------------------------------------------------- the action registers

  lemma ActionElsewhere(t: Table, addr: nat, a: bv32, w: nat)
    requires addr % 8 == 0 && addr <= DEFAULT_RULE && w < REG_WORDS
    ensures WrittenAction(t.regs, addr, a)[w]
            == if w == ActionWord(addr) then a else if w == ActionWord(addr) - 1 then 0 else t.regs[w]
  {
    hide WrittenAction;
    ActionAt(t.regs, addr, a);
  }

  /** Writing an action register changes that action and no rule word. */
  lemma ActionSetFacts(t: Table, addr: nat, a: bv32)
    requires t.Shaped() && addr % 8 == 0 && addr <= DEFAULT_RULE
    ensures var t' := t.(regs := WrittenAction(t.regs, addr, a));
            && (Pictured(t') <==> Pictured(t))
            && (forall i :: 0 <= i < RULES ==>
                  ActionOf(t'.regs, i) == if addr == i * 8 then a else ActionOf(t.regs, i))
            && DefaultAction(t'.regs) == (if addr == DEFAULT_RULE then a else DefaultAction(t.regs))
  {
    hide WrittenAction, Half;
    var t' := t.(regs := WrittenAction(t.regs, addr, a));
    forall i | 0 <= i < RULES
      ensures Image(t'.regs, i, t.rules[i]) <==> Image(t.regs, i, t.rules[i])
      ensures ActionOf(t'.regs, i) == if addr == i * 8 then a else ActionOf(t.regs, i)
    {
      forall h | 0 <= h < 38
        ensures t'.regs[RuleWord(i, h)] == t.regs[RuleWord(i, h)]
      {
        ActionElsewhere(t, addr, a, RuleWord(i, h));
      }
      ActionElsewhere(t, addr, a, ActionWord(i * 8));
    }
    ActionElsewhere(t, addr, a, ActionWord(DEFAULT_RULE));
  }

  // ---------------------------------------------------------------- each transition

  predicate Fresh(s: Agent, p: Address) { p != 0 && p !in s.heap }

  lemma InsertedSound(s: Agent, r: Rule, p: Address, record: seq<Byte>)
    requires s.Shaped() && Sound(s) && Fresh(s, p) && GoodRecord(record) && r.stats == p
    requires FindDigest(s.table.rules, r.digest) == RULES
    ensures Sound(Inserted(s, r, p, record))
    ensures DefaultAction(Inserted(s, r, p, record).table.regs) == DefaultAction(s.table.regs)
  {
    hide Pictured, Unique, ActionOf, DefaultAction, GoodRecord, Stored, Sound, Carries;
    if FindFree(s.table.rules) < RULES {
      InsertedSlot(s, r, p, record);
    } else {
      GrownHeap(s, p, record);
    }
  }

  lemma InsertedSlot(s: Agent, r: Rule, p: Address, record: seq<Byte>)
    requires s.Shaped() && Sound(s) && Fresh(s, p) && GoodRecord(record) && r.stats == p
    requires FindDigest(s.table.rules, r.digest) == RULES && FindFree(s.table.rules) < RULES
    ensures Sound(Inserted(s, r, p, record))
    ensures DefaultAction(Inserted(s, r, p, record).table.regs) == DefaultAction(s.table.regs)
  {
    hide Pictured, Unique, ActionOf, DefaultAction, HeapChange, GoodRecord, Stored, Sound, Carries, Inserted, Added;
    var idx := FindFree(s.table.rules);
    SoundParts(s);
    InsertedIs(s, r, p, record);
    StoredPicture(s.table, idx, r, s.table.cnt + 1);
    AddedUnique(s.table, r);
    GrownChange(s.heap, p, record, s.stats[idx]);
    ChangeKeepsSound(s, Inserted(s, r, p, record), idx, r.(valid := 1), p, r.action);
  }

  lemma InsertedIs(s: Agent, r: Rule, p: Address, record: seq<Byte>)
    requires s.Shaped() && FindDigest(s.table.rules, r.digest) == RULES && FindFree(s.table.rules) < RULES
    ensures var idx := FindFree(s.table.rules);
            && Added(s.table, r) == Stored(s.table.(cnt := s.table.cnt + 1), idx, r)
            && Inserted(s, r, p, record) == Agent(Added(s.table, r), s.stats[idx := p], s.heap[p := record])
  {
    hide Stored, Carries;
  }

  lemma LivePointer(s: Agent, i: nat)
    requires s.Shaped() && Sound(s) && i < RULES
    ensures Live(s.table.rules[i]) ==> s.table.rules[i].stats != 0
  {
    hide Pictured, Unique, ActsOnRecords;
  }

  lemma OldRecord(s: Agent, idx: nat, p: Address)
    requires s.Shaped() && Sound(s) && Fresh(s, p) && idx < RULES
    ensures s.stats[idx] != p
  {
    hide Pictured, Unique, ActsOnRecords;
  }

  lemma SoundParts(s: Agent)
    requires s.Shaped() && Sound(s)
    ensures Pictured(s.table) && Unique(s.table.rules) && GoodHeap(s) && RecordsInStep(s)
  {
  }

  lemma AddedUnique(t: Table, r: Rule)
    requires t.Shaped() && Unique(t.rules)
    ensures Unique(Added(t, r).rules)
  {
    hide Added;
    StepUnique(t, RuleTableRuns.Add(r));
  }

  lemma DeletedUnique(t: Table, idx: nat)
    requires t.Shaped() && Unique(t.rules)
    ensures Unique(Deleted(t, idx).rules)
  {
    hide Deleted;
    StepUnique(t, RuleTableRuns.Delete(idx));
  }

  lemma ModifiedUnique(t: Table, r: Rule, idx: nat)
    requires t.Shaped() && Unique(t.rules) && idx < RULES && Carries(t.rules[idx], r.digest)
    ensures Unique(Modified(t, r, idx).rules)
  {
    hide Modified;
    StepUnique(t, RuleTableRuns.Modify(r, idx));
  }

  /** An allocation nobody refers to changes nothing else. */
  lemma GrownHeap(s: Agent, p: Address, record: seq<Byte>)
    requires s.Shaped() && Sound(s) && GoodRecord(record) && p != 0
    ensures Sound(s.(heap := s.heap[p := record]))
  {
    hide Pictured, Unique, ActionOf, Number, Live;
  }

  lemma DroppedSound(s: Agent, idx: nat, p: Address, record: seq<Byte>)
    requires s.Shaped() && Sound(s) && Fresh(s, p) && GoodRecord(record) && idx < RULES
    ensures Sound(Dropped(s, idx, p, record))
    ensures DefaultAction(Dropped(s, idx, p, record).table.regs) == DefaultAction(s.table.regs)
  {
    hide Pictured, Unique, ActionOf, DefaultAction, HeapChange, Freed, GoodRecord, WrittenAction, Deleted, Sound;
    SoundParts(s);
    ActionSetFacts(s.table, idx * 8, 0);
    var t := ActionSet(s.table, idx, 0);
    DeletedPicture(t, idx);
    DeletedUnique(t, idx);
    OldRecord(s, idx, p);
    SwappedChange(s.heap, p, record, s.stats[idx]);
    ChangeKeepsSound(s, Dropped(s, idx, p, record), idx, ZERO_RULE, 0, 0);
  }

  lemma ReplacedSound(s: Agent, idx: nat, r: Rule, p: Address, record: seq<Byte>)
    requires s.Shaped() && Sound(s) && Fresh(s, p) && GoodRecord(record) && r.stats == p
    requires idx < RULES && Carries(s.table.rules[idx], r.digest)
    ensures Sound(Replaced(s, idx, r, p, record))
    ensures DefaultAction(Replaced(s, idx, r, p, record).table.regs) == DefaultAction(s.table.regs)
  {
    hide Pictured, Unique, ActionOf, DefaultAction, HeapChange, Freed, GoodRecord, WrittenAction, Stored, Sound;
    SoundParts(s);
    StoredPicture(s.table, idx, r, s.table.cnt);
    ModifiedUnique(s.table, r, idx);
    ActionSetFacts(Modified(s.table, r, idx), idx * 8, r.action);
    OldRecord(s, idx, p);
    SwappedChange(s.heap, p, record, s.stats[idx]);
    ChangeKeepsSound(s, Replaced(s, idx, r, p, record), idx, r.(valid := 1), p, r.action);
  }

  lemma WithdrawnSound(s: Agent, idx: nat)
    requires s.Shaped() && Sound(s) && idx < RULES
    ensures Sound(Withdrawn(s, idx))
    ensures DefaultAction(Withdrawn(s, idx).table.regs) == DefaultAction(s.table.regs)
  {
    hide Pictured, Unique, ActionOf, DefaultAction, HeapChange, Freed, GoodRecord, WrittenAction, Deleted, Sound;
    SoundParts(s);
    DeletedPicture(s.table, idx);
    DeletedUnique(s.table, idx);
    ActionSetFacts(Deleted(s.table, idx), idx * 8, 0);
    FreedChange(s.heap, s.stats[idx]);
    ChangeKeepsSound(s, Withdrawn(s, idx), idx, ZERO_RULE, 0, 0);
  }

  lemma {:induction false} SilencedSound(s: Agent, n: nat)
    requires s.Shaped() && Sound(s) && n <= RULES
    ensures Sound(Silenced(s, n))
    ensures DefaultAction(Silenced(s, n).table.regs) == DefaultAction(s.table.regs)
    ensures Silenced(s, n).table.rules == s.table.rules
    ensures forall i :: 0 <= i < SLOTS ==> Silenced(s, n).stats[i] == if i < n then 0 else s.stats[i]
  {
    hide Pictured, Unique, ActionOf, DefaultAction, HeapChange, Freed, GoodRecord, WrittenAction, Sound;
    if n > 0 {
      SilencedSound(s, n - 1);
      var b, i := Silenced(s, n - 1), n - 1;
      SoundParts(b);
      ActionSetFacts(b.table, i * 8, 0);
      assert b.table.rules[i := b.table.rules[i]] == b.table.rules;
      FreedChange(b.heap, b.stats[i]);
      LivePointer(b, i);
      ChangeKeepsSound(b, Silenced(s, n), i, b.table.rules[i], 0, 0);
    }
  }

  lemma {:induction false} CleanedSound(s: Agent, cookie: seq<Byte>, n: nat)
    requires s.Shaped() && Sound(s) && n <= RULES
    ensures Sound(Cleaned(s, cookie, n))
    ensures DefaultAction(Cleaned(s, cookie, n).table.regs) == DefaultAction(s.table.regs)
  {
    hide Withdrawn, Sound, DefaultAction, HasCookie;
    if n > 0 {
      CleanedSound(s, cookie, n - 1);
      WithdrawnSound(Cleaned(s, cookie, n - 1), n - 1);
    }
  }

  lemma DefaultSetSound(s: Agent, action: bv32, p: Address, record: seq<Byte>)
    requires s.Shaped() && Sound(s) && Fresh(s, p) && GoodRecord(record) && s.stats[DEFAULT_SLOT] == 0
    ensures Sound(DefaultSet(s, action, p, record))
    ensures DefaultAction(DefaultSet(s, action, p, record).table.regs) == action
  {
    hide Pictured, Unique, ActionOf, DefaultAction, Number, WrittenAction, Live;
    ActionSetFacts(s.table, DEFAULT_RULE, action);
  }

  // ---------------------------------------------------------------- messages

  lemma RecordIsGood(m: Message)
    requires WellFormed(m)
    ensures GoodRecord(RecordOf(m)) && CookieOf(RecordOf(m)) == m.cookie
    ensures Number(RecordOf(m), 0) == EntryLength(m)
  {
    hide MatchBytes, M.EncodeAll, HeaderOf, WellFormed, Number, FlowMod.RoundUp8, Zeros;
    Sizes(m);
    var body, length := MatchBytes(m.fields), EntryLength(m);
    var h := HeaderOf(m, length);
    HeaderReads(m, length);
    PrefixReads(h, body + m.instruction + Zeros(|m.rest|));
    assert RecordOf(m) == h + (body + m.instruction + Zeros(|m.rest|));
  }

  lemma PrefixReads(h: seq<Byte>, rest: seq<Byte>)
    requires |h| == RECORD_HEADER
    ensures Number(h + rest, 0) == Number(h, 0) && (h + rest)[24..32] == h[24..32]
  {
  }

  lemma HeaderReads(m: Message, length: nat)
    requires WellFormed(m) && length < 0x10000
    ensures Number(HeaderOf(m, length), 0) == length && HeaderOf(m, length)[24..32] == m.cookie
  {
    hide Zeros, M.EncodeAll, Network;
    var h := FlowHeader(m, length);
    assert h[0] == Network(length)[0] && h[1] == Network(length)[1];
    assert h[24..32] == m.cookie;
    assert HeaderOf(m, length)[24..32] == h[24..32];
  }

  lemma FieldsFit(m: Message)
    requires WellFormed(m) && M.AllSupported(m.fields)
    ensures M.AllFit(m.fields)
  {
    FitWhenSupported(m.fields);
  }

  lemma ResolvedSound(s: Agent, m: Message, r: Rule, p: Address, ports: Ports, record: seq<Byte>)
    requires s.Shaped() && Sound(s) && Fresh(s, p) && GoodRecord(record) && r.stats == p
    ensures Sound(Resolved(s, m, r, p, ports, record))
    ensures DefaultAction(Resolved(s, m, r, p, ports, record).table.regs) == DefaultAction(s.table.regs)
  {
    hide Sound, Inserted, Dropped, Replaced, GoodRecord, Physical, DefaultAction;
    var idx := FindDigest(s.table.rules, r.digest);
    if idx == RULES {
      InsertedSound(s, r.(key := Physical(r.key, ports)), p, record);
    } else {
      DroppedSound(s, idx, p, record);
      ReplacedSound(s, idx, r, p, record);
    }
  }

  lemma HandledSound(s: Agent, m: Message, p: Address, ports: Ports)
    requires s.Shaped() && WellFormed(m) && Sound(s) && Fresh(s, p)
    ensures Sound(Handled(s, m, p, ports))
  {
    hide Sound, WellFormed, RuleOf, RecordOf, Resolved, DefaultSet, Verdicts, GoodRecord, M.AllSupported;
    if m.instruction != [] && M.AllSupported(m.fields) {
      FieldsFit(m);
      RecordIsGood(m);
      var v, record := VerdictOf(m, ports), RecordOf(m);
      if v.isDefault && s.stats[DEFAULT_SLOT] == 0 {
        DefaultSetSound(s, v.action, p, record);
      } else {
        ResolvedSound(s, m, Equipped(RuleOf(m), v.action, EntryLength(m), p), p, ports, record);
      }
    }
  }

  lemma StepSound(s: Agent, m: Message, p: Address, ports: Ports)
    requires s.Shaped() && WellFormed(m) && Sound(s) && Fresh(s, p)
    ensures Sound(Stepped(s, m, p, ports))
  {
    hide Sound, WellFormed, Handled, Silenced, Cleaned;
    if m.command != FlowMod.Delete {
      HandledSound(s, m, p, ports);
    } else {
      SilencedSound(s, RULES);
      CleanedSound(s, m.cookie, RULES);
    }
  }

  // ---------------------------------------------------------------- runs

  datatype Event = Event(message: Message, block: Address)

  function Run(s: Agent, events: seq<Event>, ports: Ports): (r: Agent)
    requires s.Shaped() && forall k :: 0 <= k < |events| ==> WellFormed(events[k].message)
    ensures r.Shaped()
  {
    if events == [] then s
    else
      var n := |events| - 1;
      Stepped(Run(s, events[..n], ports), events[n].message, events[n].block, ports)
  }

  /** Well-formed messages, and malloc never returns a block still in use. */
  predicate Admissible(s: Agent, events: seq<Event>, ports: Ports)
    requires s.Shaped()
  {
    && (forall k :: 0 <= k < |events| ==> WellFormed(events[k].message))
    && forall k :: 0 <= k < |events| ==> Fresh(Run(s, events[..k], ports), events[k].block)
  }

  function Start(regs: Regs, defaultAction: bv32): (s: Agent)
    ensures s.Shaped()
  {
    Agent(Initial(regs, defaultAction), [0, 0, 0, 0, 0, 0, 0, 0, 0], map[])
  }

  lemma StartSound(regs: Regs, defaultAction: bv32)
    ensures Sound(Start(regs, defaultAction))
  {
    hide Pictured, ActionOf, WrittenAction, ClearedSlots, GoodRecord;
    InitialMirrored(regs, defaultAction);
  }

  lemma AdmissiblePrefix(s: Agent, events: seq<Event>, ports: Ports)
    requires s.Shaped() && events != [] && Admissible(s, events, ports)
    ensures var n := |events| - 1;
            && Admissible(s, events[..n], ports)
            && WellFormed(events[n].message) && Fresh(Run(s, events[..n], ports), events[n].block)
  {
    hide Run, WellFormed, Fresh;
    var n := |events| - 1;
    forall k | 0 <= k < n
      ensures Fresh(Run(s, events[..n][..k], ports), events[..n][k].block)
    {
      assert events[..n][..k] == events[..k];
    }
  }

  /** From init_rule on, under any flow_mods. */
  lemma {:induction false} AlwaysSound(regs: Regs, defaultAction: bv32, events: seq<Event>, ports: Ports)
    requires Admissible(Start(regs, defaultAction), events, ports)
    ensures Sound(Run(Start(regs, defaultAction), events, ports))
  {
    hide Sound, Stepped, WellFormed, Start, Fresh;
    if events == [] {
      StartSound(regs, defaultAction);
    } else {
      var s, n := Start(regs, defaultAction), |events| - 1;
      AdmissiblePrefix(s, events, ports);
      AlwaysSound(regs, defaultAction, events[..n], ports);
      StepSound(Run(s, events[..n], ports), events[n].message, events[n].block, ports);
    }
  }

  // ---------------------------------------------------------------- the default rule

  /** The message is made the default rule. */
  predicate SetsDefault(s: Agent, m: Message, ports: Ports)
    requires s.Shaped() && WellFormed(m)
  {
    m.command != FlowMod.Delete && m.instruction != [] && M.AllSupported(m.fields) && TakenAsDefault(s, m, ports)
  }

  /** Every other message leaves the default action and its record alone. */
  lemma DefaultStays(s: Agent, m: Message, p: Address, ports: Ports)
    requires s.Shaped() && WellFormed(m) && Sound(s) && Fresh(s, p) && !SetsDefault(s, m, ports)
    ensures Stepped(s, m, p, ports).stats[DEFAULT_SLOT] == s.stats[DEFAULT_SLOT]
    ensures DefaultAction(Stepped(s, m, p, ports).table.regs) == DefaultAction(s.table.regs)
  {
    hide Sound, WellFormed, Handled, Silenced, Cleaned, DefaultAction, TakenAsDefault, M.AllSupported;
    if m.command != FlowMod.Delete {
      HandledDefault(s, m, p, ports);
    } else {
      SilencedSound(s, RULES);
      CleanedSound(s, m.cookie, RULES);
      CleanedSlots(s, m.cookie, RULES);
    }
  }

  /** Once the default rule has a record, no message changes that record or the default action. */
  lemma DefaultIsSetOnce(s: Agent, m: Message, p: Address, ports: Ports)
    requires s.Shaped() && WellFormed(m) && Sound(s) && Fresh(s, p) && s.stats[8] != 0
    ensures Stepped(s, m, p, ports).stats[8] == s.stats[8]
    ensures DefaultAction(Stepped(s, m, p, ports).table.regs) == DefaultAction(s.table.regs)
  {
    hide Sound, WellFormed, Stepped, DefaultAction, M.AllSupported;
    DefaultStays(s, m, p, ports);
  }

  lemma HandledDefault(s: Agent, m: Message, p: Address, ports: Ports)
    requires s.Shaped() && WellFormed(m) && Sound(s) && Fresh(s, p)
    requires m.instruction != [] && M.AllSupported(m.fields) ==> !TakenAsDefault(s, m, ports)
    ensures Handled(s, m, p, ports).stats[DEFAULT_SLOT] == s.stats[DEFAULT_SLOT]
    ensures DefaultAction(Handled(s, m, p, ports).table.regs) == DefaultAction(s.table.regs)
  {
    hide Sound, WellFormed, RuleOf, RecordOf, Verdicts, GoodRecord, M.AllSupported, DefaultAction, Resolved;
    if m.instruction != [] && M.AllSupported(m.fields) {
      FieldsFit(m);
      RecordIsGood(m);
      var v, record := VerdictOf(m, ports), RecordOf(m);
      var r := Equipped(RuleOf(m), v.action, EntryLength(m), p);
      ResolvedSound(s, m, r, p, ports, record);
      ResolvedDefault(s, m, r, p, ports, record);
    }
  }

  lemma ResolvedDefault(s: Agent, m: Message, r: Rule, p: Address, ports: Ports, record: seq<Byte>)
    requires s.Shaped()
    ensures Resolved(s, m, r, p, ports, record).stats[DEFAULT_SLOT] == s.stats[DEFAULT_SLOT]
  {
    hide Added, Deleted, Modified, ActionSet, Freed, Physical;
  }

  // ---------------------------------------------------------------- deletion

  /** Below n the slots whose record has the cookie have lost rule and record; nothing else is gone. */
  predicate CleanedBelow(s: Agent, t: Agent, cookie: seq<Byte>, n: nat)
    requires s.Shaped() && t.Shaped() && n <= RULES
  {
    && (forall i :: 0 <= i < SLOTS ==>
          t.stats[i] == if i < n && HasCookie(s, i, cookie) then 0 else s.stats[i])
    && (forall i :: 0 <= i < RULES ==>
          t.table.rules[i] == if i < n && HasCookie(s, i, cookie) then ZERO_RULE else s.table.rules[i])
    && (forall h :: h in t.heap ==> h in s.heap && t.heap[h] == s.heap[h])
    && (forall i :: n <= i < SLOTS && s.stats[i] != 0 ==> s.stats[i] in t.heap)
  }

  /** Deletion by cookie removes the rule and record of each slot whose record has the cookie,
      and nothing else. */
  lemma {:induction false} CleanedSlots(s: Agent, cookie: seq<Byte>, n: nat)
    requires s.Shaped() && Sound(s) && n <= RULES
    ensures CleanedBelow(s, Cleaned(s, cookie, n), cookie, n)
  {
    hide CleanedBelow, HasCookie, Sound, Withdrawn;
    SoundRecords(s);
    if n == 0 {
      NothingCleaned(s, cookie);
    } else {
      CleanedSlots(s, cookie, n - 1);
      CleanedOne(s, Cleaned(s, cookie, n - 1), cookie, n - 1);
    }
  }

  lemma NothingCleaned(s: Agent, cookie: seq<Byte>)
    requires s.Shaped() && Sound(s)
    ensures CleanedBelow(s, s, cookie, 0)
  {
    hide Sound, HasCookie;
    SoundRecords(s);
  }

  lemma CleanedOne(s: Agent, b: Agent, cookie: seq<Byte>, i: nat)
    requires s.Shaped() && b.Shaped() && Sound(s) && i < RULES && CleanedBelow(s, b, cookie, i)
    ensures CleanedBelow(s, if HasCookie(b, i, cookie) then Withdrawn(b, i) else b, cookie, i + 1)
  {
    hide Sound, CookieOf, Withdrawn;
    SoundRecords(s);
    assert HasCookie(b, i, cookie) == HasCookie(s, i, cookie);
    WithdrawnParts(b, i);
  }

  lemma WithdrawnParts(b: Agent, i: nat)
    requires b.Shaped() && i < RULES
    ensures var t := Withdrawn(b, i);
            && t.table.rules == b.table.rules[i := ZERO_RULE] && t.stats == b.stats[i := 0]
            && t.heap == Freed(b.heap, b.stats[i])
  {
    hide Deleted, WrittenAction;
    DeletedRules(b.table, i);
  }

  lemma SoundRecords(s: Agent)
    requires s.Shaped() && Sound(s)
    ensures forall i :: 0 <= i < SLOTS && s.stats[i] != 0 ==> s.stats[i] in s.heap
    ensures forall i, j :: 0 <= i < j < SLOTS && s.stats[i] != 0 ==> s.stats[i] != s.stats[j]
  {
    hide Pictured, Unique, ActsOnRecords;
  }

  /** Delete-all stops the hardware acting on every rule and drops every record, but keeps the
      rules themselves; so register and table agree on the actions again only if every rule
      was to drop packets anyway. */
  lemma DeleteAllOutcome(s: Agent)
    requires s.Shaped() && Sound(s)
    ensures var t := Silenced(s, RULES);
            && t.table.rules == s.table.rules
            && (forall i :: 0 <= i < RULES ==> t.stats[i] == 0 && ActionOf(t.table.regs, i) == 0)
            && (Mirrored(t.table) <==> forall i :: 0 <= i < RULES ==> s.table.rules[i].action == 0)
  {
    hide Silenced, ActionOf, Pictured, Unique;
    SilencedSound(s, RULES);
  }

  /** The address a live rule keeps is that of its slot's record exactly when the slot has one. */
  lemma PointerIsRecord(s: Agent, i: nat)
    requires s.Shaped() && Sound(s) && i < RULES && Live(s.table.rules[i])
    ensures s.table.rules[i].stats == s.stats[i] <==> s.stats[i] != 0
  {
    hide Pictured, Unique, ActsOnRecords, GoodHeap;
  }

  lemma {:induction false} SilencedHeap(s: Agent, n: nat)
    requires s.Shaped() && Sound(s) && n <= RULES
    ensures forall h :: h in Silenced(s, n).heap ==> h in s.heap
    ensures forall i :: 0 <= i < n && s.stats[i] != 0 ==> s.stats[i] !in Silenced(s, n).heap
  {
    hide Sound, ActionSet;
    if n > 0 {
      SilencedHeap(s, n - 1);
      SilencedSound(s, n - 1);
    }
  }

  /** After delete-all every rule that had a record still holds its address, in the table and in
      the register image, and the block there is free. */
  lemma DeleteAllDangles(s: Agent, i: nat)
    requires s.Shaped() && Sound(s) && i < RULES && s.stats[i] != 0
    ensures var t := Silenced(s, RULES);
            && Live(t.table.rules[i]) && t.table.rules[i].stats == s.stats[i] && s.stats[i] !in t.heap
            && t.table.regs[RuleWord(i, 36)] == AddressBits(s.stats[i])
  {
    hide Silenced, GoodHeap, ActsOnRecords, Unique, Half, AddressBits;
    SilencedSound(s, RULES);
    SilencedHeap(s, RULES);
    MiddleHalves(Silenced(s, RULES).table.rules[i]);
  }

  /** Only a message with an empty match can be the default rule. */
  lemma {:induction false} NotDefault(s: seq<Byte>, oft: nat, v: Verdict, ports: Ports)
    requires ActionsFit(s, oft)
    ensures Verdicts(s, oft, v, false, ports).isDefault == v.isDefault
    decreases |s| - oft
  {
    hide Number, IsOutput;
    if oft != |s| {
      var v' := if IsOutput(s, oft) then Output(v, s[oft + 4..oft + 8], false, ports) else v;
      NotDefault(s, oft + Number(s, oft + 2), v', ports);
    }
  }

  lemma ActionsOfMessage(m: Message)
    requires WellFormed(m) && m.instruction != []
    ensures |m.instruction| >= INSTRUCTION_HEADER && ActionsFit(m.instruction, INSTRUCTION_HEADER)
  {
  }

  /** Adding a rule that is live changes nothing; after delete-all that is every rule the
      table had. */
  lemma ReAddIgnored(s: Agent, m: Message, p: Address, ports: Ports)
    requires s.Shaped() && WellFormed(m) && (m.command == FlowMod.Add || m.command == FlowMod.Modify)
    requires s.stats[DEFAULT_SLOT] != 0 || m.fields != []
    requires M.AllSupported(m.fields) ==> Compiles(m) && Present(s.table.rules, RuleOf(m).digest)
    ensures Handled(s, m, p, ports) == s
  {
    hide WellFormed, RuleOf, RecordOf, Verdicts, M.AllSupported, Inserted, Dropped, Replaced;
    if m.instruction != [] && M.AllSupported(m.fields) && m.fields != [] {
      ActionsOfMessage(m);
      NotDefault(m.instruction, INSTRUCTION_HEADER, Verdict(0, false), ports);
    }
  }
}

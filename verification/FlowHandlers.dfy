/** handle_flow_mod as it runs: the agent's arrays, the rule table and the allocator, changed
    in place. Freeing a block demands that it is allocated. */
module FlowHandlers {
  import opened RuleMatch
  import opened RuleTable
  import opened FlowMod
  import opened NetworkOrder
  import opened FlowAgent
  import opened FlowAgentRuns
  import M = FlowMatch
  import Md5
  import Spec = Md5Spec

  /** What the handler reports; on Overflow the agent exits. */
  datatype Outcome = Done | Overflow

  /** The MD5 digest that identifies a rule. */
  method Identify(key: Key, mask: Key, priority: seq<Byte>) returns (d: Digest)
    requires |priority| == 2
    ensures d == Identity(key, mask, priority)
  {
    hide Spec.Digest, Spec.WordAt, ByteValues;
    var bytes := IdentityBytes(key, mask, priority);
    var md5 := new Md5.Context();
    Md5.ShortInputsEnd(0, |bytes|);
    assert |md5.taken| % Spec.BLOCK == 0;
    md5.Update(bytes);
    assert md5.taken == bytes;
    var digest := md5.Final();
    d := DigestWords(digest);
  }

  lemma EmptyMatch(ts: seq<M.Tlv>)
    ensures |M.EncodeAll(ts)| == 0 <==> ts == []
  {
  }

  /** The TLV walk over the match of a message. */
  method CompileMatch(m: Message) returns (known: bool, key: Key, mask: Key, bare: bool)
    requires WellFormed(m)
    ensures known <==> M.AllSupported(m.fields)
    ensures known ==> Compiles(m) && M.Compile(m.fields).key == key && M.Compile(m.fields).mask == mask
    ensures known ==> bare == (m.fields == [])
  {
    hide WellFormed, M.Compile, M.EncodeAll, MatchBytes, M.AllSupported, M.Walkable, M.AllFit;
    MessageParts(m);
    EmptyMatch(m.fields);
    var wire := M.EncodeAll(m.fields);
    var b, oft;
    b, known, oft := M.Walk(wire, MATCH_HEADER + |wire|, m.fields);
    key, mask, bare := b.key[..], b.mask[..], oft == 0;
    if known {
      FieldsFit(m);
    }
  }

  /** The rule of a message, if the hardware can match on all its fields; bare says the match
      is empty. */
  method CompileRule(m: Message) returns (known: bool, r: Rule, bare: bool)
    requires WellFormed(m)
    ensures known <==> M.AllSupported(m.fields)
    ensures known ==> Compiles(m) && r == RuleOf(m) && bare == (m.fields == [])
  {
    hide WellFormed, M.Compile, M.AllSupported, M.AllFit, Identity, HostPriority;
    var key, mask;
    MessageParts(m);
    known, key, mask, bare := CompileMatch(m);
    var digest := Identify(key, mask, m.priority);
    r := Rule(key, mask, HostPriority(m.priority), 0, 0, 0, 0, 0, digest);
  }

  lemma MessageParts(m: Message)
    requires WellFormed(m)
    ensures |m.priority| == 2 && M.Walkable(m.fields) && |M.EncodeAll(m.fields)| + 8 < 0x10000
    ensures m.instruction != [] ==>
              |m.instruction| >= INSTRUCTION_HEADER && ActionsFit(m.instruction, INSTRUCTION_HEADER)
  {
  }

  class FlowState {
    const table: FlowTable
    const stats: array<Address>
    const ports: Ports
    var heap: map<Address, seq<Byte>>

    ghost predicate Valid()
      reads table
    {
      table.Valid() && stats.Length == SLOTS
    }

    ghost function State(): (s: Agent)
      requires Valid()
      reads this, table, table.rules, table.regs, stats
      ensures s.Shaped()
    {
      Agent(table.State(), stats[..], heap)
    }

    /** The tables as they are once init_rule has run. */
    constructor (regs: Regs, defaultAction: bv32, ports: Ports)
      ensures Valid() && State() == Start(regs, defaultAction) && Sound(State()) && this.ports == ports
      ensures fresh(table) && fresh(table.rules) && fresh(table.regs) && fresh(stats)
    {
      hide Initial, Sound;
      var t := new FlowTable(regs);
      t.Init(defaultAction);
      table, heap, this.ports := t, map[], ports;
      stats := new Address[SLOTS](_ => 0);
      new;
      assert stats[..] == [0, 0, 0, 0, 0, 0, 0, 0, 0];
      StartSound(regs, defaultAction);
    }

    /** free: NULL or an allocated block. */
    method Free(p: Address)
      requires p == 0 || p in heap
      modifies `heap
      ensures heap == Freed(old(heap), p)
    {
      if p != 0 {
        heap := heap - {p};
      }
    }

    method SetAction(idx: nat, action: bv32)
      requires Valid() && idx < RULES
      modifies table.regs
      ensures State() == old(State()).(table := ActionSet(old(State()).table, idx, action))
    {
      hide WrittenAction;
      table.ActionRegWrite(idx * 8, action);
    }

    /** A rule the table does not have; its record is already allocated. */
    method Insert(r: Rule, p: Address) returns (outcome: Outcome)
      requires Valid() && p in heap
      modifies table, table.rules, table.regs, stats
      ensures var s := old(State()); var t := s.(heap := s.heap - {p});
              State() == Inserted(t, r, p, s.heap[p]) && (outcome == Overflow <==> AddResult(s.table, r) == -1)
    {
      hide Added, AddResult;
      var s := State();
      AddedIndex(s.table, r);
      var idx := table.Add(r);
      if idx >= 0 {
        stats[idx] := p;
        outcome := Done;
      } else {
        outcome := Overflow;
      }
      Reallocated(s.heap, p);
    }

    method Drop(idx: nat)
      requires Valid() && idx < RULES && (stats[idx] == 0 || stats[idx] in heap)
      modifies this, table.rules, table.regs, stats
      ensures var s := old(State());
              State() == Agent(Deleted(ActionSet(s.table, idx, 0), idx), s.stats[idx := 0], Freed(s.heap, s.stats[idx]))
    {
      hide WrittenAction, Deleted;
      Free(stats[idx]);
      stats[idx] := 0;
      SetAction(idx, 0);
      var _ := table.Delete(idx);
    }

    method Replace(idx: nat, r: Rule, p: Address)
      requires Valid() && idx < RULES && (stats[idx] == 0 || stats[idx] in heap)
      modifies this, table.rules, table.regs, stats
      ensures var s := old(State());
              State() == Agent(ActionSet(Modified(s.table, r, idx), idx, r.action), s.stats[idx := p],
                               Freed(s.heap, s.stats[idx]))
    {
      hide WrittenAction, Modified;
      var _ := table.Modify(r, idx);
      SetAction(idx, r.action);
      Free(stats[idx]);
      stats[idx] := p;
    }

    method SetDefault(action: bv32, p: Address)
      requires Valid()
      modifies table.regs, stats
      ensures var s := old(State());
              State() == Agent(s.table.(regs := WrittenAction(s.table.regs, DEFAULT_RULE, action)),
                               s.stats[DEFAULT_SLOT := p], s.heap)
    {
      hide WrittenAction;
      table.ActionRegWrite(DEFAULT_RULE, action);
      stats[DEFAULT_SLOT] := p;
    }

    /** What happens to a compiled rule; its record is already allocated at p. */
    method Resolve(m: Message, r: Rule, p: Address) returns (outcome: Outcome)
      requires Valid() && Sound(State().(heap := heap - {p})) && p != 0 && p in heap
      modifies this, table, table.rules, table.regs, stats
      ensures var s := old(State()); var t := s.(heap := s.heap - {p});
              && State() == Resolved(t, m, r, p, ports, s.heap[p])
              && (outcome == Overflow <==> MayInsert(m) && FindDigest(s.table.rules, r.digest) == RULES
                                           && FindFree(s.table.rules) == RULES)
    {
      hide Sound, Inserted, Dropped, Replaced, Physical, Deleted, Modified, ActionSet, Carries, Live;
      outcome := Done;
      ghost var s := State();
      ghost var t := s.(heap := s.heap - {p});
      Reallocated(s.heap, p);
      SoundRecords(t);
      var idx := table.RuleExists(r.digest);
      if idx == -1 {
        if m.command == Add || (m.fields != [] && (m.command == ModifyStrict || m.command == Modify)) {
          AbsentResult(s.table, r.(key := Physical(r.key, ports)));
          outcome := Insert(r.(key := Physical(r.key, ports)), p);
        } else {
          Free(p);
        }
      } else if m.command == DeleteStrict {
        DroppedIs(t, idx, p, s.heap[p]);
        Drop(idx);
      } else if m.command == ModifyStrict {
        ReplacedIs(t, idx, r, p, s.heap[p]);
        Replace(idx, r, p);
      } else {
        Free(p);
      }
    }

    /** handle_flow_mod_add; p is where malloc puts the record. */
    method HandleFlowModAdd(m: Message, p: Address) returns (outcome: Outcome)
      requires Valid() && WellFormed(m) && Sound(State()) && Fresh(State(), p)
      modifies this, table, table.rules, table.regs, stats
      ensures State() == Handled(old(State()), m, p, ports)
      ensures outcome == Overflow <==> Overflows(old(State()), m, ports)
    {
      hide Sound, WellFormed, RuleOf, RecordOf, Resolved, Verdicts, M.AllSupported, M.AllFit, Fresh;
      ghost var s := State();
      outcome := Done;
      MessageParts(m);
      if |m.instruction| == 0 {
        return;
      }
      var known, r, bare := CompileRule(m);
      if !known {
        return;
      }
      FieldsFit(m);
      var v := ReadActions(m.instruction, bare, ports);
      var record := BuildRecord(m);
      heap := heap[p := record[..]];
      Allocated(s, p, record[..]);
      if v.isDefault && stats[DEFAULT_SLOT] == 0 {
        SetDefault(v.action, p);
        return;
      }
      RecordIsGood(m);
      outcome := Resolve(m, Equipped(r, v.action, Number(record[..], 0), p), p);
    }

    /** handle_flow_mod_delete. */
    method HandleFlowModDelete(m: Message)
      requires Valid() && WellFormed(m) && Sound(State())
      modifies this, table.rules, table.regs, stats
      ensures State() == if m.cookieMask == 0 then Silenced(old(State()), RULES)
                         else Cleaned(old(State()), m.cookie, RULES)
    {
      hide Sound, WellFormed, ActionSet, Withdrawn, HasCookie, CookieOf, Silenced, Cleaned;
      ghost var s := State();
      NothingDeleted(s, m.cookie);
      if m.cookieMask == 0 {
        for i := 0 to RULES
          invariant State() == Silenced(s, i)
        {
          SilencedSound(s, i);
          SoundRecords(Silenced(s, i));
          SilencedNext(s, i);
          if stats[i] != 0 {
            Free(stats[i]);
            stats[i] := 0;
          }
          NullKept(Silenced(s, i), i);
          SetAction(i, 0);
        }
      } else {
        for i := 0 to RULES
          invariant State() == Cleaned(s, m.cookie, i)
        {
          CleanedSound(s, m.cookie, i);
          SoundRecords(Cleaned(s, m.cookie, i));
          CleanedNext(s, m.cookie, i);
          if stats[i] != 0 {
            CookieThere(State(), i, m.cookie);
            if CookieOf(heap[stats[i]]) == m.cookie {
              Withdraw(i);
            }
          }
        }
      }
    }

    method Withdraw(i: nat)
      requires Valid() && i < RULES && (stats[i] == 0 || stats[i] in heap)
      modifies this, table.rules, table.regs, stats
      ensures State() == Withdrawn(old(State()), i)
    {
      hide WrittenAction, Deleted;
      var _ := table.Delete(i);
      SetAction(i, 0);
      Free(stats[i]);
      stats[i] := 0;
    }

    /** handle_flow_mod. */
    method HandleFlowMod(m: Message, p: Address) returns (outcome: Outcome)
      requires Valid() && WellFormed(m) && Sound(State()) && Fresh(State(), p)
      modifies this, table, table.rules, table.regs, stats
      ensures State() == Stepped(old(State()), m, p, ports) && Sound(State())
      ensures outcome == Overflow <==> m.command != Delete && Overflows(old(State()), m, ports)
    {
      hide Sound, WellFormed, Handled, Silenced, Cleaned, Overflows;
      StepSound(State(), m, p, ports);
      outcome := Done;
      match m.command {
        case Delete => HandleFlowModDelete(m);
        case _ => outcome := HandleFlowModAdd(m, p);
      }
    }
  }

  lemma Allocated(s: Agent, p: Address, record: seq<Byte>)
    requires s.Shaped() && Sound(s) && Fresh(s, p)
    ensures p != 0 && s.heap[p := record] - {p} == s.heap
  {
    hide Sound;
  }

  lemma NothingDeleted(s: Agent, cookie: seq<Byte>)
    requires s.Shaped()
    ensures Silenced(s, 0) == s && Cleaned(s, cookie, 0) == s
  {
  }

  lemma SilencedNext(s: Agent, i: nat)
    requires s.Shaped() && i < RULES
    ensures var b := Silenced(s, i);
            Silenced(s, i + 1) == Agent(ActionSet(b.table, i, 0), b.stats[i := 0], Freed(b.heap, b.stats[i]))
  {
    hide ActionSet;
  }

  lemma NullKept(b: Agent, i: nat)
    requires b.Shaped() && i < RULES
    ensures b.stats[i] == 0 ==> b.stats[i := 0] == b.stats && Freed(b.heap, b.stats[i]) == b.heap
  {
  }

  lemma CleanedNext(s: Agent, cookie: seq<Byte>, i: nat)
    requires s.Shaped() && i < RULES
    ensures var b := Cleaned(s, cookie, i);
            Cleaned(s, cookie, i + 1) == if HasCookie(b, i, cookie) then Withdrawn(b, i) else b
    ensures HasCookie(Cleaned(s, cookie, i), i, cookie) ==> Cleaned(s, cookie, i).stats[i] != 0
  {
    hide Withdrawn;
  }

  lemma CookieThere(b: Agent, i: nat, cookie: seq<Byte>)
    requires b.Shaped() && i < RULES && b.stats[i] != 0 && b.stats[i] in b.heap
    ensures HasCookie(b, i, cookie) <==> CookieOf(b.heap[b.stats[i]]) == cookie
  {
  }

  lemma AbsentResult(t: Table, r: Rule)
    requires t.Shaped()
    ensures FindDigest(t.rules, r.digest) == RULES ==> (AddResult(t, r) == -1 <==> FindFree(t.rules) == RULES)
  {
  }

  lemma DroppedIs(s: Agent, idx: nat, p: Address, record: seq<Byte>)
    requires s.Shaped() && idx < RULES
    ensures Dropped(s, idx, p, record)
            == Agent(Deleted(ActionSet(s.table, idx, 0), idx), s.stats[idx := 0],
                     Freed(s.heap[p := record], s.stats[idx]))
  {
  }

  lemma ReplacedIs(s: Agent, idx: nat, r: Rule, p: Address, record: seq<Byte>)
    requires s.Shaped() && idx < RULES
    ensures Replaced(s, idx, r, p, record)
            == Agent(ActionSet(Modified(s.table, r, idx), idx, r.action), s.stats[idx := p],
                     Freed(s.heap[p := record], s.stats[idx]))
  {
  }

  lemma AddedIndex(t: Table, r: Rule)
    requires t.Shaped()
    ensures -1 <= AddResult(t, r) < RULES
    ensures AddResult(t, r) == -1 ==> Added(t, r) == t
  {
  }

  lemma Reallocated(heap: map<Address, seq<Byte>>, p: Address)
    requires p in heap
    ensures (heap - {p})[p := heap[p]] == heap
  {
  }
}

/** Which message each rule in the table comes from, over every run of flow_mods, and so what a
    lookup of a frame returns: the action of the first slot whose message wants the frame. */
module FlowHistory {
  import opened RuleMatch
  import opened RuleTable
  import opened RuleTableRuns
  import opened FlowMod
  import opened NetworkOrder
  import opened FlowAgent
  import opened FlowAgentRuns
  import opened FlowSemantics
  import opened MatchMeaning
  import M = FlowMatch

  /** The message that last stored the rule of a slot, and whether its input port was translated:
      an add does that, a strict modification does not. */
  datatype Owner = Nobody | By(message: Message, translated: bool)

  type Owners = o: seq<Owner> | |o| == RULES witness [Nobody, Nobody, Nobody, Nobody, Nobody, Nobody, Nobody, Nobody]

  /** How a message that reaches its rule changes the owners. */
  function ResolvedOwners(s: Agent, o: Owners, m: Message): Owners
    requires s.Shaped() && Compiles(m) && m.command != FlowMod.Delete
  {
    var idx := FindDigest(s.table.rules, RuleOf(m).digest);
    if idx == RULES then
      if (m.command == FlowMod.Add || (m.command != DeleteStrict && m.fields != []))
         && FindFree(s.table.rules) < RULES then
        o[FindFree(s.table.rules) := By(m, true)]
      else o
    else if m.command == DeleteStrict then o[idx := Nobody]
    else if m.command == ModifyStrict then o[idx := By(m, false)]
    else o
  }

  /** How deletion by cookie does. */
  function CleanedOwners(s: Agent, o: Owners, cookie: seq<Byte>): Owners
    requires s.Shaped()
  {
    seq(RULES, i requires 0 <= i < RULES => if HasCookie(s, i, cookie) then Nobody else o[i])
  }

  /** The message is made the default rule: there is none, the match is empty, and some output is to
      the controller. */
  predicate BecomesDefault(s: Agent, m: Message)
    requires s.Shaped() && WellFormed(m) && m.instruction != []
  {
    s.stats[8] == 0 && m.fields == [] && ToController(m.instruction, Starts(m.instruction, 8))
  }

  lemma DefaultMeans(s: Agent, m: Message, ports: Ports)
    requires s.Shaped() && WellFormed(m) && m.instruction != []
    ensures TakenAsDefault(s, m, ports) <==> BecomesDefault(s, m)
  {
    hide WellFormed, Verdicts, Starts, LastDecides, NoOutput;
    ActionsOfMessage(m);
    VerdictMeans(m.instruction, m.fields == [], ports);
  }

  /** How one message changes the owners; delete-all keeps the rules, so it changes none. */
  function NextOwners(s: Agent, o: Owners, m: Message, ports: Ports): Owners
    requires s.Shaped() && WellFormed(m)
  {
    hide WellFormed, RuleOf, Starts;
    if m.command == FlowMod.Delete then
      if m.cookieMask == 0 then o else CleanedOwners(s, o, m.cookie)
    else if m.instruction == [] || !M.AllSupported(m.fields) || BecomesDefault(s, m) then o
    else
      MessageCompiles(m);
      ResolvedOwners(s, o, m)
  }

  /** The key a message gives a rule. */
  function StoredKey(m: Message, translated: bool, ports: Ports): Key
    requires Compiles(m)
  {
    if translated then Physical(RuleOf(m).key, ports) else RuleOf(m).key
  }

  /** The priority of a message, two bytes in network order. */
  function PriorityOf(m: Message): bv32
    requires WellFormed(m)
  {
    ((m.priority[0] as nat) * 256 + m.priority[1]) as bv32
  }

  /** What the message asks to be done: the port of its last output, or nothing. */
  predicate Asks(m: Message, ports: Ports, action: bv32)
    requires WellFormed(m) && m.instruction != []
  {
    LastDecides(m.instruction, Starts(m.instruction, 8), ports, action)
  }

  /** A rule is what its owner made it. */
  predicate Made(r: Rule, w: Owner, ports: Ports) {
    match w
    case Nobody => !Live(r)
    case By(m, translated) =>
      && Live(r) && Compiles(m) && m.instruction != []
      && r.key == StoredKey(m, translated, ports) && r.mask == RuleOf(m).mask && r.priority == PriorityOf(m)
      && Asks(m, ports, r.action) && r.statsLen == EntryLength(m) as bv32
  }

  predicate AllMade(s: Agent, o: Owners, ports: Ports)
    requires s.Shaped()
  {
    forall i :: 0 <= i < RULES ==> Made(s.table.rules[i], o[i], ports)
  }

  lemma ChangedMade(s: Agent, o: Owners, t: Agent, idx: nat, r: Rule, w: Owner, ports: Ports)
    requires s.Shaped() && t.Shaped() && AllMade(s, o, ports) && idx < RULES
    requires t.table.rules == s.table.rules[idx := r] && Made(r, w, ports)
    ensures AllMade(t, o[idx := w], ports)
  {
    hide Made;
  }

  lemma RequestMakes(m: Message, ports: Ports, p: Address, translated: bool)
    requires Compiles(m) && m.instruction != []
    ensures Made(RequestOf(m, ports, p).(key := StoredKey(m, translated, ports), valid := 1), By(m, translated), ports)
  {
    hide RequestOf, RuleOf, WellFormed, Verdicts, Physical, M.AllSupported, M.AllFit, LastDecides, Starts;
    RequestFields(m, ports, p);
    ActionsOfMessage(m);
    VerdictMeans(m.instruction, m.fields == [], ports);
    PriorityStored(m);
  }

  lemma PriorityStored(m: Message)
    requires Compiles(m)
    ensures RuleOf(m).priority == PriorityOf(m)
  {
    hide M.Compile, Identity, M.AllSupported, M.AllFit;
  }

  /** The owners change as in ResolvedOwners exactly when the message gets as far as its rule. */
  lemma OwnersChange(s: Agent, o: Owners, m: Message, ports: Ports)
    requires s.Shaped() && WellFormed(m) && m.command != FlowMod.Delete
    ensures if Reaches(s, m, ports) then Compiles(m) && NextOwners(s, o, m, ports) == ResolvedOwners(s, o, m)
            else NextOwners(s, o, m, ports) == o
  {
    hide WellFormed, RuleOf, BecomesDefault, TakenAsDefault, M.AllSupported, ResolvedOwners;
    if m.instruction != [] && M.AllSupported(m.fields) {
      DefaultMeans(s, m, ports);
      MessageCompiles(m);
    }
  }

  lemma ReachedMade(s: Agent, o: Owners, m: Message, p: Address, ports: Ports)
    requires s.Shaped() && WellFormed(m) && Sound(s) && AllMade(s, o, ports) && Reaches(s, m, ports)
    ensures AllMade(Stepped(s, m, p, ports), NextOwners(s, o, m, ports), ports)
  {
    hide Stepped, Sound, WellFormed, RuleOf, RequestOf, RecordOf, M.AllFit, M.AllSupported, Physical, Made,
      Stored, Carries, Live, Freed, WrittenAction, AllMade, StoredKey, TakenAsDefault, NextOwners, Deleted,
      Modified, Added;
    ReachesRule(s, m, p, ports);
    OwnersChange(s, o, m, ports);
    RequestFields(m, ports, p);
    var r, record := RequestOf(m, ports, p), RecordOf(m);
    var idx, free := FindDigest(s.table.rules, RuleOf(m).digest), FindFree(s.table.rules);
    var t := Stepped(s, m, p, ports);
    KeyStored(m, ports);
    if idx == RULES {
      if !MayInsert(m) {
        SameMade(s, t, o, ports);
      } else if free < RULES {
        var r' := r.(key := Physical(r.key, ports));
        InsertedIs(s, r', p, record);
        StoredRules(s.table, free, r', s.table.cnt + 1);
        RequestMakes(m, ports, p, true);
        ChangedMade(s, o, t, free, r'.(valid := 1), By(m, true), ports);
      } else {
        NotInserted(s, r.(key := Physical(r.key, ports)), p, record);
        SameMade(s, t, o, ports);
      }
    } else if m.command == DeleteStrict {
      DroppedParts(s, idx, p, record);
      NoneMade(ports);
      ChangedMade(s, o, t, idx, ZERO_RULE, Nobody, ports);
    } else if m.command == ModifyStrict {
      ReplacedRules(s, idx, r, p, record);
      RequestMakes(m, ports, p, false);
      ChangedMade(s, o, t, idx, r.(valid := 1), By(m, false), ports);
    }
  }

  lemma KeyStored(m: Message, ports: Ports)
    requires Compiles(m)
    ensures StoredKey(m, true, ports) == Physical(RuleOf(m).key, ports) && StoredKey(m, false, ports) == RuleOf(m).key
  {
    hide RuleOf, Physical, WellFormed;
  }

  lemma NoneMade(ports: Ports)
    ensures Made(ZERO_RULE, Nobody, ports)
  {
  }

  lemma SameMade(s: Agent, t: Agent, o: Owners, ports: Ports)
    requires s.Shaped() && t.Shaped() && AllMade(s, o, ports) && t.table.rules == s.table.rules
    ensures AllMade(t, o, ports)
  {
    hide Made;
  }

  lemma NotInserted(s: Agent, r: Rule, p: Address, record: seq<Byte>)
    requires s.Shaped() && FindFree(s.table.rules) == RULES
    ensures Inserted(s, r, p, record).table == s.table
  {
    hide Stored, Carries;
  }

  lemma ReplacedRules(s: Agent, idx: nat, r: Rule, p: Address, record: seq<Byte>)
    requires s.Shaped() && idx < RULES
    ensures Replaced(s, idx, r, p, record).table.rules == s.table.rules[idx := r.(valid := 1)]
  {
    hide Stored, WrittenAction;
    StoredRules(s.table, idx, r, s.table.cnt);
  }

  lemma StepMade(s: Agent, o: Owners, m: Message, p: Address, ports: Ports)
    requires s.Shaped() && WellFormed(m) && Sound(s) && AllMade(s, o, ports)
    ensures AllMade(Stepped(s, m, p, ports), NextOwners(s, o, m, ports), ports)
  {
    hide Stepped, Sound, WellFormed, RecordOf, M.AllFit, M.AllSupported, Made, AllMade, TakenAsDefault, Silenced,
      Cleaned, RuleOf, DefaultSet, HasCookie;
    if m.command != FlowMod.Delete {
      OwnersChange(s, o, m, ports);
    }
    if Reaches(s, m, ports) {
      ReachedMade(s, o, m, p, ports);
    } else if m.command == FlowMod.Delete {
      Deletion(s, m, p, ports);
      if m.cookieMask == 0 {
        SilencedSound(s, RULES);
        SameMade(s, Silenced(s, RULES), o, ports);
      } else {
        CleanedMade(s, o, m, ports);
      }
    } else if m.instruction == [] || !M.AllSupported(m.fields) {
      Ignored(s, m, p, ports);
    } else {
      MadeDefault(s, m, p, ports);
      DefaultKeepsRules(s, VerdictOf(m, ports).action, p, RecordOf(m));
      SameMade(s, Stepped(s, m, p, ports), o, ports);
    }
  }

  lemma DefaultKeepsRules(s: Agent, action: bv32, p: Address, record: seq<Byte>)
    requires s.Shaped()
    ensures DefaultSet(s, action, p, record).table.rules == s.table.rules
  {
  }

  lemma CleanedMade(s: Agent, o: Owners, m: Message, ports: Ports)
    requires s.Shaped() && WellFormed(m) && Sound(s) && AllMade(s, o, ports)
    requires m.command == FlowMod.Delete && m.cookieMask != 0
    ensures AllMade(Cleaned(s, m.cookie, RULES), NextOwners(s, o, m, ports), ports)
  {
    hide Cleaned, Sound, WellFormed, Made, HasCookie;
    CleanedSlots(s, m.cookie, RULES);
    NoneMade(ports);
  }

  // ---------------------------------------------------------------- runs

  /** The owners after a run. */
  function OwnersAfter(s: Agent, events: seq<Event>, ports: Ports): Owners
    requires s.Shaped() && forall k :: 0 <= k < |events| ==> WellFormed(events[k].message)
  {
    if events == [] then [Nobody, Nobody, Nobody, Nobody, Nobody, Nobody, Nobody, Nobody]
    else
      var n := |events| - 1;
      NextOwners(FlowAgentRuns.Run(s, events[..n], ports), OwnersAfter(s, events[..n], ports), events[n].message, ports)
  }

  lemma StartMade(regs: Regs, defaultAction: bv32, ports: Ports)
    ensures AllMade(Start(regs, defaultAction), OwnersAfter(Start(regs, defaultAction), [], ports), ports)
  {
    hide ClearedSlots, WrittenAction;
  }

  lemma {:induction false} AlwaysMade(regs: Regs, defaultAction: bv32, events: seq<Event>, ports: Ports)
    requires Admissible(Start(regs, defaultAction), events, ports)
    ensures var s := Start(regs, defaultAction);
            AllMade(FlowAgentRuns.Run(s, events, ports), OwnersAfter(s, events, ports), ports)
  {
    hide Sound, Stepped, WellFormed, Start, Fresh, AllMade, NextOwners;
    var s := Start(regs, defaultAction);
    if events == [] {
      StartMade(regs, defaultAction, ports);
    } else {
      var n := |events| - 1;
      AdmissiblePrefix(s, events, ports);
      AlwaysMade(regs, defaultAction, events[..n], ports);
      AlwaysSound(regs, defaultAction, events[..n], ports);
      StepMade(FlowAgentRuns.Run(s, events[..n], ports), OwnersAfter(s, events[..n], ports), events[n].message,
               events[n].block, ports);
    }
  }

  // ---------------------------------------------------------------- actions

  lemma ActionIsNoMiss(q: nat, ports: Ports)
    ensures ActionTo(q, ports) != 0xFFFF_FFFF
  {
    if q < 10 {
      PortIsNoMiss(ports[q]);
    }
  }

  lemma PortIsNoMiss(p: bv8)
    ensures 0x3000_0000 | (p as bv32) != 0xFFFF_FFFF as bv32
  {
  }

  /** No message asks for the value that stands for no match. */
  lemma AskedIsNoMiss(m: Message, ports: Ports, action: bv32)
    requires WellFormed(m) && m.instruction != [] && Asks(m, ports, action)
    ensures action != 0xFFFF_FFFF
  {
    hide ActionTo, PortAt;
    var starts := Starts(m.instruction, 8);
    if !NoOutput(m.instruction, starts) {
      var k := FindLast(m.instruction, starts);
      ActionIsNoMiss(PortAt(m.instruction, starts[k]), ports);
    }
  }

  /** In every state flow_mods lead to, the value for no match is returned exactly when no live
      rule selects the key. */
  lemma NoMatchMeansNone(regs: Regs, defaultAction: bv32, events: seq<Event>, ports: Ports, key: Key)
    requires Admissible(Start(regs, defaultAction), events, ports)
    ensures var rules := FlowAgentRuns.Run(Start(regs, defaultAction), events, ports).table.rules;
            MatchResult(rules, key) == 0xFFFF_FFFF <==> forall i :: 0 <= i < RULES ==> !Selects(rules[i], key)
  {
    hide Start, FlowAgentRuns.Run, OwnersAfter, Fresh, WellFormed, MaskedEqual, Made, Asks;
    var s := Start(regs, defaultAction);
    var t, o := FlowAgentRuns.Run(s, events, ports), OwnersAfter(s, events, ports);
    AlwaysMade(regs, defaultAction, events, ports);
    var i := FindMatch(t.table.rules, key);
    if i < RULES {
      MadeAsks(t.table.rules[i], o[i], ports);
    }
  }

  lemma MadeAsks(r: Rule, w: Owner, ports: Ports)
    requires Made(r, w, ports) && Live(r)
    ensures w.By? && WellFormed(w.message) && w.message.instruction != []
    ensures Asks(w.message, ports, r.action) && r.action != 0xFFFF_FFFF
  {
    hide StoredKey, RuleOf, Asks, WellFormed;
    AskedIsNoMiss(w.message, ports, r.action);
  }

  /** The default action is what the message made the default rule asked for; no other message
      changes it. */
  lemma DefaultDoesWhatWasAsked(s: Agent, m: Message, p: Address, ports: Ports)
    requires s.Shaped() && WellFormed(m) && Sound(s) && Fresh(s, p)
    ensures var t := Stepped(s, m, p, ports);
            if m.command != FlowMod.Delete && m.instruction != [] && BecomesDefault(s, m)
            then Asks(m, ports, DefaultAction(t.table.regs)) && t.stats[8] == p && t.table.rules == s.table.rules
            else DefaultAction(t.table.regs) == DefaultAction(s.table.regs) && t.stats[8] == s.stats[8]
  {
    hide Sound, WellFormed, Stepped, Verdicts, RecordOf, LastDecides, Starts, M.AllSupported, DefaultSet;
    if m.command != FlowMod.Delete && m.instruction != [] && BecomesDefault(s, m) {
      DefaultMeans(s, m, ports);
      NoFieldsSupported();
      MadeDefault(s, m, p, ports);
      ActionsOfMessage(m);
      VerdictMeans(m.instruction, true, ports);
      DefaultWritten(s, VerdictOf(m, ports).action, p, RecordOf(m));
    } else {
      if m.instruction != [] { DefaultMeans(s, m, ports); }
      DefaultStays(s, m, p, ports);
    }
  }

  lemma NoFieldsSupported()
    ensures M.AllSupported([])
  {
  }

  lemma DefaultWritten(s: Agent, action: bv32, p: Address, record: seq<Byte>)
    requires s.Shaped()
    ensures var t := DefaultSet(s, action, p, record);
            DefaultAction(t.table.regs) == action && t.stats[8] == p && t.table.rules == s.table.rules
  {
    hide WrittenAction;
    ActionAt(s.table.regs, 0x1F8, action);
  }

  // ---------------------------------------------------------------- what a lookup returns

  /** The index of the port a TLV names. */
  function PortIndex(t: M.Tlv): (n: nat)
    requires M.Standard(t) && SaysPort(t)
    ensures n < 16
  {
    (PortNibble(t) >> 4) as nat
  }

  /** The input port a rule is to match, in the high nibble: physical for an add, as sent for a
      strict modification. */
  function WantedNibble(t: M.Tlv, translated: bool, ports: Ports): bv8
    requires M.Standard(t) && SaysPort(t)
  {
    if translated then ports[PortIndex(t)] << 4 else PortNibble(t)
  }

  predicate WantsPort(ts: seq<M.Tlv>, translated: bool, ports: Ports, port: bv8)
    requires M.AllStandard(ts)
  {
    forall i :: 0 <= i < |ts| && SaysPort(ts[i]) ==> WantedNibble(ts[i], translated, ports) == port << 4
  }

  /** The message of a slot asks for frames like this one on this port. */
  predicate Wants(w: Owner, frame: seq<bv8>, port: bv8, ports: Ports)
    requires Complete(frame)
  {
    w.By? && M.AllStandard(w.message.fields) && MeetsAll(frame, w.message.fields)
    && WantsPort(w.message.fields, w.translated, ports, port)
  }

  /** A rule whose key differs from the compiled one in the port byte only is as faithful. */
  lemma PortByteFaithful(r: M.Rule, ts: seq<M.Tlv>, v: bv8)
    requires M.AllStandard(ts) && Faithful(r, ts)
    ensures Faithful(r.(key := Put(r.key, PORT, [v])), ts)
  {
    hide Put, Holds, Reversed, Covered, M.Standard;
    forall i | 0 <= i < |ts| && M.Exact(ts[i].field)
      ensures HasValue(Put(r.key, PORT, [v]), ts[i])
    {
      PortByteKeeps(r.key, v, ts[i]);
    }
  }

  lemma PortByteKeeps(key: Key, v: bv8, t: M.Tlv)
    requires M.Standard(t) && M.Exact(t.field) && HasValue(key, t)
    ensures HasValue(Put(key, PORT, [v]), t)
  {
    hide Put, Holds, Reversed;
    PutKeeps(key, PORT, [v], M.Offset(t.field), Reversed(t.value));
  }

  lemma TranslatedNibble(key: Key, ports: Ports, t: M.Tlv)
    requires M.Standard(t) && SaysPort(t) && key[PORT] == PortNibble(t)
    ensures Physical(key, ports)[PORT] == ports[PortIndex(t)] << 4
  {
    LowNibbleClear(t.value[3], ports[PortIndex(t)]);
  }

  lemma LowNibbleClear(v: bv8, q: bv8)
    ensures ((v << 4) & 0x0F) | (q << 4) == q << 4
  {
  }

  lemma NibbleMask(a: bv8, port: bv8)
    ensures ByteMatches(a << 4, port << 4, 0xF0) <==> a << 4 == port << 4
  {
  }

  /** The port byte of a stored key decides the input port. */
  lemma StoredPortDecides(r: M.Rule, ts: seq<M.Tlv>, translated: bool, ports: Ports, port: bv8)
    requires M.AllStandard(ts) && PortFaithful(r, ts)
    ensures var key := if translated then Physical(r.key, ports) else r.key;
            ByteMatches(key[PORT], port << 4, r.mask[PORT]) <==> WantsPort(ts, translated, ports, port)
  {
    hide ByteMatches, M.Standard, SaysPort, PortNibble, PortIndex, Physical;
    var key := if translated then Physical(r.key, ports) else r.key;
    if AnyPort(ts) {
      var i :| 0 <= i < |ts| && SaysPort(ts[i]);
      TranslatedNibble(r.key, ports, ts[i]);
      NibbleMask(ports[PortIndex(ts[i])], port);
      NibbleMatches(ts[i], port);
      OneWanted(r, ts, translated, ports, i);
    } else {
      EmptyByte(key[PORT], port << 4);
    }
  }

  /** All port TLVs of a faithful rule name the same port. */
  lemma OneWanted(r: M.Rule, ts: seq<M.Tlv>, translated: bool, ports: Ports, i: nat)
    requires M.AllStandard(ts) && PortFaithful(r, ts) && i < |ts| && SaysPort(ts[i])
    ensures forall j :: 0 <= j < |ts| && SaysPort(ts[j]) ==>
              WantedNibble(ts[j], translated, ports) == WantedNibble(ts[i], translated, ports)
  {
    hide M.Standard, SaysPort, PortNibble;
  }

  lemma CompiledFields(m: Message)
    requires Compiles(m)
    ensures RuleOf(m).key == M.Compile(m.fields).key && RuleOf(m).mask == M.Compile(m.fields).mask
  {
    hide WellFormed, M.Compile, Identity, HostPriority;
  }

  /** A rule selects the key of a frame exactly when its owner wants the frame. */
  lemma MadeSelects(r: Rule, w: Owner, ports: Ports, frame: seq<bv8>, port: bv8)
    requires Made(r, w, ports) && (w.By? ==> Matchable(w.message.fields))
    requires Complete(frame) && FrameKey(frame, port).Some?
    ensures Selects(r, FrameKey(frame, port).value) <==> Wants(w, frame, port, ports)
  {
    hide RuleOf, WellFormed, M.Compile, M.AllStandard, M.AllSupported, Matchable, FrameKey, MaskedEqual, MeetsAll,
      WantsPort, Physical, Faithful, PortFaithful, ByteMatches, Complete;
    if w.By? {
      var m := w.message;
      CompiledFields(m);
      MatchableIsStandard(m.fields);
      CompileFaithful(m.fields);
      CompilePort(m.fields);
      var c := M.Compile(m.fields);
      StoredPortDecides(c, m.fields, w.translated, ports, port);
      PhysicalIsPut(c.key, ports);
      PortByteFaithful(c, m.fields, Physical(c.key, ports)[PORT]);
      MatchDecides(m.fields, c.(key := r.key), frame, port);
    }
  }

  /** The first slot whose message wants the frame, or the number of slots. */
  function FirstWanting(o: seq<Owner>, frame: seq<bv8>, port: bv8, ports: Ports): (i: nat)
    requires Complete(frame)
    ensures i <= |o|
    ensures i < |o| ==> Wants(o[i], frame, port, ports)
    ensures forall j :: 0 <= j < i ==> !Wants(o[j], frame, port, ports)
  {
    if o == [] then 0
    else if Wants(o[0], frame, port, ports) then 0
    else
      var i := FirstWanting(o[1..], frame, port, ports);
      assert forall j :: 0 <= j < i ==> !Wants(o[1..][j], frame, port, ports);
      assert forall j :: 0 < j < i + 1 ==> o[j] == o[1..][j - 1];
      i + 1
  }

  /** Every match in the table is built from fields a software key can decide. */
  ghost predicate AllMatchable(o: Owners) {
    forall i :: 0 <= i < RULES && o[i].By? ==> Matchable(o[i].message.fields)
  }

  /** After any flow_mods, looking a frame up returns what the message of the first slot wanting the
      frame asked for, by its last output, and the value for no match exactly when no slot's message
      wants it. */
  lemma LookupDoesWhatWasAsked(regs: Regs, defaultAction: bv32, events: seq<Event>, ports: Ports, frame: seq<bv8>,
                               port: bv8)
    requires Admissible(Start(regs, defaultAction), events, ports) && Complete(frame) && FrameKey(frame, port).Some?
    requires AllMatchable(OwnersAfter(Start(regs, defaultAction), events, ports))
    ensures var s := Start(regs, defaultAction); var o := OwnersAfter(s, events, ports);
            var i := FirstWanting(o, frame, port, ports);
            var action := MatchResult(FlowAgentRuns.Run(s, events, ports).table.rules, FrameKey(frame, port).value);
            && (i < RULES ==>
                  && o[i].By? && WellFormed(o[i].message) && o[i].message.instruction != []
                  && Asks(o[i].message, ports, action))
            && (action == 0xFFFF_FFFF <==> forall j :: 0 <= j < RULES ==> !Wants(o[j], frame, port, ports))
  {
    hide Start, FlowAgentRuns.Run, OwnersAfter, Fresh, WellFormed, MaskedEqual, Made, Matchable, Wants, FrameKey,
      Complete, Selects, Asks;
    var s := Start(regs, defaultAction);
    var t, o := FlowAgentRuns.Run(s, events, ports), OwnersAfter(s, events, ports);
    AlwaysMade(regs, defaultAction, events, ports);
    forall i | 0 <= i < RULES
      ensures Selects(t.table.rules[i], FrameKey(frame, port).value) <==> Wants(o[i], frame, port, ports)
    {
      MadeSelects(t.table.rules[i], o[i], ports, frame, port);
    }
    SameFirst(t.table.rules, FrameKey(frame, port).value, o, frame, port, ports);
    var i := FirstWanting(o, frame, port, ports);
    if i < RULES {
      OnlyOwnersWant(o[i], frame, port, ports);
      LiveIfOwned(t.table.rules[i], o[i], ports);
      MadeAsks(t.table.rules[i], o[i], ports);
    }
  }

  lemma LiveIfOwned(r: Rule, w: Owner, ports: Ports)
    requires Made(r, w, ports) && w.By?
    ensures Live(r)
  {
    hide StoredKey, RuleOf, Asks;
  }

  lemma OnlyOwnersWant(w: Owner, frame: seq<bv8>, port: bv8, ports: Ports)
    requires Complete(frame) && Wants(w, frame, port, ports)
    ensures w.By?
  {
  }

  lemma SameFirst(rules: seq<Rule>, key: Key, o: seq<Owner>, frame: seq<bv8>, port: bv8, ports: Ports)
    requires |rules| == |o| && Complete(frame)
    requires forall i :: 0 <= i < |o| ==> (Selects(rules[i], key) <==> Wants(o[i], frame, port, ports))
    ensures FindMatch(rules, key) == FirstWanting(o, frame, port, ports)
  {
    hide Selects, Wants, Complete;
  }
}

/** Priorities of flow_mods. The priority of a message reaches the rule and its digest, and no
    lookup reads it: what is returned then, and when it is what the message of greatest priority
    asked for. */
module FlowPriority {
  import opened RuleMatch
  import opened RuleTable
  import opened RuleTableRuns
  import opened FlowMod
  import opened NetworkOrder
  import opened FlowAgent
  import opened FlowAgentRuns
  import opened FlowSemantics
  import opened FlowHistory
  import opened MatchMeaning
  import opened RulePriority
  import M = FlowMatch

  lemma MadePriority(r: Rule, w: Owner, ports: Ports)
    requires Made(r, w, ports) && w.By?
    ensures WellFormed(w.message) && w.message.instruction != []
    ensures r.priority == PriorityOf(w.message) && Asks(w.message, ports, r.action)
  {
    hide WellFormed, RuleOf, StoredKey, Asks, PriorityOf;
  }

  /** The message of slot i asks for the frame, and none with a greater priority does. */
  predicate MostWanting(o: Owners, i: nat, frame: seq<bv8>, port: bv8, ports: Ports)
    requires Complete(frame) && i < RULES
  {
    && Wants(o[i], frame, port, ports) && WellFormed(o[i].message)
    && forall j :: 0 <= j < RULES && Wants(o[j], frame, port, ports)
                   ==> WellFormed(o[j].message) && PriorityOf(o[j].message) <= PriorityOf(o[i].message)
  }

  /** A message that wants the frame has no greater priority than the one whose rule is found. */
  lemma NoneWantsMore(t: Agent, o: Owners, ports: Ports, frame: seq<bv8>, port: bv8, j: nat)
    requires t.Shaped() && AllMade(t, o, ports) && AllMatchable(o) && Complete(frame) && FrameKey(frame, port).Some?
    requires InOrder(t.table.rules) && j < RULES && Wants(o[j], frame, port, ports)
    ensures o[j].By? && WellFormed(o[j].message) && FindMatch(t.table.rules, FrameKey(frame, port).value) < RULES
    ensures PriorityOf(o[j].message) <= t.table.rules[FindMatch(t.table.rules, FrameKey(frame, port).value)].priority
  {
    hide WellFormed, Made, Matchable, Wants, FrameKey, Complete, Selects, InOrder, PriorityOf, FirstIsHighest,
      FindMatch;
    OnlyOwnersWant(o[j], frame, port, ports);
    MadePriority(t.table.rules[j], o[j], ports);
    SelectsAsWanted(t, o, ports, frame, port);
    OrderedIsHighest(t.table.rules);
    NoneHigher(t.table.rules, FrameKey(frame, port).value, j);
    FindsEarlier(t.table.rules, FrameKey(frame, port).value, j);
  }

  /** In a state whose rules are what their messages made them. */
  lemma HighestWanting(t: Agent, o: Owners, ports: Ports, frame: seq<bv8>, port: bv8)
    requires t.Shaped() && AllMade(t, o, ports) && AllMatchable(o) && Complete(frame) && FrameKey(frame, port).Some?
    requires InOrder(t.table.rules)
    ensures var i := FirstWanting(o, frame, port, ports);
            i < RULES ==>
              && MostWanting(o, i, frame, port, ports) && o[i].message.instruction != []
              && Asks(o[i].message, ports, MatchResult(t.table.rules, FrameKey(frame, port).value))
  {
    hide WellFormed, Made, Matchable, FrameKey, Complete, Selects, InOrder, PriorityOf, Asks, MeetsAll, WantsPort,
      M.AllStandard, AllMatchable, AllMade, FindMatch, FirstWanting;
    SelectsAsWanted(t, o, ports, frame, port);
    SameFirst(t.table.rules, FrameKey(frame, port).value, o, frame, port, ports);
    var i := FirstWanting(o, frame, port, ports);
    if i < RULES {
      OwnerMade(t, o, ports, i);
      MadePriority(t.table.rules[i], o[i], ports);
      forall j | 0 <= j < RULES && Wants(o[j], frame, port, ports)
        ensures WellFormed(o[j].message) && PriorityOf(o[j].message) <= PriorityOf(o[i].message)
      {
        NoneWantsMore(t, o, ports, frame, port, j);
      }
    }
  }

  lemma OwnerMade(t: Agent, o: Owners, ports: Ports, i: nat)
    requires t.Shaped() && AllMade(t, o, ports) && i < RULES
    ensures Made(t.table.rules[i], o[i], ports)
  {
    hide Made;
  }

  /** After any flow_mods that leave the table in order, a frame that some message wants gets the
      action of a message of greatest priority among those that want it. */
  lemma LookupIsHighest(regs: Regs, defaultAction: bv32, events: seq<Event>, ports: Ports, frame: seq<bv8>, port: bv8)
    requires Admissible(Start(regs, defaultAction), events, ports) && Complete(frame) && FrameKey(frame, port).Some?
    requires AllMatchable(OwnersAfter(Start(regs, defaultAction), events, ports))
    requires InOrder(FlowAgentRuns.Run(Start(regs, defaultAction), events, ports).table.rules)
    ensures var s := Start(regs, defaultAction); var o := OwnersAfter(s, events, ports);
            var i := FirstWanting(o, frame, port, ports);
            i < RULES ==>
              && MostWanting(o, i, frame, port, ports) && o[i].message.instruction != []
              && Asks(o[i].message, ports,
                      MatchResult(FlowAgentRuns.Run(s, events, ports).table.rules, FrameKey(frame, port).value))
  {
    hide Start, FlowAgentRuns.Run, OwnersAfter, Fresh, WellFormed, AllMade, AllMatchable, FrameKey, Complete, InOrder,
      Asks, MostWanting, FirstWanting;
    var s := Start(regs, defaultAction);
    AlwaysMade(regs, defaultAction, events, ports);
    HighestWanting(FlowAgentRuns.Run(s, events, ports), OwnersAfter(s, events, ports), ports, frame, port);
  }

  lemma SelectsAsWanted(t: Agent, o: Owners, ports: Ports, frame: seq<bv8>, port: bv8)
    requires t.Shaped() && AllMade(t, o, ports) && AllMatchable(o) && Complete(frame) && FrameKey(frame, port).Some?
    ensures forall i :: 0 <= i < RULES ==>
              (Selects(t.table.rules[i], FrameKey(frame, port).value) <==> Wants(o[i], frame, port, ports))
  {
    hide Made, Matchable, Wants, FrameKey, Complete, Selects;
    forall i | 0 <= i < RULES
      ensures Selects(t.table.rules[i], FrameKey(frame, port).value) <==> Wants(o[i], frame, port, ports)
    {
      MadeSelects(t.table.rules[i], o[i], ports, frame, port);
    }
  }

  // ---------------------------------------------------------------- a table out of order

  /** An add with a match and an instruction; it is never made the default rule. */
  predicate Adds(m: Message) {
    m.command == FlowMod.Add && WellFormed(m) && m.instruction != [] && m.fields != [] && M.AllSupported(m.fields)
  }

  lemma AddsReach(s: Agent, m: Message, ports: Ports)
    requires s.Shaped() && Adds(m)
    ensures Reaches(s, m, ports) && Compiles(m) && MayInsert(m)
  {
    hide M.AllSupported, M.AllFit, Verdicts;
    MessageCompiles(m);
    ActionsOfMessage(m);
    NotDefault(m.instruction, INSTRUCTION_HEADER, Verdict(0, false), ports);
  }

  /** An add leaves the owner of an occupied slot. */
  lemma AddKeepsOwner(s: Agent, o: Owners, m: Message, ports: Ports, i: nat)
    requires s.Shaped() && Adds(m) && i < RULES && Live(s.table.rules[i])
    ensures NextOwners(s, o, m, ports)[i] == o[i]
  {
    hide WellFormed, TakenAsDefault, RuleOf, Reaches, Carries, NextOwners;
    AddsReach(s, m, ports);
    OwnersChange(s, o, m, ports);
  }

  /** The first add after the start owns slot 0. */
  lemma FirstAddOwns(regs: Regs, defaultAction: bv32, o: Owners, m: Message, ports: Ports)
    requires Adds(m)
    ensures NextOwners(Start(regs, defaultAction), o, m, ports)[0] == By(m, true)
  {
    hide WellFormed, TakenAsDefault, RuleOf, Reaches, ClearedSlots, WrittenAction, NextOwners;
    var s := Start(regs, defaultAction);
    AddsReach(s, m, ports);
    OwnersChange(s, o, m, ports);
    assert !Live(s.table.rules[0]);
    assert FindFree(s.table.rules) == 0;
    assert FindDigest(s.table.rules, RuleOf(m).digest) == RULES;
  }

  /** Two adds on a table just initialised: a frame the first one wants gets its action, whatever
      the priorities are and whatever the second one asks for. */
  lemma FirstAddWins(regs: Regs, defaultAction: bv32, first: Event, second: Event, ports: Ports, frame: seq<bv8>,
                     port: bv8)
    requires Admissible(Start(regs, defaultAction), [first, second], ports)
    requires Adds(first.message) && Adds(second.message) && Matchable(first.message.fields)
    requires Complete(frame) && FrameKey(frame, port).Some? && Wants(By(first.message, true), frame, port, ports)
    ensures Asks(first.message, ports,
                 MatchResult(FlowAgentRuns.Run(Start(regs, defaultAction), [first, second], ports).table.rules,
                             FrameKey(frame, port).value))
  {
    hide Start, FlowAgentRuns.Run, Fresh, WellFormed, Made, Matchable, Wants, FrameKey, Complete, Selects, Asks,
      Adds, NextOwners, OwnersAfter;
    var s, events := Start(regs, defaultAction), [first, second];
    var t := FlowAgentRuns.Run(s, events, ports);
    TwoOwners(regs, defaultAction, first, second, ports);
    AlwaysMade(regs, defaultAction, events, ports);
    MadeSelects(t.table.rules[0], By(first.message, true), ports, frame, port);
    MadePriority(t.table.rules[0], By(first.message, true), ports);
    FindsEarlier(t.table.rules, FrameKey(frame, port).value, 0);
  }

  lemma TwoOwners(regs: Regs, defaultAction: bv32, first: Event, second: Event, ports: Ports)
    requires Admissible(Start(regs, defaultAction), [first, second], ports)
    requires Adds(first.message) && Adds(second.message)
    ensures OwnersAfter(Start(regs, defaultAction), [first, second], ports)[0] == By(first.message, true)
  {
    hide Start, Fresh, WellFormed, Made, NextOwners, Adds, Stepped;
    var s := Start(regs, defaultAction);
    assert [first, second][..1] == [first] && [first][..0] == [];
    assert Admissible(s, [first], ports) by { AdmissiblePrefix(s, [first, second], ports); }
    FirstAddOwns(regs, defaultAction, OwnersAfter(s, [], ports), first.message, ports);
    AlwaysMade(regs, defaultAction, [first], ports);
    var t := FlowAgentRuns.Run(s, [first], ports);
    assert OwnersAfter(s, [first], ports)[0] == By(first.message, true);
    OwnedIsLive(t.table.rules[0], first.message, ports);
    AddKeepsOwner(t, OwnersAfter(s, [first], ports), second.message, ports, 0);
  }

  lemma OwnedIsLive(r: Rule, m: Message, ports: Ports)
    requires Made(r, By(m, true), ports)
    ensures Live(r)
  {
  }

  /** Blocks that differ are enough for two adds to be a run. */
  lemma TwoAdds(regs: Regs, defaultAction: bv32, first: Event, second: Event, ports: Ports)
    requires Adds(first.message) && Adds(second.message)
    requires first.block != 0 && second.block != 0 && first.block != second.block
    ensures Admissible(Start(regs, defaultAction), [first, second], ports)
  {
    hide Start, WellFormed, Stepped, M.AllSupported;
    var s, events := Start(regs, defaultAction), [first, second];
    assert events[..0] == [] && events[..1] == [first] && [first][..0] == [];
    FirstBlock(regs, defaultAction, first, ports);
    assert FlowAgentRuns.Run(s, [first], ports) == Stepped(s, first.message, first.block, ports);
  }

  lemma FirstBlock(regs: Regs, defaultAction: bv32, e: Event, ports: Ports)
    requires Adds(e.message)
    ensures var s := Start(regs, defaultAction);
            s.heap == map[] && Stepped(s, e.message, e.block, ports).heap.Keys == {e.block}
  {
    hide WellFormed, TakenAsDefault, RuleOf, RequestOf, RecordOf, Reaches, ClearedSlots, WrittenAction, Stepped,
      Inserted, M.AllSupported;
    var s, m := Start(regs, defaultAction), e.message;
    AddsReach(s, m, ports);
    ReachesRule(s, m, e.block, ports);
    var r := RequestOf(m, ports, e.block);
    InsertedIs(s, r.(key := Physical(r.key, ports)), e.block, RecordOf(m));
  }

  // ---------------------------------------------------------------- a frame of a lower priority rule

  /** Applying one action: output to a logical port. */
  function OutputTo(port: Byte): seq<Byte> {
    [0, 4, 0, 24, 0, 0, 0, 0] + [0, 0, 0, 16, 0, 0, 0, port, 0, 0, 0, 0, 0, 0, 0, 0]
  }

  function AddOf(priority: Byte, fields: seq<M.Tlv>, port: Byte): Message {
    Message(FlowMod.Add, Zeros(8), 0, [0, priority], Zeros(4), Zeros(2), fields, OutputTo(port), [])
  }

  const IS_IPV4 := M.Tlv(M.ETH_TYPE, false, 2, [0x08, 0x00])
  const IS_TCP := M.Tlv(M.IP_PROTO, false, 1, [6])

  /** All of IPv4 to port 1 at priority 1, and TCP to port 2 at priority 100. */
  const ANY_IPV4 := AddOf(1, [IS_IPV4], 1)
  const ONLY_TCP := AddOf(100, [IS_IPV4, IS_TCP], 2)

  /** A TCP segment in IPv4, up to its IP addresses. */
  const TCP_FRAME: seq<bv8> :=
    [0, 0, 0, 0, 0, 2, 0, 0, 0, 0, 0, 1, 0x08, 0x00, 0x45, 0, 0, 40, 0, 0, 0, 0, 64, 6, 0, 0, 10, 0, 0, 1, 10, 0, 0, 2]

  lemma OneOutput(port: Byte, ports: Ports, action: bv32)
    requires port < 10
    ensures |OutputTo(port)| == 24 && ActionsFit(OutputTo(port), 8)
    ensures LastDecides(OutputTo(port), Starts(OutputTo(port), 8), ports, action)
            <==> action == 0x3000_0000 | (ports[port] as bv32)
  {
    var s := OutputTo(port);
    assert Number(s, 10) == 16 && ActionsFit(s, 24);
    assert Starts(s, 8) == [8] + Starts(s, 24) == [8];
    assert LastOutput(s, [8], 0) && PortAt(s, 8) == port;
  }

  lemma Samples(ports: Ports, action: bv32)
    ensures Adds(ANY_IPV4) && Adds(ONLY_TCP) && Matchable(ANY_IPV4.fields)
    ensures PriorityOf(ANY_IPV4) == 1 && PriorityOf(ONLY_TCP) == 100
    ensures Asks(ANY_IPV4, ports, action) <==> action == 0x3000_0000 | (ports[1] as bv32)
    ensures Asks(ONLY_TCP, ports, action) <==> action == 0x3000_0000 | (ports[2] as bv32)
  {
    hide Starts, ActionsFit, M.EncodeAll, OutputTo, LastDecides;
    OneOutput(1, ports, action);
    OneOutput(2, ports, action);
    SampleFields();
  }

  lemma SampleFields()
    ensures M.Walkable([IS_IPV4, IS_TCP]) && M.AllSupported([IS_IPV4, IS_TCP])
    ensures M.Walkable([IS_IPV4]) && M.AllSupported([IS_IPV4]) && Matchable([IS_IPV4])
    ensures |M.EncodeAll([IS_IPV4])| == 6 && |M.EncodeAll([IS_IPV4, IS_TCP])| == 11
  {
    EncodedSamples();
  }

  lemma EncodedSamples()
    ensures |M.EncodeAll([IS_IPV4])| == 6 && |M.EncodeAll([IS_IPV4, IS_TCP])| == 11
  {
    assert [IS_IPV4][..0] == [] && [IS_IPV4, IS_TCP][..1] == [IS_IPV4];
  }

  lemma SampleFrame(port: bv8, ports: Ports)
    ensures Complete(TCP_FRAME) && FrameKey(TCP_FRAME, port).Some?
    ensures Wants(By(ANY_IPV4, true), TCP_FRAME, port, ports) && Wants(By(ONLY_TCP, true), TCP_FRAME, port, ports)
  {
    hide AddressKey, LinkKey;
    assert Ipv4(TCP_FRAME);
    assert FieldOf(TCP_FRAME, M.ETH_TYPE) == [0x08, 0x00] && FieldOf(TCP_FRAME, M.IP_PROTO) == [6];
  }

  /** After adding all of IPv4 at priority 1 and then TCP at priority 100, a TCP frame on any port
      still goes where the first rule says. */
  lemma PriorityIsIgnored(regs: Regs, defaultAction: bv32, p: Address, q: Address, ports: Ports, port: bv8)
    requires p != 0 && q != 0 && p != q
    ensures Admissible(Start(regs, defaultAction), [Event(ANY_IPV4, p), Event(ONLY_TCP, q)], ports)
    ensures Complete(TCP_FRAME) && FrameKey(TCP_FRAME, port).Some?
    ensures var rules := FlowAgentRuns.Run(Start(regs, defaultAction), [Event(ANY_IPV4, p), Event(ONLY_TCP, q)],
                                           ports).table.rules;
            MatchResult(rules, FrameKey(TCP_FRAME, port).value) == 0x3000_0000 | (ports[1] as bv32)
    ensures Wants(By(ONLY_TCP, true), TCP_FRAME, port, ports)
    ensures WellFormed(ANY_IPV4) && WellFormed(ONLY_TCP) && PriorityOf(ANY_IPV4) < PriorityOf(ONLY_TCP)
    ensures Asks(ONLY_TCP, ports, 0x3000_0000 | (ports[2] as bv32))
  {
    hide Start, FlowAgentRuns.Run, Fresh, Made, Matchable, Wants, FrameKey, Complete, Admissible, Asks, WellFormed,
      PriorityOf, MatchResult;
    Samples(ports, 0x3000_0000 | (ports[2] as bv32));
    SampleFrame(port, ports);
    TwoAdds(regs, defaultAction, Event(ANY_IPV4, p), Event(ONLY_TCP, q), ports);
    FirstAddWins(regs, defaultAction, Event(ANY_IPV4, p), Event(ONLY_TCP, q), ports, TCP_FRAME, port);
    var rules := FlowAgentRuns.Run(Start(regs, defaultAction), [Event(ANY_IPV4, p), Event(ONLY_TCP, q)],
                                   ports).table.rules;
    Samples(ports, MatchResult(rules, FrameKey(TCP_FRAME, port).value));
  }
}

/** Whole runs of the output engine: which words leave, and what the counters say. */
module OutputEngineRuns {
  import opened FastWord
  import opened PacketFifo
  import opened OutputEngine

  /** The inputs of every cycle and the counter memory at reset. */
  datatype Run = Run(ins: nat -> Input, counters: Counters)

  function At(x: Run, t: nat): (s: Engine)
    requires ValidCounters(x.counters)
    ensures ValidCounters(s.counters)
  {
    if t == 0 then Engine(FILTER_RESET, [], [], SENDER_RESET, x.counters)
    else EngineStep(At(x, t - 1), x.ins(t - 1))
  }

  function Written(i: Input): seq<Word> { if i.wr then [i.word] else [] }

  function Offered(x: Run, from: nat, end: nat): seq<Word>
    requires from <= end
    decreases end - from
  {
    if from == end then [] else Written(x.ins(from)) + Offered(x, from + 1, end)
  }

  function Delivered(x: Run, t: nat): seq<Word>
    requires ValidCounters(x.counters)
  {
    if t == 0 then [] else Delivered(x, t - 1) + Shows(At(x, t).sender.bus)
  }

  /** What the filter lets through of a stream that finds it within a packet or not. */
  function Survive(within: bool, drop: bool, ws: seq<Word>): seq<Word>
    decreases ws
  {
    if ws == [] then []
    else if !within then
      if ws[0].IsHead() then
        (if Marked(ws[0]) then [] else [ws[0]]) + Survive(true, Marked(ws[0]), ws[1..])
      else Survive(false, false, ws[1..])
    else (if drop then [] else [ws[0]]) + Survive(!ws[0].IsTail(), drop, ws[1..])
  }

  function Filtered(d: Filter): seq<Word> { if d.wr then [d.word] else [] }

  lemma FilterConserves(d: Filter, i: Input, ws: seq<Word>)
    ensures var e := FilterStep(d, i);
            Survive(d.within, d.drop, Written(i) + ws) == Filtered(e) + Survive(e.within, e.drop, ws)
  {
    hide Marked;
    SurviveOutside(d.drop, ws);
    if i.wr {
      var all := [i.word] + ws;
      assert all[0] == i.word && all[1..] == ws;
      assert Survive(d.within, d.drop, all)
             == if !d.within then
                  if i.word.IsHead() then
                    (if Marked(i.word) then [] else [i.word]) + Survive(true, Marked(i.word), ws)
                  else Survive(false, false, ws)
                else (if d.drop then [] else [i.word]) + Survive(!i.word.IsTail(), d.drop, ws);
    } else {
      assert [] + ws == ws;
    }
  }

  /** Between packets the drop flag does not matter. */
  lemma SurviveOutside(drop: bool, ws: seq<Word>)
    ensures Survive(false, drop, ws) == Survive(false, false, ws)
  {
  }

  /** The words the port has yet to see, in a run that goes on with `future`. */
  function Upcoming(s: Engine, future: seq<Word>): seq<Word> {
    s.data + Filtered(s.filter) + Survive(s.filter.within, s.filter.drop, future)
  }

  // ---------------------------------------------------------------- framing

  /** How many words of the current packet the sender has sent, up to three. */
  function Position(s: State): nat {
    match s
    case Idle => 0
    case Wait0 => 0
    case Wait1 => 1
    case Write => 2
    case Trans => 3
  }

  function NextPosition(k: nat, w: Word): nat {
    if w.IsTail() then 0 else if k < 3 then k + 1 else 3
  }

  /** Every packet of a stream has at least four words, the first k of them already gone. */
  predicate Framed(k: nat, ws: seq<Word>)
    decreases ws
  {
    ws == [] || ((ws[0].IsTail() ==> k >= 3) && Framed(NextPosition(k, ws[0]), ws[1..]))
  }

  /** The verdicts whose packets have not been started. */
  function Pending(s: Engine): seq<bool> {
    if s.sender.validRd && s.valids != [] then s.valids[1..] else s.valids
  }

  /** The sender reads the data FIFO exactly while it is at work on a packet, and there is one
      tail in the FIFO for every verdict not yet taken and for the packet in hand. */
  ghost predicate Sound(s: Engine) {
    && (s.sender.state != Idle <==> s.sender.dataRd)
    && (s.sender.validRd ==> s.valids != [] && s.sender.state == Wait0)
    && Tails(s.data) == |Pending(s)| + (if s.sender.state == Idle then 0 else 1)
    && (s.filter.validWr <==> s.filter.wr && s.filter.word.IsTail())
  }

  /** Room in both FIFOs for what the filter writes. */
  ghost predicate Room(s: Engine) {
    && (s.filter.wr ==> |s.data| < 256)
    && (s.filter.validWr ==> |s.valids| < 128)
  }

  lemma FilterMarksTails(d: Filter, i: Input)
    ensures var e := FilterStep(d, i); e.validWr <==> e.wr && e.word.IsTail()
  {
  }

  /** What one edge does to the data FIFO and to the words the port has yet to see. */
  lemma StepMoves(s: Engine, i: Input, future: seq<Word>)
    requires ValidCounters(s.counters) && Sound(s) && Room(s)
    ensures var r := EngineStep(s, i);
            && r.data == (if s.sender.state == Idle then s.data else s.data[1..]) + Filtered(s.filter)
            && (s.sender.state != Idle ==> s.data != [])
            && Shows(r.sender.bus) == (if s.sender.state == Idle then [] else [s.data[0]])
            && Upcoming(s, Written(i) + future) == Shows(r.sender.bus) + Upcoming(r, future)
  {
    hide FilterStep, Survive, Tails, Pending;
    FilterConserves(s.filter, i, future);
    var r := EngineStep(s, i);
    if s.sender.state == Idle {
      Regroup([], s.data, Filtered(s.filter), Filtered(r.filter),
              Survive(r.filter.within, r.filter.drop, future));
      assert [] + s.data == s.data;
    } else {
      assert s.data != [] by { BusyHasData(s); }
      assert [s.data[0]] + s.data[1..] == s.data;
      Regroup([s.data[0]], s.data[1..], Filtered(s.filter), Filtered(r.filter),
              Survive(r.filter.within, r.filter.drop, future));
    }
  }

  lemma BusyHasData(s: Engine)
    requires Sound(s) && s.sender.state != Idle
    ensures s.data != []
  {
  }

  lemma Regroup(a: seq<Word>, b: seq<Word>, c: seq<Word>, d: seq<Word>, e: seq<Word>)
    ensures (a + b) + c + (d + e) == a + ((b + c) + d + e)
  {
  }

  /** The verdicts after one edge. */
  lemma StepPending(s: Engine, i: Input)
    requires ValidCounters(s.counters) && Sound(s) && Room(s)
    ensures var r := EngineStep(s, i);
            && (r.sender.validRd ==> r.valids != [] && s.sender.state == Idle && r.sender.state == Wait0)
            && |Pending(r)| == |Pending(s)| + (if s.filter.validWr then 1 else 0)
                               - (if s.sender.state == Idle && r.sender.state == Wait0 then 1 else 0)
  {
    hide FilterStep;
  }

  lemma SoundStep(s: Engine, i: Input, future: seq<Word>)
    requires ValidCounters(s.counters) && Sound(s) && Room(s)
    requires Framed(Position(s.sender.state), Upcoming(s, Written(i) + future))
    ensures var r := EngineStep(s, i);
            Sound(r) && Framed(Position(r.sender.state), Upcoming(r, future))
  {
    hide FilterStep, Survive, FifoStep, Pending;
    var r := EngineStep(s, i);
    StepMoves(s, i, future);
    StepPending(s, i);
    FilterMarksTails(s.filter, i);
    TailsAppend(if s.sender.state == Idle then s.data else s.data[1..], Filtered(s.filter));
    var up := Upcoming(s, Written(i) + future);
    if s.sender.state == Idle {
      assert up == Upcoming(r, future);
    } else {
      assert up[0] == s.data[0] && up[1..] == Upcoming(r, future);
    }
  }

  // ---------------------------------------------------------------- counting

  /** The number of packets of flow f that start in a stream, k words of a packet gone. */
  function Starts(k: nat, ws: seq<Word>, f: FlowId): nat
    decreases ws
  {
    if ws == [] then 0
    else (if k == 0 && Flow(ws[0]) == f then 1 else 0) + Starts(NextPosition(k, ws[0]), ws[1..], f)
  }

  /** The counter memory once the write in hand is done. */
  function Settled(s: Engine): (r: seq<Uint32>)
    requires ValidCounters(s.counters)
    ensures |r| == FLOWS
  {
    if s.sender.countWr then s.counters.mem[s.sender.addr := s.sender.count] else s.counters.mem
  }

  /** The packet in hand has started but has not been added to its counter. */
  function Claimed(s: Engine, f: FlowId): nat {
    if (s.sender.state == Wait1 || s.sender.state == Write) && s.sender.flow == f then 1 else 0
  }

  /** The memory pipeline holds the counter of the packet in hand by the time it is needed. */
  ghost predicate Counting(s: Engine) {
    && ValidCounters(s.counters)
    && (s.sender.state != Trans ==> !s.sender.countWr)
    && (s.sender.state == Wait0 ==> s.data != [] && s.sender.flow == Flow(s.data[0]))
    && (s.sender.state == Wait0 || s.sender.state == Wait1 ==> s.sender.addr == s.sender.flow)
    && (s.sender.state == Wait1 ==> s.counters.latch == s.counters.mem[s.sender.flow])
    && (s.sender.state == Write ==> s.counters.dout == s.counters.mem[s.sender.flow])
  }

  /** Counter plus claim plus packets still to start, modulo 2^32. */
  function Tally(s: Engine, up: seq<Word>, f: FlowId): nat
    requires ValidCounters(s.counters)
  {
    (Settled(s)[f] + Claimed(s, f) + Starts(Position(s.sender.state), up, f)) % TWO_TO_THE_32
  }

  lemma CountingStep(s: Engine, i: Input)
    requires Counting(s) && Sound(s) && Room(s)
    ensures Counting(EngineStep(s, i))
  {
    hide FilterStep;
  }

  lemma Carry(x: nat, y: nat)
    ensures ((x + 1) % TWO_TO_THE_32 + y) % TWO_TO_THE_32 == (x + 1 + y) % TWO_TO_THE_32
  {
    var q := (x + 1) / TWO_TO_THE_32;
    assert x + 1 + y == q * TWO_TO_THE_32 + ((x + 1) % TWO_TO_THE_32 + y);
  }

  lemma TallyStep(s: Engine, i: Input, future: seq<Word>, f: FlowId)
    requires Counting(s) && Sound(s) && Room(s)
    requires Framed(Position(s.sender.state), Upcoming(s, Written(i) + future))
    ensures Tally(EngineStep(s, i), Upcoming(EngineStep(s, i), future), f)
            == Tally(s, Upcoming(s, Written(i) + future), f)
  {
    hide FilterStep, Survive, FifoStep, Sound, Room, Field;
    StepMoves(s, i, future);
    var r := EngineStep(s, i);
    var up := Upcoming(s, Written(i) + future);
    if s.sender.state == Idle {
      assert up == Upcoming(r, future);
    } else {
      assert up[0] == s.data[0] && up[1..] == Upcoming(r, future);
      if s.sender.state == Write && s.sender.flow == f {
        Carry(s.counters.mem[f], Starts(3, up[1..], f));
      }
    }
  }

  // ---------------------------------------------------------------- runs

  ghost predicate NoOverflow(x: Run, t: nat)
    requires ValidCounters(x.counters)
  {
    forall k: nat :: k < t ==> Room(At(x, k))
  }

  lemma RoomAt(x: Run, end: nat, t: nat)
    requires ValidCounters(x.counters) && NoOverflow(x, end) && t < end
    ensures Room(At(x, t)) && NoOverflow(x, t)
  {
    hide At, Room;
  }

  lemma Unfold(x: Run, t: nat, end: nat)
    requires ValidCounters(x.counters) && t < end
    ensures At(x, t + 1) == EngineStep(At(x, t), x.ins(t))
    ensures Delivered(x, t + 1) == Delivered(x, t) + Shows(At(x, t + 1).sender.bus)
    ensures Offered(x, t, end) == Written(x.ins(t)) + Offered(x, t + 1, end)
  {
    hide EngineStep, Written, Shows;
  }

  /** What the port has yet to see after t cycles of a run of `end` cycles. */
  function Rest(x: Run, t: nat, end: nat): seq<Word>
    requires ValidCounters(x.counters) && t <= end
  {
    Upcoming(At(x, t), Offered(x, t, end))
  }

  /** The words a run of `end` cycles lets through. */
  function Let(x: Run, end: nat): seq<Word> { Survive(false, false, Offered(x, 0, end)) }

  ghost predicate Good(x: Run, t: nat, end: nat)
    requires ValidCounters(x.counters) && t <= end
  {
    var s := At(x, t);
    && Sound(s) && Counting(s)
    && Framed(Position(s.sender.state), Rest(x, t, end))
    && Delivered(x, t) + Rest(x, t, end) == Let(x, end)
    && forall f: FlowId :: Tally(s, Rest(x, t, end), f)
                           == (x.counters.mem[f] + Starts(0, Let(x, end), f)) % TWO_TO_THE_32
  }

  lemma GoodAtReset(x: Run, end: nat)
    requires ValidCounters(x.counters) && Framed(0, Let(x, end))
    ensures Good(x, 0, end)
  {
    hide Survive, Framed;
    assert Rest(x, 0, end) == [] + [] + Let(x, end) == Let(x, end);
    assert [] + Let(x, end) == Let(x, end);
  }

  lemma GoodStep(x: Run, t: nat, end: nat)
    requires ValidCounters(x.counters) && t < end && Good(x, t, end) && Room(At(x, t))
    ensures Good(x, t + 1, end)
  {
    hide At, EngineStep, Sound, Counting, Framed, Tally, Upcoming, Room, Let, Written, Shows;
    Unfold(x, t, end);
    var s, i, future := At(x, t), x.ins(t), Offered(x, t + 1, end);
    StepMoves(s, i, future);
    SoundStep(s, i, future);
    CountingStep(s, i);
    forall f: FlowId
      ensures Tally(At(x, t + 1), Rest(x, t + 1, end), f)
              == (x.counters.mem[f] + Starts(0, Let(x, end), f)) % TWO_TO_THE_32
    {
      TallyStep(s, i, future, f);
    }
  }

  lemma {:induction false} AlwaysGood(x: Run, t: nat, end: nat)
    requires ValidCounters(x.counters) && t <= end && NoOverflow(x, end) && Framed(0, Let(x, end))
    ensures Good(x, t, end)
    decreases t
  {
    hide Good, Framed, Room, NoOverflow, At, Let;
    if t == 0 {
      GoodAtReset(x, end);
    } else {
      AlwaysGood(x, t - 1, end);
      RoomAt(x, end, t - 1);
      GoodStep(x, t - 1, end);
    }
  }

  // ---------------------------------------------------------------- in terms of packets

  /** Bit 108 of its first word marks a packet for discarding. */
  predicate Dropped(p: seq<Word>)
    requires p != []
  {
    p[0].payload / 0x1000_0000_0000_0000_0000_0000_0000 % 2 == 1
  }

  /** The packets whose head is not marked. */
  function Forwarded(ps: seq<seq<Word>>): (r: seq<seq<Word>>)
    requires forall k :: 0 <= k < |ps| ==> ps[k] != []
    ensures forall k :: 0 <= k < |r| ==> r[k] != []
  {
    if ps == [] then [] else (if Dropped(ps[0]) then [] else [ps[0]]) + Forwarded(ps[1..])
  }

  /** The packets that are let through have at least four words. */
  ghost predicate LongEnough(ps: seq<seq<Word>>) {
    forall k :: 0 <= k < |ps| ==> WellFramed(ps[k]) && (Dropped(ps[k]) || |ps[k]| >= 4)
  }

  lemma {:induction false} SurviveInside(drop: bool, p: seq<Word>, ws: seq<Word>)
    requires EndsInTail(p)
    ensures Survive(true, drop, p + ws) == (if drop then [] else p) + Survive(false, false, ws)
    decreases |p|
  {
    assert (p + ws)[1..] == p[1..] + ws;
    if |p| == 1 {
      assert p[1..] + ws == ws && p == [p[0]];
      SurviveOutside(drop, ws);
    } else {
      assert !p[0].IsTail();
      SurviveInside(drop, p[1..], ws);
      assert [p[0]] + (p[1..] + Survive(false, false, ws)) == p + Survive(false, false, ws);
    }
  }

  lemma SurvivePacket(p: seq<Word>, ws: seq<Word>)
    requires WellFramed(p)
    ensures Survive(false, false, p + ws)
            == (if Dropped(p) then [] else p) + Survive(false, false, ws)
  {
    assert (p + ws)[1..] == p[1..] + ws;
    SurviveInside(Marked(p[0]), p[1..], ws);
    assert [p[0]] + (p[1..] + Survive(false, false, ws)) == p + Survive(false, false, ws);
  }

  lemma {:induction false} SurvivesIsForwarded(ps: seq<seq<Word>>)
    requires Packets(ps)
    ensures Survive(false, false, Flatten(ps)) == Flatten(Forwarded(ps))
  {
    if ps != [] {
      var p := ps[0];
      SurvivePacket(p, Flatten(ps[1..]));
      SurvivesIsForwarded(ps[1..]);
      FlattenAppend(if Dropped(p) then [] else [p], Forwarded(ps[1..]));
      assert Flatten([p]) == p + Flatten([p][1..]) == p;
    }
  }

  function Min3(k: nat): nat { if k < 3 then k else 3 }

  /** The words of a packet from index k on. */
  lemma {:induction false} FramedPacket(p: seq<Word>, k: nat, ws: seq<Word>, f: FlowId)
    requires WellFramed(p) && |p| >= 4 && k < |p|
    ensures Framed(Min3(k), p[k..] + ws) == Framed(0, ws)
    ensures Starts(Min3(k), p[k..] + ws, f)
            == (if k == 0 && Flow(p[0]) == f then 1 else 0) + Starts(0, ws, f)
    decreases |p| - k
  {
    var all := p[k..] + ws;
    assert all[0] == p[k];
    if k == |p| - 1 {
      assert all[1..] == ws;
    } else {
      assert all[1..] == p[k + 1..] + ws;
      assert !p[k].IsTail();
      FramedPacket(p, k + 1, ws, f);
    }
  }

  /** The number of packets of flow f. */
  function OfFlow(ps: seq<seq<Word>>, f: FlowId): nat
    requires forall k :: 0 <= k < |ps| ==> ps[k] != []
  {
    if ps == [] then 0 else (if ps[0][0].payload / 0x4_0000_0000_0000 % 256 == f then 1 else 0) + OfFlow(ps[1..], f)
  }

  lemma {:induction false} FramedPackets(ps: seq<seq<Word>>, f: FlowId)
    requires Packets(ps) && forall k :: 0 <= k < |ps| ==> |ps[k]| >= 4
    ensures Framed(0, Flatten(ps)) && Starts(0, Flatten(ps), f) == OfFlow(ps, f)
  {
    if ps != [] {
      FramedPackets(ps[1..], f);
      FramedPacket(ps[0], 0, Flatten(ps[1..]), f);
      assert ps[0][0..] == ps[0];
    }
  }

  lemma {:induction false} ForwardedShape(ps: seq<seq<Word>>)
    requires LongEnough(ps)
    ensures Packets(Forwarded(ps)) && forall k :: 0 <= k < |Forwarded(ps)| ==> |Forwarded(ps)[k]| >= 4
  {
    if ps != [] {
      ForwardedShape(ps[1..]);
    }
  }

  /** A run offers these packets, in any cycles whatever. */
  ghost predicate Offers(x: Run, end: nat, ps: seq<seq<Word>>) {
    ValidCounters(x.counters) && NoOverflow(x, end) && LongEnough(ps) && Offered(x, 0, end) == Flatten(ps)
  }

  lemma OffersGood(x: Run, t: nat, end: nat, ps: seq<seq<Word>>)
    requires t <= end && Offers(x, end, ps)
    ensures Good(x, t, end) && Let(x, end) == Flatten(Forwarded(ps))
    ensures forall f: FlowId :: Starts(0, Let(x, end), f) == OfFlow(Forwarded(ps), f)
  {
    hide Good, Survive, Framed, Starts, Flatten, NoOverflow;
    SurvivesIsForwarded(ps);
    ForwardedShape(ps);
    FramedPackets(Forwarded(ps), 0);
    AlwaysGood(x, t, end);
    forall f: FlowId
      ensures Starts(0, Let(x, end), f) == OfFlow(Forwarded(ps), f)
    {
      FramedPackets(Forwarded(ps), f);
    }
  }

  /** Nothing is in hand and nothing is waiting. */
  predicate Drained(s: Engine) {
    s.sender.state == Idle && s.valids == [] && !s.filter.wr
  }

  /** At every moment what has left is a prefix of the packets that are not marked, whole and in
      order. */
  lemma ForwardsPackets(x: Run, t: nat, end: nat, ps: seq<seq<Word>>)
    requires t <= end && Offers(x, end, ps)
    ensures Delivered(x, t) <= Flatten(Forwarded(ps))
  {
    hide Flatten, Offers, LongEnough;
    OffersGood(x, t, end, ps);
  }

  lemma {:induction false} FlattenEndsInTail(ps: seq<seq<Word>>)
    requires Packets(ps) && ps != []
    ensures var ws := Flatten(ps); ws != [] && ws[|ws| - 1].IsTail()
  {
    if |ps| == 1 {
      assert Flatten(ps[1..]) == [];
    } else {
      FlattenEndsInTail(ps[1..]);
    }
  }

  lemma {:induction false} LastTailCounts(ws: seq<Word>)
    requires ws != [] && ws[|ws| - 1].IsTail()
    ensures Tails(ws) > 0
  {
    if |ws| > 1 {
      LastTailCounts(ws[1..]);
    }
  }

  /** Whole packets leave no partial packet behind. */
  lemma NothingLeft(x: Run, end: nat, ps: seq<seq<Word>>)
    requires Offers(x, end, ps) && Drained(At(x, end))
    ensures Rest(x, end, end) == []
  {
    hide NoOverflow, At, Framed, Counting;
    OffersGood(x, end, end, ps);
    var s := At(x, end);
    assert Rest(x, end, end) == s.data;
    if s.data != [] {
      ForwardedShape(ps);
      var all := Flatten(Forwarded(ps));
      assert all == Delivered(x, end) + s.data;
      assert Forwarded(ps) != [];
      FlattenEndsInTail(Forwarded(ps));
      assert s.data[|s.data| - 1] == all[|all| - 1];
      LastTailCounts(s.data);
    }
  }

  /** At rest the tally is the counter. */
  lemma TallyAtRest(s: Engine, f: FlowId)
    requires Counting(s) && s.sender.state == Idle
    ensures Tally(s, [], f) == s.counters.mem[f]
  {
  }

  /** When the engine has drained, exactly the unmarked packets have left, and counter f has
      gone up by the number of them that carry flow number f, modulo 2^32. */
  lemma CountsPackets(x: Run, end: nat, ps: seq<seq<Word>>, f: FlowId)
    requires Offers(x, end, ps) && Drained(At(x, end))
    ensures Delivered(x, end) == Flatten(Forwarded(ps))
    ensures At(x, end).counters.mem[f] == (x.counters.mem[f] + OfFlow(Forwarded(ps), f)) % TWO_TO_THE_32
  {
    hide Flatten, LongEnough, NoOverflow, At, Framed, Sound, Counting, Tally, Rest, Starts, OfFlow, Let, Forwarded;
    OffersGood(x, end, end, ps);
    NothingLeft(x, end, ps);
    TallyAtRest(At(x, end), f);
  }

  // ---------------------------------------------------------------- progress

  function Work(s: Engine): nat { |s.data| + |Pending(s)| }

  ghost predicate Quiet(x: Run, from: nat, end: nat) {
    forall k: nat :: from <= k < end ==> !x.ins(k).wr && x.ins(k).ready
  }

  lemma WorkStep(s: Engine, i: Input)
    requires ValidCounters(s.counters) && Sound(s) && Room(s) && !s.filter.wr && !i.wr && i.ready
    ensures var r := EngineStep(s, i);
            !r.filter.wr && (if Drained(s) then Drained(r) else Work(r) + 1 == Work(s))
  {
    hide Survive;
    StepMoves(s, i, []);
    StepPending(s, i);
  }

  /** With the port ready and no more input, everything is out within as many cycles as there
      are words and packets stored. */
  lemma {:induction false} Drains(x: Run, t: nat, k: nat, end: nat, ps: seq<seq<Word>>)
    requires t + k <= end && Offers(x, end, ps) && Quiet(x, t, end) && !At(x, t).filter.wr
    ensures !At(x, t + k).filter.wr
    ensures Drained(At(x, t + k)) || Work(At(x, t + k)) + k == Work(At(x, t))
    decreases k
  {
    hide At, EngineStep, Work, Drained, Sound, Room, Counting, NoOverflow, Framed, LongEnough, Let, Rest, Flatten,
      Forwarded;
    if k > 0 {
      var u := t + k - 1;
      Drains(x, t, k - 1, end, ps);
      OffersGood(x, u, end, ps);
      RoomAt(x, end, u);
      Unfold(x, u, end);
      WorkStep(At(x, u), x.ins(u));
    }
  }

  // ---------------------------------------------------------------- packets that are too short

  /** One unmarked packet in consecutive cycles from reset, the port always ready. */
  ghost predicate Alone(x: Run, p: seq<Word>) {
    && ValidCounters(x.counters)
    && WellFramed(p) && !Dropped(p)
    && (forall t: nat :: x.ins(t).ready && x.ins(t).wr == (t < |p|))
    && (forall t: nat :: t < |p| ==> x.ins(t).word == p[t])
  }

  ghost predicate Arriving(s: Engine, p: seq<Word>, t: nat)
    requires 1 <= t <= |p|
  {
    && s.filter == Filter(t < |p|, false, true, p[t - 1], t == |p|)
    && s.data == p[..t - 1] && s.valids == [] && s.sender == SENDER_RESET
  }

  lemma {:induction false} Arrives(x: Run, p: seq<Word>, t: nat)
    requires Alone(x, p) && |p| <= 3 && 1 <= t <= |p|
    ensures Arriving(At(x, t), p, t)
  {
    assert x.ins(t - 1).wr && x.ins(t - 1).word == p[t - 1];
    if t > 1 {
      Arrives(x, p, t - 1);
      assert p[..t - 2] + [p[t - 2]] == p[..t - 1];
    }
  }

  /** The sender at work on a packet it found alone in the FIFO: k words gone. */
  ghost predicate Sending(s: Engine, p: seq<Word>, k: nat) {
    && s.filter == FILTER_RESET
    && s.sender.state == (if k == 0 then Wait0 else if k == 1 then Wait1 else if k == 2 then Write else Trans)
    && s.sender.dataRd
    && s.data == (if k <= |p| then p[k..] else [])
    && (k > 0 ==> s.sender.bus.wr)
  }

  lemma StartsSending(x: Run, p: seq<Word>)
    requires Alone(x, p) && |p| <= 3
    ensures Sending(At(x, |p| + 2), p, 0) && Delivered(x, |p| + 2) == []
  {
    var n := |p|;
    Arrives(x, p, n);
    assert !x.ins(n).wr && !x.ins(n + 1).wr && x.ins(n + 1).ready;
    assert p[..n - 1] + [p[n - 1]] == p;
    assert At(x, n + 1) == Engine(FILTER_RESET, p, [true], SENDER_RESET, At(x, n + 1).counters);
    NothingYet(x, p, n);
  }

  lemma {:induction false} NothingYet(x: Run, p: seq<Word>, t: nat)
    requires Alone(x, p) && |p| <= 3 && t <= |p|
    ensures Delivered(x, t) == []
  {
    if t > 0 {
      NothingYet(x, p, t - 1);
      Arrives(x, p, t);
    }
  }

  lemma SendsOn(x: Run, p: seq<Word>, t: nat, k: nat)
    requires Alone(x, p) && |p| <= 3 && k <= 3 && t >= |p| && Sending(At(x, t), p, k)
    ensures Sending(At(x, t + 1), p, k + 1) && |Delivered(x, t + 1)| == |Delivered(x, t)| + 1
  {
    assert !x.ins(t).wr;
    var s := At(x, t);
    assert k < 3 || s.data == [];
    assert At(x, t + 1) == EngineStep(s, x.ins(t));
  }

  /** A lone packet of two or three words is overrun: a fourth word leaves that was never offered. */
  lemma ShortPacketOverrun(x: Run, p: seq<Word>)
    requires Alone(x, p) && |p| < 4
    ensures |Delivered(x, |p| + 6)| == 4
  {
    hide At, Alone, Sending, Delivered;
    StartsSending(x, p);
    SendsOn(x, p, |p| + 2, 0);
    SendsOn(x, p, |p| + 3, 1);
    SendsOn(x, p, |p| + 4, 2);
    SendsOn(x, p, |p| + 5, 3);
  }
}

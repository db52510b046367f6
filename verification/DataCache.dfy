/** The data cache: packets are stored until their verdict is known, then sent whole or
    dropped.  Both FIFOs show their first element ahead of the read strobe; a write to a full
    FIFO is lost. */
module DataCache {
  import opened FastWord
  import opened PacketFifo

  const DATA_DEPTH: nat := 1024
  const VALID_DEPTH: nat := 256

  datatype Input = Input(bus: Bus, almostFull: bool)

  datatype State = Idle | Send | Discard

  /** The registers of the state machine: its state, the two read strobes, the output bus. */
  datatype Control = Control(state: State, dataRd: bool, validRd: bool, bus: Bus)

  datatype Cache = Cache(data: seq<Word>, valids: seq<bool>, ctl: Control)

  const CACHE_RESET := Cache([], [], Control(Idle, false, false, IDLE_BUS))

  function ControlStep(c: Control, rdata: Word, valids: seq<bool>, almostFull: bool): Control {
    match c.state
    case Idle =>
      var bus := c.bus.(wr := false, validWr := false);
      if valids != [] && !valids[0] then Control(Discard, true, true, bus)
      else if valids != [] && !almostFull then Control(Send, true, true, bus)
      else Control(Idle, false, false, bus)
    case Send =>
      var tail := rdata.IsTail();
      Control(if tail then Idle else Send, !tail, false, Bus(rdata, true, tail, tail))
    case Discard =>
      var tail := rdata.IsTail();
      Control(if tail then Idle else Discard, !tail, false, IDLE_BUS)
  }

  function CacheStep(c: Cache, i: Input): Cache {
    Cache(FifoStep(c.data, c.ctl.dataRd, i.bus.wr, i.bus.word, DATA_DEPTH),
          FifoStep(c.valids, c.ctl.validRd, i.bus.validWr, i.bus.valid, VALID_DEPTH),
          ControlStep(c.ctl, Shown(c.data), c.valids, i.almostFull))
  }

  class PacketStore {
    var data: seq<Word>
    var valids: seq<bool>
    var state: State
    var dataRd: bool
    var validRd: bool
    var bus: Bus

    function Registers(): Control
      reads this
    {
      Control(state, dataRd, validRd, bus)
    }

    function View(): Cache
      reads this
    {
      Cache(data, valids, Registers())
    }

    constructor ()
      ensures View() == CACHE_RESET
      ensures View() == Cache([], [], Control(Idle, false, false, Bus(Word(0, 0, 0), false, false, false)))
    {
      data, valids, state, dataRd, validRd, bus := [], [], Idle, false, false, IDLE_BUS;
    }

    method ClockControl(rdata: Word, almostFull: bool)
      modifies this`state, this`dataRd, this`validRd, this`bus
      ensures Registers() == ControlStep(old(Registers()), rdata, valids, almostFull)
    {
      match state {
        case Idle =>
          bus := bus.(wr := false, validWr := false);
          dataRd, validRd := false, false;
          if valids != [] {
            if !valids[0] {
              dataRd, validRd, state := true, true, Discard;
            } else if !almostFull {
              dataRd, validRd, state := true, true, Send;
            }
          }
        case Send =>
          validRd := false;
          if rdata.IsTail() {
            bus, dataRd, state := Bus(rdata, true, true, true), false, Idle;
          } else {
            bus, dataRd := Bus(rdata, true, false, false), true;
          }
        case Discard =>
          validRd, bus := false, IDLE_BUS;
          if rdata.IsTail() {
            dataRd, state := false, Idle;
          } else {
            dataRd := true;
          }
      }
    }

    method Clock(i: Input)
      modifies this
      ensures View() == CacheStep(old(View()), i)
    {
      hide ControlStep, FifoStep;
      var nextData := FifoStep(data, dataRd, i.bus.wr, i.bus.word, DATA_DEPTH);
      var nextValids := FifoStep(valids, validRd, i.bus.validWr, i.bus.valid, VALID_DEPTH);
      ClockControl(Shown(data), i.almostFull);
      data, valids := nextData, nextValids;
    }
  }

  /** What one edge adds to the two FIFOs, of 1024 words and 256 verdicts: a word that finds 1024
      before it is lost, even when one is read in the same cycle. */
  lemma FullLoses(c: Cache, i: Input)
    requires |c.data| <= 1024 && |c.valids| <= 256
    ensures var r := CacheStep(c, i);
            && r.data == (if c.ctl.dataRd && c.data != [] then c.data[1..] else c.data)
                         + (if i.bus.wr && |c.data| != 1024 then [i.bus.word] else [])
            && r.valids == (if c.ctl.validRd && c.valids != [] then c.valids[1..] else c.valids)
                           + (if i.bus.validWr && |c.valids| != 256 then [i.bus.valid] else [])
            && |r.data| <= 1024 && |r.valids| <= 256
  {
  }

  // ---------------------------------------------------------------- runs

  function At(ins: nat -> Input, t: nat): Cache {
    if t == 0 then CACHE_RESET else CacheStep(At(ins, t - 1), ins(t - 1))
  }

  /** The words written in cycles from..end-1, and the verdicts. */
  function Offered(ins: nat -> Input, from: nat, end: nat): seq<Word>
    requires from <= end
    decreases end - from
  {
    if from == end then []
    else Written(ins(from)) + Offered(ins, from + 1, end)
  }

  function Verdicts(ins: nat -> Input, from: nat, end: nat): seq<bool>
    requires from <= end
    decreases end - from
  {
    if from == end then []
    else Decided(ins(from)) + Verdicts(ins, from + 1, end)
  }

  /** The words on the output bus in cycles 1..t. */
  function Delivered(ins: nat -> Input, t: nat): seq<Word> {
    if t == 0 then []
    else Delivered(ins, t - 1) + Shows(At(ins, t).ctl.bus)
  }

  /** A run in which a verdict comes with every tail and only there, as the parser sends it,
      and no FIFO overflows. */
  ghost predicate LegalRun(ins: nat -> Input, t: nat) {
    forall k: nat :: k < t ==> Legal(At(ins, k), ins(k))
  }

  // ---------------------------------------------------------------- what is still to be sent

  /** What a reader in the given state sends of a stream of words, given the verdicts of its
      packets; a packet whose verdict is not known yet is not started. */
  function Remaining(s: State, ws: seq<Word>, vs: seq<bool>): seq<Word>
    decreases |ws| + |vs|
  {
    match s
    case Idle => if vs == [] then [] else Remaining(if vs[0] then Send else Discard, ws, vs[1..])
    case Send =>
      if ws == [] then []
      else [ws[0]] + Remaining(if ws[0].IsTail() then Idle else Send, ws[1..], vs)
    case Discard =>
      if ws == [] then []
      else Remaining(if ws[0].IsTail() then Idle else Discard, ws[1..], vs)
  }

  /** The verdicts whose packets have not been started. */
  function Pending(c: Cache): seq<bool> {
    if c.ctl.validRd && c.valids != [] then c.valids[1..] else c.valids
  }

  function Written(i: Input): seq<Word> { if i.bus.wr then [i.bus.word] else [] }

  function Decided(i: Input): seq<bool> { if i.bus.validWr then [i.bus.valid] else [] }

  /** The input of one edge is accepted: a verdict with each tail, room for both. */
  ghost predicate Legal(c: Cache, i: Input) {
    && (i.bus.validWr <==> i.bus.wr && i.bus.word.IsTail())
    && (i.bus.wr ==> |c.data| < 1024)
    && (i.bus.validWr ==> |c.valids| < 256)
  }

  ghost predicate Consistent(c: Cache) {
    && (c.ctl.state == Idle ==> !c.ctl.dataRd && !c.ctl.validRd)
    && (c.ctl.state != Idle ==> c.ctl.dataRd)
    && (c.ctl.validRd ==> c.valids != [])
    && Tails(c.data) == |Pending(c)| + (if c.ctl.state == Idle then 0 else 1)
    && (c.ctl.bus.wr ==> c.ctl.bus.validWr == c.ctl.bus.valid == c.ctl.bus.word.IsTail())
    && (c.ctl.bus.validWr ==> c.ctl.bus.wr)
  }

  lemma ConsistentStep(c: Cache, i: Input)
    requires Consistent(c) && Legal(c, i)
    ensures Consistent(CacheStep(c, i))
  {
    TailsAppend(if c.ctl.dataRd && c.data != [] then c.data[1..] else c.data,
                if i.bus.wr then [i.bus.word] else []);
  }

  lemma LegalAt(ins: nat -> Input, end: nat, t: nat)
    requires LegalRun(ins, end) && t < end
    ensures LegalRun(ins, t) && Legal(At(ins, t), ins(t))
  {
    hide At, Legal;
  }

  lemma {:induction false} AlwaysConsistent(ins: nat -> Input, t: nat)
    requires LegalRun(ins, t)
    ensures Consistent(At(ins, t))
  {
    hide CacheStep, Consistent, Legal, LegalRun;
    if t == 0 {
      ResetConsistent();
    } else {
      LegalAt(ins, t, t - 1);
      AlwaysConsistent(ins, t - 1);
      ConsistentStep(At(ins, t - 1), ins(t - 1));
    }
  }

  lemma ResetConsistent()
    ensures Consistent(CACHE_RESET)
  {
  }

  /** Whenever a word is sent or dropped there is one: the FIFO is never read while empty. */
  lemma NeverReadsEmpty(ins: nat -> Input, t: nat)
    requires LegalRun(ins, t)
    ensures At(ins, t).ctl.state != Idle ==> At(ins, t).data != []
  {
    AlwaysConsistent(ins, t);
  }

  /** Where one edge leaves the words and verdicts that are still to be dealt with. */
  lemma StepQueues(c: Cache, i: Input, ws: seq<Word>, vs: seq<bool>)
    requires Consistent(c) && Legal(c, i)
    ensures var d := CacheStep(c, i);
            var all, verdicts := c.data + (Written(i) + ws), Pending(c) + (Decided(i) + vs);
            && (c.ctl.state == Idle ==> d.data + ws == all && !d.ctl.bus.wr)
            && (c.ctl.state != Idle ==> c.data != [] && d.data + ws == all[1..])
            && (c.ctl.state == Idle && d.ctl.state != Idle ==>
                  verdicts != [] && d.ctl.state == (if verdicts[0] then Send else Discard)
                  && Pending(d) + vs == verdicts[1..])
            && (c.ctl.state != Idle || d.ctl.state == Idle ==> Pending(d) + vs == verdicts)
  {
    var d := CacheStep(c, i);
    assert d.data == (if c.ctl.dataRd && c.data != [] then c.data[1..] else c.data) + Written(i);
    assert Pending(d) == if c.ctl.state == Idle && d.ctl.state != Idle then (Pending(c) + Decided(i))[1..]
                         else Pending(c) + Decided(i);
  }

  /** One edge moves at most one word from what remains to the output bus. */
  lemma StepConserves(c: Cache, i: Input, ws: seq<Word>, vs: seq<bool>)
    requires Consistent(c) && Legal(c, i)
    ensures var d := CacheStep(c, i);
            Remaining(c.ctl.state, c.data + (Written(i) + ws), Pending(c) + (Decided(i) + vs))
            == Shows(d.ctl.bus) + Remaining(d.ctl.state, d.data + ws, Pending(d) + vs)
  {
    hide FifoStep, Consistent, Legal, Pending;
    StepQueues(c, i, ws, vs);
  }

  /** One more cycle of a run. */
  lemma Unfold(ins: nat -> Input, t: nat, end: nat)
    requires t < end
    ensures At(ins, t + 1) == CacheStep(At(ins, t), ins(t))
    ensures Delivered(ins, t + 1) == Delivered(ins, t) + Shows(At(ins, t + 1).ctl.bus)
    ensures Offered(ins, t, end) == Written(ins(t)) + Offered(ins, t + 1, end)
    ensures Verdicts(ins, t, end) == Decided(ins(t)) + Verdicts(ins, t + 1, end)
  {
    hide CacheStep, Written, Decided, Shows;
  }

  /** What cycle t of a run of `end` cycles leaves to be sent. */
  ghost function Rest(ins: nat -> Input, t: nat, end: nat): seq<Word>
    requires t <= end
  {
    var c := At(ins, t);
    Remaining(c.ctl.state, c.data + Offered(ins, t, end), Pending(c) + Verdicts(ins, t, end))
  }

  lemma RestStep(ins: nat -> Input, t: nat, end: nat)
    requires t < end && LegalRun(ins, end)
    ensures Rest(ins, t, end) == Shows(At(ins, t + 1).ctl.bus) + Rest(ins, t + 1, end)
  {
    hide At, CacheStep, LegalRun, Remaining, Offered, Verdicts, Pending, Written, Decided, Shows;
    LegalAt(ins, end, t);
    AlwaysConsistent(ins, t);
    Unfold(ins, t, end);
    StepConserves(At(ins, t), ins(t), Offered(ins, t + 1, end), Verdicts(ins, t + 1, end));
  }

  lemma {:induction false} RunConserves(ins: nat -> Input, t: nat, end: nat)
    requires t <= end && LegalRun(ins, end)
    ensures Rest(ins, 0, end) == Delivered(ins, t) + Rest(ins, t, end)
    decreases t
  {
    hide Rest, CacheStep, LegalRun, Shows;
    if t > 0 {
      RunConserves(ins, t - 1, end);
      RestStep(ins, t - 1, end);
    }
  }

  // ---------------------------------------------------------------- in terms of packets

  /** The packets with a true verdict, in order. */
  function Kept(ps: seq<seq<Word>>, vs: seq<bool>): seq<seq<Word>>
    requires |ps| == |vs|
  {
    if ps == [] then [] else (if vs[0] then [ps[0]] else []) + Kept(ps[1..], vs[1..])
  }

  /** Reading on to the end of a packet. */
  lemma {:induction false} FinishPacket(s: State, p: seq<Word>, ws: seq<Word>, vs: seq<bool>)
    requires s != Idle && EndsInTail(p)
    ensures Remaining(s, p + ws, vs) == (if s == Send then p else []) + Remaining(Idle, ws, vs)
    decreases |p|
  {
    assert (p + ws)[1..] == p[1..] + ws;
    if |p| == 1 {
      assert p[1..] + ws == ws;
      assert p == [p[0]];
    } else {
      assert !p[0].IsTail();
      FinishPacket(s, p[1..], ws, vs);
      assert [p[0]] + (p[1..] + Remaining(Idle, ws, vs)) == p + Remaining(Idle, ws, vs);
    }
  }

  lemma {:induction false} RemainingIsKept(ps: seq<seq<Word>>, rest: seq<Word>, vs: seq<bool>)
    requires Packets(ps) && |ps| == |vs|
    ensures Remaining(Idle, Flatten(ps) + rest, vs) == Flatten(Kept(ps, vs))
  {
    if ps != [] {
      var p := ps[0];
      assert Flatten(ps) + rest == p + (Flatten(ps[1..]) + rest);
      FinishPacket(if vs[0] then Send else Discard, p, Flatten(ps[1..]) + rest, vs[1..]);
      RemainingIsKept(ps[1..], rest, vs[1..]);
      FlattenAppend(if vs[0] then [p] else [], Kept(ps[1..], vs[1..]));
      assert Flatten([p]) == p + Flatten([p][1..]) == p;
    }
  }

  /** At every moment the words sent so far are a prefix of the packets with a true verdict,
      whole and in order; nothing is lost, repeated or merged. */
  lemma SendsKeptPackets(ins: nat -> Input, t: nat, ps: seq<seq<Word>>, rest: seq<Word>)
    requires LegalRun(ins, t)
    requires Packets(ps) && Offered(ins, 0, t) == Flatten(ps) + rest && |Verdicts(ins, 0, t)| == |ps|
    ensures Delivered(ins, t) <= Flatten(Kept(ps, Verdicts(ins, 0, t)))
    ensures Drained(At(ins, t)) ==> Delivered(ins, t) == Flatten(Kept(ps, Verdicts(ins, 0, t)))
  {
    hide CacheStep, LegalRun, Delivered, Kept, Packets, Flatten;
    RunConserves(ins, t, t);
    assert [] + Offered(ins, 0, t) == Offered(ins, 0, t);
    assert [] + Verdicts(ins, 0, t) == Verdicts(ins, 0, t);
    RemainingIsKept(ps, rest, Verdicts(ins, 0, t));
    assert Drained(At(ins, t)) ==> Rest(ins, t, t) == [];
  }

  /** The valid strobe of the output comes exactly with the tail of a packet, and a packet is
      started only while the next module has room for it. */
  lemma StrobeOnTail(ins: nat -> Input, t: nat)
    requires LegalRun(ins, t + 1)
    ensures var b := At(ins, t + 1).ctl.bus; b.validWr <==> b.wr && b.word.IsTail()
    ensures At(ins, t).ctl.state != Send && At(ins, t + 1).ctl.state == Send ==> !ins(t).almostFull
  {
    hide LegalRun, Legal, Pending, FifoStep;
    AlwaysConsistent(ins, t + 1);
  }

  /** The pulses of that strobe in cycles 1..t. */
  function Strobes(ins: nat -> Input, t: nat): nat {
    if t == 0 then 0 else Strobes(ins, t - 1) + if At(ins, t).ctl.bus.validWr then 1 else 0
  }

  lemma {:induction false} StrobesAreTails(ins: nat -> Input, t: nat)
    requires LegalRun(ins, t)
    ensures Strobes(ins, t) == Tails(Delivered(ins, t))
  {
    hide At, LegalRun, CacheStep;
    if t > 0 {
      LegalAt(ins, t, t - 1);
      StrobesAreTails(ins, t - 1);
      StrobeOnTail(ins, t - 1);
      TailsAppend(Delivered(ins, t - 1), Shows(At(ins, t).ctl.bus));
    }
  }

  lemma {:induction false} OneTailEach(ps: seq<seq<Word>>)
    requires Packets(ps)
    ensures Tails(Flatten(ps)) == |ps|
  {
    if ps != [] {
      OneTail(ps[0]);
      OneTailEach(ps[1..]);
      TailsAppend(ps[0], Flatten(ps[1..]));
    }
  }

  lemma {:induction false} OneTail(p: seq<Word>)
    requires EndsInTail(p)
    ensures Tails(p) == 1
  {
    if |p| > 1 {
      OneTail(p[1..]);
    }
  }

  lemma {:induction false} KeptArePackets(ps: seq<seq<Word>>, vs: seq<bool>)
    requires Packets(ps) && |ps| == |vs|
    ensures Packets(Kept(ps, vs))
  {
    hide WellFramed;
    if ps != [] {
      KeptArePackets(ps[1..], vs[1..]);
    }
  }

  /** Once drained, the strobe has pulsed once for each packet with a true verdict. */
  lemma StrobePerPacket(ins: nat -> Input, t: nat, ps: seq<seq<Word>>, rest: seq<Word>)
    requires LegalRun(ins, t) && Drained(At(ins, t))
    requires Packets(ps) && Offered(ins, 0, t) == Flatten(ps) + rest && |Verdicts(ins, 0, t)| == |ps|
    ensures Strobes(ins, t) == |Kept(ps, Verdicts(ins, 0, t))|
  {
    hide *;
    SendsKeptPackets(ins, t, ps, rest);
    StrobesAreTails(ins, t);
    KeptArePackets(ps, Verdicts(ins, 0, t));
    OneTailEach(Kept(ps, Verdicts(ins, 0, t)));
  }

  predicate Drained(c: Cache) { c.ctl.state == Idle && c.valids == [] }

  // ---------------------------------------------------------------- progress

  function Work(c: Cache): nat { |c.data| + |Pending(c)| }

  ghost predicate Quiet(ins: nat -> Input, from: nat, to: nat) {
    forall k: nat :: from <= k < to ==> !ins(k).bus.wr && !ins(k).bus.validWr && !ins(k).almostFull
  }

  lemma WorkStep(c: Cache, i: Input)
    requires Consistent(c) && Legal(c, i)
    requires !i.bus.wr && !i.bus.validWr && !i.almostFull
    ensures var d := CacheStep(c, i);
            if Drained(c) then Drained(d) else Work(d) + 1 == Work(c)
  {
    StepQueues(c, i, [], []);
    var d := CacheStep(c, i);
    assert d.data == (if c.ctl.dataRd && c.data != [] then c.data[1..] else c.data);
    assert Drained(c) ==> d.valids == c.valids;
  }

  /** Once the input pauses and the next module has room, everything decided is out within as
      many cycles as there are words and verdicts stored. */
  lemma {:induction false} Drains(ins: nat -> Input, t: nat, k: nat)
    requires LegalRun(ins, t + k) && Quiet(ins, t, t + k)
    ensures Drained(At(ins, t + k)) || Work(At(ins, t + k)) + k == Work(At(ins, t))
    decreases k
  {
    hide At, CacheStep, LegalRun, Work, Drained, Consistent, Legal;
    if k > 0 {
      var u := t + k - 1;
      LegalAt(ins, t + k, u);
      Drains(ins, t, k - 1);
      AlwaysConsistent(ins, u);
      Unfold(ins, u, u + 1);
      WorkStep(At(ins, u), ins(u));
    }
  }

  /** So after that many cycles every packet with a true verdict has been sent. */
  lemma AllKeptPacketsSent(ins: nat -> Input, t: nat, end: nat, ps: seq<seq<Word>>, rest: seq<Word>)
    requires end == t + Work(At(ins, t)) + 1 && LegalRun(ins, end) && Quiet(ins, t, end)
    requires Packets(ps) && Offered(ins, 0, end) == Flatten(ps) + rest && |Verdicts(ins, 0, end)| == |ps|
    ensures Delivered(ins, end) == Flatten(Kept(ps, Verdicts(ins, 0, end)))
  {
    hide *;
    Drains(ins, t, Work(At(ins, t)) + 1);
    SendsKeptPackets(ins, end, ps, rest);
  }
}

/** The statistics module (scm) at the receiving end: it counts the packets of the protocol
    under test and records the latency of every packet in a 1024-entry memory, reading the
    sequence number and the sending time from the stamp in the header vector. */
module LatencyMonitor {
  import opened Division
  import opened FastWord
  import PacketGenerator
  import GeneratorSchedule
  import HP = HeaderParser
  import FP = FrameParsing

  const ENTRIES: nat := 1024
  const TWO_TO_THE_96: nat := 0x1_0000_0000_0000_0000_0000_0000
  const LMID: nat := 7
  const NMID: nat := 4

  /** Bits 585..576 of the header vector: the low bits of the packet counter. */
  function Slot(phv: HP.Lanes): (r: nat)
    ensures r < ENTRIES
  {
    Field(phv[3], TWO_TO_THE_64, ENTRIES)
  }

  /** Bits 575..544: the sending time. */
  function SendTime(phv: HP.Lanes): Uint32 { Field(phv[3], TWO_TO_THE_32, TWO_TO_THE_32) }

  /** Bits 107..96 of the metadata: the packet's length. */
  function Length(low: Payload): nat { Field(low, TWO_TO_THE_96, 4096) }

  /** 32-bit subtraction. */
  function Elapsed(from: Uint32, to: Uint32): Uint32 {
    if from <= to then to - from else to + TWO_TO_THE_32 - from
  }

  datatype Input = Input(md: HP.Metadata, mdWr: bool, phv: HP.Lanes, phvWr: bool, sentStart: bool,
                         reset: bool, protocol: HP.Octet, timestamp: Uint32)

  datatype Output = Output(md: HP.Metadata, mdWr: bool, phv: HP.Lanes, phvWr: bool)

  const NO_OUTPUT := Output(HP.NO_METADATA, false, HP.NO_LANES, false)

  datatype Totals = Totals(bits: Uint64, pkts: Uint64)

  function Readdress(md: HP.Metadata): HP.Metadata {
    md.(low := (md.low / HP.TWO_TO_THE_88) * HP.TWO_TO_THE_88 + NMID * HP.TWO_TO_THE_80
               + md.low % HP.TWO_TO_THE_80)
  }

  predicate Counted(i: Input) {
    i.sentStart && i.protocol == HP.ProtocolType(i.md.low)
  }

  predicate ForMonitor(i: Input) { HP.DestinationModule(i.md.low) == LMID }

  /** A packet for this module leaves with new metadata but the header vector register keeps
      its old value. */
  function OutputStep(o: Output, i: Input): Output {
    if i.reset then NO_OUTPUT
    else if i.mdWr && i.phvWr then
      if ForMonitor(i) then Output(Readdress(i.md), true, o.phv, true)
      else Output(i.md, true, i.phv, true)
    else NO_OUTPUT
  }

  function TotalsStep(t: Totals, i: Input): Totals {
    if i.reset then Totals(0, 0)
    else if i.mdWr && i.phvWr && ForMonitor(i) && Counted(i) then
      Totals((t.bits + Length(i.md.low)) % TWO_TO_THE_64, (t.pkts + 1) % TWO_TO_THE_64)
    else t
  }

  /** Every strobe of the metadata writes the memory. */
  function LatencyStep(latency: seq<Uint32>, i: Input): (r: seq<Uint32>)
    requires |latency| == ENTRIES
    ensures |r| == ENTRIES
  {
    if i.mdWr then latency[Slot(i.phv) := Elapsed(SendTime(i.phv), i.timestamp)] else latency
  }

  class Monitor {
    var output: Output
    var totals: Totals
    const latency: array<Uint32>

    ghost predicate Valid() { latency.Length == ENTRIES }

    constructor (initial: seq<Uint32>)
      requires |initial| == ENTRIES
      ensures Valid() && fresh(latency) && latency[..] == initial
      ensures output == Output(HP.Metadata(0, 0), false, [0, 0, 0, 0, 0, 0, 0, 0], false) && totals == Totals(0, 0)
    {
      output, totals := NO_OUTPUT, Totals(0, 0);
      var cells := new Uint32[ENTRIES](k requires 0 <= k < ENTRIES => initial[k]);
      latency := cells;
      new;
      assert latency[..] == initial;
    }

    method Clock(i: Input)
      requires Valid()
      modifies this, latency
      ensures output == OutputStep(old(output), i)
      ensures totals == TotalsStep(old(totals), i)
      ensures latency[..] == LatencyStep(old(latency[..]), i)
      ensures i.mdWr ==>
                var e := i.phv[3] / 0x1_0000_0000_0000_0000 % 1024;
                && (latency[e] + i.phv[3] / 0x1_0000_0000 % 0x1_0000_0000) % 0x1_0000_0000 == i.timestamp
                && forall k :: 0 <= k < 1024 && k != e ==> latency[k] == old(latency[k])
    {
      if i.mdWr {
        latency[Slot(i.phv)] := (i.timestamp + TWO_TO_THE_32 - SendTime(i.phv)) % TWO_TO_THE_32;
      }
      if i.reset {
        output, totals := NO_OUTPUT, Totals(0, 0);
      } else if i.mdWr && i.phvWr {
        if ForMonitor(i) {
          output := output.(md := Readdress(i.md), mdWr := true, phvWr := true);
          if Counted(i) {
            totals := Totals((totals.bits + Length(i.md.low)) % TWO_TO_THE_64,
                             (totals.pkts + 1) % TWO_TO_THE_64);
          }
        } else {
          output := Output(i.md, true, i.phv, true);
        }
      } else {
        output := NO_OUTPUT;
      }
    }
  }

  // ---------------------------------------------------------------- the vector that leaves

  /** The output registers after some inputs from reset. */
  function OutputAfter(ins: seq<Input>): Output {
    if ins == [] then NO_OUTPUT else OutputStep(OutputAfter(ins[..|ins| - 1]), ins[|ins| - 1])
  }

  predicate Taken(i: Input) { i.mdWr && i.phvWr && !i.reset }

  /** On any register contents a packet leaves with its own vector exactly when it is not for
      this module. */
  lemma VectorPassed(i: Input)
    requires Taken(i)
    ensures (forall o: Output :: OutputStep(o, i).phv == i.phv) <==> !ForMonitor(i)
  {
    if ForMonitor(i) {
      var other: HP.Lanes := if i.phv == HP.NO_LANES then [1, 0, 0, 0, 0, 0, 0, 0] else HP.NO_LANES;
      assert OutputStep(NO_OUTPUT.(phv := other), i).phv != i.phv;
    }
  }

  /** After packets for this module on every cycle, what leaves is still what left before them:
      zeros after a reset or an idle cycle, the vector of the packet before otherwise. */
  lemma {:induction false} StaleVector(before: seq<Input>, monitored: seq<Input>)
    requires forall k :: 0 <= k < |monitored| ==> Taken(monitored[k]) && ForMonitor(monitored[k])
    ensures OutputAfter(before + monitored).phv == OutputAfter(before).phv
    ensures before == [] ==> OutputAfter(before).phv == [0, 0, 0, 0, 0, 0, 0, 0]
    ensures before != [] ==>
              var i := before[|before| - 1];
              && (!Taken(i) ==> OutputAfter(before).phv == [0, 0, 0, 0, 0, 0, 0, 0])
              && (Taken(i) && !ForMonitor(i) ==> OutputAfter(before).phv == i.phv)
  {
    hide ForMonitor;
    if monitored == [] {
      assert before + monitored == before;
    } else {
      var n := |monitored| - 1;
      StaleVector(before, monitored[..n]);
      assert (before + monitored)[..|before| + n] == before + monitored[..n];
    }
  }

  /** In every run that ends with packet i its own vector leaves. */
  ghost predicate LeavesOwn(i: Input) {
    forall before: seq<Input> :: OutputAfter(before + [i]).phv == i.phv
  }

  /** A packet of another module, with some vector. */
  function Passing(phv: HP.Lanes): Input { Input(HP.NO_METADATA, true, phv, true, false, false, 0, 0) }

  /** That is so exactly for the packets of other modules: a packet for this one leaves with
      zeros after reset, and with the previous vector right after a packet that passed. */
  lemma LeavesOwnVector(i: Input)
    requires Taken(i)
    ensures LeavesOwn(i) <==> !ForMonitor(i)
  {
    if ForMonitor(i) {
      var j := Passing([1, 0, 0, 0, 0, 0, 0, 0]);
      NotForMonitor(j.phv);
      StaleVector([], [i]);
      StaleVector([j], [i]);
      assert OutputAfter([] + [i]).phv != OutputAfter([j] + [i]).phv;
    } else {
      forall before: seq<Input>
        ensures OutputAfter(before + [i]).phv == i.phv
      {
        assert (before + [i])[..|before|] == before;
      }
    }
  }

  lemma NotForMonitor(phv: HP.Lanes)
    ensures !ForMonitor(Passing(phv))
  {
  }

  // ---------------------------------------------------------------- metadata and totals

  /** Without a packet, and at a reset, everything that leaves is zero. */
  lemma SilentOtherwise(o: Output, i: Input)
    requires !Taken(i)
    ensures OutputStep(o, i) == Output(HP.Metadata(0, 0), false, [0, 0, 0, 0, 0, 0, 0, 0], false)
  {
  }

  /** A packet for this module (bits 87..80 say 7) leaves with 4 there and every other bit of its
      metadata as it was; the metadata of others passes unchanged. */
  lemma MetadataPassed(o: Output, i: Input)
    requires Taken(i)
    ensures var r := OutputStep(o, i);
            && r.mdWr && r.phvWr && r.md.high == i.md.high
            && (i.md.low / 0x1_0000_0000_0000_0000_0000 % 256 != 7 ==> r.md.low == i.md.low)
            && (i.md.low / 0x1_0000_0000_0000_0000_0000 % 256 == 7 ==>
                  && r.md.low / 0x1_0000_0000_0000_0000_0000 % 256 == 4
                  && r.md.low / 0x100_0000_0000_0000_0000_0000 == i.md.low / 0x100_0000_0000_0000_0000_0000
                  && r.md.low % 0x1_0000_0000_0000_0000_0000 == i.md.low % 0x1_0000_0000_0000_0000_0000)
  {
    if ForMonitor(i) {
      var q, m, low := i.md.low / HP.TWO_TO_THE_88, i.md.low % HP.TWO_TO_THE_80, Readdress(i.md).low;
      Quotient(low, HP.TWO_TO_THE_80, q * 256 + NMID, m);
      Quotient(low, HP.TWO_TO_THE_88, q, NMID * HP.TWO_TO_THE_80 + m);
      Quotient(q * 256 + NMID, 256, q, NMID);
    }
  }

  /** The totals after some inputs from reset. */
  function TotalsAfter(ins: seq<Input>): Totals {
    if ins == [] then Totals(0, 0) else TotalsStep(TotalsAfter(ins[..|ins| - 1]), ins[|ins| - 1])
  }

  /** A packet for this module, during a test, of the protocol type asked for. */
  predicate Belongs(i: Input) {
    && i.mdWr && i.phvWr && i.sentStart
    && i.md.low / 0x1_0000_0000_0000_0000_0000 % 256 == 7
    && i.md.low / 0x100_0000_0000_0000_0000 % 256 == i.protocol
  }

  /** The number of such packets since the last reset, and the sum of their lengths, bits 107..96
      of the metadata. */
  function Packets(ins: seq<Input>): nat {
    if ins == [] || ins[|ins| - 1].reset then 0
    else Packets(ins[..|ins| - 1]) + if Belongs(ins[|ins| - 1]) then 1 else 0
  }

  function Bytes(ins: seq<Input>): nat {
    if ins == [] || ins[|ins| - 1].reset then 0
    else
      Bytes(ins[..|ins| - 1])
      + if Belongs(ins[|ins| - 1]) then ins[|ins| - 1].md.low / 0x1_0000_0000_0000_0000_0000_0000 % 4096 else 0
  }

  lemma TotalsNext(t: Totals, i: Input)
    ensures i.reset ==> TotalsStep(t, i) == Totals(0, 0)
    ensures !i.reset && !Belongs(i) ==> TotalsStep(t, i) == t
    ensures !i.reset && Belongs(i) ==>
              TotalsStep(t, i) == Totals((t.bits + i.md.low / 0x1_0000_0000_0000_0000_0000_0000 % 4096) % TWO_TO_THE_64,
                                         (t.pkts + 1) % TWO_TO_THE_64)
  {
  }

  lemma SumWraps(a: nat, b: nat)
    ensures (a % TWO_TO_THE_64 + b) % TWO_TO_THE_64 == (a + b) % TWO_TO_THE_64
  {
    var q := a / TWO_TO_THE_64;
    assert a + b == q * TWO_TO_THE_64 + (a % TWO_TO_THE_64 + b);
  }

  /** Over every run the totals are those of the packets since the last reset, modulo 2^64. */
  lemma {:induction false} TotalsCount(ins: seq<Input>)
    ensures TotalsAfter(ins).pkts == Packets(ins) % 0x1_0000_0000_0000_0000
    ensures TotalsAfter(ins).bits == Bytes(ins) % 0x1_0000_0000_0000_0000
  {
    hide TotalsStep, Belongs;
    if ins != [] {
      var n := |ins| - 1;
      TotalsCount(ins[..n]);
      TotalsNext(TotalsAfter(ins[..n]), ins[n]);
      SumWraps(Packets(ins[..n]), 1);
      SumWraps(Bytes(ins[..n]), ins[n].md.low / 0x1_0000_0000_0000_0000_0000_0000 % 4096);
    }
  }

  // ---------------------------------------------------------------- from generator to memory

  /** The time stamped into packet n of a test. */
  function StampTime(x: GeneratorSchedule.Test, n: nat): Uint32 {
    x.ins(x.Start(n) + 7).timestamp
  }

  /** A received frame carries what the generator drove for packet n, the two metadata words
      aside. */
  ghost predicate Carries(x: GeneratorSchedule.Test, n: nat, f: seq<Word>)
    requires x.Valid()
  {
    && |f| == x.Len()
    && forall j :: 2 <= j < |f| ==>
         f[j].payload == GeneratorSchedule.At(x, x.Start(n) + 3 + j).rd.bus.word.payload
  }

  lemma WrapKeepsSlot(n: nat)
    ensures n % TWO_TO_THE_64 % ENTRIES == n % ENTRIES
  {
    var q, w := n / TWO_TO_THE_64, n % TWO_TO_THE_64;
    Quotient(n, ENTRIES, q * (TWO_TO_THE_64 / ENTRIES) + w / ENTRIES, w % ENTRIES);
  }

  lemma StampReceived(x: GeneratorSchedule.Test, n: nat, f: seq<Word>)
    requires x.Valid() && x.Len() >= 6 && x.Sent(n) && Carries(x, n, f)
    ensures var phv := FP.HeaderVector(f);
            Slot(phv) == n % 1024 && SendTime(phv) == StampTime(x, n)
  {
    hide GeneratorSchedule.At, GeneratorSchedule.Test.Sent, GeneratorSchedule.Test.Valid,
      GeneratorSchedule.Test.Start;
    GeneratorSchedule.StampOnBus(x, n);
    assert FP.HeaderVector(f)[3] == f[5].payload;
    WrapKeepsSlot(n);
  }

  /** The latency of every generated packet is recorded under its own sequence number: however
      the parser was used before, the entry n mod 1024 becomes the time from the stamping of
      packet n to its arrival at this module. */
  lemma LatencyRecorded(x: GeneratorSchedule.Test, n: nat, g: HP.Gpp, f: seq<Word>,
                        latency: seq<Uint32>, i: Input)
    requires x.Valid() && x.Len() >= 6 && x.Sent(n) && Carries(x, n, f)
    requires WellFramed(f) && g.state == HP.Idle && |latency| == ENTRIES
    requires i.mdWr && i.phv == FP.Feed(g, f, |f|).phvOut
    ensures var r := LatencyStep(latency, i);
            r == latency[n % 1024 := r[n % 1024]] && (r[n % 1024] + StampTime(x, n)) % 0x1_0000_0000 == i.timestamp
  {
    hide FP.Feed, FP.HeaderVector, Slot, SendTime, LatencyStep, GeneratorSchedule.Test.Valid,
      GeneratorSchedule.Test.Sent, Carries, StampTime, FP.BlockOf, FP.Passes;
    ReceivedSize(x, n, f);
    FP.FrameVector(g, f);
    StampReceived(x, n, f);
    EntryWritten(latency, i);
  }

  lemma ReceivedSize(x: GeneratorSchedule.Test, n: nat, f: seq<Word>)
    requires x.Valid() && x.Len() >= 6 && Carries(x, n, f)
    ensures 6 <= |f| <= 128
  {
  }

  /** A strobe changes one entry, to the time that takes the sending time to the time of arrival. */
  lemma EntryWritten(latency: seq<Uint32>, i: Input)
    requires |latency| == ENTRIES && i.mdWr
    ensures var r := LatencyStep(latency, i);
            && r == latency[Slot(i.phv) := r[Slot(i.phv)]]
            && (r[Slot(i.phv)] + SendTime(i.phv)) % 0x1_0000_0000 == i.timestamp
  {
    hide Slot, SendTime;
  }

  // ---------------------------------------------------------------- a whole test

  /** One cycle at the receiving end: what the parser is offered, and the time when the strobe
      it causes, if any, is seen by the monitor. */
  datatype Cycle = Cycle(pkt: HP.PktIn, time: Uint32)

  /** The parser and the latency memory behind it; between the two the strobes and the vector
      travel unchanged. */
  datatype Line = Line(gpp: HP.Gpp, latency: seq<Uint32>)

  function Seen(g: HP.Gpp, time: Uint32): Input {
    Input(g.mdOut, g.mdWr, g.phvOut, g.phvWr, false, false, 0, time)
  }

  function LineStep(l: Line, c: Cycle): (r: Line)
    requires |l.latency| == ENTRIES
    ensures |r.latency| == ENTRIES
  {
    var g := HP.GppStep(l.gpp, c.pkt);
    Line(g, LatencyStep(l.latency, Seen(g, c.time)))
  }

  function Watch(l: Line, cycles: seq<Cycle>): (r: Line)
    requires |l.latency| == ENTRIES
    ensures |r.latency| == ENTRIES
  {
    if cycles == [] then l else LineStep(Watch(l, cycles[..|cycles| - 1]), cycles[|cycles| - 1])
  }

  /** A received copy of packet n: cycles without a word, then the frame, with the times of its
      cycles. */
  datatype Delivery = Delivery(n: nat, gap: seq<Cycle>, frame: seq<Word>, times: seq<Uint32>) {
    function Arrival(): Uint32
      requires times != []
    {
      times[|times| - 1]
    }
  }

  /** Packet n was generated, the frame carries it and is one the parser accepts. */
  ghost predicate Delivers(x: GeneratorSchedule.Test, d: Delivery) {
    && x.Valid() && x.Len() >= 6 && x.Sent(d.n) && Carries(x, d.n, d.frame)
    && WellFramed(d.frame) && |d.times| == |d.frame| && FP.Passes(d.frame)
    && forall k :: 0 <= k < |d.gap| ==> !d.gap[k].pkt.wr && !d.gap[k].pkt.valid
  }

  function Cycles(d: Delivery): seq<Cycle>
    requires |d.times| == |d.frame|
  {
    d.gap + FrameCycles(d, |d.frame|)
  }

  function FrameCycles(d: Delivery, k: nat): seq<Cycle>
    requires k <= |d.frame| == |d.times|
  {
    seq(k, j requires 0 <= j < k => Cycle(FP.Presented(d.frame, j), d.times[j]))
  }

  lemma {:induction false} WatchAppend(l: Line, a: seq<Cycle>, b: seq<Cycle>)
    requires |l.latency| == ENTRIES
    ensures Watch(l, a + b) == Watch(Watch(l, a), b)
  {
    hide LineStep;
    if b == [] {
      assert a + b == a;
    } else {
      var n := |b| - 1;
      assert (a + b)[..|a| + n] == a + b[..n];
      WatchAppend(l, a, b[..n]);
    }
  }

  /** Cycles without a word leave an idle parser idle and cause no strobe. */
  lemma {:induction false} QuietGap(l: Line, gap: seq<Cycle>)
    requires |l.latency| == ENTRIES && l.gpp.state == HP.Idle
    requires forall k :: 0 <= k < |gap| ==> !gap[k].pkt.wr && !gap[k].pkt.valid
    ensures Watch(l, gap).latency == l.latency && Watch(l, gap).gpp.state == HP.Idle
  {
    hide HP.Classify, HP.Readdress, HP.PhvStep, HP.PhvOutStep, HP.MetadataStep;
    if gap != [] {
      QuietGap(l, gap[..|gap| - 1]);
    }
  }

  /** Within a frame the line follows the parser and the memory waits for the last word. */
  lemma {:induction false} WatchFrame(l: Line, d: Delivery, k: nat)
    requires |l.latency| == ENTRIES && l.gpp.state == HP.Idle
    requires WellFramed(d.frame) && |d.times| == |d.frame| && k < |d.frame|
    ensures Watch(l, FrameCycles(d, k)) == Line(FP.Feed(l.gpp, d.frame, k), l.latency)
  {
    hide HP.GppStep;
    if k > 0 {
      WatchFrame(l, d, k - 1);
      assert FrameCycles(d, k)[..k - 1] == FrameCycles(d, k - 1);
      FP.FrameStrobes(l.gpp, d.frame, k);
    }
  }

  /** The last word of a frame: the line takes the parser's step and the memory its strobe. */
  lemma WatchLast(l: Line, d: Delivery)
    requires |l.latency| == ENTRIES && l.gpp.state == HP.Idle
    requires WellFramed(d.frame) && |d.times| == |d.frame|
    ensures var g := FP.Feed(l.gpp, d.frame, |d.frame|);
            Watch(l, FrameCycles(d, |d.frame|)) == Line(g, LatencyStep(l.latency, Seen(g, d.Arrival())))
  {
    hide HP.GppStep, LatencyStep, Seen;
    var n := |d.frame|;
    WatchFrame(l, d, n - 1);
    assert FrameCycles(d, n)[..n - 1] == FrameCycles(d, n - 1);
  }

  /** A delivery changes exactly the entry of its packet, to the time it took. */
  lemma WatchDelivery(x: GeneratorSchedule.Test, l: Line, d: Delivery)
    requires |l.latency| == ENTRIES && l.gpp.state == HP.Idle && Delivers(x, d)
    ensures var r := Watch(l, Cycles(d));
            && r.gpp.state == HP.Idle
            && r.latency == l.latency[d.n % 1024 := r.latency[d.n % 1024]]
            && (r.latency[d.n % 1024] + StampTime(x, d.n)) % 0x1_0000_0000 == d.Arrival()
  {
    hide HP.GppStep, LatencyStep, GeneratorSchedule.Test.Valid, GeneratorSchedule.Test.Sent, Carries, StampTime,
      FP.HeaderVector, FP.BlockOf, FP.Feed, Watch, FrameCycles, FP.Passes, WellFramed;
    DeliverySize(x, d);
    QuietGap(l, d.gap);
    var m := Watch(l, d.gap);
    WatchAppend(l, d.gap, FrameCycles(d, |d.frame|));
    WatchLast(m, d);
    var g := FP.Feed(m.gpp, d.frame, |d.frame|);
    FP.FrameVector(m.gpp, d.frame);
    LatencyRecorded(x, d.n, m.gpp, d.frame, l.latency, Seen(g, d.Arrival()));
  }

  lemma DeliverySize(x: GeneratorSchedule.Test, d: Delivery)
    requires Delivers(x, d)
    ensures 6 <= |d.frame| <= 128
  {
    hide GeneratorSchedule.Test.Sent;
  }

  function AllCycles(ds: seq<Delivery>): seq<Cycle>
    requires forall k :: 0 <= k < |ds| ==> |ds[k].times| == |ds[k].frame|
  {
    if ds == [] then [] else AllCycles(ds[..|ds| - 1]) + Cycles(ds[|ds| - 1])
  }

  ghost predicate AllDeliver(x: GeneratorSchedule.Test, ds: seq<Delivery>) {
    forall k :: 0 <= k < |ds| ==> Delivers(x, ds[k])
  }

  /** After a run of deliveries an entry holds the latency of the last one among those that
      share it; no delivery, no change. */
  lemma {:induction false} LastArrivalWins(x: GeneratorSchedule.Test, l: Line, ds: seq<Delivery>, e: nat, k: nat)
    requires |l.latency| == ENTRIES && l.gpp.state == HP.Idle && AllDeliver(x, ds) && e < ENTRIES && k <= |ds|
    requires forall j :: k <= j < |ds| ==> ds[j].n % 1024 != e
    requires k > 0 ==> ds[k - 1].n % 1024 == e
    ensures var r := Watch(l, AllCycles(ds));
            && r.gpp.state == HP.Idle
            && (k == 0 ==> r.latency[e] == l.latency[e])
            && (k > 0 ==> (r.latency[e] + StampTime(x, ds[k - 1].n)) % 0x1_0000_0000 == ds[k - 1].Arrival())
  {
    hide Watch, Delivers, StampTime, Cycles;
    DeliverShapes(x, ds);
    if ds == [] {
      assert Watch(l, []) == l by { WatchNothing(l); }
    } else {
      var n := |ds| - 1;
      var before := Watch(l, AllCycles(ds[..n]));
      if k <= n {
        LastArrivalWins(x, l, ds[..n], e, k);
      } else {
        RunIdle(x, l, ds[..n]);
      }
      WatchAppend(l, AllCycles(ds[..n]), Cycles(ds[n]));
      WatchDelivery(x, before, ds[n]);
    }
  }

  lemma WatchNothing(l: Line)
    requires |l.latency| == ENTRIES
    ensures Watch(l, []) == l
  {
  }

  lemma DeliverShapes(x: GeneratorSchedule.Test, ds: seq<Delivery>)
    requires AllDeliver(x, ds)
    ensures forall k :: 0 <= k < |ds| ==> |ds[k].times| == |ds[k].frame| >= 2
  {
    hide Carries, GeneratorSchedule.Test.Valid, GeneratorSchedule.Test.Sent;
  }

  /** Between deliveries the parser is idle. */
  lemma {:induction false} RunIdle(x: GeneratorSchedule.Test, l: Line, ds: seq<Delivery>)
    requires |l.latency| == ENTRIES && l.gpp.state == HP.Idle && AllDeliver(x, ds)
    ensures forall k :: 0 <= k < |ds| ==> |ds[k].times| == |ds[k].frame|
    ensures Watch(l, AllCycles(ds)).gpp.state == HP.Idle
  {
    hide Watch, Delivers, StampTime, Cycles;
    DeliverShapes(x, ds);
    if ds == [] {
      WatchNothing(l);
    } else {
      var n := |ds| - 1;
      RunIdle(x, l, ds[..n]);
      WatchAppend(l, AllCycles(ds[..n]), Cycles(ds[n]));
      WatchDelivery(x, Watch(l, AllCycles(ds[..n])), ds[n]);
    }
  }

  /** As long as no more than 1024 packets were generated, every packet that arrived, in any
      order, with any gaps and any losses, has its latency in the entry of its own number at
      the end of the run. */
  lemma EveryArrivalKept(x: GeneratorSchedule.Test, l: Line, ds: seq<Delivery>, k: nat)
    requires |l.latency| == ENTRIES && l.gpp.state == HP.Idle && AllDeliver(x, ds) && k < |ds|
    requires forall j :: 0 <= j < |ds| ==> ds[j].n < 1024
    requires forall i, j :: 0 <= i < j < |ds| ==> ds[i].n != ds[j].n
    ensures forall j :: 0 <= j < |ds| ==> |ds[j].times| == |ds[j].frame| >= 2
    ensures (Watch(l, AllCycles(ds)).latency[ds[k].n] + StampTime(x, ds[k].n)) % 0x1_0000_0000 == ds[k].Arrival()
  {
    hide Watch, Delivers, StampTime, AllCycles;
    DeliverShapes(x, ds);
    LastArrivalWins(x, l, ds, ds[k].n, k + 1);
  }
}

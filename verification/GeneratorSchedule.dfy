/** What a whole generator test does, cycle by cycle: a packet is stored, then replayed
    N times at a fixed spacing, each copy stamped, and the machine falls silent. */
module GeneratorSchedule {
  import opened Division
  import opened FastWord
  import opened PacketGenerator

  /** Where packet n starts: its HAUNT1_S cycle and the counters at that point. */
  datatype Round = Round(n: nat, start: nat, time: nat, bits: nat)

  /** A test: a packet offered in consecutive cycles to an idle generator, and nothing after it.
      `ins` gives the inputs of every cycle; `mem` is whatever the packet memory held, and
      `timeReg` the time limit left from the test before. */
  datatype Test = Test(packet: seq<Word>, c: Control, mem: Ram, timeReg: Uint64, ins: nat -> Input) {
    ghost predicate Valid() {
      && WellFramed(packet)
      && |packet| <= 128
      && packet[0].payload / 0x2000_0000_0000_0000_0000_0000_0000 % 8 == 7
      && !c.latFlag
      && ValidRam(mem)
      && (forall t: nat :: t < |packet| ==> ins(t).dataWr && ins(t).data == packet[t])
      && (forall t: nat :: |packet| <= t ==> !ins(t).dataWr)
    }

    /** The number of words of the packet. */
    function Len(): nat { |packet| }

    /** The cycle in which pgm_rd is in HAUNT1_S for the first time. */
    function Base(): nat { |packet| + 1 }

    /** The sending-time counter advances by this much per packet. */
    function TimePerPacket(): nat { |packet| + c.sentRate + 2 }

    /** Cycles from the head of one packet to the head of the next. */
    function Period(): nat { TimePerPacket() + 1 }

    function Start(n: nat): nat { Base() + n * Period() }

    /** Bytes counted for one packet. */
    function BitsPerPacket(): nat
      requires |packet| > 0
    {
      16 * (|packet| - 1) + packet[|packet| - 1].count
    }

    function RoundOf(n: nat): Round
      requires |packet| > 0
    {
      Round(n, Start(n), n * TimePerPacket(), n * BitsPerPacket())
    }

    /** The sending-time counter in the tail cycle of packet n, from 0. */
    function TailTime(n: nat): Uint64 { Wrap64(n * TimePerPacket() + Len()) }

    /** The machine gives up after packet n. */
    predicate Expired(n: nat) { TailTime(n) >= c.sentTime }

    /** Packet n is sent: no earlier one ended the test. */
    ghost predicate Sent(n: nat) { forall m: nat :: m < n ==> !Expired(m) }

    /** Word j of a packet as it leaves: the stored word; for the sixth its framing and byte count
        with the number of the packet, the time and 32 ones. */
    function Replayed(r: Round, j: nat): Word
      requires j < |packet|
    {
      if j == 5 then
        Word(packet[5].framing, packet[5].count,
             r.n % 0x1_0000_0000_0000_0000 * 0x1_0000_0000_0000_0000 + ins(r.start + 7).timestamp * 0x1_0000_0000
             + 0xFFFF_FFFF)
      else packet[j]
    }
  }

  function Initial(x: Test): Pgm { Pgm(WR_RESET, x.mem, RD_RESET.(timeReg := x.timeReg)) }

  /** The registers after t edges. */
  function At(x: Test, t: nat): (s: Pgm)
    requires ValidRam(x.mem)
    ensures ValidRam(s.ram)
  {
    if t == 0 then Initial(x) else PgmStep(x.c, At(x, t - 1), x.ins(t - 1))
  }

  // ---------------------------------------------------------------- storing

  ghost predicate Storing(x: Test, k: nat, s: Pgm)
    requires x.Valid() && ValidRam(s.ram) && 1 <= k <= x.Len()
  {
    && s.wr == Wr(if k == x.Len() then WrWait else WrStore,
                  RamWrite(true, x.packet[k - 1], k - 1), IDLE_BUS, 0,
                  Flags(false, k == x.Len(), false))
    && s.ram.mem[..k - 1] == x.packet[..k - 1]
    && s.rd == RD_RESET.(timeReg := x.timeReg)
  }

  lemma {:induction false} StoreProgress(x: Test, k: nat)
    requires x.Valid() && 1 <= k <= x.Len()
    ensures Storing(x, k, At(x, k))
  {
    hide PgmStep, Storing;
    if k == 1 {
      assert At(x, 0) == Initial(x) && x.ins(0).dataWr;
      StoreHead(x);
    } else {
      StoreProgress(x, k - 1);
      assert x.ins(k - 1).dataWr && x.ins(k - 1).data == x.packet[k - 1];
      StoreStep(x, k, At(x, k - 1), x.ins(k - 1));
    }
  }

  lemma StoreHead(x: Test)
    requires x.Valid() && x.ins(0).dataWr
    ensures Storing(x, 1, PgmStep(x.c, Initial(x), x.ins(0)))
  {
    IdleStays(x.c, Initial(x).rd, WR_RESET);
  }

  /** Nothing to replay yet. */
  lemma IdleStays(c: Control, d: Rd, w: Wr)
    requires d == RD_RESET.(timeReg := d.timeReg) && !w.flags.bypass && !w.flags.start
    ensures RdIdleStep(c, d, w) == d
  {
  }

  lemma StoreStep(x: Test, k: nat, s: Pgm, i: Input)
    requires x.Valid() && 2 <= k <= x.Len() && ValidRam(s.ram) && Storing(x, k - 1, s)
    requires i.dataWr && i.data == x.packet[k - 1]
    ensures Storing(x, k, PgmStep(x.c, s, i))
  {
    hide RdReadStep, RdWaitStep, RdProbeStep, RdSentStep, RdIdleStep;
    IdleStays(x.c, s.rd, s.wr);
    var mem := RamStep(s.ram, s.wr.ram, s.rd.ram.addr).mem;
    assert mem[..k - 1] == x.packet[..k - 1];
  }

  /** The memory holds the packet and the store side leaves it alone. */
  ghost predicate Loaded(x: Test, s: Pgm) {
    && ValidRam(s.ram)
    && x.Len() <= 128
    && s.ram.mem[..x.Len()] == x.packet
    && (s.wr.state == WrWait || s.wr.state == WrIdle)
    && !s.wr.ram.en
  }

  lemma LoadedStep(x: Test, s: Pgm, i: Input)
    requires Loaded(x, s) && !i.dataWr
    ensures Loaded(x, PgmStep(x.c, s, i))
  {
  }

  // ---------------------------------------------------------------- replaying

  lemma Wrap64Is(a: nat)
    ensures Wrap64(a) == a % TWO_TO_THE_64
  {
  }

  lemma HeadReplayed(x: Test, r: Round)
    requires x.Valid()
    ensures x.Replayed(r, 0) == x.packet[0]
  {
  }

  lemma Wrap64Add(a: nat, b: nat)
    ensures Wrap64(Wrap64(a) + b) == Wrap64(a + b)
  {
    var q := a / TWO_TO_THE_64;
    assert a + b == q * TWO_TO_THE_64 + (Wrap64(a) + b);
  }

  /** The counters of the replay side after `pkts` packets. */
  ghost predicate Counting(x: Test, s: Pgm, pkts: nat, time: nat, bits: nat) {
    && Loaded(x, s)
    && s.rd.timeReg == x.c.sentTime
    && s.rd.cnt.time == Wrap64(time)
    && s.rd.cnt.bit == Wrap64(bits)
    && s.rd.cnt.pkt == Wrap64(pkts)
  }

  /** HAUNT1_S before a packet. */
  ghost predicate AtHaunt1(x: Test, s: Pgm, r: Round) {
    && Counting(x, s, r.n, r.time, r.bits)
    && s.rd.state == RdHaunt1 && s.rd.ram.addr == 0 && s.rd.cnt.rate == 0
    && !s.rd.bus.wr
  }

  /** HAUNT2_S before a packet. */
  ghost predicate AtHaunt2(x: Test, s: Pgm, r: Round)
    requires x.Valid()
  {
    && Counting(x, s, r.n, r.time, r.bits)
    && s.rd.state == RdHaunt2 && s.rd.ram.addr == 1 && s.rd.cnt.rate == 0
    && s.ram.latch == x.packet[0]
    && !s.rd.bus.wr
  }

  /** What the output registers hold once words 0..j-1 of a packet have been taken. */
  ghost predicate Driving(x: Test, s: Pgm, r: Round, j: nat)
    requires j <= x.Len()
  {
    if j == 0 then !s.rd.bus.wr
    else s.rd.bus == Bus(x.Replayed(r, j - 1), true, j == x.Len(), j == x.Len())
  }

  /** READ_S with word j of a packet at the memory output. */
  ghost predicate AtRead(x: Test, s: Pgm, r: Round, j: nat)
    requires x.Valid() && j < x.Len()
  {
    && Counting(x, s, r.n, r.time + 1 + j, r.bits + 16 * j)
    && s.rd.state == RdRead && s.rd.ram.addr == (j + 2) % 128 && s.rd.cnt.rate == 0
    && s.ram.dout == x.packet[j]
    && (j + 1 < x.Len() ==> s.ram.latch == x.packet[j + 1])
    && (j > 0 ==> s.rd.cnt.cycle == j - 1)
    && Driving(x, s, r, j)
  }

  /** The counters once a packet has left. */
  ghost predicate Closed(x: Test, s: Pgm, r: Round, k: nat)
    requires x.Valid()
  {
    Counting(x, s, r.n + 1, r.time + 1 + x.Len() + k, r.bits + x.BitsPerPacket())
  }

  /** The k-th cycle after a packet: its tail is still on the bus when k is 0. */
  ghost predicate Draining(x: Test, s: Pgm, r: Round, k: nat) {
    if k == 0 then Driving(x, s, r, x.Len()) else !s.rd.bus.wr
  }

  /** WAIT_S, k cycles after a packet. */
  ghost predicate AtWait(x: Test, s: Pgm, r: Round, k: nat)
    requires x.Valid()
  {
    && k <= x.c.sentRate
    && Closed(x, s, r, k)
    && s.rd.state == RdWait && s.rd.cnt.rate == k
    && Draining(x, s, r, k)
  }

  /** FIN_S, k cycles after the last packet. */
  ghost predicate AtFin(x: Test, s: Pgm, r: Round, k: nat)
    requires x.Valid()
  {
    && Closed(x, s, r, 0)
    && s.rd.state == RdFin
    && Draining(x, s, r, k)
  }

  lemma FirstHaunt(x: Test)
    requires x.Valid()
    ensures AtHaunt1(x, At(x, x.Base()), Round(0, x.Base(), 0, 0))
  {
    StoreProgress(x, x.Len());
    var s := At(x, x.Len());
    assert !x.ins(x.Len()).dataWr;
    var mem := PgmStep(x.c, s, x.ins(x.Len())).ram.mem;
    assert mem[..x.Len()] == x.packet;
  }

  lemma Haunt1Step(x: Test, s: Pgm, r: Round, i: Input)
    requires x.Valid() && AtHaunt1(x, s, r) && !i.dataWr
    ensures AtHaunt2(x, PgmStep(x.c, s, i), r)
  {
    LoadedStep(x, s, i);
    assert s.ram.mem[0] == s.ram.mem[..x.Len()][0];
  }

  lemma Haunt2Step(x: Test, s: Pgm, r: Round, i: Input)
    requires x.Valid() && AtHaunt2(x, s, r) && !i.dataWr
    ensures AtRead(x, PgmStep(x.c, s, i), r, 0)
  {
    LoadedStep(x, s, i);
    Wrap64Add(r.time, 1);
    assert s.ram.mem[1] == s.ram.mem[..x.Len()][1];
  }

  /** The word put on the bus is the one replayed. */
  lemma EmitsReplayed(x: Test, cnt: Counters, r: Round, j: nat)
    requires x.Valid() && 0 < j < x.Len() && cnt.pkt == r.n % TWO_TO_THE_64 && cnt.cycle == j - 1
    ensures Emit(cnt, x.packet[j], x.ins(r.start + 2 + j)) == x.Replayed(r, j)
  {
  }

  lemma WordKinds(x: Test, j: nat)
    requires x.Valid() && j + 1 < x.Len()
    ensures x.Len() <= 128 && if j == 0 then x.packet[j].IsHead() else x.packet[j].IsBody()
  {
  }

  lemma LoadedParts(x: Test, s: Pgm)
    requires Loaded(x, s)
    ensures ValidRam(s.ram) && x.Len() <= 128 && s.ram.mem[..x.Len()] == x.packet && !s.wr.ram.en
  {
  }

  lemma ReadStep(x: Test, s: Pgm, r: Round, j: nat, i: Input)
    requires x.Valid() && j + 1 < x.Len() && AtRead(x, s, r, j) && !i.dataWr
    requires i == x.ins(r.start + 2 + j)
    ensures AtRead(x, PgmStep(x.c, s, i), r, j + 1)
  {
    hide WrStep, Wrap64, RdIdleStep, RdSentStep, RdWaitStep, RdProbeStep, AfterTail, Emit, Test.Replayed,
      Test.Period, Test.RoundOf, Test.Valid, Loaded;
    WordKinds(x, j);
    LoadedParts(x, s);
    if j > 0 {
      assert s.rd.cnt.pkt == r.n % TWO_TO_THE_64 by { Wrap64Is(r.n); }
      EmitsReplayed(x, s.rd.cnt, r, j);
    } else {
      HeadReplayed(x, r);
    }
    LoadedStep(x, s, i);
    Wrap64Add(r.time + 1 + j, 1);
    Wrap64Add(r.bits + 16 * j, 16);
    if j + 2 < x.Len() {
      assert s.ram.mem[j + 2] == s.ram.mem[..x.Len()][j + 2];
    }
  }

  lemma TailStep(x: Test, s: Pgm, r: Round, i: Input)
    requires x.Valid() && AtRead(x, s, r, x.Len() - 1) && !i.dataWr
    requires i == x.ins(r.start + 2 + (x.Len() - 1))
    ensures if Wrap64(r.time + x.Len()) >= x.c.sentTime then AtFin(x, PgmStep(x.c, s, i), r, 0)
            else AtWait(x, PgmStep(x.c, s, i), r, 0)
  {
    LoadedStep(x, s, i);
    Wrap64Add(r.time + x.Len(), 1);
    Wrap64Add(r.bits + 16 * (x.Len() - 1), x.packet[x.Len() - 1].count);
    Wrap64Add(r.n, 1);
  }

  lemma WaitStep(x: Test, s: Pgm, r: Round, k: nat, i: Input)
    requires x.Valid() && k < x.c.sentRate && AtWait(x, s, r, k) && !i.dataWr
    ensures AtWait(x, PgmStep(x.c, s, i), r, k + 1)
  {
    LoadedStep(x, s, i);
    Wrap64Add(r.time + 1 + x.Len() + k, 1);
  }

  lemma LastWaitStep(x: Test, s: Pgm, r: Round, i: Input)
    requires x.Valid() && AtWait(x, s, r, x.c.sentRate) && !i.dataWr
    ensures AtHaunt1(x, PgmStep(x.c, s, i),
                     Round(r.n + 1, r.start + x.Period(), r.time + x.TimePerPacket(),
                           r.bits + x.BitsPerPacket()))
  {
    LoadedStep(x, s, i);
    Wrap64Add(r.time + 1 + x.Len() + x.c.sentRate, 1);
  }

  lemma FinStep(x: Test, s: Pgm, r: Round, k: nat, i: Input)
    requires x.Valid() && AtFin(x, s, r, k) && !i.dataWr && !i.softRst
    ensures AtFin(x, PgmStep(x.c, s, i), r, k + 1)
  {
    LoadedStep(x, s, i);
  }

  // ---------------------------------------------------------------- whole runs

  /** An edge after the packet has been offered. */
  lemma Edge(x: Test, t: nat)
    requires x.Valid() && x.Len() <= t
    ensures ValidRam(x.mem)
    ensures At(x, t + 1) == PgmStep(x.c, At(x, t), x.ins(t)) && !x.ins(t).dataWr
  {
  }

  lemma Bounds(x: Test, n: nat)
    requires x.Valid()
    ensures ValidRam(x.mem) && 2 <= |x.packet| == x.Len() < x.Start(n)
  {
  }

  lemma NextRound(x: Test, n: nat)
    requires x.Valid()
    ensures x.RoundOf(n + 1) == Round(n + 1, x.Start(n) + x.Period(),
                                      x.RoundOf(n).time + x.TimePerPacket(),
                                      x.RoundOf(n).bits + x.BitsPerPacket())
    ensures x.Start(n + 1) == x.Start(n) + x.Len() + x.c.sentRate + 3
  {
    assert (n + 1) * x.Period() == n * x.Period() + x.Period();
    assert (n + 1) * x.TimePerPacket() == n * x.TimePerPacket() + x.TimePerPacket();
    assert (n + 1) * x.BitsPerPacket() == n * x.BitsPerPacket() + x.BitsPerPacket();
  }

  /** Every packet that is sent starts on schedule. */
  lemma {:induction false} RoundStarts(x: Test, n: nat)
    requires x.Valid() && x.Sent(n)
    ensures AtHaunt1(x, At(x, x.Start(n)), x.RoundOf(n))
    decreases n, 0
  {
    hide PgmStep, AtHaunt1, AtWait, Test.Valid, Test.Expired, Test.Start, Test.RoundOf;
    Bounds(x, n);
    if n == 0 {
      FirstHaunt(x);
      FirstRound(x);
    } else {
      var last := x.Start(n - 1) + 2 + x.Len() + x.c.sentRate;
      assert !x.Expired(n - 1);
      Waiting(x, n - 1, x.c.sentRate);
      Bounds(x, n - 1);
      Edge(x, last);
      NextRound(x, n - 1);
      StartOf(x, n - 1);
      LastWaitStep(x, At(x, last), x.RoundOf(n - 1), x.ins(last));
    }
  }

  lemma FirstRound(x: Test)
    requires x.Valid()
    ensures x.Start(0) == x.Base() && x.RoundOf(0) == Round(0, x.Base(), 0, 0)
  {
  }

  /** The two cycles in which the memory pipeline fills. */
  lemma FirstRead(x: Test, n: nat)
    requires x.Valid() && x.Sent(n)
    ensures ValidRam(x.mem) && 2 <= |x.packet| == x.Len()
    ensures AtRead(x, At(x, x.Start(n) + 2), x.RoundOf(n), 0)
    ensures AtHaunt2(x, At(x, x.Start(n) + 1), x.RoundOf(n))
    decreases n, 1
  {
    hide *;
    var t := x.Start(n);
    Bounds(x, n);
    RoundStarts(x, n);
    Edge(x, t);
    Haunt1Step(x, At(x, t), x.RoundOf(n), x.ins(t));
    Edge(x, t + 1);
    Haunt2Step(x, At(x, t + 1), x.RoundOf(n), x.ins(t + 1));
  }

  /** Word j of packet n is at the memory output j cycles into READ_S. */
  lemma {:induction false} Reading(x: Test, n: nat, j: nat)
    requires x.Valid() && x.Sent(n) && j < x.Len()
    ensures ValidRam(x.mem) && 0 < |x.packet|
    ensures AtRead(x, At(x, x.Start(n) + 2 + j), x.RoundOf(n), j)
    decreases n, 2, j
  {
    hide *;
    Bounds(x, n);
    if j == 0 {
      FirstRead(x, n);
    } else {
      var c := x.Start(n) + 2 + (j - 1);
      Reading(x, n, j - 1);
      Edge(x, c);
      StartOf(x, n);
      ReadStep(x, At(x, c), x.RoundOf(n), j - 1, x.ins(c));
    }
  }

  lemma StartOf(x: Test, n: nat)
    requires x.Valid()
    ensures x.RoundOf(n).start == x.Start(n) && x.RoundOf(n).n == n
    ensures Wrap64(x.RoundOf(n).time + x.Len()) == x.TailTime(n)
  {
  }

  /** The edge that takes the tail of packet n. */
  lemma Leaving(x: Test, n: nat)
    requires x.Valid() && x.Sent(n)
    ensures ValidRam(x.mem)
    ensures var s := At(x, x.Start(n) + 2 + x.Len());
            if x.Expired(n) then AtFin(x, s, x.RoundOf(n), 0) else AtWait(x, s, x.RoundOf(n), 0)
    decreases n, 3
  {
    hide PgmStep, AtRead, AtWait, AtFin, Test.Valid, Test.Start, Test.RoundOf, Test.TailTime, Counting, At;
    var c := x.Start(n) + 2 + (x.Len() - 1);
    Bounds(x, n);
    Reading(x, n, x.Len() - 1);
    Edge(x, c);
    StartOf(x, n);
    TailStep(x, At(x, c), x.RoundOf(n), x.ins(c));
  }

  lemma {:induction false} Waiting(x: Test, n: nat, k: nat)
    requires x.Valid() && x.Sent(n) && !x.Expired(n) && k <= x.c.sentRate
    ensures ValidRam(x.mem) && 0 < |x.packet|
    ensures AtWait(x, At(x, x.Start(n) + 2 + x.Len() + k), x.RoundOf(n), k)
    decreases n, 4, k
  {
    hide *;
    Bounds(x, n);
    if k == 0 {
      Leaving(x, n);
    } else {
      var c := x.Start(n) + 2 + x.Len() + (k - 1);
      Waiting(x, n, k - 1);
      Edge(x, c);
      WaitStep(x, At(x, c), x.RoundOf(n), k - 1, x.ins(c));
    }
  }

  /** No soft reset before cycle t once the test has ended; before that the machine does not
      look at it. */
  ghost predicate NoSoftReset(x: Test, t: nat) {
    forall m: nat, i: nat :: x.Sent(m) && x.Expired(m) && x.Start(m) + 2 + x.Len() <= i < t ==> !x.ins(i).softRst
  }

  lemma NotYetReset(x: Test, m: nat, i: nat, t: nat)
    requires NoSoftReset(x, t) && x.Sent(m) && x.Expired(m) && x.Start(m) + 2 + x.Len() <= i < t
    ensures !x.ins(i).softRst
  {
  }

  lemma NoResetBefore(x: Test, u: nat, t: nat)
    requires NoSoftReset(x, t) && u <= t
    ensures NoSoftReset(x, u)
  {
  }

  lemma {:induction false} Finished(x: Test, n: nat, k: nat)
    requires x.Valid() && x.Sent(n) && x.Expired(n)
    requires NoSoftReset(x, x.Start(n) + 2 + x.Len() + k)
    ensures ValidRam(x.mem)
    ensures AtFin(x, At(x, x.Start(n) + 2 + x.Len() + k), x.RoundOf(n), k)
    decreases k
  {
    hide PgmStep, AtFin, Test.Valid, Test.Start, Test.RoundOf, Test.Expired, At;
    Bounds(x, n);
    if k == 0 {
      Leaving(x, n);
    } else {
      var c := x.Start(n) + 2 + x.Len() + (k - 1);
      Finished(x, n, k - 1);
      Edge(x, c);
      assert !x.ins(c).softRst by { NotYetReset(x, n, c, x.Start(n) + 2 + x.Len() + k); }
      FinStep(x, At(x, c), x.RoundOf(n), k - 1, x.ins(c));
    }
  }

  /** One cycle of the output bus. */
  datatype Beat = Silent | Beat(word: Word, last: bool)

  function Emitted(s: Pgm): Beat {
    if s.rd.bus.wr then Beat(s.rd.bus.word, s.rd.bus.validWr) else Silent
  }

  /** The schedule: packet n occupies cycles Start(n)+3 .. Start(n)+2+Len, and nothing else is
      ever sent. */
  ghost function Expected(x: Test, t: nat): Beat
    requires x.Valid()
  {
    if t < x.Base() + 3 then Silent
    else
      var n, j := (t - x.Base() - 3) / x.Period(), (t - x.Base() - 3) % x.Period();
      if x.Sent(n) && j < x.Len() then Beat(x.Replayed(x.RoundOf(n), j), j == x.Len() - 1)
      else Silent
  }

  /** The three cycles before the words of a packet. */
  lemma HauntBeat(x: Test, n: nat, j: nat)
    requires x.Valid() && x.Sent(n) && j < 3
    ensures ValidRam(x.mem)
    ensures Emitted(At(x, x.Start(n) + j)) == Silent
  {
    hide PgmStep, At, Counting, Test.Valid, Test.Start, Test.RoundOf, Test.Sent;
    Bounds(x, n);
    if j == 0 {
      RoundStarts(x, n);
    } else {
      FirstRead(x, n);
    }
  }

  /** Before the first word. */
  lemma Prelude(x: Test, t: nat)
    requires x.Valid() && t < x.Base() + 3
    ensures Emitted(At(x, t)) == Silent
  {
    hide PgmStep;
    if t == 0 {
    } else if t <= x.Len() {
      StoreProgress(x, t);
    } else {
      FirstRound(x);
      HauntBeat(x, 0, t - x.Base());
    }
  }

  /** The part of a sent packet's period that carries its words. */
  lemma PacketBeat(x: Test, n: nat, j: nat)
    requires x.Valid() && x.Sent(n) && j < x.Len()
    ensures ValidRam(x.mem) && 0 < x.Len()
    ensures Emitted(At(x, x.Start(n) + 3 + j)) == Beat(x.Replayed(x.RoundOf(n), j), j == x.Len() - 1)
  {
    hide PgmStep, At, Counting, Test.Valid, Test.Start, Test.RoundOf, Test.Expired, Test.Replayed;
    Bounds(x, n);
    if j + 1 < x.Len() {
      Reading(x, n, j + 1);
    } else {
      Leaving(x, n);
    }
  }

  /** What the sixth word of copy n says on the bus: n in its upper 64 bits, the time of that cycle
      in the next 32, ones in the last 32. */
  lemma StampOnBus(x: Test, n: nat)
    requires x.Valid() && x.Sent(n) && x.Len() > 5
    ensures ValidRam(x.mem)
    ensures var w := At(x, x.Start(n) + 8).rd.bus.word;
            && w.payload / 0x1_0000_0000_0000_0000 == n % 0x1_0000_0000_0000_0000
            && w.payload / 0x1_0000_0000 % 0x1_0000_0000 == x.ins(x.Start(n) + 7).timestamp
            && w.payload % 0x1_0000_0000 == 0xFFFF_FFFF
            && w.framing == x.packet[5].framing && w.count == x.packet[5].count
  {
    hide At, Test.Valid, Test.Sent, Test.Start;
    Bounds(x, n);
    PacketBeat(x, n, 5);
    StartOf(x, n);
    StampParts(n % TWO_TO_THE_64, x.ins(x.Start(n) + 7).timestamp);
  }

  lemma StampParts(n: Uint64, t: Uint32)
    ensures var p := n * 0x1_0000_0000_0000_0000 + t * 0x1_0000_0000 + 0xFFFF_FFFF;
            && p / 0x1_0000_0000_0000_0000 == n && p / 0x1_0000_0000 % 0x1_0000_0000 == t
            && p % 0x1_0000_0000 == 0xFFFF_FFFF
  {
    var p := n * 0x1_0000_0000_0000_0000 + t * 0x1_0000_0000 + 0xFFFF_FFFF;
    Quotient(p, TWO_TO_THE_64, n, t * TWO_TO_THE_32 + 0xFFFF_FFFF);
    Quotient(p, TWO_TO_THE_32, n * TWO_TO_THE_32 + t, 0xFFFF_FFFF);
    Quotient(n * TWO_TO_THE_32 + t, TWO_TO_THE_32, n, t);
  }

  /** The rest of a sent packet's period. */
  lemma GapBeat(x: Test, n: nat, j: nat)
    requires x.Valid() && x.Sent(n) && x.Len() <= j < x.Period()
    requires NoSoftReset(x, x.Start(n) + 3 + j)
    ensures ValidRam(x.mem)
    ensures Emitted(At(x, x.Start(n) + 3 + j)) == Silent
  {
    hide PgmStep, At, Counting, Test.Valid, Test.Start, Test.RoundOf, Test.Replayed;
    Bounds(x, n);
    if x.Expired(n) {
      Finished(x, n, j + 1 - x.Len());
    } else if j < x.Len() + x.c.sentRate {
      Waiting(x, n, j + 1 - x.Len());
    } else {
      NextRound(x, n);
      HauntBeat(x, n + 1, j - x.Len() - x.c.sentRate);
    }
  }

  lemma {:induction false} FirstExpired(x: Test, n: nat) returns (m: nat)
    requires x.Valid() && !x.Sent(n)
    ensures m < n && x.Sent(m) && x.Expired(m)
  {
    if x.Sent(n - 1) {
      m := n - 1;
    } else {
      m := FirstExpired(x, n - 1);
    }
  }

  lemma StartMonotone(x: Test, m: nat, n: nat)
    requires m < n
    ensures x.Start(m) + x.Period() <= x.Start(n)
  {
    MulMonotone(m, n, x.Period());
  }

  /** Every cycle from the first word on is cycle j of the period of one packet. */
  lemma Slot(x: Test, t: nat) returns (n: nat, j: nat)
    requires x.Valid() && x.Base() + 3 <= t
    ensures n == (t - x.Base() - 3) / x.Period() && j == (t - x.Base() - 3) % x.Period()
    ensures j < x.Period() && t == x.Start(n) + 3 + j
  {
    hide Test.Valid;
    var u, p := t - x.Base() - 3, x.Period();
    n, j := u / p, u % p;
    assert u == n * p + j;
  }

  lemma AfterEnd(x: Test, m: nat, t: nat)
    requires x.Valid() && NoSoftReset(x, t) && x.Sent(m) && x.Expired(m)
    requires x.Start(m) + 2 + x.Len() < t
    ensures Emitted(At(x, t)) == Silent
  {
    hide PgmStep, Counting, Test.Start, Test.Expired, Test.Sent;
    Finished(x, m, t - (x.Start(m) + 2 + x.Len()));
  }

  /** After the last packet. */
  lemma AfterTest(x: Test, n: nat, t: nat)
    requires x.Valid() && NoSoftReset(x, t) && !x.Sent(n) && x.Start(n) + 3 <= t
    ensures Emitted(At(x, t)) == Silent
  {
    hide PgmStep, Counting, Test.Valid;
    var m := FirstExpired(x, n);
    StartMonotone(x, m, n);
    AfterEnd(x, m, t);
  }

  /** The output bus carries exactly the scheduled words, in every cycle of every test. */
  lemma ScheduleIsExact(x: Test, t: nat)
    requires x.Valid() && NoSoftReset(x, t)
    ensures Emitted(At(x, t)) == Expected(x, t)
  {
    hide PgmStep, Test.Valid, Test.Start, Emitted;
    if t < x.Base() + 3 {
      Prelude(x, t);
    } else {
      var n, j := Slot(x, t);
      if !x.Sent(n) {
        AfterTest(x, n, t);
      } else if j < x.Len() {
        PacketBeat(x, n, j);
      } else {
        GapBeat(x, n, j);
      }
    }
  }

  // ---------------------------------------------------------------- how many packets

  /** The last packet of a test whose time limit is reached without the 64-bit counter
      wrapping. */
  function LastPacket(x: Test): nat
    requires x.Valid()
  {
    if x.c.sentTime <= x.Len() then 0
    else (x.c.sentTime - x.Len() + x.TimePerPacket() - 1) / x.TimePerPacket()
  }

  /** Division rounded up gives the least multiple that reaches d. */
  lemma CeilDiv(d: nat, q: nat) returns (n: nat)
    requires q > 0 && d > 0
    ensures n == (d + q - 1) / q
    ensures d <= n * q < d + q
    ensures forall m: nat :: m < n ==> m * q < d
  {
    n := (d + q - 1) / q;
    assert d + q - 1 == n * q + (d + q - 1) % q;
    forall m: nat | m < n
      ensures m * q < d
    {
      MulMonotone(m, n, q);
    }
  }

  lemma MulMonotone(m: nat, n: nat, q: nat)
    requires m < n
    ensures m * q + q <= n * q
  {
    assert (m + 1) * q <= n * q;
  }

  /** The least n with Len + n * (Len + R + 2) >= T. */
  lemma LastPacketIsLeast(x: Test)
    requires x.Valid()
    ensures x.c.sentTime <= x.Len() + LastPacket(x) * x.TimePerPacket()
    ensures forall m: nat :: m < LastPacket(x) ==> x.Len() + m * x.TimePerPacket() < x.c.sentTime
    ensures x.Len() + LastPacket(x) * x.TimePerPacket() < TWO_TO_THE_64 + x.Len() + x.TimePerPacket()
  {
    hide Test.Valid;
    if x.c.sentTime > x.Len() {
      var n := CeilDiv(x.c.sentTime - x.Len(), x.TimePerPacket());
    }
  }

  /** The test ends after packet LastPacket exactly when the counter does not wrap before its
      tail; the number of packets is then LastPacket + 1. */
  lemma PacketCount(x: Test)
    requires x.Valid()
    ensures x.Sent(LastPacket(x))
    ensures x.Expired(LastPacket(x)) <==> InTime(x)
  {
    LastPacketIsLeast(x);
    var v := x.Len() + LastPacket(x) * x.TimePerPacket();
    if v >= TWO_TO_THE_64 {
      assert Wrap64(v) == v - TWO_TO_THE_64;
    }
  }

  /** The sending-time counter does not wrap before the tail of packet LastPacket. */
  predicate InTime(x: Test)
    requires x.Valid()
  {
    x.Len() + LastPacket(x) * x.TimePerPacket() < TWO_TO_THE_64
  }

  /** The cycle in which pgm_rd enters FIN_S. */
  function End(x: Test): nat
    requires x.Valid()
  {
    x.Start(LastPacket(x)) + 2 + x.Len()
  }

  /** FIN_S with the totals of N packets. */
  ghost predicate Ended(x: Test, d: Rd)
    requires x.Valid()
  {
    var n := LastPacket(x) + 1;
    d.state == RdFin && d.cnt.pkt == Wrap64(n) && d.cnt.bit == Wrap64(n * x.BitsPerPacket())
  }

  /** Once a test is over, pgm_rd sits in FIN_S with the totals of its N packets until it is
      reset. */
  lemma Totals(x: Test, t: nat)
    requires x.Valid() && NoSoftReset(x, t) && InTime(x) && t >= End(x)
    ensures ValidRam(x.mem) && Ended(x, At(x, t).rd)
  {
    hide PgmStep, Loaded, Wrap64, Draining, NoSoftReset, At;
    PacketCount(x);
    Finished(x, LastPacket(x), t - End(x));
    NextRound(x, LastPacket(x));
  }

  // ---------------------------------------------------------------- ready for the next test

  /** The store side k cycles after the tail. */
  ghost predicate Holding(x: Test, k: nat, w: Wr) {
    if k <= x.c.sentTime + 1 then w.state == WrWait && w.timeCnt == k
    else if k == x.c.sentTime + 2 then w.state == WrIdle
    else w == WR_RESET
  }

  lemma {:induction false} StartFlagDrops(x: Test, k: nat)
    requires x.Valid() && x.c.sentTime + 1 < TWO_TO_THE_64
    ensures Holding(x, k, At(x, x.Len() + k).wr)
  {
    hide RdStep, RamStep, WrSentStep, WrStoreStep, WrDiscardStep, Test.RoundOf, Test.Start;
    if k == 0 {
      StoreProgress(x, x.Len());
    } else {
      StartFlagDrops(x, k - 1);
      Edge(x, x.Len() + (k - 1));
    }
  }

  /** The store side is back in its reset state when pgm_rd enters FIN_S. */
  lemma StoreSideIsFirst(x: Test)
    requires x.Valid() && InTime(x)
    ensures End(x) >= x.Len() + x.c.sentTime + 3
  {
    LastPacketIsLeast(x);
    var n := LastPacket(x);
    assert n * x.Period() == n * x.TimePerPacket() + n;
  }

  lemma InFin(x: Test, t: nat)
    requires x.Valid() && NoSoftReset(x, t) && InTime(x) && t >= End(x)
    ensures At(x, t).rd.state == RdFin && At(x, t).rd.timeReg == x.c.sentTime
  {
    hide PgmStep, Loaded, Draining;
    PacketCount(x);
    Finished(x, LastPacket(x), t - End(x));
  }

  /** Two edges of the replay side, the first with the soft reset. */
  lemma ReplayRearms(c: Control, d: Rd, w: Wr, u: Word, v: Word, i: Input, k: Input)
    requires d.state == RdFin && i.softRst
    ensures RdStep(c, RdStep(c, d, w, u, i), WR_RESET, v, k) == RD_RESET.(timeReg := d.timeReg)
  {
  }

  /** A soft reset after the end of a test takes the generator back to its reset state: the
      start flag has dropped by then, so the next test counts from zero. */
  lemma SoftResetRearms(x: Test, t: nat)
    requires x.Valid() && NoSoftReset(x, t) && x.ins(t).softRst
    requires InTime(x) && t >= End(x) && x.c.sentTime + 1 < TWO_TO_THE_64
    ensures var s := At(x, t + 2); s.wr == WR_RESET && s.rd == RD_RESET.(timeReg := x.c.sentTime)
  {
    hide WrStep, RamStep, RdStep, InTime, Test.Start, LastPacket, Test.Valid, NoSoftReset, At;
    StoreSideIsFirst(x);
    StartFlagDrops(x, t + 1 - x.Len());
    StartFlagDrops(x, t + 2 - x.Len());
    InFin(x, t);
    Edge(x, t);
    Edge(x, t + 1);
    var s, r := At(x, t), At(x, t + 1);
    ReplayRearms(x.c, s.rd, s.wr, s.ram.dout, r.ram.dout, x.ins(t), x.ins(t + 1));
  }

  // ---------------------------------------------------------------- idle gaps

  /** The generator over some cycles, from any registers and with settings that may change. */
  function RunFrom(cs: nat -> Control, s: Pgm, ins: nat -> Input, t: nat): (r: Pgm)
    requires ValidRam(s.ram)
    ensures ValidRam(r.ram)
  {
    if t == 0 then s else PgmStep(cs(t - 1), RunFrom(cs, s, ins, t - 1), ins(t - 1))
  }

  /** Both sides hold their reset registers. */
  predicate AtRest(s: Pgm) {
    ValidRam(s.ram) && s.wr == WR_RESET && s.rd == RD_RESET.(timeReg := s.rd.timeReg)
  }

  /** No packet begins in the first `gap` cycles. */
  ghost predicate Idle(ins: nat -> Input, gap: nat) {
    forall t: nat :: t < gap ==> !(ins(t).dataWr && ins(t).data.IsHead())
  }

  lemma RestStep(c: Control, s: Pgm, i: Input)
    requires AtRest(s) && !(i.dataWr && i.data.IsHead())
    ensures AtRest(PgmStep(c, s, i)) && PgmStep(c, s, i).ram.mem == s.ram.mem
    ensures PgmStep(c, s, i).rd == s.rd
  {
    IdleStays(c, s.rd, s.wr);
  }

  /** While no packet begins, registers and packet memory stay, whatever else arrives and however
      the settings change. */
  lemma {:induction false} IdleGap(cs: nat -> Control, s: Pgm, ins: nat -> Input, gap: nat)
    requires AtRest(s) && Idle(ins, gap)
    ensures AtRest(RunFrom(cs, s, ins, gap)) && RunFrom(cs, s, ins, gap).rd == s.rd
    ensures RunFrom(cs, s, ins, gap).ram.mem == s.ram.mem
    ensures Emitted(RunFrom(cs, s, ins, gap)) == Silent
  {
    hide PgmStep;
    if gap > 0 {
      IdleGap(cs, s, ins, gap - 1);
      RestStep(cs(gap - 1), RunFrom(cs, s, ins, gap - 1), ins(gap - 1));
    }
  }

  /** From cycle `gap` on the run is test y, on the memory and time limit it finds. */
  ghost predicate Begins(cs: nat -> Control, s: Pgm, ins: nat -> Input, gap: nat, y: Test)
    requires ValidRam(s.ram)
  {
    && y.Valid() && y.mem == RunFrom(cs, s, ins, gap).ram && y.timeReg == s.rd.timeReg
    && forall t: nat :: gap <= t ==> cs(t) == y.c && ins(t) == y.ins(t - gap)
  }

  lemma {:induction false} RunIsTest(cs: nat -> Control, s: Pgm, ins: nat -> Input, gap: nat, y: Test, k: nat)
    requires AtRest(s) && Idle(ins, gap) && Begins(cs, s, ins, gap, y)
    ensures ValidRam(y.mem) && RunFrom(cs, s, ins, gap + k) == At(y, k)
  {
    hide PgmStep, Test.Valid;
    if k == 0 {
      IdleGap(cs, s, ins, gap);
    } else {
      RunIsTest(cs, s, ins, gap, y, k - 1);
      assert cs(gap + (k - 1)) == y.c && ins(gap + (k - 1)) == y.ins(k - 1);
    }
  }

  /** A test that begins after any idle gap follows its schedule from there, and the bus is silent
      in the gap. */
  lemma ScheduleAfterIdle(cs: nat -> Control, s: Pgm, ins: nat -> Input, gap: nat, y: Test, t: nat)
    requires AtRest(s) && Idle(ins, gap) && Begins(cs, s, ins, gap, y)
    requires t >= gap ==> NoSoftReset(y, t - gap)
    ensures Emitted(RunFrom(cs, s, ins, t)) == if t < gap then Silent else Expected(y, t - gap)
  {
    hide PgmStep, Emitted, Expected, At, RunFrom, AtRest, NoSoftReset, Test.Valid;
    if t < gap {
      IdleGap(cs, s, ins, t);
    } else {
      RunIsTest(cs, s, ins, gap, y, t - gap);
      ScheduleIsExact(y, t - gap);
    }
  }

  /** The registers a test leaves after its soft reset are at rest, so the next test, with any
      settings, any packet and any gap before it, follows its own schedule. */
  lemma NextTestOnSchedule(x: Test, t: nat, cs: nat -> Control, ins: nat -> Input, gap: nat, y: Test, k: nat)
    requires x.Valid() && NoSoftReset(x, t) && x.ins(t).softRst
    requires InTime(x) && t >= End(x) && x.c.sentTime + 1 < TWO_TO_THE_64
    requires Idle(ins, gap) && Begins(cs, At(x, t + 2), ins, gap, y)
    requires k >= gap ==> NoSoftReset(y, k - gap)
    ensures ValidRam(x.mem)
    ensures Emitted(RunFrom(cs, At(x, t + 2), ins, k)) == if k < gap then Silent else Expected(y, k - gap)
  {
    hide PgmStep, Emitted, InTime, Expected, At, RunFrom, Begins, NoSoftReset, Test.Valid, Idle;
    Bounds(x, 0);
    SoftResetRearms(x, t);
    ScheduleAfterIdle(cs, At(x, t + 2), ins, gap, y, k);
  }

  // ---------------------------------------------------------------- the software formula

  /** The interval main_ant.c programs for a packet of len bytes at rate percent. */
  function ProgrammedInterval(len: nat, rate: nat): int
    requires rate > 0
  {
    (len + 20) * 80 / rate - len / 16 - 2 - 2
  }

  /** Two metadata words and the data in words of 16 bytes. */
  function BusWords(len: nat): nat { 2 + (len + 15) / 16 }

  /** With that interval heads are one cycle further apart than (len + 20) * 80 / rate, two if
      the length is not a multiple of 16; and only if the interval did not go negative, in
      which case the 32-bit register takes a huge value. */
  lemma SoftwareSpacing(x: Test, len: nat, rate: nat)
    requires x.Valid() && rate > 0 && x.Len() == BusWords(len)
    requires 0 <= ProgrammedInterval(len, rate) + TWO_TO_THE_32 < 2 * TWO_TO_THE_32
    requires x.c.sentRate == ProgrammedInterval(len, rate) % TWO_TO_THE_32
    ensures x.Period() == (len + 20) * 80 / rate + 1 + (if len % 16 == 0 then 0 else 1)
            <==> ProgrammedInterval(len, rate) >= 0
  {
    var want := (len + 20) * 80 / rate;
    assert (len + 15) / 16 == len / 16 + (if len % 16 == 0 then 0 else 1);
    if ProgrammedInterval(len, rate) < 0 {
      assert x.c.sentRate == ProgrammedInterval(len, rate) + TWO_TO_THE_32;
    }
  }

  // ---------------------------------------------------------------- the generator object

  /** Drives a generator through a test and notes its output bus in every cycle. */
  method Observe(g: Generator, x: Test, cycles: nat) returns (beats: seq<Beat>)
    requires g.Valid() && g.View() == Initial(x) && x.Valid() && NoSoftReset(x, cycles)
    modifies g.wr, g.ram, g.ram.mem, g.rd
    ensures g.Valid() && ValidRam(x.mem) && g.View() == At(x, cycles)
    ensures |beats| == cycles
    ensures forall t :: 0 <= t < cycles ==> beats[t] == Expected(x, t)
  {
    hide PgmStep, Test.Valid, Expected, NoSoftReset;
    assert ValidRam(x.mem) by { Bounds(x, 0); }
    beats := [];
    for t := 0 to cycles
      invariant g.Valid() && g.View() == At(x, t)
      invariant |beats| == t
      invariant forall k :: 0 <= k < t ==> beats[k] == Expected(x, k)
    {
      NoResetBefore(x, t, cycles);
      ScheduleIsExact(x, t);
      beats := beats + [Emitted(g.View())];
      g.Clock(x.c, x.ins(t));
    }
  }
}

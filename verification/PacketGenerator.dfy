/** The packet generator: the store side (pgm_wr), the packet memory and the replay side
    (pgm_rd).  Every clocked module is a class whose Clock method is one rising edge; the
    functions WrStep, RamStep and RdStep give the next register values. */
module PacketGenerator {
  import opened FastWord

  const RAM_DEPTH: nat := 128
  /** Priority 7 in bits 111..109 of the head word asks for a packet to be stored. */
  const PRIORITY_LOW: nat := 0x2000_0000_0000_0000_0000_0000_0000
  const STORE_PRIORITY: nat := 7
  const ALL_ONES: nat := 0xFFFF_FFFF
  /** pkt_cycle_cnt is an 11-bit counter. */
  const CYCLE_RANGE: nat := 2048

  type RamAddress = x: nat | x < RAM_DEPTH

  function Priority(w: Word): nat { Field(w.payload, PRIORITY_LOW, 8) }

  function Wrap64(x: nat): Uint64 { x % TWO_TO_THE_64 }

  function Wrap32(x: nat): Uint32 { x % TWO_TO_THE_32 }

  /** What the two modules see from outside in one cycle. */
  datatype Input = Input(data: Word, dataWr: bool, valid: bool, validWr: bool,
                         timestamp: Uint32, softRst: bool)

  /** The control registers software programs before a test. */
  datatype Control = Control(sentTime: Uint64, sentRate: Uint32, latFlag: bool)

  // ---------------------------------------------------------------- pgm_wr

  datatype WrState = WrIdle | WrSent | WrStore | WrWait | WrDiscard

  datatype RamWrite = RamWrite(en: bool, data: Word, addr: RamAddress)

  datatype Flags = Flags(bypass: bool, start: bool, finish: bool)

  datatype Wr = Wr(state: WrState, ram: RamWrite, bus: Bus, timeCnt: Uint64, flags: Flags)

  const NO_WRITE := RamWrite(false, ZERO_WORD, 0)
  const NO_FLAGS := Flags(false, false, false)
  const WR_RESET := Wr(WrIdle, NO_WRITE, IDLE_BUS, 0, NO_FLAGS)

  function WrIdleStep(w: Wr, i: Input): Wr {
    if i.dataWr && i.data.IsHead() && Priority(i.data) != STORE_PRIORITY then
      w.(bus := w.bus.(word := i.data, wr := true, valid := i.valid),
         flags := w.flags.(bypass := true), state := WrSent)
    else if i.dataWr && i.data.IsHead() then
      w.(ram := RamWrite(true, i.data, 0), state := WrStore)
    else
      WR_RESET
  }

  function WrSentStep(w: Wr, i: Input): Wr {
    if i.dataWr && i.data.IsBody() then
      w.(bus := w.bus.(word := i.data, wr := true, valid := i.valid))
    else if i.dataWr && i.data.IsTail() then
      w.(bus := Bus(i.data, true, true, true), state := WrIdle)
    else
      w.(bus := IDLE_BUS, state := WrDiscard)
  }

  /** The tail is taken whether or not it comes with a write strobe. */
  function WrStoreStep(w: Wr, i: Input): Wr {
    if i.data.IsBody() && i.dataWr then
      w.(ram := RamWrite(true, i.data, (w.ram.addr + 1) % RAM_DEPTH))
    else if i.data.IsTail() then
      w.(ram := RamWrite(true, i.data, (w.ram.addr + 1) % RAM_DEPTH),
         flags := w.flags.(start := true), state := WrWait)
    else
      w.(ram := w.ram.(en := false), state := WrDiscard)
  }

  function WrWaitStep(c: Control, w: Wr): Wr {
    if w.timeCnt <= c.sentTime then
      w.(ram := NO_WRITE, timeCnt := Wrap64(w.timeCnt + 1))
    else
      w.(flags := w.flags.(finish := true), state := WrIdle)
  }

  function WrDiscardStep(w: Wr, i: Input): Wr {
    if !i.data.IsTail() && i.dataWr then
      w.(ram := w.ram.(en := false), bus := IDLE_BUS)
    else
      w.(state := WrIdle)
  }

  function WrStep(c: Control, w: Wr, i: Input): Wr {
    match w.state
    case WrIdle => WrIdleStep(w, i)
    case WrSent => WrSentStep(w, i)
    case WrStore => WrStoreStep(w, i)
    case WrWait => WrWaitStep(c, w)
    case WrDiscard => WrDiscardStep(w, i)
  }

  /** The store side. */
  class PgmWr {
    var state: WrState
    var ram: RamWrite
    var bus: Bus
    var timeCnt: Uint64
    var flags: Flags

    function View(): Wr
      reads this
    {
      Wr(state, ram, bus, timeCnt, flags)
    }

    constructor ()
      ensures View() == WR_RESET
      ensures View() == Wr(WrIdle, RamWrite(false, Word(0, 0, 0), 0), Bus(Word(0, 0, 0), false, false, false), 0,
                           Flags(false, false, false))
    {
      state, ram, bus, timeCnt, flags := WrIdle, NO_WRITE, IDLE_BUS, 0, NO_FLAGS;
    }

    method Clock(c: Control, i: Input)
      modifies this
      ensures View() == WrStep(c, old(View()), i)
    {
      match state {
        case WrIdle =>
          if i.dataWr && i.data.IsHead() && Priority(i.data) != STORE_PRIORITY {
            bus := bus.(word := i.data, wr := true, valid := i.valid);
            flags := flags.(bypass := true);
            state := WrSent;
          } else if i.dataWr && i.data.IsHead() {
            ram := RamWrite(true, i.data, 0);
            state := WrStore;
          } else {
            ram, bus, timeCnt, flags := NO_WRITE, IDLE_BUS, 0, NO_FLAGS;
          }
        case WrSent =>
          if i.dataWr && i.data.IsBody() {
            bus := bus.(word := i.data, wr := true, valid := i.valid);
          } else if i.dataWr && i.data.IsTail() {
            bus := Bus(i.data, true, true, true);
            state := WrIdle;
          } else {
            bus := IDLE_BUS;
            state := WrDiscard;
          }
        case WrStore =>
          if i.data.IsBody() && i.dataWr {
            ram := RamWrite(true, i.data, (ram.addr + 1) % 128);
          } else if i.data.IsTail() {
            ram := RamWrite(true, i.data, (ram.addr + 1) % 128);
            flags := flags.(start := true);
            state := WrWait;
          } else {
            ram := ram.(en := false);
            state := WrDiscard;
          }
        case WrWait =>
          if timeCnt <= c.sentTime {
            ram := NO_WRITE;
            timeCnt := Wrap64(timeCnt + 1);
          } else {
            flags := flags.(finish := true);
            state := WrIdle;
          }
        case WrDiscard =>
          if !i.data.IsTail() && i.dataWr {
            ram := ram.(en := false);
            bus := IDLE_BUS;
          } else {
            state := WrIdle;
          }
      }
    }
  }

  // ---------------------------------------------------------------- packet memory

  /** 128 words; port A writes, port B reads through the memory latch and an output
      register, so data appears two edges after its address. */
  datatype Ram = Ram(mem: seq<Word>, latch: Word, dout: Word)

  predicate ValidRam(r: Ram) { |r.mem| == RAM_DEPTH }

  function RamStep(r: Ram, w: RamWrite, rdAddr: RamAddress): (r': Ram)
    requires ValidRam(r)
    ensures ValidRam(r')
  {
    Ram(if w.en then r.mem[w.addr := w.data] else r.mem, r.mem[rdAddr], r.latch)
  }

  class PgmRam {
    const mem: array<Word>
    var latch: Word
    var dout: Word

    constructor (initial: Ram)
      requires ValidRam(initial)
      ensures fresh(mem) && mem.Length == RAM_DEPTH
      ensures View() == initial
    {
      var cells := new Word[RAM_DEPTH](k requires 0 <= k < RAM_DEPTH => initial.mem[k]);
      mem := cells;
      latch, dout := initial.latch, initial.dout;
      new;
      assert mem[..] == initial.mem;
    }

    function View(): Ram
      reads this, mem
    {
      Ram(mem[..], latch, dout)
    }

    method Clock(w: RamWrite, rdAddr: RamAddress)
      requires mem.Length == RAM_DEPTH
      modifies this, mem
      ensures View() == RamStep(old(View()), w, rdAddr)
    {
      dout := latch;
      latch := mem[rdAddr];
      if w.en {
        mem[w.addr] := w.data;
      }
    }
  }

  // ---------------------------------------------------------------- pgm_rd

  datatype RdState = RdIdle | RdSent | RdHaunt1 | RdHaunt2 | RdRead | RdWait | RdProbe | RdFin

  datatype RamRead = RamRead(en: bool, addr: RamAddress)

  datatype Counters = Counters(rate: Uint32, latPkt: Uint32, bit: Uint64, pkt: Uint64,
                               time: Uint64, cycle: nat)

  datatype Rd = Rd(state: RdState, ram: RamRead, bus: Bus, cnt: Counters, timeReg: Uint64)

  const NO_READ := RamRead(false, 0)
  const NO_COUNT := Counters(0, 0, 0, 0, 0, 0)
  const RD_RESET := Rd(RdIdle, NO_READ, IDLE_BUS, NO_COUNT, 0)

  /** The stamp that replaces the sixth word of a generated packet: the packet counter, the
      time and 32 ones. */
  function Stamp(w: Word, pktCnt: Uint64, timestamp: Uint32): Word {
    Word(w.framing, w.count,
         pktCnt * TWO_TO_THE_64 + timestamp * TWO_TO_THE_32 + ALL_ONES)
  }

  function Emit(cnt: Counters, w: Word, i: Input): Word {
    if cnt.cycle == 4 then Stamp(w, cnt.pkt, i.timestamp) else w
  }

  function RdIdleStep(c: Control, d: Rd, w: Wr): Rd {
    if w.flags.bypass && w.bus.word.IsHead() && w.bus.wr then
      d.(bus := w.bus.(wr := true), state := RdSent)
    else if w.flags.start then
      d.(bus := d.bus.(word := ZERO_WORD, wr := false, valid := false), ram := RamRead(true, 0),
         state := RdHaunt1, timeReg := c.sentTime)
    else
      RD_RESET.(timeReg := d.timeReg)
  }

  function RdSentStep(d: Rd, w: Wr): Rd {
    if w.bus.word.IsBody() && w.bus.wr then
      d.(bus := w.bus)
    else if w.bus.word.IsTail() && w.bus.wr then
      d.(bus := Bus(w.bus.word, true, true, true), state := RdIdle)
    else
      d.(bus := Bus(d.bus.word, false, false, w.bus.validWr), state := RdIdle)
  }

  function TickTime(cnt: Counters): Counters {
    cnt.(time := Wrap64(cnt.time + 1))
  }

  function AfterTail(d: Rd): RdState {
    if d.cnt.time >= d.timeReg then RdFin else RdWait
  }

  /** The time limit is compared with the counter before it moves on. */
  function RdReadStep(d: Rd, rdata: Word, i: Input): Rd {
    var cnt := TickTime(d.cnt);
    if rdata.IsBody() then
      d.(ram := RamRead(true, (d.ram.addr + 1) % RAM_DEPTH),
         bus := Bus(Emit(d.cnt, rdata, i), true, false, false),
         cnt := cnt.(bit := Wrap64(cnt.bit + 16), cycle := (cnt.cycle + 1) % CYCLE_RANGE))
    else if rdata.IsTail() then
      d.(ram := NO_READ, bus := Bus(Emit(d.cnt, rdata, i), true, true, true),
         cnt := cnt.(bit := Wrap64(cnt.bit + rdata.count), pkt := Wrap64(cnt.pkt + 1)),
         state := AfterTail(d))
    else if rdata.IsHead() then
      d.(ram := RamRead(true, (d.ram.addr + 1) % RAM_DEPTH),
         bus := Bus(rdata, true, false, false),
         cnt := cnt.(bit := Wrap64(cnt.bit + 16), cycle := 0))
    else
      d.(cnt := cnt)
  }

  function RdWaitStep(c: Control, d: Rd): Rd {
    var cnt := TickTime(d.cnt);
    if d.cnt.rate == c.sentRate then
      d.(ram := RamRead(true, 0), bus := IDLE_BUS, cnt := cnt.(rate := 0), state := RdHaunt1)
    else
      d.(bus := IDLE_BUS,
         cnt := cnt.(latPkt := Wrap32(cnt.latPkt + 1), rate := Wrap32(cnt.rate + 1)))
  }

  function RdProbeStep(d: Rd, rdata: Word): Rd {
    var cnt := TickTime(d.cnt);
    if !d.bus.word.IsTail() then
      d.(ram := RamRead(true, (d.ram.addr + 1) % RAM_DEPTH),
         bus := Bus(rdata, true, false, false), cnt := cnt)
    else
      d.(ram := NO_READ, bus := Bus(rdata, true, true, true), cnt := cnt.(latPkt := 0, rate := 0),
         state := AfterTail(d))
  }

  function RdStep(c: Control, d: Rd, w: Wr, rdata: Word, i: Input): Rd {
    match d.state
    case RdIdle => RdIdleStep(c, d, w)
    case RdSent => RdSentStep(d, w)
    case RdHaunt1 => d.(ram := RamRead(true, 1), state := RdHaunt2)
    case RdHaunt2 =>
      d.(ram := d.ram.(addr := 2), cnt := TickTime(d.cnt),
         state := if c.latFlag then RdProbe else RdRead)
    case RdRead => RdReadStep(d, rdata, i)
    case RdFin => if i.softRst then d.(state := RdIdle) else d.(bus := IDLE_BUS)
    case RdWait => RdWaitStep(c, d)
    case RdProbe => RdProbeStep(d, rdata)
  }

  /** The replay side. */
  class PgmRd {
    var state: RdState
    var ram: RamRead
    var bus: Bus
    var cnt: Counters
    var timeReg: Uint64

    function View(): Rd
      reads this
    {
      Rd(state, ram, bus, cnt, timeReg)
    }

    constructor ()
      ensures View() == RD_RESET
      ensures View() == Rd(RdIdle, RamRead(false, 0), Bus(Word(0, 0, 0), false, false, false),
                           Counters(0, 0, 0, 0, 0, 0), 0)
    {
      state, ram, bus, cnt, timeReg := RdIdle, NO_READ, IDLE_BUS, NO_COUNT, 0;
    }

    /** READ_S */
    method Read(rdata: Word, i: Input)
      modifies this
      ensures View() == RdReadStep(old(View()), rdata, i)
    {
      var time := cnt.time;
      if rdata.IsBody() {
        bus := Bus(Emit(cnt, rdata, i), true, false, false);
        ram := RamRead(true, (ram.addr + 1) % 128);
        cnt := cnt.(bit := Wrap64(cnt.bit + 16), cycle := (cnt.cycle + 1) % 2048);
      } else if rdata.IsTail() {
        bus := Bus(Emit(cnt, rdata, i), true, true, true);
        ram := NO_READ;
        cnt := cnt.(bit := Wrap64(cnt.bit + rdata.count), pkt := Wrap64(cnt.pkt + 1));
        state := if time >= timeReg then RdFin else RdWait;
      } else if rdata.IsHead() {
        bus := Bus(rdata, true, false, false);
        ram := RamRead(true, (ram.addr + 1) % 128);
        cnt := cnt.(bit := Wrap64(cnt.bit + 16), cycle := 0);
      }
      cnt := cnt.(time := Wrap64(time + 1));
    }

    /** WAIT_S */
    method Wait(c: Control)
      modifies this
      ensures View() == RdWaitStep(c, old(View()))
    {
      bus := IDLE_BUS;
      cnt := cnt.(time := Wrap64(cnt.time + 1));
      if cnt.rate == c.sentRate {
        ram := RamRead(true, 0);
        cnt := cnt.(rate := 0);
        state := RdHaunt1;
      } else {
        cnt := cnt.(latPkt := Wrap32(cnt.latPkt + 1), rate := Wrap32(cnt.rate + 1));
      }
    }

    /** PROBE_S */
    method Probe(rdata: Word)
      modifies this
      ensures View() == RdProbeStep(old(View()), rdata)
    {
      var time := cnt.time;
      if !bus.word.IsTail() {
        bus := Bus(rdata, true, false, false);
        ram := RamRead(true, (ram.addr + 1) % 128);
      } else {
        bus := Bus(rdata, true, true, true);
        ram := NO_READ;
        cnt := cnt.(latPkt := 0, rate := 0);
        state := if time >= timeReg then RdFin else RdWait;
      }
      cnt := cnt.(time := Wrap64(time + 1));
    }

    method Clock(c: Control, w: Wr, rdata: Word, i: Input)
      modifies this
      ensures View() == RdStep(c, old(View()), w, rdata, i)
    {
      match state {
        case RdIdle =>
          if w.flags.bypass && w.bus.word.IsHead() && w.bus.wr {
            bus := w.bus.(wr := true);
            state := RdSent;
          } else if w.flags.start {
            bus := bus.(word := ZERO_WORD, wr := false, valid := false);
            ram := RamRead(true, 0);
            timeReg := c.sentTime;
            state := RdHaunt1;
          } else {
            ram, bus, cnt := NO_READ, IDLE_BUS, NO_COUNT;
          }
        case RdSent =>
          if w.bus.word.IsBody() && w.bus.wr {
            bus := w.bus;
          } else if w.bus.word.IsTail() && w.bus.wr {
            bus := Bus(w.bus.word, true, true, true);
            state := RdIdle;
          } else {
            bus := Bus(bus.word, false, false, w.bus.validWr);
            state := RdIdle;
          }
        case RdHaunt1 =>
          ram := RamRead(true, 1);
          state := RdHaunt2;
        case RdHaunt2 =>
          ram := ram.(addr := 2);
          cnt := cnt.(time := Wrap64(cnt.time + 1));
          state := if c.latFlag then RdProbe else RdRead;
        case RdRead =>
          Read(rdata, i);
        case RdFin =>
          if i.softRst {
            state := RdIdle;
          } else {
            bus := IDLE_BUS;
          }
        case RdWait =>
          Wait(c);
        case RdProbe =>
          Probe(rdata);
      }
    }
  }

  // ---------------------------------------------------------------- the generator

  datatype Pgm = Pgm(wr: Wr, ram: Ram, rd: Rd)

  /** One edge of the three modules as pgm.v wires them. */
  function PgmStep(c: Control, s: Pgm, i: Input): (s': Pgm)
    requires ValidRam(s.ram)
    ensures ValidRam(s'.ram)
  {
    Pgm(WrStep(c, s.wr, i),
        RamStep(s.ram, s.wr.ram, s.rd.ram.addr),
        RdStep(c, s.rd, s.wr, s.ram.dout, i))
  }

  class Generator {
    const wr: PgmWr
    const ram: PgmRam
    const rd: PgmRd

    ghost predicate Valid() {
      ram.mem.Length == RAM_DEPTH
    }

    function View(): Pgm
      reads wr, ram, ram.mem, rd
    {
      Pgm(wr.View(), ram.View(), rd.View())
    }

    constructor (initial: Ram)
      requires ValidRam(initial)
      ensures Valid() && fresh(wr) && fresh(ram) && fresh(ram.mem) && fresh(rd)
      ensures View() == Pgm(WR_RESET, initial, RD_RESET)
    {
      wr := new PgmWr();
      ram := new PgmRam(initial);
      rd := new PgmRd();
    }

    method Clock(c: Control, i: Input)
      requires Valid()
      modifies wr, ram, ram.mem, rd
      ensures View() == PgmStep(c, old(View()), i)
    {
      var rdAddr := rd.ram.addr;
      rd.Clock(c, wr.View(), ram.dout, i);
      ram.Clock(wr.ram, rdAddr);
      wr.Clock(c, i);
    }
  }
}

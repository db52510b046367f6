/** The output engine (goe): it removes the packets marked for discarding, counts the others
    by flow number in a 256-entry memory and sends them to the port. */
module OutputEngine {
  import opened FastWord
  import opened PacketFifo

  const DATA_DEPTH: nat := 256
  const VALID_DEPTH: nat := 128
  const FLOWS: nat := 256
  const TWO_TO_THE_50: nat := 0x4_0000_0000_0000
  const TWO_TO_THE_108: nat := 0x1000_0000_0000_0000_0000_0000_0000

  type FlowId = x: nat | x < FLOWS

  /** Bit 108 of the head word. */
  predicate Marked(head: Word) { Field(head.payload, TWO_TO_THE_108, 2) == 1 }

  /** Bits 57..50 of the head word. */
  function Flow(head: Word): FlowId { Field(head.payload, TWO_TO_THE_50, FLOWS) }

  /** The packet input and whether the port can take a packet. */
  datatype Input = Input(wr: bool, word: Word, ready: bool)

  // ---------------------------------------------------------------- discarding

  /** The filter's registers: within a packet or not, whether that packet is dropped, and what
      is written to the two FIFOs. */
  datatype Filter = Filter(within: bool, drop: bool, wr: bool, word: Word, validWr: bool)

  const FILTER_RESET := Filter(false, false, false, ZERO_WORD, false)

  function FilterStep(d: Filter, i: Input): Filter {
    if !d.within then
      if i.wr && i.word.IsHead() then Filter(true, Marked(i.word), !Marked(i.word), i.word, false)
      else FILTER_RESET
    else if i.wr then
      Filter(!i.word.IsTail(), d.drop, !d.drop, i.word, i.word.IsTail() && !d.drop)
    else d.(wr := false, word := ZERO_WORD, validWr := false)
  }

  // ---------------------------------------------------------------- counting and sending

  datatype State = Idle | Wait0 | Wait1 | Write | Trans

  datatype Sender = Sender(state: State, addr: FlowId, count: Uint32, countWr: bool, flow: FlowId,
                           dataRd: bool, validRd: bool, bus: Bus)

  const SENDER_RESET := Sender(Idle, 0, 0, false, 0, false, false, IDLE_BUS)

  /** The counter memory, read two edges after the address like the other block memories. */
  datatype Counters = Counters(mem: seq<Uint32>, latch: Uint32, dout: Uint32)

  predicate ValidCounters(m: Counters) { |m.mem| == FLOWS }

  function CountersStep(m: Counters, addr: FlowId, wr: bool, x: Uint32): (r: Counters)
    requires ValidCounters(m)
    ensures ValidCounters(r)
  {
    Counters(if wr then m.mem[addr := x] else m.mem, m.mem[addr], m.latch)
  }

  /** Three words are sent before the sender looks for a tail. */
  function SenderStep(c: Sender, shown: Word, pending: bool, ready: bool, count: Uint32): Sender {
    match c.state
    case Idle =>
      if ready && pending then
        SENDER_RESET.(state := Wait0, addr := Flow(shown), flow := Flow(shown), dataRd := true,
                      validRd := true)
      else SENDER_RESET
    case Wait0 =>
      c.(state := Wait1, countWr := false, validRd := false, dataRd := true,
         bus := c.bus.(word := shown, wr := true))
    case Wait1 =>
      c.(state := Write, validRd := false, dataRd := true, bus := c.bus.(word := shown, wr := true))
    case Write =>
      c.(state := Trans, countWr := true, addr := c.flow, count := (count + 1) % TWO_TO_THE_32,
         validRd := false, dataRd := true, bus := c.bus.(word := shown, wr := true))
    case Trans =>
      if shown.IsTail() then
        c.(state := Idle, countWr := false, dataRd := false, bus := Bus(shown, true, true, true))
      else
        c.(countWr := false, dataRd := true, bus := c.bus.(word := shown, wr := true))
  }

  datatype Engine = Engine(filter: Filter, data: seq<Word>, valids: seq<bool>, sender: Sender,
                           counters: Counters)

  function EngineStep(s: Engine, i: Input): (r: Engine)
    requires ValidCounters(s.counters)
    ensures ValidCounters(r.counters)
  {
    Engine(FilterStep(s.filter, i),
           FifoStep(s.data, s.sender.dataRd, s.filter.wr, s.filter.word, DATA_DEPTH),
           FifoStep(s.valids, s.sender.validRd, s.filter.validWr, true, VALID_DEPTH),
           SenderStep(s.sender, Shown(s.data), s.valids != [], i.ready, s.counters.dout),
           CountersStep(s.counters, s.sender.addr, s.sender.countWr, s.sender.count))
  }

  /** The filter's word finds room for it below 256 words, its verdict below 128. */
  lemma FullLoses(s: Engine, i: Input)
    requires ValidCounters(s.counters) && |s.data| <= 256 && |s.valids| <= 128
    ensures var r := EngineStep(s, i);
            && r.data == (if s.sender.dataRd && s.data != [] then s.data[1..] else s.data)
                         + (if s.filter.wr && |s.data| != 256 then [s.filter.word] else [])
            && r.valids == (if s.sender.validRd && s.valids != [] then s.valids[1..] else s.valids)
                           + (if s.filter.validWr && |s.valids| != 128 then [true] else [])
            && |r.data| <= 256 && |r.valids| <= 128
  {
    hide FilterStep, SenderStep;
  }

  class Goe {
    var filter: Filter
    var data: seq<Word>
    var valids: seq<bool>
    var sender: Sender
    const mem: array<Uint32>
    var latch: Uint32
    var dout: Uint32

    ghost predicate Valid() { mem.Length == FLOWS }

    function View(): Engine
      reads this, mem
    {
      Engine(filter, data, valids, sender, Counters(mem[..], latch, dout))
    }

    constructor (initial: Counters)
      requires ValidCounters(initial)
      ensures Valid() && fresh(mem)
      ensures View() == Engine(FILTER_RESET, [], [], SENDER_RESET, initial)
      ensures filter == Filter(false, false, false, Word(0, 0, 0), false)
      ensures sender == Sender(Idle, 0, 0, false, 0, false, false, Bus(Word(0, 0, 0), false, false, false))
    {
      filter, data, valids, sender := FILTER_RESET, [], [], SENDER_RESET;
      latch, dout := initial.latch, initial.dout;
      var cells := new Uint32[FLOWS](k requires 0 <= k < FLOWS => initial.mem[k]);
      mem := cells;
      new;
      assert mem[..] == initial.mem;
    }

    /** The discard filter. */
    method ClockFilter(i: Input)
      modifies this`filter
      ensures filter == FilterStep(old(filter), i)
    {
      filter := filter.(wr := false, word := ZERO_WORD, validWr := false);
      if !filter.within {
        filter := filter.(drop := false);
        if i.wr && i.word.IsHead() {
          filter := Filter(true, Marked(i.word), !Marked(i.word), i.word, false);
        }
      } else if i.wr {
        filter := filter.(wr := !filter.drop, word := i.word);
        if i.word.IsTail() {
          filter := filter.(validWr := !filter.drop, within := false);
        }
      }
    }

    /** The counting and sending machine. */
    method ClockSender(shown: Word, pending: bool, ready: bool)
      modifies this`sender
      ensures sender == SenderStep(old(sender), shown, pending, ready, dout)
    {
      match sender.state {
        case Idle =>
          sender := SENDER_RESET;
          if ready && pending {
            sender := sender.(validRd := true, dataRd := true, addr := Flow(shown),
                              flow := Flow(shown), state := Wait0);
          }
        case Wait0 =>
          sender := sender.(countWr := false, validRd := false, dataRd := true, state := Wait1,
                            bus := sender.bus.(wr := true, word := shown));
        case Wait1 =>
          sender := sender.(validRd := false, dataRd := true, state := Write,
                            bus := sender.bus.(wr := true, word := shown));
        case Write =>
          sender := sender.(countWr := true, addr := sender.flow,
                            count := (dout + 1) % TWO_TO_THE_32);
          sender := sender.(validRd := false, dataRd := true, state := Trans,
                            bus := sender.bus.(wr := true, word := shown));
        case Trans =>
          sender := sender.(countWr := false, bus := sender.bus.(wr := true, word := shown));
          if shown.IsTail() {
            sender := sender.(dataRd := false, state := Idle,
                              bus := sender.bus.(valid := true, validWr := true));
          } else {
            sender := sender.(dataRd := true);
          }
      }
    }

    method Clock(i: Input)
      requires Valid()
      modifies this, mem
      ensures View() == EngineStep(old(View()), i)
    {
      hide FifoStep, FilterStep, SenderStep;
      var nextData := FifoStep(data, sender.dataRd, filter.wr, filter.word, DATA_DEPTH);
      var nextValids := FifoStep(valids, sender.validRd, filter.validWr, true, VALID_DEPTH);
      var addr, count, countWr := sender.addr, sender.count, sender.countWr;
      ClockSender(Shown(data), valids != [], i.ready);
      ClockFilter(i);
      data, valids := nextData, nextValids;
      dout := latch;
      latch := mem[addr];
      if countWr {
        mem[addr] := count;
      }
    }
  }
}

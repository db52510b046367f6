/** The generic packet parser (gpp): it forwards a packet and, on its last word, hands the
    rest of the pipeline the packet's metadata and a 1024-bit header vector. */
module HeaderParser {
  import opened Division
  import opened FastWord

  const LANES: nat := 8

  /** The header vector as eight 128-bit lanes, most significant first: lane 0 is bits
      1023..896, lane 7 bits 127..0. */
  type Lanes = s: seq<Payload> | |s| == LANES witness [0, 0, 0, 0, 0, 0, 0, 0]

  type Octet = x: nat | x < 256

  const NO_LANES: Lanes := [0, 0, 0, 0, 0, 0, 0, 0]

  /** low is bits 127..0 of the metadata, the first word of the packet; high the second. */
  datatype Metadata = Metadata(low: Payload, high: Payload)

  const NO_METADATA := Metadata(0, 0)

  const TWO_TO_THE_16: nat := 0x1_0000
  const TWO_TO_THE_72: nat := 0x100_0000_0000_0000_0000
  const TWO_TO_THE_80: nat := 0x1_0000_0000_0000_0000_0000
  const TWO_TO_THE_88: nat := 0x100_0000_0000_0000_0000_0000
  const LMID: nat := 1
  const NMID: nat := 2

  /** Bits 87..80: the module a packet goes to next. */
  function DestinationModule(low: Payload): Octet { Field(low, TWO_TO_THE_80, 256) }

  /** Bits 79..72: the packet's protocol type. */
  function ProtocolType(low: Payload): Octet { Field(low, TWO_TO_THE_72, 256) }

  /** Bits 927..912 of the header vector. */
  function EtherType(phv: Lanes): nat { Field(phv[0], TWO_TO_THE_16, TWO_TO_THE_16) }

  /** Bits 839..832. */
  function Ipv4Protocol(phv: Lanes): Octet { Field(phv[1], TWO_TO_THE_64, 256) }

  /** Bits 863..856. */
  function Ipv6NextHeader(phv: Lanes): Octet { Field(phv[1], TWO_TO_THE_88, 256) }

  const ETH_IPV4: nat := 0x0800
  const ETH_ARP: nat := 0x0806
  const ETH_IPV6: nat := 0x86DD
  const ETH_VLAN: nat := 0x8100
  const PROTO_TCP: Octet := 6
  const PROTO_UDP: Octet := 0x11

  predicate Recognised(etherType: nat) {
    etherType == ETH_IPV4 || etherType == ETH_ARP || etherType == ETH_IPV6 || etherType == ETH_VLAN
  }

  /** The protocol type of a header vector; an unknown EtherType leaves the old one. */
  function Classify(phv: Lanes, previous: Octet): Octet {
    var e := EtherType(phv);
    if e == ETH_IPV6 then
      if Ipv6NextHeader(phv) == PROTO_TCP then 0x81
      else if Ipv6NextHeader(phv) == PROTO_UDP then 0x83
      else 0x82
    else if e == ETH_IPV4 then
      if Ipv4Protocol(phv) == PROTO_TCP then 0x01
      else if Ipv4Protocol(phv) == PROTO_UDP then 0x07
      else 0x02
    else if e == ETH_ARP then 0x03
    else if e == ETH_VLAN then 0xE0
    else previous
  }

  /** Metadata addressed to this module leaves for the next one with the protocol type. */
  function Readdress(md: Metadata, pst: Octet): (r: Metadata)
    ensures r.high == md.high
  {
    if DestinationModule(md.low) == LMID then
      md.(low := (md.low / TWO_TO_THE_88) * TWO_TO_THE_88 + NMID * TWO_TO_THE_80
                 + pst * TWO_TO_THE_72 + md.low % TWO_TO_THE_72)
    else md
  }

  /** The readdressed metadata reads back as intended and keeps every other bit. */
  lemma ReaddressFields(md: Metadata, pst: Octet)
    requires DestinationModule(md.low) == LMID
    ensures var low := Readdress(md, pst).low;
            && DestinationModule(low) == NMID && ProtocolType(low) == pst
            && low / TWO_TO_THE_88 == md.low / TWO_TO_THE_88
            && low % TWO_TO_THE_72 == md.low % TWO_TO_THE_72
  {
    var q, r, low := md.low / TWO_TO_THE_88, md.low % TWO_TO_THE_72, Readdress(md, pst).low;
    Quotient(low, TWO_TO_THE_72, (q * 256 + NMID) * 256 + pst, r);
    Quotient(low, TWO_TO_THE_80, q * 256 + NMID, pst * TWO_TO_THE_72 + r);
    Quotient(low, TWO_TO_THE_88, q, NMID * TWO_TO_THE_80 + pst * TWO_TO_THE_72 + r);
    Quotient(q * 256 + NMID, 256, q, NMID);
    Quotient((q * 256 + NMID) * 256 + pst, 256, q * 256 + NMID, pst);
  }

  // ---------------------------------------------------------------- one edge

  datatype PktIn = PktIn(word: Word, wr: bool, valid: bool)

  datatype GppState = Idle | Trans | Discard

  datatype Gpp = Gpp(state: GppState, flag: bool, bus: Bus, step: Octet, md: Metadata, phv: Lanes,
                     pst: Octet, phvOut: Lanes, phvWr: bool, mdOut: Metadata, mdWr: bool)

  const GPP_RESET := Gpp(Idle, false, IDLE_BUS, 0, NO_METADATA, NO_LANES, 0, NO_LANES, false,
                         NO_METADATA, false)

  /** Packets for module 1 or for a module above 4 are forwarded. */
  predicate Accepts(low: Payload) {
    DestinationModule(low) == 1 || DestinationModule(low) > 4
  }

  /** pkt_step_count_inc: the index of the word on the bus within its packet. */
  function StepInc(step: Octet, i: PktIn): Octet {
    if i.wr && !i.word.IsHead() then (step + 1) % 256 else 0
  }

  function MetadataStep(md: Metadata, inc: Octet, i: PktIn): Metadata {
    if i.wr && inc == 0 then md.(low := i.word.payload)
    else if i.wr && inc == 1 then md.(high := i.word.payload)
    else md
  }

  predicate InVector(inc: Octet, i: PktIn) { i.wr && 2 <= inc < 2 + LANES }

  function PhvStep(phv: Lanes, inc: Octet, i: PktIn): Lanes {
    if InVector(inc, i) then phv[inc - 2 := i.word.payload] else phv
  }

  /** The lanes parsed so far, this word, and zeros. */
  function PhvOutStep(phv: Lanes, phvOut: Lanes, inc: Octet, i: PktIn): Lanes {
    if InVector(inc, i) then
      phv[..inc - 2] + [i.word.payload] + seq(LANES + 1 - inc, _ => 0)
    else phvOut
  }

  /** The forwarding part: state, flag and output bus.  TRANS_S copies its input every cycle,
      strobe or not. */
  function ForwardStep(state: GppState, flag: bool, bus: Bus, i: PktIn): (GppState, bool, Bus) {
    match state
    case Idle =>
      if i.word.IsHead() && i.wr then
        if Accepts(i.word.payload) then (Trans, true, Bus(i.word, true, false, false))
        else (Discard, false, IDLE_BUS)
      else (Idle, flag, IDLE_BUS)
    case Trans =>
      (if i.word.IsTail() then Idle else Trans, flag,
       Bus(i.word, true, i.valid, i.word.IsTail()))
    case Discard =>
      (if i.word.IsTail() then Idle else Discard, flag, bus.(wr := false, validWr := false))
  }

  function GppStep(s: Gpp, i: PktIn): Gpp {
    var inc := StepInc(s.step, i);
    var (state, flag, bus) := ForwardStep(s.state, s.flag, s.bus, i);
    Gpp(state, flag, bus, inc, MetadataStep(s.md, inc, i), PhvStep(s.phv, inc, i),
        Classify(s.phv, s.pst), PhvOutStep(s.phv, s.phvOut, inc, i), s.flag && i.valid,
        Readdress(s.md, s.pst), s.flag && i.valid)
  }

  class Parser {
    var state: GppState
    var flag: bool
    var bus: Bus
    var step: Octet
    var md: Metadata
    var phv: Lanes
    var pst: Octet
    var phvOut: Lanes
    var phvWr: bool
    var mdOut: Metadata
    var mdWr: bool

    function View(): Gpp
      reads this
    {
      Gpp(state, flag, bus, step, md, phv, pst, phvOut, phvWr, mdOut, mdWr)
    }

    constructor ()
      ensures View() == GPP_RESET
      ensures View() == Gpp(Idle, false, Bus(Word(0, 0, 0), false, false, false), 0, Metadata(0, 0),
                            [0, 0, 0, 0, 0, 0, 0, 0], 0, [0, 0, 0, 0, 0, 0, 0, 0], false, Metadata(0, 0), false)
    {
      state, flag, bus, step := Idle, false, IDLE_BUS, 0;
      md, phv, pst := NO_METADATA, NO_LANES, 0;
      phvOut, phvWr, mdOut, mdWr := NO_LANES, false, NO_METADATA, false;
    }

    /** The state machine that passes packets to the data cache. */
    method Forward(i: PktIn)
      modifies this`state, this`flag, this`bus
      ensures (state, flag, bus) == ForwardStep(old(state), old(flag), old(bus), i)
    {
      match state {
        case Idle =>
          if i.word.IsHead() && i.wr {
            if Accepts(i.word.payload) {
              state, flag, bus := Trans, true, Bus(i.word, true, false, false);
            } else {
              state, flag, bus := Discard, false, IDLE_BUS;
            }
          } else {
            bus := IDLE_BUS;
          }
        case Trans =>
          bus := Bus(i.word, true, i.valid, i.word.IsTail());
          if i.word.IsTail() {
            state := Idle;
          }
        case Discard =>
          bus := bus.(wr := false, validWr := false);
          if i.word.IsTail() {
            state := Idle;
          }
      }
    }

    /** The header vector and what of it is offered to the next module. */
    method Parse(inc: Octet, i: PktIn)
      modifies this`md, this`phv, this`phvOut
      ensures md == MetadataStep(old(md), inc, i)
      ensures phv == PhvStep(old(phv), inc, i)
      ensures phvOut == PhvOutStep(old(phv), old(phvOut), inc, i)
    {
      if i.wr {
        if inc == 0 {
          md := md.(low := i.word.payload);
        } else if inc == 1 {
          md := md.(high := i.word.payload);
        } else if inc < 2 + LANES {
          phvOut := phv[..inc - 2] + [i.word.payload] + seq(LANES + 1 - inc, _ => 0);
          phv := phv[inc - 2 := i.word.payload];
        }
      }
    }

    method Clock(i: PktIn)
      modifies this
      ensures View() == GppStep(old(View()), i)
    {
      phvWr, mdWr := flag && i.valid, flag && i.valid;
      mdOut := Readdress(md, pst);
      pst := Classify(phv, pst);
      step := StepInc(step, i);
      Parse(step, i);
      Forward(i);
    }
  }
}

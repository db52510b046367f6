/** Transport ports in a match. They are compiled into the key but not into the mask, so a
    match keeps its OpenFlow meaning exactly when it has none. */
module PortMeaning {
  import opened RuleMatch
  import opened FlowMatch
  import opened MatchMeaning

  /** The IP protocol a port field belongs to. */
  function ProtocolOf(f: bv8): bv8 {
    if f == 13 || f == 14 then 6 else 17
  }

  /** Where the transport header starts: after the IPv4 header and its options, or after the
      IPv6 header. */
  function TransportStart(frame: seq<bv8>): nat
    requires Complete(frame)
  {
    if frame[12] == 0x08 && frame[13] == 0x00 then 14 + 4 * (frame[14] & 0x0F) as nat else 54
  }

  predicate HasTransport(frame: seq<bv8>, f: bv8)
    requires Complete(frame)
  {
    && Has(frame, IP_PROTO) && FieldOf(frame, IP_PROTO) == [ProtocolOf(f)]
    && TransportStart(frame) + 4 <= |frame|
  }

  function PortStart(frame: seq<bv8>, f: bv8): nat
    requires Complete(frame)
  {
    TransportStart(frame) + if f == 13 || f == 15 then 0 else 2
  }

  /** What OpenFlow means by a frame meeting a port TLV. */
  predicate MeetsPort(frame: seq<bv8>, t: Tlv)
    requires Complete(frame)
  {
    HasTransport(frame, t.field) && frame[PortStart(frame, t.field)..PortStart(frame, t.field) + 2] == t.value
  }

  predicate MeetsEvery(frame: seq<bv8>, ts: seq<Tlv>, port: bv8)
    requires Complete(frame) && AllStandard(ts)
  {
    && MeetsAll(frame, ts) && MeetsInPort(ts, port)
    && forall k :: 0 <= k < |ts| && TransportPort(ts[k].field) ==> MeetsPort(frame, ts[k])
  }

  predicate SaysProtocol(t: Tlv, p: bv8) { t.field == IP_PROTO && t.value == [p] }

  /** The prerequisites of the specification for port fields. */
  predicate PortPrerequisites(ts: seq<Tlv>) {
    forall k :: 0 <= k < |ts| && TransportPort(ts[k].field) ==>
      && (TypeBefore(ts, k, 0x08, 0x00) || TypeBefore(ts, k, 0x86, 0xDD))
      && exists i :: 0 <= i < k && SaysProtocol(ts[i], ProtocolOf(ts[k].field))
  }

  predicate Portless(ts: seq<Tlv>) {
    forall k :: 0 <= k < |ts| ==> !TransportPort(ts[k].field)
  }

  // ---------------------------------------------------------------- a frame made to measure

  function Blanks(n: nat): (r: seq<bv8>)
    ensures |r| == n
  {
    seq(n, _ => 0)
  }

  /** The value a match gives an exact field, or zeros. */
  function Wanted(ts: seq<Tlv>, f: bv8): (r: seq<bv8>)
    requires AllStandard(ts) && Exact(f)
    ensures |r| == Width(f)
  {
    if ts == [] then Blanks(Width(f))
    else if ts[0].field == f then ts[0].value
    else Wanted(ts[1..], f)
  }

  lemma {:induction false} WantedIsValue(ts: seq<Tlv>, i: nat)
    requires AllStandard(ts) && Distinct(ts) && i < |ts| && Exact(ts[i].field)
    ensures Wanted(ts, ts[i].field) == ts[i].value
  {
    hide Standard, Exact, Width;
    if i > 0 {
      WantedIsValue(ts[1..], i - 1);
    }
  }

  function LinkPart(ts: seq<Tlv>): (r: seq<bv8>)
    requires AllStandard(ts)
    ensures |r| == ETHERNET_HEADER
  {
    Wanted(ts, ETH_DST) + Wanted(ts, ETH_SRC) + Wanted(ts, ETH_TYPE)
  }

  /** A transport header whose source and destination ports both differ from v. */
  function WrongPorts(v: seq<bv8>): (r: seq<bv8>)
    requires |v| == 2
    ensures |r| == 4 && r[..2] != v && r[2..] != v
  {
    Differs(v[0]);
    [v[0] ^ 1, v[1], v[0] ^ 1, v[1]]
  }

  lemma Differs(b: bv8)
    ensures b ^ 1 != b
  {
  }

  /** Header fields at an offset: some bytes, the protocol, some more, the two addresses. */
  function IpPart(first: bv8, before: nat, proto: seq<bv8>, between: nat, src: seq<bv8>, dst: seq<bv8>): seq<bv8> {
    [first] + Blanks(before) + proto + Blanks(between) + src + dst
  }

  lemma IpParts(first: bv8, before: nat, proto: seq<bv8>, between: nat, src: seq<bv8>, dst: seq<bv8>)
    requires |proto| == 1
    ensures var h := IpPart(first, before, proto, between, src, dst); var a := before + between + 2;
            && |h| == a + |src| + |dst| && h[0] == first
            && h[before + 1..before + 2] == proto
            && h[a..a + |src|] == src && h[a + |src|..a + |src| + |dst|] == dst
  {
    hide Blanks;
  }

  /** A part of the middle of three pieces. */
  lemma MiddleSlice(l: seq<bv8>, h: seq<bv8>, w: seq<bv8>, i: nat, j: nat)
    requires i <= j <= |h|
    ensures (l + h + w)[|l| + i..|l| + j] == h[i..j]
  {
  }

  lemma EndSlices(l: seq<bv8>, h: seq<bv8>, w: seq<bv8>)
    ensures forall i, j :: 0 <= i <= j <= |l| ==> (l + h + w)[i..j] == l[i..j]
    ensures forall i, j :: 0 <= i <= j <= |w| ==> (l + h + w)[|l| + |h| + i..|l| + |h| + j] == w[i..j]
  {
  }

  lemma LinkParts(ts: seq<Tlv>)
    requires AllStandard(ts)
    ensures var l := LinkPart(ts);
            l[0..6] == Wanted(ts, ETH_DST) && l[6..12] == Wanted(ts, ETH_SRC) && l[12..14] == Wanted(ts, ETH_TYPE)
  {
    hide Wanted;
  }

  function Ipv4Part(ts: seq<Tlv>): seq<bv8>
    requires AllStandard(ts)
  {
    IpPart(0x45, 8, Wanted(ts, IP_PROTO), 2, Wanted(ts, OXM_IPV4_SRC), Wanted(ts, OXM_IPV4_DST))
  }

  function Ipv6Part(ts: seq<Tlv>): seq<bv8>
    requires AllStandard(ts)
  {
    IpPart(0x60, 5, Wanted(ts, IP_PROTO), 1, Wanted(ts, OXM_IPV6_SRC), Wanted(ts, OXM_IPV6_DST))
  }

  function Ipv4Frame(ts: seq<Tlv>, v: seq<bv8>): seq<bv8>
    requires AllStandard(ts) && |v| == 2
  {
    LinkPart(ts) + Ipv4Part(ts) + WrongPorts(v)
  }

  function Ipv6Frame(ts: seq<Tlv>, v: seq<bv8>): seq<bv8>
    requires AllStandard(ts) && |v| == 2
  {
    LinkPart(ts) + Ipv6Part(ts) + WrongPorts(v)
  }

  /** What the IPv4 frame holds where. */
  lemma Ipv4Parts(ts: seq<Tlv>, v: seq<bv8>)
    requires AllStandard(ts) && |v| == 2
    ensures var f := Ipv4Frame(ts, v);
            && |f| == 38 && f[14] == 0x45
            && f[0..6] == Wanted(ts, ETH_DST) && f[6..12] == Wanted(ts, ETH_SRC) && f[12..14] == Wanted(ts, ETH_TYPE)
            && f[23..24] == Wanted(ts, IP_PROTO)
            && f[26..30] == Wanted(ts, OXM_IPV4_SRC) && f[30..34] == Wanted(ts, OXM_IPV4_DST)
            && f[34..36] != v && f[36..38] != v
  {
    hide Wanted, WrongPorts, Blanks, LinkPart, IpPart;
    var l, h, w := LinkPart(ts), Ipv4Part(ts), WrongPorts(v);
    LinkParts(ts);
    EndSlices(l, h, w);
    IpParts(0x45, 8, Wanted(ts, IP_PROTO), 2, Wanted(ts, OXM_IPV4_SRC), Wanted(ts, OXM_IPV4_DST));
    MiddleSlice(l, h, w, 9, 10);
    MiddleSlice(l, h, w, 12, 16);
    MiddleSlice(l, h, w, 16, 20);
    assert (l + h + w)[34..36] == w[0..2] && (l + h + w)[36..38] == w[2..4];
    assert w[0..2] == w[..2] && w[2..4] == w[2..];
  }

  lemma Ipv6Parts(ts: seq<Tlv>, v: seq<bv8>)
    requires AllStandard(ts) && |v| == 2
    ensures var f := Ipv6Frame(ts, v);
            && |f| == 58
            && f[0..6] == Wanted(ts, ETH_DST) && f[6..12] == Wanted(ts, ETH_SRC) && f[12..14] == Wanted(ts, ETH_TYPE)
            && f[20..21] == Wanted(ts, IP_PROTO)
            && f[22..38] == Wanted(ts, OXM_IPV6_SRC) && f[38..54] == Wanted(ts, OXM_IPV6_DST)
            && f[54..56] != v && f[56..58] != v
  {
    hide Wanted, WrongPorts, Blanks, LinkPart, IpPart;
    var l, h, w := LinkPart(ts), Ipv6Part(ts), WrongPorts(v);
    LinkParts(ts);
    EndSlices(l, h, w);
    IpParts(0x60, 5, Wanted(ts, IP_PROTO), 1, Wanted(ts, OXM_IPV6_SRC), Wanted(ts, OXM_IPV6_DST));
    MiddleSlice(l, h, w, 6, 7);
    MiddleSlice(l, h, w, 8, 24);
    MiddleSlice(l, h, w, 24, 40);
    assert (l + h + w)[54..56] == w[0..2] && (l + h + w)[56..58] == w[2..4];
    assert w[0..2] == w[..2] && w[2..4] == w[2..];
  }

  lemma TypeWanted(ts: seq<Tlv>, k: nat, high: bv8, low: bv8)
    requires AllStandard(ts) && Distinct(ts) && k <= |ts| && TypeBefore(ts, k, high, low)
    ensures Wanted(ts, ETH_TYPE) == [high, low]
  {
    hide Wanted, Standard;
    var a :| 0 <= a < k && SaysType(ts[a], high, low);
    WantedIsValue(ts, a);
  }

  lemma LowNibble()
    ensures (0x45 as bv8 & 0x0F) as nat == 5
  {
  }

  /** The frame meets every exact TLV of an IPv4 match, and no port TLV with value v. */
  lemma Ipv4FrameMeets(ts: seq<Tlv>, v: seq<bv8>, k: nat)
    requires Matchable(ts) && AllStandard(ts) && |v| == 2 && k <= |ts| && TypeBefore(ts, k, 0x08, 0x00)
    ensures var f := Ipv4Frame(ts, v); Complete(f) && Ipv4(f) && MeetsAll(f, ts)
    ensures var f := Ipv4Frame(ts, v); forall t: Tlv :: t.value == v ==> !MeetsPort(f, t)
  {
    hide Ipv4Frame, Wanted, Standard, Prerequisites;
    var f := Ipv4Frame(ts, v);
    Ipv4Parts(ts, v);
    TypeWanted(ts, k, 0x08, 0x00);
    assert f[12..14][0] == 0x08 && f[12..14][1] == 0x00;
    forall i | 0 <= i < |ts| && Exact(ts[i].field)
      ensures Meets(f, ts[i])
    {
      NotIpv6(ts, k, i);
      WantedIsValue(ts, i);
    }
    LowNibble();
  }

  lemma NotIpv6(ts: seq<Tlv>, k: nat, i: nat)
    requires Matchable(ts) && k <= |ts| && i < |ts| && TypeBefore(ts, k, 0x08, 0x00)
    ensures !Ipv6Field(ts[i].field)
  {
    hide Standard, Exact, TransportPort;
    var a :| 0 <= a < k && SaysType(ts[a], 0x08, 0x00);
    NoOtherType(ts, a, i);
  }

  lemma NotIpv4(ts: seq<Tlv>, k: nat, i: nat)
    requires Matchable(ts) && k <= |ts| && i < |ts| && TypeBefore(ts, k, 0x86, 0xDD)
    ensures !Ipv4Field(ts[i].field)
  {
    hide Standard, Exact, TransportPort, TypeBefore;
    if Ipv4Field(ts[i].field) {
      NotBothTypes(ts, i, k);
    }
  }

  lemma NotBothTypes(ts: seq<Tlv>, i: nat, k: nat)
    requires Distinct(ts) && i <= |ts| && k <= |ts| && TypeBefore(ts, i, 0x08, 0x00)
    ensures !TypeBefore(ts, k, 0x86, 0xDD)
  {
    var a :| 0 <= a < i && SaysType(ts[a], 0x08, 0x00);
    NoOtherType(ts, a, k);
  }

  lemma Ipv6FrameMeets(ts: seq<Tlv>, v: seq<bv8>, k: nat)
    requires Matchable(ts) && AllStandard(ts) && |v| == 2 && k <= |ts| && TypeBefore(ts, k, 0x86, 0xDD)
    ensures var f := Ipv6Frame(ts, v); Complete(f) && Ipv6(f) && MeetsAll(f, ts)
    ensures var f := Ipv6Frame(ts, v); forall t: Tlv :: t.value == v ==> !MeetsPort(f, t)
  {
    hide Ipv6Frame, Wanted, Standard, Prerequisites;
    var f := Ipv6Frame(ts, v);
    Ipv6Parts(ts, v);
    TypeWanted(ts, k, 0x86, 0xDD);
    assert f[12..14][0] == 0x86 && f[12..14][1] == 0xDD;
    forall i | 0 <= i < |ts| && Exact(ts[i].field)
      ensures Meets(f, ts[i])
    {
      NotIpv4(ts, k, i);
      WantedIsValue(ts, i);
    }
  }

  // ---------------------------------------------------------------- exactly when

  /** For each frame on each port: the comparison of keys decides the match the controller meant. */
  ghost predicate Decides(ts: seq<Tlv>)
    requires AllStandard(ts)
  {
    forall frame: seq<bv8>, port: bv8 :: Complete(frame) && FrameKey(frame, port).Some? ==>
      (MaskedEqual(Compile(ts).key, FrameKey(frame, port).value, Compile(ts).mask) <==> MeetsEvery(frame, ts, port))
  }

  lemma IpHasKey(frame: seq<bv8>, port: bv8)
    requires Complete(frame) && (Ipv4(frame) || Ipv6(frame))
    ensures FrameKey(frame, port).Some?
  {
  }

  /** The input port a match asks for, or any. */
  lemma WantedPort(ts: seq<Tlv>) returns (port: bv8)
    requires AllStandard(ts) && Distinct(ts)
    ensures MeetsInPort(ts, port)
  {
    port := 0;
    if i :| 0 <= i < |ts| && SaysPort(ts[i]) {
      port := ts[i].value[3];
    }
  }

  /** A port TLV is ignored: a frame that meets everything else, on the right input port, and has
      other transport ports compares equal. */
  lemma PortIsIgnored(ts: seq<Tlv>, k: nat) returns (frame: seq<bv8>, port: bv8)
    requires Matchable(ts) && AllStandard(ts) && PortPrerequisites(ts) && k < |ts| && TransportPort(ts[k].field)
    ensures Complete(frame) && FrameKey(frame, port).Some?
    ensures MeetsAll(frame, ts) && MeetsInPort(ts, port) && !MeetsPort(frame, ts[k])
    ensures MaskedEqual(Compile(ts).key, FrameKey(frame, port).value, Compile(ts).mask)
  {
    hide Compile, MaskedEqual, FrameKey, MeetsAll, MeetsPort, MeetsInPort, Complete, Ipv4, Ipv6, Ipv4Frame, Ipv6Frame,
      TypeBefore, Distinct, AllStandard, Prerequisites, Exact;
    var v := ts[k].value;
    PortWidth(ts, k);
    port := WantedPort(ts);
    if TypeBefore(ts, k, 0x08, 0x00) {
      Ipv4FrameMeets(ts, v, k);
      frame := Ipv4Frame(ts, v);
    } else {
      Ipv6FrameMeets(ts, v, k);
      frame := Ipv6Frame(ts, v);
    }
    IpHasKey(frame, port);
    CompiledMatchMeans(ts, frame, port);
  }

  lemma PortWidth(ts: seq<Tlv>, k: nat)
    requires AllStandard(ts) && k < |ts| && TransportPort(ts[k].field)
    ensures |ts[k].value| == 2
  {
  }

  /** Compiling preserves the whole meaning of a well-formed match exactly when the match has
      no TCP or UDP port TLV. */
  lemma PreservedWithoutPorts(ts: seq<Tlv>)
    requires Matchable(ts) && AllStandard(ts) && PortPrerequisites(ts)
    ensures Decides(ts) <==> Portless(ts)
  {
    hide Matchable, Compile, MaskedEqual, FrameKey, MeetsAll, MeetsPort, MeetsInPort, Complete, TransportPort;
    if Portless(ts) {
      forall frame: seq<bv8>, port: bv8 | Complete(frame) && FrameKey(frame, port).Some?
        ensures MaskedEqual(Compile(ts).key, FrameKey(frame, port).value, Compile(ts).mask)
                <==> MeetsEvery(frame, ts, port)
      {
        CompiledMatchMeans(ts, frame, port);
      }
    } else {
      var k :| 0 <= k < |ts| && TransportPort(ts[k].field);
      var frame, port := PortIsIgnored(ts, k);
    }
  }
}

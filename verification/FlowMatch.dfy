/** Compiling an OpenFlow match (OXM TLVs, section 7.2.3 of the OpenFlow Switch Specification
    1.3.4) into a flow key and mask: the TLV walk of handle_flow_mod_add. */
module FlowMatch {
  import opened RuleMatch

  /** One OXM TLV without its class; the header keeps the field in seven bits, whether the second
      half of the value is a mask in one, and the length of the value in a byte. */
  datatype Tlv = Tlv(field: bv8, masked: bool, length: bv8, value: seq<bv8>) {
    predicate WellFormed() { field < 128 && |value| == length as nat }
  }

  const IN_PORT: bv8 := 0
  const ETH_DST: bv8 := 3
  const ETH_SRC: bv8 := 4
  const ETH_TYPE: bv8 := 5
  const VLAN_VID: bv8 := 6
  const VLAN_PCP: bv8 := 7
  const IP_DSCP: bv8 := 8
  const IP_ECN: bv8 := 9
  const IP_PROTO: bv8 := 10
  const OXM_IPV4_SRC: bv8 := 11
  const OXM_IPV4_DST: bv8 := 12
  const TCP_SRC: bv8 := 13
  const TCP_DST: bv8 := 14
  const UDP_SRC: bv8 := 15
  const UDP_DST: bv8 := 16
  const OXM_IPV6_SRC: bv8 := 26
  const OXM_IPV6_DST: bv8 := 27

  const OXM_HEADER: nat := 4

  // ---------------------------------------------------------------- the fields

  /** Fields compiled into key and mask byte for byte. */
  predicate Exact(f: bv8) {
    f == ETH_DST || f == ETH_SRC || f == ETH_TYPE || f == IP_PROTO || f == OXM_IPV4_SRC
    || f == OXM_IPV4_DST || f == OXM_IPV6_SRC || f == OXM_IPV6_DST
  }

  predicate SourcePort(f: bv8) { f == TCP_SRC || f == UDP_SRC }

  predicate DestinationPort(f: bv8) { f == TCP_DST || f == UDP_DST }

  /** Fields compiled into the key but not into the mask. */
  predicate TransportPort(f: bv8) { SourcePort(f) || DestinationPort(f) }

  predicate Supported(f: bv8) {
    Exact(f) || TransportPort(f) || f == IN_PORT || f == VLAN_VID || f == VLAN_PCP || f == IP_DSCP || f == IP_ECN
  }

  /** The width OpenFlow gives a field. */
  function Width(f: bv8): nat
    requires Supported(f)
  {
    if f == ETH_DST || f == ETH_SRC then 6
    else if f == ETH_TYPE || f == VLAN_VID || TransportPort(f) then 2
    else if f == OXM_IPV4_SRC || f == OXM_IPV4_DST || f == IN_PORT then 4
    else if f == OXM_IPV6_SRC || f == OXM_IPV6_DST then 16
    else 1
  }

  /** The longest value that stays inside the key, or inside the variable it is copied to. */
  function Room(f: bv8): nat
    requires Supported(f)
  {
    if Exact(f) then KEY_BYTES - Offset(f)
    else if SourcePort(f) then KEY_BYTES - IPV6_SPORT
    else if DestinationPort(f) then KEY_BYTES - IPV6_DPORT
    else if f == IN_PORT then 4
    else if f == VLAN_VID || f == VLAN_PCP then 2
    else 1
  }

  function Offset(f: bv8): nat
    requires Exact(f)
  {
    if f == ETH_DST then DMAC
    else if f == ETH_SRC then SMAC
    else if f == ETH_TYPE then TYPE
    else if f == IP_PROTO then PROTO
    else if f == OXM_IPV4_SRC then IPV4_SRC
    else if f == OXM_IPV4_DST then IPV4_DST
    else if f == OXM_IPV6_SRC then IPV6_SRC
    else IPV6_DST
  }

  // ---------------------------------------------------------------- compiling

  /** The bytes used of the variables that values are copied to; a shorter value leaves the rest
      of its variable as it was. */
  datatype Scratch = Scratch(port: bv8, vid: bv8, vidHigh: bv8, pcp: bv8, dscp: bv8, ecn: bv8)

  /** The rule under construction, with the VLAN tag collected so far. */
  datatype Rule = Rule(key: Key, mask: Key, tag: bv16, tagMask: bv16, scratch: Scratch)

  const BLANK := Rule(NO_KEY, NO_KEY, 0, 0, Scratch(0, 0, 0, 0, 0, 0))

  /** A TLV the switch can take: any value, with a mask or without, for which there is room. */
  predicate Fits(t: Tlv) {
    t.WellFormed() && Supported(t.field) && |t.value| <= Room(t.field)
  }

  /** An unmasked TLV of the standard width. */
  predicate Standard(t: Tlv) {
    Fits(t) && !t.masked && |t.value| == Width(t.field)
  }

  /** Byte i of a variable after a value has been copied to it. */
  function Copied(v: seq<bv8>, i: nat, before: bv8): bv8 { if i < |v| then v[i] else before }

  function CopiedTo(s: Scratch, f: bv8, v: seq<bv8>): Scratch {
    if f == IN_PORT then s.(port := Copied(v, 3, s.port))
    else if f == VLAN_VID then s.(vid := Copied(v, 0, s.vid), vidHigh := Copied(v, 1, s.vidHigh))
    else if f == VLAN_PCP then s.(pcp := Copied(v, 0, s.pcp))
    else if f == IP_DSCP then s.(dscp := Copied(v, 0, s.dscp))
    else if f == IP_ECN then s.(ecn := Copied(v, 0, s.ecn))
    else s
  }

  /** The type field of the key reads 0x0800. */
  predicate IsIpv4(key: Key) { key[TYPE] == 0x00 && key[TYPE + 1] == 0x08 }

  function PortOffset(key: Key, f: bv8): nat {
    if IsIpv4(key) then if SourcePort(f) then IPV4_SPORT else IPV4_DPORT
    else if SourcePort(f) then IPV6_SPORT else IPV6_DPORT
  }

  /** Value into the key, ones into the mask. */
  function WithField(r: Rule, at: nat, v: seq<bv8>): Rule
    requires at + |v| <= KEY_BYTES
  {
    r.(key := Put(r.key, at, Reversed(v)), mask := Put(r.mask, at, Ones(|v|)))
  }

  /** Value into the key only. */
  function WithTransport(r: Rule, at: nat, v: seq<bv8>): Rule
    requires at + |v| <= KEY_BYTES
  {
    r.(key := Put(r.key, at, Reversed(v)))
  }

  /** The input port is the high nibble of its byte. */
  function WithPort(r: Rule, port: bv8): Rule {
    r.(key := Put(r.key, PORT, [(r.key[PORT] & 0x0F) | (port << 4)]),
       mask := Put(r.mask, PORT, [r.mask[PORT] | 0xF0]))
  }

  function WithTos(r: Rule, bits: bv8, maskBits: bv8): Rule {
    r.(key := Put(r.key, TOS, [r.key[TOS] | bits]), mask := Put(r.mask, TOS, [r.mask[TOS] | maskBits]))
  }

  function Bytes16(x: bv16): (r: seq<bv8>)
    ensures |r| == 2
  {
    [(x & 0xFF) as bv8, (x >> 8) as bv8]
  }

  /** The collected tag and its mask are stored again whenever one of them grows. */
  function WithTag(r: Rule, bits: bv16, maskBits: bv16): Rule {
    var tag, tagMask := r.tag | bits, r.tagMask | maskBits;
    r.(key := Put(r.key, TCI, Bytes16(tag)), mask := Put(r.mask, TCI, Bytes16(tagMask)),
       tag := tag, tagMask := tagMask)
  }

  /** One round of the switch over TLV fields. */
  function Apply(r: Rule, t: Tlv): Rule
    requires Fits(t)
  {
    if Exact(t.field) then WithField(r, Offset(t.field), t.value)
    else if TransportPort(t.field) then WithTransport(r, PortOffset(r.key, t.field), t.value)
    else
      var s := CopiedTo(r.scratch, t.field, t.value);
      ApplyScalar(r.(scratch := s), t.field, s)
  }

  /** The fields whose value is copied to a variable first. */
  function ApplyScalar(r: Rule, f: bv8, s: Scratch): Rule {
    if f == IN_PORT then WithPort(r, s.port)
    else if f == VLAN_VID then WithTag(r, Join16(s.vid, s.vidHigh) & 0xFFF, 0xFFF)
    else if f == VLAN_PCP then WithTag(r, (s.pcp as bv16 & 0xF) << 13, 0xE000)
    else if f == IP_DSCP then WithTos(r, s.dscp << 2, 0xFC)
    else WithTos(r, s.ecn, 0x03)
  }

  /** Bytes at..at+|v|-1 hold v last byte first, the others are as before. */
  predicate Wrote(before: Key, after: Key, at: nat, v: seq<bv8>) {
    forall j :: 0 <= j < 64 ==> after[j] == if at <= j < at + |v| then v[at + |v| - 1 - j] else before[j]
  }

  /** Bytes at..at+n-1 are all ones, the others are as before. */
  predicate Filled(before: Key, after: Key, at: nat, n: nat) {
    forall j :: 0 <= j < 64 ==> after[j] == if at <= j < at + n then 0xFF else before[j]
  }

  /** Where the exact fields go: the addresses, the EtherType, the protocol. */
  function PlaceInKey(f: bv8): nat {
    if f == 3 then 0 else if f == 4 then 6 else if f == 5 then 14 else if f == 10 then 16
    else if f == 11 then 20 else if f == 12 then 24 else if f == 26 then 20 else 36
  }

  /** The fields the switch knows, by OpenFlow's numbers, and the widths OpenFlow gives them. */
  lemma FieldNumbers(f: bv8)
    ensures Supported(f) <==> f in {0, 3, 4, 5, 6, 7, 8, 9, 10, 11, 12, 13, 14, 15, 16, 26, 27}
    ensures Supported(f) ==>
              Width(f) == if f in {3, 4} then 6 else if f in {5, 6, 13, 14, 15, 16} then 2
                          else if f in {0, 11, 12} then 4 else if f in {26, 27} then 16 else 1
    ensures Supported(f) ==>
              Room(f) == if f in {0} then 4 else if f in {6, 7} then 2 else if f in {8, 9} then 1
                         else 64 - (if f in {13, 15} then 56 else if f in {14, 16} then 58 else PlaceInKey(f))
  {
  }

  /** Every unmasked TLV of the width OpenFlow gives its field can be taken. */
  lemma StandardFits(t: Tlv)
    ensures Standard(t) <==> t.WellFormed() && Supported(t.field) && !t.masked && |t.value| == Width(t.field)
  {
    FieldNumbers(t.field);
  }

  /** What a TLV of the standard width does to key and mask, by OpenFlow's field numbers: addresses,
      type and protocol go to both. */
  lemma ExactLayout(r: Rule, t: Tlv)
    requires Standard(t) && t.field in {3, 4, 5, 10, 11, 12, 26, 27}
    ensures var u := Apply(r, t);
            Wrote(r.key, u.key, PlaceInKey(t.field), t.value) && Filled(r.mask, u.mask, PlaceInKey(t.field), |t.value|)
  {
    hide Put, Reversed, Ones;
    assert Exact(t.field) && Offset(t.field) == PlaceInKey(t.field);
  }

  /** Transport ports go to the key alone. */
  lemma TransportLayout(r: Rule, t: Tlv)
    requires Standard(t) && t.field in {13, 14, 15, 16}
    ensures var u, ipv4 := Apply(r, t), r.key[14] == 0 && r.key[15] == 8;
            && u.mask == r.mask
            && Wrote(r.key, u.key, if t.field in {13, 15} then if ipv4 then 28 else 56 else if ipv4 then 30 else 58,
                     t.value)
  {
    hide Put, Reversed;
    assert TransportPort(t.field) && !Exact(t.field);
  }

  lemma PutByte(key: Key, at: nat, b: bv8)
    requires at < 64
    ensures Wrote(key, Put(key, at, [b]), at, [b])
  {
    hide Put;
  }

  /** The input port is the high nibble of byte 19. */
  lemma PortLayout(r: Rule, t: Tlv)
    requires Standard(t) && t.field == 0
    ensures Wrote(r.key, Apply(r, t).key, 19, [(r.key[19] & 0x0F) | (t.value[3] << 4)])
    ensures Wrote(r.mask, Apply(r, t).mask, 19, [r.mask[19] | 0xF0])
  {
    hide Put, Wrote, WithTag, WithTos, WithField, WithTransport;
    PutByte(r.key, 19, (r.key[19] & 0x0F) | (t.value[3] << 4));
    PutByte(r.mask, 19, r.mask[19] | 0xF0);
  }

  /** DSCP is the upper six bits of byte 17, ECN the lower two. */
  lemma TosLayout(r: Rule, t: Tlv)
    requires Standard(t) && (t.field == 8 || t.field == 9)
    ensures Wrote(r.key, Apply(r, t).key, 17, [r.key[17] | if t.field == 8 then t.value[0] << 2 else t.value[0]])
    ensures Wrote(r.mask, Apply(r, t).mask, 17, [r.mask[17] | if t.field == 8 then 0xFC else 0x03])
  {
    hide Put, Wrote, WithTag, WithPort, WithField, WithTransport;
    PutByte(r.key, 17, r.key[17] | if t.field == 8 then t.value[0] << 2 else t.value[0]);
    PutByte(r.mask, 17, r.mask[17] | if t.field == 8 then 0xFC else 0x03);
  }

  /** The VLAN fields collect a tag: the identifier's twelve bits as they stand in the message, the
      priority above them. */
  lemma TagLayout(r: Rule, t: Tlv)
    requires Standard(t) && (t.field == 6 || t.field == 7)
    ensures var u, v := Apply(r, t), t.value;
            && u.tag == r.tag | (if t.field == 6 then (v[0] as bv16) | ((v[1] as bv16 & 0x0F) << 8)
                                 else (v[0] as bv16 & 0x0F) << 13)
            && u.tagMask == r.tagMask | (if t.field == 6 then 0x0FFF else 0xE000)
            && TagStored(r.key, u.key, u.tag) && TagStored(r.mask, u.mask, u.tagMask)
  {
    hide Join16, Bytes16, TagStored;
    if t.field == 6 {
      TwelveBits(t.value[0], t.value[1]);
    }
    PutTag(r.key, Apply(r, t).tag);
    PutTag(r.mask, Apply(r, t).tagMask);
  }

  /** Bytes 12 and 13 hold a tag low byte first, the others are as before. */
  predicate TagStored(before: Key, after: Key, tag: bv16) {
    after == before[12 := (tag & 0xFF) as bv8][13 := (tag >> 8) as bv8]
  }

  lemma PutTag(key: Key, tag: bv16)
    ensures TagStored(key, Put(key, 12, Bytes16(tag)), tag)
  {
  }

  lemma TwelveBits(a: bv8, b: bv8)
    ensures Join16(a, b) & 0xFFF == (a as bv16) | ((b as bv16 & 0x0F) << 8)
  {
  }

  /** A value too short for its variable leaves the rest of the variable: an input port of fewer than
      four bytes is the port of the TLV before it. */
  lemma ShortPortKept(r: Rule, t: Tlv, short: Tlv)
    requires Standard(t) && t.field == 0 && Fits(short) && short.field == 0 && |short.value| < 4
    ensures var u := Apply(r, t); var w := Apply(u, short);
            && Wrote(u.key, w.key, 19, [(u.key[19] & 0x0F) | (t.value[3] << 4)]) && w.scratch == u.scratch
  {
    hide Put, Wrote;
    PutByte(Apply(r, t).key, 19, (Apply(r, t).key[19] & 0x0F) | (t.value[3] << 4));
  }

  predicate AllFit(ts: seq<Tlv>) {
    forall k :: 0 <= k < |ts| ==> Fits(ts[k])
  }

  predicate AllStandard(ts: seq<Tlv>) {
    AllFit(ts) && forall k :: 0 <= k < |ts| ==> Standard(ts[k])
  }

  function Compile(ts: seq<Tlv>): Rule
    requires AllFit(ts)
  {
    if ts == [] then BLANK else Apply(Compile(ts[..|ts| - 1]), ts[|ts| - 1])
  }

  // ---------------------------------------------------------------- the walk

  /** The bytes of a TLV: the basic class, the field over the mask bit, length and value. */
  function Encode(t: Tlv): (r: seq<bv8>)
    ensures |r| == OXM_HEADER + |t.value|
  {
    [0x80, 0x00, (t.field << 1) | (if t.masked then 1 else 0), t.length] + t.value
  }

  /** The four bytes of a TLV header (section 7.2.3.2 of the OpenFlow Switch Specification 1.3.4):
      class 0x8000, field and mask bit, length; then the value. */
  lemma EncodeLayout(t: Tlv)
    requires t.WellFormed()
    ensures var b := Encode(t);
            && b[0] == 0x80 && b[1] == 0 && b[2] >> 1 == t.field && (b[2] & 1 == 1 <==> t.masked) && b[3] == t.length
            && b[4..] == t.value
  {
    FieldBits(t.field, if t.masked then 1 else 0);
    MaskBit(t.field, if t.masked then 1 else 0);
  }

  lemma MaskBit(f: bv8, m: bv8)
    requires m < 2
    ensures ((f << 1) | m) & 1 == m
  {
  }

  function EncodeAll(ts: seq<Tlv>): seq<bv8> {
    if ts == [] then [] else EncodeAll(ts[..|ts| - 1]) + Encode(ts[|ts| - 1])
  }

  /** A list is a prefix of itself, byte for byte. */
  lemma {:induction false} EncodePrefix(ts: seq<Tlv>, k: nat)
    requires k < |ts|
    ensures |EncodeAll(ts[..k])| + |Encode(ts[k])| == |EncodeAll(ts[..k + 1])| <= |EncodeAll(ts)|
    ensures EncodeAll(ts)[|EncodeAll(ts[..k])|..|EncodeAll(ts[..k + 1])|] == Encode(ts[k])
  {
    assert ts[..k + 1][..k] == ts[..k];
    EncodeTake(ts, k + 1);
  }

  lemma {:induction false} EncodeTake(ts: seq<Tlv>, k: nat)
    requires k <= |ts|
    ensures |EncodeAll(ts[..k])| <= |EncodeAll(ts)|
    ensures EncodeAll(ts)[..|EncodeAll(ts[..k])|] == EncodeAll(ts[..k])
  {
    if k == |ts| {
      assert ts[..k] == ts;
    } else {
      var s := ts[..|ts| - 1];
      EncodeTake(s, k);
      assert s[..k] == ts[..k];
    }
  }

  datatype Option<T> = None | Some(value: T)

  lemma FieldBits(f: bv8, m: bv8)
    requires f < 128 && m < 2
    ensures ((f << 1) | m) >> 1 == f
  {
  }

  class Builder {
    const key: array<bv8>
    const mask: array<bv8>
    var tag: bv16
    var tagMask: bv16
    var scratch: Scratch

    ghost predicate Valid() { key.Length == KEY_BYTES && mask.Length == KEY_BYTES && key != mask }

    ghost function Value(): Rule
      requires Valid()
      reads this, key, mask
    {
      Rule(key[..], mask[..], tag, tagMask, scratch)
    }

    constructor ()
      ensures Valid() && Value() == BLANK && fresh(key) && fresh(mask)
    {
      tag, tagMask, scratch := 0, 0, Scratch(0, 0, 0, 0, 0, 0);
      var k := new bv8[KEY_BYTES](_ => 0);
      var m := new bv8[KEY_BYTES](_ => 0);
      key, mask := k, m;
      new;
      assert key[..] == NO_KEY && mask[..] == NO_KEY;
    }

    method SetField(at: nat, v: seq<bv8>)
      requires Valid() && at + |v| <= KEY_BYTES
      modifies key, mask
      ensures Value() == WithField(old(Value()), at, v)
    {
      Oxm2Rule(key, at, v);
      SetOnes(mask, at, |v|);
    }

    method SetTransport(at: nat, v: seq<bv8>)
      requires Valid() && at + |v| <= KEY_BYTES
      modifies key
      ensures Value() == WithTransport(old(Value()), at, v)
    {
      Oxm2Rule(key, at, v);
    }

    method SetPort(port: bv8)
      requires Valid()
      modifies key, mask
      ensures Value() == WithPort(old(Value()), port)
    {
      key[PORT] := (key[PORT] & 0x0F) | (port << 4);
      mask[PORT] := mask[PORT] | 0xF0;
    }

    method SetTos(bits: bv8, maskBits: bv8)
      requires Valid()
      modifies key, mask
      ensures Value() == WithTos(old(Value()), bits, maskBits)
    {
      key[TOS] := key[TOS] | bits;
      mask[TOS] := mask[TOS] | maskBits;
    }

    method SetTag(bits: bv16, maskBits: bv16)
      requires Valid()
      modifies this, key, mask
      ensures Value() == WithTag(old(Value()), bits, maskBits)
    {
      hide Bytes16;
      tag := tag | bits;
      tagMask := tagMask | maskBits;
      StorePair(key, Bytes16(tag));
      StorePair(mask, Bytes16(tagMask));
    }

    method StorePair(dst: array<bv8>, pair: seq<bv8>)
      requires dst.Length == KEY_BYTES && |pair| == 2
      modifies dst
      ensures dst[..] == Put(old(dst[..]), TCI, pair)
    {
      dst[TCI], dst[TCI + 1] := pair[0], pair[1];
    }

    /** memcpy to the variable of a field. */
    method Copy(field: bv8, v: seq<bv8>)
      requires Valid()
      modifies `scratch
      ensures Value() == old(Value()).(scratch := CopiedTo(old(Value()).scratch, field, v))
      ensures scratch == Value().scratch
    {
      scratch := CopiedTo(scratch, field, v);
    }

    /** The switch over TLV fields; false for a field the hardware cannot match on. */
    method Take(field: bv8, v: seq<bv8>, ghost t: Tlv) returns (known: bool)
      requires Valid() && t.field == field && t.value == v && (Supported(field) ==> Fits(t))
      modifies this, key, mask
      ensures known == Supported(field)
      ensures Value() == if known then Apply(old(Value()), t) else old(Value())
    {
      hide WithField, WithTransport, WithPort, WithTos, WithTag, Value, Join16, Copied;
      known := true;
      if field == IN_PORT {
        Copy(field, v);
        SetPort(scratch.port);
      } else if field == ETH_DST {
        SetField(DMAC, v);
      } else if field == ETH_SRC {
        SetField(SMAC, v);
      } else if field == VLAN_VID {
        Copy(field, v);
        SetTag(Join16(scratch.vid, scratch.vidHigh) & 0xFFF, 0xFFF);
      } else if field == VLAN_PCP {
        Copy(field, v);
        SetTag((scratch.pcp as bv16 & 0xF) << 13, 0xE000);
      } else if field == ETH_TYPE {
        SetField(TYPE, v);
      } else if field == IP_DSCP {
        Copy(field, v);
        SetTos(scratch.dscp << 2, 0xFC);
      } else if field == IP_ECN {
        Copy(field, v);
        SetTos(scratch.ecn, 0x03);
      } else if field == IP_PROTO {
        SetField(PROTO, v);
      } else if field == OXM_IPV4_SRC {
        SetField(IPV4_SRC, v);
      } else if field == OXM_IPV4_DST {
        SetField(IPV4_DST, v);
      } else if field == OXM_IPV6_SRC {
        SetField(IPV6_SRC, v);
      } else if field == OXM_IPV6_DST {
        SetField(IPV6_DST, v);
      } else if field == TCP_SRC || field == UDP_SRC {
        var ipv4 := TypeIsIpv4();
        SetTransport(if ipv4 then IPV4_SPORT else IPV6_SPORT, v);
      } else if field == TCP_DST || field == UDP_DST {
        var ipv4 := TypeIsIpv4();
        SetTransport(if ipv4 then IPV4_DPORT else IPV6_DPORT, v);
      } else {
        known := false;
      }
    }

    method TypeIsIpv4() returns (yes: bool)
      requires Valid()
      ensures yes == IsIpv4(Value().key)
    {
      yes := key[TYPE] == 0x00 && key[TYPE + 1] == 0x08;
    }
  }

  // ---------------------------------------------------------------- the walk

  /** A list the walk can take: framed TLVs, with room for the value where the switch knows the field. */
  predicate Walkable(ts: seq<Tlv>) {
    forall k :: 0 <= k < |ts| ==> ts[k].WellFormed() && (Supported(ts[k].field) ==> Fits(ts[k]))
  }

  predicate AllSupported(ts: seq<Tlv>) {
    forall k :: 0 <= k < |ts| ==> Supported(ts[k].field)
  }

  lemma HeaderAt(ts: seq<Tlv>, bytes: seq<bv8>, k: nat, oft: nat)
    requires k < |ts| && ts[k].WellFormed() && EncodeAll(ts) <= bytes && oft == |EncodeAll(ts[..k])|
    ensures oft + OXM_HEADER + |ts[k].value| == |EncodeAll(ts[..k + 1])| <= |EncodeAll(ts)| <= |bytes|
    ensures bytes[oft + 2] >> 1 == ts[k].field && bytes[oft + 3] as nat == |ts[k].value|
    ensures bytes[oft + OXM_HEADER..oft + OXM_HEADER + |ts[k].value|] == ts[k].value
  {
    hide EncodeAll;
    EncodePrefix(ts, k);
    var e := Encode(ts[k]);
    var all := EncodeAll(ts);
    var end := oft + |e|;
    assert bytes[oft..end] == e by { assert bytes[..|all|] == all; assert bytes[..|all|][oft..end] == bytes[oft..end]; }
    assert bytes[oft + 2] == bytes[oft..end][2] && bytes[oft + 3] == bytes[oft..end][3];
    FieldBits(ts[k].field, if ts[k].masked then 1 else 0);
    assert bytes[oft + OXM_HEADER..end] == bytes[oft..end][OXM_HEADER..];
  }

  /** The TLV walk: matchLength is the length field of the match, which counts its own four
      bytes; bytes starts at the first TLV and may run on into the instructions. */
  method Walk(bytes: seq<bv8>, matchLength: nat, ghost ts: seq<Tlv>) returns (b: Builder, known: bool, oft: nat)
    requires Walkable(ts) && EncodeAll(ts) <= bytes && matchLength == 4 + |EncodeAll(ts)|
    ensures b.Valid() && fresh(b) && fresh(b.key) && fresh(b.mask)
    ensures known <==> AllSupported(ts)
    ensures known ==> b.Value() == Compile(ts) && oft == matchLength - 4
  {
    hide EncodeAll, Apply, Compile, Supported, Fits, Encode, AllFit;
    b := new Builder();
    known, oft := true, 0;
    ghost var k := 0;
    EmptyList();
    assert ts[..0] == [];
    assert ts[..|ts|] == ts;
    while matchLength - 2 - 2 > oft
      invariant k <= |ts| && oft == |EncodeAll(ts[..k])| <= matchLength - 4
      invariant AllFit(ts[..k]) && AllSupported(ts[..k])
      invariant b.Valid() && b.Value() == Compile(ts[..k])
      invariant fresh(b) && fresh(b.key) && fresh(b.mask)
      decreases matchLength - oft
    {
      HeaderAt(ts, bytes, k, oft);
      var field, length := bytes[oft + 2] >> 1, bytes[oft + 3] as nat;
      known := b.Take(field, bytes[oft + OXM_HEADER..oft + OXM_HEADER + length], ts[k]);
      if !known {
        return;
      }
      CompileNext(ts, k);
      oft, k := oft + OXM_HEADER + length, k + 1;
    }
    if k < |ts| { HeaderAt(ts, bytes, k, oft); }
  }

  lemma EmptyList()
    ensures EncodeAll([]) == [] && AllFit([]) && Compile([]) == BLANK
  {
  }

  lemma CompileNext(ts: seq<Tlv>, k: nat)
    requires k < |ts| && Walkable(ts) && AllFit(ts[..k]) && AllSupported(ts[..k]) && Supported(ts[k].field)
    ensures AllFit(ts[..k + 1]) && AllSupported(ts[..k + 1])
    ensures Fits(ts[k]) && Compile(ts[..k + 1]) == Apply(Compile(ts[..k]), ts[k])
  {
    hide Apply, Supported;
    assert ts[..k + 1] == ts[..k] + [ts[k]];
    assert ts[..k + 1][..k] == ts[..k];
  }
}

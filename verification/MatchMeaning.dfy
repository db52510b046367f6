/** What a compiled match means: the key taken from a frame (sw_lookup_exec) agrees with a
    compiled rule under its mask exactly when the frame has every field value the OpenFlow
    match asks for. */
module MatchMeaning {
  import opened RuleMatch
  import opened FlowMatch

  const ETHERNET_HEADER: nat := 14
  const IPV4_HEADER: nat := 20
  const IPV6_HEADER: nat := 40

  // ---------------------------------------------------------------- frames

  predicate EtherType(frame: seq<bv8>, high: bv8, low: bv8)
    requires |frame| >= ETHERNET_HEADER
  {
    frame[12] == high && frame[13] == low
  }

  predicate Ipv4(frame: seq<bv8>)
    requires |frame| >= ETHERNET_HEADER
  {
    EtherType(frame, 0x08, 0x00)
  }

  predicate Ipv6(frame: seq<bv8>)
    requires |frame| >= ETHERNET_HEADER
  {
    EtherType(frame, 0x86, 0xDD)
  }

  predicate Arp(frame: seq<bv8>)
    requires |frame| >= ETHERNET_HEADER
  {
    EtherType(frame, 0x08, 0x06)
  }

  /** The headers the extraction reads are there. */
  predicate Complete(frame: seq<bv8>) {
    && |frame| >= ETHERNET_HEADER
    && (Ipv4(frame) ==> |frame| >= ETHERNET_HEADER + IPV4_HEADER)
    && (Ipv6(frame) ==> |frame| >= ETHERNET_HEADER + IPV6_HEADER)
  }

  predicate Has(frame: seq<bv8>, f: bv8)
    requires Complete(frame) && Exact(f)
  {
    var ipv4, ipv6 := frame[12] == 0x08 && frame[13] == 0x00, frame[12] == 0x86 && frame[13] == 0xDD;
    if f == 11 || f == 12 then ipv4
    else if f == 26 || f == 27 then ipv6
    else if f == 10 then ipv4 || ipv6
    else true
  }

  /** Where the Ethernet, IPv4 and IPv6 headers keep a field. */
  function Place(frame: seq<bv8>, f: bv8): nat
    requires Complete(frame) && Exact(f) && Has(frame, f)
  {
    if f == 3 then 0
    else if f == 4 then 6
    else if f == 5 then 12
    else if f == 10 then if frame[12] == 0x08 then 23 else 20
    else if f == 11 then 26
    else if f == 12 then 30
    else if f == 26 then 22
    else 38
  }

  /** The bytes a field takes in a frame. */
  function Span(f: bv8): nat {
    if f == 3 || f == 4 then 6 else if f == 5 then 2 else if f == 10 then 1 else if f == 11 || f == 12 then 4 else 16
  }

  function FieldOf(frame: seq<bv8>, f: bv8): (r: seq<bv8>)
    requires Complete(frame) && Exact(f) && Has(frame, f)
    ensures |r| == Width(f)
  {
    frame[Place(frame, f)..Place(frame, f) + Span(f)]
  }

  /** What OpenFlow means by a frame meeting one TLV of a match. */
  predicate Meets(frame: seq<bv8>, t: Tlv)
    requires Complete(frame) && Exact(t.field)
  {
    Has(frame, t.field) && FieldOf(frame, t.field) == t.value
  }

  // ---------------------------------------------------------------- the key of a frame

  function LinkKey(frame: seq<bv8>, port: bv8): Key
    requires Complete(frame)
  {
    Put(Put(Put(Put(NO_KEY, DMAC, Reversed(frame[0..6])), SMAC, Reversed(frame[6..12])),
            TYPE, Reversed(frame[12..14])), PORT, [port << 4])
  }

  function AddressKey(key: Key, at: nat, width: nat, frame: seq<bv8>, from: nat, next: bv8): Key
    requires at + 2 * width <= KEY_BYTES && from + 2 * width <= |frame|
  {
    Put(Put(Put(key, at, Reversed(frame[from..from + width])),
            at + width, Reversed(frame[from + width..from + 2 * width])), PROTO, [next])
  }

  /** None for a frame that is not looked up. */
  function FrameKey(frame: seq<bv8>, port: bv8): Option<Key>
    requires Complete(frame)
  {
    var link := LinkKey(frame, port);
    if Ipv4(frame) then Some(AddressKey(link, IPV4_SRC, 4, frame, 26, frame[23]))
    else if Ipv6(frame) then Some(AddressKey(link, IPV6_SRC, 16, frame, 22, frame[20]))
    else if Arp(frame) then Some(link)
    else None
  }

  method SetLink(key: array<bv8>, frame: seq<bv8>, port: bv8)
    requires Complete(frame) && key.Length == KEY_BYTES && key[..] == NO_KEY
    modifies key
    ensures key[..] == LinkKey(frame, port)
  {
    Oxm2Rule(key, DMAC, frame[0..6]);
    Oxm2Rule(key, SMAC, frame[6..12]);
    SetType(key, frame);
    ghost var was := key[..];
    key[PORT] := port << 4;
    assert key[..] == Put(was, PORT, [port << 4]);
  }

  /** The type goes through ntohs and lands in the key low byte first. */
  method SetType(key: array<bv8>, frame: seq<bv8>)
    requires Complete(frame) && key.Length == KEY_BYTES
    modifies key
    ensures key[..] == Put(old(key[..]), TYPE, Reversed(frame[12..14]))
  {
    key[TYPE], key[TYPE + 1] := frame[13], frame[12];
  }

  method SetAddresses(key: array<bv8>, at: nat, width: nat, frame: seq<bv8>, from: nat, next: bv8)
    requires key.Length == KEY_BYTES && at + 2 * width <= KEY_BYTES && from + 2 * width <= |frame|
    modifies key
    ensures key[..] == AddressKey(old(key[..]), at, width, frame, from, next)
  {
    hide Put, Reversed;
    Oxm2Rule(key, at, frame[from..from + width]);
    Oxm2Rule(key, at + width, frame[from + width..from + 2 * width]);
    ghost var was := key[..];
    key[PROTO] := next;
    PutIsUpdate(was, PROTO, next);
  }

  lemma PutIsUpdate(key: Key, at: nat, b: bv8)
    requires at < KEY_BYTES
    ensures Put(key, at, [b]) == key[at := b]
  {
  }

  method ExtractKey(frame: seq<bv8>, port: bv8) returns (r: Option<Key>)
    requires Complete(frame)
    ensures r == FrameKey(frame, port)
    ensures r == None <==> !(frame[12] == 0x08 && (frame[13] == 0x00 || frame[13] == 0x06))
                           && !(frame[12] == 0x86 && frame[13] == 0xDD)
  {
    hide LinkKey, AddressKey, NO_KEY;
    var key := new bv8[KEY_BYTES](_ => 0);
    BlankKey(key[..]);
    SetLink(key, frame, port);
    if Ipv4(frame) {
      SetAddresses(key, IPV4_SRC, 4, frame, 26, frame[23]);
    } else if Ipv6(frame) {
      SetAddresses(key, IPV6_SRC, 16, frame, 22, frame[20]);
    } else if !Arp(frame) {
      return None;
    }
    return Some(key[..]);
  }

  lemma BlankKey(s: Key)
    requires forall j :: 0 <= j < KEY_BYTES ==> s[j] == 0
    ensures s == NO_KEY
  {
  }

  // ---------------------------------------------------------------- regions of a key

  predicate Holds(key: Key, at: nat, v: seq<bv8>)
    requires at + |v| <= KEY_BYTES
  {
    key[at..at + |v|] == v
  }

  lemma PutHolds(key: Key, at: nat, v: seq<bv8>)
    requires at + |v| <= KEY_BYTES
    ensures Holds(Put(key, at, v), at, v)
  {
  }

  lemma PutKeeps(key: Key, at: nat, v: seq<bv8>, other: nat, w: seq<bv8>)
    requires at + |v| <= KEY_BYTES && other + |w| <= KEY_BYTES && Holds(key, other, w)
    requires at + |v| <= other || other + |w| <= at
    ensures Holds(Put(key, at, v), other, w)
  {
    var after := Put(key, at, v);
    assert forall j :: other <= j < other + |w| ==> after[j] == key[j];
  }

  /** The whole key of a frame, byte by byte: the link header and the port, then for IPv4 and IPv6
      the protocol and the addresses, each field last byte first, and zeros. */
  lemma KeyLayout(frame: seq<bv8>, port: bv8)
    requires Complete(frame) && FrameKey(frame, port).Some?
    ensures var k := FrameKey(frame, port).value;
            var ipv4, ipv6 := frame[12] == 0x08 && frame[13] == 0x00, frame[12] == 0x86 && frame[13] == 0xDD;
            && (forall i :: 0 <= i < 6 ==> k[i] == frame[5 - i]) && (forall i :: 6 <= i < 12 ==> k[i] == frame[17 - i])
            && k[14] == frame[13] && k[15] == frame[12] && k[19] == port << 4
            && k[12] == k[13] == k[17] == k[18] == 0
            && k[16] == (if ipv4 then frame[23] else if ipv6 then frame[20] else 0)
            && (ipv4 ==> (forall i :: 20 <= i < 24 ==> k[i] == frame[49 - i])
                         && (forall i :: 24 <= i < 28 ==> k[i] == frame[57 - i])
                         && forall i :: 28 <= i < 64 ==> k[i] == 0)
            && (ipv6 ==> (forall i :: 20 <= i < 36 ==> k[i] == frame[57 - i])
                         && (forall i :: 36 <= i < 52 ==> k[i] == frame[89 - i])
                         && forall i :: 52 <= i < 64 ==> k[i] == 0)
            && (!ipv4 && !ipv6 ==> forall i :: 20 <= i < 64 ==> k[i] == 0)
  {
    hide AddressKey, LinkKey;
    LinkLayout(frame, port);
    var link := LinkKey(frame, port);
    if Ipv4(frame) {
      AddressLayout(link, 20, 4, frame, 26, frame[23]);
    } else if Ipv6(frame) {
      AddressLayout(link, 20, 16, frame, 22, frame[20]);
    }
  }

  /** One field of the frame put into a key. */
  lemma Piece(key: Key, at: nat, frame: seq<bv8>, from: nat, w: nat)
    requires at + w <= 64 && from + w <= |frame|
    ensures var k := Put(key, at, Reversed(frame[from..from + w]));
            forall j :: 0 <= j < 64 ==> k[j] == if at <= j < at + w then frame[from + w - 1 - (j - at)] else key[j]
  {
    hide Put, Reversed;
  }

  lemma LinkLayout(frame: seq<bv8>, port: bv8)
    requires Complete(frame)
    ensures var k := LinkKey(frame, port);
            && (forall i :: 0 <= i < 6 ==> k[i] == frame[5 - i]) && (forall i :: 6 <= i < 12 ==> k[i] == frame[17 - i])
            && k[14] == frame[13] && k[15] == frame[12] && k[19] == port << 4
            && k[12] == k[13] == k[16] == k[17] == k[18] == 0 && forall i :: 20 <= i < 64 ==> k[i] == 0
  {
    hide Put, Reversed, NO_KEY;
    var k1 := Put(NO_KEY, 0, Reversed(frame[0..6]));
    var k2 := Put(k1, 6, Reversed(frame[6..12]));
    var k3 := Put(k2, 14, Reversed(frame[12..14]));
    NoKey();
    Piece(NO_KEY, 0, frame, 0, 6);
    Piece(k1, 6, frame, 6, 6);
    Piece(k2, 14, frame, 12, 2);
    assert LinkKey(frame, port) == Put(k3, 19, [port << 4]);
  }

  lemma NoKey()
    ensures forall j :: 0 <= j < 64 ==> NO_KEY[j] == 0
  {
  }

  lemma AddressLayout(key: Key, at: nat, width: nat, frame: seq<bv8>, from: nat, next: bv8)
    requires 20 <= at && at + 2 * width <= 64 && from + 2 * width <= |frame|
    ensures var k := AddressKey(key, at, width, frame, from, next);
            && (forall i :: at <= i < at + width ==> k[i] == frame[from + width - 1 - (i - at)])
            && (forall i :: at + width <= i < at + 2 * width ==> k[i] == frame[from + 2 * width - 1 - (i - at - width)])
            && k[16] == next
            && forall i :: 0 <= i < 64 && i != 16 && !(at <= i < at + 2 * width) ==> k[i] == key[i]
  {
    hide Put, Reversed;
    var k1 := Put(key, at, Reversed(frame[from..from + width]));
    var k2 := Put(k1, at + width, Reversed(frame[from + width..from + 2 * width]));
    Piece(key, at, frame, from, width);
    Piece(k1, at + width, frame, from + width, width);
    assert AddressKey(key, at, width, frame, from, next) == Put(k2, 16, [next]);
  }

  /** The key of a frame holds each field the frame has, last byte first. */
  lemma KeyHoldsField(frame: seq<bv8>, port: bv8, f: bv8)
    requires Complete(frame) && Exact(f) && Has(frame, f) && FrameKey(frame, port).Some?
    ensures Holds(FrameKey(frame, port).value, Offset(f), Reversed(FieldOf(frame, f)))
  {
    hide LinkKey, AddressKey, Holds, Put, Reversed, NO_KEY;
    var link := LinkKey(frame, port);
    LinkHolds(frame, port);
    if Ipv4(frame) {
      AddressHolds(link, IPV4_SRC, 4, frame, 26, frame[23]);
      assert frame[23..24] == [frame[23]];
      AddressKeeps(link, IPV4_SRC, 4, frame, 26, frame[23], DMAC, Reversed(frame[0..6]));
      AddressKeeps(link, IPV4_SRC, 4, frame, 26, frame[23], SMAC, Reversed(frame[6..12]));
      AddressKeeps(link, IPV4_SRC, 4, frame, 26, frame[23], TYPE, Reversed(frame[12..14]));
    } else if Ipv6(frame) {
      AddressHolds(link, IPV6_SRC, 16, frame, 22, frame[20]);
      assert frame[20..21] == [frame[20]];
      AddressKeeps(link, IPV6_SRC, 16, frame, 22, frame[20], DMAC, Reversed(frame[0..6]));
      AddressKeeps(link, IPV6_SRC, 16, frame, 22, frame[20], SMAC, Reversed(frame[6..12]));
      AddressKeeps(link, IPV6_SRC, 16, frame, 22, frame[20], TYPE, Reversed(frame[12..14]));
    }
  }

  lemma LinkHolds(frame: seq<bv8>, port: bv8)
    requires Complete(frame)
    ensures Holds(LinkKey(frame, port), DMAC, Reversed(frame[0..6]))
    ensures Holds(LinkKey(frame, port), SMAC, Reversed(frame[6..12]))
    ensures Holds(LinkKey(frame, port), TYPE, Reversed(frame[12..14]))
  {
    hide Holds, Put, Reversed, NO_KEY;
    var d, s, t, p := Reversed(frame[0..6]), Reversed(frame[6..12]), Reversed(frame[12..14]), [port << 4];
    var k1 := Put(NO_KEY, DMAC, d);
    var k2 := Put(k1, SMAC, s);
    var k3 := Put(k2, TYPE, t);
    PutHolds(NO_KEY, DMAC, d);
    PutHolds(k1, SMAC, s);
    PutHolds(k2, TYPE, t);
    PutKeeps(k1, SMAC, s, DMAC, d);
    PutKeeps(k2, TYPE, t, DMAC, d);
    PutKeeps(k2, TYPE, t, SMAC, s);
    PutKeeps(k3, PORT, p, DMAC, d);
    PutKeeps(k3, PORT, p, SMAC, s);
    PutKeeps(k3, PORT, p, TYPE, t);
  }

  lemma AddressHolds(key: Key, at: nat, width: nat, frame: seq<bv8>, from: nat, next: bv8)
    requires IPV4_SRC <= at && at + 2 * width <= KEY_BYTES && from + 2 * width <= |frame|
    ensures var r := AddressKey(key, at, width, frame, from, next);
            && Holds(r, at, Reversed(frame[from..from + width]))
            && Holds(r, at + width, Reversed(frame[from + width..from + 2 * width]))
            && Holds(r, PROTO, Reversed([next]))
  {
    hide Holds, Put, Reversed;
    var x, y := Reversed(frame[from..from + width]), Reversed(frame[from + width..from + 2 * width]);
    var k1 := Put(key, at, x);
    var k2 := Put(k1, at + width, y);
    PutHolds(key, at, x);
    PutKeeps(k1, at + width, y, at, x);
    PutHolds(k1, at + width, y);
    PutKeeps(k2, PROTO, [next], at, x);
    PutKeeps(k2, PROTO, [next], at + width, y);
    PutHolds(k2, PROTO, [next]);
    assert Reversed([next]) == [next];
  }

  lemma AddressKeeps(key: Key, at: nat, width: nat, frame: seq<bv8>, from: nat, next: bv8, other: nat, w: seq<bv8>)
    requires IPV4_SRC <= at && at + 2 * width <= KEY_BYTES && from + 2 * width <= |frame|
    requires other + |w| <= PROTO && Holds(key, other, w)
    ensures Holds(AddressKey(key, at, width, frame, from, next), other, w)
  {
    hide Holds, Put, Reversed;
    var x, y := Reversed(frame[from..from + width]), Reversed(frame[from + width..from + 2 * width]);
    var k1 := Put(key, at, x);
    var k2 := Put(k1, at + width, y);
    PutKeeps(key, at, x, other, w);
    PutKeeps(k1, at + width, y, other, w);
    PutKeeps(k2, PROTO, [next], other, w);
  }

  // ---------------------------------------------------------------- well-formed matches

  predicate Ipv4Field(f: bv8) { f == OXM_IPV4_SRC || f == OXM_IPV4_DST }

  predicate Ipv6Field(f: bv8) { f == OXM_IPV6_SRC || f == OXM_IPV6_DST }

  predicate SaysType(t: Tlv, high: bv8, low: bv8) { t.field == ETH_TYPE && t.value == [high, low] }

  /** An earlier TLV fixes the Ethernet type to the one given. */
  predicate TypeBefore(ts: seq<Tlv>, k: nat, high: bv8, low: bv8)
    requires k <= |ts|
  {
    exists i :: 0 <= i < k && SaysType(ts[i], high, low)
  }

  /** The prerequisites of the specification for the fields of the theorem. */
  predicate Prerequisites(ts: seq<Tlv>) {
    forall k :: 0 <= k < |ts| ==>
      && (Ipv4Field(ts[k].field) ==> TypeBefore(ts, k, 0x08, 0x00))
      && (Ipv6Field(ts[k].field) ==> TypeBefore(ts, k, 0x86, 0xDD))
      && (ts[k].field == IP_PROTO ==> TypeBefore(ts, k, 0x08, 0x00) || TypeBefore(ts, k, 0x86, 0xDD))
  }

  predicate Distinct(ts: seq<Tlv>) {
    forall i, k :: 0 <= i < k < |ts| ==> ts[i].field != ts[k].field
  }

  predicate Matchable(ts: seq<Tlv>) {
    && AllStandard(ts) && Distinct(ts) && Prerequisites(ts)
    && forall k :: 0 <= k < |ts| ==> Exact(ts[k].field) || TransportPort(ts[k].field) || ts[k].field == IN_PORT
  }

  lemma MatchablePrefix(ts: seq<Tlv>, n: nat)
    requires Matchable(ts) && n <= |ts|
    ensures Matchable(ts[..n])
  {
    hide Standard, Exact, TransportPort;
    forall k | 0 <= k < n
      ensures Ipv4Field(ts[k].field) ==> TypeBefore(ts[..n], k, 0x08, 0x00)
      ensures Ipv6Field(ts[k].field) ==> TypeBefore(ts[..n], k, 0x86, 0xDD)
      ensures ts[k].field == IP_PROTO ==> TypeBefore(ts[..n], k, 0x08, 0x00) || TypeBefore(ts[..n], k, 0x86, 0xDD)
    {
      TypeBeforePrefix(ts, n, k, 0x08, 0x00);
      TypeBeforePrefix(ts, n, k, 0x86, 0xDD);
    }
  }

  lemma TypeBeforePrefix(ts: seq<Tlv>, n: nat, k: nat, high: bv8, low: bv8)
    requires k <= n <= |ts|
    ensures TypeBefore(ts, k, high, low) <==> TypeBefore(ts[..n], k, high, low)
  {
    if TypeBefore(ts, k, high, low) {
      var i :| 0 <= i < k && SaysType(ts[i], high, low);
      assert SaysType(ts[..n][i], high, low);
    }
  }

  /** A match never mixes IPv4 and IPv6 fields. */
  lemma OneFamily(ts: seq<Tlv>, i: nat, k: nat)
    requires Matchable(ts) && i < |ts| && k < |ts| && Ipv4Field(ts[i].field)
    ensures !Ipv6Field(ts[k].field)
  {
    var a :| 0 <= a < i && SaysType(ts[a], 0x08, 0x00);
    NoOtherType(ts, a, k);
  }

  lemma NoOtherType(ts: seq<Tlv>, a: nat, k: nat)
    requires Distinct(ts) && a < |ts| && k <= |ts| && SaysType(ts[a], 0x08, 0x00)
    ensures !TypeBefore(ts, k, 0x86, 0xDD)
  {
    forall b | 0 <= b < k
      ensures !SaysType(ts[b], 0x86, 0xDD)
    {
      assert ts[a].value[0] == 0x08;
      assert ts[b].field == ETH_TYPE ==> a == b;
    }
  }

  predicate Apart(f: bv8, g: bv8)
    requires Exact(f) && Exact(g)
  {
    Offset(f) + Width(f) <= Offset(g) || Offset(g) + Width(g) <= Offset(f)
  }

  lemma FieldsApart(ts: seq<Tlv>, i: nat, k: nat)
    requires Matchable(ts) && i < k < |ts| && Exact(ts[i].field) && Exact(ts[k].field)
    ensures Apart(ts[i].field, ts[k].field)
  {
    hide Prerequisites, AllStandard;
    var f, g := ts[i].field, ts[k].field;
    assert f != g;
    if Ipv4Field(f) { OneFamily(ts, i, k); }
    if Ipv4Field(g) { OneFamily(ts, k, i); }
  }

  // ---------------------------------------------------------------- what compiling keeps

  predicate HasValue(key: Key, t: Tlv)
    requires Standard(t) && Exact(t.field)
  {
    Holds(key, Offset(t.field), Reversed(t.value))
  }

  predicate Covers(t: Tlv, j: nat) {
    Exact(t.field) && Offset(t.field) <= j < Offset(t.field) + Width(t.field)
  }

  predicate Covered(ts: seq<Tlv>, j: nat) {
    exists i :: 0 <= i < |ts| && Covers(ts[i], j)
  }

  /** The key keeps every exact value and the mask selects those bytes and, apart from the byte
      of the input port, no other. */
  predicate Faithful(r: Rule, ts: seq<Tlv>)
    requires AllStandard(ts)
  {
    && (forall i :: 0 <= i < |ts| && Exact(ts[i].field) ==> HasValue(r.key, ts[i]))
    && (forall j :: 0 <= j < KEY_BYTES && j != PORT ==> r.mask[j] == if Covered(ts, j) then 0xFF else 0)
  }

  predicate SaysPort(t: Tlv) { t.field == 0 }

  predicate AnyPort(ts: seq<Tlv>) { exists i :: 0 <= i < |ts| && SaysPort(ts[i]) }

  /** The port a value names, in the high nibble. */
  function PortNibble(t: Tlv): bv8
    requires Standard(t) && SaysPort(t)
  {
    t.value[3] << 4
  }

  /** The byte of the input port holds the port asked for, under a mask for its nibble, or
      nothing under an empty mask. */
  predicate PortFaithful(r: Rule, ts: seq<Tlv>)
    requires AllStandard(ts)
  {
    && (forall i :: 0 <= i < |ts| && SaysPort(ts[i]) ==> r.key[PORT] == PortNibble(ts[i]) && r.mask[PORT] == 0xF0)
    && (!AnyPort(ts) ==> r.key[PORT] == 0 && r.mask[PORT] == 0)
  }

  lemma {:induction false} CompilePort(ts: seq<Tlv>)
    requires Matchable(ts)
    ensures AllStandard(ts) && PortFaithful(Compile(ts), ts)
  {
    hide Matchable, Standard, Exact, TransportPort, Apply, SaysPort, PortNibble;
    MatchableIsStandard(ts);
    if ts != [] {
      var n := |ts| - 1;
      MatchablePrefix(ts, n);
      CompilePort(ts[..n]);
      ApplyPort(ts, Compile(ts[..n]));
    }
  }

  lemma ApplyPort(ts: seq<Tlv>, r: Rule)
    requires Matchable(ts) && AllStandard(ts) && ts != [] && PortFaithful(r, ts[..|ts| - 1])
    ensures PortFaithful(Apply(r, ts[|ts| - 1]), ts)
  {
    hide Prerequisites, Apply, Fits, Exact, TransportPort, Width, PortNibble;
    var n := |ts| - 1;
    var t := ts[n];
    var u := Apply(r, t);
    if SaysPort(t) {
      assert forall i :: 0 <= i < n ==> !SaysPort(ts[..n][i]);
      PortSet(r, t);
    } else {
      OthersKeepPort(r, t);
      assert forall i :: 0 <= i < n ==> ts[..n][i] == ts[i];
      if AnyPort(ts[..n]) {
        var i :| 0 <= i < n && SaysPort(ts[..n][i]);
        assert SaysPort(ts[i]);
      }
    }
  }

  lemma PortSet(r: Rule, t: Tlv)
    requires Standard(t) && SaysPort(t) && r.key[PORT] == 0 && r.mask[PORT] == 0
    ensures Apply(r, t).key[PORT] == PortNibble(t) && Apply(r, t).mask[PORT] == 0xF0
  {
    PortBits(t.value[3]);
  }

  lemma OthersKeepPort(r: Rule, t: Tlv)
    requires Standard(t) && (Exact(t.field) || TransportPort(t.field))
    ensures Apply(r, t).key[PORT] == r.key[PORT] && Apply(r, t).mask[PORT] == r.mask[PORT]
  {
    hide Reversed, Ones;
  }

  lemma PortBits(v: bv8)
    ensures (0 & 0x0F) | (v << 4) == v << 4 && 0 | 0xF0 == 0xF0 as bv8
  {
  }

  lemma {:induction false} CompileFaithful(ts: seq<Tlv>)
    requires Matchable(ts)
    ensures Faithful(Compile(ts), ts)
  {
    hide Matchable, Standard, Exact, TransportPort, Apply, HasValue, Covered;
    MatchableIsStandard(ts);
    if ts == [] {
      NothingCovered();
    } else {
      var n := |ts| - 1;
      var s := ts[..n];
      MatchablePrefix(ts, n);
      CompileFaithful(s);
      var r := Compile(s);
      forall i | 0 <= i < |ts| && Exact(ts[i].field)
        ensures HasValue(Apply(r, ts[n]).key, ts[i])
      {
        if i < n { assert s[i] == ts[i]; }
        ApplyKeeps(ts, r, i);
      }
      ApplyMask(ts, r);
    }
  }

  lemma MatchableIsStandard(ts: seq<Tlv>)
    requires Matchable(ts)
    ensures AllStandard(ts)
    ensures forall k :: 0 <= k < |ts| ==> Exact(ts[k].field) || TransportPort(ts[k].field) || ts[k].field == IN_PORT
  {
  }

  lemma NothingCovered()
    ensures Faithful(BLANK, [])
  {
  }

  /** One more TLV leaves the values written before it in place. */
  lemma ApplyKeeps(ts: seq<Tlv>, r: Rule, i: nat)
    requires Matchable(ts) && i < |ts| && Exact(ts[i].field)
    requires Faithful(r, ts[..|ts| - 1])
    ensures HasValue(Apply(r, ts[|ts| - 1]).key, ts[i])
  {
    hide Matchable, Covered, HasValue, Apply, Standard, Exact, TransportPort, AllFit, PortOffset, Width, Offset;
    MatchableIsStandard(ts);
    var n := |ts| - 1;
    var t := ts[n];
    if i == n {
      ExactHolds(r, t);
    } else {
      assert HasValue(r.key, ts[..n][i]);
      if Exact(t.field) {
        FieldsApart(ts, i, n);
      }
      if TransportPort(t.field) {
        TransportApart(ts, r, i);
      }
      ApartKeeps(r, t, ts[i]);
    }
  }

  lemma ExactHolds(r: Rule, t: Tlv)
    requires Standard(t) && Exact(t.field)
    ensures HasValue(Apply(r, t).key, t)
  {
    hide Put, Reversed, Holds;
    PutHolds(r.key, Offset(t.field), Reversed(t.value));
  }

  /** A TLV that writes elsewhere keeps a value. */
  lemma ApartKeeps(r: Rule, t: Tlv, u: Tlv)
    requires Standard(t) && Standard(u) && Exact(u.field) && HasValue(r.key, u)
    requires Exact(t.field) || TransportPort(t.field) || t.field == IN_PORT
    requires Exact(t.field) ==> Apart(u.field, t.field)
    requires TransportPort(t.field) ==> Clear(PortOffset(r.key, t.field), u.field)
    ensures HasValue(Apply(r, t).key, u)
  {
    hide Put, Reversed, Holds;
    PlaceOf(u);
    if Exact(t.field) {
      PutKeeps(r.key, Offset(t.field), Reversed(t.value), Offset(u.field), Reversed(u.value));
    } else if t.field == IN_PORT {
      PutKeeps(r.key, PORT, [(r.key[PORT] & 0x0F) | (t.value[3] << 4)], Offset(u.field), Reversed(u.value));
    } else {
      PutKeeps(r.key, PortOffset(r.key, t.field), Reversed(t.value), Offset(u.field), Reversed(u.value));
    }
  }

  /** Two bytes from `at` on are no part of field f. */
  predicate Clear(at: nat, f: bv8)
    requires Exact(f)
  {
    Offset(f) + Width(f) <= at || at + 2 <= Offset(f)
  }

  /** The port bytes a transport TLV writes belong to no exact field of the match. */
  lemma TransportApart(ts: seq<Tlv>, r: Rule, i: nat)
    requires Matchable(ts) && i < |ts| - 1 && Exact(ts[i].field) && TransportPort(ts[|ts| - 1].field)
    requires Faithful(r, ts[..|ts| - 1])
    ensures Clear(PortOffset(r.key, ts[|ts| - 1].field), ts[i].field)
  {
    hide Standard, Faithful, Reversed, Matchable, Covered;
    if Ipv6Field(ts[i].field) {
      Ipv6Type(ts, r, i);
    }
  }

  lemma Ipv6Type(ts: seq<Tlv>, r: Rule, i: nat)
    requires Matchable(ts) && i < |ts| - 1 && Ipv6Field(ts[i].field) && Faithful(r, ts[..|ts| - 1])
    ensures !IsIpv4(r.key)
  {
    hide Covered;
    assert TypeBefore(ts, i, 0x86, 0xDD);
    var a :| 0 <= a < i && SaysType(ts[a], 0x86, 0xDD);
    assert HasValue(r.key, ts[..|ts| - 1][a]);
    assert r.key[TYPE..TYPE + 2][0] == 0xDD;
  }

  lemma ApplyMask(ts: seq<Tlv>, r: Rule)
    requires Matchable(ts) && ts != [] && Faithful(r, ts[..|ts| - 1])
    ensures forall j :: 0 <= j < KEY_BYTES && j != PORT ==>
              Apply(r, ts[|ts| - 1]).mask[j] == if Covered(ts, j) then 0xFF else 0
  {
    hide HasValue;
    MatchableIsStandard(ts);
    var n := |ts| - 1;
    var t := ts[n];
    forall j | 0 <= j < KEY_BYTES && j != PORT
      ensures Apply(r, t).mask[j] == if Covered(ts, j) then 0xFF else 0
    {
      CoveredNext(ts, j);
      ApplyMaskAt(r, t, j);
    }
  }

  lemma ApplyMaskAt(r: Rule, t: Tlv, j: nat)
    requires Standard(t) && j < KEY_BYTES && j != PORT
    requires Exact(t.field) || TransportPort(t.field) || t.field == IN_PORT
    ensures Apply(r, t).mask[j] == if Covers(t, j) then 0xFF else r.mask[j]
  {
  }

  lemma CoveredNext(ts: seq<Tlv>, j: nat)
    requires ts != []
    ensures Covered(ts, j) <==> Covered(ts[..|ts| - 1], j) || Covers(ts[|ts| - 1], j)
  {
    var n := |ts| - 1;
    if Covered(ts, j) {
      var i :| 0 <= i < |ts| && Covers(ts[i], j);
      if i < n { assert Covers(ts[..n][i], j); }
    }
    if Covered(ts[..n], j) {
      var i :| 0 <= i < n && Covers(ts[..n][i], j);
      assert Covers(ts[i], j);
    }
  }

  // ---------------------------------------------------------------- the theorem

  /** The frame meets every exact TLV of the match. */
  predicate MeetsAll(frame: seq<bv8>, ts: seq<Tlv>)
    requires Complete(frame)
  {
    forall i :: 0 <= i < |ts| && Exact(ts[i].field) ==> Meets(frame, ts[i])
  }

  /** The port the lookup was made for is the one asked for, if one is. */
  predicate MeetsInPort(ts: seq<Tlv>, port: bv8)
    requires AllStandard(ts)
  {
    forall i :: 0 <= i < |ts| && SaysPort(ts[i]) ==> PortNibble(ts[i]) == port << 4
  }

  /** For a frame that is looked up, masked comparison of its key with the compiled rule
      decides the match; TCP and UDP port TLVs play no part in it. */
  lemma CompiledMatchMeans(ts: seq<Tlv>, frame: seq<bv8>, port: bv8)
    requires Matchable(ts) && Complete(frame) && FrameKey(frame, port).Some?
    ensures AllStandard(ts)
    ensures MaskedEqual(Compile(ts).key, FrameKey(frame, port).value, Compile(ts).mask)
            <==> MeetsAll(frame, ts) && MeetsInPort(ts, port)
  {
    hide *;
    MatchableIsStandard(ts);
    CompileFaithful(ts);
    CompilePort(ts);
    PortDecides(Compile(ts), ts, frame, port);
    MatchDecides(ts, Compile(ts), frame, port);
  }

  /** The same for any rule that keeps the values; its port byte is compared on its own. */
  lemma MatchDecides(ts: seq<Tlv>, r: Rule, frame: seq<bv8>, port: bv8)
    requires Matchable(ts) && AllStandard(ts) && Faithful(r, ts) && Complete(frame) && FrameKey(frame, port).Some?
    ensures MaskedEqual(r.key, FrameKey(frame, port).value, r.mask)
            <==> MeetsAll(frame, ts) && ByteMatches(r.key[PORT], port << 4, r.mask[PORT])
  {
    hide FrameKey, Faithful, MaskedEqual, KeyHasAll, Matchable, MeetsAll, ByteMatches, Complete, AllStandard;
    var key := FrameKey(frame, port).value;
    KeyHoldsPort(frame, port);
    MaskedMeansValues(r, ts, key);
    if KeyHasAll(key, ts) {
      KeyHasMeets(ts, frame, port);
    }
    if MeetsAll(frame, ts) {
      MeetsKeyHas(ts, frame, port);
    }
  }

  lemma KeyHoldsPort(frame: seq<bv8>, port: bv8)
    requires Complete(frame) && FrameKey(frame, port).Some?
    ensures FrameKey(frame, port).value[PORT] == port << 4
  {
    hide NO_KEY, Reversed;
  }

  lemma PortDecides(r: Rule, ts: seq<Tlv>, frame: seq<bv8>, port: bv8)
    requires AllStandard(ts) && PortFaithful(r, ts)
    ensures ByteMatches(r.key[PORT], port << 4, r.mask[PORT]) <==> MeetsInPort(ts, port)
  {
    hide ByteMatches, Standard, SaysPort, PortNibble;
    if AnyPort(ts) {
      var i :| 0 <= i < |ts| && SaysPort(ts[i]);
      NibbleMatches(ts[i], port);
    } else {
      EmptyByte(r.key[PORT], port << 4);
    }
  }

  lemma NibbleMatches(t: Tlv, port: bv8)
    requires Standard(t) && SaysPort(t)
    ensures ByteMatches(PortNibble(t), port << 4, 0xF0) <==> PortNibble(t) == port << 4
  {
    NibbleBits(t.value[3], port);
  }

  lemma NibbleBits(v: bv8, port: bv8)
    ensures ByteMatches(v << 4, port << 4, 0xF0) <==> v << 4 == port << 4
  {
  }

  predicate KeyHasAll(key: Key, ts: seq<Tlv>)
    requires AllStandard(ts)
  {
    forall i :: 0 <= i < |ts| && Exact(ts[i].field) ==> HasValue(key, ts[i])
  }

  /** Under a faithful mask two keys agree exactly when the second has every exact value too
      and the port bytes agree. */
  lemma MaskedMeansValues(r: Rule, ts: seq<Tlv>, key: Key)
    requires AllStandard(ts) && Faithful(r, ts)
    ensures MaskedEqual(r.key, key, r.mask) <==> KeyHasAll(key, ts) && ByteMatches(r.key[PORT], key[PORT], r.mask[PORT])
  {
    if MaskedEqual(r.key, key, r.mask) {
      forall i | 0 <= i < |ts| && Exact(ts[i].field)
        ensures HasValue(key, ts[i])
      {
        MaskedGivesValue(r, ts, key, i);
      }
    }
    if KeyHasAll(key, ts) && ByteMatches(r.key[PORT], key[PORT], r.mask[PORT]) {
      forall j | 0 <= j < KEY_BYTES
        ensures ByteMatches(r.key[j], key[j], r.mask[j])
      {
        if j != PORT { ValuesGiveByte(r, ts, key, j); }
      }
    }
  }

  lemma MaskedGivesValue(r: Rule, ts: seq<Tlv>, key: Key, i: nat)
    requires AllStandard(ts) && Faithful(r, ts) && MaskedEqual(r.key, key, r.mask)
    requires i < |ts| && Exact(ts[i].field)
    ensures HasValue(key, ts[i])
  {
    hide Covered, ByteMatches, Covers, Fits, Exact, Offset, Width, Reversed, Holds, AllFit;
    var t := ts[i];
    PlaceOf(t);
    assert HasValue(r.key, t);
    forall j | Offset(t.field) <= j < Offset(t.field) + |t.value|
      ensures key[j] == r.key[j]
    {
      CoversPlace(t, j);
      CoveredBy(ts, i, j);
      FullByte(r.key[j], key[j]);
    }
    SameBytes(r.key, key, Offset(t.field), Reversed(t.value));
  }

  /** An exact value stays between the byte of the input port and the end, or before that byte. */
  lemma PlaceOf(t: Tlv)
    requires Standard(t) && Exact(t.field)
    ensures Offset(t.field) + |t.value| <= KEY_BYTES
    ensures PORT < Offset(t.field) || Offset(t.field) + |t.value| <= PORT
  {
    hide Fits;
  }

  lemma CoversPlace(t: Tlv, j: nat)
    requires Standard(t) && Exact(t.field) && Offset(t.field) <= j < Offset(t.field) + |t.value|
    ensures Covers(t, j)
  {
    hide Fits, Exact, Offset, Width;
  }

  lemma SameBytes(a: Key, b: Key, at: nat, v: seq<bv8>)
    requires at + |v| <= KEY_BYTES && Holds(a, at, v) && forall j :: at <= j < at + |v| ==> b[j] == a[j]
    ensures Holds(b, at, v)
  {
    assert b[at..at + |v|] == a[at..at + |v|];
  }

  lemma CoveredBy(ts: seq<Tlv>, i: nat, j: nat)
    requires i < |ts| && Covers(ts[i], j)
    ensures Covered(ts, j)
  {
  }

  lemma ValuesGiveByte(r: Rule, ts: seq<Tlv>, key: Key, j: nat)
    requires AllStandard(ts) && Faithful(r, ts) && KeyHasAll(key, ts) && j < KEY_BYTES && j != PORT
    ensures ByteMatches(r.key[j], key[j], r.mask[j])
  {
    hide ByteMatches, HasValue;
    if Covered(ts, j) {
      var i :| 0 <= i < |ts| && Covers(ts[i], j);
      assert HasValue(key, ts[i]) && HasValue(r.key, ts[i]);
      SameValueByte(ts[i], r.key, key, j);
      FullByte(r.key[j], key[j]);
    } else {
      EmptyByte(r.key[j], key[j]);
    }
  }

  lemma SameValueByte(t: Tlv, a: Key, b: Key, j: nat)
    requires Standard(t) && Covers(t, j) && HasValue(a, t) && HasValue(b, t)
    ensures j < KEY_BYTES && a[j] == b[j]
  {
    hide Reversed;
    var at, v := Offset(t.field), Reversed(t.value);
    assert a[at..at + |v|][j - at] == b[at..at + |v|][j - at];
  }

  lemma FullByte(a: bv8, b: bv8)
    ensures ByteMatches(a, b, 0xFF) <==> a == b
  {
  }

  lemma EmptyByte(a: bv8, b: bv8)
    ensures ByteMatches(a, b, 0)
  {
  }

  lemma ReversedInjective(s: seq<bv8>, t: seq<bv8>)
    requires Reversed(s) == Reversed(t)
    ensures s == t
  {
    forall k | 0 <= k < |s|
      ensures s[k] == t[k]
    {
      assert Reversed(s)[|s| - 1 - k] == Reversed(t)[|s| - 1 - k];
    }
  }

  /** For a field the frame has, its key has a value exactly when the frame does. */
  lemma KeyValueIsField(t: Tlv, frame: seq<bv8>, port: bv8)
    requires Standard(t) && Exact(t.field) && Complete(frame) && Has(frame, t.field) && FrameKey(frame, port).Some?
    ensures HasValue(FrameKey(frame, port).value, t) <==> Meets(frame, t)
  {
    hide FrameKey, Reversed, Place, Has;
    var key := FrameKey(frame, port).value;
    KeyHoldsField(frame, port, t.field);
    if HasValue(key, t) {
      ReversedInjective(t.value, FieldOf(frame, t.field));
    }
  }

  lemma MeetsKeyHas(ts: seq<Tlv>, frame: seq<bv8>, port: bv8)
    requires AllStandard(ts) && Complete(frame) && FrameKey(frame, port).Some? && MeetsAll(frame, ts)
    ensures KeyHasAll(FrameKey(frame, port).value, ts)
  {
    hide FrameKey, HasValue, Has, FieldOf, Standard, Exact;
    forall i | 0 <= i < |ts| && Exact(ts[i].field)
      ensures HasValue(FrameKey(frame, port).value, ts[i])
    {
      KeyValueIsField(ts[i], frame, port);
    }
  }

  lemma KeyHasMeets(ts: seq<Tlv>, frame: seq<bv8>, port: bv8)
    requires Matchable(ts) && AllStandard(ts) && Complete(frame) && FrameKey(frame, port).Some?
    requires KeyHasAll(FrameKey(frame, port).value, ts)
    ensures MeetsAll(frame, ts)
  {
    hide FrameKey, HasValue, Has, FieldOf, Standard, Exact, Matchable, Meets;
    forall i | 0 <= i < |ts| && Exact(ts[i].field)
      ensures Meets(frame, ts[i])
    {
      PresentField(ts, frame, port, i);
      KeyValueIsField(ts[i], frame, port);
    }
  }

  /** The prerequisites make the frame have every field whose type TLV it meets. */
  lemma PresentField(ts: seq<Tlv>, frame: seq<bv8>, port: bv8, i: nat)
    requires Matchable(ts) && AllStandard(ts) && Complete(frame) && FrameKey(frame, port).Some?
    requires KeyHasAll(FrameKey(frame, port).value, ts) && i < |ts| && Exact(ts[i].field)
    ensures Has(frame, ts[i].field)
  {
    hide FrameKey, HasValue;
    if TypeBefore(ts, i, 0x08, 0x00) {
      TypeOfFrame(ts, frame, port, i, 0x08, 0x00);
    }
    if TypeBefore(ts, i, 0x86, 0xDD) {
      TypeOfFrame(ts, frame, port, i, 0x86, 0xDD);
    }
  }

  lemma TypeOfFrame(ts: seq<Tlv>, frame: seq<bv8>, port: bv8, i: nat, high: bv8, low: bv8)
    requires AllStandard(ts) && Complete(frame) && FrameKey(frame, port).Some?
    requires KeyHasAll(FrameKey(frame, port).value, ts) && i < |ts| && TypeBefore(ts, i, high, low)
    ensures EtherType(frame, high, low)
  {
    hide FrameKey, HasValue;
    var a :| 0 <= a < i && SaysType(ts[a], high, low);
    KeyValueIsField(ts[a], frame, port);
    assert Meets(frame, ts[a]);
    assert FieldOf(frame, ETH_TYPE) == [high, low];
    assert frame[12..14][0] == high && frame[12..14][1] == low;
  }
}

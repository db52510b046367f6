/** Flow modifications: the handlers that turn an OpenFlow flow_mod into a rule, an action
    register and a statistics record (handle_flow_mod_add and handle_flow_mod_delete). */
module FlowMod {
  import opened RuleMatch
  import opened RuleTable
  import M = FlowMatch
  import opened NetworkOrder

  datatype Command = Add | Modify | ModifyStrict | Delete | DeleteStrict

  /** A flow_mod; fields in network order are byte strings. instruction is the first
      instruction with its actions, or empty when the message ends with the match; rest is what
      follows it, which no handler reads. */
  datatype Message = Message(command: Command, cookie: seq<Byte>, cookieMask: bv64, priority: seq<Byte>,
                             timeouts: seq<Byte>, flags: seq<Byte>, fields: seq<M.Tlv>, instruction: seq<Byte>,
                             rest: seq<Byte>)

  /** Longer messages are read off the socket and dropped. */
  const LONGEST: nat := 1608

  const MATCH_HEADER: nat := 4
  const INSTRUCTION_HEADER: nat := 8
  const RECORD_HEADER: nat := 48
  const CONTROLLER: seq<Byte> := [0xFF, 0xFF, 0xFF, 0xFD]
  const TO_CONTROLLER: bv32 := 0x4000_0080
  const DEFAULT_SLOT: nat := 8
  const SLOTS: nat := 9

  function Zeros(n: nat): (r: seq<Byte>)
    ensures |r| == n && forall k :: 0 <= k < n ==> r[k] == 0
  {
    seq(n, _ => 0)
  }

  function RoundUp8(n: nat): (r: nat)
    ensures n <= r < n + 8 && r % 8 == 0
  {
    (n + 7) / 8 * 8
  }

  /** The match as it stands in the message, padded to eight bytes. */
  function MatchBytes(ts: seq<M.Tlv>): (r: seq<Byte>)
    requires |M.EncodeAll(ts)| + 8 < 0x10000
    ensures |r| == RoundUp8(MATCH_HEADER + |M.EncodeAll(ts)|)
  {
    hide M.EncodeAll;
    var n := MATCH_HEADER + |M.EncodeAll(ts)|;
    [0, 1] + Network(n) + ByteValues(M.EncodeAll(ts)) + Zeros(RoundUp8(n) - n)
  }

  // ---------------------------------------------------------------- actions

  /** The bytes from oft on are whole actions. */
  predicate ActionsFit(s: seq<Byte>, oft: nat)
    decreases |s| - oft
  {
    || oft == |s|
    || (oft + 8 <= |s| && Number(s, oft + 2) >= 8 && oft + Number(s, oft + 2) <= |s|
        && ActionsFit(s, oft + Number(s, oft + 2)))
  }

  predicate IsOutput(s: seq<Byte>, oft: nat)
    requires oft + 8 <= |s|
  {
    Number(s, oft) == 0
  }

  type Ports = s: seq<bv8> | |s| == 16 ghost witness seq(16, _ => 0)

  /** The rule action of the actions so far, and whether one of them makes the message the
      default rule. */
  datatype Verdict = Verdict(action: bv32, isDefault: bool)

  /** One output action; bare says that the match is empty. */
  function Output(v: Verdict, port: seq<Byte>, bare: bool, ports: Ports): Verdict
    requires |port| == 4
  {
    if port == CONTROLLER && bare then Verdict(TO_CONTROLLER, true)
    else if port[..3] == [0, 0, 0] && port[3] < 10 then
      v.(action := 0x3000_0000 | (ports[port[3]] as bv32))
    else v.(action := TO_CONTROLLER)
  }

  function Verdicts(s: seq<Byte>, oft: nat, v: Verdict, bare: bool, ports: Ports): Verdict
    requires ActionsFit(s, oft)
    decreases |s| - oft
  {
    if oft == |s| then v
    else
      var v' := if IsOutput(s, oft) then Output(v, s[oft + 4..oft + 8], bare, ports) else v;
      Verdicts(s, oft + Number(s, oft + 2), v', bare, ports)
  }

  method ReadActions(instruction: seq<Byte>, bare: bool, ports: Ports) returns (v: Verdict)
    requires |instruction| >= INSTRUCTION_HEADER && ActionsFit(instruction, INSTRUCTION_HEADER)
    ensures v == Verdicts(instruction, INSTRUCTION_HEADER, Verdict(0, false), bare, ports)
    ensures LastDecides(instruction, Starts(instruction, 8), ports, v.action)
    ensures v.isDefault <==> bare && ToController(instruction, Starts(instruction, 8))
  {
    hide Output, Number, IsOutput, Starts, LastDecides, ToController;
    VerdictMeans(instruction, bare, ports);
    v := Verdict(0, false);
    var oft := 0;
    while |instruction| - INSTRUCTION_HEADER > oft
      invariant oft + INSTRUCTION_HEADER <= |instruction| && ActionsFit(instruction, oft + INSTRUCTION_HEADER)
      invariant Verdicts(instruction, INSTRUCTION_HEADER, Verdict(0, false), bare, ports)
                == Verdicts(instruction, oft + INSTRUCTION_HEADER, v, bare, ports)
      decreases |instruction| - oft
    {
      var at := oft + INSTRUCTION_HEADER;
      if IsOutput(instruction, at) {
        v := Output(v, instruction[at + 4..at + 8], bare, ports);
      }
      oft := oft + Number(instruction, at + 2);
    }
  }

  // ---------------------------------------------------------------- what a list of actions asks for

  /** Where the actions from oft on begin, each as long as its bytes 2 and 3 say. */
  function Starts(s: seq<Byte>, oft: nat): (r: seq<nat>)
    requires ActionsFit(s, oft)
    ensures InBytes(s, r)
    decreases |s| - oft
  {
    if oft == |s| then [] else [oft] + Starts(s, oft + (s[oft + 2] as nat) * 256 + s[oft + 3])
  }

  predicate InBytes(s: seq<Byte>, starts: seq<nat>) {
    forall k :: 0 <= k < |starts| ==> starts[k] + 8 <= |s|
  }

  /** Type 0 is output. */
  predicate OutputAt(s: seq<Byte>, at: nat)
    requires at + 8 <= |s|
  {
    s[at] == 0 && s[at + 1] == 0
  }

  /** The port of an output, bytes 4 to 7. */
  function PortAt(s: seq<Byte>, at: nat): nat
    requires at + 8 <= |s|
  {
    (s[at + 4] as nat) * 0x100_0000 + (s[at + 5] as nat) * 0x1_0000 + (s[at + 6] as nat) * 0x100 + s[at + 7]
  }

  predicate NoOutput(s: seq<Byte>, starts: seq<nat>)
    requires InBytes(s, starts)
  {
    forall k :: 0 <= k < |starts| ==> !OutputAt(s, starts[k])
  }

  /** Action k is the last output. */
  predicate LastOutput(s: seq<Byte>, starts: seq<nat>, k: nat)
    requires InBytes(s, starts)
  {
    k < |starts| && OutputAt(s, starts[k]) && forall j :: k < j < |starts| ==> !OutputAt(s, starts[j])
  }

  /** Some output is to the controller. */
  predicate ToController(s: seq<Byte>, starts: seq<nat>)
    requires InBytes(s, starts)
  {
    exists k :: 0 <= k < |starts| && OutputAt(s, starts[k]) && PortAt(s, starts[k]) == 0xFFFF_FFFD
  }

  /** What an output to port q makes of a rule: to that port of the board if it has one, to the
      controller otherwise. */
  function ActionTo(q: nat, ports: Ports): bv32 {
    if q < 10 then 0x3000_0000 | (ports[q] as bv32) else 0x4000_0080
  }

  /** The last output of the list decides; a list without one drops. */
  predicate LastDecides(s: seq<Byte>, starts: seq<nat>, ports: Ports, action: bv32)
    requires InBytes(s, starts)
  {
    && (NoOutput(s, starts) ==> action == 0)
    && forall k: nat :: k < |starts| && LastOutput(s, starts, k) ==> action == ActionTo(PortAt(s, starts[k]), ports)
  }

  lemma OutputMeans(v: Verdict, s: seq<Byte>, at: nat, bare: bool, ports: Ports)
    requires at + 8 <= |s|
    ensures var r := Output(v, s[at + 4..at + 8], bare, ports);
            && r.action == ActionTo(PortAt(s, at), ports)
            && (r.isDefault <==> v.isDefault || (bare && PortAt(s, at) == 0xFFFF_FFFD))
  {
    var port := s[at + 4..at + 8];
    assert port[..3] == [port[0], port[1], port[2]] && port == port[..3] + [port[3]];
  }

  /** The first action of a list and the others. */
  lemma FirstAndRest(s: seq<Byte>, oft: nat, rest: seq<nat>)
    requires oft + 8 <= |s| && InBytes(s, rest)
    ensures var all := [oft] + rest;
            && InBytes(s, all)
            && (NoOutput(s, all) <==> !OutputAt(s, oft) && NoOutput(s, rest))
            && (ToController(s, all) <==> (OutputAt(s, oft) && PortAt(s, oft) == 0xFFFF_FFFD) || ToController(s, rest))
            && forall k: nat :: LastOutput(s, all, k) <==> if k == 0 then OutputAt(s, oft) && NoOutput(s, rest)
                                                           else LastOutput(s, rest, k - 1)
  {
    hide PortAt, OutputAt;
    var all := [oft] + rest;
    assert all[0] == oft && forall k :: 0 <= k < |rest| ==> all[k + 1] == rest[k];
    assert forall k :: 0 < k < |all| ==> all[k] == rest[k - 1];
  }

  /** From verdict v to verdict r: outputs decide if there are any, otherwise v stands. */
  ghost predicate Carried(s: seq<Byte>, starts: seq<nat>, v: Verdict, r: Verdict, bare: bool, ports: Ports)
    requires InBytes(s, starts)
  {
    && (NoOutput(s, starts) ==> r == v)
    && (forall k: nat :: LastOutput(s, starts, k) ==> r.action == ActionTo(PortAt(s, starts[k]), ports))
    && (r.isDefault <==> v.isDefault || (bare && ToController(s, starts)))
  }

  lemma CarriedOn(s: seq<Byte>, oft: nat, rest: seq<nat>, v: Verdict, w: Verdict, r: Verdict, bare: bool, ports: Ports)
    requires oft + 8 <= |s| && InBytes(s, rest) && Carried(s, rest, w, r, bare, ports)
    requires if OutputAt(s, oft) then w.action == ActionTo(PortAt(s, oft), ports)
                                      && (w.isDefault <==> v.isDefault || (bare && PortAt(s, oft) == 0xFFFF_FFFD))
             else w == v
    ensures Carried(s, [oft] + rest, v, r, bare, ports)
  {
    hide ActionTo, PortAt, OutputAt, NoOutput, LastOutput, ToController;
    FirstAndRest(s, oft, rest);
    var all := [oft] + rest;
    forall k: nat | LastOutput(s, all, k)
      ensures k < |all| && r.action == ActionTo(PortAt(s, all[k]), ports)
    {
      LastIsAction(s, all, k);
      if k > 0 {
        assert LastOutput(s, rest, k - 1) && all[k] == rest[k - 1];
      }
    }
  }

  lemma LastIsAction(s: seq<Byte>, starts: seq<nat>, k: nat)
    requires InBytes(s, starts) && LastOutput(s, starts, k)
    ensures k < |starts|
  {
  }

  lemma {:induction false} VerdictsFrom(s: seq<Byte>, oft: nat, v: Verdict, bare: bool, ports: Ports)
    requires ActionsFit(s, oft)
    ensures Carried(s, Starts(s, oft), v, Verdicts(s, oft, v, bare, ports), bare, ports)
    decreases |s| - oft
  {
    hide Output, Carried, PortAt, ActionTo;
    if oft == |s| {
      NoActions(s, v, bare, ports);
    } else {
      var next := oft + Number(s, oft + 2);
      var w := if IsOutput(s, oft) then Output(v, s[oft + 4..oft + 8], bare, ports) else v;
      OutputMeans(v, s, oft, bare, ports);
      VerdictsFrom(s, next, w, bare, ports);
      CarriedOn(s, oft, Starts(s, next), v, w, Verdicts(s, next, w, bare, ports), bare, ports);
    }
  }

  lemma NoActions(s: seq<Byte>, v: Verdict, bare: bool, ports: Ports)
    ensures Carried(s, [], v, v, bare, ports)
  {
  }

  /** What the verdict on a message says: the last output's port decides the action, there being
      none means drop, and the default rule is an output to the controller with an empty match. */
  lemma VerdictMeans(s: seq<Byte>, bare: bool, ports: Ports)
    requires ActionsFit(s, 8)
    ensures var r := Verdicts(s, 8, Verdict(0, false), bare, ports);
            && LastDecides(s, Starts(s, 8), ports, r.action)
            && (r.isDefault <==> bare && ToController(s, Starts(s, 8)))
            && (r.action == 0 <==> NoOutput(s, Starts(s, 8)))
  {
    hide ActionTo, PortAt, ToController;
    VerdictsFrom(s, 8, Verdict(0, false), bare, ports);
    var starts := Starts(s, 8);
    if !NoOutput(s, starts) {
      var k := FindLast(s, starts);
      NeverZero(PortAt(s, starts[k]), ports);
    }
  }

  lemma {:induction false} FindLast(s: seq<Byte>, starts: seq<nat>) returns (k: nat)
    requires InBytes(s, starts) && !NoOutput(s, starts)
    ensures LastOutput(s, starts, k)
  {
    hide OutputAt;
    var n := |starts| - 1;
    if OutputAt(s, starts[n]) {
      k := n;
    } else {
      var i :| 0 <= i < |starts| && OutputAt(s, starts[i]);
      assert starts[..n][i] == starts[i];
      k := FindLast(s, starts[..n]);
      assert forall j :: k < j < n ==> !OutputAt(s, starts[..n][j]);
    }
  }

  lemma NeverZero(q: nat, ports: Ports)
    ensures ActionTo(q, ports) != 0
  {
    if q < 10 {
      PortBitsSet(ports[q]);
    }
  }

  lemma PortBitsSet(p: bv8)
    ensures 0x3000_0000 | (p as bv32) != 0 as bv32
  {
  }

  // ---------------------------------------------------------------- the statistics record

  predicate WellFormed(m: Message) {
    && |m.cookie| == 8 && |m.priority| == 2 && |m.timeouts| == 4 && |m.flags| == 2
    && M.Walkable(m.fields)
    && RECORD_HEADER + MATCH_HEADER + |M.EncodeAll(m.fields)| + 7 + |m.instruction| + |m.rest| <= LONGEST
    && (m.instruction == [] ==> m.rest == [])
    && (m.instruction != [] ==>
          |m.instruction| >= INSTRUCTION_HEADER && ActionsFit(m.instruction, INSTRUCTION_HEADER))
  }

  /** The fixed part of struct ofp_flow_stats up to its counters, for an entry of the given length. */
  function FlowHeader(m: Message, length: nat): (r: seq<Byte>)
    requires WellFormed(m) && length < 0x10000
    ensures |r| == 32
  {
    Network(length) + Zeros(10) + m.priority + m.timeouts + m.flags + Zeros(4) + m.cookie
  }

  /** The fixed part with its counters, which start at zero. */
  function HeaderOf(m: Message, length: nat): (r: seq<Byte>)
    requires WellFormed(m) && length < 0x10000
    ensures |r| == RECORD_HEADER
  {
    FlowHeader(m, length) + Zeros(16)
  }

  /** The length of the entry in a record: header, match and first instruction. */
  function EntryLength(m: Message): (n: nat)
    requires WellFormed(m)
    ensures RECORD_HEADER <= n && n + |m.rest| <= LONGEST
  {
    RECORD_HEADER + |MatchBytes(m.fields)| + |m.instruction|
  }

  /** struct ofp_flow_stats with the match and the first instruction behind it, in a block as long
      as the message. */
  function RecordOf(m: Message): (r: seq<Byte>)
    requires WellFormed(m)
    ensures |r| == EntryLength(m) + |m.rest|
  {
    HeaderOf(m, EntryLength(m)) + MatchBytes(m.fields) + m.instruction + Zeros(|m.rest|)
  }

  /** The match as it stands in a record: type 1, its length without the padding, the TLVs, and
      zeros up to a multiple of eight. */
  lemma MatchLayout(ts: seq<M.Tlv>)
    requires |M.EncodeAll(ts)| + 8 < 0x10000
    ensures var b, n := MatchBytes(ts), |M.EncodeAll(ts)|;
            && 4 + n <= |b| < 12 + n && |b| % 8 == 0
            && b[0] == 0 && b[1] == 1 && (b[2] as nat) * 256 + b[3] == 4 + n
            && (forall k :: 0 <= k < n ==> b[4 + k] == M.EncodeAll(ts)[k] as nat)
            && forall k :: 4 + n <= k < |b| ==> b[k] == 0
  {
    hide M.EncodeAll;
    var wire, n := ByteValues(M.EncodeAll(ts)), 4 + |M.EncodeAll(ts)|;
    assert MatchBytes(ts)[..4] == [0, 1] + Network(n);
    assert MatchBytes(ts)[4..n] == wire;
    assert forall k :: 0 <= k < |wire| ==> MatchBytes(ts)[4 + k] == wire[k];
  }

  /** The record of a message, field by field as in struct ofp_flow_stats: the length of the entry,
      the message's priority, timeouts, flags and cookie, no traffic yet, the match, the first
      instruction, and zeros. */
  lemma RecordLayout(m: Message)
    requires WellFormed(m)
    ensures var r, n := RecordOf(m), |MatchBytes(m.fields)|;
            && |r| == 48 + n + |m.instruction| + |m.rest|
            && (r[0] as nat) * 256 + r[1] == 48 + n + |m.instruction|
            && (forall k :: 2 <= k < 12 || 20 <= k < 24 || 32 <= k < 48 ==> r[k] == 0)
            && r[12..14] == m.priority && r[14..18] == m.timeouts && r[18..20] == m.flags && r[24..32] == m.cookie
            && r[48..48 + n] == MatchBytes(m.fields)
            && r[48 + n..48 + n + |m.instruction|] == m.instruction
            && forall k :: 48 + n + |m.instruction| <= k < |r| ==> r[k] == 0
  {
    hide MatchBytes, M.EncodeAll, HeaderOf, WellFormed, RoundUp8;
    FieldSizes(m);
    Sizes(m);
    var h, b := HeaderOf(m, EntryLength(m)), MatchBytes(m.fields);
    HeaderLayout(m, EntryLength(m));
    assert RecordOf(m) == h + b + m.instruction + Zeros(|m.rest|);
    assert RecordOf(m)[..48] == h;
    assert forall k :: 0 <= k < 48 ==> RecordOf(m)[k] == h[k];
    assert RecordOf(m)[12..14] == h[12..14] && RecordOf(m)[14..18] == h[14..18];
    assert RecordOf(m)[18..20] == h[18..20] && RecordOf(m)[24..32] == h[24..32];
  }

  lemma HeaderLayout(m: Message, length: nat)
    requires WellFormed(m) && length < 0x10000
    ensures |m.priority| == 2 && |m.timeouts| == 4 && |m.flags| == 2 && |m.cookie| == 8
    ensures var h := HeaderOf(m, length);
            && (h[0] as nat) * 256 + h[1] == length
            && (forall k :: 2 <= k < 12 || 20 <= k < 24 || 32 <= k < 48 ==> h[k] == 0)
            && h[12..14] == m.priority && h[14..18] == m.timeouts && h[18..20] == m.flags && h[24..32] == m.cookie
  {
    hide WellFormed;
    FieldSizes(m);
  }

  function Over(s: seq<Byte>, at: nat, src: seq<Byte>): (r: seq<Byte>)
    requires at + |src| <= |s|
    ensures |r| == |s|
  {
    s[..at] + src + s[at + |src|..]
  }

  lemma OverZeros(s: seq<Byte>, n: nat, gap: nat, src: seq<Byte>)
    requires gap + |src| <= n
    ensures Over(s + Zeros(n), |s| + gap, src) == s + Zeros(gap) + src + Zeros(n - gap - |src|)
  {
  }

  /** memcpy. */
  method Copy(dst: array<Byte>, at: nat, src: seq<Byte>)
    requires at + |src| <= dst.Length
    modifies dst
    ensures dst[..] == Over(old(dst[..]), at, src)
  {
    for i := 0 to |src|
      invariant forall j :: 0 <= j < dst.Length ==> dst[j] == if at <= j < at + i then src[j - at] else old(dst[j])
    {
      dst[at + i] := src[i];
    }
  }

  method WriteHeader(record: array<Byte>, m: Message, length: nat)
    requires WellFormed(m) && RECORD_HEADER <= record.Length && length < 0x10000
    requires record[..] == Zeros(record.Length)
    modifies record
    ensures record[..] == HeaderOf(m, length) + Zeros(record.Length - RECORD_HEADER)
  {
    hide Network, WellFormed, HeaderOf, Zeros;
    FieldSizes(m);
    Empty(Zeros(record.Length));
    ghost var s := Append(record, [], 0, Network(length), 0);
    s := Append(record, s, 10, m.priority, 12);
    s := Append(record, s, 0, m.timeouts, 14);
    WriteRest(record, s, m, length);
  }

  method WriteRest(record: array<Byte>, ghost s: seq<Byte>, m: Message, ghost length: nat)
    requires WellFormed(m) && RECORD_HEADER <= record.Length && length < 0x10000
    requires s == Network(length) + Zeros(10) + m.priority + m.timeouts
    requires record[..] == s + Zeros(record.Length - 18)
    modifies record
    ensures record[..] == HeaderOf(m, length) + Zeros(record.Length - RECORD_HEADER)
  {
    hide Network, WellFormed, HeaderOf, Zeros;
    FieldSizes(m);
    ghost var t := Append(record, s, 0, m.flags, 18);
    t := Append(record, t, 4, m.cookie, 24);
    EndHeader(m, length, record.Length, t);
  }

  lemma EndHeader(m: Message, length: nat, size: nat, t: seq<Byte>)
    requires WellFormed(m) && RECORD_HEADER <= size && length < 0x10000 && t == FlowHeader(m, length)
    ensures HeaderOf(m, length) + Zeros(size - RECORD_HEADER) == t + Zeros(size - 32)
  {
    hide FlowHeader, Zeros, WellFormed;
    ZerosAdd(16, size - RECORD_HEADER);
    Regroup(t, Zeros(16), Zeros(size - RECORD_HEADER));
  }

  lemma FieldSizes(m: Message)
    requires WellFormed(m)
    ensures |m.cookie| == 8 && |m.priority| == 2 && |m.timeouts| == 4 && |m.flags| == 2
  {
  }

  lemma Regroup(a: seq<Byte>, b: seq<Byte>, c: seq<Byte>)
    ensures (a + b) + c == a + (b + c)
  {
  }

  lemma Empty(s: seq<Byte>)
    ensures [] + s == s
  {
  }

  lemma ZerosAdd(a: nat, b: nat)
    ensures Zeros(a) + Zeros(b) == Zeros(a + b)
  {
  }

  /** The record is as long as the message, and every write lands inside it. */
  method BuildRecord(m: Message) returns (record: array<Byte>)
    requires WellFormed(m)
    ensures fresh(record) && record[..] == RecordOf(m)
  {
    hide WellFormed, HeaderOf, MatchBytes, Zeros;
    Sizes(m);
    var body := MatchBytes(m.fields);
    var length := RECORD_HEADER + |body| + |m.instruction|;
    record := new Byte[length + |m.rest|](_ => 0);
    AllZeros(record[..]);
    WriteHeader(record, m, length);
    ghost var s := HeaderOf(m, length);
    s := Append(record, s, 0, body, RECORD_HEADER);
    s := Append(record, s, 0, m.instruction, RECORD_HEADER + |body|);
  }

  lemma Sizes(m: Message)
    requires WellFormed(m)
    ensures |M.EncodeAll(m.fields)| + 8 < 0x10000 && |RecordOf(m)| < 0x10000
  {
  }

  lemma AllZeros(s: seq<Byte>)
    requires forall k :: 0 <= k < |s| ==> s[k] == 0
    ensures s == Zeros(|s|)
  {
  }

  lemma NoZeros(s: seq<Byte>)
    ensures s + Zeros(0) == s
  {
  }

  /** Write src after the part s already written and a gap of zeros. */
  method Append(record: array<Byte>, ghost s: seq<Byte>, ghost gap: nat, src: seq<Byte>, at: nat)
    returns (ghost t: seq<Byte>)
    requires at == |s| + gap && at + |src| <= record.Length
    requires record[..] == s + Zeros(record.Length - |s|)
    modifies record
    ensures t == (if gap == 0 then s else s + Zeros(gap)) + src
    ensures record[..] == t + Zeros(record.Length - |t|)
  {
    hide Over;
    OverZeros(s, record.Length - |s|, gap, src);
    Copy(record, at, src);
    t := (if gap == 0 then s else s + Zeros(gap)) + src;
  }
}

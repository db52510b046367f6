/** The reply to a flow statistics request (handle_ofpmp_flow_stats): one pass over the
    records to size the buffer, a second to fill it. */
module StatsReply {
  import opened FlowMod
  import opened NetworkOrder
  import opened FlowAgent
  import opened FlowAgentRuns
  import opened FlowHandlers
  import RuleTableRuns

  const REPLY_HEADER: nat := 16

  /** The length field of a record covers itself and stays inside the block. */
  predicate SelfSized(r: seq<Byte>) { 2 <= |r| && 2 <= Number(r, 0) <= |r| }

  /** What a record contributes: as many bytes as its length field says. */
  function Entry(r: seq<Byte>): (e: seq<Byte>)
    requires SelfSized(r)
    ensures |e| == Number(r, 0)
  {
    r[..Number(r, 0)]
  }

  /** Every record referred to is allocated and has its length inside. */
  predicate Readable(s: Agent)
    requires s.Shaped()
  {
    forall i :: 0 <= i < SLOTS && s.stats[i] != 0 ==> s.stats[i] in s.heap && SelfSized(s.heap[s.stats[i]])
  }

  /** The entries of the first n slots, in slot order. */
  function Bodies(s: Agent, n: nat): (r: seq<Byte>)
    requires s.Shaped() && n <= SLOTS && Readable(s)
  {
    if n == 0 then []
    else Bodies(s, n - 1) + if s.stats[n - 1] != 0 then Entry(s.heap[s.stats[n - 1]]) else []
  }

  /** The OpenFlow and multipart headers of the reply. */
  function ReplyHeader(length: nat, xid: seq<Byte>): (r: seq<Byte>)
    requires length < 0x10000 && |xid| == 4
    ensures |r| == REPLY_HEADER
  {
    [4, 19] + Network(length) + xid + [0, 1, 0, 0] + Zeros(4)
  }

  lemma {:induction false} BodiesGrow(s: Agent, n: nat)
    requires s.Shaped() && n <= SLOTS && Readable(s)
    ensures |Bodies(s, n)| <= |Bodies(s, SLOTS)|
    decreases SLOTS - n
  {
    if n < SLOTS {
      BodiesGrow(s, n + 1);
    }
  }

  /** The record the second pass copies, seen in the buffer it was copied to. */
  lemma CopiedLength(buffer: seq<Byte>, oft: nat, r: seq<Byte>)
    requires SelfSized(r) && oft + |Entry(r)| <= |buffer|
    ensures Number(Over(buffer, oft, Entry(r)), oft) == |Entry(r)|
  {
    assert Over(buffer, oft, Entry(r))[oft] == r[0] && Over(buffer, oft, Entry(r))[oft + 1] == r[1];
  }

  lemma NextBody(done: seq<Byte>, n: nat, r: seq<Byte>)
    requires |r| <= n
    ensures Over(done + Zeros(n), |done|, r) == (done + r) + Zeros(n - |r|)
  {
    hide Over;
    OverZeros(done, n, 0, r);
    assert done + Zeros(0) == done;
  }

  /** Sizing the buffer in sixteen bits is harmless exactly when the whole reply fits them. */
  lemma FitsExactly(s: Agent)
    requires s.Shaped() && Readable(s)
    ensures (forall n :: 0 <= n <= SLOTS ==>
               REPLY_HEADER + |Bodies(s, n)| <= (REPLY_HEADER + |Bodies(s, SLOTS)|) % 0x10000)
            <==> REPLY_HEADER + |Bodies(s, SLOTS)| < 0x10000
  {
    forall n | 0 <= n <= SLOTS
      ensures |Bodies(s, n)| <= |Bodies(s, SLOTS)|
    {
      BodiesGrow(s, n);
    }
  }

  lemma SoundReadable(s: Agent)
    requires s.Shaped() && Sound(s)
    ensures Readable(s)
  {
    hide RuleTableRuns.Pictured, RuleTableRuns.Unique, ActsOnRecords, Number;
  }

  /** In every reachable state it does. */
  lemma AlwaysFits(s: Agent)
    requires s.Shaped() && Sound(s)
    ensures Readable(s) && REPLY_HEADER + |Bodies(s, SLOTS)| < 0x10000
  {
    hide RuleTableRuns.Pictured, RuleTableRuns.Unique, ActsOnRecords, Number;
    SoundReadable(s);
    BodiesBound(s, SLOTS);
  }

  lemma {:induction false} BodiesBound(s: Agent, n: nat)
    requires s.Shaped() && n <= SLOTS && Readable(s) && GoodHeap(s)
    ensures |Bodies(s, n)| <= n * LONGEST
  {
    hide Number;
    if n > 0 {
      BodiesBound(s, n - 1);
    }
  }

  method ReplySize(f: FlowState) returns (length: nat)
    requires f.Valid() && Readable(f.State())
    ensures length == |Bodies(f.State(), SLOTS)|
  {
    hide Number;
    length := 0;
    for i := 0 to SLOTS
      invariant length == |Bodies(f.State(), i)|
    {
      if f.stats[i] != 0 {
        length := length + Number(f.heap[f.stats[i]], 0);
      }
    }
  }

  /** One record into the buffer; the length that moves the offset is read back from there. */
  method PutRecord(reply: array<Byte>, ghost done: seq<Byte>, oft: nat, record: seq<Byte>) returns (next: nat)
    requires SelfSized(record) && |done| == oft && oft + |Entry(record)| <= reply.Length
    requires reply[..] == done + Zeros(reply.Length - oft)
    modifies reply
    ensures next == oft + |Entry(record)| && reply[..] == (done + Entry(record)) + Zeros(reply.Length - next)
  {
    hide Number, Over, Zeros;
    CopiedLength(reply[..], oft, record);
    var _ := Append(reply, done, 0, record[..Number(record, 0)], oft);
    assert reply[..] == Over(old(reply[..]), oft, Entry(record)) by {
      NextBody(done, reply.Length - oft, Entry(record));
    }
    next := oft + Number(reply[..], oft);
  }

  /** The reply is the headers and then the records in slot order; the second pass ends where
      the first pass said. */
  method FlowStatsReply(f: FlowState, xid: seq<Byte>) returns (reply: array<Byte>)
    requires f.Valid() && Readable(f.State()) && |xid| == 4
    requires REPLY_HEADER + |Bodies(f.State(), SLOTS)| < 0x10000
    ensures fresh(reply) && reply.Length == REPLY_HEADER + |Bodies(f.State(), SLOTS)|
    ensures reply[0] == 4 && reply[1] == 19 && (reply[2] as nat) * 256 + reply[3] == reply.Length && reply[4..8] == xid
    ensures reply[8] == 0 && reply[9] == 1 && forall k :: 10 <= k < 16 ==> reply[k] == 0
    ensures reply[16..] == Bodies(f.State(), 9)
  {
    hide Number, Over, Zeros, ReplyHeader, SelfSized, Entry, Bodies;
    ghost var s := f.State();
    var body := ReplySize(f);
    var length := (REPLY_HEADER + body) % 0x10000;
    reply := new Byte[length](_ => 0);
    AllZeros(reply[..]);
    Empty(Zeros(length));
    ghost var header := Append(reply, [], 0, ReplyHeader(length, xid), 0);
    Empty(ReplyHeader(length, xid));
    var oft := REPLY_HEADER;
    NoBodies(header, s);
    for i := 0 to SLOTS
      invariant f.State() == s
      invariant oft == REPLY_HEADER + |Bodies(s, i)| <= length
      invariant reply[..] == (header + Bodies(s, i)) + Zeros(length - oft)
    {
      BodiesGrow(s, i + 1);
      BodiesNext(header, s, i);
      if f.stats[i] != 0 {
        oft := PutRecord(reply, header + Bodies(s, i), oft, f.heap[f.stats[i]]);
      }
    }
    NoZeros(header + Bodies(s, SLOTS));
    assert reply[..] == ReplyHeader(length, xid) + Bodies(s, SLOTS);
    ReplyLayout(length, xid, Bodies(s, SLOTS), reply[..]);
  }

  /** Version 4, a multipart reply, of flow statistics, with no more to come. */
  lemma ReplyLayout(length: nat, xid: seq<Byte>, bodies: seq<Byte>, r: seq<Byte>)
    requires length < 0x10000 && |xid| == 4 && r == ReplyHeader(length, xid) + bodies
    ensures r[0] == 4 && r[1] == 19 && (r[2] as nat) * 256 + r[3] == length && r[4..8] == xid
    ensures r[8] == 0 && r[9] == 1 && (forall k :: 10 <= k < 16 ==> r[k] == 0) && r[16..] == bodies
  {
    var h := ReplyHeader(length, xid);
    assert r[..16] == h && forall k :: 0 <= k < 16 ==> r[k] == h[k];
    assert r[4..8] == h[4..8];
  }

  lemma NoBodies(header: seq<Byte>, s: Agent)
    requires s.Shaped() && Readable(s)
    ensures header + Bodies(s, 0) == header
  {
  }

  lemma BodiesNext(header: seq<Byte>, s: Agent, i: nat)
    requires s.Shaped() && Readable(s) && i < SLOTS
    ensures s.stats[i] == 0 ==> Bodies(s, i + 1) == Bodies(s, i)
    ensures s.stats[i] != 0 ==> Bodies(s, i + 1) == Bodies(s, i) + Entry(s.heap[s.stats[i]])
    ensures s.stats[i] != 0 ==> header + Bodies(s, i + 1) == (header + Bodies(s, i)) + Entry(s.heap[s.stats[i]])
  {
    hide SelfSized;
  }
}

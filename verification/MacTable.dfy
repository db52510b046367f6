/** The learning switch: a table of 128 MAC addresses, filled from source addresses, looked up
    by destination address, and cleared by an aging pass. */
module MacTable {
  const SLOTS: nat := 128
  const PORTS: nat := 4
  /** Seconds an address stays valid after it was last seen. */
  const LIFE_TIME: int := 10

  /** The packet metadata holds port numbers in six bits. */
  type Port = x: nat | x < 64

  type Mac = s: seq<bv8> | |s| == 6 witness [0, 0, 0, 0, 0, 0]

  datatype Time = Time(sec: int, usec: int)

  datatype Entry = Entry(port: Port, valid: bool, addr: Mac, expiry: Time)

  const EMPTY_ENTRY := Entry(0, false, [0, 0, 0, 0, 0, 0], Time(0, 0))

  // ---------------------------------------------------------------- comparing addresses

  /** Two bytes as one 16-bit word, the way a little-endian machine reads them. */
  function Join(b0: bv8, b1: bv8): bv16 { (b0 as bv16) | ((b1 as bv16) << 8) }

  /** Despite its name in the source this is true when the addresses differ. */
  predicate EtherAddrEqual(a: Mac, b: Mac) {
    ((Join(a[0], a[1]) ^ Join(b[0], b[1])) | (Join(a[2], a[3]) ^ Join(b[2], b[3]))
     | (Join(a[4], a[5]) ^ Join(b[4], b[5]))) != 0
  }

  lemma JoinInjective(a0: bv8, a1: bv8, b0: bv8, b1: bv8)
    ensures Join(a0, a1) == Join(b0, b1) <==> a0 == b0 && a1 == b1
  {
  }

  lemma XorZero(a: bv16, b: bv16, c: bv16, d: bv16, e: bv16, f: bv16)
    ensures (a ^ b) | (c ^ d) | (e ^ f) == 0 <==> a == b && c == d && e == f
  {
  }

  lemma ComparesAddresses(a: Mac, b: Mac)
    ensures EtherAddrEqual(a, b) <==> a != b
  {
    hide Join;
    XorZero(Join(a[0], a[1]), Join(b[0], b[1]), Join(a[2], a[3]), Join(b[2], b[3]),
            Join(a[4], a[5]), Join(b[4], b[5]));
    JoinInjective(a[0], a[1], b[0], b[1]);
    JoinInjective(a[2], a[3], b[2], b[3]);
    JoinInjective(a[4], a[5], b[4], b[5]);
    assert a == b <==> forall i :: 0 <= i < 6 ==> a[i] == b[i];
  }

  // ---------------------------------------------------------------- the table as a map

  datatype Info = Info(port: Port, expiry: int)

  ghost predicate Holds(s: seq<Entry>, i: int, m: Mac) {
    0 <= i < |s| && s[i].valid && s[i].addr == m
  }

  /** No address is valid twice. */
  ghost predicate Distinct(s: seq<Entry>) {
    forall i, j :: 0 <= i < j < |s| && s[i].valid && s[j].valid ==> s[i].addr != s[j].addr
  }

  ghost function Keys(s: seq<Entry>): set<Mac> {
    set i | 0 <= i < |s| && s[i].valid :: s[i].addr
  }

  ghost function SlotOf(s: seq<Entry>, m: Mac): (i: nat)
    requires m in Keys(s)
    ensures Holds(s, i, m)
  {
    var i :| 0 <= i < |s| && s[i].valid && s[i].addr == m;
    i
  }

  /** Where every valid address is, and until when. */
  ghost function Table(s: seq<Entry>): map<Mac, Info> {
    map m | m in Keys(s) :: Info(s[SlotOf(s, m)].port, s[SlotOf(s, m)].expiry.sec)
  }

  lemma TableAt(s: seq<Entry>, i: nat)
    requires Distinct(s) && i < |s| && s[i].valid
    ensures s[i].addr in Table(s) && Table(s)[s[i].addr] == Info(s[i].port, s[i].expiry.sec)
  {
    var j := SlotOf(s, s[i].addr);
    assert Holds(s, j, s[i].addr);
  }

  /** A map that agrees with every valid slot and has no other address. */
  ghost predicate IsTable(s: seq<Entry>, t: map<Mac, Info>) {
    && (forall i :: 0 <= i < |s| && s[i].valid ==>
          s[i].addr in t && t[s[i].addr] == Info(s[i].port, s[i].expiry.sec))
    && (forall m :: m in t ==> exists i :: Holds(s, i, m))
  }

  lemma TableIsTable(s: seq<Entry>)
    requires Distinct(s)
    ensures IsTable(s, Table(s))
  {
    forall i | 0 <= i < |s| && s[i].valid
      ensures s[i].addr in Table(s) && Table(s)[s[i].addr] == Info(s[i].port, s[i].expiry.sec)
    {
      TableAt(s, i);
    }
    forall m | m in Table(s) ensures exists i :: Holds(s, i, m) {
      assert Holds(s, SlotOf(s, m), m);
    }
  }

  lemma TableUnique(s: seq<Entry>, t: map<Mac, Info>)
    requires Distinct(s) && IsTable(s, t)
    ensures Table(s) == t
  {
    TableIsTable(s);
    forall m | m in t ensures m in Table(s) && Table(s)[m] == t[m] {
      var i :| Holds(s, i, m);
    }
    forall m | m in Table(s) ensures m in t {
      var i :| Holds(s, i, m);
    }
  }

  function Occupied(s: seq<Entry>): nat {
    if s == [] then 0 else Occupied(s[..|s| - 1]) + (if s[|s| - 1].valid then 1 else 0)
  }

  lemma {:induction false} KeyCount(s: seq<Entry>)
    requires Distinct(s)
    ensures |Keys(s)| == Occupied(s)
  {
    if s != [] {
      var t, e := s[..|s| - 1], s[|s| - 1];
      KeyCount(t);
      assert Keys(s) == Keys(t) + (if e.valid then {e.addr} else {}) by { KeysOfLast(s); }
    }
  }

  lemma KeysOfLast(s: seq<Entry>)
    requires s != []
    ensures Keys(s) == Keys(s[..|s| - 1]) + (if s[|s| - 1].valid then {s[|s| - 1].addr} else {})
  {
  }

  lemma {:induction false} OccupiedBound(s: seq<Entry>)
    ensures Occupied(s) <= |s|
    ensures Occupied(s) == |s| <==> forall i :: 0 <= i < |s| ==> s[i].valid
  {
    if s != [] {
      OccupiedBound(s[..|s| - 1]);
    }
  }

  /** A table is full when it holds as many addresses as it has slots. */
  lemma FullTable(s: seq<Entry>)
    requires Distinct(s)
    ensures |Table(s)| <= |s|
    ensures |Table(s)| == |s| <==> forall i :: 0 <= i < |s| ==> s[i].valid
  {
    KeyCount(s);
    OccupiedBound(s);
    assert Table(s).Keys == Keys(s);
  }

  // ---------------------------------------------------------------- learning

  /** The least slot at or after i that holds m, or |s|. */
  function FindFrom(s: seq<Entry>, m: Mac, i: nat): (r: nat)
    requires i <= |s|
    ensures i <= r <= |s|
    ensures r < |s| ==> s[r].valid && s[r].addr == m
    ensures forall k :: i <= k < r ==> !(s[k].valid && s[k].addr == m)
    decreases |s| - i
  {
    if i == |s| || (s[i].valid && s[i].addr == m) then i else FindFrom(s, m, i + 1)
  }

  /** The least free slot at or after i, or |s|. */
  function FreeFrom(s: seq<Entry>, i: nat): (r: nat)
    requires i <= |s|
    ensures i <= r <= |s|
    ensures r < |s| ==> !s[r].valid
    ensures forall k :: i <= k < r ==> s[k].valid
    decreases |s| - i
  {
    if i == |s| || !s[i].valid then i else FreeFrom(s, i + 1)
  }

  function Expiry(now: Time): Time { Time(now.sec + LIFE_TIME, now.usec) }

  /** The table after an address was seen at a port. */
  function Learned(s: seq<Entry>, port: Port, m: Mac, now: Time): (r: seq<Entry>)
    ensures |r| == |s|
  {
    var i, j := FindFrom(s, m, 0), FreeFrom(s, 0);
    if i < |s| then s[i := s[i].(port := port, expiry := Expiry(now))]
    else if j < |s| then s[j := Entry(port, true, m, Expiry(now))]
    else s
  }

  /** Learning is a map update, except that a new address is ignored when the table is full. */
  lemma LearnRefinesMap(s: seq<Entry>, port: Port, m: Mac, now: Time)
    requires Distinct(s)
    ensures var r := Learned(s, port, m, now);
            && Distinct(r)
            && Table(r) == if m in Table(s) || |Table(s)| < |s|
                           then Table(s)[m := Info(port, now.sec + 10)] else Table(s)
  {
    hide Table, Distinct;
    FullTable(s);
    FoundIsKnown(s, m);
    var i, j := FindFrom(s, m, 0), FreeFrom(s, 0);
    var k := if i < |s| then i else j;
    if k < |s| {
      UpdateIsMapUpdate(s, k, Learned(s, port, m, now)[k]);
    }
  }

  lemma FoundIsKnown(s: seq<Entry>, m: Mac)
    requires Distinct(s)
    ensures m in Table(s) <==> FindFrom(s, m, 0) < |s|
  {
    hide Table;
    TableIsTable(s);
    if m in Table(s) {
      var i :| Holds(s, i, m);
    }
  }

  /** Filling a free slot with a new address, or changing the data of an address in place. */
  lemma UpdateIsMapUpdate(s: seq<Entry>, k: nat, e: Entry)
    requires Distinct(s) && k < |s| && e.valid
    requires if s[k].valid then s[k].addr == e.addr
             else forall i :: 0 <= i < |s| && s[i].valid ==> s[i].addr != e.addr
    ensures Distinct(s[k := e])
    ensures Table(s[k := e]) == Table(s)[e.addr := Info(e.port, e.expiry.sec)]
  {
    hide Table;
    var r, want := s[k := e], Table(s)[e.addr := Info(e.port, e.expiry.sec)];
    TableIsTable(s);
    forall m | m in want ensures exists i :: Holds(r, i, m) {
      if m == e.addr {
        assert Holds(r, k, m);
      } else {
        var i :| Holds(s, i, m);
        assert Holds(r, i, m);
      }
    }
    TableUnique(r, want);
  }

  // ---------------------------------------------------------------- aging and lookup

  predicate Stale(e: Entry, now: Time) { e.valid && e.expiry.sec < now.sec }

  /** The table after an aging pass. */
  function Aged(s: seq<Entry>, now: Time): (r: seq<Entry>)
    ensures |r| == |s|
  {
    seq(|s|, i requires 0 <= i < |s| => if Stale(s[i], now) then s[i].(valid := false) else s[i])
  }

  lemma AgeRefinesMap(s: seq<Entry>, now: Time)
    requires Distinct(s)
    ensures Distinct(Aged(s, now))
    ensures Table(Aged(s, now)) == Unexpired(Table(s), now.sec)
  {
    hide Table;
    var r, want := Aged(s, now), Unexpired(Table(s), now.sec);
    TableIsTable(s);
    forall m | m in want ensures exists i :: Holds(r, i, m) {
      var i :| Holds(s, i, m);
      assert Holds(r, i, m);
    }
    TableUnique(r, want);
  }

  function Unexpired(t: map<Mac, Info>, now: int): map<Mac, Info> {
    map m | m in t && t[m].expiry >= now :: t[m]
  }

  /** The port to send to, or -1 to flood. */
  ghost function Lookup(t: map<Mac, Info>, inport: Port, m: Mac): int {
    if m in t && t[m].port != inport then t[m].port else -1
  }

  // ---------------------------------------------------------------- the switch

  /** What the switch asks the hardware to do with a copy of a packet: an output port, the
      packet coming from the CPU, bound for a port, next module 5. */
  datatype Sending = Sending(outport: nat, fromCpu: bool, toCpu: bool, module_: nat)

  function SendNormal(port: nat): Sending { Sending(port, true, false, 5) }

  class Switch {
    const mac: array<Entry>

    ghost predicate Valid()
      reads mac
    {
      mac.Length == SLOTS && Distinct(mac[..])
    }

    constructor ()
      ensures Valid() && fresh(mac) && mac[..] == seq(SLOTS, _ => EMPTY_ENTRY)
    {
      mac := new Entry[SLOTS](_ => EMPTY_ENTRY);
    }

    method UpdateMacTime(inport: Port, index: nat, now: Time)
      requires index < mac.Length
      modifies mac
      ensures mac[..] == old(mac[..])[index := old(mac[index]).(port := inport, expiry := Time(now.sec + 10, now.usec))]
    {
      mac[index] := mac[index].(expiry := Expiry(now));
      mac[index] := mac[index].(port := inport);
    }

    method LearnSmac(inport: Port, src: Mac, now: Time)
      requires Valid()
      modifies mac
      ensures mac[..] == Learned(old(mac[..]), inport, src, now)
      ensures Valid()
    {
      hide Table, Distinct, EtherAddrEqual;
      LearnRefinesMap(mac[..], inport, src, now);
      var j := -1;
      for i := 0 to SLOTS
        invariant mac[..] == old(mac[..])
        invariant FindFrom(mac[..], src, 0) == FindFrom(mac[..], src, i)
        invariant if j == -1 then FreeFrom(mac[..], 0) == FreeFrom(mac[..], i)
                  else 0 <= j < i && FreeFrom(mac[..], 0) == j
      {
        if mac[i].valid {
          ComparesAddresses(src, mac[i].addr);
          if !EtherAddrEqual(src, mac[i].addr) {
            UpdateMacTime(inport, i, now);
            return;
          }
        } else if j == -1 {
          j := i;
        }
      }
      if j == -1 {
        return;
      }
      mac[j] := mac[j].(addr := src);
      UpdateMacTime(inport, j, now);
      mac[j] := mac[j].(valid := true);
    }

    method FindDmac(inport: Port, dst: Mac) returns (ret: int)
      requires Valid()
      ensures ret == Lookup(Table(mac[..]), inport, dst)
    {
      ret := -1;
      for i := 0 to SLOTS
        invariant forall k :: 0 <= k < i ==> !(mac[k].valid && mac[k].port != inport && mac[k].addr == dst)
      {
        ComparesAddresses(dst, mac[i].addr);
        if mac[i].valid && mac[i].port != inport && !EtherAddrEqual(dst, mac[i].addr) {
          TableAt(mac[..], i);
          return mac[i].port;
        }
      }
      if dst in Table(mac[..]) {
        TableAt(mac[..], SlotOf(mac[..], dst));
      }
    }

    /** One pass of the aging thread. */
    method Age(now: Time)
      requires Valid()
      modifies mac
      ensures mac[..] == Aged(old(mac[..]), now)
      ensures Valid()
    {
      AgeRefinesMap(mac[..], now);
      for i := 0 to SLOTS
        invariant mac.Length == SLOTS
        invariant forall k :: 0 <= k < SLOTS ==>
                    mac[k] == if k < i then Aged(old(mac[..]), now)[k] else old(mac[k])
      {
        if mac[i].valid {
          if mac[i].expiry.sec < now.sec {
            mac[i] := mac[i].(valid := false);
          }
        }
      }
      assert mac[..] == Aged(old(mac[..]), now);
    }

    /** Learns the source, looks the destination up and sends. */
    method Callback(inport: Port, dst: Mac, src: Mac, now: Time) returns (sent: seq<Sending>)
      requires Valid()
      modifies mac
      ensures Valid() && mac[..] == Learned(old(mac[..]), inport, src, now)
      ensures var port := Lookup(Table(mac[..]), inport, dst);
              sent == if port >= 0 then [Sending(port, true, false, 5)] else Flooded(inport)
    {
      LearnSmac(inport, src, now);
      var outport := FindDmac(inport, dst);
      if outport == -1 {
        sent := SendFlood(inport);
      } else {
        sent := [SendNormal(outport)];
      }
    }
  }

  /** One copy for every port of the device but the one the packet came in on. */
  function Flooded(inport: Port): seq<Sending> { FloodedUpTo(inport, PORTS) }

  function FloodedUpTo(inport: Port, n: nat): seq<Sending> {
    if n == 0 then []
    else FloodedUpTo(inport, n - 1) + (if n - 1 != inport then [Sending(n - 1, true, false, 5)] else [])
  }

  method SendFlood(inport: Port) returns (sent: seq<Sending>)
    ensures sent == Flooded(inport)
  {
    sent := [];
    for i := 0 to PORTS
      invariant sent == FloodedUpTo(inport, i)
    {
      if i != inport {
        sent := sent + [SendNormal(i)];
      }
    }
  }

  /** A flood reaches every port below 4 except the input port, once each. */
  lemma FloodReachesOthers(inport: Port, p: nat)
    ensures Copies(Flooded(inport), p) == if p < 4 && p != inport then 1 else 0
  {
    FloodUpTo(inport, PORTS, p);
  }

  /** The number of copies of a packet sent to port p. */
  function Copies(sent: seq<Sending>, p: nat): nat {
    if sent == [] then 0
    else Copies(sent[..|sent| - 1], p) + (if sent[|sent| - 1].outport == p then 1 else 0)
  }

  lemma {:induction false} FloodUpTo(inport: Port, n: nat, p: nat)
    ensures Copies(FloodedUpTo(inport, n), p) == if p < n && p != inport then 1 else 0
  {
    if n > 0 {
      FloodUpTo(inport, n - 1, p);
      var before, all := FloodedUpTo(inport, n - 1), FloodedUpTo(inport, n);
      if n - 1 == inport {
        assert all == before;
      } else {
        assert all[..|all| - 1] == before;
      }
    }
  }

  // ---------------------------------------------------------------- histories

  datatype Event = Learn(mac: Mac, port: Port, at: int) | Age(at: int)

  /** The table after a history of whole learning and aging passes. */
  function Run(h: seq<Event>): (s: seq<Entry>)
    ensures |s| == 128
  {
    if h == [] then seq(SLOTS, _ => EMPTY_ENTRY)
    else
      var s := Run(h[..|h| - 1]);
      match h[|h| - 1]
      case Learn(m, p, at) => Learned(s, p, m, Time(at, 0))
      case Age(at) => Aged(s, Time(at, 0))
  }

  predicate ClockRuns(h: seq<Event>) {
    forall i, j :: 0 <= i < j < |h| ==> h[i].at <= h[j].at
  }

  datatype Option<T> = None | Some(value: T)

  /** When the last aging pass was. */
  function LastAging(h: seq<Event>): Option<int> {
    if h == [] then None
    else if h[|h| - 1].Age? then Some(h[|h| - 1].at)
    else LastAging(h[..|h| - 1])
  }

  predicate Survives(at: int, aging: Option<int>) {
    aging == None || at >= aging.value - 10
  }

  datatype Seen = Seen(port: Port, at: int)

  /** The last accepted learn of every address; one is refused only when 128 others are live.
      Nothing here mentions the table. */
  ghost function LastSeen(h: seq<Event>): map<Mac, Seen>
    decreases h, 0
  {
    if h == [] then map[]
    else
      var before := h[..|h| - 1];
      match h[|h| - 1]
      case Age(_) => LastSeen(before)
      case Learn(m, p, at) =>
        if m in Live(before) || |Live(before)| < 128 then LastSeen(before)[m := Seen(p, at)]
        else LastSeen(before)
  }

  /** The addresses whose last accepted learn is recent enough for the last aging pass. */
  ghost function Live(h: seq<Event>): map<Mac, Seen>
    decreases h, 1
  {
    map m | m in LastSeen(h) && Survives(LastSeen(h)[m].at, LastAging(h)) :: LastSeen(h)[m]
  }

  ghost predicate Represents(t: map<Mac, Info>, l: map<Mac, Seen>) {
    && t.Keys == l.Keys
    && forall m :: m in l ==> t[m] == Info(l[m].port, l[m].at + 10)
  }

  lemma EmptyTable()
    ensures Distinct(seq(SLOTS, _ => EMPTY_ENTRY)) && Table(seq(SLOTS, _ => EMPTY_ENTRY)) == map[]
  {
  }

  /** The table holds exactly the live addresses, each on the port of its last accepted learn. */
  lemma {:induction false} TableIsLive(h: seq<Event>)
    requires ClockRuns(h)
    ensures Distinct(Run(h)) && Represents(Table(Run(h)), Live(h))
  {
    hide Table, Distinct, Live;
    if h == [] {
      EmptyTable();
      assert Live([]) == map[] by { EmptyHistory(); }
    } else {
      var g, e := h[..|h| - 1], h[|h| - 1];
      TableIsLive(g);
      assert |Table(Run(g)).Keys| == |Live(g).Keys|;
      match e {
        case Learn(m, p, at) =>
          LearnRefinesMap(Run(g), p, m, Time(at, 0));
          LearnLive(h);
        case Age(at) =>
          AgeRefinesMap(Run(g), Time(at, 0));
          AgeLive(h);
      }
    }
  }

  lemma EmptyHistory()
    ensures Live([]) == map[]
  {
  }

  lemma {:induction false} LastAgingBefore(h: seq<Event>)
    requires ClockRuns(h) && h != []
    ensures LastAging(h[..|h| - 1]) == None || LastAging(h[..|h| - 1]).value <= h[|h| - 1].at
  {
    var g := h[..|h| - 1];
    if g != [] {
      var k := LastAgingIsEvent(g);
    }
  }

  lemma {:induction false} LastAgingIsEvent(h: seq<Event>) returns (k: int)
    ensures LastAging(h).Some? ==> 0 <= k < |h| && h[k].at == LastAging(h).value
  {
    k := -1;
    if h != [] {
      if h[|h| - 1].Age? {
        k := |h| - 1;
      } else {
        k := LastAgingIsEvent(h[..|h| - 1]);
      }
    }
  }

  lemma LearnLive(h: seq<Event>)
    requires ClockRuns(h) && h != [] && h[|h| - 1].Learn?
    ensures var g := h[..|h| - 1]; var e := h[|h| - 1];
            Live(h) == if e.mac in Live(g) || |Live(g)| < 128 then Live(g)[e.mac := Seen(e.port, e.at)]
                       else Live(g)
  {
    LastAgingBefore(h);
  }

  lemma AgeLive(h: seq<Event>)
    requires ClockRuns(h) && h != [] && h[|h| - 1].Age?
    ensures var g := h[..|h| - 1];
            Live(h) == map m | m in Live(g) && Live(g)[m].at + 10 >= h[|h| - 1].at :: Live(g)[m]
  {
    LastAgingBefore(h);
  }

  /** Right after an aging pass at time t the valid addresses are exactly those whose last
      accepted learn was at or after t - 10, each on the port of that learn. */
  lemma AfterAging(h: seq<Event>, t: int, m: Mac)
    requires ClockRuns(h + [Age(t)])
    ensures var table := Table(Run(h + [Age(t)]));
            && (m in table <==> m in LastSeen(h) && LastSeen(h)[m].at >= t - 10)
            && (m in table ==> table[m].port == LastSeen(h)[m].port)
  {
    hide Table, Distinct, Run;
    var g := h + [Age(t)];
    assert g[..|g| - 1] == h;
    TableIsLive(g);
    assert LastAging(g) == Some(t) && LastSeen(g) == LastSeen(h);
  }
}

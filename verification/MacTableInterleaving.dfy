/** The receive thread learns addresses while the aging thread clears them, without a lock.
    Every read and write of a table field is one step here, and a run is any order of the
    two threads' steps, of packet arrivals and of clock changes. */
module MacTableInterleaving {
  import opened MacTable

  /** The receive thread: waiting, scanning slot i with free slot j (-1 for none), comparing
      the three halves of an address, then refreshing slot i or filling slot j. */
  datatype Learner =
    | Waiting
    | Scan(i: nat, j: int)
    | Compare(i: nat, j: int, half: nat, differs: bool)
    | Copy(slot: nat, byte: nat)
    | ReadClock(slot: nat, fill: bool)
    | WriteSec(slot: nat, fill: bool, now: Time)
    | WriteUsec(slot: nat, fill: bool, now: Time)
    | WritePort(slot: nat, fill: bool, now: Time)
    | Publish(slot: nat, now: Time)

  /** The aging thread: about to read the clock, a valid bit, an expiry time, or to clear. */
  datatype Ager =
    | StartPass
    | ReadValid(i: nat, now: Time)
    | ReadExpiry(i: nat, now: Time)
    | Clear(i: nat, now: Time)

  datatype System = System(slots: seq<Entry>, mac: Mac, port: Port, learner: Learner, ager: Ager,
                           clock: Time)

  /** Who moves next. */
  datatype Choice = LearnerMoves | AgerMoves | PacketArrives(mac: Mac, port: Port) | ClockShows(t: Time)

  predicate WellTyped(s: System) {
    && |s.slots| == SLOTS
    && (match s.learner
        case Waiting => true
        case Scan(i, j) => i <= SLOTS && -1 <= j < SLOTS
        case Compare(i, j, half, _) => i < SLOTS && -1 <= j < SLOTS && half < 3
        case Copy(slot, byte) => slot < SLOTS && byte < 6
        case ReadClock(slot, _) => slot < SLOTS
        case WriteSec(slot, _, _) => slot < SLOTS
        case WriteUsec(slot, _, _) => slot < SLOTS
        case WritePort(slot, _, _) => slot < SLOTS
        case Publish(slot, _) => slot < SLOTS)
    && (match s.ager
        case StartPass => true
        case ReadValid(i, _) => i < SLOTS
        case ReadExpiry(i, _) => i < SLOTS
        case Clear(i, _) => i < SLOTS)
  }

  function SetAddrByte(e: Entry, k: nat, b: bv8): Entry
    requires k < 6
  {
    e.(addr := e.addr[k := b])
  }

  function HalvesDiffer(a: Mac, b: Mac, k: nat): bool
    requires k < 3
  {
    Join(a[2 * k], a[2 * k + 1]) ^ Join(b[2 * k], b[2 * k + 1]) != 0
  }

  /** One step of the receive thread. */
  function LearnerStep(s: System): System
    requires WellTyped(s)
  {
    match s.learner
    case Waiting => s
    case Scan(i, j) =>
      if i == SLOTS then s.(learner := if j == -1 then Waiting else Copy(j, 0))
      else if s.slots[i].valid then s.(learner := Compare(i, j, 0, false))
      else s.(learner := Scan(i + 1, if j == -1 then i else j))
    case Compare(i, j, half, differs) =>
      var d := differs || HalvesDiffer(s.mac, s.slots[i].addr, half);
      if half < 2 then s.(learner := Compare(i, j, half + 1, d))
      else if d then s.(learner := Scan(i + 1, j))
      else s.(learner := ReadClock(i, false))
    case Copy(k, byte) =>
      s.(slots := s.slots[k := SetAddrByte(s.slots[k], byte, s.mac[byte])],
         learner := if byte < 5 then Copy(k, byte + 1) else ReadClock(k, true))
    case ReadClock(k, fill) => s.(learner := WriteSec(k, fill, s.clock))
    case WriteSec(k, fill, now) =>
      s.(slots := s.slots[k := s.slots[k].(expiry := s.slots[k].expiry.(sec := now.sec + LIFE_TIME))],
         learner := WriteUsec(k, fill, now))
    case WriteUsec(k, fill, now) =>
      s.(slots := s.slots[k := s.slots[k].(expiry := s.slots[k].expiry.(usec := now.usec))],
         learner := WritePort(k, fill, now))
    case WritePort(k, fill, now) =>
      s.(slots := s.slots[k := s.slots[k].(port := s.port)],
         learner := if fill then Publish(k, now) else Waiting)
    case Publish(k, now) =>
      s.(slots := s.slots[k := s.slots[k].(valid := true)], learner := Waiting)
  }

  function NextSlot(i: nat, now: Time): Ager {
    if i + 1 < SLOTS then ReadValid(i + 1, now) else StartPass
  }

  /** One step of the aging thread. */
  function AgerStep(s: System): System
    requires WellTyped(s)
  {
    match s.ager
    case StartPass => s.(ager := ReadValid(0, s.clock))
    case ReadValid(i, now) =>
      s.(ager := if s.slots[i].valid then ReadExpiry(i, now) else NextSlot(i, now))
    case ReadExpiry(i, now) =>
      s.(ager := if s.slots[i].expiry.sec < now.sec then Clear(i, now) else NextSlot(i, now))
    case Clear(i, now) =>
      s.(slots := s.slots[i := s.slots[i].(valid := false)], ager := NextSlot(i, now))
  }

  function Step(s: System, c: Choice): (r: System)
    requires WellTyped(s)
    ensures WellTyped(r)
  {
    match c
    case LearnerMoves => LearnerStep(s)
    case AgerMoves => AgerStep(s)
    case PacketArrives(m, p) => if s.learner == Waiting then s.(mac := m, port := p, learner := Scan(0, -1)) else s
    case ClockShows(t) => s.(clock := t)
  }

  const NO_MAC: Mac := [0, 0, 0, 0, 0, 0]

  function Reset(): (s: System)
    ensures WellTyped(s)
  {
    System(seq(SLOTS, _ => EMPTY_ENTRY), NO_MAC, 0, Waiting, StartPass, Time(0, 0))
  }

  function At(run: nat -> Choice, t: nat): (s: System)
    ensures WellTyped(s)
  {
    if t == 0 then Reset() else Step(At(run, t - 1), run(t - 1))
  }

  // ---------------------------------------------------------------- the invariant

  /** No valid slot below i holds the address being learned. */
  ghost predicate Unseen(s: System, i: nat) {
    forall k :: 0 <= k < i && k < |s.slots| && s.slots[k].valid ==> s.slots[k].addr != s.mac
  }

  ghost predicate FreeIfChosen(s: System, j: int, i: nat) {
    j == -1 || (0 <= j < i && j < |s.slots| && !s.slots[j].valid)
  }

  /** The learner owns slot k: it is free and its address is the new one. */
  ghost predicate Filling(s: System, k: nat) {
    k < |s.slots| && !s.slots[k].valid && s.slots[k].addr == s.mac && Unseen(s, SLOTS)
  }

  ghost predicate LearnerInv(s: System) {
    match s.learner
    case Waiting => true
    case Scan(i, j) => FreeIfChosen(s, j, i) && Unseen(s, i)
    case Compare(i, j, half, differs) =>
      && FreeIfChosen(s, j, i) && Unseen(s, i) && i < |s.slots| && half < 3
      && (differs <==> exists k :: 0 <= k < half && HalvesDiffer(s.mac, s.slots[i].addr, k))
    case Copy(k, byte) =>
      && k < |s.slots| && !s.slots[k].valid && byte < 6 && Unseen(s, SLOTS)
      && (forall b :: 0 <= b < byte ==> s.slots[k].addr[b] == s.mac[b])
    case ReadClock(k, fill) => fill ==> Filling(s, k)
    case WriteSec(k, fill, now) => fill ==> Filling(s, k)
    case WriteUsec(k, fill, now) =>
      fill ==> Filling(s, k) && s.slots[k].expiry.sec == now.sec + LIFE_TIME
    case WritePort(k, fill, now) => fill ==> Filling(s, k) && s.slots[k].expiry == Expiry(now)
    case Publish(k, now) =>
      Filling(s, k) && s.slots[k].expiry == Expiry(now) && s.slots[k].port == s.port
  }

  ghost predicate AgerInv(s: System) {
    match s.ager
    case ReadExpiry(i, _) => i < |s.slots| && s.slots[i].valid
    case Clear(i, _) => i < |s.slots| && s.slots[i].valid
    case _ => true
  }

  ghost predicate Inv(s: System) {
    WellTyped(s) && Distinct(s.slots) && LearnerInv(s) && AgerInv(s)
  }

  lemma AllHalves(a: Mac, b: Mac)
    ensures a != b <==> HalvesDiffer(a, b, 0) || HalvesDiffer(a, b, 1) || HalvesDiffer(a, b, 2)
  {
    hide Join;
    ComparesAddresses(a, b);
    XorZero(Join(a[0], a[1]), Join(b[0], b[1]), Join(a[2], a[3]), Join(b[2], b[3]),
            Join(a[4], a[5]), Join(b[4], b[5]));
    XorZero(Join(a[0], a[1]), Join(b[0], b[1]), 0, 0, 0, 0);
    XorZero(Join(a[2], a[3]), Join(b[2], b[3]), 0, 0, 0, 0);
    XorZero(Join(a[4], a[5]), Join(b[4], b[5]), 0, 0, 0, 0);
  }

  /** The learner's own part of the invariant, one kind of step at a time. */
  lemma ScanStep(s: System)
    requires Inv(s) && s.learner.Scan?
    ensures LearnerInv(LearnerStep(s)) && LearnerStep(s).slots == s.slots
  {
    hide HalvesDiffer, Distinct, AgerInv;
  }

  lemma CompareStep(s: System)
    requires Inv(s) && s.learner.Compare?
    ensures LearnerInv(LearnerStep(s)) && LearnerStep(s).slots == s.slots
  {
    hide HalvesDiffer, Distinct, AgerInv;
    AllHalves(s.mac, s.slots[s.learner.i].addr);
  }

  lemma CopyStep(s: System)
    requires Inv(s) && s.learner.Copy?
    ensures LearnerInv(LearnerStep(s)) && Distinct(LearnerStep(s).slots)
  {
    hide HalvesDiffer, AgerInv;
    var r, k, byte := LearnerStep(s), s.learner.slot, s.learner.byte;
    assert forall b :: 0 <= b <= byte ==> r.slots[k].addr[b] == s.mac[b];
    if byte == 5 {
      assert r.slots[k].addr == s.mac;
    }
  }

  predicate Writing(l: Learner) { l.ReadClock? || l.WriteSec? || l.WriteUsec? || l.WritePort? }

  lemma WriteStep(s: System)
    requires Inv(s) && Writing(s.learner)
    ensures LearnerInv(LearnerStep(s))
  {
    hide HalvesDiffer, AgerInv, Distinct;
  }

  lemma WriteDistinct(s: System)
    requires Inv(s) && Writing(s.learner)
    ensures Distinct(LearnerStep(s).slots)
  {
    hide HalvesDiffer, AgerInv, LearnerInv;
  }

  lemma PublishStep(s: System)
    requires Inv(s) && s.learner.Publish?
    ensures LearnerInv(LearnerStep(s)) && Distinct(LearnerStep(s).slots)
  {
    hide HalvesDiffer, AgerInv;
  }

  /** The receive thread never clears a valid bit. */
  lemma LearnerKeepsValid(s: System, i: nat)
    requires WellTyped(s) && i < SLOTS && s.slots[i].valid
    ensures LearnerStep(s).slots[i].valid
  {
  }

  lemma LearnerKeepsInv(s: System)
    requires Inv(s)
    ensures Inv(LearnerStep(s))
  {
    hide LearnerStep, LearnerInv, Distinct;
    match s.learner {
      case Waiting => assert LearnerStep(s) == s by { WaitingStep(s); }
      case Scan(_, _) => ScanStep(s);
      case Compare(_, _, _, _) => CompareStep(s);
      case Copy(_, _) => CopyStep(s);
      case Publish(_, _) => PublishStep(s);
      case _ =>
        WriteStep(s);
        WriteDistinct(s);
    }
    LearnerTypes(s);
    match s.ager {
      case ReadExpiry(i, _) => LearnerKeepsValid(s, i);
      case Clear(i, _) => LearnerKeepsValid(s, i);
      case _ =>
    }
  }

  lemma WaitingStep(s: System)
    requires WellTyped(s) && s.learner.Waiting?
    ensures LearnerStep(s) == s
  {
  }

  lemma LearnerTypes(s: System)
    requires WellTyped(s)
    ensures WellTyped(LearnerStep(s)) && LearnerStep(s).ager == s.ager
  {
  }

  /** Clearing a valid bit suits the learner whatever it is doing. */
  lemma ClearSuitsLearner(s: System, i: nat, a: Ager)
    requires Inv(s) && i < SLOTS
    ensures var r := s.(slots := s.slots[i := s.slots[i].(valid := false)], ager := a);
            LearnerInv(r) && Distinct(r.slots)
  {
    hide HalvesDiffer, AgerInv;
    var slots := s.slots[i := s.slots[i].(valid := false)];
    assert forall k :: 0 <= k < SLOTS ==> slots[k].addr == s.slots[k].addr
                                           && (slots[k].valid ==> s.slots[k].valid);
  }

  lemma AgerKeepsInv(s: System)
    requires Inv(s)
    ensures Inv(AgerStep(s))
  {
    hide LearnerInv, Distinct;
    match s.ager {
      case Clear(i, now) => ClearSuitsLearner(s, i, NextSlot(i, now));
      case _ => assert LearnerInv(AgerStep(s)) by { SameSlots(s, AgerStep(s)); }
    }
  }

  lemma SameSlots(s: System, r: System)
    requires LearnerInv(s) && r == s.(ager := r.ager)
    ensures LearnerInv(r)
  {
    hide HalvesDiffer;
  }

  lemma StepKeepsInv(s: System, c: Choice)
    requires Inv(s)
    ensures Inv(Step(s, c))
  {
    hide LearnerStep, AgerStep;
    match c {
      case LearnerMoves => LearnerKeepsInv(s);
      case AgerMoves => AgerKeepsInv(s);
      case PacketArrives(_, _) =>
      case ClockShows(_) =>
    }
  }

  lemma {:induction false} AlwaysInv(run: nat -> Choice, t: nat)
    ensures Inv(At(run, t))
  {
    hide Step;
    if t == 0 {
      assert Inv(Reset());
    } else {
      AlwaysInv(run, t - 1);
      StepKeepsInv(At(run, t - 1), run(t - 1));
    }
  }

  // ---------------------------------------------------------------- what every run keeps

  /** No two valid slots ever hold the same address. */
  lemma AddressesStayDistinct(run: nat -> Choice, t: nat)
    ensures Distinct(At(run, t).slots)
  {
    hide *;
    AlwaysInv(run, t);
    DistinctOf(At(run, t));
  }

  lemma DistinctOf(s: System)
    requires Inv(s)
    ensures Distinct(s.slots)
  {
  }

  /** The free slot the learner has in mind, or -1. */
  function Chosen(l: Learner): int {
    match l
    case Waiting => -1
    case Scan(_, j) => j
    case Compare(_, j, _, _) => j
    case Copy(k, _) => k
    case ReadClock(k, fill) => if fill then k else -1
    case WriteSec(k, fill, _) => if fill then k else -1
    case WriteUsec(k, fill, _) => if fill then k else -1
    case WritePort(k, fill, _) => if fill then k else -1
    case Publish(k, _) => k
  }

  /** The free slot the learner has chosen stays free until it is published. */
  lemma ChosenSlotIsFree(run: nat -> Choice, t: nat)
    ensures var s := At(run, t); var k := Chosen(s.learner);
            k != -1 ==> 0 <= k < SLOTS && !s.slots[k].valid
  {
    hide At;
    AlwaysInv(run, t);
  }

  /** A slot becomes valid only in the step that publishes it, when the new address, its port
      and the whole of its expiry time are in place. */
  lemma ValidMeansFilled(run: nat -> Choice, t: nat, i: nat)
    requires i < SLOTS && !At(run, t).slots[i].valid && At(run, t + 1).slots[i].valid
    ensures var s := At(run, t);
            && run(t) == LearnerMoves
            && s.learner.Publish? && s.learner.slot == i
            && At(run, t + 1).slots[i] == Entry(s.port, true, s.mac, Expiry(s.learner.now))
  {
    AlwaysInv(run, t);
    OnlyPublishes(At(run, t), run(t), i);
  }

  lemma OnlyPublishes(s: System, c: Choice, i: nat)
    requires Inv(s) && i < SLOTS && !s.slots[i].valid && Step(s, c).slots[i].valid
    ensures c == LearnerMoves && s.learner.Publish? && s.learner.slot == i
    ensures Step(s, c).slots[i] == Entry(s.port, true, s.mac, Expiry(s.learner.now))
  {
    hide HalvesDiffer, Distinct, AgerInv;
  }

  /** The occupant of a slot does not change while the slot is valid. */
  lemma OccupantStays(s: System, c: Choice, i: nat)
    requires Inv(s) && i < SLOTS && s.slots[i].valid
    ensures Step(s, c).slots[i].addr == s.slots[i].addr
    ensures !Step(s, c).slots[i].valid ==> c == AgerMoves && s.ager.Clear? && s.ager.i == i
  {
    hide HalvesDiffer, Distinct, Unseen;
  }

  /** The aging thread stands where it stood, unless it was its turn. */
  lemma ClearFollowsRead(s: System, c: Choice, i: nat, now: Time)
    requires WellTyped(s) && Step(s, c).ager == Clear(i, now)
    ensures i < SLOTS
    ensures s.ager == Clear(i, now)
            || (c == AgerMoves && s.ager == ReadExpiry(i, now) && s.slots[i].expiry.sec < now.sec)
  {
    hide HalvesDiffer;
    LearnerTypes(s);
  }

  /** The reading that condemned slot i, for an aging thread about to clear it. */
  ghost predicate Condemned(run: nat -> Choice, u: nat, t: nat, i: nat, now: Time)
    requires i < SLOTS
  {
    && u < t && run(u) == AgerMoves && At(run, u).ager == ReadExpiry(i, now)
    && At(run, u).slots[i].expiry.sec < now.sec
    && forall v :: u <= v <= t ==>
         At(run, v).slots[i].valid && At(run, v).slots[i].addr == At(run, u).slots[i].addr
  }

  lemma {:induction false} ReadingBefore(run: nat -> Choice, t: nat, i: nat, now: Time) returns (u: nat)
    requires At(run, t).ager == Clear(i, now)
    ensures i < SLOTS && Condemned(run, u, t, i, now)
  {
    hide Step, Inv, WellTyped;
    u := 0;
    if t > 0 {
      var s, c := At(run, t - 1), run(t - 1);
      assert WellTyped(s);
      ClearFollowsRead(s, c, i, now);
      AlwaysInv(run, t - 1);
      AlwaysInv(run, t);
      AgerHoldsValid(At(run, t), i);
      AgerHoldsValid(s, i);
      OccupantStays(s, c, i);
      if s.ager == Clear(i, now) {
        u := ReadingBefore(run, t - 1, i, now);
      } else {
        u := t - 1;
      }
    }
  }

  lemma AgerHoldsValid(s: System, i: nat)
    requires Inv(s)
    ensures (s.ager.Clear? || s.ager.ReadExpiry?) && s.ager.i == i ==> i < SLOTS && s.slots[i].valid
  {
  }

  /** A slot is only cleared by the aging thread, on an expiry time it read from that slot while
      the same occupant was in it, and that had passed: a new occupant is never evicted because
      of the one before it. */
  lemma EvictionIsJustified(run: nat -> Choice, t: nat, i: nat) returns (u: nat, now: Time)
    requires i < SLOTS && At(run, t).slots[i].valid && !At(run, t + 1).slots[i].valid
    ensures run(t) == AgerMoves && Condemned(run, u, t, i, now)
    ensures forall p: nat :: p < t && !At(run, p).slots[i].valid ==> p < u
  {
    hide Step, Inv;
    AlwaysInv(run, t);
    OccupantStays(At(run, t), run(t), i);
    now := At(run, t).ager.now;
    u := ReadingBefore(run, t, i, now);
  }

  /** n moves of the receive thread. */
  function Moves(s: System, n: nat): (r: System)
    requires WellTyped(s)
    ensures WellTyped(r)
  {
    if n == 0 then s else Step(Moves(s, n - 1), LearnerMoves)
  }

  /** A packet from the occupant of slot 0 refreshes that slot in eight moves. */
  lemma RefreshOfFirstSlot(s: System)
    requires WellTyped(s) && s.learner == Scan(0, -1) && s.slots[0].valid && s.slots[0].addr == s.mac
    ensures Moves(s, 5) == s.(learner := WriteSec(0, false, s.clock))
    ensures Moves(s, 8) == s.(slots := s.slots[0 := s.slots[0].(port := s.port, expiry := Expiry(s.clock))],
                              learner := Waiting)
  {
    hide HalvesDiffer, Step;
    AllHalves(s.mac, s.mac);
    assert Moves(s, 0) == s;
    assert Moves(s, 1) == s.(learner := Compare(0, -1, 0, false)) by { MoveOf(s); }
    CompareMoves(Moves(s, 1), 0);
    assert Moves(s, 2) == s.(learner := Compare(0, -1, 1, false));
    CompareMoves(Moves(s, 2), 1);
    assert Moves(s, 3) == s.(learner := Compare(0, -1, 2, false));
    CompareMoves(Moves(s, 3), 2);
    assert Moves(s, 4) == s.(learner := ReadClock(0, false));
    MoveOf(Moves(s, 4));
    MoveOf(Moves(s, 5));
    MoveOf(Moves(s, 6));
    MoveOf(Moves(s, 7));
    assert Moves(s, 5) == s.(learner := WriteSec(0, false, s.clock));
    assert Moves(s, 6).learner == WriteUsec(0, false, s.clock);
    assert Moves(s, 7).learner == WritePort(0, false, s.clock);
  }

  lemma MoveOf(s: System)
    requires WellTyped(s)
    ensures Step(s, LearnerMoves) == LearnerStep(s)
  {
  }

  lemma CompareMoves(s: System, half: nat)
    requires WellTyped(s) && s.slots[0].addr == s.mac && half < 3
    requires s.learner == Compare(0, -1, half, false) && !HalvesDiffer(s.mac, s.mac, half)
    ensures Step(s, LearnerMoves)
            == s.(learner := if half < 2 then Compare(0, -1, half + 1, false) else ReadClock(0, false))
  {
    hide HalvesDiffer;
  }

  // ---------------------------------------------------------------- the slot of a refresh

  /** No valid slot but k holds the address being learned. */
  ghost predicate OnlyIn(s: System, k: nat) {
    forall i :: 0 <= i < |s.slots| && i != k && s.slots[i].valid ==> s.slots[i].addr != s.mac
  }

  /** Slot k, valid or not, holds the address being learned, and no other valid slot does. */
  ghost predicate Aims(s: System, k: nat) {
    k < |s.slots| && s.slots[k].addr == s.mac && OnlyIn(s, k)
  }

  /** The receive thread writes into the slot it found the address in. */
  ghost predicate OnTarget(s: System) {
    match s.learner
    case Compare(i, _, _, _) => i < |s.slots| && (s.slots[i].addr == s.mac ==> OnlyIn(s, i))
    case ReadClock(k, fill) => fill || Aims(s, k)
    case WriteSec(k, fill, _) => fill || Aims(s, k)
    case WriteUsec(k, fill, _) => fill || Aims(s, k)
    case WritePort(k, fill, _) => fill || Aims(s, k)
    case _ => true
  }

  lemma LearnerOnTarget(s: System)
    requires Inv(s) && OnTarget(s)
    ensures OnTarget(LearnerStep(s))
  {
    hide HalvesDiffer, AgerInv, Unseen;
    if s.learner.Compare? {
      AllHalves(s.mac, s.slots[s.learner.i].addr);
    }
  }

  lemma AgerOnTarget(s: System)
    requires Inv(s) && OnTarget(s)
    ensures OnTarget(AgerStep(s))
  {
    hide HalvesDiffer, AgerInv, LearnerInv, Distinct;
  }

  lemma {:induction false} AlwaysOnTarget(run: nat -> Choice, t: nat)
    ensures OnTarget(At(run, t))
  {
    hide LearnerStep, AgerStep, Inv, Aims, OnlyIn;
    if t > 0 {
      AlwaysInv(run, t - 1);
      AlwaysOnTarget(run, t - 1);
      match run(t - 1) {
        case LearnerMoves => LearnerOnTarget(At(run, t - 1));
        case AgerMoves => AgerOnTarget(At(run, t - 1));
        case PacketArrives(_, _) =>
        case ClockShows(t') => ClockOnTarget(At(run, t - 1), t');
      }
    }
  }

  lemma ClockOnTarget(s: System, t: Time)
    requires OnTarget(s)
    ensures OnTarget(s.(clock := t))
  {
  }

  /** The receive thread read slot k as valid and has since been comparing or refreshing it. */
  predicate OnSlot(l: Learner, k: nat) {
    match l
    case Compare(i, _, _, _) => i == k
    case ReadClock(i, fill) => i == k && !fill
    case WriteSec(i, fill, _) => i == k && !fill
    case WriteUsec(i, fill, _) => i == k && !fill
    case WritePort(i, fill, _) => i == k && !fill
    case _ => false
  }

  /** The receive thread comes to a slot only by reading it as valid. */
  lemma ComesToSlot(s: System, c: Choice, k: nat)
    requires Inv(s) && k < SLOTS && OnSlot(Step(s, c).learner, k) && !OnSlot(s.learner, k)
    ensures s.slots[k].valid && Step(s, c).slots[k].valid
  {
    hide HalvesDiffer, Distinct, AgerInv, LearnerInv;
  }

  lemma OthersLeaveLearner(s: System, c: Choice)
    requires WellTyped(s) && c == AgerMoves
    ensures Step(s, c).learner == s.learner
  {
  }

  /** If the slot being compared or refreshed is invalid, the aging thread cleared it after the
      receive thread had read it as valid for this very packet. */
  lemma {:induction false} ClearedMeanwhile(run: nat -> Choice, t: nat, k: nat) returns (u: nat)
    requires k < SLOTS && OnSlot(At(run, t).learner, k) && !At(run, t).slots[k].valid
    ensures u < t && run(u) == AgerMoves && At(run, u).ager.Clear? && At(run, u).ager.i == k
    ensures At(run, u).slots[k].valid
    ensures forall v: nat :: u <= v <= t ==> OnSlot(At(run, v).learner, k)
  {
    hide Step, Inv, OnSlot;
    u := 0;
    if t == 0 {
      WaitingAtReset(k);
    } else {
      var s, c := At(run, t - 1), run(t - 1);
      AlwaysInv(run, t - 1);
      if !OnSlot(s.learner, k) {
        ComesToSlot(s, c, k);
      } else if s.slots[k].valid {
        OccupantStays(s, c, k);
        u := t - 1;
      } else {
        u := ClearedMeanwhile(run, t - 1, k);
      }
    }
  }

  lemma WaitingAtReset(k: nat)
    ensures !OnSlot(Reset().learner, k)
  {
  }

  // ---------------------------------------------------------------- which refreshes are lost

  /** The receive thread is about to write the new expiry of a refresh of slot k. */
  predicate Refreshing(s: System, k: nat) {
    s.learner.WriteSec? && s.learner.slot == k && !s.learner.fill
  }

  /** No valid slot holds m. */
  ghost predicate Unheld(s: System, m: Mac) {
    forall i :: 0 <= i < |s.slots| && s.slots[i].valid ==> s.slots[i].addr != m
  }

  ghost predicate ClockForward(run: nat -> Choice) {
    forall t: nat :: At(run, t).clock.sec <= At(run, t + 1).clock.sec
  }

  /** The time the receive thread works with is not later than the clock. */
  ghost predicate NowIsPast(s: System) {
    match s.learner
    case WriteSec(_, _, now) => now.sec <= s.clock.sec
    case _ => true
  }

  /** Slot k holds m and is fresh enough to outlive a pass that started at c. */
  ghost predicate Guarded(s: System, k: nat, m: Mac, now: int, c: Time) {
    && k < |s.slots| && s.slots[k].valid && s.slots[k].addr == m
    && now + LIFE_TIME <= s.slots[k].expiry.sec && now <= s.clock.sec
    && (s.learner.WriteSec? && s.learner.slot == k ==> now <= s.learner.now.sec)
    && (s.ager.StartPass? || (s.ager.now == c && !(s.ager.Clear? && s.ager.i == k)))
  }

  lemma StepNow(s: System, ch: Choice)
    requires WellTyped(s) && NowIsPast(s) && s.clock.sec <= Step(s, ch).clock.sec
    ensures NowIsPast(Step(s, ch))
  {
    hide HalvesDiffer;
  }

  lemma {:induction false} AlwaysNowIsPast(run: nat -> Choice, t: nat)
    requires ClockForward(run)
    ensures NowIsPast(At(run, t))
  {
    hide Step, NowIsPast;
    if t > 0 {
      AlwaysNowIsPast(run, t - 1);
      assert At(run, t - 1).clock.sec <= At(run, t - 1 + 1).clock.sec;
      StepNow(At(run, t - 1), run(t - 1));
    } else {
      NowAtReset();
    }
  }

  lemma NowAtReset()
    ensures NowIsPast(Reset())
  {
  }

  lemma LearnerGuards(s: System, k: nat, m: Mac, now: int, c: Time)
    requires Inv(s) && Guarded(s, k, m, now, c)
    ensures Guarded(LearnerStep(s), k, m, now, c)
  {
    hide HalvesDiffer, Distinct, AgerInv, Unseen;
  }

  lemma AgerGuards(s: System, k: nat, m: Mac, now: int, c: Time)
    requires Inv(s) && Guarded(s, k, m, now, c) && !s.ager.StartPass? && c.sec <= now + LIFE_TIME
    ensures Guarded(AgerStep(s), k, m, now, c)
  {
    hide HalvesDiffer, Distinct, LearnerInv, AgerInv;
  }

  lemma StepGuards(s: System, ch: Choice, k: nat, m: Mac, now: int, c: Time)
    requires Inv(s) && Guarded(s, k, m, now, c) && !s.ager.StartPass? && c.sec <= now + LIFE_TIME
    requires s.clock.sec <= Step(s, ch).clock.sec
    ensures Guarded(Step(s, ch), k, m, now, c)
  {
    hide LearnerStep, AgerStep, Inv;
    match ch {
      case LearnerMoves => LearnerGuards(s, k, m, now, c);
      case AgerMoves => AgerGuards(s, k, m, now, c);
      case PacketArrives(_, _) =>
      case ClockShows(_) =>
    }
  }

  /** A refresh of a valid slot, written while the aging thread is not about to clear it, guards it. */
  lemma RefreshGuards(s: System, k: nat)
    requires Inv(s) && OnTarget(s) && NowIsPast(s) && Refreshing(s, k) && !s.ager.StartPass?
    requires k < SLOTS && s.slots[k].valid && !(s.ager.Clear? && s.ager.i == k)
    ensures Guarded(Step(s, LearnerMoves), k, s.mac, s.learner.now.sec, s.ager.now)
  {
    hide HalvesDiffer, Inv, OnlyIn;
  }

  lemma {:induction false} StaysGuarded(run: nat -> Choice, t: nat, v: nat, k: nat, m: Mac, now: int, c: Time)
    requires ClockForward(run) && t <= v && Guarded(At(run, t), k, m, now, c) && c.sec <= now + LIFE_TIME
    requires forall u: nat :: t <= u < v ==> !At(run, u).ager.StartPass?
    ensures Guarded(At(run, v), k, m, now, c)
    decreases v
  {
    hide Step, Inv, Guarded;
    if t < v {
      StaysGuarded(run, t, v - 1, k, m, now, c);
      AlwaysInv(run, v - 1);
      assert At(run, v - 1).clock.sec <= At(run, v - 1 + 1).clock.sec;
      StepGuards(At(run, v - 1), run(v - 1), k, m, now, c);
    }
  }

  /** Slot k keeps m until the aging thread, about to clear it, gets its turn before the pass ends. */
  lemma {:induction false} ClearComes(run: nat -> Choice, t: nat, e: nat, k: nat, c: Time) returns (v: nat)
    requires t < e && At(run, t).ager == Clear(k, c) && At(run, e).ager.StartPass?
    ensures k < SLOTS && t <= v < e && run(v) == AgerMoves && At(run, v).ager == Clear(k, c)
    ensures At(run, v).slots[k].valid && At(run, v).slots[k].addr == At(run, t).slots[k].addr
    decreases e - t
  {
    hide HalvesDiffer, LearnerStep, Inv;
    AlwaysInv(run, t);
    AgerHoldsValid(At(run, t), k);
    if run(t) == AgerMoves {
      v := t;
    } else {
      LearnerTypes(At(run, t));
      OccupantStays(At(run, t), run(t), k);
      assert At(run, t + 1).ager == Clear(k, c);
      v := ClearComes(run, t + 1, e, k, c);
    }
  }

  /** At some moment after t, up to e, the address m is in no valid slot. */
  ghost predicate AddressGone(run: nat -> Choice, t: nat, e: nat, m: Mac) {
    exists v: nat :: t < v <= e && Unheld(At(run, v), m)
  }

  /** A pass is under way at t and ends at e. */
  ghost predicate PassEnds(run: nat -> Choice, t: nat, e: nat) {
    t < e && At(run, e).ager.StartPass? && forall v: nat :: t <= v < e ==> !At(run, v).ager.StartPass?
  }

  /** Clearing the one slot that holds an address leaves it in none. */
  lemma ClearLeavesNone(s: System)
    requires Inv(s) && s.ager.Clear? && s.slots[s.ager.i].valid
    ensures Unheld(Step(s, AgerMoves), s.slots[s.ager.i].addr)
  {
    hide HalvesDiffer, LearnerInv;
  }

  /** A refresh of an invalid slot leaves the address in none. */
  lemma DeadSlotWritten(s: System, k: nat)
    requires Inv(s) && OnTarget(s) && Refreshing(s, k) && k < SLOTS && !s.slots[k].valid
    ensures Unheld(Step(s, LearnerMoves), s.mac)
  {
    hide HalvesDiffer, LearnerInv, Distinct;
  }

  lemma RefreshLost(run: nat -> Choice, t: nat, e: nat, k: nat)
    requires k < SLOTS && PassEnds(run, t, e) && run(t) == LearnerMoves && Refreshing(At(run, t), k)
    requires !At(run, t).slots[k].valid || (At(run, t).ager.Clear? && At(run, t).ager.i == k)
    ensures AddressGone(run, t, e, At(run, t).mac)
  {
    hide Step, Inv, Unheld, OnlyIn;
    AlwaysInv(run, t);
    AlwaysOnTarget(run, t);
    if !At(run, t).slots[k].valid {
      DeadSlotWritten(At(run, t), k);
      NextOf(run, t);
      assert Unheld(At(run, t + 1), At(run, t).mac);
    } else {
      var v := ClearComes(run, t, e, k, At(run, t).ager.now);
      AlwaysInv(run, v);
      ClearLeavesNone(At(run, v));
      NextOf(run, v);
      assert Unheld(At(run, v + 1), At(run, t).mac);
    }
  }

  lemma RefreshKept(run: nat -> Choice, t: nat, e: nat, k: nat, v: nat)
    requires ClockForward(run) && k < SLOTS && PassEnds(run, t, e) && t < v <= e
    requires run(t) == LearnerMoves && Refreshing(At(run, t), k)
    requires At(run, t).ager.now.sec <= At(run, t).learner.now.sec + LIFE_TIME
    requires At(run, t).slots[k].valid && !(At(run, t).ager.Clear? && At(run, t).ager.i == k)
    ensures !Unheld(At(run, v), At(run, t).mac)
  {
    hide Step, Inv, Guarded, NowIsPast, ClockForward, Unheld, OnTarget;
    var s := At(run, t);
    AlwaysInv(run, t);
    AlwaysNowIsPast(run, t);
    AlwaysOnTarget(run, t);
    RefreshGuards(s, k);
    StaysGuarded(run, t + 1, v, k, s.mac, s.learner.now.sec, s.ager.now);
    GuardedIsHeld(At(run, v), k, s.mac, s.learner.now.sec, s.ager.now);
  }

  lemma GuardedIsHeld(s: System, k: nat, m: Mac, now: int, c: Time)
    requires Guarded(s, k, m, now, c)
    ensures !Unheld(s, m)
  {
  }

  /** The address of a refresh is in no slot at some moment before the pass under way ends exactly
      when, as the new expiry is written, the aging thread has already cleared the slot or stands
      at its clearing, having read the old expiry. */
  lemma RefreshLostExactly(run: nat -> Choice, t: nat, e: nat, k: nat)
    requires ClockForward(run) && k < SLOTS && PassEnds(run, t, e)
    requires run(t) == LearnerMoves && Refreshing(At(run, t), k)
    requires At(run, t).ager.now.sec <= At(run, t).learner.now.sec + LIFE_TIME
    ensures AddressGone(run, t, e, At(run, t).mac)
            <==> !At(run, t).slots[k].valid || (At(run, t).ager.Clear? && At(run, t).ager.i == k)
  {
    hide At, ClockForward, PassEnds, Refreshing, Unheld;
    if !At(run, t).slots[k].valid || (At(run, t).ager.Clear? && At(run, t).ager.i == k) {
      RefreshLost(run, t, e, k);
    } else if AddressGone(run, t, e, At(run, t).mac) {
      var v: nat :| t < v <= e && Unheld(At(run, v), At(run, t).mac);
      RefreshKept(run, t, e, k, v);
    }
  }

  // ---------------------------------------------------------------- a run that loses one

  /** A packet is learned, eleven seconds pass, the aging thread condemns its slot, and a second
      packet from the same address refreshes it before the slot is cleared. */
  function LossRun(m: Mac, port: Port): nat -> Choice {
    t => if t == 0 || t == 145 then PacketArrives(m, port)
         else if t == 141 then ClockShows(Time(11, 0))
         else if 142 <= t < 145 || t >= 154 then AgerMoves
         else LearnerMoves
  }

  lemma {:induction false} MovesOfRun(run: nat -> Choice, t: nat, n: nat)
    requires forall u: nat :: t <= u < t + n ==> run(u) == LearnerMoves
    ensures At(run, t + n) == Moves(At(run, t), n)
  {
    hide Step;
    if n > 0 {
      MovesOfRun(run, t, n - 1);
    }
  }

  /** Scanning an empty table takes 128 moves and chooses slot 0. */
  lemma {:induction false} ScanEmpty(s: System, n: nat)
    requires WellTyped(s) && s.learner == Scan(0, -1) && n <= SLOTS
    requires forall i :: 0 <= i < SLOTS ==> !s.slots[i].valid
    ensures Moves(s, n) == s.(learner := Scan(n, if n == 0 then -1 else 0))
  {
    if n > 0 {
      ScanEmpty(s, n - 1);
    }
  }

  lemma CopyByte(s: System, n: nat)
    requires WellTyped(s) && n < 6 && s.learner == Copy(0, n)
    ensures Step(s, LearnerMoves)
            == s.(slots := s.slots[0 := s.slots[0].(addr := s.slots[0].addr[n := s.mac[n]])],
                  learner := if n < 5 then Copy(0, n + 1) else ReadClock(0, true))
  {
  }

  /** The first n bytes of one address before the rest of another. */
  function Mixed(a: Mac, b: Mac, n: nat): Mac
    requires n <= 6
  {
    a[..n] + b[n..]
  }

  lemma MixedMore(a: Mac, b: Mac, n: nat)
    requires n < 6
    ensures Mixed(a, b, n)[n := a[n]] == Mixed(a, b, n + 1) && Mixed(a, b, 0) == b && Mixed(a, b, 6) == a
  {
  }

  /** Copying the address into slot 0, byte by byte. */
  lemma {:induction false} CopyMoves(s: System, n: nat)
    requires WellTyped(s) && s.learner == Copy(0, 0) && n <= 6
    ensures Moves(s, n) == s.(slots := s.slots[0 := s.slots[0].(addr := Mixed(s.mac, s.slots[0].addr, n))],
                              learner := if n < 6 then Copy(0, n) else ReadClock(0, true))
  {
    hide Step, Mixed;
    MixedMore(s.mac, s.slots[0].addr, if n == 0 then 0 else n - 1);
    if n == 0 {
      assert s.slots[0 := s.slots[0]] == s.slots;
    } else {
      CopyMoves(s, n - 1);
      CopyByte(Moves(s, n - 1), n - 1);
    }
  }

  /** The five moves that complete a new entry. */
  lemma CompleteMoves(s: System)
    requires WellTyped(s) && s.learner == ReadClock(0, true)
    ensures Moves(s, 5) == s.(slots := s.slots[0 := Entry(s.port, true, s.slots[0].addr, Expiry(s.clock))],
                              learner := Waiting)
  {
    hide Step;
    assert Moves(s, 0) == s;
    MoveOf(s);
    MoveOf(Moves(s, 1));
    MoveOf(Moves(s, 2));
    MoveOf(Moves(s, 3));
    MoveOf(Moves(s, 4));
    assert Moves(s, 1) == s.(learner := WriteSec(0, true, s.clock));
    assert Moves(s, 2).learner == WriteUsec(0, true, s.clock);
    assert Moves(s, 3).learner == WritePort(0, true, s.clock);
    assert Moves(s, 4).learner == Publish(0, s.clock);
  }

  /** The first packet finds no slot with its address and takes slot 0. */
  lemma FirstPacketScanned(m: Mac, port: Port)
    ensures At(LossRun(m, port), 130) == Reset().(mac := m, port := port, learner := Copy(0, 0))
  {
    hide LearnerStep, Moves;
    var run := LossRun(m, port);
    assert At(run, 0) == Reset();
    var s := At(run, 1);
    assert s == Reset().(mac := m, port := port, learner := Scan(0, -1));
    MovesOfRun(run, 1, SLOTS);
    ScanEmpty(s, SLOTS);
    assert At(run, 129 + 1) == Step(At(run, 129), LearnerMoves);
    ChooseSlot(At(run, 129));
  }

  lemma FirstPacketLearned(m: Mac, port: Port)
    ensures var s := At(LossRun(m, port), 141);
            s == System(Reset().slots[0 := Entry(port, true, m, Expiry(Time(0, 0)))], m, port, Waiting, StartPass,
              Time(0, 0))
  {
    hide Step, Moves, At, Mixed, Expiry;
    var run := LossRun(m, port);
    FirstPacketScanned(m, port);
    var c := At(run, 130);
    MovesOfRun(run, 130, 6);
    CopyMoves(c, 6);
    MixedMore(m, c.slots[0].addr, 0);
    MovesOfRun(run, 136, 5);
    CompleteMoves(At(run, 136));
  }

  lemma ChooseSlot(s: System)
    requires WellTyped(s) && s.learner == Scan(SLOTS, 0)
    ensures Step(s, LearnerMoves) == s.(learner := Copy(0, 0))
  {
  }

  /** Eleven seconds later the aging thread condemns the slot; then the second packet comes. */
  lemma SlotCondemned(m: Mac, port: Port)
    ensures At(LossRun(m, port), 146)
            == System(Reset().slots[0 := Entry(port, true, m, Expiry(Time(0, 0)))], m, port, Scan(0, -1),
                      Clear(0, Time(11, 0)), Time(11, 0))
  {
    hide LearnerStep, Moves, Expiry;
    var run := LossRun(m, port);
    FirstPacketLearned(m, port);
    var s := At(run, 141);
    assert At(run, 142) == s.(clock := Time(11, 0));
    assert At(run, 143) == At(run, 142).(ager := ReadValid(0, Time(11, 0)));
    assert At(run, 144) == At(run, 142).(ager := ReadExpiry(0, Time(11, 0)));
    OldExpiry();
    assert At(run, 145) == At(run, 142).(ager := Clear(0, Time(11, 0)));
  }

  lemma OldExpiry()
    ensures Expiry(Time(0, 0)).sec < 11
  {
  }

  /** What the lack of a lock does cost: a run from reset in which an address that was just
      seen is gone at the end of the pass. */
  lemma RefreshCanBeLost(m: Mac, port: Port)
    ensures var run := LossRun(m, port);
            && Refreshing(At(run, 151), 0) && At(run, 151).ager == Clear(0, Time(11, 0))
            && At(run, 154).slots[0] == Entry(port, true, m, Expiry(Time(11, 0)))
            && At(run, 155).slots[0] == Entry(port, false, m, Expiry(Time(11, 0)))
  {
    hide LearnerStep, Moves, At, Reset, Expiry;
    var run := LossRun(m, port);
    SlotCondemned(m, port);
    RefreshOfFirstSlot(At(run, 146));
    MovesOfRun(run, 146, 5);
    MovesOfRun(run, 146, 8);
    NextOf(run, 154);
  }

  lemma NextOf(run: nat -> Choice, t: nat)
    ensures At(run, t + 1) == Step(At(run, t), run(t))
  {
  }

  // ---------------------------------------------------------------- a run that refreshes a dead slot

  /** The same run, except that the slot is cleared right after the receive thread has read it as
      valid for the second packet. */
  function DeadSlotRun(m: Mac, port: Port): nat -> Choice {
    (t: nat) => if t < 146 then LossRun(m, port)(t) else if t == 147 then AgerMoves else LearnerMoves
  }

  lemma {:induction false} SamePrefix(m: Mac, port: Port, t: nat)
    requires t <= 146
    ensures At(DeadSlotRun(m, port), t) == At(LossRun(m, port), t)
  {
    hide Step;
    if t > 0 {
      SamePrefix(m, port, t - 1);
    }
  }

  /** The comparison and the refresh go on whether the slot is still valid or not. */
  lemma RefreshGoesOn(s: System)
    requires WellTyped(s) && s.learner == Compare(0, -1, 0, false) && s.slots[0].addr == s.mac
    ensures Moves(s, 4) == s.(learner := WriteSec(0, false, s.clock))
    ensures Moves(s, 7) == s.(slots := s.slots[0 := s.slots[0].(port := s.port, expiry := Expiry(s.clock))],
                              learner := Waiting)
  {
    hide HalvesDiffer, Step;
    AllHalves(s.mac, s.mac);
    assert Moves(s, 0) == s;
    CompareMoves(s, 0);
    assert Moves(s, 1) == s.(learner := Compare(0, -1, 1, false));
    CompareMoves(Moves(s, 1), 1);
    assert Moves(s, 2) == s.(learner := Compare(0, -1, 2, false));
    CompareMoves(Moves(s, 2), 2);
    assert Moves(s, 3) == s.(learner := ReadClock(0, false));
    MoveOf(Moves(s, 3));
    MoveOf(Moves(s, 4));
    MoveOf(Moves(s, 5));
    MoveOf(Moves(s, 6));
    assert Moves(s, 4) == s.(learner := WriteSec(0, false, s.clock));
    assert Moves(s, 5).learner == WriteUsec(0, false, s.clock);
    assert Moves(s, 6).learner == WritePort(0, false, s.clock);
  }

  lemma ReadThenCleared(s: System)
    requires WellTyped(s) && s.learner == Scan(0, -1) && s.slots[0].valid && s.ager.Clear? && s.ager.i == 0
    ensures Step(Step(s, LearnerMoves), AgerMoves)
            == s.(slots := s.slots[0 := s.slots[0].(valid := false)], learner := Compare(0, -1, 0, false),
                  ager := ReadValid(1, s.ager.now))
  {
  }

  lemma ClearedUnderway(m: Mac, port: Port)
    ensures At(DeadSlotRun(m, port), 148)
            == System(Reset().slots[0 := Entry(port, false, m, Expiry(Time(0, 0)))], m, port,
                      Compare(0, -1, 0, false), ReadValid(1, Time(11, 0)), Time(11, 0))
  {
    hide Step, Moves, Expiry, At, Reset;
    var run := DeadSlotRun(m, port);
    SamePrefix(m, port, 146);
    SlotCondemned(m, port);
    NextOf(run, 146);
    NextOf(run, 147);
    ReadThenCleared(At(run, 146));
  }

  /** A run from reset in which the refresh goes into a slot that is already cleared: the aging
      thread is past it, the address was just seen, and no slot is valid. */
  lemma DeadSlotRefreshed(m: Mac, port: Port)
    ensures var run := DeadSlotRun(m, port);
            && Refreshing(At(run, 152), 0) && !At(run, 152).slots[0].valid
            && At(run, 152).ager == ReadValid(1, Time(11, 0))
            && At(run, 155).learner == Waiting && At(run, 155).slots[0] == Entry(port, false, m, Expiry(Time(11, 0)))
            && forall i :: 0 <= i < SLOTS ==> !At(run, 155).slots[i].valid
  {
    hide LearnerStep, Moves, At, Expiry;
    var run := DeadSlotRun(m, port);
    ClearedUnderway(m, port);
    RefreshGoesOn(At(run, 148));
    MovesOfRun(run, 148, 4);
    MovesOfRun(run, 148, 7);
  }
}

/** The two threads of the learning switch each make a whole pass: alone, a pass is the one MacTable
    describes; interleaved, an aging pass still reads every slot and clears what it finds stale. */
module MacTablePasses {
  import opened MacTable
  import opened MacTableInterleaving

  // ---------------------------------------------------------------- the aging thread alone

  /** n turns of the aging thread. */
  function Turns(s: System, n: nat): (r: System)
    requires WellTyped(s)
    ensures WellTyped(r)
  {
    if n == 0 then s else Step(Turns(s, n - 1), AgerMoves)
  }

  lemma {:induction false} TurnsAdd(s: System, a: nat, b: nat)
    requires WellTyped(s)
    ensures Turns(s, a + b) == Turns(Turns(s, a), b)
  {
    hide Step;
    if b > 0 {
      TurnsAdd(s, a, b - 1);
    }
  }

  /** The slots from i on are aged. */
  function AgedFrom(s: seq<Entry>, i: nat, now: Time): (r: seq<Entry>)
    ensures |r| == |s|
  {
    seq(|s|, k requires 0 <= k < |s| => if i <= k then Aged(s, now)[k] else s[k])
  }

  lemma AgedOneMore(s: seq<Entry>, i: nat, now: Time)
    requires i < |s|
    ensures AgedFrom(s[i := Aged(s, now)[i]], i + 1, now) == AgedFrom(s, i, now)
  {
    var r := s[i := Aged(s, now)[i]];
    forall k | 0 <= k < |s|
      ensures AgedFrom(r, i + 1, now)[k] == AgedFrom(s, i, now)[k]
    {
      assert r[k] == if k == i then Aged(s, now)[i] else s[k];
      if i < k {
        assert Aged(r, now)[k] == Aged(s, now)[k];
      }
    }
  }

  /** The slot at i, in one to three turns. */
  lemma SlotTurns(s: System, i: nat, now: Time) returns (n: nat)
    requires WellTyped(s) && s.ager == ReadValid(i, now)
    ensures 1 <= n <= 3 && forall k: nat :: k < n ==> !Turns(s, k).ager.StartPass?
    ensures Turns(s, n) == s.(slots := s.slots[i := Aged(s.slots, now)[i]],
                              ager := if i < 127 then ReadValid(i + 1, now) else StartPass)
  {
    hide LearnerStep;
    assert Turns(s, 0) == s;
    var s1 := Turns(s, 1);
    assert s1 == AgerStep(s);
    if !s.slots[i].valid {
      n := 1;
      assert s.slots[i := s.slots[i]] == s.slots;
    } else {
      var s2 := Turns(s, 2);
      assert s2 == AgerStep(s1);
      if s.slots[i].expiry.sec >= now.sec {
        n := 2;
        assert s.slots[i := s.slots[i]] == s.slots;
      } else {
        n := 3;
        assert Turns(s, 3) == AgerStep(s2);
      }
    }
  }

  lemma {:induction false} RestOfPass(s: System, i: nat, now: Time) returns (n: nat)
    requires WellTyped(s) && s.ager == ReadValid(i, now)
    ensures n > 0 && forall k: nat :: k < n ==> !Turns(s, k).ager.StartPass?
    ensures Turns(s, n) == s.(slots := AgedFrom(s.slots, i, now), ager := StartPass)
    decreases 128 - i
  {
    hide Step, Turns;
    n := SlotTurns(s, i, now);
    var r := Turns(s, n);
    if i < 127 {
      var m := RestOfPass(r, i + 1, now);
      TurnsAdd(s, n, m);
      AgedOneMore(s.slots, i, now);
      forall k: nat | k < n + m
        ensures !Turns(s, k).ager.StartPass?
      {
        if k >= n { TurnsAdd(s, n, k - n); }
      }
      n := n + m;
    } else {
      assert r.slots == AgedFrom(s.slots, i, now);
    }
  }

  /** From the start of a pass, with nobody else moving, the aging thread comes to its next start
      with exactly the stale slots cleared. */
  lemma PassAlone(s: System) returns (n: nat)
    requires WellTyped(s) && s.ager.StartPass?
    ensures n > 0 && forall k: nat :: 0 < k < n ==> !Turns(s, k).ager.StartPass?
    ensures Turns(s, n) == s.(slots := Aged(s.slots, s.clock))
  {
    hide Step, Turns;
    StartTurn(s);
    var r := Turns(s, 1);
    var m := RestOfPass(r, 0, s.clock);
    TurnsAdd(s, 1, m);
    forall k: nat | 0 < k < 1 + m
      ensures !Turns(s, k).ager.StartPass?
    {
      TurnsAdd(s, 1, k - 1);
    }
    assert AgedFrom(s.slots, 0, s.clock) == Aged(s.slots, s.clock);
    n := 1 + m;
  }

  lemma StartTurn(s: System)
    requires WellTyped(s) && s.ager.StartPass?
    ensures Turns(s, 1) == s.(ager := ReadValid(0, s.clock))
  {
    assert Turns(s, 0) == s;
  }

  // ---------------------------------------------------------------- the receive thread alone

  lemma {:induction false} MovesAdd(s: System, a: nat, b: nat)
    requires WellTyped(s)
    ensures Moves(s, a + b) == Moves(Moves(s, a), b)
  {
    hide Step;
    if b > 0 {
      MovesAdd(s, a, b - 1);
    }
  }

  /** Slot i holds the address and is refreshed. */
  lemma RefreshMoves(s: System, i: nat)
    requires WellTyped(s) && i < 128 && s.learner == ReadClock(i, false)
    ensures Moves(s, 4) == s.(slots := s.slots[i := s.slots[i].(port := s.port, expiry := Expiry(s.clock))],
                              learner := Waiting)
  {
    hide AgerStep;
    assert Moves(s, 0) == s;
    assert Moves(s, 1) == s.(learner := WriteSec(i, false, s.clock));
    assert Moves(s, 2) == LearnerStep(Moves(s, 1));
    assert Moves(s, 3) == LearnerStep(Moves(s, 2));
    assert Moves(s, 4) == LearnerStep(Moves(s, 3));
  }

  /** The three halves compared. */
  lemma CompareAll(s: System, i: nat, j: int)
    requires WellTyped(s) && s.learner == Compare(i, j, 0, false)
    ensures Moves(s, 3) == s.(learner := if s.slots[i].addr == s.mac then ReadClock(i, false) else Scan(i + 1, j))
  {
    hide AgerStep, HalvesDiffer;
    AllHalves(s.mac, s.slots[i].addr);
    assert Moves(s, 0) == s;
    assert Moves(s, 1) == LearnerStep(s);
    assert Moves(s, 2) == LearnerStep(Moves(s, 1));
    assert Moves(s, 3) == LearnerStep(Moves(s, 2));
  }

  lemma {:induction false} CopyTo(s: System, k: nat, n: nat)
    requires WellTyped(s) && s.learner == Copy(k, 0) && n <= 6
    ensures Moves(s, n) == s.(slots := s.slots[k := s.slots[k].(addr := Mixed(s.mac, s.slots[k].addr, n))],
                              learner := if n < 6 then Copy(k, n) else ReadClock(k, true))
  {
    hide AgerStep, Mixed;
    MixedMore(s.mac, s.slots[k].addr, if n == 0 then 0 else n - 1);
    if n == 0 {
      assert s.slots[k := s.slots[k]] == s.slots;
    } else {
      CopyTo(s, k, n - 1);
    }
  }

  lemma FillMoves(s: System, k: nat)
    requires WellTyped(s) && k < 128 && s.learner == ReadClock(k, true)
    ensures Moves(s, 5) == s.(slots := s.slots[k := Entry(s.port, true, s.slots[k].addr, Expiry(s.clock))],
                              learner := Waiting)
  {
    hide Step;
    assert Moves(s, 0) == s;
    MoveOf(s);
    MoveOf(Moves(s, 1));
    MoveOf(Moves(s, 2));
    MoveOf(Moves(s, 3));
    MoveOf(Moves(s, 4));
    assert Moves(s, 1) == s.(learner := WriteSec(k, true, s.clock));
    assert Moves(s, 2).learner == WriteUsec(k, true, s.clock);
    assert Moves(s, 3).learner == WritePort(k, true, s.clock);
    assert Moves(s, 4).learner == Publish(k, s.clock);
  }

  /** The table after a scan that is at slot i and has free slot j in mind. */
  function LearnedFrom(s: System, i: nat, j: int): seq<Entry>
    requires WellTyped(s) && i <= 128 && -1 <= j < 128
  {
    var f, free := FindFrom(s.slots, s.mac, i), if j == -1 then FreeFrom(s.slots, i) else j;
    if f < 128 then s.slots[f := s.slots[f].(port := s.port, expiry := Expiry(s.clock))]
    else if free < 128 then s.slots[free := Entry(s.port, true, s.mac, Expiry(s.clock))]
    else s.slots
  }

  lemma ScanMove(s: System, i: nat, j: int)
    requires WellTyped(s) && s.learner == Scan(i, j)
    ensures Moves(s, 1) == s.(learner := if i == 128 then if j == -1 then Waiting else Copy(j, 0)
                                         else if s.slots[i].valid then Compare(i, j, 0, false)
                                         else Scan(i + 1, if j == -1 then i else j))
  {
    hide AgerStep;
    assert Moves(s, 0) == s;
  }

  lemma FillAll(s: System, k: nat)
    requires WellTyped(s) && s.learner == Copy(k, 0)
    ensures Moves(s, 11) == s.(slots := s.slots[k := Entry(s.port, true, s.mac, Expiry(s.clock))], learner := Waiting)
  {
    hide Step, Moves, Mixed, Expiry;
    CopyTo(s, k, 6);
    MixedMore(s.mac, s.slots[k].addr, 0);
    MovesAdd(s, 6, 5);
    FillMoves(Moves(s, 6), k);
  }

  lemma {:induction false} RestOfScan(s: System, i: nat, j: int) returns (n: nat)
    requires WellTyped(s) && s.learner == Scan(i, j)
    ensures Moves(s, n) == s.(slots := LearnedFrom(s, i, j), learner := Waiting)
    decreases 128 - i
  {
    hide Step, Moves, Expiry;
    ScanMove(s, i, j);
    var r := Moves(s, 1);
    if i == 128 {
      if j == -1 {
        n := 1;
      } else {
        FillAll(r, j);
        MovesAdd(s, 1, 11);
        n := 12;
      }
    } else if !s.slots[i].valid {
      var m := RestOfScan(r, i + 1, if j == -1 then i else j);
      MovesAdd(s, 1, m);
      n := 1 + m;
    } else {
      CompareAll(r, i, j);
      MovesAdd(s, 1, 3);
      var q := Moves(s, 4);
      if s.slots[i].addr == s.mac {
        RefreshMoves(q, i);
        MovesAdd(s, 4, 4);
        n := 8;
      } else {
        var m := RestOfScan(q, i + 1, j);
        MovesAdd(s, 4, m);
        n := 4 + m;
      }
    }
  }

  lemma {:induction false} WaitingStays(s: System, n: nat)
    requires WellTyped(s) && s.learner.Waiting?
    ensures Moves(s, n) == s
  {
    if n > 0 {
      WaitingStays(s, n - 1);
    }
  }

  /** From the arrival of a packet, with nobody else moving, the receive thread comes to wait again,
      and whenever it does the table has learned the packet's address. */
  lemma LearnAlone(s: System) returns (n: nat)
    requires WellTyped(s) && s.learner == Scan(0, -1)
    ensures Moves(s, n).learner.Waiting?
    ensures forall k: nat :: Moves(s, k).learner.Waiting?
                             ==> Moves(s, k) == s.(slots := Learned(s.slots, s.port, s.mac, s.clock),
                                                   learner := Waiting)
  {
    hide Step, Moves, Expiry;
    n := RestOfScan(s, 0, -1);
    forall k: nat | Moves(s, k).learner.Waiting?
      ensures Moves(s, k) == Moves(s, n)
    {
      if k <= n {
        MovesAdd(s, k, n - k);
        WaitingStays(Moves(s, k), n - k);
      } else {
        MovesAdd(s, n, k - n);
        WaitingStays(Moves(s, n), k - n);
      }
    }
  }

  // ---------------------------------------------------------------- a pass among other steps

  /** In step t the aging thread starts a pass that ends at e. */
  ghost predicate WholePass(run: nat -> Choice, t: nat, e: nat) {
    At(run, t).ager.StartPass? && run(t) == AgerMoves && PassEnds(run, t + 1, e)
  }

  /** The aging thread has not yet come past the reading of slot k's valid bit. */
  predicate Before(a: Ager, k: nat, now: Time) {
    match a
    case StartPass => false
    case ReadValid(i, n) => i <= k && n == now
    case ReadExpiry(i, n) => i < k && n == now
    case Clear(i, n) => i < k && n == now
  }

  lemma OneStepOn(s: System, c: Choice, k: nat, now: Time)
    requires WellTyped(s) && k < 128 && Before(s.ager, k, now)
    requires !(c == AgerMoves && s.ager == ReadValid(k, now))
    ensures Before(Step(s, c).ager, k, now)
  {
    hide LearnerStep;
    LearnerTypes(s);
  }

  lemma {:induction false} ReadingComes(run: nat -> Choice, t: nat, e: nat, k: nat, now: Time) returns (u: nat)
    requires t <= e && k < 128 && Before(At(run, t).ager, k, now) && At(run, e).ager.StartPass?
    ensures t <= u < e && run(u) == AgerMoves && At(run, u).ager == ReadValid(k, now)
    decreases e - t
  {
    hide Step;
    if run(t) == AgerMoves && At(run, t).ager == ReadValid(k, now) {
      u := t;
    } else {
      OneStepOn(At(run, t), run(t), k, now);
      NextOf(run, t);
      u := ReadingComes(run, t + 1, e, k, now);
    }
  }

  /** In every interleaving a pass reads the valid bit of each of the 128 slots. */
  lemma PassReadsEverySlot(run: nat -> Choice, t: nat, e: nat, k: nat) returns (u: nat)
    requires WholePass(run, t, e) && k < 128
    ensures t < u < e && run(u) == AgerMoves && At(run, u).ager == ReadValid(k, At(run, t).clock)
  {
    hide LearnerStep, At;
    NextOf(run, t);
    u := ReadingComes(run, t + 1, e, k, At(run, t).clock);
  }

  /** The aging thread waits where it is for its turn. */
  lemma {:induction false} TurnComes(run: nat -> Choice, t: nat, e: nat) returns (u: nat)
    requires t <= e && !At(run, t).ager.StartPass? && At(run, e).ager.StartPass?
    ensures t <= u < e && run(u) == AgerMoves && At(run, u).ager == At(run, t).ager
    decreases e - t
  {
    hide LearnerStep, AgerStep;
    if run(t) == AgerMoves {
      u := t;
    } else {
      LearnerTypes(At(run, t));
      NextOf(run, t);
      u := TurnComes(run, t + 1, e);
    }
  }

  /** In step v slot k is cleared by the pass that started at time now. */
  ghost predicate Clears(run: nat -> Choice, v: nat, k: nat, now: Time)
    requires k < 128
  {
    run(v) == AgerMoves && At(run, v).ager == Clear(k, now) && !At(run, v + 1).slots[k].valid
  }

  ghost predicate StaleAt(run: nat -> Choice, w: nat, k: nat, now: Time)
    requires k < 128
  {
    At(run, w).slots[k].valid && At(run, w).slots[k].expiry.sec < now.sec
  }

  /** What a reading leads to. */
  lemma ReadingGoesOn(s: System, k: nat, now: Time)
    requires WellTyped(s) && k < 128
    ensures s.ager == ReadValid(k, now) && s.slots[k].valid ==> Step(s, AgerMoves).ager == ReadExpiry(k, now)
    ensures s.ager == ReadExpiry(k, now) && s.slots[k].expiry.sec < now.sec
            ==> Step(s, AgerMoves).ager == Clear(k, now)
    ensures s.ager == Clear(k, now) ==> !Step(s, AgerMoves).slots[k].valid
  {
  }

  /** A slot that stays stale throughout a pass, until it is cleared, is cleared in that pass. */
  lemma StaleIsCleared(run: nat -> Choice, t: nat, e: nat, k: nat) returns (c: nat)
    requires WholePass(run, t, e) && k < 128
    requires forall w: nat :: t < w < e ==> StaleAt(run, w, k, At(run, t).clock)
                                            || exists v: nat :: t < v < w && Clears(run, v, k, At(run, t).clock)
    ensures t < c < e && Clears(run, c, k, At(run, t).clock)
  {
    hide Step, At;
    var now := At(run, t).clock;
    var u := PassReadsEverySlot(run, t, e, k);
    if exists v: nat :: t < v < u && Clears(run, v, k, now) {
      c :| t < c < u && Clears(run, c, k, now);
    } else {
      assert StaleAt(run, u, k, now);
      NextOf(run, u);
      ReadingGoesOn(At(run, u), k, now);
      var r := TurnComes(run, u + 1, e);
      if exists v: nat :: t < v < r && Clears(run, v, k, now) {
        c :| t < c < r && Clears(run, c, k, now);
      } else {
        assert StaleAt(run, r, k, now);
        NextOf(run, r);
        ReadingGoesOn(At(run, r), k, now);
        c := TurnComes(run, r + 1, e);
        NextOf(run, c);
        ReadingGoesOn(At(run, c), k, now);
      }
    }
  }
}

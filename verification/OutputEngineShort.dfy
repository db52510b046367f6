/** When the output engine is faithful to a stream of packets: exactly when every packet it lets
    through has at least four words. */
module OutputEngineShort {
  import opened FastWord
  import opened PacketFifo
  import opened OutputEngine
  import opened OutputEngineRuns

  /** These packets are offered in the first `end` cycles, with any gaps and any readiness of the
      port; then the input pauses and the port is ready. No FIFO overflows. */
  ghost predicate Finite(x: Run, end: nat, ps: seq<seq<Word>>) {
    && ValidCounters(x.counters) && (forall t: nat :: Room(At(x, t)))
    && Packets(ps) && Offered(x, 0, end) == Flatten(ps)
    && forall k: nat :: end <= k ==> !x.ins(k).wr && x.ins(k).ready
  }

  // ---------------------------------------------------------------- sends and tails

  /** The words since the last tail. */
  function Since(ws: seq<Word>): nat {
    if ws == [] || ws[|ws| - 1].IsTail() then 0 else Since(ws[..|ws| - 1]) + 1
  }

  /** Every tail comes after at least three words that are none. */
  predicate Clean(ws: seq<Word>) {
    ws == [] || (Clean(ws[..|ws| - 1]) && (ws[|ws| - 1].IsTail() ==> Since(ws[..|ws| - 1]) >= 3))
  }

  lemma OneMore(ws: seq<Word>, w: Word)
    ensures Since(ws + [w]) == if w.IsTail() then 0 else Since(ws) + 1
    ensures Clean(ws + [w]) <==> Clean(ws) && (w.IsTail() ==> Since(ws) >= 3)
    ensures Tails(ws + [w]) == Tails(ws) + if w.IsTail() then 1 else 0
  {
    assert (ws + [w])[..|ws|] == ws;
    TailsAppend(ws, [w]);
    assert Tails([w]) == (if w.IsTail() then 1 else 0) + Tails([w][1..]);
  }

  /** The sends begun in t cycles, and those ended. */
  function Begun(x: Run, t: nat): nat
    requires ValidCounters(x.counters)
  {
    if t == 0 then 0
    else Begun(x, t - 1)
         + if At(x, t - 1).sender.state == Idle && At(x, t).sender.state != Idle then 1 else 0
  }

  function Ended(x: Run, t: nat): nat
    requires ValidCounters(x.counters)
  {
    if t == 0 then 0
    else Ended(x, t - 1)
         + if At(x, t - 1).sender.state != Idle && At(x, t).sender.state == Idle then 1 else 0
  }

  /** One edge of the sender: a word for every busy cycle, and the end of a send only with a tail. */
  lemma SenderMoves(s: Engine, i: Input)
    requires ValidCounters(s.counters)
    ensures var r := EngineStep(s, i); var w := Shown(s.data);
            && Shows(r.sender.bus) == (if s.sender.state == Idle then [] else [w])
            && (match s.sender.state
                case Idle => r.sender.state == if i.ready && s.valids != [] then Wait0 else Idle
                case Wait0 => r.sender.state == Wait1
                case Wait1 => r.sender.state == Write
                case Write => r.sender.state == Trans
                case Trans => r.sender.state == if w.IsTail() then Idle else Trans)
  {
    hide FilterStep, FifoStep;
  }

  /** How far a send is, for a stream that is in step with the sends. */
  predicate InStep(s: State, since: nat) {
    match s
    case Idle => since == 0
    case Wait0 => since == 0
    case Wait1 => since == 1
    case Write => since == 2
    case Trans => since >= 3
  }

  /** At least one tail has left for every send ended; if no more have, every send was one packet
      of four or more words. */
  ghost predicate Accounted(x: Run, t: nat)
    requires ValidCounters(x.counters)
  {
    var d := Delivered(x, t);
    && Tails(d) >= Ended(x, t)
    && (Tails(d) == Ended(x, t) ==> Clean(d) && InStep(At(x, t).sender.state, Since(d)))
  }

  lemma {:induction false} AlwaysAccounted(x: Run, t: nat)
    requires ValidCounters(x.counters)
    ensures Accounted(x, t)
    ensures Begun(x, t) == Ended(x, t) + if At(x, t).sender.state == Idle then 0 else 1
  {
    hide EngineStep, Clean, Since, Tails, Shown;
    if t == 0 {
      NothingDelivered();
    } else {
      AlwaysAccounted(x, t - 1);
      var s := At(x, t - 1);
      SenderMoves(s, x.ins(t - 1));
      OneMore(Delivered(x, t - 1), Shown(s.data));
      assert Delivered(x, t - 1) + [] == Delivered(x, t - 1);
    }
  }

  lemma NothingDelivered()
    ensures Clean([]) && Since([]) == 0 && Tails([]) == 0
  {
  }

  // ---------------------------------------------------------------- verdicts

  /** What the filter has written in t cycles. */
  function Stored(x: Run, t: nat): seq<Word>
    requires ValidCounters(x.counters)
  {
    if t == 0 then [] else Stored(x, t - 1) + Filtered(At(x, t - 1).filter)
  }

  ghost predicate VerdictsKept(x: Run, t: nat)
    requires ValidCounters(x.counters)
  {
    var s := At(x, t);
    && (s.sender.validRd ==> s.valids != [] && s.sender.state == Wait0)
    && (s.filter.validWr <==> s.filter.wr && s.filter.word.IsTail())
    && |Pending(s)| + Begun(x, t) == Tails(Stored(x, t))
  }

  lemma VerdictStep(s: Engine, i: Input)
    requires ValidCounters(s.counters) && Room(s) && (s.sender.validRd ==> s.valids != [] && s.sender.state == Wait0)
    ensures var r := EngineStep(s, i);
            && (r.sender.validRd ==> r.valids != [] && r.sender.state == Wait0)
            && |Pending(r)| == |Pending(s)| + (if s.filter.validWr then 1 else 0)
                               - (if s.sender.state == Idle && r.sender.state != Idle then 1 else 0)
  {
    hide FilterStep;
  }

  lemma {:induction false} AlwaysVerdictsKept(x: Run, t: nat)
    requires ValidCounters(x.counters) && forall k: nat :: Room(At(x, k))
    ensures VerdictsKept(x, t)
  {
    hide EngineStep, Tails, Room, Pending;
    if t == 0 {
      NothingDelivered();
      NonePending(x);
    } else {
      AlwaysVerdictsKept(x, t - 1);
      var s := At(x, t - 1);
      assert Room(s);
      VerdictStep(s, x.ins(t - 1));
      FilterOf(s, x.ins(t - 1));
      OneMore(Stored(x, t - 1), s.filter.word);
      assert Stored(x, t - 1) + [] == Stored(x, t - 1);
    }
  }

  lemma NonePending(x: Run)
    requires ValidCounters(x.counters)
    ensures Pending(At(x, 0)) == []
  {
  }

  lemma FilterOf(s: Engine, i: Input)
    requires ValidCounters(s.counters)
    ensures var d := EngineStep(s, i).filter; d == FilterStep(s.filter, i) && (d.validWr <==> d.wr && d.word.IsTail())
  {
    hide FifoStep, SenderStep;
    FilterMarksTails(s.filter, i);
  }

  /** What is written, in hand and still to come are the words the run lets through. */
  lemma {:induction false} StoredIsLet(x: Run, t: nat, end: nat)
    requires ValidCounters(x.counters) && t <= end
    ensures var d := At(x, t).filter;
            Stored(x, t) + (Filtered(d) + Survive(d.within, d.drop, Offered(x, t, end))) == Let(x, end)
  {
    hide EngineStep, Survive, FilterStep, Written;
    if t > 0 {
      StoredIsLet(x, t - 1, end);
      Unfold(x, t - 1, end);
      var d := At(x, t - 1).filter;
      FilterOf(At(x, t - 1), x.ins(t - 1));
      FilterConserves(d, x.ins(t - 1), Offered(x, t, end));
    }
  }

  lemma {:induction false} OfferedEarly(x: Run, from: nat, end: nat, t: nat)
    requires from <= end <= t && forall k: nat :: end <= k ==> !x.ins(k).wr
    ensures Offered(x, from, t) == Offered(x, from, end)
    decreases t - from
  {
    if from == end {
      if end < t {
        OfferedEarly(x, from + 1, from + 1, t);
        assert !x.ins(from).wr;
      }
    } else {
      OfferedEarly(x, from + 1, end, t);
    }
  }

  /** One cycle after the last word every packet let through is in the FIFO with its verdict. */
  lemma AllStored(x: Run, end: nat, ps: seq<seq<Word>>, t: nat)
    requires Finite(x, end, ps) && t > end
    ensures !At(x, t).filter.wr && Stored(x, t) == Flatten(Forwarded(ps))
  {
    hide EngineStep, Survive, Flatten, Room;
    OfferedEarly(x, 0, end, t);
    StoredIsLet(x, t, t);
    SurvivesIsForwarded(ps);
    assert !x.ins(t - 1).wr;
    FilterOf(At(x, t - 1), x.ins(t - 1));
    SurviveNothing(At(x, t).filter.within, At(x, t).filter.drop);
    assert Stored(x, t) + ([] + []) == Stored(x, t);
  }

  lemma SurviveNothing(within: bool, drop: bool)
    ensures Survive(within, drop, []) == []
  {
  }

  // ---------------------------------------------------------------- coming to rest

  /** Every word that leaves is one of the stream, in order. */
  ghost predicate Faithful(x: Run, ws: seq<Word>)
    requires ValidCounters(x.counters)
  {
    forall t: nat :: Delivered(x, t) <= ws
  }

  /** A faithful sender comes to rest: each busy cycle brings a word, each send takes a verdict. */
  lemma {:induction false} ComesToRest(x: Run, end: nat, ps: seq<seq<Word>>, ws: seq<Word>, t: nat) returns (u: nat)
    requires Finite(x, end, ps) && Faithful(x, ws) && t > end
    ensures u >= t && At(x, u).sender.state == Idle && At(x, u).valids == []
    decreases |ws| - |Delivered(x, t)| + |Pending(At(x, t))|
  {
    hide EngineStep, Flatten, Room, Stored;
    var s := At(x, t);
    AlwaysVerdictsKept(x, t);
    assert Delivered(x, t) <= ws && Delivered(x, t + 1) <= ws;
    if s.sender.state == Idle && s.valids == [] {
      u := t;
    } else {
      AllStored(x, end, ps, t);
      assert x.ins(t).ready && Room(s);
      SenderMoves(s, x.ins(t));
      VerdictStep(s, x.ins(t));
      u := ComesToRest(x, end, ps, ws, t + 1);
    }
  }

  // ---------------------------------------------------------------- streams of short packets

  lemma {:induction false} InsidePacket(a: seq<Word>, p: seq<Word>, k: nat)
    requires Since(a) == 0 && EndsInTail(p) && k < |p|
    ensures Since(a + p[..k]) == k
  {
    if k == 0 {
      assert a + p[..0] == a;
    } else {
      InsidePacket(a, p, k - 1);
      assert a + p[..k] == (a + p[..k - 1]) + [p[k - 1]];
      OneMore(a + p[..k - 1], p[k - 1]);
    }
  }

  lemma {:induction false} CleanPrefix(a: seq<Word>, b: seq<Word>)
    requires Clean(a + b)
    ensures Clean(a)
    decreases |b|
  {
    if b == [] {
      assert a + b == a;
    } else {
      var n := |b| - 1;
      assert (a + b)[..|a| + n] == a + b[..n];
      CleanPrefix(a, b[..n]);
    }
  }

  lemma WholePacket(a: seq<Word>, p: seq<Word>)
    requires Since(a) == 0 && EndsInTail(p)
    ensures Since(a + p) == 0 && (Clean(a + p) ==> Clean(a) && |p| >= 4)
  {
    var n := |p| - 1;
    InsidePacket(a, p, n);
    assert a + p == (a + p[..n]) + [p[n]];
    OneMore(a + p[..n], p[n]);
    if Clean(a + p) {
      CleanPrefix(a, p);
    }
  }

  /** A clean stream of packets has none of fewer than four words. */
  lemma {:induction false} CleanPackets(a: seq<Word>, qs: seq<seq<Word>>)
    requires Packets(qs) && Since(a) == 0 && Clean(a + Flatten(qs))
    ensures forall k :: 0 <= k < |qs| ==> |qs[k]| >= 4
    decreases |qs|
  {
    if qs != [] {
      var p, rest := qs[0], Flatten(qs[1..]);
      assert a + (p + rest) == (a + p) + rest;
      CleanPrefix(a + p, rest);
      WholePacket(a, p);
      CleanPackets(a + p, qs[1..]);
    }
  }

  lemma {:induction false} PacketTails(qs: seq<seq<Word>>)
    requires Packets(qs)
    ensures Tails(Flatten(qs)) == |qs|
  {
    if qs != [] {
      PacketTail(qs[0]);
      PacketTails(qs[1..]);
      TailsAppend(qs[0], Flatten(qs[1..]));
    }
  }

  lemma {:induction false} PacketTail(p: seq<Word>)
    requires EndsInTail(p)
    ensures Tails(p) == 1
  {
    if |p| > 1 {
      PacketTail(p[1..]);
    }
  }

  lemma {:induction false} ForwardedPackets(ps: seq<seq<Word>>)
    requires Packets(ps)
    ensures Packets(Forwarded(ps))
    ensures (forall k :: 0 <= k < |Forwarded(ps)| ==> |Forwarded(ps)[k]| >= 4) ==> LongEnough(ps)
  {
    if ps != [] {
      var m := if Dropped(ps[0]) then 0 else 1;
      ForwardedPackets(ps[1..]);
      var f, g := Forwarded(ps), Forwarded(ps[1..]);
      assert f[m..] == g;
      if forall k :: 0 <= k < |f| ==> |f[k]| >= 4 {
        assert forall k :: 0 <= k < |g| ==> g[k] == f[m + k];
        assert LongEnough(ps[1..]);
        assert m == 1 ==> f[0] == ps[0];
        forall k | 0 <= k < |ps|
          ensures WellFramed(ps[k]) && (Dropped(ps[k]) || |ps[k]| >= 4)
        {
          if k > 0 { assert ps[k] == ps[1..][k - 1]; }
        }
      }
    }
  }

  /** A stream cut after its last tail is whole. */
  lemma AllTailsThere(d: seq<Word>, qs: seq<seq<Word>>)
    requires Packets(qs) && d <= Flatten(qs) && Tails(d) >= |qs|
    ensures d == Flatten(qs) && Tails(d) == |qs|
  {
    hide Flatten, Tails;
    var ws := Flatten(qs);
    var rest := ws[|d|..];
    assert ws == d + rest;
    TailsAppend(d, rest);
    PacketTails(qs);
    if rest != [] {
      NoPackets(qs);
      FlattenEndsInTail(qs);
      assert rest[|rest| - 1] == ws[|ws| - 1];
      LastTailCounts(rest);
    }
  }

  lemma NoPackets(qs: seq<seq<Word>>)
    ensures qs == [] ==> Flatten(qs) == []
  {
  }

  /** A run that stays faithful to its stream had only packets of four or more words. */
  lemma FaithfulIsLong(x: Run, end: nat, ps: seq<seq<Word>>)
    requires Finite(x, end, ps) && Faithful(x, Flatten(Forwarded(ps)))
    ensures LongEnough(ps)
  {
    hide EngineStep, Flatten, Room, Stored, Clean, Since, Tails, Packets, Forwarded, LongEnough, At, Delivered;
    PacketsForwarded(ps);
    var qs := Forwarded(ps);
    var u := ComesToRest(x, end, ps, Flatten(qs), end + 1);
    AlwaysVerdictsKept(x, u);
    AlwaysAccounted(x, u);
    AllStored(x, end, ps, u);
    PacketTails(qs);
    var d := Delivered(x, u);
    AllTailsThere(d, qs);
    NothingDelivered();
    assert [] + Flatten(qs) == Flatten(qs);
    CleanPackets([], qs);
    ForwardedPackets(ps);
  }

  lemma PacketsForwarded(ps: seq<seq<Word>>)
    requires Packets(ps)
    ensures (forall k :: 0 <= k < |ps| ==> ps[k] != []) && Packets(Forwarded(ps))
  {
    ForwardedPackets(ps);
  }

  lemma LongIsFaithful(x: Run, end: nat, ps: seq<seq<Word>>, t: nat)
    requires Finite(x, end, ps) && LongEnough(ps)
    ensures Delivered(x, t) <= Flatten(Forwarded(ps))
  {
    hide Room, Flatten, At, LongEnough;
    var e := if t <= end then end else t;
    OfferedEarly(x, 0, end, e);
    assert NoOverflow(x, e);
    ForwardsPackets(x, t, e, ps);
  }

  /** For every finite stream of packets, with any gaps: what leaves is always a prefix of the
      packets that are not marked, exactly when each of those has at least four words. */
  lemma FourWordsNeeded(x: Run, end: nat, ps: seq<seq<Word>>)
    requires Finite(x, end, ps)
    ensures Faithful(x, Flatten(Forwarded(ps))) <==> LongEnough(ps)
  {
    hide Room, Flatten, At, LongEnough, Faithful, Forwarded;
    PacketsForwarded(ps);
    if LongEnough(ps) {
      AllFaithful(x, end, ps);
    }
    if Faithful(x, Flatten(Forwarded(ps))) {
      FaithfulIsLong(x, end, ps);
    }
  }

  lemma AllFaithful(x: Run, end: nat, ps: seq<seq<Word>>)
    requires Finite(x, end, ps) && LongEnough(ps)
    ensures Faithful(x, Flatten(Forwarded(ps)))
  {
    hide Room, Flatten, At, LongEnough, Delivered;
    forall t: nat
      ensures Delivered(x, t) <= Flatten(Forwarded(ps))
    {
      LongIsFaithful(x, end, ps, t);
    }
  }
}

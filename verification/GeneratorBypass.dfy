/** Packets that are not for the generator: a packet of another priority goes through an idle
    generator unchanged, two cycles later, and leaves it as it found it. */
module GeneratorBypass {
  import opened FastWord
  import opened PacketGenerator
  import opened GeneratorSchedule

  /** A packet of another priority in consecutive cycles, and nothing for two cycles after it. */
  ghost predicate Offers(ins: nat -> Input, p: seq<Word>) {
    && WellFramed(p) && p[0].payload / 0x2000_0000_0000_0000_0000_0000_0000 % 8 != 7
    && (forall t: nat :: t < |p| ==> ins(t).dataWr && ins(t).data == p[t])
    && !ins(|p|).dataWr && !ins(|p| + 1).dataWr
  }

  /** The store side once k words have passed it. */
  ghost predicate Passed(w: Wr, p: seq<Word>, k: nat)
    requires 1 <= k <= |p|
  {
    && w.state == (if k == |p| then WrIdle else WrSent) && w.ram == NO_WRITE && w.timeCnt == 0
    && w.bus.word == p[k - 1] && w.bus.wr && w.bus.validWr == (k == |p|)
    && w.flags == Flags(true, false, false)
  }

  /** The replay side behind it, one word late. */
  ghost predicate Following(d: Rd, p: seq<Word>, k: nat, timeReg: Uint64)
    requires 1 <= k <= |p|
  {
    if k == 1 then d == RD_RESET.(timeReg := timeReg)
    else d == RD_RESET.(state := RdSent, bus := d.bus, timeReg := timeReg)
         && d.bus.word == p[k - 2] && d.bus.wr && !d.bus.validWr
  }

  ghost predicate Underway(s: Pgm, r: Pgm, p: seq<Word>, k: nat)
    requires 1 <= k <= |p|
  {
    ValidRam(r.ram) && Passed(r.wr, p, k) && Following(r.rd, p, k, s.rd.timeReg) && r.ram.mem == s.ram.mem
  }

  lemma FirstWord(c: Control, s: Pgm, p: seq<Word>, i: Input)
    requires AtRest(s) && WellFramed(p) && p[0].payload / 0x2000_0000_0000_0000_0000_0000_0000 % 8 != 7
    requires i.dataWr && i.data == p[0]
    ensures Underway(s, PgmStep(c, s, i), p, 1)
  {
    IdleStays(c, s.rd, s.wr);
  }

  lemma NextWord(c: Control, s: Pgm, r: Pgm, p: seq<Word>, k: nat, i: Input)
    requires WellFramed(p) && 1 <= k < |p| && Underway(s, r, p, k) && i.dataWr && i.data == p[k]
    ensures Underway(s, PgmStep(c, r, i), p, k + 1)
  {
    hide RdReadStep, RdWaitStep, RdProbeStep, WrStoreStep, WrWaitStep, WrDiscardStep;
    if k == 1 {
      assert p[0].IsHead();
    } else {
      assert p[k - 1].IsBody();
    }
  }

  lemma {:induction false} Passing(cs: nat -> Control, s: Pgm, ins: nat -> Input, p: seq<Word>, k: nat)
    requires AtRest(s) && Offers(ins, p) && 1 <= k <= |p|
    ensures Underway(s, RunFrom(cs, s, ins, k), p, k)
  {
    hide PgmStep, Underway;
    if k == 1 {
      assert RunFrom(cs, s, ins, 0) == s && ins(0).dataWr;
      FirstWord(cs(0), s, p, ins(0));
    } else {
      Passing(cs, s, ins, p, k - 1);
      assert ins(k - 1).dataWr;
      NextWord(cs(k - 1), s, RunFrom(cs, s, ins, k - 1), p, k - 1, ins(k - 1));
    }
  }

  /** The tail has left the store side and is on the output bus. */
  lemma LastWord(c: Control, s: Pgm, r: Pgm, p: seq<Word>, i: Input)
    requires WellFramed(p) && Underway(s, r, p, |p|) && !i.dataWr
    ensures var q := PgmStep(c, r, i);
            && ValidRam(q.ram) && q.ram.mem == s.ram.mem && q.wr == WR_RESET
            && q.rd == RD_RESET.(bus := Bus(p[|p| - 1], true, true, true), timeReg := s.rd.timeReg)
  {
    hide RdReadStep, RdWaitStep, RdProbeStep, WrStoreStep, WrWaitStep, WrDiscardStep;
  }

  lemma Settles(c: Control, q: Pgm, i: Input)
    requires ValidRam(q.ram) && q.wr == WR_RESET && q.rd.state == RdIdle && !i.dataWr
    ensures AtRest(PgmStep(c, q, i)) && PgmStep(c, q, i).ram.mem == q.ram.mem
    ensures PgmStep(c, q, i).rd == RD_RESET.(timeReg := q.rd.timeReg)
  {
  }

  /** The packet comes out word for word two cycles after it went in, with the strobe on its tail;
      packet memory, time limit and registers are then as before. */
  lemma PassesUnchanged(cs: nat -> Control, s: Pgm, ins: nat -> Input, p: seq<Word>, t: nat)
    requires AtRest(s) && Offers(ins, p) && t <= |p| + 2
    ensures Emitted(RunFrom(cs, s, ins, t)) == if 2 <= t < |p| + 2 then Beat(p[t - 2], t == |p| + 1) else Silent
    ensures var r := RunFrom(cs, s, ins, |p| + 2);
            AtRest(r) && r.rd == s.rd && r.ram.mem == s.ram.mem
  {
    hide PgmStep;
    var n := |p|;
    Passing(cs, s, ins, p, n);
    var q := RunFrom(cs, s, ins, n + 1);
    LastWord(cs(n), s, RunFrom(cs, s, ins, n), p, ins(n));
    Settles(cs(n + 1), q, ins(n + 1));
    assert RunFrom(cs, s, ins, n + 2) == PgmStep(cs(n + 1), q, ins(n + 1));
    if 1 <= t <= n {
      Passing(cs, s, ins, p, t);
    }
  }
}

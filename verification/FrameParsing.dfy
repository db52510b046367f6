/** What the parser makes of whole frames, of any length and after any past. Its word counter
    has eight bits, so a long frame is read as blocks of 256 words. */
module FrameParsing {
  import opened FastWord
  import opened HeaderParser

  const BLOCK: nat := 256

  /** The header vector of a frame: words 2 to 9, zero where the frame has ended. */
  function HeaderVector(f: seq<Word>): Lanes {
    seq(LANES, k requires 0 <= k => if k + 2 < |f| then f[k + 2].payload else 0)
  }

  /** The module a frame is for, in bits 87..80 of its first word. */
  function Module(f: seq<Word>): nat
    requires f != []
  {
    f[0].payload / 0x1_0000_0000_0000_0000_0000 % 256
  }

  /** Frames for module 1 and for modules above 4 go on. */
  predicate Passes(f: seq<Word>)
    requires f != []
  {
    Module(f) == 1 || Module(f) > 4
  }

  /** A frame on consecutive cycles, the end-of-packet flag with its tail. */
  function Presented(f: seq<Word>, k: nat): PktIn
    requires k < |f|
  {
    PktIn(f[k], true, k == |f| - 1)
  }

  /** The registers after the first k words of a frame. */
  function Feed(s: Gpp, f: seq<Word>, k: nat): Gpp
    requires k <= |f|
  {
    if k == 0 then s else GppStep(Feed(s, f, k - 1), Presented(f, k - 1))
  }

  /** The first word of the block that word j belongs to. */
  function BlockOf(j: nat): (b: nat)
    ensures b <= j < b + BLOCK && b % BLOCK == 0
  {
    j / BLOCK * BLOCK
  }

  /** One word further is in the same block or starts the next. */
  lemma NextWord(j: nat)
    ensures BlockOf(j + 1) == if (j + 1) % BLOCK == 0 then j + 1 else BlockOf(j)
    ensures (j + 1) % BLOCK == (j % BLOCK + 1) % BLOCK && j - BlockOf(j) == j % BLOCK
  {
  }

  /** The control registers after k words. */
  ghost predicate Tracking(s: Gpp, f: seq<Word>, k: nat)
    requires WellFramed(f) && 1 <= k <= |f|
  {
    && s.step == (k - 1) % BLOCK
    && s.flag == Passes(f)
    && s.state == (if k == |f| then Idle else if s.flag then Trans else Discard)
    && s.md.low == f[BlockOf(k - 1)].payload
    && (k >= 2 ==> BlockOf(k - 2) + 1 < |f| && s.md.high == f[BlockOf(k - 2) + 1].payload)
  }

  /** The lanes hold the words of the block that starts at b, up to word k-1. */
  predicate Holds(phv: Lanes, f: seq<Word>, b: nat, k: nat)
    requires k <= |f|
  {
    forall l :: 0 <= l < LANES && b + l + 2 < k ==> phv[l] == f[b + l + 2].payload
  }

  /** The header vector after k words: the lanes of the block that starts at b, and what was
      last offered, from the block that starts at v. */
  ghost predicate VectoredAt(s: Gpp, f: seq<Word>, b: nat, v: nat, k: nat)
    requires k <= |f|
  {
    && Holds(s.phv, f, b, k)
    && (3 <= k ==> v <= k && s.phvOut == HeaderVector(f[v..k]))
  }

  ghost predicate Vectored(s: Gpp, f: seq<Word>, k: nat)
    requires 1 <= k <= |f|
  {
    VectoredAt(s, f, BlockOf(k - 1), Offering(k), k)
  }

  /** The block of the last word offered among the first k. */
  function Offering(k: nat): nat { if k >= 3 then BlockOf(k - 3) else 0 }

  lemma TrackingStep(p: Gpp, f: seq<Word>, k: nat)
    requires WellFramed(f) && 2 <= k <= |f| && Tracking(p, f, k - 1)
    ensures Tracking(GppStep(p, Presented(f, k - 1)), f, k)
  {
    hide PhvStep, PhvOutStep, Classify, Readdress, BlockOf;
    NextWord(k - 2);
    if k >= 3 { NextWord(k - 3); }
  }

  /** Word b + inc within a block. */
  lemma LanesStep(phv: Lanes, f: seq<Word>, b: nat, inc: Octet)
    requires b + inc < |f| && Holds(phv, f, b, b + inc)
    ensures Holds(PhvStep(phv, inc, Presented(f, b + inc)), f, b, b + inc + 1)
  {
  }

  lemma FreshBlock(phv: Lanes, f: seq<Word>, b: nat)
    requires b < |f|
    ensures Holds(phv, f, b, b + 1)
  {
  }

  lemma OfferedInside(phv: Lanes, phvOut: Lanes, f: seq<Word>, b: nat, inc: Octet)
    requires b + inc < |f| && Holds(phv, f, b, b + inc) && 2 <= inc < 2 + LANES
    ensures PhvOutStep(phv, phvOut, inc, Presented(f, b + inc)) == HeaderVector(f[b..b + inc + 1])
  {
    var i := Presented(f, b + inc);
    var out, want := PhvOutStep(phv, phvOut, inc, i), HeaderVector(f[b..b + inc + 1]);
    forall l | 0 <= l < LANES
      ensures out[l] == want[l]
    {
    }
  }

  lemma OfferedOutside(f: seq<Word>, v: nat, k: nat)
    requires v + 2 + LANES < k <= |f|
    ensures HeaderVector(f[v..k]) == HeaderVector(f[v..k - 1])
  {
  }

  /** The block of the last word offered, in terms of the word now read. */
  lemma OfferedBlock(k: nat)
    requires k >= 3
    ensures var inc := (k - 1) % BLOCK;
            && (2 <= inc < 2 + LANES ==> Offering(k) == BlockOf(k - 1))
            && (!(2 <= inc < 2 + LANES) ==> k >= 4 && Offering(k) == Offering(k - 1) && Offering(k) + 2 + LANES < k)
  {
    hide BlockOf;
    NextWord(k - 2);
    NextWord(k - 3);
    if k >= 4 { NextWord(k - 4); }
  }

  lemma Unoffered(phv: Lanes, phvOut: Lanes, inc: Octet, i: PktIn)
    requires !InVector(inc, i)
    ensures PhvOutStep(phv, phvOut, inc, i) == phvOut
  {
  }

  /** The counter gives a body or tail word its place in its block. */
  lemma CounterIsPlace(step: Octet, f: seq<Word>, k: nat)
    requires WellFramed(f) && 2 <= k <= |f| && step == (k - 2) % BLOCK
    ensures StepInc(step, Presented(f, k - 1)) == (k - 1) % BLOCK
  {
    hide BlockOf;
    NextWord(k - 2);
  }

  lemma StepLanes(p: Gpp, i: PktIn)
    ensures GppStep(p, i).phv == PhvStep(p.phv, StepInc(p.step, i), i)
    ensures GppStep(p, i).phvOut == PhvOutStep(p.phv, p.phvOut, StepInc(p.step, i), i)
  {
    hide PhvStep, PhvOutStep, StepInc, Classify, Readdress;
  }

  /** A word in the vector's range. */
  lemma InsideStep(p: Gpp, f: seq<Word>, b: nat, v: nat, inc: Octet)
    requires b + inc < |f| && 2 <= inc < 2 + LANES && VectoredAt(p, f, b, v, b + inc)
    requires StepInc(p.step, Presented(f, b + inc)) == inc
    ensures VectoredAt(GppStep(p, Presented(f, b + inc)), f, b, b, b + inc + 1)
  {
    hide GppStep, StepInc, HeaderVector, Holds, PhvStep, PhvOutStep;
    StepLanes(p, Presented(f, b + inc));
    LanesStep(p.phv, f, b, inc);
    OfferedInside(p.phv, p.phvOut, f, b, inc);
  }

  /** A word past it. */
  lemma OutsideStep(p: Gpp, f: seq<Word>, b: nat, v: nat, inc: Octet)
    requires b + inc < |f| && inc >= 1 && !(2 <= inc < 2 + LANES) && VectoredAt(p, f, b, v, b + inc)
    requires b + inc >= 2 ==> b + inc >= 3 && v + 2 + LANES < b + inc + 1
    requires StepInc(p.step, Presented(f, b + inc)) == inc
    ensures VectoredAt(GppStep(p, Presented(f, b + inc)), f, b, v, b + inc + 1)
  {
    hide GppStep, StepInc, HeaderVector, Holds, PhvStep, PhvOutStep;
    var i := Presented(f, b + inc);
    StepLanes(p, i);
    LanesStep(p.phv, f, b, inc);
    Unoffered(p.phv, p.phvOut, inc, i);
    if b + inc >= 3 { OfferedOutside(f, v, b + inc + 1); }
  }

  /** The first word of a later block. */
  lemma BlockStep(p: Gpp, f: seq<Word>, a: nat, b: nat, v: nat)
    requires 3 <= b < |f| && VectoredAt(p, f, a, v, b) && v + 2 + LANES < b + 1
    requires StepInc(p.step, Presented(f, b)) == 0
    ensures VectoredAt(GppStep(p, Presented(f, b)), f, b, v, b + 1)
  {
    hide GppStep, StepInc, HeaderVector, Holds, PhvStep, PhvOutStep;
    var i := Presented(f, b);
    StepLanes(p, i);
    FreshBlock(GppStep(p, i).phv, f, b);
    Unoffered(p.phv, p.phvOut, 0, i);
    OfferedOutside(f, v, b + 1);
  }

  lemma VectoredStep(p: Gpp, f: seq<Word>, k: nat)
    requires WellFramed(f) && 2 <= k <= |f| && p.step == (k - 2) % BLOCK && Vectored(p, f, k - 1)
    ensures Vectored(GppStep(p, Presented(f, k - 1)), f, k)
  {
    hide GppStep, StepInc, BlockOf, Offering, WellFramed, Presented, VectoredAt;
    var inc := (k - 1) % BLOCK;
    NextWord(k - 2);
    CounterIsPlace(p.step, f, k);
    PlaceOf(k - 1);
    if k >= 3 {
      OfferedBlock(k);
    } else {
      NothingOffered();
    }
    if inc == 0 {
      BlockStep(p, f, BlockOf(k - 2), k - 1, Offering(k - 1));
    } else if 2 <= inc < 2 + LANES {
      InsideStep(p, f, BlockOf(k - 1), Offering(k - 1), inc);
    } else {
      OutsideStep(p, f, BlockOf(k - 1), Offering(k - 1), inc);
    }
  }

  lemma PlaceOf(j: nat)
    ensures BlockOf(j) + j % BLOCK == j
  {
  }

  lemma NothingOffered()
    ensures Offering(1) == Offering(2) == 0
  {
  }

  /** In the first block the first lanes are the frame's third and fourth word. */
  lemma FirstLanes(s: Gpp, f: seq<Word>, k: nat)
    requires 1 <= k <= |f| && k <= BLOCK && Vectored(s, f, k)
    ensures k > 2 ==> s.phv[0] == f[2].payload
    ensures k > 3 ==> s.phv[1] == f[3].payload
  {
    hide HeaderVector;
    assert BlockOf(k - 1) == 0;
  }

  lemma {:induction false} FeedInside(s: Gpp, f: seq<Word>, k: nat)
    requires WellFramed(f) && 1 <= k <= |f| && s.state == Idle
    ensures Tracking(Feed(s, f, k), f, k) && Vectored(Feed(s, f, k), f, k)
  {
    hide GppStep, Tracking, Vectored;
    if k == 1 {
      FirstWord(s, f);
    } else {
      FeedInside(s, f, k - 1);
      var p := Feed(s, f, k - 1);
      assert p.step == (k - 2) % BLOCK by { StepOf(p, f, k - 1); }
      TrackingStep(p, f, k);
      VectoredStep(p, f, k);
    }
  }

  lemma FirstWord(s: Gpp, f: seq<Word>)
    requires WellFramed(f) && s.state == Idle
    ensures Feed(s, f, 1) == GppStep(s, Presented(f, 0))
    ensures Tracking(Feed(s, f, 1), f, 1) && Vectored(Feed(s, f, 1), f, 1)
  {
    hide PhvStep, PhvOutStep, Classify, Readdress;
    assert Feed(s, f, 0) == s;
  }

  lemma StepOf(s: Gpp, f: seq<Word>, k: nat)
    requires WellFramed(f) && 1 <= k <= |f| && Tracking(s, f, k)
    ensures s.step == (k - 1) % BLOCK
  {
  }

  // ---------------------------------------------------------------- the vector and the packet

  /** The vector offered with the last word of a frame is that of the block its third word from
      the end is in, whatever came before, and it is offered exactly for the packets the parser
      accepts; up to 258 words that is the whole frame's vector. */
  lemma FrameVector(s: Gpp, f: seq<Word>)
    requires WellFramed(f) && 3 <= |f| && s.state == Idle
    ensures var e := Feed(s, f, |f|);
            && e.state == Idle
            && e.phvOut == HeaderVector(f[BlockOf(|f| - 3)..])
            && (|f| <= 258 ==> e.phvOut == HeaderVector(f))
            && e.phvWr == e.mdWr == Passes(f)
  {
    hide HeaderVector, GppStep, Holds;
    FeedInside(s, f, |f|);
    assert f[BlockOf(|f| - 3)..|f|] == f[BlockOf(|f| - 3)..];
    assert f[0..] == f;
    FrameStrobes(s, f, |f|);
  }

  /** The strobes come with the last word of an accepted frame and no other. */
  lemma FrameStrobes(s: Gpp, f: seq<Word>, k: nat)
    requires WellFramed(f) && 1 <= k <= |f| && s.state == Idle
    ensures var e := Feed(s, f, k); e.phvWr == e.mdWr == (k == |f| && Passes(f))
  {
    hide HeaderVector, Vectored, BlockOf, PhvStep, PhvOutStep, MetadataStep, Classify, Readdress;
    if k > 1 {
      FeedInside(s, f, k - 1);
    }
  }

  /** The packet that goes to the data cache: every word of an accepted frame, one cycle later,
      with the end-of-packet strobe on its tail; no word of any other. */
  lemma FrameForwarded(s: Gpp, f: seq<Word>, k: nat)
    requires WellFramed(f) && 1 <= k <= |f| && s.state == Idle
    ensures var bus := Feed(s, f, k).bus;
            if Passes(f) then bus == Bus(f[k - 1], true, k == |f|, k == |f|)
            else !bus.wr && !bus.validWr
  {
    hide PhvStep, PhvOutStep, Classify, Readdress, MetadataStep, Vectored, BlockOf;
    if k == 1 {
      assert Feed(s, f, 0) == s;
    } else {
      FeedInside(s, f, k - 1);
    }
  }

  // ---------------------------------------------------------------- the metadata

  /** The two words the metadata of a frame is taken from. */
  function MetadataWords(f: seq<Word>): Metadata
    requires |f| >= 3
  {
    Metadata(f[BlockOf(|f| - 2)].payload, f[BlockOf(|f| - 3) + 1].payload)
  }

  /** The metadata a frame leaves with, in terms of the protocol type before its last word. */
  lemma OfferedMetadata(s: Gpp, f: seq<Word>)
    requires WellFramed(f) && 3 <= |f| && s.state == Idle
    ensures Feed(s, f, |f|).mdOut == Readdress(MetadataWords(f), Feed(s, f, |f| - 1).pst)
  {
    hide ForwardStep, PhvStep, PhvOutStep, MetadataStep, Classify, Readdress, Vectored, BlockOf;
    FeedInside(s, f, |f| - 1);
  }

  /** From the fifth word on, the lanes the protocol type depends on are this frame's. */
  lemma SettledType(s: Gpp, f: seq<Word>, k: nat)
    requires WellFramed(f) && 5 <= k <= |f| && k <= 257 && s.state == Idle
    requires Recognised(EtherType(HeaderVector(f)))
    ensures Feed(s, f, k).pst == Classify(HeaderVector(f), 0)
  {
    hide Tracking, Vectored, PhvStep, PhvOutStep, StepInc, Readdress;
    FeedInside(s, f, k - 1);
    var p := Feed(s, f, k - 1);
    FirstLanes(p, f, k - 1);
    assert HeaderVector(f)[0] == f[2].payload && HeaderVector(f)[1] == f[3].payload;
    SameType(p.phv, HeaderVector(f), p.pst);
  }

  /** The protocol type is read from the first two lanes. */
  lemma SameType(phv: Lanes, other: Lanes, previous: Octet)
    requires phv[0] == other[0] && phv[1] == other[1] && Recognised(EtherType(other))
    ensures Classify(phv, previous) == Classify(other, 0)
  {
  }

  /** The metadata offered for a frame of 6 to 257 words: its own two words, readdressed with
      its own protocol type if that is one the parser knows. */
  lemma FrameMetadata(s: Gpp, f: seq<Word>)
    requires WellFramed(f) && 6 <= |f| <= 257 && s.state == Idle
    requires Recognised(EtherType(HeaderVector(f)))
    ensures Feed(s, f, |f|).mdOut
            == Readdress(Metadata(f[0].payload, f[1].payload), Classify(HeaderVector(f), 0))
  {
    hide GppStep, Readdress, Classify, HeaderVector;
    OfferedMetadata(s, f);
    SettledType(s, f, |f| - 1);
  }

  /** What leaves with a frame of 6 to 257 words: for module 1 the next module is 2 and the label
      says what the frame is, every other bit of its two metadata words as it came; for other
      modules nothing changes. */
  lemma FrameLabel(s: Gpp, f: seq<Word>)
    requires WellFramed(f) && 6 <= |f| <= 257 && s.state == Idle
    ensures var md := Feed(s, f, |f|).mdOut; var low := md.low;
            var e, p4, p6 := f[2].payload / 0x1_0000 % 0x1_0000, f[3].payload / 0x1_0000_0000_0000_0000 % 256,
                             f[3].payload / 0x100_0000_0000_0000_0000_0000 % 256;
            var kind := low / 0x100_0000_0000_0000_0000 % 256;
            && md.high == f[1].payload
            && (Module(f) != 1 ==> low == f[0].payload)
            && (Module(f) == 1 ==>
                  && low / 0x1_0000_0000_0000_0000_0000 % 256 == 2
                  && low / 0x100_0000_0000_0000_0000_0000 == f[0].payload / 0x100_0000_0000_0000_0000_0000
                  && low % 0x100_0000_0000_0000_0000 == f[0].payload % 0x100_0000_0000_0000_0000
                  && (e == 0x0800 ==> kind == if p4 == 6 then 0x01 else if p4 == 17 then 0x07 else 0x02)
                  && (e == 0x86DD ==> kind == if p6 == 6 then 0x81 else if p6 == 17 then 0x83 else 0x82)
                  && (e == 0x0806 ==> kind == 0x03)
                  && (e == 0x8100 ==> kind == 0xE0))
  {
    hide GppStep, Readdress, Classify, Feed, HeaderVector;
    assert BlockOf(|f| - 2) == 0 == BlockOf(|f| - 3);
    OfferedMetadata(s, f);
    var pst := Feed(s, f, |f| - 1).pst;
    if Module(f) == 1 {
      ReaddressFields(MetadataWords(f), pst);
    } else {
      NotReaddressed(MetadataWords(f), pst);
    }
    VectorStart(f);
    if Recognised(EtherType(HeaderVector(f))) {
      SettledType(s, f, |f| - 1);
      LabelTable(HeaderVector(f));
    }
  }

  lemma NotReaddressed(md: Metadata, pst: Octet)
    requires md.low / 0x1_0000_0000_0000_0000_0000 % 256 != 1
    ensures Readdress(md, pst) == md
  {
  }

  lemma VectorStart(f: seq<Word>)
    requires |f| >= 4
    ensures HeaderVector(f)[0] == f[2].payload && HeaderVector(f)[1] == f[3].payload
  {
  }

  lemma LabelTable(phv: Lanes)
    ensures var e, p4, p6 := phv[0] / 0x1_0000 % 0x1_0000, phv[1] / 0x1_0000_0000_0000_0000 % 256,
                             phv[1] / 0x100_0000_0000_0000_0000_0000 % 256;
            && (e == 0x0800 ==> Classify(phv, 0) == if p4 == 6 then 0x01 else if p4 == 17 then 0x07 else 0x02)
            && (e == 0x86DD ==> Classify(phv, 0) == if p6 == 6 then 0x81 else if p6 == 17 then 0x83 else 0x82)
            && (e == 0x0806 ==> Classify(phv, 0) == 0x03)
            && (e == 0x8100 ==> Classify(phv, 0) == 0xE0)
  {
  }

  /** A cycle without a word inside a frame starts the count again: the next word is taken for the
      second word of the metadata, and the one after it for the first lane of the vector. */
  lemma HoleRestartsCount(s: Gpp, hole: PktIn, i: PktIn, j: PktIn)
    requires !hole.wr && i.wr && j.wr && !i.word.IsHead() && !j.word.IsHead()
    ensures var u := GppStep(GppStep(s, hole), i); var v := GppStep(u, j);
            && u.md == Metadata(s.md.low, i.word.payload) && u.phv == s.phv
            && v.md == u.md && v.phv == s.phv[0 := j.word.payload]
            && v.phvOut == [j.word.payload, 0, 0, 0, 0, 0, 0, 0]
  {
    hide ForwardStep, Classify, Readdress;
  }

  // ---------------------------------------------------------------- which lengths

  /** The registers after some inputs from reset. */
  function After(past: seq<PktIn>): Gpp {
    if past == [] then GPP_RESET else GppStep(After(past[..|past| - 1]), past[|past| - 1])
  }

  function Presentation(f: seq<Word>): (r: seq<PktIn>)
    ensures |r| == |f|
  {
    seq(|f|, k requires 0 <= k < |f| => Presented(f, k))
  }

  lemma {:induction false} AfterFrame(f: seq<Word>, k: nat)
    requires k <= |f|
    ensures After(Presentation(f)[..k]) == Feed(GPP_RESET, f, k)
  {
    hide GppStep;
    if k > 0 {
      AfterFrame(f, k - 1);
      assert Presentation(f)[..k][..k - 1] == Presentation(f)[..k - 1];
    }
  }

  /** A frame of n words that starts with these payloads and goes on with zeros. */
  function Sample(n: nat, lead: seq<Payload>): (f: seq<Word>)
    requires n >= 2
    ensures |f| == n
  {
    seq(n, j requires 0 <= j =>
      Word(if j == 0 then HEAD else if j == n - 1 then TAIL else BODY, 0, if j < |lead| then lead[j] else 0))
  }

  /** For frames of n words the vector offered is always the frame's own. */
  ghost predicate VectorsOwn(n: nat) {
    forall past: seq<PktIn>, f: seq<Word> ::
      After(past).state == Idle && WellFramed(f) && |f| == n ==> Feed(After(past), f, |f|).phvOut == HeaderVector(f)
  }

  /** A frame of 259 or more words with zeros everywhere but in its third word leaves with a
      vector of zeros. */
  lemma LongFrameVector(s: Gpp, n: nat)
    requires n >= 259 && s.state == Idle
    ensures var f := Sample(n, [0, 0, 1]);
            WellFramed(f) && Feed(s, f, n).phvOut[0] == 0 && HeaderVector(f)[0] == 1
  {
    hide GppStep, BlockOf;
    var f := Sample(n, [0, 0, 1]);
    FrameVector(s, f);
    LateBlock(n - 3);
  }

  lemma LateBlock(j: nat)
    requires j >= BLOCK
    ensures BlockOf(j) >= BLOCK
  {
  }

  /** A frame of two words offers the vector of the frame before it. */
  lemma ShortFrameVector()
    ensures var past := Presentation(Sample(3, [0, 0, 1]));
            && After(past).state == Idle && WellFramed(Sample(2, []))
            && Feed(After(past), Sample(2, []), 2).phvOut[0] == 1
  {
    hide Classify, Readdress, MetadataStep, ForwardStep;
    var g, f := Sample(3, [0, 0, 1]), Sample(2, []);
    AfterFrame(g, 3);
    assert Presentation(g)[..3] == Presentation(g);
    FrameVector(GPP_RESET, g);
    var s := Feed(GPP_RESET, g, 3);
    assert Feed(s, f, 1) == GppStep(s, Presented(f, 0));
  }

  /** The header vector of every frame of n words is its own, whatever came before, exactly
      for n from 3 to 258. */
  lemma VectorLengths(n: nat)
    requires n >= 2
    ensures VectorsOwn(n) <==> 3 <= n <= 258
  {
    hide GppStep, HeaderVector, BlockOf, Sample, Presentation;
    if 3 <= n <= 258 {
      forall past: seq<PktIn>, f: seq<Word> | After(past).state == Idle && WellFramed(f) && |f| == n
        ensures Feed(After(past), f, |f|).phvOut == HeaderVector(f)
      {
        FrameVector(After(past), f);
      }
    } else if n == 2 {
      ShortFrameVector();
      assert HeaderVector(Sample(2, []))[0] == 0 by { NoThirdWord(); }
    } else {
      assert After([]) == GPP_RESET;
      LongFrameVector(After([]), n);
    }
  }

  lemma NoThirdWord()
    ensures HeaderVector(Sample(2, []))[0] == 0
  {
  }

  /** For frames of n words with a known EtherType the metadata is always the frame's own. */
  ghost predicate MetadataOwn(n: nat) {
    forall past: seq<PktIn>, f: seq<Word> ::
      After(past).state == Idle && WellFramed(f) && |f| == n && Recognised(EtherType(HeaderVector(f)))
      ==> Feed(After(past), f, |f|).mdOut
          == Readdress(Metadata(f[0].payload, f[1].payload), Classify(HeaderVector(f), 0))
  }

  const TO_FIVE: Payload := 5 * TWO_TO_THE_80
  const IPV4_LANE: Payload := ETH_IPV4 * TWO_TO_THE_16

  /** An IPv4 frame for module 5 with 258 or more words leaves without its first word. */
  lemma LongFrameMetadata(s: Gpp, n: nat)
    requires n >= 258 && s.state == Idle
    ensures var f := Sample(n, [TO_FIVE, 0, IPV4_LANE]);
            && WellFramed(f) && Recognised(EtherType(HeaderVector(f)))
            && Feed(s, f, n).mdOut.low == 0
            && Readdress(Metadata(f[0].payload, f[1].payload), Classify(HeaderVector(f), 0)).low == TO_FIVE
  {
    hide GppStep, BlockOf, Classify;
    var f := Sample(n, [TO_FIVE, 0, IPV4_LANE]);
    LateBlock(n - 2);
    OfferedMetadata(s, f);
  }

  const TO_ONE: Payload := LMID * TWO_TO_THE_80
  const TCP_LANE: Payload := PROTO_TCP * TWO_TO_THE_64 + PROTO_TCP * TWO_TO_THE_88

  /** What a frame for module 1 leaves with is its own only if the label is. */
  lemma WrongLabel(f: seq<Word>, md: Metadata)
    requires |f| >= 3 && DestinationModule(f[0].payload) == LMID
    requires ProtocolType(md.low) != Classify(HeaderVector(f), 0)
    ensures md != Readdress(Metadata(f[0].payload, f[1].payload), Classify(HeaderVector(f), 0))
  {
    hide Readdress, Classify, HeaderVector;
    ReaddressFields(Metadata(f[0].payload, f[1].payload), Classify(HeaderVector(f), 0));
  }

  /** IPv4 frames for module 1 that are too short for their type to be settled: three or four words
      leave without a type, and five words of TCP as plain IPv4. */
  lemma ShortFrameLabel(n: nat)
    requires 3 <= n <= 5
    ensures var f := Sample(n, [TO_ONE, 0, IPV4_LANE, TCP_LANE]);
            && WellFramed(f) && Recognised(EtherType(HeaderVector(f))) && DestinationModule(f[0].payload) == LMID
            && Classify(HeaderVector(f), 0) == (if n == 3 then 0x02 else 0x01)
            && ProtocolType(Feed(GPP_RESET, f, n).mdOut.low) == if n <= 4 then 0 else 0x02
  {
    hide GppStep, Readdress;
    var f := Sample(n, [TO_ONE, 0, IPV4_LANE, TCP_LANE]);
    if n <= 4 {
      UnknownTypeLabel(GPP_RESET, f);
    } else {
      FifthLabel(GPP_RESET, f);
    }
  }

  /** The metadata of every frame of n words and known EtherType is its own exactly for n from 6
      to 257, and for two words, where no EtherType is known. */
  lemma MetadataLengths(n: nat)
    requires n >= 2
    ensures MetadataOwn(n) <==> n == 2 || 6 <= n <= 257
  {
    hide GppStep, HeaderVector, BlockOf, Sample, Readdress, Classify, Recognised, EtherType, Feed, ProtocolType,
      DestinationModule;
    FromReset();
    if n == 2 {
      forall f: seq<Word> | WellFramed(f) && |f| == 2
        ensures !Recognised(EtherType(HeaderVector(f)))
      {
        NoType(f);
      }
    } else if n <= 5 {
      var f := Sample(n, [TO_ONE, 0, IPV4_LANE, TCP_LANE]);
      ShortFrameLabel(n);
      WrongLabel(f, Feed(After([]), f, |f|).mdOut);
    } else if n <= 257 {
      forall past: seq<PktIn>, f: seq<Word> |
        After(past).state == Idle && WellFramed(f) && |f| == n && Recognised(EtherType(HeaderVector(f)))
        ensures Feed(After(past), f, |f|).mdOut
                == Readdress(Metadata(f[0].payload, f[1].payload), Classify(HeaderVector(f), 0))
      {
        FrameMetadata(After(past), f);
      }
    } else {
      LongFrameMetadata(After([]), n);
    }
  }

  lemma NoType(f: seq<Word>)
    requires |f| == 2
    ensures !Recognised(EtherType(HeaderVector(f)))
  {
  }

  lemma FromReset()
    ensures After([]) == GPP_RESET
  {
  }

  // ---------------------------------------------------------------- labels

  /** The protocol type stays that of the vector the frame found in the parser: for three words,
      and as long as the frame's EtherType is unknown. */
  lemma {:induction false} UnknownTypeKept(s: Gpp, f: seq<Word>, k: nat)
    requires WellFramed(f) && 1 <= k <= |f| && k <= 257 && s.state == Idle
    requires k <= 3 || !Recognised(EtherType(HeaderVector(f)))
    ensures Feed(s, f, k).pst == Classify(s.phv, s.pst)
  {
    hide ForwardStep, PhvStep, PhvOutStep, StepInc, MetadataStep, Readdress, Tracking, Vectored;
    if k == 1 {
      assert Feed(s, f, 0) == s;
    } else {
      UnknownTypeKept(s, f, k - 1);
      FeedInside(s, f, k - 1);
      var p := Feed(s, f, k - 1);
      if k > 3 {
        FirstLanes(p, f, k - 1);
        assert HeaderVector(f)[0] == f[2].payload;
      } else {
        OldVector(s, f, k - 1);
      }
    }
  }

  lemma OldVector(s: Gpp, f: seq<Word>, k: nat)
    requires WellFramed(f) && k <= 2 && k <= |f|
    ensures Feed(s, f, k).phv == s.phv
  {
    hide ForwardStep, PhvOutStep, MetadataStep, Readdress, Classify;
    if k == 2 {
      assert Feed(s, f, 1).step == 0;
    }
  }

  /** A frame for module 1 of three or four words, or of unknown EtherType, is labelled with the
      type of the vector the parser still holds. */
  lemma UnknownTypeLabel(s: Gpp, f: seq<Word>)
    requires WellFramed(f) && 3 <= |f| <= 257 && s.state == Idle
    requires DestinationModule(f[0].payload) == LMID && (|f| <= 4 || !Recognised(EtherType(HeaderVector(f))))
    ensures ProtocolType(Feed(s, f, |f|).mdOut.low) == Classify(s.phv, s.pst)
  {
    hide GppStep, Readdress, HeaderVector, Classify;
    UnknownTypeKept(s, f, |f| - 1);
    OfferedMetadata(s, f);
    ReaddressFields(MetadataWords(f), Classify(s.phv, s.pst));
  }

  /** The lanes a frame of five words is labelled by: its own first, the one before it second. */
  function MixedLanes(s: Gpp, f: seq<Word>): Lanes
    requires |f| >= 3
  {
    s.phv[0 := f[2].payload]
  }

  lemma ThirdWord(s: Gpp, f: seq<Word>)
    requires WellFramed(f) && 4 <= |f| && s.state == Idle
    ensures Feed(s, f, 3).phv == MixedLanes(s, f)
  {
    hide ForwardStep, PhvOutStep, MetadataStep, Readdress, Classify, Vectored;
    FeedInside(s, f, 2);
    OldVector(s, f, 2);
    assert Feed(s, f, 3) == GppStep(Feed(s, f, 2), Presented(f, 2));
  }

  lemma FifthLabel(s: Gpp, f: seq<Word>)
    requires WellFramed(f) && |f| == 5 && s.state == Idle && DestinationModule(f[0].payload) == LMID
    ensures Feed(s, f, 5).mdOut == Readdress(MetadataWords(f), Classify(MixedLanes(s, f), Classify(s.phv, s.pst)))
    ensures ProtocolType(Feed(s, f, 5).mdOut.low) == Classify(MixedLanes(s, f), Classify(s.phv, s.pst))
  {
    hide Readdress, HeaderVector, Classify, ForwardStep, PhvStep, PhvOutStep, StepInc, MetadataStep, MixedLanes;
    UnknownTypeKept(s, f, 3);
    ThirdWord(s, f);
    assert Feed(s, f, 4) == GppStep(Feed(s, f, 3), Presented(f, 3));
    OfferedMetadata(s, f);
    ReaddressFields(MetadataWords(f), Classify(MixedLanes(s, f), Classify(s.phv, s.pst)));
  }

  /** The second metadata word of a frame of two words is that of the frame before. */
  lemma TwoWordMetadata(s: Gpp, f: seq<Word>)
    requires WellFramed(f) && |f| == 2 && s.state == Idle
    ensures Feed(s, f, 2).mdOut.high == s.md.high
  {
    hide ForwardStep, PhvStep, PhvOutStep, Classify, Readdress;
    assert Feed(s, f, 1) == GppStep(s, Presented(f, 0));
  }

  /** An IPv4/TCP frame received from reset leaves its second word, its lanes and its type. */
  function Ipv4Past(): seq<PktIn> { Presentation(Sample(6, [TO_FIVE, 1, IPV4_LANE, TCP_LANE])) }

  lemma AfterIpv4()
    ensures var s := After(Ipv4Past());
            s.state == Idle && s.md.high == 1 && s.phv[1] == TCP_LANE && Classify(s.phv, s.pst) == 0x01
    ensures Classify(GPP_RESET.phv, GPP_RESET.pst) == 0
  {
    hide GppStep;
    var g := Sample(6, [TO_FIVE, 1, IPV4_LANE, TCP_LANE]);
    AfterFrame(g, 6);
    assert Presentation(g)[..6] == Presentation(g);
    FeedInside(GPP_RESET, g, 6);
    FirstLanes(Feed(GPP_RESET, g, 6), g, 6);
  }

  /** A frame long enough for the part of its header the label depends on. */
  predicate LabelSettled(f: seq<Word>)
    requires |f| >= 2
  {
    var e := EtherType(HeaderVector(f));
    (|f| >= 6 && Recognised(e)) || (|f| == 5 && (e == ETH_ARP || e == ETH_VLAN))
  }

  /** After every past from reset the frame leaves with the same metadata. */
  ghost predicate SameAfterAll(f: seq<Word>) {
    forall p: seq<PktIn>, q: seq<PktIn> :: After(p).state == Idle && After(q).state == Idle
                        ==> Feed(After(p), f, |f|).mdOut == Feed(After(q), f, |f|).mdOut
  }

  lemma SettledLabel(s: Gpp, f: seq<Word>)
    requires WellFramed(f) && |f| <= 257 && DestinationModule(f[0].payload) == LMID && s.state == Idle
    requires LabelSettled(f)
    ensures Feed(s, f, |f|).mdOut == Readdress(Metadata(f[0].payload, f[1].payload), Classify(HeaderVector(f), 0))
  {
    hide GppStep, Readdress, Feed;
    if |f| >= 6 {
      FrameMetadata(s, f);
    } else {
      FifthLabel(s, f);
      assert MixedLanes(s, f)[0] == HeaderVector(f)[0];
    }
  }

  lemma UnsettledLabel(f: seq<Word>)
    requires WellFramed(f) && |f| <= 257 && DestinationModule(f[0].payload) == LMID && !LabelSettled(f)
    ensures Feed(After(Ipv4Past()), f, |f|).mdOut != Feed(After([]), f, |f|).mdOut
  {
    hide GppStep, Readdress, Feed, After, ProtocolType, Classify, Ipv4Past, HeaderVector;
    AfterIpv4();
    FromReset();
    if |f| == 2 {
      TwoWordMetadata(After(Ipv4Past()), f);
      TwoWordMetadata(After([]), f);
    } else if |f| == 5 && Recognised(EtherType(HeaderVector(f))) {
      FifthLabel(After(Ipv4Past()), f);
      FifthLabel(After([]), f);
      LanesDecide(After(Ipv4Past()), f);
    } else {
      UnknownTypeLabel(After(Ipv4Past()), f);
      UnknownTypeLabel(After([]), f);
    }
  }

  /** For IP the lane left by a TCP frame and the empty lane give different types. */
  lemma LanesDecide(s: Gpp, f: seq<Word>)
    requires |f| == 5 && s.phv[1] == TCP_LANE
    requires EtherType(HeaderVector(f)) == ETH_IPV4 || EtherType(HeaderVector(f)) == ETH_IPV6
    ensures Classify(MixedLanes(s, f), Classify(s.phv, s.pst))
            != Classify(MixedLanes(GPP_RESET, f), Classify(GPP_RESET.phv, GPP_RESET.pst))
  {
    TcpFields();
    assert MixedLanes(s, f)[0] == HeaderVector(f)[0] == MixedLanes(GPP_RESET, f)[0];
  }

  lemma TcpFields()
    ensures Field(TCP_LANE, TWO_TO_THE_64, 256) == PROTO_TCP && Field(TCP_LANE, TWO_TO_THE_88, 256) == PROTO_TCP
    ensures Field(0, TWO_TO_THE_64, 256) == 0 && Field(0, TWO_TO_THE_88, 256) == 0
  {
  }

  /** The metadata of a frame for module 1 is the same after every past exactly when it has six
      words and a recognised EtherType, or five words of a type that needs no protocol field. */
  lemma LabelIsTheFramesOwn(f: seq<Word>)
    requires WellFramed(f) && |f| <= 257 && DestinationModule(f[0].payload) == LMID
    ensures SameAfterAll(f) <==> LabelSettled(f)
  {
    hide GppStep, Readdress, HeaderVector, Feed, Classify, Recognised, EtherType, After, Ipv4Past, LabelSettled;
    if LabelSettled(f) {
      forall p: seq<PktIn>, q: seq<PktIn> | After(p).state == Idle && After(q).state == Idle
        ensures Feed(After(p), f, |f|).mdOut == Feed(After(q), f, |f|).mdOut
      {
        SettledLabel(After(p), f);
        SettledLabel(After(q), f);
      }
    } else {
      AfterIpv4();
      FromReset();
      UnsettledLabel(f);
    }
  }
}

/** Masked TLVs. The walk looks neither at the mask bit nor at the width, so a value and its mask
    are written side by side; for the first of two neighbouring addresses that fills both. */
module MaskedMatch {
  import opened RuleMatch
  import opened FlowMatch
  import opened MatchMeaning

  /** Addresses that are followed in the key by one of the same width. */
  predicate First(f: bv8) { f == ETH_DST || f == OXM_IPV4_SRC || f == OXM_IPV6_SRC }

  function Second(f: bv8): (g: bv8)
    requires First(f)
    ensures Exact(g) && Width(g) == Width(f) && Offset(g) == Offset(f) + Width(f)
  {
    if f == ETH_DST then ETH_SRC else if f == OXM_IPV4_SRC then OXM_IPV4_DST else OXM_IPV6_DST
  }

  function Plain(f: bv8, v: seq<bv8>): (t: Tlv)
    requires Exact(f) && |v| == Width(f)
    ensures Standard(t)
  {
    Tlv(f, false, |v| as bv8, v)
  }

  function Masked(f: bv8, v: seq<bv8>, m: seq<bv8>): (t: Tlv)
    requires First(f) && |v| == |m| == Width(f)
    ensures Fits(t)
  {
    Tlv(f, true, (2 * |v|) as bv8, v + m)
  }

  /** The two TLVs a masked one is taken for. */
  function TakenFor(f: bv8, v: seq<bv8>, m: seq<bv8>): (ts: seq<Tlv>)
    requires First(f) && |v| == |m| == Width(f)
    ensures AllStandard(ts)
  {
    [Plain(f, m), Plain(Second(f), v)]
  }

  lemma PutTwice(key: Key, at: nat, a: seq<bv8>, b: seq<bv8>)
    requires at + |a| + |b| <= KEY_BYTES
    ensures Put(Put(key, at, a), at + |a|, b) == Put(key, at, a + b)
  {
  }

  lemma ReversedPair(v: seq<bv8>, m: seq<bv8>)
    ensures Reversed(v + m) == Reversed(m) + Reversed(v)
  {
  }

  lemma OnesPair(a: nat, b: nat)
    ensures Ones(a + b) == Ones(a) + Ones(b)
  {
  }

  lemma MaskedIsTwo(r: Rule, f: bv8, v: seq<bv8>, m: seq<bv8>)
    requires First(f) && |v| == |m| == Width(f)
    ensures Apply(r, Masked(f, v, m)) == Apply(Apply(r, Plain(f, m)), Plain(Second(f), v))
  {
    hide Put, Reversed, Ones;
    var at, w := Offset(f), Width(f);
    ReversedPair(v, m);
    OnesPair(w, w);
    PutTwice(r.key, at, Reversed(m), Reversed(v));
    PutTwice(r.mask, at, Ones(w), Ones(w));
  }

  /** In any match a masked address compiles to two exact ones: the mask as the address itself and
      the value as the one behind it. */
  lemma CompiledAsTwo(ts: seq<Tlv>, f: bv8, v: seq<bv8>, m: seq<bv8>)
    requires AllFit(ts) && First(f) && |v| == |m| == Width(f)
    ensures AllFit(ts + [Masked(f, v, m)]) && AllFit(ts + TakenFor(f, v, m))
    ensures Compile(ts + [Masked(f, v, m)]) == Compile(ts + TakenFor(f, v, m))
  {
    hide Fits, Apply, Masked, Plain, Second;
    var t, a, b := Masked(f, v, m), Plain(f, m), Plain(Second(f), v);
    MaskedIsTwo(Compile(ts), f, v, m);
    CompileLast(ts, t);
    CompileLast(ts, a);
    CompileLast(ts + [a], b);
    assert ts + TakenFor(f, v, m) == ts + [a] + [b];
  }

  lemma CompileLast(ts: seq<Tlv>, t: Tlv)
    requires AllFit(ts) && Fits(t)
    ensures AllFit(ts + [t]) && Compile(ts + [t]) == Apply(Compile(ts), t)
  {
    hide Fits, Apply;
    assert (ts + [t])[..|ts|] == ts;
  }

  /** So it selects the frames that have the mask for the one address and the value for the other. */
  lemma MaskedMeans(ts: seq<Tlv>, f: bv8, v: seq<bv8>, m: seq<bv8>, frame: seq<bv8>, port: bv8)
    requires First(f) && |v| == |m| == Width(f) && Matchable(ts + TakenFor(f, v, m))
    requires Complete(frame) && FrameKey(frame, port).Some?
    ensures AllStandard(ts) && AllFit(ts + [Masked(f, v, m)])
    ensures var r := Compile(ts + [Masked(f, v, m)]);
            MaskedEqual(r.key, FrameKey(frame, port).value, r.mask)
            <==> && MeetsAll(frame, ts) && MeetsInPort(ts, port)
                 && Meets(frame, Plain(f, m)) && Meets(frame, Plain(Second(f), v))
  {
    hide Fits, Compile, Matchable, Meets, FrameKey, MaskedEqual, Complete, PortNibble, Masked, Standard;
    var all := ts + TakenFor(f, v, m);
    MatchableIsStandard(all);
    PrefixStandard(ts, TakenFor(f, v, m));
    CompiledAsTwo(ts, f, v, m);
    CompiledMatchMeans(all, frame, port);
    MeetsParts(ts, f, v, m, frame, port);
  }

  lemma PrefixStandard(ts: seq<Tlv>, us: seq<Tlv>)
    requires AllStandard(ts + us)
    ensures AllStandard(ts)
  {
    hide Fits, Standard;
    forall k | 0 <= k < |ts|
      ensures Fits(ts[k]) && Standard(ts[k])
    {
      assert (ts + us)[k] == ts[k];
    }
  }

  lemma MeetsParts(ts: seq<Tlv>, f: bv8, v: seq<bv8>, m: seq<bv8>, frame: seq<bv8>, port: bv8)
    requires First(f) && |v| == |m| == Width(f) && AllStandard(ts) && Complete(frame)
    requires AllStandard(ts + TakenFor(f, v, m))
    ensures MeetsAll(frame, ts + TakenFor(f, v, m))
            <==> MeetsAll(frame, ts) && Meets(frame, Plain(f, m)) && Meets(frame, Plain(Second(f), v))
    ensures MeetsInPort(ts + TakenFor(f, v, m), port) <==> MeetsInPort(ts, port)
  {
    hide Fits, Standard, Meets, Complete, PortNibble;
    var all, n := ts + TakenFor(f, v, m), |ts|;
    assert all[n] == Plain(f, m) && all[n + 1] == Plain(Second(f), v);
    assert forall i :: 0 <= i < n ==> all[i] == ts[i];
    assert |all| == n + 2;
  }

  // ---------------------------------------------------------------- never what was asked

  /** What OpenFlow means by a frame meeting a masked destination address. */
  predicate MeetsMasked(frame: seq<bv8>, v: seq<bv8>, m: seq<bv8>)
    requires Complete(frame) && |v| == |m| == 6
  {
    forall i :: 0 <= i < 6 ==> FieldOf(frame, ETH_DST)[i] & m[i] == v[i]
  }

  /** The value has no bit outside the mask, as the specification demands. */
  predicate WithinMask(v: seq<bv8>, m: seq<bv8>)
    requires |v| == |m|
  {
    forall i :: 0 <= i < |v| ==> v[i] & m[i] == v[i]
  }

  function ArpFrame(dst: seq<bv8>, src: seq<bv8>): (r: seq<bv8>)
    requires |dst| == |src| == 6
    ensures Complete(r) && FieldOf(r, ETH_DST) == dst && FieldOf(r, ETH_SRC) == src
  {
    dst + src + [0x08, 0x06]
  }

  /** For every masked destination address there is a frame it asks for and the rule does not select. */
  lemma MaskedDestinationMisses(v: seq<bv8>, m: seq<bv8>, port: bv8) returns (frame: seq<bv8>)
    requires |v| == |m| == 6 && WithinMask(v, m)
    ensures Complete(frame) && MeetsMasked(frame, v, m) && FrameKey(frame, port).Some?
    ensures var r := Compile([Masked(ETH_DST, v, m)]);
            !MaskedEqual(r.key, FrameKey(frame, port).value, r.mask)
  {
    hide FrameKey, Compile, MaskedEqual, MeetsAll, MeetsInPort, Masked;
    assert v[0] ^ 1 != v[0];
    frame := ArpFrame(v, v[0 := v[0] ^ 1]);
    AddressesMatchable(v, m);
    ArpIsLookedUp(frame, port);
    assert [] + TakenFor(ETH_DST, v, m) == TakenFor(ETH_DST, v, m);
    assert [] + [Masked(ETH_DST, v, m)] == [Masked(ETH_DST, v, m)];
    MaskedMeans([], ETH_DST, v, m, frame, port);
  }

  lemma ArpIsLookedUp(frame: seq<bv8>, port: bv8)
    requires Complete(frame) && EtherType(frame, 0x08, 0x06)
    ensures FrameKey(frame, port).Some?
  {
    hide LinkKey, AddressKey;
  }

  lemma AddressesMatchable(v: seq<bv8>, m: seq<bv8>)
    requires |v| == |m| == 6
    ensures Matchable(TakenFor(ETH_DST, v, m))
  {
  }
}

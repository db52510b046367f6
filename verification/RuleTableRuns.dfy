/** What holds of the flow table over every run: the registers mirror the table, no two live
    rules share a digest, and where a rule goes. */
module RuleTableRuns {
  import opened RuleMatch
  import opened RuleTable

  datatype Op = Add(rule: Rule) | Modify(rule: Rule, idx: int) | Delete(idx: int)

  function Applied(t: Table, op: Op): (r: Table)
    requires t.Shaped()
    ensures r.Shaped()
  {
    match op
    case Add(r) => Added(t, r)
    case Modify(r, idx) => Modified(t, r, idx)
    case Delete(idx) => Deleted(t, idx)
  }

  function Run(t: Table, ops: seq<Op>): (r: Table)
    requires t.Shaped()
    ensures r.Shaped()
  {
    if ops == [] then t else Applied(Run(t, ops[..|ops| - 1]), ops[|ops| - 1])
  }

  // ---------------------------------------------------------------- the register mirror

  /** The register words of a slot agree with a rule; a dead slot only has to read invalid. */
  predicate Image(regs: Regs, idx: nat, r: Rule)
    requires idx < RULES
  {
    && regs[RuleWord(idx, 32)] == r.priority
    && regs[RuleWord(idx, 33)] == r.valid
    && (Live(r) ==> forall h :: 0 <= h < 38 ==> regs[RuleWord(idx, h)] == Half(r, h))
  }

  function ActionOf(regs: Regs, idx: nat): bv32
    requires idx < RULES
  {
    regs[ActionWord(idx * 8)]
  }

  function DefaultAction(regs: Regs): bv32 { regs[ActionWord(0x1F8)] }

  /** A slot holds a live rule or nothing. */
  predicate Settled(r: Rule) { Live(r) || r == ZERO_RULE }

  predicate Pictured(t: Table)
    requires t.Shaped()
  {
    forall i :: 0 <= i < RULES ==> Settled(t.rules[i]) && Image(t.regs, i, t.rules[i])
  }

  predicate Mirrored(t: Table)
    requires t.Shaped()
  {
    Pictured(t) && forall i :: 0 <= i < RULES ==> ActionOf(t.regs, i) == t.rules[i].action
  }

  predicate SlotWord(idx: nat, w: nat) {
    RuleWord(idx, 0) <= w < RuleWord(idx, 64) || ActionWord(idx * 8) - 1 <= w <= ActionWord(idx * 8)
  }

  lemma RewrittenElsewhere(t: Table, idx: nat, valid: bv32, w: nat)
    requires t.Shaped() && idx < RULES && w < REG_WORDS && !SlotWord(idx, w)
    ensures Rewritten(t, idx, valid).regs[w] == t.regs[w]
  {
    hide WrittenRuleReg, WrittenAction, WrittenWords, Join64, Half;
    if valid == 0 {
      ActionAt(t.regs, idx * 8, 0);
      RuleRegAt(WrittenAction(t.regs, idx * 8, 0), idx, 16, 0, 0);
    } else {
      var r := t.rules[idx].(valid := valid);
      ActionAt(t.regs, idx * 8, r.action);
      WordsAt(WrittenAction(t.regs, idx * 8, r.action), idx, r, 19, w);
      RuleRegAt(WrittenWords(WrittenAction(t.regs, idx * 8, r.action), idx, r, 19), idx, 16, r.priority, r.valid);
    }
  }

  lemma KilledSlot(t: Table, idx: nat)
    requires t.Shaped() && idx < RULES
    ensures var t' := Rewritten(t, idx, 0);
            Image(t'.regs, idx, ZERO_RULE) && ActionOf(t'.regs, idx) == 0
  {
    hide WrittenRuleReg, WrittenAction, Join64, Half;
    ActionAt(t.regs, idx * 8, 0);
    RuleRegAt(WrittenAction(t.regs, idx * 8, 0), idx, 16, 0, 0);
  }

  lemma MiddleHalves(r: Rule)
    ensures Half(r, 32) == r.priority && Half(r, 33) == r.valid && Half(r, 36) == AddressBits(r.stats)
  {
    hide Word32;
  }

  lemma FilledSlot(t: Table, idx: nat)
    requires t.Shaped() && idx < RULES
    ensures var t' := Rewritten(t, idx, 1);
            Image(t'.regs, idx, t'.rules[idx]) && ActionOf(t'.regs, idx) == t'.rules[idx].action
  {
    hide WrittenRuleReg, WrittenAction, WrittenWords, Join64, Half;
    var t' := Rewritten(t, idx, 1);
    var r := t.rules[idx].(valid := 1);
    var a := WrittenAction(t.regs, idx * 8, r.action);
    ActionAt(t.regs, idx * 8, r.action);
    RuleRegAt(WrittenWords(a, idx, r, 19), idx, 16, r.priority, r.valid);
    WordsAt(a, idx, r, 19, ActionWord(idx * 8));
    forall h | 0 <= h < 38
      ensures t'.regs[RuleWord(idx, h)] == Half(r, h)
    {
      WordsAt(a, idx, r, 19, RuleWord(idx, h));
      MiddleHalves(r);
    }
  }

  /** Writing one slot leaves the picture of every other slot and the default action alone. */
  lemma OtherSlots(t: Table, idx: nat, valid: bv32, i: nat)
    requires t.Shaped() && idx < RULES && i < RULES && i != idx
    ensures var t' := Rewritten(t, idx, valid);
            && t'.rules[i] == t.rules[i]
            && (Image(t'.regs, i, t.rules[i]) <==> Image(t.regs, i, t.rules[i]))
            && ActionOf(t'.regs, i) == ActionOf(t.regs, i)
  {
    hide WrittenRuleReg, WrittenAction, WrittenWords, Half;
    var t' := Rewritten(t, idx, valid);
    forall h | 0 <= h < 38
      ensures t'.regs[RuleWord(i, h)] == t.regs[RuleWord(i, h)]
    {
      RewrittenElsewhere(t, idx, valid, RuleWord(i, h));
    }
    RewrittenElsewhere(t, idx, valid, ActionWord(i * 8));
  }

  lemma DefaultKept(t: Table, idx: nat, valid: bv32)
    requires t.Shaped() && idx < RULES
    ensures DefaultAction(Rewritten(t, idx, valid).regs) == DefaultAction(t.regs)
  {
    hide Rewritten;
    RewrittenElsewhere(t, idx, valid, ActionWord(DEFAULT_RULE));
  }

  lemma StoredPicture(t: Table, idx: nat, r: Rule, cnt: bv64)
    requires t.Shaped() && idx < RULES && Pictured(t)
    ensures var t' := Stored(t.(cnt := cnt), idx, r);
            && Pictured(t') && t'.rules == t.rules[idx := r.(valid := 1)]
            && (forall i :: 0 <= i < RULES ==>
                  ActionOf(t'.regs, i) == if i == idx then r.action else ActionOf(t.regs, i))
            && DefaultAction(t'.regs) == DefaultAction(t.regs)
  {
    hide Image, ActionOf, DefaultAction, WrittenRuleReg, WrittenAction, WrittenWords, Half;
    var s := t.(rules := t.rules[idx := r], cnt := cnt);
    FilledSlot(s, idx);
    DefaultKept(s, idx, 1);
    forall i | 0 <= i < RULES && i != idx
      ensures Image(Rewritten(s, idx, 1).regs, i, t.rules[i])
      ensures ActionOf(Rewritten(s, idx, 1).regs, i) == ActionOf(t.regs, i)
    {
      OtherSlots(s, idx, 1, i);
    }
  }

  lemma DeletedPicture(t: Table, idx: nat)
    requires t.Shaped() && idx < RULES && Pictured(t)
    ensures var t' := Deleted(t, idx);
            && Pictured(t') && t'.rules == t.rules[idx := ZERO_RULE]
            && (forall i :: 0 <= i < RULES ==>
                  ActionOf(t'.regs, i) == if i == idx then 0 else ActionOf(t.regs, i))
            && DefaultAction(t'.regs) == DefaultAction(t.regs)
  {
    hide Image, ActionOf, DefaultAction, WrittenRuleReg, WrittenAction, WrittenWords, Half;
    var s := t.(rules := t.rules[idx := ZERO_RULE]);
    KilledSlot(s, idx);
    DefaultKept(s, idx, 0);
    forall i | 0 <= i < RULES && i != idx
      ensures Image(Rewritten(s, idx, 0).regs, i, t.rules[i])
      ensures ActionOf(Rewritten(s, idx, 0).regs, i) == ActionOf(t.regs, i)
    {
      OtherSlots(s, idx, 0, i);
    }
  }

  lemma StoredMirrored(t: Table, idx: nat, r: Rule, cnt: bv64)
    requires t.Shaped() && idx < RULES && Mirrored(t)
    ensures var t' := Stored(t.(cnt := cnt), idx, r);
            t'.Shaped() && Mirrored(t') && DefaultAction(t'.regs) == DefaultAction(t.regs)
  {
    hide Pictured, ActionOf, DefaultAction, Stored;
    StoredPicture(t, idx, r, cnt);
  }

  lemma DeletedMirrored(t: Table, idx: int)
    requires t.Shaped() && Mirrored(t)
    ensures var t' := Deleted(t, idx);
            t'.Shaped() && Mirrored(t') && DefaultAction(t'.regs) == DefaultAction(t.regs)
  {
    hide Pictured, ActionOf, DefaultAction, Rewritten;
    if 0 <= idx < RULES {
      DeletedPicture(t, idx);
    }
  }

  /** Every operation keeps the mirror and the default action. */
  lemma StepMirrored(t: Table, op: Op)
    requires t.Shaped() && Mirrored(t)
    ensures Mirrored(Applied(t, op)) && DefaultAction(Applied(t, op).regs) == DefaultAction(t.regs)
  {
    hide Mirrored, DefaultAction, Stored, Deleted;
    match op
    case Add(r) =>
      if FindFree(t.rules) < RULES {
        StoredMirrored(t, FindFree(t.rules), r, t.cnt + 1);
      }
    case Modify(r, idx) =>
      if 0 <= idx < RULES {
        StoredMirrored(t, idx, r, t.cnt);
      }
    case Delete(idx) =>
      DeletedMirrored(t, idx);
  }

  lemma {:induction false} RunMirrored(t: Table, ops: seq<Op>)
    requires t.Shaped() && Mirrored(t)
    ensures Mirrored(Run(t, ops)) && DefaultAction(Run(t, ops).regs) == DefaultAction(t.regs)
  {
    hide Mirrored, DefaultAction, Applied;
    if ops != [] {
      RunMirrored(t, ops[..|ops| - 1]);
      StepMirrored(Run(t, ops[..|ops| - 1]), ops[|ops| - 1]);
    }
  }

  lemma {:induction false} ClearedWordsAt(regs: Regs, idx: nat, n: nat, w: nat)
    requires idx < RULES && n <= 18 && w < REG_WORDS
    ensures ClearedWords(regs, idx, n)[w] == if RuleWord(idx, 0) <= w < RuleWord(idx, 2 * n) then 0 else regs[w]
  {
    hide Join64, WrittenRuleReg;
    if n > 0 {
      ClearedWordsAt(regs, idx, n - 1, w);
      RuleRegAt(ClearedWords(regs, idx, n - 1), idx, n - 1, 0, 0);
    }
  }

  /** After n rounds of init_rule the first n slots read as nothing. */
  lemma {:induction false} ClearedSlotsImage(regs: Regs, n: nat, i: nat)
    requires i < n <= RULES
    ensures Image(ClearedSlots(regs, n), i, ZERO_RULE) && ActionOf(ClearedSlots(regs, n), i) == 0
  {
    hide ClearedWords, WrittenAction, Half;
    var before := ClearedSlots(regs, n - 1);
    var words := ClearedWords(before, n - 1, 18);
    ActionAt(words, (n - 1) * 8, 0);
    if i < n - 1 { ClearedSlotsImage(regs, n - 1, i); }
    ClearedWordsAt(before, n - 1, 18, RuleWord(i, 32));
    ClearedWordsAt(before, n - 1, 18, RuleWord(i, 33));
    ClearedWordsAt(before, n - 1, 18, ActionWord(i * 8));
  }

  lemma InitialMirrored(regs: Regs, defaultAction: bv32)
    ensures Mirrored(Initial(regs, defaultAction))
    ensures DefaultAction(Initial(regs, defaultAction).regs) == defaultAction
  {
    hide ClearedSlots, WrittenAction, Half;
    var cleared := ClearedSlots(regs, RULES);
    ActionAt(cleared, DEFAULT_RULE, defaultAction);
    forall i | 0 <= i < RULES
      ensures Image(WrittenAction(cleared, DEFAULT_RULE, defaultAction), i, ZERO_RULE)
      ensures ActionOf(WrittenAction(cleared, DEFAULT_RULE, defaultAction), i) == 0
    {
      ClearedSlotsImage(regs, RULES, i);
    }
  }

  /** From init_rule on, whatever is added, modified and deleted. */
  lemma AlwaysMirrored(regs: Regs, defaultAction: bv32, ops: seq<Op>)
    ensures Mirrored(Run(Initial(regs, defaultAction), ops))
    ensures DefaultAction(Run(Initial(regs, defaultAction), ops).regs) == defaultAction
  {
    hide Initial, Mirrored, DefaultAction, Run;
    InitialMirrored(regs, defaultAction);
    RunMirrored(Initial(regs, defaultAction), ops);
  }

  // ---------------------------------------------------------------- digests

  predicate Unique(rules: seq<Rule>) {
    forall i, j :: 0 <= i < j < |rules| && Live(rules[i]) && Live(rules[j]) ==> rules[i].digest != rules[j].digest
  }

  /** A modification of the kind libofp makes: of the live slot that carries the digest. */
  predicate KeepsDigest(t: Table, op: Op)
    requires t.Shaped()
  {
    op.Modify? && 0 <= op.idx < RULES ==> Carries(t.rules[op.idx], op.rule.digest)
  }

  predicate KeepsDigests(t: Table, ops: seq<Op>)
    requires t.Shaped()
  {
    forall k :: 0 <= k < |ops| ==> KeepsDigest(Run(t, ops[..k]), ops[k])
  }

  lemma StoredRules(t: Table, idx: nat, r: Rule, cnt: bv64)
    requires t.Shaped() && idx < RULES
    ensures Stored(t.(cnt := cnt), idx, r).rules == t.rules[idx := r.(valid := 1)]
  {
    hide WrittenRuleReg, WrittenAction, WrittenWords;
  }

  lemma DeletedRules(t: Table, idx: int)
    requires t.Shaped()
    ensures Deleted(t, idx).rules == if 0 <= idx < RULES then t.rules[idx := ZERO_RULE] else t.rules
  {
    hide WrittenRuleReg, WrittenAction, WrittenWords;
  }

  lemma UniqueWith(rules: seq<Rule>, idx: nat, r: Rule)
    requires Unique(rules) && idx < |rules|
    requires Live(r) ==> forall j :: 0 <= j < |rules| && j != idx ==> !Carries(rules[j], r.digest)
    ensures Unique(rules[idx := r])
  {
  }

  lemma CarriedOnce(rules: seq<Rule>, idx: nat, j: nat, d: Digest)
    requires Unique(rules) && idx < |rules| && j < |rules| && j != idx && Carries(rules[idx], d)
    ensures !Carries(rules[j], d)
  {
  }

  lemma StepUnique(t: Table, op: Op)
    requires t.Shaped() && Unique(t.rules) && KeepsDigest(t, op)
    ensures Unique(Applied(t, op).rules)
  {
    hide Stored, Deleted, Unique, Carries;
    match op
    case Add(r) =>
      if FindDigest(t.rules, r.digest) == RULES && FindFree(t.rules) < RULES {
        StoredRules(t, FindFree(t.rules), r, t.cnt + 1);
        UniqueWith(t.rules, FindFree(t.rules), r.(valid := 1));
      }
    case Modify(r, idx) =>
      if 0 <= idx < RULES {
        StoredRules(t, idx, r, t.cnt);
        forall j | 0 <= j < RULES && j != idx
          ensures !Carries(t.rules[j], r.digest)
        {
          CarriedOnce(t.rules, idx, j, r.digest);
        }
        UniqueWith(t.rules, idx, r.(valid := 1));
      }
    case Delete(idx) =>
      DeletedRules(t, idx);
      if 0 <= idx < RULES {
        UniqueWith(t.rules, idx, ZERO_RULE);
      }
  }

  lemma {:induction false} AlwaysUnique(regs: Regs, defaultAction: bv32, ops: seq<Op>)
    requires KeepsDigests(Initial(regs, defaultAction), ops)
    ensures Unique(Run(Initial(regs, defaultAction), ops).rules)
  {
    hide Applied, KeepsDigest, WrittenAction, ClearedSlots;
    var t := Initial(regs, defaultAction);
    if ops != [] {
      var n := |ops| - 1;
      forall k | 0 <= k < n
        ensures KeepsDigest(Run(t, ops[..n][..k]), ops[..n][k])
      {
        assert ops[..n][..k] == ops[..k];
      }
      AlwaysUnique(regs, defaultAction, ops[..n]);
      StepUnique(Run(t, ops[..n]), ops[n]);
    }
  }

  predicate Present(rules: seq<Rule>, d: Digest) { exists i :: 0 <= i < |rules| && Carries(rules[i], d) }

  predicate Full(rules: seq<Rule>) { forall i :: 0 <= i < |rules| ==> Live(rules[i]) }

  /** A new digest goes to the least free slot and touches no other; a present digest or a
      full table leaves everything as it was. */
  lemma AddOutcome(t: Table, r: Rule)
    requires t.Shaped()
    ensures Present(t.rules, r.digest) || Full(t.rules) ==> Added(t, r) == t
    ensures !Present(t.rules, r.digest) && !Full(t.rules) ==>
              exists i :: 0 <= i < RULES && !Live(t.rules[i]) && (forall j :: 0 <= j < i ==> Live(t.rules[j]))
                && AddResult(t, r) == i && Added(t, r).rules == t.rules[i := r.(valid := 1)]
  {
    hide Stored;
    var i := FindFree(t.rules);
    if i < RULES {
      StoredRules(t, i, r, t.cnt + 1);
    }
  }

  /** The value fast_add_rule returns names the slot of the rule exactly when the digest was
      absent and there was room: for a digest already present it names another slot or none. */
  lemma ResultIsTheSlot(t: Table, r: Rule)
    requires t.Shaped()
    ensures 0 <= AddResult(t, r) < RULES && Carries(Added(t, r).rules[AddResult(t, r)], r.digest)
            <==> !Present(t.rules, r.digest) && !Full(t.rules)
  {
    hide Stored;
    var i := FindFree(t.rules);
    if i < RULES {
      StoredRules(t, i, r, t.cnt + 1);
    }
  }

  // ---------------------------------------------------------------- lookup

  /** What fast_match_rule returns. */
  function MatchResult(rules: seq<Rule>, key: Key): bv32 {
    var i := FindMatch(rules, key);
    if i < |rules| then rules[i].action else NO_MATCH
  }

  /** One run of operations on the table, returning what each add returned. */
  method Perform(t: FlowTable, ops: seq<Op>) returns (results: seq<int>)
    requires t.Valid()
    modifies t, t.rules, t.regs
    ensures t.State() == Run(old(t.State()), ops) && |results| == |ops|
    ensures forall k :: 0 <= k < |ops| && ops[k].Add? ==>
              results[k] == AddResult(Run(old(t.State()), ops[..k]), ops[k].rule)
  {
    hide Added, Modified, Deleted, AddResult;
    results := [];
    for n := 0 to |ops|
      invariant t.State() == Run(old(t.State()), ops[..n]) && |results| == n
      invariant forall k :: 0 <= k < n && ops[k].Add? ==>
                  results[k] == AddResult(Run(old(t.State()), ops[..k]), ops[k].rule)
    {
      var result: int;
      match ops[n] {
        case Add(r) => result := t.Add(r);
        case Modify(r, idx) => result := t.Modify(r, idx);
        case Delete(idx) => result := t.Delete(idx);
      }
      assert ops[..n + 1][..n] == ops[..n];
      results := results + [result];
    }
    assert ops[..|ops|] == ops;
  }
}

/** Priorities. A lookup returns the first rule that selects the key and never reads priorities;
    these are the tables for which that is a rule of greatest priority all the same. */
module RulePriority {
  import opened RuleMatch
  import opened RuleTable
  import opened RuleTableRuns

  /** Some key is selected by both rules. */
  ghost predicate Overlap(a: Rule, b: Rule) {
    exists key: Key :: Selects(a, key) && Selects(b, key)
  }

  /** The keys of two live rules agree in every bit that both masks select. */
  predicate Agree(a: Rule, b: Rule) {
    Live(a) && Live(b) && forall j :: 0 <= j < KEY_BYTES ==> ByteMatches(a.key[j], b.key[j], a.mask[j] & b.mask[j])
  }

  /** A byte both of whose masked parts are as asked. */
  function Blend(a: bv8, b: bv8, m: bv8): bv8 { (a & m) | (b & !m) }

  lemma BlendMatches(a: bv8, b: bv8, m: bv8, n: bv8)
    requires ByteMatches(a, b, m & n)
    ensures ByteMatches(a, Blend(a, b, m), m) && ByteMatches(b, Blend(a, b, m), n)
  {
  }

  lemma BothMatch(a: bv8, b: bv8, k: bv8, m: bv8, n: bv8)
    requires ByteMatches(a, k, m) && ByteMatches(b, k, n)
    ensures ByteMatches(a, b, m & n)
  {
  }

  function BlendedKey(a: Rule, b: Rule): (r: Key)
    ensures forall j :: 0 <= j < KEY_BYTES ==> r[j] == Blend(a.key[j], b.key[j], a.mask[j])
  {
    seq(KEY_BYTES, j requires 0 <= j < KEY_BYTES => Blend(a.key[j], b.key[j], a.mask[j]))
  }

  /** Whether two rules overlap can be read off their keys and masks. */
  lemma OverlapIsAgreement(a: Rule, b: Rule)
    ensures Overlap(a, b) <==> Agree(a, b)
  {
    hide ByteMatches, Blend;
    if Agree(a, b) {
      forall j | 0 <= j < KEY_BYTES
        ensures ByteMatches(a.key[j], BlendedKey(a, b)[j], a.mask[j])
        ensures ByteMatches(b.key[j], BlendedKey(a, b)[j], b.mask[j])
      {
        BlendMatches(a.key[j], b.key[j], a.mask[j], b.mask[j]);
      }
      assert Selects(a, BlendedKey(a, b)) && Selects(b, BlendedKey(a, b));
    }
    if Overlap(a, b) {
      var key: Key :| Selects(a, key) && Selects(b, key);
      forall j | 0 <= j < KEY_BYTES
        ensures ByteMatches(a.key[j], b.key[j], a.mask[j] & b.mask[j])
      {
        BothMatch(a.key[j], b.key[j], key[j], a.mask[j], b.mask[j]);
      }
    }
  }

  // ---------------------------------------------------------------- when the first rule is the highest

  /** For every key, the rule found has the greatest priority of those that select the key. */
  ghost predicate FirstIsHighest(rules: seq<Rule>) {
    forall key: Key, j: nat :: j < |rules| && Selects(rules[j], key)
                               ==> rules[j].priority <= rules[FindMatch(rules, key)].priority
  }

  /** Rule i stands before a rule of higher priority that it overlaps. */
  predicate Inverted(rules: seq<Rule>, i: nat, j: nat)
    requires i < j < |rules|
  {
    rules[i].priority < rules[j].priority && Agree(rules[i], rules[j])
  }

  /** No rule overlaps a rule of higher priority in a later slot. */
  predicate InOrder(rules: seq<Rule>) {
    forall i: nat, j: nat :: i < j < |rules| ==> !Inverted(rules, i, j)
  }

  lemma FindsEarlier(rules: seq<Rule>, key: Key, j: nat)
    requires j < |rules| && Selects(rules[j], key)
    ensures FindMatch(rules, key) <= j
  {
    hide Selects;
  }

  lemma OrderedIsHighest(rules: seq<Rule>)
    requires InOrder(rules)
    ensures FirstIsHighest(rules)
  {
    hide Selects, Agree;
    forall key: Key, j: nat | j < |rules| && Selects(rules[j], key)
      ensures rules[j].priority <= rules[FindMatch(rules, key)].priority
    {
      FindsEarlier(rules, key, j);
      var i := FindMatch(rules, key);
      if i < j {
        assert !Inverted(rules, i, j);
        OverlapIsAgreement(rules[i], rules[j]);
      }
    }
  }

  /** Every key that rule i shares with rule j is taken by a slot before both. */
  ghost predicate Covered(rules: seq<Rule>, i: nat, j: nat)
    requires i < j < |rules|
  {
    forall key: Key :: Selects(rules[i], key) && Selects(rules[j], key) ==> FindMatch(rules, key) < i
  }

  lemma NoneHigher(rules: seq<Rule>, key: Key, j: nat)
    requires FirstIsHighest(rules) && j < |rules| && Selects(rules[j], key)
    ensures rules[j].priority <= rules[FindMatch(rules, key)].priority
  {
    hide Selects;
  }

  lemma CoveredAt(rules: seq<Rule>, i: nat, j: nat, key: Key)
    requires FirstIsHighest(rules) && i < j < |rules| && rules[i].priority < rules[j].priority
    requires Selects(rules[i], key) && Selects(rules[j], key)
    ensures FindMatch(rules, key) < i
  {
    hide Selects, FirstIsHighest;
    FindsEarlier(rules, key, i);
    NoneHigher(rules, key, j);
  }

  lemma HighestCovers(rules: seq<Rule>, i: nat, j: nat)
    requires FirstIsHighest(rules) && i < j < |rules| && Inverted(rules, i, j)
    ensures Covered(rules, i, j)
  {
    hide Selects, Agree, FirstIsHighest, FindMatch;
    forall key: Key | Selects(rules[i], key) && Selects(rules[j], key)
      ensures FindMatch(rules, key) < i
    {
      CoveredAt(rules, i, j, key);
    }
  }

  lemma LowerFound(rules: seq<Rule>, key: Key, j: nat)
    requires j < |rules| && Selects(rules[j], key)
    requires rules[FindMatch(rules, key)].priority < rules[j].priority
    ensures var i := FindMatch(rules, key);
            i < j && rules[i].priority < rules[j].priority && Agree(rules[i], rules[j]) && Selects(rules[i], key)
  {
    hide Selects, Agree, FindMatch;
    FindsEarlier(rules, key, j);
    OverlapIsAgreement(rules[FindMatch(rules, key)], rules[j]);
  }

  lemma NotCovered(rules: seq<Rule>, key: Key, i: nat, j: nat)
    requires i < j < |rules| && Selects(rules[i], key) && Selects(rules[j], key) && FindMatch(rules, key) == i
    ensures !Covered(rules, i, j)
  {
    hide Selects;
  }

  /** A table that does not return the highest priority has an inverted pair that is not covered. */
  lemma NotHighest(rules: seq<Rule>) returns (i: nat, j: nat)
    requires !FirstIsHighest(rules)
    ensures i < j < |rules| && Inverted(rules, i, j) && !Covered(rules, i, j)
  {
    hide Selects, Agree, Covered, FindMatch;
    var key: Key, k: nat :| k < |rules| && Selects(rules[k], key)
                            && !(rules[k].priority <= rules[FindMatch(rules, key)].priority);
    i, j := FindMatch(rules, key), k;
    LowerFound(rules, key, k);
    NotCovered(rules, key, i, k);
  }

  /** One table returns the highest priority for every key exactly when each inverted pair is
      covered. */
  lemma HighestExactly(rules: seq<Rule>)
    ensures FirstIsHighest(rules)
            <==> forall i: nat, j: nat :: i < j < |rules| && Inverted(rules, i, j) ==> Covered(rules, i, j)
  {
    hide FirstIsHighest, Inverted, Covered;
    if FirstIsHighest(rules) {
      forall i: nat, j: nat | i < j < |rules| && Inverted(rules, i, j)
        ensures Covered(rules, i, j)
      {
        HighestCovers(rules, i, j);
      }
    } else {
      var i, j := NotHighest(rules);
    }
  }

  // ---------------------------------------------------------------- and stays so under deletion

  /** The table once all rules but those of some slots have been deleted. */
  function Only(rules: seq<Rule>, kept: set<nat>): (r: seq<Rule>)
    ensures |r| == |rules|
    ensures forall i: nat :: i < |rules| ==> r[i] == if i in kept then rules[i] else ZERO_RULE
  {
    seq(|rules|, i requires 0 <= i < |rules| => if i in kept then rules[i] else ZERO_RULE)
  }

  lemma DeletionKeepsPair(rules: seq<Rule>, kept: set<nat>, i: nat, j: nat)
    requires i < j < |rules| && !Inverted(rules, i, j)
    ensures !Inverted(Only(rules, kept), i, j)
  {
    hide ByteMatches;
    if i !in kept || j !in kept {
      assert !Live(ZERO_RULE);
    }
  }

  lemma DeletionKeepsOrder(rules: seq<Rule>, kept: set<nat>)
    requires InOrder(rules)
    ensures InOrder(Only(rules, kept))
  {
    hide Inverted, Only;
    forall i: nat, j: nat | i < j < |rules|
      ensures !Inverted(Only(rules, kept), i, j)
    {
      DeletionKeepsPair(rules, kept, i, j);
    }
  }

  /** With every other rule deleted, an inverted pair shows. */
  lemma InversionShows(rules: seq<Rule>, i: nat, j: nat)
    requires i < j < |rules| && Inverted(rules, i, j)
    ensures !FirstIsHighest(Only(rules, {i, j}))
  {
    hide MaskedEqual, Agree;
    var t := Only(rules, {i, j});
    OverlapIsAgreement(rules[i], rules[j]);
    var key: Key :| Selects(rules[i], key) && Selects(rules[j], key);
    assert t[i] == rules[i] && t[j] == rules[j];
    FindsEarlier(t, key, i);
    assert FindMatch(t, key) == i;
  }

  /** The first match has the greatest priority, now and after any deletions, exactly when no rule
      overlaps one of higher priority in a later slot. */
  lemma HighestAfterDeletions(rules: seq<Rule>)
    ensures (forall kept: set<nat> :: FirstIsHighest(Only(rules, kept))) <==> InOrder(rules)
  {
    hide Inverted, FirstIsHighest;
    if InOrder(rules) {
      forall kept: set<nat>
        ensures FirstIsHighest(Only(rules, kept))
      {
        DeletionKeepsOrder(rules, kept);
        OrderedIsHighest(Only(rules, kept));
      }
    } else {
      var i: nat, j: nat :| i < j < |rules| && Inverted(rules, i, j);
      InversionShows(rules, i, j);
    }
  }
}

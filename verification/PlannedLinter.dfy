// The nested loop of the design plan (docs/superpowers/plans/2026-04-16-miharbor-stage-1-core.md)
// also lets equal values shadow each other, whatever their targets. The implementation
// does not; this is exactly where the two differ.
module PlannedLinter {
  import opened Text
  import opened RuleParser
  import opened Unreachable
  import opened Routing

  predicate PlannedShadows(broad: Rule, narrow: Rule) {
    && broad.Simple? && narrow.Simple? && broad.typ == narrow.typ
    && if broad.typ == SUFFIX then narrow.value == broad.value || EndsWith(narrow.value, "." + broad.value)
       else if broad.typ == KEYWORD then Contains(narrow.value, broad.value)
       else broad.value == narrow.value
  }

  function PlannedLoop(rules: seq<IndexedRule>, i: nat, j: nat): seq<Issue>
    requires j <= i < |rules|
    decreases i - j
  {
    if j == i then []
    else
      var cur, prev := rules[i], rules[j];
      if prev.rule.Match? then [AfterMatch(cur.index, prev.index)]
      else if prev.rule == cur.rule then [DuplicateRule(cur.index, prev.index)]
      else if PlannedShadows(prev.rule, cur.rule) then [Shadowed(cur.index, prev.index)]
      else PlannedLoop(rules, i, j + 1)
  }

  // Same type and value, but another target or other modifiers.
  predicate SameValue(a: Rule, b: Rule) {
    a.Simple? && b.Simple? && a.typ == b.typ && a.value == b.value && a != b
  }

  // Suffix values are not empty, as the parser guarantees.
  predicate ValuesGiven(rules: seq<IndexedRule>) {
    rules != [] ==> (IsSuffixRule(rules[0].rule) ==> rules[0].rule.value != "") && ValuesGiven(rules[1..])
  }

  lemma {:induction false} ValueGiven(rules: seq<IndexedRule>, i: nat)
    requires ValuesGiven(rules) && i < |rules|
    ensures IsSuffixRule(rules[i].rule) ==> rules[i].rule.value != ""
  {
    if i > 0 {
      ValueGiven(rules[1..], i - 1);
    }
  }

  lemma PlannedMeans(broad: Rule, narrow: Rule)
    requires IsSuffixRule(broad) ==> broad.value != ""
    ensures !broad.Match? && broad != narrow ==> (PlannedShadows(broad, narrow) <==> Shadows(broad, narrow) || SameValue(broad, narrow))
  {
    hide EndsWith;
    assert narrow.Simple? ==> OccursAt(narrow.value, narrow.value, 0);
  }

  // Every rule of equal value from j on comes after one that covers rule i.
  ghost predicate EqualComesLater(rules: seq<IndexedRule>, i: nat, j: nat)
    requires j <= i < |rules|
  {
    forall m :: j <= m < i && SameValue(rules[m].rule, rules[i].rule) ==>
      exists k :: j <= k < m && Covers(rules[k].rule, rules[i].rule)
  }

  lemma {:induction false} LoopNames(rules: seq<IndexedRule>, i: nat, j: nat, x: nat)
    requires x < j <= i < |rules| && DistinctIndexes(rules)
    ensures InnerLoop(rules, i, j) != [Shadowed(rules[i].index, rules[x].index)]
    decreases i - j
  {
    hide Shadows;
    if j < i {
      assert rules[x].index != rules[j].index;
      LoopNames(rules, i, j + 1, x);
    }
  }

  // The two loops report the same for a rule exactly when every earlier rule of equal
  // type and value comes after one that covers it anyway.
  lemma {:induction false} PlannedAgreesFrom(rules: seq<IndexedRule>, i: nat, j: nat)
    requires j <= i < |rules| && ValuesGiven(rules) && DistinctIndexes(rules)
    ensures PlannedLoop(rules, i, j) == InnerLoop(rules, i, j) <==> EqualComesLater(rules, i, j)
    decreases i - j
  {
    if j < i {
      var cur, prev := rules[i].rule, rules[j].rule;
      ValueGiven(rules, j);
      PlannedMeans(prev, cur);
      SameNotCover(prev, cur);
      hide Shadows, PlannedShadows;
      PlannedAgreesFrom(rules, i, j + 1);
      if Covers(prev, cur) {
        assert EqualComesLater(rules, i, j);
      } else if SameValue(prev, cur) {
        LoopNames(rules, i, j + 1, j);
      } else {
        assert EqualComesLater(rules, i, j) <==> EqualComesLater(rules, i, j + 1);
      }
    }
  }

  // A rule of equal value does not cover in the implementation.
  lemma SameNotCover(prev: Rule, cur: Rule)
    ensures SameValue(prev, cur) ==> !Covers(prev, cur)
  {
    if SameValue(prev, cur) && IsSuffixRule(prev) {
      assert |"." + prev.value| > |cur.value|;
    }
  }

  lemma PlannedAgreesIff(rules: seq<IndexedRule>, i: nat)
    requires i < |rules| && ValuesGiven(rules) && DistinctIndexes(rules)
    ensures PlannedLoop(rules, i, 0) == InnerLoop(rules, i, 0) <==> EqualComesLater(rules, i, 0)
  {
    PlannedAgreesFrom(rules, i, 0);
  }

  // Two suffix rules of one value and different targets: the planned loop reports the
  // second, the implementation does not.
  lemma PlanReportsMore()
    ensures var rules := [IndexedRule(0, Simple(SUFFIX, "example.com", "A", [])), IndexedRule(1, Simple(SUFFIX, "example.com", "B", []))];
            PlannedLoop(rules, 1, 0) == [Shadowed(1, 0)] && InnerLoop(rules, 1, 0) == []
  {
    var rules := [IndexedRule(0, Simple(SUFFIX, "example.com", "A", [])), IndexedRule(1, Simple(SUFFIX, "example.com", "B", []))];
    SameNotCover(rules[0].rule, rules[1].rule);
    assert InnerLoop(rules, 1, 0) == InnerLoop(rules, 1, 1);
  }
}

// Duplicate simple rules, part 3 of detectDuplicates
// (packages/shared/src/linter/duplicates.ts), and what both linters find together.
module Duplicates {
  import opened Text
  import opened RuleParser
  import opened Unreachable
  import opened Routing

  datatype DupIssue =
    | IntraGroup(index: int, group: string, key: string, duplicateOf: int)
    | CrossGroup(index: int, firstAt: int, firstTarget: string, currentTarget: string, key: string)

  // ----- reference -----

  // Issues of rule i: the earliest earlier rule with the same key and target, and
  // the earliest earlier rule with the same key if it goes elsewhere.
  ghost function DupAt(rules: seq<IndexedRule>, i: nat): seq<DupIssue>
    requires i < |rules|
  {
    var IndexedRule(index, rule) := rules[i];
    if !rule.Simple? then []
    else
      var key := Key(rule.typ, rule.value);
      var same := First(rules, i, ForKeyTo(key, rule.target));
      var first := First(rules, i, ForKey(key));
      (if same == -1 then [] else [IntraGroup(index, rule.target, key, rules[same].index)])
      + (if first == -1 || rules[first].rule.target == rule.target then []
         else [CrossGroup(index, rules[first].index, rules[first].rule.target, rule.target, key)])
  }

  ghost function DupReference(rules: seq<IndexedRule>, n: nat): seq<DupIssue>
    requires n <= |rules|
  {
    if n == 0 then [] else DupReference(rules, n - 1) + DupAt(rules, n - 1)
  }

  // ----- the map-based pass -----

  datatype Origin = Origin(index: int, target: string)

  type GroupIndex = map<string, map<string, int>> // target -> key -> rule index

  ghost predicate SeenIndex(seen: GroupIndex, rules: seq<IndexedRule>, n: nat)
    requires n <= |rules|
  {
    forall key, target ::
      var f := First(rules, n, ForKeyTo(key, target));
      && (f != -1 <==> target in seen && key in seen[target])
      && (f != -1 ==> seen[target][key] == rules[f].index)
  }

  ghost predicate KeyIndex(firstByKey: map<string, Origin>, rules: seq<IndexedRule>, n: nat)
    requires n <= |rules|
  {
    forall key ::
      var f := First(rules, n, ForKey(key));
      && (f != -1 <==> key in firstByKey)
      && (f != -1 ==> firstByKey[key] == Origin(rules[f].index, rules[f].rule.target))
  }

  lemma SeenIndexStep(seen: GroupIndex, rules: seq<IndexedRule>, n: nat)
    requires n < |rules| && SeenIndex(seen, rules, n)
    ensures var IndexedRule(index, rule) := rules[n];
            if !rule.Simple? then SeenIndex(seen, rules, n + 1)
            else
              var key := Key(rule.typ, rule.value);
              var group := if rule.target in seen then seen[rule.target] else map[];
              SeenIndex(seen[rule.target := if key in group then group else group[key := index]], rules, n + 1)
  {
    hide Key;
  }

  lemma KeyIndexStep(firstByKey: map<string, Origin>, rules: seq<IndexedRule>, n: nat)
    requires n < |rules| && KeyIndex(firstByKey, rules, n)
    ensures var IndexedRule(index, rule) := rules[n];
            if !rule.Simple? then KeyIndex(firstByKey, rules, n + 1)
            else
              var key := Key(rule.typ, rule.value);
              KeyIndex(if key in firstByKey then firstByKey else firstByKey[key := Origin(index, rule.target)], rules, n + 1)
  {
    hide Key;
  }

  // The issues of rule n, read off the indexes.
  lemma DupAtFromIndexes(seen: GroupIndex, firstByKey: map<string, Origin>, rules: seq<IndexedRule>, n: nat)
    requires n < |rules| && SeenIndex(seen, rules, n) && KeyIndex(firstByKey, rules, n)
    ensures var IndexedRule(index, rule) := rules[n];
            DupAt(rules, n) ==
              if !rule.Simple? then []
              else
                var key := Key(rule.typ, rule.value);
                (if rule.target in seen && key in seen[rule.target]
                 then [IntraGroup(index, rule.target, key, seen[rule.target][key])] else [])
                + (if key in firstByKey && firstByKey[key].target != rule.target
                   then [CrossGroup(index, firstByKey[key].index, firstByKey[key].target, rule.target, key)] else [])
  {
    hide Key, First;
    var IndexedRule(index, rule) := rules[n];
    if rule.Simple? {
      var key := Key(rule.typ, rule.value);
      var same, first := First(rules, n, ForKeyTo(key, rule.target)), First(rules, n, ForKey(key));
      assert same != -1 <==> rule.target in seen && key in seen[rule.target];
      assert first != -1 <==> key in firstByKey;
    }
  }

  lemma EmptyIndexes(rules: seq<IndexedRule>)
    ensures SeenIndex(map[], rules, 0) && KeyIndex(map[], rules, 0)
  {
  }

  method DetectDuplicateRules(rules: seq<IndexedRule>) returns (issues: seq<DupIssue>)
    ensures issues == DupReference(rules, |rules|)
  {
    hide SeenIndex, KeyIndex, Key, First, DupAt;
    issues := [];
    var seenPerGroup: GroupIndex := map[];
    var firstByKey: map<string, Origin> := map[];
    EmptyIndexes(rules);
    for i := 0 to |rules|
      invariant issues == DupReference(rules, i)
      invariant SeenIndex(seenPerGroup, rules, i)
      invariant KeyIndex(firstByKey, rules, i)
    {
      var IndexedRule(index, rule) := rules[i];
      SeenIndexStep(seenPerGroup, rules, i);
      KeyIndexStep(firstByKey, rules, i);
      DupAtFromIndexes(seenPerGroup, firstByKey, rules, i);
      if rule.Simple? {
        var key := Key(rule.typ, rule.value);
        ghost var before, seen := issues, seenPerGroup;
        if rule.target !in seenPerGroup {
          seenPerGroup := seenPerGroup[rule.target := map[]];
        }
        var groupMap := seenPerGroup[rule.target];
        if key in groupMap {
          issues := issues + [IntraGroup(index, rule.target, key, groupMap[key])];
        } else {
          seenPerGroup := seenPerGroup[rule.target := groupMap[key := index]];
        }
        assert seenPerGroup == seen[rule.target := if key in groupMap then groupMap else groupMap[key := index]];
        if key in firstByKey {
          if firstByKey[key].target != rule.target {
            issues := issues + [CrossGroup(index, firstByKey[key].index, firstByKey[key].target, rule.target, key)];
          }
        } else {
          firstByKey := firstByKey[key := Origin(index, rule.target)];
        }
        assert issues == before + DupAt(rules, i);
      }
    }
  }

  // ----- what a key identifies -----

  // Two different (type, value) pairs share a key exactly when one type extends the
  // other by ":" and text that the other value starts with.
  ghost predicate Extends(typA: string, valueA: string, typB: string, valueB: string) {
    exists x :: typA == typB + ":" + x && valueB == x + ":" + valueA
  }

  lemma LongerType(typA: string, valueA: string, typB: string, valueB: string)
    requires Key(typA, valueA) == Key(typB, valueB) && |typB| < |typA|
    ensures Extends(typA, valueA, typB, valueB)
  {
    var key, n, m := Key(typA, valueA), |typA|, |typB|;
    assert typA == key[..n] && valueA == key[n + 1..] && key[n] == ':';
    assert typB == key[..m] && valueB == key[m + 1..] && key[m] == ':';
    var x := key[m + 1..n];
    assert typA == typB + ":" + x;
    assert valueB == x + ":" + valueA;
  }

  lemma SharedKey(typA: string, valueA: string, typB: string, valueB: string)
    ensures Key(typA, valueA) == Key(typB, valueB) <==>
              || (typA == typB && valueA == valueB)
              || Extends(typA, valueA, typB, valueB)
              || Extends(typB, valueB, typA, valueA)
  {
    if Key(typA, valueA) == Key(typB, valueB) {
      if |typA| == |typB| {
        var key := Key(typA, valueA);
        assert typA == key[..|typA|] && typB == key[..|typB|];
        assert valueA == key[|typA| + 1..] && valueB == key[|typB| + 1..];
      } else if |typA| > |typB| {
        LongerType(typA, valueA, typB, valueB);
      } else {
        LongerType(typB, valueB, typA, valueA);
      }
    }
    if Extends(typA, valueA, typB, valueB) {
      ExtendedTypeSharesKey(typA, valueA, typB, valueB);
    }
    if Extends(typB, valueB, typA, valueA) {
      ExtendedTypeSharesKey(typB, valueB, typA, valueA);
    }
  }

  lemma ExtendedTypeSharesKey(typA: string, valueA: string, typB: string, valueB: string)
    requires Extends(typA, valueA, typB, valueB)
    ensures Key(typA, valueA) == Key(typB, valueB)
  {
    var x :| typA == typB + ":" + x && valueB == x + ":" + valueA;
    assert typB + ":" + x + ":" + valueA == typB + ":" + (x + ":" + valueA);
  }

  ghost predicate TypeExtends(typA: string, typB: string) {
    exists x :: typA == typB + ":" + x
  }

  // Keys tell the rules of two types apart, whatever their values, exactly when
  // neither type extends the other by ":" and more text.
  lemma KeysIdentifyIff(typA: string, typB: string)
    ensures (forall a, b :: Key(typA, a) == Key(typB, b) ==> typA == typB && a == b) <==>
            !TypeExtends(typA, typB) && !TypeExtends(typB, typA)
  {
    if TypeExtends(typA, typB) {
      var x :| typA == typB + ":" + x;
      ExtendedTypeSharesKey(typA, "", typB, x + ":" + "");
    }
    if TypeExtends(typB, typA) {
      var x :| typB == typA + ":" + x;
      ExtendedTypeSharesKey(typB, "", typA, x + ":" + "");
    }
    if !TypeExtends(typA, typB) && !TypeExtends(typB, typA) {
      forall a, b | Key(typA, a) == Key(typB, b) ensures typA == typB && a == b {
        SharedKey(typA, a, typB, b);
      }
    }
  }

  // A concrete clash: the second rule is reported as a duplicate of the first
  // although neither type nor value agree.
  lemma FalseDuplicate()
    ensures var rules := [IndexedRule(0, Simple("A:B", "C", "T", [])), IndexedRule(1, Simple("A", "B:C", "T", []))];
            DupReference(rules, 2) == [IntraGroup(1, "T", "A:B:C", 0)]
  {
    var rules := [IndexedRule(0, Simple("A:B", "C", "T", [])), IndexedRule(1, Simple("A", "B:C", "T", []))];
    assert Key("A:B", "C") == "A:B:C" == Key("A", "B:C");
    assert First(rules, 1, ForKeyTo("A:B:C", "T")) == 0 && First(rules, 1, ForKey("A:B:C")) == 0;
    assert First(rules, 0, ForKey("A:B:C")) == -1 && First(rules, 0, ForKeyTo("A:B:C", "T")) == -1;
    assert DupAt(rules, 0) == [] && DupAt(rules, 1) == [IntraGroup(1, "T", "A:B:C", 0)];
    assert DupReference(rules, 1) == [];
  }

  // ----- intra-group reports -----

  ghost predicate SameRoute(a: Rule, b: Rule) {
    a.Simple? && b.Simple? && a.typ == b.typ && a.value == b.value && a.target == b.target
  }

  // Rule j is the earliest rule before rule i with its type, value and target, and has index d.
  ghost predicate EarliestSame(rules: seq<IndexedRule>, i: nat, j: int, d: int)
    requires i < |rules|
  {
    && 0 <= j < i && rules[j].index == d && SameRoute(rules[j].rule, rules[i].rule)
    && forall k :: 0 <= k < j ==> !SameRoute(rules[k].rule, rules[i].rule)
  }

  ghost predicate NamesEarliest(rules: seq<IndexedRule>, i: nat, d: int)
    requires i < |rules| && rules[i].rule.Simple?
  {
    var rule := rules[i].rule;
    IntraGroup(rules[i].index, rule.target, Key(rule.typ, rule.value), d) in DupAt(rules, i) <==>
    exists j :: EarliestSame(rules, i, j, d)
  }

  // An earlier rule of the same target shares the key, but not the type and value.
  ghost predicate Clashes(rules: seq<IndexedRule>, i: nat, j: int)
    requires i < |rules| && 0 <= j < i
  {
    var a, b := rules[j].rule, rules[i].rule;
    && a.Simple? && b.Simple? && a.target == b.target && !(a.typ == b.typ && a.value == b.value)
    && Key(a.typ, a.value) == Key(b.typ, b.value)
  }

  ghost predicate ClashesComeLater(rules: seq<IndexedRule>, i: nat)
    requires i < |rules|
  {
    forall j :: 0 <= j < i && Clashes(rules, i, j) ==> exists k :: 0 <= k < j && SameRoute(rules[k].rule, rules[i].rule)
  }

  lemma HitIsSameOrClash(rules: seq<IndexedRule>, i: nat, j: int)
    requires 0 <= j < i < |rules| && rules[i].rule.Simple?
    ensures var rule := rules[i].rule;
            var hit := Hits(ForKeyTo(Key(rule.typ, rule.value), rule.target), rules[j].rule);
            && (hit <==> SameRoute(rules[j].rule, rule) || Clashes(rules, i, j))
            && !(SameRoute(rules[j].rule, rule) && Clashes(rules, i, j))
  {
    hide Key;
  }

  // An intra-group report of rule i names the earliest rule with its type, value and
  // target, and is made exactly when there is one, if and only if every earlier rule of
  // its target that shares the key with another type and value comes after such a rule.
  lemma IntraGroupNamesEarliestIff(rules: seq<IndexedRule>, i: nat)
    requires i < |rules| && DistinctIndexes(rules) && rules[i].rule.Simple?
    ensures (forall d :: NamesEarliest(rules, i, d)) <==> ClashesComeLater(rules, i)
  {
    var rule := rules[i].rule;
    var probe := ForKeyTo(Key(rule.typ, rule.value), rule.target);
    var f := First(rules, i, probe);
    FirstMeaning(rules, i, probe);
    forall j | 0 <= j < i
      ensures Hits(probe, rules[j].rule) <==> SameRoute(rules[j].rule, rule) || Clashes(rules, i, j)
      ensures !(SameRoute(rules[j].rule, rule) && Clashes(rules, i, j))
    {
      HitIsSameOrClash(rules, i, j);
    }
    hide Key, Hits, First, SameRoute, Clashes;
    ReportedIntra(rules, i);
    if f != -1 && SameRoute(rules[f].rule, rule) {
      forall d
        ensures NamesEarliest(rules, i, d)
      {
        EarliestIs(rules, i, f, d);
      }
    } else if f != -1 {
      assert Clashes(rules, i, f);
      assert !NamesEarliest(rules, i, rules[f].index) by {
        NoEarliest(rules, i, f);
      }
    }
  }

  lemma ReportedIntra(rules: seq<IndexedRule>, i: nat)
    requires i < |rules| && rules[i].rule.Simple?
    ensures var rule := rules[i].rule;
            var f := First(rules, i, ForKeyTo(Key(rule.typ, rule.value), rule.target));
            forall d :: IntraGroup(rules[i].index, rule.target, Key(rule.typ, rule.value), d) in DupAt(rules, i) <==>
                          f != -1 && rules[f].index == d
  {
    hide Key, First;
  }

  lemma EarliestIs(rules: seq<IndexedRule>, i: nat, f: int, d: int)
    requires 0 <= f < i < |rules| && SameRoute(rules[f].rule, rules[i].rule)
    requires forall j :: 0 <= j < f ==> !SameRoute(rules[j].rule, rules[i].rule)
    ensures (exists j :: EarliestSame(rules, i, j, d)) <==> rules[f].index == d
  {
    hide SameRoute;
    assert EarliestSame(rules, i, f, rules[f].index);
    if exists j :: EarliestSame(rules, i, j, d) {
      var j :| EarliestSame(rules, i, j, d);
      assert !(j < f) && !(f < j);
    }
  }

  lemma NoEarliest(rules: seq<IndexedRule>, i: nat, f: int)
    requires 0 <= f < i < |rules| && DistinctIndexes(rules) && !SameRoute(rules[f].rule, rules[i].rule)
    ensures !(exists j :: EarliestSame(rules, i, j, rules[f].index))
  {
    hide SameRoute;
  }

  // ----- cross-group reports -----

  // Rule j is the earliest rule before rule i with its key.
  ghost predicate EarliestOfKey(rules: seq<IndexedRule>, i: nat, j: int)
    requires i < |rules|
  {
    && 0 <= j < i && SharesKey(rules[j].rule, rules[i].rule)
    && forall k :: 0 <= k < j ==> !SharesKey(rules[k].rule, rules[i].rule)
  }

  // A cross-group report is made exactly when the earliest earlier rule of the key has
  // another target, and it names that rule and both targets.
  lemma CrossGroupIff(rules: seq<IndexedRule>, i: nat, issue: DupIssue)
    requires i < |rules| && rules[i].rule.Simple? && issue.CrossGroup?
    ensures var rule := rules[i].rule;
            issue in DupAt(rules, i) <==>
              exists j :: EarliestOfKey(rules, i, j) && rules[j].rule.target != rule.target
                && issue == CrossGroup(rules[i].index, rules[j].index, rules[j].rule.target, rule.target, rule.typ + ":" + rule.value)
  {
    var rule := rules[i].rule;
    var key := Key(rule.typ, rule.value);
    var f := First(rules, i, ForKey(key));
    FirstMeaning(rules, i, ForKey(key));
    forall j | 0 <= j < i
      ensures Hits(ForKey(key), rules[j].rule) <==> SharesKey(rules[j].rule, rule)
    {
    }
    hide First, Hits, SharesKey;
    forall j
      ensures EarliestOfKey(rules, i, j) <==> f != -1 && j == f
    {
      if EarliestOfKey(rules, i, j) && f != -1 {
        assert !(j < f) && !(f < j);
      }
    }
  }

  // ----- completeness of both linters together -----

  // Every host matched by narrow is matched by broad.
  ghost predicate HostsWithin(narrow: Rule, broad: Rule) {
    && narrow.Simple? && broad.Simple?
    && (narrow.typ == SUFFIX ==> forall host :: SuffixMatches(narrow.value, host) ==> SuffixMatches(broad.value, host))
    && (narrow.typ == KEYWORD ==> forall host :: Contains(host, narrow.value) ==> Contains(host, broad.value))
  }

  // Rule i is reported by one of the two linters.
  ghost predicate Flagged(rules: seq<IndexedRule>, i: nat)
    requires i < |rules|
  {
    InnerLoop(rules, i, 0) != [] || DupAt(rules, i) != []
  }

  // Both rules are domain suffixes (non-empty, as the parser guarantees) or both keywords.
  ghost predicate SameHostType(a: Rule, b: Rule) {
    || (IsSuffixRule(a) && IsSuffixRule(b) && a.value != "" && b.value != "")
    || (IsKeywordRule(a) && IsKeywordRule(b))
  }

  lemma InclusionMeansShadow(narrow: Rule, broad: Rule)
    requires SameHostType(narrow, broad)
    ensures HostsWithin(narrow, broad) <==> narrow.value == broad.value || Shadows(broad, narrow)
  {
    if IsSuffixRule(narrow) {
      hide EndsWith;
      assert SuffixMatches(narrow.value, narrow.value);
      if narrow.value != broad.value && EndsWith(narrow.value, "." + broad.value) {
        forall host | SuffixMatches(narrow.value, host) ensures SuffixMatches(broad.value, host) {
          SuffixTransitive(host, narrow.value, broad.value);
        }
      }
    } else {
      assert OccursAt(narrow.value, narrow.value, 0);
      assert Contains(narrow.value, narrow.value);
      hide Contains;
      if Contains(narrow.value, broad.value) {
        forall host | Contains(host, narrow.value) ensures Contains(host, broad.value) {
          ContainsTransitive(host, narrow.value, broad.value);
        }
      }
    }
  }

  // An earlier rule with the same key is reported within the group or across groups.
  lemma SameKeyIsFlagged(rules: seq<IndexedRule>, i: nat, j: nat)
    requires j < i < |rules| && rules[i].rule.Simple?
    requires Hits(ForKey(Key(rules[i].rule.typ, rules[i].rule.value)), rules[j].rule)
    ensures DupAt(rules, i) != []
  {
    var rule := rules[i].rule;
    var key := Key(rule.typ, rule.value);
    FirstMeaning(rules, i, ForKey(key));
    FirstMeaning(rules, i, ForKeyTo(key, rule.target));
    hide First, Key;
    var first := First(rules, i, ForKey(key));
    assert first != -1;
    if rules[first].rule.target == rule.target {
      assert Hits(ForKeyTo(key, rule.target), rules[first].rule);
    }
  }

  // A suffix or keyword rule whose hosts lie within those of one earlier rule of its
  // type is reported.
  lemma InclusionIsFlagged(rules: seq<IndexedRule>, i: nat, j: nat)
    requires j < i < |rules| && SameHostType(rules[i].rule, rules[j].rule)
    requires HostsWithin(rules[i].rule, rules[j].rule)
    ensures Flagged(rules, i)
  {
    hide Shadows, HostsWithin, InnerLoop, DupAt;
    InclusionMeansShadow(rules[i].rule, rules[j].rule);
    if rules[i].rule.value == rules[j].rule.value {
      SameKeyIsFlagged(rules, i, j);
    } else {
      assert Covers(rules[j].rule, rules[i].rule);
      InnerLoopCovered(rules, i, 0);
    }
  }

  predicate SharesKey(a: Rule, b: Rule) {
    a.Simple? && b.Simple? && Key(a.typ, a.value) == Key(b.typ, b.value)
  }

  // What makes an earlier rule a reason to report a later one.
  ghost predicate Reason(earlier: Rule, rule: Rule) {
    || earlier.Match?
    || earlier == rule
    || SharesKey(earlier, rule)
    || (SameHostType(rule, earlier) && HostsWithin(rule, earlier))
  }

  // On any list, the two linters report exactly the rules that come after a MATCH rule,
  // an equal rule, a rule of the same key, or a rule of the same host type that matches
  // all their hosts.
  lemma FlaggedIff(rules: seq<IndexedRule>, i: nat)
    requires i < |rules|
    ensures Flagged(rules, i) <==> exists j :: 0 <= j < i && Reason(rules[j].rule, rules[i].rule)
  {
    var rule := rules[i].rule;
    InnerLoopCovered(rules, i, 0);
    if InnerLoop(rules, i, 0) != [] {
      var k :| 0 <= k < i && Covers(rules[k].rule, rule);
      CoverIsReason(rules[k].rule, rule);
    } else if DupAt(rules, i) != [] {
      var k := DuplicateSharesKey(rules, i);
    }
    hide HostsWithin, Shadows, InnerLoop, DupAt, SameHostType, Key;
    if j :| 0 <= j < i && Reason(rules[j].rule, rule) {
      if rules[j].rule.Match? || rules[j].rule == rule {
        assert Covers(rules[j].rule, rule);
      } else if SharesKey(rules[j].rule, rule) {
        SameKeyIsFlagged(rules, i, j);
      } else {
        InclusionIsFlagged(rules, i, j);
      }
    }
  }

  lemma CoverIsReason(earlier: Rule, rule: Rule)
    requires Covers(earlier, rule)
    ensures Reason(earlier, rule)
  {
    if Shadows(earlier, rule) {
      assert SameHostType(rule, earlier);
      InclusionMeansShadow(rule, earlier);
    }
    hide Shadows, HostsWithin, SharesKey, SameHostType;
  }

  lemma DuplicateSharesKey(rules: seq<IndexedRule>, i: nat) returns (k: nat)
    requires i < |rules| && DupAt(rules, i) != []
    ensures k < i && SharesKey(rules[k].rule, rules[i].rule)
  {
    var rule := rules[i].rule;
    hide Key, First;
    var key := Key(rule.typ, rule.value);
    FirstMeaning(rules, i, ForKey(key));
    FirstMeaning(rules, i, ForKeyTo(key, rule.target));
    assert First(rules, i, ForKey(key)) != -1;
    k := First(rules, i, ForKey(key));
  }

  // On a list of one host type, the reported rules are those whose hosts lie within those
  // of one earlier rule.
  lemma FlaggedIffIncluded(rules: seq<IndexedRule>, i: nat)
    requires i < |rules|
    requires forall j :: 0 <= j < |rules| ==> SameHostType(rules[i].rule, rules[j].rule)
    ensures Flagged(rules, i) <==> exists j :: 0 <= j < i && HostsWithin(rules[i].rule, rules[j].rule)
  {
    FlaggedIff(rules, i);
    hide HostsWithin, Flagged;
    var rule := rules[i].rule;
    forall j | 0 <= j < i && Reason(rules[j].rule, rule)
      ensures HostsWithin(rule, rules[j].rule)
    {
      InclusionMeansShadow(rule, rules[j].rule);
      if SharesKey(rules[j].rule, rule) {
        SameTypeKey(rule.typ, rules[j].rule.value, rule.value);
      }
    }
  }

  lemma SameTypeKey(typ: string, a: string, b: string)
    requires Key(typ, a) == Key(typ, b)
    ensures a == b
  {
    assert a == Key(typ, a)[|typ| + 1..] && b == Key(typ, b)[|typ| + 1..];
  }
}

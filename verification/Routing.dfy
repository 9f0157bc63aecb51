// First-match routing: deleting the reported rules changes no decision.
module Routing {
  import opened Outcome
  import opened Text
  import opened RuleParser
  import opened Unreachable

  // The predicates of rule types other than the domain suffix and keyword, as a
  // function of type, value and modifiers.
  type Atoms = (string, string, seq<string>) -> bool

  predicate SuffixMatches(value: string, host: string) {
    host == value || EndsWith(host, "." + value)
  }

  // Whether a request for host satisfies the rule, given the other predicates.
  predicate Matches(rule: Rule, host: string, atoms: Atoms) {
    match rule
    case Match(_) => true
    case Simple(typ, value, _, modifiers) =>
      if typ == SUFFIX then SuffixMatches(value, host)
      else if typ == KEYWORD then Contains(host, value)
      else atoms(typ, value, modifiers)
    case Logical(op, children, _) =>
      match op
      case And => forall c :: c in children ==> Matches(c, host, atoms)
      case Or => exists c :: c in children && Matches(c, host, atoms)
      case Not => !exists c :: c in children && Matches(c, host, atoms)
  }

  // The target of the first rule that matches.
  function Route(rules: seq<IndexedRule>, host: string, atoms: Atoms): Option<string> {
    if rules == [] then None
    else if Matches(rules[0].rule, host, atoms) then Some(rules[0].rule.target)
    else Route(rules[1..], host, atoms)
  }

  function Reported(issues: seq<Issue>): set<int> {
    set issue | issue in issues :: issue.index
  }

  function Without(rules: seq<IndexedRule>, dropped: set<int>): seq<IndexedRule> {
    if rules == [] then []
    else if rules[0].index in dropped then Without(rules[1..], dropped)
    else [rules[0]] + Without(rules[1..], dropped)
  }

  predicate DistinctIndexes(rules: seq<IndexedRule>) {
    forall i, j :: 0 <= i < j < |rules| ==> rules[i].index != rules[j].index
  }

  // ----- what coverage means for requests -----

  lemma SuffixTransitive(host: string, mid: string, value: string)
    requires SuffixMatches(mid, host) && EndsWith(mid, "." + value)
    ensures EndsWith(host, "." + value)
  {
    if host != mid {
      var tail := host[|host| - |mid| - 1..];
      assert tail == "." + mid;
      assert host[|host| - |value| - 1..] == tail[|tail| - |value| - 1..] == mid[|mid| - |value| - 1..];
    }
  }

  lemma ContainsTransitive(host: string, mid: string, value: string)
    requires Contains(host, mid) && Contains(mid, value)
    ensures Contains(host, value)
  {
    var i :| 0 <= i <= |host| && OccursAt(host, mid, i);
    var j :| 0 <= j <= |mid| && OccursAt(mid, value, j);
    var found := host[i + j..i + j + |value|];
    forall k | 0 <= k < |value| ensures found[k] == value[k] {
      assert value[k] == mid[j..j + |value|][k] == mid[j + k] == host[i..i + |mid|][j + k];
    }
    assert OccursAt(host, value, i + j);
  }

  // A covering rule matches every request the covered rule matches.
  lemma CoverageIsInclusion(prev: Rule, cur: Rule, host: string, atoms: Atoms)
    requires Covers(prev, cur) && Matches(cur, host, atoms)
    ensures Matches(prev, host, atoms)
  {
    if Shadows(prev, cur) {
      hide Contains, EndsWith;
      if IsSuffixRule(cur) {
        SuffixTransitive(host, cur.value, prev.value);
      } else {
        ContainsTransitive(host, cur.value, prev.value);
      }
    }
  }

  // ----- reported rules are covered rules -----

  lemma {:induction false} InnerLoopCovered(rules: seq<IndexedRule>, i: nat, j: nat)
    requires j <= i < |rules|
    ensures forall issue :: issue in InnerLoop(rules, i, j) ==> issue.index == rules[i].index
    ensures InnerLoop(rules, i, j) != [] <==> exists k :: j <= k < i && Covers(rules[k].rule, rules[i].rule)
    decreases i - j
  {
    hide Shadows;
    if j < i {
      InnerLoopCovered(rules, i, j + 1);
      if Covers(rules[j].rule, rules[i].rule) {
        assert InnerLoop(rules, i, j) != [];
      }
    }
  }

  // Rule k is the earliest one before rule i, from j on, that covers it.
  ghost predicate EarliestCover(rules: seq<IndexedRule>, i: nat, j: nat, k: nat)
    requires i < |rules|
  {
    j <= k < i && Covers(rules[k].rule, rules[i].rule) && forall m :: j <= m < k ==> !Covers(rules[m].rule, rules[i].rule)
  }

  // An issue names the earliest rule that covers, and says how it does: a MATCH rule, an
  // equal one, or one that shadows.
  lemma {:induction false} IssueNamesEarliest(rules: seq<IndexedRule>, i: nat, j: nat, k: nat)
    requires j <= i < |rules| && EarliestCover(rules, i, j, k)
    ensures InnerLoop(rules, i, j) ==
            [if rules[k].rule.Match? then AfterMatch(rules[i].index, rules[k].index)
             else if rules[k].rule == rules[i].rule then DuplicateRule(rules[i].index, rules[k].index)
             else Shadowed(rules[i].index, rules[k].index)]
    decreases i - j
  {
    hide Shadows;
    if j < k {
      IssueNamesEarliest(rules, i, j + 1, k);
    }
  }

  ghost predicate Covered(rules: seq<IndexedRule>, i: nat)
    requires i < |rules|
  {
    exists k :: 0 <= k < i && Covers(rules[k].rule, rules[i].rule)
  }

  lemma {:induction false} ReportedAreCovered(rules: seq<IndexedRule>, n: nat)
    requires n <= |rules|
    ensures forall x :: x in Reported(Reference(rules, n)) <==>
              exists i :: 0 <= i < n && rules[i].index == x && Covered(rules, i)
  {
    if n > 0 {
      ReportedAreCovered(rules, n - 1);
      InnerLoopCovered(rules, n - 1, 0);
      var before, last := Reference(rules, n - 1), InnerLoop(rules, n - 1, 0);
      hide Reference, InnerLoop, Covered;
      assert Reported(before + last) == Reported(before) + Reported(last);
      assert last != [] ==> last[0] in last && last[0].index in Reported(last);
    }
  }

  // ----- deletion -----

  // Position of the first matching rule, or the length.
  ghost function FirstHit(rules: seq<IndexedRule>, host: string, atoms: Atoms): (k: nat)
    ensures k <= |rules|
    ensures forall j :: 0 <= j < k ==> !Matches(rules[j].rule, host, atoms)
    ensures k < |rules| ==> Matches(rules[k].rule, host, atoms)
  {
    if rules == [] then 0
    else if Matches(rules[0].rule, host, atoms) then 0
    else
      var k := FirstHit(rules[1..], host, atoms);
      assert forall j :: 0 < j <= k ==> rules[j] == rules[1..][j - 1];
      k + 1
  }

  lemma {:induction false} DeletingOthers(rules: seq<IndexedRule>, dropped: set<int>, host: string, atoms: Atoms)
    requires var k := FirstHit(rules, host, atoms); k < |rules| ==> rules[k].index !in dropped
    ensures Route(Without(rules, dropped), host, atoms) == Route(rules, host, atoms)
  {
    hide Matches;
    if rules != [] && !Matches(rules[0].rule, host, atoms) {
      DeletingOthers(rules[1..], dropped, host, atoms);
      var rest := Without(rules[1..], dropped);
      assert ([rules[0]] + rest)[1..] == rest;
    }
  }

  // Deleting every reported rule at once leaves the target of every request unchanged.
  lemma DeletionKeepsRouting(rules: seq<IndexedRule>, host: string, atoms: Atoms)
    requires DistinctIndexes(rules)
    ensures Route(Without(rules, Reported(Reference(rules, |rules|))), host, atoms) == Route(rules, host, atoms)
  {
    hide Matches, Covers, Route, Without, Reference, Reported;
    var k := FirstHit(rules, host, atoms);
    var dropped := Reported(Reference(rules, |rules|));
    if k < |rules| && rules[k].index in dropped {
      ReportedAreCovered(rules, |rules|);
      var i :| 0 <= i < |rules| && rules[i].index == rules[k].index && Covered(rules, i);
      assert i == k;
      var j :| 0 <= j < k && Covers(rules[j].rule, rules[k].rule);
      CoverageIsInclusion(rules[j].rule, rules[k].rule, host, atoms);
      assert false;
    }
    DeletingOthers(rules, dropped, host, atoms);
  }
}

// The unreachable-rule linter and the nested-loop reference it must agree with
// (packages/shared/src/linter/unreachable.ts).
module Unreachable {
  import opened Text
  import opened RuleParser
  import opened SuffixTrie

  datatype IndexedRule = IndexedRule(index: int, rule: Rule)

  // One constructor per issue shape; level, code, reason and suggestion key are
  // fixed by the constructor.
  datatype Issue =
    | AfterMatch(index: int, coveredBy: int) // error, LINTER_UNREACHABLE_RULE, match_above
    | DuplicateRule(index: int, duplicateOf: int) // warning, LINTER_DUPLICATE_RULE
    | Shadowed(index: int, coveredBy: int) // warning, LINTER_UNREACHABLE_RULE

  const SUFFIX: string := "DOMAIN-SUFFIX"
  const KEYWORD: string := "DOMAIN-KEYWORD"

  predicate IsSuffixRule(rule: Rule) {
    rule.Simple? && rule.typ == SUFFIX
  }

  predicate IsKeywordRule(rule: Rule) {
    rule.Simple? && rule.typ == KEYWORD
  }

  // ----- the nested-loop reference -----

  // broad covers a strictly wider set of hosts than narrow.
  predicate Shadows(broad: Rule, narrow: Rule) {
    || (IsSuffixRule(broad) && IsSuffixRule(narrow) && broad.value != "" && EndsWith(narrow.value, "." + broad.value))
    || (IsKeywordRule(broad) && IsKeywordRule(narrow) && broad.value != narrow.value && Contains(narrow.value, broad.value))
  }

  predicate Covers(prev: Rule, cur: Rule) {
    prev.Match? || prev == cur || Shadows(prev, cur)
  }

  // The inner loop over j < i: the first covering rule, tested in the order
  // MATCH, equal, shadowing.
  function InnerLoop(rules: seq<IndexedRule>, i: nat, j: nat): seq<Issue>
    requires j <= i < |rules|
    decreases i - j
  {
    if j == i then []
    else
      var cur, prev := rules[i], rules[j];
      if prev.rule.Match? then [AfterMatch(cur.index, prev.index)]
      else if prev.rule == cur.rule then [DuplicateRule(cur.index, prev.index)]
      else if Shadows(prev.rule, cur.rule) then [Shadowed(cur.index, prev.index)]
      else InnerLoop(rules, i, j + 1)
  }

  // The issues of the first n rules.
  function Reference(rules: seq<IndexedRule>, n: nat): seq<Issue>
    requires n <= |rules|
  {
    if n == 0 then [] else Reference(rules, n - 1) + InnerLoop(rules, n - 1, 0)
  }

  // ----- earliest positions -----

  datatype Probe =
    | ForMatch
    | ForSame(rule: Rule)
    | ForShadow(cur: Rule)
    | ForSuffix(value: string)
    | ForCover(cur: Rule)
    | ForKey(key: string)
    | ForKeyTo(key: string, target: string)

  // The key under which the duplicate check files a simple rule.
  function Key(typ: string, value: string): string {
    typ + ":" + value
  }

  predicate Hits(p: Probe, rule: Rule) {
    match p
    case ForMatch => rule.Match?
    case ForSame(r) => rule == r
    case ForShadow(cur) => Shadows(rule, cur)
    case ForSuffix(v) => IsSuffixRule(rule) && rule.value == v
    case ForCover(cur) => Covers(rule, cur)
    case ForKey(key) => rule.Simple? && Key(rule.typ, rule.value) == key
    case ForKeyTo(key, target) => rule.Simple? && Key(rule.typ, rule.value) == key && rule.target == target
  }

  // Earliest position below n that the probe hits, or -1.
  ghost function First(rules: seq<IndexedRule>, n: nat, p: Probe): (f: int)
    requires n <= |rules|
    ensures -1 <= f < n
  {
    if n == 0 then -1
    else
      var f := First(rules, n - 1, p);
      if f != -1 then f
      else if Hits(p, rules[n - 1].rule) then n - 1
      else -1
  }

  lemma {:induction false} FirstMeaning(rules: seq<IndexedRule>, n: nat, p: Probe)
    requires n <= |rules|
    ensures var f := First(rules, n, p);
            && (f == -1 ==> forall j :: 0 <= j < n ==> !Hits(p, rules[j].rule))
            && (f != -1 ==> Hits(p, rules[f].rule) && forall j :: 0 <= j < f ==> !Hits(p, rules[j].rule))
  {
    if n > 0 {
      FirstMeaning(rules, n - 1, p);
    }
  }

  // min of up to three positions, -1 meaning absent
  function MinPos(a: int, b: int, c: int): int {
    var m := a;
    var m := if b != -1 && (m == -1 || b < m) then b else m;
    if c != -1 && (m == -1 || c < m) then c else m
  }

  // The earliest covering position is the least of the three earliest positions.
  lemma {:induction false} FirstCover(rules: seq<IndexedRule>, n: nat, cur: Rule)
    requires n <= |rules|
    ensures First(rules, n, ForCover(cur)) ==
            MinPos(First(rules, n, ForMatch), First(rules, n, ForSame(cur)), First(rules, n, ForShadow(cur)))
  {
    hide Shadows;
    if n > 0 {
      FirstCover(rules, n - 1, cur);
    }
  }

  // What is reported once the three candidate positions are known.
  function Report(rules: seq<IndexedRule>, cur: IndexedRule, matchPos: int, dupPos: int, shadowPos: int): seq<Issue>
    requires -1 <= matchPos < |rules| && -1 <= dupPos < |rules| && -1 <= shadowPos < |rules|
  {
    var best := MinPos(matchPos, dupPos, shadowPos);
    if best == -1 then []
    else if best == matchPos then [AfterMatch(cur.index, rules[best].index)]
    else if best == dupPos then [DuplicateRule(cur.index, rules[best].index)]
    else [Shadowed(cur.index, rules[best].index)]
  }

  lemma {:induction false} InnerLoopSkips(rules: seq<IndexedRule>, i: nat, j: nat, k: nat)
    requires j <= k <= i < |rules|
    requires forall x :: j <= x < k ==> !Hits(ForCover(rules[i].rule), rules[x].rule)
    ensures InnerLoop(rules, i, j) == InnerLoop(rules, i, k)
    decreases k - j
  {
    if j < k {
      assert !Hits(ForCover(rules[i].rule), rules[j].rule);
      InnerLoopSkips(rules, i, j + 1, k);
    }
  }

  // Routing the minimum by kind gives the issue of the nested loop.
  lemma ReportIsInnerLoop(rules: seq<IndexedRule>, i: nat)
    requires i < |rules|
    ensures var cur := rules[i];
            Report(rules, cur, First(rules, i, ForMatch), First(rules, i, ForSame(cur.rule)),
                   First(rules, i, ForShadow(cur.rule)))
            == InnerLoop(rules, i, 0)
  {
    var cur := rules[i].rule;
    FirstCover(rules, i, cur);
    FirstMeaning(rules, i, ForCover(cur));
    FirstMeaning(rules, i, ForMatch);
    FirstMeaning(rules, i, ForSame(cur));
    FirstMeaning(rules, i, ForShadow(cur));
    var best := First(rules, i, ForCover(cur));
    hide Shadows, First;
    InnerLoopSkips(rules, i, 0, if best == -1 then i else best);
  }

  // ----- the indexes kept by the fast pass -----

  ghost predicate JsonIndex(firstByJson: map<Rule, nat>, rules: seq<IndexedRule>, n: nat)
    requires n <= |rules|
  {
    forall r :: First(rules, n, ForSame(r)) == if r in firstByJson then firstByJson[r] else -1
  }

  ghost predicate SuffixIndex(ends: map<string, nat>, rules: seq<IndexedRule>, n: nat)
    requires n <= |rules|
  {
    && Reverse("") !in ends
    && forall v :: v != "" ==>
         First(rules, n, ForSuffix(v)) == if Reverse(v) in ends then ends[Reverse(v)] else -1
  }

  datatype Keyword = Keyword(value: string, pos: nat)

  // The keyword rules among the first n, in order.
  ghost function KeywordsOf(rules: seq<IndexedRule>, n: nat): seq<Keyword>
    requires n <= |rules|
  {
    if n == 0 then []
    else
      var rule := rules[n - 1].rule;
      KeywordsOf(rules, n - 1) + if IsKeywordRule(rule) then [Keyword(rule.value, n - 1)] else []
  }

  lemma JsonIndexStep(firstByJson: map<Rule, nat>, rules: seq<IndexedRule>, n: nat)
    requires n < |rules| && JsonIndex(firstByJson, rules, n)
    ensures var r := rules[n].rule;
            JsonIndex(if r in firstByJson then firstByJson else firstByJson[r := n], rules, n + 1)
  {
  }

  lemma SuffixIndexStep(ends: map<string, nat>, rules: seq<IndexedRule>, n: nat)
    requires n < |rules| && SuffixIndex(ends, rules, n)
    ensures var r := rules[n].rule;
            SuffixIndex(if IsSuffixRule(r) && r.value != "" && Reverse(r.value) !in ends
                        then ends[Reverse(r.value) := n] else ends, rules, n + 1)
  {
    var r := rules[n].rule;
    hide Reverse;
    if IsSuffixRule(r) {
      forall v | v != "" && v != r.value ensures Reverse(v) != Reverse(r.value) {
        if Reverse(v) == Reverse(r.value) { ReverseInjective(v, r.value); }
      }
      assert |Reverse(r.value)| == |r.value|;
    }
  }

  lemma ReverseTwice(s: string)
    ensures Reverse(Reverse(s)) == s
  {
  }

  // The trie lookup gives the earliest suffix rule that shadows the value.
  lemma TrieFindsShadow(ends: map<string, nat>, rules: seq<IndexedRule>, n: nat, cur: Rule)
    requires n <= |rules| && SuffixIndex(ends, rules, n)
    requires IsSuffixRule(cur) && cur.value != ""
    ensures BestUpTo(ends, Reverse(cur.value), |cur.value|) == First(rules, n, ForShadow(cur))
  {
    var rev := Reverse(cur.value);
    var best := BestUpTo(ends, rev, |rev|);
    BestUpToMeaning(ends, rev, |rev|);
    FirstMeaning(rules, n, ForShadow(cur));
    var f := First(rules, n, ForShadow(cur));
    if f != -1 {
      ShadowIsBoundary(ends, rules, n, cur, f);
    }
    if best != -1 {
      var k :| 0 <= k < |rev| && Boundary(ends, rev, k) && ends[Prefix(rev, k)] == best;
      BoundaryIsShadow(ends, rules, n, cur, k);
    }
  }

  // A shadowing rule at f is found at the boundary after its reversed value, with
  // an index that is no later than f.
  lemma ShadowIsBoundary(ends: map<string, nat>, rules: seq<IndexedRule>, n: nat, cur: Rule, f: nat)
    requires f < n <= |rules| && SuffixIndex(ends, rules, n)
    requires IsSuffixRule(cur) && Hits(ForShadow(cur), rules[f].rule)
    ensures var k := |rules[f].rule.value|;
            k < |cur.value| && Boundary(ends, Reverse(cur.value), k)
            && ends[Prefix(Reverse(cur.value), k)] <= f
  {
    var v := rules[f].rule.value;
    ReversedPrefix(cur.value, v);
    FirstMeaning(rules, n, ForSuffix(v));
    assert Hits(ForSuffix(v), rules[f].rule);
  }

  lemma BoundaryIsShadow(ends: map<string, nat>, rules: seq<IndexedRule>, n: nat, cur: Rule, k: nat)
    requires n <= |rules| && SuffixIndex(ends, rules, n) && IsSuffixRule(cur)
    requires k < |cur.value| && Boundary(ends, Reverse(cur.value), k)
    ensures var pos := ends[Prefix(Reverse(cur.value), k)];
            pos < n && Hits(ForShadow(cur), rules[pos].rule)
  {
    var p := Prefix(Reverse(cur.value), k);
    var v := Reverse(p);
    ReverseTwice(p);
    ReversedPrefix(cur.value, v);
    FirstMeaning(rules, n, ForSuffix(v));
    hide Reverse;
    assert v != "";
  }

  // First keyword in the list that differs from value and occurs in it.
  method ScanKeywords(keywords: seq<Keyword>, value: string) returns (pos: int)
    ensures pos == -1 ==> forall k :: 0 <= k < |keywords| ==>
              !(keywords[k].value != value && Contains(value, keywords[k].value))
    ensures pos != -1 ==>
              exists k :: 0 <= k < |keywords| && pos == keywords[k].pos
                          && keywords[k].value != value && Contains(value, keywords[k].value)
                          && forall m :: 0 <= m < k ==> !(keywords[m].value != value && Contains(value, keywords[m].value))
  {
    hide Contains;
    for k := 0 to |keywords|
      invariant forall m :: 0 <= m < k ==> !(keywords[m].value != value && Contains(value, keywords[m].value))
    {
      var kw := keywords[k];
      if kw.value != value && Contains(value, kw.value) {
        return kw.pos;
      }
    }
    return -1;
  }

  ghost predicate IsKeywordAt(rules: seq<IndexedRule>, n: nat, kw: Keyword)
    requires n <= |rules|
  {
    kw.pos < n && IsKeywordRule(rules[kw.pos].rule) && rules[kw.pos].rule.value == kw.value
  }

  // The list holds keyword rules in the order of their positions.
  ghost predicate InOrder(rules: seq<IndexedRule>, n: nat, ks: seq<Keyword>)
    requires n <= |rules|
  {
    && (forall k :: 0 <= k < |ks| ==> IsKeywordAt(rules, n, ks[k]))
    && (forall k, m :: 0 <= k < m < |ks| ==> ks[k].pos < ks[m].pos)
  }

  lemma {:induction false} KeywordsSound(rules: seq<IndexedRule>, n: nat)
    requires n <= |rules|
    ensures InOrder(rules, n, KeywordsOf(rules, n))
  {
    if n > 0 {
      KeywordsSound(rules, n - 1);
      var before, ks := KeywordsOf(rules, n - 1), KeywordsOf(rules, n);
      assert forall k :: 0 <= k < |before| ==> ks[k] == before[k] && IsKeywordAt(rules, n - 1, before[k]);
    }
  }

  // Every keyword rule is in the list.
  lemma {:induction false} KeywordListed(rules: seq<IndexedRule>, n: nat, j: nat) returns (k: nat)
    requires j < n <= |rules| && IsKeywordRule(rules[j].rule)
    ensures k < |KeywordsOf(rules, n)| && KeywordsOf(rules, n)[k].pos == j
  {
    if j == n - 1 {
      k := |KeywordsOf(rules, n - 1)|;
    } else {
      k := KeywordListed(rules, n - 1, j);
    }
  }

  lemma KeywordScanFindsShadow(rules: seq<IndexedRule>, n: nat, cur: Rule, pos: int)
    requires n <= |rules| && IsKeywordRule(cur)
    requires var ks, value := KeywordsOf(rules, n), cur.value;
             if pos == -1 then
               forall k :: 0 <= k < |ks| ==> !(ks[k].value != value && Contains(value, ks[k].value))
             else
               exists k :: 0 <= k < |ks| && pos == ks[k].pos && ks[k].value != value && Contains(value, ks[k].value)
                           && forall m :: 0 <= m < k ==> !(ks[m].value != value && Contains(value, ks[m].value))
    ensures First(rules, n, ForShadow(cur)) == pos
  {
    hide Contains, KeywordsOf;
    var ks := KeywordsOf(rules, n);
    KeywordsSound(rules, n);
    FirstMeaning(rules, n, ForShadow(cur));
    var f := First(rules, n, ForShadow(cur));
    if f != -1 {
      assert IsKeywordRule(rules[f].rule);
      var k := KeywordListed(rules, n, f);
    }
    if pos != -1 {
      assert Hits(ForShadow(cur), rules[pos].rule);
    }
  }

  // Rules of any other kind are never shadowed.
  lemma {:induction false} NoShadow(rules: seq<IndexedRule>, n: nat, cur: Rule)
    requires n <= |rules| && !IsKeywordRule(cur) && (IsSuffixRule(cur) ==> cur.value == "")
    ensures First(rules, n, ForShadow(cur)) == -1
  {
    if n > 0 {
      NoShadow(rules, n - 1, cur);
    }
  }

  // ----- the fast pass -----

  lemma InitialIndexes(rules: seq<IndexedRule>)
    ensures JsonIndex(map[], rules, 0) && SuffixIndex(map[], rules, 0) && KeywordsOf(rules, 0) == []
    ensures Reference(rules, 0) == [] && First(rules, 0, ForMatch) == -1
  {
  }

  // One rule later, every index describes one rule more.
  lemma IndexesStep(firstByJson: map<Rule, nat>, ends: map<string, nat>, rules: seq<IndexedRule>, n: nat)
    requires n < |rules| && JsonIndex(firstByJson, rules, n) && SuffixIndex(ends, rules, n)
    ensures var r := rules[n].rule;
            && JsonIndex(if r in firstByJson then firstByJson else firstByJson[r := n], rules, n + 1)
            && First(rules, n, ForSame(r)) == (if r in firstByJson then firstByJson[r] else -1)
            && SuffixIndex(if IsSuffixRule(r) && r.value != "" && Reverse(r.value) !in ends
                           then ends[Reverse(r.value) := n] else ends, rules, n + 1)
            && KeywordsOf(rules, n + 1) ==
                 KeywordsOf(rules, n) + (if IsKeywordRule(r) then [Keyword(r.value, n)] else [])
            && Reference(rules, n + 1) == Reference(rules, n) + InnerLoop(rules, n, 0)
            && First(rules, n + 1, ForMatch) ==
                 var f := First(rules, n, ForMatch); if f == -1 && r.Match? then n else f
  {
    JsonIndexStep(firstByJson, rules, n);
    SuffixIndexStep(ends, rules, n);
  }

  lemma LookupFindsShadow(ends: map<string, nat>, rules: seq<IndexedRule>, n: nat, cur: Rule)
    requires n <= |rules| && SuffixIndex(ends, rules, n) && IsSuffixRule(cur)
    ensures First(rules, n, ForShadow(cur)) ==
            if cur.value == "" then -1 else BestUpTo(ends, Reverse(cur.value), |cur.value|)
  {
    if cur.value == "" {
      NoShadow(rules, n, cur);
    } else {
      TrieFindsShadow(ends, rules, n, cur);
    }
  }

  // The indexed pass returns exactly the issue list of the nested loop.
  method DetectUnreachable(rules: seq<IndexedRule>) returns (issues: seq<Issue>)
    ensures issues == Reference(rules, |rules|)
  {
    hide First, JsonIndex, SuffixIndex, KeywordsOf, Reference, InnerLoop, Shadows, Contains, BestUpTo, Reverse, Trie.Valid, Hits;
    issues := [];
    var firstMatchPos := -1;
    var firstByJson: map<Rule, nat> := map[];
    var suffixTrie := new Trie();
    var keywords: seq<Keyword> := [];
    InitialIndexes(rules);
    for i := 0 to |rules|
      invariant issues == Reference(rules, i)
      invariant firstMatchPos == First(rules, i, ForMatch)
      invariant JsonIndex(firstByJson, rules, i)
      invariant suffixTrie.Valid() && fresh(suffixTrie) && fresh(suffixTrie.repr)
      invariant SuffixIndex(suffixTrie.ends, rules, i)
      invariant keywords == KeywordsOf(rules, i)
    {
      var cur := rules[i];
      IndexesStep(firstByJson, suffixTrie.ends, rules, i);
      ReportIsInnerLoop(rules, i);
      var matchPos := firstMatchPos;
      var dupPos: int := -1;
      var shadowPos: int := -1;

      if cur.rule in firstByJson {
        dupPos := firstByJson[cur.rule];
      } else {
        firstByJson := firstByJson[cur.rule := i];
      }

      if IsSuffixRule(cur.rule) {
        LookupFindsShadow(suffixTrie.ends, rules, i, cur.rule);
        var hit := suffixTrie.LookupAndInsert(cur.rule.value, i);
        if hit != -1 {
          shadowPos := hit;
        }
      } else if IsKeywordRule(cur.rule) {
        shadowPos := ScanKeywords(keywords, cur.rule.value);
        KeywordScanFindsShadow(rules, i, cur.rule, shadowPos);
        keywords := keywords + [Keyword(cur.rule.value, i)];
      } else {
        NoShadow(rules, i, cur.rule);
      }

      var best := MinPos(matchPos, dupPos, shadowPos);
      if best != -1 {
        if best == matchPos {
          issues := issues + [AfterMatch(cur.index, rules[best].index)];
        } else if best == dupPos {
          issues := issues + [DuplicateRule(cur.index, rules[best].index)];
        } else {
          issues := issues + [Shadowed(cur.index, rules[best].index)];
        }
      }
      if cur.rule.Match? && firstMatchPos == -1 {
        firstMatchPos := i;
      }
    }
  }
}

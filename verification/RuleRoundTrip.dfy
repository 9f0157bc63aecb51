// Parsing and printing are inverse exactly on the well-formed rules, which are
// the rules the parser can produce (one simple shape excepted).
module RuleRoundTrip {
  import opened Outcome
  import opened Text
  import opened RuleParser

  // ----- depth arithmetic -----

  function Depth(s: string): int {
    if s == "" then 0 else Shift(s[0]) + Depth(s[1..])
  }

  // Scanning from depth d meets no comma at depth 0.
  predicate NoTopComma(s: string, d: int) {
    s != "" ==> !(s[0] == ',' && d == 0) && NoTopComma(s[1..], d + Shift(s[0]))
  }

  // Scanning from depth d never goes below depth 0.
  predicate NonNeg(s: string, d: int) {
    d >= 0 && (s != "" ==> NonNeg(s[1..], d + Shift(s[0])))
  }

  predicate Balanced(s: string) {
    NonNeg(s, 0) && Depth(s) == 0
  }

  // A group as cut out by the parser: "(" + balanced text + ")".
  predicate IsGroup(g: string) {
    Wrapped(g) && Balanced(Unwrap(g))
  }

  // The parts lie between the commas met at depth 0, scanning from depth d.
  predicate TopParts(parts: seq<string>, d: int) {
    && |parts| >= 1
    && NoTopComma(parts[0], d)
    && (|parts| > 1 ==> d + Depth(parts[0]) == 0 && TopParts(parts[1..], 0))
  }

  predicate AllTrimmed(parts: seq<string>) {
    parts != [] ==> Trimmed(parts[0]) && AllTrimmed(parts[1..])
  }

  predicate AllGroups(gs: seq<string>) {
    gs != [] ==> IsGroup(gs[0]) && AllGroups(gs[1..])
  }

  // ----- well-formed rules -----

  predicate WellFormed(rule: Rule) {
    match rule
    case Match(target) => target != "" && Trimmed(target)
    case Simple(typ, value, target, modifiers) =>
      var parts := [typ, value, target] + modifiers;
      && AllTrimmed(parts) && TopParts(parts, 0)
      && value != "" && target != ""
      && OpOf(typ).None? && typ != "MATCH"
    case Logical(_, children, target) =>
      && target != "" && Trimmed(target)
      && forall c :: c in children ==> WellFormedChild(c)
  }

  predicate WellFormedChild(rule: Rule) {
    match rule
    case Match(_) => false
    case Simple(typ, value, target, modifiers) =>
      var parts := [typ, value] + modifiers;
      && AllTrimmed(parts) && TopParts(parts, 0) && Balanced(Join(parts, ","))
      && value != "" && target == "" && OpOf(typ).None?
    case Logical(_, children, target) =>
      && target == ""
      && forall c :: c in children ==> WellFormedChild(c)
  }

  // ----- scans over concatenations -----

  lemma {:induction false} DepthConcat(a: string, b: string)
    ensures Depth(a + b) == Depth(a) + Depth(b)
  {
    if a == "" {
      assert a + b == b;
    } else {
      assert (a + b)[1..] == a[1..] + b;
      DepthConcat(a[1..], b);
    }
  }

  lemma {:induction false} NoTopCommaConcat(a: string, b: string, d: int)
    ensures NoTopComma(a + b, d) <==> NoTopComma(a, d) && NoTopComma(b, d + Depth(a))
  {
    if a == "" {
      assert a + b == b;
    } else {
      assert (a + b)[1..] == a[1..] + b;
      NoTopCommaConcat(a[1..], b, d + Shift(a[0]));
    }
  }

  lemma {:induction false} NonNegConcat(a: string, b: string, d: int)
    ensures NonNeg(a + b, d) <==> NonNeg(a, d) && NonNeg(b, d + Depth(a))
  {
    if a == "" {
      assert a + b == b;
      if d < 0 && b != "" {
        assert !NonNeg(b, d);
      }
    } else {
      assert (a + b)[1..] == a[1..] + b;
      NonNegConcat(a[1..], b, d + Shift(a[0]));
    }
  }

  lemma {:induction false} SpaceIsFlat(w: string, d: int)
    requires AllSpace(w)
    ensures Depth(w) == 0 && NoTopComma(w, d) && (d >= 0 ==> NonNeg(w, d))
  {
    if w != "" {
      SpaceIsFlat(w[1..], d);
    }
  }

  // Trimming changes no scan.
  lemma TrimScan(s: string, d: int)
    ensures Depth(Trim(s)) == Depth(s)
    ensures NoTopComma(s, d) ==> NoTopComma(Trim(s), d)
    ensures NonNeg(s, d) <==> d >= 0 && NonNeg(Trim(s), d)
  {
    var lead, trail := TrimParts(s);
    var t := Trim(s);
    assert s == lead + (t + trail);
    SpaceIsFlat(lead, d);
    SpaceIsFlat(trail, d + Depth(t));
    DepthConcat(lead, t + trail);
    DepthConcat(t, trail);
    NoTopCommaConcat(lead, t + trail, d);
    NoTopCommaConcat(t, trail, d);
    NonNegConcat(lead, t + trail, d);
    NonNegConcat(t, trail, d);
    if d >= 0 && NonNeg(t, d) {
      NonNegEnd(t, d);
    }
  }

  lemma {:induction false} NonNegEnd(s: string, d: int)
    requires NonNeg(s, d)
    ensures d + Depth(s) >= 0
  {
    if s != "" {
      NonNegEnd(s[1..], d + Shift(s[0]));
    }
  }

  // ----- splitting at top-level commas -----

  lemma {:induction false} SplitTopParts(s: string, d: int)
    ensures TopParts(SplitTop(s, d), d)
    ensures Join(SplitTop(s, d), ",") == s
  {
    if s != "" {
      if s[0] == ',' && d == 0 {
        SplitTopParts(s[1..], 0);
        var rest := SplitTop(s[1..], 0);
        assert ([""] + rest)[1..] == rest;
        assert Join([""] + rest, ",") == "" + "," + Join(rest, ",");
      } else {
        var e := d + Shift(s[0]);
        SplitTopParts(s[1..], e);
        JoinGlue([s[0]], SplitTop(s[1..], e));
        GlueTopParts(s[0], SplitTop(s[1..], e), d);
      }
    }
  }

  lemma GlueTopParts(c: char, parts: seq<string>, d: int)
    requires TopParts(parts, d + Shift(c)) && !(c == ',' && d == 0)
    ensures TopParts(Glue([c], parts), d)
  {
    assert ([c] + parts[0])[1..] == parts[0];
    assert Glue([c], parts)[1..] == parts[1..];
  }

  lemma JoinGlue(prefix: string, parts: seq<string>)
    requires |parts| >= 1
    ensures Join(Glue(prefix, parts), ",") == prefix + Join(parts, ",")
  {
    var g := Glue(prefix, parts);
    assert g[1..] == parts[1..];
    if |parts| > 1 {
      JoinCons(parts, ",");
      JoinCons(g, ",");
      ConcatAssoc(prefix, parts[0], "," + Join(parts[1..], ","));
    }
  }

  lemma GlueGlue(a: string, b: string, parts: seq<string>)
    requires |parts| >= 1
    ensures Glue(a, Glue(b, parts)) == Glue(a + b, parts)
  {
    ConcatAssoc(a, b, parts[0]);
  }

  // Scanning text without a top-level comma only extends the first part.
  lemma {:induction false} SplitTopSkip(p: string, rest: string, d: int)
    requires NoTopComma(p, d)
    ensures SplitTop(p + rest, d) == Glue(p, SplitTop(rest, d + Depth(p)))
  {
    if p == "" {
      assert p + rest == rest;
      GlueNothing(SplitTop(rest, d));
    } else {
      assert (p + rest)[1..] == p[1..] + rest;
      var e := d + Shift(p[0]);
      SplitTopSkip(p[1..], rest, e);
      GlueGlue([p[0]], p[1..], SplitTop(rest, e + Depth(p[1..])));
      assert p == [p[0]] + p[1..];
    }
  }

  // Splitting undoes joining.
  lemma {:induction false} SplitTopJoin(parts: seq<string>, d: int)
    requires TopParts(parts, d)
    ensures SplitTop(Join(parts, ","), d) == parts
  {
    var p := parts[0];
    if |parts| == 1 {
      assert p + "" == p;
      SplitTopSkip(p, "", d);
      assert parts == [p + ""];
    } else {
      var rest := "," + Join(parts[1..], ",");
      assert Join(parts, ",") == p + rest;
      SplitTopSkip(p, rest, d);
      assert rest[1..] == Join(parts[1..], ",");
      SplitTopJoin(parts[1..], 0);
      assert SplitTop(rest, 0) == [""] + parts[1..];
      assert p + "" == p;
      assert parts == [p] + parts[1..];
    }
  }

  lemma {:induction false} TrimKeepsParts(parts: seq<string>, d: int)
    requires TopParts(parts, d)
    ensures TopParts(MapTrim(parts), d)
    ensures Depth(Join(MapTrim(parts), ",")) == Depth(Join(parts, ","))
    ensures NonNeg(Join(parts, ","), d) ==> NonNeg(Join(MapTrim(parts), ","), d)
  {
    var t := MapTrim(parts);
    TrimScan(parts[0], d);
    assert t[1..] == MapTrim(parts[1..]);
    if |parts| > 1 {
      TrimKeepsParts(parts[1..], 0);
      JoinScan(parts, d);
      JoinScan(t, d);
    }
  }

  lemma JoinScan(parts: seq<string>, d: int)
    requires |parts| > 1
    ensures Depth(Join(parts, ",")) == Depth(parts[0]) + Depth(Join(parts[1..], ","))
    ensures NonNeg(Join(parts, ","), d) <==>
              NonNeg(parts[0], d) && NonNeg(Join(parts[1..], ","), d + Depth(parts[0]))
  {
    var rest := Join(parts[1..], ",");
    assert Join(parts, ",") == parts[0] + ("," + rest);
    DepthConcat(parts[0], "," + rest);
    NonNegConcat(parts[0], "," + rest, d);
    assert ("," + rest)[1..] == rest;
    if NonNeg(parts[0], d) {
      NonNegEnd(parts[0], d);
    }
  }

  lemma {:induction false} TrimmedParts(parts: seq<string>)
    ensures AllTrimmed(MapTrim(parts))
  {
    if parts != [] {
      var lead, trail := TrimParts(parts[0]);
      TrimmedParts(parts[1..]);
      assert MapTrim(parts)[1..] == MapTrim(parts[1..]);
    }
  }

  lemma {:induction false} MapTrimTrimmed(parts: seq<string>)
    requires AllTrimmed(parts)
    ensures MapTrim(parts) == parts
  {
    if parts != [] {
      TrimTrimmed(parts[0]);
      MapTrimTrimmed(parts[1..]);
    }
  }

  lemma {:induction false} JoinTrimmed(parts: seq<string>)
    requires AllTrimmed(parts) && |parts| >= 1
    ensures Trimmed(Join(parts, ","))
    ensures |parts| > 1 ==> Join(parts, ",") != ""
  {
    if |parts| > 1 {
      JoinTrimmed(parts[1..]);
      var rest := Join(parts[1..], ",");
      var s := Join(parts, ",");
      assert s == parts[0] + "," + rest;
      assert s[|s| - 1] == if rest == "" then ',' else rest[|rest| - 1];
    }
  }

  // ----- groups -----

  // Inside an open group every character is collected.
  lemma {:induction false} GroupsInside(x: string, rest: string, d: int, cur: string)
    requires d >= 1 && NonNeg(x, d - 1)
    ensures Groups(x + rest, d, cur) == Groups(rest, d + Depth(x), cur + x)
  {
    if x == "" {
      assert x + rest == rest && cur + x == cur;
    } else {
      assert (x + rest)[1..] == x[1..] + rest;
      var e := d + Shift(x[0]);
      GroupsInside(x[1..], rest, e, cur + [x[0]]);
      assert cur + [x[0]] + x[1..] == cur + x;
    }
  }

  lemma GroupScan(g: string, rest: string)
    requires IsGroup(g)
    ensures Groups(g + rest, 0, "") == [g] + Groups(rest, 0, "")
  {
    var x := g[1..|g| - 1];
    var tail := ")" + rest;
    assert (g + rest)[1..] == x + tail;
    GroupsInside(x, tail, 1, "(");
    assert tail[1..] == rest;
    assert "(" + x + ")" == g;
  }

  // The groups of a comma-separated list of groups are those groups.
  lemma {:induction false} GroupsOfJoin(gs: seq<string>)
    requires AllGroups(gs)
    ensures ChildGroups(Join(gs, ",")) == gs
  {
    if |gs| == 1 {
      GroupScan(gs[0], "");
      assert gs[0] + "" == gs[0];
    } else if |gs| > 1 {
      JoinCons(gs, ",");
      var rest := Join(gs[1..], ",");
      GroupScan(gs[0], "," + rest);
      assert ("," + rest)[1..] == rest;
      GroupsOfJoin(gs[1..]);
    }
  }

  lemma OpenGroupGrows(cur: string, d: int, c: char)
    requires |cur| >= 1 && cur[0] == '(' && NonNeg(cur[1..], 0) && Depth(cur[1..]) == d - 1
    requires d >= 1 && !(c == ')' && d == 1)
    ensures NonNeg((cur + [c])[1..], 0) && Depth((cur + [c])[1..]) == d + Shift(c) - 1
  {
    assert (cur + [c])[1..] == cur[1..] + [c];
    NonNegConcat(cur[1..], [c], 0);
    DepthConcat(cur[1..], [c]);
  }

  // Everything the parser cuts out is a balanced group.
  lemma {:induction false} GroupsAreGroups(s: string, d: int, cur: string)
    requires d >= 1 ==> |cur| >= 1 && cur[0] == '(' && NonNeg(cur[1..], 0) && Depth(cur[1..]) == d - 1
    ensures AllGroups(Groups(s, d, cur))
  {
    if s == "" {
    } else if s[0] == '(' && d == 0 {
      GroupsAreGroups(s[1..], 1, "(");
    } else if s[0] == ')' && d == 1 {
      var g := cur + ")";
      assert g[1..|g| - 1] == cur[1..];
      GroupsAreGroups(s[1..], 0, "");
      assert Groups(s, d, cur)[1..] == Groups(s[1..], 0, "");
    } else {
      if d > 0 {
        OpenGroupGrows(cur, d, s[0]);
      }
      GroupsAreGroups(s[1..], d + Shift(s[0]), if d > 0 then cur + [s[0]] else cur);
    }
  }

  lemma {:induction false} CloseInside(x: string, rest: string, d: int)
    requires d >= 1 && NonNeg(x, d - 1) && d + Depth(x) == 1
    ensures Close(x + ")" + rest, d) == |x|
  {
    if x == "" {
      assert x + ")" + rest == ")" + rest;
    } else {
      assert (x + ")" + rest)[1..] == x[1..] + ")" + rest;
      CloseInside(x[1..], rest, d + Shift(x[0]));
    }
  }

  lemma {:induction false} JoinGroupsBalanced(gs: seq<string>)
    requires AllGroups(gs)
    ensures Balanced(Join(gs, ","))
  {
    if gs != [] {
      var g := gs[0];
      var x := g[1..|g| - 1];
      assert g == "(" + (x + ")");
      DepthConcat("(", x + ")");
      DepthConcat(x, ")");
      NonNegConcat("(", x + ")", 0);
      NonNegConcat(x, ")", 1);
      NonNegRaise(x, 0, 1);
      assert Balanced(g);
      if |gs| > 1 {
        JoinGroupsBalanced(gs[1..]);
        JoinScan(gs, 0);
      }
    }
  }

  lemma {:induction false} NonNegRaise(s: string, d: int, e: int)
    requires d <= e && NonNeg(s, d)
    ensures NonNeg(s, e)
  {
    if s != "" {
      NonNegRaise(s[1..], d + Shift(s[0]), e + Shift(s[0]));
    }
  }

  // ----- the head token -----

  lemma FlatHeads(head: string)
    requires Depth(head) != 0
    ensures OpOf(head).None? && head != "MATCH"
  {
    assert forall c: char {:trigger Shift(c)} :: c != '(' && c != ')' ==> Shift(c) == 0;
    assert "AND"[1..] == "ND" && "ND"[1..] == "D" && "D"[1..] == "";
    assert "OR"[1..] == "R" && "R"[1..] == "";
    assert "NOT"[1..] == "OT" && "OT"[1..] == "T" && "T"[1..] == "";
    assert "MATCH"[1..] == "ATCH" && "ATCH"[1..] == "TCH" && "TCH"[1..] == "CH" && "CH"[1..] == "H" && "H"[1..] == "";
  }

  lemma TrimKeepsComma(p: string)
    requires ',' in p
    ensures ',' in Trim(p)
  {
    var lead, trail := TrimParts(p);
    var i :| 0 <= i < |p| && p[i] == ',';
    assert !IsSpace(',');
    assert |lead| <= i < |lead| + |Trim(p)|;
    assert p[i] == Trim(p)[i - |lead|];
  }

  lemma IndexOfPrefix(p: string, rest: string, c: char)
    requires c in p
    ensures IndexOf(p + rest, c) == IndexOf(p, c)
  {
    var k := IndexOf(p, c);
    assert (p + rest)[..k] == p[..k];
    IndexOfUnique(p + rest, c, k);
  }

  // A comma inside a top-level part stands at non-zero depth, so the text before
  // it is neither an operator nor MATCH.
  lemma HeadInsidePart(p: string)
    requires NoTopComma(p, 0) && ',' in p
    ensures OpOf(Trim(p[..IndexOf(p, ',')])).None? && OpOf(Trim(p)).None?
    ensures p[..IndexOf(p, ',')] != "MATCH"
  {
    hide NoTopComma, Trim, IndexOf, OpOf;
    var c := IndexOf(p, ',');
    HeadOpenDepth(p, c);
    TrimScan(p[..c], 0);
    FlatHeads(Trim(p[..c]));
    FlatHeads(p[..c]);
    TrimKeepsComma(p);
    CommaIsNoOp(Trim(p));
  }

  lemma HeadOpenDepth(p: string, c: nat)
    requires NoTopComma(p, 0) && c < |p| && p[c] == ','
    ensures Depth(p[..c]) != 0
  {
    hide Depth;
    assert p == p[..c] + p[c..];
    NoTopCommaConcat(p[..c], p[c..], 0);
  }

  lemma CommaIsNoOp(p: string)
    requires ',' in p
    ensures OpOf(p).None?
  {
    assert ',' !in "AND" && ',' !in "OR" && ',' !in "NOT";
  }

  // The text before the first comma is an operator (or MATCH) exactly when the
  // first top-level part is.
  lemma HeadOfFirstPart(t: string, p: string, rest: string)
    requires t == p + ("," + rest) && NoTopComma(p, 0)
    ensures var c := IndexOf(t, ',');
            c >= 0 && OpOf(Trim(t[..c])) == OpOf(Trim(p))
    ensures StartsWith(t, MATCH_PREFIX) <==> p == "MATCH"
  {
    hide Trim, IndexOf, NoTopComma, OpOf;
    assert t[|p|] == ',';
    var c := IndexOf(t, ',');
    if ',' in p {
      IndexOfPrefix(p, "," + rest, ',');
      assert t[..c] == p[..c];
      HeadInsidePart(p);
    } else {
      assert t[..|p|] == p;
      IndexOfUnique(t, ',', |p|);
    }
    if StartsWith(t, MATCH_PREFIX) {
      MatchPrefixHead(t);
      assert ',' !in p;
    }
    if p == "MATCH" {
      assert t[..6] == MATCH_PREFIX;
    }
  }

  lemma MatchPrefixHead(t: string)
    requires StartsWith(t, MATCH_PREFIX)
    ensures IndexOf(t, ',') == 5 && t[..5] == "MATCH"
  {
    assert t[..6] == MATCH_PREFIX;
    assert t[..5] == MATCH_PREFIX[..5] == "MATCH";
    assert t[5] == MATCH_PREFIX[5] == ',';
    IndexOfUnique(t, ',', 5);
  }

  // ----- the parser only produces well-formed rules -----

  lemma SplitPartsOf(t: string) returns (p: string, rest: string)
    requires |TopLevelParts(t)| >= 2
    ensures t == p + ("," + rest) && NoTopComma(p, 0) && TopLevelParts(t)[0] == Trim(p)
    ensures AllTrimmed(TopLevelParts(t)) && TopParts(TopLevelParts(t), 0)
    ensures Balanced(t) ==> Balanced(Join(TopLevelParts(t), ","))
  {
    var raw := SplitTop(t, 0);
    SplitTopParts(t, 0);
    TrimKeepsParts(raw, 0);
    TrimmedParts(raw);
    JoinCons(raw, ",");
    p, rest := raw[0], Join(raw[1..], ",");
  }

  lemma ParsedSimpleChildWellFormed(inner: string)
    requires Balanced(inner) && ParseSimpleChild(TopLevelParts(inner)).Ok?
    requires IndexOf(inner, ',') >= 0 && OpOf(Trim(inner[..IndexOf(inner, ',')])).None?
    ensures WellFormedChild(ParseSimpleChild(TopLevelParts(inner)).value)
  {
    var parts := TopLevelParts(inner);
    var p, rest := SplitPartsOf(inner);
    HeadOfFirstPart(inner, p, rest);
    assert [parts[0], parts[1]] + parts[2..] == parts;
  }

  lemma {:induction false} ParsedChildWellFormed(g: string)
    requires IsGroup(g) && ParseRuleExpr(g).Ok?
    ensures WellFormedChild(ParseRuleExpr(g).value)
    decreases |g| + 1, 0, 0
  {
    hide Trim, IndexOf, OpOf, TopLevelParts, ParseLogicalChild, ParseSimpleChild, WellFormedChild;
    TrimTrimmed(g);
    var inner := Unwrap(g);
    var firstComma := IndexOf(inner, ',');
    var op := OpOf(Trim(inner[..firstComma]));
    if op.Some? {
      ParsedLogicalChildWellFormed(op.value, Trim(inner[firstComma + 1..]), |g|);
    } else {
      ParsedSimpleChildWellFormed(inner);
    }
  }

  lemma {:induction false} ParsedLogicalChildWellFormed(op: LogicalOp, rest: string, limit: nat)
    requires |rest| < limit && ParseLogicalChild(op, rest, limit).Ok?
    ensures WellFormedChild(ParseLogicalChild(op, rest, limit).value)
    decreases limit, 2, 0
  {
    GroupsAreGroups(Unwrap(rest), 0, "");
    ShorterMonotone(ChildGroups(Unwrap(rest)), |Unwrap(rest)| + 1, limit);
    ParsedChildrenWellFormed(ChildGroups(Unwrap(rest)), limit);
  }

  lemma {:induction false} ParsedChildrenWellFormed(groups: seq<string>, limit: nat)
    requires AllGroups(groups) && AllShorter(groups, limit)
    requires ParseChildren(groups, limit).Ok?
    ensures forall c :: c in ParseChildren(groups, limit).value ==> WellFormedChild(c)
    decreases limit, 1, |groups|
  {
    if groups != [] {
      ParsedChildWellFormed(groups[0]);
      ParsedChildrenWellFormed(groups[1..], limit);
    }
  }

  predicate MisreadsAsMatch(rule: Rule) {
    rule.Simple? && rule.typ == "MATCH"
  }

  lemma ParsedLogicalWellFormed(op: LogicalOp, rest: string)
    requires ParseLogical(op, rest).Ok?
    ensures WellFormed(ParseLogical(op, rest).value)
  {
    hide ParseChildren, Groups, Trim, TrimStart, WellFormedChild;
    var restTrim := TrimStart(rest);
    var close := Close(restTrim, 0);
    var lead, trail := TrimParts(restTrim[close + 1..][1..]);
    GroupsAreGroups(restTrim[1..close], 0, "");
    ShorterMonotone(ChildGroups(restTrim[1..close]), close, |restTrim|);
    ParsedChildrenWellFormed(ChildGroups(restTrim[1..close]), |restTrim|);
  }

  lemma ParsedSimpleWellFormed(t: string)
    requires ParseSimple(TopLevelParts(t)).Ok?
    requires IndexOf(t, ',') >= 0 && OpOf(Trim(t[..IndexOf(t, ',')])).None?
    ensures var rule := ParseSimple(TopLevelParts(t)).value;
            WellFormed(rule) || MisreadsAsMatch(rule)
  {
    hide TopLevelParts, IndexOf, Trim, Balanced, NoTopComma, Join;
    var parts := TopLevelParts(t);
    var p, rest := SplitPartsOf(t);
    HeadOfFirstPart(t, p, rest);
    assert [parts[0], parts[1], parts[2]] + parts[3..] == parts;
  }

  lemma ParsedWellFormed(raw: string)
    requires ParseRule(raw).Ok?
    ensures WellFormed(ParseRule(raw).value) || MisreadsAsMatch(ParseRule(raw).value)
  {
    var t := Trim(raw);
    if StartsWith(t, MATCH_PREFIX) {
      var lead, trail := TrimParts(t[|MATCH_PREFIX|..]);
    } else {
      var firstComma := IndexOf(t, ',');
      var op := OpOf(Trim(t[..firstComma]));
      if op.Some? {
        ParsedLogicalWellFormed(op.value, t[firstComma + 1..]);
      } else {
        ParsedSimpleWellFormed(t);
      }
    }
  }

  // ----- printing a well-formed rule and parsing it back -----

  lemma {:induction false} ParseChildrenAnyLimit(groups: seq<string>, m: nat, n: nat)
    requires AllShorter(groups, m) && AllShorter(groups, n)
    ensures ParseChildren(groups, m) == ParseChildren(groups, n)
  {
    if groups != [] {
      ParseChildrenAnyLimit(groups[1..], m, n);
    }
  }

  // Splitting the joined parts gives the parts back.
  lemma TopLevelPartsOfJoin(parts: seq<string>)
    requires TopParts(parts, 0) && AllTrimmed(parts) && |parts| > 1
    ensures TopLevelParts(Join(parts, ",")) == parts
  {
    SplitTopJoin(parts, 0);
    MapTrimTrimmed(parts);
    JoinTrimmed(parts);
  }

  lemma OpText(op: LogicalOp, rest: string)
    ensures var t := OpName(op) + ("," + rest);
            && IndexOf(t, ',') == |OpName(op)|
            && OpOf(Trim(t[..IndexOf(t, ',')])) == Some(op)
            && t[IndexOf(t, ',') + 1..] == rest
            && !StartsWith(t, MATCH_PREFIX)
  {
    hide Trim, IndexOf;
    var name := OpName(op);
    var tail := "," + rest;
    var t := name + tail;
    assert t[..|name|] == name && t[|name|] == ',';
    IndexOfUnique(t, ',', |name|);
    TrimTrimmed(name);
    assert t[|name|..] == tail;
    assert t[|name| + 1..] == tail[1..] == rest;
    if StartsWith(t, MATCH_PREFIX) {
      MatchPrefixHead(t);
    }
  }

  lemma PrintedSimpleChildParses(rule: Rule)
    requires WellFormedChild(rule) && rule.Simple?
    ensures IsGroup(SerializeChild(rule))
    ensures ParseRuleExpr(SerializeChild(rule)) == Ok(rule)
  {
    var g := SerializeChild(rule);
    var parts := [rule.typ, rule.value] + rule.modifiers;
    var inner := Join(parts, ",");
    assert Unwrap(g) == inner;
    TrimTrimmed(g);
    TopLevelPartsOfJoin(parts);
    TrimTrimmed(rule.typ);
    JoinCons(parts, ",");
    HeadOfFirstPart(inner, rule.typ, Join(parts[1..], ","));
    assert parts[2..] == rule.modifiers;
  }

  // "(" + kids + ")", where kids are groups that parse to the children.
  lemma PrintedKidsParse(op: LogicalOp, children: seq<Rule>, gs: seq<string>, limit: nat)
    requires AllGroups(gs) && AllShorter(gs, |Join(gs, ",")| + 1)
    requires ParseChildren(gs, |Join(gs, ",")| + 1) == Ok(children)
    requires |Join(gs, ",")| + 2 < limit
    ensures ParseLogicalChild(op, "(" + Join(gs, ",") + ")", limit) == Ok(Logical(op, children, ""))
  {
    var kids := Join(gs, ",");
    var group := "(" + kids + ")";
    assert Unwrap(group) == kids;
    GroupsOfJoin(gs);
    ShorterMonotone(gs, |kids| + 1, limit);
    ParseChildrenAnyLimit(gs, |kids| + 1, limit);
    hide ParseChildren, Groups, Join, AllGroups, AllShorter;
  }

  lemma ChildBodyOfLogical(op: LogicalOp, kids: string, limit: nat)
    requires |OpName(op)| + |kids| + 3 < limit
    ensures var group := "(" + kids + ")";
            ParseChildBody(OpName(op) + ("," + group), limit) == ParseLogicalChild(op, group, limit)
  {
    hide ParseLogicalChild, Trim, IndexOf, OpOf;
    var group := "(" + kids + ")";
    TrimTrimmed(group);
    OpText(op, group);
  }

  lemma PrintedLogicalChildParses(rule: Rule, gs: seq<string>)
    requires WellFormedChild(rule) && rule.Logical? && gs == SerializeChildren(rule.children)
    requires AllGroups(gs) && AllShorter(gs, |Join(gs, ",")| + 1)
    requires ParseChildren(gs, |Join(gs, ",")| + 1) == Ok(rule.children)
    ensures IsGroup(SerializeChild(rule))
    ensures ParseRuleExpr(SerializeChild(rule)) == Ok(rule)
  {
    hide ParseChildren, Join, Trim, IndexOf, AllGroups, AllShorter, SerializeChildren, ParseChildBody, Balanced;
    var kids := Join(gs, ",");
    var inner := OpName(rule.op) + ("," + ("(" + kids + ")"));
    var g := SerializeChild(rule);
    assert OpName(rule.op) + ",(" + kids + ")" == inner;
    assert Unwrap(g) == inner;
    TrimTrimmed(g);
    LogicalBalanced(rule.op, gs);
    PrintedKidsParse(rule.op, rule.children, gs, |g|);
    ChildBodyOfLogical(rule.op, kids, |g|);
  }

  lemma {:induction false} PrintedChildParses(rule: Rule)
    requires WellFormedChild(rule)
    ensures IsGroup(SerializeChild(rule))
    ensures ParseRuleExpr(SerializeChild(rule)) == Ok(rule)
    decreases rule, 1
  {
    hide ParseRuleExpr, IsGroup, SerializeChild;
    if rule.Simple? {
      PrintedSimpleChildParses(rule);
    } else {
      PrintedChildrenParse(rule.children);
      PrintedLogicalChildParses(rule, SerializeChildren(rule.children));
    }
  }

  lemma LogicalBalanced(op: LogicalOp, gs: seq<string>)
    requires AllGroups(gs)
    ensures Balanced(OpName(op) + ("," + ("(" + Join(gs, ",") + ")")))
  {
    JoinGroupsBalanced(gs);
    var group := "(" + Join(gs, ",") + ")";
    assert IsGroup(group) by { assert Unwrap(group) == Join(gs, ","); }
    JoinGroupsBalanced([group]);
    assert ("," + group)[1..] == group;
    NonNegConcat(OpName(op), "," + group, 0);
    DepthConcat(OpName(op), "," + group);
    assert Depth(OpName(op)) == 0 && NonNeg(OpName(op), 0) by {
      assert "AND"[1..] == "ND" && "ND"[1..] == "D" && "D"[1..] == "";
      assert "OR"[1..] == "R" && "R"[1..] == "";
      assert "NOT"[1..] == "OT" && "OT"[1..] == "T" && "T"[1..] == "";
    }
  }

  lemma {:induction false} PrintedChildrenParse(rules: seq<Rule>)
    requires forall r :: r in rules ==> WellFormedChild(r)
    ensures var gs := SerializeChildren(rules);
            && AllGroups(gs) && AllShorter(gs, |Join(gs, ",")| + 1)
            && ParseChildren(gs, |Join(gs, ",")| + 1) == Ok(rules)
    decreases rules, 0
  {
    if rules != [] {
      hide ParseChildren, ParseRuleExpr, SerializeChild, WellFormedChild, Join;
      assert rules[0] in rules;
      PrintedChildParses(rules[0]);
      PrintedChildrenParse(rules[1..]);
      ParseChildrenCons(rules, SerializeChild(rules[0]), SerializeChildren(rules[1..]));
    }
  }

  lemma ParseChildrenCons(rules: seq<Rule>, first: string, rest: seq<string>)
    requires rules != [] && ParseRuleExpr(first) == Ok(rules[0])
    requires AllShorter(rest, |Join(rest, ",")| + 1)
    requires ParseChildren(rest, |Join(rest, ",")| + 1) == Ok(rules[1..])
    ensures var gs := [first] + rest;
            && AllShorter(gs, |Join(gs, ",")| + 1)
            && ParseChildren(gs, |Join(gs, ",")| + 1) == Ok(rules)
  {
    hide ParseRuleExpr;
    var gs := [first] + rest;
    assert gs[1..] == rest;
    if |gs| > 1 {
      JoinCons(gs, ",");
    }
    ShorterMonotone(rest, |Join(rest, ",")| + 1, |Join(gs, ",")| + 1);
    ParseChildrenAnyLimit(rest, |Join(rest, ",")| + 1, |Join(gs, ",")| + 1);
    assert rules == [rules[0]] + rules[1..];
  }

  // The matching parenthesis ends the children group, the rest is the target.
  lemma LogicalBody(op: LogicalOp, kids: string, target: string)
    requires target != "" && Trimmed(target) && Balanced(kids)
    ensures var body := "(" + (kids + ")" + ("," + target));
            TrimStart(body) == body && Close(body, 0) == |kids| + 1
            && body[1..|kids| + 1] == kids && body[|kids| + 2..] == "," + target
            && Trim(body[|kids| + 2..][1..]) == target
  {
    var after := "," + target;
    var tail := kids + ")" + after;
    var body := "(" + tail;
    assert body[1..] == tail;
    CloseInside(kids, after, 1);
    TrimTrimmed(target);
    hide Trim, Balanced;
    assert body[|kids| + 2..] == after;
    assert after[1..] == target;
  }

  lemma PrintedLogicalBodyParses(op: LogicalOp, children: seq<Rule>, target: string, gs: seq<string>)
    requires target != "" && Trimmed(target)
    requires AllGroups(gs) && AllShorter(gs, |Join(gs, ",")| + 1)
    requires ParseChildren(gs, |Join(gs, ",")| + 1) == Ok(children)
    ensures ParseLogical(op, "(" + (Join(gs, ",") + ")" + ("," + target))) == Ok(Logical(op, children, target))
  {
    hide ParseChildren, Join, Trim, TrimStart, Groups, Close, AllGroups, AllShorter, Balanced;
    var kids := Join(gs, ",");
    var body := "(" + (kids + ")" + ("," + target));
    JoinGroupsBalanced(gs);
    LogicalBody(op, kids, target);
    GroupsOfJoin(gs);
    ShorterMonotone(gs, |kids| + 1, |body|);
    ParseChildrenAnyLimit(gs, |kids| + 1, |body|);
  }

  lemma PrintedLogicalText(op: LogicalOp, kids: string, target: string)
    requires target != "" && Trimmed(target)
    ensures var t := OpName(op) + ("," + ("(" + (kids + ")" + ("," + target))));
            OpName(op) + ",(" + kids + ")," + target == t && Trim(t) == t && t != ""
  {
    hide TrimStart, TrimEnd;
    var t := OpName(op) + ("," + ("(" + (kids + ")" + ("," + target))));
    assert t[|t| - 1] == target[|target| - 1];
    TrimTrimmed(t);
  }

  lemma ParseRuleOfLogicalText(op: LogicalOp, rest: string)
    requires var t := OpName(op) + ("," + rest); Trim(t) == t && t != ""
    ensures ParseRule(OpName(op) + ("," + rest)) == ParseLogical(op, rest)
  {
    hide Trim, ParseLogical, IndexOf, OpOf, StartsWith;
    OpText(op, rest);
  }

  lemma PrintedLogicalParses(op: LogicalOp, children: seq<Rule>, target: string)
    requires WellFormed(Logical(op, children, target))
    ensures ParseRule(SerializeRule(Logical(op, children, target))) == Ok(Logical(op, children, target))
  {
    hide ParseRule, Trim, Join, ParseLogical, ParseChildren, AllGroups, AllShorter, SerializeChildren, Trimmed;
    PrintedChildrenParse(children);
    var gs := SerializeChildren(children);
    PrintedLogicalText(op, Join(gs, ","), target);
    ParseRuleOfLogicalText(op, "(" + (Join(gs, ",") + ")" + ("," + target)));
    PrintedLogicalBodyParses(op, children, target, gs);
  }

  // Printing then parsing is the identity on every well-formed rule, of any depth.
  lemma PrintedParses(rule: Rule)
    requires WellFormed(rule)
    ensures ParseRule(SerializeRule(rule)) == Ok(rule)
  {
    hide Trim, Join, IndexOf, TopLevelParts;
    match rule
    case Match(target) =>
      var t := MATCH_PREFIX + target;
      assert t[|t| - 1] == target[|target| - 1];
      TrimTrimmed(t);
      assert t[..6] == MATCH_PREFIX && t[6..] == target;
      TrimTrimmed(target);
    case Simple(typ, value, target, modifiers) =>
      var parts := [typ, value, target] + modifiers;
      var t := Join(parts, ",");
      TopLevelPartsOfJoin(parts);
      JoinTrimmed(parts);
      TrimTrimmed(t);
      TrimTrimmed(typ);
      JoinCons(parts, ",");
      HeadOfFirstPart(t, typ, Join(parts[1..], ","));
      assert parts[3..] == modifiers;
    case Logical(op, children, target) =>
      PrintedLogicalParses(op, children, target);
  }

  // A simple rule of type MATCH prints as text that parses to a MATCH rule.
  lemma MisreadRule(rule: Rule)
    requires MisreadsAsMatch(rule)
    ensures ParseRule(SerializeRule(rule)) != Ok(rule)
  {
    hide Join, TopLevelParts, ParseLogical, IndexOf;
    var parts := [rule.typ, rule.value, rule.target] + rule.modifiers;
    JoinCons(parts, ",");
    var t := SerializeRule(rule);
    assert t == "MATCH" + ("," + Join(parts[1..], ","));
    assert t[..6] == MATCH_PREFIX;
    var lead := TrimStartParts(t);
    assert !IsSpace('M') && t[0] == 'M';
    assert TrimStart(t) == t;
    var trail := TrimEndParts(t);
    assert !IsSpace(t[5]);
    assert |TrimEnd(t)| >= 6;
    assert Trim(t)[..6] == t[..6];
  }

  // ----- main results -----

  // The rules that survive printing and parsing are exactly the well-formed ones.
  lemma RoundTripIffWellFormed(rule: Rule)
    ensures ParseRule(SerializeRule(rule)) == Ok(rule) <==> WellFormed(rule)
  {
    if WellFormed(rule) {
      PrintedParses(rule);
    } else if ParseRule(SerializeRule(rule)) == Ok(rule) {
      ParsedWellFormed(SerializeRule(rule));
      MisreadRule(rule);
    }
  }

  // Normal form: re-parsing the printed form of an accepted string changes
  // nothing, unless the string was read as a simple rule of type MATCH.
  lemma NormalForm(raw: string)
    requires ParseRule(raw).Ok?
    ensures var rule := ParseRule(raw).value;
            ParseRule(SerializeRule(rule)) == Ok(rule) <==> !MisreadsAsMatch(rule)
  {
    ParsedWellFormed(raw);
    RoundTripIffWellFormed(ParseRule(raw).value);
  }

  // Text of one top-level part has no operator before its first comma.
  lemma SinglePart(t: string)
    requires |TopLevelParts(t)| <= 1 && ',' in t
    ensures OpOf(Trim(t[..IndexOf(t, ',')])).None?
  {
    hide Trim, IndexOf, NoTopComma, OpOf;
    var raw := SplitTop(t, 0);
    SplitTopParts(t, 0);
    assert |raw| == 1 && raw[0] == t;
    HeadInsidePart(t);
  }

  // On the text: an accepted string is read as a simple rule of type MATCH exactly when
  // its first top-level part is "MATCH" and it does not start with "MATCH,".
  lemma MisreadTextIff(raw: string)
    requires ParseRule(raw).Ok?
    ensures var t := Trim(raw);
            MisreadsAsMatch(ParseRule(raw).value) <==>
              !StartsWith(t, MATCH_PREFIX) && TopLevelParts(t) != [] && TopLevelParts(t)[0] == "MATCH"
  {
    hide Trim, TopLevelParts, IndexOf, ParseLogical, NoTopComma, Balanced, Join;
    var t := Trim(raw);
    if !StartsWith(t, MATCH_PREFIX) {
      if |TopLevelParts(t)| >= 2 {
        var p, rest := SplitPartsOf(t);
        HeadOfFirstPart(t, p, rest);
        LogicalIsLogical(t);
      } else {
        SinglePart(t);
      }
    }
  }

  lemma LogicalIsLogical(t: string)
    ensures forall op, rest :: ParseLogical(op, rest).Ok? ==> ParseLogical(op, rest).value.Logical?
  {
  }

  // A string that is read as a simple rule of type MATCH: the space keeps it from being
  // read as a match rule, and its printed form has no space.
  lemma AcceptedAndMisread()
    ensures ParseRule("MATCH ,a,b") == Ok(Simple("MATCH", "a", "b", []))
    ensures ParseRule(SerializeRule(ParseRule("MATCH ,a,b").value)) != ParseRule("MATCH ,a,b")
  {
    hide *;
    var raw := "MATCH ,a,b";
    var rule := Simple("MATCH", "a", "b", []);
    ParsedSpaced(raw);
    MatchMisreads(rule);
    MisreadRule(rule);
  }

  lemma SpacedParts()
    ensures SplitTop("MATCH ,a,b", 0) == ["MATCH ", "a", "b"]
  {
    var parts := ["MATCH ", "a", "b"];
    assert parts[1..] == ["a", "b"] && ["a", "b"][1..] == ["b"];
    assert Join(parts, ",") == "MATCH ,a,b" by {
      assert Join(["b"], ",") == "b";
      assert Join(["a", "b"], ",") == "a,b";
    }
    assert NoTopComma("MATCH ", 0) && Depth("MATCH ") == 0 by {
      assert "MATCH "[1..] == "ATCH " && "ATCH "[1..] == "TCH " && "TCH "[1..] == "CH " && "CH "[1..] == "H " && "H "[1..] == " ";
    }
    assert NoTopComma("a", 0) && NoTopComma("b", 0) && Depth("a") == 0;
    assert TopParts(["b"], 0) && TopParts(["a", "b"], 0);
    SplitTopJoin(parts, 0);
  }

  lemma MatchMisreads(rule: Rule)
    requires rule == Simple("MATCH", "a", "b", [])
    ensures MisreadsAsMatch(rule)
  {
  }

  lemma ParsedSpaced(raw: string)
    requires raw == "MATCH ,a,b"
    ensures ParseRule(raw) == Ok(Simple("MATCH", "a", "b", []))
  {
    hide Trim, TopLevelParts, IndexOf, ParseLogical;
    TrimTrimmed(raw);
    SpacedTopLevel(raw);
    assert raw[5] != MATCH_PREFIX[5];
    assert raw[..6] == "MATCH ";
    IndexOfUnique(raw, ',', 6);
    TrimmedSpaced();
    assert ["MATCH", "a", "b"][3..] == [];
  }

  lemma TrimmedSpaced()
    ensures Trim("MATCH ") == "MATCH"
  {
    hide Trim;
    TrimTrimmed("MATCH");
    TrimPadBack("MATCH", " ");
    assert "MATCH" + " " == "MATCH ";
  }

  lemma SpacedTopLevel(raw: string)
    requires raw == "MATCH ,a,b"
    ensures TopLevelParts(raw) == ["MATCH", "a", "b"]
  {
    hide Trim, SplitTop;
    SpacedParts();
    TrimmedSpaced();
    TrimTrimmed("a");
    TrimTrimmed("b");
  }
}

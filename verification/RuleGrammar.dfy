// The texts that the rule parser accepts, with white space around every token and stray
// text between child groups, and the rules they stand for.
module RuleGrammar {
  import opened Outcome
  import opened Text
  import opened RuleParser
  import opened RuleRoundTrip

  // A token with white space around it.
  datatype Padded = Padded(before: string, text: string, after: string)

  // What stands between the parentheses of a child.
  datatype Expr =
    | SimpleExpr(parts: seq<Padded>)
    | LogicalExpr(op: LogicalOp, before: string, after: string, gap: string, children: seq<Child>, rest: string, trail: string)

  // A child group, behind text that the parser skips.
  datatype Child = Child(junk: string, expr: Expr)

  datatype Body =
    | MatchBody(target: Padded)
    | SimpleBody(parts: seq<Padded>)
    | LogicalBody(op: LogicalOp, after: string, gap: string, children: seq<Child>, rest: string, target: Padded)

  // ----- the text -----

  function Written(p: Padded): string {
    p.before + (p.text + p.after)
  }

  function AllWritten(parts: seq<Padded>): (r: seq<string>)
    ensures |r| == |parts|
  {
    if parts == [] then [] else [Written(parts[0])] + AllWritten(parts[1..])
  }

  function ExprText(expr: Expr): string
    decreases expr, 0
  {
    match expr
    case SimpleExpr(parts) => Join(AllWritten(parts), ",")
    case LogicalExpr(op, before, after, gap, children, rest, trail) =>
      before + OpName(op) + after + ("," + (gap + ("(" + (KidsText(children) + rest) + ")") + trail))
  }

  function GroupText(expr: Expr): string
    decreases expr, 1
  {
    "(" + ExprText(expr) + ")"
  }

  function KidsText(children: seq<Child>): string
    decreases children, 0
  {
    if children == [] then ""
    else
      assert children[0] in children;
      children[0].junk + (GroupText(children[0].expr) + KidsText(children[1..]))
  }

  function BodyText(body: Body): string {
    match body
    case MatchBody(target) => MATCH_PREFIX + Written(target)
    case SimpleBody(parts) => Join(AllWritten(parts), ",")
    case LogicalBody(op, after, gap, children, rest, target) =>
      OpName(op) + after + ("," + (gap + ("(" + ((KidsText(children) + rest) + ")" + ("," + Written(target))))))
  }

  // ----- the rule -----

  function Texts(parts: seq<Padded>): (r: seq<string>)
    ensures |r| == |parts|
  {
    if parts == [] then [] else [parts[0].text] + Texts(parts[1..])
  }

  function ExprRule(expr: Expr): Rule
    requires SoundExpr(expr)
    decreases expr, 0
  {
    match expr
    case SimpleExpr(parts) => Simple(Texts(parts)[0], Texts(parts)[1], "", Texts(parts)[2..])
    case LogicalExpr(op, _, _, _, children, _, _) => Logical(op, KidsRules(children), "")
  }

  function KidsRules(children: seq<Child>): (r: seq<Rule>)
    requires SoundKids(children)
    decreases children, 0
  {
    if children == [] then []
    else
      assert children[0] in children;
      [ExprRule(children[0].expr)] + KidsRules(children[1..])
  }

  function BodyRule(body: Body): Rule
    requires SoundBody(body)
  {
    match body
    case MatchBody(target) => Match(target.text)
    case SimpleBody(parts) => Simple(Texts(parts)[0], Texts(parts)[1], Texts(parts)[2], Texts(parts)[3..])
    case LogicalBody(op, _, _, children, _, target) => Logical(op, KidsRules(children), target.text)
  }

  // ----- what makes it a text of the language -----

  predicate Spaces(s: string) {
    s != "" ==> IsSpace(s[0]) && Spaces(s[1..])
  }

  predicate IsPadded(p: Padded) {
    Spaces(p.before) && Spaces(p.after) && Trimmed(p.text)
  }

  predicate AllPadded(parts: seq<Padded>) {
    parts != [] ==> IsPadded(parts[0]) && AllPadded(parts[1..])
  }

  // Scanning from depth d opens nothing at depth 0.
  predicate NoOpen(s: string, d: int) {
    s != "" ==> !(s[0] == '(' && d == 0) && NoOpen(s[1..], d + Shift(s[0]))
  }

  // Text that is skipped before a group.
  predicate Stray(s: string) {
    NoOpen(s, 0) && Depth(s) == 0
  }

  predicate SoundExpr(expr: Expr)
    decreases expr, 0
  {
    match expr
    case SimpleExpr(parts) =>
      && |parts| >= 2 && AllPadded(parts) && TopParts(Texts(parts), 0)
      && Texts(parts)[1] != "" && OpOf(Texts(parts)[0]).None?
    case LogicalExpr(_, before, after, gap, children, rest, trail) =>
      Spaces(before) && Spaces(after) && Spaces(gap) && Spaces(trail) && SoundKids(children) && NoOpen(rest, 0)
  }

  predicate SoundKids(children: seq<Child>)
    decreases children, 0
  {
    children != [] ==>
      assert children[0] in children;
      && Stray(children[0].junk) && Balanced(ExprText(children[0].expr)) && SoundExpr(children[0].expr)
      && SoundKids(children[1..])
  }

  predicate SoundBody(body: Body) {
    match body
    case MatchBody(target) => IsPadded(target) && target.text != ""
    case SimpleBody(parts) =>
      && |parts| >= 3 && AllPadded(parts) && TopParts(Texts(parts), 0)
      && Texts(parts)[1] != "" && Texts(parts)[2] != "" && OpOf(Texts(parts)[0]).None?
      && Written(parts[0]) != "MATCH"
    case LogicalBody(_, after, gap, children, rest, target) =>
      && Spaces(after) && Spaces(gap) && SoundKids(children) && NoOpen(rest, 0)
      && Balanced(KidsText(children) + rest) && IsPadded(target) && target.text != ""
  }

  // ----- padded tokens -----

  lemma {:induction false} SpacesAll(s: string)
    ensures Spaces(s) <==> AllSpace(s)
  {
    if s != "" {
      SpacesAll(s[1..]);
      assert forall i :: 0 <= i < |s| - 1 ==> s[1..][i] == s[i + 1];
      if AllSpace(s[1..]) && IsSpace(s[0]) {
        assert forall i :: 1 <= i < |s| ==> s[i] == s[1..][i - 1];
      }
    }
  }

  lemma TrimPadded(p: Padded)
    requires IsPadded(p)
    ensures Trim(Written(p)) == p.text
  {
    hide Trim, Trimmed;
    SpacesAll(p.before);
    SpacesAll(p.after);
    TrimPadFront(p.before, p.text + p.after);
    TrimPadBack(p.text, p.after);
    TrimTrimmed(p.text);
  }

  lemma {:induction false} TrimAllPadded(parts: seq<Padded>)
    requires AllPadded(parts)
    ensures MapTrim(AllWritten(parts)) == Texts(parts)
  {
    if parts != [] {
      TrimPadded(parts[0]);
      TrimAllPadded(parts[1..]);
      hide Trim, Written, IsPadded;
      assert AllWritten(parts)[1..] == AllWritten(parts[1..]);
    }
  }

  // White space changes no scan.
  lemma PaddedScan(p: Padded, d: int)
    requires IsPadded(p)
    ensures Depth(Written(p)) == Depth(p.text)
    ensures NoTopComma(Written(p), d) <==> NoTopComma(p.text, d)
  {
    SpacesAll(p.before);
    SpacesAll(p.after);
    SpaceIsFlat(p.before, d);
    SpaceIsFlat(p.after, d + Depth(p.text));
    DepthConcat(p.before, p.text + p.after);
    DepthConcat(p.text, p.after);
    NoTopCommaConcat(p.before, p.text + p.after, d);
    NoTopCommaConcat(p.text, p.after, d);
  }

  lemma {:induction false} PaddedParts(parts: seq<Padded>, d: int)
    requires AllPadded(parts)
    ensures TopParts(AllWritten(parts), d) <==> TopParts(Texts(parts), d)
    decreases |parts|
  {
    if parts != [] {
      PaddedScan(parts[0], d);
      assert AllWritten(parts)[1..] == AllWritten(parts[1..]) && Texts(parts)[1..] == Texts(parts[1..]);
      if |parts| > 1 {
        PaddedParts(parts[1..], 0);
      }
    }
  }

  // ----- skipping to the groups -----

  lemma {:induction false} StrayScan(junk: string, rest: string, d: int)
    requires d <= 0 && NoOpen(junk, d)
    ensures Groups(junk + rest, d, "") == Groups(rest, d + Depth(junk), "")
    ensures d + Depth(junk) <= 0
  {
    if junk == "" {
      assert junk + rest == rest;
    } else {
      assert (junk + rest)[1..] == junk[1..] + rest;
      StrayScan(junk[1..], rest, d + Shift(junk[0]));
    }
  }

  function GroupTexts(children: seq<Child>): (r: seq<string>)
    ensures |r| == |children|
  {
    if children == [] then [] else [GroupText(children[0].expr)] + GroupTexts(children[1..])
  }

  lemma GroupIsGroup(expr: Expr)
    requires Balanced(ExprText(expr))
    ensures IsGroup(GroupText(expr)) && Trimmed(GroupText(expr)) && Unwrap(GroupText(expr)) == ExprText(expr)
  {
    hide ExprText, Balanced;
    assert Unwrap(GroupText(expr)) == ExprText(expr);
  }

  // The parser cuts out exactly the groups of the children.
  lemma {:induction false} GroupsOfKids(children: seq<Child>, rest: string)
    requires SoundKids(children) && NoOpen(rest, 0)
    ensures ChildGroups(KidsText(children) + rest) == GroupTexts(children)
    decreases |children|
  {
    hide ExprText, SoundExpr, Balanced, IsGroup;
    if children == [] {
      assert KidsText(children) + rest == rest + "";
      StrayScan(rest, "", 0);
    } else {
      var junk, group, more := children[0].junk, GroupText(children[0].expr), KidsText(children[1..]);
      hide GroupText, Groups, NoOpen;
      assert KidsText(children) + rest == junk + (group + (more + rest));
      StrayScan(junk, group + (more + rest), 0);
      GroupIsGroup(children[0].expr);
      GroupScan(group, more + rest);
      GroupsOfKids(children[1..], rest);
    }
  }

  // ----- every text of the language is accepted -----

  lemma SimpleTextParts(parts: seq<Padded>)
    requires |parts| >= 2 && AllPadded(parts) && TopParts(Texts(parts), 0)
    ensures var t := Join(AllWritten(parts), ",");
            && TopLevelParts(t) == Texts(parts)
            && IndexOf(t, ',') >= 0 && OpOf(Trim(t[..IndexOf(t, ',')])) == OpOf(Texts(parts)[0])
            && (StartsWith(t, MATCH_PREFIX) <==> Written(parts[0]) == "MATCH")
  {
    hide Trim, IndexOf, OpOf, Join, NoTopComma, SplitTop, MapTrim, IsPadded, Written, StartsWith;
    var written := AllWritten(parts);
    PaddedParts(parts, 0);
    TrimAllPadded(parts);
    SplitTopJoin(written, 0);
    JoinCons(written, ",");
    HeadOfFirstPart(Join(written, ","), written[0], Join(written[1..], ","));
    assert AllPadded(parts) ==> IsPadded(parts[0]);
    TrimPadded(parts[0]);
    assert Texts(parts)[0] == parts[0].text && written[0] == Written(parts[0]);
  }

  lemma {:induction false} SpacesNoComma(s: string)
    requires Spaces(s)
    ensures ',' !in s
  {
    if s != "" {
      SpacesNoComma(s[1..]);
      assert !IsSpace(',');
      assert s == [s[0]] + s[1..];
    }
  }

  lemma HeadNoComma(op: LogicalOp, before: string, after: string)
    requires Spaces(before) && Spaces(after)
    ensures ',' !in before + OpName(op) + after && Trim(before + OpName(op) + after) == OpName(op)
  {
    hide Trim, Spaces;
    SpacesNoComma(before);
    SpacesNoComma(after);
    assert before + OpName(op) + after == Written(Padded(before, OpName(op), after));
    TrimPadded(Padded(before, OpName(op), after));
  }

  // What stands before the first comma.
  lemma HeadCut(head: string, rest: string)
    requires ',' !in head
    ensures var t := head + ("," + rest);
            IndexOf(t, ',') == |head| && t[..|head|] == head && t[|head| + 1..] == rest && (StartsWith(t, MATCH_PREFIX) ==> head == "MATCH")
  {
    hide IndexOf;
    var t := head + ("," + rest);
    assert t[..|head|] == head && t[|head|] == ',' && t[|head| + 1..] == rest;
    IndexOfUnique(t, ',', |head|);
    if StartsWith(t, MATCH_PREFIX) {
      MatchPrefixHead(t);
    }
  }

  lemma GapTrimmed(gap: string, group: string, trail: string)
    requires Spaces(gap) && Spaces(trail) && Trimmed(group)
    ensures Trim(gap + group + trail) == group
  {
    assert gap + group + trail == Written(Padded(gap, group, trail));
    TrimPadded(Padded(gap, group, trail));
  }

  lemma SimpleExprParses(expr: Expr)
    requires expr.SimpleExpr? && SoundExpr(expr) && Balanced(ExprText(expr))
    ensures ParseRuleExpr(GroupText(expr)) == Ok(ExprRule(expr))
  {
    hide Trim, IndexOf, OpOf, Join, TopLevelParts, Balanced, TopParts, AllPadded;
    GroupIsGroup(expr);
    TrimTrimmed(GroupText(expr));
    SimpleTextParts(expr.parts);
  }

  // The rule made of parsed children, or the error of one of them.
  function AsLogical(op: LogicalOp, children: Result<seq<Rule>, ParseError>, target: string): Parsed {
    if children.Ok? then Ok(Logical(op, children.value, target)) else Err(children.error)
  }

  lemma LogicalExprSplit(op: LogicalOp, before: string, after: string, gap: string, x: string, trail: string, limit: nat)
    requires Spaces(before) && Spaces(after) && Spaces(gap) && Spaces(trail)
    requires var inner := before + OpName(op) + after + ("," + (gap + ("(" + x + ")") + trail)); |inner| < limit
    ensures AllShorter(ChildGroups(x), limit)
    ensures ParseChildBody(before + OpName(op) + after + ("," + (gap + ("(" + x + ")") + trail)), limit) ==
            AsLogical(op, ParseChildren(ChildGroups(x), limit), "")
  {
    hide Trim, Spaces, Groups, ParseChildren, ParseChildBody, ParseLogicalChild;
    var group, rest := "(" + x + ")", gap + ("(" + x + ")") + trail;
    HeadNoComma(op, before, after);
    ChildBodyHead(op, before + OpName(op) + after, rest, limit);
    GapTrimmed(gap, group, trail);
    LogicalChildGroup(op, x, limit);
  }

  lemma ChildBodyHead(op: LogicalOp, head: string, rest: string, limit: nat)
    requires ',' !in head && Trim(head) == OpName(op) && |head + ("," + rest)| < limit
    ensures ParseChildBody(head + ("," + rest), limit) == ParseLogicalChild(op, Trim(rest), limit)
  {
    hide Trim, IndexOf, ParseLogicalChild, ParseSimpleChild, TopLevelParts;
    HeadCut(head, rest);
  }

  lemma LogicalChildGroup(op: LogicalOp, x: string, limit: nat)
    requires |x| + 2 < limit
    ensures AllShorter(ChildGroups(x), limit)
    ensures ParseLogicalChild(op, "(" + x + ")", limit) ==
            AsLogical(op, ParseChildren(ChildGroups(x), limit), "")
  {
    hide Groups, ParseChildren;
    assert Unwrap("(" + x + ")") == x;
    ShorterMonotone(ChildGroups(x), |x| + 1, limit);
  }

  lemma GroupParses(expr: Expr)
    requires Balanced(ExprText(expr))
    ensures ParseRuleExpr(GroupText(expr)) == ParseChildBody(ExprText(expr), |GroupText(expr)|)
  {
    hide Trim, ExprText, ParseChildBody, Balanced;
    GroupIsGroup(expr);
    TrimTrimmed(GroupText(expr));
  }

  lemma {:induction false} LogicalExprParses(expr: Expr)
    requires expr.LogicalExpr? && SoundExpr(expr) && Balanced(ExprText(expr))
    ensures ParseRuleExpr(GroupText(expr)) == Ok(ExprRule(expr))
    decreases expr, 0
  {
    hide Balanced, KidsText, Groups, Spaces, NoOpen, SoundKids, ParseChildren, KidsRules, ParseRuleExpr, ParseChildBody;
    var x, limit := KidsText(expr.children) + expr.rest, |GroupText(expr)|;
    GroupParses(expr);
    LogicalExprSplit(expr.op, expr.before, expr.after, expr.gap, x, expr.trail, limit);
    GroupsOfKids(expr.children, expr.rest);
    KidsParse(expr.children, limit);
  }

  lemma {:induction false} KidsParse(children: seq<Child>, limit: nat)
    requires SoundKids(children) && AllShorter(GroupTexts(children), limit)
    ensures ParseChildren(GroupTexts(children), limit) == Ok(KidsRules(children))
    decreases children, 1
  {
    hide ExprText, GroupText, ParseRuleExpr, Balanced, Stray, ExprRule;
    if children != [] {
      assert children[0] in children;
      if children[0].expr.SimpleExpr? {
        SimpleExprParses(children[0].expr);
      } else {
        LogicalExprParses(children[0].expr);
      }
      assert GroupTexts(children)[1..] == GroupTexts(children[1..]);
      KidsParse(children[1..], limit);
    }
  }

  lemma LogicalBodyParses(body: Body)
    requires body.LogicalBody? && SoundBody(body) && Trimmed(BodyText(body))
    ensures ParseRule(BodyText(body)) == Ok(BodyRule(body))
  {
    hide Trim, Balanced, KidsText, Groups, Spaces, NoOpen, SoundKids, ParseChildren, KidsRules, IsPadded, Written, ParseRule, ParseLogical;
    var x, target := KidsText(body.children) + body.rest, Written(body.target);
    var group := "(" + (x + ")" + ("," + target));
    RuleOfHead(body.op, body.after, body.gap + group);
    ParseLogicalText(body.op, body.gap, x, body.target);
    GroupsOfKids(body.children, body.rest);
    KidsParse(body.children, |group|);
  }

  lemma RuleOfHead(op: LogicalOp, after: string, rest: string)
    requires Spaces(after) && Trimmed(OpName(op) + after + ("," + rest))
    ensures ParseRule(OpName(op) + after + ("," + rest)) == ParseLogical(op, rest)
  {
    hide Trim, IndexOf, Spaces, ParseLogical;
    var t := OpName(op) + after + ("," + rest);
    TrimTrimmed(t);
    NoSpaces();
    HeadNoComma(op, "", after);
    assert "" + OpName(op) + after == OpName(op) + after;
    HeadCut(OpName(op) + after, rest);
    TrimTrimmed("MATCH");
  }

  lemma NoSpaces()
    ensures Spaces("")
  {
  }

  lemma ParseLogicalText(op: LogicalOp, gap: string, x: string, target: Padded)
    requires Spaces(gap) && Balanced(x) && IsPadded(target) && target.text != ""
    ensures var group := "(" + (x + ")" + ("," + Written(target)));
            && AllShorter(ChildGroups(x), |group|)
            && ParseLogical(op, gap + group) ==
               AsLogical(op, ParseChildren(ChildGroups(x), |group|), target.text)
  {
    hide Groups, ParseChildren, Balanced, IsPadded, Written, Trim;
    var after := "," + Written(target);
    var group := "(" + (x + ")" + after);
    SpacesAll(gap);
    TrimStartPad(gap, group);
    GroupCloses(x, after);
    TrimPadded(target);
    assert after[1..] == Written(target);
    hide TrimStart, Close;
    ShorterMonotone(ChildGroups(x), |x| + 1, |group|);
    ParseChildrenAnyLimit(ChildGroups(x), |x| + 1, |group|);
  }

  lemma GroupCloses(x: string, after: string)
    requires Balanced(x)
    ensures var group := "(" + (x + ")" + after);
            TrimStart(group) == group && Close(group, 0) == |x| + 1 && group[1..|x| + 1] == x && group[|x| + 2..] == after
  {
    hide NonNeg, Depth;
    var group := "(" + (x + ")" + after);
    assert group[1..] == x + ")" + after;
    CloseInside(x, after, 1);
  }

  // Every text of the language, with white space around it, is read as its rule.
  lemma BodyParses(lead: string, body: Body, trail: string)
    requires Spaces(lead) && Spaces(trail) && SoundBody(body) && Trimmed(BodyText(body))
    ensures ParseRule(lead + BodyText(body) + trail) == Ok(BodyRule(body))
  {
    hide Trim, IndexOf, OpOf, Join, TopLevelParts, TopParts, AllPadded, Trimmed, IsPadded, Written;
    var t := BodyText(body);
    GapTrimmed(lead, t, trail);
    TrimTrimmed(t);
    assert ParseRule(lead + t + trail) == ParseRule(t) by { SameTrim(lead + t + trail, t); }
    match body
    case MatchBody(target) =>
      TrimPadded(target);
      assert t[..6] == MATCH_PREFIX && t[6..] == Written(target);
    case SimpleBody(parts) =>
      SimpleTextParts(parts);
    case LogicalBody(_, _, _, _, _, _) => LogicalBodyParses(body);
  }

  lemma SameTrim(a: string, b: string)
    requires Trim(a) == Trim(b)
    ensures ParseRule(a) == ParseRule(b)
  {
    hide Trim;
  }

  // ----- every accepted text is in the language -----

  lemma Unpad(s: string) returns (p: Padded)
    ensures IsPadded(p) && Written(p) == s && p.text == Trim(s)
  {
    var lead, trail := TrimParts(s);
    p := Padded(lead, Trim(s), trail);
    SpacesAll(lead);
    SpacesAll(trail);
    hide Trim;
    assert lead + (Trim(s) + trail) == lead + Trim(s) + trail;
  }

  lemma {:induction false} UnpadAll(parts: seq<string>) returns (ps: seq<Padded>)
    ensures AllPadded(ps) && AllWritten(ps) == parts && Texts(ps) == MapTrim(parts)
  {
    if parts == [] {
      ps := [];
    } else {
      var p := Unpad(parts[0]);
      var rest := UnpadAll(parts[1..]);
      hide IsPadded, Written, Trim;
      ps := [p] + rest;
      assert ps[1..] == rest && parts == [parts[0]] + parts[1..];
    }
  }

  lemma UnpadText(t: string) returns (ps: seq<Padded>)
    requires t != ""
    ensures AllPadded(ps) && |ps| >= 1 && Join(AllWritten(ps), ",") == t && Texts(ps) == TopLevelParts(t) && TopParts(Texts(ps), 0)
  {
    hide Join, MapTrim, AllPadded, TopParts, SplitTop;
    ps := UnpadAll(SplitTop(t, 0));
    SplitTopParts(t, 0);
    PaddedParts(ps, 0);
  }

  // Up to the first parenthesis at depth 0.
  lemma {:induction false} FindOpen(x: string, d: int) returns (found: bool, junk: string, tail: string)
    requires d <= 0
    ensures !found ==> NoOpen(x, d)
    ensures found ==> x == junk + ("(" + tail) && NoOpen(junk, d) && d + Depth(junk) == 0
    decreases |x|
  {
    if x == "" {
      found, junk, tail := false, "", "";
    } else if x[0] == '(' && d == 0 {
      found, junk, tail := true, "", x[1..];
      assert x == "(" + x[1..];
    } else {
      found, junk, tail := FindOpen(x[1..], d + Shift(x[0]));
      if found {
        assert ([x[0]] + junk)[1..] == junk;
        junk := [x[0]] + junk;
        assert x == [x[0]] + x[1..];
      }
    }
  }

  // What lies before the closing parenthesis is balanced.
  lemma {:induction false} CloseMeans(z: string, d: int)
    requires d >= 1
    ensures var k := Close(z, d); k >= 0 ==> NonNeg(z[..k], d - 1) && d - 1 + Depth(z[..k]) == 0
    ensures d + Depth(z) <= 0 ==> Close(z, d) >= 0
    decreases |z|
  {
    if z != "" && !(z[0] == ')' && d == 1) {
      CloseMeans(z[1..], d + Shift(z[0]));
      var k := Close(z, d);
      if k >= 0 {
        assert z[..k][1..] == z[1..][..k - 1];
      }
    }
  }

  lemma FindGroup(tail: string) returns (y: string, after: string)
    requires Depth(tail) == -1
    ensures tail == y + (")" + after) && Balanced(y) && Depth(after) == 0
  {
    CloseMeans(tail, 1);
    var k := Close(tail, 1);
    y, after := tail[..k], tail[k + 1..];
    assert tail == y + (")" + after);
    DepthConcat(y, ")" + after);
    assert (")" + after)[1..] == after;
  }

  lemma OpNamed(head: string)
    ensures OpOf(head).Some? ==> OpName(OpOf(head).value) == head
  {
  }

  lemma OpFlat(op: LogicalOp)
    ensures Depth(OpName(op)) == 0
  {
    assert "AND"[1..] == "ND" && "ND"[1..] == "D" && "D"[1..] == "";
    assert "OR"[1..] == "R" && "R"[1..] == "";
    assert "NOT"[1..] == "OT" && "OT"[1..] == "T" && "T"[1..] == "";
  }

  lemma {:induction false} UnparseExpr(y: string) returns (expr: Expr)
    requires Balanced(y) && ParseRuleExpr("(" + y + ")").Ok?
    ensures ExprText(expr) == y && SoundExpr(expr) && ExprRule(expr) == ParseRuleExpr("(" + y + ")").value
    decreases |y|
  {
    hide Trim, IndexOf, OpOf, TopLevelParts, Join, Balanced, Depth, NonNeg, ParseLogicalChild, ParseSimpleChild, AllPadded, TopParts, SoundExpr, ExprText, ExprRule;
    var g := "(" + y + ")";
    TrimTrimmed(g);
    assert Unwrap(g) == y;
    var c := IndexOf(y, ',');
    var op := OpOf(Trim(y[..c]));
    if op.Some? {
      expr := UnparseLogical(y, c, op.value);
    } else {
      expr := UnparseSimple(y);
    }
  }

  lemma UnparseSimple(y: string) returns (expr: Expr)
    requires IndexOf(y, ',') >= 0 && OpOf(Trim(y[..IndexOf(y, ',')])).None? && ParseSimpleChild(TopLevelParts(y)).Ok?
    ensures ExprText(expr) == y && SoundExpr(expr) && ExprRule(expr) == ParseSimpleChild(TopLevelParts(y)).value
  {
    hide Trim, IndexOf, OpOf, TopLevelParts, Join, AllPadded, TopParts;
    var parts := UnpadText(y);
    SimpleTextParts(parts);
    expr := SimpleExpr(parts);
  }

  lemma {:induction false} UnparseLogical(y: string, c: nat, op: LogicalOp) returns (expr: Expr)
    requires Balanced(y) && c < |y| && y[c] == ',' && OpOf(Trim(y[..c])) == Some(op)
    requires ParseLogicalChild(op, Trim(y[c + 1..]), |y| + 2).Ok?
    ensures ExprText(expr) == y && SoundExpr(expr) && ExprRule(expr) == ParseLogicalChild(op, Trim(y[c + 1..]), |y| + 2).value
    decreases |y|, 0
  {
    hide Trim, OpOf, Balanced, Groups, ParseChildren, IsPadded, KidsText, KidsRules, SoundKids, NoOpen;
    var head := Unpad(y[..c]);
    var tail := Unpad(y[c + 1..]);
    OpNamed(head.text);
    assert y == y[..c] + ("," + y[c + 1..]);
    var x := Unwrap(tail.text);
    assert tail.text == "(" + x + ")";
    LogicalDepth(y, head, tail, op, x);
    ShorterMonotone(ChildGroups(x), |x| + 1, |y| + 2);
    var children, rest := UnparseKids(x, |y| + 2);
    expr := LogicalExpr(op, head.before, head.after, tail.before, children, rest, tail.after);
    LogicalTexts(y, head, tail, op, x);
    assert IsPadded(head) && IsPadded(tail);
    PadsAreSpaces(head);
    PadsAreSpaces(tail);
  }

  lemma PadsAreSpaces(p: Padded)
    requires IsPadded(p)
    ensures Spaces(p.before) && Spaces(p.after)
  {
  }

  lemma LogicalTexts(y: string, head: Padded, tail: Padded, op: LogicalOp, x: string)
    requires y == Written(head) + ("," + Written(tail)) && head.text == OpName(op) && tail.text == "(" + x + ")"
    ensures head.before + OpName(op) + head.after + ("," + (tail.before + ("(" + x + ")") + tail.after)) == y
  {
    assert head.before + OpName(op) + head.after == Written(head);
    assert tail.before + ("(" + x + ")") + tail.after == Written(tail);
  }

  lemma LogicalDepth(y: string, head: Padded, tail: Padded, op: LogicalOp, x: string)
    requires Balanced(y) && IsPadded(head) && IsPadded(tail)
    requires y == Written(head) + ("," + Written(tail)) && head.text == OpName(op) && tail.text == "(" + x + ")"
    ensures Depth(x) == 0
  {
    hide NoTopComma, NonNeg;
    PaddedScan(head, 0);
    PaddedScan(tail, 0);
    OpFlat(op);
    DepthConcat(Written(head), "," + Written(tail));
    assert ("," + Written(tail))[1..] == Written(tail);
    DepthConcat("(", x + ")");
    DepthConcat(x, ")");
    assert "(" + x + ")" == "(" + (x + ")");
    assert "("[1..] == "" && ")"[1..] == "";
  }

  lemma KidsCons(junk: string, expr: Expr, more: seq<Child>)
    requires Stray(junk) && Balanced(ExprText(expr)) && SoundExpr(expr) && SoundKids(more)
    ensures var children := [Child(junk, expr)] + more;
            && SoundKids(children) && KidsText(children) == junk + (GroupText(expr) + KidsText(more))
            && KidsRules(children) == [ExprRule(expr)] + KidsRules(more)
  {
    hide Stray, Balanced, ExprText, SoundExpr, ExprRule, GroupText;
    assert ([Child(junk, expr)] + more)[1..] == more;
  }

  lemma ParsedCons(g: string, gs: seq<string>, limit: nat)
    requires AllShorter([g] + gs, limit) && ParseChildren([g] + gs, limit).Ok?
    ensures AllShorter(gs, limit) && ParseChildren(gs, limit).Ok? && ParseRuleExpr(g).Ok?
    ensures ParseChildren([g] + gs, limit).value == [ParseRuleExpr(g).value] + ParseChildren(gs, limit).value
  {
    hide ParseRuleExpr;
    assert ([g] + gs)[1..] == gs;
  }

  // The first group of a text, and what stands before and behind it.
  lemma CutGroup(x: string) returns (found: bool, junk: string, y: string, after: string)
    requires Depth(x) == 0
    ensures !found ==> NoOpen(x, 0) && ChildGroups(x) == []
    ensures found ==>
              && Stray(junk) && Balanced(y) && Depth(after) == 0 && |y| < |x| && |after| < |x|
              && x == junk + ("(" + y + ")" + after) && ChildGroups(x) == ["(" + y + ")"] + ChildGroups(after)
  {
    hide Balanced, Groups, NoOpen;
    var tail;
    found, junk, tail := FindOpen(x, 0);
    y, after := "", "";
    if !found {
      StrayScan(x, "", 0);
      assert x + "" == x;
      NoGroups(Depth(x));
    } else {
      DepthConcat(junk, "(" + tail);
      assert ("(" + tail)[1..] == tail;
      y, after := FindGroup(tail);
      var g := "(" + y + ")";
      assert "(" + tail == g + after;
      StrayScan(junk, g + after, 0);
      assert IsGroup(g) by { assert Unwrap(g) == y; }
      GroupScan(g, after);
    }
  }

  lemma {:induction false} UnparseKids(x: string, limit: nat) returns (children: seq<Child>, rest: string)
    requires Depth(x) == 0 && AllShorter(ChildGroups(x), limit) && ParseChildren(ChildGroups(x), limit).Ok?
    ensures SoundKids(children) && NoOpen(rest, 0) && KidsText(children) + rest == x
    ensures KidsRules(children) == ParseChildren(ChildGroups(x), limit).value
    decreases |x|, 1
  {
    hide ParseRuleExpr, Balanced, NoOpen, ExprText, SoundExpr, ExprRule, AllShorter, ChildGroups, Stray;
    var found, junk, y, after := CutGroup(x);
    if !found {
      children, rest := [], x;
    } else {
      var g := "(" + y + ")";
      ParsedCons(g, ChildGroups(after), limit);
      var expr := UnparseExpr(y);
      var more, end := UnparseKids(after, limit);
      KidsCons(junk, expr, more);
      hide SoundKids, KidsText, KidsRules, ParseChildren;
      children, rest := [Child(junk, expr)] + more, end;
      assert GroupText(expr) == g;
      assert junk + (g + KidsText(more)) + end == junk + (g + (KidsText(more) + end));
    }
  }

  lemma NoGroups(d: int)
    ensures Groups("", d, "") == []
  {
  }

  // ----- the grammar -----

  // The text is one of the language: a body with white space around it.
  ghost predicate IsText(raw: string, lead: string, body: Body, trail: string) {
    Spaces(lead) && Spaces(trail) && SoundBody(body) && Trimmed(BodyText(body)) && raw == lead + BodyText(body) + trail
  }

  lemma UnparseBody(t: string) returns (body: Body)
    requires Trimmed(t) && ParseRule(t).Ok?
    ensures SoundBody(body) && BodyText(body) == t && BodyRule(body) == ParseRule(t).value
  {
    hide Trim, IndexOf, OpOf, TopLevelParts, Join, AllPadded, TopParts, IsPadded, Written, ParseLogical, Trimmed;
    TrimTrimmed(t);
    if StartsWith(t, MATCH_PREFIX) {
      var target := Unpad(t[|MATCH_PREFIX|..]);
      body := MatchBody(target);
    } else {
      var c := IndexOf(t, ',');
      var op := OpOf(Trim(t[..c]));
      if op.Some? {
        body := UnparseLogicalBody(t, c, op.value);
      } else {
        var parts := UnpadText(t);
        SimpleTextParts(parts);
        body := SimpleBody(parts);
      }
    }
  }

  lemma UnparseLogicalBody(t: string, c: nat, op: LogicalOp) returns (body: Body)
    requires Trimmed(t) && c < |t| && t[c] == ',' && OpOf(Trim(t[..c])) == Some(op) && ParseLogical(op, t[c + 1..]).Ok?
    ensures SoundBody(body) && BodyText(body) == t && BodyRule(body) == ParseLogical(op, t[c + 1..]).value
  {
    hide Trim, TrimStart, OpOf, Groups, ParseChildren, ParseLogical, IsPadded, KidsText, KidsRules, SoundKids, NoOpen, Close, NonNeg, Depth,
      Trimmed, Spaces, Written;
    LogicalParsed(op, t[c + 1..]);
    var head := Unpad(t[..c]);
    OpNamed(head.text);
    NothingBefore(t, c, head);
    var gap := TrimStartParts(t[c + 1..]);
    SpacesAll(gap);
    var group := TrimStart(t[c + 1..]);
    var close := Close(group, 0);
    var x := group[1..close];
    CloseOfGroup(group);
    var target := Unpad(group[close + 1..][1..]);
    ShorterMonotone(ChildGroups(x), |x| + 1, |group|);
    var children, rest := UnparseKids(x, |group|);
    body := LogicalBody(op, head.after, gap, children, rest, target);
    PadsAreSpaces(head);
    assert t == t[..c] + ("," + t[c + 1..]);
    assert group == "(" + (x + ")" + ("," + Written(target))) by { GroupWritten(group, close, x, Written(target)); }
    NothingWritten(head, OpName(op));
  }

  lemma NothingWritten(head: Padded, name: string)
    requires head.before == "" && head.text == name
    ensures Written(head) == name + head.after
  {
    assert Written(head) == "" + (name + head.after);
  }

  // What an accepted logical rule has behind its operator.
  lemma LogicalParsed(op: LogicalOp, rest: string)
    requires ParseLogical(op, rest).Ok?
    ensures var group := TrimStart(rest);
            var close := Close(group, 0);
            && group != "" && group[0] == '(' && close >= 1 && group[close + 1..] != "" && group[close + 1..][0] == ','
            && Trim(group[close + 1..][1..]) != ""
            && AllShorter(ChildGroups(group[1..close]), |group|)
            && ParseLogical(op, rest) == AsLogical(op, ParseChildren(ChildGroups(group[1..close]), |group|), Trim(group[close + 1..][1..]))
  {
    hide Trim, TrimStart, Groups, ParseChildren;
    var group := TrimStart(rest);
    var close := Close(group, 0);
    ShorterMonotone(ChildGroups(group[1..close]), close, |group|);
  }

  lemma GroupWritten(group: string, close: nat, x: string, target: string)
    requires 1 <= close < |group| && group[0] == '(' && group[close] == ')' && x == group[1..close]
    requires group[close + 1..] != "" && group[close + 1..][0] == ',' && target == group[close + 1..][1..]
    ensures group == "(" + (x + ")" + ("," + target))
  {
    assert group[close + 1..] == "," + target;
  }

  lemma NothingBefore(t: string, c: nat, head: Padded)
    requires Trimmed(t) && c < |t| && Written(head) == t[..c] && IsPadded(head) && head.text != ""
    ensures head.before == ""
  {
    assert Written(head)[0] == t[0];
  }

  lemma CloseOfGroup(group: string)
    requires group != "" && group[0] == '(' && Close(group, 0) >= 0
    ensures var close := Close(group, 0); close >= 1 && Balanced(group[1..close]) && Depth(group[1..close]) == 0
  {
    CloseMeans(group[1..], 1);
    var close := Close(group, 0);
    assert group[1..close] == group[1..][..close - 1];
  }

  // The parser accepts exactly the texts of the language, and reads each as its rule:
  // white space may stand around every operator, type, value, target and modifier and
  // around every group but before the comma that follows the children of a rule, and
  // anything that opens no group may stand between child groups.
  lemma GrammarIff(raw: string, rule: Rule)
    ensures ParseRule(raw) == Ok(rule) <==> exists lead, body, trail :: IsText(raw, lead, body, trail) && BodyRule(body) == rule
  {
    hide ParseRule, BodyText, BodyRule, SoundBody, Trim, Trimmed, Spaces;
    if ParseRule(raw) == Ok(rule) {
      var lead, trail := TrimParts(raw);
      SpacesAll(lead);
      SpacesAll(trail);
      TrimTwice(raw);
      SameTrim(raw, Trim(raw));
      var body := UnparseBody(Trim(raw));
      assert IsText(raw, lead, body, trail);
    }
    if lead, body, trail :| IsText(raw, lead, body, trail) && BodyRule(body) == rule {
      BodyParses(lead, body, trail);
    }
  }

  lemma TrimTwice(s: string)
    ensures Trim(Trim(s)) == Trim(s)
  {
    var lead, trail := TrimParts(s);
    TrimTrimmed(Trim(s));
  }

  // ----- at the edge of the language -----

  // The children of a rule must be followed by the comma of the target at once.
  lemma CommaAtOnce(op: LogicalOp, x: string, after: string)
    requires Balanced(x) && Trimmed(after) && (after == "" || after[0] != ',')
    ensures ParseRule(OpName(op) + ("," + ("(" + (x + ")" + after)))) == Err(TargetMissing)
  {
    hide TrimStart, Trim, Close, Balanced, ParseRule;
    var group := "(" + (x + ")" + after);
    GroupCloses(x, after);
    NoSpaces();
    var t := OpName(op) + ("," + group);
    assert t[|t| - 1] == if after == "" then ')' else after[|after| - 1];
    assert OpName(op) + "" == OpName(op);
    RuleOfHead(op, "", group);
  }

  // Text without parentheses.
  predicate Flat(s: string) {
    '(' !in s && ')' !in s
  }

  lemma {:induction false} FlatScan(s: string, d: int)
    requires Flat(s)
    ensures Depth(s) == 0 && (d >= 0 ==> NonNeg(s, d)) && (d != 0 || '(' !in s ==> NoOpen(s, d))
  {
    if s != "" {
      assert s == [s[0]] + s[1..];
      FlatScan(s[1..], d);
    }
  }

  lemma {:induction false} NoOpenConcat(a: string, b: string, d: int)
    ensures NoOpen(a + b, d) <==> NoOpen(a, d) && NoOpen(b, d + Depth(a))
  {
    if a == "" {
      assert a + b == b;
    } else {
      assert (a + b)[1..] == a[1..] + b;
      NoOpenConcat(a[1..], b, d + Shift(a[0]));
    }
  }

  // x closes what was opened before it, and a second group is opened but not closed.
  lemma MiddleScan(x: string, y: string)
    requires Flat(x) && Flat(y)
    ensures NoOpen(x + (")" + ("," + ("(" + y))), 0)
    ensures NonNeg(x + (")" + ("," + ("(" + y))), 1) && Depth(x + (")" + ("," + ("(" + y)))) == 0
  {
    var tail, open := ")" + ("," + ("(" + y)), "(" + y;
    FlatScan(x, 0);
    FlatScan(x, 1);
    FlatScan(y, 0);
    FlatScan(y, 1);
    NoOpenConcat(x, tail, 0);
    NonNegConcat(x, tail, 1);
    DepthConcat(x, tail);
    assert tail[1..] == "," + open && ("," + open)[1..] == open && open[1..] == y;
    assert NoOpen(open, -1) && NoOpen("," + open, -1) && NoOpen(tail, 0);
    assert NonNeg(open, 0) && NonNeg("," + open, 0) && NonNeg(tail, 1);
    assert Depth(open) == 1 && Depth("," + open) == 1 && Depth(tail) == 0;
  }

  // A logical child is documented to hold a single group behind its operator. With two
  // groups it is accepted, and both are dropped: the first parenthesis and the last are
  // taken for one group.
  lemma TwoGroupsDropped(op: LogicalOp, x: string, y: string)
    requires Flat(x) && Flat(y)
    ensures var rest := x + (")" + ("," + ("(" + y)));
            ParseRuleExpr("(" + (OpName(op) + ("," + ("(" + rest + ")"))) + ")") == Ok(Logical(op, [], ""))
  {
    hide ParseRuleExpr, NoOpen, NonNeg, Depth;
    var rest := x + (")" + ("," + ("(" + y)));
    var expr := LogicalExpr(op, "", "", "", [], rest, "");
    MiddleScan(x, y);
    NoSpaces();
    NoKids();
    var inner := OpName(op) + ("," + ("(" + rest + ")"));
    assert ExprText(expr) == inner by { PlainText(expr); }
    InnerBalanced(op, rest);
    LogicalExprParses(expr);
    assert GroupText(expr) == "(" + inner + ")";
    assert ExprRule(expr) == Logical(op, [], "");
  }

  lemma NoKids()
    ensures KidsText([]) == "" && SoundKids([]) && KidsRules([]) == []
  {
  }

  lemma PlainText(expr: Expr)
    requires expr.LogicalExpr? && expr.before == "" && expr.after == "" && expr.gap == "" && expr.trail == "" && expr.children == []
    ensures ExprText(expr) == OpName(expr.op) + ("," + ("(" + expr.rest + ")"))
  {
    NoKids();
    hide KidsText;
    assert "" + OpName(expr.op) + "" == OpName(expr.op);
    assert KidsText([]) + expr.rest == expr.rest;
    assert "" + ("(" + expr.rest + ")") + "" == "(" + expr.rest + ")";
  }

  lemma InnerBalanced(op: LogicalOp, rest: string)
    requires NonNeg(rest, 1) && Depth(rest) == 0
    ensures Balanced(OpName(op) + ("," + ("(" + rest + ")")))
  {
    var group := "(" + rest + ")";
    WrapScan(rest);
    FlatScan(OpName(op), 0);
    hide NonNeg, Depth;
    NonNegConcat(OpName(op), "," + group, 0);
    DepthConcat(OpName(op), "," + group);
  }

  lemma WrapScan(rest: string)
    requires NonNeg(rest, 1) && Depth(rest) == 0
    ensures var t := "," + ("(" + rest + ")"); NonNeg(t, 0) && Depth(t) == 0
  {
    var tail := rest + ")";
    var group := "(" + tail;
    WrapTail(rest);
    assert group == "(" + rest + ")" && group[1..] == tail && ("," + group)[1..] == group;
    assert NonNeg(group, 0) && Depth(group) == 0;
  }

  lemma WrapTail(rest: string)
    requires NonNeg(rest, 1) && Depth(rest) == 0
    ensures NonNeg(rest + ")", 1) && Depth(rest + ")") == -1
  {
    assert ")"[1..] == "" && NonNeg(")", 1) && Depth(")") == -1;
    hide NonNeg, Depth;
    NonNegConcat(rest, ")", 1);
    DepthConcat(rest, ")");
  }
}

// White space in rule texts: every well-formed rule is read from each of its printings
// with white space around the tokens.
module RuleSpacing {
  import opened Outcome
  import opened Text
  import opened RuleParser
  import opened RuleRoundTrip
  import opened RuleGrammar

  // ----- spaced printings -----

  predicate AllSpaced(parts: seq<Padded>) {
    parts != [] ==> Spaces(parts[0].before) && Spaces(parts[0].after) && AllSpaced(parts[1..])
  }

  // White space and commas, as between the groups of a printed rule.
  predicate Between(s: string) {
    s != "" ==> (s[0] == ',' || IsSpace(s[0])) && Between(s[1..])
  }

  // The text of the layout is that of the child, with white space around any token.
  predicate LaysChild(expr: Expr, rule: Rule)
    decreases expr, 0
  {
    match expr
    case SimpleExpr(parts) =>
      rule.Simple? && rule.target == "" && AllSpaced(parts) && Texts(parts) == [rule.typ, rule.value] + rule.modifiers
    case LogicalExpr(op, before, after, gap, children, rest, trail) =>
      && rule.Logical? && rule.op == op && rule.target == "" && LaysChildren(children, rule.children)
      && Spaces(before) && Spaces(after) && Spaces(gap) && Spaces(trail) && Between(rest)
  }

  predicate LaysChildren(children: seq<Child>, rules: seq<Rule>)
    decreases children, 0
  {
    if children == [] then rules == []
    else
      assert children[0] in children;
      && rules != [] && Between(children[0].junk) && LaysChild(children[0].expr, rules[0])
      && LaysChildren(children[1..], rules[1..])
  }

  predicate Lays(body: Body, rule: Rule) {
    match body
    case MatchBody(target) => rule == Match(target.text) && Spaces(target.before) && Spaces(target.after)
    case SimpleBody(parts) =>
      rule.Simple? && AllSpaced(parts) && Texts(parts) == [rule.typ, rule.value, rule.target] + rule.modifiers
    case LogicalBody(op, after, gap, children, rest, target) =>
      && rule.Logical? && rule.op == op && rule.target == target.text && LaysChildren(children, rule.children)
      && Spaces(after) && Spaces(gap) && Spaces(target.before) && Spaces(target.after) && Between(rest)
  }

  // ----- balanced text -----

  lemma FlatBalanced(s: string)
    requires Flat(s)
    ensures Balanced(s) && Stray(s) && NoOpen(s, 0)
  {
    FlatScan(s, 0);
  }

  lemma {:induction false} SpacesFlat(s: string)
    ensures Spaces(s) ==> Between(s)
    ensures Between(s) ==> Flat(s)
  {
    if s != "" {
      SpacesFlat(s[1..]);
      assert s == [s[0]] + s[1..];
    }
  }

  lemma BalancedConcat(a: string, b: string)
    requires Balanced(a) && Balanced(b)
    ensures Balanced(a + b)
  {
    DepthConcat(a, b);
    NonNegConcat(a, b, 0);
  }

  lemma BalancedGroup(x: string)
    requires Balanced(x)
    ensures Balanced("(" + x + ")")
  {
    hide NonNeg, Depth;
    var g := "(" + (x + ")");
    assert "(" + x + ")" == g;
    DepthConcat("(", x + ")");
    DepthConcat(x, ")");
    NonNegConcat("(", x + ")", 0);
    NonNegConcat(x, ")", 1);
    NonNegRaise(x, 0, 1);
    OneParen();
  }

  lemma OneParen()
    ensures Depth("(") == 1 && Depth(")") == -1 && NonNeg("(", 0) && NonNeg(")", 1)
  {
    assert "("[1..] == "" && ")"[1..] == "";
  }

  lemma PaddedNonNeg(p: Padded, d: int)
    requires IsPadded(p)
    ensures d >= 0 ==> (NonNeg(Written(p), d) <==> NonNeg(p.text, d))
  {
    SpacesAll(p.before);
    SpacesAll(p.after);
    SpaceIsFlat(p.before, d);
    SpaceIsFlat(p.after, d + Depth(p.text));
    NonNegConcat(p.before, p.text + p.after, d);
    NonNegConcat(p.text, p.after, d);
    if NonNeg(p.text, d) {
      NonNegEnd(p.text, d);
    }
  }

  // White space around the parts changes no depth.
  lemma {:induction false} JoinPadded(parts: seq<Padded>, d: int)
    requires AllPadded(parts) && parts != []
    ensures Depth(Join(AllWritten(parts), ",")) == Depth(Join(Texts(parts), ","))
    ensures d >= 0 ==> (NonNeg(Join(AllWritten(parts), ","), d) <==> NonNeg(Join(Texts(parts), ","), d))
  {
    hide NonNeg, Depth, Written, IsPadded;
    var written, texts := AllWritten(parts), Texts(parts);
    PaddedScan(parts[0], d);
    PaddedNonNeg(parts[0], d);
    assert written[1..] == AllWritten(parts[1..]) && texts[1..] == Texts(parts[1..]);
    if |parts| > 1 {
      var e := d + Depth(parts[0].text);
      JoinPadded(parts[1..], e);
      JoinScan(written, d);
      JoinScan(texts, d);
      if d >= 0 && NonNeg(parts[0].text, d) {
        NonNegEnd(parts[0].text, d);
      }
    }
  }

  // ----- spaced printings are texts of the grammar -----

  lemma {:induction false} SpacedPadded(parts: seq<Padded>)
    requires AllSpaced(parts) && AllTrimmed(Texts(parts))
    ensures AllPadded(parts)
  {
    if parts != [] {
      assert Texts(parts)[1..] == Texts(parts[1..]);
      SpacedPadded(parts[1..]);
    }
  }

  lemma {:induction false} ChildSound(expr: Expr, rule: Rule)
    requires LaysChild(expr, rule) && WellFormedChild(rule)
    ensures SoundExpr(expr) && Balanced(ExprText(expr)) && ExprRule(expr) == rule
    decreases expr, 0
  {
    match expr
    case SimpleExpr(parts) => SimpleChildSound(parts, rule);
    case LogicalExpr(op, before, after, gap, children, rest, trail) =>
      ChildrenSound(children, rule.children);
      hide Balanced, ExprText, KidsText, Between, Flat, NoOpen;
      SpacesFlat(before);
      SpacesFlat(after);
      SpacesFlat(gap);
      SpacesFlat(trail);
      SpacesFlat(rest);
      FlatBalanced(rest);
      LogicalTextBalanced(op, before, after, gap, children, rest, trail);
  }

  lemma SimpleChildSound(parts: seq<Padded>, rule: Rule)
    requires LaysChild(SimpleExpr(parts), rule) && WellFormedChild(rule)
    ensures var expr := SimpleExpr(parts); SoundExpr(expr) && Balanced(ExprText(expr)) && ExprRule(expr) == rule
  {
    hide TopParts, AllPadded, AllTrimmed, AllSpaced, OpOf, NonNeg, Depth, Join;
    var texts := Texts(parts);
    assert texts[0] == rule.typ && texts[1] == rule.value && texts[2..] == rule.modifiers;
    SpacedPadded(parts);
    JoinPadded(parts, 0);
  }

  lemma LogicalTextBalanced(op: LogicalOp, before: string, after: string, gap: string, children: seq<Child>, rest: string, trail: string)
    requires Flat(before) && Flat(after) && Flat(gap) && Flat(trail) && Flat(rest) && Balanced(KidsText(children))
    ensures Balanced(ExprText(LogicalExpr(op, before, after, gap, children, rest, trail)))
  {
    hide Balanced, KidsText, Flat;
    var x := KidsText(children) + rest;
    FlatBalanced(before);
    FlatBalanced(after);
    FlatBalanced(gap);
    FlatBalanced(trail);
    FlatBalanced(rest);
    NameFlat(op);
    BalancedConcat(KidsText(children), rest);
    BalancedGroup(x);
    BalancedConcat(gap, "(" + x + ")");
    BalancedConcat(gap + ("(" + x + ")"), trail);
    BalancedConcat(before, OpName(op));
    BalancedConcat(before + OpName(op), after);
    BalancedConcat(",", gap + ("(" + x + ")") + trail);
    BalancedConcat(before + OpName(op) + after, "," + (gap + ("(" + x + ")") + trail));
  }

  lemma NameFlat(op: LogicalOp)
    ensures Balanced(OpName(op)) && Balanced(",")
  {
    FlatBalanced(OpName(op));
    FlatBalanced(",");
  }

  lemma {:induction false} ChildrenSound(children: seq<Child>, rules: seq<Rule>)
    requires LaysChildren(children, rules) && forall r :: r in rules ==> WellFormedChild(r)
    ensures SoundKids(children) && KidsRules(children) == rules && Balanced(KidsText(children))
    decreases children, 0
  {
    if children == [] {
      FlatBalanced("");
    } else {
      assert children[0] in children;
      ChildSound(children[0].expr, rules[0]);
      ChildrenSound(children[1..], rules[1..]);
      hide Balanced, ExprText, SoundExpr, WellFormedChild, Flat, Between, ExprRule, LaysChild;
      SpacesFlat(children[0].junk);
      FlatBalanced(children[0].junk);
      BalancedGroup(ExprText(children[0].expr));
      BalancedConcat(GroupText(children[0].expr), KidsText(children[1..]));
      BalancedConcat(children[0].junk, GroupText(children[0].expr) + KidsText(children[1..]));
      assert rules == [rules[0]] + rules[1..];
    }
  }

  lemma PaddedName(p: Padded)
    requires IsPadded(p) && p.text != "MATCH"
    ensures Written(p) != "MATCH"
  {
    TrimPadded(p);
    TrimTrimmed("MATCH");
  }

  lemma BodySound(body: Body, rule: Rule)
    requires Lays(body, rule) && WellFormed(rule)
    ensures SoundBody(body) && BodyRule(body) == rule
  {
    match body
    case MatchBody(target) =>
    case SimpleBody(parts) => SimpleBodySound(parts, rule);
    case LogicalBody(op, after, gap, children, rest, target) =>
      ChildrenSound(children, rule.children);
      hide Balanced, KidsText, Between, Flat, NoOpen;
      SpacesFlat(rest);
      FlatBalanced(rest);
      BalancedConcat(KidsText(children), rest);
  }

  lemma SimpleBodySound(parts: seq<Padded>, rule: Rule)
    requires Lays(SimpleBody(parts), rule) && WellFormed(rule)
    ensures SoundBody(SimpleBody(parts)) && BodyRule(SimpleBody(parts)) == rule
  {
    hide TopParts, AllTrimmed, AllSpaced, OpOf, Trimmed, Spaces, Written;
    var texts := Texts(parts);
    assert texts[0] == rule.typ && texts[1] == rule.value && texts[2] == rule.target && texts[3..] == rule.modifiers;
    SpacedPadded(parts);
    PaddedName(parts[0]);
  }

  // Every well-formed rule is read from each of its printings with white space around any
  // operator, type, value, target and modifier and around any group, at every depth, and
  // around the whole; but for the comma behind the children, which no layout of a body
  // separates from them.
  lemma SpacedPrintingParses(rule: Rule, lead: string, body: Body, trail: string)
    requires WellFormed(rule) && Lays(body, rule)
    requires Spaces(lead) && Spaces(trail) && Trimmed(BodyText(body))
    ensures ParseRule(lead + BodyText(body) + trail) == Ok(rule)
  {
    hide Lays, SoundBody, WellFormed, BodyText, Trimmed, Spaces, ParseRule, BodyRule;
    BodySound(body, rule);
    BodyParses(lead, body, trail);
  }

  // ----- the printer's own layout -----

  function Bare(text: string): Padded {
    Padded("", text, "")
  }

  function AllBare(texts: seq<string>): (r: seq<Padded>) {
    if texts == [] then [] else [Bare(texts[0])] + AllBare(texts[1..])
  }

  lemma {:induction false} BareParts(texts: seq<string>)
    ensures AllSpaced(AllBare(texts)) && Texts(AllBare(texts)) == texts && AllWritten(AllBare(texts)) == texts
  {
    if texts != [] {
      BareParts(texts[1..]);
      assert AllBare(texts)[1..] == AllBare(texts[1..]);
      assert "" + (texts[0] + "") == texts[0];
      assert texts == [texts[0]] + texts[1..];
    }
  }

  lemma {:induction false} PlainChild(rule: Rule) returns (expr: Expr)
    requires WellFormedChild(rule)
    ensures LaysChild(expr, rule) && GroupText(expr) == SerializeChild(rule)
    decreases rule, 1
  {
    match rule
    case Simple(typ, value, _, modifiers) =>
      BareParts([typ, value] + modifiers);
      expr := SimpleExpr(AllBare([typ, value] + modifiers));
    case Logical(op, children, _) =>
      var kids := PlainChildren(children, "");
      expr := LogicalExpr(op, "", "", "", kids, "", "");
      hide Join, SerializeChildren, KidsText, LaysChildren;
      PlainLogical(op, KidsText(kids));
      assert KidsText(kids) == Join(SerializeChildren(children), ",");
  }

  lemma PlainLogical(op: LogicalOp, x: string)
    ensures "" + OpName(op) + "" + ("," + ("" + ("(" + (x + "") + ")") + "")) == OpName(op) + ",(" + x + ")"
  {
    assert x + "" == x;
    assert "" + OpName(op) + "" == OpName(op);
    assert "" + ("(" + x + ")") + "" == "(" + x + ")";
    assert OpName(op) + ("," + ("(" + x + ")")) == OpName(op) + ",(" + x + ")";
  }

  // sep is the text before the first group.
  lemma {:induction false} PlainChildren(rules: seq<Rule>, sep: string) returns (children: seq<Child>)
    requires Between(sep) && forall r :: r in rules ==> WellFormedChild(r)
    ensures LaysChildren(children, rules)
    ensures KidsText(children) == if rules == [] then "" else sep + Join(SerializeChildren(rules), ",")
    decreases rules, 0
  {
    if rules == [] {
      children := [];
    } else {
      var expr := PlainChild(rules[0]);
      assert Between(",") by { assert ","[1..] == ""; }
      var rest := PlainChildren(rules[1..], ",");
      children := [Child(sep, expr)] + rest;
      assert children[1..] == rest;
      hide LaysChild, GroupText, SerializeChild, Between, WellFormedChild;
      var texts := SerializeChildren(rules);
      assert texts[1..] == SerializeChildren(rules[1..]);
      if |rules| > 1 {
        JoinCons(texts, ",");
      } else {
        assert GroupText(expr) + "" == GroupText(expr);
      }
    }
  }

  // What the printer writes is one of these.
  lemma PrintedIsLaid(rule: Rule) returns (body: Body)
    requires WellFormed(rule)
    ensures Lays(body, rule) && BodyText(body) == SerializeRule(rule)
  {
    match rule
    case Match(target) =>
      body := MatchBody(Bare(target));
      assert "" + (target + "") == target;
    case Simple(typ, value, target, modifiers) =>
      BareParts([typ, value, target] + modifiers);
      body := SimpleBody(AllBare([typ, value, target] + modifiers));
    case Logical(op, children, target) =>
      var kids := PlainChildren(children, "");
      body := LogicalBody(op, "", "", kids, "", Bare(target));
      hide Join, SerializeChildren, KidsText, LaysChildren;
      PlainLogicalBody(op, KidsText(kids), target);
      assert KidsText(kids) == Join(SerializeChildren(children), ",");
  }

  lemma PlainLogicalBody(op: LogicalOp, x: string, target: string)
    ensures OpName(op) + "" + ("," + ("" + ("(" + ((x + "") + ")" + ("," + ("" + (target + ""))))))) ==
            OpName(op) + ",(" + x + ")," + target
  {
    assert x + "" == x && target + "" == target && "" + target == target && OpName(op) + "" == OpName(op);
    assert x + ")" + ("," + target) == x + ")," + target;
    assert "" + ("(" + (x + ")," + target)) == "(" + (x + ")," + target);
    assert OpName(op) + ("," + ("(" + (x + ")," + target))) == OpName(op) + ",(" + x + ")," + target;
  }
}

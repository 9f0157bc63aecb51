// Parser and printer of rule strings (packages/shared/src/parser/rule-parser.ts).
module RuleParser {
  import opened Outcome
  import opened Text

  datatype LogicalOp = And | Or | Not

  datatype Rule =
    | Simple(typ: string, value: string, target: string, modifiers: seq<string>)
    | Logical(op: LogicalOp, children: seq<Rule>, target: string)
    | Match(target: string)

  datatype ParseError =
    | EmptyRule
    | MatchTargetEmpty
    | NoSeparator
    | ChildrenNotOpened
    | Unbalanced
    | TargetMissing
    | TargetEmpty
    | TooFewParts
    | ValueEmpty
    | ChildNotWrapped
    | ChildMalformed
    | ChildrenNotWrapped

  type Parsed = Result<Rule, ParseError>

  function OpName(op: LogicalOp): string {
    match op
    case And => "AND"
    case Or => "OR"
    case Not => "NOT"
  }

  function OpOf(head: string): Option<LogicalOp> {
    if head == "AND" then Some(And)
    else if head == "OR" then Some(Or)
    else if head == "NOT" then Some(Not)
    else None
  }

  const MATCH_PREFIX: string := "MATCH,"

  // ----- scanning by parenthesis depth -----

  function Shift(c: char): int {
    if c == '(' then 1 else if c == ')' then -1 else 0
  }

  // Cuts s at the commas met at depth 0, when the scan starts at depth d.
  function SplitTop(s: string, d: int): (parts: seq<string>)
    ensures |parts| >= 1
  {
    if s == "" then [""]
    else if s[0] == ',' && d == 0 then [""] + SplitTop(s[1..], 0)
    else
      Glue([s[0]], SplitTop(s[1..], d + Shift(s[0])))
  }

  // Prepends text to the first part.
  function Glue(prefix: string, parts: seq<string>): (r: seq<string>)
    requires |parts| >= 1
  {
    [prefix + parts[0]] + parts[1..]
  }

  lemma GlueNothing(parts: seq<string>)
    requires |parts| >= 1
    ensures Glue("", parts) == parts
  {
    assert "" + parts[0] == parts[0];
    assert [parts[0]] + parts[1..] == parts;
  }

  function TopLevelParts(s: string): seq<string> {
    if s == "" then [] else MapTrim(SplitTop(s, 0))
  }

  // The parenthesised groups of s: text from a '(' met at depth 0 to the ')'
  // that returns to depth 0. At depth d >= 1, cur is the open group so far.
  function Groups(s: string, d: int, cur: string): (gs: seq<string>) {
    if s == "" then []
    else if s[0] == '(' && d == 0 then Groups(s[1..], 1, "(")
    else if s[0] == ')' && d == 1 then [cur + ")"] + Groups(s[1..], 0, "")
    else Groups(s[1..], d + Shift(s[0]), if d > 0 then cur + [s[0]] else cur)
  }

  ghost predicate AllShorter(gs: seq<string>, limit: nat) {
    gs != [] ==> |gs[0]| < limit && AllShorter(gs[1..], limit)
  }

  lemma {:induction false} GroupsShorter(s: string, d: int, cur: string, limit: nat)
    requires |cur| + |s| < limit
    ensures AllShorter(Groups(s, d, cur), limit)
  {
    if s == "" {
    } else if s[0] == '(' && d == 0 {
      GroupsShorter(s[1..], 1, "(", limit);
    } else if s[0] == ')' && d == 1 {
      GroupsShorter(s[1..], 0, "", limit);
      assert Groups(s, d, cur)[1..] == Groups(s[1..], 0, "");
    } else {
      GroupsShorter(s[1..], d + Shift(s[0]), if d > 0 then cur + [s[0]] else cur, limit);
    }
  }

  function ChildGroups(inner: string): (gs: seq<string>)
    ensures AllShorter(gs, |inner| + 1)
  {
    GroupsShorter(inner, 0, "", |inner| + 1);
    Groups(inner, 0, "")
  }

  lemma {:induction false} ShorterMonotone(gs: seq<string>, m: nat, n: nat)
    requires m <= n && AllShorter(gs, m)
    ensures AllShorter(gs, n)
  {
    if gs != [] {
      ShorterMonotone(gs[1..], m, n);
    }
  }

  // Index of the first ')' that brings the depth to 0, or -1.
  function Close(s: string, d: int): (i: int)
    ensures -1 <= i < |s|
    ensures i >= 0 ==> s[i] == ')'
  {
    if s == "" then -1
    else if s[0] == ')' && d == 1 then 0
    else
      var k := Close(s[1..], d + Shift(s[0]));
      if k == -1 then -1 else k + 1
  }

  // ----- the scanning loops -----

  // One step of the loop: a top-level comma ends the open part s[start..i], any
  // other character extends it.
  lemma SplitTopStep(s: string, start: nat, i: nat, d: int)
    requires start <= i < |s|
    ensures var open := Glue(s[start..i], SplitTop(s[i..], d));
            if s[i] == ',' && d == 0
            then open == [s[start..i]] + Glue(s[i + 1..i + 1], SplitTop(s[i + 1..], 0))
            else open == Glue(s[start..i + 1], SplitTop(s[i + 1..], d + Shift(s[i])))
  {
    assert s[i..][1..] == s[i + 1..];
    if s[i] == ',' && d == 0 {
      var rest := SplitTop(s[i + 1..], 0);
      GlueNothing(rest);
      assert s[i + 1..i + 1] == "";
      assert s[start..i] + "" == s[start..i];
      assert ([""] + rest)[1..] == rest;
    } else {
      var rest := SplitTop(s[i + 1..], d + Shift(s[i]));
      assert s[start..i] + ([s[i]] + rest[0]) == s[start..i + 1] + rest[0];
      assert Glue([s[i]], rest)[1..] == rest[1..];
    }
  }

  // What is left after the last comma is the last part.
  lemma SplitTopEnd(s: string, start: nat, d: int)
    requires start <= |s|
    ensures s[start..] == s[start..|s|] && s[|s|..] == ""
    ensures Glue(s[start..|s|], SplitTop(s[|s|..], d)) == [s[start..]]
  {
    assert s[start..|s|] + "" == s[start..];
  }

  method SplitTopLevel(s: string) returns (parts: seq<string>)
    ensures parts == TopLevelParts(s)
  {
    hide SplitTop, Glue, MapTrim;
    var out: seq<string> := [];
    var depth := 0;
    var start := 0;
    var i := 0;
    assert s[0..] == s;
    GlueNothing(SplitTop(s, 0));
    while i < |s|
      invariant 0 <= start <= i <= |s|
      invariant i == 0 ==> out == []
      invariant SplitTop(s, 0) == out + Glue(s[start..i], SplitTop(s[i..], depth))
    {
      var c := s[i];
      SplitTopStep(s, start, i, depth);
      if c == '(' {
        depth := depth + 1;
      } else if c == ')' {
        depth := depth - 1;
      } else if c == ',' && depth == 0 {
        ConcatAssoc(out, [s[start..i]], Glue(s[i + 1..i + 1], SplitTop(s[i + 1..], 0)));
        out := out + [s[start..i]];
        start := i + 1;
      }
      i := i + 1;
    }
    if |s| > 0 {
      SplitTopEnd(s, start, depth);
      out := out + [s[start..]];
    }
    parts := MapTrim(out);
  }

  method SplitChildren(inner: string) returns (groups: seq<string>)
    ensures groups == ChildGroups(inner)
  {
    groups := [];
    var depth := 0;
    var start := -1;
    ghost var cur := "";
    var i := 0;
    assert inner[0..] == inner;
    while i < |inner|
      invariant 0 <= i <= |inner|
      invariant start >= 0 <==> depth >= 1
      invariant -1 <= start <= i
      invariant start >= 0 ==> cur == inner[start..i]
      invariant Groups(inner, 0, "") == groups + Groups(inner[i..], depth, cur)
    {
      var c := inner[i];
      assert inner[i..][1..] == inner[i + 1..] && inner[i..][0] == c;
      ghost var grown := cur + [c];
      assert start >= 0 ==> inner[start..i + 1] == grown;
      if c == '(' {
        if depth == 0 {
          start := i;
          cur := "(";
          assert inner[i..i + 1] == cur;
        } else if depth > 0 {
          cur := grown;
        }
        depth := depth + 1;
      } else if c == ')' {
        depth := depth - 1;
        if depth == 0 && start >= 0 {
          groups := groups + [inner[start..i + 1]];
          start := -1;
          cur := "";
        } else if depth >= 0 {
          cur := grown;
        }
      } else if depth > 0 {
        cur := grown;
      }
      i := i + 1;
    }
    assert inner[i..] == "";
  }

  // The search for the parenthesis that closes a top-level children group.
  method FindClose(s: string) returns (close: int)
    ensures close == Close(s, 0)
  {
    var depth := 0;
    close := -1;
    var i := 0;
    assert s[0..] == s;
    while i < |s|
      invariant 0 <= i <= |s|
      invariant var k := Close(s[i..], depth);
                Close(s, 0) == if k == -1 then -1 else i + k
    {
      assert s[i..][1..] == s[i + 1..];
      if s[i] == '(' {
        depth := depth + 1;
      } else if s[i] == ')' {
        depth := depth - 1;
        if depth == 0 {
          close := i;
          break;
        }
      }
      i := i + 1;
    }
  }

  // ----- parsing -----

  function ParseRuleExpr(expr: string): (r: Parsed)
    decreases |expr| + 1, 0, 0
  {
    var trimmed := Trim(expr);
    if !Wrapped(trimmed) then Err(ChildNotWrapped)
    else ParseChildBody(Unwrap(trimmed), |expr|)
  }

  // startsWith('(') && endsWith(')')
  predicate Wrapped(s: string) {
    |s| >= 2 && s[0] == '(' && s[|s| - 1] == ')'
  }

  function Unwrap(s: string): string
    requires Wrapped(s)
  {
    s[1..|s| - 1]
  }

  function ParseChildBody(inner: string, ghost limit: nat): (r: Parsed)
    requires |inner| < limit
    decreases limit, 3, 0
  {
    var firstComma := IndexOf(inner, ',');
    if firstComma < 0 then Err(ChildMalformed)
    else
      var op := OpOf(Trim(inner[..firstComma]));
      if op.Some? then ParseLogicalChild(op.value, Trim(inner[firstComma + 1..]), limit)
      else ParseSimpleChild(TopLevelParts(inner))
  }

  function ParseLogicalChild(op: LogicalOp, rest: string, ghost limit: nat): (r: Parsed)
    requires |rest| < limit
    decreases limit, 2, 0
  {
    if !Wrapped(rest) then Err(ChildrenNotWrapped)
    else
      ShorterMonotone(ChildGroups(Unwrap(rest)), |Unwrap(rest)| + 1, limit);
      var children :- ParseChildren(ChildGroups(Unwrap(rest)), limit);
      Ok(Logical(op, children, ""))
  }

  function ParseSimpleChild(parts: seq<string>): (r: Parsed) {
    if |parts| < 2 then Err(TooFewParts)
    else if parts[1] == "" then Err(ValueEmpty)
    else Ok(Simple(parts[0], parts[1], "", parts[2..]))
  }

  function ParseChildren(groups: seq<string>, ghost limit: nat): (r: Result<seq<Rule>, ParseError>)
    requires AllShorter(groups, limit)
    decreases limit, 1, |groups|
  {
    if groups == [] then Ok([])
    else
      var first :- ParseRuleExpr(groups[0]);
      var rest :- ParseChildren(groups[1..], limit);
      Ok([first] + rest)
  }

  function ParseRule(raw: string): (r: Parsed) {
    var trimmed := Trim(raw);
    if trimmed == "" then Err(EmptyRule)
    else if StartsWith(trimmed, MATCH_PREFIX) then
      var target := Trim(trimmed[|MATCH_PREFIX|..]);
      if target == "" then Err(MatchTargetEmpty) else Ok(Match(target))
    else
      var firstComma := IndexOf(trimmed, ',');
      if firstComma < 0 then Err(NoSeparator)
      else
        var op := OpOf(Trim(trimmed[..firstComma]));
        if op.Some? then ParseLogical(op.value, trimmed[firstComma + 1..])
        else ParseSimple(TopLevelParts(trimmed))
  }

  function ParseLogical(op: LogicalOp, rest: string): (r: Parsed) {
    var restTrim := TrimStart(rest);
    if restTrim == "" || restTrim[0] != '(' then Err(ChildrenNotOpened)
    else
      var close := Close(restTrim, 0);
      if close < 0 then Err(Unbalanced)
      else
        var afterGroup := restTrim[close + 1..];
        if afterGroup == "" || afterGroup[0] != ',' then Err(TargetMissing)
        else
          var target := Trim(afterGroup[1..]);
          if target == "" then Err(TargetEmpty)
          else
            assert close >= 1;
            ShorterMonotone(ChildGroups(restTrim[1..close]), close, |restTrim|);
            var children :- ParseChildren(ChildGroups(restTrim[1..close]), |restTrim|);
            Ok(Logical(op, children, target))
  }

  function ParseSimple(parts: seq<string>): (r: Parsed) {
    if |parts| < 3 then Err(TooFewParts)
    else if parts[1] == "" then Err(ValueEmpty)
    else if parts[2] == "" then Err(TargetEmpty)
    else Ok(Simple(parts[0], parts[1], parts[2], parts[3..]))
  }

  // ----- printing -----

  function SerializeRule(rule: Rule): string {
    match rule
    case Match(target) => MATCH_PREFIX + target
    case Simple(typ, value, target, modifiers) => Join([typ, value, target] + modifiers, ",")
    case Logical(op, children, target) =>
      OpName(op) + ",(" + Join(SerializeChildren(children), ",") + ")," + target
  }

  function SerializeChild(rule: Rule): string
    decreases rule, 1
  {
    match rule
    case Match(target) => "(" + MATCH_PREFIX + target + ")"
    case Simple(typ, value, _, modifiers) => "(" + Join([typ, value] + modifiers, ",") + ")"
    case Logical(op, children, _) =>
      "(" + (OpName(op) + ",(" + Join(SerializeChildren(children), ",") + ")") + ")"
  }

  function SerializeChildren(rules: seq<Rule>): (r: seq<string>)
    ensures |r| == |rules|
    decreases rules, 0
  {
    if rules == [] then [] else [SerializeChild(rules[0])] + SerializeChildren(rules[1..])
  }
}

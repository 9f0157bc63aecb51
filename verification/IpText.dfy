// Which texts are addresses, and of which value (ipToBigInt in
// apps/server/src/auth/trust-proxy.ts).
module IpText {
  import opened Outcome
  import opened Text
  import opened Bits
  import opened TrustProxy

  // ----- what parts are worth -----

  lemma FoldSnoc(values: seq<Option<nat>>, last: Option<nat>, bits: nat)
    ensures Fold(values + [last], bits) ==
            var high := Fold(values, bits);
            if high.Some? && last.Some? then Some(high.value * Pow2(bits) + last.value) else None
  {
    hide Pow2;
    assert (values + [last])[..|values|] == values;
  }

  // Four octets, most significant first.
  lemma FourOctets(num: Reading, a: string, b: string, c: string, d: string)
    requires AllFree([a, b, c, d], '.')
    ensures AddressValue(num, Join([a, b, c, d], "."), V4) ==
            var w, x, y, z := OctetValue(num, a), OctetValue(num, b), OctetValue(num, c), OctetValue(num, d);
            if w.Some? && x.Some? && y.Some? && z.Some? then Some(((w.value * 256 + x.value) * 256 + y.value) * 256 + z.value) else None
  {
    hide Pow2, Fold, OctetValue, AllFree, Join, SplitChar;
    SplitCharJoin([a, b, c, d], '.');
    var w, x, y, z := OctetValue(num, a), OctetValue(num, b), OctetValue(num, c), OctetValue(num, d);
    assert Octets(num, [a, b, c, d]) == [w, x, y, z];
    Pow2Eight();
    NoValues();
    assert [] + [w] == [w] && [w] + [x] == [w, x] && [w, x] + [y] == [w, x, y] && [w, x, y] + [z] == [w, x, y, z];
    FoldSnoc([], w, 8);
    FoldSnoc([w], x, 8);
    FoldSnoc([w, x], y, 8);
    FoldSnoc([w, x, y], z, 8);
  }

  lemma NoValues()
    ensures Fold([], 8) == Some(0) && Fold([], 16) == Some(0)
  {
  }

  const DIGITS: string := "0123456789abcdef"

  // The hexadecimal text of a number below 16^n, with n digits.
  function HexText(x: nat, n: nat): string {
    if n == 0 then "" else HexText(x / 16, n - 1) + [DIGITS[x % 16]]
  }

  lemma HexSnoc(high: string, c: char)
    ensures HexValue(high + [c]) ==
            if HexValue(high).Some? && HexDigit(c).Some? then Some(16 * HexValue(high).value + HexDigit(c).value) else None
  {
    hide HexDigit;
    assert (high + [c])[..|high|] == high;
  }

  lemma HexTextSnoc(x: nat, n: nat)
    requires n > 0
    ensures HexText(x, n) == HexText(x / 16, n - 1) + [DIGITS[x % 16]]
  {
  }

  // Eight groups, most significant first.
  lemma {:induction false} GroupsWorth(values: seq<nat>)
    ensures Fold(Present(values), 16) == Some(Worth(values))
    decreases |values|
  {
    if values != [] {
      var init, last := values[..|values| - 1], values[|values| - 1];
      GroupsWorth(init);
      FoldSnoc(Present(init), Some(last), 16);
      assert Present(values) == Present(init) + [Some(last)];
      Pow2Sixteen();
      hide Pow2, Fold;
    }
  }

  function Present(values: seq<nat>): (r: seq<Option<nat>>)
    ensures |r| == |values| && forall i :: 0 <= i < |values| ==> r[i] == Some(values[i])
  {
    seq(|values|, i requires 0 <= i < |values| => Some(values[i]))
  }

  function Worth(values: seq<nat>): nat {
    if values == [] then 0 else Worth(values[..|values| - 1]) * 65536 + values[|values| - 1]
  }

  lemma Pow2Sixteen()
    ensures Pow2(16) == 65536
  {
    Pow2Eight();
    Pow2Add(8, 8);
  }

  // ----- four octets -----

  ghost predicate IsOctet(num: Reading, part: string, n: nat) {
    num(part) == Some(n) && n <= 255
  }

  ghost predicate IsQuad(num: Reading, addr: string, parts: seq<string>, ns: seq<nat>, v: nat) {
    && |parts| == |ns| == 4 && AllFree(parts, '.') && addr == Join(parts, ".")
    && (forall i :: 0 <= i < 4 ==> IsOctet(num, parts[i], ns[i]))
    && v == ns[0] * 16_777_216 + ns[1] * 65_536 + ns[2] * 256 + ns[3]
  }

  lemma OctetIff(num: Reading, part: string, n: nat)
    ensures OctetValue(num, part) == Some(n) <==> IsOctet(num, part, n)
  {
  }

  // An IPv4 address is four parts between dots that read as numbers up to 255.
  lemma V4Iff(num: Reading, addr: string, v: nat)
    ensures AddressValue(num, addr, V4) == Some(v) <==> exists parts, ns :: IsQuad(num, addr, parts, ns, v)
  {
    hide IsQuad;
    if AddressValue(num, addr, V4) == Some(v) {
      var ns := QuadOf(num, addr, v);
    }
    if parts, ns :| IsQuad(num, addr, parts, ns, v) {
      QuadReads(num, addr, parts, ns, v);
    }
  }

  lemma Listed4(parts: seq<string>)
    requires |parts| == 4
    ensures parts == [parts[0], parts[1], parts[2], parts[3]]
  {
  }

  lemma QuadOf(num: Reading, addr: string, v: nat) returns (ns: seq<nat>)
    requires AddressValue(num, addr, V4) == Some(v)
    ensures IsQuad(num, addr, SplitChar(addr, '.'), ns, v)
  {
    hide Fold, SplitChar, Join, AllFree, OctetValue, Pow2, IsOctet;
    var parts := SplitChar(addr, '.');
    SplitCharParts(addr, '.');
    Listed4(parts);
    FourOctets(num, parts[0], parts[1], parts[2], parts[3]);
    var w, x, y, z := OctetValue(num, parts[0]), OctetValue(num, parts[1]), OctetValue(num, parts[2]), OctetValue(num, parts[3]);
    ns := [w.value, x.value, y.value, z.value];
    OctetIff(num, parts[0], ns[0]);
    OctetIff(num, parts[1], ns[1]);
    OctetIff(num, parts[2], ns[2]);
    OctetIff(num, parts[3], ns[3]);
  }

  lemma QuadReads(num: Reading, addr: string, parts: seq<string>, ns: seq<nat>, v: nat)
    requires IsQuad(num, addr, parts, ns, v)
    ensures AddressValue(num, addr, V4) == Some(v)
  {
    hide AddressValue, Join, AllFree, OctetValue, IsOctet;
    Listed4(parts);
    FourOctets(num, parts[0], parts[1], parts[2], parts[3]);
    OctetIff(num, parts[0], ns[0]);
    OctetIff(num, parts[1], ns[1]);
    OctetIff(num, parts[2], ns[2]);
    OctetIff(num, parts[3], ns[3]);
  }

  // ----- groups of hexadecimal digits -----

  function LowerDigit(c: char): char {
    match c
    case 'A' => 'a' case 'B' => 'b' case 'C' => 'c' case 'D' => 'd' case 'E' => 'e' case 'F' => 'f'
    case _ => c
  }

  function Lower(s: string): (r: string)
    ensures |r| == |s|
  {
    if s == "" then "" else Lower(s[..|s| - 1]) + [LowerDigit(s[|s| - 1])]
  }

  // One to four digits that, with small letters, are the number written in base 16 with
  // as many digits.
  ghost predicate IsGroup(g: string, n: nat) {
    1 <= |g| <= 4 && n < Pow2(4 * |g|) && Lower(g) == HexText(n, |g|)
  }

  lemma DigitIff(c: char, x: nat)
    requires x < 16
    ensures HexDigit(c) == Some(x) <==> LowerDigit(c) == DIGITS[x]
  {
  }

  lemma {:induction false} HexIff(g: string, n: nat)
    ensures HexValue(g) == Some(n) <==> n < Pow2(4 * |g|) && Lower(g) == HexText(n, |g|)
    decreases |g|
  {
    hide HexDigit, LowerDigit, Pow2, HexText, DIGITS, Lower, HexValue;
    if g == "" {
      NothingWritten(n);
    } else {
      var high, c := g[..|g| - 1], g[|g| - 1];
      assert g == high + [c];
      HexStep(|high|);
      SixteenDigits();
      HexIff(high, n / 16);
      DigitIff(c, n % 16);
      HexSnoc(high, c);
      HexTextSnoc(n, |g|);
      LowerSnoc(g);
      SixteenthIff(n, Pow2(4 * |high|));
      HexDigitSmall(c);
      if HexValue(high).Some? && HexDigit(c).Some? {
        SixteenthOf(n, HexValue(high).value, HexDigit(c).value);
      }
      SameSnoc(Lower(high), HexText(n / 16, |high|), LowerDigit(c), DIGITS[n % 16]);
    }
  }

  lemma SixteenDigits()
    ensures |DIGITS| == 16
  {
  }

  lemma HexDigitSmall(c: char)
    ensures HexDigit(c).Some? ==> HexDigit(c).value < 16
  {
  }

  lemma NothingWritten(n: nat)
    ensures |DIGITS| == 16
    ensures HexValue("") == Some(0) && Lower("") == "" && HexText(n, 0) == "" && Pow2(4 * 0) == 1
  {
  }

  lemma LowerSnoc(g: string)
    requires g != ""
    ensures Lower(g) == Lower(g[..|g| - 1]) + [LowerDigit(g[|g| - 1])]
  {
  }

  lemma SixteenthIff(n: nat, k: nat)
    ensures n < 16 * k <==> n / 16 < k
  {
  }

  lemma SixteenthOf(n: nat, high: nat, low: nat)
    requires low < 16
    ensures 16 * high + low == n <==> high == n / 16 && low == n % 16
  {
  }

  lemma SameSnoc(a: string, b: string, c: char, d: char)
    ensures a + [c] == b + [d] <==> a == b && c == d
  {
    if a + [c] == b + [d] {
      assert a == (a + [c])[..|a|] && b == (b + [d])[..|b|];
      assert c == (a + [c])[|a|] && d == (b + [d])[|b|];
    }
  }

  lemma GroupIff(g: string, n: nat)
    ensures GroupValue(g) == Some(n) <==> IsGroup(g, n)
  {
    hide HexValue, Lower, HexText, Pow2, DIGITS;
    HexIff(g, n);
  }

  // ----- eight groups -----

  // The groups are worth v, the first the highest.
  ghost predicate AreWorth(groups: seq<string>, v: nat) {
    exists ns: seq<nat> :: AreNumbers(groups, ns) && v == Worth(ns)
  }

  ghost predicate AreNumbers(groups: seq<string>, ns: seq<nat>) {
    |ns| == |groups| && forall i :: 0 <= i < |groups| ==> IsGroup(groups[i], ns[i])
  }

  lemma {:induction false} FoldPresent(values: seq<Option<nat>>, bits: nat) returns (ns: seq<nat>)
    requires Fold(values, bits).Some?
    ensures |ns| == |values| && forall i :: 0 <= i < |values| ==> values[i] == Some(ns[i])
    decreases |values|
  {
    hide Pow2;
    ns := [];
    if values != [] {
      var init := FoldPresent(values[..|values| - 1], bits);
      ns := init + [values[|values| - 1].value];
    }
  }

  lemma WorthIff(groups: seq<string>, v: nat)
    ensures Fold(GroupValues(groups), 16) == Some(v) <==> AreWorth(groups, v)
  {
    hide GroupValue, IsGroup, Fold, Worth;
    if Fold(GroupValues(groups), 16) == Some(v) {
      var ns := FoldPresent(GroupValues(groups), 16);
      forall i | 0 <= i < |groups| ensures IsGroup(groups[i], ns[i]) {
        GroupIff(groups[i], ns[i]);
      }
      assert GroupValues(groups) == Present(ns);
      GroupsWorth(ns);
      assert AreNumbers(groups, ns);
    }
    if AreWorth(groups, v) {
      var ns: seq<nat> :| AreNumbers(groups, ns) && v == Worth(ns);
      forall i | 0 <= i < |groups| ensures GroupValue(groups[i]) == Some(ns[i]) {
        GroupIff(groups[i], ns[i]);
      }
      assert GroupValues(groups) == Present(ns);
      GroupsWorth(ns);
    }
  }

  lemma {:induction false} WorthPlain(groups: seq<string>, v: nat)
    requires AreWorth(groups, v)
    ensures PlainGroups(groups)
  {
    hide IsGroup, Worth;
    var ns: seq<nat> :| AreNumbers(groups, ns) && v == Worth(ns);
    forall i | 0 <= i < |groups| ensures GroupValue(groups[i]).Some? {
      GroupIff(groups[i], ns[i]);
    }
    hide GroupValue;
    HexGroupsPlain(groups);
  }

  // Eight groups between colons.
  ghost predicate IsFull(addr: string, groups: seq<string>, v: nat) {
    |groups| == 8 && addr == Join(groups, ":") && AreWorth(groups, v)
  }

  // Groups on both sides of "::", with as many zeros between them as make eight. What
  // follows a second "::" counts for nothing.
  ghost predicate IsShort(addr: string, left: seq<string>, right: seq<string>, rest: string, v: nat) {
    && |left| + |right| <= 8 && (rest == "" || "::" <= rest)
    && addr == Join(left, ":") + ("::" + (Join(right, ":") + rest))
    && AreWorth(left + Zeros(8 - (|left| + |right|)) + right, v)
  }

  // An IPv6 address is eight groups, or fewer with a "::".
  lemma V6Iff(num: Reading, addr: string, v: nat)
    ensures AddressValue(num, addr, V6) == Some(v) <==>
              || (exists groups :: IsFull(addr, groups, v))
              || (exists left, right, rest :: IsShort(addr, left, right, rest, v))
  {
    hide IsFull, IsShort, AddressValue, FindShortcut;
    if AddressValue(num, addr, V6) == Some(v) {
      if FindShortcut(addr) < 0 {
        var groups := FullOf(num, addr, v);
      } else {
        var left, right, rest := ShortOf(num, addr, v);
      }
    }
    if groups :| IsFull(addr, groups, v) {
      FullReads(num, addr, groups, v);
    }
    if left, right, rest :| IsShort(addr, left, right, rest, v) {
      ShortReads(num, addr, left, right, rest, v);
    }
  }

  lemma FullOf(num: Reading, addr: string, v: nat) returns (groups: seq<string>)
    requires AddressValue(num, addr, V6) == Some(v) && FindShortcut(addr) < 0
    ensures IsFull(addr, groups, v)
  {
    hide FindShortcut, SplitChar, Join, Fold, AllFree, AreWorth;
    groups := SplitChar(addr, ':');
    SplitCharParts(addr, ':');
    WorthIff(groups, v);
  }

  lemma FullReads(num: Reading, addr: string, groups: seq<string>, v: nat)
    requires IsFull(addr, groups, v)
    ensures AddressValue(num, addr, V6) == Some(v)
  {
    hide Join, Fold, AreWorth, AddressValue, Expanded, PlainGroups;
    WorthPlain(groups, v);
    FullForm(groups);
    PlainValue(num, addr, groups);
    WorthIff(groups, v);
  }

  lemma PartsJoin(s: string)
    ensures AllFree(PartsOf(s), ':') && Join(PartsOf(s), ":") == s
  {
    hide SplitChar, Join, AllFree;
    if s != "" {
      SplitCharParts(s, ':');
    } else {
      NoParts();
    }
  }

  lemma NoParts()
    ensures AllFree([], ':') && Join([], ":") == ""
  {
  }

  lemma {:induction false} FreeConcat(a: seq<string>, b: seq<string>, c: char)
    ensures AllFree(a + b, c) <==> AllFree(a, c) && AllFree(b, c)
  {
    if a == [] {
      assert a + b == b;
    } else {
      assert (a + b)[1..] == a[1..] + b;
      FreeConcat(a[1..], b, c);
    }
  }

  lemma {:induction false} ShortcutColons(s: string)
    ensures var i := FindShortcut(s); i >= 0 ==> s[i] == ':' && s[i + 1] == ':'
  {
    if |s| >= 2 && !(s[0] == ':' && s[1] == ':') {
      ShortcutColons(s[1..]);
    }
  }

  lemma ShortcutAt(s: string)
    ensures var i := FindShortcut(s); i >= 0 ==> s == s[..i] + ("::" + s[i + 2..]) && "::" <= s[i..]
  {
    hide FindShortcut;
    ShortcutColons(s);
    var i := FindShortcut(s);
    if i >= 0 {
      assert s[i..][..2] == "::";
      assert s[i..] == "::" + s[i + 2..];
      assert s == s[..i] + s[i..];
    }
  }

  // The two sides that an address with a "::" is cut into, and what is not looked at.
  lemma SidesOf(addr: string) returns (left: seq<string>, right: seq<string>, rest: string)
    requires FindShortcut(addr) >= 0
    ensures AllFree(left, ':') && AllFree(right, ':') && (rest == "" || "::" <= rest)
    ensures addr == Join(left, ":") + ("::" + (Join(right, ":") + rest))
    ensures var need := 8 - (|left| + |right|);
            Expanded(addr) == if need < 0 then None else Some(Join(left + Zeros(need) + right, ":"))
  {
    hide FindShortcut, PartsOf, Join, AllFree, Zeros;
    var i := FindShortcut(addr);
    var tail := addr[i + 2..];
    var j := FindShortcut(tail);
    ShortcutAt(addr);
    ShortcutAt(tail);
    left, right, rest := PartsOf(addr[..i]), PartsOf(if j < 0 then tail else tail[..j]), if j < 0 then "" else tail[j..];
    PartsJoin(addr[..i]);
    PartsJoin(if j < 0 then tail else tail[..j]);
    assert tail == (if j < 0 then tail else tail[..j]) + rest;
  }

  lemma ShortOf(num: Reading, addr: string, v: nat) returns (left: seq<string>, right: seq<string>, rest: string)
    requires AddressValue(num, addr, V6) == Some(v) && FindShortcut(addr) >= 0
    ensures IsShort(addr, left, right, rest, v)
  {
    hide FindShortcut, SplitChar, Join, Fold, AllFree, AreWorth, Zeros, Expanded, PlainGroups;
    left, right, rest := SidesOf(addr);
    var zeros := Zeros(8 - (|left| + |right|));
    var groups := left + zeros + right;
    ZerosPlain(|zeros|);
    PlainAreFree(zeros);
    FreeConcat(left, zeros, ':');
    FreeConcat(left + zeros, right, ':');
    SplitCharJoin(groups, ':');
    WorthIff(groups, v);
  }

  lemma ShortReads(num: Reading, addr: string, left: seq<string>, right: seq<string>, rest: string, v: nat)
    requires IsShort(addr, left, right, rest, v)
    ensures AddressValue(num, addr, V6) == Some(v)
  {
    hide FindShortcut, SplitChar, Join, Fold, AllFree, AreWorth, Zeros, Expanded, PlainGroups, PartsOf, AddressValue;
    var zeros := Zeros(8 - (|left| + |right|));
    var groups := left + zeros + right;
    WorthPlain(groups, v);
    PlainConcat(left, zeros);
    PlainConcat(left + zeros, right);
    ExpandRest(left, right, rest);
    PlainValue(num, addr, groups);
    WorthIff(groups, v);
  }

  lemma ExpandRest(left: seq<string>, right: seq<string>, rest: string)
    requires PlainGroups(left) && PlainGroups(right) && |left| + |right| <= 8 && (rest == "" || "::" <= rest)
    ensures Expanded(Join(left, ":") + ("::" + (Join(right, ":") + rest))) ==
            Some(Join(left + Zeros(8 - (|left| + |right|)) + right, ":"))
  {
    hide FindShortcut, SplitChar, Join, Zeros, PlainGroups, PartsOf;
    var l, r := Join(left, ":"), Join(right, ":");
    var tail := r + rest;
    SkipGroups(left, tail);
    ShortcutSides(l, tail);
    PartsOfGroups(left);
    PartsOfGroups(right);
    if rest == "" {
      assert tail == r;
      RightHasNoShortcut(right);
    } else {
      assert rest == "::" + rest[2..];
      SkipGroups(right, rest[2..]);
      assert tail[..|r|] == r;
    }
  }

  // A second "::" is accepted, and drops all that follows it.
  lemma SecondShortcut(num: Reading, left: seq<string>, right: seq<string>, rest: string)
    requires PlainGroups(left) && PlainGroups(right) && |left| + |right| <= 8
    ensures AddressValue(num, Join(left, ":") + ("::" + (Join(right, ":") + ("::" + rest))), V6) ==
            AddressValue(num, Join(left, ":") + ("::" + Join(right, ":")), V6)
  {
    hide Join, Expanded, PlainGroups, Zeros, SplitChar, Fold;
    ExpandRest(left, right, "::" + rest);
    assert Join(right, ":") + "" == Join(right, ":");
    ExpandRest(left, right, "");
  }
}

// String primitives of the source language: trimming, joining and searching.
// Characters are Unicode scalar values.
module Text {

  // The characters removed by String.prototype.trim (white space and line
  // terminators of ECMAScript).
  predicate IsSpace(c: char) {
    || '\t' <= c <= '\r'
    || c == ' ' || c == '\U{00A0}' || c == '\U{1680}'
    || '\U{2000}' <= c <= '\U{200A}'
    || c == '\U{2028}' || c == '\U{2029}' || c == '\U{202F}'
    || c == '\U{205F}' || c == '\U{3000}' || c == '\U{FEFF}'
  }

  ghost predicate AllSpace(s: string) {
    forall i :: 0 <= i < |s| ==> IsSpace(s[i])
  }

  // No white space at either end.
  predicate Trimmed(s: string) {
    s != "" ==> !IsSpace(s[0]) && !IsSpace(s[|s| - 1])
  }

  function TrimStart(s: string): (r: string)
    ensures |r| <= |s|
  {
    if s != "" && IsSpace(s[0]) then TrimStart(s[1..]) else s
  }

  function TrimEnd(s: string): (r: string)
    ensures |r| <= |s|
  {
    if s != "" && IsSpace(s[|s| - 1]) then TrimEnd(s[..|s| - 1]) else s
  }

  function Trim(s: string): (r: string)
    ensures |r| <= |s|
  {
    TrimEnd(TrimStart(s))
  }

  lemma {:induction false} TrimStartParts(s: string) returns (lead: string)
    ensures AllSpace(lead) && s == lead + TrimStart(s)
    ensures TrimStart(s) != "" ==> !IsSpace(TrimStart(s)[0])
  {
    if s != "" && IsSpace(s[0]) {
      var rest := TrimStartParts(s[1..]);
      lead := [s[0]] + rest;
      assert s == [s[0]] + s[1..];
    } else {
      lead := "";
    }
  }

  lemma {:induction false} TrimEndParts(s: string) returns (trail: string)
    ensures AllSpace(trail) && s == TrimEnd(s) + trail
    ensures TrimEnd(s) != "" ==> !IsSpace(TrimEnd(s)[|TrimEnd(s)| - 1])
  {
    if s != "" && IsSpace(s[|s| - 1]) {
      var rest := TrimEndParts(s[..|s| - 1]);
      trail := rest + [s[|s| - 1]];
      assert s == s[..|s| - 1] + [s[|s| - 1]];
    } else {
      trail := "";
    }
  }

  // Trim removes exactly white space, from both ends, until none is left there.
  lemma TrimParts(s: string) returns (lead: string, trail: string)
    ensures AllSpace(lead) && AllSpace(trail)
    ensures s == lead + Trim(s) + trail
    ensures Trimmed(Trim(s))
  {
    lead := TrimStartParts(s);
    trail := TrimEndParts(TrimStart(s));
    var t := TrimStart(s);
    assert t == Trim(s) + trail;
    assert Trim(s) != "" ==> Trim(s)[0] == t[0];
  }

  lemma TrimTrimmed(s: string)
    requires Trimmed(s)
    ensures Trim(s) == s
  {
  }

  lemma {:induction false} TrimStartPad(lead: string, s: string)
    requires AllSpace(lead)
    ensures TrimStart(lead + s) == TrimStart(s)
  {
    if lead == "" {
      assert lead + s == s;
    } else {
      assert (lead + s)[1..] == lead[1..] + s;
      TrimStartPad(lead[1..], s);
    }
  }

  lemma {:induction false} TrimEndPad(s: string, trail: string)
    requires AllSpace(trail)
    ensures TrimEnd(s + trail) == TrimEnd(s)
  {
    if trail == "" {
      assert s + trail == s;
    } else {
      var n := |trail| - 1;
      assert (s + trail)[..|s + trail| - 1] == s + trail[..n];
      TrimEndPad(s, trail[..n]);
    }
  }

  // White space added in front does not change the trimmed string.
  lemma TrimPadFront(lead: string, s: string)
    requires AllSpace(lead)
    ensures Trim(lead + s) == Trim(s)
  {
    TrimStartPad(lead, s);
  }

  lemma {:induction false} TrimStartAllSpace(s: string)
    requires AllSpace(s)
    ensures TrimStart(s) == ""
  {
    if s != "" {
      TrimStartAllSpace(s[1..]);
    }
  }

  // White space added behind does not change the trimmed string.
  lemma TrimPadBack(s: string, trail: string)
    requires AllSpace(trail)
    ensures Trim(s + trail) == Trim(s)
  {
    var lead := TrimStartParts(s);
    var t := TrimStart(s);
    assert s + trail == lead + (t + trail);
    TrimStartPad(lead, t + trail);
    if t == "" {
      assert t + trail == trail;
      TrimStartAllSpace(trail);
    } else {
      assert TrimStart(t + trail) == t + trail;
      TrimEndPad(t, trail);
    }
  }

  // Index of the first occurrence of c, or -1.
  function IndexOf(s: string, c: char): (i: int)
    ensures -1 <= i < |s|
    ensures i == -1 <==> c !in s
    ensures i >= 0 ==> s[i] == c && c !in s[..i]
  {
    if s == "" then -1
    else if s[0] == c then 0
    else
      var k := IndexOf(s[1..], c);
      assert s == [s[0]] + s[1..];
      if k == -1 then -1
      else assert s[..k + 1] == [s[0]] + s[1..][..k]; k + 1
  }

  // The first occurrence is the only index with the character there and not before.
  lemma {:induction false} IndexOfUnique(s: string, c: char, i: nat)
    requires i < |s| && s[i] == c && c !in s[..i]
    ensures IndexOf(s, c) == i
  {
    if i > 0 {
      assert s[0] in s[..i];
      assert s[..i] == [s[0]] + s[1..][..i - 1];
      IndexOfUnique(s[1..], c, i - 1);
    }
  }

  function Join(parts: seq<string>, sep: string): string {
    if parts == [] then ""
    else if |parts| == 1 then parts[0]
    else parts[0] + sep + Join(parts[1..], sep)
  }

  lemma ConcatAssoc<T>(a: seq<T>, b: seq<T>, c: seq<T>)
    ensures (a + b) + c == a + (b + c)
  {
  }

  lemma JoinCons(parts: seq<string>, sep: string)
    requires |parts| > 1
    ensures Join(parts, sep) == parts[0] + (sep + Join(parts[1..], sep))
  {
    ConcatAssoc(parts[0], sep, Join(parts[1..], sep));
  }

  function MapTrim(parts: seq<string>): (r: seq<string>)
    ensures |r| == |parts|
    ensures forall i :: 0 <= i < |parts| ==> r[i] == Trim(parts[i])
  {
    if parts == [] then [] else [Trim(parts[0])] + MapTrim(parts[1..])
  }

  predicate StartsWith(s: string, p: string) {
    p <= s
  }

  predicate EndsWith(s: string, p: string) {
    |p| <= |s| && s[|s| - |p|..] == p
  }

  predicate OccursAt(s: string, p: string, i: int) {
    0 <= i <= |s| - |p| && s[i..i + |p|] == p
  }

  predicate Contains(s: string, p: string) {
    exists i :: 0 <= i <= |s| && OccursAt(s, p, i)
  }

  // ----- splitting at a separator character -----

  function SplitChar(s: string, c: char): (parts: seq<string>)
    ensures |parts| >= 1
    decreases |s|
  {
    var i := IndexOf(s, c);
    if i < 0 then [s] else [s[..i]] + SplitChar(s[i + 1..], c)
  }

  ghost predicate AllFree(parts: seq<string>, c: char) {
    parts != [] ==> c !in parts[0] && AllFree(parts[1..], c)
  }

  lemma SplitCharFirst(part: string, rest: string, c: char)
    requires c !in part
    ensures SplitChar(part + ([c] + rest), c) == [part] + SplitChar(rest, c)
  {
    hide IndexOf;
    var s := part + ([c] + rest);
    assert s[..|part|] == part;
    IndexOfUnique(s, c, |part|);
    assert s[|part| + 1..] == rest;
  }

  // Splitting undoes joining when no part contains the separator.
  lemma {:induction false} SplitCharJoin(parts: seq<string>, c: char)
    requires |parts| >= 1 && AllFree(parts, c)
    ensures SplitChar(Join(parts, [c]), c) == parts
  {
    if |parts| > 1 {
      var rest := Join(parts[1..], [c]);
      JoinCons(parts, [c]);
      SplitCharJoin(parts[1..], c);
      hide Join, AllFree;
      SplitCharFirst(parts[0], rest, c);
      assert parts == [parts[0]] + parts[1..];
    } else {
      assert parts == [parts[0]];
    }
  }

  lemma SplitCharCut(s: string, c: char, i: nat)
    requires IndexOf(s, c) == i
    ensures SplitChar(s, c) == [s[..i]] + SplitChar(s[i + 1..], c)
    ensures AllFree(SplitChar(s[i + 1..], c), c) ==> AllFree(SplitChar(s, c), c)
  {
    hide IndexOf;
    assert SplitChar(s, c)[1..] == SplitChar(s[i + 1..], c);
  }

  lemma SplitCharNone(s: string, c: char)
    requires c !in s
    ensures AllFree(SplitChar(s, c), c) && Join(SplitChar(s, c), [c]) == s
  {
    hide IndexOf;
    assert SplitChar(s, c) == [s] && [s][1..] == [];
  }

  // Joining undoes splitting, and no part contains the separator.
  lemma {:induction false} SplitCharParts(s: string, c: char)
    ensures AllFree(SplitChar(s, c), c) && Join(SplitChar(s, c), [c]) == s
    decreases |s|
  {
    hide IndexOf, Join, AllFree, SplitChar;
    var i := IndexOf(s, c);
    if i == -1 {
      SplitCharNone(s, c);
    } else {
      var rest := SplitChar(s[i + 1..], c);
      SplitCharParts(s[i + 1..], c);
      SplitCharCut(s, c, i);
      var parts := [s[..i]] + rest;
      assert parts[1..] == rest;
      JoinCons(parts, [c]);
      assert s == s[..i] + ([c] + s[i + 1..]);
    }
  }

  // String order, as < on strings.
  predicate Less(a: string, b: string) {
    b != [] && (a == [] || a[0] < b[0] || (a[0] == b[0] && Less(a[1..], b[1..])))
  }

  // Up to i the strings are the same; there the first ends, or has the smaller character.
  predicate DiffersAt(a: string, b: string, i: nat) {
    i <= |a| && i < |b| && a[..i] == b[..i] && (i == |a| || a[i] < b[i])
  }

  lemma {:induction false} LessAt(a: string, b: string) returns (i: nat)
    requires Less(a, b)
    ensures DiffersAt(a, b, i)
    decreases |a|
  {
    i := 0;
    if a != [] && a[0] == b[0] {
      var k := LessAt(a[1..], b[1..]);
      i := k + 1;
      assert a[..i] == [a[0]] + a[1..][..k] && b[..i] == [b[0]] + b[1..][..k];
    }
  }

  lemma {:induction false} AtLess(a: string, b: string, i: nat)
    requires DiffersAt(a, b, i)
    ensures Less(a, b)
    decreases |a|
  {
    if i > 0 {
      assert a[0] == a[..i][0] == b[..i][0] == b[0];
      assert a[1..][..i - 1] == a[..i][1..] && b[1..][..i - 1] == b[..i][1..];
      AtLess(a[1..], b[1..], i - 1);
    }
  }

  // The first difference decides, and a prefix comes first.
  lemma LessIff(a: string, b: string)
    ensures Less(a, b) <==> exists i: nat :: DiffersAt(a, b, i)
  {
    hide Less, DiffersAt;
    if Less(a, b) {
      var i := LessAt(a, b);
    }
    if i: nat :| DiffersAt(a, b, i) {
      AtLess(a, b, i);
    }
  }

  lemma {:induction false} LessTotal(a: string, b: string)
    ensures a == b || Less(a, b) || Less(b, a)
    ensures !(Less(a, b) && Less(b, a)) && !Less(a, a)
    decreases |a|
  {
    if a != [] {
      LessTotal(a[1..], a[1..]);
      if b != [] {
        LessTotal(a[1..], b[1..]);
        assert a == [a[0]] + a[1..] && b == [b[0]] + b[1..];
      }
    }
  }

  lemma {:induction false} LessTransitive(a: string, b: string, c: string)
    requires Less(a, b) && Less(b, c)
    ensures Less(a, c)
    decreases |a|
  {
    if a != [] && b != [] && c != [] && a[0] == b[0] == c[0] {
      LessTransitive(a[1..], b[1..], c[1..]);
    }
  }

  // The white space and line terminators of ECMAScript, by code point.
  lemma SpaceCodes(c: char)
    ensures IsSpace(c) <==>
              || c as int in {9, 10, 11, 12, 13, 32, 160, 5760, 8232, 8233, 8239, 8287, 12288, 65279}
              || 8192 <= c as int <= 8202
  {
  }
}

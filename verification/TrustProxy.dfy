// The CIDR allow-list of trusted proxies (apps/server/src/auth/trust-proxy.ts).
module TrustProxy {
  import opened Outcome
  import opened Text
  import opened Bits

  // Number(text) when that is an integer. The reading of decimal text is a
  // parameter: nothing below depends on it.
  type Reading = string -> Option<int>

  datatype Version = V4 | V6

  datatype Cidr = Cidr(version: Version, network: nat, mask: nat, raw: string)

  datatype CidrError = EmptyCidr | PrefixOutOfRange | BadAddress

  function MaxBits(v: Version): nat {
    match v case V4 => 32 case V6 => 128
  }

  function VersionOf(addr: string): Version {
    if ':' in addr then V6 else V4
  }

  // ----- addresses -----

  function HexDigit(c: char): Option<nat> {
    if '0' <= c <= '9' then Some(c as nat - '0' as nat)
    else if 'a' <= c <= 'f' then Some(c as nat - 'a' as nat + 10)
    else if 'A' <= c <= 'F' then Some(c as nat - 'A' as nat + 10)
    else None
  }

  // Value of a string of hexadecimal digits.
  function HexValue(s: string): Option<nat> {
    if s == "" then Some(0)
    else
      var high, low := HexValue(s[..|s| - 1]), HexDigit(s[|s| - 1]);
      if high.Some? && low.Some? then Some(16 * high.value + low.value) else None
  }

  // A group of one to four hexadecimal digits.
  function GroupValue(s: string): Option<nat> {
    if 1 <= |s| <= 4 then HexValue(s) else None
  }

  function OctetValue(num: Reading, s: string): Option<nat> {
    match num(s)
    case Some(n) => if 0 <= n <= 255 then Some(n) else None
    case None => None
  }

  // Index of the first "::", or -1.
  function FindShortcut(s: string): (i: int)
    ensures -1 <= i <= |s| - 2 || i == -1
  {
    if |s| < 2 then -1
    else if s[0] == ':' && s[1] == ':' then 0
    else
      var k := FindShortcut(s[1..]);
      if k == -1 then -1 else k + 1
  }

  function Zeros(n: nat): (r: seq<string>)
    ensures |r| == n
  {
    if n == 0 then [] else ["0"] + Zeros(n - 1)
  }

  function PartsOf(s: string): seq<string> {
    if s == "" then [] else SplitChar(s, ':')
  }

  // The text of an IPv6 address with the shortcut written out.
  function Expanded(addr: string): Option<string> {
    var i := FindShortcut(addr);
    if i < 0 then Some(addr)
    else
      var tail := addr[i + 2..];
      var j := FindShortcut(tail);
      var left, right := PartsOf(addr[..i]), PartsOf(if j < 0 then tail else tail[..j]);
      var need := 8 - (|left| + |right|);
      if need < 0 then None else Some(Join(left + Zeros(need) + right, ":"))
  }

  // Big-endian value of groups of the given width, all present.
  function Fold(values: seq<Option<nat>>, bits: nat): Option<nat> {
    if values == [] then Some(0)
    else
      var high, low := Fold(values[..|values| - 1], bits), values[|values| - 1];
      if high.Some? && low.Some? then Some(high.value * Pow2(bits) + low.value) else None
  }

  function Octets(num: Reading, parts: seq<string>): (r: seq<Option<nat>>)
    ensures |r| == |parts|
    ensures forall i :: 0 <= i < |parts| ==> r[i] == OctetValue(num, parts[i])
  {
    seq(|parts|, i requires 0 <= i < |parts| => OctetValue(num, parts[i]))
  }

  function GroupValues(parts: seq<string>): (r: seq<Option<nat>>)
    ensures |r| == |parts|
    ensures forall i :: 0 <= i < |parts| ==> r[i] == GroupValue(parts[i])
  {
    seq(|parts|, i requires 0 <= i < |parts| => GroupValue(parts[i]))
  }

  // The numeric value of an address, None if it is malformed.
  function AddressValue(num: Reading, addr: string, version: Version): Option<nat> {
    match version
    case V4 =>
      var parts := SplitChar(addr, '.');
      if |parts| != 4 then None else Fold(Octets(num, parts), 8)
    case V6 =>
      var expanded := Expanded(addr);
      if expanded.None? then None
      else
        var parts := SplitChar(expanded.value, ':');
        if |parts| != 8 then None else Fold(GroupValues(parts), 16)
  }

  // The accumulation loop: shift and merge each part; malformed parts end it.
  method FoldParts(values: seq<Option<nat>>, bits: nat) returns (r: Option<nat>)
    requires forall i :: 0 <= i < |values| && values[i].Some? ==> values[i].value < Pow2(bits)
    ensures r == Fold(values, bits)
  {
    var acc: nat := 0;
    for i := 0 to |values|
      invariant Fold(values[..i], bits) == Some(acc)
    {
      hide Pow2, BitOr;
      assert values[..i + 1][..i] == values[..i];
      if values[i].None? {
        FoldNone(values, bits, i);
        return None;
      }
      OrShifted(values[i].value, acc, bits);
      acc := BitOr(ShiftLeft(acc, bits), values[i].value);
    }
    assert values[..|values|] == values;
    return Some(acc);
  }

  lemma {:induction false} FoldNone(values: seq<Option<nat>>, bits: nat, i: nat)
    requires i < |values| && values[i].None?
    ensures Fold(values, bits) == None
  {
    if i < |values| - 1 {
      FoldNone(values[..|values| - 1], bits, i);
    }
  }

  lemma {:induction false} HexBound(s: string)
    ensures HexValue(s).Some? ==> HexValue(s).value < Pow2(4 * |s|)
  {
    if s != "" {
      HexBound(s[..|s| - 1]);
      HexStep(|s| - 1);
      hide Pow2;
    }
  }

  lemma HexStep(n: nat)
    ensures Pow2(4 * (n + 1)) == 16 * Pow2(4 * n)
  {
    Pow2Add(4, 4 * n);
    assert Pow2(4) == 16;
  }

  lemma GroupBound(s: string)
    ensures GroupValue(s).Some? ==> GroupValue(s).value < Pow2(16)
  {
    HexBound(s);
    if |s| <= 4 {
      Pow2Monotone(4 * |s|, 16);
    }
  }

  method IpToBigInt(num: Reading, addr: string, version: Version) returns (r: Option<nat>)
    ensures r == AddressValue(num, addr, version)
  {
    hide Pow2, Fold;
    if version == V4 {
      var parts := SplitChar(addr, '.');
      if |parts| != 4 {
        return None;
      }
      assert Pow2(8) == 256 by { Pow2Eight(); }
      r := FoldParts(Octets(num, parts), 8);
    } else {
      var expanded := Expanded(addr);
      if expanded.None? {
        return None;
      }
      var parts := SplitChar(expanded.value, ':');
      if |parts| != 8 {
        return None;
      }
      forall i | 0 <= i < |parts| && GroupValue(parts[i]).Some? ensures GroupValue(parts[i]).value < Pow2(16) {
        GroupBound(parts[i]);
      }
      r := FoldParts(GroupValues(parts), 16);
    }
  }

  lemma Pow2Eight()
    ensures Pow2(8) == 256
  {
    assert Pow2(4) == 16;
  }

  // ----- CIDR entries -----

  function Mask(bits: nat, max: nat): nat
    requires bits <= max
  {
    if bits == 0 then 0 else BitAnd(ShiftLeft(-1, max - bits), Pow2(max) - 1)
  }

  // The address part and the prefix length text of an entry.
  function SplitPrefix(raw: string): (string, Option<string>) {
    var parts := SplitChar(raw, '/');
    if |parts| > 1 then (parts[0], Some(parts[1])) else (raw, None)
  }

  function PrefixBits(num: Reading, raw: string): Option<nat> {
    var (addr, prefix) := SplitPrefix(raw);
    var max := MaxBits(VersionOf(addr));
    match prefix
    case None => Some(max)
    case Some(text) =>
      match num(text)
      case Some(n) => if 0 <= n <= max then Some(n) else None
      case None => None
  }

  function ParseCidr(num: Reading, raw: string): Result<Cidr, CidrError> {
    var (addrPart, _) := SplitPrefix(raw);
    if addrPart == "" then Err(EmptyCidr)
    else
      var version := VersionOf(addrPart);
      var bits := PrefixBits(num, raw);
      if bits.None? then Err(PrefixOutOfRange)
      else
        var addr := AddressValue(num, addrPart, version);
        if addr.None? then Err(BadAddress)
        else
          BitsInRange(num, raw);
          var mask := Mask(bits.value, MaxBits(version));
          Ok(Cidr(version, BitAnd(addr.value, mask), mask, raw))
  }

  lemma BitsInRange(num: Reading, raw: string)
    ensures var bits := PrefixBits(num, raw);
            bits.Some? ==> bits.value <= MaxBits(VersionOf(SplitPrefix(raw).0))
  {
  }

  // The trimmed, non-empty pieces of a comma-separated list.
  function Pieces(parts: seq<string>): seq<string> {
    if parts == [] then []
    else
      var t := Trim(parts[0]);
      (if t == "" then [] else [t]) + Pieces(parts[1..])
  }

  // The entries that parse, in order.
  function Compiled(num: Reading, pieces: seq<string>): seq<Cidr> {
    if pieces == [] then []
    else
      (match ParseCidr(num, pieces[0]) case Ok(c) => [c] case Err(_) => []) + Compiled(num, pieces[1..])
  }

  method ParseCidrList(num: Reading, list: string) returns (out: seq<Cidr>)
    ensures out == Compiled(num, Pieces(SplitChar(list, ',')))
  {
    hide ParseCidr, Trim, SplitChar;
    out := [];
    var parts := SplitChar(list, ',');
    for i := 0 to |parts|
      invariant Compiled(num, Pieces(parts)) == out + Compiled(num, Pieces(parts[i..]))
    {
      var t := Trim(parts[i]);
      assert parts[i..][1..] == parts[i + 1..];
      CompiledStep(num, t, Pieces(parts[i + 1..]), out);
      if t == "" {
        continue;
      }
      var c := ParseCidr(num, t);
      if c.Ok? {
        out := out + [c.value];
      }
    }
  }

  lemma CompiledStep(num: Reading, t: string, rest: seq<string>, out: seq<Cidr>)
    ensures t == "" ==> [] + rest == rest
    ensures var c := ParseCidr(num, t);
            out + Compiled(num, [t] + rest) == (if c.Ok? then out + [c.value] else out) + Compiled(num, rest)
  {
    hide ParseCidr;
    assert ([t] + rest)[1..] == rest;
    var c := ParseCidr(num, t);
    if c.Ok? {
      ConcatAssoc(out, [c.value], Compiled(num, rest));
    } else {
      assert [] + Compiled(num, rest) == Compiled(num, rest);
    }
  }

  predicate Matches(c: Cidr, version: Version, addr: nat) {
    c.version == version && BitAnd(addr, c.mask) == c.network
  }

  // ----- what an entry matches -----

  lemma {:induction false} FoldBound(values: seq<Option<nat>>, bits: nat)
    requires forall i :: 0 <= i < |values| && values[i].Some? ==> values[i].value < Pow2(bits)
    ensures Fold(values, bits).Some? ==> Fold(values, bits).value < Pow2(bits * |values|)
  {
    if values != [] {
      var init := values[..|values| - 1];
      FoldBound(init, bits);
      assert bits * |values| == bits * |init| + bits;
      Pow2Add(bits * |init|, bits);
      hide Pow2;
      if Fold(values, bits).Some? {
        FoldStepBound(Fold(init, bits).value, values[|values| - 1].value, Pow2(bits * |init|), Pow2(bits));
      }
    }
  }

  lemma FoldStepBound(high: nat, low: nat, h: nat, b: nat)
    requires high < h && low < b
    ensures high * b + low < h * b
  {
    assert (high + 1) * b <= h * b;
  }

  lemma AddressBound(num: Reading, addr: string, version: Version)
    ensures var v := AddressValue(num, addr, version);
            v.Some? ==> v.value < Pow2(MaxBits(version))
  {
    hide Pow2, Fold;
    if version == V4 {
      var parts := SplitChar(addr, '.');
      Pow2Eight();
      if |parts| == 4 {
        FoldBound(Octets(num, parts), 8);
      }
    } else if Expanded(addr).Some? {
      var parts := SplitChar(Expanded(addr).value, ':');
      if |parts| == 8 {
        forall i | 0 <= i < |parts| && GroupValue(parts[i]).Some? ensures GroupValue(parts[i]).value < Pow2(16) {
          GroupBound(parts[i]);
        }
        FoldBound(GroupValues(parts), 16);
      }
    }
  }

  // Masking an address of max bits with a prefix mask clears the host bits.
  lemma MaskClears(addr: nat, bits: nat, max: nat)
    requires bits <= max && addr < Pow2(max)
    ensures BitAnd(addr, Mask(bits, max)) == addr - addr % Pow2(max - bits)
  {
    if bits == 0 {
      ModUnique(addr, Pow2(max), 0, addr);
    } else {
      HighMask(max - bits, max);
      AndHighMask(addr, max - bits, max);
    }
  }

  // Two numbers agree above their low part exactly when one lies in the block of the other.
  lemma SameBlock(a: nat, b: nat, size: nat)
    requires size > 0
    ensures var network := b - b % size;
            a - a % size == network <==> network <= a < network + size
  {
    var network := b - b % size;
    var q := b / size;
    assert network == q * size;
    if network <= a < network + size {
      ModUnique(a, size, q, a - network);
    }
  }

  // An entry matches an address exactly when the address lies in the block of
  // 2^(maxBits - bits) addresses that starts at the entry's network (section 3.1 of RFC 4632).
  lemma EntryMatchesBlock(num: Reading, raw: string, ip: string)
    requires ParseCidr(num, raw).Ok?
    requires AddressValue(num, ip, ParseCidr(num, raw).value.version).Some?
    ensures var c := ParseCidr(num, raw).value;
            var size := Pow2(MaxBits(c.version) - PrefixBits(num, raw).value);
            var addr := AddressValue(num, ip, c.version).value;
            var base := AddressValue(num, SplitPrefix(raw).0, c.version).value;
            && c.network == base - base % size
            && (Matches(c, c.version, addr) <==> c.network <= addr < c.network + size)
  {
    hide Pow2, BitAnd, Mask, AddressValue, PrefixBits, SplitPrefix;
    var (addrPart, _) := SplitPrefix(raw);
    var version, bits := VersionOf(addrPart), PrefixBits(num, raw).value;
    BitsInRange(num, raw);
    var base, addr := AddressValue(num, addrPart, version).value, AddressValue(num, ip, version).value;
    AddressBound(num, addrPart, version);
    AddressBound(num, ip, version);
    MaskClears(base, bits, MaxBits(version));
    MaskClears(addr, bits, MaxBits(version));
    SameBlock(addr, base, Pow2(MaxBits(version) - bits));
  }

  // The block of an entry: its address part with the host bits cleared, and the
  // 2^(maxBits - bits) addresses from there on.
  predicate InBlock(num: Reading, piece: string, version: Version, addr: nat) {
    && ParseCidr(num, piece).Ok? && version == VersionOf(SplitPrefix(piece).0)
    && var base := AddressValue(num, SplitPrefix(piece).0, version).value;
       var size := Pow2(MaxBits(version) - PrefixBits(num, piece).value);
       base - base % size <= addr < base - base % size + size
  }

  // ----- the list as text -----

  // raw stands between commas, or at an end of the text.
  ghost predicate Field(s: string, before: string, raw: string, after: string) {
    && s == before + (raw + after) && ',' !in raw
    && (before == "" || before[|before| - 1] == ',') && (after == "" || after[0] == ',')
  }

  lemma {:induction false} FieldIff(s: string, raw: string)
    ensures raw in SplitChar(s, ',') <==> exists before, after :: Field(s, before, raw, after)
    decreases |s|
  {
    hide IndexOf;
    var i := IndexOf(s, ',');
    if i < 0 {
      OnlyField(s, raw);
    } else {
      var first, rest := s[..i], s[i + 1..];
      assert s == first + ("," + rest);
      FieldIff(rest, raw);
      FirstField(first, rest, raw);
    }
  }

  lemma OnlyField(s: string, raw: string)
    requires ',' !in s
    ensures (exists before, after :: Field(s, before, raw, after)) <==> raw == s
  {
    if raw == s {
      assert s == "" + (s + "");
      assert Field(s, "", s, "");
    }
    if before, after :| Field(s, before, raw, after) {
      NoCommaAtEnd(before);
      NoCommaAtStart(after);
      assert s == "" + (raw + "") == raw;
    }
  }

  lemma NoCommaAtEnd(t: string)
    ensures t == "" || t[|t| - 1] != ',' || ',' in t
  {
  }

  lemma NoCommaAtStart(t: string)
    ensures t == "" || t[0] != ',' || ',' in t
  {
  }

  lemma FirstField(first: string, rest: string, raw: string)
    requires ',' !in first
    ensures (exists before, after :: Field(first + ("," + rest), before, raw, after)) <==>
              raw == first || exists before, after :: Field(rest, before, raw, after)
  {
    var s, head := first + ("," + rest), first + ",";
    if raw == first {
      assert s == "" + (first + ("," + rest));
      assert Field(s, "", raw, "," + rest);
    }
    if before, after :| Field(rest, before, raw, after) {
      assert s == (head + before) + (raw + after);
      assert Field(s, head + before, raw, after);
    }
    if before, after :| Field(s, before, raw, after) {
      if before == "" {
        StartField(first, rest, raw, after);
      } else {
        var more := LaterField(first, rest, before, raw, after);
      }
    }
  }

  lemma StartField(first: string, rest: string, raw: string, after: string)
    requires ',' !in first && ',' !in raw && first + ("," + rest) == raw + after && (after == "" || after[0] == ',')
    ensures raw == first
  {
    hide IndexOf;
    var s := first + ("," + rest);
    assert s[..|first|] == first && s[|first|] == ',';
    IndexOfUnique(s, ',', |first|);
    assert s[|first|] in raw + after;
    assert ',' in after;
    assert s[..|raw|] == raw && s[|raw|] == after[0];
    IndexOfUnique(s, ',', |raw|);
  }

  lemma LaterField(first: string, rest: string, before: string, raw: string, after: string) returns (more: string)
    requires ',' !in first && before != "" && Field(first + ("," + rest), before, raw, after)
    ensures Field(rest, more, raw, after)
  {
    var s := first + ("," + rest);
    var n := |first| + 1;
    assert before[|before| - 1] == s[|before| - 1];
    assert |before| >= n;
    more := before[n..];
    assert s[n..] == rest && s[n..] == more + (raw + after);
  }

  lemma {:induction false} PiecesIff(parts: seq<string>, piece: string)
    ensures piece in Pieces(parts) <==> piece != "" && exists raw :: raw in parts && Trim(raw) == piece
    decreases |parts|
  {
    hide Trim;
    if parts != [] {
      PiecesIff(parts[1..], piece);
      assert parts == [parts[0]] + parts[1..];
      if piece != "" && Trim(parts[0]) == piece {
        assert parts[0] in parts;
      }
    }
  }

  // The piece is written in the list, trimmed.
  ghost predicate InList(list: string, piece: string) {
    piece != "" && exists before, raw, after :: Field(list, before, raw, after) && Trim(raw) == piece
  }

  lemma InListIff(list: string, piece: string)
    ensures piece in Pieces(SplitChar(list, ',')) <==> InList(list, piece)
  {
    hide Trim, SplitChar, Pieces, Field;
    PiecesIff(SplitChar(list, ','), piece);
    forall raw
      ensures raw in SplitChar(list, ',') <==> exists before, after :: Field(list, before, raw, after)
    {
      FieldIff(list, raw);
    }
  }

  // ----- an entry as text -----

  // The address part, and the text between the first and the second slash.
  ghost predicate Prefixed(piece: string, a: string, t: string, rest: string) {
    piece == a + ("/" + (t + rest)) && '/' !in a && '/' !in t && (rest == "" || rest[0] == '/')
  }

  // The entry names the address: it is the address, or it is a well-formed address and a
  // prefix length that puts both into one block of 2^(maxBits - n) addresses.
  ghost predicate Names(num: Reading, piece: string, version: Version, addr: nat) {
    || ('/' !in piece && piece != "" && version == VersionOf(piece) && AddressValue(num, piece, version) == Some(addr))
    || exists a, t, rest :: Prefixed(piece, a, t, rest) && a != "" && version == VersionOf(a) && SharesBlock(num, a, t, version, addr)
  }

  ghost predicate SharesBlock(num: Reading, a: string, t: string, version: Version, addr: nat) {
    var base, n := AddressValue(num, a, version), num(t);
    base.Some? && n.Some? && 0 <= n.value <= MaxBits(version)
    && addr / Pow2(MaxBits(version) - n.value) == base.value / Pow2(MaxBits(version) - n.value)
  }

  lemma BareSplit(piece: string)
    requires '/' !in piece
    ensures SplitPrefix(piece) == (piece, None)
  {
  }

  lemma PrefixedSplit(piece: string, a: string, t: string, rest: string)
    requires Prefixed(piece, a, t, rest)
    ensures SplitPrefix(piece) == (a, Some(t))
  {
    hide IndexOf;
    SplitCharFirst(a, t + rest, '/');
    assert piece == a + (['/'] + (t + rest));
    if rest == "" {
      assert t + rest == t;
    } else {
      assert t + rest == t + (['/'] + rest[1..]);
      SplitCharFirst(t, rest[1..], '/');
    }
  }

  lemma CutPrefix(piece: string) returns (a: string, t: string, rest: string)
    requires '/' in piece
    ensures Prefixed(piece, a, t, rest)
  {
    hide IndexOf;
    var i := IndexOf(piece, '/');
    a := piece[..i];
    var tail := piece[i + 1..];
    var j := IndexOf(tail, '/');
    t, rest := if j < 0 then tail else tail[..j], if j < 0 then "" else tail[j..];
    assert tail == t + rest;
    assert piece == a + ("/" + tail);
  }

  lemma BlockDivides(addr: nat, base: nat, size: nat)
    requires size > 0
    ensures base - base % size <= addr < base - base % size + size <==> addr / size == base / size
  {
    var q := base / size;
    assert base - base % size == q * size;
    if q * size <= addr < q * size + size {
      ModUnique(addr, size, q, addr - q * size);
    }
    if addr / size == q {
      assert addr == q * size + addr % size;
    }
  }

  lemma PrefixedNames(num: Reading, piece: string, version: Version, addr: nat, a: string, t: string, rest: string)
    requires Prefixed(piece, a, t, rest)
    ensures InBlock(num, piece, version, addr) <==> a != "" && version == VersionOf(a) && SharesBlock(num, a, t, version, addr)
  {
    hide AddressValue, Pow2, SplitPrefix, VersionOf, Prefixed;
    PrefixedSplit(piece, a, t, rest);
    var base, bits := AddressValue(num, a, version), PrefixBits(num, piece);
    if a != "" && version == VersionOf(a) && bits.Some? && base.Some? {
      BitsInRange(num, piece);
      BlockDivides(addr, base.value, Pow2(MaxBits(version) - bits.value));
    }
  }

  lemma BareNames(num: Reading, piece: string, version: Version, addr: nat)
    requires '/' !in piece
    ensures InBlock(num, piece, version, addr) <==> piece != "" && version == VersionOf(piece) && AddressValue(num, piece, version) == Some(addr)
  {
    hide AddressValue, SplitPrefix, VersionOf;
    BareSplit(piece);
    OneAddress();
  }

  lemma NamesIff(num: Reading, piece: string, version: Version, addr: nat)
    ensures InBlock(num, piece, version, addr) <==> Names(num, piece, version, addr)
  {
    hide InBlock, AddressValue, SharesBlock, VersionOf, Prefixed;
    if '/' in piece {
      var a, t, rest := CutPrefix(piece);
      forall b, u, more | Prefixed(piece, b, u, more)
        ensures b == a && u == t
      {
        PrefixedSplit(piece, a, t, rest);
        PrefixedSplit(piece, b, u, more);
      }
      PrefixedNames(num, piece, version, addr, a, t, rest);
    } else {
      BareNames(num, piece, version, addr);
      NoSlash(piece);
    }
  }

  lemma NoSlash(piece: string)
    requires '/' !in piece
    ensures forall a, t, rest :: !Prefixed(piece, a, t, rest)
  {
    forall a, t, rest
      ensures !Prefixed(piece, a, t, rest)
    {
      assert (a + ("/" + (t + rest)))[|a|] == '/';
    }
  }

  lemma OneAddress()
    ensures Pow2(0) == 1
  {
  }

  // The address is well formed, and the list holds an entry that names it.
  ghost predicate Listed(num: Reading, list: string, ip: string) {
    var addr := AddressValue(num, ip, VersionOf(ip));
    addr.Some? && exists piece :: InList(list, piece) && Names(num, piece, VersionOf(ip), addr.value)
  }

  // ----- compiled entries -----

  lemma PieceMatches(num: Reading, piece: string, ip: string)
    requires ParseCidr(num, piece).Ok? && AddressValue(num, ip, VersionOf(ip)).Some?
    ensures var addr := AddressValue(num, ip, VersionOf(ip)).value;
            Matches(ParseCidr(num, piece).value, VersionOf(ip), addr) <==> InBlock(num, piece, VersionOf(ip), addr)
  {
    hide Pow2, BitAnd, Mask, AddressValue, PrefixBits, SplitPrefix, VersionOf;
    if ParseCidr(num, piece).value.version == VersionOf(ip) {
      EntryMatchesBlock(num, piece, ip);
    }
  }

  lemma {:induction false} CompiledMembers(num: Reading, pieces: seq<string>, c: Cidr)
    ensures c in Compiled(num, pieces) <==> exists piece :: piece in pieces && ParseCidr(num, piece) == Ok(c)
    decreases |pieces|
  {
    hide ParseCidr;
    if pieces != [] {
      CompiledMembers(num, pieces[1..], c);
      assert pieces == [pieces[0]] + pieces[1..];
    }
  }

  // Some compiled entry matches an address exactly when the list text holds an entry that
  // names it.
  lemma ListedMeans(num: Reading, list: string, ip: string)
    ensures var addr := AddressValue(num, ip, VersionOf(ip));
            var compiled := Compiled(num, Pieces(SplitChar(list, ',')));
            Listed(num, list, ip) <==> addr.Some? && exists c :: c in compiled && Matches(c, VersionOf(ip), addr.value)
  {
    hide AddressValue, VersionOf, ParseCidr, Pieces, SplitChar, Matches, Compiled, InBlock, InList, Names;
    var addr := AddressValue(num, ip, VersionOf(ip));
    var pieces := Pieces(SplitChar(list, ','));
    if addr.Some? {
      forall piece
        ensures piece in pieces <==> InList(list, piece)
        ensures InBlock(num, piece, VersionOf(ip), addr.value) <==> Names(num, piece, VersionOf(ip), addr.value)
      {
        InListIff(list, piece);
        NamesIff(num, piece, VersionOf(ip), addr.value);
      }
      if c :| c in Compiled(num, pieces) && Matches(c, VersionOf(ip), addr.value) {
        CompiledMembers(num, pieces, c);
        var piece :| piece in pieces && ParseCidr(num, piece) == Ok(c);
        PieceMatches(num, piece, ip);
      }
      if piece :| piece in pieces && InBlock(num, piece, VersionOf(ip), addr.value) {
        BlockParses(num, piece, VersionOf(ip), addr.value);
        CompiledMembers(num, pieces, ParseCidr(num, piece).value);
        PieceMatches(num, piece, ip);
      }
    }
  }

  lemma BlockParses(num: Reading, piece: string, version: Version, addr: nat)
    requires InBlock(num, piece, version, addr)
    ensures ParseCidr(num, piece).Ok?
  {
  }

  // ----- the evaluator -----

  class Evaluator {
    const num: Reading
    const compiled: seq<Cidr>
    ghost const list: string // the text the entries were compiled from

    constructor (num: Reading, cidrCsv: string)
      ensures Valid() && this.num == num && this.list == cidrCsv
    {
      var parsed := ParseCidrList(num, cidrCsv);
      this.num := num;
      this.compiled := parsed;
      this.list := cidrCsv;
    }

    ghost predicate Valid() {
      compiled == Compiled(num, Pieces(SplitChar(list, ',')))
    }

    // Whether some entry of the list names the address.
    method Contains(ip: string) returns (r: bool)
      requires Valid()
      ensures r <==> Listed(num, list, ip)
    {
      hide Compiled, Pieces, SplitChar, Listed, AddressValue, VersionOf, BitAnd;
      var version := VersionOf(ip);
      var addr := IpToBigInt(num, ip, version);
      ListedMeans(num, list, ip);
      if addr.None? {
        return false;
      }
      for i := 0 to |compiled|
        invariant forall j :: 0 <= j < i ==> !Matches(compiled[j], version, addr.value)
      {
        var c := compiled[i];
        if c.version == version {
          if BitAnd(addr.value, c.mask) == c.network {
            assert c in compiled && Matches(c, version, addr.value);
            return true;
          }
        }
      }
      return false;
    }
  }

  // ----- the "::" shortcut -----

  // Groups as written in an address: non-empty, without colons.
  ghost predicate PlainGroups(groups: seq<string>) {
    groups != [] ==> groups[0] != "" && ':' !in groups[0] && PlainGroups(groups[1..])
  }

  // Joined groups contain no "::" and no colon at either end.
  lemma {:induction false} NoShortcutInside(groups: seq<string>)
    requires PlainGroups(groups) && groups != []
    ensures var s := Join(groups, ":");
            s != "" && s[0] != ':' && FindShortcut(s) == -1
  {
    var g := groups[0];
    if |groups| == 1 {
      SkipPlain(g, "");
      assert g + "" == g;
    } else {
      var rest := Join(groups[1..], ":");
      JoinCons(groups, ":");
      NoShortcutInside(groups[1..]);
      SkipPlain(g, ":" + rest);
      assert (":" + rest)[1..] == rest;
    }
  }

  // Text without colons only moves the first shortcut.
  lemma {:induction false} SkipPlain(g: string, rest: string)
    requires ':' !in g
    ensures FindShortcut(g + rest) == if FindShortcut(rest) == -1 then -1 else |g| + FindShortcut(rest)
  {
    if g == "" {
      assert g + rest == rest;
    } else {
      assert g[0] in g;
      assert (g + rest)[1..] == g[1..] + rest;
      SkipPlain(g[1..], rest);
      if |g + rest| < 2 {
        assert rest == "";
      }
    }
  }

  lemma {:induction false} SkipGroups(groups: seq<string>, rest: string)
    requires PlainGroups(groups)
    ensures FindShortcut(Join(groups, ":") + ("::" + rest)) == |Join(groups, ":")|
  {
    var tail := "::" + rest;
    if groups == [] {
      assert "" + tail == tail;
    } else if |groups| == 1 {
      SkipPlain(groups[0], tail);
    } else {
      var more := Join(groups[1..], ":");
      JoinCons(groups, ":");
      SkipGroups(groups[1..], rest);
      NoShortcutInside(groups[1..]);
      assert Join(groups, ":") + tail == groups[0] + (":" + (more + tail));
      SkipPlain(groups[0], ":" + (more + tail));
      assert (":" + (more + tail))[1..] == more + tail;
    }
  }

  lemma {:induction false} PlainAreFree(groups: seq<string>)
    requires PlainGroups(groups)
    ensures AllFree(groups, ':')
  {
    if groups != [] {
      PlainAreFree(groups[1..]);
    }
  }

  lemma {:induction false} PlainConcat(a: seq<string>, b: seq<string>)
    ensures PlainGroups(a + b) <==> PlainGroups(a) && PlainGroups(b)
  {
    if a == [] {
      assert a + b == b;
    } else {
      assert (a + b)[1..] == a[1..] + b;
      PlainConcat(a[1..], b);
    }
  }

  lemma {:induction false} ZerosPlain(n: nat)
    ensures PlainGroups(Zeros(n))
    ensures forall i :: 0 <= i < n ==> Zeros(n)[i] == "0"
  {
    if n > 0 {
      ZerosPlain(n - 1);
      assert Zeros(n)[1..] == Zeros(n - 1);
    }
  }

  lemma PartsOfGroups(groups: seq<string>)
    requires PlainGroups(groups)
    ensures PartsOf(Join(groups, ":")) == groups
  {
    if groups != [] {
      PlainAreFree(groups);
      SplitCharJoin(groups, ':');
      NoShortcutInside(groups);
    }
  }

  // Writing the left groups, "::" and the right groups expands to the left groups,
  // zeros, and the right groups.
  lemma ExpandShortcut(left: seq<string>, right: seq<string>)
    requires PlainGroups(left) && PlainGroups(right) && |left| + |right| <= 8
    ensures Expanded(Join(left, ":") + ("::" + Join(right, ":")))
            == Some(Join(left + Zeros(8 - (|left| + |right|)) + right, ":"))
  {
    hide Join, SplitChar, FindShortcut, PlainGroups, Zeros;
    var l, r := Join(left, ":"), Join(right, ":");
    SkipGroups(left, r);
    ShortcutSides(l, r);
    PartsOfGroups(left);
    PartsOfGroups(right);
    RightHasNoShortcut(right);
    hide PartsOf;
  }

  lemma ShortcutSides(l: string, r: string)
    ensures var addr := l + ("::" + r); addr[..|l|] == l && addr[|l| + 2..] == r
  {
  }

  lemma RightHasNoShortcut(right: seq<string>)
    requires PlainGroups(right)
    ensures FindShortcut(Join(right, ":")) == -1
  {
    if right != [] {
      NoShortcutInside(right);
    }
  }

  lemma HexPlain(g: string)
    requires GroupValue(g).Some?
    ensures g != "" && ':' !in g
  {
    HexNoColon(g);
  }

  lemma {:induction false} HexNoColon(g: string)
    requires HexValue(g).Some?
    ensures ':' !in g
  {
    if g != "" {
      HexNoColon(g[..|g| - 1]);
      assert g == g[..|g| - 1] + [g[|g| - 1]];
      assert HexDigit(':') == None;
    }
  }

  lemma {:induction false} HexGroupsPlain(groups: seq<string>)
    requires forall i :: 0 <= i < |groups| ==> GroupValue(groups[i]).Some?
    ensures PlainGroups(groups)
  {
    if groups != [] {
      HexPlain(groups[0]);
      HexGroupsPlain(groups[1..]);
    }
  }

  // Every placement of "::" over a run of zero groups (possibly empty) denotes the
  // value of the address with all eight groups written out (section 2.2 of RFC 4291).
  lemma ShortcutKeepsValue(num: Reading, groups: seq<string>, i: nat, j: nat)
    requires |groups| == 8 && i <= j <= 8
    requires forall k :: 0 <= k < 8 ==> GroupValue(groups[k]).Some?
    requires forall k :: i <= k < j ==> GroupValue(groups[k]) == Some(0)
    ensures AddressValue(num, Join(groups[..i], ":") + ("::" + Join(groups[j..], ":")), V6)
            == AddressValue(num, Join(groups, ":"), V6)
            == Fold(GroupValues(groups), 16)
  {
    hide *;
    var written := Written(groups, i, j);
    HexGroupsPlain(groups);
    WrittenGroups(groups, i, j);
    ExpandWritten(groups, i, j);
    PlainValue(num, Join(groups[..i], ":") + ("::" + Join(groups[j..], ":")), written);
    FullForm(groups);
    PlainValue(num, Join(groups, ":"), groups);
  }

  // The groups with those from i to j written as "0".
  function Written(groups: seq<string>, i: nat, j: nat): seq<string>
    requires i <= j <= |groups|
  {
    groups[..i] + Zeros(j - i) + groups[j..]
  }

  lemma WrittenGroups(groups: seq<string>, i: nat, j: nat)
    requires i <= j <= |groups| && PlainGroups(groups)
    requires forall k :: i <= k < j ==> GroupValue(groups[k]) == Some(0)
    ensures var written := Written(groups, i, j);
            |written| == |groups| && PlainGroups(written) && GroupValues(written) == GroupValues(groups)
    ensures PlainGroups(groups[..i]) && PlainGroups(groups[j..])
  {
    hide Zeros, PlainGroups, GroupValue;
    var left, mid, right, zeros := groups[..i], groups[i..j], groups[j..], Zeros(j - i);
    assert groups == left + mid + right;
    ZerosPlain(j - i);
    PlainConcat(left, mid);
    PlainConcat(left + mid, right);
    PlainConcat(left, zeros);
    PlainConcat(left + zeros, right);
    ZeroGroup();
    var written := Written(groups, i, j);
    forall k | 0 <= k < |groups| ensures GroupValue(written[k]) == GroupValue(groups[k]) {
      assert i <= k < j ==> written[k] == zeros[k - i];
    }
    assert GroupValues(written) == GroupValues(groups);
  }

  lemma ExpandWritten(groups: seq<string>, i: nat, j: nat)
    requires i <= j <= |groups| == 8 && PlainGroups(groups[..i]) && PlainGroups(groups[j..])
    ensures Expanded(Join(groups[..i], ":") + ("::" + Join(groups[j..], ":"))) == Some(Join(Written(groups, i, j), ":"))
  {
    hide Join, Expanded, PlainGroups, Zeros;
    ExpandShortcut(groups[..i], groups[j..]);
  }

  // An address that expands to eight plain groups has their value.
  lemma PlainValue(num: Reading, addr: string, groups: seq<string>)
    requires |groups| == 8 && PlainGroups(groups) && Expanded(addr) == Some(Join(groups, ":"))
    ensures AddressValue(num, addr, V6) == Fold(GroupValues(groups), 16)
  {
    hide Join, Expanded, PlainGroups, SplitChar, Fold, AllFree, GroupValues;
    PlainAreFree(groups);
    SplitCharJoin(groups, ':');
  }

  lemma ZeroGroup()
    ensures GroupValue("0") == Some(0)
  {
    assert HexValue("") == Some(0) && HexDigit('0') == Some(0);
    assert "0"[..0] == "";
  }

  lemma FullForm(groups: seq<string>)
    requires PlainGroups(groups) && groups != []
    ensures Expanded(Join(groups, ":")) == Some(Join(groups, ":"))
  {
    NoShortcutInside(groups);
  }
}

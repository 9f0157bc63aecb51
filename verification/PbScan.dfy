// The protobuf scanner for geo data files (apps/server/src/catalog/pb-scan.ts).
// Names are returned as bytes; their UTF-8 decoding is not part of this model.
module PbScan {
  import opened Outcome
  import opened Bits

  type Byte = b: int | 0 <= b < 256

  type Bytes = seq<Byte>

  const MAX_VARINT_BYTES: nat := 10

  // ----- specification on the unread bytes -----

  // Reads at most k bytes; a truncated varint ends with the buffer.
  function Varint(s: Bytes, k: nat): (nat, Bytes)
    decreases k
  {
    if k == 0 || s == [] then (0, s)
    else if s[0] < 128 then (s[0], s[1..])
    else
      var (high, rest) := Varint(s[1..], k - 1);
      (s[0] - 128 + 128 * high, rest)
  }

  lemma {:induction false} VarintSuffix(s: Bytes, k: nat)
    ensures var rest := Varint(s, k).1;
            && |rest| <= |s| && rest == s[|s| - |rest|..]
            && (k > 0 && s != [] ==> |rest| < |s|)
    decreases k
  {
    if k > 0 && s != [] && s[0] >= 128 {
      VarintSuffix(s[1..], k - 1);
    }
  }

  function Read(s: Bytes): (r: (nat, Bytes))
    ensures |r.1| <= |s| && (s != [] ==> |r.1| < |s|)
  {
    VarintSuffix(s, MAX_VARINT_BYTES);
    Varint(s, MAX_VARINT_BYTES)
  }

  // Splits off n bytes, or all that is left.
  function Take(s: Bytes, n: nat): (r: (Bytes, Bytes))
    ensures |r.1| <= |s| && r.0 + r.1 == s
  {
    if n <= |s| then (s[..n], s[n..]) else (s, [])
  }

  function Skip(s: Bytes, wire: nat): (rest: Bytes)
    ensures |rest| <= |s|
  {
    match wire
    case 0 => Read(s).1
    case 1 => Take(s, 8).1
    case 2 => var (len, r) := Read(s); Take(r, len).1
    case 5 => Take(s, 4).1
    case _ => []
  }

  // The first length-delimited field 1.
  function InnerName(s: Bytes): Option<Bytes>
    decreases |s|
  {
    if s == [] then None
    else
      var (tag, r) := Read(s);
      if tag / 8 == 1 && tag % 8 == 2 then
        var (len, body) := Read(r);
        Some(Take(body, len).0)
      else InnerName(Skip(r, tag % 8))
  }

  function Names(s: Bytes): seq<Bytes>
    decreases |s|
  {
    if s == [] then []
    else
      var (tag, r) := Read(s);
      if tag / 8 == 1 && tag % 8 == 2 then
        var (len, body) := Read(r);
        var (inner, rest) := Take(body, len);
        (match InnerName(inner) case Some(name) => [name] case None => []) + Names(rest)
      else Names(Skip(r, tag % 8))
  }

  // ----- the reader -----

  class Reader {
    const buf: Bytes
    var pos: nat

    constructor (buf: Bytes)
      ensures this.buf == buf && pos == 0
    {
      this.buf := buf;
      pos := 0;
    }

    ghost predicate Valid()
      reads this
    {
      pos <= |buf|
    }

    // The bytes not yet read.
    ghost function Rest(): Bytes
      requires Valid()
      reads this
    {
      buf[pos..]
    }

    predicate HasMore()
      reads this
    {
      pos < |buf|
    }

    method Finish()
      modifies this
      ensures Valid() && Rest() == []
    {
      pos := |buf|;
    }

    method ReadVarint() returns (result: nat)
      requires Valid()
      modifies this
      ensures Valid() && old(pos) <= pos
      ensures (result, Rest()) == Read(old(Rest()))
    {
      hide Varint, BitOr, BitAnd, ShiftLeft, Pow2;
      result := 0;
      var shift := 0;
      ghost var whole := Varint(Rest(), 10);
      VarintStart();
      for i := 0 to 10
        invariant Valid() && old(pos) <= pos && shift == 7 * i && result < Pow2(shift)
        invariant var (high, rest) := Varint(Rest(), 10 - i);
                  whole == (result + Pow2(shift) * high, rest)
      {
        VarintStep(Rest(), 10 - i);
        if pos >= |buf| {
          return;
        }
        var b := buf[pos];
        assert Rest()[0] == b && Rest()[1..] == buf[pos + 1..];
        pos := pos + 1;
        MergeByte(result, b, shift, Varint(Rest(), 9 - i).0);
        result := BitOr(result, ShiftLeft(BitAnd(b, 0x7f), shift));
        if BitAnd(b, 0x80) == 0 {
          return;
        }
        shift := shift + 7;
      }
      VarintStep(Rest(), 0);
    }

    method ReadBytes(n: nat) returns (out: Bytes)
      requires Valid()
      modifies this
      ensures Valid() && old(pos) <= pos
      ensures (out, Rest()) == Take(old(Rest()), n)
    {
      var end := if pos + n < |buf| then pos + n else |buf|;
      out := buf[pos..end];
      assert buf[pos..][..end - pos] == out && buf[pos..][end - pos..] == buf[end..];
      pos := end;
    }

    method SkipField(wire: nat)
      requires Valid()
      modifies this
      ensures Valid() && old(pos) <= pos
      ensures Rest() == Skip(old(Rest()), wire)
    {
      match wire
      case 0 => var _ := ReadVarint();
      case 1 => var _ := ReadBytes(8);
      case 2 =>
        var len := ReadVarint();
        var _ := ReadBytes(len);
      case 5 => var _ := ReadBytes(4);
      case _ => Finish();
    }
  }

  lemma ByteParts(b: Byte)
    ensures BitAnd(b, 0x7f) == b % 128
    ensures BitAnd(b, 0x80) == 0 <==> b < 128
  {
    assert Pow2(7) == 128 by { assert Pow2(3) == 8; assert Pow2(4) == 16; }
    AndLowMask(b, 7);
    assert Pow2(8) == 256;
    AndHighMask(b, 7, 8);
    assert HighBits(7, 8) == 128;
  }

  lemma VarintStart()
    ensures Pow2(0) == 1
  {
  }

  lemma VarintStep(s: Bytes, k: nat)
    ensures Varint(s, k) ==
            if k == 0 || s == [] then (0, s)
            else if s[0] < 128 then (s[0], s[1..])
            else (s[0] - 128 + 128 * Varint(s[1..], k - 1).0, Varint(s[1..], k - 1).1)
  {
  }

  // Merging the low seven bits of b above the bits read so far.
  lemma MergeByte(low: nat, b: Byte, shift: nat, high: nat)
    requires low < Pow2(shift)
    ensures var merged := BitOr(low, ShiftLeft(BitAnd(b, 0x7f), shift));
            && merged < Pow2(shift + 7)
            && (BitAnd(b, 0x80) == 0 ==> b < 128 && merged == low + Pow2(shift) * b)
            && (BitAnd(b, 0x80) != 0 ==>
                  b >= 128 && merged + Pow2(shift + 7) * high == low + Pow2(shift) * (b - 128 + 128 * high))
  {
    hide BitOr, BitAnd, Pow2;
    ByteParts(b);
    OrShifted(low, b % 128, shift);
    NextShift(low, b % 128, shift);
    Pow2Next(shift);
    if b >= 128 {
      assert b % 128 == b - 128;
      Distribute(Pow2(shift), b - 128, high);
    }
  }

  lemma Pow2Next(n: nat)
    ensures Pow2(n + 7) == Pow2(n) * 128
  {
    Pow2Add(n, 7);
    assert Pow2(7) == 128 by { assert Pow2(3) == 8; assert Pow2(4) == 16; }
  }

  lemma NextShift(low: nat, x: nat, n: nat)
    requires low < Pow2(n) && x < 128
    ensures low + x * Pow2(n) < Pow2(n + 7)
  {
    Pow2Add(7, n);
    assert Pow2(7) == 128 by { assert Pow2(3) == 8; assert Pow2(4) == 16; }
    assert x * Pow2(n) <= 127 * Pow2(n);
  }

  lemma Distribute(k: nat, x: nat, high: nat)
    ensures k * x + (k * 128) * high == k * (x + 128 * high)
  {
  }

  method ScanInnerCountryCode(buf: Bytes) returns (name: Option<Bytes>)
    ensures name == InnerName(buf)
  {
    var r := new Reader(buf);
    assert buf[0..] == buf;
    while r.HasMore()
      invariant r.Valid() && r.buf == buf && fresh(r)
      invariant InnerName(buf) == InnerName(r.Rest())
      decreases |buf| - r.pos
    {
      hide Varint, Take, Skip;
      var tag := r.ReadVarint();
      TagParts(tag);
      var field, wire := ShiftRight(tag, 3), BitAnd(tag, 0x7);
      if field == 1 && wire == 2 {
        var len := r.ReadVarint();
        var bytes := r.ReadBytes(len);
        return Some(bytes);
      }
      r.SkipField(wire);
    }
    return None;
  }

  lemma TagParts(tag: nat)
    ensures ShiftRight(tag, 3) == tag / 8 && BitAnd(tag, 0x7) == tag % 8
  {
    assert ShiftRight(tag, 3) == ShiftRight(tag / 2, 2);
    assert ShiftRight(tag / 2, 2) == ShiftRight(tag / 2 / 2, 1);
    assert ShiftRight(tag / 2 / 2, 1) == ShiftRight(tag / 2 / 2 / 2, 0);
    assert Pow2(3) == 8;
    AndLowMask(tag, 3);
  }

  lemma NamesStep(s: Bytes, out: seq<Bytes>)
    requires s != []
    ensures var (tag, r) := Read(s);
            if tag / 8 == 1 && tag % 8 == 2 then
              var (len, body) := Read(r);
              var (inner, rest) := Take(body, len);
              var name := InnerName(inner);
              out + Names(s) == (if name.Some? then out + [name.value] else out) + Names(rest)
            else out + Names(s) == out + Names(Skip(r, tag % 8))
  {
    hide Read, Take, Skip, InnerName;
    var (tag, r) := Read(s);
    if tag / 8 == 1 && tag % 8 == 2 {
      var (len, body) := Read(r);
      var (inner, rest) := Take(body, len);
      NamesCons(s, tag, r, len, body, inner, rest);
      hide Names;
      Appended(out, InnerName(inner), Names(rest));
    }
  }

  lemma NamesCons(s: Bytes, tag: nat, r: Bytes, len: nat, body: Bytes, inner: Bytes, rest: Bytes)
    requires s != [] && Read(s) == (tag, r) && tag / 8 == 1 && tag % 8 == 2 && Read(r) == (len, body) && Take(body, len) == (inner, rest)
    ensures Names(s) == (match InnerName(inner) case Some(name) => [name] case None => []) + Names(rest)
  {
    hide Read, Take, Skip, InnerName;
  }

  lemma Appended(out: seq<Bytes>, name: Option<Bytes>, more: seq<Bytes>)
    ensures out + ((match name case Some(n) => [n] case None => []) + more) == (if name.Some? then out + [name.value] else out) + more
  {
  }

  // Scans the whole buffer; each iteration moves the cursor, so there are at most
  // |buf| of them.
  method Scan(buf: Bytes) returns (out: seq<Bytes>, ghost iterations: nat)
    ensures out == Names(buf)
    ensures iterations <= |buf|
  {
    out := [];
    iterations := 0;
    var r := new Reader(buf);
    assert buf[0..] == buf;
    while r.HasMore()
      invariant r.Valid() && r.buf == buf && fresh(r)
      invariant iterations <= r.pos
      invariant Names(buf) == out + Names(r.Rest())
      decreases |buf| - r.pos
    {
      hide Names, Read, Take, Skip, InnerName;
      NamesStep(r.Rest(), out);
      iterations := iterations + 1;
      var tag := r.ReadVarint();
      TagParts(tag);
      var field, wire := ShiftRight(tag, 3), BitAnd(tag, 0x7);
      if field == 1 && wire == 2 {
        var len := r.ReadVarint();
        var inner := r.ReadBytes(len);
        var name := ScanInnerCountryCode(inner);
        if name.Some? {
          out := out + [name.value];
        }
      } else {
        r.SkipField(wire);
      }
    }
  }

  // ----- an encoder -----

  function EncodeVarint(n: nat): Bytes {
    if n < 128 then [n] else [n % 128 + 128] + EncodeVarint(n / 128)
  }

  datatype Field =
    | VarintField(num: nat, value: nat)
    | Fixed64(num: nat, bytes: Bytes)
    | Delimited(num: nat, bytes: Bytes)
    | Fixed32(num: nat, bytes: Bytes)

  function WireType(f: Field): nat {
    match f
    case VarintField(_, _) => 0
    case Fixed64(_, _) => 1
    case Delimited(_, _) => 2
    case Fixed32(_, _) => 5
  }

  function Body(f: Field): Bytes {
    match f
    case VarintField(_, value) => EncodeVarint(value)
    case Fixed64(_, bytes) => bytes
    case Delimited(_, bytes) => EncodeVarint(|bytes|) + bytes
    case Fixed32(_, bytes) => bytes
  }

  function EncodeField(f: Field): Bytes {
    EncodeVarint(8 * f.num + WireType(f)) + Body(f)
  }

  function EncodeFields(fs: seq<Field>): Bytes {
    if fs == [] then [] else EncodeField(fs[0]) + EncodeFields(fs[1..])
  }

  // Numbers fit the ten bytes of a varint, fixed fields have their width.
  predicate Encodable(f: Field) {
    && 8 * f.num + WireType(f) < Pow2(70)
    && match f
       case VarintField(_, value) => value < Pow2(70)
       case Fixed64(_, bytes) => |bytes| == 8
       case Delimited(_, bytes) => |bytes| < Pow2(70)
       case Fixed32(_, bytes) => |bytes| == 4
  }

  predicate AllEncodable(fs: seq<Field>) {
    fs != [] ==> Encodable(fs[0]) && AllEncodable(fs[1..])
  }

  predicate IsNameField(f: Field) {
    f.Delimited? && f.num == 1
  }

  // The first length-delimited field 1 of a message.
  function NameOf(fs: seq<Field>): Option<Bytes> {
    if fs == [] then None
    else if IsNameField(fs[0]) then Some(fs[0].bytes)
    else NameOf(fs[1..])
  }

  // A list message: entries (field 1, nested messages) among unknown fields.
  datatype Item = GeoEntry(fields: seq<Field>) | Unknown(field: Field)

  function FieldOf(item: Item): Field {
    match item
    case GeoEntry(fields) => Delimited(1, EncodeFields(fields))
    case Unknown(field) => field
  }

  function EncodeItems(items: seq<Item>): Bytes {
    if items == [] then [] else EncodeField(FieldOf(items[0])) + EncodeItems(items[1..])
  }

  predicate ItemOk(item: Item) {
    && Encodable(FieldOf(item))
    && match item
       case GeoEntry(fields) => AllEncodable(fields)
       case Unknown(field) => !IsNameField(field)
  }

  function ItemNames(items: seq<Item>): seq<Bytes> {
    if items == [] then []
    else
      (match items[0]
       case GeoEntry(fields) => (match NameOf(fields) case Some(name) => [name] case None => [])
       case Unknown(_) => [])
      + ItemNames(items[1..])
  }

  // ----- decoding inverts encoding -----

  lemma {:induction false} VarintRoundTripUpTo(n: nat, rest: Bytes, k: nat)
    requires k > 0 && n < Pow2(7 * k)
    ensures Varint(EncodeVarint(n) + rest, k) == (n, rest)
    decreases k
  {
    if n >= 128 {
      var tail := EncodeVarint(n / 128) + rest;
      assert EncodeVarint(n) + rest == [n % 128 + 128] + tail;
      assert Pow2(7) == 128 by { assert Pow2(3) == 8; assert Pow2(4) == 16; }
      if k == 1 { assert false; }
      Pow2Add(7, 7 * (k - 1));
      VarintRoundTripUpTo(n / 128, rest, k - 1);
    }
  }

  // Reading a varint back gives the number and leaves the bytes behind it.
  lemma VarintRoundTrip(n: nat, rest: Bytes)
    requires n < Pow2(70)
    ensures Read(EncodeVarint(n) + rest) == (n, rest)
  {
    VarintRoundTripUpTo(n, rest, 10);
  }

  lemma TakeExactly(bytes: Bytes, rest: Bytes)
    ensures Take(bytes + rest, |bytes|) == (bytes, rest)
  {
  }

  // The scanner reads the tag of an encoded field.
  lemma ReadTag(f: Field, body: Bytes, rest: Bytes)
    requires Encodable(f)
    ensures var s := EncodeVarint(8 * f.num + WireType(f)) + body + rest;
            && s != [] && Read(s) == (8 * f.num + WireType(f), body + rest)
            && Read(s).0 / 8 == f.num && Read(s).0 % 8 == WireType(f)
  {
    var tag := 8 * f.num + WireType(f);
    VarintRoundTrip(tag, body + rest);
    assert EncodeVarint(tag) + body + rest == EncodeVarint(tag) + (body + rest);
  }

  // Skipping a field consumes exactly its body.
  lemma SkipBody(f: Field, rest: Bytes)
    requires Encodable(f)
    ensures Skip(Body(f) + rest, WireType(f)) == rest
  {
    hide Read, Take;
    match f
    case VarintField(_, value) => VarintRoundTrip(value, rest);
    case Fixed64(_, bytes) => TakeExactly(bytes, rest);
    case Delimited(_, bytes) => DelimitedBody(bytes, rest);
    case Fixed32(_, bytes) => TakeExactly(bytes, rest);
  }

  lemma DelimitedBody(bytes: Bytes, rest: Bytes)
    requires |bytes| < Pow2(70)
    ensures var s := EncodeVarint(|bytes|) + bytes + rest;
            Read(s) == (|bytes|, bytes + rest) && Take(bytes + rest, |bytes|) == (bytes, rest)
  {
    hide Read, EncodeVarint;
    VarintRoundTrip(|bytes|, bytes + rest);
    assert EncodeVarint(|bytes|) + bytes + rest == EncodeVarint(|bytes|) + (bytes + rest);
    TakeExactly(bytes, rest);
  }

  lemma {:induction false} InnerRoundTrip(fs: seq<Field>)
    requires AllEncodable(fs)
    ensures InnerName(EncodeFields(fs)) == NameOf(fs)
  {
    if fs != [] {
      hide Read, Take, Skip, EncodeVarint, InnerName, Body;
      var f, rest := fs[0], EncodeFields(fs[1..]);
      ReadTag(f, Body(f), rest);
      InnerStep(EncodeField(f) + rest, 8 * f.num + WireType(f), Body(f) + rest);
      if IsNameField(f) {
        DelimitedBody(f.bytes, rest);
        assert Body(f) == EncodeVarint(|f.bytes|) + f.bytes by { DelimitedIs(f); }
      } else {
        SkipBody(f, rest);
        InnerRoundTrip(fs[1..]);
      }
    }
  }

  lemma DelimitedIs(f: Field)
    requires f.Delimited?
    ensures Body(f) == EncodeVarint(|f.bytes|) + f.bytes
  {
  }

  lemma InnerStep(s: Bytes, tag: nat, r: Bytes)
    requires s != [] && Read(s) == (tag, r)
    ensures InnerName(s) ==
            if tag / 8 == 1 && tag % 8 == 2 then Some(Take(Read(r).1, Read(r).0).0) else InnerName(Skip(r, tag % 8))
  {
    hide Read, Take, Skip;
  }

  // Scanning an encoded list returns exactly the names of its entries, in order.
  lemma {:induction false} ScanInvertsEncoding(items: seq<Item>)
    requires forall i :: 0 <= i < |items| ==> ItemOk(items[i])
    ensures Names(EncodeItems(items)) == ItemNames(items)
  {
    if items != [] {
      assert ItemOk(items[0]);
      ScanInvertsEncoding(items[1..]);
      hide Names, NameOf, ItemOk, FieldOf;
      match items[0]
      case GeoEntry(fields) => EntryScanned(fields, EncodeItems(items[1..]));
      case Unknown(field) => UnknownScanned(field, EncodeItems(items[1..]));
    }
  }

  lemma EntryScanned(fields: seq<Field>, rest: Bytes)
    requires ItemOk(GeoEntry(fields))
    ensures Names(EncodeField(FieldOf(GeoEntry(fields))) + rest) == (match NameOf(fields) case Some(name) => [name] case None => []) + Names(rest)
  {
    hide Read, Take, Skip, EncodeVarint, InnerName, NameOf, Names, EncodeFields, AllEncodable;
    var f := FieldOf(GeoEntry(fields));
    ReadTag(f, Body(f), rest);
    DelimitedBody(f.bytes, rest);
    InnerRoundTrip(fields);
    var s := EncodeField(f) + rest;
    NamesCons(s, 10, Body(f) + rest, |f.bytes|, f.bytes + rest, f.bytes, rest);
  }

  lemma UnknownScanned(f: Field, rest: Bytes)
    requires ItemOk(Unknown(f))
    ensures Names(EncodeField(f) + rest) == Names(rest)
  {
    hide Read, Take, Skip, EncodeVarint, InnerName, NameOf, Names, Body, EncodeFields, AllEncodable;
    ReadTag(f, Body(f), rest);
    SkipBody(f, rest);
    NamesSkip(EncodeField(f) + rest, 8 * f.num + WireType(f), Body(f) + rest);
  }

  lemma NamesSkip(s: Bytes, tag: nat, r: Bytes)
    requires s != [] && Read(s) == (tag, r) && !(tag / 8 == 1 && tag % 8 == 2)
    ensures Names(s) == Names(Skip(r, tag % 8))
  {
    hide Read, Take, Skip, InnerName;
  }
}

// What the geo data scanner makes of any buffer: varints of any length, unknown wire types
// and data that is cut short (apps/server/src/catalog/pb-scan.ts).
module PbDamage {
  import opened Outcome
  import opened Bits
  import opened PbScan

  // ----- varints -----

  // Seven bits of every byte, the first the lowest.
  function Base128(head: Bytes): nat {
    if head == [] then 0 else head[0] % 128 + 128 * Base128(head[1..])
  }

  // head is what a varint of at most k bytes takes from a buffer: all its bytes but the
  // last announce another one, and it ends with a byte that does not, with the
  // k-th byte, or with the buffer.
  ghost predicate Ends(head: Bytes, rest: Bytes, k: nat) {
    && |head| <= k
    && (forall i :: 0 <= i < |head| - 1 ==> head[i] >= 128)
    && (|head| == k || (head != [] && head[|head| - 1] < 128) || (rest == [] && (head == [] || head[|head| - 1] >= 128)))
  }

  ghost predicate Splits(s: Bytes, k: nat, head: Bytes, n: nat, rest: Bytes) {
    s == head + rest && Ends(head, rest, k) && n == Base128(head)
  }

  lemma SplitsCons(b: Byte, s: Bytes, k: nat, head: Bytes, n: nat, rest: Bytes)
    requires b >= 128 && Splits(s, k, head, n, rest)
    ensures Splits([b] + s, k + 1, [b] + head, b - 128 + 128 * n, rest)
  {
    var more := [b] + head;
    assert more[1..] == head && b % 128 == b - 128;
    assert [b] + s == more + rest;
    forall i | 0 <= i < |more| - 1 ensures more[i] >= 128 {
      if i > 0 {
        assert more[i] == head[i - 1];
      }
    }
  }

  lemma SplitsLast(s: Bytes, k: nat)
    ensures k == 0 || s == [] ==> Splits(s, k, [], 0, s)
    ensures k > 0 && s != [] && s[0] < 128 ==> Splits(s, k, [s[0]], s[0], s[1..])
  {
    if s != [] {
      assert [s[0]][1..] == [];
    }
  }

  lemma {:induction false} VarintSplits(s: Bytes, k: nat) returns (head: Bytes)
    ensures Splits(s, k, head, Varint(s, k).0, Varint(s, k).1)
    decreases k
  {
    hide Splits;
    SplitsLast(s, k);
    if k == 0 || s == [] {
      head := [];
    } else if s[0] < 128 {
      head := [s[0]];
    } else {
      var more := VarintSplits(s[1..], k - 1);
      head := [s[0]] + more;
      SplitsCons(s[0], s[1..], k - 1, more, Varint(s[1..], k - 1).0, Varint(s[1..], k - 1).1);
      assert s == [s[0]] + s[1..];
    }
  }

  lemma {:induction false} SplitsVarint(s: Bytes, k: nat, head: Bytes, n: nat, rest: Bytes)
    requires Splits(s, k, head, n, rest)
    ensures Varint(s, k) == (n, rest)
    decreases k
  {
    if head == [] {
      assert s == rest;
    } else {
      assert s[0] == head[0] && s[1..] == head[1..] + rest;
      if |head| == 1 && s[0] < 128 {
        assert Base128(head[1..]) == 0;
      } else if k > 0 && s[0] >= 128 {
        SplitsVarint(s[1..], k - 1, head[1..], Base128(head[1..]), rest);
      }
    }
  }

  // Reading a varint, on every buffer.
  lemma ReadIff(s: Bytes, n: nat, rest: Bytes)
    ensures Read(s) == (n, rest) <==> exists head :: Splits(s, 10, head, n, rest)
  {
    hide Splits, Varint;
    if Read(s) == (n, rest) {
      var head := VarintSplits(s, 10);
    }
    if head :| Splits(s, 10, head, n, rest) {
      SplitsVarint(s, 10, head, n, rest);
    }
  }

  // ----- after whole fields -----

  // Whatever follows the fields of an entry is scanned only if none of them is its name.
  lemma {:induction false} InnerThenTail(fs: seq<Field>, tail: Bytes)
    requires AllEncodable(fs)
    ensures InnerName(EncodeFields(fs) + tail) == if NameOf(fs).Some? then NameOf(fs) else InnerName(tail)
  {
    if fs == [] {
      assert EncodeFields(fs) + tail == tail;
    } else {
      hide Read, Take, Skip, EncodeVarint, InnerName, Body;
      var f, rest := fs[0], EncodeFields(fs[1..]) + tail;
      assert EncodeFields(fs) + tail == EncodeField(f) + rest;
      ReadTag(f, Body(f), rest);
      InnerStep(EncodeField(f) + rest, 8 * f.num + WireType(f), Body(f) + rest);
      if IsNameField(f) {
        DelimitedBody(f.bytes, rest);
        DelimitedIs(f);
      } else {
        SkipBody(f, rest);
        InnerThenTail(fs[1..], tail);
      }
    }
  }

  lemma ItemsCons(items: seq<Item>, tail: Bytes)
    requires items != []
    ensures EncodeItems(items) + tail == EncodeField(FieldOf(items[0])) + (EncodeItems(items[1..]) + tail)
  {
    hide EncodeField, FieldOf;
    ConcatThree(EncodeField(FieldOf(items[0])), EncodeItems(items[1..]), tail);
  }

  lemma ConcatThree<T>(a: seq<T>, b: seq<T>, c: seq<T>)
    ensures (a + b) + c == a + (b + c)
  {
  }

  lemma ItemScanned(item: Item, rest: Bytes)
    requires ItemOk(item)
    ensures Names(EncodeField(FieldOf(item)) + rest) == ItemNames([item]) + Names(rest)
  {
    hide Names, NameOf, ItemOk, EncodeField, EncodeFields;
    assert ItemNames([]) == [];
    match item
    case GeoEntry(fields) => EntryScanned(fields, rest);
    case Unknown(field) => UnknownScanned(field, rest);
  }

  lemma ItemNamesCons(items: seq<Item>)
    requires items != []
    ensures ItemNames(items) == ItemNames([items[0]]) + ItemNames(items[1..])
  {
    hide NameOf;
    assert ItemNames([]) == [];
  }

  lemma NoItems(tail: Bytes)
    ensures EncodeItems([]) + tail == tail && ItemNames([]) + Names(tail) == Names(tail)
  {
    hide Names;
  }

  // The names of whole items come first, whatever follows them.
  lemma {:induction false} ItemsThenTail(items: seq<Item>, tail: Bytes)
    requires forall i :: 0 <= i < |items| ==> ItemOk(items[i])
    ensures Names(EncodeItems(items) + tail) == ItemNames(items) + Names(tail)
  {
    hide *;
    if items == [] {
      NoItems(tail);
    } else {
      assert ItemOk(items[0]);
      ItemsCons(items, tail);
      ItemScanned(items[0], EncodeItems(items[1..]) + tail);
      ItemNamesCons(items);
      ItemsThenTail(items[1..], tail);
      ConcatThree(ItemNames([items[0]]), ItemNames(items[1..]), Names(tail));
    }
  }

  // ----- damage -----

  lemma NothingLeft()
    ensures Read([]) == (0, []) && Names([]) == [] && InnerName([]) == None
  {
  }

  // A field of another wire type ends the scan, at both levels.
  lemma UnknownWireStops(head: Bytes, rest: Bytes)
    requires head != [] && Ends(head, rest, 10) && Base128(head) % 8 in {3, 4, 6, 7}
    ensures Names(head + rest) == [] && InnerName(head + rest) == None
  {
    hide Read, Take, Ends, Base128, Names, InnerName;
    var s, tag := head + rest, Base128(head);
    ReadIff(s, tag, rest);
    assert Splits(s, 10, head, tag, rest);
    NothingLeft();
    NamesSkip(s, tag, rest);
    InnerStep(s, tag, rest);
  }

  // The body of a field with fewer bytes than it should have.
  ghost predicate CutBody(wire: nat, cut: Bytes) {
    match wire
    case 0 => |cut| < 10 && forall i :: 0 <= i < |cut| ==> cut[i] >= 128
    case 1 => |cut| < 8
    case 2 => Read(cut).0 > |Read(cut).1|
    case 5 => |cut| < 4
    case _ => false
  }

  lemma CutSkip(wire: nat, cut: Bytes)
    requires CutBody(wire, cut)
    ensures Skip(cut, wire) == []
  {
    hide Read;
    if wire == 0 {
      ReadIff(cut, Base128(cut), []);
      assert cut + [] == cut;
      assert Splits(cut, 10, cut, Base128(cut), []);
    }
  }

  // A field cut short that is not the one looked for gives nothing.
  lemma CutFieldIsDropped(head: Bytes, cut: Bytes)
    requires head != [] && Ends(head, cut, 10)
    requires var tag := Base128(head);
             tag != 10 && CutBody(tag % 8, cut)
    ensures Names(head + cut) == [] && InnerName(head + cut) == None
  {
    hide Read, Take, Ends, Base128, Names, InnerName, Skip, CutBody;
    var s, tag := head + cut, Base128(head);
    ReadIff(s, tag, cut);
    assert Splits(s, 10, head, tag, cut);
    CutSkip(tag % 8, cut);
    NothingLeft();
    NamesSkip(s, tag, cut);
    InnerStep(s, tag, cut);
  }

  // An entry or a name cut short is what is there of it: a name is the bytes that are left,
  // an entry is scanned as if it ended with the buffer.
  lemma CutEntryIsRead(len: nat, bytes: Bytes)
    requires |bytes| < len < Pow2(70)
    ensures var s := [10] + (EncodeVarint(len) + bytes);
            && InnerName(s) == Some(bytes)
            && Names(s) == match InnerName(bytes) case Some(name) => [name] case None => []
  {
    hide EncodeVarint, Names, InnerName, Pow2;
    var body := EncodeVarint(len) + bytes;
    var s: Bytes := [10] + body;
    assert s[0] == 10 && s[1..] == body;
    OneByte(s);
    VarintRoundTrip(len, bytes);
    hide Read;
    NothingLeft();
    InnerStep(s, 10, body);
    NamesCons(s, 10, body, len, bytes, bytes, []);
    NoMore(InnerName(bytes));
  }

  lemma NoMore(name: Option<Bytes>)
    ensures (match name case Some(n) => [n] case None => []) + [] == match name case Some(n) => [n] case None => []
  {
  }

  lemma OneByte(s: Bytes)
    requires s != [] && s[0] < 128
    ensures Read(s) == (s[0], s[1..])
  {
  }
}

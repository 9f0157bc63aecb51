// The order in which the settings are written, and which values are read as settings.
module ProfileOrder {
  import opened Outcome
  import opened Text
  import opened ProfileTree
  import opened ProfileLens
  import opened ProfileLaws

  // ----- the extras, sorted -----

  ghost predicate SortedKeys(fields: seq<Field>) {
    forall i, j :: 0 <= i < j < |fields| ==> Less(fields[i].key, fields[j].key)
  }

  ghost predicate KeysFrom(fields: seq<Field>, order: seq<string>) {
    forall f :: f in fields ==> f.key in order
  }

  lemma {:induction false} MemberAt(fields: seq<Field>, f: Field)
    requires f in fields
    ensures FieldAt(fields, f.key).Some?
  {
    if f != fields[0] {
      MemberAt(fields[1..], f);
    }
  }

  lemma {:induction false} InsertSorted(fields: seq<Field>, f: Field)
    requires SortedKeys(fields) && FieldAt(fields, f.key).None?
    ensures SortedKeys(InsertField(fields, f))
  {
    if fields != [] {
      hide Less;
      var placed := InsertField(fields, f);
      LessTotal(f.key, fields[0].key);
      if Less(f.key, fields[0].key) {
        forall j | 1 < j < |placed| ensures Less(placed[0].key, placed[j].key) {
          assert placed[j] == fields[j - 1];
          LessTransitive(f.key, fields[0].key, fields[j - 1].key);
        }
      } else {
        InsertSorted(fields[1..], f);
        forall j | 0 < j < |placed| ensures Less(placed[0].key, placed[j].key) {
          assert placed[j] in placed[1..];
          InsertMember(fields[1..], f, placed[j]);
        }
      }
    }
  }

  lemma {:induction false} SortSorted(fields: seq<Field>)
    requires DistinctFields(fields)
    ensures SortedKeys(SortFields(fields))
  {
    if fields != [] {
      SortSorted(fields[1..]);
      SortAt(fields[1..], fields[0].key);
      InsertSorted(SortFields(fields[1..]), fields[0]);
    }
  }

  // ----- the known keys, in their order -----

  ghost predicate Precedes(order: seq<string>, a: string, b: string) {
    exists p, q :: 0 <= p < q < |order| && order[p] == a && order[q] == b
  }

  ghost predicate ByOrder(fields: seq<Field>, order: seq<string>) {
    && KeysFrom(fields, order)
    && forall i, j :: 0 <= i < j < |fields| ==> Precedes(order, fields[i].key, fields[j].key)
  }

  lemma PrecedesMore(order: seq<string>, key: string, a: string, b: string)
    ensures Precedes(order, a, b) ==> Precedes(order + [key], a, b)
    ensures a in order ==> Precedes(order + [key], a, key)
  {
    var more := order + [key];
    if Precedes(order, a, b) {
      var p, q :| 0 <= p < q < |order| && order[p] == a && order[q] == b;
      assert more[p] == a && more[q] == b;
    }
    if a in order {
      var p :| 0 <= p < |order| && order[p] == a;
      assert more[p] == a && more[|order|] == key;
    }
  }

  lemma {:induction false} PutKeys(fields: seq<Field>, key: string, value: Json)
    ensures var put := PutField(fields, key, value);
            && (FieldAt(fields, key).None? ==> put == fields + [Field(key, value)])
            && (FieldAt(fields, key).Some? ==> |put| == |fields| && forall i :: 0 <= i < |fields| ==> put[i].key == fields[i].key)
  {
    if fields != [] && fields[0].key != key {
      PutKeys(fields[1..], key, value);
      assert fields == [fields[0]] + fields[1..];
    }
  }

  lemma OrderMore(fields: seq<Field>, order: seq<string>, key: string)
    requires ByOrder(fields, order)
    ensures ByOrder(fields, order + [key])
  {
    forall i, j | 0 <= i < j < |fields| ensures Precedes(order + [key], fields[i].key, fields[j].key) {
      PrecedesMore(order, key, fields[i].key, fields[j].key);
    }
  }

  lemma PutInOrder(fields: seq<Field>, order: seq<string>, key: string, value: Json)
    requires ByOrder(fields, order)
    ensures ByOrder(PutField(fields, key, value), order + [key])
  {
    hide PutField, Precedes, FieldAt;
    var put := PutField(fields, key, value);
    PutKeys(fields, key, value);
    OrderMore(fields, order, key);
    if FieldAt(fields, key).None? {
      forall i | 0 <= i < |fields| ensures Precedes(order + [key], put[i].key, key) {
        assert fields[i] in fields;
        PrecedesMore(order, key, fields[i].key, key);
      }
    } else {
      forall f | f in put ensures f.key in order + [key] {
        var i :| 0 <= i < |put| && put[i] == f;
        assert fields[i] in fields;
      }
    }
  }

  lemma {:induction false} ManagedByOrder(fields: seq<Field>, config: Config, done: seq<string>, order: seq<string>)
    requires ByOrder(fields, done)
    ensures ByOrder(PutManaged(fields, config, order), done + order)
    decreases |order|
  {
    hide ManagedAt, ByOrder, PutField;
    if order == [] {
      assert done + order == done;
    } else {
      var v := ManagedAt(config, order[0]);
      assert done + order == done + [order[0]] + order[1..];
      OrderMore(fields, done, order[0]);
      if v.Some? {
        PutInOrder(fields, done, order[0], v.value);
      }
      ManagedByOrder(if v.Some? then PutField(fields, order[0], v.value) else fields, config, done + [order[0]], order[1..]);
    }
  }

  lemma {:induction false} KnownByOrder(fields: seq<Field>, known: map<string, Json>, done: seq<string>, order: seq<string>)
    requires ByOrder(fields, done)
    ensures ByOrder(PutKnown(fields, order, known), done + order)
    decreases |order|
  {
    hide ByOrder, PutField;
    if order == [] {
      assert done + order == done;
    } else {
      assert done + order == done + [order[0]] + order[1..];
      OrderMore(fields, done, order[0]);
      if order[0] in known {
        PutInOrder(fields, done, order[0], known[order[0]]);
      }
      KnownByOrder(if order[0] in known then PutField(fields, order[0], known[order[0]]) else fields, known, done + [order[0]], order[1..]);
    }
  }

  // ----- the order of everything written -----

  // Known keys in their order, then the others by the order of strings.
  ghost predicate InKeyOrder(fields: seq<Field>, order: seq<string>) {
    forall i, j :: 0 <= i < j < |fields| ==>
      if fields[i].key in order then fields[j].key in order ==> Precedes(order, fields[i].key, fields[j].key)
      else fields[j].key !in order && Less(fields[i].key, fields[j].key)
  }

  ghost predicate NotListed(fields: seq<Field>, order: seq<string>) {
    forall f :: f in fields ==> f.key !in order
  }

  lemma {:induction false} PutsAppend(fields: seq<Field>, more: seq<Field>)
    requires DistinctFields(more) && forall f :: f in more ==> FieldAt(fields, f.key).None?
    ensures PutFields(fields, more) == fields + more
    decreases |more|
  {
    hide PutField;
    if more == [] {
      assert fields + more == fields;
    } else {
      var f := more[0];
      PutKeys(fields, f.key, f.value);
      forall g | g in more[1..] ensures FieldAt(PutField(fields, f.key, f.value), g.key).None? {
        assert g in more;
        MemberAt(more[1..], g);
        PutFieldAt(fields, f.key, f.value, g.key);
      }
      PutsAppend(PutField(fields, f.key, f.value), more[1..]);
      assert f == Field(f.key, f.value) && more == [f] + more[1..];
      assert fields + [f] + more[1..] == fields + more;
    }
  }

  lemma {:induction false} AbsentFrom(fields: seq<Field>, order: seq<string>, key: string)
    requires KeysFrom(fields, order) && key !in order
    ensures FieldAt(fields, key).None?
  {
    if fields != [] {
      assert fields[0] in fields;
      AbsentFrom(fields[1..], order, key);
    }
  }

  lemma KnownThenSorted(known: seq<Field>, extras: seq<Field>, order: seq<string>)
    requires ByOrder(known, order) && DistinctFields(extras) && NotListed(extras, order)
    ensures InKeyOrder(PutFields(known, SortFields(extras)), order)
  {
    hide Precedes, FieldAt, Less, DistinctFields, SortFields, PutFields;
    var sorted := SortFields(extras);
    SortSorted(extras);
    SortAt(extras, "");
    forall f | f in sorted ensures f.key !in order && FieldAt(known, f.key).None? {
      SortMember(extras, f);
      AbsentFrom(known, order, f.key);
    }
    PutsAppend(known, sorted);
    var all := known + sorted;
    forall i, j | 0 <= i < j < |all|
      ensures if all[i].key in order then all[j].key in order ==> Precedes(order, all[i].key, all[j].key)
              else all[j].key !in order && Less(all[i].key, all[j].key)
    {
      if i < |known| {
        assert all[i] == known[i];
        if j >= |known| {
          assert all[j] == sorted[j - |known|];
        }
      } else {
        assert all[i] == sorted[i - |known|] && all[j] == sorted[j - |known|];
      }
    }
  }

  // The settings are written in the order of PROFILE_KEY_ORDER, and behind them the
  // unknown keys by the order of strings.
  lemma ManagedInOrder(config: Config)
    requires DistinctFields(ExtrasOf(config.extras)) && ExtrasUnknown(config)
    ensures InKeyOrder(Managed(config), PROFILE_KEY_ORDER)
  {
    hide PROFILE_KEY_ORDER, PutManaged, InKeyOrder, ByOrder, DistinctFields;
    NothingByOrder();
    ManagedByOrder([], config, [], PROFILE_KEY_ORDER);
    assert [] + PROFILE_KEY_ORDER == PROFILE_KEY_ORDER;
    KnownThenSorted(PutManaged([], config, PROFILE_KEY_ORDER), ExtrasOf(config.extras), PROFILE_KEY_ORDER);
  }

  // And so are the fields of a sub-section.
  lemma SubInOrder(order: seq<string>, sub: Sub)
    requires DistinctFields(ExtrasOf(sub.extras)) && NotListed(ExtrasOf(sub.extras), order)
    ensures InKeyOrder(BuildSub(order, sub), order)
  {
    hide PutKnown, InKeyOrder, ByOrder, DistinctFields;
    NothingByOrder();
    KnownByOrder([], sub.known, [], order);
    assert [] + order == order;
    KnownThenSorted(PutKnown([], order, sub.known), ExtrasOf(sub.extras), order);
  }

  lemma NothingByOrder()
    ensures ByOrder([], [])
  {
  }

  // ----- which values are settings -----

  datatype Kind = NumberKind | SwitchKind | ChoiceKind(words: set<string>) | TextKind | ListKind

  // What the source's types admit at each known key outside the sub-sections.
  const KINDS: map<string, Kind> := map[
    "mode" := ChoiceKind({"rule", "global", "direct"}),
    "log-level" := ChoiceKind({"silent", "error", "warning", "info", "debug"}),
    "find-process-mode" := ChoiceKind({"off", "strict", "always"}),
    "mixed-port" := NumberKind, "geo-update-interval" := NumberKind, "keep-alive-interval" := NumberKind,
    "allow-lan" := SwitchKind, "ipv6" := SwitchKind, "tcp-concurrent" := SwitchKind, "unified-delay" := SwitchKind,
    "geodata-mode" := SwitchKind, "geo-auto-update" := SwitchKind,
    "bind-address" := TextKind, "interface-name" := TextKind, "global-client-fingerprint" := TextKind,
    "external-controller" := TextKind, "secret" := TextKind, "external-ui" := TextKind, "external-ui-name" := TextKind,
    "external-ui-url" := TextKind,
    "authentication" := ListKind]

  ghost predicate OfKind(kind: Kind, j: Json) {
    match kind
    case NumberKind => exists n :: j == JScalar(Num(Finite(n)))
    case SwitchKind => exists b :: j == JScalar(Bool(b))
    case ChoiceKind(words) => exists w :: w in words && j == JScalar(Str(w))
    case TextKind => exists w :: j == JScalar(Str(w))
    case ListKind => j.JArr?
  }

  lemma KindIff(k: string, j: Json)
    requires k in KINDS
    ensures OfKind(KINDS[k], j) <==> if k == "authentication" then j.JArr? else HasType(k, j)
  {
  }

  lemma SimpleIff(k: string)
    ensures IsSimple(k) <==> k in KINDS
  {
  }

  // A key of the document becomes a setting exactly when it is one of these and its value
  // is of its kind.
  lemma SettingIff(root: Node, show: Json -> string, k: string)
    ensures k in GetConfig(root, show).known <==>
            k in KINDS && FieldAt(RootFields(root), k).Some? && OfKind(KINDS[k], FieldAt(RootFields(root), k).value)
  {
    hide KINDS, IsSimple, HasType, OfKind, PROFILE_KEY_ORDER, FieldAt, RootFields, Projected;
    KnownIsRead(RootFields(root), show);
    SimpleIff(k);
    var j := FieldAt(RootFields(root), k);
    if k in KINDS && j.Some? {
      KindIff(k, j.value);
    }
  }

  // ----- the sections -----

  const SECTIONS: set<string> := RULE_SECTIONS + HOST_SECTIONS + DNS_SECTIONS + PORT_SECTIONS

  const RULE_SECTIONS: set<string> := {"rules", "proxies", "proxy-groups", "proxy-providers", "rule-providers"}

  const HOST_SECTIONS: set<string> := {"listeners", "sub-rules", "hosts", "tunnels", "experimental"}

  const DNS_SECTIONS: set<string> := {"dns", "tun", "sniffer", "log-file", "routing-mark"}

  const PORT_SECTIONS: set<string> := {"redir-port", "tproxy-port", "port", "socks-port", "keep-alive-idle"}

  lemma SectionIff(k: string)
    ensures k in SECTIONS <==> k in SECTION_KEYS
  {
  }

  lemma RulesAreUnknown(k: string)
    requires k in RULE_SECTIONS
    ensures k !in PROFILE_KEY_ORDER
  {
  }

  lemma HostsAreUnknown(k: string)
    requires k in HOST_SECTIONS
    ensures k !in PROFILE_KEY_ORDER
  {
  }

  lemma DnsIsNoSetting(k: string)
    requires k in DNS_SECTIONS
    ensures k !in PROFILE_KEY_ORDER
  {
  }

  lemma PortsAreUnknown(k: string)
    requires k in PORT_SECTIONS
    ensures k !in PROFILE_KEY_ORDER
  {
  }

  lemma SectionsAreUnknown(k: string)
    requires k in SECTIONS
    ensures k in SECTION_KEYS && k !in PROFILE_KEY_ORDER
  {
    hide RULE_SECTIONS, HOST_SECTIONS, DNS_SECTIONS, PORT_SECTIONS, SECTION_KEYS, PROFILE_KEY_ORDER;
    SectionIff(k);
    if k in RULE_SECTIONS {
      RulesAreUnknown(k);
    } else if k in HOST_SECTIONS {
      HostsAreUnknown(k);
    } else if k in DNS_SECTIONS {
      DnsIsNoSetting(k);
    } else {
      PortsAreUnknown(k);
    }
  }

  // A section is no setting, and writing settings with the extras that were read from a
  // document leaves every section of the document as it is.
  lemma SectionsStay(root: Node, from: Node, config: Config, show: Json -> string, k: string)
    requires DistinctKeys(RootPairs(root)) && DistinctFields(ExtrasOf(config.extras)) && k in SECTIONS
    requires config.extras == GetConfig(from, show).extras
    ensures k !in GetConfig(from, show).known && FieldAt(ExtrasOf(config.extras), k).None?
    ensures Lookup(SetPairs(RootPairs(root), config), k) == Lookup(RootPairs(root), k)
  {
    hide SECTIONS, KINDS, PROFILE_KEY_ORDER, SECTION_KEYS, FieldAt, Lookup, SetPairs, GetConfig, DistinctKeys, DistinctFields,
         HasType, IsGeoxUrlRead, IsProfileRead;
    SectionsAreUnknown(k);
    ConfigIsRead(from, show);
    SetLookup(root, config, k);
  }
}

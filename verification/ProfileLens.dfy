// Reading and writing the profile settings of a document
// (apps/web/src/lib/profile-view.ts, setProfileConfig in apps/web/src/lib/yaml-mutator.ts).
module ProfileLens {
  import opened Outcome
  import opened Text
  import opened ProfileTree

  const PROFILE_KEY_ORDER: seq<string> := [
    "mode", "log-level", "mixed-port", "allow-lan", "bind-address", "ipv6", "tcp-concurrent", "unified-delay",
    "interface-name", "geodata-mode", "geo-auto-update", "geo-update-interval", "geox-url", "keep-alive-interval",
    "find-process-mode", "global-client-fingerprint", "external-controller", "secret", "external-ui",
    "external-ui-name", "external-ui-url", "authentication", "profile"]

  const GEOX_URL_KEY_ORDER: seq<string> := ["geoip", "geosite", "mmdb", "asn"]

  const PROFILE_NESTED_KEY_ORDER: seq<string> := ["store-selected", "store-fake-ip"]

  const SECTION_KEYS: seq<string> := [
    "dns", "tun", "sniffer", "rules", "proxies", "proxy-groups", "proxy-providers", "rule-providers", "listeners",
    "sub-rules", "hosts", "tunnels", "experimental", "log-file", "redir-port", "tproxy-port", "port", "socks-port",
    "routing-mark", "keep-alive-idle"]

  // A sub-section: the known fields that are set, and the others, if any.
  datatype Sub = Sub(known: map<string, Json>, extras: Option<seq<Field>>)

  // The profile settings: the known fields that are set, the two sub-sections, and the
  // unknown top-level keys, if any.
  datatype Config = Config(known: map<string, Json>, geoxUrl: Option<Sub>, profile: Option<Sub>, extras: Option<seq<Field>>)

  // ----- reading -----

  predicate IsOneOf(j: Json, values: set<string>) {
    j.JScalar? && j.v.Str? && j.v.s in values
  }

  predicate IsBool(j: Json) {
    j.JScalar? && j.v.Bool?
  }

  predicate IsString(j: Json) {
    j.JScalar? && j.v.Str?
  }

  predicate IsNumber(j: Json) {
    j.JScalar? && j.v.Num? && j.v.n.Finite?
  }

  // Whether a value has the type of a known scalar field.
  predicate HasType(key: string, j: Json) {
    if key == "mode" then IsOneOf(j, {"rule", "global", "direct"})
    else if key == "log-level" then IsOneOf(j, {"silent", "error", "warning", "info", "debug"})
    else if key == "find-process-mode" then IsOneOf(j, {"off", "strict", "always"})
    else if key in {"mixed-port", "geo-update-interval", "keep-alive-interval"} then IsNumber(j)
    else if key in {"allow-lan", "ipv6", "tcp-concurrent", "unified-delay", "geodata-mode", "geo-auto-update"} then IsBool(j)
    else IsString(j)
  }

  // String(x), where show gives the text of a value that is not a string.
  function Texts(items: seq<Json>, show: Json -> string): seq<Json> {
    if items == [] then []
    else [JScalar(Str(if IsString(items[0]) then items[0].v.s else show(items[0])))] + Texts(items[1..], show)
  }

  // The value of a known field other than the sub-sections.
  function Projected(key: string, j: Json, show: Json -> string): Option<Json> {
    if key == "authentication" then if j.JArr? then Some(JArr(Texts(j.items, show))) else None
    else if HasType(key, j) then Some(j)
    else None
  }

  // The fields whose key is not listed.
  function Others(fields: seq<Field>, listed: seq<string>): seq<Field> {
    if fields == [] then []
    else if fields[0].key in listed then Others(fields[1..], listed)
    else [fields[0]] + Others(fields[1..], listed)
  }

  function ExtrasOf(extras: Option<seq<Field>>): seq<Field> {
    if extras.Some? then extras.value else []
  }

  function NonEmpty(fields: seq<Field>): Option<seq<Field>> {
    if fields == [] then None else Some(fields)
  }

  // The listed fields that are set to a value of the right type.
  function KnownSub(fields: seq<Field>, order: seq<string>, hasType: Json -> bool): map<string, Json> {
    map k | k in order && FieldAt(fields, k).Some? && hasType(FieldAt(fields, k).value) :: FieldAt(fields, k).value
  }

  function ProjectGeoxUrl(j: Json): Option<Sub> {
    if !j.JObj? then None
    else
      var known, extras := KnownSub(j.fields, GEOX_URL_KEY_ORDER, IsString), NonEmpty(Others(j.fields, GEOX_URL_KEY_ORDER));
      if known == map[] && extras.None? then None else Some(Sub(known, extras))
  }

  function ProjectProfileNested(j: Json): Option<Sub> {
    if !j.JObj? then None
    else Some(Sub(KnownSub(j.fields, PROFILE_NESTED_KEY_ORDER, IsBool), NonEmpty(Others(j.fields, PROFILE_NESTED_KEY_ORDER))))
  }

  predicate IsSimple(key: string) {
    key in PROFILE_KEY_ORDER && key != "geox-url" && key != "profile"
  }

  function KnownFields(fields: seq<Field>, show: Json -> string): map<string, Json> {
    map k | k in PROFILE_KEY_ORDER && IsSimple(k) && FieldAt(fields, k).Some?
            && Projected(k, FieldAt(fields, k).value, show).Some?
         :: Projected(k, FieldAt(fields, k).value, show).value
  }

  function AtKey<T>(fields: seq<Field>, key: string, project: Json -> Option<T>): Option<T> {
    match FieldAt(fields, key)
    case Some(j) => project(j)
    case None => None
  }

  function RootFields(root: Node): seq<Field> {
    if root.YMap? then ToFields(root.pairs) else []
  }

  function GetConfig(root: Node, show: Json -> string): Config {
    var fields := RootFields(root);
    Config(KnownFields(fields, show),
           AtKey(fields, "geox-url", ProjectGeoxUrl),
           AtKey(fields, "profile", ProjectProfileNested),
           NonEmpty(Others(fields, PROFILE_KEY_ORDER + SECTION_KEYS)))
  }

  // ----- what reading gives, key by key -----

  lemma {:induction false} OthersAt(fields: seq<Field>, listed: seq<string>, k: string)
    ensures FieldAt(Others(fields, listed), k) == if k in listed then None else FieldAt(fields, k)
  {
    if fields != [] {
      OthersAt(fields[1..], listed, k);
    }
  }

  // The sub-section holds the listed fields of the right type, and every other field.
  ghost predicate IsSubRead(fields: seq<Field>, sub: Sub, order: seq<string>, hasType: Json -> bool) {
    && (forall k :: k in sub.known <==> k in order && FieldAt(fields, k).Some? && hasType(FieldAt(fields, k).value))
    && (forall k :: k in sub.known ==> sub.known[k] == FieldAt(fields, k).value)
    && (forall k :: FieldAt(ExtrasOf(sub.extras), k) == if k in order then None else FieldAt(fields, k))
    && sub.extras != Some([])
  }

  // An authentication list is a list; its items are read as text.
  ghost predicate IsListRead(read: Json, j: Json, show: Json -> string) {
    && read.JArr? && j.JArr? && |read.items| == |j.items|
    && forall i :: 0 <= i < |j.items| ==>
         read.items[i] == JScalar(Str(if IsString(j.items[i]) then j.items[i].v.s else show(j.items[i])))
  }

  ghost predicate IsKnownRead(fields: seq<Field>, known: map<string, Json>, show: Json -> string) {
    && (forall k :: k in known <==>
          IsSimple(k) && FieldAt(fields, k).Some?
          && if k == "authentication" then FieldAt(fields, k).value.JArr? else HasType(k, FieldAt(fields, k).value))
    && (forall k :: k in known ==>
          if k == "authentication" then IsListRead(known[k], FieldAt(fields, k).value, show)
          else known[k] == FieldAt(fields, k).value)
  }

  // The settings hold every known field of the right type, the sub-sections that are
  // mappings (geox-url only with something in it), and every field that is neither
  // known nor a section; and nothing else.
  ghost predicate IsRead(fields: seq<Field>, config: Config, show: Json -> string) {
    && IsKnownRead(fields, config.known, show)
    && IsProfileRead(FieldAt(fields, "profile"), config.profile)
    && IsGeoxUrlRead(FieldAt(fields, "geox-url"), config.geoxUrl)
    && (forall k :: FieldAt(ExtrasOf(config.extras), k) == if k in PROFILE_KEY_ORDER + SECTION_KEYS then None else FieldAt(fields, k))
    && config.extras != Some([])
  }

  ghost predicate IsProfileRead(j: Option<Json>, sub: Option<Sub>) {
    && (sub.Some? <==> j.Some? && j.value.JObj?)
    && (sub.Some? ==> IsSubRead(j.value.fields, sub.value, PROFILE_NESTED_KEY_ORDER, IsBool))
  }

  ghost predicate IsGeoxUrlRead(j: Option<Json>, sub: Option<Sub>) {
    && (sub.Some? <==>
          j.Some? && j.value.JObj?
          && exists k :: FieldAt(j.value.fields, k).Some? && (k in GEOX_URL_KEY_ORDER ==> IsString(FieldAt(j.value.fields, k).value)))
    && (sub.Some? ==> IsSubRead(j.value.fields, sub.value, GEOX_URL_KEY_ORDER, IsString))
  }

  lemma SubIsRead(fields: seq<Field>, order: seq<string>, hasType: Json -> bool)
    ensures IsSubRead(fields, Sub(KnownSub(fields, order, hasType), NonEmpty(Others(fields, order))), order, hasType)
  {
    hide FieldAt, Others;
    forall k
      ensures FieldAt(Others(fields, order), k) == if k in order then None else FieldAt(fields, k)
    {
      OthersAt(fields, order, k);
    }
    NothingAt();
  }

  lemma NothingAt()
    ensures forall k :: FieldAt([], k) == None
  {
  }

  lemma {:induction false} SomethingAt(fields: seq<Field>)
    ensures fields != [] ==> FieldAt(fields, fields[0].key).Some?
  {
  }

  lemma GeoxUrlIsRead(j: Json)
    ensures IsGeoxUrlRead(Some(j), ProjectGeoxUrl(j))
  {
    hide FieldAt, Others, KnownSub, IsSubRead, GEOX_URL_KEY_ORDER, IsString;
    if j.JObj? {
      var known, others := KnownSub(j.fields, GEOX_URL_KEY_ORDER, IsString), Others(j.fields, GEOX_URL_KEY_ORDER);
      SubIsRead(j.fields, GEOX_URL_KEY_ORDER, IsString);
      SubKeys(j.fields, GEOX_URL_KEY_ORDER, IsString);
      SomethingAt(others);
      NothingAt();
    }
  }

  lemma SubKeys(fields: seq<Field>, order: seq<string>, hasType: Json -> bool)
    ensures var known, others := KnownSub(fields, order, hasType), Others(fields, order);
            forall k :: FieldAt(fields, k).Some? && (k in order ==> hasType(FieldAt(fields, k).value)) <==>
                          k in known || FieldAt(others, k).Some?
  {
    hide FieldAt, Others;
    forall k
      ensures FieldAt(Others(fields, order), k) == if k in order then None else FieldAt(fields, k)
    {
      OthersAt(fields, order, k);
    }
  }

  lemma {:induction false} TextsRead(items: seq<Json>, show: Json -> string)
    ensures IsListRead(JArr(Texts(items, show)), JArr(items), show)
  {
    if items != [] {
      TextsRead(items[1..], show);
      var t := Texts(items, show);
      assert t[1..] == Texts(items[1..], show);
      forall i | 1 <= i < |items|
        ensures t[i] == t[1..][i - 1] && items[i] == items[1..][i - 1]
      {
      }
    }
  }

  lemma KnownIsRead(fields: seq<Field>, show: Json -> string)
    ensures IsKnownRead(fields, KnownFields(fields, show), show)
  {
    hide FieldAt, PROFILE_KEY_ORDER, HasType, Texts;
    if FieldAt(fields, "authentication").Some? && FieldAt(fields, "authentication").value.JArr? {
      TextsRead(FieldAt(fields, "authentication").value.items, show);
    }
    hide IsListRead;
  }

  lemma ConfigIsRead(root: Node, show: Json -> string)
    ensures IsRead(RootFields(root), GetConfig(root, show), show)
  {
    hide FieldAt, PROFILE_KEY_ORDER, SECTION_KEYS, IsKnownRead, KnownFields, IsSubRead, IsGeoxUrlRead, KnownSub, Others, ProjectGeoxUrl;
    var fields := RootFields(root);
    KnownIsRead(fields, show);
    if FieldAt(fields, "geox-url").Some? {
      GeoxUrlIsRead(FieldAt(fields, "geox-url").value);
    } else {
      assert IsGeoxUrlRead(None, None) by { NoGeoxUrl(); }
    }
    if FieldAt(fields, "profile").Some? && FieldAt(fields, "profile").value.JObj? {
      SubIsRead(FieldAt(fields, "profile").value.fields, PROFILE_NESTED_KEY_ORDER, IsBool);
    }
    forall k
      ensures FieldAt(Others(fields, PROFILE_KEY_ORDER + SECTION_KEYS), k) ==
              if k in PROFILE_KEY_ORDER + SECTION_KEYS then None else FieldAt(fields, k)
    {
      OthersAt(fields, PROFILE_KEY_ORDER + SECTION_KEYS, k);
    }
    NothingAt();
  }

  lemma NoGeoxUrl()
    ensures IsGeoxUrlRead(None, None)
  {
  }

  // ----- writing -----

  // Sorted by key.
  function InsertField(fields: seq<Field>, f: Field): seq<Field> {
    if fields == [] then [f]
    else if Less(f.key, fields[0].key) then [f] + fields
    else [fields[0]] + InsertField(fields[1..], f)
  }

  function SortFields(fields: seq<Field>): seq<Field> {
    if fields == [] then [] else InsertField(SortFields(fields[1..]), fields[0])
  }

  // Setting a key of an insertion-ordered map.
  function PutField(fields: seq<Field>, key: string, value: Json): seq<Field> {
    if fields == [] then [Field(key, value)]
    else if fields[0].key == key then [Field(key, value)] + fields[1..]
    else [fields[0]] + PutField(fields[1..], key, value)
  }

  function PutFields(fields: seq<Field>, more: seq<Field>): seq<Field>
    decreases |more|
  {
    if more == [] then fields else PutFields(PutField(fields, more[0].key, more[0].value), more[1..])
  }

  function PutKnown(fields: seq<Field>, order: seq<string>, known: map<string, Json>): seq<Field>
    decreases |order|
  {
    if order == [] then fields
    else PutKnown(if order[0] in known then PutField(fields, order[0], known[order[0]]) else fields, order[1..], known)
  }

  // buildGeoxUrl and buildProfileNested: known fields in order, then the extras, sorted.
  function BuildSub(order: seq<string>, sub: Sub): seq<Field> {
    PutFields(PutKnown([], order, sub.known), SortFields(ExtrasOf(sub.extras)))
  }

  // The value to write at a known key, if any.
  function ManagedAt(config: Config, key: string): Option<Json> {
    if key == "profile" then
      if config.profile.Some? && BuildSub(PROFILE_NESTED_KEY_ORDER, config.profile.value) != []
      then Some(JObj(BuildSub(PROFILE_NESTED_KEY_ORDER, config.profile.value)))
      else None
    else if key == "geox-url" then
      if config.geoxUrl.Some? && BuildSub(GEOX_URL_KEY_ORDER, config.geoxUrl.value) != []
      then Some(JObj(BuildSub(GEOX_URL_KEY_ORDER, config.geoxUrl.value)))
      else None
    else if key == "authentication" then
      if key in config.known && config.known[key].JArr? && config.known[key].items != [] then Some(config.known[key]) else None
    else if key in config.known then Some(config.known[key])
    else None
  }

  function PutManaged(fields: seq<Field>, config: Config, order: seq<string>): seq<Field>
    decreases |order|
  {
    if order == [] then fields
    else
      var v := ManagedAt(config, order[0]);
      PutManaged(if v.Some? then PutField(fields, order[0], v.value) else fields, config, order[1..])
  }

  // Everything to write: known keys in their order, then the extras, sorted.
  function Managed(config: Config): seq<Field> {
    PutFields(PutManaged([], config, PROFILE_KEY_ORDER), SortFields(ExtrasOf(config.extras)))
  }

  // A key of the document that is removed: a known one, or one of the extras, with
  // nothing to write for it.
  predicate IsRemoved(config: Config, managed: seq<Field>, key: string) {
    && key != ""
    && (key in PROFILE_KEY_ORDER || FieldAt(ExtrasOf(config.extras), key).Some?)
    && FieldAt(managed, key).None?
  }

  function Removals(pairs: seq<Pair>, config: Config, managed: seq<Field>): seq<string> {
    if pairs == [] then []
    else
      (if IsRemoved(config, managed, KeyText(pairs[0].key)) then [KeyText(pairs[0].key)] else [])
      + Removals(pairs[1..], config, managed)
  }

  // rootMap.delete
  function DeleteKey(pairs: seq<Pair>, key: string): seq<Pair> {
    if pairs == [] then []
    else if pairs[0].key == StrKey(key) then pairs[1..]
    else [pairs[0]] + DeleteKey(pairs[1..], key)
  }

  function DeleteKeys(pairs: seq<Pair>, keys: seq<string>): seq<Pair>
    decreases |keys|
  {
    if keys == [] then pairs else DeleteKeys(DeleteKey(pairs, keys[0]), keys[1..])
  }

  // rootMap.set
  function SetKey(pairs: seq<Pair>, key: string, node: Node): seq<Pair> {
    if pairs == [] then [Pair(StrKey(key), 0, node)]
    else if pairs[0].key == StrKey(key) then [pairs[0].(value := node)] + pairs[1..]
    else [pairs[0]] + SetKey(pairs[1..], key, node)
  }

  // A value is written unless the node at the key already is equivalent to it.
  function Updated(pairs: seq<Pair>, f: Field): seq<Pair> {
    var existing := Lookup(pairs, f.key);
    if existing.Some? && IsNodeEquivalent(existing.value, f.value) then pairs
    else SetKey(pairs, f.key, CreateNode(f.value))
  }

  function UpdatedAll(pairs: seq<Pair>, managed: seq<Field>): seq<Pair>
    decreases |managed|
  {
    if managed == [] then pairs else UpdatedAll(Updated(pairs, managed[0]), managed[1..])
  }

  function RootPairs(root: Node): seq<Pair> {
    if root.YMap? then root.pairs else []
  }

  function SetPairs(pairs: seq<Pair>, config: Config): seq<Pair> {
    UpdatedAll(DeleteKeys(pairs, Removals(pairs, config, Managed(config))), Managed(config))
  }

  function SetConfig(root: Node, config: Config): Node {
    YMap(SetPairs(RootPairs(root), config), if root.YMap? then root.format else 0)
  }

  // ----- the document object -----

  class Document {
    var contents: Node

    constructor (contents: Node)
      ensures this.contents == contents
    {
      this.contents := contents;
    }

    method SetProfileConfig(config: Config)
      modifies this
      ensures contents == SetConfig(old(contents), config)
    {
      hide PROFILE_KEY_ORDER, Managed, IsRemoved, Updated, DeleteKey;
      if !contents.YMap? {
        contents := YMap([], 0);
      }
      ghost var root := contents;
      var managed := CollectManaged(config);
      var toRemove := CollectRemovals(contents.pairs, config, managed);
      for i := 0 to |toRemove|
        invariant contents.YMap? && contents.format == root.format
        invariant DeleteKeys(contents.pairs, toRemove[i..]) == DeleteKeys(root.pairs, toRemove)
      {
        contents := contents.(pairs := DeleteKey(contents.pairs, toRemove[i]));
      }
      ghost var kept := DeleteKeys(root.pairs, toRemove);
      for i := 0 to |managed|
        invariant contents.YMap? && contents.format == root.format
        invariant UpdatedAll(contents.pairs, managed[i..]) == UpdatedAll(kept, managed)
      {
        contents := contents.(pairs := Updated(contents.pairs, managed[i]));
      }
    }

    method GetProfileConfig(show: Json -> string) returns (config: Config)
      ensures config == GetConfig(contents, show) && IsRead(RootFields(contents), config, show)
    {
      ConfigIsRead(contents, show);
      hide IsRead, PROFILE_KEY_ORDER, SECTION_KEYS, KnownFields, AtKey;
      var fields := RootFields(contents);
      var extras := CollectOthers(fields, PROFILE_KEY_ORDER + SECTION_KEYS);
      config := Config(KnownFields(fields, show),
                       AtKey(fields, "geox-url", ProjectGeoxUrl),
                       AtKey(fields, "profile", ProjectProfileNested),
                       NonEmpty(extras));
    }
  }

  method CollectKnown(config: Config, order: seq<string>) returns (managed: seq<Field>)
    ensures managed == PutManaged([], config, order)
  {
    hide ManagedAt, PutField;
    managed := [];
    for i := 0 to |order|
      invariant PutManaged(managed, config, order[i..]) == PutManaged([], config, order)
    {
      var v := ManagedAt(config, order[i]);
      if v.Some? {
        managed := PutField(managed, order[i], v.value);
      }
    }
  }

  method CollectManaged(config: Config) returns (managed: seq<Field>)
    ensures managed == Managed(config)
  {
    hide PROFILE_KEY_ORDER, PutManaged, PutField, SortFields;
    managed := CollectKnown(config, PROFILE_KEY_ORDER);
    var extras := SortFields(ExtrasOf(config.extras));
    ghost var known := managed;
    for i := 0 to |extras|
      invariant PutFields(managed, extras[i..]) == PutFields(known, extras)
    {
      managed := PutField(managed, extras[i].key, extras[i].value);
    }
  }

  method CollectRemovals(pairs: seq<Pair>, config: Config, managed: seq<Field>) returns (toRemove: seq<string>)
    ensures toRemove == Removals(pairs, config, managed)
  {
    hide IsRemoved;
    toRemove := [];
    for i := 0 to |pairs|
      invariant toRemove + Removals(pairs[i..], config, managed) == Removals(pairs, config, managed)
    {
      var key := KeyText(pairs[i].key);
      if IsRemoved(config, managed, key) {
        toRemove := toRemove + [key];
      }
    }
  }

  method CollectOthers(fields: seq<Field>, listed: seq<string>) returns (others: seq<Field>)
    ensures others == Others(fields, listed)
  {
    others := [];
    for i := 0 to |fields|
      invariant others + Others(fields[i..], listed) == Others(fields, listed)
    {
      if fields[i].key !in listed {
        others := others + [fields[i]];
      }
    }
  }
}

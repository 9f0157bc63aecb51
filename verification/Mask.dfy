// Secret detection and sentinel replacement (apps/server/src/vault/mask.ts), and
// their inverse (unmaskDoc in apps/server/src/vault/vault.ts).
module Mask {
  import opened Outcome
  import opened Text
  import opened Yaml

  const SENTINEL_PREFIX: string := "$MIHARBOR_VAULT:"
  const NON_SECRET_KEYS: set<string> := {"public-key"}
  const DEFAULT_SECRET_FIELDS: set<string> :=
    {"secret", "private-key", "pre-shared-key", "password", "uuid", "api_key", "api-key", "token"}

  predicate IsSecretKey(key: string, fields: set<string>) {
    && key !in NON_SECRET_KEYS
    && (|| key in fields
        || EndsWith(key, "-key") || EndsWith(key, "-password") || EndsWith(key, "-token") || EndsWith(key, "-secret"))
  }

  predicate IsSentinel(s: string) {
    StartsWith(s, SENTINEL_PREFIX)
  }

  function Sentinel(uuid: string): string {
    SENTINEL_PREFIX + uuid
  }

  function UuidOf(sentinel: string): string
    requires IsSentinel(sentinel)
  {
    sentinel[|SENTINEL_PREFIX|..]
  }

  lemma SentinelUuid(uuid: string)
    ensures IsSentinel(Sentinel(uuid)) && UuidOf(Sentinel(uuid)) == uuid
  {
    var s := Sentinel(uuid);
    assert s[..|SENTINEL_PREFIX|] == SENTINEL_PREFIX;
  }

  // ----- masking -----

  // The plaintext that masking takes out of a pair, if any: the key is secret and
  // the value is a non-null scalar that is not a sentinel already.
  function SecretOf(pair: Pair, fields: set<string>): Option<string> {
    if pair.key.Leaf? && IsSecretKey(KeyText(pair.key.value), fields) && pair.value.Leaf? then
      match pair.value.value
      case Str(s) => if IsSentinel(s) then None else Some(s)
      case Other(text) => if IsSentinel(text) then None else Some(text)
      case Null => None
    else None
  }

  // The plaintexts taken out of a tree, in visiting order: the pair, its key, its value.
  function Secrets(n: Node, fields: set<string>): seq<string>
    decreases n, 0
  {
    match n
    case Leaf(_) => []
    case Map(pairs) => PairSecrets(pairs, fields)
    case Seq(items) => ItemSecrets(items, fields)
  }

  function SecretsOf(pair: Pair, fields: set<string>): seq<string>
    decreases pair, 1
  {
    match SecretOf(pair, fields)
    case Some(text) => [text]
    case None => Secrets(pair.key, fields) + Secrets(pair.value, fields)
  }

  function PairSecrets(pairs: seq<Pair>, fields: set<string>): seq<string>
    decreases pairs, 0
  {
    if pairs == [] then [] else SecretsOf(pairs[0], fields) + PairSecrets(pairs[1..], fields)
  }

  function ItemSecrets(items: seq<Node>, fields: set<string>): seq<string>
    decreases items, 0
  {
    if items == [] then [] else Secrets(items[0], fields) + ItemSecrets(items[1..], fields)
  }

  // The tree with the i-th secret replaced by the sentinel of uuid(k + i).
  function Masked(n: Node, fields: set<string>, uuid: nat -> string, k: nat): Node
    decreases n, 0
  {
    match n
    case Leaf(_) => n
    case Map(pairs) => Map(MaskedPairs(pairs, fields, uuid, k))
    case Seq(items) => Seq(MaskedItems(items, fields, uuid, k))
  }

  function MaskedPair(pair: Pair, fields: set<string>, uuid: nat -> string, k: nat): Pair
    decreases pair, 1
  {
    match SecretOf(pair, fields)
    case Some(_) => Pair(pair.key, Leaf(Str(Sentinel(uuid(k)))))
    case None =>
      Pair(Masked(pair.key, fields, uuid, k),
           Masked(pair.value, fields, uuid, k + |Secrets(pair.key, fields)|))
  }

  function MaskedPairs(pairs: seq<Pair>, fields: set<string>, uuid: nat -> string, k: nat): (r: seq<Pair>)
    ensures |r| == |pairs|
    decreases pairs, 0
  {
    if pairs == [] then []
    else [MaskedPair(pairs[0], fields, uuid, k)]
         + MaskedPairs(pairs[1..], fields, uuid, k + |SecretsOf(pairs[0], fields)|)
  }

  function MaskedItems(items: seq<Node>, fields: set<string>, uuid: nat -> string, k: nat): (r: seq<Node>)
    ensures |r| == |items|
    decreases items, 0
  {
    if items == [] then []
    else [Masked(items[0], fields, uuid, k)]
         + MaskedItems(items[1..], fields, uuid, k + |Secrets(items[0], fields)|)
  }

  // ----- unmasking -----

  // Vault contents: the plaintext of each uuid.
  type Values = map<string, string>

  datatype MissingSecret = MissingSecret(uuid: string, key: string)

  type Unmasked = Result<Node, MissingSecret>

  // A scalar in value position: sentinels are looked up.
  function UnmaskScalar(key: Scalar, v: Scalar, values: Values): Result<Scalar, MissingSecret> {
    match v
    case Str(s) =>
      if !IsSentinel(s) then Ok(v)
      else if UuidOf(s) in values then Ok(Str(values[UuidOf(s)]))
      else Err(MissingSecret(UuidOf(s), KeyText(key)))
    case _ => Ok(v)
  }

  function Unmask(n: Node, values: Values): Unmasked
    decreases n, 0
  {
    match n
    case Leaf(_) => Ok(n)
    case Map(pairs) => var ps :- UnmaskPairs(pairs, values); Ok(Map(ps))
    case Seq(items) => var ns :- UnmaskItems(items, values); Ok(Seq(ns))
  }

  function UnmaskPair(pair: Pair, values: Values): Result<Pair, MissingSecret>
    decreases pair, 1
  {
    if pair.key.Leaf? && pair.value.Leaf? then
      var v :- UnmaskScalar(pair.key.value, pair.value.value, values);
      Ok(Pair(pair.key, Leaf(v)))
    else
      var key :- Unmask(pair.key, values);
      var value :- Unmask(pair.value, values);
      Ok(Pair(key, value))
  }

  function UnmaskPairs(pairs: seq<Pair>, values: Values): Result<seq<Pair>, MissingSecret>
    decreases pairs, 0
  {
    if pairs == [] then Ok([])
    else
      var first :- UnmaskPair(pairs[0], values);
      var rest :- UnmaskPairs(pairs[1..], values);
      Ok([first] + rest)
  }

  function UnmaskItems(items: seq<Node>, values: Values): Result<seq<Node>, MissingSecret>
    decreases items, 0
  {
    if items == [] then Ok([])
    else
      var first :- Unmask(items[0], values);
      var rest :- UnmaskItems(items[1..], values);
      Ok([first] + rest)
  }

  // ----- sentinels and secrets present in a tree -----

  // The uuids of the sentinels in value position (extractSentinelUuids).
  function Sentinels(n: Node): set<string>
    decreases n, 0
  {
    match n
    case Leaf(_) => {}
    case Map(pairs) => PairSentinels(pairs)
    case Seq(items) => ItemSentinels(items)
  }

  function SentinelsOf(pair: Pair): set<string>
    decreases pair, 1
  {
    Sentinels(pair.key) + Sentinels(pair.value)
    + match pair.value
      case Leaf(Str(s)) => if IsSentinel(s) then {UuidOf(s)} else {}
      case _ => {}
  }

  function PairSentinels(pairs: seq<Pair>): set<string>
    decreases pairs, 0
  {
    if pairs == [] then {} else SentinelsOf(pairs[0]) + PairSentinels(pairs[1..])
  }

  function ItemSentinels(items: seq<Node>): set<string>
    decreases items, 0
  {
    if items == [] then {} else Sentinels(items[0]) + ItemSentinels(items[1..])
  }

  // The sentinels that stand beside a scalar key (those unmasking looks up), or, for
  // scalarKey = false, the others (which unmasking passes over).
  function Marks(n: Node, scalarKey: bool): set<string>
    decreases n, 0
  {
    match n
    case Leaf(_) => {}
    case Map(pairs) => PairMarks(pairs, scalarKey)
    case Seq(items) => ItemMarks(items, scalarKey)
  }

  function MarksOf(pair: Pair, scalarKey: bool): set<string>
    decreases pair, 1
  {
    Marks(pair.key, scalarKey) + Marks(pair.value, scalarKey)
    + match pair.value
      case Leaf(Str(s)) => if IsSentinel(s) && pair.key.Leaf? == scalarKey then {UuidOf(s)} else {}
      case _ => {}
  }

  function PairMarks(pairs: seq<Pair>, scalarKey: bool): set<string>
    decreases pairs, 0
  {
    if pairs == [] then {} else MarksOf(pairs[0], scalarKey) + PairMarks(pairs[1..], scalarKey)
  }

  function ItemMarks(items: seq<Node>, scalarKey: bool): set<string>
    decreases items, 0
  {
    if items == [] then {} else Marks(items[0], scalarKey) + ItemMarks(items[1..], scalarKey)
  }

  function Pending(n: Node): set<string> {
    Marks(n, true)
  }

  function Stuck(n: Node): set<string> {
    Marks(n, false)
  }

  // Every secret scalar is a string.
  predicate StringSecrets(n: Node, fields: set<string>)
    decreases n, 0
  {
    match n
    case Leaf(_) => true
    case Map(pairs) => forall p :: p in pairs ==> StringSecretsOf(p, fields)
    case Seq(items) => forall m :: m in items ==> StringSecrets(m, fields)
  }

  predicate StringSecretsOf(pair: Pair, fields: set<string>)
    decreases pair, 1
  {
    && (SecretOf(pair, fields).Some? ==> pair.value.value.Str?)
    && StringSecrets(pair.key, fields) && StringSecrets(pair.value, fields)
  }

  // The entries that masking adds: uuid(k + i) stands for the i-th secret.
  ghost predicate Holds(values: Values, secrets: seq<string>, uuid: nat -> string, k: nat)
    decreases |secrets|
  {
    secrets != [] ==> uuid(k) in values && values[uuid(k)] == secrets[0] && Holds(values, secrets[1..], uuid, k + 1)
  }
}

# Miharbor, verified

Miharbor edits, lints and deploys the configuration of a mihomo proxy. This project
models six parts of it in Dafny and proves what they promise.

- **Rule language** (`RuleParser`, `RuleRoundTrip`, `RuleGrammar`, `RuleSpacing`): the
  hand-written parser and printer of nested AND/OR/NOT rules. Round trips hold exactly on the
  well-formed rules, and the accepted texts are exactly those of a grammar.
- **Rule linters** (`SuffixTrie`, `Unreachable`, `Routing`, `Duplicates`,
  `PlannedLinter`): the reverse-suffix trie on the heap, the pass that uses it, its
  agreement with the nested loop over all pairs, soundness (deleting what is reported
  keeps routing) and completeness.
- **Secrets, snapshots, deploys** (`Yaml`, `YamlTree`, `Mask`, `MaskLaws`, `MaskPaths`,
  `MaskEdit`, `VaultStore`, `VaultFacts`, `Retention`, `ViewSentinels`, `ViewFacts`,
  `ViewPaths`, `Snapshots`, `SnapshotFacts`, `Pipeline`, `Runs`, `Deploys`,
  `DeployEffects`, `Interleaving`): documents whose
  scalars are overwritten in place, the vault, the snapshot directory, the six steps of
  the pipeline with their one nested rollback, runs of all of these, and several
  pipelines at once.
- **Login rate limiter** (`RateLimiter`, `RateLimiterRuns`): lazy deletion, restarts
  with pruning, and the number of guesses a caller gets.
- **Codecs** (`Bits`, `PbScan`, `PbDamage`, `TrustProxy`, `IpText`, `EventStream`) and the
  store that folds deploy events (`DeployStore`).
- **Profile settings** (`ProfileTree`, `ProfileLens`, `ProfileLaws`, `ProfileOrder`,
  `ProfileRoundTrip`): reading and writing them in an ordered document.

Objects that the program updates are classes whose methods are proved against
specification functions; the laws are lemmas about those functions. `Outcome`, `Numbers`
and `Text` hold what they share.

Standing hypotheses: the uuids that are drawn are distinct (`VaultFacts.Distinct`); the
lemmas on deploys and rollbacks of a server also take it to be sane (`Runs.Sane`: no uuid
still to be drawn is a vault key, no stored value is a sentinel, snapshot ids are unique),
which every run keeps (`Runs.RunKeeps`); the hash is injective where a lemma says so.

## What turned out not to hold

Each is stated as a lemma with an input, and with the exact condition.

- A simple rule of type MATCH does not survive printing and parsing, and some accepted
  strings are read as one (`RuleRoundTrip.NormalForm`, `RuleRoundTrip.MisreadTextIff`,
  `RuleRoundTrip.AcceptedAndMisread`).
- A logical child is documented to hold a single group behind its operator. Text with two
  groups is accepted as well, and both are dropped (`RuleGrammar.TwoGroupsDropped`); a
  space before the comma of the target is refused, though it is accepted around every
  other part (`RuleGrammar.CommaAtOnce`). The exact language is `RuleGrammar.GrammarIff`.
- The design plan lets equal values shadow each other; the implementation does not
  (`PlannedLinter.PlannedAgreesIff`, `PlannedLinter.PlanReportsMore`).
- The duplicate check joins type and value with ':', so two different rules can share a
  key and a report can name the wrong rule (`Duplicates.SharedKey`,
  `Duplicates.FalseDuplicate`, `Duplicates.IntraGroupNamesEarliestIff`).
- A rollback does not restore every document. A secret that is not a string comes back as
  one (`Deploys.NumberIsNotRestored`). A keep-existing marker that had nothing to keep
  is written to the live document, and a rollback to that document fills the marker from
  the very draft it undoes (`Deploys.MarkerIsNotRestored`). A sentinel in the live document
  comes back as plaintext (`Deploys.SentinelIsNotRestored`). These are all the ways
  (`Deploys.RollbackExactIff`, and `Deploys.RollbackRestores` for a rollback at any later
  time).
- Masked text can be edited freely, except that a secret moved away from its key stays
  masked (`MaskEdit.EditUnderMask`, `MaskEdit.BareSecretStaysMasked`).
- The dedupe of auto-rollback snapshots only ever fires for documents without secrets,
  because every mask mints new uuids (`Runs.DedupedIff`, `Runs.SecretStoredAgain`).
- A sweep that runs while a snapshot is being created can collect the secrets of that
  snapshot (`Interleaving.StoredResolvesIff`, `Interleaving.SweepRace`). The server has
  the sweep but nothing in it calls it yet, so the race is latent.
- A failed attempt on a locked address can end the lock
  (`RateLimiterRuns.LateFailKeepsLockIff`, `RateLimiterRuns.LateFailUnlocks`). The login
  code asks for a lock before it makes an attempt, but awaits the password check before it
  reports the failure, so attempts that were admitted earlier can still fail on a locked
  address; how many guesses this adds is `RateLimiterRuns.InFlightBudget`.
- An IPv6 text with two '::', which section 2.2 of RFC 4291 does not allow, is accepted,
  and what follows the second is dropped (`IpText.V6Iff`, `IpText.SecondShortcut`).
- With maxFails of 1 the first fail does not lock, so the guess budget counts at least
  two per window (`RateLimiterRuns.MaxFailsHoldsIff`, `RateLimiterRuns.TwoGuesses`).
- The stream helper is documented to send an error only if none was sent yet, but sends
  one always, so the details of a failure never reach the store
  (`DeployStore.DetailsAreReplaced`).
- A nested run reports under the same step ids, so it overwrites the steps of the deploy
  that failed: a failed lint, preflight or write of the rollback is shown on a deploy
  that passed them, and the healthcheck as passed exactly when a rollback is reported
  (`DeployStore.FinalSteps`, `DeployStore.OwnStepsIff`, `DeployStore.OwnStepsWhen`,
  `DeployStore.OverwrittenSteps`).
- New profile keys are documented to follow the last known key, or to go to the top when
  there is none; they go to the end of the document (`ProfileLaws.PlacedIff`,
  `ProfileLaws.NewKeyNotBehindKnown`, `ProfileLaws.NewKeyNotAtTheTop`).
- A save that changes no setting is meant to leave every node alone. It does not for
  ill-typed known values, for unknown keys that are not strings, which are written a
  second time, for mappings with such keys inside, and for values with a NaN in them
  (`ProfileRoundTrip.TouchesNothingIff`, `ProfileRoundTrip.SavedPair`,
  `ProfileRoundTrip.IllTypedIsRemoved`, `ProfileRoundTrip.NumericKeyDoubles`,
  `ProfileRoundTrip.NestedKeyIsReplaced`, `ProfileRoundTrip.NaNIsReplaced`).

## Model

| member | source | states |
|---|---|---|
| RuleParser.SplitTopLevel | packages/shared/src/parser/rule-parser.ts:31-49 | the depth-counting loop cuts exactly at the commas met at depth 0 and trims each part |
| RuleParser.SplitChildren | packages/shared/src/parser/rule-parser.ts:51-73 | the loop returns the parenthesised groups met at depth 0, in order, and ignores the text between them |
| RuleParser.FindClose | packages/shared/src/parser/rule-parser.ts:142-154 | the loop finds the first ')' that brings the depth back to 0, or -1 |
| RuleParser.GroupsShorter | packages/shared/src/parser/rule-parser.ts:75-117 | every child group is shorter than the text it is cut from, so the mutual recursion of the parser ends |
| Text.SpaceCodes | packages/shared/src/parser/rule-parser.ts:120 | what trimming removes are exactly the white space and line terminators of ECMAScript, by code point |
| RuleRoundTrip.ParsedWellFormed | packages/shared/src/parser/rule-parser.ts:119-199 | every rule the parser returns is well formed (trimmed parts, balanced groups, no comma at depth 0, no target or MATCH below the top), except a simple rule of type MATCH |
| RuleRoundTrip.PrintedChildParses | packages/shared/src/parser/rule-parser.ts:75-117 | printing a well-formed child and parsing it again is the identity, at any nesting depth |
| RuleRoundTrip.PrintedParses | packages/shared/src/parser/rule-parser.ts:203-225 | printing a well-formed rule and parsing it again is the identity |
| RuleRoundTrip.MisreadRule | packages/shared/src/parser/rule-parser.ts:124-128 | a simple rule of type MATCH never survives printing and parsing |
| RuleRoundTrip.RoundTripIffWellFormed | packages/shared/src/parser/rule-parser.ts:119-225 | for every rule tree, parsing its printed form gives it back if and only if it is well formed |
| RuleRoundTrip.NormalForm | packages/shared/src/parser/rule-parser.ts:119-225 | for every accepted string, printing and parsing again gives the same rule if and only if it was not read as a simple rule of type MATCH |
| RuleRoundTrip.MisreadTextIff | packages/shared/src/parser/rule-parser.ts:119-199 | an accepted string is read as a simple rule of type MATCH if and only if its first top-level part is 'MATCH' and the trimmed text does not start with 'MATCH,' |
| RuleRoundTrip.AcceptedAndMisread | packages/shared/src/parser/rule-parser.ts:124-128 | the string 'MATCH ,a,b' is read as a simple rule of type MATCH, and its printed form as something else |
| RuleGrammar.GrammarIff | packages/shared/src/parser/rule-parser.ts:119-199 | the parser gives a rule for a text if and only if the text is one of the layouts of that rule: white space around every operator, type, value, target and modifier, around the whole, and around every parenthesis at every depth except before the comma that follows the children of a rule, and any balanced text that opens no group between child groups |
| RuleGrammar.BodyParses | packages/shared/src/parser/rule-parser.ts:119-199 | every layout of a rule, with white space before and behind it, is read as that rule |
| RuleSpacing.SpacedPrintingParses | packages/shared/src/parser/rule-parser.ts:119-199 | every well-formed rule is read from each of its printings with white space around any operator, type, value, target and modifier and around any group, at every depth, and around the whole, but for the comma behind the children of a rule |
| RuleSpacing.PrintedIsLaid | packages/shared/src/parser/rule-parser.ts:203-225 | what the printer writes is one of these printings |
| RuleGrammar.CommaAtOnce | packages/shared/src/parser/rule-parser.ts:157-161 | whatever balanced text the children are, and whatever but a comma stands at once behind them, a space included, the rule is refused for its missing target |
| RuleGrammar.TwoGroupsDropped | packages/shared/src/parser/rule-parser.ts:86-96 | a child with two groups behind its operator is accepted, though a single one is documented, and read as the operator without children |
| SuffixTrie.Trie.LookupAndInsert | packages/shared/src/linter/unreachable.ts:89-119 | one walk over heap nodes returns the smallest recorded position over all label boundaries of the value and then records the value if it is new; the empty value does neither |
| SuffixTrie.BestUpToMeaning | packages/shared/src/linter/unreachable.ts:79-88 | the result of the walk is the minimum recorded position over the reversed prefixes that are followed by '.', or -1 |
| SuffixTrie.ReversedPrefix | packages/shared/src/linter/unreachable.ts:51-58 | a boundary of the reversed value after the reversed v is the same as the value ending with '.' and v |
| Unreachable.FirstCover | packages/shared/src/linter/unreachable.ts:204-243 | the smallest of the three candidate positions is the earliest earlier rule that is MATCH, equal or shadowing |
| Unreachable.TrieFindsShadow | packages/shared/src/linter/unreachable.ts:175-179 | the trie gives the earliest earlier suffix rule that shadows the value |
| Unreachable.KeywordScanFindsShadow | packages/shared/src/linter/unreachable.ts:180-198 | the keyword list gives the earliest earlier keyword rule whose value occurs in this one and differs from it |
| Unreachable.ScanKeywords | packages/shared/src/linter/unreachable.ts:184-190 | the loop stops at the first keyword that occurs in the value and differs from it |
| Unreachable.DetectUnreachable | packages/shared/src/linter/unreachable.ts:129-257 | the pass over trie, map and keyword list returns exactly the issue list of the nested loop over all pairs of rules |
| PlannedLinter.PlannedAgreesIff | docs/superpowers/plans/2026-04-16-miharbor-stage-1-core.md:1165-1222 | on a list with distinct indexes and no empty suffix value, the nested loop of the design plan reports the same for a rule as the implementation if and only if every earlier rule of equal type and value but other target or modifiers comes after one that covers the rule anyway |
| PlannedLinter.PlanReportsMore | docs/superpowers/plans/2026-04-16-miharbor-stage-1-core.md:1165-1222 | on two suffix rules of one value and different targets the planned loop reports the second and the implementation reports nothing |
| Routing.CoverageIsInclusion | packages/shared/src/linter/unreachable.ts:1-15 | a rule covered by an earlier one matches only requests that the earlier one matches |
| Routing.ReportedAreCovered | packages/shared/src/linter/unreachable.ts:121-128 | a rule is reported if and only if some earlier rule covers it |
| Routing.IssueNamesEarliest | packages/shared/src/linter/unreachable.ts:204-243 | the issue of a rule names the earliest earlier rule that covers it, as one above a MATCH if that is one, else as a duplicate if it is equal, else as shadowed |
| Routing.DeletionKeepsRouting | packages/shared/src/linter/unreachable.ts:1-15 | deleting all reported rules at once leaves the first-match target of every request unchanged |
| Duplicates.DetectDuplicateRules | packages/shared/src/linter/duplicates.ts:199-256 | the pass over two maps reports, for each simple rule, the earliest earlier rule of the same key and target, and the earliest of the same key if it goes elsewhere |
| Duplicates.SharedKey | packages/shared/src/linter/duplicates.ts:205 | two different pairs of type and value have the same key if and only if one type extends the other by ':' and text that the other value starts with |
| Duplicates.KeysIdentifyIff | packages/shared/src/linter/duplicates.ts:205 | keys tell the rules of two types apart if and only if neither type extends the other by ':' |
| Duplicates.FalseDuplicate | packages/shared/src/linter/duplicates.ts:205-224 | two rules that agree in neither type nor value, of which the second is reported as a duplicate |
| Duplicates.IntraGroupNamesEarliestIff | packages/shared/src/linter/duplicates.ts:207-227 | on a list with distinct indexes, an intra-group report of a rule names the earliest rule of its type, value and target, and is made exactly when there is one, if and only if every earlier rule of its target that shares its key with another type and value comes after such a rule |
| Duplicates.CrossGroupIff | packages/shared/src/linter/duplicates.ts:229-247 | a rule is reported as going to two places if and only if the earliest earlier rule with its key has another target; the report names that rule, its target, and the target of the rule itself, in this order |
| Duplicates.InclusionIsFlagged | packages/shared/src/linter/unreachable.ts:175-198 | a suffix or keyword rule whose set of hosts lies inside that of one earlier rule of its type is reported by one of the two linters |
| Duplicates.FlaggedIff | packages/shared/src/linter/duplicates.ts:194-256 | on any list, a rule is reported by one of the two linters if and only if some earlier rule is MATCH, is equal, has the same key, or is of its host type and matches all its hosts |
| Duplicates.FlaggedIffIncluded | packages/shared/src/linter/duplicates.ts:194-256 | on a list of one host type, the two linters together report exactly the rules whose hosts lie inside those of one earlier rule |
| MaskLaws.MaskTwice | apps/server/src/vault/mask.ts:98-145 | masking a masked document mints nothing and changes nothing |
| MaskPaths.SecretKeyIff | apps/server/src/vault/mask.ts:47-80 | a key is secret if and only if it is not 'public-key' and is listed or ends in -key, -password, -token or -secret |
| MaskPaths.EndingsAreSecret | apps/server/src/vault/mask.ts:47-80 | whatever stands before -password, -token or -secret, the key is secret; before -key, if and only if it is not 'public' |
| MaskPaths.MaskedAtPath | apps/server/src/vault/mask.ts:98-145 | scalar by scalar along paths, for every document: a non-null scalar under a secret key that does not start with the sentinel prefix becomes a sentinel under which the vault has its text; every other scalar, every key and the shape stay |
| MaskLaws.UnmaskMasked | apps/server/src/vault/vault.ts:244-286 | unmasking after masking is unmasking of the document with its secret scalars turned into strings |
| MaskLaws.CoercedIff | apps/server/src/vault/mask.ts:128-136 | turning secret scalars into strings changes nothing if and only if they are strings |
| MaskLaws.CoercedMasks | apps/server/src/vault/mask.ts:98-145 | a document masks exactly as the same document with its secret scalars turned into strings |
| MaskLaws.MaskThenUnmaskIff | apps/server/src/vault/vault.ts:244-286 | for a document without sentinels beside scalar keys, unmasking after masking gives it back if and only if all its secret scalars are strings |
| MaskLaws.UnmaskAfterMask | apps/server/src/vault/vault.ts:244-286 | for any document with string secrets, unmasking after masking equals unmasking alone |
| MaskLaws.MaskedSentinels | apps/server/src/deploy/snapshot.ts:93-106 | the sentinels of a masked document are those it had and exactly the minted ones, which all stand beside scalar keys |
| MaskLaws.SentinelsSplit | apps/server/src/deploy/snapshot.ts:93-106 | the sentinels that snapshots list are those beside scalar keys, which unmasking resolves, and the others, which it passes over |
| MaskLaws.UnmaskResolves | apps/server/src/vault/vault.ts:262-286 | when no stored value is a sentinel, unmasking succeeds if and only if every sentinel beside a scalar key is a key of the vault, and then leaves only the sentinels beside other keys |
| MaskLaws.UnmaskAgree | apps/server/src/vault/vault.ts:262-286 | unmasking depends only on the values of the sentinels in the document |
| MaskPaths.UnmaskedAtPath | apps/server/src/vault/vault.ts:262-286 | scalar by scalar along paths: a sentinel beside a scalar key becomes the text the vault has under its uuid, and every other scalar and the shape stay |
| MaskPaths.MissingIsThere | apps/server/src/vault/vault.ts:262-286 | a failed unmasking names the uuid of a sentinel of the document that does not resolve, and the text of the key beside it |
| MaskLaws.UnmaskStringSecrets | apps/server/src/vault/vault.ts:262-286 | unmasking a document with string secrets gives one with string secrets |
| MaskEdit.EditUnderMask | apps/server/src/vault/mask.ts:98-145 | for every document without sentinels and every edit that keeps, moves, copies, drops or inserts sentinel-free subtrees: mask, edit, unmask equals the same edit of the plain document with its secret scalars turned into strings, if and only if no bare secret value is placed away from a scalar key |
| MaskEdit.BareSecretStaysMasked | apps/server/src/vault/mask.ts:98-145 | a password moved out of its pair into a list is still a sentinel after unmasking |
| VaultStore.Vault.MaskDoc | apps/server/src/vault/vault.ts:244-260 | in place, every secret scalar is stored under the next uuid and overwritten with its sentinel, in visiting order; all other nodes keep their values; the minted uuids are returned in order |
| VaultStore.Vault.UnmaskDoc | apps/server/src/vault/vault.ts:262-286 | in place, every sentinel beside a scalar key is overwritten with its value, up to the first that does not resolve; that one is reported with its key, and from there on the document is as it was |
| MaskLaws.TakenUpAgain | apps/server/src/vault/vault.ts:262-286 | unmasking that stopped at a missing secret can be taken up again with more values, with the outcome of having started with them |
| VaultStore.Vault.Gc | apps/server/src/vault/vault.ts:288-299 | exactly the entries outside the live set are dropped, and their number is returned |
| VaultStore.Vault.GcSet | apps/server/src/vault/vault.ts:301-313 | exactly the listed entries are dropped, and their number is returned |
| VaultStore.Vault.AddReferences | apps/server/src/vault/vault.ts:315-327 | the snapshot id is appended once to each listed entry that exists |
| VaultStore.Vault.DropSnapshotReferences | apps/server/src/vault/vault.ts:329-340 | the first occurrence of the snapshot id is removed from every entry |
| VaultStore.StoredThen | apps/server/src/vault/vault.ts:244-260 | what two masking passes store is what one pass over both stores |
| VaultFacts.AfterMaskKeeps | apps/server/src/vault/vault.ts:244-260 | masking keeps unused uuids unused, stores no sentinel, adds exactly the minted keys and changes no stored value |
| VaultFacts.UnmintRestores | apps/server/src/deploy/snapshot.ts:145-165 | dropping what a mask minted gives back exactly the entries before it |
| VaultFacts.ReferencesRecorded | apps/server/src/vault/vault.ts:315-340 | recording a snapshot changes only the listed entries and no value, adds its id behind the others once however often it is recorded, and dropping the id undoes it |
| ViewSentinels.ResolveViewSentinels | apps/server/src/deploy/pipeline.ts:223-281 | in place, the root secret and the proxy keys that hold a keep-existing marker get the current value (proxies matched by name, the last of a name counting), and nothing else changes |
| ViewSentinels.IndexByName | apps/server/src/deploy/pipeline.ts:245-251 | a later entry of the same name replaces an earlier one |
| ViewSentinels.MarkerFreeUnchanged | apps/server/src/deploy/pipeline.ts:204-222 | a document without markers is deployed as it is, whatever the current one holds |
| ViewPaths.RootPairs | apps/server/src/deploy/pipeline.ts:226-239 | root pairs keep keys and places; the secret marker under the first root secret becomes the current secret if that is a string; but for the entries of the first proxies, every other pair stays |
| ViewPaths.EntryPairs | apps/server/src/deploy/pipeline.ts:241-277 | for every pair of every proxy entry: the marker of private-key under private-key, or of pre-shared-key under pre-shared-key, becomes the string that the last current proxy of the same name has under that very key; without such a proxy or such a string, and in every other pair, nothing changes |
| ViewPaths.OtherEntries | apps/server/src/deploy/pipeline.ts:253-254 | an entry of the proxies that is not a mapping stays as it is |
| ViewPaths.OtherDrafts | apps/server/src/deploy/pipeline.ts:226-277 | a draft that is not a mapping stays as it is |
| ViewFacts.ResolveViewMarks | apps/server/src/deploy/pipeline.ts:223-281 | substituting the markers brings in no sentinel but those of the current document, and none beside a key that is not a scalar |
| ViewFacts.RestoredIff | apps/server/src/deploy/pipeline.ts:223-281 | a document with its secret scalars turned into strings and its markers filled is the document itself if and only if its secrets are strings and no marker is filled with something else |
| Retention.ApplyRetention | apps/server/src/deploy/retention.ts:35-56 | the loop splits the ids into kept and removed, in order |
| Retention.KeepsTheNewest | apps/server/src/deploy/retention.ts:1-10 | over a newest-first list exactly the max(count, number within the age limit) newest are kept and all others removed |
| Retention.RemovedIff | apps/server/src/deploy/retention.ts:43-54 | an id is removed if and only if some entry of that id is past the count and has a readable timestamp at or before the cutoff |
| Retention.AgeInDays | apps/server/src/deploy/retention.ts:35-56 | past the count an entry with a readable timestamp is kept if and only if it is less than the given number of days of 86 400 000 milliseconds old |
| Snapshots.LocalFsTransport.WriteVerified | apps/server/src/transport/local-fs.ts:193-208 | the document is replaced if and only if the current one has the expected hash |
| Snapshots.LocalFsTransport.ReadSnapshotsDir | apps/server/src/transport/local-fs.ts:216-241 | the snapshots of the directory, sorted |
| Snapshots.LocalFsTransport.WriteSnapshot | apps/server/src/transport/local-fs.ts:243-251 | a directory of the same id is replaced, any other kept |
| Snapshots.LocalFsTransport.DeleteSnapshot | apps/server/src/transport/local-fs.ts:269-272 | exactly the directory of that id goes |
| SnapshotFacts.ListingMembers | apps/server/src/transport/local-fs.ts:216-241 | the listing holds the snapshots of the directory and no others |
| SnapshotFacts.ListingInOrder | apps/server/src/transport/local-fs.ts:235-239 | the listing is the directory rearranged: newest first, and by ascending id among snapshots of one time |
| Text.LessIff | apps/server/src/transport/local-fs.ts:238 | one text comes before another if and only if, where they first differ, it ends or has the smaller character |
| SnapshotFacts.SweepKeepsTheNewest | apps/server/src/deploy/snapshot.ts:233-235 | what a sweep removes are all but the max(count, recent) newest snapshots of the directory |
| SnapshotFacts.SweptIff | apps/server/src/deploy/snapshot.ts:233-258 | with unique ids, a sweep keeps a snapshot if and only if it is among the count first of the listing or less than the given number of days old, and adds none |
| SnapshotFacts.SweptSecret | apps/server/src/deploy/snapshot.ts:233-258 | after a sweep an entry is there if and only if a snapshot that is left shows it; its value stays, and of its references exactly one occurrence of each removed id is gone |
| Snapshots.SnapshotManager.Create | apps/server/src/deploy/snapshot.ts:127-218 | masks, drops the minted uuids and stores nothing for an auto-rollback equal to the newest snapshot, otherwise records the references and stores the masked copy |
| Snapshots.SnapshotManager.ApplyRetention | apps/server/src/deploy/snapshot.ts:233-258 | removes what the decision says, with its references, and then every vault entry that no survivor uses |
| Runs.NewSnapshotResolvesIff | apps/server/src/deploy/snapshot.ts:138-170 | exactly those sentinels of a new snapshot fail to resolve that the captured document had and that fail there |
| Runs.CreateKeeps | apps/server/src/deploy/snapshot.ts:127-218 | for any captured document, storing or deduplicating a snapshot keeps the invariant, all entries and all stored values; what does not resolve in the document counts as foreign |
| Runs.DedupeLeavesVault | apps/server/src/deploy/snapshot.ts:148-165 | a deduplicated snapshot leaves vault entries and directory as they were, for a fresh vault and distinct uuids |
| Runs.DedupedIff | apps/server/src/deploy/snapshot.ts:148-165 | with an injective hash and no stored snapshot showing a uuid still to be drawn, nothing is stored if and only if it is an auto-rollback of a document with nothing to mask that equals the newest snapshot |
| DeployEffects.SnapshotCreated | apps/server/src/deploy/snapshot.ts:127-218 | on a sane server: an auto-rollback of what the newest snapshot shows stores nothing and leaves the server as it was; any other capture adds exactly one snapshot, a masked copy of the document under time and first eight characters of the hash, keeps all entries, and stores each secret under a new uuid with that snapshot as its only reference |
| Runs.SecretStoredAgain | apps/server/src/deploy/snapshot.ts:148-165 | a document with one password, captured twice by auto-rollbacks, is stored twice |
| Runs.SweepIsExact | apps/server/src/deploy/snapshot.ts:233-258 | right after a sweep the vault keys are those that a survivor uses, and the survivors are the snapshots not removed |
| Runs.DeployKeeps | apps/server/src/deploy/pipeline.ts:309-601 | a deploy, with its nested rollback, keeps the invariant for every draft and outcome |
| Runs.RunKeeps | apps/server/src/vault/vault.ts:29-38 | over every run of captures, drafts, deploys, rollbacks, sweeps and edits, with any documents, every sentinel of every stored snapshot is a vault key unless it came in from outside, and an entry that is still there has its old value |
| Runs.SnapshotsAlwaysResolve | apps/server/src/deploy/snapshot.ts:224-231 | from an empty server on, what does not resolve in a stored snapshot came in from outside; when nothing did, every stored snapshot unmasks and leaves no sentinel |
| Runs.StaysResolved | apps/server/src/vault/vault.ts:29-38 | a sentinel of a snapshot that resolves goes on to resolve, to the same value, for as long as the snapshot is in the directory, whatever happens |
| Pipeline.DeployContext.RunPipeline | apps/server/src/deploy/pipeline.ts:309-601 | the step sequence over the real objects does what the specification of a run says, in every outcome, including writes and nested runs |
| Pipeline.DeployContext.Stage | apps/server/src/deploy/pipeline.ts:344-465 | steps 1 to 4 and the unmasking: which error comes first, and what vault and directory hold then |
| Pipeline.DeployContext.WriteContent | apps/server/src/deploy/pipeline.ts:470-494 | a fresh parse of the draft, with markers substituted and sentinels resolved |
| Pipeline.DeployContext.RollBack | apps/server/src/deploy/rollback.ts:54-93 | the rollback does what its specification says and leaves the depth counter as found, or at 0 when it refuses |
| DeployEffects.RollbackDepth | apps/server/src/deploy/rollback.ts:57-93 | a rollback that the healthcheck asks for is refused if and only if the counter is above zero, and then only clears it; every other rollback leaves the counter as found |
| Deploys.OneDeploy | apps/server/src/deploy/pipeline.ts:309-601 | for every server, draft and outcome of lint, preflight, reload and both healthchecks: at most two writes and one nested run; the live document is the last one written; the first write is the resolved draft; no write if and only if the failure came before the write; a rollback is reported if and only if there were two writes and the nested run came up healthy |
| Deploys.NestedDeploy | apps/server/src/deploy/pipeline.ts:560-588 | a run made by a rollback starts none itself, writes what its draft resolves to if its lint and preflight pass, and nothing otherwise |
| Deploys.RollbackWhenDue | apps/server/src/deploy/pipeline.ts:513-588 | for distinct uuids and a sane server: a rollback is started if and only if the operator's own deploy was written and reloaded and the wired healthcheck threw, failed in phase 1, or failed in phase 3 with auto-rollback on; it writes if and only if its lint and preflight pass and the sentinels of the old document resolve, and then writes the old document unmasked, with secret scalars as strings and markers filled from the first write |
| Deploys.StagedSnapshot | apps/server/src/deploy/pipeline.ts:415-442 | before the write, the directory holds a masked copy of the live document under the id the run reports, and its secrets are in the vault |
| DeployEffects.LintRefuses | apps/server/src/deploy/pipeline.ts:369-397 | a draft that does not parse or fails lint ends the run with that error: no snapshot, no write, no rollback, and the directory and the live document as before |
| DeployEffects.ErrorOfRun | apps/server/src/deploy/pipeline.ts:309-601 | the error of every run by what it met, first cause first: lint, then preflight, then a missing secret, then the reload, then the healthcheck with its phase and what became of the rollback |
| DeployEffects.SnapshotOfRun | apps/server/src/deploy/pipeline.ts:415-442 | on a sane server, a run whose draft passes lint adds exactly one snapshot of the live document before it writes, a masked copy whose secrets are the entries that name it, and reports its id, whatever comes after; but for an auto-rollback of what the newest snapshot shows, which adds none and reports that one |
| DeployEffects.OneSnapshotIff | apps/server/src/deploy/pipeline.ts:369-442 | an operator's deploy that starts no rollback leaves the directory with exactly one more snapshot, a masked copy of the old live document, if and only if its draft passes lint; otherwise the directory is as before |
| Deploys.DeployAllOrNothing | apps/server/src/deploy/pipeline.ts:468-588 | without a second write the final live document is the one before or the resolved draft, and the one before if the failure came before the write; after a second write it is the one before if and only if that had no sentinel beside a scalar key, only string secrets, and no marker that the draft fills |
| Deploys.RollbackExactIff | apps/server/src/deploy/pipeline.ts:559-588 | a reported rollback restores the live document if and only if that had no sentinel beside a scalar key, its secret scalars are strings and the deployed draft fills none of its markers with something else; in particular whenever it has no marker; with neither sentinels nor markers the outcome is the old document with its secret scalars as strings |
| Deploys.ResolvedFromTheStart | apps/server/src/deploy/pipeline.ts:468-494 | nothing the run itself stores before its write changes what the draft resolves to, unless the draft holds a uuid that is still to be drawn |
| Deploys.RestoreWrites | apps/server/src/deploy/rollback.ts:70-82 | a rollback to a snapshot of any document whose secrets are in the vault: it fails before the write if and only if a sentinel of the document does not resolve or lint or preflight fail; otherwise it writes the document once, unmasked, with secret scalars as strings and markers filled from the live document |
| Deploys.RollbackRestores | apps/server/src/deploy/rollback.ts:54-93 | if any document was captured and its snapshot stays in the directory through any later run, a rollback to it that writes ends with the captured document if and only if that had no sentinel beside a scalar key, its secret scalars are strings, and it resolves to itself against the live document, whatever that holds; for a live document without such sentinels the last means that none of its markers is filled; always when it has no marker either |
| Deploys.MarkerIsNotRestored | apps/server/src/deploy/pipeline.ts:204-222 | a draft with the keep-existing marker and no current secret is written with the marker; after the next deploy fails its healthcheck a rollback is reported, and the live document is the one that failed |
| Deploys.NumberIsNotRestored | apps/server/src/vault/mask.ts:128-136 | a live document with a number under a secret key: the rollback is reported, and the number is now a string |
| Deploys.SentinelIsNotRestored | apps/server/src/deploy/rollback.ts:70-82 | a live document with a sentinel of the vault: the rollback is reported, and the plaintext stands in its place |
| Deploys.NumberComesBackAsString | apps/server/src/vault/mask.ts:128-136 | what masking and unmasking make of a number under a secret key |
| Interleaving.StepsKeep | apps/server/src/deploy/pipeline.ts:417-502 | in every interleaving, a run that holds a masked copy holds one of what it read, and one that is about to write has a stored snapshot of it |
| Interleaving.NoLostUpdate | apps/server/src/transport/local-fs.ts:193-208 | in any interleaving of runs, outside edits, deletions and collections, every write that goes through replaces exactly what its run read at its start, and a snapshot of that was stored before |
| Interleaving.ConflictStops | apps/server/src/deploy/pipeline.ts:314-315 | a run writes if and only if the live document is the one it read; otherwise it changes nothing |
| Interleaving.UndisturbedRun | apps/server/src/deploy/pipeline.ts:417-502 | a run whose steps nothing comes between captures as the snapshot manager does in one call, and replaces the document it read |
| Interleaving.StepsMinted | apps/server/src/deploy/snapshot.ts:138-170 | over any interleaved steps, all that a run has minted for a snapshot not yet stored is still in the vault if and only if it was there before and every collection in between kept all of it |
| Interleaving.StoredResolvesIff | apps/server/src/deploy/snapshot.ts:138-170 | in any interleaving, the sentinels of a stored snapshot that unmasking sees resolve right after the storing if and only if those of the document do and every collection since the masking kept all that was minted for it |
| Interleaving.SweepRace | apps/server/src/deploy/snapshot.ts:233-258 | a document with one password, with a collection of what the directory does not use between its masking and its storing: the stored snapshot does not resolve |
| DeployStore.Store.Handle | apps/web/src/stores/deploy.ts:122-205 | one notice changes the store as specified: the step set or added, pending steps skipped on success, running ones failed on error |
| DeployStore.Store.Follow | apps/web/src/stores/deploy.ts:264-302 | following a run starts from a cleared screen and folds its notices in order; nothing happens while another run is followed |
| DeployStore.Store.PutStep | apps/web/src/stores/deploy.ts:122-146 | the first step of the id changes; a rollback step is added when missing; any other unknown step is ignored |
| DeployStore.FoldSteps | apps/web/src/stores/deploy.ts:148-170 | after any sequence of step notices each step shows the last of its notices |
| DeployStore.ResultTurnsSteps | apps/web/src/stores/deploy.ts:172-205 | whatever the screen shows, an error turns exactly the running steps to failed and a success exactly the pending ones to skipped; both stop the run; an error without a code gets one |
| DeployStore.DeployLast | apps/server/src/deploy/pipeline.ts:309-601 | the last report of every run on every step: that of the nested run if it reports the step, and otherwise what the run's own step came to; the rollback step is reported if and only if a rollback was started, with whether it came up |
| DeployStore.FinalSteps | apps/web/src/stores/deploy.ts:122-205 | the status every step of every run is left with: the nested run's last report, otherwise the run's own, otherwise skipped after a success and pending after a failure |
| DeployStore.OwnStepsIff | apps/web/src/stores/deploy.ts:122-170 | the screen shows the run's own steps if and only if no nested run starts, or the one that does is written, reloaded and found unhealthy as well |
| DeployStore.OwnStepsWhen | apps/server/src/deploy/pipeline.ts:560-588 | on a sane server that is: if and only if no rollback was started, a sentinel of the old document does not resolve, or the nested run passes lint, preflight and reload and is found unhealthy |
| DeployStore.OverwrittenSteps | apps/server/src/deploy/pipeline.ts:560-588 | one input for each step that a nested run overwrites: lint, preflight and write shown as failed though they passed, the healthcheck as passed though it failed |
| DeployStore.EveryRunSettles | apps/web/src/stores/deploy.ts:172-205 | for every outcome the store has stopped, shows no running step, and shows success if and only if the run succeeded, with every step it took as passed; a failed run shows its healthcheck as passed if and only if a rollback is reported; an error shows its code and no details |
| DeployStore.DetailsAreReplaced | apps/server/src/routes/sse.ts:78-89 | the second error notice of a failed run replaces the details of the first, which alone would have arrived |
| DeployStore.CodesTellApart | apps/server/src/deploy/pipeline.ts:120-160 | errors of two kinds never have the same code |
| RateLimiter.Limiter.Check | apps/server/src/auth/rate-limit.ts:90-108 | the answer and the lazy deletion depend only on the live entry of the address |
| RateLimiter.Limiter.Fail | apps/server/src/auth/rate-limit.ts:114-141 | starts a new window, counts, or locks, and saves the result |
| RateLimiter.Limiter.Success | apps/server/src/auth/rate-limit.ts:142-145 | the entry goes; the store is told only if there was one |
| RateLimiter.Load | apps/server/src/auth/rate-limit-store.ts:229-235 | the entries of the file that are well formed and not pruned, a later one of an address replacing an earlier one |
| RateLimiter.LoadedIsLast | apps/server/src/auth/rate-limit-store.ts:162-235 | an address is loaded if and only if the file has an entry for it that is well formed and not pruned, and then with the last of these |
| RateLimiter.LoadAfterSave | apps/server/src/auth/rate-limit-store.ts:156-162 | loading a saved map gives back its entries except those pruned |
| RateLimiterRuns.Perform | apps/server/src/auth/rate-limit.ts:110-157 | the methods of the limiter perform the steps over which runs are stated |
| RateLimiterRuns.HousekeepingIsInvisible | apps/server/src/auth/rate-limit-store.ts:229-235 | erasing any checks and restarts from a run with a non-decreasing clock changes no answer that remains |
| RateLimiterRuns.AnswersOfFails | apps/server/src/auth/rate-limit.ts:90-141 | from no live entry, among any attempts of others, checks and restarts, a check after the fails of one window answers with their number; from the maxFails-th on, or the second if that is less, with a lock and the milliseconds left until lockoutMs after the last fail; and with nothing once the window or the lock is over; the next fail reports a lock exactly when it reaches that number |
| RateLimiterRuns.LockLastsItsTime | apps/server/src/auth/rate-limit.ts:133-138 | a lock reported at t holds for all of [t, t + lockoutMs), whatever attempts were in flight, unless one of them fails after the window of the entry has closed |
| RateLimiterRuns.InFlightBudget | apps/server/src/auth/basic-auth.ts:107-161 | from an address without a live entry, with at most k attempts in flight that an unlocked check admitted: the fails within a span of the first are at most max(maxFails, 2) + k - 1 times one more than the span divided by min(failWindowMs, lockoutMs) |
| RateLimiterRuns.GuessBudget | apps/server/src/auth/rate-limit.ts:114-141 | when every fail meets an unlocked entry, the bound per window is max(maxFails, 2) |
| RateLimiterRuns.MaxFailsHoldsIff | apps/server/src/auth/rate-limit.ts:122-138 | the bound of maxFails per window holds for every such run if and only if maxFails is at least two |
| RateLimiterRuns.TwoGuesses | apps/server/src/auth/rate-limit.ts:122-132 | two fails at once that go through under every policy, one more than maxFails of 1 allows |
| RateLimiterRuns.LateFailKeepsLockIff | apps/server/src/auth/rate-limit.ts:122-132 | a fail on a locked address leaves it locked if and only if its fail window is still open |
| RateLimiterRuns.LateFailUnlocks | apps/server/src/auth/rate-limit.ts:122-132 | with the default policy, from an empty limiter: the fifth fail locks for fifteen minutes, and an attempt admitted just before it fails a tenth of a second later and ends the lock |
| PbScan.Reader.ReadVarint | apps/server/src/catalog/pb-scan.ts:101-117 | the shift-and-or loop over at most ten bytes reads the little-endian base-128 number, or what a truncated one holds, and moves the cursor past it |
| PbScan.Reader.ReadBytes | apps/server/src/catalog/pb-scan.ts:119-124 | the next n bytes or all that are left |
| PbScan.Reader.SkipField | apps/server/src/catalog/pb-scan.ts:65-87 | the cursor moves past the body of the field, and to the end for an unknown wire type |
| PbScan.ScanInnerCountryCode | apps/server/src/catalog/pb-scan.ts:49-63 | the first length-delimited field 1 of the message |
| PbScan.Scan | apps/server/src/catalog/pb-scan.ts:30-47 | on every buffer the scan ends within |buf| iterations with the names of the entries in order |
| PbScan.VarintRoundTrip | apps/server/src/catalog/pb-scan.ts:101-117 | reading an encoded number gives it back and leaves the bytes behind it |
| PbScan.InnerRoundTrip | apps/server/src/catalog/pb-scan.ts:49-63 | scanning an encoded message gives its first name field, whatever fields surround it |
| PbScan.ScanInvertsEncoding | apps/server/src/catalog/pb-scan.ts:30-47 | scanning an encoded list with unknown fields of wire types 0, 1, 2 and 5 at both levels gives exactly the entry names in order |
| PbDamage.ReadIff | apps/server/src/catalog/pb-scan.ts:101-117 | on every buffer: a varint takes the bytes up to the first below 128, the tenth, or the end of the buffer, and is the number of their low seven bits, lowest first |
| PbDamage.ItemsThenTail | apps/server/src/catalog/pb-scan.ts:30-47 | the names of whole entries come first, whatever bytes follow them |
| PbDamage.InnerThenTail | apps/server/src/catalog/pb-scan.ts:49-63 | inside an entry, what follows whole fields is scanned if and only if none of them is the name |
| PbDamage.UnknownWireStops | apps/server/src/catalog/pb-scan.ts:82-86 | a field of wire type 3, 4, 6 or 7 ends the scan at both levels, whatever follows |
| PbDamage.CutFieldIsDropped | apps/server/src/catalog/pb-scan.ts:65-87 | a field cut short that is not the one looked for gives nothing, at both levels |
| PbDamage.CutEntryIsRead | apps/server/src/catalog/pb-scan.ts:119-124 | a name cut short is the bytes that are left, and an entry cut short is scanned as if it ended with the buffer |
| Bits.AndHighMask | apps/server/src/auth/trust-proxy.ts:61 | and with a prefix mask clears the low bits |
| TrustProxy.IpToBigInt | apps/server/src/auth/trust-proxy.ts:108-139 | the shift-and-or loop computes the value of the address, or fails on a malformed part |
| TrustProxy.ParseCidrList | apps/server/src/auth/trust-proxy.ts:34-49 | the entries that parse, in order; blank and malformed pieces are dropped |
| TrustProxy.Evaluator.Contains | apps/server/src/auth/trust-proxy.ts:65-95 | for the evaluator of a list text: true if and only if the address is well formed and the text has, between commas and trimmed, an entry that names it: the address itself, or an address with '/' and a prefix length n whose block of 2^(maxBits - n) addresses holds both |
| TrustProxy.ListedMeans | apps/server/src/auth/trust-proxy.ts:84-87 | some compiled entry of a list text matches an address if and only if the text lists an entry that names it |
| TrustProxy.NamesIff | apps/server/src/auth/trust-proxy.ts:51-63 | an entry text matches an address if and only if it has no '/' and is that address, or it is a well-formed address, '/', and text that reads as a number n from 0 to maxBits (up to a second '/'), and both addresses lie in one block of 2^(maxBits - n) |
| TrustProxy.InListIff | apps/server/src/auth/trust-proxy.ts:38-41 | the entries of a list are the non-empty trimmed texts between its commas |
| IpText.V4Iff | apps/server/src/auth/trust-proxy.ts:108-119 | a text is an IPv4 address of value v if and only if it is four dot-free parts between dots that read as numbers up to 255, and v is their base-256 number, the first the highest |
| IpText.GroupIff | apps/server/src/auth/trust-proxy.ts:134-137 | a group is worth n if and only if it is one to four digits that, in small letters, are n written in base 16 |
| IpText.V6Iff | apps/server/src/auth/trust-proxy.ts:120-138 | a text is an IPv6 address of value v if and only if it is eight groups between colons worth v, or at most eight groups on the two sides of '::' that are worth v with zeros between them, and behind these nothing or a second '::' with any text |
| IpText.SecondShortcut | apps/server/src/auth/trust-proxy.ts:122-123 | an address with a second '::' has the value of what stands before it, whatever follows |
| TrustProxy.AddressBound | apps/server/src/auth/trust-proxy.ts:108-139 | an address value is below 2^32 or 2^128 |
| TrustProxy.MaskClears | apps/server/src/auth/trust-proxy.ts:61-62 | and with the built mask clears exactly the host bits of an address |
| TrustProxy.EntryMatchesBlock | apps/server/src/auth/trust-proxy.ts:59-63 | the network of an entry is its address with the host bits cleared, and it matches an address if and only if the address lies in the block of 2^(maxBits - bits) addresses from there on |
| TrustProxy.ShortcutKeepsValue | apps/server/src/auth/trust-proxy.ts:120-138 | every placement of '::' over a run of zero groups has the value of the full eight-group form |
| EventStream.ConsumeStream | apps/web/src/stores/deploy.ts:207-227 | however the stream is cut into chunks, the same blocks are processed as on the whole text |
| EventStream.ProcessBlock | apps/web/src/stores/deploy.ts:229-244 | the last event name and the joined data lines of a block; comments are skipped, and a block without data has no event |
| EventStream.BlockGives | apps/web/src/stores/deploy.ts:229-244 | every block: no event without a line that starts with 'data:'; otherwise its data are these lines behind that prefix, trimmed and joined by line breaks, and its name is that of the last line that starts with 'event:', trimmed, or 'message'; all other lines are ignored |
| EventStream.BlocksAppend | apps/web/src/stores/deploy.ts:213-224 | more text never changes the blocks already cut |
| EventStream.FramesAreReceived | apps/server/src/routes/sse.ts:31-34 | any sequence of one-line event frames and comments, cut anywhere, is received as exactly its events in order, trimmed |
| EventStream.ReceivedUnchangedIff | apps/web/src/stores/deploy.ts:234-237 | the events arrive unchanged if and only if names and payloads are trimmed |
| ProfileTree.EquivalentIff | apps/web/src/lib/yaml-mutator.ts:698-733 | a node with distinct key texts is left alone if and only if all its mapping keys are strings, it means the value, whatever the order of keys, and the value holds no NaN |
| ProfileTree.CreatedMeans | apps/web/src/lib/yaml-mutator.ts:694 | a created node means exactly the value it was made from |
| ProfileTree.MapsEqualIff | apps/web/src/lib/yaml-mutator.ts:710-720 | comparing sizes and looking every key up decides equality of objects |
| ProfileLens.Document.SetProfileConfig | apps/web/src/lib/yaml-mutator.ts:610-696 | the removal and update loops leave the document that the specification of a write describes |
| ProfileLens.Document.GetProfileConfig | apps/web/src/lib/profile-view.ts:170-234 | key by key: a known field is read if and only if it is present with its type, with its own value (lists of credentials as text); a sub-section if and only if it is a mapping, for geox-url with something in it; and every field that is neither known nor a section, and nothing else. Reading after a write is ProfileRoundTrip.PutGet |
| ProfileLens.CollectManaged | apps/web/src/lib/yaml-mutator.ts:619-658 | what is to be written: known keys in their order, then the extras, sorted |
| ProfileOrder.ManagedInOrder | apps/web/src/lib/yaml-mutator.ts:619-658 | known keys are written in the order of PROFILE_KEY_ORDER, and behind them the others in ascending order of their keys |
| ProfileOrder.SubInOrder | apps/web/src/lib/yaml-mutator.ts:570-598 | the same for the fields of a sub-section |
| ProfileOrder.SettingIff | apps/web/src/lib/profile-view.ts:170-221 | a key of a document becomes a setting if and only if it is one of the known keys and its value is of the kind of that key, by name: finite number, boolean, one of its words, string or list |
| ProfileOrder.SectionsStay | apps/web/src/lib/profile-view.ts:44-65 | none of the twenty section keys is read as a setting or an extra, and writing settings with extras that were read leaves every section of any document as it is |
| ProfileLaws.SetLookup | apps/web/src/lib/yaml-mutator.ts:660-695 | for a document with distinct string keys, among any other keys, key by key: what is to be written is there, on the old node if equivalent; a known key with nothing to write is gone; every other key keeps its node |
| ProfileLaws.SetOrder | apps/web/src/lib/yaml-mutator.ts:600-609 | on a document with distinct string keys, among any other keys, surviving keys keep their relative order and format, and new ones follow at the end in the order of writing |
| ProfileLaws.PlacedIff | apps/web/src/lib/yaml-mutator.ts:528-533 | a save puts the keys where the documentation says (new known ones right after the last known key, or at the top when there is none) if and only if no known key is new, or the last surviving key is a known one, or no key survives; provided no known key is among the extras behind an unknown one |
| ProfileLaws.NewKeyNotAtTheTop | apps/web/src/lib/yaml-mutator.ts:528-533 | a document with dns only: a new mode goes behind it, not to the top |
| ProfileLaws.NewKeyNotBehindKnown | apps/web/src/lib/yaml-mutator.ts:528-533 | a document with mode and dns: a new log-level goes behind dns, not behind mode |
| ProfileRoundTrip.PutGet | apps/web/src/lib/profile-view.ts:170-234 | for a document with distinct key texts in which no key that is not a string has the text of a known key or of an extra to write, and well-typed settings: after a write, reading gives the settings, normalised, with the unknown keys the document had and the settings did not mention |
| ProfileRoundTrip.SubRead | apps/web/src/lib/profile-view.ts:117-168 | reading a sub-section that means what was built gives back its known fields and extras |
| ProfileRoundTrip.RebuiltIff | apps/web/src/lib/yaml-mutator.ts:570-598 | a sub-section read and built again means the same if and only if its known fields have their types |
| ProfileRoundTrip.TouchesNothingIff | apps/web/src/lib/yaml-mutator.ts:610-696 | for every document with distinct key texts, any keys and any numbers: writing back what was read deletes no pair and sets no node if and only if every pair is kept, that is, a section, or a string key with string keys and no NaN below it and a value of its type if it is known |
| ProfileRoundTrip.SavedPair | apps/web/src/lib/yaml-mutator.ts:660-696 | what that save does to every single pair: a kept one stays; a key that is not a string stays and its value is written a second time under its text; any other node is replaced by a new one of what was read, or removed when its value has the wrong type |
| ProfileRoundTrip.NaNIsReplaced | apps/web/src/lib/yaml-mutator.ts:693-705 | a key with a NaN gets a new node, without its formatting, on every save |
| ProfileRoundTrip.NestedKeyIsReplaced | apps/web/src/lib/yaml-mutator.ts:710-720 | a mapping with a key inside that is not a string is replaced by a new mapping with string keys, on every save |
| ProfileRoundTrip.IllTypedIsRemoved | apps/web/src/lib/yaml-mutator.ts:660-682 | a mode that is a boolean is removed on every save |
| ProfileRoundTrip.UntouchedSame | apps/web/src/lib/yaml-mutator.ts:684-695 | a write that deletes no pair and sets no node leaves the document as it was |
| ProfileRoundTrip.RewrittenIff | apps/web/src/lib/yaml-mutator.ts:619-651 | reading a known value and writing it means the old value if and only if that has the type of its key |
| ProfileRoundTrip.GetPutIff | apps/web/src/lib/yaml-mutator.ts:610-696 | for every document with distinct key texts, writing back what was read gives the same document if and only if every pair is kept or replaced by an equal node; on a document whose keys are strings and which holds no NaN, if and only if every known key present holds a value of its type |
| ProfileRoundTrip.NumericKeyDoubles | apps/web/src/lib/yaml-mutator.ts:690-695 | a numeric top-level key is written a second time as a string |

## Left out

- Text is a sequence of characters: the difference between UTF-16 code units, code points and surrogate pairs is not modelled.
- YAML text: parsing, printing, comments, anchors, merge keys and mapping keys that are themselves collections. Documents are trees; the print is taken to be injective, so the hash of a document is a function of its tree.
- A live configuration that does not parse is not modelled; a draft that does not parse is.
- AES-GCM, the key file, sha256 and the uuid generator: the hash is a parameter, assumed injective where a lemma says so; the uuids drawn are a parameter, assumed distinct where a lemma says so.
- The vault is one atomic step per call; `store`, `resolve`, `resolveMany` and timestamps of entries are easy members.
- VaultStore.Vault.UnmaskDoc: a sentinel that names a member every object inherits, such as $MIHARBOR_VAULT:constructor, counts as missing here, where the program finds the member and writes undefined.
- VaultStore.Vault.MaskDoc: the walk is a recursion over the tree instead of the visitor of the YAML library, which is not part of this model.
- Snapshots.LocalFsTransport.ReadSnapshotsDir: timestamps are numbers, so the order of unreadable metadata and the skipping of broken directories are not captured; the retention decision itself does treat unreadable timestamps.
- Snapshots.LocalFsTransport.WriteVerified: taking and losing the file lock is not modelled; the locked read, comparison and write are one step. `writeConfig`, the fallback for transports without this method, is left out.
- The unified diff, diff summaries, audit records, user identity and log lines of a deploy.
- Lint, preflight, reload and healthcheck results are parameters of a run; polling and the health monitor are left out.
- The read-only views that put the keep-existing markers into a document; only their substitution is modelled.
- Debouncing and failing writes of the rate-limit file; a save is taken to reach the file.
- RateLimiterRuns.GuessBudget: starts from an address without a live entry.
- UTF-8 decoding of the scanned names; the scanner returns bytes.
- EventStream.FramesAreReceived: chunks are cut between characters; a chunk that ends inside a UTF-8 sequence, and the decoder that holds its bytes back, are left out.
- TrustProxy.IpToBigInt: how JavaScript reads a number from text is a parameter.
- The server loop that drains the event queue and its timers; the frames it writes are modelled.
- JSON text of events: payloads are strings, and the store folds decoded notices. Step messages and metadata are left out.
- The dangling-reference parts of `duplicates.ts`, `placement.ts` and the template matcher have no exact specification.
- The empty suffix value, which the parser refuses, shadows nothing in the nested loop used here, as in the trie.
- ProfileLens.Document.SetProfileConfig: the identity of nodes is captured by their formatting only; two documents with equal trees and formats count as the same.
- ProfileRoundTrip.PutGet: holds up to the order of unknown keys and nested fields. A key that is not a string with the text of a key to write would leave two keys of one text, of which the plain value keeps only one.
- ProfileRoundTrip.TouchesNothingIff: two keys of one mapping with the same text, such as 1 and "1", are not covered, because the plain value the program works on keeps only one of them.
- The setters of the dns, tun, sniffer and provider sections have the same shape and would add easy members only.
- SSH transport, HTTP routes, the web components and environment handling.

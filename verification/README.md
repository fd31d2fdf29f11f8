# Verified models of the gateway's stateful cores

This project models, in Dafny 4.11, the parts of the AI gateway in which several functions have to agree over a whole
run, and proves what they achieve together.  `dafny verify dfyconfig.toml` checks all of it.

- **Secrets at rest** (`Base64`, `Text`, `Envelope`, `Keyring`, `Rotation`, `Migration`): values are encrypted under a fresh data key
  which a root key wraps, framed as `naenc:v1:<key id>:<base64url>:<base64url>`.  The central results: no legal sequence
  of writes, rewraps, deletes and keyring changes loses a value; after the startup migration, batch by batch, the old
  root keys can go; whatever text opens for a domain was sealed for that domain, and a stored row opens under no domain but
  its own, unless the cipher itself was forged.
- **Rate limiter** (`RateLimiter`): a bounded queue per key, with eviction at any time, decides exactly like the
  unbounded log of accepted requests.
- **Upstream model reconciliation** (`OrderedSets`, `ModelNames`, `UpstreamSync`, `Reconciliation`, `IdBatches`,
  `ChannelScan`):
  detect, stage and apply; the exact condition under which detection after application finds nothing more; confinement of
  what a client can change; the batched channel scan.
- **Prices** (`ModelsDev`, `PricingDiff`): the selection of one price per model under a comparison that is not transitive,
  and the meaning of the multi-phase difference report.
- **Several keys per channel** (`MultiKey`, `ChannelServing`, `KeyTraces`, `KeyText`, `SavedRuns`, `KeyPaging`,
  `KeyPolling`): index maps refine a list of records under every action; exactly when traces of old failures reappear, when an enabled channel is left without
  a key, and when runs that are saved after every action keep refining the records; pages partition the status list, polling is fair.
- **Request-body storages** (`StorageAccounting`): usage counters under every interleaving of their atomic updates, and the
  exact admission guard that keeps the disk limit.
- **Opus duration** (`OggScan`) and **quota arithmetic** (`Quota`).

## How the source is represented

- Go strings in the secret store are byte sequences (`Bytes`); elsewhere they are Dafny strings.  Integers are unbounded;
  where the width matters (`int64` granule positions, 32-bit quotas) it is written out.
- AES-256-GCM is a value of type `Envelope.Aead`; `Correct` says that opening undoes sealing and that the tag is 16 bytes
  long.  `PlainCipherIsCorrect` shows the assumption can be met.  Authenticity is not assumed: `OpenedValueWasSealed` and
  `RowOpensOnlyUnderItsDomain` conclude that either the value is genuine or a ciphertext was accepted that no seal call
  produced.  Random bytes, the clock, `strings.TrimSpace` in the keyring loader, regular-expression matching, the
  decoder of JSON arrays and the ordered, limited database queries are parameters.
- Objects that the source updates in place are classes (`Keyring.Service`, `RateLimiter.InMemoryRateLimiter`,
  `UpstreamSync.ChannelRecord`, `MultiKey.Channel`, `StorageAccounting.Stats`, `StorageAccounting.BodyStorage`,
  `Quota.RelayInfo`); their methods are tied to functions of the old state, and the run theorems are about these functions.
  The storage counters are the exception: there the run theorems are about the single atomic updates, and
  `UninterruptedCreate` and `UninterruptedClose` show that the methods are these updates taken without interruption.
- Finite floats are exact reals.

## Findings

Properties that do not hold without a condition are stated with the exact condition.

- While encryption is disabled, a value that starts with `naenc:` is not read back (`DisabledRoundTripIff`).
- A rate limit below one behaves as one, because the first request of an unknown key is always admitted
  (`LimitIsFollowedIff`, `LimitBelowOneAdmits`).
- Reconciliation does not converge if an adopted name contains a comma, because the models column is comma-separated, or
  if an adopted name equals a `regex:` ignore rule, because adopting a name deletes the equal rule (`ConvergesIff`,
  `CommaNameDefeatsConvergence`, `PatternNameDefeatsConvergence`).
- A channel that differs only by an explicit null, or by the literal text "same", may leave no entry in the price report.
  An entry needs a channel with a proper difference somewhere whose cell here is not "same" (`EntryIff`,
  `NullLeavesNoEntry`).
- In unsorted provider order the name tie-break can drift away from the cheapest price (`UnsortedSelectionDrifts`); the
  program sorts, and then the tie-break never decides.
- The disk limit can be exceeded by overlapping creations, because the check does not see bytes that were admitted and not
  yet added.  It is kept if and only if every creation fits beside these too (`BoundedIff`, `LimitIsKeptIff`,
  `OverlappingAdmissionsExceedLimit`).
- The disk limit can also be exceeded by a single streamed body: the check sees the announced length, and a body that is
  decompressed on the way holds more.  Checking the announced length is enough if and only if no more is written
  (`AnnouncedLengthSufficesIff`, `UnderstatedLengthExceedsLimit`); with admissions one at a time usage exceeds the limit by
  at most the largest such excess (`SerialAdmissionKeepsLimit`).
- A key disabled by hand can show the time and reason of an old failure.  Over runs of management actions, marks and key
  edits that happens if and only if a mark re-enables a key that carries them, since it deletes only the status, or an
  edit lengthens the key list over an index that still has them, since an edit cuts only the statuses
  (`StepKeepsNoTraceIff`, `RunIsPlainIff`, `StaleReasonReturns`, `EditBringsTraceBack`).
- An enabled channel can be left without an enabled key, because management actions do not move the channel's status
  (`StepServesIff`, `RunServesIff`, `DisabledByHandStrands`).
- A deletion survives being saved if and only if the remaining keys stand one per line, without a blank first or last line,
  and the joined text is not itself a JSON array (`DeletionIsSavedIff`).  Deleting all keys as automatically disabled
  brings them back enabled (`AllDisabledKeysReturn`), a blank line that becomes the first one re-enables a disabled key
  (`BlankLineLosesStatus`), and a key that spans lines, as in an indented JSON array, falls apart
  (`IndentedKeyFallsApart`).
- The startup migration stops at a plaintext that the database pattern takes for an envelope.  Where the pattern ignores
  case, `Naenc:x` is one (`SafeStoreMigratesIff`, `MixedCasePlaintextStops`).

## Model

| member | source | states |
|---|---|---|
| `Base64.DecodeUndoesEncode` | common/secret_envelope.go:180-181 | Unpadded base64 decoding gives back every byte string that was encoded, for both alphabets. |
| `Base64.EncodedTextIsDigits` | common/secret_envelope.go:180-181 | Encoded text consists only of alphabet characters, so it holds no colon, padding or newline. |
| `Base64.DecodesIff` | common/secret_envelope.go:322-329 | Any text decodes if and only if all its characters are digits of the alphabet or newlines and the digits do not leave a single one over. |
| `Base64.DecoderIsNotInjective` | common/secret_envelope.go:322-329 | Different texts can decode to the same bytes, so only decoding after encoding is an identity. |
| `Base64.PaddedRoundTrip` | common/secret_envelope.go:88-94 | The padded standard form of section 4 of RFC 4648, in which root keys are configured, decodes to the bytes it encodes. |
| `Base64.PaddedDecodesIff` | common/secret_envelope.go:88-94 | The padded decoder accepts exactly whole groups of four digits whose last one may end in one or two padding characters, newlines aside. |
| `Text.SplitJoin` | common/secret_envelope.go:176-182 | Splitting at the separator undoes joining whenever no part contains the separator. |
| `Text.JoinSplit` | common/secret_envelope.go:314 | Joining the parts of any text gives back the text. |
| `Envelope.PlainCipherIsCorrect` | common/secret_envelope.go:378-409 | The assumption made about the cipher can be met. |
| `Envelope.OpenBytesUndoesSealBytes` | common/secret_envelope.go:378-409 | Opening nonce and ciphertext returns the plaintext; the payload is longer than the plaintext by nonce and tag. |
| `Envelope.PrintedTextSplits` | common/secret_envelope.go:176-182 | A printed envelope has the reserved prefix and splits into exactly its five fields. |
| `Envelope.ParseUndoesPrint` | common/secret_envelope.go:308-351 | Parsing a printed envelope succeeds, passes every length check and returns the envelope. |
| `Envelope.ParsesIff` | common/secret_envelope.go:308-351 | A text parses to an envelope if and only if it is the literal header `naenc:v1:`, a valid identifier and two fields that decode to 60 and to at least 28 bytes. |
| `Envelope.OpenUndoesSeal` | common/secret_envelope.go:144-249 | A sealed value opens to its plaintext, for every domain, under every later configuration that still has the sealing key, with either reader. |
| `Envelope.SealedTextMeans` | common/secret_envelope.go:144-183 | The sealed text byte for byte, with nonces, tags and associated data in place, whether or not encryption is enabled; without a key sealing fails. |
| `Envelope.RewrapSucceedsIff` | common/secret_envelope.go:251-306 | Rewrapping fails exactly when the migration reader fails or when plaintext must be sealed without any key. |
| `Envelope.RewrapMovesToActiveKey` | common/secret_envelope.go:251-306 | With encryption enabled, rewrapping keeps plaintext and payload bytes, leaves the value readable under the active key, reports a change exactly when the active key did not wrap it, and is idempotent. |
| `Envelope.RewrapKeepsPlaintext` | common/secret_envelope.go:251-306 | Under any loadable configuration a successful rewrap does not change what the migration reader returns. |
| `Envelope.RewrapWhileDisabled` | common/secret_envelope.go:251-306 | While encryption is disabled, rewrapping checks the value and stores nothing new. |
| `Envelope.RefusedMeans` | common/secret_envelope.go:203-249 | Plaintext is refused exactly under enforcement by the run-time reader, and an envelope for want of a key exactly if the ring lacks the key it names. |
| `Envelope.OpenedIsShorter` | common/secret_envelope.go:203-249 | What an envelope opens to is shorter than the envelope. |
| `Envelope.DisabledRoundTripIff` | common/secret_envelope.go:123-132 | With encryption disabled a value reads back unchanged if and only if it does not start with the envelope prefix. |
| `Envelope.DisabledRoundTripFails` | common/secret_envelope.go:123-132 | The bare prefix, stored while disabled, is reported as a malformed envelope. |
| `Envelope.WrapAadInjective` | common/secret_envelope.go:415-417 | The associated data of a wrapped key determines domain and key identifier, even when domains contain colons. |
| `Envelope.PayloadAadInjective` | common/secret_envelope.go:411-413 | The associated data of a payload determines the domain. |
| `Envelope.AadPurposesDisjoint` | common/secret_envelope.go:411-417 | No payload and no wrapped key share associated data. |
| `Keyring.LoadKeys` | common/secret_envelope.go:74-98 | The entry loop either builds exactly the ring the entries describe, or stops at the first faulty entry with that entry's first fault. |
| `Keyring.EnabledMeans` | common/secret_envelope.go:52-59 | Encryption is on unless one of six texts turns it off; exactly twelve texts and the empty one are accepted. |
| `Keyring.EntriesAreSoundIff` | common/secret_envelope.go:74-98 | Entries pass if and only if each has an equals sign, a valid identifier that no other has, and 32 bytes in base64. |
| `Keyring.EntriesMean` | common/secret_envelope.go:74-88 | Entries stand between commas, and identifier and key, both trimmed, around the first equals sign. |
| `Keyring.Service.InitDataEncryption` | common/secret_envelope.go:51-109 | Loading succeeds exactly on the acceptable environments; then the ring is the described one, holds the active key, and encryption is enabled unless it was turned off; each kind of failure is reported exactly in its case and keeps the previous configuration. |
| `Keyring.PrintedRingLoads` | common/secret_envelope.go:51-109 | A ring written as `id=base64` entries in any order is accepted and describes exactly that ring. |
| `Rotation.RunKeepsValues` | common/secret_envelope.go:123-306 | After any sequence of writes, deletes, rewraps and keyring changes that obeys the rotation rule, every row opens to the plaintext last stored in it. |
| `Rotation.InitialIsSafe` | common/secret_envelope.go:192-201 | A store of legacy plaintext is a valid starting point for such runs. |
| `Rotation.RuntimeReaderAgrees` | common/secret_envelope.go:185-228 | The run-time reader returns the same plaintext, except exactly for rows that are still plaintext while encryption is enforced. |
| `Rotation.RowSurvivesReconfigurationIff` | common/secret_envelope.go:353-376 | With unchanged key bytes a row stays readable if and only if the new ring has the key the row names. |
| `Rotation.RewrapAllMoves` | common/secret_envelope.go:251-306 | Rewrapping any list of rows leaves all of them under the active key and all plaintexts as they were. |
| `Rotation.OldKeysMayBeDropped` | common/secret_envelope.go:251-306 | Once every row that holds a value has been rewrapped, cutting the ring to the active key is legal and every row is readable at run time. |
| `Rotation.RunIsHonest` | common/secret_envelope.go:123-306 | Over any legal run the log of cipher calls contains payload calls only for values handed to seal, and wrap calls only for valid identifiers. |
| `Rotation.OpenedValueWasSealed` | common/secret_envelope.go:203-249 | If any text opens for a domain, that plaintext was sealed for that domain, or a ciphertext was forged under a configured root key or under a data key generated for the domain. |
| `Rotation.EnvelopeIsBoundToItsDomain` | common/secret_envelope.go:353-417 | With fresh nonces, an envelope whose key was wrapped for one domain opens under no other, short of a forgery. |
| `Rotation.RunKeepsLogged` | common/secret_envelope.go:144-306 | Over any legal run, the wrapped key of every stored envelope came out of a logged wrap call for the domain of its row. |
| `Rotation.RowOpensOnlyUnderItsDomain` | common/secret_envelope.go:203-417 | From a plaintext store, after any legal run with fresh nonces, a stored envelope opens only under the domain of its own row, short of a forged wrapped key. |
| `Migration.MigrateBatch` | model/reversible_secret_migration.go:60-131 | One transaction rewraps every row of the batch, or changes nothing and reports the first fault: a failing rewrap, or a guarded update that touches no row. |
| `Migration.MigrateSecrets` | model/reversible_secret_migration.go:54-136 | The migration succeeds if and only if no row has a fault, and has then rewrapped every secret once in id order; otherwise it stops at the first fault of all, having rewrapped exactly the whole batches before it. |
| `Migration.SafeStoreMigratesIff` | model/reversible_secret_migration.go:54-136 | A store whose rows read back migrates without a fault if and only if there is a key or nothing to seal, and no plaintext matches the pattern of the guarded update. |
| `Migration.MixedCasePlaintextStops` | model/reversible_secret_migration.go:96-118 | A pattern that ignores case stops the migration at a plaintext that differs from the prefix in case only. |
| `Migration.ValidateSecrets` | model/reversible_secret_migration.go:376-420 | The validation scan passes if and only if every row that holds a value reads back at run time. |
| `Migration.MigratedStoreIsSound` | model/reversible_secret_migration.go:54-145 | For every store, readable or not, after a migration without a fault every row that holds a value reads back at run time, so the scan passes. |
| `Migration.MigratedStoreNeedsActiveKeyOnly` | model/reversible_secret_migration.go:54-145 | After such a migration the ring may be cut to the active key, and every row then reads back at run time. |
| `RateLimiter.InMemoryRateLimiter.Request` | common/rate-limit.go:60-87 | The verdict and the new queue are those of the specified step, and every queue keeps a head. |
| `RateLimiter.InMemoryRateLimiter.ClearExpiredItemsAt` | common/rate-limit.go:41-50 | Exactly the expired entries are removed. |
| `RateLimiter.After` | common/rate-limit.go:41-87 | After any run at all, with arbitrary limits, durations and times, every stored queue is non-empty. |
| `RateLimiter.RefinesLog` | common/rate-limit.go:60-87 | While the clock seen by requests does not run backwards and a key keeps its limit and duration, a request is accepted, with cleanups anywhere before it, if and only if fewer than the effective limit of accepted requests of its key are younger than the duration. |
| `RateLimiter.LimitIsFollowedIff` | common/rate-limit.go:66-86 | In those runs the configured limit itself is followed if and only if it is at least one. |
| `RateLimiter.LimitBelowOneAdmits` | common/rate-limit.go:80-86 | A first request passes a limit below one. |
| `RateLimiter.WindowBound` | common/rate-limit.go:41-87 | In those runs every half-open window of the duration's length holds at most the effective limit of accepted requests of a key. |
| `RateLimiter.CleanupKeepsTheYoung` | common/rate-limit.go:41-50 | In those runs a cleanup forgets exactly the keys without a young accepted request, and leaves the other entries as they are. |
| `RateLimiter.KeysAreIndependent` | common/rate-limit.go:64-86 | Requests of other keys never change a key's entry or its accepted requests. |
| `ModelNames.TrimSpaceFacts` | controller/channel_upstream_update.go:101 | Trimming leaves a stretch of the text with no space at either end and only spaces around it. |
| `ModelNames.NormalizeFacts` | controller/channel_upstream_update.go:99-104 | Normalising yields distinct, trimmed, non-empty names, exactly those occurring in the input. |
| `ModelNames.NormalizeClean` | controller/channel_upstream_update.go:99-104 | Lists that are clean already are unchanged, so normalising is idempotent. |
| `ModelNames.NormalizeTakesFirst` | controller/channel_upstream_update.go:99-104 | Normalising takes each name where it first stands. |
| `ModelNames.MergedFacts` | controller/channel_upstream_update.go:106-120 | Merging yields the union without repeats. |
| `ModelNames.MergedIsNormalizedConcat` | controller/channel_upstream_update.go:106-120 | Merging is normalising the concatenation, order included. |
| `ModelNames.MergeModelNames` | controller/channel_upstream_update.go:106-120 | The loop with its seen-set computes the merge. |
| `ModelNames.SubtractFacts` | controller/channel_upstream_update.go:122-131 | Subtracting yields the set difference without repeats, in the order of the first list. |
| `ModelNames.IntersectFacts` | controller/channel_upstream_update.go:133-142 | Intersecting yields the set intersection without repeats, in the order of the first list. |
| `ModelNames.ApplySelectedFacts` | controller/channel_upstream_update.go:144-149 | The result is the old names without the removed ones, plus all added ones: adding wins. |
| `ModelNames.ApplySelectedOrder` | controller/channel_upstream_update.go:144-149 | Survivors come first in their old order, new names after them in theirs. |
| `UpstreamSync.LocalNamesHoldNoComma` | model/channel.go:324-329 | No name read from the models column contains a comma. |
| `UpstreamSync.ColumnRoundTrip` | controller/channel_upstream_update.go:1020-1025 | Clean comma-free names survive writing and reading the column. |
| `UpstreamSync.ColumnNames` | model/channel.go:324-329 | The names of a models column are the trimmed non-blank parts between its commas. |
| `UpstreamSync.PendingAddFacts` | controller/channel_upstream_update.go:178-226 | Pending additions are the upstream names that are neither local, nor redirect targets, nor ignored. |
| `UpstreamSync.PendingRemoveFacts` | controller/channel_upstream_update.go:227-237 | Pending removals are the local names absent upstream that are not redirect sources. |
| `UpstreamSync.CollectPending` | controller/channel_upstream_update.go:178-237 | The loops over names, rules and redirects compute both lists, whose members `AddsIff` and `RemovesIff` characterise. |
| `UpstreamSync.ChannelRecord.Check` | controller/channel_upstream_update.go:535-587 | A check is skipped while recent, records only its time on a failed fetch, and otherwise stages or adopts; the number adopted is the number of pending additions. |
| `UpstreamSync.ChannelRecord.ApplyUpdates` | controller/channel_upstream_update.go:999-1047 | The whole record and the report after an application. |
| `Reconciliation.ApplyFacts` | controller/channel_upstream_update.go:1012-1036 | Added, removed, remaining and ignored names of an application, as sets, for every client input. |
| `Reconciliation.ColumnHoldsNextIff` | controller/channel_upstream_update.go:1020-1025 | The column then reads as the computed list if and only if no adopted name contains a comma. |
| `Reconciliation.ApplicationIsConfined` | controller/channel_upstream_update.go:999-1047 | Provided no adopted name contains a comma: models are gained only from selected staged additions and lost only from selected staged removals; survivors keep their order; additions beat removals and ignoring; staged additions split into added, ignored and remaining. |
| `Reconciliation.AddsIff` | controller/channel_upstream_update.go:178-226 | A name is found to add if and only if it is offered, not local, no redirect target, and ignored neither by an equal rule nor by a pattern, which is the trimmed text after `regex:`. |
| `Reconciliation.RemovesIff` | controller/channel_upstream_update.go:227-237 | A name is found to remove if and only if it is local, not offered and no redirect source. |
| `Reconciliation.IgnoredStaysAway` | controller/channel_upstream_update.go:999-1047 | After any application and for every later upstream, an ignored name, and any name an ignored pattern matches, is not found again. |
| `Reconciliation.OtherFields` | controller/channel_upstream_update.go:535-587 | What a detection and an application leave alone, and the time they record. |
| `Reconciliation.ConvergesIff` | controller/channel_upstream_update.go:178-237 | Detecting, applying everything and detecting again leaves nothing pending if and only if no adopted name contains a comma and no ignored name loses its last rule. |
| `Reconciliation.Converges` | controller/channel_upstream_update.go:999-1047 | In particular when upstream names contain no comma and none starts with `regex:`. |
| `Reconciliation.CommaNameDefeatsConvergence` | controller/channel_upstream_update.go:1020-1025 | A new channel offered a name with a comma still finds it pending after applying everything. |
| `Reconciliation.PatternNameDefeatsConvergence` | controller/channel_upstream_update.go:1027-1030 | Adopting a name equal to a pattern rule uncovers what the rule ignored. |
| `Reconciliation.AutoSyncConvergesIff` | controller/channel_upstream_update.go:564-576 | Automatic adoption leaves no addition pending if and only if none contains a comma, and leaves the removals staged. |
| `IdBatches.SmallestIsBatch` | controller/channel_upstream_update.go:1053-1064 | Every set of ids has an answer to an ordered, limited query, for every limit. |
| `IdBatches.BatchAdvances` | controller/channel_upstream_update.go:1073-1128 | Moving the cursor to the last id of a batch takes exactly the batch away from what lies beyond the cursor. |
| `ChannelScan.Scan` | controller/channel_upstream_update.go:1073-1128 | The scan ends and visits every enabled channel exactly once in id order, for every batch size. |
| `ModelsDev.CandidatesAreConvertible` | controller/ratio_sync.go:865-899 | Exactly which listed costs become candidates, and that candidates carry exactly the listed non-negative prices. |
| `ModelsDev.SelectCandidates` | controller/ratio_sync.go:941-964 | The nested loops select, for each model with a valid candidate, what offering its candidates in provider order selects. |
| `ModelsDev.ReplacementsAreImprovements` | controller/ratio_sync.go:901-913 | In sorted provider order a candidate replaces another exactly if it is the first non-zero price or cheaper by at least epsilon; the name tie-break never fires. |
| `ModelsDev.SelectionIsCheapest` | controller/ratio_sync.go:901-964 | The choice is non-zero if and only if some candidate is, and is then below every non-zero price plus epsilon. |
| `ModelsDev.CatalogueSelectionIsCheapest` | controller/ratio_sync.go:926-964 | The same for every model of a catalogue. |
| `ModelsDev.OffersIff` | controller/ratio_sync.go:941-964 | Exactly the convertible costs that the providers list for a model are offered. |
| `ModelsDev.SelectedPriceIsCheapest` | controller/ratio_sync.go:926-964 | Read off the catalogue: a model is selected if and only if some provider lists a convertible cost; the selected cost is one of those and below every non-zero one plus 10^-9. |
| `ModelsDev.LessIff` | controller/ratio_sync.go:935-940 | Providers are ordered like byte strings: a proper prefix first, otherwise by the first difference. |
| `ModelsDev.LaterOffersOnlyLower` | controller/ratio_sync.go:901-964 | Once non-zero, the chosen price only falls, and by at least epsilon when it changes. |
| `ModelsDev.UnsortedSelectionDrifts` | controller/ratio_sync.go:911-912 | In unsorted order the tie-break can end above the cheapest price plus epsilon. |
| `PricingDiff.EntriesAreDifferences` | controller/ratio_sync.go:613-713 | For all inputs, an entry exists only where some channel supplies a value that differs from the local one. |
| `PricingDiff.RealDifferencesAreKept` | controller/ratio_sync.go:613-713 | A differing value that is neither null nor "same", of a channel whose name no later channel repeats, is kept exactly as supplied, beside the local value. |
| `PricingDiff.DiffersIff` | controller/ratio_sync.go:676-685 | A name counts as differing if and only if the last channel of that name has such a value somewhere. |
| `PricingDiff.EntryIff` | controller/ratio_sync.go:556-716 | For all inputs, nulls and repeated names included: a model and field has an entry if and only if some channel differs there and some channel that differs properly anywhere has a cell there that is not "same". |
| `PricingDiff.PriceDifferenceIff` | controller/ratio_sync.go:49-63 | One local number against one upstream number, each decoded as integer or not, in any of the eight price fields: reported if and only if they are at least 10^-9 apart, up or down, with both values. |
| `PricingDiff.TextDifferenceIff` | controller/ratio_sync.go:56-63 | One local billing text against one upstream text: reported if and only if they differ and the upstream one is not "same". |
| `PricingDiff.PruningKeepsEntries` | controller/ratio_sync.go:676-713 | When names are distinct and no value is null or "same", pruning never removes an entry. |
| `PricingDiff.ListedChannelsDiffer` | controller/ratio_sync.go:676-713 | For all inputs, a channel listed anywhere has a real difference in some entry. |
| `PricingDiff.ColumnsListTheSameChannels` | controller/ratio_sync.go:687-694 | The value and confidence columns of an entry list the same channels. |
| `PricingDiff.EntryContents` | controller/ratio_sync.go:578-672 | The cell under a listed name is the value, marker or null of the last channel of that name, and its confidence is false exactly for the default prices 37.5 and 1. |
| `PricingDiff.NullLeavesNoEntry` | controller/ratio_sync.go:632-713 | A channel that supplies only a null differs and leaves no entry. |
| `PricingDiff.BuildEntry` | controller/ratio_sync.go:615-661 | The loop over channels computes when an entry is included, and its local value, cells and confidences. |
| `PricingDiff.ComputeDifferences` | controller/ratio_sync.go:556-716 | The phases together compute the report that `EntryIff` and `PriceDifferenceIff` characterise. |
| `MultiKey.Channel.Manage` | controller/channel.go:2039-2342 | Every mutating action refines its operation on the list of records, keeps size and map indices in range, reports success exactly when it applies, and leaves the channel status to marks. |
| `MultiKey.Channel.Mark` | model/channel.go:792-855 | Marking a key by value changes exactly the first record of that key, and moves the channel: disabled with its last key, enabled with a recovered one, set directly when the mark is meant for the channel itself. |
| `MultiKey.Channel.DisableAll` | controller/channel.go:2148-2193 | Exactly the enabled keys become manually disabled. |
| `MultiKey.DisableAllMeans` | controller/channel.go:2148-2193 | Disabling all gives status 2 to exactly the keys with status 1 and changes nothing else, so none is then deleted as automatically disabled; it succeeds if and only if something changes. |
| `MultiKey.EnableAllMeans` | controller/channel.go:2124-2146 | Enabling all gives every key status 1 without time and reason. |
| `MultiKey.OneKeyMeans` | controller/channel.go:2039-2122 | Disabling or enabling one key changes that key alone, to status 2 or to status 1 without time and reason, and is refused exactly for an index that is missing or out of range. |
| `MultiKey.DeletionSucceedsIff` | controller/channel.go:2195-2342 | A deletion succeeds if and only if it shortens the list: for one key if the index is valid and another key is left, for the disabled ones if some key has status 3. |
| `MultiKey.MarkMeans` | model/channel.go:792-833 | A mark changes the first record of the key and no other. |
| `MultiKey.StandingMeans` | model/channel.go:792-842 | What a mark does to the channel as a whole, by whether the key is known and whether an enabled key is left. |
| `MultiKey.Channel.Edit` | model/channel.go:663-710 | After an edit of the key list each index keeps its status, time and reason if it still has a key; beyond the keys the statuses are gone and times and reasons stay. |
| `MultiKey.ReindexWithout` | controller/channel.go:2213-2245 | Reindexing after a deletion describes the records without the deleted one. |
| `MultiKey.ReindexSurvivors` | controller/channel.go:2276-2313 | Reindexing after deleting the automatically disabled keys describes the surviving records. |
| `MultiKey.DeletesAreClean` | controller/channel.go:2195-2342 | Either deletion removes exactly what it should; survivors keep order and status, and disabled survivors their time and reason. |
| `MultiKey.RunKeepsKeyOrder` | controller/channel.go:2039-2342 | Over any run of actions the remaining keys are original keys in original order. |
| `MultiKey.DeleteDisabledIsComplete` | controller/channel.go:2275-2342 | No automatically disabled key is left after deleting them. |
| `KeyTraces.StepKeepsNoTraceIff` | model/channel.go:819-831 | Starting without traces of old failures on enabled keys, an operation leaves one if and only if it is a mark that re-enables a key carrying a time or reason, or an edit that lengthens the list over an index with one. |
| `KeyTraces.RunIsPlainIff` | model/channel.go:694-831 | Over any run of actions, marks and edits, disabling enabled keys by hand shows no time and no reason at any moment if and only if no operation leaves a trace. |
| `KeyTraces.StaleReasonReturns` | model/channel.go:819-831 | An automatic failure and recovery is such a mark: disabling the key by hand then shows the old time and reason. |
| `KeyTraces.EditBringsTraceBack` | model/channel.go:692-700 | Shortening the key list and lengthening it again is such an edit: a new enabled key carries the time and reason of a removed one. |
| `ChannelServing.StepServesIff` | model/channel.go:792-855 | An enabled channel keeps an enabled key through an action if and only if the action does not take the last one away by hand or enable the channel itself without one. |
| `ChannelServing.RunServesIff` | model/channel.go:792-855 | The same over whole runs of marks and management actions. |
| `ChannelServing.DisabledByHandStrands` | controller/channel.go:2039-2080 | Disabling the only key by hand leaves the channel enabled without a key. |
| `KeyText.LinesOfJoinedIff` | model/channel.go:211-233 | Joined keys read back as lines if and only if no key contains a newline and neither the first nor the last is empty. |
| `KeyText.GetKeysMeans` | model/channel.go:211-233 | A key text is read as an array if its first visible character is a bracket and it decodes, otherwise by lines; the recorded size is the number of keys except for an empty array. |
| `KeyText.KeysReadBackIff` | model/channel.go:663-710 | After any deletion the saved text reads back as the remaining keys if and only if they stand one per line and the text is not an array. |
| `KeyText.DeletionIsSavedIff` | model/channel.go:663-710 | Then, and only then, all remaining keys also keep status, time and reason across saving. |
| `KeyText.AllDisabledKeysReturn` | model/channel.go:663-710 | Deleting every key as automatically disabled leaves the stored text, and all keys are enabled afterwards. |
| `KeyText.BlankLineLosesStatus` | model/channel.go:694-700 | A blank line that becomes the first one is lost, and the disabled key behind it is enabled again. |
| `KeyText.IndentedKeyFallsApart` | model/channel.go:211-233 | A remaining key that spans lines is read back as one enabled key per line. |
| `SavedRuns.StepRefinesIff` | model/channel.go:663-710 | An action that is saved and read back has its effect on the records if and only if it deletes nothing or leaves saveable keys. |
| `SavedRuns.RunRefinesIff` | model/channel.go:663-710 | Over any run in which every action is saved and read back, the stored channel refines the list of records throughout if and only if every deletion leaves saveable keys, a condition on the initial records and the actions alone. |
| `KeyPaging.GetKeyStatus` | controller/channel.go:1941-2021 | The response holds the requested page of the filtered list, its totals, the clamped page number and the three counters over all keys. |
| `KeyPaging.PagesPartition` | controller/channel.go:2000-2021 | Pages one to the last concatenate to exactly the filtered list, for any page size. |
| `KeyPaging.PagesAreFull` | controller/channel.go:2010-2021 | No page exceeds the page size, and no page of a non-empty list is empty. |
| `KeyPaging.CountersAddUpIff` | controller/channel.go:1961-1969 | The counters add up to the number of keys if and only if every status is one of the three. |
| `KeyPaging.FilterAgreesWithCount` | controller/channel.go:1988-1998 | Filtering by a status yields as many keys as its counter says; no filter yields all. |
| `KeyPaging.ShownMeans` | controller/channel.go:1949-1985 | A row shows index and status of its key, and time and reason only of a key that is not enabled. |
| `KeyPaging.FilteredRows` | controller/channel.go:1988-1998 | The filtered list holds exactly the keys with the status, in index order. |
| `KeyPolling.GetNextEnabledKey` | model/channel.go:259-315 | Polling fails exactly when no key is enabled and otherwise returns the next enabled key cyclically, moving the cursor past it. |
| `KeyPolling.ChosenIsNextEnabled` | model/channel.go:283-311 | The choice is the first enabled key from the cursor on, going round once, and the cursor then stands behind it. |
| `KeyPolling.EachEnabledKeyOnce` | model/channel.go:283-311 | From any cursor, as many consecutive calls as there are enabled keys return each of them exactly once. |
| `StorageAccounting.StepKeepsExact` | common/disk_cache_config.go:109-134 | Every atomic step keeps the counters equal to what the storages contribute, and leaves no clamp pending. |
| `StorageAccounting.CountersNeverNegative` | common/disk_cache_config.go:109-134 | In every interleaving of creations and closes, repeated closes included, no counter is negative and no clamp branch is reached. |
| `StorageAccounting.ExactWhenQuiet` | common/body_storage.go:37-196 | When all creations and closes have finished, the counters equal number and total size of the open storages, for memory and disk. |
| `StorageAccounting.BoundedIff` | common/disk_cache_config.go:109-134 | Whatever has been admitted finishes within the limit, in every interleaving, if and only if usage plus admitted but unadded bytes are within it. |
| `StorageAccounting.LimitIsKeptIff` | common/disk_cache_config.go:170-177 | Along any run from such a state the limit stays safe at every moment if and only if every created disk storage fits beside usage and unadded bytes. |
| `StorageAccounting.SerialAdmissionKeepsLimit` | common/disk_cache_config.go:170-177 | With the check of the program and admissions one at a time, usage exceeds the limit by at most the most that any storage holds beyond its announced length, and not at all without such an excess. |
| `StorageAccounting.AnnouncedLengthSufficesIff` | common/body_storage.go:261-283 | With nothing pending, checking the announced length admits only what fits if and only if no more than that is written. |
| `StorageAccounting.UnderstatedLengthExceedsLimit` | common/body_storage.go:132-168 | One storage that is admitted alone by its announced length and holds more exceeds the limit. |
| `StorageAccounting.OverlappingAdmissionsExceedLimit` | common/body_storage.go:241-259 | Two overlapping admissions of more than half the limit each exceed it. |
| `StorageAccounting.Stats.Decrement` | common/disk_cache_config.go:115-134 | Count and bytes of the kind shrink; only the disk counters are clamped at zero. |
| `StorageAccounting.BodyStorage.Close` | common/body_storage.go:65-72 | The first close releases the storage, later ones change nothing. |
| `StorageAccounting.UninterruptedCreate` | common/disk_cache_config.go:109-128 | Creating is the sequence of its atomic steps: it opens one storage and adds exactly its share to the exact counters. |
| `StorageAccounting.UninterruptedClose` | common/body_storage.go:187-196 | From any state, closing is the sequence of its atomic steps: it takes back exactly the share of the storage and clamps only disk counters that fall below zero, which does not happen in an exact state. |
| `OggScan.SignedRoundTrip` | common/audio.go:229 | Reading eight little-endian bytes as a signed integer undoes writing it. |
| `OggScan.GetOpusDuration` | common/audio.go:196-254 | The scan ends on every byte string and returns the largest granule position it met, over 48000. |
| `OggScan.TruncatedPageCounts` | common/audio.go:229-238 | A header whose segment table is cut off still counts, and ends the scan. |
| `OggScan.ScanFindsExactlyThePages` | common/audio.go:207-249 | On well-formed pages (section 6 of RFC 3533), after junk without the capture pattern and before less than a header, exactly the page starts are visited, whatever payloads contain. |
| `OggScan.DurationIsLargestGranule` | common/audio.go:229-253 | There the result is the largest granule position of any page, or zero if all are negative. |
| `Quota.RoundIsNearest` | common/quota_math.go:127-129 | Rounding is to the nearest integer, with halves away from zero. |
| `Quota.RoundStrictIff` | common/quota_math.go:73-135 | The strict rounding fails exactly when the checked one reports a clamp, which is exactly outside the open 32-bit range or without a finite value; the checked one then returns the nearest 32-bit integer. |
| `Quota.FromFloatStrictIff` | common/quota_math.go:73-114 | The same for truncation toward zero. |
| `Quota.RoundCheckedIsMonotone` | common/quota_math.go:73-129 | Rounding with saturation preserves order. |
| `Quota.SettleTestQuota` | controller/channel-test.go:542-571 | The settled quota of either branch, and that the first clamp of a request is the one recorded. |
| `Quota.SettleByRatioMeans` | controller/channel-test.go:543-561 | The charge by ratio is the product rounded to the nearest integer, one if that is below a half and the ratio is not zero, and an end of the 32-bit range beyond it. |
| `Quota.CompletionQuotaMeans` | controller/channel-test.go:544-546 | The completion part is tokens times ratio, rounded to the nearest integer, within the 32-bit range. |
| `Quota.SettleByPriceMeans` | controller/channel-test.go:564-571 | The charge by price is price times quota per unit, cut off to an integer, within the 32-bit range. |
| `Quota.SettlementIsMonotone` | controller/channel-test.go:543-561 | For non-negative ratios the quota does not decrease in either token count. |
| `Quota.SettlementIsPositive` | controller/channel-test.go:543-561 | With a positive model ratio every request costs between one and the largest quota. |
| `Quota.SettlementIsPositiveIff` | controller/channel-test.go:558-560 | With a non-zero ratio the quota is positive if and only if the charge did not underflow. |

## Left out

- HTTP handlers, authorisation, audit logs, notifications and database writes around these cores; a failed database write
  after an in-memory change is not modelled.
- The failure of the random source, and the text of error messages.
- `normalizeChannelModelMapping`: the redirect map is taken as normalised already.
- How upstream model lists and prices are fetched and decoded; JSON arrays and objects as prices.
- Conversion of the selected models.dev costs and of OpenRouter prices into ratios, which adds only simple arithmetic.
- MultiKey.Channel.Manage: states the records an action computes, before the channel is saved; `DeletionIsSavedIff` states
  when saving and reading back preserves them, and `RunRefinesIff` over whole runs.
- KeyText.KeysReadBackIff: what JSON decoding yields is a parameter, of which only is used that the elements of an array are
  shorter than its text.
- The random and default key selection modes, and marks that arrive without the memory cache.
- Migration.MigrateSecrets: a concurrent change of a row between reading and writing it is not modelled, nor are the
  further limits of the task table.
- MultiKey.Channel.Edit: takes the key list that results from the edit; merging appended keys and the change into or out of
  service-account mode are not modelled.
- Disk cleanup, counter reset and counter synchronisation: they overwrite counters of storages that may still be open.
- The cancellation and progress reports of the scheduled channel scan.
- IEEE rounding of products; tiered billing expressions.
- Short reads and read errors of the audio file, and the durations of the other audio formats.
- The nesting of the price report: entries are keyed by a pair of model and field instead of two nested maps, so whether an
  empty inner map remains is not visible.
- Failures to create a cache file, and bodies that are refused as too large.

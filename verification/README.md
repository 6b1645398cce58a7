# CrashLab core: a verified model

This project models the deterministic heart of the CrashLab fuzzing toolkit (the Rust crate
`contracts/crashlab-core`) and one in-memory limiter of its web app, and proves what these
parts are for: that the budget search finds the band whenever it can be found, that the
shared quota is linearizable, that an archive id pins down its corpus, that merging is a
join, that a crash loses at most the record being written.

`dafny verify dfyconfig.toml` checks all of it. Every lemma turns automatic induction off,
so each proof is exactly what its body says.

## How the files correspond

| Source | Modules |
|---|---|
| `budget_targeting.rs` | `BudgetTargeting` (the targeter and the function it refines), `BudgetSearch` (safety, termination, convergence, best-so-far), `BudgetMeters` (completeness and speed on monotone meters), `BudgetSaturation` (runs that stop making progress), `BudgetNumbers` (one observation in the numbers of its sample) |
| `capacity.rs` | `Capacity` (threads as interleaved load / compare-exchange steps) |
| `apps/web/src/rate-limit.ts` | `RateLimit` |
| `corpus_archive.rs` | `ArchiveCodec` (the canonical manifest encoding), `ManifestReading` (reading an encoding against an equal one), `Archive` (hashing, verifying, building), `CorpusStores` (inserting and merging) |
| `cluster.rs` | `Masking` (ordinal masking), `Clusters` (the cluster store and its snapshots) |
| `corpus_minimize.rs` | `Minimization` (planning), `MinimizationApply` (applying and replanning) |
| `baseline.rs` | `Baselines` |
| `checkpoint.rs` | `Crc32` (register and bursts), `CrcLaws` (residue and check values), `Checkpoint` |
| `prng.rs` | `Prng`, `PrngMutators`, `GeneratorValues` (check values) |
| `havoc.rs` | `SplitMix`, `Havoc` (weighted choice), `HavocOps` (operators, draw by draw), `HavocEffects` (what they may do), `HavocNumbers` (what each makes of the numbers drawn) |
| `health_snapshot.rs` | `Utf8`, `Utf8Scalars` (validity as decoding), `SnapshotLog`, `EchoBuffers` |
| `fixture_sanitize.rs` | `Sanitize` (the two passes), `Redaction` (what becomes of values) |

`Prelude`, `Sorting` and `Decimal` hold shared vocabulary: machine-integer ranges, the
standard library's stable sort and dedup, counting and filtering, decimal rendering.

Objects whose methods update their fields are classes here too (`BudgetTargeter`,
`SeededPrng`, `RunCheckpoint`, `CorpusStore`, `ClusterStore`, `EchoBuffer`, `IpLimiter`,
`Mutation`), loops are loops, and every method is proved against a specification function
or predicate about which the lemmas then speak. Machine words are modelled as such: `u32`
and `u64` subsets with explicit saturation and truncation, bit vectors where the source
shifts and xors.

Orders, bands, codes and tables are stated a second time without the functions that
compute them: what `BudgetNumbers`, `HavocNumbers`, `CrcLaws`, `Utf8Scalars` and the lemmas
named `...ByNumbers`, `...ByFields`, `...ByText` and `...ByCases` say of a result mentions
only the source's own numbers, fields and texts.

## What is opaque

* SHA-256 is two functions in `Hasher`. No property of them is assumed. Where collisions
  matter, the conclusion is "or these two inputs collide".
* JSON is a triple of functions in `Checkpoint.Json` and a parser in `SnapshotLog.Codec`.
  `Checkpoint.Faithful` (parsing undoes printing; a one-digit schema is one byte of the
  compact text) is the only assumption, named where it is used.
* The signature normalizer, the class labels and the cluster id are functions in
  `Clusters.Rules`; `Clusters.Faithful` (a label is recognised again) is assumed for listing
  and restoring only. `classify_failure` is a function parameter of planning.
* Regular expressions: `Masking` receives a text already cut into literals and tokens.
* Clocks, the file system and the random seed are parameters.

## Where the code differs from its documentation

* `budget_targeting.rs`: with a loop bound of `u64::MAX` and a range narrowed to that one
  value, an observation below target counts as progress without changing anything, so the
  search neither nudges nor stalls until the cap (`SaturatedLoopHappens`). It is the only
  step that does not decrease the measure (`ObservationDecreases`); which configurations
  have runs that come to it, and when a silent contract does, is `RunsSaturateIff` and
  `SilentSaturatesIff`.
* `prng.rs` promises a non-zero state; seed id `u64::MAX` gives zero, and no other does.
* `checkpoint.rs`: an older schema is raised while loading, before the checksum computed
  with the older schema is compared, so such a file loads only when its checksum is zero
  (`LoadUndoesWrite`), which is so for at most one of the older schemas
  (`OldSchemasFail`). The recovery from a previous generation that the documentation
  describes is not in `load_checkpoint_file`.
* `corpus_archive.rs`: the encoding relies on tags without separator bytes, which nothing
  enforces: a provenance tag can pass for two (`SeparatorInTagCollides`), and an entry tag
  can pass for the entry of another seed, so that two verified archives with one id pack
  different seeds (`TagForgesSeed`). Separators in provenance tags and notes cannot do
  that, nor can anything in one archive if the other has no separators at all
  (`ArchiveIdDeterminesCorpus`). A build is independent of input order exactly when
  repeated seeds carry the same tags (`BuildForgetsOrderIff`); a dry run counts additions
  exactly when no new seed is packed twice (`DryRunAdditions`), and its provenance unions
  leave out those of new seeds (`DryRunUnions`).
* `cluster.rs`: a literal that already reads like a placeholder masks like a token
  (`LiteralPassesForToken`).
* `baseline.rs`: fixed entries come out in an order that depends on the baseline's when an
  unobserved hash is open twice with different entries (`FixedForgetsOrderIff`).
* `corpus_minimize.rs` speaks of non-empty tags; the code also protects a uniquely used
  empty tag, and so does the model.
* `health_snapshot.rs`: a log cut inside a multi-byte character does not read at all
  (`AnyPrefixReads`), and never again once something was appended (`CutCharacterIsFatal`);
  a record appended after a torn write is glued to the torn tail (`AppendAfterTear`).
* `fixture_sanitize.rs`: the byte after `bearer ` is skipped, so that of
  `authorization: bearer abc` the `a` is left (`BearerByteIsLeft`). Whether key or value
  was quoted is carried along, but a quote ends a value anyway, and so does any other
  delimiter inside the quotes (`QuotedFlagNeverMatters`): of `password="1 2"` the `2` is
  left (`QuotedRestIsLeft`). Apart from these two a value that the scan finds is masked as
  a whole (`WholeValueIsMaskedIff`). A key inside what another key masks is not looked at,
  so that its own value stays (`NestedValueIsLeft`); where the scan looks and what it masks
  is `ReachedIff` and `ScanIsExact`.
* `havoc.rs`: a block copy can leave the payload as it was exactly when its bytes are not
  all the same (`CopyMayChangeNothingIff`; from generator state 5 it happens,
  `CopyUndoneFromState`), a tag flip exactly when an invalid tag follows the first marker
  (`TagMayChangeNothingIff`); both have a degenerate case under a maximum length of zero
  or one.
* `rate-limit.ts`: nobody can notice that expired buckets are removed, exactly as long as
  the clock does not run back over a cleanup (`CleanupIsInvisibleIff`).

## Model

| member | source | states |
|---|---|---|
| BudgetTargeting.InBandDimension | contracts/crashlab-core/src/budget_targeting.rs:223-243 | the loop over the dimensions keeps the in-band one closest to the limit, earlier ones winning ties |
| BudgetTargeting.BudgetTargeter.constructor | contracts/crashlab-core/src/budget_targeting.rs:807-829 | a new targeter starts at the midpoints of its bounds, with a mixed random state and nothing observed |
| BudgetTargeting.BudgetTargeter.WithDictionarySeed | contracts/crashlab-core/src/budget_targeting.rs:833-843 | a dictionary entry only replaces the starting knobs |
| BudgetTargeting.BudgetTargeter.Observe | contracts/crashlab-core/src/budget_targeting.rs:902-939 | one observation changes every field of the targeter, the generator included, as the step function over its state says, and returns its answer; what that step is in the numbers of the sample is `BudgetNumbers` |
| BudgetTargeting.BudgetTargeter.Narrow | contracts/crashlab-core/src/budget_targeting.rs:941-961 | all four axes are adjusted from one sample; only when none moves does the search nudge or stall |
| BudgetTargeting.BudgetTargeter.AdjustAxis | contracts/crashlab-core/src/budget_targeting.rs:963-987 | one axis keeps the half above or below its knob, or does not move when that half is empty |
| BudgetTargeting.BudgetTargeter.NudgeWithinRanges | contracts/crashlab-core/src/budget_targeting.rs:997-1017 | the nudge takes two draws and the first axis and direction that stay in range |
| BudgetNumbers.UtilizationExact | contracts/crashlab-core/src/budget_targeting.rs:246-252 | below u32::MAX, utilization u of value v has u * limit <= 10000 v < (u + 1) * limit; at u32::MAX 10000 v is at least that many limits; without a limit it is 0 or u32::MAX |
| BudgetNumbers.StatusExact | contracts/crashlab-core/src/budget_targeting.rs:246-286 | below target and above target by cross-multiplied numbers, the edges of the band, its saturation and zero limits included |
| BudgetNumbers.PeakIsLargest | contracts/crashlab-core/src/budget_targeting.rs:202-208 | the peak is the largest of the three utilizations |
| BudgetNumbers.ConvergesByNumbers | contracts/crashlab-core/src/budget_targeting.rs:902-939 | an observation converges if and only if the consumption of some resource lies in its band by those numbers, and on such a resource |
| BudgetNumbers.AnswerIsRemembered | contracts/crashlab-core/src/budget_targeting.rs:902-939 | the answer is what is remembered: in band once converged, else below exactly when all three are below and above exactly when one is above |
| BudgetNumbers.KnobsByNumbers | contracts/crashlab-core/src/budget_targeting.rs:941-987 | which half of its range each knob keeps, and its new middle, from the numbers of its own resource: loops by cpu, vectors by memory, strings by builtins, nesting by all |
| BudgetNumbers.MovesByNumbers | contracts/crashlab-core/src/budget_targeting.rs:941-995 | some knob moves if and only if the numbers leave one room to |
| BudgetNumbers.CountedUpToCap | contracts/crashlab-core/src/budget_targeting.rs:902-939 | a sample is counted below the cap and before a stall; otherwise ranges, knobs, generator and flags stay |
| BudgetNumbers.NudgeByNumbers | contracts/crashlab-core/src/budget_targeting.rs:989-1017 | the nudge is the first that stays in range of eight tries: four axes from the first draw modulo 4 on, upward if the second draw is even, then the same axes the other way; there is none if and only if none fits |
| BudgetNumbers.StartsInTheMiddle | contracts/crashlab-core/src/budget_targeting.rs:807-829 | a new search starts in the middle of every range, rounded down |
| BudgetNumbers.EntryByNumbers | contracts/crashlab-core/src/budget_targeting.rs:627-660 | a dictionary value up to its limit puts the knob at the same share of its range, rounded down |
| BudgetNumbers.EntryAboveLimit | contracts/crashlab-core/src/budget_targeting.rs:627-660 | a value above its limit puts it at the top, unless the share has 2^64 or more |
| BudgetNumbers.EntryMovesOneKnob | contracts/crashlab-core/src/budget_targeting.rs:627-660 | and leaves the other knobs in the middle |
| BudgetSearch.AdjustAxisExact | contracts/crashlab-core/src/budget_targeting.rs:743-776 | storing an adjusted axis truncates nothing: the u32 casts and `current - 1` are exact on every axis |
| BudgetSearch.NarrowEffect | contracts/crashlab-core/src/budget_targeting.rs:941-1017 | if any axis moves then every axis takes its own step, otherwise ranges stay and the search nudges once, then stalls |
| BudgetSearch.ObserveKeepsBracket | contracts/crashlab-core/src/budget_targeting.rs:902-1017 | whatever the sample, bounds.lo <= range.lo <= knob <= range.hi <= bounds.hi on all axes, and iterations stay within the cap |
| BudgetSearch.RunsStayBracketed | contracts/crashlab-core/src/budget_targeting.rs:807-1017 | the bracket holds over every run of any samples from a new search |
| BudgetSearch.ObservationDecreases | contracts/crashlab-core/src/budget_targeting.rs:902-1017 | a non-terminal, non-converging observation strictly decreases (total width, not nudged, not stalled) if and only if it is not the saturated loop step |
| BudgetSearch.UnsaturatedAlwaysDecreases | contracts/crashlab-core/src/budget_targeting.rs:963-987 | with a loop bound below u64::MAX every such observation decreases the measure |
| BudgetSearch.SaturatedLoopHappens | contracts/crashlab-core/src/budget_targeting.rs:963-987 | such configurations exist, and over them a silent sample changes nothing but the count |
| BudgetSaturation.SilentSaturatesIff | contracts/crashlab-core/src/budget_targeting.rs:902-987 | for a contract that consumes nothing, the observation after n others makes no progress if and only if the loop bound is u64::MAX, the band leaves room below it, n is below the cap, and every range has fewer than 2^(n+1) values |
| BudgetSaturation.RunsSaturateIff | contracts/crashlab-core/src/budget_targeting.rs:902-1017 | some run comes to such a step if and only if the loop bound is u64::MAX, the band leaves room below it and the loop has fewer than 2^cap values, when no range is wider than the loop's or the cap is at least 65; in general the first implies the second, and fewer than 2^cap values of every knob imply the first |
| BudgetSearch.EdgeExact | contracts/crashlab-core/src/budget_targeting.rs:202-243 | the edge is an in-band dimension closest to the limit, and there is none exactly when no dimension is in band |
| BudgetSearch.ConvergenceExactAndFinal | contracts/crashlab-core/src/budget_targeting.rs:902-939 | observe answers InBand exactly when the edge is set afterwards, and from then on every field is frozen |
| BudgetSearch.BestIsFirstClosest | contracts/crashlab-core/src/budget_targeting.rs:902-939 | best utilization and knobs are those of the first sample closest to the limit among all consumed ones |
| BudgetMeters.UtilizationMonotone | contracts/crashlab-core/src/budget_targeting.rs:246-252 | utilization in basis points, with its saturation and zero limit, is nondecreasing in the metered value (its exact value is `BudgetNumbers.UtilizationExact`) |
| BudgetMeters.NarrowLosesNothing | contracts/crashlab-core/src/budget_targeting.rs:941-987 | on a monotone meter no narrowing step ever discards an in-band value of any dimension |
| BudgetMeters.NoMoveProvesUnreachable | contracts/crashlab-core/src/budget_targeting.rs:941-995 | the first observation at which no axis moves proves that no allowed value of any of the three knobs lands in band |
| BudgetMeters.TrajectorySound | contracts/crashlab-core/src/budget_targeting.rs:902-1017 | over a whole run: bracketed, nothing lost, convergence only on reachable bands, stalling only on unreachable ones |
| BudgetMeters.ConvergesLogarithmically | contracts/crashlab-core/src/budget_targeting.rs:902-987 | if some allowed value lands in band, a new search converges within floor(log2 n) + 1 observations and never nudges or stalls |
| BudgetMeters.Log2Exact | contracts/crashlab-core/src/budget_targeting.rs:963-987 | the bound speaks of the true floor(log2 n): Pow2(Log2(n)) <= n < Pow2(Log2(n) + 1) |
| BudgetMeters.DictionaryStartConverges | contracts/crashlab-core/src/budget_targeting.rs:833-843 | started from any dictionary entry it needs at most one observation more |
| BudgetMeters.SearchDecides | contracts/crashlab-core/src/budget_targeting.rs:902-987 | after 65 observations the search has converged if and only if some allowed value of some dimension lands in band |
| Capacity.AdmitsUpToEffectiveLimit | contracts/crashlab-core/src/capacity.rs:44-57 | a class is admitted exactly while fewer than its effective limit have been admitted in all |
| Capacity.EffectiveLimitByNumbers | contracts/crashlab-core/src/capacity.rs:44-57 | a class may use all of a limit, nine tenths of it, or three quarters, rounded up |
| Capacity.ThrottleByNumbers | contracts/crashlab-core/src/capacity.rs:242-262 | a call is throttled exactly when no more is left than nothing, a tenth, or a quarter of the allowance, rounded down, and reports both numbers |
| Capacity.HeadroomOrdered | contracts/crashlab-core/src/capacity.rs:44-57 | a more restricted class has the smaller effective limit |
| Capacity.HeadroomKept | contracts/crashlab-core/src/capacity.rs:242-262 | in order of effect, Deep admissions and Deep plus Nightly admissions stay within their effective limits |
| Capacity.ThrottleIsSticky | contracts/crashlab-core/src/capacity.rs:242-262 | once a class is throttled it and every more restricted class stay throttled |
| Capacity.EveryInterleavingIsLinearizable | contracts/crashlab-core/src/capacity.rs:242-262 | in every interleaving, spurious failures included, each call takes effect once, between call and return, as an indivisible test-and-decrement; remaining plus admissions is the allowance |
| Capacity.QuiescentConservation | contracts/crashlab-core/src/capacity.rs:223-262 | when no call is under way, remaining plus returned Proceed results equals the allowance |
| Capacity.OvertakenMeansProgress | contracts/crashlab-core/src/capacity.rs:251-260 | a compare-exchange that finds another value was overtaken by an admission: the loop is lock-free |
| RateLimit.IpLimiter.CleanupExpiredBuckets | apps/web/src/rate-limit.ts:174-188 | the deletion loop leaves exactly the buckets that have not expired, at most once in a window |
| RateLimit.IpLimiter.CurrentBucket | apps/web/src/rate-limit.ts:150-164 | a live bucket is found unchanged, otherwise a fresh one for a window from now is stored |
| RateLimit.IpLimiter.Handle | apps/web/src/rate-limit.ts:121-145 | one request: clean up, count in its client's bucket, decide, and nothing else changes |
| RateLimit.DecisionByNumbers | apps/web/src/rate-limit.ts:121-145 | what the n-th request of a window is told: allowed or not, how many more are, and when and in how many seconds the window ends |
| RateLimit.CeilByNumbers | apps/web/src/rate-limit.ts:127-131 | the seconds until then are rounded up |
| RateLimit.CleanupIsInvisibleIff | apps/web/src/rate-limit.ts:121-188 | for request times: whoever sends the requests, all decisions are those of a limiter that never cleans up, if and only if no request falls back into a window that had ended by an earlier cleanup |
| RateLimit.CleanupIsInvisible | apps/web/src/rate-limit.ts:121-188 | in particular with a clock that never runs back |
| RateLimit.CleanupShowsWhenTimeRunsBack | apps/web/src/rate-limit.ts:174-188 | whenever the clock runs back like that, a client whose only requests are the one before the cleanup and the one after it is decided differently |
| RateLimit.ClockJumpRunsBack | apps/web/src/rate-limit.ts:174-188 | a clock that jumps ahead by a window and back does that |
| RateLimit.WindowsAdmitTheirFirst | apps/web/src/rate-limit.ts:121-164 | clients do not affect each other and every window admits exactly its first MAX requests |
| RateLimit.AtMostTwiceTheMaximum | apps/web/src/rate-limit.ts:121-164 | in no closed interval as long as a window does a run of the limiter allow more than 2 MAX requests of one client |
| RateLimit.BoundIsReached | apps/web/src/rate-limit.ts:121-164 | a run with two bursts, when a window opens and when it ends, reaches that bound |
| ArchiveCodec.ManifestCanonicalEncoding | contracts/crashlab-core/src/corpus_archive.rs:286-320 | the loops that push fields write exactly the text of the manifest's field list |
| ArchiveCodec.TextDeterminesFields | contracts/crashlab-core/src/corpus_archive.rs:286-320 | without separator bytes in keys and values the text determines the field list |
| ArchiveCodec.FieldsDetermineManifest | contracts/crashlab-core/src/corpus_archive.rs:286-308 | the field list determines format, engine, count, entries with tags, provenance and notes, where no notes and empty notes read alike |
| ArchiveCodec.EncodingSpelledOut | contracts/crashlab-core/src/corpus_archive.rs:286-320 | the very text of a manifest with one entry, one entry tag and one provenance tag: keys, separators 0x1F and 0x1E, and order |
| Decimal.RenderByDigits | contracts/crashlab-core/src/corpus_archive.rs:286-308 | numbers are written in decimal digits, the highest first |
| ArchiveCodec.EncodingIsCanonical | contracts/crashlab-core/src/corpus_archive.rs:286-320 | two manifests without separators encode alike if and only if they agree in everything that is encoded |
| ArchiveCodec.SeparatorInTagCollides | contracts/crashlab-core/src/corpus_archive.rs:286-320 | a tag containing the separators encodes like two tags: the proviso is needed |
| Archive.SeedBytesInjective | contracts/crashlab-core/src/corpus_archive.rs:49-55 | the hashed bytes determine a seed's id and payload |
| Archive.SeedBytesByNumbers | contracts/crashlab-core/src/corpus_archive.rs:49-55 | what is hashed of a seed: its id and its length as eight bytes each, the lowest first, and the payload |
| Archive.Verify | contracts/crashlab-core/src/corpus_archive.rs:213-270 | verification succeeds exactly when format, counts, every entry and the manifest hash match, and otherwise reports the first fault in the code's order |
| Archive.VerifiedByFields | contracts/crashlab-core/src/corpus_archive.rs:213-270 | verified means format 1, declared, listed and packed counts equal, every entry with the id, length and hash of its seed, and the hash of the encoding |
| Archive.FaultByFields | contracts/crashlab-core/src/corpus_archive.rs:226-260 | of an entry a wrong id is reported before a wrong length, and that before a wrong hash |
| ArchiveCodec.EncodingDeterminesEntries | contracts/crashlab-core/src/corpus_archive.rs:286-320 | whatever provenance tags and notes contain, equal encodings with separator-free engine version, content hashes and entry tags mean equal entries |
| ManifestReading.PlainPartnerSettlesSeeds | contracts/crashlab-core/src/corpus_archive.rs:286-320 | of two manifests with equal encodings and true counts, if one has no separators the entries of both are those of the same seeds, whatever the other's strings contain |
| Archive.ArchiveIdDeterminesCorpus | contracts/crashlab-core/src/corpus_archive.rs:130-320 | two verified archives with one id hold the same seeds position by position if one manifest has no separators, or both have none in engine version, content hashes and entry tags; or two named inputs of the hash collide |
| Archive.TagForgesSeed | contracts/crashlab-core/src/corpus_archive.rs:213-320 | with separators in an entry tag two verified archives share their id and hold different seeds |
| Archive.BuildTagged | contracts/crashlab-core/src/corpus_archive.rs:130-176 | the loop packs the sorted seeds with their hashes and tidied tags and seals the manifest |
| Archive.BuiltVerifies | contracts/crashlab-core/src/corpus_archive.rs:130-270 | every built archive passes verification |
| Archive.BuiltAscends | contracts/crashlab-core/src/corpus_archive.rs:135-142 | packed seeds go up by id and, for equal ids, by payload bytes |
| Archive.BuiltByFields | contracts/crashlab-core/src/corpus_archive.rs:130-176 | the manifest says of each packed seed its hash, id, length and tags, tags going up without repetition, and seeds and tags are those given |
| Archive.BuildForgetsOrder | contracts/crashlab-core/src/corpus_archive.rs:130-176 | permuted seeds and reordered or repeated tags build the same archive when repeated seeds carry the same tags |
| Archive.BuildForgetsOrderIff | contracts/crashlab-core/src/corpus_archive.rs:130-176 | every order of the seeds builds the same archive if and only if repeated seeds carry the same tags |
| CorpusStores.CorpusStore.FromSeeds | contracts/crashlab-core/src/corpus_archive.rs:365-371 | a corpus built from a list is the untagged insertion of its seeds in order |
| CorpusStores.UntaggedSane | contracts/crashlab-core/src/corpus_archive.rs:365-371 | such a corpus holds exactly the given seeds once each, with provenance for exactly their hashes |
| CorpusStores.CorpusStore.InsertSeed | contracts/crashlab-core/src/corpus_archive.rs:393-416 | the tag loop and the duplicate test change seeds and provenance as the insertion function says and report both changes |
| CorpusStores.InsertIsLawful | contracts/crashlab-core/src/corpus_archive.rs:393-416 | insertion adds one seed and its tags under its hash and nothing else, keeps seeds distinct, provenance keys exact and tag lists sorted, and reports an addition exactly when the seed was absent |
| CorpusStores.CorpusStore.MergeArchive | contracts/crashlab-core/src/corpus_archive.rs:421-484 | an unverified archive is an error and changes nothing; on another engine version RequireExact is the mismatch error and AllowCompatible reports every packed seed as skipped and counts nothing, both without changing the corpus; Ignore, and any policy on the same version, accounts for every packed seed and, unless it is a dry run, leaves exactly the old and the packed seeds; the report in every case |
| CorpusStores.MergedHasAll | contracts/crashlab-core/src/corpus_archive.rs:453-481 | after merging the corpus holds its own seeds and the packed ones and no others, and every packed seed was counted once |
| CorpusStores.ReportIsExact | contracts/crashlab-core/src/corpus_archive.rs:453-481 | added plus duplicates is the number of packed seeds and added is the growth of the corpus |
| CorpusStores.DryRunAdditions | contracts/crashlab-core/src/corpus_archive.rs:453-481 | a dry run never promises fewer additions than happen, and the exact number if and only if no new seed is packed twice |
| CorpusStores.DryRunUnions | contracts/crashlab-core/src/corpus_archive.rs:456-479 | dry and real provenance unions agree if and only if as many new seeds bring a tag first as known seeds bring new tags again; where no name is packed twice, if and only if no new seed brings an unrecorded tag |
| CorpusStores.MergeIsJoin | contracts/crashlab-core/src/corpus_archive.rs:374-484 | what a corpus becomes depends only on which archives were merged, not on order or repetition: merging is commutative and idempotent on provenance and sorted seeds |
| CorpusStores.MergeIsAssociative | contracts/crashlab-core/src/corpus_archive.rs:374-484 | merging the export of a corpus that merged archives is merging its earlier export and those archives |
| Masking.MaskOrdinals | contracts/crashlab-core/src/cluster.rs:143-156 | the seen map and counter give each token the ordinal of its first appearance |
| Masking.OrdinalsByNumbers | contracts/crashlab-core/src/cluster.rs:143-156 | equal tokens get equal ordinals and others do not, and a new token gets the next of 0, 1, 2 and so on |
| Masking.MaskIsCanonical | contracts/crashlab-core/src/cluster.rs:143-156 | two signatures mask alike if and only if their literals agree and a one-to-one renaming of tokens maps one to the other |
| Masking.TextDeterminesMask | contracts/crashlab-core/src/cluster.rs:143-156 | when no literal contains the label followed by @ and a digit, and none after a token starts with a digit, the replaced text determines literals and ordinals |
| Masking.MaskedTextIsCanonical | contracts/crashlab-core/src/cluster.rs:143-156 | so equal texts mean equal up to renaming |
| Masking.LiteralPassesForToken | contracts/crashlab-core/src/cluster.rs:143-156 | without cleanness a literal placeholder passes for a token |
| Clusters.ClusterStore.Ingest | contracts/crashlab-core/src/cluster.rs:400-430 | after every ingested observation the store is the batch clustering of the whole log: member lists, counts, first and last seen, exemplar, total (in the numbers of the log: `MembersByLog`, `ExemplarByNumbers`) |
| Clusters.IngestRepresents | contracts/crashlab-core/src/cluster.rs:335-430 | extending or starting one cluster keeps every cluster the summary of its own observations |
| Clusters.MembersByLog | contracts/crashlab-core/src/cluster.rs:400-430 | the members of a cluster are the logged observations of its class and normalized text, with their numbers, in the order of the log; count, first and last seen are theirs, and there is a cluster exactly when there are any |
| Clusters.ExemplarByNumbers | contracts/crashlab-core/src/cluster.rs:335-337 | the exemplar is the first member of least payload length and, among those, least seed id |
| Clusters.ClusterStore.Clusters | contracts/crashlab-core/src/cluster.rs:434-443 | every cluster is listed once, by descending count, then text, label and rule version |
| Clusters.TriageByNumbers | contracts/crashlab-core/src/cluster.rs:434-443 | in the listing the larger count comes first, then the earlier text, then the earlier label, then the lower version |
| Clusters.ListingUnique | contracts/crashlab-core/src/cluster.rs:434-443 | the triage order leaves no choice: a store has exactly one listing |
| Clusters.ClusterStore.FromSnapshot | contracts/crashlab-core/src/cluster.rs:468-488 | the restoring loop recomputes exemplars, keys clusters by their own fields and sums all counts |
| Clusters.RestoredByFields | contracts/crashlab-core/src/cluster.rs:468-488 | for any snapshot: under a key there is a cluster exactly when one of the snapshot has that class, version and text, and then it is the last such one but for its exemplar; unrecognised labels are dropped |
| Clusters.RecomputedByNumbers | contracts/crashlab-core/src/cluster.rs:340-350 | and the exemplar is again the first member of least payload length and then least id |
| Clusters.TotalAddsUp | contracts/crashlab-core/src/cluster.rs:468-488 | the restored total adds up all counts, of dropped clusters too |
| Clusters.SnapshotRoundTrip | contracts/crashlab-core/src/cluster.rs:460-488 | restoring a store's snapshot gives the same cluster map and total |
| Clusters.CountsAddUp | contracts/crashlab-core/src/cluster.rs:400-430 | every observation is counted in exactly one cluster |
| Clusters.SmallestIsFirst | contracts/crashlab-core/src/cluster.rs:340-350 | the recomputed exemplar is the first member that no member beats (by payload length and seed id: `RecomputedByNumbers`) |
| Clusters.ArrivalOrderIrrelevant | contracts/crashlab-core/src/cluster.rs:335-430 | permuted observations give the same clusters but for member order and, when two members tie, the exemplar's raw text |
| Minimization.PlanMinimization | contracts/crashlab-core/src/corpus_minimize.rs:125-187 | planning fails exactly when two live records share an id, naming the least such id; otherwise keep, remove, bytes and groups are the described plan (in lengths and ids: `MinimizationApply.SmallestIsKept`, `RemovedForSmaller`, `ListsAscend`) |
| Minimization.PlanLive | contracts/crashlab-core/src/corpus_minimize.rs:134-186 | counting tags, filling buckets and deciding bucket by bucket yields the described plan |
| Minimization.OnlyFirstRepresents | contracts/crashlab-core/src/corpus_minimize.rs:160-180 | in size order the first member of a bucket, and no other, is its representative |
| Minimization.UniqueProvenance | contracts/crashlab-core/src/corpus_minimize.rs:135-147 | a tag counted once is a tag no other live record carries |
| MinimizationApply.ApplyMinimization | contracts/crashlab-core/src/corpus_minimize.rs:202-213 | the in-place loop tombstones exactly the live records listed and counts them and their bytes |
| MinimizationApply.KeepAndRemovePartition | contracts/crashlab-core/src/corpus_minimize.rs:125-187 | every live id is kept or removed, never both |
| MinimizationApply.SmallestIsKept | contracts/crashlab-core/src/corpus_minimize.rs:150-187 | for every live seed a kept live one of the same behavior is shorter, or as long with an id no higher |
| MinimizationApply.RemovedForSmaller | contracts/crashlab-core/src/corpus_minimize.rs:150-187 | for every removed seed it is shorter, or as long with a lower id |
| MinimizationApply.ListsAscend | contracts/crashlab-core/src/corpus_minimize.rs:125-187 | kept and removed ids go up, and groups by class text, without a hash first, then by hash |
| MinimizationApply.GroupsAscend | contracts/crashlab-core/src/corpus_minimize.rs:125-187 | and so do the ids of every group |
| MinimizationApply.BehaviorByFields | contracts/crashlab-core/src/corpus_minimize.rs:68-80 | two records behave alike when category and signature hash agree, or neither has a signature and their classes agree |
| MinimizationApply.AppliedByFields | contracts/crashlab-core/src/corpus_minimize.rs:202-213 | applying changes nothing but tombstones, and sets those of the listed ids only |
| MinimizationApply.BytesConserved | contracts/crashlab-core/src/corpus_minimize.rs:125-213 | the bytes saved are exactly the live payload bytes that are gone afterwards |
| MinimizationApply.NothingOfValueLost | contracts/crashlab-core/src/corpus_minimize.rs:125-213 | after applying, every behavior still has a live seed of least size and every uniquely tagged seed is live (size as payload length and then id: `SmallestIsKept`) |
| MinimizationApply.ReportMatchesPlan | contracts/crashlab-core/src/corpus_minimize.rs:125-213 | the apply report repeats the plan's number of removals and bytes |
| MinimizationApply.SecondApplyIsIdle | contracts/crashlab-core/src/corpus_minimize.rs:202-213 | applying a plan twice is applying it once |
| MinimizationApply.ReplanIsFixpoint | contracts/crashlab-core/src/corpus_minimize.rs:125-213 | planning again keeps the same ids, removes nothing and sees the same behaviors |
| Baselines.Classify | contracts/crashlab-core/src/baseline.rs:205-244 | the three lists hold the smallest observation of each new hash, of each recurring hash, and the open entries not observed, each by hash |
| Baselines.ListsByText | contracts/crashlab-core/src/baseline.rs:205-244 | the three lists go up by hash, the first two strictly |
| Baselines.ListedByText | contracts/crashlab-core/src/baseline.rs:205-244 | of the observations with one hash the one listed has the category that comes first |
| Baselines.FixedByFields | contracts/crashlab-core/src/baseline.rs:226-234 | the fixed entries are the open ones whose hash no observation has |
| Baselines.FromObserved | contracts/crashlab-core/src/baseline.rs:149-166 | the baseline holds one open entry for each observed hash, by hash, with the smallest category |
| Baselines.BaselineByFields | contracts/crashlab-core/src/baseline.rs:149-166 | a baseline has format 1 and, going up by hash, one open entry for every observed hash with the category that comes first |
| Baselines.OrderIrrelevant | contracts/crashlab-core/src/baseline.rs:205-244 | reordering or repeating observations, or reordering the baseline when unobserved hashes have no rivals, leaves all three lists unchanged |
| Baselines.FixedForgetsOrderIff | contracts/crashlab-core/src/baseline.rs:226-234 | the fixed list is the same for every order of the baseline if and only if no unobserved hash is open with two different entries |
| Baselines.ListsDivideHashes | contracts/crashlab-core/src/baseline.rs:205-244 | observed hashes split into new and recurring, open hashes into recurring and fixed |
| Baselines.OwnBaselineIsQuiet | contracts/crashlab-core/src/baseline.rs:149-244 | against a baseline made from the same observations nothing is new and nothing is fixed |
| Baselines.BaselineForgetsOrder | contracts/crashlab-core/src/baseline.rs:149-166 | a baseline does not depend on the order or repetition of the observations |
| Crc32.Crc32Bytes | contracts/crashlab-core/src/checkpoint.rs:201-214 | the byte-wise nested loop computes the bit-serial CRC-32 of section 8 of RFC 1952, start value and complement included (fixed by `CrcLaws`) |
| CrcLaws.ResidueIsConstant | contracts/crashlab-core/src/checkpoint.rs:201-214 | every text followed by its own checksum, least significant byte first, has the checksum 0x2144DF1C |
| CrcLaws.EmptyText | contracts/crashlab-core/src/checkpoint.rs:201-214 | the checksum of nothing is 0 |
| CrcLaws.DigitsText | contracts/crashlab-core/src/checkpoint.rs:201-214 | the check value of the text 123456789 is 0xCBF43926 |
| Crc32.RegisterDifference | contracts/crashlab-core/src/checkpoint.rs:201-214 | the registers of two inputs differ by the register of their difference |
| Crc32.DetectsEveryBurst | contracts/crashlab-core/src/checkpoint.rs:201-214 | inputs of one length that differ, and only within 32 consecutive bits, have different checksums |
| Crc32.DetectsFourByteBurst | contracts/crashlab-core/src/checkpoint.rs:201-214 | in particular within four consecutive bytes |
| Checkpoint.RunCheckpoint.AdvanceBy | contracts/crashlab-core/src/checkpoint.rs:83-86 | advancing saturates at the schedule and refreshes the checksum, and touches nothing else |
| Checkpoint.ProgressIsExact | contracts/crashlab-core/src/checkpoint.rs:66-116 | over any advances the index is the sum or the schedule's end, the checksum verifies, the run may be resumed, and it is complete exactly when the sum reaches the schedule |
| Checkpoint.NewRunByFields | contracts/crashlab-core/src/checkpoint.rs:66-78 | a new run starts at seed 0 with schema 3, generation 1 and a checksum that verifies |
| Checkpoint.ValidationByCases | contracts/crashlab-core/src/checkpoint.rs:91-116 | a checkpoint may be resumed exactly when schema, campaign, schedule and progress fit, and otherwise the first of these that does not is reported |
| Checkpoint.CrcDetectsTampering | contracts/crashlab-core/src/checkpoint.rs:118-128 | a change within four consecutive bytes of the compact text fails verification |
| Checkpoint.WrittenByFields | contracts/crashlab-core/src/checkpoint.rs:312-322 | what is written carries the given generation, the other fields as they are, and a checksum that verifies |
| Checkpoint.LoadByCases | contracts/crashlab-core/src/checkpoint.rs:341-361 | of any file: unparsable reads as schema 0, schemas below 3 are raised to 3, and a checksum other than 0 must be that of the raised text |
| Checkpoint.LoadUndoesWrite | contracts/crashlab-core/src/checkpoint.rs:312-361 | what is written loads again if and only if its schema is current or newer, or its checksum is zero, and otherwise fails with the two checksums |
| Checkpoint.OldSchemasFail | contracts/crashlab-core/src/checkpoint.rs:312-361 | of any two older schemas a checkpoint could be written with, at least one fails to load |
| Prng.SeededPrng.NextU64 | contracts/crashlab-core/src/prng.rs:51-59 | one draw takes the three shifts in order, stores the state and returns it scrambled |
| GeneratorValues.XorshiftValues | contracts/crashlab-core/src/prng.rs:38-59 | the first two draws for seed id 1 |
| GeneratorValues.TopByteValue | contracts/crashlab-core/src/prng.rs:62-64 | the byte taken from a draw is its highest |
| Prng.DrawsDetermineSeed | contracts/crashlab-core/src/prng.rs:38-59 | at every position of the stream distinct seed ids give distinct draws |
| Prng.ZeroStateOnlyFromMaxSeed | contracts/crashlab-core/src/prng.rs:38-59 | the state is zero, at any point of a run, exactly for seed id u64::MAX |
| PrngMutators.Mutate | contracts/crashlab-core/src/prng.rs:100-138 | the loop that removes candidates and overwrites bytes does so draw by draw as the specification says |
| PrngMutators.MutateRewritesHalf | contracts/crashlab-core/src/prng.rs:124-132 | half the positions, all different, receive each its own draw, and the preserved position is not among them |
| GeneratorValues.MutationValue | contracts/crashlab-core/src/prng.rs:100-138 | one whole mutation: of any five bytes under seed id 1 and scheduler state 0 the first two are rewritten, with these values |
| PrngMutators.SchedulesNeverMerge | contracts/crashlab-core/src/prng.rs:100-104 | for one seed, different scheduler states lead to different next states |
| SplitMix.NextU64 | contracts/crashlab-core/src/havoc.rs:119-125 | one draw adds the increment and finalizes the new state |
| GeneratorValues.SplitMixValues | contracts/crashlab-core/src/havoc.rs:119-125 | the first two draws from state 0 |
| SplitMix.UnfinalizeFinalize | contracts/crashlab-core/src/havoc.rs:119-125 | the finalizer has an inverse |
| SplitMix.DrawsRepeatExactlyEvery2To64 | contracts/crashlab-core/src/havoc.rs:119-125 | two draws from one start are equal if and only if their positions differ by a multiple of 2^64 |
| Havoc.SelectOp | contracts/crashlab-core/src/havoc.rs:144-178 | the accumulating tests choose the operator in whose slot the reduced draw falls; a zero total flips a byte without drawing |
| Havoc.SlotsPartition | contracts/crashlab-core/src/havoc.rs:144-178 | every residue falls into exactly one slot |
| Havoc.ExactShares | contracts/crashlab-core/src/havoc.rs:96-105 | exactly weight-many residues choose each operator |
| HavocNumbers.DefaultShares | contracts/crashlab-core/src/havoc.rs:76-94 | with the default weights, which residues of 130 choose which operator |
| HavocOps.Mutation.ByteFlip | contracts/crashlab-core/src/havoc.rs:180-215 | draw by draw: the place, the kind of change and its detail; an empty payload receives a fresh byte |
| HavocOps.Mutation.BlockCopy | contracts/crashlab-core/src/havoc.rs:217-239 | draw by draw: length, source and destination, moved apart when they coincide, then a flip |
| HavocOps.Mutation.BlockInsert | contracts/crashlab-core/src/havoc.rs:241-261 | draw by draw: length, place, and one repeated byte or fresh bytes; a full payload is flipped |
| HavocOps.Mutation.BlockDelete | contracts/crashlab-core/src/havoc.rs:263-272 | draw by draw: length and place; a payload at the minimum is inserted into |
| HavocOps.Mutation.ChunkRepeat | contracts/crashlab-core/src/havoc.rs:274-293 | draw by draw: chunk, place, and repeats bounded by the room left, four, and at least one |
| HavocOps.Mutation.XdrTagFlip | contracts/crashlab-core/src/havoc.rs:295-337 | draw by draw: the tag after the first marker is replaced, or a marker with a tag is put in, over, or in place of the payload |
| HavocOps.Mutation.ApplySpecificOp | contracts/crashlab-core/src/havoc.rs:411-435 | draw by draw: the operator, then fresh bytes up to the minimum or a cut at the maximum |
| HavocNumbers.FlipByNumbers | contracts/crashlab-core/src/havoc.rs:180-215 | the byte at the first draw modulo the length changes: a bit turned, all bits turned, one up or down, or a drawn byte, by the next draws |
| HavocNumbers.CopyByNumbers | contracts/crashlab-core/src/havoc.rs:217-239 | every byte of the destination becomes that of the source, and where both places coincide the destination is one further or one before |
| HavocNumbers.CopyLengthByNumbers | contracts/crashlab-core/src/havoc.rs:217-224 | a copied block has between one byte and half the payload or the growth limit |
| HavocNumbers.DataByNumbers | contracts/crashlab-core/src/havoc.rs:248-259 | what is inserted: one top byte over and over after an odd draw, fresh top bytes after an even one |
| HavocNumbers.InsertByNumbers | contracts/crashlab-core/src/havoc.rs:241-261 | inserting keeps what is before and after the drawn place |
| HavocNumbers.DeleteByNumbers | contracts/crashlab-core/src/havoc.rs:263-272 | deleting keeps what is before and after the drawn block |
| HavocNumbers.RepeatByNumbers | contracts/crashlab-core/src/havoc.rs:274-293 | the drawn chunk is followed by as many copies of itself as drawn |
| HavocNumbers.RepeatLengthByNumbers | contracts/crashlab-core/src/havoc.rs:274-293 | how long a chunk may be and how often it may be repeated |
| HavocNumbers.OtherTagByNumbers | contracts/crashlab-core/src/havoc.rs:295-312 | in place of a tag the drawn valid one is taken, or the next one where that is already there, or an invalid one |
| HavocNumbers.TagFlipByNumbers | contracts/crashlab-core/src/havoc.rs:295-337 | the byte after the first 0xE0 is replaced, or 0xE0 and a tag are put at a drawn place, over the start, or in place of all |
| HavocNumbers.BoundsByNumbers | contracts/crashlab-core/src/havoc.rs:427-434 | too short a result is padded with top bytes of the next draws, too long a one cut |
| HavocEffects.OperatorFits | contracts/crashlab-core/src/havoc.rs:180-337 | whatever is drawn: a flip changes exactly one byte, inserting and deleting change one place by a bounded length, a chunk is repeated at most four times and within the room, a block is copied to another place before one byte changes, a replaced tag is invalid or different |
| HavocEffects.WithinBounds | contracts/crashlab-core/src/havoc.rs:427-434 | whatever is drawn the result lies within bounds that can be met |
| HavocEffects.AdvancingOperatorsProgress | contracts/crashlab-core/src/havoc.rs:180-435 | whatever is drawn, flipping, inserting, deleting and repeating change the payload, except the empty one under a maximum of zero, which they never change |
| HavocEffects.CopyMayChangeNothingIff | contracts/crashlab-core/src/havoc.rs:217-435 | some draws make a block copy return the payload unchanged if and only if it is within bounds and its bytes are not all the same, or it is empty and the maximum is zero |
| HavocEffects.CopyChangesNothingIff | contracts/crashlab-core/src/havoc.rs:217-239 | for given draws: a block copy returns the payload unchanged if and only if the copy changed one byte only and the flip hits that byte and puts the old one back |
| HavocEffects.CopyUndoneFromState | contracts/crashlab-core/src/havoc.rs:119-239 | the generator gets there: from state 5 the copy of a byte over its complement is undone |
| HavocEffects.TagMayChangeNothingIff | contracts/crashlab-core/src/havoc.rs:119-435 | some generator state makes a tag flip return the payload unchanged if and only if it is within bounds and an invalid tag follows its first marker, or the bounds cut away what was put in |
| Utf8.ValidPrefix | contracts/crashlab-core/src/health_snapshot.rs:636-644 | a prefix of a valid string is valid if and only if the cut is a character boundary |
| Utf8.Truncate | contracts/crashlab-core/src/health_snapshot.rs:636-644 | truncation keeps the longest valid prefix within the limit |
| Utf8Scalars.ValidIffText | contracts/crashlab-core/src/health_snapshot.rs:636-644 | a byte string is valid exactly when it is the encoding of some sequence of Unicode scalar values, with the byte layout of section 3 of RFC 3629 |
| SnapshotLog.ReadLog | contracts/crashlab-core/src/health_snapshot.rs:313-360 | an absent file is an empty log, invalid UTF-8 an error, otherwise the reading loop returns what the complete lines mean |
| SnapshotLog.ReadLines | contracts/crashlab-core/src/health_snapshot.rs:337-360 | all lines that parse, in order, unless a fourth malformed one makes the log corrupt |
| SnapshotLog.EachLineForItself | contracts/crashlab-core/src/health_snapshot.rs:337-360 | every line contributes its own record, one malformed line, or nothing, whatever stands before and after it |
| SnapshotLog.ToleratesThree | contracts/crashlab-core/src/health_snapshot.rs:337-360 | up to three malformed lines are tolerated and counted; more are an error |
| SnapshotLog.ReturnIsDropped | contracts/crashlab-core/src/health_snapshot.rs:337-360 | a carriage return before the newline is not part of the line |
| SnapshotLog.AnyPrefixReads | contracts/crashlab-core/src/health_snapshot.rs:267-360 | a log cut anywhere reads as exactly the lines whose newline is inside, degraded exactly when something follows them, and fails to read if and only if the cut is inside a character |
| SnapshotLog.CutExists | contracts/crashlab-core/src/health_snapshot.rs:267-287 | every cut falls into one of the lines or after the last, so that covers all of them |
| SnapshotLog.CrashLosesOnlyTheTail | contracts/crashlab-core/src/health_snapshot.rs:267-360 | with well-formed records a crash loses at most the record being written |
| SnapshotLog.AppendAfterTear | contracts/crashlab-core/src/health_snapshot.rs:267-360 | a record appended after a torn write is read as one line together with the torn tail |
| SnapshotLog.CutCharacterIsFatal | contracts/crashlab-core/src/health_snapshot.rs:267-360 | a log cut inside a character and then appended to can never be read again |
| EchoBuffers.EchoBuffer.Push | contracts/crashlab-core/src/health_snapshot.rs:618-634 | after any pushes the buffer holds the sixteen most recently used indices in order of last use, each with its latest, trimmed diagnostics |
| EchoBuffers.LastUsesByPlaces | contracts/crashlab-core/src/health_snapshot.rs:618-634 | that order is the order of the last pushes: each index stands for the last place it was pushed at, and the places go up |
| EchoBuffers.LongestIsLong | contracts/crashlab-core/src/health_snapshot.rs:636-644 | a trimmed summary loses at most three bytes below the limit |
| EchoBuffers.PushKeepsRecent | contracts/crashlab-core/src/health_snapshot.rs:618-634 | removing, dropping the oldest and appending on the window is taking the window of the whole history |
| Sanitize.ParseValueStart | contracts/crashlab-core/src/fixture_sanitize.rs:87-125 | quotes, white space, separator, bearer marker and the byte after it are skipped as specified, with the flag for quotes, or there is no value |
| Sanitize.RedactValues | contracts/crashlab-core/src/fixture_sanitize.rs:131-174 | the scan overwrites exactly the positions of the regions it comes to, in bounds and terminating |
| Sanitize.RedactInlineTokens | contracts/crashlab-core/src/fixture_sanitize.rs:44-69 | exactly the bytes that an unbroken run of token characters joins to a credential prefix are overwritten |
| Sanitize.SanitizePayloadFragments | contracts/crashlab-core/src/fixture_sanitize.rs:131-178 | the output is both passes, one after the other, over the default words |
| Sanitize.OnlyMasksValues | contracts/crashlab-core/src/fixture_sanitize.rs:73-178 | the length stays, and a byte is unchanged or is an x where no delimiter was |
| Sanitize.NoCredentialLeft | contracts/crashlab-core/src/fixture_sanitize.rs:44-178 | the output contains no credential prefix in any letter case |
| Redaction.NoListedPrefix | contracts/crashlab-core/src/fixture_sanitize.rs:31-38 | namely none of the six listed ones |
| Redaction.CredentialGoesOn | contracts/crashlab-core/src/fixture_sanitize.rs:40-69 | a credential goes on exactly as long as letters, digits, _ and - follow |
| Sanitize.ScanIsExact | contracts/crashlab-core/src/fixture_sanitize.rs:131-174 | a byte is masked by the scan if and only if a position the scan comes to covers it |
| Sanitize.QuotedFlagNeverMatters | contracts/crashlab-core/src/fixture_sanitize.rs:165-171 | the test for a closing quote never changes where a value ends |
| Redaction.EveryKeyMasks | contracts/crashlab-core/src/fixture_sanitize.rs:13-29 | after each of the fifteen listed keys, in any letter case, and an equals sign a digit is masked |
| Redaction.ValueEndsAt | contracts/crashlab-core/src/fixture_sanitize.rs:73-78 | after `password=` and a digit exactly the twelve delimiter bytes are not masked |
| Redaction.SpacesByNumbers | contracts/crashlab-core/src/fixture_sanitize.rs:87-110 | exactly the five ASCII white space bytes may stand around a separator |
| Redaction.SecretKeyByNumbers | contracts/crashlab-core/src/fixture_sanitize.rs:136-147 | a secret key is masked with all letters and digits that follow it |
| Redaction.SecretKeyEnds | contracts/crashlab-core/src/fixture_sanitize.rs:136-147 | and what follows those is left, if it has no letters |
| Redaction.FoundValueIsMaskedIff | contracts/crashlab-core/src/fixture_sanitize.rs:87-178 | of a key the scan comes to, the value up to the next delimiter is masked in the output if and only if it does not follow a bearer marker with a byte that is no delimiter (and no x); otherwise exactly that first byte is left as it was |
| Redaction.WholeValueIsMaskedIff | contracts/crashlab-core/src/fixture_sanitize.rs:87-178 | the whole value, up to the closing quote of a quoted one, is masked if and only if no delimiter occurs in it and no byte is skipped after a bearer marker |
| Redaction.QuotedRestIsLeft | contracts/crashlab-core/src/fixture_sanitize.rs:131-174 | after `password="` what follows the first delimiter is left if it has no letters |
| Redaction.BearerByteIsLeft | contracts/crashlab-core/src/fixture_sanitize.rs:111-119 | after `authorization: bearer ` the first byte of the value is left |
| Redaction.NestedValueIsLeft | contracts/crashlab-core/src/fixture_sanitize.rs:131-174 | after `password:"token"=` a value without letters is left, though `token` is a key with that value |
| Redaction.ReachedIff | contracts/crashlab-core/src/fixture_sanitize.rs:131-174 | the scan looks at a position if and only if no position it looked at before masks or skips past it |

## Left out

- File handling: directories, fsync, rename and permissions, and concurrent writers of one file.
- JSON and SHA-256 themselves, regular expressions, the 1e-magnitude buckets of amounts (floating point), `HealthMonitor` rates, `edge_priority_multiplier`.
- Sums that the source keeps in u64 or usize and that could only overflow after 2^64 events (cluster counts and totals, bytes saved, report counters) are unbounded here.
- The previous-generation recovery of checkpoints, which the code does not contain.
- `sanitize_payload_with_context` and its sentinels; `sanitize_payload_fragments` is not claimed to be idempotent.
- `check_admission` (four comparisons in a fixed order), `sequence_length`, `RandomizeMutator`, dictionary injection and `derive_seed_state`: they would only add easy members.
- The principal layer of the web limiter, role checks and response headers other than the decision, the remaining count and the reset time.
- `scval_mutator.rs` is not part of this model; its outcome, a payload and the generator state it left, is a parameter of the type-directed operator.
- HavocEffects.CopyMayChangeNothingIff: asks for some sequence of draws; for the draws of a given generator state `CopyChangesNothingIff` decides, but which payloads have such a state is not counted.
- Clusters.ClusterStore.Clusters: assumes that class labels are recognised again; the order of clusters that tie in count, text and label is stated by rule version, which is the order of the source's map for them.
- CorpusStores.MergeIsAssociative: is stated for corpora of fewer than 2^64 seeds, which is all a manifest can count.
- Capacity.EveryInterleavingIsLinearizable: takes steps one at a time on one counter; weaker memory orderings of other variables do not occur in that loop.

# Models of the repository's algorithms

Models of the algorithms in the repository's scripts and run tooling, with the properties their
headers, comments and tests promise:

- `Scheduling.dfy`, `RunTests.dfy` — the test runner deals files, heaviest first, to the lightest
  bin: Graham's 4/3 − 1/(3m) bound, determinism, and exact cover across machines and processes.
- `OutputsSweep.dfy` — three workers publish the files of a run while sharing a cursor, a key set
  and a source map. One step of the transition relation is what a worker does between two awaits;
  the class `Sweep` makes the same steps on its fields. Safety holds over every interleaving.
- `KeyRotation.dfy` — re-encryption under a new key by keyset pagination with guarded writes. The
  database is a map; other writers act before every statement.
- `SqlReader.dfy`, `SqlPlaces.dfy`, `SqlClauses.dfy`, `MigrationGate.dfy` — the gate that keeps row
  rewrites out of migrations: an offset-preserving reader with two modes and recursion into `DO`
  bodies, what it shows at each place of a text, matchers for parentheses and `CASE`/`END`, and a
  collector of findings with a same-table exemption.
- `ApiSchemas.dfy`, `ApiCompatibility.dfy` — flattening of schemas through `$ref`, `allOf`, `oneOf`
  and `anyOf`, what that means for the objects accepted, and the comparison of two API versions.
- `Strictness.dfy`, `SourceScanner.dfy`, `PathExpansion.dfy` — the bounded walk that compares where
  two schemas refuse unknown fields, the bracket matcher that skips strings and comments, and the
  expansion of templated route paths.
- `ModuleSql.dfy`, `ModulePlaces.dfy` — the second offset-preserving reader: it blanks a TypeScript
  file down to its code and its SQL literals, and finds the tables a module names and does not own;
  and what it keeps, stated by a scan of one character at a time.
- `IndexDrift.dfy` — the verdict on a database against the snapshot of its migration.
- `ModelCatalog.dfy` — selection and publication of the model catalog over runs of builds.
- `Orders.dfy`, `Lists.dfy`, `Counting.dfy`, `Texts.dfy` — sorting, gathering, counting and
  characters, shared by the rest.

`dafny verify dfyconfig.toml` checks the whole project.

## Where the code and its documentation differ

The models follow the code.

- `reportCounts` says every sample of a column opens; the code asks for one that does
  (`scripts/rekey-encrypted-columns.ts:91`, `:110`). `KeyRotation.OneSampleIsEverySample` says when
  the two agree; an inventory takes up to two samples.
- `isDeferredCheck` looks for its parenthesis from one past the match
  (`scripts/verify-no-migration-dml.ts:755`), so in `CHECK ((a)), …` it takes the inner close for the
  CHECK's own. `SqlClauses.OwnParenthesisOnly` is the exact condition.
- `getRequired` calls the union of the branches the conservative choice
  (`scripts/detect-breaking-changes.ts:172-178`). It is for the current version, where reading a union
  as all its branches hides nothing: `ApiCompatibility.CurrentHidesNothingExactly`. For the baseline it
  hides a narrowing as soon as one branch asks for a key another does not:
  `ApiCompatibility.BaselineHidesNothingExactly`, with `ApiSchemas.UnionHidesNarrowing` an instance.
- `already_published` is documented as already stored (`runtime-pi/publish.ts:349`), but it is also
  reported on another worker's reservation, which a failed upload takes back. It means stored in every
  run exactly when no two files due for upload share their bytes and stored name:
  `OutputsSweep.SkipsDurableExactly`. The summary stays right either way, because the failed upload is
  in it: `OutputsSweep.CompleteMeansStored`.
- `resolveTemplatedPath` promises no result when a `${…}` cannot be resolved
  (`scripts/verify-openapi.ts:1339-1340`). It looks at identifiers only, so `/${a.b}` comes back as it
  stands: `PathExpansion.ExpressionIsReturned`. `PathExpansion.ResultsKeepExactly` says when a result
  keeps such a part.

## Assumptions

- Scheduling weights are non-negative reals. `localeCompare` and the path order are strict total
  orders; file names are distinct.
- An upload's response carries the digest and the sanitized name that were reserved, and
  `fs.realpath` and the hash do not throw where results per entry are stated. No file changes while
  the sweep runs, where skips are said to be durable.
- Decryption inverts encryption. Other writers of the encrypted columns delete rows, store
  ciphertexts of the active key or make a row dead; nothing else.
- SQL text is a sequence of characters without surrogate pairs. The words and spaces of a pattern
  are predicates over it; `\w` and letter case are the ASCII ones.
- Component schemas come with a rank that shows their references to be acyclic in `ApiSchemas`;
  `Strictness` makes no such assumption.
- A catalog reader accepts integer serials from 0 to 2^53 − 1, what `z.number().int()` admits, and
  the clock of a build is an integer. File names hold no NUL.

## Model

| member | source | states |
|---|---|---|
| Scheduling.GrahamBound | scripts/run-tests.ts:162-176 | heaviest-first list scheduling on m bins: 3·m·makespan ≤ (4·m − 1)·OPT, OPT the least makespan of any assignment |
| Scheduling.GrahamBin | scripts/run-tests.ts:162-176 | the same for every bin against every competing schedule, by induction on the last job |
| Scheduling.OptimalOnHeavyJobs | scripts/run-tests.ts:162-176 | when every job exceeds a third of T, heaviest-first is as good as any schedule of makespan T (the two-jobs-per-bin exchange) |
| Scheduling.LastJobBound | scripts/run-tests.ts:162-176 | m times the load of the bin taking the last job is at most the total plus m − 1 times that job |
| Scheduling.Spread | scripts/run-tests.ts:170-174 | two bins of a list schedule never differ by more than the heaviest job |
| Scheduling.GrahamTightOnTwoBins | scripts/run-tests.ts:162-176 | the factor is reached: jobs 3, 3, 2, 2, 2 on two bins |
| RunTests.Deal | scripts/run-tests.ts:163-176 | the loop over bins computes the greedy schedule of the heaviest-first order; a count below one fails on the first file |
| RunTests.PlaceOnLightest | scripts/run-tests.ts:170-174 | one turn: the first bin of least load grows by the file and its weight, no other bin changes |
| RunTests.LightestBin | scripts/run-tests.ts:171 | the fold keeps the first bin no other is lighter than |
| RunTests.DealtWithinGraham | scripts/run-tests.ts:162-176 | Graham's bound for `deal`, against any other way to put the same files into the bins |
| RunTests.DealtSpread | scripts/run-tests.ts:163-176 | the bins `deal` returns differ by at most the heaviest file |
| RunTests.DealtCovers | scripts/run-tests.ts:163-176 | every file lands in exactly one bin, as often as it was listed |
| RunTests.DealtDeterministic | scripts/run-tests.ts:23-26 | every permutation of the same distinct files gives the same bins |
| RunTests.Plan | scripts/run-tests.ts:231-284 | partition, process count, exclusive files and shards of one run, with its refusals |
| RunTests.RunCoversSelected | scripts/run-tests.ts:239-284 | the processes of a run, the exclusive one included, execute each selected file exactly once |
| RunTests.ExclusiveAlone | scripts/run-tests.ts:37-38 | with several processes a marked file shares none of them, and each process runs in path order |
| RunTests.PartitionsCoverOnce | scripts/run-tests.ts:23-26 | `--partition=1/K` to `K/K` on K machines together execute every collected file exactly once |
| OutputsSweep.StepKeepsInv | runtime-pi/publish.ts:412-541 | every atomic block of every worker keeps the books: entries, keys, sources and skip reasons |
| OutputsSweep.KeysInFlightDistinct | runtime-pi/publish.ts:479-490 | at no point of any interleaving do two workers upload one key, nor one a key already published |
| OutputsSweep.PublishedKeysStay | runtime-pi/publish.ts:491-511 | no rollback removes a published key, and no key is published twice |
| OutputsSweep.FinalKeys | runtime-pi/publish.ts:479-511 | at the end the key set is the initial one and the keys of the published entries, nothing reserved |
| OutputsSweep.EveryEntryReportedOnce | runtime-pi/publish.ts:530-539 | each scanned entry is published, skipped or failed, and once |
| OutputsSweep.RegularFileAccounted | runtime-pi/publish.ts:461-511 | a visible regular file within the cap: its key is durable, its bytes are recorded for its source, or an upload of its key failed |
| OutputsSweep.CompleteMeansStored | runtime-pi/publish.ts:570-586 | a `complete` summary means every visible regular file is stored under its key or recorded for its source |
| OutputsSweep.PartialMeansLoss | runtime-pi/publish.ts:570-586 | a `partial` summary means some entry failed or was over the cap |
| OutputsSweep.Summarize | runtime-pi/publish.ts:570-586 | `complete` exactly when nothing failed or was over the cap, the full published count, and the losses in order, cut at 1000 entries and at the lengths the server takes |
| OutputsSweep.RunsEnd | runtime-pi/publish.ts:530-539 | no interleaving goes on for ever: at most seven blocks an entry and one exit a worker |
| OutputsSweep.SkipsDurableExactly | runtime-pi/publish.ts:344-352 | over all interleavings and replies, `already_published` means stored in every finished run exactly when no two files due for upload share their bytes and stored name |
| OutputsSweep.TwinsLose | runtime-pi/publish.ts:479-508 | whatever the entries, two such files have a run that skips the second on the reservation of the first and then loses the first |
| OutputsSweep.SkipsStoredBefore | runtime-pi/publish.ts:461-490 | without such files every skip, at any point of any run, is on an initial key or on bytes recorded for the source |
| OutputsSweep.SkipOnKeyAccounted | runtime-pi/publish.ts:479-485 | a skip whose source is not recorded has its key stored, or another entry of that key failed |
| OutputsSweep.SkipOnAbandonedReservation | runtime-pi/publish.ts:393-401 | such files exist: `a/x` and `b/x` with the same bytes; the summary of the run is `partial` |
| OutputsSweep.KeyInjective | runtime-pi/publish.ts:479-490 | a digest and a name are determined by their key |
| OutputsSweep.Sweep.Turn | runtime-pi/publish.ts:412-541 | a worker, run from one await to the next over the shared fields, makes exactly the step of the transition relation |
| OutputsSweep.SweepOutputs | runtime-pi/publish.ts:527-541 | the pool under any scheduler and any replies ends in a state some interleaving reaches |
| OutputsSweep.UploadFile | runtime-pi/publish.ts:237-319 | the retry loop: at most three attempts, a definitive reply ends it, 413, 403 and 409 keep their codes, and a successful reply whose body does not parse is an error of its own |
| KeyRotation.RekeyRetiredKids | scripts/rekey-encrypted-columns.ts:37-86 | the nested loops compute the run over all columns, page by page, other writers acting before every statement |
| KeyRotation.AttemptPage | scripts/rekey-encrypted-columns.ts:61-80 | the rows of a page, each read, re-encrypted and written only over the value read |
| KeyRotation.RotationComplete | scripts/rekey-encrypted-columns.ts:46-84 | when the run ends every row still live under a retired key is reported failed |
| KeyRotation.RotationIsFaithful | scripts/rekey-encrypted-columns.ts:72-77 | no value another writer stored is overwritten, and every rewritten row opens to its old plaintext |
| KeyRotation.CursorAdvances | scripts/rekey-encrypted-columns.ts:81-82 | what is pending past the cursor strictly shrinks after a full page, past failing rows too, so the loop ends |
| KeyRotation.QuietRun | scripts/rekey-encrypted-columns.ts:46-85 | without other writers every initially retired row is attempted once and counted once, in key order |
| KeyRotation.BatchIrrelevant | scripts/rekey-encrypted-columns.ts:53-60 | the result is the same for every batch size of at least 1 |
| KeyRotation.CoverageNeedsAgreement | scripts/rekey-encrypted-columns.ts:53-60 | pagination misses no row, whatever the rows and the batch size, exactly when the order of the listing is the order of the bound |
| KeyRotation.CoverageNeedsPagesAgree | scripts/rekey-encrypted-columns.ts:53-83 | for a given batch size: exactly when the bound excludes nothing listed after a key with a page of keys listed up to it |
| KeyRotation.DisagreementMisses | scripts/rekey-encrypted-columns.ts:50-83 | two keys the orders disagree on, and enough keys listed before them to fill a page, give rows of which one is missed |
| KeyRotation.ReportCounts | scripts/rekey-encrypted-columns.ts:93-117 | clean exactly when every count is under the active kid and some sample of it opens |
| KeyRotation.OneSampleIsEverySample | scripts/rekey-encrypted-columns.ts:89-113 | "some sample opens" is the documented "every sample opens" exactly for one sample to a count |
| KeyRotation.CleanAfterRotation | scripts/rekey-encrypted-columns.ts:89-117 | after a rotation the inventory is clean exactly when no row reported failed is still live under a retired key; after a run without failures the keys can be dropped |
| SqlReader.Sanitize | scripts/verify-no-migration-dml.ts:179-243 | the walking loop, `DO` bodies read by a call of its own, computes the reading in both modes |
| SqlReader.ReadToken | scripts/verify-no-migration-dml.ts:179-243 | one token of the walk: comment, literal, `DO` body or a single character |
| SqlReader.ReadingKeepsOffsets | scripts/verify-no-migration-dml.ts:150-158 | in both modes the reading has the length and the line breaks of the text |
| SqlReader.ReadingsAligned | scripts/verify-no-migration-dml.ts:171-178 | at each offset the blanked reading is a space or the character of the literal-keeping one, through `DO` bodies and `E` strings |
| SqlReader.ReadingShowsTheText | scripts/verify-no-migration-dml.ts:150-158 | what a reading shows, blanks and separators apart, stands in the text at that offset |
| SqlReader.BlankedIsClean | scripts/verify-no-migration-dml.ts:179-243 | the blanked reading holds no quote, no `--` and no `/*` |
| SqlReader.ReadingIdempotent | scripts/verify-no-migration-dml.ts:179-243 | reading a blanked text again, in either mode, changes nothing |
| SqlReader.CodeIsKept | scripts/verify-no-migration-dml.ts:150-165 | code without quotes and comments reads as itself |
| SqlPlaces.ReadingShowsExactly | scripts/verify-no-migration-dml.ts:179-243 | at every place of every text: code shows, comments and the quotes of literals are blank, and the inside of a literal is kept, read as code of a `DO` block, or blank |
| SqlPlaces.OnlyReadingShows | scripts/verify-no-migration-dml.ts:150-158 | the reading is the only text that shows exactly that, in either mode |
| SqlPlaces.LiteralReading | scripts/verify-no-migration-dml.ts:125-148 | a literal anywhere in a text, escapes and doubled quotes included, reads as the code of a `DO` block when it is that, blank otherwise, verbatim when literals are kept |
| SqlClauses.MatchesMissNothing | scripts/verify-no-migration-dml.ts:714-719 | matching from left to right misses a place where the pattern holds only where an earlier match runs over it |
| SqlClauses.ActionEndIs | scripts/verify-no-migration-dml.ts:437-449 | an action ends at the first `,` or `;` outside the parentheses opened since its start |
| SqlClauses.UsingExpression | scripts/verify-no-migration-dml.ts:437-449 | the scanning loop returns the text up to that end |
| SqlClauses.IsDeferredCheck | scripts/verify-no-migration-dml.ts:743-778 | deferred exactly when `NOT VALID` stands between the close of the parenthesis read and the end of its action |
| SqlClauses.OwnParenthesisOnly | scripts/verify-no-migration-dml.ts:755 | the parenthesis read is the CHECK's own, whatever follows, exactly when the next character is not another `(` |
| SqlClauses.AtomicBody | scripts/verify-no-migration-dml.ts:545-558 | the counting loop finds the span of a `BEGIN ATOMIC` body or none |
| SqlClauses.AtomicBodyIsShortest | scripts/verify-no-migration-dml.ts:545-558 | the span ends with the END that first returns the count to 0; there is none exactly when no opening or no such END exists |
| SqlClauses.CollectBodies | scripts/verify-no-migration-dml.ts:560-567 | the loop over definitions collects the function and procedure bodies |
| SqlClauses.FunctionBodiesAre | scripts/verify-no-migration-dml.ts:560-567 | the spans are exactly the bodies of the definitions, dollar-quoted before atomic |
| SqlClauses.DollarBodyIs | scripts/verify-no-migration-dml.ts:536-543 | a dollar-quoted body opens inside its statement and runs to the next standing of its tag; none when the tag does not stand again |
| SqlClauses.LicencedTables | scripts/verify-no-migration-dml.ts:714-725 | the loop over clauses computes the set of licenced tables |
| SqlClauses.LicencedExactly | scripts/verify-no-migration-dml.ts:714-725 | a table is licenced exactly when a clause outside function bodies, no deferred CHECK, has it as its last table statement |
| MigrationGate.UsingWrites | scripts/verify-no-migration-dml.ts:455-471 | every rewriting `USING` expression with its statement and table |
| MigrationGate.RepairsAre | scripts/verify-no-migration-dml.ts:455-471 | the repairs are exactly the `USING` expressions, in an ALTER TABLE that opens a statement, that do more than convert |
| MigrationGate.Findings.Report | scripts/verify-no-migration-dml.ts:828-834 | the first report at an offset stands |
| MigrationGate.Findings.Pass1 | scripts/verify-no-migration-dml.ts:836-850 | the loop reports exactly the writes of the file that open a statement, lie in no body and no MERGE, and are not excused |
| MigrationGate.Findings.Pass1b | scripts/verify-no-migration-dml.ts:852-859 | repairs outside bodies on tables without a licence |
| MigrationGate.Findings.Pass2 | scripts/verify-no-migration-dml.ts:861-880 | writes of command strings, reported whatever is licenced |
| MigrationGate.FindDml | scripts/verify-no-migration-dml.ts:821-883 | a finding for each row-rewriting offset and no other, in file order, at its line of the text, quoting the author |
| MigrationGate.CarveOut | scripts/verify-no-migration-dml.ts:302-331 | licensing more tables only drops UPDATE and `USING` findings on the newly licenced tables |
| MigrationGate.EveryWriteAnswered | scripts/verify-no-migration-dml.ts:836-850 | a write that runs is reported, is the UPDATE of a licenced table, or lies in the statement of a reported MERGE |
| MigrationGate.EveryCommandAnswered | scripts/verify-no-migration-dml.ts:861-880 | a write of a command string is reported or lies in a reported MERGE |
| MigrationGate.VerbsAreTheAuthors | scripts/verify-no-migration-dml.ts:171-178 | a verb read in either mode stands in the author's text at that offset |
| MigrationGate.Review | scripts/verify-no-migration-dml.ts:892-925 | silent exactly when every file not exempted passes and every exemption names a file |
| ApiSchemas.GetRequired | scripts/detect-breaking-changes.ts:160-190 | the recursive loops collect the required keys over the composition |
| ApiSchemas.GetProperties | scripts/detect-breaking-changes.ts:120-157 | the recursive loops merge the fields, later members and own fields winning |
| ApiSchemas.RequiredIsExact | scripts/detect-breaking-changes.ts:160-190 | on the `$ref`/`allOf` fragment an object is accepted exactly when it has the required keys |
| ApiSchemas.RequiredMeetsEvery | scripts/detect-breaking-changes.ts:172-187 | with one composition to a level the required keys are exactly those that satisfy every branch |
| ApiSchemas.MeetingEveryAccepted | scripts/detect-breaking-changes.ts:172-187 | satisfying every branch is being accepted |
| ApiSchemas.PropertiesAreDeclared | scripts/detect-breaking-changes.ts:137-154 | the fields read are exactly those some branch declares |
| ApiSchemas.GuaranteedExactly | scripts/detect-breaking-changes.ts:160-190 | through unions, compositions side by side and references of references: a key is in every accepted object exactly when a `required` list, an `allOf` member or every branch of a union asks for it |
| ApiSchemas.RequiredIsNeededExactly | scripts/detect-breaking-changes.ts:172-187 | every accepted object has the keys read exactly when each of them is guaranteed |
| ApiSchemas.RequiredSufficesExactly | scripts/detect-breaking-changes.ts:160-190 | the keys read are enough for acceptance exactly when the object of just these keys is accepted |
| ApiSchemas.UnionHidesNarrowing | scripts/detect-breaking-changes.ts:172-187 | a union whose keys are not guaranteed: a key one branch required is required of all without a report, though an accepted object is refused |
| ApiSchemas.AllOfHidesUnion | scripts/detect-breaking-changes.ts:164-171 | a schema whose keys read are not enough: beside `allOf` a union is not read |
| ApiSchemas.ReferenceToReferenceHidesKeys | scripts/detect-breaking-changes.ts:80-84 | another: a reference to a reference is resolved once and its keys are not read |
| ApiSchemas.TypeIgnoresOrderAndNull | scripts/detect-breaking-changes.ts:87-108 | neither the order of a type list nor `null` in it is a change of type |
| ApiCompatibility.CompareSpecs | scripts/detect-breaking-changes.ts:222-416 | the loops report exactly the changes that the two descriptions differ by |
| ApiCompatibility.CompareRequest | scripts/detect-breaking-changes.ts:250-320 | the changes of a request body |
| ApiCompatibility.CompareResponse | scripts/detect-breaking-changes.ts:335-384 | the changes of a response body |
| ApiCompatibility.SelfCompareIsSilent | scripts/detect-breaking-changes.ts:222-416 | a description compared with itself reports nothing |
| ApiCompatibility.SwapMirrors | scripts/detect-breaking-changes.ts:222-416 | removals one way are additions the other way, one for one |
| ApiCompatibility.RequiredChangesExact | scripts/detect-breaking-changes.ts:250-271 | a required-key change is reported exactly when some accepted object is refused now |
| ApiCompatibility.RequiredChangesOverUnions | scripts/detect-breaking-changes.ts:172-187 | over unions the same for objects that satisfy every branch |
| ApiCompatibility.RemovedFromEveryBranch | scripts/detect-breaking-changes.ts:343-350 | a response field is removed exactly when some branch declared it and none does now |
| ApiCompatibility.BaselineHidesNothingExactly | scripts/detect-breaking-changes.ts:250-271 | a baseline lets no narrowing by a current version go unreported exactly when every key read of it is guaranteed |
| ApiCompatibility.CurrentHidesNothingExactly | scripts/detect-breaking-changes.ts:172-187 | a current version hides no narrowing exactly when the object of just the keys read of it is accepted; reading a union as all its branches keeps that |
| ApiCompatibility.CompatibleStillAccepts | scripts/detect-breaking-changes.ts:222-271 | past the gate every endpoint is there and takes the key sets it took, under those two conditions |
| ApiCompatibility.CompatibleFragmentStillAccepts | scripts/detect-breaking-changes.ts:222-271 | so for a baseline of references and `allOf` and a current version with unions, one composition to a level |
| ApiCompatibility.CompatibilityComposes | scripts/detect-breaking-changes.ts:222-416 | compatibility composes where the version between declares the bodies, fields, enums and known types compared |
| ApiCompatibility.OmissionHidesBreak | scripts/detect-breaking-changes.ts:247-250 | a version that drops its body breaks the composition |
| Strictness.CompareStrictness | scripts/verify-openapi.ts:623-654 | the findings are exactly the shape mismatches and the places, down to the depth limit, where closedness differs |
| Strictness.CompareObjects | scripts/verify-openapi.ts:656-699 | the walk of one pair, on references that may run in circles, ends by its depth |
| Strictness.Descend | scripts/verify-openapi.ts:741-779 | own properties before branches; incomparable shapes are skipped |
| Strictness.SelfCompareIsSilent | scripts/verify-openapi.ts:623-654 | a body compared with itself gives no finding |
| Strictness.BothDirections | scripts/verify-openapi.ts:618-622 | a finding one way is the same finding, sides swapped, the other way |
| Strictness.SilentExactly | scripts/verify-openapi.ts:623-779 | silent exactly when the shapes match and closedness agrees on every common path of at most eight steps |
| Strictness.DepthLimit | scripts/verify-openapi.ts:701-706 | a difference is seen exactly down to the eighth level |
| SourceScanner.FindClose | scripts/verify-openapi.ts:1108-1158 | the loop over flags stops at the bracket the scan over modes stops at |
| SourceScanner.BalanceIs | scripts/verify-openapi.ts:1108-1158 | that bracket is the first to balance in the text with everything but code blanked, and there is none exactly when none does |
| SourceScanner.ExtractCallText | scripts/verify-openapi.ts:1195-1209 | the first balanced slice from the parenthesis, or none exactly when it never balances |
| SourceScanner.ExtractFunctionBody | scripts/verify-openapi.ts:1168-1187 | the text between the first brace behind the declaration and the one that closes it |
| SourceScanner.BodyBraceIsFirst | scripts/verify-openapi.ts:1169-1173 | the brace is the first behind the parenthesis of the first declaration of that name |
| SourceScanner.PlainIsCode | scripts/verify-openapi.ts:1094-1099 | a text without quotes and slashes is all code |
| SourceScanner.LiteralIsBlank | scripts/verify-openapi.ts:1133-1139 | a literal is blank from quote to quote, whatever brackets it holds |
| SourceScanner.LineCommentIsBlank | scripts/verify-openapi.ts:1120-1124 | a line comment is blank to the end of its line |
| SourceScanner.BlockCommentIsBlank | scripts/verify-openapi.ts:1125-1132 | a block comment is blank to its first close |
| PathExpansion.ResolveTemplatedPath | scripts/verify-openapi.ts:1341-1370 | the recursive loops compute the expansion of a templated path |
| PathExpansion.ResolveIs | scripts/verify-openapi.ts:1328-1370 | no expansion exactly when a path that comes up gets stuck (an identifier without a literal, or nesting past the depth); otherwise exactly the paths reached by choosing literals round after round |
| PathExpansion.ExpansionIsProduct | scripts/verify-openapi.ts:1338 | where literals name no identifier: every choice of one literal to an identifier, the same wherever it stands, and nothing else |
| PathExpansion.ResultsKeepExactly | scripts/verify-openapi.ts:1338-1340 | some result keeps a `${…}` exactly when the path, or a literal that can come into it by any choices, holds an expression that is no identifier |
| PathExpansion.ResultsAreConcreteExactly | scripts/verify-openapi.ts:1338-1340 | no result names an identifier; every result of a path with such an expression keeps it |
| PathExpansion.ExpressionIsReturned | scripts/verify-openapi.ts:1348-1349 | a path whose only `${…}` is such an expression is returned as it stands |
| PathExpansion.CirclesFailClosed | scripts/verify-openapi.ts:1347 | a path that mentions constants referring to one another in a circle has no expansion |
| ModuleSql.SqlText | scripts/verify-module-sql-boundary.ts:33-105 | the walking loop computes the reading of a source file, with the number of SQL literals |
| ModuleSql.ReadLexeme | scripts/verify-module-sql-boundary.ts:50-101 | one token: comment, regular expression, quoted literal, template or a single character |
| ModuleSql.SqlKeepsOffsets | scripts/verify-module-sql-boundary.ts:26-32 | the reading has the length of the source; each place is a blank or the character that stands there, line breaks at the same places |
| ModulePlaces.SqlShowsExactly | scripts/verify-module-sql-boundary.ts:23-105 | at every place of every source, read one character at a time with a stack for `${…}`: code and the text of SQL literals show, comments, regular expressions, delimiters, escapes in templates, interpolations and other text are blank; the literals counted are the SQL literals that open |
| ModulePlaces.OnlyReadingShows | scripts/verify-module-sql-boundary.ts:26-32 | the reading is the only text that shows exactly that |
| ModulePlaces.CodeReadsAsItself | scripts/verify-module-sql-boundary.ts:99-101 | code without quotes and slashes reads as itself and counts no literal |
| ModulePlaces.KeptExactlyWhenSql | scripts/verify-module-sql-boundary.ts:20-30 | a character between the delimiters of a literal, anywhere in a source, is kept exactly when it is text and the literal is a template tagged `sql` or an argument of `sql.raw`, `.execute` or `.unsafe` |
| ModuleSql.FindTableReferences | scripts/verify-module-sql-boundary.ts:130-139 | the loop collects the references of all clauses from left to right |
| ModuleSql.ReferencesAre | scripts/verify-module-sql-boundary.ts:130-139 | a reference is found exactly when a clause of the kept SQL names it, no keyword and no call, at its line of the source |
| ModuleSql.ReviewFile | scripts/verify-module-sql-boundary.ts:171-212 | a file commits exactly the imports of the platform's schema and the references to tables neither own nor of the system |
| ModuleSql.ReviewModule | scripts/verify-module-sql-boundary.ts:255-267 | the problems of a module are those of its files; a module without tables is refused instead |
| IndexDrift.RunCheck | scripts/check-index-drift.ts:325-506 | exit 0 exactly when a journal entry matches, every declared index is present outside subtracted tables and every declared column with its nullability; and what is reported |
| IndexDrift.DiffColumns | scripts/check-index-drift.ts:248-272 | absent, mismatched and undeclared columns of the declared tables |
| IndexDrift.DeclaredIndexesAre | scripts/check-index-drift.ts:208-216 | an index is declared exactly by the public tables that list it |
| IndexDrift.DeclaredColumnsAre | scripts/check-index-drift.ts:227-239 | with one public table to a name, every column of every public table is declared |
| IndexDrift.DeclaredTablesTakePart | scripts/check-index-drift.ts:383-402 | a declared table is never subtracted: its columns are judged by the last row of each |
| IndexDrift.ModuleRowsAreIrrelevant | scripts/check-index-drift.ts:380-402 | states that differ only in rows on module-owned, undeclared tables have one verdict |
| IndexDrift.ModuleRowComesAndGoes | scripts/check-index-drift.ts:380-402 | such a row may come or go anywhere in either listing |
| IndexDrift.IndexesNeverFail | scripts/check-index-drift.ts:59-61 | an index more, declared or not, never fails a run |
| ModelCatalog.ReadChatRecords | scripts/build-model-catalog.ts:78-101 | the loops read the records of a directory and refuse every other layout |
| ModelCatalog.LastRecordWins | scripts/build-model-catalog.ts:86-97 | one record to an id, the last the file has of it |
| ModelCatalog.DirectoryHolds | scripts/build-model-catalog.ts:78-101 | what is read is, file by file, the last chat record of each id |
| ModelCatalog.ChatsAre | scripts/build-model-catalog.ts:86-96 | the chat records of a file are those some group of it holds |
| ModelCatalog.OneRecordPerPair | scripts/build-model-catalog.ts:78-101 | no two records of a directory share provider and id |
| ModelCatalog.SelectCatalogRecords | scripts/build-model-catalog.ts:173-191 | the records to publish and those dropped, in key order |
| ModelCatalog.SelectionIsUnique | scripts/build-model-catalog.ts:173-191 | what is published is exactly the new, unrefused records, each provider and id once |
| ModelCatalog.DropsAre | scripts/build-model-catalog.ts:178-184 | dropped are exactly the new records refused, each with its reason |
| ModelCatalog.SelectionIgnoresOrder | scripts/build-model-catalog.ts:186-190 | the lists are sorted and do not depend on the order of the source records |
| ModelCatalog.PublishRecords | scripts/build-model-catalog.ts:225-252 | unchanged, published above the previous serial, or failed, each exactly when |
| ModelCatalog.BuildModelCatalog | scripts/build-model-catalog.ts:218-253 | one build from a directory: an empty list from a registry that is not later |
| ModelCatalog.SerialsGrow | scripts/build-model-catalog.ts:225-242 | over any run, whatever clocks and keys, each serial exceeds the one stated before it and all published earlier |
| ModelCatalog.PublishedOnce | scripts/build-model-catalog.ts:228-236 | an unchanged list under an accepted signature is not published again |

## Left out

- Mount paths, router names and the lookup of an identifier's literals through files and imports in `scripts/verify-openapi.ts`: the lookup is a parameter of `PathExpansion`.
- PathExpansion.ResolveTemplatedPath: a path is its text, identifiers and other expressions in order, so a `${` put together from two neighbouring texts, a `$` pattern in a replacement and a `$` in an identifier are not modelled.
- Import specifiers in `scripts/verify-module-sql-boundary.ts`: found by another script, a parameter of `ModuleSql.ReviewFile`.
- Conversion expressions (`isConversion`, `scripts/verify-no-migration-dml.ts:421-434`): a parameter of the gate, any predicate on the text of a `USING` expression.
- Lower-casing of names outside ASCII (`normalizeTable`), and the white-space folding and 240-character cut of a quoted statement.
- Backoff times, `Retry-After`, per-attempt timeouts and message texts of uploads; only what a reply decides is kept.
- Directories, git, the file system, HTTP, SQL execution, signing and hashing: parameters or abstract functions.
- OutputsSweep.SweepOutputs: one scheduler picks the worker to resume; true parallelism does not arise in the runtime modelled.
- ApiCompatibility.CompareSpecs: the set of changes, not the order in which they are listed; removed and added enum values as sets.
- Strictness.CompareStrictness: the set of findings, not their order, with paths instead of label texts.
- IndexDrift.RunCheck: the data of the report, not its sentences or the order of its lists.
- ApiSchemas.RequiredIsExact: what the required lists say; types, enums and `additionalProperties` of the values are outside it, and an object is its set of keys. `oneOf` is read as needing one branch, not exactly one.
- ModelCatalog.SelectCatalogRecords: why a record is refused is a function of the record; building requests to find out is not modelled.
- RunTests.Plan: argument parsing beyond the ranges it admits, collection of files and measuring of durations.
- SourceScanner.ExtractFunctionBody: the function name is searched as written, and a regular-expression literal counts as code, as the source says of itself.

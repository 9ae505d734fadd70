# Models of clangd, clang-tidy, include-fixer and clang-move

Dafny models of the parts of clang-tools-extra whose correctness is not visible from reading one function, with proofs of
what those parts are for. `dafny verify dfyconfig.toml` checks everything.

## What is modelled

* **The rebuild protocol of clangd's `CppFile`** (`CppFile.dfy`, `Rebuild.dfy`, `RebuildSafety.dfy`,
  `RebuildResults.dfy`, `RebuildProgress.dfy`). `CppFile` is a class whose methods are the
  regions executed under its mutex. The protocol is a state machine with one step per such region, over any number of
  requests and closures, including the condition variable with sleeping, spurious wakeups and owed notifications. What
  every future holds and every closure returns is traced back to the builds of the run.
* **The server around it** (`ServerState.dfy`, `Server.dfy`, `ServerProofs.dfy`, `ServerTheorems.dfy`,
  `ServerProgress.dfy`, `ServerPublications.dfy`, `ServerFreshness.dfy`, `ServerLatest.dfy`). One client thread, any
  number of workers and files: drafts, the LIFO queue, dropped outdated closures, ordered diagnostics and where they come
  from, and how such a server comes to rest.
* **The fuzzy matcher** (`FuzzyTable.dfy`, `FuzzySpec.dfy`, `FuzzyLaws.dfy`, `FuzzyMatch.dfy`, `FuzzyBrackets.dfy`,
  `FuzzyFloat.dfy`). The three-dimensional table in an array that is reused across calls, against the maximum over all alignments; the returned
  score is the exact value of the binary32 float.
* **Conflicting fixes in clang-tidy** (`SweepLine.dfy`, `ConflictingFixes.dfy`, `FixSurvival.dfy`). The sweep over sorted events
  against a statement, on the replacements themselves, of which fixes survive.
* **JSON** (`Json.dfy`, `JsonText.dfy`, `JsonUnicode.dfy`, `JsonStrings.dfy`, `JsonGrammar.dfy`, `JsonBlame.dfy`,
  `JsonParser.dfy`, `JsonLayout.dfy`, `JsonPrinter.dfy`, `JsonRoundTrip.dfy`). Classes for the parser and the printer with
  the functions they compute; the language the parser accepts, as a grammar of texts; what its errors mean; the layout of
  printed text; the round trip; UTF-8 and UTF-16.
* **Completion ranking** (`Powers.dfy`, `SortKeys.dfy`, `Heaps.dfy`, `TopN.dfy`). The bounded heap against sorting, and the sort key over
  all binary32 bit patterns.
* **Symbol queries in include-fixer** (`SymbolTokens.dfy`, `PosixRegex.dfy`, `SymbolQueries.dfy`). The tokenizer, the regular
  expressions queries become, and what they match.
* **Helpers in clang-move** (`HelperGraph.dfy`, `DeclMoves.dfy`, `NamespaceEmitter.dfy`). Reachability, the closure
  guarantees of both source files, and the namespaces around moved declarations.
* **Message framing** (`Framing.dfy`, `Sessions.dfy`). Reading back what was written, from expression to expression, and
  whole sessions as other clients may write them.

## Assumptions

* `RebuildCounter` does not wrap, and there is no shutdown while closures are queued.
* At the server level one client thread issues the requests. That each deferred closure is run at most once is proved
  there (`ServerProofs.OneHandEachKept`), and is part of the step relation for a file on its own.
* Preambles, ASTs, compile commands, diagnostics and declarations are opaque values; canonical and outermost declarations
  are given functions, of which only idempotence of the first is assumed.
* Text is a sequence of bytes 0 to 255, as the lookup tables' comments intend; character classes are those of the C locale.
* Within one clang-tidy error the replacements of a file are disjoint, and offsets and sizes are below 2^31.
* Number text is opaque: `strtod` and `%g` are parameters, and round trips ask that each number survives its own text.
* Ranking scores are not NaN. Float arithmetic is IEEE 754 binary32, rounding to nearest, ties to even.

## Where the code and its promises differ

* `getLastCommand` is documented to be None after a cancellation; the code never resets it. It is as documented exactly if
  no rebuild was requested or the last one was not cancelled since (`RebuildSafety.LastCommandIsAsDocumentedIff`).
* `deferRebuild` is documented to give None if a newer request came before the rebuild was finished; a rebuild that is
  overtaken while its AST is being built returns diagnostics (`RebuildResults.ResultIsAsDocumentedIff`).
* Diagnostics are serialized by version so that they arrive in the right order; two requests for one version, as made by
  `forceReparse`, may still be published in the wrong order. The exact condition for the newest request to be published
  last is a theorem (`ServerLatest.NewestIsPublishedLastIff`), with a failing schedule
  (`ServerLatest.ForcedReparseMayBeOvertaken`).
* A surrogate pair is combined with `|` where RFC 2781 adds, which is right exactly when bit 6 of the first half's offset
  is clear (`JsonUnicode.PairIsRightIffBit6Clear`).
* A perfect fuzzy score would be exactly 1 over the reals; in binary32 it is for all but five pattern lengths
  (`FuzzySpec.ExactPrefixScoresOneIff`).
* `encodeFloat` is documented for all floats; the stated equivalence holds for a float against all numbers exactly if it is
  not NaN (`SortKeys.PromiseHoldsIffNotNaN`).
* clang-move looks helpers up by an outermost declaration that it does not canonicalise, so a referenced helper goes along
  exactly when that declaration is canonical (`DeclMoves.NewCCIsClosedIff`, `DeclMoves.OldCCIsClosedIff`).

## Model

| member | source | states |
|---|---|---|
| `CppFiles.CppFile.constructor` | clang-tools-extra/clangd/ClangdUnit.cpp:369-385 | A new file has request counter 0, no rebuild in progress, and both futures ready with null |
| `CppFiles.CppFile.RenewReadyPromises` | clang-tools-extra/clangd/ClangdUnit.cpp:395-402 | Each promise is replaced if and only if its future is ready; a pending one stays, so its future keeps waiting |
| `CppFiles.CppFile.DeferRebuild` | clang-tools-extra/clangd/ClangdUnit.cpp:434-459 | The new request gets the next number and the preamble that was available; ready futures are renewed and the command is recorded |
| `CppFiles.CppFile.DeferCancelRebuild` | clang-tools-extra/clangd/ClangdUnit.cpp:389-402 | A cancellation also takes the next number and renews ready futures, and leaves the last command as it was |
| `CppFiles.CppFile.EnterGuard` | clang-tools-extra/clangd/ClangdUnit.cpp:644-662 | The guard is entered exactly when the request is the newest and no rebuild is in progress; superseded and blocked requests change nothing |
| `CppFiles.CppFile.FinishCancel` | clang-tools-extra/clangd/ClangdUnit.cpp:409-424 | The cancellation closure nulls both promises exactly when it is the newest request and no rebuild is in progress |
| `CppFiles.CppFile.SetPreamble` | clang-tools-extra/clangd/ClangdUnit.cpp:577-577 | set_value on the current preamble promise; setting a fulfilled promise is recorded as a fault |
| `CppFiles.CppFile.SetAst` | clang-tools-extra/clangd/ClangdUnit.cpp:613-614 | set_value on the current AST promise; setting a fulfilled promise is recorded as a fault |
| `CppFiles.CppFile.PublishPreamble` | clang-tools-extra/clangd/ClangdUnit.cpp:570-578 | The latest available preamble always changes; the promise is set only while the request is still the newest |
| `CppFiles.CppFile.PublishAst` | clang-tools-extra/clangd/ClangdUnit.cpp:607-615 | The AST promise is set, to the AST just built, only while the request is still the newest |
| `CppFiles.CppFile.LeaveGuard` | clang-tools-extra/clangd/ClangdUnit.cpp:668-684 | The guard is left; any failing assertion of the destructor is recorded as a fault |
| `RebuildSafety.StepKeepsInv` | clang-tools-extra/clangd/ClangdUnit.cpp:389-688 | Every step of every thread, requests, spurious wakeups and notifications included, keeps the protocol invariant |
| `RebuildSafety.RunKeepsInv` | clang-tools-extra/clangd/ClangdUnit.cpp:389-688 | The invariant holds after every run from any state that satisfies it |
| `RebuildSafety.EveryRunIsSafe` | clang-tools-extra/clangd/ClangdUnit.cpp:668-684 | In every interleaving at most one closure is between guard construction and destruction, no promise is set twice and every assertion of the guard destructor holds |
| `RebuildSafety.NoFutureIsStranded` | clang-tools-extra/clangd/ClangdUnit.cpp:392-402 | Only the current promise of each kind can be pending, and then the closure of the newest request is still to come |
| `RebuildSafety.QuietFuturesAreReady` | clang-tools-extra/clangd/ClangdUnit.h:188-196 | Once every closure has run, every future ever handed out is ready, and the current pair was set by the latest request (to null if that was a cancellation) |
| `RebuildSafety.StepExtends` | clang-tools-extra/clangd/ClangdUnit.cpp:395-402 | No step takes back or changes the value of a fulfilled future |
| `RebuildSafety.FulfilledFuturesNeverChange` | clang-tools-extra/clangd/ClangdUnit.cpp:395-402 | Over whole runs a future keeps its identity, and its value once it has one |
| `RebuildSafety.UnreadyFuturesWaitForTheNewRequest` | clang-tools-extra/clangd/ClangdUnit.h:193-198 | A future that was unready when a request came in is kept, and waits for that request instead |
| `RebuildSafety.SleepersAreNeverForgotten` | clang-tools-extra/clangd/ClangdUnit.cpp:404-415 | A closure asleep on the condition variable either has a notify_all still owed to it, or is the newest request behind a rebuild in progress |
| `RebuildProgress.NoDeadlock` | clang-tools-extra/clangd/ClangdUnit.cpp:652-687 | While any closure is unfinished, some closure can take a step that is neither a new request nor a spurious wakeup |
| `RebuildProgress.ProductiveStepsLowerTheRank` | clang-tools-extra/clangd/ClangdUnit.cpp:404-415 | Every such step lowers a rank |
| `RebuildProgress.RunsTerminate` | clang-tools-extra/clangd/ClangdUnit.cpp:389-688 | Hence without new requests the closures of n requests finish within a bound quadratic in n, under any scheduling |
| `RebuildSafety.LastCommandIgnoresCancellations` | clang-tools-extra/clangd/ClangdUnit.cpp:639-642 | In every run the last command is that of the last rebuild request; cancellations never reset it |
| `RebuildSafety.LastCommandIsAsDocumentedIff` | clang-tools-extra/clangd/ClangdUnit.h:219-221 | The code returns what its comment promises, None before the first rebuild and after a cancellation, if and only if no rebuild was ever requested or the last one was not cancelled since |
| `RebuildSafety.CancelledCommandIsKept` | clang-tools-extra/clangd/ClangdUnit.h:219-221 | After one rebuild request and one cancellation the command is still there, where None is promised |
| `RebuildResults.StepKeepsHistory` | clang-tools-extra/clangd/ClangdUnit.cpp:389-688 | Every step keeps the account of what each closure, promise and result owes to the steps before it |
| `RebuildResults.FuturesHoldWhatWasBuilt` | clang-tools-extra/clangd/ClangdUnit.cpp:570-615 | In every run each fulfilled future holds the preamble or AST that the one build of the rebuild that set it produced, and null if a cancellation or the constructor set it |
| `RebuildResults.QuietFuturesHoldTheNewestBuild` | clang-tools-extra/clangd/ClangdUnit.h:188-198 | Once every closure has run, the current futures hold what the builds of the newest request produced, and null if it was a cancellation |
| `RebuildResults.StalePreambleIsTheLastBuilt` | clang-tools-extra/clangd/ClangdUnit.cpp:572-574 | The preamble available without waiting is that of the last preamble build of the run, superseded or not, and null before the first |
| `RebuildResults.OldPreambleIsTheLastBuilt` | clang-tools-extra/clangd/ClangdUnit.cpp:445-446 | The preamble a rebuild may reuse is the last one built before its request |
| `RebuildResults.ResultsAreWhatWasBuilt` | clang-tools-extra/clangd/ClangdUnit.cpp:568-617 | A closure returns diagnostics exactly if its request was still the newest when its preamble was published, and then those of its preamble followed by those of its AST, or none if there is no AST |
| `RebuildResults.ResultIsAsDocumentedIff` | clang-tools-extra/clangd/ClangdUnit.h:199-201 | The result is None exactly for superseded requests, as documented, if and only if no newer request came while the AST was being built |
| `RebuildResults.OvertakenRebuildStillReports` | clang-tools-extra/clangd/ClangdUnit.h:199-201 | A rebuild that is overtaken while it builds its AST returns diagnostics, where None is documented |
| `ServerTables.DraftStore.GetDraft` | clang-tools-extra/clangd/DraftStore.cpp:15-22 | Version 0 and no contents for a file never seen, the stored draft otherwise |
| `ServerTables.DraftStore.GetVersion` | clang-tools-extra/clangd/DraftStore.cpp:24-31 | The version survives removal; 0 for a file never seen |
| `ServerTables.DraftStore.UpdateDraft` | clang-tools-extra/clangd/DraftStore.cpp:33-40 | The version grows by one and the contents are replaced; no other file changes |
| `ServerTables.DraftStore.RemoveDraft` | clang-tools-extra/clangd/DraftStore.cpp:42-49 | Removal also raises the version, and keeps the entry without contents |
| `ServerTables.RequestQueue.AddToFront` | clang-tools-extra/clangd/ClangdServer.h:120-131 | The new request is the next to be taken; the others keep their order |
| `ServerTables.RequestQueue.AddToEnd` | clang-tools-extra/clangd/ClangdServer.h:136-148 | The new request is the last to be taken |
| `ServerTables.RequestQueue.Take` | clang-tools-extra/clangd/ClangdServer.cpp:116-121 | A worker takes the front of the queue |
| `ServerTables.DiagnosticsReporter.Publish` | clang-tools-extra/clangd/ClangdServer.cpp:612-623 | Diagnostics older than the last reported ones are dropped; otherwise they are published and their version is recorded |
| `ServerProofs.UnitsKept` | clang-tools-extra/clangd/ClangdServer.cpp:185-215 | Every server step keeps the rebuild invariant of every CppFile ever created, open or not |
| `ServerProofs.HandsKept` | clang-tools-extra/clangd/ClangdServer.cpp:571-653 | Every step keeps each scheduled closure in a phase that fits whoever holds it |
| `ServerProofs.OneHandEachKept` | clang-tools-extra/clangd/ClangdServer.cpp:571-653 | No deferred closure is ever in two hands, so each is run at most once, as deferRebuild requires of its caller |
| `ServerProofs.OrphansKept` | clang-tools-extra/clangd/ClangdServer.cpp:99-126 | A closure that has begun, or whose request owes a notification, is in some thread's hands |
| `ServerProofs.ForgetsNothing` | clang-tools-extra/clangd/ClangdServer.cpp:594-624 | For every open file the newest request carries the current version and is scheduled, running, being published or reported |
| `ServerProofs.ReportsKept` | clang-tools-extra/clangd/ClangdServer.cpp:612-623 | Published versions stay in order and match the recorded ones |
| `ServerProofs.ServerStepKeepsInv` | clang-tools-extra/clangd/ClangdServer.cpp:99-126 | All of these are kept by every step of the client, the workers and the closures |
| `ServerTheorems.ServerRunKeepsInv` | clang-tools-extra/clangd/ClangdServer.cpp:99-126 | The server invariant holds after every run |
| `ServerTheorems.PublishedVersionsNeverDecrease` | clang-tools-extra/clangd/ClangdServer.cpp:612-623 | In every interleaving over the LIFO queue the versions published per file never decrease, none is newer than its draft, and no CppFile faults |
| `ServerTheorems.QuiescentServerIsUpToDate` | clang-tools-extra/clangd/ClangdServer.cpp:594-630 | At quiescence every open file was last published at its current version, although outdated closures are dropped without running, and every future ever handed out is ready |
| `ServerTheorems.ServerNeverStuck` | clang-tools-extra/clangd/ClangdServer.cpp:99-126 | With at least one worker, a server that is not at rest always has a step to take |
| `ServerTheorems.StuckServerIsUpToDate` | clang-tools-extra/clangd/ClangdServer.cpp:594-630 | A server with a worker that can do nothing more without a new client call is at rest and up to date |
| `ServerTheorems.WorkerStepsLowerTheWorkload` | clang-tools-extra/clangd/ClangdServer.cpp:99-126 | Every worker step lowers a workload measure over the queue, the workers and the closures |
| `ServerProgress.DrivingStepsLowerThePotential` | clang-tools-extra/clangd/ClangdServer.cpp:99-126 | Every step of a worker, a closure or the client call in progress lowers a potential that bounds what is still to do |
| `ServerProgress.DrivingRunsEnd` | clang-tools-extra/clangd/ClangdServer.cpp:99-126 | Hence no schedule of client and workers runs forever without a new client call; the bound is explicit |
| `ServerProgress.MaximalRunsEndUpToDate` | clang-tools-extra/clangd/ClangdServer.cpp:185-215 | After any history, every run that only a new client call could continue is bounded and ends at rest, with every open file published at its current version and every future ready |
| `ServerProgress.ServerComesToRest` | clang-tools-extra/clangd/ClangdServer.cpp:185-215 | Such a run exists from every reachable state with a worker |
| `ServerTheorems.WorkersDrain` | clang-tools-extra/clangd/ClangdServer.cpp:99-126 | Once the client pauses, the workers empty the queue in a bounded number of steps, however they are scheduled |
| `ServerPublications.EveryFileRunsTheProtocol` | clang-tools-extra/clangd/ClangdServer.cpp:571-653 | Every CppFile of every server run is where its own steps of the rebuild protocol have brought it |
| `ServerPublications.PublicationsAreFounded` | clang-tools-extra/clangd/ClangdServer.cpp:594-623 | In every run a publication of version v of f answers a request that f's CppFile got for v, found v current before it ran, and carries the diagnostics of that request's preamble build followed by those of its AST build, or none without an AST |
| `ServerPublications.StartedClosuresWereCurrent` | clang-tools-extra/clangd/ClangdServer.cpp:602-604 | No rebuild closure is started unless a worker found its version current |
| `ServerFreshness.NewestWaitingRequestIsTaken` | clang-tools-extra/clangd/ClangdServer.h:120-131 | In every run the request a worker takes is newer than every other one waiting for the same file |
| `ServerLatest.RestingServerHasAnswered` | clang-tools-extra/clangd/ClangdServer.cpp:594-630 | At rest the newest request of every open file has been answered with a publication of the current version, which is the file's last if there is one worker or no older result for that version was in a worker's hands when the request was made |
| `ServerLatest.NewestIsPublishedLastIff` | clang-tools-extra/clangd/ClangdServer.cpp:609-623 | For a request about to be made: in every schedule its publication is the last of its file if and only if there is one worker or no worker holds, or is bound to get, diagnostics for the same version |
| `ServerLatest.LateResultComesLast` | clang-tools-extra/clangd/ClangdServer.cpp:609-623 | Otherwise there is a schedule, without another client call, that publishes the older result last |
| `ServerLatest.OneWorkerPublishesTheNewestLast` | clang-tools-extra/clangd/ClangdServer.cpp:594-630 | With one worker the last publication of every open file is that of its newest request whenever the server is at rest |
| `ServerLatest.ForcedReparseMayBeOvertaken` | clang-tools-extra/clangd/ClangdServer.cpp:202-215 | With two workers, adding a document and forcing a reparse while its AST is being built may end with the older request's diagnostics published last |
| `AlignmentTable.ScoresFit` | clang-tools-extra/clangd/FuzzyMatch.h:81-85 | Every score stored in the table fits the signed 15-bit field, and real and hopeless scores never meet |
| `AlignmentTable.CellsUnfold` | clang-tools-extra/clangd/FuzzyMatch.cpp:236-261 | The two cells for (p + 1, w + 1) come from their neighbours by the recurrence of the graph, storage in 15 bits included |
| `AlignmentTable.NothingScoresHigher` | clang-tools-extra/clangd/FuzzyMatch.cpp:221-229 | No alignment of a pattern prefix with a word prefix scores higher than the cell it ends in |
| `AlignmentTable.TraceIsOptimal` | clang-tools-extra/clangd/FuzzyMatch.cpp:318-335 | Following Prev from a cell that is not awful gives an alignment that scores exactly what the cell says |
| `AlignmentTable.EntryIsOptimal` | clang-tools-extra/clangd/FuzzyMatch.cpp:230-262 | Each cell holds the maximum total over all alignments of its pattern prefix into its word prefix ending with its action, and is awful exactly when there is none |
| `AlignmentTable.GreedyIsComplete` | clang-tools-extra/clangd/FuzzyMatch.cpp:209-215 | Taking the earliest place each time misses no embedding |
| `AlignmentTable.CheapCheckIsExact` | clang-tools-extra/clangd/FuzzyMatch.cpp:209-215 | The cheap check passes exactly when the pattern can be embedded, exactly when a final cell is not awful: the later isAwful test never rejects |
| `AlignmentTable.BestIsBest` | clang-tools-extra/clangd/FuzzyMatch.cpp:100-104 | The best final cell is the best score over all complete alignments |
| `AlignmentTable.TraceMissesLatest` | clang-tools-extra/clangd/FuzzyMatch.cpp:246-259 | Of all best alignments to a cell, Prev leads to the one that leaves the character unmatched where any other differs from it for the last time |
| `AlignmentTable.FinalTraceIsEarliest` | clang-tools-extra/clangd/FuzzyMatch.cpp:318-335 | Likewise for the alignment that is written out: among the best ones its matches end earliest |
| `FuzzySpec.TypeMeaning` | clang-tools-extra/clangd/FuzzyMatch.cpp:126-142 | The packed character table classifies every byte as its comments say |
| `FuzzySpec.RoleMeaning` | clang-tools-extra/clangd/FuzzyMatch.cpp:155-175 | The packed role table means what its comments promise about heads, tails and separators |
| `FuzzySpec.ProblemIsSized` | clang-tools-extra/clangd/FuzzyMatch.cpp:264-294 | Penalties and bonuses stay within the bounds the score range relies on, and no bonus exceeds the perfect one |
| `FuzzySpec.MatchesAreSubsequences` | clang-tools-extra/clangd/FuzzyMatch.cpp:94-105 | A word matches exactly when the lower-cased truncated pattern is a subsequence of the lower-cased truncated word |
| `FuzzySpec.MatchScoresAreBest` | clang-tools-extra/clangd/FuzzyMatch.cpp:94-105 | A match scores in [0,1]: the returned float is the scaled best total over all ways to align the whole pattern, which some alignment attains |
| `FuzzySpec.ScaledOrders` | clang-tools-extra/clangd/FuzzyMatch.cpp:104-104 | Among the words for one pattern, the returned floats order exactly as the clamped best totals; rounding neither merges nor reorders them |
| `FuzzySpec.PrefixRoles` | clang-tools-extra/clangd/FuzzyMatch.cpp:155-175 | A character of an exact prefix plays a role in the word that never costs it its bonus |
| `FuzzySpec.ExactPrefixIsPerfect` | clang-tools-extra/clangd/FuzzyMatch.cpp:273-294 | A pattern that is an exact prefix of the word gets every bonus: the returned float is the scaled perfect score |
| `FuzzySpec.ExactPrefixScoresOneIff` | clang-tools-extra/clangd/FuzzyMatch.cpp:94-105 | A pattern that is an exact prefix of the word has the highest score any word has for it, and the returned float is exactly 1 if and only if the truncated pattern is not 41, 47, 53, 55 or 63 characters long |
| `FuzzySpec.FortyOneLettersMissOne` | clang-tools-extra/clangd/FuzzyMatch.cpp:94-105 | 41 times the letter a, matched against itself, returns the float just below 1 |
| `FuzzyLaws.RolesAreSegments` | clang-tools-extra/clangd/FuzzyMatch.cpp:144-175 | Heads are the characters that start a segment and tails those inside one, read off the characters themselves |
| `FuzzyLaws.SkipLaws` | clang-tools-extra/clangd/FuzzyMatch.cpp:264-271 | Skipping costs 1 at the start of a segment and 0 elsewhere, and 2 more right after a match, so splitting a match always costs more than skipping a segment |
| `FuzzyLaws.PairsIgnoreCase` | clang-tools-extra/clangd/FuzzyMatch.cpp:66-66 | Two characters may be paired exactly if they are equal up to the case of an ASCII letter |
| `FuzzyLaws.CapitalsMakeCaseCount` | clang-tools-extra/clangd/FuzzyMatch.cpp:82-85 | Case counts everywhere exactly if the pattern has a capital letter |
| `FuzzyLaws.BonusOutsideSegments` | clang-tools-extra/clangd/FuzzyMatch.cpp:273-294 | A match that is not inside a segment is worth 1, 1 more while all of the word so far is matched, and 1 more if the case agrees and counts or both characters start segments |
| `FuzzyLaws.BonusInsideSegments` | clang-tools-extra/clangd/FuzzyMatch.cpp:273-294 | Inside a segment entering costs 3, a pattern character that starts a segment loses 1 and the first pattern character loses 4, each whatever the others do |
| `FuzzyLaws.ScoreIsNearlyTheRatio` | clang-tools-extra/clangd/FuzzyMatch.cpp:78-104 | The returned float is within 2^-23 of the total over 3 for each pattern character, the total cut off at 0 and at that maximum |
| `FuzzyLaws.BInAUnderscoreB` | clang-tools-extra/clangd/FuzzyMatch.cpp:264-271 | Pattern b in word a_b has the best total 1 |
| `FuzzyMatch.CalculateRoles` | clang-tools-extra/clangd/FuzzyMatch.cpp:180-195 | The sliding six-bit window gives every character the role of its own type and its neighbours' |
| `FuzzyMatch.FuzzyMatcher.constructor` | clang-tools-extra/clangd/FuzzyMatch.cpp:76-92 | The pattern is truncated, and the boundary cells that no match ever writes are filled |
| `FuzzyMatch.FuzzyMatcher.Init` | clang-tools-extra/clangd/FuzzyMatch.cpp:199-219 | The word is copied, and the result says exactly whether the greedy check passes |
| `FuzzyMatch.FuzzyMatcher.SkipPenaltyAt` | clang-tools-extra/clangd/FuzzyMatch.cpp:264-271 | The penalty computed from the stored roles is that of the alignment problem |
| `FuzzyMatch.FuzzyMatcher.MatchBonusAt` | clang-tools-extra/clangd/FuzzyMatch.cpp:273-294 | The bonus computed from the stored data is that of the alignment problem, and the asserted bound holds |
| `FuzzyMatch.FuzzyMatcher.MissCell` | clang-tools-extra/clangd/FuzzyMatch.cpp:240-248 | The miss cell is the better of its two predecessors after the skip penalty, which trailing characters do not pay |
| `FuzzyMatch.FuzzyMatcher.MatchCell` | clang-tools-extra/clangd/FuzzyMatch.cpp:250-259 | The match cell is awful for different characters, and otherwise the better predecessor with its bonus |
| `FuzzyMatch.FuzzyMatcher.FillCell` | clang-tools-extra/clangd/FuzzyMatch.cpp:236-260 | One more cell of a row holds the table's entry; all earlier rows are untouched |
| `FuzzyMatch.FuzzyMatcher.FillRow` | clang-tools-extra/clangd/FuzzyMatch.cpp:236-261 | A whole row from the diagonal on holds the table's entries |
| `FuzzyMatch.FuzzyMatcher.BuildGraph` | clang-tools-extra/clangd/FuzzyMatch.cpp:230-262 | Filling the array in place leaves in every reachable cell the entry of the optimal table, whatever earlier calls left there |
| `FuzzyMatch.FuzzyMatcher.Match` | clang-tools-extra/clangd/FuzzyMatch.cpp:94-105 | The result is a function of the truncated pattern and word alone, independent of earlier calls on the same object |
| `FuzzyMatch.FuzzyMatcher.StepBack` | clang-tools-extra/clangd/FuzzyMatch.cpp:328-334 | A step of the walk reads the cell its Prev refers to, and the difference is that character's score |
| `FuzzyMatch.FuzzyMatcher.Traceback` | clang-tools-extra/clangd/FuzzyMatch.cpp:318-335 | The walk stays in bounds and yields, of all complete alignments with the best total, the one whose matches end earliest; the per-letter scores add up to it |
| `FuzzyMatch.FuzzyMatcher.DumpLast` | clang-tools-extra/clangd/FuzzyMatch.cpp:296-344 | After a match, the annotated word marks the letters of the best alignment whose matches end earliest, and they spell the pattern ignoring case |
| `AnnotatedWords.Annotate` | clang-tools-extra/clangd/FuzzyMatch.cpp:336-344 | The loop writes exactly the bracketed rendering of the actions |
| `AnnotatedWords.BracketsMarkTheMatches` | clang-tools-extra/clangd/FuzzyMatch.cpp:336-344 | Without its brackets the annotated word is the word, and the brackets, all closed, enclose exactly the matched letters |
| `FuzzyFloat.RoundDivIsNearest` | clang-tools-extra/clangd/FuzzyMatch.cpp:78-78 | Division is rounded to the nearest: no multiple of the spacing is nearer |
| `FuzzyFloat.RoundBitsError` | clang-tools-extra/clangd/FuzzyMatch.cpp:104-104 | Rounding to 24 significant bits errs by at most half the spacing of floats |
| `FuzzyFloat.ScoresAreOrdered` | clang-tools-extra/clangd/FuzzyMatch.cpp:104-104 | For every pattern length the rounded products keep the order of the scores strictly |
| `FuzzyFloat.ScoreRange` | clang-tools-extra/clangd/FuzzyMatch.cpp:104-104 | The returned float is in [0, 1], and is 1 only for a perfect score of a length that allows it |
| `FuzzyFloat.PerfectScoreIsOneExactly` | clang-tools-extra/clangd/FuzzyMatch.cpp:104-104 | A perfect score of n characters is exactly 1 if and only if the rounded reciprocal of 3n does not fall short by more than half the spacing below 1 |
| `FuzzyFloat.PerfectLengths` | clang-tools-extra/clangd/FuzzyMatch.cpp:104-104 | Of the lengths 1 to 63 this fails for exactly 41, 47, 53, 55 and 63 |
| `FuzzyFloat.FortyOneCharactersScoreLessThanOne` | clang-tools-extra/clangd/FuzzyMatch.cpp:104-104 | For 41 characters the product is the float just below 1 |
| `SweepLine.OpenMeansConflict` | clang-tools-extra/clang-tidy/ClangTidyDiagnosticConsumer.cpp:577-609 | The five-part order is such that another interval is open at an event of I exactly when it overlaps I and is neither strictly inside it nor equal with a smaller error size |
| `SweepLine.EventsAreDistinct` | clang-tools-extra/clang-tidy/ClangTidyDiagnosticConsumer.cpp:605-612 | No two events are tied, so the sort has one outcome |
| `SweepLine.OpenSetStep` | clang-tools-extra/clang-tidy/ClangTidyDiagnosticConsumer.cpp:659-668 | Each event opens or closes exactly its own interval |
| `SweepLine.Sweep` | clang-tools-extra/clang-tidy/ClangTidyDiagnosticConsumer.cpp:653-669 | The counter is never negative and ends at 0, and an error stays applicable if and only if none of its intervals has a conflict in the file |
| `ConflictingFixes.EventsCompare` | clang-tools-extra/clang-tidy/ClangTidyDiagnosticConsumer.cpp:605-612 | Events of well-placed replacements are pairwise comparable |
| `ConflictingFixes.Sort` | clang-tools-extra/clang-tidy/ClangTidyDiagnosticConsumer.cpp:657-657 | The events are put in increasing order of priority; none is lost or repeated |
| `ConflictingFixes.ErrorSize` | clang-tools-extra/clang-tidy/ClangTidyDiagnosticConsumer.cpp:624-633 | The size of an error is the total length of its replacements |
| `ConflictingFixes.CollectEvents` | clang-tools-extra/clang-tidy/ClangTidyDiagnosticConsumer.cpp:635-651 | Every non-empty replacement contributes a begin and an end event to its file, and empty ones none |
| `ConflictingFixes.SweepFiles` | clang-tools-extra/clang-tidy/ClangTidyDiagnosticConsumer.cpp:653-670 | An error stays applicable exactly when it is free of conflicts in every file |
| `ConflictingFixes.RemoveIncompatibleErrors` | clang-tools-extra/clang-tidy/ClangTidyDiagnosticConsumer.cpp:560-687 | In place: a fix survives exactly when its error has no prior conflict and no edit of it conflicts with any other; notes are added otherwise |
| `ConflictingFixes.KeptEdits` | clang-tools-extra/clang-tidy/ClangTidyDiagnosticConsumer.cpp:672-686 | Clearing fixes adds no edit and keeps none of the errors it clears |
| `ConflictingFixes.SurvivingFixesAreDisjoint` | clang-tools-extra/clang-tidy/ClangTidyDiagnosticConsumer.cpp:560-687 | In the resulting list of errors no two non-empty edits of a file overlap, whether of one error or of several |
| `FixSurvival.EditsAreTheReplacements` | clang-tools-extra/clang-tidy/ClangTidyDiagnosticConsumer.cpp:635-651 | The edits that take part are exactly the non-empty replacements of the errors, each at its place and with its error |
| `FixSurvival.SizeIsTheTextReplaced` | clang-tools-extra/clang-tidy/ClangTidyDiagnosticConsumer.cpp:622-633 | The size carried by every event is the total length of the text its error replaces, over all files |
| `FixSurvival.SurvivesIff` | clang-tools-extra/clang-tidy/ClangTidyDiagnosticConsumer.cpp:672-686 | A fix is kept if and only if its error has no conflicted fixes and, wherever one of its edits overlaps another error's, the other edit is part of it or is the same edit of an error replacing less text; otherwise it is cleared, and the notes say which reason applies |
| `FixSurvival.MoreTextWins` | clang-tools-extra/clang-tidy/ClangTidyDiagnosticConsumer.cpp:600-609 | Of two errors that make one equal edit and are otherwise apart, the one that replaces more text keeps its fix and the other loses it; with equal amounts both lose |
| `FixSurvival.WhatIsLeftIsApart` | clang-tools-extra/clang-tidy/ClangTidyDiagnosticConsumer.cpp:560-687 | Two different edits that are left in a file end before each other begins |
| `JsonParser.Parser.EatWhitespace` | clang-tools-extra/clangd/JSONExpr.cpp:111-115 | The cursor moves past exactly the white space before it |
| `JsonParser.Parser.Next` | clang-tools-extra/clangd/JSONExpr.cpp:122-122 | The next byte, or 0 at the end, where the cursor stays |
| `JsonParser.Parser.Fail` | clang-tools-extra/clangd/JSONExpr.cpp:368-381 | The error carries the offset, the line counted from 1 and the column in it |
| `JsonParser.LineStart` | clang-tools-extra/clangd/JSONExpr.cpp:370-377 | The start of the line is just after the last newline before the error, or the start of the document |
| `JsonParser.Parser.Word` | clang-tools-extra/clangd/JSONExpr.cpp:141-152 | A bare word is accepted exactly as spelt |
| `JsonParser.Parser.Number` | clang-tools-extra/clangd/JSONExpr.cpp:231-239 | The longest run of number characters is read, and is a number exactly if strtod takes all of it |
| `JsonParser.Parser.Str` | clang-tools-extra/clangd/JSONExpr.cpp:241-283 | The loop computes the string specification: same value and cursor, or same error at the same place |
| `JsonParser.Parser.Hex4` | clang-tools-extra/clangd/JSONExpr.cpp:319-329 | Four characters are consumed, and accepted exactly if all are hexadecimal digits |
| `JsonParser.Parser.Unicode` | clang-tools-extra/clangd/JSONExpr.cpp:330-366 | The loop over surrogates computes its specification |
| `JsonParser.Parser.Value` | clang-tools-extra/clangd/JSONExpr.cpp:135-229 | Recursive descent computes the expression specification, errors included |
| `JsonParser.Parser.Items` | clang-tools-extra/clangd/JSONExpr.cpp:161-184 | The array loop reads elements until the closing bracket |
| `JsonParser.Parser.Properties` | clang-tools-extra/clangd/JSONExpr.cpp:185-216 | The object loop reads properties until the closing brace; a repeated key takes the last value |
| `JsonParser.Parser.AssertEnd` | clang-tools-extra/clangd/JSONExpr.cpp:98-103 | Only white space may follow the document |
| `JsonParser.Parse` | clang-tools-extra/clangd/JSONExpr.cpp:383-390 | The value, or an error that is there to be taken |
| `JsonPrinter.Printer.Quote` | clang-tools-extra/clangd/JSONExpr.cpp:398-426 | What is appended is the quoted form: quotes, backslashes and control characters escaped, all else verbatim |
| `JsonPrinter.Printer.Outdent` | clang-tools-extra/clangd/JSONExpr.cpp:546-548 | Unsigned subtraction restores the indent level even where the addition wrapped |
| `JsonPrinter.Printer.Print` | clang-tools-extra/clangd/JSONExpr.cpp:437-494 | What is appended is the printed form of the expression in the layout, and the indent level comes back |
| `JsonPrinter.Printer.PrintArray` | clang-tools-extra/clangd/JSONExpr.cpp:476-491 | The loop with its comma flag appends the printed form of the array |
| `JsonPrinter.Printer.PrintObject` | clang-tools-extra/clangd/JSONExpr.cpp:456-475 | The loop with its comma flag appends the printed form of the object |
| `JsonRoundTrip.InsertUpdatesOneKey` | clang-tools-extra/clangd/JSONExpr.cpp:201-203 | Assigning to a key of the sorted map gives that key the new value, keeps every other property and keeps the order |
| `JsonRoundTrip.LargestKeyGoesLast` | clang-tools-extra/clangd/JSONExpr.cpp:201-203 | Keys that arrive in order are appended |
| `JsonRoundTrip.PrintedParses` | clang-tools-extra/clangd/JSONExpr.cpp:135-229 | Printed text is read back wherever it stands in a document, if no number character follows |
| `JsonRoundTrip.RoundTrip` | clang-tools-extra/clangd/JSONExpr.cpp:437-494 | parse(print(E)) == E for every expression, in the compact form and in the pretty form for every indent amount |
| `JsonRoundTrip.PrintingIsInjective` | clang-tools-extra/clangd/JSONExpr.cpp:504-521 | Expressions with equal text are equal, whatever the layouts |
| `JsonRoundTrip.ParsedIsSorted` | clang-tools-extra/clangd/JSONExpr.cpp:185-216 | Every accepted document has sorted maps, however deep |
| `JsonRoundTrip.ReprintingIsStable` | clang-tools-extra/clangd/JSONExpr.cpp:383-390 | Printing a parsed document and parsing again changes nothing |
| `JsonUnicode.EncodedIsDecoded` | clang-tools-extra/clangd/JSONExpr.cpp:285-312 | The encoder writes one UTF-8 character of section 3 of RFC 3629 for every scalar value |
| `JsonUnicode.DecodeUndoesEncode` | clang-tools-extra/clangd/JSONExpr.cpp:285-312 | A decoder for section 3 of RFC 3629 gives back every sequence of scalar values |
| `JsonUnicode.AsciiSeparates` | clang-tools-extra/clangd/JSONExpr.cpp:241-283 | In valid UTF-8 an octet below 0x80 separates valid text from valid text |
| `JsonUnicode.SurrogatesStayValid` | clang-tools-extra/clangd/JSONExpr.cpp:331-365 | Whatever surrogates an escape run contains, what is appended is valid UTF-8 |
| `JsonUnicode.StringStaysValid` | clang-tools-extra/clangd/JSONExpr.cpp:241-283 | Copied bytes and escapes together leave a valid string, and the cursor between characters |
| `JsonUnicode.AcceptedTextIsValid` | clang-tools-extra/clangd/JSONExpr.cpp:383-390 | Every string and key of an accepted valid UTF-8 document is valid UTF-8 |
| `JsonUnicode.PairIsRightIffBit6Clear` | clang-tools-extra/clangd/JSONExpr.cpp:363-363 | A surrogate pair decodes as in section 2.2 of RFC 2781 if and only if bit 6 of First - 0xD800 is clear |
| `JsonUnicode.SupplementaryIdeographBecomesAnother` | clang-tools-extra/clangd/JSONExpr.cpp:363-363 | U+20000, written as its pair, comes out as U+10000 |
| `JsonUnicode.RunIsRightIffPairsAreSafe` | clang-tools-extra/clangd/JSONExpr.cpp:330-365 | A run of code units has the runes of RFC 2781, with U+FFFD for lone surrogates, if and only if no pair in it has that bit set |
| `JsonUnicode.RunIsRead` | clang-tools-extra/clangd/JSONExpr.cpp:330-365 | The parser reads a run of escapes as the runes of its code units, however many escapes one step consumes |
| `JsonUnicode.EscapedRunReadsAsUtf16Iff` | clang-tools-extra/clangd/JSONExpr.cpp:316-366 | A string of \u escapes is never refused, and decodes as RFC 2781 has it exactly when its pairs are safe |
| `JsonStrings.SpellingIsRead` | clang-tools-extra/clangd/JSONExpr.cpp:241-283 | Every spelling of a string is read as what it means: bytes as they are, the eight short escapes, \u escapes with digits of either case, surrogates paired or replaced |
| `JsonStrings.StringIsSpelt` | clang-tools-extra/clangd/JSONExpr.cpp:241-283 | A string that is accepted is such a spelling |
| `JsonStrings.EverySpellingIsReadIff` | clang-tools-extra/clangd/JSONExpr.cpp:241-366 | A quoted string whose characters are each written in any way of section 7 of RFC 8259 is accepted, and read as just those characters if and only if no surrogate pair has bit 6 set |
| `JsonGrammar.TreeIsRead` | clang-tools-extra/clangd/JSONExpr.cpp:135-229 | Every text of the grammar, with any white space, spelling and order of keys, is read as its value wherever it stands |
| `JsonGrammar.ItemsAreRead` | clang-tools-extra/clangd/JSONExpr.cpp:161-184 | Array elements with white space and commas between them are read in order |
| `JsonGrammar.MembersAreRead` | clang-tools-extra/clangd/JSONExpr.cpp:185-216 | Object members are read into the map, the last one for a key counting |
| `JsonGrammar.ExprIsText` | clang-tools-extra/clangd/JSONExpr.cpp:135-229 | What is accepted is a text of the grammar, and its value is the one returned |
| `JsonGrammar.ParsesIffInGrammar` | clang-tools-extra/clangd/JSONExpr.cpp:383-390 | parse() accepts exactly the documents of the grammar with white space around them, each as the value it writes down |
| `JsonBlame.RefusalsAreBlamed` | clang-tools-extra/clangd/JSONExpr.cpp:135-366 | A refused document gets one of thirteen messages, and the text at the reported offset is what that message says |
| `JsonBlame.ErrorsCountLines` | clang-tools-extra/clangd/JSONExpr.cpp:368-381 | The reported line is the number of lines up to the offset, and the column the number of characters before it on its line |
| `JsonLayout.QuotedIsSpelled` | clang-tools-extra/clangd/JSONExpr.cpp:398-426 | What quote writes is a spelling of the string, with a short escape or four lower-case digits exactly for quotes, backslashes and control characters |
| `JsonLayout.TreeIsPrinted` | clang-tools-extra/clangd/JSONExpr.cpp:437-548 | The printed text is the text of the grammar with each element and closing bracket on a line of its own, indented by the amount for each level modulo 2^32, or without any white space |
| `SortKeys.UnitsGrow` | clang-tools-extra/clangd/CodeComplete.cpp:198-199 | As magnitudes, IEEE 754 floats order like their bits |
| `SortKeys.EncodeFloatOrders` | clang-tools-extra/clangd/CodeComplete.cpp:189-203 | For all floats but NaN, the key of a is below that of b if and only if a < b as numbers; both zeros have one key |
| `SortKeys.NaNSortsAboveInfinity` | clang-tools-extra/clangd/CodeComplete.cpp:189-203 | For NaN the written equivalence fails: infinity is not less than it, but its key is greater |
| `SortKeys.PromiseHoldsIffNotNaN` | clang-tools-extra/clangd/CodeComplete.cpp:189-203 | The written equivalence holds for b against all numbers on either side if and only if b is not NaN |
| `SortKeys.KnownFloats` | clang-tools-extra/clangd/CodeComplete.cpp:191-199 | The numbers that some bit patterns stand for: the smallest, 0.5, 1, 1.5 and -2 |
| `SortKeys.HexOrders` | clang-tools-extra/clangd/CodeComplete.cpp:210-212 | Hexadecimal digits of equal width order as the numbers, and leave ties to what follows |
| `SortKeys.SortTextRanks` | clang-tools-extra/clangd/CodeComplete.cpp:205-216 | Byte-wise, sort texts order by descending score and then by name, as TopN's comparator does |
| `SortKeys.SortTextReads` | clang-tools-extra/clangd/CodeComplete.cpp:205-216 | A sort text is eight lower-case hexadecimal digits and the name; the digits are the bits of a negative score and 2^31 less the bits of a positive one |
| `SortKeys.SortTextOfHalf` | clang-tools-extra/clangd/CodeComplete.cpp:208-208 | 0.5 and foo make 41000000foo |
| `Heaps.GreaterIsTotal` | clang-tools-extra/clangd/CodeComplete.cpp:522-526 | The comparator is a total order up to ties in both score and name |
| `Heaps.NotGreaterIsTransitive` | clang-tools-extra/clangd/CodeComplete.cpp:522-526 | It is a strict weak order, as the heap algorithms need |
| `Heaps.FrontIsWorst` | clang-tools-extra/clangd/CodeComplete.cpp:529-529 | No candidate in the heap is worse than the front |
| `Heaps.PushHeap` | clang-tools-extra/clangd/CodeComplete.cpp:499-507 | The heap property is restored after the last element changed; nothing is lost |
| `Heaps.PopHeap` | clang-tools-extra/clangd/CodeComplete.cpp:501-501 | The worst candidate goes last and the rest is a heap |
| `Heaps.SortHeap` | clang-tools-extra/clangd/CodeComplete.cpp:516-516 | The heap ends up ordered best to worst |
| `Ranking.TopN.constructor` | clang-tools-extra/clangd/CodeComplete.cpp:492-492 | Nothing pushed, nothing kept |
| `Ranking.TopN.Push` | clang-tools-extra/clangd/CodeComplete.cpp:494-512 | The heap holds min(N, count) of what was pushed, nothing discarded beats anything kept, and a drop is reported exactly when more than N were pushed |
| `Ranking.TopN.Items` | clang-tools-extra/clangd/CodeComplete.cpp:514-519 | The kept candidates, best to worst |
| `Ranking.CanBeRanked` | clang-tools-extra/clangd/CodeComplete.cpp:516-516 | Every collection of candidates has a ranking |
| `Ranking.KeptIsTheSortedPrefix` | clang-tools-extra/clangd/CodeComplete.cpp:486-519 | What is kept has, place by place, the score and name that sorting all candidates puts there |
| `Ranking.RankingIsUnique` | clang-tools-extra/clangd/CodeComplete.cpp:522-526 | Two rankings of the same candidates agree in score and name at every place |
| `Ranking.MergeResults` | clang-tools-extra/clangd/CodeComplete.cpp:880-933 | The result agrees in score and name at every place with the first N of all candidates sorted, and is incomplete exactly when there were more than N (0 means no limit) |
| `Ranking.RankedItemsAreInSortTextOrder` | clang-tools-extra/clangd/CodeComplete.cpp:287-287 | Sorting the returned items by sort text changes nothing |
| `SymbolTokens.Tokenize` | clang-tools-extra/include-fixer/FuzzySymbolIndex.cpp:67-116 | The state machine with its one character of backtracking yields the tokens that looking ahead defines |
| `SymbolTokens.PendingIsToken` | clang-tools-extra/include-fixer/FuzzySymbolIndex.cpp:80-112 | What is pending in a state is the next token exactly when the next character does not extend it |
| `SymbolTokens.TokensConserveText` | clang-tools-extra/include-fixer/FuzzySymbolIndex.h:42-46 | Joined tokens are the lower-cased alphanumeric characters of the text, in order |
| `SymbolTokens.TokensAreShapedSlices` | clang-tools-extra/include-fixer/FuzzySymbolIndex.cpp:45-52 | Every token is the lower-case form of a non-empty digit run, upper-case run, or lower-case run that a capital may start |
| `SymbolTokens.TokensAreTokens` | clang-tools-extra/include-fixer/FuzzySymbolIndex.cpp:45-52 | Every token is non-empty, and all digits or all lower-case letters |
| `SymbolTokens.TokensAreStable` | clang-tools-extra/include-fixer/FuzzySymbolIndex.cpp:21-28 | Tokenising the space-joined tokens of a text gives the same tokens |
| `SymbolTokens.TokensAreWords` | clang-tools-extra/include-fixer/FuzzySymbolIndex.cpp:67-116 | The tokens are the stretches between divisions, in lower case: a division lies where digits meet letters, where a capital follows a small letter, and before the last of several capitals that a small letter follows |
| `SymbolTokens.TokensOfFooBar` | clang-tools-extra/include-fixer/FuzzySymbolIndex.cpp:86-88 | The tokens of FOOBar are foo and bar |
| `SymbolQueries.QueryRegexp` | clang-tools-extra/include-fixer/FuzzySymbolIndex.cpp:118-131 | The loops write the notation of the pattern for the query tokens |
| `SymbolQueries.PatternIsFit` | clang-tools-extra/include-fixer/FuzzySymbolIndex.cpp:118-131 | What is left of a pattern matches what is left of a symbol exactly when the rest of the query fits there |
| `SymbolQueries.FindsIsFit` | clang-tools-extra/include-fixer/FuzzySymbolIndex.h:24-28 | Fitting step by step is the same as a cut of the query tokens into pieces |
| `SymbolQueries.RegexpMeansPrefixes` | clang-tools-extra/include-fixer/FuzzySymbolIndex.h:24-28 | The anchored regexp matches a tokenised symbol if and only if the query tokens can be cut into non-empty prefixes of consecutive symbol tokens, from the first, using each once |
| `SymbolQueries.OwnNameFinds` | clang-tools-extra/include-fixer/FuzzySymbolIndex.cpp:21-38 | Every symbol is found by its own name |
| `PosixRegex.NotationIsRead` | clang-tools-extra/include-fixer/FuzzySymbolIndex.cpp:118-131 | A reader of POSIX notation gets back every pattern from its text, groups included |
| `PosixRegex.WrittenPatternMatches` | clang-tools-extra/include-fixer/FuzzySymbolIndex.cpp:30-36 | The compiled text of a pattern after ^ matches what the pattern matches |
| `SymbolQueries.PatternOfFeF` | clang-tools-extra/include-fixer/FuzzySymbolIndex.h:47-49 | The query tokens fe and f make f([[:alnum:]]* )?e[[:alnum:]]* f |
| `SymbolQueries.MemSymbolIndex.constructor` | clang-tools-extra/include-fixer/FuzzySymbolIndex.cpp:21-28 | Every symbol is stored with its joined tokens |
| `SymbolQueries.MemSymbolIndex.Search` | clang-tools-extra/include-fixer/FuzzySymbolIndex.cpp:30-38 | A search returns, in order, exactly the symbols that the query finds |
| `HelperGraph.HelperDeclRefGraph.GetOrInsertNode` | clang-tools-extra/clang-move/HelperDeclRefGraph.cpp:57-65 | One node per canonical declaration; an existing one is kept with its callees |
| `HelperGraph.HelperDeclRefGraph.AddEdge` | clang-tools-extra/clang-move/HelperDeclRefGraph.cpp:39-54 | Nothing for a declaration referring to itself; otherwise the edge between the canonical nodes is recorded |
| `HelperGraph.EdgesAreRecorded` | clang-tools-extra/clang-move/HelperDeclRefGraph.cpp:39-54 | Exactly the given edge is new, and no recorded edge is lost |
| `HelperGraph.HelperDeclRefGraph.VisitNode` | clang-tools-extra/clang-move/HelperDeclRefGraph.cpp:78-85 | The visit terminates on cyclic graphs; everything newly visited has all its callees visited and nothing unreachable is added |
| `HelperGraph.HelperDeclRefGraph.GetReachableNodes` | clang-tools-extra/clang-move/HelperDeclRefGraph.cpp:72-89 | The least callee-closed set with the node of the root; empty if it has none |
| `HelperGraph.ClosureIsWhatPathsReach` | clang-tools-extra/clang-move/HelperDeclRefGraph.cpp:72-89 | That set is exactly what walks along recorded edges from the root reach |
| `DeclMoves.GetUsedDecls` | clang-tools-extra/clang-move/ClangMove.cpp:458-475 | Exactly the declarations that some given declaration refers to, directly or through others |
| `DeclMoves.ClangMoveTool.MoveDecl` | clang-tools-extra/clang-move/ClangMove.cpp:147-151 | A declaration asked for is moved and removed, and no longer counts as remaining in the old header |
| `DeclMoves.ClangMoveTool.AddHelper` | clang-tools-extra/clang-move/ClangMove.cpp:674-677 | A helper is a candidate for moving, and not removed yet |
| `DeclMoves.ClangMoveTool.MoveDeclsToNewFiles` | clang-tools-extra/clang-move/ClangMove.cpp:795-821 | new.h gets the moved declarations that are in the old header, new.cc the others, helpers only if a removed declaration uses them, each in order |
| `DeclMoves.ClangMoveTool.RemoveDeclsInOldFiles` | clang-tools-extra/clang-move/ClangMove.cpp:717-742 | old.cc loses, besides what was moved, the helpers that nothing left in the old header uses; none without an old header |
| `DeclMoves.NewCCIsClosedIff` | clang-tools-extra/clang-move/ClangMove.cpp:808-821 | A helper that a moved declaration or a moved helper refers to goes along if and only if the outermost declaration around it is canonical |
| `DeclMoves.OldCCIsClosedIff` | clang-tools-extra/clang-move/ClangMove.cpp:722-742 | A helper that a remaining declaration or a remaining helper refers to stays if and only if the same holds |
| `DeclMoves.NewHeaderKeepsOrder` | clang-tools-extra/clang-move/ClangMove.cpp:798-804 | new.h gets exactly the moved declarations of the old header, in their order |
| `DeclMoves.NewCCKeepsOrder` | clang-tools-extra/clang-move/ClangMove.cpp:809-821 | new.cc gets exactly the others without unused helpers, in their order |
| `DeclMoves.UnusedKeepsOrder` | clang-tools-extra/clang-move/ClangMove.cpp:732-740 | The unused helpers are deleted in the order they were found |
| `DeclMoves.ForwardDeclaredHelperIsLeftBehind` | clang-tools-extra/clang-move/ClangMove.cpp:813-816 | A static method of a helper class that was declared before its definition is left behind although a moved function calls it: the looked-up declaration is not canonicalised again |
| `DeclMoves.ForwardDeclaredHelperIsDeleted` | clang-tools-extra/clang-move/ClangMove.cpp:732-740 | Likewise such a method is deleted from old.cc although a function that stays in the old header calls it |
| `NamespaceEmitter.CommonPrefix` | clang-tools-extra/clang-move/ClangMove.cpp:402-411 | The longest common beginning of two lists of namespaces |
| `NamespaceEmitter.CreateInsertedReplacements` | clang-tools-extra/clang-move/ClangMove.cpp:394-450 | The emitted pieces nest, every declaration is emitted in order inside exactly its own namespaces with the shortest transitions, and nothing is left open |
| `NamespaceEmitter.TransitionsAreShort` | clang-tools-extra/clang-move/ClangMove.cpp:394-450 | Neighbours in one namespace are grouped with an empty line between them; otherwise no namespace common to both is closed, and empty lines follow closing pieces and precede declarations for which nothing is opened |
| `Framing.InputStream.GetLine` | clang-tools-extra/clangd/JSONRPCDispatcher.cpp:166-167 | Up to a newline, which is consumed, or to the end of input, after which the stream is no longer good |
| `Framing.InputStream.Ignore` | clang-tools-extra/clangd/JSONRPCDispatcher.cpp:217-217 | At most the given number of characters is skipped, as a signed count |
| `Framing.InputStream.Read` | clang-tools-extra/clangd/JSONRPCDispatcher.cpp:226-238 | Exactly the given number of characters, or the stream fails |
| `Framing.ReadHeaderBlock` | clang-tools-extra/clangd/JSONRPCDispatcher.cpp:165-212 | Headers are read in any order up to an empty line; comments and other headers are ignored |
| `Framing.RunLanguageServerLoop` | clang-tools-extra/clangd/JSONRPCDispatcher.cpp:158-264 | The loop computes the events of the session: oversized messages skipped, truncated input ending it, malformed JSON reported, until the server is done |
| `Framing.JSONOutput.WriteMessage` | clang-tools-extra/clangd/JSONRPCDispatcher.cpp:28-45 | The header with the exact length and the printed message are appended |
| `Framing.LengthIsRead` | clang-tools-extra/clangd/JSONRPCDispatcher.cpp:202-202 | The decimal length is read back with an automatic radix |
| `Framing.FrameHeadersAreRead` | clang-tools-extra/clangd/JSONRPCDispatcher.cpp:43-43 | The header of a frame is read back with its length, leaving the payload |
| `Framing.FramesAreServed` | clang-tools-extra/clangd/JSONRPCDispatcher.cpp:158-264 | From any sequence of frames with 1 to 2^30 bytes of payload, exactly those payloads are recovered, in order, until the server is done |
| `Framing.MessagesArriveIntact` | clang-tools-extra/clangd/JSONRPCDispatcher.cpp:28-264 | Messages written in either layout are dispatched as the same expressions, in order, until the server is done |
| `Sessions.NumeralIsRead` | clang-tools-extra/clangd/JSONRPCDispatcher.cpp:202-202 | A length below 2^64 is read in decimal, hexadecimal, binary and both octal notations, with letters of either case |
| `Sessions.HeadersAreRead` | clang-tools-extra/clangd/JSONRPCDispatcher.cpp:165-212 | Any block of comments, other headers and lengths, in any order and with any blanks, is read up to its blank line, the last length counting |
| `Sessions.SessionsAreAnswered` | clang-tools-extra/clangd/JSONRPCDispatcher.cpp:158-264 | Over sessions with any headers exactly the payloads of 1 byte to 2^30 are dispatched, in order, until the server is done: larger ones are skipped, missing and zero lengths dispatch nothing, and a message cut short ends the session |

## Left out

- Clang's AST, Sema, preprocessor and source manager; building preambles and ASTs; the AST callback and logging.
- `ClangdScheduler` destruction with queued work, concurrent clients, and running synchronously without workers.
- The scheduler's own condition variable: a worker may take whenever the queue is not empty. A worker sleeps there only on
  an empty queue, and every push wakes one.
- The choice of the compile command (`getLastCommand` reuse, compilation database): it is a free parameter of a request.
- The nodes of the helper graph are identified with their canonical declarations, since the graph owns exactly one node for
  each; pointer identity of nodes is not modelled.
- Functions defined only in old.cc and absent from the old header are no roots of the helper closure; nothing is claimed
  about them. Creating replacements and cleaning up around them is left out.
- In the namespace emitter: include lines, header guards and the text of declarations.
- Computing candidate scores and merging Sema with index results: candidates come with their final scores. The heap
  algorithms are the standard library's; they are written out here as textbook sifting with the standard's contracts.
- Formatting, dumping and debug output other than the annotated word of `dumpLast`; the mirrored input and logs of the
  message loop, and its retry after an interrupted system call.
- JSON as a C++ value (moves, destructors, the distinction of owned and borrowed strings); equality of numbers is that of
  their opaque values.
- Regular expressions beyond the three forms that queries use: the reader of patterns knows literals, `[[:alnum:]]*` and
  optional groups.
- `FileURI`, position conversion, contexts, `mergeWith`, query parsing, modularize and the Python scripts.
- JsonRoundTrip.RoundTrip: assumes of each number that its own text is read back as that number.
- JsonRoundTrip.PrintedParses: assumes the same of each number.
- JsonRoundTrip.PrintingIsInjective: assumes the same of each number.
- JsonRoundTrip.ReprintingIsStable: assumes the same of each number of the parsed document.
- Framing.MessagesArriveIntact: assumes the same of each number in a message.
- FuzzyMatch.FuzzyMatcher.DumpLast: the annotated word is modelled, the lines written to the debug stream are not.
- Ranking.MergeResults: starts from the candidates that matched, with their scores; pairing Sema with index results and an
  incompleteness reported by the index are not modelled.
- DeclMoves.ClangMoveTool.MoveDeclsToNewFiles: decides which declarations go where; writing the new files is not modelled
  here, and their namespaces are in `NamespaceEmitter.dfy`.
- DeclMoves.ClangMoveTool.RemoveDeclsInOldFiles: decides what is removed; replacements and cleanup are not modelled.
- NamespaceEmitter.CreateInsertedReplacements: include lines, the header guard and the text of declarations are not modelled.
- Framing.ReadHeaderBlock: no system call is interrupted, and the mirror of the input is not modelled.
- Framing.RunLanguageServerLoop: likewise; logging is not modelled either.
- JsonParser.Parser.Word: the source chains comparisons with `&&` where the model loops over the expected bytes.
- SymbolQueries.MemSymbolIndex.Search: reads the pattern it has written and decides a match by what the pattern means,
  instead of by a regexp engine.
- ConflictingFixes.Sort: insertion instead of `std::sort`; as no two events are tied, the outcome is the same.
- Sessions.NumeralIsRead: lengths of 2^64 and more, of which the source keeps what it read before noticing, are not covered.
- ServerTables.DiagnosticsReporter.Publish: a publication carries, besides what the consumer gets, the request it comes from.
- Framing.InputStream.Ignore: whether a stream that ends exactly after the skipped characters is already at its end is left
  to the next read, as the standard has it.

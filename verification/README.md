# Verified model of the decision core

Dafny 4.11 model and proofs of the stateful and arithmetic core of the research backend. `dafny verify dfyconfig.toml` checks everything.

| component | files |
|---|---|
| Literal-arithmetic checker of report drafts: tokenizer, parser, units, exact values, verdicts, scanner | `Numerals`, `Options`, `Expressions`, `EquationTokens`, `EquationParser`, `EquationPrinting`, `EquationMinimality`, `EquationVerdict`, `EquationLimits`, `EquationRatios`, `EquationSpacing`, `EquationDisplays`, `EquationRatioTexts`, `EquationSeparatedSign`, `EquationFractions`, `EquationIntegers`, `EquationRounding`, `EquationUnits`, `EquationScanner`, `ScannerPositions` |
| Re-entry lineage: set validation, cycle search, ancestor and descendant projections | `TimelineSort`, `CycleSearch`, `LineageRecords`, `LineageLines`, `LineageProjections`, `LineageInputOrder` |
| Campaign lifecycle and the closing time derived from its history | `CampaignStore`, `CampaignRuns`, `CampaignPaths`, `CampaignClosing` |
| First initialisation of a store by competing processes | `StoreInitialization` |
| Cache with expiry and LRU eviction, and shared fetches | `TtlCache`, `CacheRetention`, `SingleFlight`, `SharedFetches`, `UninterruptedCalls` |
| All-or-nothing market snapshot | `MarketSnapshot` |
| Append-only announcement groups | `AnnouncementGroups`, `AnnouncementAdmission` |
| Revision locks of the AI credential and of alert rules | `CredentialRevisions`, `AlertRules` |
| Deadline-bounded worker join | `WorkerJoin` |
| Position size, risk-reward gate and action envelope | `RiskSizing`, `ActionEnvelope` |

Code that updates state is a class or a method, proved against a function of the old state (`Parser`, `Search`, `Descent`, `Store`, `Cache`, `Groups`, `Credentials`, `RuleStore`); concurrent protocols are step functions over a world, and their theorems quantify over every list of steps by any number of threads or processes. Times are numbers, a transaction or a locked call is one step, and the clock is whatever the run says.

Seven things the proofs show that the code or its comments do not say:

- The operand limit of the parser can never be the check that rejects an equation: the operation limit is always reached first (`OperandLimitNeverRejects`).
- A ratio shown as percents gets the verdict of the plain ratio, except when white space separates a sign on the left side from its number, as after the hyphen of a list item: `- 1/2×100=-50%` is an ambiguous percentage, `- 1/2=-50%` is consistent (`RatioDisplaysAgree`, `SpaceAfterSignMatters`).
- The comment above the lineage projections calls them independent of the input order. Ancestors are. Descendants are exactly when no two of them share creation time and lineage identifier; the set validation admits records that do (`DescendantsAreOrderFree`, `TiesAreAccepted`).
- The risk-reward gate compares the displayed ratio, so it admits true ratios down to half a displayed unit below the gate (`GateMetExactly`, `GateAdmitsSlightlyLess`).
- While other positions are held, a purchase is allowed only as long as the cash does not cover the whole risk-allowed position: more cash takes it away although every gate still passes (`BuyingBesidesPositions`, `MoreCashForbidsBuying`, with the concrete candidate of `LessCashBuysMore`).
- A shared fetch begins for a cached key exactly when someone wrote the key directly between the thread's lookup and its decision and it was not evicted since (`FetchOnlyWhatIsMissing`, `DirectWriteIsOvertaken`).
- Lookups count as uses of the cache: a value stays as long as fewer than `cap` other keys are used, not only written, after its own last use (`RecentlyUsedStays`, `ReadsProtectOthers`).

## Model

| member | source | states |
|---|---|---|
| Expressions.UnitSoundness | backend/ai_answer_quality.py:184-229 | An expression whose unit is inferred evaluates to that unit or fails only on a zero divisor or a size limit; one whose unit is not inferred never evaluates |
| Expressions.UnitChange | backend/ai_answer_quality.py:184-229 | Multiplying every literal of one unit by a nonzero factor multiplies results of that unit by it, leaves results of other units alone, and keeps definedness |
| EquationUnits.KindsArePowers | backend/ai_answer_quality.py:184-205 | A unit is inferred if and only if the powers of 元, 股 and bare magnitudes, added by products, subtracted by quotients and equal in sums, are those of one unit or none at every step; the inferred unit is that one, percentages included |
| EquationUnits.LeftSideSearches | backend/ai_answer_quality.py:232-250 | The search for a displayed 100 succeeds if and only if some place outside every divisor holds a product with a bare 100 as a factor; the search for a percentage if and only if some place holds one |
| EquationFractions.EvaluatesToFraction | backend/ai_answer_quality.py:208-229 | Computed with integers by cross-multiplication, the value of a left side whose units fit is the evaluated one, and it divides by zero exactly when the evaluation does |
| EquationFractions.ReportedIsFraction | backend/ai_answer_quality.py:208-229 | Whatever the size limits are, a value that passes them is that fraction |
| EquationTokens.Tokenize | backend/ai_answer_quality.py:74-91 | The tokenizing loop computes the specified token list or the specified rejection |
| EquationTokens.LexFaithful | backend/ai_answer_quality.py:74-91 | A tokenized text is exactly the texts of its tokens, up to white space, and there are at most 64 |
| EquationTokens.LexText | backend/ai_answer_quality.py:39-39 | Token lists without two neighbours that would merge are read back from their own text |
| EquationParser.Parser.SignedQuantity | backend/ai_answer_quality.py:111-133 | The quantity reader leaves position and operand counter as specified, with its rejections |
| EquationParser.Parser.Atom | backend/ai_answer_quality.py:135-148 | Sign and parentheses with the depth limit: tree, position and counters as specified |
| EquationParser.Parser.Product | backend/ai_answer_quality.py:155-161 | The left-associating loop over multiplication and division, counters included |
| EquationParser.Parser.Sum | backend/ai_answer_quality.py:163-169 | The left-associating loop over addition and subtraction, counters included |
| EquationPrinting.RoundTrip | backend/ai_answer_quality.py:94-169 | The print of a tree parses back to exactly that tree with counters equal to its leaves and binary nodes, if and only if it keeps the depth and operation limits |
| EquationMinimality.PrintIsMinimal | backend/ai_answer_quality.py:94-169 | Of all token lists that are read as a given tree none is shorter than its print and none nests less deeply, so the print is minimally parenthesised |
| EquationMinimality.PrintPeak | backend/ai_answer_quality.py:135-148 | The nesting that the depth limit is compared with is the largest number of parentheses open at once |
| EquationPrinting.AcceptedIsReprintable | backend/ai_answer_quality.py:94-169 | Whatever the parser accepts is a tree within the limits whose print parses to the same tree |
| EquationPrinting.TextRoundTrip | backend/ai_answer_quality.py:74-169 | The same round trip through characters: print, write as text, tokenize, parse |
| EquationPrinting.OperandLimitNeverRejects | backend/ai_answer_quality.py:18-20 | No equation is rejected by the operand limit |
| EquationVerdict.CheckCandidate | backend/ai_answer_quality.py:270-317 | The whole check of one candidate, in order: size, tokens, relation count, parse, units, display convention, value, comparison |
| EquationVerdict.ExactVerdict | backend/ai_answer_quality.py:253-311 | With an equality sign, or with a stated decimal, the comparison holds if and only if no multiple of the last displayed place is nearer to the exact value than the stated number |
| EquationVerdict.ApproximateVerdict | backend/ai_answer_quality.py:253-267 | With "≈" and an integer: accepted if and only if nearest at the place of its last nonzero digit and within the larger of 5% and one half |
| EquationVerdict.ApproximationIsWeaker | backend/ai_answer_quality.py:253-267 | "≈" accepts everything an equality sign accepts |
| EquationVerdict.VerdictMeaning | backend/ai_answer_quality.py:288-311 | A verdict that compares means that the left side has an exact value in a fitting unit; it is consistent if and only if the comparison accepts that value, and it reports value, tolerance and unit |
| EquationVerdict.ComparedText | backend/ai_answer_quality.py:270-311 | From text to rounding: a text that is compared is, up to white space, one whole equation, and it is consistent if and only if the exact value of its left side rounds to the stated number |
| EquationRounding.ComparedInIntegers | backend/ai_answer_quality.py:253-311 | For every compared text the recomputed value is the fraction of the left side in the stated unit, the tolerance half of the last stated place (with "≈" and an integer: of its last nonzero place, at most a twentieth or one half), and it is consistent if and only if the two, cross-multiplied with the stated digits, are within that tolerance |
| EquationUnits.WholeEquationAnswered | backend/ai_answer_quality.py:270-317 | Which answer a text that is one whole equation gets: a unit rejection exactly when the powers differ, an ambiguous percentage exactly when a 100 is displayed without recognition, otherwise a comparison or a division by zero as the fraction says, or a size rejection, which never occurs without limits |
| EquationIntegers.IntegerEquation | backend/ai_answer_quality.py:270-317 | Any text, spaced in any way, that is read as an operation on two signed integers of up to 18 digits and a stated one gets the answer of integer arithmetic under the checker's own limits, with the exact recomputed value |
| EquationIntegers.IntegersAreChecked | backend/ai_answer_quality.py:270-317 | For all integers of up to 18 digits written out with any of the seven operator characters: consistent if and only if the integers satisfy the equation (a quotient: if the stated integer is a nearest one), undefined if and only if the divisor is zero |
| EquationIntegers.FourOperations | backend/ai_answer_quality.py:208-229 | The same with the characters written out: a+b=c, a-b=c and a×b=c are consistent if and only if they hold, and a/b=c with b > 0 if and only if 2·abs(a - c·b) is at most b |
| EquationLimits.LowestTermsDecide | backend/ai_answer_quality.py:172-175 | A number passes the bit limit if and only if numerator and denominator in lowest terms have bit lengths of at most 4096 |
| EquationLimits.MagnitudeIsRoundedExponent | backend/ai_answer_quality.py:178-181 | The magnitude check is about the value rounded to 512 digits, halves to even: it passes if and only if the decimal exponent of the rounded value is from -128 to 128 |
| EquationLimits.QuotientsPass | backend/ai_answer_quality.py:172-181 | Every quotient of integers up to 10^128 passes the bit limit and the magnitude limit, rounding to 512 digits included |
| EquationRatios.SameVerdict | backend/ai_answer_quality.py:35-38 | The tokens of A/B×100=X%, recognised as the older display, and of A/B=X% get the same verdict for all signs, numbers and operator variants, under any limits that admit the fractions involved |
| EquationDisplays.DisplayNeedsAttachedSigns | backend/ai_answer_quality.py:34-38 | However a multiplied ratio is spaced, the display pattern recognises it if and only if no white space separates a sign from its number |
| EquationDisplays.DisplayExactly | backend/ai_answer_quality.py:34-38 | A text is recognised as the older display if and only if it starts without white space, is read as a ratio times 100, and separates no sign from its number |
| EquationSpacing.LeftTextLexes | backend/ai_answer_quality.py:293-294 | What is cut out before the relation is read as exactly the tokens before the relation, whatever the spacing |
| EquationRatioTexts.RatioDisplaysAgree | backend/ai_answer_quality.py:270-311 | For all texts, spaced in any way, with the tokens of the two displays, under the checker's own limits: within the size limit they get the same verdict if and only if no sign on the left side of the multiplied one is separated from its number; otherwise that one is ambiguous and the other is not; a text over 512 characters is refused alone |
| EquationRatioTexts.UnspacedDisplaysAgree | backend/ai_answer_quality.py:270-311 | Without white space the two displays always get the same verdict |
| EquationSeparatedSign.SpaceAfterSignMatters | backend/ai_answer_quality.py:34-38 | One space after a sign: `- 1/2×100=-50%` is ambiguous while `- 1/2=-50%` is consistent |
| EquationScanner.Diagnostics | backend/ai_answer_quality.py:359-391 | The scanning loop gives one diagnostic for each maximal run with a relation sign, in order |
| EquationScanner.DiagnoseRun | backend/ai_answer_quality.py:365-390 | Size, boundary, label and quotation handling of one run |
| EquationScanner.OneDiagnosticPerRun | backend/ai_answer_quality.py:364-367 | The diagnostics are exactly one for each maximal run with a relation sign, in text order |
| EquationScanner.ScannerSound | backend/ai_answer_quality.py:359-391 | Each diagnostic's text is the text at its span, inside a maximal run |
| EquationScanner.ScannerOrdered | backend/ai_answer_quality.py:359-391 | Spans are disjoint and increasing |
| EquationScanner.ScannerComplete | backend/ai_answer_quality.py:359-391 | Every relation sign of the text lies in some diagnostic's span |
| EquationScanner.UnsafeRunUnsupported | backend/ai_answer_quality.py:373-390 | A run without safe boundaries is unsupported as a whole: no part of it is salvaged |
| ScannerPositions.RunDiagnosed | backend/ai_answer_quality.py:327-391 | What the diagnostic of any maximal run with a relation sign says, by the characters at its positions: the white space trimmed, a label within 80 characters before it and its colon, one pair of quotes, and the reader's verdict on the quoted text if and only if the characters before and after the run are absent, a stop, a semicolon or a comma that is not between two digits (or a label precedes) |
| ScannerPositions.GroupedDigitsUnsupported | backend/ai_answer_quality.py:332-339 | A comma between two digits, white space aside, never separates: whatever touches a run beginning after it without a label, or ending before it, is unsupported |
| ScannerPositions.NothingSalvaged | backend/ai_answer_quality.py:373-390 | Where the surroundings of a run do not bound it, every diagnostic that touches it is unsupported |
| ScannerPositions.StandaloneExactly | backend/ai_answer_quality.py:344-356 | A label counts exactly when it and white space fill the text from the start (up to 81 characters) or from a bounding character at most 80 characters back |
| ScannerPositions.ReportBoundaries | backend/ai_answer_quality.py:359-391 | For the reader of reports, within the size limit: refused for its surroundings if and only if they do not bound it, otherwise the verdict on the quoted text |
| EquationScanner.ReportReaderValid | backend/ai_answer_quality.py:25-31 | The alphabet and delimiters of the source meet what the scanner theorems assume |
| TimelineSort.SortSorts | backend/campaign_lineage.py:540-540 | Sorting on (time, identifier) rearranges and orders |
| TimelineSort.SortPrecedes | backend/campaign_lineage.py:731-731 | Sorting keeps the order of elements with equal keys |
| CycleSearch.Search.Visit | backend/campaign_lineage.py:667-675 | The recursive visit raises only on a cycle, and otherwise finishes its node after everything the node points to |
| CycleSearch.FindsCycle | backend/campaign_lineage.py:658-678 | The search raises if and only if the edges contain a cycle |
| LineageRecords.Enter | backend/campaign_lineage.py:573-633 | The first pass with its five dictionaries, comparing timestamp texts, accepts exactly the agreeing record lists, and reports a malformed record exactly when that is the first obstacle |
| LineageRecords.LedgerDecides | backend/campaign_lineage.py:589-633 | The dictionaries clash with a record exactly when the records with it no longer agree |
| LineageRecords.ValidateLineageSet | backend/campaign_lineage.py:562-655 | Accepted if and only if coherent, so the cycle search is never the step that rejects |
| LineageRecords.CoherentIsAcyclic | backend/campaign_lineage.py:617-655 | The checks before the cycle search already exclude every cycle |
| LineageRecords.CoherentInherited | backend/campaign_lineage.py:562-655 | Acceptance survives rearranging the records and leaving some out |
| LineageProjections.Ancestors | backend/campaign_lineage.py:681-707 | On an accepted set never a cycle, and the time-sorted output is the line from the root, each child the next parent |
| LineageProjections.OneAncestry | backend/campaign_lineage.py:681-707 | There is only one such line |
| LineageProjections.Descent.Walk | backend/campaign_lineage.py:722-728 | The recursive walk never meets a record twice and collects the forest below the node in order |
| LineageProjections.Descendants | backend/campaign_lineage.py:710-732 | On an accepted set: every record reachable from the campaign exactly once, none before one that leads to it |
| LineageProjections.ProjectionsAreDual | backend/campaign_lineage.py:681-732 | A record descends from a campaign if and only if that campaign is a parent among the record's ancestors |
| LineageInputOrder.AncestorsIgnoreInputOrder | backend/campaign_lineage.py:559-559 | Rearranged records give the same ancestors |
| LineageInputOrder.DescendantsAreOrderFree | backend/campaign_lineage.py:710-732 | Descendants come out the same for every arrangement of the records if and only if no two of the records below the campaign share creation time and lineage identifier |
| LineageInputOrder.TiesAreAccepted | backend/campaign_lineage.py:559-559 | Two siblings with equal stamps pass the set validation, and their order follows the input |
| CampaignStore.Store.Move | backend/campaign_store.py:867-947 | Compare-and-swap on the status, frozen graph, unique transition identifier; audit row and status change together or not at all |
| CampaignStore.Store.Bind | backend/campaign_store.py:974-1051 | One binding for a campaign, one campaign for a thesis, never replaced |
| CampaignStore.Store.Create | backend/campaign_store.py:733-780 | A duplicate identifier is refused, nothing is overwritten |
| CampaignStore.RanksRise | backend/campaign_store.py:68-77 | Along every replayable log the statuses only advance |
| CampaignPaths.LogsArePaths | backend/campaign_store.py:68-77 | A log replays from DRAFT if and only if each move starts where the one before ended and the statuses visited are one of the thirteen paths of the graph, written out |
| CampaignPaths.RunsFollowPaths | backend/campaign_store.py:867-947 | In every run the log of every campaign is one of them, ending in its status |
| CampaignPaths.EveryPathOccurs | backend/campaign_store.py:867-947 | Each of the thirteen paths is the log of some run |
| CampaignRuns.RunKeepsInvariant | backend/campaign_store.py:867-1051 | The table invariant holds in every world that interleaved commands can reach |
| CampaignRuns.StatusIsReplay | backend/campaign_store.py:867-947 | Status is the replay of the audit log from DRAFT, and no status is left twice, racing requests included |
| CampaignRuns.OneGatedActivation | backend/campaign_service.py:179-373 | ACTIVE, REDUCING or CLOSED if and only if the log holds an activation; it is the only one and it passed the evidence gate, even with a stale status read |
| CampaignRuns.NothingIsRewritten | backend/campaign_store.py:733-1051 | However a run goes on, codes, strategies, creation times, audit rows and bindings stay |
| CampaignRuns.BindingsAreOneToOne | backend/campaign_service.py:400-496 | Bindings carry the campaign's own strategy in spite of the earlier read, and are injective |
| CampaignRuns.ActivationHadEvidence | backend/campaign_service.py:261-373 | Every activation in a log was asked for with evidence, after the campaign was read in PRE-ENTRY |
| CampaignRuns.ActivatesExactly | backend/campaign_service.py:261-373 | A read followed at once by an activation changes the campaign exactly from PRE-ENTRY, with evidence and a new identifier, and adds that one audit row |
| CampaignRuns.BindingComesFromAThesis | backend/campaign_service.py:400-496 | Every binding was made from a frozen, unarchived stock thesis with the campaign's own code and strategy and a positive revision, and records it |
| CampaignRuns.BindsExactly | backend/campaign_service.py:400-496 | In every reachable world a read followed at once by a binding binds if and only if the thesis is such a one, the campaign is unbound and nobody has the thesis; otherwise nothing changes |
| CampaignRuns.RequestTransition | backend/campaign_service.py:179-197 | The plain command never activates and otherwise is the store's move |
| CampaignRuns.ActivateFromTrade | backend/campaign_service.py:261-373 | Activation succeeds exactly with evidence and an admissible move |
| CampaignClosing.DeriveParentClosedAt | backend/campaign_lineage.py:493-555 | The two loops and the sort compute the closing move of a clean, connected, allowed history ending in CLOSED, or nothing |
| CampaignClosing.DerivationIgnoresOrder | backend/campaign_lineage.py:493-540 | Any arrangement of the entries derives the same answer |
| CampaignClosing.DerivedMeans | backend/campaign_lineage.py:493-555 | On any entries whatever: a time is derived if and only if they are clean and have an arrangement with increasing (time, identifier) in which the moves connect, are allowed and end in CLOSED; it is the time of the last one |
| CampaignClosing.DerivedExactly | backend/campaign_lineage.py:540-555 | On a store history: a time is derived if and only if the campaign is CLOSED and (time, identifier) increases along the recorded moves; it is then the time of the move to CLOSED |
| CampaignClosing.ClosingOfARun | backend/campaign_lineage.py:493-555 | The same for every run of the commands under any clock and every order of the rows |
| StoreInitialization.OneInitialiser | backend/alert_rule_store.py:372-457 | From a missing file at most one process executes schema statements, it is the one that created the file, and each statement runs once and in order |
| StoreInitialization.OnlyWholeSchemas | backend/alert_rule_store.py:395-457 | Only an empty file or the full schema is ever committed, and every opened connection saw the full schema |
| StoreInitialization.OneAtATime | backend/alert_rule_store.py:417-440 | Inspecting and initialising exclude each other by the write lock |
| StoreInitialization.DeadMakerMeansNever | backend/alert_rule_store.py:372-450 | If the creator stops before its commit, nobody ever initialises or opens the file |
| StoreInitialization.ExistingFileIsNeverWritten | backend/campaign_store.py:593-654 | A file that was there before is never written, whatever it holds, and is opened only with the full schema |
| StoreInitialization.CommittedSchemaOpens | backend/alert_rule_store.py:423-427 | Once committed, the schema stays and every later inspection opens |
| StoreInitialization.ExpiredOnlyOnce | backend/alert_rule_store.py:409-445 | The wait is bounded: in every run only the last inspection of a process can come after its time has expired, and after it the process never waits again |
| StoreInitialization.FailFastNeverWaits | backend/campaign_store.py:598-640 | In the store that fails fast, a process that saw the file at its first look inspects it once at most, in every run |
| StoreInitialization.WaitersFate | backend/alert_rule_store.py:423-445 | A waiter whose time has expired has opened the store for good if someone had opened it by then, and has stopped for good otherwise |
| StoreInitialization.CommitEndsTheWait | backend/alert_rule_store.py:409-440 | Once the maker has committed, every later inspection by any process opens the full schema |
| StoreInitialization.MakerCanFinish | backend/alert_rule_store.py:430-440 | In every reachable world a maker that holds the write lock can go on alone and ends with the full schema committed and opened, whatever the clock says |
| StoreInitialization.AloneOpens | backend/alert_rule_store.py:395-440 | A process that runs alone on a missing file creates it, initialises it and opens the full schema |
| StoreInitialization.WaiterSucceeds | backend/alert_rule_store.py:409-445 | A waiter in time gives the lock back, lets the maker finish, and then opens the full schema |
| StoreInitialization.StoppingReleases | backend/alert_rule_store.py:446-457 | A process that stops, by error or by crash, gives the write lock back and leaves the file as it was |
| StoreInitialization.ForeignFileStops | backend/alert_rule_store.py:423-430 | On a file that holds anything but nothing or the full schema every inspection stops and frees the lock |
| StoreInitialization.EmptyFileStaysEmpty | backend/campaign_store.py:611-654 | On an empty file that was there before nobody initialises: an inspection stops when its time has expired, or at once in the store that fails fast if the file was seen, and otherwise waits with the lock free |
| TtlCache.Cache.Get | backend/app.py:2574-2584 | A hit younger than its time to live moves to the recent end; an expired entry is deleted |
| TtlCache.Cache.Set | backend/app.py:2586-2592 | The new value is the most recent entry, and the oldest ones go until the rest fits |
| TtlCache.MoreRoomNeverHurts | backend/app.py:2564-2592 | After any trace the smaller cache holds an order-preserving part of the larger one, within its cap, and its hits hit in the larger one with the same value |
| TtlCache.HitsAreLastAndYoung | backend/app.py:2574-2592 | A hit returns the last value given for the key, younger than the allowed age |
| CacheRetention.RecentlyUsedStays | backend/app.py:2574-2592 | A key written stays in the cache as long as fewer than cap other keys are used after its last use and no lookup finds it expired |
| CacheRetention.WrittenIsHit | backend/app.py:2574-2592 | So a lookup within the age hits, with the value last written |
| CacheRetention.ReadsProtectOthers | backend/app.py:2574-2592 | Lookups count as uses: a concrete trace in which fewer than cap other keys are written and the key is gone all the same |
| SingleFlight.OneFetchPerKey | backend/app.py:2594-2623 | In every interleaving at most one fetch for a key is running |
| SingleFlight.FetchOnlyWhatIsMissing | backend/app.py:2601-2609 | A new fetch begins only when no flight for its key is there to join; its key is cached at that very moment if and only if a direct set of the key came between lookup and decision and the key has stayed in the cache since |
| SingleFlight.DirectWriteIsOvertaken | backend/app.py:2601-2609 | A run in which that exception occurs: the fetch begins although a get would hit |
| SingleFlight.WaitersGetTheOwnersOutcome | backend/app.py:2610-2620 | A waiter answered by its flight waits for the key its owner fetched, and gets exactly the value or error its owner got |
| SingleFlight.OutcomesAreFinal | backend/app.py:2612-2619 | What a flight delivers is decided once |
| SingleFlight.OnlyFetchedValuesAreCached | backend/app.py:2586-2619 | Failures are never cached: each entry holds a value that some thread fetched for its key or that a direct set wrote at the entry's time |
| SharedFetches.SuccessIsShared | backend/app.py:2601-2623 | In every run, after a fetched value was stored and while the key is undisturbed, a lookup within the age hits with the last value written, and no thread called later ever fetches the key |
| UninterruptedCalls.CallGoesThrough | backend/app.py:2601-2623 | A call that nobody interrupts ends with the cached value, or waiting for the flight that was there, or with what it fetched: then a value is in the cache, an error is not, the outcome is settled, the flight is gone and the lock free |
| UninterruptedCalls.WaiterIsAnswered | backend/app.py:2610-2611 | A waiter whose flight has an outcome gets it in its next step, and a waiter that gives up is done |
| MarketSnapshot.ReadPages | backend/astock.py:1512-1657 | The page loop with every refusal; a refusal means no number of pages would have shown a whole market |
| MarketSnapshot.ClearExactly | backend/astock.py:1631-1645 | The batch is free of repetitions if and only if no two rows share market and non-empty code, and no two listed ones a code |
| MarketSnapshot.AShareSnapshot | backend/astock.py:1487-1669 | Against any upstream a snapshot is returned if and only if the first pages agree on one total, are complete, mappable and without repetition, in time; it is those rows in page order |
| MarketSnapshot.HonestUpstream | backend/astock.py:1487-1669 | Against a list cut into pages of any size the snapshot is the whole list, exactly when it fits 500 pages with mappable rows and distinct codes |
| AnnouncementGroups.ChecksChain | backend/announcement_groups.py:97-104 | The walk with its growing set accepts exactly the chains that end |
| AnnouncementGroups.Groups.Save | backend/announcement_groups.py:74-151 | Validation, idempotency, expected revision, fixed frame, kept members and disjointness, then one appended revision; refusals are invalid requests or conflicts by the first check that fails |
| AnnouncementGroups.EveryHistoryIsSound | backend/announcement_groups.py:107-151 | In every history groups share no evidence in any revision, revisions are 1, 2, 3 and on, frames are fixed, members and links only added, chains end |
| AnnouncementGroups.ReplayAddsNothing | backend/announcement_groups.py:109-113 | However much later, a repeated request returns its own revision and adds nothing |
| AnnouncementAdmission.SavedExactly | backend/announcement_groups.py:74-151 | After any requests and changes of evidence: a request adds a revision if and only if it is proper (sizes, distinct members, links and no circle of corrections) and acceptable (new identifier, revision count, usable announcement, frame and members of every earlier revision kept, members current and never in another group); it is the next one of its group; a replay answers exactly the saved request; all else changes nothing |
| AnnouncementAdmission.ChainsEndExactly | backend/announcement_groups.py:97-104 | All correction chains end if and only if no members link in a circle |
| CredentialRevisions.RevisionTextRoundTrip | backend/ai_credential_store.py:141-147 | Exactly the canonical text of a number denotes it |
| CredentialRevisions.Credentials.SaveConfig | backend/ai_credential_store.py:207-217 | Save succeeds only on the current revision and moves it by one |
| CredentialRevisions.Credentials.Delete | backend/ai_credential_store.py:220-237 | Clear accepts stale but not future observations, and moves the revision by one |
| CredentialRevisions.RevisionNamesState | backend/ai_credential_store.py:207-237 | Seeing the same revision again means the state is the same |
| CredentialRevisions.ClearDefeatsEarlierSaves | backend/ai_credential_store.py:207-237 | A save that relies on a revision from before a clear never succeeds after it |
| CredentialRevisions.DispatchNeedsUnchangedRecord | backend/ai_credential_store.py:267-281 | What was read is admitted later if and only if nothing changed since |
| CredentialRevisions.DispatchNeedsASave | backend/ai_credential_store.py:207-281 | Starting without a record, as after a clear, a dispatch is admitted if and only if it names configuration and revision of the last successful save and nothing has succeeded since |
| CredentialRevisions.SavesInTurnSucceed | backend/ai_credential_store.py:207-217 | Saves that each quote the revision the one before returned all succeed while revisions are left, and the last one is on file |
| AlertRules.RuleStore.ReplaceRule | backend/alert_rule_store.py:692-751 | Replacement on the expected revision of a live rule, with a later update time |
| AlertRules.RuleStore.DeleteRule | backend/alert_rule_store.py:754-806 | Soft deletion on the expected revision |
| AlertRules.RuleLife | backend/alert_rule_store.py:670-806 | Under any clock: one revision for each success, update time strictly later with each, creation time fixed, deletion permanent |
| AlertRules.RevisionCountsSuccesses | backend/alert_rule_store.py:573-806 | A rule's revision counts the calls that changed it, creation included |
| AlertRules.EarliestLaterTime | backend/alert_rule_store.py:670-673 | The new update time is the earliest one later than the previous and not before the clock, and is missing exactly when the clock is behind and no tick is left |
| AlertRules.TimestampOrder | backend/alert_rule_store.py:670-673 | Timestamps with digits and separators in the same places compare as texts as the numbers of their digits do |
| WorkerJoin.Assemble | backend/campaign_critical_data_runtime.py:338-365 | One entry for each declared dependency in declared order, with a price evaluation of its own at each occurrence, or the first recorded failure, or else the first entry that raises or names another dependency or date |
| WorkerJoin.EntryTellsTheWorker | backend/campaign_critical_data_runtime.py:295-365 | In every interleaving an entry is the worker's own result if recorded before closing, a timeout if admitted without one, not evaluated if never admitted |
| WorkerJoin.EntryTellsSomeWorker | backend/campaign_critical_data_runtime.py:278-365 | The same for every declared dependency, repeated ones and the inline one included |
| WorkerJoin.LateWorkersChangeNothing | backend/campaign_critical_data_runtime.py:295-342 | After closing no worker changes what the answer is made of |
| WorkerJoin.InTimeMeansComplete | backend/campaign_critical_data_runtime.py:313-342 | Closing before the deadline discards nothing: every worker was admitted and recorded its outcome |
| WorkerJoin.StageTellsTheTime | backend/campaign_critical_data_runtime.py:295-330 | In every interleaving a thread was started before the deadline, admitted before it while the request was open and refused otherwise, and its outcome recorded up to the deadline while open and discarded otherwise |
| WorkerJoin.ErrorsAreFailures | backend/campaign_critical_data_runtime.py:307-343 | The failures that decide the answer are exactly those recorded in time, in the order of recording |
| WorkerJoin.CallerNeverHangs | backend/campaign_critical_data_runtime.py:313-338 | Whatever the workers do, at the deadline the caller closes |
| WorkerJoin.PunctualRunCompletes | backend/campaign_critical_data_runtime.py:295-342 | If no time passes, every worker is started, admitted and recorded and the caller closes with all outcomes |
| RiskSizing.MaxSharesIsTheMost | backend/candidate_opportunity_projection.py:800-805 | Whole lots are within the maximum if and only if their cost fits the cash and their loss down to the invalidation price fits the budget |
| RiskSizing.LossWithinBudget | backend/candidate_opportunity_projection.py:787-805 | Filled anywhere in the entry range, the position loses no more than the budget and costs no more than the cash |
| RiskSizing.BudgetIsNearest | backend/candidate_opportunity_projection.py:802-802 | The budget is 0.75, 1 or 1.25 percent of the capital to the nearest cent |
| RiskSizing.GateMetExactly | backend/candidate_opportunity_projection.py:787-795 | The gate admits a ratio if and only if it is at least 1.49995, 1.99995 or 2.49995, by strategy |
| RiskSizing.GateAdmitsSlightlyLess | backend/candidate_opportunity_projection.py:870-876 | A concrete ratio below the gate that is admitted |
| ActionEnvelope.Ladder | backend/candidate_opportunity_projection.py:840-893 | When the ladder allows buying, and when it asks for research or avoidance |
| ActionEnvelope.Project | backend/candidate_opportunity_projection.py:840-912 | Each buying action is allowed finally if and only if its conditions hold; the chosen action is allowed and is the strongest purchase left |
| ActionEnvelope.NarrowedExactly | backend/candidate_opportunity_projection.py:682-692 | What the capital context takes away, exactly |
| ActionEnvelope.CapitalExactly | backend/candidate_opportunity_projection.py:510-539 | The capital is known if and only if the account is usable and matches, the candidate is valued and the risk-allowed position is worth more than half a cent; it suffices exactly when the cash covers that value to the nearest cent |
| ActionEnvelope.ContextExactly | backend/candidate_opportunity_projection.py:541-575 | When the fit is unknown or supportive and when a replacement is not required, by the facts they depend on |
| ActionEnvelope.WhatBuyingSays | backend/candidate_opportunity_projection.py:497-692 | A purchase implies a board lot within cash and budget, not held, sufficient evidence, usable data, the gate; with other positions only a small one, with constrained capital |
| ActionEnvelope.BuyingBesidesPositions | backend/candidate_opportunity_projection.py:519-692 | With other positions held a purchase is allowed if and only if the gates pass, the cash matches the holdings and falls short of the risk-allowed position, and the incumbents were reviewed |
| ActionEnvelope.MoreCashForbidsBuying | backend/candidate_opportunity_projection.py:519-692 | Such a purchase stays allowed with more cash up to the value of the risk-allowed position, and is taken away beyond although every gate passes |
| ActionEnvelope.LessCashBuysMore | backend/candidate_opportunity_projection.py:519-692 | One candidate that may be bought with 5,000 in cash and not with 20,000 or none |
| ActionEnvelope.PartitionIsExact | backend/candidate_opportunity_projection.py:358-362 | Every action is in exactly one of the two lists |

## Left out

- Expressions.UnitChange: size limits are set aside, because a changed unit may cross them; definedness is compared without them.
- EquationRatios.SameVerdict: takes it as given that the text was recognised and that the limits admit the fractions involved; `RatioDisplaysAgree` settles both for texts and for the checker's own limits.
- EquationVerdict.CheckCandidate: the two size limits are parameters, so that the theorems hold for any; `REPORT_LIMITS` states the checker's own. The reported value is the exact one, before it is rounded to 512 digits.
- EquationScanner.DiagnoseRun: the digit test of the comma rule is a parameter, standing for the Unicode table.
- The older ratio warnings and the audit of a report stream, which only filter and word the diagnostics.
- Regular expressions are modelled by the character classes and the grammar they denote.
- LineageRecords.ValidateLineageSet: the syntax of identifiers, codes, strategies, reasons and timestamps is one predicate and the hash one function, both parameters, and a timestamp text is its instant together with a number for the spelling; the syntax check of the campaign identifier given to a projection is not modelled.
- Building a lineage record from two campaign snapshots, which checks fields one by one.
- CampaignRuns.OneGatedActivation: the evidence read from trades, attribution, decisions and holdings is one Boolean of the step.
- Row syntax checks, list queries and read connections of the stores.
- StoreInitialization.OnlyWholeSchemas: the database is the list of its schema statements, and SQLite's locking and rollback are the atomic steps; time is a Boolean that says whether the wait has expired.
- SingleFlight.OneFetchPerKey: when a wait times out is left open, and it ends only the waiter.
- MarketSnapshot.AShareSnapshot: the digit test on a code is a flag of the row, standing for the Unicode table; hosts, retries, status codes and body syntax are one failed reply, and so is a deadline passed before a page; numeric columns are one opaque value.
- AnnouncementGroups.Groups.Save: a request stands for its digest, with what stripping removes kept as one number; a kept member with an absent link and one with an empty link are the same.
- CredentialRevisions.Credentials.SaveConfig: the payload check is a Boolean; corrupted or unsafe records found on disk are not modelled.
- AlertRules.RuleStore.ReplaceRule: rule contents are opaque and the timestamp format is a number of ticks.
- WorkerJoin.EntryTellsTheWorker: capability errors caught inside an evaluation count as results; unknown dependency identifiers, refused before any worker starts, are not modelled.
- RiskSizing.MaxSharesIsTheMost: exact real arithmetic in place of floating point.
- ActionEnvelope.Project: the incumbent review is one of four answers, and the lists of reasons and conditions are not modelled.
- Network providers, HTTP routes, model calls, wording and redaction.

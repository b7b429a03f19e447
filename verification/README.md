# Decision engines of the research publisher: a Dafny model

The repository builds public research reports: a Top20 of supply-chain bottleneck companies, option
observations, an identity directory of listings, and the evidence bundle behind a report. Most of its
code fetches and checks data. This project models the parts that decide: what is selected, indexed,
scheduled, owned, admitted or bounded. Each module stands for one source file or engine; its methods
follow the loops of the code, and the lemmas say what those loops promise for every input, every run
or every interleaving.

| module | engine |
|---|---|
| `TopSelection` | the capped greedy Top20 and its optimality |
| `QuarterSeries`, `Calendar` | quarters from filings, restatements, derived fourth quarters; canonical days as text |
| `ReportFeed` | the persisted retry protocol for issuer reports, with crashes |
| `IntentOwnership`, `IntentProgress` | which environment keys the launcher may write or clear, and which it does, with outside writers at any step |
| `WorkerPool` | the deadline-bound worker pool, in every interleaving |
| `CoveredCalls`, `TierLaws`, `ImpliedVolatility`, `NordicContracts` | option tiers and limit prices, bisection, contract names and symbols |
| `IdentityShards`, `IdentityConsumers` | the sharded identity directory and the two readers that refuse contested identities |
| `SourcePlanner` | the source scheduler under four budgets |
| `EvidenceAdmission`, `EvidenceSupport` | which sources count as claims, and what an admitted record and bundle have |
| `BottleneckRanking`, `ScoringRubric` | factor scores, penalties, gates and the ranked list, and what moves a score |
| `ScheduledReport` | anchors and withheld claims of the seven-field report |
| `BoundedText`, `Utf16` | industry details inside a UTF-16 limit |
| `CredentialStore` | secrets as a map from service to text, and the buffers they pass through |
| `Ordering`, `PythonText`, `Wrappers` | sorting, counting, white space and optional values, shared by the rest |

Scores, prices, clocks and durations are integers or reals; texts are sequences of characters, code
points or UTF-16 units, as the code at hand counts them. Values that come from elsewhere are
parameters: the clock, the parsed feed rows, the pricing function, Unicode case folding and
normalisation, the lineage verdict, the claim bridge, the child process.

Where the code does something other than its text says, the model follows the code:

- `IntentOwnership`: ownership is documented as provenance and never value equality, but it is decided
  by comparing values. The launcher touches a value that outside code set last exactly when outside code
  copied the owned bytes of the key and the launcher has not touched the key since
  (`ProvenanceFailsIffCopied`); `CopiedBytesAreDeleted` is such a run.
- `EvidenceAdmission`: the policy asks for the latest available evidence, but the first source of a
  unit is kept, whatever its date (`DatedIffFirstAndDated`). The latest is selected exactly when the
  first claim source of each unit is dated and none of the unit is younger (`LatestIsSelectedIff`), and
  every unit with dated evidence is counted exactly when the first is dated (`DatedUnitsAreCountedIff`);
  `StaleFilingHidesAFreshOne` is a record where they are not.
- `CredentialStore`: buffers are cleared on every exit, except a native blob over 2560 bytes, which is
  refused as corrupt and left as it was (`OversizedBlobIsLeft`). Such a blob is never written by
  `SetSecret`. A lone surrogate is stored as U+FFFD, so a read returns the written text exactly when
  it has none (`ReadAfterWrite`).
- `CoveredCalls`: off the cent grid the two-decimal rounding can take the limit out of the quote. It is
  at least the bid exactly when the target reaches the next whole cent or the bid is not rounded down
  (`LimitAgainstTheBid`), at most the ask exactly when a whole cent lies in the quote or the limit falls
  below the bid (`LimitAgainstTheAsk`), and it meets a yield floor met at the bid exactly as
  `FloorAtTheLimit` says; `OffTheGridTheLimitMayFallBelowTheBid` has quotes for each failure.
- `BoundedText`: with a minimum below one, the final length check does refuse a text, when there is no
  room for the ellipsis; otherwise it never does (`IsRefused`, `ClippedFits`).
- `ScheduledReport`: the window test reads an anchor with its fraction of a second, the record keeps
  whole seconds; the record lasts the carry margin exactly when age and dropped fraction together fit the
  limit (`AnchorsLastTheMargin`). Order claims dated in the future are not withheld: exactly when they are
  displayed says `FutureOrdersAreShownIff`, and `FutureOrdersCanBeShown` is such a row.
- `BottleneckRanking`: a configured weight caps a stated score, not the points of a recognised fact. The
  weights bound every raw score exactly when none is under its anchor, apart from some negative ones
  (`WeightsBoundTheScoreIff`); `SmallerWeightDoesNotLowerTheBound` is a score past a smaller sum.
- `WorkerPool`: the caller may take its copy at the deadline itself, when a result that still counts has
  not been stored yet (`CopyAtTheDeadlineCanMissAResult`). With the clock strictly before the deadline
  nothing is missing (`UndisturbedRunIsTheMap`); in every case `SnapshotIsCompleteWhenNothingIsLeft` says
  when the copy is whole.

## Model

| member | source | states |
|---|---|---|
| `TopSelection.SelectTop` | scripts/bottleneck_top20_v3.py:1087-1093 | the loop with its layer counter takes and passes over exactly what the greedy rule says |
| `TopSelection.RankCompanies` | scripts/bottleneck_top20_v3.py:1086-1095 | `top` and `overflow` partition the companies; `top` is within both caps and goes by score, then symbol; nobody in it is overtaken by a company of its layer that was passed over; no other pick within the caps has a better k-th score |
| `TopSelection.TakenIsWithinCaps` | scripts/bottleneck_top20_v3.py:1089 | at most 20 companies, at most 5 of a layer |
| `TopSelection.NobodyOvertakesInALayer` | scripts/bottleneck_top20_v3.py:1086-1093 | whoever is taken from the layer of a passed-over company has a higher score, or the same score and no later symbol |
| `TopSelection.TakenAndPassedOverPartition` | scripts/bottleneck_top20_v3.py:1088-1093 | every scored company is in one of the two lists, as often as it was scored |
| `TopSelection.LayerIsFilled` | scripts/bottleneck_top20_v3.py:1089 | while there is room in the Top20, a layer holds the smaller of 5 and all its companies |
| `TopSelection.GreedyIsLongest` | scripts/bottleneck_top20_v3.py:1087-1093 | no pick within the caps has more companies |
| `TopSelection.GreedyIsBest` | scripts/bottleneck_top20_v3.py:1086-1093 | for every descending pick within the caps, each k-th score is at most the k-th score of the greedy pick |
| `TopSelection.GreedyTotalIsLargest` | scripts/bottleneck_top20_v3.py:1086-1093 | no set of the scored companies within the caps, in whatever order, has a larger total |
| `Calendar.OrdinalFollowsDays` | scripts/bottleneck_top20_v3.py:146 | day numbers grow exactly as days do |
| `Calendar.DaysBeforeYearClosed` | scripts/bottleneck_top20_v3.py:146 | 365 days a year and a day for every fourth year, less one for every hundredth, and one for every four-hundredth |
| `Calendar.MonthStarts` | scripts/bottleneck_top20_v3.py:146 | the day of the year on which each month starts |
| `Calendar.EveryNumberIsADay` | scripts/bottleneck_top20_v3.py:146 | the days number 1 to 3652059 without a gap |
| `Calendar.CanonicalIsRoundTrip` | scripts/bottleneck_top20_v3.py:177-186 | a text is canonical exactly when it is the format of a day, and of one day only |
| `Calendar.CanonicalTextSortsInDayOrder` | scripts/bottleneck_top20_v3.py:177-186 | canonical texts (full-date, section 5.6 of RFC 3339) compare as text in day order |
| `QuarterSeries.BuildSeries` | scripts/bottleneck_top20_v3.py:138-164 | both passes over the rows of a unit give the specified series |
| `QuarterSeries.FiledQuarters` | scripts/bottleneck_top20_v3.py:151-154 | an end has a filed quarter exactly when a quarter row has it; it is the row with the greatest filing date, the last one on ties |
| `QuarterSeries.NineMonthRows` | scripts/bottleneck_top20_v3.py:155-156 | of the nine-month rows of a start the last read counts |
| `QuarterSeries.DerivedOnlyFillsGaps` | scripts/bottleneck_top20_v3.py:160-164 | a derived quarter never replaces another; the first derivable annual row of an end wins |
| `QuarterSeries.SeriesContent` | scripts/bottleneck_top20_v3.py:138-164 | read off the rows: a series has exactly the ends of the 80-to-100-day rows, each holding the row filed last, and otherwise the ends of annual rows with a nine-month row of their start, each holding what the nine-month value leaves of the annual one, from the end of those nine months |
| `QuarterSeries.SeriesEndsAreCanonical` | scripts/bottleneck_top20_v3.py:142-148 | every key of a series is a canonical day |
| `QuarterSeries.LatestByText` | scripts/bottleneck_top20_v3.py:165-166 | the first series of five or more quarters whose last end is the greatest text is kept |
| `QuarterSeries.MostRecentSeries` | scripts/bottleneck_top20_v3.py:130-167 | the result has at least five quarters and no qualifying tag or unit ends on a later day; none is returned only when none qualifies |
| `ReportFeed.PathRemembers` | scripts/bottleneck_top20_v3.py:838-870 | in every reachable state the saved entry accounts for the last feed read and for the requests of the newest link |
| `ReportFeed.FeedReadsAreSpaced` | scripts/bottleneck_top20_v3.py:848-850 | over all runs and crashes, feed reads are at least twenty hours apart |
| `ReportFeed.FeedIsReadWhenDue` | scripts/bottleneck_top20_v3.py:844-850 | the feed is read exactly when it was never read or was read twenty hours ago or more |
| `ReportFeed.PageIsRequestedAtMostThreeTimes` | scripts/bottleneck_top20_v3.py:857-863 | a page is requested at most three times while its link stays the newest |
| `ReportFeed.StoredCheckIsReplacedOnlyByAParsedOne` | scripts/bottleneck_top20_v3.py:863-871 | a stored check is lost to nothing but a newly parsed one |
| `ReportFeed.ParsedCheckIsSaved` | scripts/bottleneck_top20_v3.py:863-871 | a parsed check and its link are saved by the next step, unless that is a crash |
| `ReportFeed.FollowLink` | scripts/bottleneck_top20_v3.py:856-865 | the link, attempt and page branches are steps of the protocol; a due page is counted and, once parsed, becomes the stored check; otherwise the entry stays as it is |
| `ReportFeed.VisitFeed` | scripts/bottleneck_top20_v3.py:848-867 | a due feed is recorded as read, and its newest report followed |
| `ReportFeed.ReadInterimReport` | scripts/bottleneck_top20_v3.py:839-871 | one run of the code is the path of the protocol with the given answers to its requests; it reads the feed exactly when due, and serves and saves the newly parsed check exactly when there is one, else the last good one |
| `IntentOwnership.Launcher.constructor` | launcher/InvestorIntelligenceLauncher.cs:211 | nothing is owned at the start |
| `IntentOwnership.Launcher.Reconcile` | launcher/InvestorIntelligenceLauncher.cs:224-230 | exactly the keys that still hold the recorded bytes stay owned: the effect of the protocol step that opens a removal |
| `IntentOwnership.Launcher.ClearOwnedForChild` | launcher/InvestorIntelligenceLauncher.cs:231-236 | the child's environment is the parent's without the owned keys; the two maps change as in the step that starts a child |
| `IntentOwnership.Launcher.OpenWindow` | launcher/InvestorIntelligenceLauncher.cs:275-279 | the capture holds the writable keys, the environment and the owned keys of one moment, as in the protocol step |
| `IntentOwnership.Launcher.Adopt` | launcher/InvestorIntelligenceLauncher.cs:286-289 | a key is written and owned exactly when it is writable, unchanged and, if it was owned, still owned: the effect of the protocol step |
| `IntentOwnership.Launcher.ClearOwnedKey` | launcher/InvestorIntelligenceLauncher.cs:258-259 | an owned key is deleted exactly when it still holds the recorded bytes: the effect of the protocol step |
| `IntentOwnership.Launcher.ForgetOwned` | launcher/InvestorIntelligenceLauncher.cs:260 | nothing is owned after a removal, as after the closing step |
| `IntentOwnership.OwnedBytesWereWritten` | launcher/InvestorIntelligenceLauncher.cs:203-211 | in every reachable state an owned value was adopted with those bytes earlier in the run |
| `IntentOwnership.LauncherTouchesOnlyItsOwn` | launcher/InvestorIntelligenceLauncher.cs:203-291 | whatever outside code does, a key the launcher sets or deletes is absent or holds bytes it wrote earlier |
| `IntentOwnership.OnlyTouchesChangeTheEnvironment` | launcher/InvestorIntelligenceLauncher.cs:253-291 | no other launcher step changes the environment |
| `IntentOwnership.OutsideIntentSurvives` | launcher/InvestorIntelligenceLauncher.cs:284-289 | an unowned outside value keeps its bytes and stays unowned until outside code changes it |
| `IntentOwnership.BeforeTheChildEnds` | launcher/InvestorIntelligenceLauncher.cs:275-281 | until the child ends only outside writes change the environment, and the owned map only shrinks |
| `IntentOwnership.FailedChildChangesNothing` | launcher/InvestorIntelligenceLauncher.cs:281 | a failed child leaves the environment to the outside writes alone and can only shrink the owned map |
| `IntentOwnership.ChildInheritance` | launcher/InvestorIntelligenceLauncher.cs:231-236 | a child never inherits an owned key and always inherits an unowned one |
| `IntentOwnership.ProvenanceFailsIffCopied` | launcher/InvestorIntelligenceLauncher.cs:203-291 | a value the launcher sets or deletes was set last by outside code if and only if outside code copied the owned bytes of that key and the launcher has not touched the key since |
| `IntentOwnership.WithoutCopiesOwnershipIsProvenance` | launcher/InvestorIntelligenceLauncher.cs:203-209 | in particular never while no outside write copies the owned bytes of that key |
| `IntentOwnership.CopiedBytesAreDeleted` | launcher/InvestorIntelligenceLauncher.cs:258-259 | a run in which it does, after one copied value |
| `IntentProgress.SaveRewritesIff` | launcher/InvestorIntelligenceLauncher.cs:275-289 | in any interleaving a visited key is rewritten and owned exactly when it stands as it did when the window opened: absent both times, or with the same owned bytes |
| `IntentProgress.TouchesFollowTheChild` | launcher/InvestorIntelligenceLauncher.cs:253-289 | nothing is set or deleted before the child of the window was started and has succeeded |
| `IntentProgress.WindowsGoOn` | launcher/InvestorIntelligenceLauncher.cs:253-291 | no window gets stuck: a child can be started, fail or succeed, and then the keys can be visited up to the close |
| `IntentProgress.FinishedSaveWroteEveryKey` | launcher/InvestorIntelligenceLauncher.cs:275-290 | a finished save that is left alone has written every key that was absent, or owned and unchanged, when it opened |
| `IntentProgress.ClosedRemovalDeletedTheOwned` | launcher/InvestorIntelligenceLauncher.cs:257-260 | a closed removal that is left alone has deleted every owned value and owns nothing |
| `WorkerPool.Pool.constructor` | scripts/build_market_quotes_options.py:1026-1027 | all symbols pending, no result stored |
| `WorkerPool.Pool.Take` | scripts/build_market_quotes_options.py:1033-1036 | a symbol is popped exactly when one is left and the clock is not past the deadline: the effect of a worker's step |
| `WorkerPool.Pool.Store` | scripts/build_market_quotes_options.py:1038-1040 | a result is stored exactly when the clock is not past the deadline: the effect of a worker's step |
| `WorkerPool.InvariantHolds` | scripts/build_market_quotes_options.py:1026-1047 | the invariant of the pool holds in every reachable state of every interleaving |
| `WorkerPool.EverySymbolInOnePlace` | scripts/build_market_quotes_options.py:1030-1040 | each distinct symbol is in exactly one of pending, in flight, stored, late or crashed |
| `WorkerPool.NothingIsAddedPastTheDeadline` | scripts/build_market_quotes_options.py:1032-1040 | no step past the deadline takes a symbol or stores a result |
| `WorkerPool.NothingIsLostUpToTheDeadline` | scripts/build_market_quotes_options.py:1032-1040 | up to the deadline a worker that asks gets a symbol while one is left, and a result that comes back is stored |
| `WorkerPool.SymbolsAreTakenInOrder` | scripts/build_market_quotes_options.py:1026-1036 | whichever workers ask, the symbols are handed out in the given order |
| `WorkerPool.PoolNeverStalls` | scripts/build_market_quotes_options.py:1030-1047 | until the copy is taken a worker can step or the copy can be taken |
| `WorkerPool.CopyIsTakenOnce` | scripts/build_market_quotes_options.py:1046-1047 | later results never change the copy |
| `WorkerPool.SnapshotHoldsTimelyResults` | scripts/build_market_quotes_options.py:1038-1047 | the snapshot holds only results of `work`, each stored at a time not past the deadline |
| `WorkerPool.SnapshotIsCompleteWhenNothingIsLeft` | scripts/build_market_quotes_options.py:1041-1047 | the snapshot is the whole map exactly when nothing is pending, in flight, late or crashed |
| `WorkerPool.UndisturbedRunIsTheMap` | scripts/build_market_quotes_options.py:1022-1047 | without a raise and before the deadline the finished run is the sequential map of `work` |
| `WorkerPool.CopyAtTheDeadlineCanMissAResult` | scripts/build_market_quotes_options.py:1038-1047 | a run whose copy, taken at the deadline, lacks a result that is then stored in time |
| `WorkerPool.FirstOccurrences` | scripts/build_market_quotes_options.py:1069 | the symbol list handed to the pool is the distinct symbols in order of first occurrence |
| `CoveredCalls.HighStrikeIsHighest` | scripts/build_market_quotes_options.py:410-422 | HIGH_STRIKE is the highest usable strike that meets the yield floor and the exact-delta cap; none is given only when there is none |
| `CoveredCalls.BalancedIsLowerAndRicher` | scripts/build_market_quotes_options.py:423-430 | BALANCED is strictly lower in strike and strictly higher in bid yield; it is missing only when no usable row is |
| `CoveredCalls.BestBalanced` | scripts/build_market_quotes_options.py:425-429 | BALANCED is nearest to the reference delta when all candidates have one, else to the reference moneyness |
| `TierLaws.HighStrikeOfRows` | scripts/build_market_quotes_options.py:407-422 | HIGH_STRIKE, read off the table: the first row of the highest strike among those out of the money, with 0 < bid <= ask <= 3 bid, six percent a year from the bid and an exact delta of at most 0.20; none exactly when there is no such row or the expiry is past |
| `TierLaws.SecondTierOfRows` | scripts/build_market_quotes_options.py:423-430 | BALANCED is the first nearest of the tradable rows with a lower strike and a higher bid, by delta to 0.30 where all of them have one, else by strike to five percent above the spot |
| `TierLaws.DeltasOfARow` | scripts/build_market_quotes_options.py:350-371 | the exact delta comes from the model wherever there is a volatility, quoted or implied; the shown one is the quoted one, or the exact one in thousandths |
| `TierLaws.TradableIff` | scripts/build_market_quotes_options.py:410-413 | the tests on a row are conditions on its prices |
| `TierLaws.FloorIff` | scripts/build_market_quotes_options.py:416-417 | the yield floor as a condition on bid, spot and days, at least one |
| `TierLaws.LimitInWholeCents` | scripts/build_market_quotes_options.py:387-391 | on the cent grid the limit is the cut middle of the quote, or its cut quarter point where the spread is over a quarter of the middle |
| `TierLaws.TargetOfAQuote` | scripts/build_market_quotes_options.py:388-390 | off the grid the target is the middle in hundredths of a cent, or the quarter point |
| `CoveredCalls.LimitLiesInTheQuote` | scripts/build_market_quotes_options.py:387-391 | on the cent grid bid <= limit <= mid <= ask, and the limit is a cent price |
| `CoveredCalls.LimitAgainstTheBid` | scripts/build_market_quotes_options.py:387-391 | for every quote the limit is at least the bid exactly when the target reaches the next whole cent or the bid is not rounded down; otherwise it is the bid's whole cents |
| `CoveredCalls.LimitAgainstTheAsk` | scripts/build_market_quotes_options.py:387-391 | for every quote the limit is at most the ask exactly when a whole cent lies between bid and ask, or the limit falls below the bid |
| `CoveredCalls.LimitLiesInTheQuoteIff` | scripts/build_market_quotes_options.py:387-391 | bid <= limit <= ask exactly for quotes that hold a whole cent and keep their bid |
| `CoveredCalls.OffTheGridTheLimitMayFallBelowTheBid` | scripts/build_market_quotes_options.py:391 | quotes whose limit is below the bid, above the ask, or under the yield floor |
| `CoveredCalls.FloorAtTheLimit` | scripts/build_market_quotes_options.py:387-395 | a yield floor met at the bid is met at the limit exactly when the quote keeps its bid or the bid's whole cents meet it |
| `CoveredCalls.SuggestionsMeetTheFloorIff` | scripts/build_market_quotes_options.py:385-430 | for any rows, exactly when each suggestion still meets the 6% floor at its limit price |
| `CoveredCalls.SuggestionsMeetTheFloorAtTheirLimit` | scripts/build_market_quotes_options.py:385-430 | both do whenever the bids are whole cents |
| `ImpliedVolatility.ImpliedVol` | scripts/build_market_quotes_options.py:335-347 | for positive inputs a value is refused exactly outside the open price range; the bracket around the quote is kept and halved sixty times; the value is within half the last bracket of the true root |
| `ImpliedVolatility.WidthIsHalvedEachStep` | scripts/build_market_quotes_options.py:341-346 | after n steps the bracket is 4.99 / 2^n wide |
| `ImpliedVolatility.LastHalfBracket` | scripts/build_market_quotes_options.py:347 | half the last bracket is 4.99 / 2^61 |
| `NordicContracts.OneSymbolTwoContracts` | scripts/build_market_quotes_options.py:824-840 | a symbol matching one contract of a root matches another exactly when year digit, month, exact strike and, for a weekly series, day agree |
| `NordicContracts.OneSymbolOneRoot` | scripts/build_market_quotes_options.py:831-833 | a symbol matches contracts of one root only |
| `NordicContracts.CallIffAllEncode` | scripts/build_market_quotes_options.py:843-881 | a row is read as a call exactly when full name, expiry and strike fields and native symbol encode one contract, which is the one read |
| `NordicContracts.IgnoredIff` | scripts/build_market_quotes_options.py:848-856 | a row is passed over exactly when it is no option, or has a name that does not end in C or ends in FUTC |
| `NordicContracts.NameIsComposed` | scripts/build_market_quotes_options.py:765 | a full name that is read is root, blank, day, month name, year, blank, strike and the letter C, and nothing else |
| `NordicContracts.TwelveMonths` | scripts/build_market_quotes_options.py:766 | which month each name is |
| `NordicContracts.RootIff` | scripts/build_market_quotes_options.py:765 | a root is one to twelve digits and capital letters |
| `NordicContracts.StrikeTextIff` | scripts/build_market_quotes_options.py:820 | a strike in a native symbol is up to six digits without a leading zero, and up to four decimals |
| `NordicContracts.NameStrikeIff` | scripts/build_market_quotes_options.py:765 | in a full name leading zeros are allowed |
| `NordicContracts.StrikeFieldIff` | scripts/build_market_quotes_options.py:859-862 | a strike field is read when it is a whole number or canonical decimal text of up to sixteen characters |
| `NordicContracts.PrintedName` | scripts/build_market_quotes_options.py:765-766 | a printed full name is read back as its contract |
| `NordicContracts.PrintedNative` | scripts/build_market_quotes_options.py:818-840 | a printed native symbol, monthly or weekly, matches its contract |
| `NordicContracts.PrintedRowIsRead` | scripts/build_market_quotes_options.py:843-881 | a row printed from any supported contract is read back as that contract, whatever decimal texts spell its strike |
| `NordicContracts.EveryStrikeCanBePrinted` | scripts/build_market_quotes_options.py:818-822 | every strike of up to six digits and four decimals has texts that are read back |
| `NordicContracts.StandardSizeText` | scripts/build_market_quotes_options.py:811-815 | decimal text is a standard size exactly when it spells one hundred |
| `IdentityShards.Fnv1aUtf16` | scripts/build_identity_shards.py:151-158 | the accumulator loop is the FNV-1a fold over UTF-16 code units, 32 bits wide |
| `IdentityShards.KnownHashes` | scripts/build_identity_shards.py:151-158 | published values of the hash and the buckets they give |
| `IdentityShards.SymbolBucketIsTheFirstCharacter` | scripts/build_identity_shards.py:200-202 | a symbol is filed under its first character in upper case where that is a plain letter or digit, else under the underscore |
| `IdentityShards.ChineseNameOfARow` | scripts/build_identity_shards.py:424-427 | in Taiwan the native name or else the name, cut at forty, from the venue; elsewhere the sourced name of market and symbol |
| `IdentityShards.Deduplicate` | scripts/build_identity_shards.py:501-515 | the loop with its seen-sets retains exactly the rows whose identity is new for their key |
| `IdentityShards.SameButForTheFeed` | scripts/build_identity_shards.py:501-511 | two records count as the same exactly when they differ in nothing but the feed |
| `IdentityShards.EachIdentityOnce` | scripts/build_identity_shards.py:507-515 | no two retained records have one key and one identity |
| `IdentityShards.NoIdentityIsLost` | scripts/build_identity_shards.py:507-515 | every parsed identity is retained |
| `IdentityShards.FirstOfIdentityIsRetained` | scripts/build_identity_shards.py:508-510 | the first row of an identity is the one retained |
| `IdentityShards.RetainedIsFirstOfIdentity` | scripts/build_identity_shards.py:508-515 | and nothing else is |
| `IdentityShards.FirstVariantIsFirst` | scripts/build_identity_shards.py:508-515 | the retained variants of a key start with its first-encountered row |
| `IdentityShards.SortingKeepsVariants` | scripts/build_identity_shards.py:517-520 | the sort keeps the records and the order of a key's variants |
| `IdentityShards.SortedBySymbolThenVenue` | scripts/build_identity_shards.py:520 | the records go by symbol, then by venue |
| `IdentityShards.BuildSymbolShards` | scripts/build_identity_shards.py:520-523 | a shard for each bucket that occurs, holding its records in order |
| `IdentityShards.SymbolShardsPartition` | scripts/build_identity_shards.py:520-523 | a record is in the shard of its own bucket, as often as it occurs, and in no other |
| `IdentityShards.ShardKeepsVariantOrder` | scripts/build_identity_shards.py:517-523 | a shard holds a key's variants in first-encounter order |
| `IdentityShards.BuildNameShards` | scripts/build_identity_shards.py:182-197 | exactly the borne names are filed, in the bucket of the name, each row once; the name shards are built by the same loop |
| `IdentityShards.BuildDocument` | scripts/build_identity_shards.py:498-534 | the document is the three sets of shards over the retained records; what it answers say the lookup theorems below |
| `IdentityShards.LookupByNameAgreesWithScan` | scripts/build_identity_shards.py:524-531 | from a name through its bucket to the symbol shards a reader finds exactly the retained records of every key with some variant bearing it |
| `IdentityShards.LookupByWordAgreesWithScan` | scripts/build_identity_shards.py:178-197 | and likewise from the leading word of a tokenized name |
| `IdentityShards.FoundUnderEachName` | scripts/build_identity_shards.py:520-531 | a record is found under a non-empty name exactly when its name, native name or Chinese name, or one of a variant of its venue and symbol, normalises to it |
| `IdentityShards.FoundUnderEachLeadingWord` | scripts/build_identity_shards.py:178-197 | and under a word exactly when the tokenized name or native name of such a variant starts with it |
| `IdentityShards.FirstWordBegins` | scripts/build_identity_shards.py:193 | the leading word is what stands before the first blank |
| `IdentityConsumers.ReadersSeeTheRecords` | scripts/build_price_shards.py:223-225 | in any shard order a reader sees each retained record exactly once |
| `IdentityConsumers.CollectVariants` | scripts/build_price_shards.py:222-225 | the rows are grouped by venue and symbol in reading order |
| `IdentityConsumers.YahooSymbols` | scripts/build_price_shards.py:216-232 | the loop enters exactly the uncontested keys with a suffix |
| `IdentityConsumers.YahooNamesAreDistinct` | scripts/build_price_shards.py:228-231 | two listings of a market never share a Yahoo name |
| `IdentityConsumers.VenuesWithSuffix` | scripts/build_price_shards.py:229 | which venues have a suffix, and which |
| `IdentityConsumers.PricedIffUncontested` | scripts/build_price_shards.py:226-232 | for a built directory a venue:symbol with a suffix is priced exactly when all its retained variants are common stock of one market, in any shard order |
| `IdentityConsumers.TallyRows` | scripts/build_zh_names.py:183-191 | the loop counts the rows of each venue and wanted listing and keeps the first named row |
| `IdentityConsumers.NamesFor` | scripts/build_zh_names.py:169-208 | a configured name always wins; a contested listing gets no other; then the first named row, then the name cache |
| `IdentityConsumers.ContestedIffContradictory` | scripts/build_zh_names.py:192-198 | for a built directory a listing is contested exactly when some venue:symbol of it has contradictory retained variants |
| `SourcePlanner.Screen` | scripts/authoritative_source_catalog.py:367-384 | sources are eligible or deferred with the reason of the first failing gate |
| `SourcePlanner.ScreeningOf` | scripts/authoritative_source_catalog.py:343-380 | a source may run exactly when it is enabled, free, public and open to share, has a reviewed adapter, passes its gates, has its credential and is serving; otherwise the first of these that fails is its reason |
| `SourcePlanner.SelectedAreCleared` | scripts/authoritative_source_catalog.py:367-384 | every planned source meets all of them |
| `SourcePlanner.OthersAreDeferred` | scripts/authoritative_source_catalog.py:367-380 | every source that does not is deferred for the first it lacks |
| `SourcePlanner.SelectedInOrder` | scripts/authoritative_source_catalog.py:383-386 | the plan goes by tier, a requested topic being worth one tier, then by id |
| `SourcePlanner.TakeWithinBudgets` | scripts/authoritative_source_catalog.py:386-408 | the loop and its running totals make the greedy choice, and the totals are those of the selection |
| `SourcePlanner.PlanSourceRun` | scripts/authoritative_source_catalog.py:361-409 | all four budgets are kept; every source is in exactly one of selected or deferred; a budget-deferred source still breaks each budget it names |
| `SourcePlanner.ChosenIsWithinBudgets` | scripts/authoritative_source_catalog.py:391-408 | requests, bytes, time and requests per host stay within their budgets |
| `SourcePlanner.EverySourceOnce` | scripts/authoritative_source_catalog.py:367-408 | each id is selected or deferred as often as it was given |
| `SourcePlanner.DeferredIsStillOverBudget` | scripts/authoritative_source_catalog.py:395-406 | the plan is maximal: each named budget still breaks when the source is added to the final plan |
| `SourcePlanner.SelectionIgnoresCatalogueOrder` | scripts/authoritative_source_catalog.py:385 | with unique ids the selection is the same for every permutation of the catalogue |
| `EvidenceAdmission.KeepFirst` | scripts/build_v213_activation_bundle_v2.py:302-311 | the first source of each unit is kept, in order |
| `EvidenceAdmission.EveryKeyOnce` | scripts/build_v213_activation_bundle_v2.py:331-341 | every unit or origin of the sources is kept, and once |
| `EvidenceAdmission.OnlyClaimsAreCounted` | scripts/build_v213_activation_bundle_v2.py:285-295 | identity, market and macro sources, put anywhere in a record, change none of its claim counts |
| `EvidenceAdmission.NonClaimSourcesCannotAdmitAnAdvantage` | scripts/build_v213_activation_bundle_v2.py:677-697 | a record with a positive sensitive factor gets the same verdict and reason with or without them |
| `EvidenceAdmission.NonClaimSourcesNeverQualify` | scripts/build_v213_activation_bundle_v2.py:677-744 | they never make a record evidence-qualified nor lose an admission; they can only cure a single origin of a limited row |
| `EvidenceAdmission.AdmittedRecord` | scripts/build_v213_activation_bundle_v2.py:677-744 | a limited row has no positive sensitive factor; a row with one has lineage, current primary and non-primary support and the required families and domains |
| `EvidenceAdmission.KeptIffFirst` | scripts/build_v213_activation_bundle_v2.py:302-311 | a source is kept exactly when it is the first of its unit or origin |
| `EvidenceAdmission.DatedIffFirstAndDated` | scripts/build_v213_activation_bundle_v2.py:570-579 | for every record a source is a dated claim exactly when it is the first claim source of its unit and is dated itself |
| `EvidenceAdmission.DatedUnitsAreCountedIff` | scripts/build_v213_activation_bundle_v2.py:570-582 | every unit with a dated claim source is counted exactly when the first claim source of each such unit is dated |
| `EvidenceAdmission.LatestIsSelectedIff` | scripts/build_v213_activation_bundle_v2.py:302-311 | the latest dated source of every unit is selected exactly when the first claim source of each such unit is dated and none of the unit is younger |
| `EvidenceAdmission.LaterSourceOfUnitIsIgnored` | scripts/build_v213_activation_bundle_v2.py:305-310 | appending a later source of a unit changes no count, whatever its date |
| `EvidenceAdmission.SourceOrderMatters` | scripts/build_v213_activation_bundle_v2.py:305-310 | a fresh and a stale source of one unit give a dated claim in one order and none in the other |
| `EvidenceAdmission.StaleFilingHidesAFreshOne` | scripts/build_v213_activation_bundle_v2.py:305-310 | such sources exist |
| `EvidenceSupport.KindsOfSources` | scripts/build_v213_activation_bundle_v2.py:261-295 | which sources are claims, first hand or identity records, by family, type and identifier |
| `EvidenceSupport.OnePublisherIff` | scripts/build_v213_activation_bundle_v2.py:314-328 | exactly which sources count as one publisher |
| `EvidenceSupport.UnitsAreSpeakers` | scripts/build_v213_activation_bundle_v2.py:302-311 | the units of a record are its first claims of each family, domain and type |
| `EvidenceSupport.DatedCounts` | scripts/build_v213_activation_bundle_v2.py:568-599 | the counted families, domains and primaries are those of these sources dated in the structural window |
| `EvidenceSupport.CurrentCounts` | scripts/build_v213_activation_bundle_v2.py:585-628 | and the current ones those that are in the current window as well |
| `EvidenceSupport.ProvenanceCounts` | scripts/build_v213_activation_bundle_v2.py:630-656 | the provenance of a limited row counts the publishers and domains of its recent claims and identity records |
| `EvidenceSupport.MarketVerdict` | scripts/build_v213_activation_bundle_v2.py:435-510 | a market object is accepted exactly when its live providers are dated and fresh, their number is declared, nothing conflicts, and without one the valuation is at most 3.75; otherwise the first fault is the reason |
| `EvidenceSupport.AdmittedIff` | scripts/build_v213_activation_bundle_v2.py:559-771 | on the sources: exactly which records are admitted, which of them are evidence-qualified, and what is recorded |
| `EvidenceSupport.AdvantageHasFreshSupport` | scripts/build_v213_activation_bundle_v2.py:604-697 | an admitted record with a positive sensitive factor has a current first-hand claim and a current claim of somebody else, and as many current units and domains as the policy asks for |
| `EvidenceSupport.StaleClaimsNeverQualify` | scripts/build_v213_activation_bundle_v2.py:604-744 | a record all of whose claims are past the current window is at most limited |
| `EvidenceAdmission.WeighEvidence` | scripts/build_v213_activation_bundle_v2.py:559-744 | the checks in order give the verdict, its mode or the first reason for refusal |
| `EvidenceAdmission.AuditRecord.ValidateEvidence` | scripts/build_v213_activation_bundle_v2.py:513-839 | an admitted record is rewritten in its mode: a limited one loses its logic states and its high-confidence eligibility |
| `EvidenceAdmission.AuditRecord.Rewrite` | scripts/build_v213_activation_bundle_v2.py:728-760 | the whole new state of an admitted record |
| `EvidenceSupport.LimitedRowLosesItsClaims` | scripts/build_v213_activation_bundle_v2.py:751-766 | a limited record has every claim-driven state unproven, limited confidence, no validated thesis, and its missing evidence named |
| `EvidenceSupport.QualifiedRowKeepsItsClaims` | scripts/build_v213_activation_bundle_v2.py:776-781 | a qualified one keeps states and confidence, and its thesis is validated when a positive factor rests on it |
| `EvidenceAdmission.InFinalOrder` | scripts/build_v213_activation_bundle_v2.py:929-951 | records are matched to final rows by ticker exactly when the ticker sets agree |
| `EvidenceAdmission.ValidateInOrder` | scripts/build_v213_activation_bundle_v2.py:953-968 | all rows are validated, in final order; a refusal means that some row is not admitted |
| `EvidenceAdmission.AdmitInOrder` | scripts/build_v213_activation_bundle_v2.py:953-1039 | the rows are admitted exactly when the portfolio is there and each is admitted with two provenance origins and domains, so the last check never fails |
| `EvidenceAdmission.EveryPairIsInOrder` | scripts/build_v213_activation_bundle_v2.py:946-956 | every record meets the final row of its ticker once |
| `EvidenceSupport.GoodIff` | scripts/build_v213_activation_bundle_v2.py:953-979 | a record is good for the bundle exactly when it is admissible on its sources and names two publishers on two domains |
| `EvidenceSupport.FinalOrderIff` | scripts/build_v213_activation_bundle_v2.py:892-945 | the final rows are twenty, numbered from one, with a ticker each and none twice |
| `EvidenceAdmission.NormalizeAndValidate` | scripts/build_v213_activation_bundle_v2.py:892-1039 | exactly when a bundle is admitted; and an admitted one has twenty rows in final order, each qualified or limited, each with two provenance origins and domains, and no limited row with a positive sensitive factor or high-confidence eligibility |
| `BottleneckRanking.ScoreCatalysts` | scripts/bottleneck_ranking.py:385-399 | ten points for any dated catalyst within eighteen months, else seven for any within thirty-six, in whatever order they are listed |
| `BottleneckRanking.RawScoreIsBounded` | scripts/bottleneck_ranking.py:301-441 | the raw score is at most the sum over factors of the larger of weight and anchor, so at most 100 under the in-code weights |
| `BottleneckRanking.CeilingIsReached` | scripts/bottleneck_ranking.py:301-441 | under any policy some candidate reaches the sum of what its factors can reach |
| `BottleneckRanking.WeightsBoundTheScoreIff` | scripts/bottleneck_ranking.py:301-441 | exactly when the configured weights bound every raw score; where none is negative, when none is under its anchor |
| `BottleneckRanking.SmallerWeightDoesNotLowerTheBound` | scripts/bottleneck_ranking.py:402-412 | a smaller weight for orders leaves the bound at 100, past the sum of the weights |
| `BottleneckRanking.NegativeWeightCanBound` | scripts/bottleneck_ranking.py:341-343 | a negative weight for demand bounds its factor though it is under its anchor |
| `BottleneckRanking.FinalScore` | scripts/bottleneck_ranking.py:506 | the score is in 0..100 for every input; what moves it say the `ScoringRubric` rows |
| `ScoringRubric.CleanScore` | scripts/bottleneck_ranking.py:443-506 | without a finding the score is the raw score cut to 0..100 |
| `ScoringRubric.ConcentrationCosts` | scripts/bottleneck_ranking.py:467-474 | a severe or moderate customer concentration lowers an uncut score by exactly its configured amount |
| `ScoringRubric.ExportRiskCosts` | scripts/bottleneck_ranking.py:481-487 | so does an export or policy risk |
| `ScoringRubric.CrowdingCosts` | scripts/bottleneck_ranking.py:489-495 | and a crowded valuation |
| `ScoringRubric.DeteriorationCosts` | scripts/bottleneck_ranking.py:476-479 | and an unexplained fall of revenue |
| `ScoringRubric.MissingDisclosureCosts` | scripts/bottleneck_ranking.py:497-500 | and a missing risk disclosure |
| `ScoringRubric.ConflictsCost` | scripts/bottleneck_ranking.py:502-504 | unresolved conflicts lower it by fifteen, however many there are |
| `ScoringRubric.MissingClockCosts` | scripts/bottleneck_ranking.py:452-454 | a missing clock lowers it by twenty |
| `ScoringRubric.FinancingCosts` | scripts/bottleneck_ranking.py:456-465 | an overhang lowers it by its amount; a structural finding by its own and the capture points it takes |
| `ScoringRubric.NoFindingRaisesAScore` | scripts/bottleneck_ranking.py:443-506 | under penalties that are not negative no set of findings raises a score |
| `ScoringRubric.DestroyedTakesAHundred` | scripts/bottleneck_ranking.py:456-459 | destroyed financing takes a hundred points off an else clean raw score |
| `ScoringRubric.DestroyedScoresNothing` | scripts/bottleneck_ranking.py:456-506 | destroyed financing scores 0 for a raw score up to 100, so always under the in-code weights |
| `ScoringRubric.FactsThatCountForNothing` | scripts/bottleneck_ranking.py:309-370 | a named customer, an announced expansion or a high margin alone scores nothing, a relieved shortage no scarcity and at most four for supply |
| `ScoringRubric.StatedScoresAreCapped` | scripts/bottleneck_ranking.py:309-412 | a stated score counts up to its weight |
| `ScoringRubric.FactsAreWorth` | scripts/bottleneck_ranking.py:309-412 | what recognised facts are worth alone, and from which lead times, switching times and catalyst dates on |
| `ScoringRubric.LicencesOnlyWithhold` | scripts/bottleneck_ranking.py:414-429 | enforced claims only withhold the four core factors that are not licensed |
| `ScoringRubric.EveryFactorCounts` | scripts/bottleneck_ranking.py:431-441 | a gain in any of the nine factors is a gain in the raw score |
| `ScoringRubric.AdmittedIff` | scripts/bottleneck_ranking.py:508-557 | exactly who is admitted, and who is refused for financing or a broken thesis |
| `ScoringRubric.NotAdmitted` | scripts/bottleneck_ranking.py:297-337 | never a relieved shortage, nor a label of sole source without corroboration, few suppliers or a long switching time |
| `ScoringRubric.QualityOf` | scripts/bottleneck_ranking.py:567-569 | a stated data quality counts; without one it is 0.9 for supported claims and 0.4 otherwise, never the 0.7 that the code keeps for an admissible row, whose claims are always supported |
| `BottleneckRanking.RecordedScoreIsInRange` | scripts/bottleneck_ranking.py:654 | so is the recorded score, for any monotone rounding that keeps the ends |
| `BottleneckRanking.AdmissionIsLicensed` | scripts/bottleneck_ranking.py:508-557 | with claims enforced nothing is admitted without licensed scarcity and a licensed price or capture mechanism |
| `BottleneckRanking.RankCandidates` | scripts/bottleneck_ranking.py:733-765 | the loop splits the sorted admitted rows into ranked and overflow |
| `BottleneckRanking.NothingIsLost` | scripts/bottleneck_ranking.py:733-765 | ranked, overflow and unranked partition all evaluated candidates |
| `BottleneckRanking.RankedInOrder` | scripts/bottleneck_ranking.py:743-765 | ranked rows are sorted and numbered from 1; overflow ranks after them and exists only when the places are full |
| `ScoringRubric.ListedInOrder` | scripts/bottleneck_ranking.py:743-765 | the list goes by score, then data quality, then ticker |
| `ScoringRubric.ListedRows` | scripts/bottleneck_ranking.py:571-574 | of each entry it shows its own score, points, role and returns |
| `BottleneckRanking.RankingIgnoresInputOrder` | scripts/bottleneck_ranking.py:743-749 | for distinct tickers the ranked list and the overflow do not depend on the input order |
| `BottleneckRanking.HistoryDecidesNothing` | scripts/bottleneck_ranking.py:571-574 | two runs that differ in historical returns alone give the same scores, statuses, ranks and lists |
| `ScheduledReport.BuildRow` | scripts/build_v213_scheduled_top20_report.py:173-219 | the clock and claim-date variables give the specified row, or the first reason for refusal |
| `ScheduledReport.BuiltRowIff` | scripts/build_v213_scheduled_top20_report.py:101-219 | on the inputs: exactly which rows are built, which orders a built row shows, and the claim or bar date that anchors it |
| `ScheduledReport.Build` | scripts/build_v213_scheduled_top20_report.py:152-219 | a report has one built row per fresh row and lists exactly the withheld tickers; it is refused exactly for changed membership or for a refused row |
| `ScheduledReport.ClaimsAnchorTheirRow` | scripts/build_v213_scheduled_top20_report.py:205-219 | a row is a current-state claim exactly when it displays an order or profit claim, and is then anchored at the oldest displayed claim date, never at a market bar |
| `ScheduledReport.StaleOrdersAreNotShown` | scripts/build_v213_scheduled_top20_report.py:114-118 | an order claim is shown as accepted exactly when it is dated inside its window; otherwise nothing of it is shown |
| `ScheduledReport.AcquisitionIsTheOldest` | scripts/build_v213_scheduled_top20_report.py:186-198 | retained orders never borrow a newer acquisition clock |
| `ScheduledReport.AnchorsLastTheMargin` | scripts/build_v213_scheduled_top20_report.py:166-219 | a row stays inside its full window for the whole carry margin exactly when its anchor's age and dropped fraction together fit the limit, so always for whole-second dates, and is never late by a second |
| `ScheduledReport.FractionalAnchorCanLapse` | scripts/build_v213_scheduled_top20_report.py:217-219 | a built row whose anchor lapses within the margin |
| `ScheduledReport.FutureOrdersAreShownIff` | scripts/build_v213_scheduled_top20_report.py:183-217 | the exact inputs under which a built row displays orders dated in the future: nothing withholds them, and a profit claim inside the window anchors the row |
| `ScheduledReport.FutureOrdersCanBeShown` | scripts/build_v213_scheduled_top20_report.py:183-217 | such a row |
| `ScheduledReport.FutureOrdersNeedAnOlderClaim` | scripts/build_v213_scheduled_top20_report.py:183-217 | it needs an older profit claim |
| `BoundedText.NormalizedKeepsTheWords` | scripts/build_v212_top20_report.py:392 | normalising keeps the words and is idempotent |
| `BoundedText.Show` | scripts/build_v212_top20_report.py:396-401 | the scan stops at the longest prefix that fits |
| `BoundedText.LongestFitIsUnique` | scripts/build_v212_top20_report.py:396-401 | and there is one such prefix |
| `BoundedText.CutBeforeTheLastBlank` | scripts/build_v212_top20_report.py:402-403 | the shown text ends before its last blank where that is far enough in, else it stays |
| `BoundedText.StrippedOfPunctuation` | scripts/build_v212_top20_report.py:403 | stripping removes all trailing blanks, commas, semicolons, colons and hyphens, and nothing else |
| `BoundedText.BodyOf` | scripts/build_v212_top20_report.py:395-403 | the body is the excerpt, or a cut and stripped prefix with an ellipsis |
| `BoundedText.ClippedFits` | scripts/build_v212_top20_report.py:399-405 | a clipped body fits exactly when there is room for the ellipsis |
| `BoundedText.Compose` | scripts/build_v212_top20_report.py:390-405 | refused exactly by the room, length, separator and encoding tests; otherwise within the limit, label first |
| `BoundedText.ComposeIndustryDetail` | scripts/build_v212_top20_report.py:382-407 | the same for any label and excerpt, in UTF-16 units (section 2 of RFC 2781) |
| `BoundedText.DetailIsAnExtract` | scripts/build_v212_top20_report.py:395-405 | less the ellipsis, the body is a prefix of the normalised excerpt and its units are the first units of the excerpt's, so no code point is split |
| `CredentialStore.FromBytesUndoesToBytes` | launcher/SecureCredentialStore.cs:317-352 | decoding the stored bytes gives the encoded units |
| `CredentialStore.SecureCredentialManager.constructor` | launcher/SecureCredentialStore.cs:161-167 | a manager over its native store |
| `CredentialStore.SecureCredentialManager.SetSecret` | launcher/SecureCredentialStore.cs:346-390 | the new entry or the listed failure; every byte, character and native buffer of the call is zero on every exit |
| `CredentialStore.SecureCredentialManager.WithSecret` | launcher/SecureCredentialStore.cs:280-344 | the callback's result on the stored characters or the listed failure; every byte and character buffer of the call is zero on every exit, the native blob as `OversizedBlobIsLeft` says |
| `CredentialStore.SecureCredentialManager.ContainsCredential` | launcher/SecureCredentialStore.cs:231-268 | present, missing or a failure, without handing out characters |
| `CredentialStore.SecureCredentialManager.DeleteCredential` | launcher/SecureCredentialStore.cs:392-407 | the entry is gone, other services untouched |
| `CredentialStore.StoredIff` | launcher/SecureCredentialStore.cs:142-197 | which services and secrets are accepted, and the first reason against the others |
| `CredentialStore.FoundIff` | launcher/SecureCredentialStore.cs:280-316 | an entry is handed over exactly when it is a generic credential of 2 to 2560 bytes, an even number; otherwise it is corrupt |
| `CredentialStore.ReadAfterWrite` | launcher/SecureCredentialStore.cs:280-390 | a read after a write hands over the same characters exactly when the text has no lone surrogate; other services read as before |
| `CredentialStore.ReadAfterDelete` | launcher/SecureCredentialStore.cs:392-407 | a deleted service is missing; other services read as before |
| `CredentialStore.WrittenEntriesAreCleared` | launcher/SecureCredentialStore.cs:186-188 | what `SetSecret` writes is always cleared after a read |
| `CredentialStore.OversizedBlobIsLeft` | launcher/SecureCredentialStore.cs:221-224 | a read leaves bytes behind exactly when the native blob is over the limit and not already zero |
| `Utf16.EncodeAppend` | scripts/build_v212_top20_report.py:378-379 | units of a concatenation are the units of its parts |
| `Utf16.UnitsOfACodePoint` | scripts/build_v212_top20_report.py:378-379 | a code point is its own unit, or a high and a low surrogate from which it is read back |
| `Utf16.RepairedIsSameIffPaired` | launcher/SecureCredentialStore.cs:317-352 | the decoder changes a text exactly when it has a lone surrogate |
| `Ordering.SortIsSortedPermutation` | scripts/build_identity_shards.py:520 | `sorted` returns the same rows in order |
| `Ordering.SortIsStable` | scripts/build_identity_shards.py:517-520 | rows with equal keys keep their order |

## Left out

- HTTP, feed, XML, HTML, xlsx and JSON decoding, temp files and atomic replacement: parsed rows are inputs and saves are single steps.
- The MIDDLE option tier, whose choice is made in a module that is not part of this model, and the display roundings of a suggestion.
- Black-Scholes formulas: the price is any strictly increasing function, and the delta of an implied volatility is a parameter.
- Floating-point error: scores, prices and clocks are integers or reals; the roundings of a recorded score are parameters.
- `_report_check` and the other regular expressions over report text: the parser of a report page is a parameter.
- `_near`, `clip`, `capture_score`, `size_score` and the scoring terms before the Top20 sort: a company comes with its score.
- `AppendTail`, `ExtractModelIds`, `ChooseModel` and `DiscoverModels` in the launcher.
- The dialogs and helper scripts of the launcher: a child is a step that succeeds or fails, and the 40-second lock wait is not modelled.
- `IntentOwnership.Launcher.OpenWindow`: the three captures of a window are one step, as are a reconcile, its checks and its write, so no outside write falls between them.
- `IntentOwnership.ChildInheritance`: clearing the owned keys and starting the process are one step; the code copies the environment for the child only when a key is owned, and without one the child takes the environment of the moment it starts.
- Thread scheduling inside one call of the pool's `work`; daemon threads that never return are workers that never take another step.
- Identity feeds, the US fallback to the SEC cache, provenance stamps and the ages of feeds.
- Unicode normalisation, case folding and script names: the name and token rules of the directory are parameters. The Worker that reads the shards is not part of this model; its lookup is stated from the shard layout.
- The final sort of the rows inside a token shard, and the texts of bucket numbers: name shards are compared by what they hold.
- The key of a listing from a Yahoo-style symbol and the resolution of candidate names in `build_zh_names.py`: the key function is a parameter.
- `IdentityConsumers.ContestedIffContradictory`: takes market names without a colon, as all feeds of the directory have them.
- The merge of price feeds per market and the Yahoo download.
- `_validate_same_run_freshness` and the lineage verdict of a record: both are Boolean parameters.
- `reorder_federation`, the portfolio counts and the methodology notice of the bundle, and the digest of the policy.
- `EvidenceAdmission.EveryKeyOnce`: provenance origins are structured values; the colon-joined texts of the code could also merge origins whose family name itself holds a colon.
- `validate_claim_evidence` and the factor authority of a candidate: the bridge with their results is an input, as are parsed clocks, roles and financing states.
- Lifecycle labels, confidence axes, flags and texts of an evaluation other than those that decide score, admission or rank.
- Names, display columns and schema checks of the seven-field report other than the result of the name check, and the age of `retrieved_at` in the Worker's window test.
- `latest_quarter_growth` and `profit_display` of the five-field report.
- DPAPI and the Win32 calls themselves: the native store is a map with the listed error results, and copies that the runtime or the system may make of a buffer are not visible to the code either.

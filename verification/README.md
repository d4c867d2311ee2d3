# Verification of the bench, evidence and release tooling

This project models the measurement harness and the release and evidence tooling of the repository in Dafny and proves
what that tooling is relied on for. Check it with `dafny verify dfyconfig.toml`.

What is modelled, component by component:

- **Gate calibration** (`SignTest`, `GateOverlap`, `Outcomes`, `Convolution`, `GateTuples`, `PassRates`, `GateTheorems`,
  on `FiniteSums`). The exact sign test, the trinomial distribution of question outcomes, its convolution over corpora
  and the pass rates of the gates. The loops that fill dictionaries are methods proved to give the distribution, the
  convolution and the rates, which are the chances of tuples of corpus outcomes; the theorems about improvement,
  regression, splitting and duality are about those.
- **Reading a recall result** (`JsonStrings`, `JsonNumbers`, `JsonValues`, `JsonCanon`, `Utf8`, `BadBytes`, `Whitespace`,
  `Leaves`, `LeafTheorems`, `LeafPaths`, `LeafPrefix`). JSON as Python prints and reads it (sections 2 to 7 of RFC 8259),
  UTF-8 (sections 3 and 4 of RFC 3629), whitespace normalisation, and the walk that places every string leaf of a
  result. `StringSpellings`, `NumberSpellings` and `Spellings` say which texts and bytes these are, character by
  character.
- **Scoring** (`Scorer`, `SetScores`, `ScoreTheorems`, `AnchorChecks`, `AnchorReport`). Which facts a result shows inside
  a byte budget, the score of a question set with its rotated control, and the check of anchors against the snapshot.
- **Budgeted search** (`BudgetedSearch`). Processes that share a lock, a counter and two logs; each can be killed, or stopped
  by an error, between any two steps.
- **Vector census cache** (`CensusCache`, `CensusChecks`, `Readiness`). Readiness checks that read a key with separate
  queries, writers that change the vault at any moment, and one cache file replaced whole.
- **Source hash** (`SourceHash`, `SourceTree`, `SourcePaths`). The walk of a source tree and the length-prefixed stream fed to the hash.
- **MCP evidence stub** (`McpProtocol`, `McpTheorems`, `McpEvents`, `McpJudge`, `McpStub`). The server's steps over lines,
  ticks and end of input, the class that takes them, and what its record and the judge of it say about the events of
  any run.
- **Numbered records** (`NumberedClaims`). Processes that claim the next free number with exclusive creates.
- **Archive checksums** (`ArchiveChecksums`). The job that checks an archive against a baseline it writes itself.
- **Retrieval report** (`RetrievalCases`, `RetrievalSuite`, `RetrievalReport`). The release check of the retrieval suite, and the numeric
  bounds an accepted report keeps.
- **Line filling** (`LineFilling`). The greedy loop that wraps terminal lines.

Findings the proofs turn on:

- A string survives a JSON print and parse exactly when it holds no high surrogate directly followed by a low one
  (`JsonStrings.QuoteRoundTrips`); the parser joins such a pair.
- For the same reason every anchor that is verbatim in a stored text is shown exactly when that text holds no such pair
  (`Scorer.VerbatimShownExactly`).
- The census key is read with separate queries, so a hit need not be true. The vault that was counted is one the check
  could have seen exactly when no vector was added between the count and the check's first query; for a count that tells
  vaults apart, the answer is true exactly then (`CensusChecks.AnswersAreTrueExactly`). The stamp standing still between
  the first two queries is enough (`CensusChecks.AnswersAreTrue`), and so is reading both from one vault
  (`CensusChecks.OneTransactionIsEnough`). `CensusChecks.AStaleHitHappens` gives a run in which a vector is added, row
  numbers are used again, and a stale count is returned.
- Some outcome passes a gain gate and fails a tripwire, for some `net_min`, exactly when the gain threshold is above one
  half, the tripwire's is positive, and together they are above one (`GateOverlap.ConflictExactly`).
- The search counter and the log do disagree when an error leaves the call between the two, as when the result's text
  cannot be encoded in UTF-8. The log is complete exactly when no process was stopped there
  (`BudgetedSearch.LogIsCompleteExactly`).
- Wrapped lines join back to the text at every width exactly when the text is empty or has no empty word
  (`LineFilling.JoinsBackExactly`).
- The archive baseline covers the archive index, so the first passing run fixes the baseline for good
  (`ArchiveChecksums.FirstBaselineIsTheLast`), and a manifest that cannot be read is never repaired
  (`ArchiveChecksums.BrokenIsNeverRepaired`).

Conventions and assumptions:

- Floats are reals. A Python string is a sequence of code points in which lone surrogates may occur, so it is a sequence
  of integers (`JsonStrings.Text`).
- How Python re-prints a number it parsed is a parameter, `reprint`. It is assumed to give a number token that it gives
  back unchanged (`JsonValues.GoodReprint`).
- Locks, `os.replace`, exclusive creates, the append of one line and single SQL queries are single steps. Clocks, file
  contents, checksums, census counts, and what a font measures are parameters.
- A stamp of the vault is never used twice, and notes are only imported, retired or scrubbed, which is what the docstring
  of the key limits it to.
- File names hold no slash.

## Model

| member | source | states |
|---|---|---|
| `SignTest.CombIsFactorialRatio` | scripts/alice_bench_gates.py:62-67 | the coefficients of the sign test, defined by Pascal's rule, satisfy the factorial formula of `math.comb` |
| `SignTest.SignTestIsFairCoinTail` | scripts/alice_bench_gates.py:62-67 | p is 1 without discordant pairs, and otherwise the chance that fair coin flips taken one at a time give at least `count` heads |
| `SignTest.SignTestComplement` | scripts/alice_bench_gates.py:62-67 | p of k or more and p of d-k+1 or more add up to exactly 1 |
| `SignTest.SignTestNonIncreasing` | scripts/alice_bench_gates.py:62-67 | p never rises with the count |
| `SignTest.SignTestMonotone` | scripts/alice_bench_gates.py:62-94 | one more improved question never raises p, one more regressed question never lowers it |
| `SignTest.SmallPMeansMoreImproved` | scripts/alice_bench_gates.py:93-94 | p below one half already says that improvements exceed regressions |
| `SignTest.NeverBoth` | scripts/alice_bench_gates.py:93-100 | with a gain threshold of at most one half no outcome both passes a gain gate and fails a tripwire, whatever `net_min` is |
| `SignTest.BothAtNineTenths` | scripts/alice_bench_gates.py:93-100 | with both thresholds at 0.9 and a net loss of one allowed, one improved and two regressed questions do both |
| `GateOverlap.CombRatio` | scripts/alice_bench_gates.py:62-67 | each coefficient of the sign test in terms of the one before it |
| `GateOverlap.SmallMasses` | scripts/alice_bench_gates.py:62-67 | some number of discordant pairs makes every single count less likely than any given limit |
| `GateOverlap.NoOverlapNoConflict` | scripts/alice_bench_gates.py:93-100 | an outcome that passes a gain gate and fails a tripwire shows that the gain threshold is above one half, the tripwire's positive, and their sum above one |
| `GateOverlap.ConflictExactly` | scripts/alice_bench_gates.py:93-100 | for any two thresholds, some outcome does both for some `net_min` exactly when they meet that condition |
| `Outcomes.ChanceIsMultinomial` | scripts/alice_bench_gates.py:70-81 | the chance of an outcome, built question by question, is the closed trinomial term the code computes |
| `Outcomes.SumOfChancesIsExpect` | scripts/alice_bench_gates.py:70-81 | summing any score over the closed terms gives the expectation over independent questions |
| `Convolution.OutcomeDistribution` | scripts/alice_bench_gates.py:70-81 | refuses shares that are negative or add up to more than 1; otherwise the dictionary holds exactly the outcomes of n questions, each with its chance |
| `Convolution.Convolve` | scripts/alice_bench_gates.py:84-90 | the result's keys are exactly the sums of keys, each with the total of the products that reach it |
| `Convolution.ConvolutionOfSamples` | scripts/alice_bench_gates.py:70-90 | convolving the distributions of m and n questions gives the distribution of m+n at every outcome |
| `Convolution.WeighConvolution` | scripts/alice_bench_gates.py:84-142 | summing a score over a convolution is summing over both distributions one inside the other |
| `Convolution.WeighOfSample` | scripts/alice_bench_gates.py:70-142 | a rate summed over a distribution is the expectation over its questions |
| `PassRates.RateOf` | scripts/alice_bench_gates.py:130-142 | the comprehension sums exactly the chances of the outcomes that pass |
| `PassRates.Pool` | scripts/alice_bench_gates.py:118-128 | folding the corpora, filtered to no net loss or not, weighs every score as the joint chance over the corpora does |
| `PassRates.PassRates` | scripts/alice_bench_gates.py:103-142 | refuses exactly bad shares and an empty list of corpora; otherwise each rate is the chance of the tuples of corpus outcomes whose sums show the gain, or leave the tripwire quiet, and for G1 with the filter on hold in each corpus no fewer improvements than regressions |
| `PassRates.JointIsTupleChance` | scripts/alice_bench_gates.py:118-134 | folding the corpora one after the other gives, for any gate, the chance of the tuples that pass and, with the filter, hold no net negative corpus |
| `PassRates.RatesAreTupleChances` | scripts/alice_bench_gates.py:130-142 | which of the three rates is the chance of which condition on those tuples |
| `PassRates.NoFilterWithoutRegressions` | scripts/alice_bench_gates.py:122-128 | where nothing can regress the per-corpus filter changes no rate, so a corpus without any flip is kept |
| `PassRates.FilterOfOneCorpus` | scripts/alice_bench_gates.py:122-134 | with one corpus the filter asks of its outcome that improvements be at least regressions |
| `GateTheorems.GainGateImproving` | scripts/alice_bench_gates.py:93-94 | a gain gate that passes keeps passing with one more improved question or one fewer regressed one |
| `GateTheorems.TripwireImproving` | scripts/alice_bench_gates.py:97-100 | a tripwire that holds keeps holding with one more improved question or one fewer regressed one |
| `GateTheorems.MoreImprovementNeverLowers` | scripts/alice_bench_gates.py:103-142 | more improvement at the same regression never lowers any of the three rates, for all corpora and thresholds |
| `GateTheorems.MoreRegressionNeverRaises` | scripts/alice_bench_gates.py:103-142 | more regression at the same improvement never raises any of the three rates |
| `GateTheorems.FilterNeverRaisesG1` | scripts/alice_bench_gates.py:122-134 | the G1 rate with the per-corpus filter is at most the rate without it |
| `GateTheorems.OnlyTheTotalCounts` | scripts/alice_bench_gates.py:113-120 | pooling any list of corpora unfiltered is one sample of their total size |
| `GateTheorems.SplitDoesNotMatter` | scripts/alice_bench_gates.py:103-142 | the tripwire rate and the G2 rate depend on the corpora only through the total |
| `GateTheorems.DistributionSumsToOne` | scripts/alice_bench_gates.py:70-81 | every distribution sums to exactly 1 |
| `GateTheorems.TripwireMirrorsGain` | scripts/alice_bench_gates.py:93-142 | 1 minus the tripwire rate at truth (a, b) is the gain rate with `net_min` 1 at truth (b, a) |
| `JsonStrings.ReadQuoted` | scripts/alice_bench.py:217-232 | a printed literal is read back with surrogate pairs joined, whatever follows it |
| `JsonStrings.QuoteRoundTrips` | scripts/alice_bench.py:217-232 | a string comes back unchanged exactly when it holds no high surrogate directly followed by a low one |
| `JsonStrings.SplitPairIsJoined` | scripts/alice_bench.py:217-232 | the two halves of U+10000 come back as that one code point |
| `JsonNumbers.NumberLenStable` | scripts/alice_bench.py:1758-1789 | a number token ends at the same place whatever delimiter follows it |
| `NumberSpellings.NumbersExactly` | scripts/alice_bench.py:1758-1789 | a text is taken whole as a number exactly when it is made of a sign, a whole part, a fraction and an exponent as section 6 of RFC 8259 has them |
| `Spellings.EscapeIsSpelled` | scripts/alice_bench.py:1763-1789 | how each code is written in a literal: short escapes, printable ASCII as it is, lower-case hexadecimal escapes for the rest, two of them above U+FFFF |
| `Spellings.PrintIsSpelled` | scripts/alice_bench.py:1763-1789 | the compact print of each kind of value, with its words, brackets, commas and colons |
| `JsonValues.ParsePrint` | scripts/alice_bench.py:1758-1793 | the compact print of a value is read back as that value, leaving what follows it |
| `JsonValues.LoadsPrint` | scripts/alice_bench.py:1758-1793 | `json.loads` of the compact print of a canonical value is the value |
| `JsonCanon.CompactTextIsCanonical` | scripts/alice_bench.py:1758-1793 | a text that is the print of its own parse parses to a canonical value, and only such a text does |
| `JsonCanon.PrintIsAscii` | scripts/alice_bench.py:1763-1789 | what the walk writes is ASCII, so a position in bytes is a position in characters |
| `Utf8.DecodeEncoded` | scripts/alice_bench.py:2435-2441 | decoding with errors replaced undoes encoding |
| `Spellings.CodeIsEncoded` | scripts/alice_bench.py:1765 | the bytes of a code: how many, their high bits, and the number their low bits make |
| `BadBytes.CharIsEncoded` | scripts/alice_bench.py:2435-2441 | for any bytes, a character is read exactly where they begin with the encoding of one |
| `BadBytes.BadIsMaximal` | scripts/alice_bench.py:2435-2441 | anything else is dropped or replaced one byte, or one beginning of a character, at a time, and that beginning could not be longer |
| `BadBytes.BadStretch` | scripts/alice_bench.py:2435-2441 | after good characters a bad stretch is dropped, or replaced by U+FFFD, and decoding goes on behind it |
| `Utf8.EncodeInjective` | scripts/alice_bench.py:950-954 | two strings with the same UTF-8 bytes are the same string |
| `Utf8.CutKeepsLongestPrefix` | scripts/alice_bench.py:2435-2441 | at or under the cap the whole string comes back unflagged; over it, exactly the longest whole-character prefix that fits, then the note |
| `Whitespace.NormalizeIsCollapse` | scripts/alice_bench.py:211-214 | split and join is one left-to-right pass that keeps one space between words and none at the ends |
| `Spellings.WordsAreSpaced` | scripts/alice_bench.py:211-214 | blanks at the ends of words go, and any blanks between two words become one space |
| `Whitespace.NormalizeKeepsContainment` | scripts/alice_bench.py:211-214 | a text inside another has its normal form inside the other's normal form |
| `Whitespace.NormalizeTwice` | scripts/alice_bench.py:211-214 | normalising twice changes nothing |
| `Leaves.LeafWalk.Write` | scripts/alice_bench.py:1762-1765 | appends the chunk and moves the position by its UTF-8 length |
| `Leaves.LeafWalk.Walk` | scripts/alice_bench.py:1767-1788 | writes the compact print of the value and appends its string leaves, each with the position where its literal ends |
| `Leaves.LocateLeaves` | scripts/alice_bench.py:1750-1793 | gives the leaves of the parse (`LeafPaths` and `LeafTheorems` say which they are), or the error for text that is no JSON or not compact in parse order |
| `LeafTheorems.LeavesInOrder` | scripts/alice_bench.py:1767-1788 | the offsets of the leaves strictly increase and stay within the printed value |
| `LeafTheorems.LeavesEndInLiterals` | scripts/alice_bench.py:1781-1783 | the text up to each leaf's `end_byte` ends in the JSON literal of its value |
| `LeafTheorems.LeavesAreStringValues` | scripts/alice_bench.py:1767-1788 | the leaves are all the string values in order, and no keys |
| `LeafTheorems.LocateAcceptsExactlyPrints` | scripts/alice_bench.py:1750-1793 | exactly the texts that are the compact print of a canonical value are accepted, with the leaves of that value |
| `LeafPaths.PathsAreRendered` | scripts/alice_bench.py:1767-1788 | leaf i is string i of the parse, and its path is written from the keys and lists that lead to it: a dot before a key unless nothing is written yet, `[]` for a list |
| `LeafPaths.PlacesAreLed` | scripts/alice_bench.py:1767-1788 | the strings listed with their way from the root are exactly those that following keys and lists leads to |
| `LeafPaths.ExcerptPath` | scripts/alice_bench.py:1782 | for any string that prints and reads back, the one leaf of a result with one source is at `sources[].excerpt` |
| `LeafPrefix.DifferentValuesEndLater` | scripts/alice_bench.py:1750-1793 | two prints that agree on their first b bytes are of one value, or both reach at least to b |
| `LeafPrefix.PrefixDecidesLeaves` | scripts/alice_bench.py:1750-1793 | accepted results that agree on the first b bytes have the same leaves ending by b: paths, values and offsets |
| `Scorer.UnquoteUndoesQuote` | scripts/alice_bench.py:217-232 | unquoting a quoted string gives its surrogate pairs joined, and the string itself exactly when it holds no such pair |
| `Scorer.PrefixDecidesScore` | scripts/alice_bench.py:1816-1848 | results that agree on the first b bytes and are that long find the same facts at budget b |
| `Scorer.FoundGrowsWithBudget` | scripts/alice_bench.py:1816-1848 | a fact found at a budget is found at every larger one |
| `Scorer.FoundExactly` | scripts/alice_bench.py:1826-1839 | a fact counts exactly when a scored leaf that ends inside the budget holds one of its nonblank anchors, both normalised |
| `ScoreTheorems.ScoreSays` | scripts/alice_bench.py:1816-1848 | the score of a result has one flag a fact, and flag i is set exactly when some nonblank anchor of fact i is shown by some leaf; a hit is a result that shows every fact; a result has no score exactly when it is not compact or holds a leaf in neither list |
| `ScoreTheorems.ScoredPaths` | scripts/alice_bench.py:121 | the scored leaves are `sources[].excerpt` and `results[].text` and no others |
| `ScoreTheorems.ContainsExactly` | scripts/alice_bench.py:1831-1839 | one text is in another exactly when the other is it with something before and after |
| `StringSpellings.ReadExactly` | scripts/alice_bench.py:217-232 | the texts read as a string literal are exactly those made of plain characters, short escapes and four-digit escapes, and what they give joins exactly the escaped surrogate pairs |
| `StringSpellings.UnquoteSays` | scripts/alice_bench.py:217-232 | a leaf that is one string literal from end to end is compared as what it spells, and every other leaf as it stands |
| `Scorer.VerbatimShownExactly` | scripts/alice_bench.py:217-232 | a scored leaf inside the budget shows every anchor verbatim in the text it stores exactly when that text holds no high surrogate directly followed by a low one |
| `Scorer.StoredAnchorAlwaysCounts` | scripts/alice_bench.py:1826-1839 | in such a text an anchor that is verbatim makes its fact count |
| `AnchorChecks.VerifyAnchors` | scripts/alice_bench.py:1680-1736 | the report is that of all anchors in order: the misses if there is one, otherwise every row with the counts of flagged and unapproved rows |
| `AnchorReport.OutcomesExactly` | scripts/alice_bench.py:1690-1731 | every anchor of every fact, the facts numbered from 1, has its outcome in the report, and there is nothing else in it |
| `AnchorReport.OutcomeExactly` | scripts/alice_bench.py:1696-1731 | an anchor's outcome: its file is missing, or does not hold it, or a row with its length, the number of files that hold it, where it leaks, and each flag |
| `AnchorReport.OutcomesInOrder` | scripts/alice_bench.py:1690-1731 | the outcomes come anchor by anchor, fact by fact and question by question |
| `AnchorReport.ReportSays` | scripts/alice_bench.py:1724-1736 | the report is the misses if there are any, and otherwise one row an anchor with the number of flagged rows and of flagged rows that nobody approved |
| `AnchorChecks.PassesExactly` | scripts/alice_bench.py:1680-1731 | no anchor is reported missing exactly when every anchor is, normalised, in its named file |
| `AnchorChecks.VerbatimAnchorStands` | scripts/alice_bench.py:1695-1706 | an anchor verbatim in its named file is never reported missing, and at least one file holds it |
| `AnchorChecks.LeakedAnchorIsFlagged` | scripts/alice_bench.py:1710-1713 | an anchor verbatim in the question or its keywords is flagged |
| `SetScores.ScoreSet` | scripts/alice_bench.py:1851-1899 | the totals are the sums over the questions, the control scores each question's facts against the next question's output, and a set of one has no control |
| `ScoreTheorems.UsableExactly` | scripts/alice_bench.py:1851-1870 | a set has a score exactly when it has a question and each has a result that can be scored |
| `ScoreTheorems.TotalsSay` | scripts/alice_bench.py:1851-1899 | hits count the questions whose own result shows every fact, found facts the shown pairs of question and fact, the control the questions whose facts the next question's result shows, the first one's for the last; bytes are those of all results |
| `SetScores.AllHitMeansAllFound` | scripts/alice_bench.py:1851-1899 | hits are at most the questions and found facts at most the facts, and the one is all exactly when the other is |
| `SetScores.TotalsGrowWithBudget` | scripts/alice_bench.py:1851-1899 | no total, the control's included, falls when the budget grows |
| `SetScores.SameTotals` | scripts/alice_bench.py:1851-1899 | outputs that agree up to the budget give the same totals at that budget |
| `BudgetedSearch.FreeFolderIsAReplay` | scripts/alice_bench.py:2345-2400 | whenever the lock is free the folder is what some sequence of whole searches leaves, each refused exactly when the budget is used |
| `BudgetedSearch.CounterOnlyGrows` | scripts/alice_bench.py:2345-2400 | the counter never falls and never exceeds the budget, with kills and errors at any point |
| `BudgetedSearch.AtMostBudgetRunners` | scripts/alice_bench.py:2345-2400 | runners start with distinct increasing numbers up to the counter, so at most `budget` ever start |
| `BudgetedSearch.LogsAlwaysFit` | scripts/alice_bench.py:2376-2399 | at every moment logged numbers strictly increase and stay within the counter, and vector-log numbers are among them, increasing too |
| `BudgetedSearch.LogMissesOnlyTheStopped` | scripts/alice_bench.py:2345-2400 | with the lock free the counter is the log's length plus the searches stopped, killed or by an error, before their log line, and the log is 1 to the counter exactly when there are none |
| `BudgetedSearch.LogIsCompleteExactly` | scripts/alice_bench.py:2345-2400 | with the lock free the log is exactly 1 to the counter if and only if no process was stopped between the counter and its log line |
| `BudgetedSearch.NoStopCompleteLog` | scripts/alice_bench.py:2345-2400 | if nobody was killed or stopped by an error the log is exactly 1 to the counter whenever the lock is free |
| `BudgetedSearch.StateFolder.RunBudgetedSearch` | scripts/alice_bench.py:2345-2400 | refused exactly when the budget is used and then nothing changes; otherwise the counter goes up by one and each log gains exactly the line of this search, or neither does when its text cannot be encoded |
| `BudgetedSearch.UninterruptedCallIsOneSearch` | scripts/alice_bench.py:2345-2400 | the steps of one process alone are possible and do to the folder what the single call does |
| `CensusCache.OpGoesForward` | scripts/alice_bench.py:633-644 | every change of the vault moves the stamp to a new value, adds a vector, or moves the counts of notes forward |
| `CensusCache.SameKeySameVault` | scripts/alice_bench.py:633-675 | if a later reading gives an earlier key and its stamp held still, the vault did not change in between |
| `CensusChecks.StepKeeps` | scripts/alice_bench.py:678-733 | every step of every check and writer keeps the cache entry and every answer the counts of the vault they were made of |
| `CensusCache.ComesBackExactly` | scripts/alice_bench.py:633-644 | a vault that a later one differs from at most in its vectors is seen again from there on exactly when no vector was added up to there |
| `CensusChecks.AnswersAreTrueExactly` | scripts/alice_bench.py:729-734 | in every run the vault whose counts a check uses is one between its first query and its answer exactly when no vector was added between the count and that query, and for a count that tells vaults apart the answer is true exactly then |
| `CensusChecks.AnswersAreTrue` | scripts/alice_bench.py:729-734 | the answer is true on every miss, and on a hit when the stamp held still between the first two queries |
| `CensusChecks.OneTransactionIsEnough` | scripts/alice_bench.py:652-667 | with the first two queries on one vault every answer is true |
| `CensusChecks.SeparateQueriesCanMatchAStaleKey` | scripts/alice_bench.py:652-667 | a concrete history in which a later reading has an old key while no later vault holds the old vectors |
| `CensusChecks.AStaleHitHappens` | scripts/alice_bench.py:678-734 | a concrete run that ends in a hit that is the count of no vault since the check began |
| `Readiness.VaultKey` | scripts/alice_bench.py:633-675 | the key holds the setting, the stamp, the number and highest row of vectors, chunks and notes, and how many notes are live and scrubbed |
| `Readiness.CensusFile.Load` | scripts/alice_bench.py:678-690 | a hit is the count of some vault of the history under the key's setting, made for this very key; a miss means no entry was kept for it |
| `Readiness.CensusFile.Store` | scripts/alice_bench.py:693-704 | replaces key and counts together, or changes nothing |
| `Readiness.CensusFile.RequireReadiness` | scripts/alice_bench.py:707-753 | with no writer in between and with or without a cache: ready exactly when a fresh count has nothing pending or stale, stored and current both the recorded number, the recorded width alone, the recorded signature, and the digest is the recorded one; otherwise each reason is given exactly when its own comparison fails, with its numbers and in order |
| `Readiness.ReasonsAgainst` | scripts/alice_bench.py:736-750 | each reason is given exactly when its comparison fails, once and in order, and none exactly when all hold |
| `Readiness.HitIsPresent` | scripts/alice_bench.py:729-734 | a cached count for the present key is the present count |
| `SourceHash.BigEndianRoundTrips` | scripts/alice_bench.py:951-953 | eight bytes give back every length below 2 to the 64 |
| `SourceHash.StreamRoundTrips` | scripts/alice_bench.py:943-954 | the stream of any list of names and contents is decoded back to that list |
| `SourceHash.Sorted` | scripts/alice_bench.py:944 | the names in sorted order, whatever order they are taken in |
| `SourceHash.OneSortedOrder` | scripts/alice_bench.py:944 | a set of names has one sorted order |
| `SourceHash.FilesDecideStream` | scripts/alice_bench.py:911-955 | the files decide the stream |
| `SourceHash.StreamDecidesFiles` | scripts/alice_bench.py:911-955 | two sets of files give the same stream only if they are the same |
| `SourceTree.Walk` | scripts/alice_bench.py:925-942 | finds exactly the files outside skipped folders and names, and refuses exactly when it comes to a link or an odd file |
| `SourceTree.SourceStream` | scripts/alice_bench.py:911-955 | refuses exactly when there is no folder or a file that cannot be hashed; otherwise feeds the stream of exactly the tree's files |
| `SourcePaths.ReachesExactly` | scripts/alice_bench.py:925-942 | the walk comes to exactly the entries that names joined by slashes lead to, through no folder called `__pycache__` and not to a file called `.DS_Store` |
| `SourcePaths.RefusedExactly` | scripts/alice_bench.py:922-950 | a tree is refused exactly when it is no folder or holds a link, an odd or unreadable file, a path with a surrogate, or a length of 2 to the 64 or more |
| `SourcePaths.StreamOfOne` | scripts/alice_bench.py:950-954 | a file adds the length of its name in eight bytes, its name, the length of its bytes in eight bytes, and its bytes |
| `SourcePaths.StreamConcat` | scripts/alice_bench.py:943-954 | the stream of more files is their streams one after the other |
| `SourcePaths.BeforeExactly` | scripts/alice_bench.py:944 | names are sorted by their first differing code point, a prefix first |
| `SourceTree.TreeDecidesStream` | scripts/alice_bench.py:911-955 | a tree gives one stream whatever order its folders are listed in |
| `SourceTree.StreamDecidesTree` | scripts/alice_bench.py:911-955 | no two trees give the same stream unless every path leads to the same bytes in both |
| `SourceTree.SameFilesSameStream` | scripts/alice_bench.py:900-906 | trees that differ only in what is skipped give the same stream |
| `McpTheorems.HandleIsHandled` | scripts/real_host_evidence.py:690-742 | what one message does to every mark of the record |
| `McpTheorems.StepKeeps` | scripts/real_host_evidence.py:690-810 | every step keeps the invariant and takes nothing back |
| `McpTheorems.NothingIsWithdrawn` | scripts/real_host_evidence.py:690-810 | `complete`, the end of the probe and the time it was sent are never withdrawn |
| `McpTheorems.AtMostOneProbe` | scripts/real_host_evidence.py:753-768 | at most one probe is written, and a finished probe was sent and leaves the record complete |
| `McpTheorems.MarksAreEvents` | scripts/real_host_evidence.py:690-721 | the record has initialize, initialized and tools/list exactly when they came in |
| `McpTheorems.UnrequestedIsEarlyAnswer` | scripts/real_host_evidence.py:723-730 | an unrequested answer is recorded exactly when an answer came in before the probe was sent |
| `McpTheorems.SentIsWritten` | scripts/real_host_evidence.py:758-768 | the probe counts as sent exactly when some round wrote it |
| `McpTheorems.SentAtWriting` | scripts/real_host_evidence.py:764-765 | the wait is counted from the round that wrote the probe |
| `McpTheorems.FinishedIsEnded` | scripts/real_host_evidence.py:723-772 | the probe has finished exactly when an event after it was its answer or error or let the whole wait pass |
| `McpTheorems.ProbeFollowsInitialized` | scripts/real_host_evidence.py:758-768 | the probe follows `notifications/initialized`, and `tools/list` or the whole grace time |
| `McpEvents.DeclaredByTheLast` | scripts/real_host_evidence.py:694-698 | the record's declaration, and the time of initialize, are those of the last initialize that came in |
| `McpEvents.InitializedByTheLast` | scripts/real_host_evidence.py:708-709 | the time of initialized is that of the last one that came in |
| `McpEvents.LastAnswerDecides` | scripts/real_host_evidence.py:723-742 | the last answer after the probe makes the outcome an error, with its code, when it carries an error object, and otherwise an answer with its number of roots |
| `McpEvents.OutcomeSays` | scripts/real_host_evidence.py:723-772 | over every run: not sent exactly without a probe, no reply exactly with a probe and no answer after it, an error or an answer exactly as the last answer after it says |
| `McpJudge.GivesUpExactly` | scripts/real_host_evidence.py:771-778 | the stub gives up in a round ten seconds after the last initialize in which no initialized has come in |
| `McpJudge.CompleteExactly` | scripts/real_host_evidence.py:744-810 | the record is final exactly when the probe ended, the stub gave up, or an event ended the server |
| `McpJudge.ProbeIsWrittenExactly` | scripts/real_host_evidence.py:756-768 | the probe is written in exactly the first open round in which initialized has come in and tools/list has too or a second and a half has passed |
| `McpJudge.FinishedExactly` | scripts/real_host_evidence.py:723-772 | the probe has finished exactly when it was answered after it was written, or a round at least the whole wait later came with the server still open |
| `McpJudge.WaitedFromProbe` | scripts/real_host_evidence.py:744-749 | the seconds waited run from the round that wrote the probe to the last event that ended it |
| `McpJudge.ReasonSays` | scripts/real_host_evidence.py:771-810 | in a served run the reason is that the stub gave up, or that the input ended before the probe did, or none; the error is that of the event that broke the server |
| `McpJudge.RequestsAreListed` | scripts/real_host_evidence.py:685-693 | the record lists the first hundred methods that came in |
| `McpJudge.OutIsSaid` | scripts/real_host_evidence.py:690-768 | everything written in a run is the reply to each message, method by method, and the probe after those of its round |
| `McpJudge.JudgeNames` | scripts/real_host_evidence.py:1263-1291 | which problem is reported for which events, in the order in which the judge looks |
| `McpJudge.UnfinishedNames` | scripts/real_host_evidence.py:1283-1287 | what the report of an unfinished probe names in a served run: that the stub gave up, that the input ended, the error that broke the server, or nothing |
| `McpJudge.JudgeAcceptsExactly` | scripts/real_host_evidence.py:1263-1291 | no problem is reported exactly when initialize came in, no answer came before the probe, the probe was answered or waited out, and it is not so that the last initialize declared roots and the last answer carries an error object |
| `McpJudge.AcceptedRunStory` | scripts/real_host_evidence.py:629-810 | in an accepted run initialized came, then the probe, and only then an answer, an error or the whole wait |
| `McpStub.Server.Handle` | scripts/real_host_evidence.py:690-721 | one message changes the fields as the step says, also when its reply cannot be written, and otherwise saves the record |
| `McpStub.Server.RootsAnswer` | scripts/real_host_evidence.py:723-742 | an answer changes the fields as the step says, whose outcome `McpEvents.LastAnswerDecides` states |
| `McpStub.Server.Tick` | scripts/real_host_evidence.py:753-778 | the timers change the fields as the step says, and a change is saved |
| `McpStub.Server.Take` | scripts/real_host_evidence.py:791-810 | one event of the loop changes the fields as the step says |
| `McpStub.Server.Serve` | scripts/real_host_evidence.py:780-810 | the state after serving is the run of the events served, serving stops at the first event that ends it, and the file holds the record |
| `NumberedClaims.StepKeeps` | scripts/real_host_evidence.py:487-506 | every step of every process keeps claims distinct and files accounted for, and no file goes away |
| `NumberedClaims.ClaimsAreDistinct` | scripts/real_host_evidence.py:487-506 | two processes never hold the same number, nor one that was there before |
| `NumberedClaims.ClaimIsKept` | scripts/real_host_evidence.py:487-506 | a claim is kept whatever other processes do |
| `NumberedClaims.FilesAreOneToK` | scripts/real_host_evidence.py:487-506 | from a folder with 1 to k0 the files are always 1 to k, one more for each claim, with k at most 99 unless k0 was more |
| `NumberedClaims.GivesUpOnlyWhenFull` | scripts/real_host_evidence.py:498-506 | a process that was not refused by the file system gives up only when 1 to 99 are taken |
| `NumberedClaims.Artifacts.OpenNumbered` | scripts/real_host_evidence.py:487-506 | alone, a call claims n exactly when the folder can be made, n is the first free number, at most 99, and no create up to it is refused; nothing else changes |
| `NumberedClaims.AloneIsOneCall` | scripts/real_host_evidence.py:498-506 | the creates of one process alone end where the loop does |
| `ArchiveChecksums.ChecksumJob.Verify` | scripts/run_archive_maintenance.py:291-380 | passes exactly when nothing is wrong and only then writes the manifest; reports exactly the errors there are and counts exactly the baselined paths that are missing or differ |
| `ArchiveChecksums.Compare` | scripts/run_archive_maintenance.py:327-345 | one error for each baselined path that is missing or differs, and their number |
| `ArchiveChecksums.PassesWithoutErrors` | scripts/run_archive_maintenance.py:310-351 | there is nothing to report exactly when the run accepts the archive |
| `ArchiveChecksums.AcceptsExactly` | scripts/run_archive_maintenance.py:310-351 | a run accepts exactly when the index has no errors, every listed file is there and readable, and every recorded file is listed with its recorded checksum |
| `ArchiveChecksums.RecordsExactly` | scripts/run_archive_maintenance.py:351-368 | an accepting run records the checksum of every listed file and nothing else |
| `ArchiveChecksums.ErrorsExactly` | scripts/run_archive_maintenance.py:310-351 | which errors are reported, kind by kind, and how many paths are not kept |
| `ArchiveChecksums.FirstChecksumIsKept` | scripts/run_archive_maintenance.py:291-380 | over any sequence of runs a path keeps its first recorded checksum |
| `ArchiveChecksums.DriftFailsTheRun` | scripts/run_archive_maintenance.py:327-351 | a run where a baselined path is gone or changed fails and leaves the manifest unchanged |
| `ArchiveChecksums.BrokenIsNeverRepaired` | scripts/run_archive_maintenance.py:346-351 | an unreadable or invalid manifest fails every run and is never written again |
| `ArchiveChecksums.FirstBaselineIsTheLast` | scripts/run_archive_maintenance.py:159-165 | as the index is one of the checked files, the manifest of the first passing run is never changed by a later one |
| `RetrievalCases.RankOf` | scripts/release_check.py:831-835 | the rank is the place of the first matching key, 0 if there is none |
| `RetrievalCases.CaseIssues` | scripts/release_check.py:746-875 | each issue is reported exactly when its own comparison fails, and none exactly when the fields are well formed and the metrics and status are those of the target's displayed rank |
| `RetrievalReport.CaseSays` | scripts/release_check.py:746-875 | an accepted case, field by field: one to five distinct keys, and metrics and status of the target's first place among them, or of no place with a reciprocal rank of 0 or 1/6 through 1/10 |
| `RetrievalCases.AcceptedCaseIsBounded` | scripts/release_check.py:782-864 | the recalls of an accepted case are binary, confine its reciprocal rank, and its status is its recall at 5 |
| `RetrievalSuite.MeanCaseMetric` | scripts/release_check.py:653-662 | the mean over the cases, or none if there is no case or one without the metric |
| `RetrievalSuite.SuiteIssues` | scripts/release_check.py:1461-1580 | no issue is found exactly when cases, counts, overall rates, subset rates and targets are all right |
| `RetrievalReport.SuiteSays` | scripts/release_check.py:1461-1580 | an accepted suite: every case accepted under its key, counts 32 and 16, every rate close to the mean it stands for, and the targets 0.8, 0.6 and 0.7 |
| `RetrievalSuite.AcceptedSuiteIsBounded` | scripts/release_check.py:1461-1580 | r1 + (r5-r1)/5 <= mrr <= r1 + (r5-r1)/2 + (1-r5)/6 up to rounding, overall and in each subset, for any number of cases |
| `RetrievalSuite.OverallIsWeightedMean` | scripts/release_check.py:1461-1580 | overall rates are, up to 2e-9, the case-weighted means of the subset rates with any cases outside both counted in, and no subset is empty |
| `RetrievalSuite.OutsideIsCanonical` | scripts/release_check.py:782-786 | there are cases outside both subsets exactly when some canonical case is, so otherwise the two subsets alone give the overall rates |
| `RetrievalSuite.RecallIsPassShare` | scripts/release_check.py:1474-1486 | the reported recall at 5 is the share of passing cases up to 1e-9 |
| `LineFilling.WrapLine` | scripts/record_demo_vault_gif.py:100-116 | the loop gives the greedy lines, at least one, and one empty line for the empty text |
| `LineFilling.LinesAreGreedy` | scripts/record_demo_vault_gif.py:100-116 | for a text without empty words, the first word of each line did not fit on the line before |
| `LineFilling.LinesJoinBack` | scripts/record_demo_vault_gif.py:100-116 | the lines of a text without empty words join back to it |
| `LineFilling.LinesAreLegal` | scripts/record_demo_vault_gif.py:100-116 | every line fits or is one word, for any text |
| `LineFilling.NoFewerLines` | scripts/record_demo_vault_gif.py:100-116 | no other lines that join back to the text, each fitting or one word, are fewer |
| `LineFilling.LeadingSpaceIsLost` | scripts/record_demo_vault_gif.py:100-116 | a space before a word is lost at any width that takes the empty line |
| `LineFilling.JoinsBackExactly` | scripts/record_demo_vault_gif.py:100-116 | the lines join back at every width exactly when the text is empty or has no empty word |

## Left out

- Floating-point rounding, wall-clock and latency numbers, and SHA-256 itself.
- Negative sample sizes, which the calibration code turns into empty distributions.
- How Python converts numbers, its recursion limit and its limit on digits; a number is the token it prints.
- `SetScores.ScoreSet`: the counts of documents and passages, the per-question table and the means of bytes are not modelled; only totals are kept.
- Loading of question sets, gates and corpora, and the messages of errors: an error is told by its kind.
- `SourceTree.Walk`: which of several refusals is reported first is not modelled, nor folders that cannot be listed.
- Logs that lose part of a line when a process is stopped while it appends.
- SQLite itself, the count of the vectors, and edits of chunk texts in place, which the key is documented not to see.
- Redaction and the environment, folder and probe records of the evidence stub, rounding of `waited_seconds`, and a failed write of the record file.
- Removal of numbered records while processes claim them.
- `ArchiveChecksums.FirstBaselineIsTheLast`: assumes that the index's checksum tells what it lists, as its paths are resolved from its text.
- The index checks of the archive job, whose findings are inputs, and a manifest that changes between runs by other hands.
- The suites of the release check other than retrieval.
- `RetrievalSuite.SuiteIssues`: the checks of the retrieval suite that read no rate are one input (`otherChecks`), and which issues of the suite as a whole are reported is not stated, only whether there are any.
- `ArchiveChecksums.ChecksumJob.Verify`: the order of the errors is not stated.
- The product package, HTTP, git, grep and subprocess calls, argument parsing, report printing, host runners and image drawing.

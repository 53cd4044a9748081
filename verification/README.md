# Trend Hunter Pro: a Dafny model of the scan, scoring and trends core

This project models the core of `server.py`, the single-file news-and-trends
monitor: the text canonicalisation every comparison goes through
(`normalize_text`), the selection of news and trending items from the two RSS
feeds, the relevance score of an article (`calc_trend_score`), the scan that
gathers news for every tracked keyword and upserts it into the news table
(`scan_now`), the last-hour interest pipeline of the trends API (guard-prefix
stripping, batching in eights, timeline extraction, per-keyword aggregates and
ordering), the related-query discovery merge (`build_discover_queries`), the
two time-to-live caches in front of the API, and the auto-scan decision.

Everything is pure: the database is an explicit `Scan.ScanState` (the news
table as a map keyed by link, the scan audit log, the last-scan setting, the
scan flag and the auto-scan timestamp), and the outside world (the feeds, the
API requests, the clock, the date parser and storage faults) enters as
parameters: `Scan.ScanEnv`, and `fetch` functions in `Interest`, `Discover`
and `Cache`. Floats are modelled as exact reals, and `round(x, 2)` as
round-half-to-even on the exact value.

Modules, one file each: `Wrappers` (Option), `Seqs` (comprehensions, the
"first n, skip the bad ones" loop, sums, flattening), `Text`, `Ordering`
(Python's stable sort as insertion sort, code-point string order), `Feeds`,
`Scoring`, `Interest`, `Discover`, `Cache`, `Scan`, `Scheduler`.

Where the code and its written description disagree, the model follows the
code:
- One hour after publication the recency term is `int(45 - 3.5) = 41`, not
  45. 45 is the value at age zero. `Scoring.ElectionsScenario` proves the
  resulting score of 88.
- An update of a known link overwrites `published_at` with the new item's
  value (`COALESCE(?, published_at)` with a never-null parameter). It does
  not just fill it in when it was missing.
- The last-hour items are ordered by the rounded `avg_20m`, because the sort
  runs on the item dicts after rounding.
- Discovery attributes a related-query list to the keyword that the lookup
  result carries. With the cache this can be an earlier spelling of the
  keyword that shares its canonical form.

## Model

| member | source | states |
|---|---|---|
| Text.Strip | server.py:139 | `str.strip()`: the result has no whitespace at either end, is empty exactly when the input was all whitespace, and keeps collapsed text collapsed |
| Text.Collapse | server.py:139 | `re.sub(r"\s+", " ", ·)`: no whitespace other than single spaces remains, and whitespace-only and emptiness are preserved |
| Text.CollapseLast | server.py:139 | a trailing whitespace run also becomes one space: the collapsed text ends in whitespace exactly when the input does |
| Text.StripIsSlice | server.py:139 | `str.strip()` returns a contiguous slice of its input with only whitespace cut away on either side |
| Text.WordsStrip | server.py:139 | stripping keeps every word of the input, in order |
| Text.WordsCollapse | server.py:139 | `re.sub(r"\s+", " ", ·)` keeps every word of the input, in order (the inverse direction to `Text.JoinedWords`) |
| Text.JoinedWords | server.py:139 | a trimmed string whose only whitespace is single spaces is recovered by joining its words with one space |
| Text.NormalizeIsJoinedWords | server.py:138-139 | `normalize_text(s)` equals the words of `s` (as `s.split()` gives them) joined by single spaces and lower-cased |
| Text.Lower | server.py:139 | lower-casing acts character by character and keeps the length |
| Text.NormalizeIdempotent | server.py:138-139 | `normalize_text` is idempotent, and its fixed points are exactly the canonical strings (no upper case, single inner spaces, trimmed) |
| Text.NormalizeIsNormal | server.py:138-139 | every output of `normalize_text` is in canonical form |
| Text.NormalizeEmpty | server.py:138-139 | the canonical form is empty exactly when the input is all whitespace |
| Text.SubstringAt | server.py:504 | Python's `in` on strings holds exactly when the needle occurs at some position |
| Text.SplitThenJoin | server.py:512 | joining the pieces of `split(" ")` back with the separator gives the original phrase |
| Text.JoinThenSplit | server.py:476 | splitting a join of separator-free pieces gives the pieces back |
| Seqs.Collect | server.py:155-172 | the "first `max_items` entries, skip the unusable ones" loop: at most `limit` results, and exactly the usable values among the first `limit` entries |
| Seqs.CollectIndicesShape | server.py:155-172 | the positions the loop keeps are strictly increasing and include every usable position among the first `limit` entries |
| Seqs.CollectInOrder | server.py:155-172 | the loop keeps order and multiplicity: the i-th result is the value of the i-th kept position, so each usable entry yields exactly one value, in entry order |
| Seqs.CollectTruncates | server.py:155 | entries past the limit are never looked at |
| Ordering.SortBySorted | server.py:407-414 | the sort returns its input ordered by the key comparison whenever that comparison is a strict weak order |
| Ordering.SortByKeepsSorted | server.py:471 | a list that is already in order is returned unchanged, so tied elements keep their input order |
| Ordering.SortByPermutation | server.py:476 | under a total order the sorted result depends only on the multiset of the input |
| Ordering.StrLessIsTotalOrder | server.py:476 | `str` comparison, used by `sorted()` on the canonical keywords, is a strict total order |
| Feeds.ToNewsItem | server.py:156-172 | an entry yields a candidate exactly when its stripped title and stripped link are both non-empty; title, link and source are the stripped texts, a missing or empty source becoming "Google News"; the keyword and publication time are carried over |
| Feeds.SelectNews | server.py:148-173 | at most `max_items` candidates, exactly those of the first `max_items` entries with a title and a link, each well-formed and tagged with the keyword |
| Feeds.SelectNewsInOrder | server.py:155-172 | the candidates appear in document order, one for each entry with a title and a link among the first `max_items` |
| Feeds.TrendPhrase | server.py:182-184 | a trending entry contributes exactly when its stripped title is non-empty, and then contributes `normalize_text` of that title, a non-empty canonical phrase |
| Feeds.SelectTrends | server.py:176-185 | at most `max_items` phrases, exactly those of the first `max_items` entries with a non-blank title, each non-empty and already canonical |
| Scoring.Truncate | server.py:500 | `int()` on a float truncates toward zero, for both signs |
| Scoring.Recency | server.py:490-501 | the recency term lies in 0..45; it is 45 for an article dated in the future or now and 0 from 90/7 hours on, and in between it is `45 - 3.5 × age` truncated |
| Scoring.RecencyAntitone | server.py:490-501 | an older article never gets a larger recency term |
| Scoring.DensityBonus | server.py:520 | the density bonus is twice the item count, capped at 20 |
| Scoring.DensityBonusMonotone | server.py:520 | more items for a keyword never lower its bonus |
| Scoring.KeywordBonusIff | server.py:503-505 | the +20 is earned exactly when the non-empty canonical keyword occurs at some position of the canonical title, so a blank keyword never earns it |
| Scoring.AnyWordHitsIff | server.py:512 | the `any(...)` over the words of a phrase holds exactly when some word longer than four characters occurs in the title |
| Scoring.TrendHit | server.py:507-515 | the phrase loop finds a hit exactly when some non-empty phrase occurs in the title or has a word longer than four characters that does |
| Scoring.TrendHitIff | server.py:507-515 | the same hit condition stated positionally, with occurrence positions and split words |
| Scoring.TrendSignal | server.py:508-517 | the signal is 0 or 1, and 1 exactly when some trending phrase matches the canonical title |
| Scoring.CalcTrendScore | server.py:488-524 | the score lies in 0..100 and the signal is 0 or 1; the signal is 1 exactly when some trending phrase matches the canonical title; the score is the sum of the four terms capped at 100 |
| Scoring.ScoreMonotoneInDensity | server.py:519-523 | more coverage of a keyword never lowers a score and never changes the signal |
| Scoring.ScoreAntitoneInAge | server.py:498-523 | the same article scores no higher when older |
| Scoring.NoTrendsNoSignal | server.py:507-523 | with no trending phrases there is no signal, and the score is at most 85 |
| Scoring.ElectionsScenario | server.py:488-524 | "Elections Results Announced" under "elections", one hour old, with "elections results" trending and density 1, scores 88 with signal 1 |
| Scoring.ScenarioFromNormalForms | server.py:488-524 | the same score of 88 with signal 1 for every title and keyword whose canonical forms are "elections results announced" and "elections" |
| Interest.StripGuard | server.py:191 | text without the `)]}'` prefix is unchanged; otherwise the result is a suffix, after the prefix, that starts with no whitespace |
| Interest.StripGuardAfterPrefix | server.py:191 | after the prefix, one optional comma and then the leading whitespace are removed |
| Interest.GuardRoundTrip | server.py:188-192 | a JSON body behind the prefix, a comma and any whitespace comes back intact |
| Interest.GuardRoundTripNoComma | server.py:188-192 | the comma is optional: without it the body also comes back, unless the body itself starts with a comma right after the prefix |
| Interest.Chunked | server.py:195-196 | the chunks concatenate back to the input; each has between 1 and `size` items; every chunk but the last is full; there are no chunks exactly when there are no items |
| Interest.TenKeywordsTwoBatches | server.py:430 | ten keywords are sent as a batch of the first eight and a batch of the last two |
| Interest.ExtractTimeline | server.py:244-257 | the result has an entry for exactly the batch's keywords |
| Interest.TimelineColumns | server.py:244-257 | with distinct keywords, each keyword's series is its column of the timeline: one value per row, 0 where the column is missing or did not convert |
| Interest.SetDefaults | server.py:434-436 | a failed batch adds an empty series for each of its keywords that had none and changes no existing series |
| Interest.CollectSeriesFromOwnBatch | server.py:429-436 | a keyword of exactly one batch gets its column when that batch returned a timeline, and an empty series when it raised or had no data |
| Interest.AbsentFromAll | server.py:429-436 | a keyword in no batch gets no entry |
| Interest.Tail | server.py:455 | `series[-20:]` has `min(20, len)` points and is a suffix of the series |
| Interest.Head | server.py:456 | `series[:20]` has `min(20, len)` points and is a prefix of the series |
| Interest.Cents | server.py:464-466 | the whole number of hundredths `round` picks is the nearest one to the value, and the even one when two are equally near |
| Interest.NearestWhole | server.py:464-466 | a whole number within one half of a value, even on an exact half, is the nearest whole number with ties to even |
| Interest.Round2 | server.py:464-466 | `round(x, 2)` is a whole number of hundredths, the nearest one to `x` (so within 0.005), the even one on a tie |
| Interest.Round2Ties | server.py:464-466 | ties go to the even hundredth: 0.125 gives 0.12 and 0.375 gives 0.38 |
| Interest.Round2Monotone | server.py:464-466 | rounding never reverses an order |
| Interest.Round2Within | server.py:464-466 | a value between two whole numbers stays between them once rounded |
| Interest.ItemFor | server.py:440-468 | an empty series gives an all-zero item with no points; otherwise the latest index is the last point, and the aggregates are `round(·, 2)` of the 60-minute mean, the last-20 mean, and the last-20 minus first-20 means; with 20 points or fewer the delta is 0 and the two means agree |
| Interest.ItemBounds | server.py:452-466 | every mean lies within the range of the points, and the delta within plus or minus the spread |
| Interest.FlatSeries | server.py:452-466 | a constant series has every mean equal to its value and a zero delta |
| Interest.RanksAboveIsWeakOrder | server.py:471 | the `(latest_index, avg_20m)` descending key is a strict weak order |
| Interest.KeywordItems | server.py:438-469 | one item per keyword, in keyword order |
| Interest.BuildLastHourTrends | server.py:425-472 | the result is a permutation of the per-keyword items, so it has each keyword as often as the input does, and it is ordered by latest index, then 20-minute mean, highest first |
| Interest.FlattenNoDup | server.py:430 | when the keywords are distinct, no batch repeats a keyword and no keyword is in two batches |
| Interest.BatchIsolation | server.py:429-469 | with distinct keywords a failed or empty batch only zeroes its own keywords' items, and a keyword of a batch with a timeline gets its own column |
| Discover.PickMode | server.py:380 | the mode is "top" exactly when the request says "top", and "rising" for anything else |
| Discover.RowFor | server.py:367-378 | a lookup that raised is replaced by an empty result under the keyword itself; otherwise the lookup's result is used |
| Discover.GatherAppend | server.py:367-390 | rows are visited in keyword order: gathering two keyword lists one after the other gives the two gatherings concatenated |
| Discover.GatherSingle | server.py:367-390 | one keyword gathers the usable related queries of its own row, which with `Discover.GatherAppend` fixes the gathered sequence |
| Discover.ContributionOf | server.py:385-390 | a related query takes part exactly when its stripped text is non-empty, under the canonical form of that text, with its value and formatted value |
| Discover.ContributionsOf | server.py:385-390 | the contributions of one list are exactly those of its items with a non-empty query |
| Discover.ContributionsInOrder | server.py:383-390 | the contributions of one list come in list order, one for each item with a non-empty query, which fixes the first spelling and the last formatted value the merge keeps |
| Discover.FindKey | server.py:391-392 | the merged-dict lookup finds a position holding the key, or reports that no entry has it |
| Discover.Update | server.py:401-404 | the kept value is the larger of the two; a non-empty formatted value replaces the old one; the source keyword is added once, and only when non-empty |
| Discover.Absorb | server.py:386-404 | one merge step keeps the existing keys in place, appends a new key at the end, and preserves distinct keys |
| Discover.MergeKeys | server.py:381-404 | the merged entries have distinct keys, each key comes from some contribution, and every contribution's key has an entry |
| Discover.MergeFaithful | server.py:381-404 | every merged entry holds the largest value seen for its key (and one that was seen), the query text of the first contribution with the key, the last non-empty formatted value (or "" if none), and exactly the non-empty contributing keywords, each once |
| Discover.BreakoutLabels | server.py:409 | the breakout test ignores case: "Breakout", "BREAKOUT" and "Hızlı Artış" are breakouts and "+250%" is not |
| Discover.RanksAboveIsWeakOrder | server.py:407-414 | the `(breakout, value, number of keywords)` descending key is a strict weak order |
| Discover.BuildDiscoverQueries | server.py:355-422 | with no keywords the request's mode string is echoed unchanged with no keywords and no items; otherwise the mode is "top" exactly when the request says "top" and "rising" otherwise, and the keywords are echoed; the items are a permutation of the merged entries, ordered by the key, with no key twice |
| Discover.DiscoverItemsFaithful | server.py:381-414 | every ranked item is faithful to the related queries it merges |
| Discover.DiscoverCovers | server.py:381-414 | every related query with non-empty text is represented by a ranked item under its canonical text |
| Cache.RelatedKeyCanonical | server.py:344 | a keyword and its canonical form share one related-cache key |
| Cache.CachedRelated | server.py:341-352 | the lookup fetches exactly when the entry is missing, stale or a refresh is forced; a hit returns the stored data and leaves the cache alone; a successful fetch is stored with the current time; a fetch that raised stores nothing |
| Cache.RelatedSecondCallHits | server.py:346-351 | after a successful fetch, asking again within the time to live does not fetch and returns the same data |
| Cache.RelatedForceFetches | server.py:347 | a forced refresh always fetches |
| Cache.RelatedOtherKeysUnchanged | server.py:350-351 | a lookup touches no other key |
| Cache.FirstLookupFetches | server.py:34-38 | the initial empty slot, stamped at time zero, misses once the clock is past the time to live, even for an empty keyword list |
| Cache.SignatureOrderFree | server.py:476 | the keyword-set signature does not depend on the order of the keywords |
| Cache.SignatureCanonical | server.py:476 | keyword lists with the same canonical forms have the same signature |
| Cache.CachedLastHourTrends | server.py:475-485 | the slot answers exactly when the signature matches, the entry is fresh and no refresh is forced; a miss rebuilds the items and replaces the whole slot |
| Cache.TrendsSecondCallHits | server.py:475-485 | after a rebuild, the same keywords in any order within the time to live are answered from the slot |
| Cache.TrendsThrash | server.py:475-485 | alternating between two keyword sets with different signatures fetches every time, because the slot holds only one set |
| Scan.ErrorOf | server.py:530-531 | a response carries an error exactly when the scan did not complete |
| Scan.PerKeyword | server.py:564-570 | one list of items per keyword, in keyword order; a feed that raised gives no items |
| Scan.Density | server.py:563-570 | `keyword_density` has exactly the scanned keywords as keys, each mapped to its item count |
| Scan.GatheredIsDensitySum | server.py:562-576 | the number of gathered items is the sum of the keyword densities |
| Scan.UpsertOne | server.py:585-618 | one upsert adds the item's link to the table and changes no other link |
| Scan.UpsertAll | server.py:576-618 | the table afterwards holds exactly its old links and the gathered links |
| Scan.UpsertCount | server.py:576-603 | the number of new articles is the number of links the table did not have, and at most the number of items |
| Scan.UpsertOtherLink | server.py:604-618 | a link that no gathered item carries is left as it was |
| Scan.UpsertLastWins | server.py:604-618 | a link's score, signal, keyword and publication time come from the last gathered item with that link |
| Scan.UpsertKnownLink | server.py:604-618 | a known link keeps its title, flags and discovery time, and keeps its source unless that was null, in which case the first item's source fills it |
| Scan.UpsertNewLink | server.py:585-603 | a link the table did not have is inserted from the first item carrying it, flagged new, not saved, and discovered now |
| Scan.Abort | server.py:637-643 | a storage fault keeps the rows written before it, appends one failed audit row, and moves no timestamp |
| Scan.Finish | server.py:576-636 | a completed scan upserts every item, reports the processed, new and total counts, closes its audit row with them, and sets both scan timestamps |
| Scan.ScanNow | server.py:527-647 | `scan_now` answers busy exactly when a scan is already running, and then changes nothing; with no keywords it fails early and leaves the news table alone; otherwise it completes exactly when no storage fault strikes a gathered item (the details are in the lemmas below) |
| Scan.BusyChangesNothing | server.py:530-531 | a scan that finds another one running answers "Tarama zaten devam ediyor." and changes nothing, not even the audit log |
| Scan.ScanAudited | server.py:533-647 | every scan past the flag appends exactly one audit row, started and finished now, successful exactly when the scan completed |
| Scan.NoKeywordsFailsEarly | server.py:547-553 | with no keywords the outcome does not depend on the feeds, the news table is untouched, and the audit row and response carry the two error texts |
| Scan.TimestampsOnlyOnSuccess | server.py:626-627 | the last-scan setting and the auto-scan time move exactly when a scan completes |
| Scan.CompletedCounts | server.py:562-636 | a completed scan processes as many items as the densities add up to; its new articles are exactly the links the table lacked; its total is the size of the table afterwards |
| Scan.FaultKeepsPrefix | server.py:576-643 | a fault at item k leaves exactly the links of the items before k added, and the response reads "Tarama hatasi: " followed by the message |
| Scheduler.ClampInterval | server.py:1009 | the interval lies in 2..180, an in-range value is kept, and out-of-range values go to the nearer bound |
| Scheduler.ShouldAutoScanMonotone | server.py:1007-1015 | once a pass would fire, a later pass with the same settings fires too |
| Scheduler.AutoScanWindow | server.py:1007-1015 | with auto-scan on, a pass three hours after the last auto-scan always fires, and one within two minutes of a recorded auto-scan never does |
| Scheduler.Tick | server.py:1002-1018 | a pass starts a scan exactly when the decision says so, and then its state and result are those of `scan_now`; otherwise it changes nothing |
| Scheduler.TickFiredPass | server.py:1010-1015 | a pass that fires while no scan is running adds one audit row, successful exactly when the scan completed, and moves the auto-scan time to now exactly on success |
| Scheduler.NoRefireAfterSuccess | server.py:1002-1018 | after a pass whose scan completed, no pass fires within two minutes, whatever the settings |
| Scheduler.TickWhileScanning | server.py:530-531 | a pass that finds a scan running leaves the state as it was |

## Left out

- HTTP, RSS and JSON: `fetch_xml`, the XML parser, `json.loads`, the explore/widget request plumbing, `trends_explore_widgets_for_keywords` and `fetch_related_queries_for_keyword`, including its `normalize_items`. Their results enter as parameters: parsed feed entries, a `BatchOutcome` per batch, and an optional `RelatedResult` per keyword.
- `parse_pub_date` and the clock: each article's age in hours and the scan's timestamps are inputs (`ScanEnv.ageHours`, `nowIso`, `nowSecs`). One scan uses a single timestamp for all the `now_iso()` calls it makes.
- Floating point: values are exact reals, so binary rounding error and `round()`'s behaviour on values that are not exactly representable are not modelled.
- Threading: `SCAN_LOCK` is the `locked` flag of the state. The worker thread's `sleep(8)` loop is one `Scheduler.Tick` per pass.
- SQL and the schema: tables are maps and sequences. Storage errors other than one fault during the upsert loop are not modelled: a failing `INSERT` of the audit row, a failing keyword query, or a failure after the loop.
- Scan.ScanNow: a failure of `get_conn()`, of the audit-row `INSERT` or of its `commit` (server.py:533-539) happens before the `try`, so the `finally` that releases `SCAN_LOCK` and clears `IS_SCANNING` never runs. From then on every scan and every auto-scan pass answers "Tarama zaten devam ediyor.". The model has no such path, so its promise that a scan leaves the flag as it found it (`ScanNow`, `ScanAudited`) covers only the paths it models.
- Text.Lower: lower-cases ASCII, Latin-1 and Latin Extended-A letters only. Other scripts, and U+0130, whose Python lower case is two characters, are left unchanged.
- The HTTP handlers, settings storage, status reading, pagination, saving and deleting articles or keywords, and the static file server are not part of this model. The interval clamp is shared with the settings handler and is modelled once.
- Scheduler.Settings: the result of `int()` on the interval setting is taken as given (`None` when it raised). The text parsing itself is not modelled.
- Discover.BuildDiscoverQueries: the related lookups are an abstract `fetch`. The cache threaded through the keyword loop is modelled separately as `Cache.CachedRelated`.
- The `generated_at` and `timeframe` fields of the responses are not modelled. They are copied through or stamped with the clock.
- Ordering.SortBy: stability is shown only for input that is already in order (`SortByKeepsSorted`). The relative order of tied elements in general is not stated.
- `RelatedQuery.value` is an integer. A `null` value, which the merge reads as 0, is not distinguished from 0.

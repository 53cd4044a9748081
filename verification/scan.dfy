/** `scan_now`: one scan over the tracked keywords, upserting the news it
    finds. The database is an explicit state record (the news table keyed by
    link, the scan audit log, the last-scan setting and the in-memory scan
    flag and auto-scan timestamp); the feeds, the clock and the date parser
    are fields of a `ScanEnv`. */
module Scan {
  import opened Wrappers
  import opened Seqs
  import opened Scoring
  import opened Feeds

  /** A row of the `news` table. `source` and `publishedAt` are nullable
      columns. */
  datatype Article = Article(
    title: string,
    link: string,
    source: Option<string>,
    publishedAt: Option<string>,
    keyword: string,
    trendScore: int,
    trendSignal: int,
    isNew: bool,
    saved: bool,
    discoveredAt: string)

  /** A row of the `scans` table. */
  datatype AuditEntry = AuditEntry(
    startedAt: string,
    finishedAt: Option<string>,
    newArticles: nat,
    totalArticles: nat,
    success: bool,
    error: Option<string>)

  /** Everything a scan reads or writes. `keywords` is the keyword table in
      the order the scan reads it (newest first). */
  datatype ScanState = ScanState(
    locked: bool,
    keywords: seq<string>,
    news: map<string, Article>,
    audit: seq<AuditEntry>,
    lastScanTime: Option<string>,
    lastAutoScanAt: real)

  /** A storage error raised while upserting the gathered item at position
      `atItem`, with the text of the exception. */
  datatype Fault = Fault(atItem: nat, message: string)

  /** What the scan receives from the outside world: the ISO timestamp and
      the epoch seconds of "now" (one value per scan), the trending feed
      and the news feed of each keyword (`None` when the request raised),
      the age in hours of a `published_at` value, and an optional storage
      fault. */
  datatype ScanEnv = ScanEnv(
    nowIso: string,
    nowSecs: real,
    trendsFeed: Option<seq<RawTrendEntry>>,
    newsFeed: string -> Option<seq<RawNewsEntry>>,
    ageHours: string -> real,
    fault: Option<Fault>)

  datatype ScanResult =
    | Busy
    | NoKeywords
    | Completed(newArticles: nat, totalProcessed: nat, totalArticles: nat)
    | Failed(message: string)

  datatype ScanOutcome = ScanOutcome(state: ScanState, result: ScanResult)

  const BusyError := "Tarama zaten devam ediyor."
  const NoKeywordsError := "Lutfen once anahtar kelime ekleyin."
  /** The error recorded in the audit row of a scan with no keywords. */
  const NoKeywordsAudit := "Anahtar kelime yok"
  const FailurePrefix := "Tarama hatasi: "

  /** The `error` field of the response, if any. */
  function ErrorOf(r: ScanResult): (e: Option<string>)
    ensures e.None? <==> r.Completed?
  {
    match r
    case Busy => Some(BusyError)
    case NoKeywords => Some(NoKeywordsError)
    case Completed(_, _, _) => None
    case Failed(msg) => Some(FailurePrefix + msg)
  }

  /** The trending phrases: the feed's selection, or none when it raised. */
  function Trends(env: ScanEnv): seq<string> {
    match env.trendsFeed
    case Some(entries) => SelectTrends(entries, TrendsLimit)
    case None => []
  }

  /** `fetch_google_news(kw, max_items=25)`, or no items when it raised. */
  function FetchNews(env: ScanEnv, kw: string): seq<NewsItem> {
    match env.newsFeed(kw)
    case Some(entries) => SelectNews(entries, kw, ScanNewsLimit)
    case None => []
  }

  function CountNews(env: ScanEnv, kw: string): nat {
    |FetchNews(env, kw)|
  }

  /** The items of each keyword, in keyword order. */
  function PerKeyword(env: ScanEnv, keywords: seq<string>): (chunks: seq<seq<NewsItem>>)
    ensures |chunks| == |keywords|
    ensures forall i :: 0 <= i < |keywords| ==> chunks[i] == FetchNews(env, keywords[i])
  {
    seq(|keywords|, i requires 0 <= i < |keywords| => FetchNews(env, keywords[i]))
  }

  /** `gathered`: every keyword's items, keyword by keyword. */
  function Gathered(env: ScanEnv, keywords: seq<string>): seq<NewsItem> {
    Flatten(PerKeyword(env, keywords))
  }

  /** `keyword_density`: the number of items each keyword yielded. */
  function Density(env: ScanEnv, keywords: seq<string>): (d: map<string, nat>)
    ensures d.Keys == set i | 0 <= i < |keywords| :: keywords[i]
    ensures forall kw :: kw in d ==> d[kw] == CountNews(env, kw)
  {
    map kw | kw in keywords :: CountNews(env, kw)
  }

  /** The densities in keyword order. */
  function Densities(env: ScanEnv, keywords: seq<string>): (ds: seq<int>)
    ensures |ds| == |keywords|
    ensures forall i :: 0 <= i < |keywords| ==> ds[i] == Density(env, keywords)[keywords[i]]
  {
    seq(|keywords|, i requires 0 <= i < |keywords| => Density(env, keywords)[keywords[i]])
  }

  function Lengths<T>(chunks: seq<seq<T>>): (ls: seq<int>)
    ensures |ls| == |chunks|
    ensures forall i :: 0 <= i < |chunks| ==> ls[i] == |chunks[i]|
  {
    seq(|chunks|, i requires 0 <= i < |chunks| => |chunks[i]|)
  }

  lemma {:induction false} FlattenLength<T>(chunks: seq<seq<T>>)
    ensures |Flatten(chunks)| == Sum(Lengths(chunks))
    decreases |chunks|
  {
    if |chunks| > 0 {
      FlattenLength(chunks[1..]);
      assert Lengths(chunks) == [|chunks[0]|] + Lengths(chunks[1..]);
      SumConcat([|chunks[0]|], Lengths(chunks[1..]));
      assert Sum([|chunks[0]|]) == Sum([]) + |chunks[0]|;
    }
  }

  /** The number of items processed is the sum of the keyword densities. */
  lemma GatheredIsDensitySum(env: ScanEnv, keywords: seq<string>)
    ensures |Gathered(env, keywords)| == Sum(Densities(env, keywords))
  {
    FlattenLength(PerKeyword(env, keywords));
    assert Lengths(PerKeyword(env, keywords)) == Densities(env, keywords);
  }

  /** The score of one gathered item. */
  function ScoreItem(env: ScanEnv, trends: seq<string>, density: map<string, nat>, it: NewsItem): TrendScore {
    CalcTrendScore(it.title, it.keyword, env.ageHours(it.publishedAt), trends,
                   if it.keyword in density then density[it.keyword] else 0)
  }

  /** The scorer a scan applies to its gathered items. */
  function ScanScorer(env: ScanEnv, keywords: seq<string>): NewsItem -> TrendScore {
    it => ScoreItem(env, Trends(env), Density(env, keywords), it)
  }

  /** The row inserted for an unseen link. */
  function Inserted(it: NewsItem, sc: TrendScore, nowIso: string): Article {
    Article(it.title, it.link, Some(it.source), Some(it.publishedAt), it.keyword,
            sc.score, sc.signal, true, false, nowIso)
  }

  /** The update of a known link: new score, signal and keyword, the source
      filled only if it was null, and the new publication time. */
  function Refresh(a: Article, it: NewsItem, sc: TrendScore): Article {
    a.(trendScore := sc.score, trendSignal := sc.signal, keyword := it.keyword,
       source := if a.source.Some? then a.source else Some(it.source),
       publishedAt := Some(it.publishedAt))
  }

  /** One iteration of the upsert loop. The `INSERT` fails on a known link
      and the `UPDATE` runs instead. */
  function UpsertOne(store: map<string, Article>, it: NewsItem, sc: TrendScore, nowIso: string)
    : (r: map<string, Article>)
    ensures r.Keys == store.Keys + {it.link}
    ensures forall k :: k in store && k != it.link ==> r[k] == store[k]
  {
    if it.link in store then store[it.link := Refresh(store[it.link], it, sc)]
    else store[it.link := Inserted(it, sc, nowIso)]
  }

  /** The news table after upserting some items, and how many were new. */
  datatype Upserted = Upserted(store: map<string, Article>, inserted: nat)

  function LinksOf(items: seq<NewsItem>): set<string> {
    set i | 0 <= i < |items| :: items[i].link
  }

  lemma LinksOfSnoc(items: seq<NewsItem>)
    requires |items| > 0
    ensures LinksOf(items) == LinksOf(items[..|items| - 1]) + {items[|items| - 1].link}
  {
    var n := |items| - 1;
    assert forall i :: 0 <= i < n ==> items[..n][i] == items[i];
  }

  /** The upsert loop over the gathered items. */
  function UpsertAll(news: map<string, Article>, items: seq<NewsItem>, score: NewsItem -> TrendScore,
                     nowIso: string): (r: Upserted)
    ensures r.store.Keys == news.Keys + LinksOf(items)
    decreases |items|
  {
    if |items| == 0 then Upserted(news, 0)
    else
      var n := |items| - 1;
      var prev := UpsertAll(news, items[..n], score, nowIso);
      var it := items[n];
      LinksOfSnoc(items);
      Upserted(UpsertOne(prev.store, it, score(it), nowIso),
               if it.link in prev.store then prev.inserted else prev.inserted + 1)
  }

  /** The count of new articles is the number of links the table did not
      have before, and never more than the items processed. */
  lemma {:induction false} UpsertCount(news: map<string, Article>, items: seq<NewsItem>,
                                       score: NewsItem -> TrendScore, nowIso: string)
    ensures var r := UpsertAll(news, items, score, nowIso);
      r.inserted == |r.store.Keys - news.Keys| && r.inserted <= |items|
    decreases |items|
  {
    var r := UpsertAll(news, items, score, nowIso);
    if |items| == 0 {
      assert r.store.Keys - news.Keys == {};
    } else {
      var n := |items| - 1;
      var prev := UpsertAll(news, items[..n], score, nowIso);
      UpsertCount(news, items[..n], score, nowIso);
      var link := items[n].link;
      assert r.store.Keys == prev.store.Keys + {link};
      assert r.inserted == if link in prev.store then prev.inserted else prev.inserted + 1;
      AddedCount(news.Keys, prev.store.Keys, link);
    }
  }

  /** Adding a key to a table grows the set of added keys by one exactly
      when the key is not already there. */
  lemma AddedCount(before: set<string>, keys: set<string>, link: string)
    requires before <= keys
    ensures |(keys + {link}) - before| == if link in keys then |keys - before| else |keys - before| + 1
  {
    if link !in keys {
      var added := keys - before;
      assert (keys + {link}) - before == added + {link};
      CardAddOne(added, link);
    } else {
      assert keys + {link} == keys;
    }
  }

  lemma CardAddOne<T>(a: set<T>, x: T)
    requires x !in a
    ensures |a + {x}| == |a| + 1
  {
  }

  /** The position of the last item with the given link, or -1. */
  function LastIndex(items: seq<NewsItem>, link: string): (l: int)
    ensures -1 <= l < |items|
    ensures l >= 0 ==> items[l].link == link && forall j :: l < j < |items| ==> items[j].link != link
    ensures l == -1 ==> forall j :: 0 <= j < |items| ==> items[j].link != link
    decreases |items|
  {
    if |items| == 0 then -1
    else if items[|items| - 1].link == link then |items| - 1
    else LastIndex(items[..|items| - 1], link)
  }

  /** The position of the first item with the given link, or -1. */
  function FirstIndex(items: seq<NewsItem>, link: string): (f: int)
    ensures -1 <= f < |items|
    ensures f >= 0 ==> items[f].link == link && forall j :: 0 <= j < f ==> items[j].link != link
    ensures f == -1 ==> forall j :: 0 <= j < |items| ==> items[j].link != link
    decreases |items|
  {
    if |items| == 0 then -1
    else if items[0].link == link then 0
    else
      var f := FirstIndex(items[1..], link);
      assert forall j :: 1 <= j < |items| ==> items[j] == items[1..][j - 1];
      if f == -1 then -1 else f + 1
  }

  /** Appending an item moves the first position of a link only when the
      link had no position yet. */
  lemma FirstIndexSnoc(items: seq<NewsItem>, link: string)
    requires |items| > 0
    ensures var n := |items| - 1;
      var fp := FirstIndex(items[..n], link);
      FirstIndex(items, link) == if fp >= 0 then fp else if items[n].link == link then n else -1
  {
    var n := |items| - 1;
    assert forall j :: 0 <= j < n ==> items[..n][j] == items[j];
  }

  /** A link no item carries is left as it was. */
  lemma {:induction false} UpsertOtherLink(news: map<string, Article>, items: seq<NewsItem>,
                                           score: NewsItem -> TrendScore, nowIso: string, link: string)
    requires LastIndex(items, link) == -1
    ensures var m := UpsertAll(news, items, score, nowIso).store;
      (link in m <==> link in news) && (link in news ==> m[link] == news[link])
    decreases |items|
  {
    if |items| > 0 {
      var n := |items| - 1;
      assert items[n].link != link;
      assert LastIndex(items[..n], link) == -1;
      UpsertOtherLink(news, items[..n], score, nowIso, link);
      var prev := UpsertAll(news, items[..n], score, nowIso).store;
      assert UpsertAll(news, items, score, nowIso).store == UpsertOne(prev, items[n], score(items[n]), nowIso);
    }
  }

  /** The score, signal, keyword and publication time of a link come from
      the last item with that link. */
  ghost predicate RefreshedBy(a: Article, it: NewsItem, sc: TrendScore) {
    && a.trendScore == sc.score && a.trendSignal == sc.signal
    && a.keyword == it.keyword && a.publishedAt == Some(it.publishedAt)
  }

  lemma {:induction false} UpsertLastWins(news: map<string, Article>, items: seq<NewsItem>,
                                          score: NewsItem -> TrendScore, nowIso: string, link: string)
    requires LastIndex(items, link) >= 0
    ensures var m := UpsertAll(news, items, score, nowIso).store;
      var l := LastIndex(items, link);
      link in m && RefreshedBy(m[link], items[l], score(items[l]))
    decreases |items|
  {
    var n := |items| - 1;
    if items[n].link != link {
      UpsertLastWins(news, items[..n], score, nowIso, link);
    }
  }

  /** The columns an update never touches. */
  ghost predicate Untouched(a: Article, before: Article) {
    a.title == before.title && a.link == before.link && a.isNew == before.isNew
    && a.saved == before.saved && a.discoveredAt == before.discoveredAt
  }

  /** A known link keeps its title, flags and discovery time, and its
      source unless that was null, when the first item's source fills it. */
  lemma {:induction false} UpsertKnownLink(news: map<string, Article>, items: seq<NewsItem>,
                                           score: NewsItem -> TrendScore, nowIso: string, link: string)
    requires link in news && FirstIndex(items, link) >= 0
    ensures var m := UpsertAll(news, items, score, nowIso).store;
      var f := FirstIndex(items, link);
      && link in m && Untouched(m[link], news[link])
      && m[link].source == (if news[link].source.Some? then news[link].source else Some(items[f].source))
    decreases |items|
  {
    var n := |items| - 1;
    var prefix := items[..n];
    FirstIndexSnoc(items, link);
    if FirstIndex(prefix, link) >= 0 {
      UpsertKnownLink(news, prefix, score, nowIso, link);
    } else {
      assert LastIndex(prefix, link) == -1;
      UpsertOtherLink(news, prefix, score, nowIso, link);
    }
  }

  /** A link the table did not have is inserted from the first item with
      it: flagged new, not saved, discovered now. */
  lemma {:induction false} UpsertNewLink(news: map<string, Article>, items: seq<NewsItem>,
                                         score: NewsItem -> TrendScore, nowIso: string, link: string)
    requires link !in news && FirstIndex(items, link) >= 0
    ensures var m := UpsertAll(news, items, score, nowIso).store;
      var f := FirstIndex(items, link);
      && link in m && m[link].isNew && !m[link].saved && m[link].discoveredAt == nowIso
      && m[link].link == link && m[link].title == items[f].title && m[link].source == Some(items[f].source)
    decreases |items|
  {
    var n := |items| - 1;
    var prefix := items[..n];
    FirstIndexSnoc(items, link);
    if FirstIndex(prefix, link) >= 0 {
      UpsertNewLink(news, prefix, score, nowIso, link);
    } else {
      assert LastIndex(prefix, link) == -1;
      UpsertOtherLink(news, prefix, score, nowIso, link);
    }
  }

  /** The audit row inserted when a scan starts. */
  function StartedRow(env: ScanEnv): AuditEntry {
    AuditEntry(env.nowIso, None, 0, 0, true, None)
  }

  /** Whether the storage fault strikes one of the gathered items. */
  predicate FaultHits(env: ScanEnv, gathered: seq<NewsItem>) {
    env.fault.Some? && env.fault.value.atItem < |gathered|
  }

  /** The `except` path: the items ahead of the failing one stay written. */
  function Abort(s: ScanState, env: ScanEnv, gathered: seq<NewsItem>): (o: ScanOutcome)
    requires FaultHits(env, gathered)
    ensures o.result == Failed(env.fault.value.message)
    ensures o.state.news.Keys == s.news.Keys + LinksOf(gathered[..env.fault.value.atItem])
    ensures |o.state.audit| == |s.audit| + 1 && o.state.audit[..|s.audit|] == s.audit
    ensures !o.state.audit[|s.audit|].success
    ensures o.state.lastScanTime == s.lastScanTime && o.state.lastAutoScanAt == s.lastAutoScanAt
  {
    var fault := env.fault.value;
    var partial := UpsertAll(s.news, gathered[..fault.atItem], ScanScorer(env, s.keywords), env.nowIso);
    var closed := StartedRow(env).(finishedAt := Some(env.nowIso), success := false, error := Some(fault.message));
    ScanOutcome(s.(news := partial.store, audit := s.audit + [closed]), Failed(fault.message))
  }

  /** The success path: every gathered item upserted, the audit row closed
      with the counts, and both scan timestamps set. */
  function Finish(s: ScanState, env: ScanEnv, gathered: seq<NewsItem>): (o: ScanOutcome)
    ensures o.result.Completed?
    ensures o.state.news.Keys == s.news.Keys + LinksOf(gathered)
    ensures o.result.totalProcessed == |gathered|
    ensures o.result.newArticles == |o.state.news.Keys - s.news.Keys| <= |gathered|
    ensures o.result.totalArticles == |o.state.news.Keys|
    ensures |o.state.audit| == |s.audit| + 1 && o.state.audit[..|s.audit|] == s.audit
    ensures o.state.audit[|s.audit|].success
    ensures o.state.audit[|s.audit|].newArticles == o.result.newArticles
    ensures o.state.audit[|s.audit|].totalArticles == o.result.totalProcessed
    ensures o.state.lastScanTime == Some(env.nowIso) && o.state.lastAutoScanAt == env.nowSecs
  {
    var done := UpsertAll(s.news, gathered, ScanScorer(env, s.keywords), env.nowIso);
    UpsertCount(s.news, gathered, ScanScorer(env, s.keywords), env.nowIso);
    var closed := StartedRow(env).(finishedAt := Some(env.nowIso), newArticles := done.inserted,
                                   totalArticles := |gathered|);
    ScanOutcome(s.(news := done.store, audit := s.audit + [closed], lastScanTime := Some(env.nowIso),
                   lastAutoScanAt := env.nowSecs),
                Completed(done.inserted, |gathered|, |done.store.Keys|))
  }

  /** `scan_now`: busy when the flag is already set, an early failure when
      there are no keywords, and otherwise a pass over the gathered items
      that completes exactly when no storage fault strikes one of them. */
  function ScanNow(s: ScanState, env: ScanEnv): (o: ScanOutcome)
    ensures o.state.locked == s.locked
    ensures o.state.keywords == s.keywords
    ensures o.result == Busy <==> s.locked
    ensures s.locked ==> o.state == s
    ensures !s.locked && s.keywords == [] ==> o.result == NoKeywords && o.state.news == s.news
    ensures !s.locked && s.keywords != [] ==>
      (o.result.Completed? <==> !FaultHits(env, Gathered(env, s.keywords)))
  {
    if s.locked then ScanOutcome(s, Busy)
    else if s.keywords == [] then
      var closed := StartedRow(env).(finishedAt := Some(env.nowIso), success := false,
                                     error := Some(NoKeywordsAudit));
      ScanOutcome(s.(audit := s.audit + [closed]), NoKeywords)
    else
      var gathered := Gathered(env, s.keywords);
      if FaultHits(env, gathered) then Abort(s, env, gathered) else Finish(s, env, gathered)
  }

  /** A scan that finds the flag set answers "busy" and changes nothing, not
      even the audit log. */
  lemma BusyChangesNothing(s: ScanState, env: ScanEnv)
    requires s.locked
    ensures ScanNow(s, env) == ScanOutcome(s, Busy)
    ensures ErrorOf(ScanNow(s, env).result) == Some("Tarama zaten devam ediyor.")
  {
  }

  /** Every scan that gets past the flag adds exactly one audit row, started
      and finished now, successful exactly when the scan completed. */
  lemma ScanAudited(s: ScanState, env: ScanEnv)
    requires !s.locked
    ensures var o := ScanNow(s, env);
      && !o.state.locked
      && o.result != Busy
      && |o.state.audit| == |s.audit| + 1 && o.state.audit[..|s.audit|] == s.audit
      && o.state.audit[|s.audit|].startedAt == env.nowIso
      && o.state.audit[|s.audit|].finishedAt == Some(env.nowIso)
      && (o.state.audit[|s.audit|].success <==> o.result.Completed?)
  {
  }

  /** With no keywords the scan fails before fetching anything: the outcome
      does not depend on the feeds, the audit row records the reason, and
      the news table is untouched. */
  lemma NoKeywordsFailsEarly(s: ScanState, env1: ScanEnv, env2: ScanEnv)
    requires !s.locked && s.keywords == []
    requires env1.nowIso == env2.nowIso
    ensures ScanNow(s, env1) == ScanNow(s, env2)
    ensures ScanNow(s, env1).result == NoKeywords
    ensures ScanNow(s, env1).state.news == s.news
    ensures ScanNow(s, env1).state.audit[|s.audit|].error == Some("Anahtar kelime yok")
    ensures ErrorOf(ScanNow(s, env1).result) == Some("Lutfen once anahtar kelime ekleyin.")
  {
  }

  /** The scan timestamps move only when a scan completes. */
  lemma TimestampsOnlyOnSuccess(s: ScanState, env: ScanEnv)
    ensures var o := ScanNow(s, env);
      && (o.result.Completed? ==> o.state.lastAutoScanAt == env.nowSecs && o.state.lastScanTime == Some(env.nowIso))
      && (!o.result.Completed? ==> o.state.lastAutoScanAt == s.lastAutoScanAt && o.state.lastScanTime == s.lastScanTime)
  {
  }

  /** The counts of a completed scan: every gathered item is processed, as
      many as the keyword densities add up to; the new articles are exactly
      the links the table did not have; the total is the size of the table
      afterwards. */
  lemma CompletedCounts(s: ScanState, env: ScanEnv)
    requires ScanNow(s, env).result.Completed?
    ensures var o := ScanNow(s, env);
      var g := Gathered(env, s.keywords);
      && o.result.totalProcessed == |g| == Sum(Densities(env, s.keywords))
      && o.state.news.Keys == s.news.Keys + LinksOf(g)
      && o.result.newArticles == |o.state.news.Keys - s.news.Keys| <= o.result.totalProcessed
      && o.result.totalArticles == |o.state.news.Keys|
  {
    assert ScanNow(s, env) == Finish(s, env, Gathered(env, s.keywords));
    GatheredIsDensitySum(env, s.keywords);
  }

  /** A failed upsert keeps what was written before it: the table holds the
      links of the items ahead of the failing one. */
  lemma FaultKeepsPrefix(s: ScanState, env: ScanEnv)
    requires !s.locked && s.keywords != []
    requires FaultHits(env, Gathered(env, s.keywords))
    ensures var o := ScanNow(s, env);
      && o.result == Failed(env.fault.value.message)
      && o.state.news.Keys == s.news.Keys + LinksOf(Gathered(env, s.keywords)[..env.fault.value.atItem])
      && ErrorOf(o.result) == Some("Tarama hatasi: " + env.fault.value.message)
  {
  }
}

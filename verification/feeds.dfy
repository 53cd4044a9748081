/** Item selection in `fetch_google_news` and `fetch_google_trends`, starting
    from the `<item>` elements the XML parser has already produced. */
module Feeds {
  import opened Wrappers
  import opened Text
  import opened Seqs

  /** One news `<item>`: the text of each child, `None` when the child is
      absent. `publishedAt` is the ISO timestamp the date parser produced. */
  datatype RawNewsEntry = RawNewsEntry(
    title: Option<string>,
    link: Option<string>,
    source: Option<string>,
    publishedAt: string)

  /** One news candidate of a scan, tagged with the keyword it was found for. */
  datatype NewsItem = NewsItem(
    title: string,
    link: string,
    source: string,
    publishedAt: string,
    keyword: string)

  /** One trending-topics `<item>`: the text of its `<title>`, if any. */
  datatype RawTrendEntry = RawTrendEntry(title: Option<string>)

  const DefaultSource := "Google News"
  /** `max_items` used by a scan. */
  const ScanNewsLimit: nat := 25
  /** Default `max_items` of `fetch_google_news`. */
  const DefaultNewsLimit: nat := 30
  /** Default `max_items` of `fetch_google_trends`. */
  const TrendsLimit: nat := 40

  /** Python's `(text or default)`: a missing or empty text gives `default`. */
  function TextOr(text: Option<string>, default: string): string {
    if text.Some? && text.value != "" then text.value else default
  }

  /** The candidate an entry yields, or `None` when its stripped title or
      stripped link is empty. */
  function ToNewsItem(e: RawNewsEntry, keyword: string): (r: Option<NewsItem>)
    ensures r.Some? <==> !AllSpace(TextOr(e.title, "")) && !AllSpace(TextOr(e.link, ""))
    ensures r.Some? ==> r.value.title == Strip(TextOr(e.title, "")) && r.value.link == Strip(TextOr(e.link, ""))
    ensures r.Some? ==> r.value.source == Strip(TextOr(e.source, DefaultSource))
    ensures r.Some? ==> r.value.keyword == keyword && r.value.publishedAt == e.publishedAt
    ensures r.Some? ==> WellFormed(r.value)
    ensures r.Some? && (e.source.None? || e.source == Some("")) ==> r.value.source == DefaultSource
  {
    var title := Strip(TextOr(e.title, ""));
    var link := Strip(TextOr(e.link, ""));
    var source := Strip(TextOr(e.source, DefaultSource));
    StripTrimmed(DefaultSource);
    if title == "" || link == "" then None
    else Some(NewsItem(title, link, source, e.publishedAt, keyword))
  }

  /** A well-formed candidate: non-empty title and link with no surrounding
      whitespace. */
  predicate WellFormed(it: NewsItem) {
    it.title != "" && it.link != "" && Trimmed(it.title) && Trimmed(it.link)
  }

  /** The item loop of `fetch_google_news`: the first `maxItems` entries, in
      document order, keeping those with a title and a link. */
  function SelectNews(entries: seq<RawNewsEntry>, keyword: string, maxItems: nat): (items: seq<NewsItem>)
    ensures |items| <= maxItems && |items| <= |entries|
    ensures forall it :: it in items <==>
      exists j :: 0 <= j < |entries| && j < maxItems && ToNewsItem(entries[j], keyword) == Some(it)
    ensures forall i :: 0 <= i < |items| ==> WellFormed(items[i]) && items[i].keyword == keyword
  {
    CollectKeeps(entries, NewsOf(keyword), maxItems,
                 it => WellFormed(it) && it.keyword == keyword);
    Collect(entries, NewsOf(keyword), maxItems)
  }

  function NewsOf(keyword: string): RawNewsEntry -> Option<NewsItem> {
    e => ToNewsItem(e, keyword)
  }

  /** The candidates come out in document order, one per usable entry among
      the first `maxItems`: `positions` lists those entries, strictly
      increasing, and the i-th candidate is built from the i-th of them. */
  lemma SelectNewsInOrder(entries: seq<RawNewsEntry>, keyword: string, maxItems: nat)
    ensures var items := SelectNews(entries, keyword, maxItems);
      var positions := CollectIndices(entries, NewsOf(keyword), maxItems);
      && |items| == |positions|
      && (forall i :: 0 <= i < |positions| ==>
            positions[i] < |entries| && ToNewsItem(entries[positions[i]], keyword) == Some(items[i]))
      && (forall i, j :: 0 <= i < j < |positions| ==> positions[i] < positions[j])
      && (forall k :: 0 <= k < |entries| && k < maxItems && ToNewsItem(entries[k], keyword).Some? ==>
            k in positions)
  {
    CollectInOrder(entries, NewsOf(keyword), maxItems);
    CollectIndicesShape(entries, NewsOf(keyword), maxItems);
  }

  /** The phrase a trending entry contributes, if its title is not blank. */
  function TrendPhrase(e: RawTrendEntry): (r: Option<string>)
    ensures r.Some? <==> !AllSpace(TextOr(e.title, ""))
    ensures r.Some? ==> r.value == Normalize(Strip(TextOr(e.title, "")))
    ensures r.Some? ==> r.value != "" && IsNormal(r.value)
  {
    var title := Strip(TextOr(e.title, ""));
    if title != "" then
      NormalizeIsNormal(title);
      NormalizeEmpty(title);
      Some(Normalize(title))
    else None
  }

  /** The item loop of `fetch_google_trends`: the first `maxItems` entries,
      skipping blank titles, each title normalised. Every selected phrase is
      non-empty and already in canonical form. */
  function SelectTrends(entries: seq<RawTrendEntry>, maxItems: nat): (trends: seq<string>)
    ensures |trends| <= maxItems && |trends| <= |entries|
    ensures forall t :: t in trends <==>
      exists j :: 0 <= j < |entries| && j < maxItems && TrendPhrase(entries[j]) == Some(t)
    ensures forall i :: 0 <= i < |trends| ==> trends[i] != "" && IsNormal(trends[i])
  {
    CollectKeeps(entries, TrendPhrase, maxItems, t => t != "" && IsNormal(t));
    Collect(entries, TrendPhrase, maxItems)
  }
}

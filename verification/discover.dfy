/** `build_discover_queries`: related queries gathered for each tracked
    keyword are merged by their normalised text and ranked. The related-query
    lookups (cached or fetched) are a `fetch` parameter; `None` stands for a
    lookup that raised. */
module Discover {
  import opened Wrappers
  import opened Text
  import opened Seqs
  import opened Ordering

  /** One related query as the lookup returns it. `query` is `None` when the
      field is absent or null. */
  datatype RelatedQuery = RelatedQuery(query: Option<string>, value: int, formattedValue: string)

  /** The lookup result for one keyword: the keyword it reports, and the
      "top" and "rising" lists. */
  datatype RelatedResult = RelatedResult(keyword: string, top: seq<RelatedQuery>, rising: seq<RelatedQuery>)

  datatype Mode = Top | Rising

  /** `"top" if mode == "top" else "rising"`. */
  function PickMode(mode: string): (m: Mode)
    ensures m == Top <==> mode == "top"
  {
    if mode == "top" then Top else Rising
  }

  /** One related query that takes part in the merge: the keyword that
      produced it, its stripped text, that text normalised (the merge key),
      its value and its formatted value. */
  datatype Contribution = Contribution(source: string, query: string, key: string, value: int, formatted: string)

  function KeyOf(c: Contribution): string {
    c.key
  }

  /** The row appended for a keyword: the lookup's result, or an empty
      result under the keyword itself when the lookup raised. */
  function RowFor(kw: string, fetch: string -> Option<RelatedResult>): (rel: RelatedResult)
    ensures fetch(kw).None? ==> rel == RelatedResult(kw, [], [])
    ensures fetch(kw).Some? ==> rel == fetch(kw).value
  {
    match fetch(kw)
    case Some(r) => r
    case None => RelatedResult(kw, [], [])
  }

  /** `(item.get("query") or "").strip()`. */
  function StrippedQuery(item: RelatedQuery): string {
    Strip(item.query.GetOr(""))
  }

  /** What one item contributes: nothing when its stripped query is empty. */
  function ContributionOf(source: string, item: RelatedQuery): (c: Option<Contribution>)
    ensures c.Some? <==> StrippedQuery(item) != ""
    ensures c.Some? ==> (c.value.source == source && c.value.query == StrippedQuery(item)
                         && c.value.key == Normalize(c.value.query)
                         && c.value.value == item.value && c.value.formatted == item.formattedValue)
  {
    var q := StrippedQuery(item);
    if q == "" then None else Some(Contribution(source, q, Normalize(q), item.value, item.formattedValue))
  }

  /** The inner item loop for one row. */
  function ContributionsOf(source: string, items: seq<RelatedQuery>): (cs: seq<Contribution>)
    ensures |cs| <= |items|
    ensures forall c :: c in cs <==> exists j :: 0 <= j < |items| && ContributionOf(source, items[j]) == Some(c)
  {
    Collect(items, ContributionFrom(source), |items|)
  }

  function ContributionFrom(source: string): RelatedQuery -> Option<Contribution> {
    item => ContributionOf(source, item)
  }

  /** The contributions of one list come in list order, one for each item
      with a non-empty query: `positions` lists those items, strictly
      increasing, and the i-th contribution is built from the i-th of them.
      This order decides which spelling a merged entry keeps first and
      which formatted value it keeps last. */
  lemma ContributionsInOrder(source: string, items: seq<RelatedQuery>)
    ensures var cs := ContributionsOf(source, items);
      var positions := CollectIndices(items, ContributionFrom(source), |items|);
      && |cs| == |positions|
      && (forall i :: 0 <= i < |positions| ==>
            positions[i] < |items| && ContributionOf(source, items[positions[i]]) == Some(cs[i]))
      && (forall i, j :: 0 <= i < j < |positions| ==> positions[i] < positions[j])
      && (forall k :: 0 <= k < |items| && ContributionOf(source, items[k]).Some? ==> k in positions)
  {
    CollectInOrder(items, ContributionFrom(source), |items|);
    CollectIndicesShape(items, ContributionFrom(source), |items|);
  }

  function PickList(rel: RelatedResult, mode: Mode): seq<RelatedQuery> {
    if mode == Top then rel.top else rel.rising
  }

  /** The contributions of one keyword's row. */
  function RowContributions(kw: string, mode: Mode, fetch: string -> Option<RelatedResult>): seq<Contribution> {
    var rel := RowFor(kw, fetch);
    ContributionsOf(rel.keyword, PickList(rel, mode))
  }

  function RowsOf(mode: Mode, fetch: string -> Option<RelatedResult>): string -> seq<Contribution> {
    kw => RowContributions(kw, mode, fetch)
  }

  /** Every related query of the chosen list, over all keywords, in the
      order the two nested loops visit them. */
  function Gather(keywords: seq<string>, mode: Mode, fetch: string -> Option<RelatedResult>): seq<Contribution> {
    ConcatMap(keywords, RowsOf(mode, fetch))
  }

  /** The rows are visited in keyword order: gathering a concatenation of
      keyword lists is concatenating what each list gathers. */
  lemma GatherAppend(k1: seq<string>, k2: seq<string>, mode: Mode, fetch: string -> Option<RelatedResult>)
    ensures Gather(k1 + k2, mode, fetch) == Gather(k1, mode, fetch) + Gather(k2, mode, fetch)
  {
    ConcatMapAppend(k1, k2, RowsOf(mode, fetch));
  }

  /** A single keyword gathers the usable items of its own row. With
      `GatherAppend` this pins `Gather` down: the rows' contributions, one
      row after another in keyword order. */
  lemma GatherSingle(kw: string, mode: Mode, fetch: string -> Option<RelatedResult>)
    ensures Gather([kw], mode, fetch) == RowContributions(kw, mode, fetch)
  {
    ConcatMapSingle(kw, RowsOf(mode, fetch));
  }

  /** One merged entry; `key` is its key in the `merged` dict. */
  datatype Entry = Entry(key: string, query: string, value: int, formatted: string, fromKeywords: seq<string>)

  function EntryKey(e: Entry): string { e.key }

  /** The position of `key` in the merged entries, or -1. */
  function FindKey(entries: seq<Entry>, key: string): (i: int)
    ensures -1 <= i < |entries|
    ensures i >= 0 ==> entries[i].key == key
    ensures i == -1 <==> forall k :: 0 <= k < |entries| ==> entries[k].key != key
    decreases |entries|
  {
    if |entries| == 0 then -1
    else if entries[0].key == key then 0
    else
      var r := FindKey(entries[1..], key);
      assert forall k :: 1 <= k < |entries| ==> entries[k] == entries[1..][k - 1];
      if r == -1 then -1 else r + 1
  }

  /** The entry created the first time a key is seen. */
  function NewEntry(c: Contribution): Entry {
    Entry(KeyOf(c), c.query, c.value, c.formatted, [])
  }

  /** The three updates applied for every item: keep the larger value, take
      a non-empty formatted value, and add a new non-empty source keyword. */
  function Update(e: Entry, c: Contribution): (u: Entry)
    ensures u.key == e.key && u.query == e.query
    ensures u.value >= e.value && u.value >= c.value && (u.value == e.value || u.value == c.value)
    ensures u.formatted == (if c.formatted != "" then c.formatted else e.formatted)
    ensures forall s :: s in u.fromKeywords <==> s in e.fromKeywords || (s == c.source && s != "")
    ensures NoDup(e.fromKeywords) ==> NoDup(u.fromKeywords)
  {
    var sources := if c.source != "" && c.source !in e.fromKeywords then e.fromKeywords + [c.source]
                   else e.fromKeywords;
    Entry(e.key, e.query, if e.value >= c.value then e.value else c.value,
          if c.formatted != "" then c.formatted else e.formatted, sources)
  }

  /** One iteration of the merge loop: existing keys keep their place, and
      a new key is added at the end. */
  function Absorb(entries: seq<Entry>, c: Contribution): (r: seq<Entry>)
    ensures |r| == if FindKey(entries, KeyOf(c)) >= 0 then |entries| else |entries| + 1
    ensures forall i :: 0 <= i < |entries| ==> r[i].key == entries[i].key
    ensures FindKey(entries, KeyOf(c)) == -1 ==> r[|entries|].key == KeyOf(c)
    ensures DistinctKeys(entries) ==> DistinctKeys(r)
  {
    var i := FindKey(entries, KeyOf(c));
    if i >= 0 then entries[i := Update(entries[i], c)]
    else entries + [Update(NewEntry(c), c)]
  }

  /** The merge loop, as a fold over the gathered contributions. The
      sequence order is the dict's insertion order. */
  function Merge(cs: seq<Contribution>): seq<Entry>
    decreases |cs|
  {
    if |cs| == 0 then [] else Absorb(Merge(cs[..|cs| - 1]), cs[|cs| - 1])
  }

  /** Some contribution has key `k`. */
  ghost predicate Seen(cs: seq<Contribution>, k: string) {
    exists j :: 0 <= j < |cs| && KeyOf(cs[j]) == k
  }

  predicate DistinctKeys(entries: seq<Entry>) {
    forall i, i' :: 0 <= i < i' < |entries| ==> entries[i].key != entries[i'].key
  }

  lemma {:induction false} MergeDistinct(cs: seq<Contribution>)
    ensures DistinctKeys(Merge(cs))
    decreases |cs|
  {
    if |cs| > 0 {
      MergeDistinct(cs[..|cs| - 1]);
    }
  }

  lemma AbsorbSeen(prev: seq<Entry>, prefix: seq<Contribution>, c: Contribution)
    requires forall i :: 0 <= i < |prev| ==> Seen(prefix, prev[i].key)
    ensures forall i :: 0 <= i < |Absorb(prev, c)| ==> Seen(prefix + [c], Absorb(prev, c)[i].key)
  {
    var cs := prefix + [c];
    var m := Absorb(prev, c);
    forall i | 0 <= i < |m| ensures Seen(cs, m[i].key) {
      if i < |prev| {
        var j :| 0 <= j < |prefix| && KeyOf(prefix[j]) == prev[i].key;
        assert cs[j] == prefix[j];
      } else {
        assert KeyOf(cs[|prefix|]) == m[i].key;
      }
    }
  }

  lemma {:induction false} MergeKeysSeen(cs: seq<Contribution>)
    ensures forall i :: 0 <= i < |Merge(cs)| ==> Seen(cs, Merge(cs)[i].key)
    decreases |cs|
  {
    if |cs| > 0 {
      var n := |cs| - 1;
      MergeKeysSeen(cs[..n]);
      AbsorbSeen(Merge(cs[..n]), cs[..n], cs[n]);
      assert cs == cs[..n] + [cs[n]];
    }
  }

  lemma AbsorbCovers(prev: seq<Entry>, cs: seq<Contribution>)
    requires |cs| > 0
    requires forall j :: 0 <= j < |cs| - 1 ==> FindKey(prev, KeyOf(cs[j])) >= 0
    ensures forall j :: 0 <= j < |cs| ==> FindKey(Absorb(prev, cs[|cs| - 1]), KeyOf(cs[j])) >= 0
  {
    var c := cs[|cs| - 1];
    var m := Absorb(prev, c);
    var f := FindKey(prev, KeyOf(c));
    forall j | 0 <= j < |cs| ensures FindKey(m, KeyOf(cs[j])) >= 0 {
      if j < |cs| - 1 {
        var p := FindKey(prev, KeyOf(cs[j]));
        assert m[p].key == KeyOf(cs[j]);
      } else if f >= 0 {
        assert m[f].key == KeyOf(c);
      } else {
        assert m[|prev|].key == KeyOf(c);
      }
    }
  }

  lemma {:induction false} MergeCovers(cs: seq<Contribution>)
    ensures forall j :: 0 <= j < |cs| ==> FindKey(Merge(cs), KeyOf(cs[j])) >= 0
    decreases |cs|
  {
    if |cs| > 0 {
      var n := |cs| - 1;
      var prefix := cs[..n];
      MergeCovers(prefix);
      forall j | 0 <= j < n ensures FindKey(Merge(prefix), KeyOf(cs[j])) >= 0 {
        assert prefix[j] == cs[j];
      }
      AbsorbCovers(Merge(prefix), cs);
    }
  }

  /** The merged entries have distinct keys, and their keys are exactly the
      keys of the contributions. */
  lemma MergeKeys(cs: seq<Contribution>)
    ensures DistinctKeys(Merge(cs))
    ensures forall i :: 0 <= i < |Merge(cs)| ==> Seen(cs, Merge(cs)[i].key)
    ensures forall j :: 0 <= j < |cs| ==> FindKey(Merge(cs), KeyOf(cs[j])) >= 0
  {
    MergeDistinct(cs);
    MergeKeysSeen(cs);
    MergeCovers(cs);
  }

  /** The value promise: at least every value seen for the key, and equal
      to one of them. */
  ghost predicate ValueFaithful(e: Entry, cs: seq<Contribution>) {
    && (forall j :: 0 <= j < |cs| && KeyOf(cs[j]) == e.key ==> cs[j].value <= e.value)
    && (exists j :: 0 <= j < |cs| && KeyOf(cs[j]) == e.key && cs[j].value == e.value)
  }

  /** The displayed query is the text of the first contribution with the
      key. */
  ghost predicate QueryFaithful(e: Entry, cs: seq<Contribution>) {
    exists j :: 0 <= j < |cs| && KeyOf(cs[j]) == e.key && cs[j].query == e.query
      && forall j' :: 0 <= j' < j ==> KeyOf(cs[j']) != e.key
  }

  /** The formatted value is the last non-empty one seen for the key, or
      empty when there is none. */
  ghost predicate FormattedFaithful(e: Entry, cs: seq<Contribution>) {
    || (e.formatted == "" && forall j :: 0 <= j < |cs| && KeyOf(cs[j]) == e.key ==> cs[j].formatted == "")
    || (exists j :: 0 <= j < |cs| && KeyOf(cs[j]) == e.key && cs[j].formatted == e.formatted && e.formatted != ""
         && forall j' :: j < j' < |cs| && KeyOf(cs[j']) == e.key ==> cs[j'].formatted == "")
  }

  /** The source keywords: no repeats, and exactly the non-empty sources of
      the contributions with the key. */
  ghost predicate SourcesFaithful(e: Entry, cs: seq<Contribution>) {
    && NoDup(e.fromKeywords)
    && forall s :: s in e.fromKeywords <==>
         s != "" && exists j :: 0 <= j < |cs| && KeyOf(cs[j]) == e.key && cs[j].source == s
  }

  ghost predicate Faithful(e: Entry, cs: seq<Contribution>) {
    ValueFaithful(e, cs) && QueryFaithful(e, cs) && FormattedFaithful(e, cs) && SourcesFaithful(e, cs)
  }

  /** An entry that a new contribution with another key leaves alone stays
      faithful. */
  lemma ExtendOtherKey(e: Entry, prefix: seq<Contribution>, c: Contribution)
    requires Faithful(e, prefix)
    requires KeyOf(c) != e.key
    ensures Faithful(e, prefix + [c])
  {
    ValueOtherKey(e, prefix, c);
    QueryOtherKey(e, prefix, c);
    FormattedOtherKey(e, prefix, c);
    SourcesOtherKey(e, prefix, c);
  }

  lemma ValueOtherKey(e: Entry, prefix: seq<Contribution>, c: Contribution)
    requires ValueFaithful(e, prefix) && KeyOf(c) != e.key
    ensures ValueFaithful(e, prefix + [c])
  {
    var cs := prefix + [c];
    var jv :| 0 <= jv < |prefix| && KeyOf(prefix[jv]) == e.key && prefix[jv].value == e.value;
    assert cs[jv] == prefix[jv];
    forall j | 0 <= j < |cs| && KeyOf(cs[j]) == e.key ensures cs[j].value <= e.value {
      assert cs[j] == prefix[j];
    }
  }

  lemma QueryOtherKey(e: Entry, prefix: seq<Contribution>, c: Contribution)
    requires QueryFaithful(e, prefix) && KeyOf(c) != e.key
    ensures QueryFaithful(e, prefix + [c])
  {
    var cs := prefix + [c];
    var jq :| 0 <= jq < |prefix| && KeyOf(prefix[jq]) == e.key && prefix[jq].query == e.query
      && forall j' :: 0 <= j' < jq ==> KeyOf(prefix[j']) != e.key;
    assert cs[jq] == prefix[jq];
    assert forall j' :: 0 <= j' < jq ==> cs[j'] == prefix[j'];
  }

  lemma FormattedOtherKey(e: Entry, prefix: seq<Contribution>, c: Contribution)
    requires FormattedFaithful(e, prefix) && KeyOf(c) != e.key
    ensures FormattedFaithful(e, prefix + [c])
  {
    var cs := prefix + [c];
    assert forall j :: 0 <= j < |prefix| ==> cs[j] == prefix[j];
    if e.formatted != "" {
      var jf :| (0 <= jf < |prefix| && KeyOf(prefix[jf]) == e.key && prefix[jf].formatted == e.formatted
                 && forall j' :: jf < j' < |prefix| && KeyOf(prefix[j']) == e.key ==> prefix[j'].formatted == "");
      assert cs[jf] == prefix[jf];
    }
  }

  lemma SourcesOtherKey(e: Entry, prefix: seq<Contribution>, c: Contribution)
    requires SourcesFaithful(e, prefix) && KeyOf(c) != e.key
    ensures SourcesFaithful(e, prefix + [c])
  {
    var cs := prefix + [c];
    assert forall j :: 0 <= j < |prefix| ==> cs[j] == prefix[j];
    forall s | s in e.fromKeywords
      ensures exists j :: 0 <= j < |cs| && KeyOf(cs[j]) == e.key && cs[j].source == s
    {
      var j :| 0 <= j < |prefix| && KeyOf(prefix[j]) == e.key && prefix[j].source == s;
      assert cs[j] == prefix[j];
    }
  }

  /** Updating a faithful entry with a contribution of its own key keeps it
      faithful. */
  lemma ExtendSameKey(e: Entry, prefix: seq<Contribution>, c: Contribution)
    requires Faithful(e, prefix)
    requires KeyOf(c) == e.key
    ensures Faithful(Update(e, c), prefix + [c])
  {
    ValueSameKey(e, prefix, c);
    QuerySameKey(e, prefix, c);
    FormattedSameKey(e, prefix, c);
    SourcesSameKey(e, prefix, c);
  }

  lemma ValueSameKey(e: Entry, prefix: seq<Contribution>, c: Contribution)
    requires ValueFaithful(e, prefix) && KeyOf(c) == e.key
    ensures ValueFaithful(Update(e, c), prefix + [c])
  {
    var cs := prefix + [c];
    var u := Update(e, c);
    var n := |prefix|;
    assert forall j :: 0 <= j < n ==> cs[j] == prefix[j];
    assert cs[n] == c;
    var jv :| 0 <= jv < n && KeyOf(prefix[jv]) == e.key && prefix[jv].value == e.value;
    if u.value == e.value {
      assert cs[jv] == prefix[jv];
    }
  }

  lemma QuerySameKey(e: Entry, prefix: seq<Contribution>, c: Contribution)
    requires QueryFaithful(e, prefix) && KeyOf(c) == e.key
    ensures QueryFaithful(Update(e, c), prefix + [c])
  {
    var cs := prefix + [c];
    var jq :| 0 <= jq < |prefix| && KeyOf(prefix[jq]) == e.key && prefix[jq].query == e.query
      && forall j' :: 0 <= j' < jq ==> KeyOf(prefix[j']) != e.key;
    assert cs[jq] == prefix[jq];
    assert forall j' :: 0 <= j' < jq ==> cs[j'] == prefix[j'];
  }

  lemma FormattedSameKey(e: Entry, prefix: seq<Contribution>, c: Contribution)
    requires FormattedFaithful(e, prefix) && KeyOf(c) == e.key
    ensures FormattedFaithful(Update(e, c), prefix + [c])
  {
    var cs := prefix + [c];
    var n := |prefix|;
    assert forall j :: 0 <= j < n ==> cs[j] == prefix[j];
    assert cs[n] == c;
    if c.formatted == "" && e.formatted != "" {
      var jf :| (0 <= jf < n && KeyOf(prefix[jf]) == e.key && prefix[jf].formatted == e.formatted
                 && forall j' :: jf < j' < n && KeyOf(prefix[j']) == e.key ==> prefix[j'].formatted == "");
      assert cs[jf] == prefix[jf];
    }
  }

  lemma SourcesSameKey(e: Entry, prefix: seq<Contribution>, c: Contribution)
    requires SourcesFaithful(e, prefix) && KeyOf(c) == e.key
    ensures SourcesFaithful(Update(e, c), prefix + [c])
  {
    var cs := prefix + [c];
    var u := Update(e, c);
    var n := |prefix|;
    assert forall j :: 0 <= j < n ==> cs[j] == prefix[j];
    assert cs[n] == c;
    forall s | s in u.fromKeywords
      ensures exists j :: 0 <= j < |cs| && KeyOf(cs[j]) == e.key && cs[j].source == s
    {
      if s in e.fromKeywords {
        var j :| 0 <= j < n && KeyOf(prefix[j]) == e.key && prefix[j].source == s;
        assert cs[j] == prefix[j];
      }
    }
  }

  /** A fresh entry built from the first contribution with its key is
      faithful. */
  lemma FirstOfKey(prefix: seq<Contribution>, c: Contribution)
    requires forall j :: 0 <= j < |prefix| ==> KeyOf(prefix[j]) != KeyOf(c)
    ensures Faithful(Update(NewEntry(c), c), prefix + [c])
  {
    var cs := prefix + [c];
    var n := |prefix|;
    assert forall j :: 0 <= j < n ==> cs[j] == prefix[j];
    assert cs[n] == c;
  }

  /** One merge step keeps every entry faithful: the updated entry, the
      entries of other keys, and a newly added entry. */
  lemma AbsorbFaithful(prev: seq<Entry>, prefix: seq<Contribution>, c: Contribution, i: nat)
    requires DistinctKeys(prev)
    requires forall j :: 0 <= j < |prefix| ==> FindKey(prev, KeyOf(prefix[j])) >= 0
    requires i < |Absorb(prev, c)|
    requires i < |prev| ==> Faithful(prev[i], prefix)
    ensures Faithful(Absorb(prev, c)[i], prefix + [c])
  {
    var f := FindKey(prev, KeyOf(c));
    if i < |prev| {
      if prev[i].key == KeyOf(c) {
        assert f == i;
        assert Absorb(prev, c)[i] == Update(prev[i], c);
        ExtendSameKey(prev[i], prefix, c);
      } else {
        if f >= 0 {
          assert f != i;
        }
        assert Absorb(prev, c)[i] == prev[i];
        ExtendOtherKey(prev[i], prefix, c);
      }
    } else {
      assert f == -1;
      assert Absorb(prev, c)[i] == Update(NewEntry(c), c);
      forall j | 0 <= j < |prefix| ensures KeyOf(prefix[j]) != KeyOf(c) {
        var p := FindKey(prev, KeyOf(prefix[j]));
        assert prev[p].key == KeyOf(prefix[j]);
      }
      FirstOfKey(prefix, c);
    }
  }

  /** Every merged entry keeps the promises of the merge loop: the maximum
      value, the first query text, the last non-empty formatted value, and a
      duplicate-free list of exactly the contributing keywords. */
  lemma {:induction false} MergeFaithful(cs: seq<Contribution>, i: nat)
    requires i < |Merge(cs)|
    ensures Faithful(Merge(cs)[i], cs)
    decreases |cs|
  {
    var n := |cs| - 1;
    var prefix := cs[..n];
    var c := cs[n];
    assert cs == prefix + [c];
    var prev := Merge(prefix);
    MergeKeys(prefix);
    if i < |prev| {
      MergeFaithful(prefix, i);
    }
    AbsorbFaithful(prev, prefix, c, i);
  }

  /** Python's `str(v).lower() in ("breakout", "hizli artis", "hızlı artış")`. */
  predicate IsBreakout(formatted: string) {
    var f := Lower(formatted);
    f == "breakout" || f == "hizli artis" || f == "hızlı artış"
  }

  /** The breakout test ignores case in Latin letters: "Breakout" and
      "Hızlı Artış" are breakouts, while a percentage is not. */
  lemma BreakoutLabels()
    ensures IsBreakout("Breakout") && IsBreakout("BREAKOUT") && IsBreakout("Hızlı Artış")
    ensures !IsBreakout("+250%")
  {
    assert Lower("Breakout") == "breakout";
    assert Lower("BREAKOUT") == "breakout";
    assert Lower("Hızlı Artış") == "hızlı artış";
    assert Lower("+250%") != "breakout";
  }

  function BreakoutFlag(e: Entry): int {
    if IsBreakout(e.formatted) then 1 else 0
  }

  /** The sort key `(breakout, value, len(from_keywords))`, descending: `a`
      goes first. */
  predicate RanksAbove(a: Entry, b: Entry) {
    || BreakoutFlag(a) > BreakoutFlag(b)
    || (BreakoutFlag(a) == BreakoutFlag(b) && a.value > b.value)
    || (BreakoutFlag(a) == BreakoutFlag(b) && a.value == b.value && |a.fromKeywords| > |b.fromKeywords|)
  }

  lemma RanksAboveIsWeakOrder()
    ensures StrictWeakOrder(RanksAbove)
  {
  }

  /** The response: the `mode` string it echoes, the source keywords and the
      ranked entries. */
  datatype DiscoverResult = DiscoverResult(mode: string, sourceKeywords: seq<string>, items: seq<Entry>)

  /** `pick_mode` as the string the response carries. */
  function ModeName(m: Mode): string {
    if m == Top then "top" else "rising"
  }

  /** `build_discover_queries`: the merged entries of the chosen list,
      ranked. */
  function BuildDiscoverQueries(keywords: seq<string>, mode: string, fetch: string -> Option<RelatedResult>)
    : (r: DiscoverResult)
    ensures r.sourceKeywords == keywords
    ensures keywords == [] ==> r.mode == mode && r.items == []
    ensures keywords != [] ==> (r.mode == "top" || r.mode == "rising") && (r.mode == "top" <==> mode == "top")
    ensures multiset(r.items) == multiset(Merge(Gather(keywords, PickMode(mode), fetch)))
    ensures SortedBy(r.items, RanksAbove)
    ensures NoDup(MapSeq(EntryKey, r.items))
  {
    if keywords == [] then DiscoverResult(mode, [], [])
    else
      var merged := Merge(Gather(keywords, PickMode(mode), fetch));
      var items := SortBy(merged, RanksAbove);
      RanksAboveIsWeakOrder();
      SortBySorted(merged, RanksAbove);
      MergeKeys(Gather(keywords, PickMode(mode), fetch));
      MapSeqPermutation(EntryKey, merged, items);
      NoDupPermutation(MapSeq(EntryKey, merged), MapSeq(EntryKey, items));
      DiscoverResult(ModeName(PickMode(mode)), keywords, items)
  }

  /** Every ranked entry is faithful to the related queries it merges. */
  lemma DiscoverItemsFaithful(keywords: seq<string>, mode: string, fetch: string -> Option<RelatedResult>)
    ensures forall i :: 0 <= i < |BuildDiscoverQueries(keywords, mode, fetch).items| ==>
      Faithful(BuildDiscoverQueries(keywords, mode, fetch).items[i], Gather(keywords, PickMode(mode), fetch))
  {
    PermutedMergeFaithful(Gather(keywords, PickMode(mode), fetch), BuildDiscoverQueries(keywords, mode, fetch).items);
  }

  lemma PermutedMergeFaithful(cs: seq<Contribution>, items: seq<Entry>)
    requires multiset(items) == multiset(Merge(cs))
    ensures forall i :: 0 <= i < |items| ==> Faithful(items[i], cs)
  {
    forall i | 0 <= i < |items| ensures Faithful(items[i], cs) {
      assert items[i] in multiset(Merge(cs));
      var k :| 0 <= k < |Merge(cs)| && Merge(cs)[k] == items[i];
      MergeFaithful(cs, k);
    }
  }

  /** Every related query with a non-empty text is represented by a ranked
      entry under its normalised text. */
  lemma DiscoverCovers(keywords: seq<string>, mode: string, fetch: string -> Option<RelatedResult>)
    ensures forall j :: 0 <= j < |Gather(keywords, PickMode(mode), fetch)| ==>
      exists i :: (0 <= i < |BuildDiscoverQueries(keywords, mode, fetch).items|
        && BuildDiscoverQueries(keywords, mode, fetch).items[i].key == KeyOf(Gather(keywords, PickMode(mode), fetch)[j]))
  {
    PermutedMergeCovers(Gather(keywords, PickMode(mode), fetch), BuildDiscoverQueries(keywords, mode, fetch).items);
  }

  lemma PermutedMergeCovers(cs: seq<Contribution>, items: seq<Entry>)
    requires multiset(items) == multiset(Merge(cs))
    ensures forall j :: 0 <= j < |cs| ==> exists i :: 0 <= i < |items| && items[i].key == KeyOf(cs[j])
  {
    MergeCovers(cs);
    forall j | 0 <= j < |cs| ensures exists i :: 0 <= i < |items| && items[i].key == KeyOf(cs[j]) {
      var p := FindKey(Merge(cs), KeyOf(cs[j]));
      assert Merge(cs)[p] in multiset(items);
    }
  }
}

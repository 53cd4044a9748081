/** The last-hour interest pipeline: stripping the guard prefix of the
    trends API's JSON, batching keywords, turning a timeline into one series
    per keyword, and `build_last_hour_trends`'s aggregates and ordering.
    The HTTP requests and JSON decoding are replaced by a `fetch` parameter
    that reports, for each batch, what the two-step request produced. */
module Interest {
  import opened Wrappers
  import opened Text
  import opened Seqs
  import opened Ordering

  /** The anti-JSON-hijacking prefix in front of every API response. */
  const GuardPrefix := ")]}'"

  /** `re.sub(r"^\)\]\}',?\s*", "", text)`: removes the guard prefix, then an
      optional comma, then any whitespace. */
  function StripGuard(text: string): (r: string)
    ensures !IsPrefix(GuardPrefix, text) ==> r == text
    ensures IsPrefix(GuardPrefix, text) ==>
      && |r| <= |text| - |GuardPrefix|
      && r == text[|text| - |r|..]
      && (r == [] || !IsSpace(r[0]))
  {
    if IsPrefix(GuardPrefix, text) then
      var rest := text[|GuardPrefix|..];
      var afterComma := if |rest| > 0 && rest[0] == ',' then rest[1..] else rest;
      DropLeadingSpacesSuffix(afterComma);
      DropLeadingSpaces(afterComma)
    else text
  }

  /** What follows the guard prefix is stripped of one comma, if present,
      and then of its leading whitespace. */
  lemma StripGuardAfterPrefix(rest: string)
    ensures StripGuard(GuardPrefix + rest)
         == DropLeadingSpaces(if |rest| > 0 && rest[0] == ',' then rest[1..] else rest)
  {
    var text := GuardPrefix + rest;
    assert text[..|GuardPrefix|] == GuardPrefix;
    assert text[|GuardPrefix|..] == rest;
  }

  /** A guarded body comes back intact, whatever whitespace follows the
      prefix and its comma. */
  lemma GuardRoundTrip(ws: string, body: string)
    requires AllSpace(ws)
    requires body == [] || !IsSpace(body[0])
    ensures StripGuard(GuardPrefix + ([','] + (ws + body))) == body
  {
    var rest := [','] + (ws + body);
    StripGuardAfterPrefix(rest);
    assert rest[1..] == ws + body;
    DropLeadingSpacesOf(ws, body);
  }

  /** The comma is optional: without it the body also comes back intact,
      unless the body itself starts with a comma right after the prefix. */
  lemma GuardRoundTripNoComma(ws: string, body: string)
    requires AllSpace(ws)
    requires body == [] || !IsSpace(body[0])
    requires ws != [] || body == [] || body[0] != ','
    ensures StripGuard(GuardPrefix + (ws + body)) == body
  {
    StripGuardAfterPrefix(ws + body);
    if ws != [] {
      assert (ws + body)[0] == ws[0];
      assert IsSpace(ws[0]);
    }
    DropLeadingSpacesOf(ws, body);
  }

  /** The upstream limit on keywords per comparison request. */
  const BatchSize: nat := 8

  /** `chunked(items, size)`: consecutive slices of `size` items, the last
      one possibly shorter. */
  function Chunked<T>(items: seq<T>, size: nat): (chunks: seq<seq<T>>)
    requires size > 0
    ensures Flatten(chunks) == items
    ensures forall i :: 0 <= i < |chunks| ==> 0 < |chunks[i]| <= size
    ensures forall i :: 0 <= i < |chunks| - 1 ==> |chunks[i]| == size
    ensures |items| == 0 <==> |chunks| == 0
    decreases |items|
  {
    if |items| == 0 then []
    else if |items| <= size then
      assert Flatten([items]) == items + Flatten([]);
      [items]
    else
      var rest := Chunked(items[size..], size);
      var chunks := [items[..size]] + rest;
      assert chunks[1..] == rest;
      assert items[..size] + items[size..] == items;
      chunks
  }

  /** Ten keywords go out as a batch of eight and a batch of two. */
  lemma TenKeywordsTwoBatches<T>(keywords: seq<T>)
    requires |keywords| == 10
    ensures var chunks := Chunked(keywords, BatchSize);
      |chunks| == 2 && chunks[0] == keywords[..8] && chunks[1] == keywords[8..]
  {
  }

  /** One timeline row: for each column, the result of `int(vals[idx])`, or
      `None` when that conversion raised. A row may be shorter than the
      batch. */
  type Row = seq<Option<int>>

  /** The value the loop appends for the keyword in column `idx`: 0 when the
      column is missing or did not convert. */
  function CellValue(row: Row, idx: nat): int {
    if idx < |row| then row[idx].GetOr(0) else 0
  }

  /** The column of a keyword: one value per row, in row order. */
  function Column(rows: seq<Row>, idx: nat): (col: seq<int>)
    ensures |col| == |rows|
  {
    seq(|rows|, r requires 0 <= r < |rows| => CellValue(rows[r], idx))
  }

  /** `dict.get(kw, [])`. */
  function SeriesFor(m: map<string, seq<int>>, kw: string): seq<int> {
    if kw in m then m[kw] else []
  }

  /** The inner loop for one row, from keyword position `k` on. */
  function AppendRow(acc: map<string, seq<int>>, keywords: seq<string>, row: Row, k: nat): (r: map<string, seq<int>>)
    requires k <= |keywords|
    ensures r.Keys == acc.Keys + set i | k <= i < |keywords| :: keywords[i]
    decreases |keywords| - k
  {
    if k == |keywords| then acc
    else
      var kw := keywords[k];
      AppendRow(acc[kw := SeriesFor(acc, kw) + [CellValue(row, k)]], keywords, row, k + 1)
  }

  /** The timeline loop of `fetch_last_hour_interest_for_batch`: every
      keyword starts with an empty list, and each row appends one value per
      keyword. */
  function ExtractTimeline(keywords: seq<string>, rows: seq<Row>): (m: map<string, seq<int>>)
    ensures m.Keys == set i | 0 <= i < |keywords| :: keywords[i]
    decreases |rows|
  {
    if |rows| == 0 then map i | 0 <= i < |keywords| :: keywords[i] := []
    else AppendRow(ExtractTimeline(keywords, rows[..|rows| - 1]), keywords, rows[|rows| - 1], 0)
  }

  /** A keyword the rest of the row loop does not visit keeps its series. */
  lemma {:induction false} AppendRowOutside(acc: map<string, seq<int>>, keywords: seq<string>, row: Row, k: nat,
                                            kw: string)
    requires k <= |keywords|
    requires forall i :: k <= i < |keywords| ==> keywords[i] != kw
    ensures SeriesFor(AppendRow(acc, keywords, row, k), kw) == SeriesFor(acc, kw)
    decreases |keywords| - k
  {
    if k < |keywords| {
      var acc' := acc[keywords[k] := SeriesFor(acc, keywords[k]) + [CellValue(row, k)]];
      AppendRowOutside(acc', keywords, row, k + 1, kw);
    }
  }

  /** With distinct keywords, the row loop appends exactly one value, the
      keyword's own cell, to each keyword it visits. */
  lemma {:induction false} AppendRowDistinct(acc: map<string, seq<int>>, keywords: seq<string>, row: Row, k: nat, j: nat)
    requires k <= j < |keywords|
    requires NoDup(keywords)
    ensures SeriesFor(AppendRow(acc, keywords, row, k), keywords[j])
            == SeriesFor(acc, keywords[j]) + [CellValue(row, j)]
    decreases |keywords| - k
  {
    var kw := keywords[k];
    var acc' := acc[kw := SeriesFor(acc, kw) + [CellValue(row, k)]];
    if k == j {
      AppendRowOutside(acc', keywords, row, k + 1, kw);
    } else {
      AppendRowDistinct(acc', keywords, row, k + 1, j);
      assert SeriesFor(acc', keywords[j]) == SeriesFor(acc, keywords[j]);
    }
  }

  /** A column grows by one cell per row. */
  lemma ColumnSnoc(rows: seq<Row>, idx: nat)
    requires |rows| > 0
    ensures Column(rows, idx) == Column(rows[..|rows| - 1], idx) + [CellValue(rows[|rows| - 1], idx)]
  {
    var n := |rows| - 1;
    var lhs := Column(rows, idx);
    var rhs := Column(rows[..n], idx) + [CellValue(rows[n], idx)];
    assert |lhs| == |rhs|;
    forall r | 0 <= r < |lhs| ensures lhs[r] == rhs[r] {
      if r < n {
        assert rows[..n][r] == rows[r];
      }
    }
  }

  /** Before any row, every keyword has an empty series. */
  lemma TimelineStart(keywords: seq<string>, kw: string)
    ensures SeriesFor(ExtractTimeline(keywords, []), kw) == []
  {
  }

  /** With distinct keywords, each keyword's series is exactly its column of
      the timeline. */
  lemma {:induction false} TimelineColumns(keywords: seq<string>, rows: seq<Row>, j: nat)
    requires NoDup(keywords) && j < |keywords|
    ensures SeriesFor(ExtractTimeline(keywords, rows), keywords[j]) == Column(rows, j)
    decreases |rows|
  {
    if |rows| == 0 {
      TimelineStart(keywords, keywords[j]);
    } else {
      var n := |rows| - 1;
      var prev := ExtractTimeline(keywords, rows[..n]);
      assert ExtractTimeline(keywords, rows) == AppendRow(prev, keywords, rows[n], 0);
      TimelineColumns(keywords, rows[..n], j);
      AppendRowDistinct(prev, keywords, rows[n], 0, j);
      ColumnSnoc(rows, j);
    }
  }

  /** What the two requests for one batch produced. */
  datatype BatchOutcome =
    | Raised                    // a request or the decoding raised
    | NoData                    // no TIMESERIES widget, or no token
    | Timeline(rows: seq<Row>)  // the widget's timeline rows

  /** `collected.setdefault(kw, [])` for every keyword of a failed batch. */
  function SetDefaults(acc: map<string, seq<int>>, batch: seq<string>): (r: map<string, seq<int>>)
    ensures r.Keys == acc.Keys + set i | 0 <= i < |batch| :: batch[i]
    ensures forall kw :: SeriesFor(r, kw) == SeriesFor(acc, kw)
  {
    map kw | kw in acc.Keys + (set i | 0 <= i < |batch| :: batch[i]) :: SeriesFor(acc, kw)
  }

  /** The batch loop of `build_last_hour_trends`. */
  function CollectSeries(batches: seq<seq<string>>, fetch: seq<string> -> BatchOutcome): map<string, seq<int>>
    decreases |batches|
  {
    if |batches| == 0 then map[]
    else
      var acc := CollectSeries(batches[..|batches| - 1], fetch);
      var batch := batches[|batches| - 1];
      match fetch(batch)
      case Raised => SetDefaults(acc, batch)
      case NoData => acc
      case Timeline(rows) => acc + ExtractTimeline(batch, rows)
  }

  /** A keyword that occurs in only one batch gets its series from that
      batch alone: empty when the batch failed or had no data, its column
      when the batch returned a timeline. */
  lemma {:induction false} CollectSeriesFromOwnBatch(batches: seq<seq<string>>, fetch: seq<string> -> BatchOutcome,
                                                     b: nat, j: nat)
    requires b < |batches| && j < |batches[b]| && NoDup(batches[b])
    requires forall c :: 0 <= c < |batches| && c != b ==> batches[b][j] !in batches[c]
    ensures fetch(batches[b]).Timeline? ==>
      SeriesFor(CollectSeries(batches, fetch), batches[b][j]) == Column(fetch(batches[b]).rows, j)
    ensures !fetch(batches[b]).Timeline? ==> SeriesFor(CollectSeries(batches, fetch), batches[b][j]) == []
    decreases |batches|
  {
    var kw := batches[b][j];
    var last := |batches| - 1;
    var prefix := batches[..last];
    var acc := CollectSeries(prefix, fetch);
    if b < last {
      CollectSeriesFromOwnBatch(prefix, fetch, b, j);
      assert kw !in batches[last];
      match fetch(batches[last])
      case Raised =>
      case NoData =>
      case Timeline(rows) =>
        assert kw !in ExtractTimeline(batches[last], rows);
    } else {
      assert kw !in acc by {
        AbsentFromAll(prefix, fetch, kw);
      }
      match fetch(batches[last])
      case Raised =>
      case NoData =>
      case Timeline(rows) =>
        TimelineColumns(batches[last], rows, j);
    }
  }

  /** A keyword that is in none of the batches gets no entry. */
  lemma {:induction false} AbsentFromAll(batches: seq<seq<string>>, fetch: seq<string> -> BatchOutcome, kw: string)
    requires forall c :: 0 <= c < |batches| ==> kw !in batches[c]
    ensures kw !in CollectSeries(batches, fetch)
    decreases |batches|
  {
    if |batches| > 0 {
      var last := |batches| - 1;
      AbsentFromAll(batches[..last], fetch, kw);
      match fetch(batches[last])
      case Raised =>
      case NoData =>
      case Timeline(rows) =>
        assert kw !in ExtractTimeline(batches[last], rows);
    }
  }

  /** One entry of the `items` list, with the aggregates rounded to two
      decimals. */
  datatype TrendItem = TrendItem(
    keyword: string,
    latestIndex: int,
    avg60: real,
    avg20: real,
    delta20: real,
    points: seq<int>)

  /** The window, in points, of the short-term aggregates. */
  const Window: nat := 20

  function Mean(s: seq<int>): real
    requires |s| > 0
  {
    Sum(s) as real / |s| as real
  }

  /** `series[-20:]`, or the whole series when it is shorter. */
  function Tail(s: seq<int>): (t: seq<int>)
    ensures |t| == if |s| >= Window then Window else |s|
    ensures t == s[|s| - |t|..]
  {
    if |s| >= Window then s[|s| - Window..] else s
  }

  /** `series[:20]`, or the whole series when it is shorter. */
  function Head(s: seq<int>): (h: seq<int>)
    ensures |h| == if |s| >= Window then Window else |s|
    ensures h == s[..|h|]
  {
    if |s| >= Window then s[..Window] else s
  }

  /** How far the whole number `n` lies from `y`. */
  function Off(n: int, y: real): real {
    if n as real >= y then n as real - y else y - n as real
  }

  /** How far `n` hundredths lie from `x`, in hundredths. */
  function CentsOff(n: int, x: real): real {
    Off(n, x * 100.0)
  }

  /** The whole number of hundredths nearest to `x`, ties to even. */
  function Cents(x: real): (c: int)
    ensures -0.5 <= c as real - x * 100.0 <= 0.5
    ensures forall n: int :: CentsOff(c, x) <= CentsOff(n, x)
    ensures forall n: int :: n != c && CentsOff(n, x) == CentsOff(c, x) ==> c % 2 == 0
  {
    var y := x * 100.0;
    var f := y.Floor;
    var frac := y - f as real;
    var c := if frac < 0.5 then f
      else if frac > 0.5 then f + 1
      else if f % 2 == 0 then f
      else f + 1;
    NearestWhole(y, c);
    c
  }

  /** A whole number within one half of `y`, and even when exactly one half
      away, is the nearest whole number to `y`, and the even one of the two
      on a tie. */
  lemma NearestWhole(y: real, c: int)
    requires -0.5 <= c as real - y <= 0.5
    requires c as real - y == 0.5 || c as real - y == -0.5 ==> c % 2 == 0
    ensures forall n: int :: Off(c, y) <= Off(n, y)
    ensures forall n: int :: n != c && Off(n, y) == Off(c, y) ==> c % 2 == 0
  {
    forall n: int ensures Off(c, y) <= Off(n, y) && (n != c && Off(n, y) == Off(c, y) ==> c % 2 == 0) {
      if n < c {
        assert n as real <= c as real - 1.0;
      } else if n > c {
        assert n as real >= c as real + 1.0;
      }
    }
  }

  /** Python's `round(x, 2)`, taken on the exact value: a whole number of
      hundredths, the one nearest to `x`, and the even one on a tie. */
  function Round2(x: real): (r: real)
    ensures -0.005 <= r - x <= 0.005
    ensures (r * 100.0).Floor as real == r * 100.0
    ensures forall n: int :: CentsOff((r * 100.0).Floor, x) <= CentsOff(n, x)
    ensures forall n: int :: n != (r * 100.0).Floor && CentsOff(n, x) == CentsOff((r * 100.0).Floor, x) ==>
      (r * 100.0).Floor % 2 == 0
  {
    var c := Cents(x);
    assert (c as real / 100.0) * 100.0 == c as real;
    c as real / 100.0
  }

  /** Ties go to the even hundredth: 0.125 rounds down, 0.375 rounds up. */
  lemma Round2Ties()
    ensures Round2(0.125) == 0.12 && Round2(0.375) == 0.38
  {
  }

  lemma CentsMonotone(x: real, y: real)
    requires x <= y
    ensures Cents(x) <= Cents(y)
  {
    assert x * 100.0 <= y * 100.0;
  }

  /** Rounding never reverses an order. */
  lemma Round2Monotone(x: real, y: real)
    requires x <= y
    ensures Round2(x) <= Round2(y)
  {
    CentsMonotone(x, y);
  }

  /** Whole numbers are left alone by rounding. */
  lemma Round2Whole(n: int)
    ensures Round2(n as real) == n as real
  {
    var y := n as real * 100.0;
    assert y == (n * 100) as real;
    assert y.Floor == n * 100;
  }

  /** A value between two whole numbers stays between them once rounded. */
  lemma Round2Within(x: real, lo: int, hi: int)
    requires lo as real <= x <= hi as real
    ensures lo as real <= Round2(x) <= hi as real
  {
    Round2Monotone(lo as real, x);
    Round2Monotone(x, hi as real);
    Round2Whole(lo);
    Round2Whole(hi);
  }

  /** The item built for one keyword and its series: the last point, and
      the three means rounded to two decimals. */
  function ItemFor(kw: string, series: seq<int>): (it: TrendItem)
    ensures it.keyword == kw && it.points == series
    ensures series == [] ==> it.latestIndex == 0 && it.avg60 == 0.0 && it.avg20 == 0.0 && it.delta20 == 0.0
    ensures series != [] ==> it.latestIndex == series[|series| - 1]
    ensures series != [] ==> it.avg60 == Round2(Mean(series))
    ensures series != [] ==> it.avg20 == Round2(Mean(Tail(series)))
    ensures series != [] ==> it.delta20 == Round2(Mean(Tail(series)) - Mean(Head(series)))
    ensures |series| <= Window ==> it.delta20 == 0.0 && it.avg20 == it.avg60
  {
    if series == [] then TrendItem(kw, 0, 0.0, 0.0, 0.0, [])
    else
      assert |series| <= Window ==> Tail(series) == series && Head(series) == series;
      Round2Whole(0);
      var avg20 := Mean(Tail(series));
      TrendItem(kw, series[|series| - 1], Round2(Mean(series)), Round2(avg20),
                Round2(avg20 - Mean(Head(series))), series)
  }

  lemma {:induction false} SumBounds(s: seq<int>, lo: int, hi: int)
    requires forall i :: 0 <= i < |s| ==> lo <= s[i] <= hi
    ensures |s| * lo <= Sum(s) <= |s| * hi
    decreases |s|
  {
    if |s| > 0 {
      SumBounds(s[..|s| - 1], lo, hi);
    }
  }

  /** A mean lies between the least and the greatest point. */
  lemma MeanBounds(s: seq<int>, lo: int, hi: int)
    requires |s| > 0
    requires forall i :: 0 <= i < |s| ==> lo <= s[i] <= hi
    ensures lo as real <= Mean(s) <= hi as real
  {
    var n := |s| as real;
    var x := Sum(s) as real;
    SumBounds(s, lo, hi);
    CastMul(|s|, lo);
    CastMul(|s|, hi);
    assert n * lo as real <= x <= n * hi as real;
    DivideBounds(x, n, lo as real, hi as real);
  }

  lemma {:induction false} CastMul(k: nat, v: int)
    ensures (k * v) as real == k as real * v as real
    decreases k
  {
    if k > 0 {
      CastMul(k - 1, v);
      assert k * v == (k - 1) * v + v;
    }
  }

  lemma DivideBounds(x: real, n: real, a: real, b: real)
    requires n > 0.0 && n * a <= x <= n * b
    ensures a <= x / n <= b
  {
    assert x / n - a == (x - n * a) / n;
    assert b - x / n == (n * b - x) / n;
  }

  /** All aggregates stay within the range of the points; the acceleration
      proxy is bounded by the spread. */
  lemma ItemBounds(kw: string, series: seq<int>, lo: int, hi: int)
    requires |series| > 0
    requires forall i :: 0 <= i < |series| ==> lo <= series[i] <= hi
    ensures var it := ItemFor(kw, series);
      && lo as real <= it.avg60 <= hi as real
      && lo as real <= it.avg20 <= hi as real
      && (lo - hi) as real <= it.delta20 <= (hi - lo) as real
  {
    MeanBounds(series, lo, hi);
    var t := Tail(series);
    var h := Head(series);
    assert forall i :: 0 <= i < |t| ==> t[i] == series[|series| - |t| + i];
    MeanBounds(t, lo, hi);
    MeanBounds(h, lo, hi);
    Round2Within(Mean(series), lo, hi);
    Round2Within(Mean(t), lo, hi);
    Round2Within(Mean(t) - Mean(h), lo - hi, hi - lo);
  }

  /** A flat series has no acceleration and every mean equals its value. */
  lemma FlatSeries(kw: string, series: seq<int>, c: int)
    requires |series| > 0
    requires forall i :: 0 <= i < |series| ==> series[i] == c
    ensures var it := ItemFor(kw, series);
      it.latestIndex == c && it.avg60 == c as real && it.avg20 == c as real && it.delta20 == 0.0
  {
    ItemBounds(kw, series, c, c);
  }

  /** The sort key `(latest_index, avg_20m)`, descending: `a` goes first. */
  predicate RanksAbove(a: TrendItem, b: TrendItem) {
    a.latestIndex > b.latestIndex || (a.latestIndex == b.latestIndex && a.avg20 > b.avg20)
  }

  lemma RanksAboveIsWeakOrder()
    ensures StrictWeakOrder(RanksAbove)
  {
  }

  /** The per-keyword items, in keyword order, before sorting. */
  function KeywordItems(keywords: seq<string>, fetch: seq<string> -> BatchOutcome): (items: seq<TrendItem>)
    ensures |items| == |keywords|
    ensures forall i :: 0 <= i < |items| ==> items[i].keyword == keywords[i]
  {
    var collected := CollectSeries(Chunked(keywords, BatchSize), fetch);
    MapSeq(kw => ItemFor(kw, SeriesFor(collected, kw)), keywords)
  }

  function ItemKeyword(it: TrendItem): string { it.keyword }

  /** `build_last_hour_trends`'s item list: one item per keyword, ordered by
      latest index, then by the 20-minute mean, highest first. */
  function BuildLastHourTrends(keywords: seq<string>, fetch: seq<string> -> BatchOutcome): (items: seq<TrendItem>)
    ensures multiset(items) == multiset(KeywordItems(keywords, fetch))
    ensures multiset(MapSeq(ItemKeyword, items)) == multiset(keywords)
    ensures SortedBy(items, RanksAbove)
  {
    var unsorted := KeywordItems(keywords, fetch);
    var items := SortBy(unsorted, RanksAbove);
    RanksAboveIsWeakOrder();
    SortBySorted(unsorted, RanksAbove);
    MapSeqPermutation(ItemKeyword, items, unsorted);
    assert MapSeq(ItemKeyword, unsorted) == keywords;
    items
  }

  /** Once flattened without repetition, two different positions of the
      chunks hold different values. */
  lemma {:induction false} FlattenDistinct<T>(chunks: seq<seq<T>>, b: nat, j: nat, c: nat, y: nat)
    requires NoDup(Flatten(chunks))
    requires b < |chunks| && j < |chunks[b]| && c < |chunks| && y < |chunks[c]|
    requires b != c || j != y
    ensures chunks[b][j] != chunks[c][y]
    decreases |chunks|
  {
    var f := Flatten(chunks);
    var rest := Flatten(chunks[1..]);
    assert f == chunks[0] + rest;
    if b == 0 && c == 0 {
      assert f[j] == chunks[0][j] && f[y] == chunks[0][y];
    } else if b == 0 {
      var p := InFlatten(chunks[1..], c - 1, y);
      assert f[|chunks[0]| + p] == chunks[c][y];
      assert f[j] == chunks[0][j];
    } else if c == 0 {
      var p := InFlatten(chunks[1..], b - 1, j);
      assert f[|chunks[0]| + p] == chunks[b][j];
      assert f[y] == chunks[0][y];
    } else {
      assert NoDup(rest) by {
        forall x, z | 0 <= x < z < |rest| ensures rest[x] != rest[z] {
          assert rest[x] == f[|chunks[0]| + x] && rest[z] == f[|chunks[0]| + z];
        }
      }
      FlattenDistinct(chunks[1..], b - 1, j, c - 1, y);
    }
  }

  /** A keyword of one batch is in no other batch, and no batch repeats a
      keyword, when the flattened batches have no repetition. */
  lemma FlattenNoDup<T>(chunks: seq<seq<T>>, b: nat, j: nat)
    requires NoDup(Flatten(chunks))
    requires b < |chunks| && j < |chunks[b]|
    ensures NoDup(chunks[b])
    ensures forall c :: 0 <= c < |chunks| && c != b ==> chunks[b][j] !in chunks[c]
  {
    forall x, z | 0 <= x < z < |chunks[b]| ensures chunks[b][x] != chunks[b][z] {
      FlattenDistinct(chunks, b, x, b, z);
    }
    forall c, y | 0 <= c < |chunks| && c != b && 0 <= y < |chunks[c]| ensures chunks[b][j] != chunks[c][y] {
      FlattenDistinct(chunks, b, j, c, y);
    }
  }

  /** Where the element `chunks[c][y]` lands in the flattened sequence. */
  lemma {:induction false} InFlatten<T>(chunks: seq<seq<T>>, c: nat, y: nat) returns (p: nat)
    requires c < |chunks| && y < |chunks[c]|
    ensures p < |Flatten(chunks)| && Flatten(chunks)[p] == chunks[c][y]
    decreases |chunks|
  {
    assert Flatten(chunks) == chunks[0] + Flatten(chunks[1..]);
    if c == 0 {
      p := y;
    } else {
      var q := InFlatten(chunks[1..], c - 1, y);
      p := |chunks[0]| + q;
    }
  }

  /** Batch failures are isolated: with distinct keywords, a keyword whose
      batch raised or returned no data gets an all-zero item with no points,
      and a keyword whose batch returned a timeline gets its own column. */
  lemma BatchIsolation(keywords: seq<string>, fetch: seq<string> -> BatchOutcome, b: nat, j: nat)
    requires NoDup(keywords)
    requires b < |Chunked(keywords, BatchSize)| && j < |Chunked(keywords, BatchSize)[b]|
    ensures var batch := Chunked(keywords, BatchSize)[b];
      var kw := batch[j];
      var collected := CollectSeries(Chunked(keywords, BatchSize), fetch);
      && (fetch(batch).Timeline? ==> SeriesFor(collected, kw) == Column(fetch(batch).rows, j))
      && (!fetch(batch).Timeline? ==> ItemFor(kw, SeriesFor(collected, kw)) == TrendItem(kw, 0, 0.0, 0.0, 0.0, []))
  {
    var chunks := Chunked(keywords, BatchSize);
    FlattenNoDup(chunks, b, j);
    CollectSeriesFromOwnBatch(chunks, fetch, b, j);
  }
}

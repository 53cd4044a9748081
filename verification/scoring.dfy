/** `calc_trend_score`: the relevance score and trend signal of one article.
    The article's age is an input (hours since publication, as a real);
    float arithmetic is modelled exactly. */
module Scoring {
  import opened Text

  datatype TrendScore = TrendScore(score: int, signal: int)

  function Max(a: int, b: int): int { if a >= b then a else b }
  function Min(a: int, b: int): int { if a <= b then a else b }

  /** Python's `int(x)` on a float: truncation toward zero. */
  function Truncate(x: real): (n: int)
    ensures x >= 0.0 ==> n as real <= x < n as real + 1.0
    ensures x < 0.0 ==> n as real - 1.0 < x <= n as real
  {
    if x >= 0.0 then x.Floor else -((-x).Floor)
  }

  /** Hours past which the recency term has fallen to zero: 45 / 3.5. */
  const RecencyHorizon: real := 90.0 / 7.0

  /** `max(0, int(45 - age_hours * 3.5))` with
      `age_hours = max(0, hours since publication)`. */
  function Recency(elapsedHours: real): (r: int)
    ensures 0 <= r <= 45
    ensures elapsedHours <= 0.0 ==> r == 45
    ensures elapsedHours >= RecencyHorizon ==> r == 0
    ensures 0.0 <= elapsedHours < RecencyHorizon ==>
      r as real <= 45.0 - elapsedHours * 3.5 < r as real + 1.0
  {
    var age := if elapsedHours > 0.0 then elapsedHours else 0.0;
    Max(0, Truncate(45.0 - age * 3.5))
  }

  /** The recency term never grows as an article gets older. */
  lemma RecencyAntitone(older: real, newer: real)
    requires newer <= older
    ensures Recency(older) <= Recency(newer)
  {
  }

  /** `min(20, keyword_density * 2)`. */
  function DensityBonus(density: nat): (b: int)
    ensures 0 <= b <= 20
    ensures density >= 10 ==> b == 20
    ensures density < 10 ==> b == 2 * density
  {
    Min(20, density * 2)
  }

  /** The density bonus never shrinks as coverage grows. */
  lemma DensityBonusMonotone(d1: nat, d2: nat)
    requires d1 <= d2
    ensures DensityBonus(d1) <= DensityBonus(d2)
  {
  }

  /** +20 when the normalised keyword is non-empty and occurs in the
      normalised title. */
  function KeywordBonus(titleNorm: string, keyword: string): (b: int)
    ensures b == 0 || b == 20
  {
    var k := Normalize(keyword);
    if k != "" && IsSubstring(k, titleNorm) then 20 else 0
  }

  /** The keyword bonus is earned exactly when the non-empty normalised
      keyword occurs at some position of the normalised title; in particular
      a keyword that is blank after normalisation never earns it. */
  lemma KeywordBonusIff(title: string, keyword: string)
    ensures KeywordBonus(Normalize(title), keyword) == 20 <==>
      Normalize(keyword) != "" && exists i :: OccursAt(Normalize(keyword), Normalize(title), i)
    ensures KeywordBonus(Normalize(title), keyword) == 0 || KeywordBonus(Normalize(title), keyword) == 20
    ensures AllSpace(keyword) ==> KeywordBonus(Normalize(title), keyword) == 0
  {
    SubstringAt(Normalize(keyword), Normalize(title));
    NormalizeEmpty(keyword);
  }

  /** One word of a trending phrase counts when it is longer than four
      characters and occurs in the title. */
  predicate WordHits(word: string, titleNorm: string) {
    |word| > 4 && IsSubstring(word, titleNorm)
  }

  /** `any(part for part in words if len(part) > 4 and part in title_norm)`. */
  predicate AnyWordHits(words: seq<string>, titleNorm: string)
    decreases |words|
  {
    |words| > 0 && (WordHits(words[0], titleNorm) || AnyWordHits(words[1..], titleNorm))
  }

  lemma {:induction false} AnyWordHitsIff(words: seq<string>, titleNorm: string)
    ensures AnyWordHits(words, titleNorm) <==>
      exists j :: 0 <= j < |words| && WordHits(words[j], titleNorm)
    decreases |words|
  {
    if |words| > 0 {
      AnyWordHitsIff(words[1..], titleNorm);
      if j :| 0 <= j < |words| && WordHits(words[j], titleNorm) {
        if j > 0 {
          assert words[1..][j - 1] == words[j];
        }
      }
    }
  }

  /** The test applied to one non-empty trending phrase. */
  predicate PhraseHits(phrase: string, titleNorm: string) {
    IsSubstring(phrase, titleNorm) || AnyWordHits(Split(phrase, ' '), titleNorm)
  }

  /** The loop over trending phrases: empty phrases are skipped, and the
      first phrase that hits ends the search. */
  function TrendHit(trends: seq<string>, titleNorm: string): (hit: bool)
    ensures hit <==> exists k :: 0 <= k < |trends| && trends[k] != "" && PhraseHits(trends[k], titleNorm)
    decreases |trends|
  {
    if |trends| == 0 then false
    else if trends[0] == "" then
      var rest := TrendHit(trends[1..], titleNorm);
      assert forall k :: 1 <= k < |trends| ==> trends[k] == trends[1..][k - 1];
      rest
    else if PhraseHits(trends[0], titleNorm) then true
    else
      var rest := TrendHit(trends[1..], titleNorm);
      assert forall k :: 1 <= k < |trends| ==> trends[k] == trends[1..][k - 1];
      rest
  }

  /** The trend-match rule stated positionally: a non-empty phrase matches
      when it occurs in the title, or when one of its space-separated words
      longer than four characters does. */
  ghost predicate MatchesTrend(phrase: string, titleNorm: string) {
    && phrase != ""
    && ((exists i :: OccursAt(phrase, titleNorm, i))
        || (exists j, i :: 0 <= j < |Split(phrase, ' ')| && |Split(phrase, ' ')[j]| > 4
                           && OccursAt(Split(phrase, ' ')[j], titleNorm, i)))
  }

  lemma PhraseHitsIff(phrase: string, titleNorm: string)
    requires phrase != ""
    ensures PhraseHits(phrase, titleNorm) <==> MatchesTrend(phrase, titleNorm)
  {
    var words := Split(phrase, ' ');
    SubstringAt(phrase, titleNorm);
    AnyWordHitsIff(words, titleNorm);
    forall j | 0 <= j < |words| {
      SubstringAt(words[j], titleNorm);
    }
  }

  /** The phrase loop finds a hit exactly when some phrase matches. */
  lemma TrendHitIff(trends: seq<string>, titleNorm: string)
    ensures TrendHit(trends, titleNorm) <==>
      exists k :: 0 <= k < |trends| && MatchesTrend(trends[k], titleNorm)
  {
    forall k | 0 <= k < |trends| && trends[k] != "" {
      PhraseHitsIff(trends[k], titleNorm);
    }
  }

  /** The `trend_signal` flag: 1 when the phrase loop finds a hit. */
  function TrendSignal(trends: seq<string>, titleNorm: string): (signal: int)
    ensures signal == 0 || signal == 1
    ensures signal == 1 <==> exists k :: 0 <= k < |trends| && MatchesTrend(trends[k], titleNorm)
  {
    TrendHitIff(trends, titleNorm);
    if TrendHit(trends, titleNorm) then 1 else 0
  }

  /** The score of an already normalised title. */
  function ScoreOfNormal(titleNorm: string, keyword: string, elapsedHours: real,
                         trends: seq<string>, density: nat): (r: TrendScore)
    ensures 0 <= r.score <= 100
    ensures r.signal == 0 || r.signal == 1
    ensures r.signal == 1 <==> exists k :: 0 <= k < |trends| && MatchesTrend(trends[k], titleNorm)
    ensures r.score == Min(100, Recency(elapsedHours) + KeywordBonus(titleNorm, keyword)
                                + 25 * r.signal + DensityBonus(density))
  {
    var signal := TrendSignal(trends, titleNorm);
    var total := Recency(elapsedHours) + KeywordBonus(titleNorm, keyword)
                 + 25 * signal + DensityBonus(density);
    TrendScore(Max(0, Min(100, total)), signal)
  }

  /** `calc_trend_score`. */
  function CalcTrendScore(title: string, keyword: string, elapsedHours: real,
                          trends: seq<string>, density: nat): (r: TrendScore)
    ensures 0 <= r.score <= 100
    ensures r.signal == 0 || r.signal == 1
    ensures r.signal == 1 <==>
      exists k :: 0 <= k < |trends| && MatchesTrend(trends[k], Normalize(title))
    ensures r.score == Min(100, Recency(elapsedHours) + KeywordBonus(Normalize(title), keyword)
                                + 25 * r.signal + DensityBonus(density))
  {
    ScoreOfNormal(Normalize(title), keyword, elapsedHours, trends, density)
  }

  /** More coverage of a keyword in the same scan never lowers a score. */
  lemma ScoreMonotoneInDensity(title: string, keyword: string, elapsedHours: real,
                               trends: seq<string>, d1: nat, d2: nat)
    requires d1 <= d2
    ensures CalcTrendScore(title, keyword, elapsedHours, trends, d1).score
         <= CalcTrendScore(title, keyword, elapsedHours, trends, d2).score
    ensures CalcTrendScore(title, keyword, elapsedHours, trends, d1).signal
         == CalcTrendScore(title, keyword, elapsedHours, trends, d2).signal
  {
    DensityBonusMonotone(d1, d2);
  }

  /** An older article never scores higher than the same article newer. */
  lemma ScoreAntitoneInAge(title: string, keyword: string, older: real, newer: real,
                           trends: seq<string>, density: nat)
    requires newer <= older
    ensures CalcTrendScore(title, keyword, older, trends, density).score
         <= CalcTrendScore(title, keyword, newer, trends, density).score
  {
    RecencyAntitone(older, newer);
  }

  /** With no trending phrases there is never a signal, and the score is at
      most 45 + 20 + 20. */
  lemma NoTrendsNoSignal(title: string, keyword: string, elapsedHours: real, density: nat)
    ensures CalcTrendScore(title, keyword, elapsedHours, [], density).signal == 0
    ensures CalcTrendScore(title, keyword, elapsedHours, [], density).score <= 85
  {
  }

  const ScenarioKeyword := "elections"
  const ScenarioTrend := ScenarioKeyword + " results"
  const ScenarioTitle := "Elections Results Announced"
  const ScenarioTitleLower := ScenarioTrend + " announced"

  /** An article titled "Elections Results Announced", tracked under
      "elections", published one hour ago, with "elections results"
      trending and one article for the keyword in this scan: 41 for recency,
      20 for the keyword, 25 for the trend and 2 for density. */
  lemma ElectionsScenario()
    ensures CalcTrendScore(ScenarioTitle, ScenarioKeyword, 1.0, [ScenarioTrend], 1) == TrendScore(88, 1)
  {
    ScenarioTitleNormal();
    ScenarioKeywordNormal();
    ScenarioFromNormalForms(ScenarioTitle, ScenarioKeyword);
  }

  lemma ScenarioTitleShape()
    ensures Collapsed(ScenarioTitle) && Trimmed(ScenarioTitle)
  {
    assert |ScenarioTitle| == 27;
    forall i | 0 <= i < 27 ensures IsSpace(ScenarioTitle[i]) <==> i == 9 || i == 17 {
    }
  }

  lemma ScenarioTitleLowered()
    ensures Lower(ScenarioTitle) == ScenarioTitleLower
  {
    assert |ScenarioTitle| == |ScenarioTitleLower| == 27;
    forall i | 0 <= i < 27 ensures LowerChar(ScenarioTitle[i]) == ScenarioTitleLower[i] {
    }
  }

  lemma ScenarioTitleNormal()
    ensures Normalize(ScenarioTitle) == ScenarioTitleLower
  {
    ScenarioTitleShape();
    CollapseFixed(ScenarioTitle);
    StripTrimmed(ScenarioTitle);
    ScenarioTitleLowered();
  }

  lemma ScenarioKeywordNormal()
    ensures Normalize(ScenarioKeyword) == ScenarioKeyword
  {
    assert |ScenarioKeyword| == 9;
    forall i | 0 <= i < 9 ensures !IsSpace(ScenarioKeyword[i]) && !IsUpper(ScenarioKeyword[i]) {
    }
    NormalFixed(ScenarioKeyword);
  }

  lemma ScenarioTrendMatches()
    ensures MatchesTrend(ScenarioTrend, ScenarioTitleLower)
  {
    PrefixOfConcat(ScenarioTrend, " announced");
    assert PhraseHits(ScenarioTrend, ScenarioTitleLower);
    PhraseHitsIff(ScenarioTrend, ScenarioTitleLower);
  }

  lemma ScenarioKeywordHits(keyword: string)
    requires Normalize(keyword) == ScenarioKeyword
    ensures KeywordBonus(ScenarioTitleLower, keyword) == 20
  {
    PrefixOfConcat(ScenarioKeyword, " results");
    PrefixExtend(ScenarioKeyword, ScenarioTrend, " announced");
    assert IsSubstring(ScenarioKeyword, ScenarioTitleLower);
  }

  lemma ScenarioFromNormalForms(title: string, keyword: string)
    ensures Normalize(title) == ScenarioTitleLower && Normalize(keyword) == ScenarioKeyword ==>
      CalcTrendScore(title, keyword, 1.0, [ScenarioTrend], 1) == TrendScore(88, 1)
  {
    if Normalize(title) == ScenarioTitleLower && Normalize(keyword) == ScenarioKeyword {
      assert Recency(1.0) == 41;
      ScenarioTrendMatches();
      var trends := [ScenarioTrend];
      assert trends[0] == ScenarioTrend;
      ScenarioKeywordHits(keyword);
    }
  }
}

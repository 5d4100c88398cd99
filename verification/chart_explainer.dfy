/** The chart explainer (`services/chart_explainer.py`): request validation, language and
    provider resolution, per-series statistics and the decision between a language-model
    answer and the local fallback. The data summary text, the prompts and the two HTTP
    clients are parameters: `summarize` builds the summary, `engine` calls the provider. */
module ChartExplainer {
  import opened Wrappers
  import opened Numeric
  import Text
  import Series
  import PyConvert

  // ----- localisation -----

  const Languages: set<string> := {"ru", "kz", "en"}

  /** The keys of the summary texts, one constructor per key of `SUMMARY_I18N`
      ("range", "indicators_selected", "indicator", "no_points", "trend.flat",
      "trend.upward", "trend.downward", "series", "spread", "intro", "question_label",
      "reason_label"). */
  datatype MessageKey =
    | Range | IndicatorsSelected | IndicatorLine | NoPoints
    | TrendFlat | TrendUpward | TrendDownward | SeriesLine | Spread
    | Intro | QuestionLabel | ReasonLabel

  /** The English table. */
  function EnText(key: MessageKey): string {
    match key
    case Range => "Range: {start} - {end}"
    case IndicatorsSelected => "Indicators selected: {count}"
    case IndicatorLine => "Indicator: {label} ({code})"
    case NoPoints => "- {country}: no numeric points"
    case TrendFlat => "flat"
    case TrendUpward => "upward"
    case TrendDownward => "downward"
    case SeriesLine => "- {country}: points={count}, years={first_year}-{last_year}, first={first_value:.2f}, last={last_value:.2f}, change={change:+.2f} ({pct_text}), trend={trend}, min={min_value:.2f}, max={max_value:.2f}"
    case Spread => "- Latest spread: top={top_country} ({top_value:.2f}), low={low_country} ({low_value:.2f}), gap={gap:.2f}"
    case Intro => "LLM is unavailable, so the response below is a local analytical summary."
    case QuestionLabel => "User question"
    case ReasonLabel => "Reason"
  }

  /** The Russian table. */
  function RuText(key: MessageKey): string {
    match key
    case Range => "Диапазон: {start} - {end}"
    case IndicatorsSelected => "Выбрано индикаторов: {count}"
    case IndicatorLine => "Индикатор: {label} ({code})"
    case NoPoints => "- {country}: нет числовых точек"
    case TrendFlat => "стабильно"
    case TrendUpward => "рост"
    case TrendDownward => "снижение"
    case SeriesLine => "- {country}: точек={count}, годы={first_year}-{last_year}, первое={first_value:.2f}, последнее={last_value:.2f}, изменение={change:+.2f} ({pct_text}), тренд={trend}, min={min_value:.2f}, max={max_value:.2f}"
    case Spread => "- Последний разрыв: максимум={top_country} ({top_value:.2f}), минимум={low_country} ({low_value:.2f}), разница={gap:.2f}"
    case Intro => "LLM недоступна, поэтому ниже локальный аналитический разбор."
    case QuestionLabel => "Вопрос пользователя"
    case ReasonLabel => "Причина"
  }

  /** The Kazakh table. */
  function KzText(key: MessageKey): string {
    match key
    case Range => "Аралығы: {start} - {end}"
    case IndicatorsSelected => "Таңдалған индикатор саны: {count}"
    case IndicatorLine => "Индикатор: {label} ({code})"
    case NoPoints => "- {country}: сандық нүктелер жоқ"
    case TrendFlat => "тұрақты"
    case TrendUpward => "өсу"
    case TrendDownward => "төмендеу"
    case SeriesLine => "- {country}: нүкте={count}, жылдар={first_year}-{last_year}, бастапқы={first_value:.2f}, соңғы={last_value:.2f}, өзгеріс={change:+.2f} ({pct_text}), тренд={trend}, min={min_value:.2f}, max={max_value:.2f}"
    case Spread => "- Соңғы айырма: жоғары={top_country} ({top_value:.2f}), төмен={low_country} ({low_value:.2f}), айырма={gap:.2f}"
    case Intro => "LLM қолжетімсіз, сондықтан төменде жергілікті аналитикалық қорытынды берілді."
    case QuestionLabel => "Пайдаланушы сұрағы"
    case ReasonLabel => "Себеп"
  }

  /** `_localize`: the table of a known language, else the English one. Every table has
      every key, so the English fallback for a missing key never applies. */
  function Localize(lang: string, key: MessageKey): (r: string)
    ensures lang !in Languages ==> r == EnText(key)
  {
    if lang == "ru" then RuText(key) else if lang == "kz" then KzText(key) else EnText(key)
  }

  /** A language without a table of its own reads the English one. */
  lemma LocalizeUnknownIsEnglish(lang: string, key: MessageKey)
    requires lang !in Languages
    ensures Localize(lang, key) == Localize("en", key)
  {
    assert lang != "ru" && lang != "kz";
  }


  /** `_is_russian`: the text holds a letter of the basic Russian alphabet (А-Я, а-я, Ё, ё). */
  predicate IsCyrillic(c: char) {
    (0x410 <= c as int <= 0x44F) || c as int == 0x401 || c as int == 0x451
  }

  predicate IsRussian(text: string) {
    exists i :: 0 <= i < |text| && IsCyrillic(text[i])
  }

  /** `_resolve_language`: the trimmed, lower-cased requested language when it is one of the
      three known ones; otherwise Russian for a question with Cyrillic letters, else English. */
  function ResolveLanguage(language: Option<string>, question: string): (r: string)
    ensures r in Languages
    ensures Text.Lower(Text.Strip(language.GetOr(""))) in Languages ==> r == Text.Lower(Text.Strip(language.GetOr("")))
    ensures Text.Lower(Text.Strip(language.GetOr(""))) !in Languages ==> (r == "ru" <==> IsRussian(question))
  {
    var selected := Text.Lower(Text.Strip(language.GetOr("")));
    if selected in Languages then selected
    else if IsRussian(question) then "ru" else "en"
  }

  /** Feeding a resolved language back in gives it back, whatever the question. */
  lemma ResolveLanguageIsStable(language: Option<string>, question: string, other: string)
    ensures ResolveLanguage(Some(ResolveLanguage(language, question)), other) == ResolveLanguage(language, question)
  {
    var r := ResolveLanguage(language, question);
    CanonicalCode(r);
    assert Some(r).GetOr("") == r;
  }

  lemma CanonicalCode(code: string)
    requires code in Languages
    ensures Text.Lower(Text.Strip(code)) == code
  {
    Text.StripOfTrimmed(Text.Python, code);
    if code == "ru" {
      assert Text.Lower("ru") == "ru";
    } else if code == "kz" {
      assert Text.Lower("kz") == "kz";
    } else {
      assert Text.Lower("en") == "en";
    }
  }

  // ----- series statistics -----

  datatype Trend = Flat | Upward | Downward

  datatype Stats = Stats(
    count: nat, firstYear: int, lastYear: int, firstValue: real, lastValue: real,
    min: real, max: real, mean: real, change: real, pctChange: Option<real>, trend: Trend)

  /** The valued points sorted by year (stable, so equal years keep input order). */
  function SortedValued(points: seq<Series.Point>): (r: seq<Series.Point>)
    ensures multiset(r) == multiset(Series.Valued(points))
    ensures Series.YearsAscending(r)
    ensures forall k :: 0 <= k < |r| ==> r[k].value.Some?
  {
    var v := Series.Valued(points);
    var sorted := Series.SortByYear(v);
    forall k | 0 <= k < |sorted|
      ensures sorted[k].value.Some?
    {
      assert sorted[k] in multiset(v);
    }
    sorted
  }

  function ValuesOf(ps: seq<Series.Point>): (r: seq<real>)
    requires forall k :: 0 <= k < |ps| ==> ps[k].value.Some?
    ensures |r| == |ps| && forall k :: 0 <= k < |ps| ==> r[k] == ps[k].value.value
  {
    seq(|ps|, k requires 0 <= k < |ps| => ps[k].value.value)
  }

  /** Python `min` of a non-empty list. */
  function MinOf(xs: seq<real>): (m: real)
    requires |xs| > 0
    ensures forall k :: 0 <= k < |xs| ==> m <= xs[k]
    ensures exists k :: 0 <= k < |xs| && xs[k] == m
  {
    if |xs| == 1 then xs[0]
    else
      var rest := MinOf(xs[1..]);
      assert forall k :: 1 <= k < |xs| ==> xs[k] == xs[1..][k - 1];
      if xs[0] <= rest then xs[0] else rest
  }

  /** Python `max` of a non-empty list. */
  function MaxOf(xs: seq<real>): (m: real)
    requires |xs| > 0
    ensures forall k :: 0 <= k < |xs| ==> xs[k] <= m
    ensures exists k :: 0 <= k < |xs| && xs[k] == m
  {
    if |xs| == 1 then xs[0]
    else
      var rest := MaxOf(xs[1..]);
      assert forall k :: 1 <= k < |xs| ==> xs[k] == xs[1..][k - 1];
      if xs[0] >= rest then xs[0] else rest
  }

  /** The divisor of the percentage change: |first|, or max(|last|, 1) when first is 0. */
  function PctBase(first: real, last: real): (b: real)
    ensures b > 0.0
    ensures first != 0.0 ==> b == Abs(first)
    ensures first == 0.0 ==> b >= 1.0 && b >= Abs(last)
  {
    if first != 0.0 then Abs(first) else MaxR(Abs(last), 1.0)
  }

  /** `pct_change`: `(change / base) * 100 if base else None`. */
  function PctChange(first: real, last: real): Option<real> {
    var base := PctBase(first, last);
    if base != 0.0 then Some((last - first) / base * 100.0) else None
  }

  /** The "else None" branch is dead: the percentage is always defined, and it has the sign
      of the change. */
  lemma PctChangeAlwaysDefined(first: real, last: real)
    ensures PctChange(first, last).Some?
    ensures PctChange(first, last).value > 0.0 <==> last > first
    ensures PctChange(first, last).value == 0.0 <==> last == first
  {
    var base := PctBase(first, last);
    var q := (last - first) / base;
    assert last - first == q * base;
    if last > first {
      assert q > 0.0;
    } else if last < first {
      assert q < 0.0;
    }
  }

  /** The tolerance under which a change counts as flat. */
  function FlatTolerance(first: real): real {
    MaxR(0.01, Abs(first) * 0.03)
  }

  /** The trend classification of `_series_stats`. */
  function TrendOf(first: real, change: real): Trend {
    if Abs(change) <= FlatTolerance(first) then Flat
    else if change > 0.0 then Upward
    else Downward
  }

  /** The trend is flat exactly within the tolerance; an upward (downward) trend means the
      last value exceeds (falls short of) the first by more than the tolerance, and no
      tolerance is below 0.01. */
  lemma TrendMeaning(first: real, last: real)
    ensures TrendOf(first, last - first) == Flat <==> first - FlatTolerance(first) <= last <= first + FlatTolerance(first)
    ensures TrendOf(first, last - first) == Upward <==> last > first + FlatTolerance(first)
    ensures TrendOf(first, last - first) == Downward <==> last < first - FlatTolerance(first)
    ensures FlatTolerance(first) >= 0.01
  {
  }

  function Mirror(t: Trend): Trend {
    match t
    case Flat => Flat
    case Upward => Downward
    case Downward => Upward
  }

  /** Negating a series swaps upward and downward and keeps flat. */
  lemma TrendMirrors(first: real, change: real)
    ensures TrendOf(-first, -change) == Mirror(TrendOf(first, change))
  {
    assert Abs(-first) == Abs(first);
    assert Abs(-change) == Abs(change);
  }

  /** `_series_stats`: None without a valued point; otherwise the statistics of the valued
      points in year order. */
  function SeriesStats(points: seq<Series.Point>): (r: Option<Stats>)
    ensures r.Some? ==> r.value.count > 0 && r.value.firstYear <= r.value.lastYear
    ensures r.Some? ==> r.value.min <= r.value.firstValue <= r.value.max
    ensures r.Some? ==> r.value.min <= r.value.lastValue <= r.value.max
    ensures r.Some? ==> r.value.pctChange.Some?
  {
    var valid := SortedValued(points);
    if |valid| == 0 then None
    else
      var first := valid[0];
      var last := valid[|valid| - 1];
      var values := ValuesOf(valid);
      var change := last.value.value - first.value.value;
      PctChangeAlwaysDefined(first.value.value, last.value.value);
      Some(Stats(
        |valid|, first.year, last.year, first.value.value, last.value.value,
        MinOf(values), MaxOf(values), Mean(values),
        change, PctChange(first.value.value, last.value.value), TrendOf(first.value.value, change)))
  }

  /** The statistics are absent exactly when no point carries a value. */
  lemma SeriesStatsNoneIff(points: seq<Series.Point>)
    ensures SeriesStats(points).None? <==> forall i :: 0 <= i < |points| ==> points[i].value.None?
  {
    var v := Series.Valued(points);
    if |v| == 0 {
      forall i | 0 <= i < |points|
        ensures points[i].value.None?
      {
        Series.ValuedCount(points, points[i]);
        assert multiset(points)[points[i]] > 0;
      }
    } else {
      Series.ValuedCount(points, v[0]);
      assert multiset(v)[v[0]] > 0;
      assert v[0] in multiset(points);
    }
  }

  /** Every valued point lies within the statistics: its year between the first and last
      year, its value between min and max. */
  lemma SeriesStatsBound(points: seq<Series.Point>, i: int)
    requires 0 <= i < |points| && points[i].value.Some?
    ensures SeriesStats(points).Some?
    ensures SeriesStats(points).value.firstYear <= points[i].year <= SeriesStats(points).value.lastYear
    ensures SeriesStats(points).value.min <= points[i].value.value <= SeriesStats(points).value.max
  {
    SeriesStatsNoneIff(points);
    var valid := SortedValued(points);
    var k := ValuedPointIsSorted(points, i);
    assert valid[0].year <= valid[k].year <= valid[|valid| - 1].year;
    assert ValuesOf(valid)[k] == points[i].value.value;
  }

  /** A valued point has a place among the sorted valued points. */
  lemma ValuedPointIsSorted(points: seq<Series.Point>, i: int) returns (k: int)
    requires 0 <= i < |points| && points[i].value.Some?
    ensures 0 <= k < |SortedValued(points)| && SortedValued(points)[k] == points[i]
  {
    Series.ValuedCount(points, points[i]);
    assert points[i] in multiset(points);
    assert points[i] in multiset(SortedValued(points));
    k :| 0 <= k < |SortedValued(points)| && SortedValued(points)[k] == points[i];
  }

  /** The statistics come from the points: the first and last year and value are those of
      valued input points, the count is the number of valued points, and the change is the
      last value minus the first. */
  lemma SeriesStatsFromPoints(points: seq<Series.Point>)
    requires SeriesStats(points).Some?
    ensures var s := SeriesStats(points).value;
      && s.count == |Series.Valued(points)|
      && s.change == s.lastValue - s.firstValue
      && s.trend == TrendOf(s.firstValue, s.change)
      && Series.Point(s.firstYear, Some(s.firstValue)) in points
      && Series.Point(s.lastYear, Some(s.lastValue)) in points
  {
    var valid := SortedValued(points);
    var first := valid[0];
    var last := valid[|valid| - 1];
    assert first in multiset(valid);
    assert last in multiset(valid);
    Series.ValuedCount(points, first);
    Series.ValuedCount(points, last);
    assert first in multiset(points);
    assert last in multiset(points);
    assert |multiset(valid)| == |multiset(Series.Valued(points))|;
  }

  // ----- provider resolution -----

  /** `_resolve_provider`: "auto" picks Gemini when its key is set, else OpenAI when its key
      is set, else stays "auto"; a blank setting means OpenAI; anything else is returned
      trimmed and lower-cased. */
  function ResolveProvider(configured: string, geminiKey: string, openaiKey: string): (r: string)
    ensures r != ""
    ensures r == "auto" <==> Text.Lower(Text.Strip(configured)) == "auto" && geminiKey == "" && openaiKey == ""
    ensures Text.Lower(Text.Strip(configured)) == "auto" && geminiKey != "" ==> r == "gemini"
    ensures Text.Lower(Text.Strip(configured)) == "auto" && geminiKey == "" && openaiKey != "" ==> r == "openai"
    ensures Text.Lower(Text.Strip(configured)) == "" ==> r == "openai"
    ensures Text.Lower(Text.Strip(configured)) != "auto" && Text.Lower(Text.Strip(configured)) != "" ==>
      r == Text.Lower(Text.Strip(configured))
  {
    var provider := Text.Lower(Text.Strip(configured));
    if provider == "auto" && geminiKey != "" then "gemini"
    else if provider == "auto" && openaiKey != "" then "openai"
    else if provider == "" then "openai"
    else provider
  }

  /** Resolving an already resolved provider changes nothing. */
  lemma ResolveProviderIsStable(configured: string, geminiKey: string, openaiKey: string)
    ensures ResolveProvider(ResolveProvider(configured, geminiKey, openaiKey), geminiKey, openaiKey)
      == ResolveProvider(configured, geminiKey, openaiKey)
  {
    var r := ResolveProvider(configured, geminiKey, openaiKey);
    Text.LowerStripIdempotent(configured);
    ProviderNamesAreNormal();
    assert Text.Lower(Text.Strip(r)) == r;
  }

  /** The two provider names are already lower-case and trimmed. */
  lemma ProviderNamesAreNormal()
    ensures Text.Lower(Text.Strip("gemini")) == "gemini"
    ensures Text.Lower(Text.Strip("openai")) == "openai"
  {
    Text.StripOfTrimmed(Text.Python, "gemini");
    Text.StripOfTrimmed(Text.Python, "openai");
    assert Text.Lower("gemini") == "gemini";
    assert Text.Lower("openai") == "openai";
  }

  // ----- the request -----

  datatype ChartSeries = ChartSeries(country: string, data: seq<Series.Point>)
  datatype ChartDataset = ChartDataset(indicator: string, indicatorLabel: Option<string>, series: seq<ChartSeries>)
  datatype ExplainRequest = ExplainRequest(
    question: string, datasets: seq<ChartDataset>, language: Option<string>,
    startYear: Option<int>, endYear: Option<int>)
  datatype ExplainResponse = ExplainResponse(answer: string, provider: string, model: Option<string>, warning: Option<string>)

  /** The environment settings the explainer reads (an unset key is the empty string). */
  datatype Settings = Settings(
    provider: string, geminiKey: string, openaiKey: string, geminiModel: string, openaiModel: string,
    maxIndicators: int, maxCountries: int)

  const LocalFallback := "local-fallback"

  /** The position of the first dataset with more series than allowed. */
  function FirstCrowded(datasets: seq<ChartDataset>, maxCountries: int): (r: Option<nat>)
    ensures r.None? <==> forall i :: 0 <= i < |datasets| ==> |datasets[i].series| <= maxCountries
    ensures r.Some? ==>
      && r.value < |datasets| && |datasets[r.value].series| > maxCountries
      && forall j :: 0 <= j < r.value ==> |datasets[j].series| <= maxCountries
  {
    if |datasets| == 0 then None
    else if |datasets[0].series| > maxCountries then Some(0)
    else
      assert forall j :: 1 <= j < |datasets| ==> datasets[j] == datasets[1..][j - 1];
      match FirstCrowded(datasets[1..], maxCountries)
      case None => None
      case Some(k) => Some(k + 1)
  }

  /** The `ValueError`s `explain_chart` raises before doing anything else, in order. */
  function Validate(cfg: Settings, req: ExplainRequest): (r: Option<string>)
    ensures r.None? <==>
      && Text.Strip(req.question) != ""
      && 0 < |req.datasets| <= cfg.maxIndicators
      && forall i :: 0 <= i < |req.datasets| ==> |req.datasets[i].series| <= cfg.maxCountries
    ensures Text.Strip(req.question) == "" ==> r == Some("question is required")
    ensures Text.Strip(req.question) != "" && |req.datasets| == 0 ==> r == Some("datasets are required")
  {
    if Text.Strip(req.question) == "" then Some("question is required")
    else if |req.datasets| == 0 then Some("datasets are required")
    else if |req.datasets| > cfg.maxIndicators then
      Some("Too many indicators. Maximum is " + PyConvert.ShowInt(cfg.maxIndicators) + ".")
    else
      match FirstCrowded(req.datasets, cfg.maxCountries)
      case None => None
      case Some(k) =>
        Some("Too many countries for indicator " + req.datasets[k].indicator + ". Maximum is "
          + PyConvert.ShowInt(cfg.maxCountries) + ".")
  }

  /** A single dataset with more series than allowed is rejected with the "Too many
      countries" message naming its indicator. */
  lemma {:induction false} TooManyCountriesRejected(cfg: Settings, req: ExplainRequest)
    requires Text.Strip(req.question) != ""
    requires |req.datasets| == 1 <= cfg.maxIndicators
    requires |req.datasets[0].series| > cfg.maxCountries
    ensures Validate(cfg, req) == Some("Too many countries for indicator " + req.datasets[0].indicator + ". Maximum is "
      + PyConvert.ShowInt(cfg.maxCountries) + ".")
    ensures Text.StartsWith(Validate(cfg, req).value, "Too many countries")
  {
    assert FirstCrowded(req.datasets, cfg.maxCountries) == Some(0);
    CountriesPrefix(req.datasets[0].indicator, PyConvert.ShowInt(cfg.maxCountries));
  }

  /** The "Too many countries" message starts with those words. */
  lemma CountriesPrefix(indicator: string, limit: string)
    ensures Text.StartsWith("Too many countries for indicator " + indicator + ". Maximum is " + limit + ".", "Too many countries")
  {
    var rest := " for indicator " + indicator + ". Maximum is " + limit + ".";
    assert "Too many countries for indicator " + indicator + ". Maximum is " + limit + "." == "Too many countries" + rest;
    Prefix("Too many countries", rest);
  }

  /** `_fallback_answer`: the localised intro, the question, the reason when there is one,
      and the data summary. */
  function FallbackAnswer(lang: string, question: string, summary: string, warning: string): string {
    FallbackText(Localize(lang, Intro), Localize(lang, QuestionLabel), Localize(lang, ReasonLabel), question, summary, warning)
  }

  /** The layout of the fallback answer for given labels. */
  function FallbackText(intro: string, questionLabel: string, reasonLabel: string, question: string, summary: string, warning: string): string {
    var note := if warning != "" then "\n" + reasonLabel + ": " + warning else "";
    intro + "\n" + questionLabel + ": " + question + note + "\n\n" + summary
  }

  /** The fallback answer opens with the intro, quotes the question under its label and
      gives a non-empty reason under its label. */
  lemma {:induction false} FallbackTextMentions(intro: string, questionLabel: string, reasonLabel: string, question: string, summary: string, warning: string)
    ensures Text.StartsWith(FallbackText(intro, questionLabel, reasonLabel, question, summary, warning), intro)
    ensures Text.Contains(FallbackText(intro, questionLabel, reasonLabel, question, summary, warning), questionLabel + ": " + question)
    ensures warning != "" ==>
      Text.Contains(FallbackText(intro, questionLabel, reasonLabel, question, summary, warning), reasonLabel + ": " + warning)
  {
    var note := if warning != "" then "\n" + reasonLabel + ": " + warning else "";
    var qpart := questionLabel + ": " + question;
    var tail := note + "\n\n" + summary;
    var a := FallbackText(intro, questionLabel, reasonLabel, question, summary, warning);
    assert a == intro + "\n" + qpart + tail;
    Prefix(intro, "\n" + qpart + tail);
    Infix(intro + "\n", qpart, tail);
    if warning != "" {
      var rpart := reasonLabel + ": " + warning;
      var pre := intro + "\n" + qpart + "\n";
      var head := intro + "\n" + qpart;
      var end := "\n\n" + summary;
      assert tail == "\n" + rpart + end;
      assert a == head + tail;
      assert head + ("\n" + rpart + end) == (head + "\n") + rpart + end;
      Infix(pre, rpart, "\n\n" + summary);
    }
  }

  lemma {:induction false} Infix(pre: string, mid: string, post: string)
    ensures Text.Contains(pre + mid + post, mid)
  {
    var s := pre + mid + post;
    assert s[|pre|..|pre| + |mid|] == mid;
    assert Text.OccursAt(s, mid, |pre|);
  }

  lemma {:induction false} Prefix(pre: string, post: string)
    ensures Text.StartsWith(pre + post, pre)
  {
    assert (pre + post)[..|pre|] == pre;
  }

  function Fallback(lang: string, req: ExplainRequest, summary: string, reason: string, warning: string): ExplainResponse {
    ExplainResponse(FallbackAnswer(lang, req.question, summary, reason), LocalFallback, None, Some(warning))
  }

  /** `explain_chart`: validation, then a missing key, an unknown provider or a failing
      provider call each give the local fallback; otherwise the provider's answer. */
  function ExplainChart(
    cfg: Settings,
    summarize: (ExplainRequest, string) -> string,
    engine: (string, ExplainRequest, string, string) -> Result<string, string>,
    req: ExplainRequest): (r: Result<ExplainResponse, string>)
    ensures r.Err? <==> Validate(cfg, req).Some?
    ensures r.Err? ==> r.error == Validate(cfg, req).value
    ensures r.Ok? ==> (r.value.provider == LocalFallback <==> r.value.model.None?)
    ensures r.Ok? ==> (r.value.provider == LocalFallback <==> r.value.warning.Some?)
    ensures r.Ok? && r.value.warning.Some? ==> r.value.warning.value != ""
    ensures r.Ok? && r.value.provider != LocalFallback ==>
      || (r.value.provider == "openai" && r.value.model == Some(cfg.openaiModel))
      || (r.value.provider == "gemini" && r.value.model == Some(cfg.geminiModel))
  {
    match Validate(cfg, req)
    case Some(msg) => Err(msg)
    case None =>
      var lang := ResolveLanguage(req.language, req.question);
      var summary := summarize(req, lang);
      var provider := ResolveProvider(cfg.provider, cfg.geminiKey, cfg.openaiKey);
      if provider == "openai" && cfg.openaiKey == "" then
        Ok(Fallback(lang, req, summary, "OPENAI_API_KEY is not set", "OPENAI_API_KEY is not configured; returned local summary."))
      else if provider == "gemini" && cfg.geminiKey == "" then
        Ok(Fallback(lang, req, summary, "GEMINI_API_KEY is not set", "GEMINI_API_KEY is not configured; returned local summary."))
      else if provider != "openai" && provider != "gemini" then
        Ok(Fallback(lang, req, summary, "Unknown CHART_EXPLAIN_PROVIDER: " + provider, "Unknown CHART_EXPLAIN_PROVIDER: " + provider))
      else
        match engine(provider, req, summary, lang)
        case Ok(answer) =>
          Ok(ExplainResponse(answer, provider, Some(if provider == "gemini" then cfg.geminiModel else cfg.openaiModel), None))
        case Err(exc) =>
          var name := if provider == "gemini" then "Gemini" else "OpenAI";
          Ok(Fallback(lang, req, summary, exc, name + " call failed: " + exc))
  }

  /** The local fallback is chosen exactly when the resolved provider lacks its key, is not
      one of the two known providers, or its call fails; otherwise the answer is the
      provider's. */
  lemma ExplainFallbackIff(
    cfg: Settings,
    summarize: (ExplainRequest, string) -> string,
    engine: (string, ExplainRequest, string, string) -> Result<string, string>,
    req: ExplainRequest)
    requires Validate(cfg, req).None?
    ensures var lang := ResolveLanguage(req.language, req.question);
      var p := ResolveProvider(cfg.provider, cfg.geminiKey, cfg.openaiKey);
      var call := engine(p, req, summarize(req, lang), lang);
      var r := ExplainChart(cfg, summarize, engine, req).value;
      && (r.provider == LocalFallback <==>
           || (p == "openai" && cfg.openaiKey == "")
           || (p == "gemini" && cfg.geminiKey == "")
           || (p != "openai" && p != "gemini")
           || call.Err?)
      && (r.provider != LocalFallback ==> r.answer == call.value && r.provider == p)
  {
    var lang := ResolveLanguage(req.language, req.question);
    var p := ResolveProvider(cfg.provider, cfg.geminiKey, cfg.openaiKey);
    var call := engine(p, req, summarize(req, lang), lang);
    var r := ExplainChart(cfg, summarize, engine, req).value;
    if (p == "openai" && cfg.openaiKey == "") || (p == "gemini" && cfg.geminiKey == "") || (p != "openai" && p != "gemini") {
      assert r.provider == LocalFallback;
    } else if call.Err? {
      assert r.provider == LocalFallback;
    } else {
      assert r == ExplainResponse(call.value, p, Some(if p == "gemini" then cfg.geminiModel else cfg.openaiModel), None);
    }
  }

  /** With the OpenAI provider and no key a Russian request gets the Russian fallback,
      which names the question and the reason. */
  lemma MissingOpenAiKeyFallsBackInRussian(
    cfg: Settings,
    summarize: (ExplainRequest, string) -> string,
    engine: (string, ExplainRequest, string, string) -> Result<string, string>,
    req: ExplainRequest)
    requires Validate(cfg, req).None?
    requires cfg.provider == "openai" && cfg.openaiKey == ""
    requires req.language == Some("ru")
    ensures ExplainChart(cfg, summarize, engine, req).Ok?
    ensures ExplainChart(cfg, summarize, engine, req).value.provider == LocalFallback
    ensures Text.Contains(ExplainChart(cfg, summarize, engine, req).value.answer, "Вопрос пользователя" + ": " + req.question)
    ensures Text.Contains(ExplainChart(cfg, summarize, engine, req).value.answer, "Причина" + ": " + "OPENAI_API_KEY is not set")
  {
    var r := ExplainChart(cfg, summarize, engine, req);
    var summary := summarize(req, "ru");
    MissingOpenAiKeyAnswer(cfg, summarize, engine, req);
    assert r.value.answer == FallbackAnswer("ru", req.question, summary, "OPENAI_API_KEY is not set");
    FallbackTextMentions(Localize("ru", Intro), Localize("ru", QuestionLabel), Localize("ru", ReasonLabel),
                         req.question, summary, "OPENAI_API_KEY is not set");
    RussianLabels();
  }

  lemma MissingOpenAiKeyAnswer(
    cfg: Settings,
    summarize: (ExplainRequest, string) -> string,
    engine: (string, ExplainRequest, string, string) -> Result<string, string>,
    req: ExplainRequest)
    requires Validate(cfg, req).None?
    requires cfg.provider == "openai" && cfg.openaiKey == ""
    requires req.language == Some("ru")
    ensures ExplainChart(cfg, summarize, engine, req)
      == Ok(Fallback("ru", req, summarize(req, "ru"), "OPENAI_API_KEY is not set", "OPENAI_API_KEY is not configured; returned local summary."))
  {
    CanonicalCode("ru");
    assert ResolveLanguage(req.language, req.question) == "ru";
    OpenAiIsCanonical(cfg.geminiKey);
  }

  lemma OpenAiIsCanonical(geminiKey: string)
    ensures ResolveProvider("openai", geminiKey, "") == "openai"
  {
    Text.StripOfTrimmed(Text.Python, "openai");
    assert Text.Lower("openai") == "openai";
  }

  lemma RussianLabels()
    ensures Localize("ru", QuestionLabel) == "Вопрос пользователя"
    ensures Localize("ru", ReasonLabel) == "Причина"
  {
  }
}

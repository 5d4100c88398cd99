/** The chart question panel of the React client (`components/ChartInsightAgent.jsx`): when
    a question may be asked, the request it builds for the explainer endpoint, the reply
    handling, and the default question following the interface language. The translations
    and the endpoint are parameters. */
module ChartInsightAgent {
  import opened Wrappers
  import opened OrderedMap
  import Text
  import opened ClientData
  import ChartExplainer

  /** An indicator as the page passes it: a code with an optional label (`caption`) and name. */
  datatype AgentIndicator = AgentIndicator(code: string, caption: Option<string>, name: Option<string>)

  /** The translated strings the panel uses. */
  datatype Messages = Messages(defaultPrompt: string, errorNoData: string, errorFailed: string)

  /** The endpoint's answer; every field may be missing or null. */
  datatype Reply = Reply(answer: Option<string>, provider: Option<string>, model: Option<string>, warning: Option<string>)

  datatype AgentState = AgentState(
    question: string, answer: string, provider: string, model: string, warning: string,
    loading: bool, error: string)

  /** `x || y` on strings: the empty string counts as missing. */
  function OrElse(x: Option<string>, y: string): (r: string)
    ensures x.Some? && x.value != "" ==> r == x.value
    ensures !(x.Some? && x.value != "") ==> r == y
  {
    if x.Some? && x.value != "" then x.value else y
  }

  /** `canAsk`: there is a dataset and the question is not blank. */
  predicate CanAsk(datasets: seq<Dataset>, question: string) {
    |datasets| > 0 && Text.Trim(question) != ""
  }

  /** The `indicatorMap` entries: each code to its label, else its name, else itself. */
  function CaptionPairs(indicators: seq<AgentIndicator>): (r: seq<Entry<string, string>>)
    ensures |r| == |indicators|
    ensures forall i :: 0 <= i < |indicators| ==>
      r[i] == Entry(indicators[i].code, OrElse(indicators[i].caption, OrElse(indicators[i].name, indicators[i].code)))
  {
    seq(|indicators|, i requires 0 <= i < |indicators| =>
      Entry(indicators[i].code, OrElse(indicators[i].caption, OrElse(indicators[i].name, indicators[i].code))))
  }

  /** `indicatorMap.get(code) || code`: the caption of the last entry with that code, or the
      code itself. */
  function IndicatorCaption(indicators: seq<AgentIndicator>, code: string): (r: string)
    ensures (forall i :: 0 <= i < |indicators| ==> indicators[i].code != code) ==> r == code
    ensures r == "" ==> code == ""
  {
    var m := FromPairs(CaptionPairs(indicators));
    FromPairsLastWins(CaptionPairs(indicators), code);
    OrElse(Get(m, code), code)
  }

  /** With distinct codes, an indicator's caption is its own label, name or code. */
  lemma CaptionOfListed(indicators: seq<AgentIndicator>, i: int)
    requires KeysUnique(CaptionPairs(indicators))
    requires 0 <= i < |indicators|
    ensures var d := indicators[i];
      IndicatorCaption(indicators, d.code) == OrElse(d.caption, OrElse(d.name, d.code))
  {
    var ps := CaptionPairs(indicators);
    FromPairsLastWins(ps, indicators[i].code);
    LastForUnique(ps, i);
  }

  function ToChartDataset(indicators: seq<AgentIndicator>, d: Dataset): (r: ChartExplainer.ChartDataset)
    ensures r.indicator == d.indicator && r.indicatorLabel == Some(IndicatorCaption(indicators, d.indicator))
    ensures |r.series| == |d.series|
    ensures forall j :: 0 <= j < |d.series| ==> r.series[j] == ChartExplainer.ChartSeries(d.series[j].country, d.series[j].data)
  {
    ChartExplainer.ChartDataset(d.indicator, Some(IndicatorCaption(indicators, d.indicator)),
      seq(|d.series|, j requires 0 <= j < |d.series| => ChartExplainer.ChartSeries(d.series[j].country, d.series[j].data)))
  }

  /** The request `askAgent` sends: the trimmed question, the language, the window, and
      every dataset with its caption and its rows as `{year, value}`. */
  function BuildRequest(question: string, language: string, startYear: Option<int>, endYear: Option<int>,
                        datasets: seq<Dataset>, indicators: seq<AgentIndicator>): (r: ChartExplainer.ExplainRequest)
    ensures r.question == Text.Trim(question) && r.language == Some(language)
    ensures r.startYear == startYear && r.endYear == endYear
    ensures |r.datasets| == |datasets|
    ensures forall i :: 0 <= i < |datasets| ==> r.datasets[i] == ToChartDataset(indicators, datasets[i])
  {
    ChartExplainer.ExplainRequest(
      Text.Trim(question),
      seq(|datasets|, i requires 0 <= i < |datasets| => ToChartDataset(indicators, datasets[i])),
      Some(language), startYear, endYear)
  }

  /** A request the panel sends never fails the explainer's dataset check, and fails its
      question check exactly when the backend's Python strip empties the question the client
      already trimmed. */
  lemma SentRequestChecks(question: string, language: string, startYear: Option<int>, endYear: Option<int>,
                          datasets: seq<Dataset>, indicators: seq<AgentIndicator>, cfg: ChartExplainer.Settings)
    requires CanAsk(datasets, question)
    ensures var req := BuildRequest(question, language, startYear, endYear, datasets, indicators);
      && ChartExplainer.Validate(cfg, req) != Some("datasets are required")
      && (ChartExplainer.Validate(cfg, req) == Some("question is required") <==> Text.Strip(Text.Trim(question)) == "")
  {
  }

  /** The two trims disagree: a question of one U+001C passes `canAsk` (JavaScript keeps the
      character) and is then refused by the explainer (Python strips it). */
  lemma SeparatorQuestionRefused(d: Dataset, language: string, indicators: seq<AgentIndicator>, cfg: ChartExplainer.Settings)
    ensures CanAsk([d], "\U{001C}")
    ensures ChartExplainer.Validate(cfg, BuildRequest("\U{001C}", language, None, None, [d], indicators)) == Some("question is required")
  {
    Text.SeparatorTrimmedOnlyByPython();
    var q := "\U{001C}";
    assert Text.StripStart(Text.JavaScript, q) == 0;
    assert Text.StripEnd(Text.JavaScript, q) == 1;
    assert Text.Trim(q) == q;
    assert Text.StripStart(Text.Python, q[1..]) == 0;
    assert Text.StripStart(Text.Python, q) == 1;
    assert Text.Strip(q) == "";
  }

  /** `askAgent`: a refused question sets the no-data message and sends nothing; a failed
      request sets the failure message and keeps the previous answer; a reply replaces the
      answer and its provider, model and warning, missing ones as empty strings. */
  function Ask(st: AgentState, msgs: Messages, language: string, startYear: Option<int>, endYear: Option<int>,
               datasets: seq<Dataset>, indicators: seq<AgentIndicator>,
               explain: ChartExplainer.ExplainRequest -> Result<Reply, string>): (r: AgentState)
    ensures r.question == st.question && !r.loading
    ensures !CanAsk(datasets, st.question) ==> r == st.(loading := false, error := msgs.errorNoData)
    ensures CanAsk(datasets, st.question) ==>
      var reply := explain(BuildRequest(st.question, language, startYear, endYear, datasets, indicators));
      && (reply.Err? ==> r == st.(loading := false, error := msgs.errorFailed))
      && (reply.Ok? ==>
        && r.error == ""
        && r.answer == reply.value.answer.GetOr("") && r.provider == reply.value.provider.GetOr("")
        && r.model == reply.value.model.GetOr("") && r.warning == reply.value.warning.GetOr(""))
  {
    if !CanAsk(datasets, st.question) then st.(loading := false, error := msgs.errorNoData)
    else
      match explain(BuildRequest(st.question, language, startYear, endYear, datasets, indicators))
      case Err(_) => st.(loading := false, error := msgs.errorFailed)
      case Ok(reply) =>
        st.(answer := OrElse(reply.answer, ""), provider := OrElse(reply.provider, ""),
            model := OrElse(reply.model, ""), warning := OrElse(reply.warning, ""),
            loading := false, error := "")
  }

  /** A refused question does not reach the endpoint. */
  lemma RefusedQuestionSendsNothing(st: AgentState, msgs: Messages, language: string, startYear: Option<int>, endYear: Option<int>,
                                    datasets: seq<Dataset>, indicators: seq<AgentIndicator>,
                                    explain: ChartExplainer.ExplainRequest -> Result<Reply, string>,
                                    other: ChartExplainer.ExplainRequest -> Result<Reply, string>)
    requires !CanAsk(datasets, st.question)
    ensures Ask(st, msgs, language, startYear, endYear, datasets, indicators, explain) ==
            Ask(st, msgs, language, startYear, endYear, datasets, indicators, other)
  {
  }

  /** On a language change the question follows the new default only while it still is the
      old default; an edited question is kept. */
  function NextQuestion(current: string, oldDefault: string, newDefault: string): (r: string)
    ensures current == oldDefault ==> r == newDefault
    ensures current != oldDefault ==> r == current
  {
    if current == oldDefault then newDefault else current
  }

  /** Switching the language and back restores the question, unless the user happened to
      type exactly the other language's default. */
  lemma LanguageRoundTrip(current: string, a: string, b: string)
    requires current == a || current != b
    ensures NextQuestion(NextQuestion(current, a, b), b, a) == current
  {
  }
}

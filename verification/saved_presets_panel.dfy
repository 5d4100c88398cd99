/** The saved-presets panel of the React client (`components/SavedPresetsPanel.jsx`):
    normalising a stored payload, finding a preset by name, and what the save, load and
    delete buttons do. JavaScript values are decoded JSON values; a JavaScript number is
    `JInt` or `JNum`. */
module SavedPresetsPanel {
  import opened Wrappers
  import opened OrderedMap
  import opened Json
  import Text

  // ----- payload normalisation -----

  /** `typeof v === "string"`. */
  function StringOf(v: Option<Value>): (r: Option<string>)
    ensures r.Some? <==> v.Some? && v.value.JStr?
    ensures r.Some? ==> v.value.s == r.value
  {
    match v
    case Some(JStr(s)) => Some(s)
    case _ => None
  }

  function Strings(xs: seq<Value>): (r: seq<string>)
    ensures |r| <= |xs|
    ensures forall k :: 0 <= k < |r| ==> JStr(r[k]) in xs
  {
    if |xs| == 0 then []
    else
      var rest := Strings(xs[..|xs| - 1]);
      if xs[|xs| - 1].JStr? then rest + [xs[|xs| - 1].s] else rest
  }

  /** `safeStringArray`: [] for anything but an array; otherwise its string elements in
      order. */
  function SafeStringArray(v: Option<Value>): (r: seq<string>)
    ensures !(v.Some? && v.value.JList?) ==> r == []
    ensures v.Some? && v.value.JList? ==> r == Strings(v.value.items)
  {
    match v
    case Some(JList(xs)) => Strings(xs)
    case _ => []
  }

  /** Each string is kept as often as it occurs; nothing else is kept. */
  lemma {:induction false} StringsCount(xs: seq<Value>, t: string)
    ensures multiset(Strings(xs))[t] == multiset(xs)[JStr(t)]
  {
    if |xs| > 0 {
      var init := xs[..|xs| - 1];
      assert xs == init + [xs[|xs| - 1]];
      StringsCount(init, t);
    }
  }

  /** The array of a string list, element by element. */
  function StringValues(ss: seq<string>): (r: seq<Value>)
    ensures |r| == |ss|
    ensures forall k :: 0 <= k < |ss| ==> r[k] == JStr(ss[k])
  {
    seq(|ss|, k requires 0 <= k < |ss| => JStr(ss[k]))
  }

  /** Strings survive: an array of strings comes back unchanged. */
  lemma {:induction false} StringsOfStrings(ss: seq<string>)
    ensures Strings(StringValues(ss)) == ss
  {
    if |ss| > 0 {
      var init := ss[..|ss| - 1];
      var xs := StringValues(ss);
      assert xs[..|xs| - 1] == StringValues(init);
      StringsOfStrings(init);
      assert ss == init + [ss[|ss| - 1]];
    }
  }

  /** The normalised payload. */
  datatype Payload = Payload(
    selectedCountries: seq<string>, selectedIndicators: seq<string>, chartType: string,
    startYear: Option<real>, endYear: Option<real>)

  const EmptyPayload := Payload([], [], "line", None, None)

  /** The field a payload object holds under `key` (the last one of duplicates); arrays and
      other values have no fields. */
  function Prop(payload: Option<Value>, key: string): Option<Value> {
    if payload.Some? && payload.value.JObject? then Field(payload.value.fields, key) else None
  }

  /** `normalizePayload`: every field is kept only when it has its expected type; otherwise
      it takes its default. */
  function NormalizePayload(payload: Option<Value>): (r: Payload)
    ensures !(payload.Some? && (payload.value.JObject? || payload.value.JList?)) ==> r == EmptyPayload
    ensures r.selectedCountries == SafeStringArray(Prop(payload, "selectedCountries"))
    ensures r.selectedIndicators == SafeStringArray(Prop(payload, "selectedIndicators"))
    ensures StringOf(Prop(payload, "chartType")).Some? ==> r.chartType == StringOf(Prop(payload, "chartType")).value
    ensures StringOf(Prop(payload, "chartType")).None? ==> r.chartType == "line"
    ensures r.startYear == NumberOf(Prop(payload, "startYear"))
    ensures r.endYear == NumberOf(Prop(payload, "endYear"))
  {
    Payload(
      SafeStringArray(Prop(payload, "selectedCountries")),
      SafeStringArray(Prop(payload, "selectedIndicators")),
      StringOf(Prop(payload, "chartType")).GetOr("line"),
      NumberOf(Prop(payload, "startYear")),
      NumberOf(Prop(payload, "endYear")))
  }

  function StringList(ss: seq<string>): Value {
    JList(StringValues(ss))
  }

  function NumberOrNull(x: Option<real>): Value {
    match x
    case Some(v) => JNum(v)
    case None => JNull
  }

  /** The normalised payload as the JavaScript object it is. */
  function ToValue(p: Payload): Value {
    JObject([
      Entry("selectedCountries", StringList(p.selectedCountries)),
      Entry("selectedIndicators", StringList(p.selectedIndicators)),
      Entry("chartType", JStr(p.chartType)),
      Entry("startYear", NumberOrNull(p.startYear)),
      Entry("endYear", NumberOrNull(p.endYear))])
  }

  /** The five keys are distinct: by length, or by first letter. */
  lemma KeysDistinct()
    ensures "endYear" != "startYear" && "endYear" != "chartType"
    ensures "endYear" != "selectedIndicators" && "endYear" != "selectedCountries"
    ensures "startYear" != "chartType" && "startYear" != "selectedIndicators" && "startYear" != "selectedCountries"
    ensures "chartType" != "selectedIndicators" && "chartType" != "selectedCountries"
    ensures "selectedIndicators" != "selectedCountries"
  {
    assert "startYear"[0] != "chartType"[0];
  }

  lemma ToValueKeysUnique(p: Payload)
    ensures KeysUnique(ToValue(p).fields)
  {
    KeysDistinct();
  }

  lemma ReadCountries(p: Payload)
    ensures SafeStringArray(Prop(Some(ToValue(p)), "selectedCountries")) == p.selectedCountries
  {
    ToValueKeysUnique(p);
    FieldOfUnique(ToValue(p).fields, 0);
    assert Prop(Some(ToValue(p)), "selectedCountries") == Some(JList(StringValues(p.selectedCountries)));
    StringsOfStrings(p.selectedCountries);
  }

  lemma ReadIndicators(p: Payload)
    ensures SafeStringArray(Prop(Some(ToValue(p)), "selectedIndicators")) == p.selectedIndicators
  {
    ToValueKeysUnique(p);
    FieldOfUnique(ToValue(p).fields, 1);
    assert Prop(Some(ToValue(p)), "selectedIndicators") == Some(JList(StringValues(p.selectedIndicators)));
    StringsOfStrings(p.selectedIndicators);
  }

  lemma ReadChartType(p: Payload)
    ensures StringOf(Prop(Some(ToValue(p)), "chartType")) == Some(p.chartType)
  {
    ToValueKeysUnique(p);
    FieldOfUnique(ToValue(p).fields, 2);
  }

  lemma ReadYears(p: Payload)
    ensures NumberOf(Prop(Some(ToValue(p)), "startYear")) == p.startYear
    ensures NumberOf(Prop(Some(ToValue(p)), "endYear")) == p.endYear
  {
    ToValueKeysUnique(p);
    FieldOfUnique(ToValue(p).fields, 3);
    FieldOfUnique(ToValue(p).fields, 4);
  }

  /** A payload written out as an object reads back as itself. */
  lemma NormalizeToValue(p: Payload)
    ensures NormalizePayload(Some(ToValue(p))) == p
  {
    ReadCountries(p);
    ReadIndicators(p);
    ReadChartType(p);
    ReadYears(p);
  }

  /** Normalising is idempotent: a normalised payload normalises to itself. */
  lemma NormalizeIsIdempotent(payload: Option<Value>)
    ensures NormalizePayload(Some(ToValue(NormalizePayload(payload)))) == NormalizePayload(payload)
  {
    NormalizeToValue(NormalizePayload(payload));
  }

  // ----- the listed presets -----

  /** A preset as the list endpoint returns it. */
  datatype ListedPreset = ListedPreset(id: int, name: string, payload: Option<Value>)

  /** `existingByName.get(name)`: a `Map` filled in list order, so the last preset with that
      name wins. */
  function ExistingByName(presets: seq<ListedPreset>, name: string): (r: Option<ListedPreset>)
    ensures r.None? <==> forall i :: 0 <= i < |presets| ==> presets[i].name != name
    ensures r.Some? ==> exists i :: 0 <= i < |presets| && presets[i] == r.value && r.value.name == name &&
                          forall j :: i < j < |presets| ==> presets[j].name != name
  {
    var pairs := seq(|presets|, k requires 0 <= k < |presets| => Entry(presets[k].name, presets[k]));
    FromPairsLastWins(pairs, name);
    assert forall k :: 0 <= k < |presets| ==> pairs[k].key == presets[k].name;
    Get(FromPairs(pairs), name)
  }

  // ----- the buttons -----

  datatype Status = Status(error: string, info: string)

  datatype PanelState = PanelState(presets: seq<ListedPreset>, name: string, overwrite: bool, status: Status)

  /** The request a save sends. */
  datatype SaveRequest = UpdatePreset(id: int, name: string, payload: Payload) | CreatePreset(name: string, payload: Payload)

  const EnterName := "Enter a preset name."
  const SignIn := "Sign in to save presets."
  const NameExists := "Preset name already exists. Enable overwrite to replace it."
  const SaveFailed := "Failed to save preset."
  const Saved := "Preset saved."

  /** The request `handleSave` would send, or the error it shows instead: a blank name, then
      a signed-out user, are refused; an existing name with overwrite on updates that preset;
      anything else creates one. */
  function SaveRequestFor(st: PanelState, canUse: bool, current: Option<Value>): (r: Result<SaveRequest, string>)
    ensures Text.Trim(st.name) == "" ==> r == Err(EnterName)
    ensures Text.Trim(st.name) != "" && !canUse ==> r == Err(SignIn)
    ensures r.Ok? ==> r.value.name == Text.Trim(st.name) && r.value.name != "" && r.value.payload == NormalizePayload(current)
    ensures r.Ok? ==> (r.value.UpdatePreset? <==> st.overwrite && ExistingByName(st.presets, Text.Trim(st.name)).Some?)
    ensures r.Ok? && r.value.UpdatePreset? ==> r.value.id == ExistingByName(st.presets, Text.Trim(st.name)).value.id
  {
    var trimmed := Text.Trim(st.name);
    if trimmed == "" then Err(EnterName)
    else if !canUse then Err(SignIn)
    else
      var payload := NormalizePayload(current);
      match ExistingByName(st.presets, trimmed)
      case Some(existing) =>
        if st.overwrite then Ok(UpdatePreset(existing.id, trimmed, payload)) else Ok(CreatePreset(trimmed, payload))
      case None => Ok(CreatePreset(trimmed, payload))
  }

  /** The error text for a failed save: the conflict status gets its own message. */
  function SaveErrorText(status: Option<int>): (r: string)
    ensures r == NameExists <==> status == Some(409)
  {
    if status == Some(409) then NameExists else SaveFailed
  }

  /** `loadPresets` after it was started: the list (anything but an array reads as empty),
      or the error with the old list kept. */
  function AfterListing(st: PanelState, listing: Result<Option<seq<ListedPreset>>, string>): PanelState {
    match listing
    case Ok(Some(ps)) => st.(presets := ps, status := Status("", ""))
    case Ok(None) => st.(presets := [], status := Status("", ""))
    case Err(_) => st.(status := Status("Unable to load saved presets.", ""))
  }

  /** `handleSave`: a refused save changes only the status; a sent one either clears the form,
      reloads the list and says "Preset saved.", or reports the failure. `send` is the create
      or update request, answering with the failing HTTP status if any. */
  function HandleSave(
    st: PanelState, canUse: bool, current: Option<Value>,
    send: SaveRequest -> Result<(), Option<int>>, listing: Result<Option<seq<ListedPreset>>, string>)
    : (r: PanelState)
    ensures SaveRequestFor(st, canUse, current).Err? ==>
      r == st.(status := Status(SaveRequestFor(st, canUse, current).error, ""))
    ensures SaveRequestFor(st, canUse, current).Ok? ==>
      && (send(SaveRequestFor(st, canUse, current).value).Ok? ==> r.name == "" && !r.overwrite && r.status == Status("", Saved))
      && (send(SaveRequestFor(st, canUse, current).value).Err? ==>
            r == st.(status := Status(SaveErrorText(send(SaveRequestFor(st, canUse, current).value).error), "")))
  {
    match SaveRequestFor(st, canUse, current)
    case Err(e) => st.(status := Status(e, ""))
    case Ok(req) =>
      match send(req)
      case Ok(_) => AfterListing(st.(name := "", overwrite := false), listing).(status := Status("", Saved))
      case Err(code) => st.(status := Status(SaveErrorText(code), ""))
  }

  /** A refused save sends nothing: the outcome does not depend on `send`. */
  lemma RefusedSaveSendsNothing(
    st: PanelState, canUse: bool, current: Option<Value>,
    send1: SaveRequest -> Result<(), Option<int>>, send2: SaveRequest -> Result<(), Option<int>>,
    listing: Result<Option<seq<ListedPreset>>, string>)
    requires Text.Trim(st.name) == "" || !canUse
    ensures HandleSave(st, canUse, current, send1, listing) == HandleSave(st, canUse, current, send2, listing)
    ensures HandleSave(st, canUse, current, send1, listing).presets == st.presets
  {
  }

  /** `handleLoad`: the normalised payload goes to `onLoad`, and the status names the preset. */
  function HandleLoad(preset: ListedPreset): (r: (Payload, Status))
    ensures r.0 == NormalizePayload(preset.payload)
    ensures r.1.error == "" && Text.StartsWith(r.1.info, "Loaded: ")
  {
    (NormalizePayload(preset.payload), Status("", "Loaded: " + preset.name))
  }

  /** `handleDelete`'s guard: the id to delete, or nothing for a missing preset or a falsy id
      (absent or 0). */
  function DeleteTarget(preset: Option<ListedPreset>): (r: Option<int>)
    ensures r.Some? <==> preset.Some? && preset.value.id != 0
    ensures r.Some? ==> r.value == preset.value.id
  {
    match preset
    case Some(p) => if p.id != 0 then Some(p.id) else None
    case None => None
  }
}

/** The per-user analysis preset store of the Django service (`core/views.py`
    `PresetsView`/`PresetDetailView` with `AnalysisPresetSerializer`): the table is a
    sequence of rows, the clock is a parameter, and every request acts as one user. */
module Presets {
  import opened Wrappers
  import opened Json
  import opened Http
  import Text
  import StableSort

  datatype Preset = Preset(id: nat, owner: nat, name: string, payload: Value, createdAt: int, updatedAt: int)

  /** The table and the next id the database hands out. */
  datatype Store = Store(presets: seq<Preset>, nextId: nat)

  /** The request body: `name` and `payload`, either possibly absent. */
  datatype PresetInput = PresetInput(name: Option<string>, payload: Option<Value>)

  /** A response: the status, the serialised preset when there is one, and the detail text. */
  datatype Reply = Reply(status: int, preset: Option<Preset>, detail: string)

  const Ok200 := 200
  const Created201 := 201
  const NoContent204 := 204
  const MinNameLength := 3
  const NameTakenDetail := "Preset name already exists."
  const NotFoundDetail := "Not found."

  /** Ids are unique and below the next id; no user has two presets of the same name. */
  predicate Valid(s: Store) {
    && (forall i :: 0 <= i < |s.presets| ==> s.presets[i].id < s.nextId)
    && (forall i, j :: 0 <= i < j < |s.presets| ==> s.presets[i].id != s.presets[j].id)
    && (forall i, j :: 0 <= i < j < |s.presets| && s.presets[i].owner == s.presets[j].owner ==>
          s.presets[i].name != s.presets[j].name)
  }

  // ----- the serializer -----

  /** The `name` field: required; DRF trims it and refuses a blank one, then `validate_name`
      refuses fewer than three characters and keeps the trimmed value. */
  function ValidateName(name: Option<string>): (r: Result<string, string>)
    ensures r.Ok? <==> name.Some? && |Text.Strip(name.value)| >= MinNameLength
    ensures r.Ok? ==> r.value == Text.Strip(name.value)
  {
    if name.None? then Err("This field is required.")
    else if Text.Strip(name.value) == "" then Err("This field may not be blank.")
    else if |Text.Strip(name.value)| < MinNameLength then Err("Name must be at least 3 characters.")
    else Ok(Text.Strip(name.value))
  }

  /** `serializer.is_valid()`: a valid name and a payload. */
  function ValidateInput(input: PresetInput): (r: Result<(string, Value), string>)
    ensures r.Ok? <==> ValidateName(input.name).Ok? && input.payload.Some?
    ensures r.Ok? ==> r.value.0 == ValidateName(input.name).value && r.value.1 == input.payload.value
  {
    match ValidateName(input.name)
    case Err(e) => Err(e)
    case Ok(n) => if input.payload.None? then Err("This field is required.") else Ok((n, input.payload.value))
  }

  // ----- lookups -----

  /** Whether `user` owns a preset called `name` other than the one with id `except`. */
  predicate NameTaken(s: Store, user: nat, name: string, except: Option<nat>) {
    exists i :: 0 <= i < |s.presets| && s.presets[i].owner == user && s.presets[i].name == name
      && (except.None? || s.presets[i].id != except.value)
  }

  /** `AnalysisPreset.objects.get(id=preset_id, user=request.user)`: the position of the
      requester's preset with that id. */
  function Find(s: Store, user: nat, id: nat): (r: Option<nat>)
    ensures r.None? <==> forall i :: 0 <= i < |s.presets| ==> !(s.presets[i].id == id && s.presets[i].owner == user)
    ensures r.Some? ==> r.value < |s.presets| && s.presets[r.value].id == id && s.presets[r.value].owner == user
  {
    FindFrom(s.presets, user, id, 0)
  }

  function FindFrom(ps: seq<Preset>, user: nat, id: nat, k: nat): (r: Option<nat>)
    requires k <= |ps|
    requires forall i :: 0 <= i < k ==> !(ps[i].id == id && ps[i].owner == user)
    ensures r.None? <==> forall i :: 0 <= i < |ps| ==> !(ps[i].id == id && ps[i].owner == user)
    ensures r.Some? ==> r.value < |ps| && ps[r.value].id == id && ps[r.value].owner == user
    decreases |ps| - k
  {
    if k == |ps| then None
    else if ps[k].id == id && ps[k].owner == user then Some(k)
    else FindFrom(ps, user, id, k + 1)
  }

  // ----- the endpoints -----

  /** `PresetsView.post`: 400 for an invalid body, 409 when the user already has a preset
      with the (trimmed) name, otherwise 201 with a new preset owned by the requester. */
  function Create(s: Store, user: nat, input: PresetInput, now: int): (r: (Store, Reply))
    ensures ValidateInput(input).Err? ==> r.1.status == BadRequest && r.0 == s
    ensures ValidateInput(input).Ok? && NameTaken(s, user, ValidateInput(input).value.0, None) ==>
      r.1 == Reply(Conflict, None, NameTakenDetail) && r.0 == s
    ensures r.1.status == Created201 <==> ValidateInput(input).Ok? && !NameTaken(s, user, ValidateInput(input).value.0, None)
    ensures r.1.status == Created201 ==>
      && r.1.preset.Some?
      && r.1.preset.value.owner == user
      && r.1.preset.value.name == ValidateInput(input).value.0
      && r.1.preset.value.payload == ValidateInput(input).value.1
      && r.0.presets == s.presets + [r.1.preset.value]
    ensures Valid(s) ==> Valid(r.0)
  {
    match ValidateInput(input)
    case Err(e) => (s, Reply(BadRequest, None, e))
    case Ok(v) =>
      if NameTaken(s, user, v.0, None) then (s, Reply(Conflict, None, NameTakenDetail))
      else
        var p := Preset(s.nextId, user, v.0, v.1, now, now);
        (Store(s.presets + [p], s.nextId + 1), Reply(Created201, Some(p), ""))
  }

  /** `PresetDetailView.get`: the requester's preset, or 404 for an unknown id or someone
      else's preset. */
  function Get(s: Store, user: nat, id: nat): (r: Reply)
    ensures r.status == Ok200 <==> exists i :: 0 <= i < |s.presets| && s.presets[i].id == id && s.presets[i].owner == user
    ensures r.status != Ok200 ==> r == Reply(NotFound, None, NotFoundDetail)
    ensures r.status == Ok200 ==> r.preset.Some? && r.preset.value in s.presets && r.preset.value.id == id && r.preset.value.owner == user
  {
    match Find(s, user, id)
    case None => Reply(NotFound, None, NotFoundDetail)
    case Some(i) => Reply(Ok200, Some(s.presets[i]), "")
  }

  /** `PresetDetailView.put`: 404 first, then 400 for an invalid body, then 409 when another
      preset of the user (not this one) has the new name; otherwise only the name, the payload
      and the update time of this preset change. */
  function Update(s: Store, user: nat, id: nat, input: PresetInput, now: int): (r: (Store, Reply))
    ensures Find(s, user, id).None? ==> r == (s, Reply(NotFound, None, NotFoundDetail))
    ensures r.1.status != Ok200 ==> r.0 == s
    ensures r.1.status == Ok200 <==>
      Find(s, user, id).Some? && ValidateInput(input).Ok? && !NameTaken(s, user, ValidateInput(input).value.0, Some(id))
    ensures r.1.status == Ok200 ==>
      var i := Find(s, user, id).value;
      var old_ := s.presets[i];
      && |r.0.presets| == |s.presets| && r.0.nextId == s.nextId
      && r.0.presets[i] == Preset(old_.id, old_.owner, ValidateInput(input).value.0, ValidateInput(input).value.1, old_.createdAt, now)
      && (forall j :: 0 <= j < |s.presets| && j != i ==> r.0.presets[j] == s.presets[j])
      && r.1.preset == Some(r.0.presets[i])
    ensures Valid(s) ==> Valid(r.0)
  {
    match Find(s, user, id)
    case None => (s, Reply(NotFound, None, NotFoundDetail))
    case Some(i) =>
      match ValidateInput(input)
      case Err(e) => (s, Reply(BadRequest, None, e))
      case Ok(v) =>
        if NameTaken(s, user, v.0, Some(id)) then (s, Reply(Conflict, None, NameTakenDetail))
        else
          var p := s.presets[i];
          var q := Preset(p.id, p.owner, v.0, v.1, p.createdAt, now);
          var s' := Store(s.presets[i := q], s.nextId);
          assert Valid(s) ==> Valid(s') by {
            if Valid(s) {
              RenameKeepsValid(s, i, q);
            }
          }
          (s', Reply(Ok200, Some(q), ""))
  }

  /** Replacing a preset by one with the same id and owner and a name no other preset of
      that owner has keeps the table valid. */
  lemma RenameKeepsValid(s: Store, i: nat, q: Preset)
    requires Valid(s)
    requires i < |s.presets| && q.id == s.presets[i].id && q.owner == s.presets[i].owner
    requires !NameTaken(s, q.owner, q.name, Some(q.id))
    ensures Valid(Store(s.presets[i := q], s.nextId))
  {
    var ps := s.presets[i := q];
    forall a, b | 0 <= a < b < |ps| && ps[a].owner == ps[b].owner
      ensures ps[a].name != ps[b].name
    {
      if a == i {
        assert s.presets[b].id != q.id;
      } else if b == i {
        assert s.presets[a].id != q.id;
      }
    }
  }

  /** `PresetDetailView.delete`: 404 for an unknown or foreign id, else 204 and the row is
      gone. */
  function Delete(s: Store, user: nat, id: nat): (r: (Store, Reply))
    ensures Find(s, user, id).None? ==> r == (s, Reply(NotFound, None, NotFoundDetail))
    ensures Find(s, user, id).Some? ==>
      var i := Find(s, user, id).value;
      && r.1 == Reply(NoContent204, None, "")
      && r.0 == Store(s.presets[..i] + s.presets[i + 1..], s.nextId)
    ensures Valid(s) ==> Valid(r.0)
  {
    match Find(s, user, id)
    case None => (s, Reply(NotFound, None, NotFoundDetail))
    case Some(i) =>
      var rest := s.presets[..i] + s.presets[i + 1..];
      assert forall a :: 0 <= a < |rest| ==> rest[a] == s.presets[if a < i then a else a + 1];
      (Store(rest, s.nextId), Reply(NoContent204, None, ""))
  }

  /** Once deleted, a preset is not found any more. */
  lemma DeleteThenGetNotFound(s: Store, user: nat, id: nat)
    requires Valid(s)
    requires Delete(s, user, id).1.status == NoContent204
    ensures Get(Delete(s, user, id).0, user, id).status == NotFound
  {
    var i := Find(s, user, id).value;
    var rest := Delete(s, user, id).0.presets;
    forall a | 0 <= a < |rest|
      ensures rest[a].id != id
    {
      var b := if a < i then a else a + 1;
      assert rest[a] == s.presets[b];
    }
  }

  /** A conflicting create leaves everything as it was, and a second create under the same
      name always conflicts. */
  lemma CreateTwiceConflicts(s: Store, user: nat, input: PresetInput, now: int, later: int)
    requires Create(s, user, input, now).1.status == Created201
    ensures Create(Create(s, user, input, now).0, user, input, later).1 == Reply(Conflict, None, NameTakenDetail)
    ensures Create(Create(s, user, input, now).0, user, input, later).0 == Create(s, user, input, now).0
  {
    var s1 := Create(s, user, input, now).0;
    assert s1.presets[|s.presets|].owner == user;
  }

  /** Another user's preset is out of reach: get, update and delete all answer 404 and
      change nothing. */
  lemma ForeignPresetIsHidden(s: Store, user: nat, id: nat, input: PresetInput, now: int)
    requires Valid(s)
    requires exists i :: 0 <= i < |s.presets| && s.presets[i].id == id && s.presets[i].owner != user
    ensures Get(s, user, id).status == NotFound
    ensures Update(s, user, id, input, now) == (s, Reply(NotFound, None, NotFoundDetail))
    ensures Delete(s, user, id) == (s, Reply(NotFound, None, NotFoundDetail))
  {
    var i :| 0 <= i < |s.presets| && s.presets[i].id == id && s.presets[i].owner != user;
    forall j | 0 <= j < |s.presets|
      ensures !(s.presets[j].id == id && s.presets[j].owner == user)
    {
      if j != i {
        assert s.presets[j].id != s.presets[i].id;
      }
    }
  }

  // ----- listing -----

  /** The ordering key `("-updated_at", "-id")`. */
  datatype ListKey = ListKey(updatedAt: int, id: int)

  function KeyOf(p: Preset): ListKey {
    ListKey(p.updatedAt, p.id)
  }

  /** Newer first; for the same time, the higher id first. */
  function NewerFirst(a: ListKey, b: ListKey): bool {
    a.updatedAt > b.updatedAt || (a.updatedAt == b.updatedAt && a.id >= b.id)
  }

  lemma NewerFirstIsTotal()
    ensures StableSort.TotalOrder(NewerFirst)
  {
  }

  function OwnedBy(ps: seq<Preset>, user: nat): (r: seq<Preset>)
    ensures forall k :: 0 <= k < |r| ==> r[k].owner == user
  {
    if |ps| == 0 then []
    else OwnedBy(ps[..|ps| - 1], user) + (if ps[|ps| - 1].owner == user then [ps[|ps| - 1]] else [])
  }

  lemma {:induction false} OwnedByCount(ps: seq<Preset>, user: nat, p: Preset)
    ensures multiset(OwnedBy(ps, user))[p] == if p.owner == user then multiset(ps)[p] else 0
  {
    if |ps| > 0 {
      var init := ps[..|ps| - 1];
      assert ps == init + [ps[|ps| - 1]];
      OwnedByCount(init, user, p);
    }
  }

  /** `PresetsView.get`: the requester's presets, newest update first, then highest id. */
  function List(s: Store, user: nat): (r: seq<Preset>)
    ensures forall k :: 0 <= k < |r| ==> r[k].owner == user
    ensures multiset(r) == multiset(OwnedBy(s.presets, user))
    ensures forall i, j :: 0 <= i < j < |r| ==>
      r[i].updatedAt > r[j].updatedAt || (r[i].updatedAt == r[j].updatedAt && r[i].id >= r[j].id)
  {
    NewerFirstIsTotal();
    var mine := OwnedBy(s.presets, user);
    var r := StableSort.Sort(mine, KeyOf, NewerFirst);
    forall k | 0 <= k < |r|
      ensures r[k].owner == user
    {
      assert r[k] in multiset(mine);
    }
    forall i, j | 0 <= i < j < |r|
      ensures r[i].updatedAt > r[j].updatedAt || (r[i].updatedAt == r[j].updatedAt && r[i].id >= r[j].id)
    {
      assert NewerFirst(KeyOf(r[i]), KeyOf(r[j]));
    }
    r
  }

  /** The listing holds exactly the requester's presets: each of them, and nobody else's. */
  lemma ListIsExactlyOwn(s: Store, user: nat, p: Preset)
    ensures p in List(s, user) <==> p in s.presets && p.owner == user
  {
    OwnedByCount(s.presets, user, p);
    assert p in List(s, user) <==> multiset(List(s, user))[p] > 0;
  }
}

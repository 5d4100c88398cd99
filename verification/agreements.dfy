/** User agreements in the Django service: which agreement is active (`core/utils.py`),
    whether a user accepted it, and the two agreement endpoints of `core/views.py`. The two
    tables are sequences of rows. */
module Agreements {
  import opened Wrappers

  /** An agreement row; `publishedAt` is an abstract timestamp and may be null. */
  datatype Agreement = Agreement(id: nat, isActive: bool, publishedAt: Option<int>)

  /** An acceptance row, unique per (user, agreement). */
  datatype Acceptance = Acceptance(userId: nat, agreementId: nat)

  /** `order_by("-published_at", "-id")` compares published times first (a null time sorts
      below every time, as SQLite and MySQL order it) and then ids. `NotLater(a, b)` says `a`
      comes no earlier than `b` in that listing. */
  predicate NotLater(a: Agreement, b: Agreement) {
    match (a.publishedAt, b.publishedAt)
    case (None, Some(_)) => true
    case (Some(_), None) => false
    case (None, None) => a.id <= b.id
    case (Some(x), Some(y)) => x < y || (x == y && a.id <= b.id)
  }

  lemma NotLaterIsTransitive(a: Agreement, b: Agreement, c: Agreement)
    requires NotLater(a, b) && NotLater(b, c)
    ensures NotLater(a, c)
  {
  }

  /** `get_active_agreement`: the first active agreement in that order, None without any. */
  function ActiveAgreement(agreements: seq<Agreement>): (r: Option<Agreement>)
    ensures r.None? <==> forall i :: 0 <= i < |agreements| ==> !agreements[i].isActive
    ensures r.Some? ==> r.value in agreements && r.value.isActive
    ensures r.Some? ==> forall i :: 0 <= i < |agreements| && agreements[i].isActive ==> NotLater(agreements[i], r.value)
  {
    if |agreements| == 0 then None
    else
      var init := agreements[..|agreements| - 1];
      var last := agreements[|agreements| - 1];
      assert forall i :: 0 <= i < |init| ==> init[i] == agreements[i];
      var best := ActiveAgreement(init);
      if !last.isActive then best
      else if best.None? then Some(last)
      else if NotLater(last, best.value) then
        best
      else
        forall i | 0 <= i < |init| && init[i].isActive
          ensures NotLater(init[i], last)
        {
          NotLaterIsTransitive(init[i], best.value, last);
        }
        Some(last)
  }

  /** Of two active agreements, the one published later is the active one. */
  lemma LaterPublishedWins(a: Agreement, b: Agreement, others: seq<Agreement>)
    requires a.isActive && b.isActive && a.publishedAt == Some(1) && b.publishedAt == Some(2)
    requires forall i :: 0 <= i < |others| ==> !others[i].isActive
    ensures ActiveAgreement([a, b] + others) == Some(b)
  {
    var s := [a, b] + others;
    var r := ActiveAgreement(s).value;
    assert s[0] == a && s[1] == b;
    assert forall k :: 2 <= k < |s| ==> s[k] == others[k - 2];
    assert NotLater(b, r);
  }

  /** `has_accepted_active_agreement`: false without an active agreement or for an anonymous
      user (`None`); otherwise whether that user accepted exactly the active agreement. */
  function HasAccepted(agreements: seq<Agreement>, acceptances: seq<Acceptance>, user: Option<nat>): (r: bool)
    ensures r <==>
      && user.Some? && ActiveAgreement(agreements).Some?
      && Acceptance(user.value, ActiveAgreement(agreements).value.id) in acceptances
  {
    match (user, ActiveAgreement(agreements))
    case (Some(u), Some(a)) => Acceptance(u, a.id) in acceptances
    case _ => false
  }

  /** Accepting an agreement other than the active one does not count. */
  lemma OtherAcceptancesDoNotCount(agreements: seq<Agreement>, acceptances: seq<Acceptance>, user: nat, other: nat)
    requires ActiveAgreement(agreements).Some? && other != ActiveAgreement(agreements).value.id
    ensures HasAccepted(agreements, acceptances + [Acceptance(user, other)], Some(user)) == HasAccepted(agreements, acceptances, Some(user))
  {
  }

  /** `ActiveAgreementView.get`: `{"active": false}` without an active agreement, else the
      agreement marked active. */
  datatype ActiveView = Inactive | Active(agreement: Agreement)

  function ActiveAgreementView(agreements: seq<Agreement>): (r: ActiveView)
    ensures r.Inactive? <==> forall i :: 0 <= i < |agreements| ==> !agreements[i].isActive
    ensures r.Active? ==> r.agreement.isActive && r.agreement in agreements
  {
    match ActiveAgreement(agreements)
    case None => Inactive
    case Some(a) => Active(a)
  }

  datatype Tables = Tables(agreements: seq<Agreement>, acceptances: seq<Acceptance>)

  datatype AcceptReply = AcceptReply(status: int, detail: string)

  /** `AcceptAgreementView.post` (`get_or_create`): 404 without an active agreement, 200 and
      no new row when the user already accepted it, otherwise 201 and one new row. */
  function Accept(t: Tables, user: nat): (r: (Tables, AcceptReply))
    ensures ActiveAgreement(t.agreements).None? ==> r == (t, AcceptReply(404, "No active agreement"))
    ensures r.1.status == 200 <==> HasAccepted(t.agreements, t.acceptances, Some(user))
    ensures r.1.status == 200 ==> r.0 == t
    ensures r.1.status == 201 ==> r.0 == Tables(t.agreements, t.acceptances + [Acceptance(user, ActiveAgreement(t.agreements).value.id)])
    ensures r.1.status != 404 ==> HasAccepted(r.0.agreements, r.0.acceptances, Some(user))
  {
    match ActiveAgreement(t.agreements)
    case None => (t, AcceptReply(404, "No active agreement"))
    case Some(a) =>
      if Acceptance(user, a.id) in t.acceptances then (t, AcceptReply(200, "Agreement already accepted"))
      else (Tables(t.agreements, t.acceptances + [Acceptance(user, a.id)]), AcceptReply(201, "Agreement accepted"))
  }

  /** Accepting twice: 201 then 200, and exactly one acceptance row for the pair. */
  lemma AcceptIsIdempotent(t: Tables, user: nat)
    requires ActiveAgreement(t.agreements).Some?
    requires Acceptance(user, ActiveAgreement(t.agreements).value.id) !in t.acceptances
    ensures Accept(t, user).1.status == 201
    ensures Accept(Accept(t, user).0, user).1.status == 200
    ensures Accept(Accept(t, user).0, user).0 == Accept(t, user).0
    ensures multiset(Accept(Accept(t, user).0, user).0.acceptances)[Acceptance(user, ActiveAgreement(t.agreements).value.id)] == 1
  {
    var row := Acceptance(user, ActiveAgreement(t.agreements).value.id);
    assert multiset(t.acceptances)[row] == 0;
  }
}

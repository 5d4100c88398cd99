/** Accounts in the Django service: registration (`core/serializers.py` `RegisterSerializer`
    and `core/views.py` `RegisterView`) and the two signal handlers of `core/signals.py`
    that give every new user a profile and keep `is_staff` in step with the profile role. */
module Accounts {
  import opened Wrappers
  import Text
  import opened Agreements

  const RoleUser := "user"
  const RoleAdmin := "admin"
  const MaxUsernameLength := 150
  const MinPasswordLength := 8
  const AgreementRequired := "Active user agreement must be accepted before registration."

  datatype User = User(id: nat, username: string, email: string, password: string, isStaff: bool, isSuperuser: bool)
  datatype Profile = Profile(userId: nat, role: string)

  /** The user, profile, agreement and acceptance tables, and the next user id. */
  datatype Db = Db(users: seq<User>, profiles: seq<Profile>, tables: Tables, nextUserId: nat)

  /** Ids are unique and below the next id, each profile belongs to a distinct user id, and
      every ordinary (non-superuser) user is staff exactly when their profile says admin. */
  predicate Valid(db: Db) {
    && (forall i :: 0 <= i < |db.users| ==> db.users[i].id < db.nextUserId)
    && (forall i, j :: 0 <= i < j < |db.users| ==> db.users[i].id != db.users[j].id)
    && (forall j :: 0 <= j < |db.profiles| ==> db.profiles[j].userId < db.nextUserId)
    && (forall i, j :: 0 <= i < j < |db.profiles| ==> db.profiles[i].userId != db.profiles[j].userId)
    && StaffSynced(db.users, db.profiles)
  }

  predicate StaffSynced(users: seq<User>, profiles: seq<Profile>) {
    forall i, j :: 0 <= i < |users| && 0 <= j < |profiles| && users[i].id == profiles[j].userId && !users[i].isSuperuser ==>
      users[i].isStaff == (profiles[j].role == RoleAdmin)
  }

  // ----- signals -----

  /** `sync_staff_flag_with_role` for one user: a superuser is left alone; anyone else
      becomes staff exactly when the role is admin. The flag says whether the user row is
      saved, which happens only when the flag actually changes. */
  function SyncStaff(u: User, role: string): (r: (User, bool))
    ensures u.isSuperuser ==> r == (u, false)
    ensures !u.isSuperuser ==> r.0 == u.(isStaff := role == RoleAdmin)
    ensures r.1 <==> !u.isSuperuser && u.isStaff != (role == RoleAdmin)
  {
    if u.isSuperuser then (u, false)
    else
      var shouldBeStaff := role == RoleAdmin;
      if u.isStaff != shouldBeStaff then (u.(isStaff := shouldBeStaff), true) else (u, false)
  }

  /** A second save with the same role writes nothing. */
  lemma SyncStaffSettles(u: User, role: string)
    ensures SyncStaff(SyncStaff(u, role).0, role) == (SyncStaff(u, role).0, false)
  {
  }

  /** The profile table after the role of one user's profile is set. */
  function WithRole(profiles: seq<Profile>, userId: nat, role: string): (r: seq<Profile>)
    ensures |r| == |profiles|
    ensures forall j :: 0 <= j < |profiles| ==>
      r[j] == if profiles[j].userId == userId then Profile(userId, role) else profiles[j]
  {
    seq(|profiles|, j requires 0 <= j < |profiles| =>
      if profiles[j].userId == userId then Profile(userId, role) else profiles[j])
  }

  /** The user table after the signal runs on one user. */
  function WithStaffSynced(users: seq<User>, userId: nat, role: string): (r: seq<User>)
    ensures |r| == |users|
    ensures forall i :: 0 <= i < |users| ==>
      r[i] == if users[i].id == userId then SyncStaff(users[i], role).0 else users[i]
  {
    seq(|users|, i requires 0 <= i < |users| =>
      if users[i].id == userId then SyncStaff(users[i], role).0 else users[i])
  }

  /** Setting a role and running the signal keeps the tables valid. */
  lemma SetRoleKeepsValid(db: Db, userId: nat, role: string)
    requires Valid(db)
    requires exists j :: 0 <= j < |db.profiles| && db.profiles[j].userId == userId
    ensures Valid(Db(WithStaffSynced(db.users, userId, role), WithRole(db.profiles, userId, role), db.tables, db.nextUserId))
  {
    var users := WithStaffSynced(db.users, userId, role);
    var profiles := WithRole(db.profiles, userId, role);
    assert forall i :: 0 <= i < |users| ==> users[i].id == db.users[i].id;
    assert forall j :: 0 <= j < |profiles| ==> profiles[j].userId == db.profiles[j].userId;
    forall i, j | 0 <= i < |users| && 0 <= j < |profiles| && users[i].id == profiles[j].userId && !users[i].isSuperuser
      ensures users[i].isStaff == (profiles[j].role == RoleAdmin)
    {
      assert db.users[i].id == db.profiles[j].userId;
    }
  }

  /** A profile save with a new role (the admin screen or a shell): the profile row changes
      and the signal runs on its user. The flag says whether the user row was saved. */
  function SetRole(db: Db, userId: nat, role: string): (r: (Db, bool))
    requires exists j :: 0 <= j < |db.profiles| && db.profiles[j].userId == userId
    ensures r.0 == Db(WithStaffSynced(db.users, userId, role), WithRole(db.profiles, userId, role), db.tables, db.nextUserId)
    ensures r.1 <==> exists i :: 0 <= i < |db.users| && db.users[i].id == userId && SyncStaff(db.users[i], role).1
    ensures Valid(db) ==> Valid(r.0)
  {
    var db' := Db(WithStaffSynced(db.users, userId, role), WithRole(db.profiles, userId, role), db.tables, db.nextUserId);
    var saved := exists i :: 0 <= i < |db.users| && db.users[i].id == userId && SyncStaff(db.users[i], role).1;
    assert Valid(db) ==> Valid(db') by {
      if Valid(db) {
        SetRoleKeepsValid(db, userId, role);
      }
    }
    (db', saved)
  }

  /** Promoting an ordinary user to admin makes them staff; demoting them takes it away. */
  lemma AdminRoleGrantsStaff(db: Db, userId: nat, role: string, i: nat)
    requires exists j :: 0 <= j < |db.profiles| && db.profiles[j].userId == userId
    requires i < |db.users| && db.users[i].id == userId && !db.users[i].isSuperuser
    ensures SetRole(db, userId, role).0.users[i].isStaff == (role == RoleAdmin)
  {
  }

  // ----- registration -----

  /** The request body; every field may be absent. */
  datatype RegisterInput = RegisterInput(username: Option<string>, email: Option<string>, password: Option<string>, acceptAgreement: Option<bool>)

  /** The cleaned fields: DRF trims every `CharField` (the e-mail and password included). */
  datatype Registration = Registration(username: string, email: string, password: string, acceptAgreement: bool)

  const Required := "This field is required."
  const Blank := "This field may not be blank."
  const TooLong := "Ensure this field has no more than 150 characters."
  const TooShort := "Ensure this field has at least 8 characters."
  const InvalidEmail := "Enter a valid email address."

  /** The error of a required, trimmed, non-blank `CharField` with length bounds: required
      when absent, blank when nothing is left after trimming, then the bounds. */
  function CharFieldErrors(field: string, value: Option<string>, minLength: nat, maxLength: Option<nat>): (r: seq<string>)
    ensures |r| <= 1
    ensures r == [] <==>
      value.Some? && Text.Strip(value.value) != "" && minLength <= |Text.Strip(value.value)|
      && (maxLength.None? || |Text.Strip(value.value)| <= maxLength.value)
    ensures value.None? ==> r == [field + ": " + Required]
    ensures value.Some? && Text.Strip(value.value) == "" ==> r == [field + ": " + Blank]
  {
    if value.None? then [field + ": " + Required]
    else if Text.Strip(value.value) == "" then [field + ": " + Blank]
    else if maxLength.Some? && |Text.Strip(value.value)| > maxLength.value then [field + ": " + TooLong]
    else if |Text.Strip(value.value)| < minLength then [field + ": " + TooShort]
    else []
  }

  /** The e-mail is optional and may be blank; a non-blank one, trimmed, must pass Django's
      `EmailValidator`, which is the parameter `isEmail`. */
  predicate EmailAccepted(isEmail: string -> bool, email: Option<string>) {
    email.None? || Text.Strip(email.value) == "" || isEmail(Text.Strip(email.value))
  }

  /** The field checks: a username of 1 to 150 characters and a password of at least 8,
      both after trimming, an acceptable e-mail, and an `accept_agreement` boolean. */
  predicate FieldsValid(isEmail: string -> bool, input: RegisterInput) {
    && input.username.Some? && 0 < |Text.Strip(input.username.value)| <= MaxUsernameLength
    && EmailAccepted(isEmail, input.email)
    && input.password.Some? && |Text.Strip(input.password.value)| >= MinPasswordLength
    && input.acceptAgreement.Some?
  }

  /** `serializer.errors` for the fields: every failing field reports, in declaration order,
      each as "field: message". */
  function FieldErrors(isEmail: string -> bool, input: RegisterInput): (r: seq<string>)
    ensures r == [] <==> FieldsValid(isEmail, input)
    ensures |r| <= 4
    ensures !EmailAccepted(isEmail, input.email) ==> "email: " + InvalidEmail in r
  {
    var email := if EmailAccepted(isEmail, input.email) then [] else ["email: " + InvalidEmail];
    var agreement := if input.acceptAgreement.Some? then [] else ["accept_agreement: " + Required];
    var r := CharFieldErrors("username", input.username, 1, Some(MaxUsernameLength)) + email
      + CharFieldErrors("password", input.password, MinPasswordLength, None) + agreement;
    assert email != [] ==> r[|CharFieldErrors("username", input.username, 1, Some(MaxUsernameLength))|] == "email: " + InvalidEmail;
    r
  }

  /** `RegisterSerializer.is_valid()`: the field errors when there are any; otherwise
      `validate`, which refuses a registration that does not accept the active agreement
      when there is one (a non-field error). */
  function ValidateRegistration(isEmail: string -> bool, agreements: seq<Agreement>, input: RegisterInput): (r: Result<Registration, seq<string>>)
    ensures r.Ok? <==> FieldsValid(isEmail, input) && (ActiveAgreement(agreements).None? || input.acceptAgreement == Some(true))
    ensures !FieldsValid(isEmail, input) ==> r == Err(FieldErrors(isEmail, input))
    ensures FieldsValid(isEmail, input) && ActiveAgreement(agreements).Some? && input.acceptAgreement == Some(false) ==>
      r == Err(["non_field_errors: " + AgreementRequired])
    ensures r.Ok? ==>
      && r.value.username == Text.Strip(input.username.value) && r.value.password == Text.Strip(input.password.value)
      && r.value.email == Text.Strip(input.email.GetOr(""))
  {
    var errors := FieldErrors(isEmail, input);
    if errors != [] then Err(errors)
    else if ActiveAgreement(agreements).Some? && !input.acceptAgreement.value then Err(["non_field_errors: " + AgreementRequired])
    else
      Ok(Registration(
        Text.Strip(input.username.value),
        Text.Strip(input.email.GetOr("")),
        Text.Strip(input.password.value),
        input.acceptAgreement.value))
  }

  /** `BaseUserManager.normalize_email`: when the stripped address holds an '@', the domain
      after the last '@' is lower-cased and everything before it kept; otherwise the address
      is kept as given. */
  function NormalizeEmail(email: string): (r: string)
    ensures '@' !in Text.Strip(email) ==> r == email
    ensures '@' in Text.Strip(email) ==> LowersDomain(Text.Strip(email), Text.LastIndexOf(Text.Strip(email), '@'), r)
  {
    var s := Text.Strip(email);
    if '@' !in s then email else LowerDomain(s, Text.LastIndexOf(s, '@'))
  }

  /** `r` is `s` with every character after position `at` lower-cased. */
  predicate LowersDomain(s: string, at: nat, r: string) {
    && at < |s| && |r| == |s| && r[..at + 1] == s[..at + 1]
    && (forall k :: at < k < |s| ==> r[k] == Text.LowerChar(s[k]))
  }

  /** The address rebuilt around the '@' at `at`, with the domain lower-cased. */
  function LowerDomain(s: string, at: nat): (r: string)
    requires at < |s| && s[at] == '@'
    ensures LowersDomain(s, at, r)
  {
    var r := s[..at] + "@" + Text.Lower(s[at + 1..]);
    assert r[..at + 1] == s[..at + 1];
    r
  }

  /** Normalising a normalised address changes nothing more. */
  lemma NormalizeEmailIdempotent(email: string)
    ensures NormalizeEmail(NormalizeEmail(email)) == NormalizeEmail(email)
  {
    var s := Text.Strip(email);
    if '@' in s {
      var at := Text.LastIndexOf(s, '@');
      assert NormalizeEmail(email) == LowerDomain(s, at);
      NormalizedIsFixed(s, at);
    }
  }

  /** A stripped address with its domain lower-cased is left alone by a second normalisation. */
  lemma NormalizedIsFixed(s: string, at: nat)
    requires at < |s| && s[at] == '@' && '@' !in s[at + 1..]
    requires !Text.IsSpace(Text.Python, s[0]) && !Text.IsSpace(Text.Python, s[|s| - 1])
    ensures NormalizeEmail(LowerDomain(s, at)) == LowerDomain(s, at)
  {
    NormalizedIsStripped(s, at);
    DomainKeepsNoAt(s, at);
    NormalizeAt(LowerDomain(s, at), at);
    LowerDomainIdempotent(s, at);
  }

  /** Lower-casing the domain never turns a character into an '@'. */
  lemma DomainKeepsNoAt(s: string, at: nat)
    requires at < |s| && s[at] == '@' && '@' !in s[at + 1..]
    ensures '@' !in LowerDomain(s, at)[at + 1..]
  {
    var d := LowerDomain(s, at)[at + 1..];
    forall k | 0 <= k < |d| ensures d[k] != '@' {
      assert s[at + 1..][k] == s[at + 1 + k];
    }
  }

  /** A stripped address whose last '@' is at `at` normalises around that '@'. */
  lemma NormalizeAt(r: string, at: nat)
    requires Text.IsStripped(r) && at < |r| && r[at] == '@' && '@' !in r[at + 1..]
    ensures NormalizeEmail(r) == LowerDomain(r, at)
  {
    assert '@' in r;
    Text.LastIndexOfUnique(r, '@', at);
  }

  /** Lower-casing a domain twice is lower-casing it once. */
  lemma LowerDomainIdempotent(s: string, at: nat)
    requires at < |s| && s[at] == '@'
    ensures LowerDomain(LowerDomain(s, at), at) == LowerDomain(s, at)
  {
    var r := LowerDomain(s, at);
    assert r[..at] == s[..at] && r[at + 1..] == Text.Lower(s[at + 1..]);
    Text.LowerIdempotent(s[at + 1..]);
  }

  /** Lower-casing the domain of a stripped address leaves it stripped: case changes never
      create or remove whitespace. */
  lemma NormalizedIsStripped(s: string, at: nat)
    requires at < |s| && s[at] == '@'
    requires !Text.IsSpace(Text.Python, s[0]) && !Text.IsSpace(Text.Python, s[|s| - 1])
    ensures Text.IsStripped(LowerDomain(s, at))
  {
    var r := LowerDomain(s, at);
    assert r[0] == r[..at + 1][0] == s[0];
    assert !Text.IsSpace(Text.Python, r[|r| - 1]) by {
      if at < |s| - 1 { assert r[|r| - 1] == Text.LowerChar(s[|s| - 1]); }
    }
    Text.StripOfTrimmed(Text.Python, r);
  }

  /** Django lower-cases the domain only: "Ann@X.Org" is stored as "Ann@x.org". */
  lemma NormalizeEmailExample()
    ensures NormalizeEmail("Ann@X.Org") == "Ann@x.org"
  {
    var e := "Ann@X.Org";
    Text.StripOfTrimmed(Text.Python, e);
    assert e[4..] == "X.Org";
    NormalizeAt(e, 3);
    LowerDomainExample();
  }

  /** The lower-casing step of that example. */
  lemma LowerDomainExample()
    ensures LowerDomain("Ann@X.Org", 3) == "Ann@x.org"
  {
    var e := "Ann@X.Org";
    assert e[..3] == "Ann" && e[4..] == "X.Org";
    assert Text.Lower("X.Org") == "x.org";
  }

  /** The body `RegisterView` answers with on success. */
  datatype Account = Account(id: nat, username: string, email: string, role: string, agreementAccepted: bool)

  /** The status, the new account on success, and the errors otherwise. */
  datatype RegisterReply = RegisterReply(status: int, account: Option<Account>, errors: seq<string>)

  predicate UsernameTaken(db: Db, username: string) {
    exists i :: 0 <= i < |db.users| && db.users[i].username == username
  }

  /** The rows one registration adds: the user (`create_user` normalises the e-mail), its
      profile from the post-save signal (the role "user"; the role signal then finds nothing
      to change), and an acceptance of the active agreement when there is one. */
  function AddUser(db: Db, reg: Registration): (r: Db)
    ensures r.users == db.users + [User(db.nextUserId, reg.username, NormalizeEmail(reg.email), reg.password, false, false)]
    ensures r.profiles == db.profiles + [Profile(db.nextUserId, RoleUser)]
    ensures r.tables.agreements == db.tables.agreements && r.nextUserId == db.nextUserId + 1
    ensures ActiveAgreement(db.tables.agreements).Some? ==>
      r.tables.acceptances == db.tables.acceptances + [Acceptance(db.nextUserId, ActiveAgreement(db.tables.agreements).value.id)]
    ensures ActiveAgreement(db.tables.agreements).None? ==> r.tables.acceptances == db.tables.acceptances
    ensures Valid(db) ==> Valid(r)
  {
    var id := db.nextUserId;
    var user := User(id, reg.username, NormalizeEmail(reg.email), reg.password, false, false);
    var profile := Profile(id, RoleUser);
    var acceptances := match ActiveAgreement(db.tables.agreements)
      case None => db.tables.acceptances
      case Some(a) => db.tables.acceptances + [Acceptance(id, a.id)];
    NewUserKeepsValid(db, user, Tables(db.tables.agreements, acceptances));
    Db(db.users + [user], db.profiles + [profile], Tables(db.tables.agreements, acceptances), id + 1)
  }

  /** Appending a fresh, non-staff user with the role "user" keeps the tables consistent. */
  lemma NewUserKeepsValid(db: Db, user: User, tables: Tables)
    requires user.id == db.nextUserId && !user.isSuperuser && !user.isStaff
    ensures Valid(db) ==> Valid(Db(db.users + [user], db.profiles + [Profile(user.id, RoleUser)], tables, user.id + 1))
  {
  }

  /** `RegisterView.post`: 400 with the serializer's errors for an invalid body; a taken
      username violates the table's unique constraint (an unhandled `IntegrityError`, 500);
      otherwise the user is created with the role "user", and an acceptance row is recorded
      exactly when an agreement is active, which is what the answer reports. */
  function Register(isEmail: string -> bool, db: Db, input: RegisterInput): (r: (Db, RegisterReply))
    ensures ValidateRegistration(isEmail, db.tables.agreements, input).Err? ==>
      r == (db, RegisterReply(400, None, ValidateRegistration(isEmail, db.tables.agreements, input).error))
    ensures r.1.status == 201 <==>
      && ValidateRegistration(isEmail, db.tables.agreements, input).Ok?
      && !UsernameTaken(db, ValidateRegistration(isEmail, db.tables.agreements, input).value.username)
    ensures r.1.status != 201 ==> r.0 == db
    ensures r.1.status == 201 ==>
      var reg := ValidateRegistration(isEmail, db.tables.agreements, input).value;
      && r.0 == AddUser(db, reg)
      && r.1.account == Some(Account(db.nextUserId, reg.username, NormalizeEmail(reg.email), RoleUser,
                                     ActiveAgreement(db.tables.agreements).Some?))
  {
    match ValidateRegistration(isEmail, db.tables.agreements, input)
    case Err(e) => (db, RegisterReply(400, None, e))
    case Ok(reg) =>
      if UsernameTaken(db, reg.username) then (db, RegisterReply(500, None, ["IntegrityError"]))
      else
        var db' := AddUser(db, reg);
        var accepted := HasAccepted(db'.tables.agreements, db'.tables.acceptances, Some(db.nextUserId));
        (db', RegisterReply(201, Some(Account(db.nextUserId, reg.username, db'.users[|db.users|].email, RoleUser, accepted)), []))
  }

  /** A malformed, non-blank e-mail is refused with 400 and nothing is stored. */
  lemma MalformedEmailRefused(isEmail: string -> bool, db: Db, input: RegisterInput)
    requires input.email.Some? && Text.Strip(input.email.value) != "" && !isEmail(Text.Strip(input.email.value))
    ensures Register(isEmail, db, input).0 == db
    ensures Register(isEmail, db, input).1.status == 400
    ensures "email: " + InvalidEmail in Register(isEmail, db, input).1.errors
  {
  }

  /** A new user has exactly one profile, with the role "user", and is not staff. */
  lemma RegisteredUserHasOneProfile(isEmail: string -> bool, db: Db, input: RegisterInput)
    requires Valid(db)
    requires Register(isEmail, db, input).1.status == 201
    ensures Valid(Register(isEmail, db, input).0)
    ensures var db' := Register(isEmail, db, input).0;
      var id := db.nextUserId;
      && (forall j :: 0 <= j < |db'.profiles| && db'.profiles[j].userId == id ==> j == |db.profiles| && db'.profiles[j].role == RoleUser)
      && db'.users[|db.users|].id == id && !db'.users[|db.users|].isStaff
  {
  }
}

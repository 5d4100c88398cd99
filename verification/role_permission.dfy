/** The role gate of the Django service (`core/permissions.py` `RoleRequired`): a request
    passes when its user is signed in, has a profile, and either holds one of the required
    roles or is staff. */
module RolePermission {
  import opened Wrappers

  /** The user attached to a request: anonymous, or signed in with the staff flag and the
      role of the profile (absent when the user has no profile row). */
  datatype RequestUser = Anonymous | Authenticated(isStaff: bool, profileRole: Option<string>)

  /** `has_permission`. */
  function HasPermission(roles: seq<string>, user: RequestUser): (r: bool)
    ensures user.Anonymous? ==> !r
    ensures user.Authenticated? && user.profileRole.None? ==> !r
    ensures r <==>
      && user.Authenticated? && user.profileRole.Some?
      && (user.profileRole.value in roles || user.isStaff)
  {
    match user
    case Anonymous => false
    case Authenticated(isStaff, profileRole) =>
      match profileRole
      case None => false
      case Some(role) => role in roles || isStaff
  }

  /** With no roles required only staff users with a profile pass. */
  lemma NoRolesAdmitsOnlyStaff(user: RequestUser)
    ensures HasPermission([], user) <==> user.Authenticated? && user.profileRole.Some? && user.isStaff
  {
  }

  /** Requiring more roles never turns a request away that fewer roles admitted. */
  lemma MoreRolesAdmitMore(roles: seq<string>, more: seq<string>, user: RequestUser)
    requires forall i :: 0 <= i < |roles| ==> roles[i] in more
    requires HasPermission(roles, user)
    ensures HasPermission(more, user)
  {
  }

  /** A staff user with a profile passes whatever roles are required; a non-staff user passes
      exactly when the profile role is one of them. */
  lemma StaffBypassesRoles(roles: seq<string>, role: string)
    ensures HasPermission(roles, Authenticated(true, Some(role)))
    ensures HasPermission(roles, Authenticated(false, Some(role))) <==> role in roles
  {
  }
}

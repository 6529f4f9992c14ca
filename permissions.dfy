/** Roles and permissions of the console (`useAuth.tsx`): the four roles,
    the permission check, the per-module write check, and the signed-in
    state the provider keeps and resets. */
module Permissions {
  import opened Wrappers

  /** A role as a profile stores it. `Unlisted` is a role text outside the
      four the console knows, which the provider keeps as it is. */
  datatype Role = Consulta | Funcionario | Supervisor | Administrador | Unlisted(text: string)

  datatype Permission = ApproveData | ManageTeam | CreateSystem | DeleteSystem

  /** The role text of the four known roles. */
  function RoleText(r: Role): string {
    match r
    case Consulta => "consulta"
    case Funcionario => "funcionario"
    case Supervisor => "supervisor"
    case Administrador => "administrador"
    case Unlisted(t) => t
  }

  /** The role a loaded profile gives: its role text, with a missing or
      empty one read as `consulta`. */
  function RoleOf(stored: Option<string>): (r: Role)
    ensures stored.None? || stored == Some("") ==> r == Consulta
    ensures stored.Some? && stored.value != "" ==> RoleText(r) == stored.value
    ensures r.Unlisted? ==> r.text !in {"", "consulta", "funcionario", "supervisor", "administrador"}
  {
    match stored
    case None => Consulta
    case Some(t) =>
      if t == "" || t == "consulta" then Consulta
      else if t == "funcionario" then Funcionario
      else if t == "supervisor" then Supervisor
      else if t == "administrador" then Administrador
      else Unlisted(t)
  }

  /** `checkPermission`: an administrator holds every permission; a
      supervisor holds approving data and managing the team; no one else
      holds any. */
  function CheckPermission(role: Role, p: Permission): (r: bool)
    ensures r <==> role == Administrador || (role == Supervisor && (p == ApproveData || p == ManageTeam))
  {
    if role == Administrador then true
    else
      match p
      case ApproveData => role == Supervisor
      case ManageTeam => role == Supervisor
      case _ => false
  }

  /** Creating and deleting systems is for administrators alone, and every
      permission a role holds an administrator holds too. */
  lemma SystemPermissionsAreAdministrative(role: Role, p: Permission)
    ensures CheckPermission(role, CreateSystem) <==> role == Administrador
    ensures CheckPermission(role, DeleteSystem) <==> role == Administrador
    ensures CheckPermission(role, p) ==> CheckPermission(Administrador, p)
    ensures role == Funcionario || role == Consulta || role.Unlisted? ==> !CheckPermission(role, p)
  {
  }

  /** The store's answer to the membership lookup: whether a row was
      found, and whether the query reported an error. */
  datatype MembershipAnswer = MembershipAnswer(found: bool, failed: bool)

  /** The result of `canWriteInModule`, and whether it asked the store. */
  datatype WriteCheck = WriteCheck(allowed: bool, queried: bool)

  /** `canWriteInModule`: administrators may write and consultation users
      may not, both without a lookup; anyone else may write exactly when
      the lookup finds a membership row for the module and reports no
      error. */
  function CanWriteInModule(role: Role, answer: MembershipAnswer): (r: WriteCheck)
    ensures r.queried <==> role != Administrador && role != Consulta
    ensures role == Administrador ==> r.allowed
    ensures role == Consulta ==> !r.allowed
    ensures r.queried ==> (r.allowed <==> answer.found && !answer.failed)
  {
    if role == Administrador then WriteCheck(true, false)
    else if role == Consulta then WriteCheck(false, false)
    else WriteCheck(answer.found && !answer.failed, true)
  }

  /** A user who may approve data but is no administrator may write in a
      module only with a membership. */
  lemma SupervisorsNeedMembership(answer: MembershipAnswer)
    ensures CanWriteInModule(Supervisor, answer).allowed <==> answer.found && !answer.failed
    ensures CheckPermission(Supervisor, ApproveData)
  {
  }

  /** A profile as the provider keeps it. */
  datatype Profile = Profile(id: string, userId: string, fullName: string, role: Option<string>)

  /** The state the authentication provider keeps. */
  class AuthState {
    var user: Option<string>
    var session: Option<string>
    var profile: Option<Profile>
    var role: Role
    var loading: bool

    /** Nobody signed in, the role `consulta`, loading. */
    constructor ()
      ensures user.None? && session.None? && profile.None? && role == Consulta && loading
    {
      user, session, profile, role, loading := None, None, None, Consulta, true;
    }

    /** `fetchProfile` with the store's answer: a found profile is kept and
        gives the role; no profile changes nothing. */
    method ProfileLoaded(found: Option<Profile>)
      modifies this
      ensures found.Some? ==> profile == found && role == RoleOf(found.value.role)
      ensures found.None? ==> profile == old(profile) && role == old(role)
      ensures user == old(user) && session == old(session) && loading == old(loading)
    {
      if found.Some? {
        profile := found;
        role := RoleOf(found.value.role);
      }
    }

    /** `signOut`, and the signed-out event: user, session and profile
        cleared, the role back to `consulta`, loading over. The store's
        answer to the sign-out call does not matter. */
    method SignOut()
      modifies this
      ensures user.None? && session.None? && profile.None? && role == Consulta && !loading
    {
      loading := true;
      user, session, profile, role, loading := None, None, None, Consulta, false;
    }
  }
}

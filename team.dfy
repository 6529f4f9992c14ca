/** The team page (`Team.tsx`): registering and removing users under the
    role rules, the search over the list, and what each row shows. */
module Team {
  import opened Wrappers
  import opened Text
  import opened Seqs
  import opened Permissions

  /** A profile as the team list holds it; the name, e-mail and linked
      account may be missing. */
  datatype Member = Member(id: string, userId: Option<string>, fullName: Option<string>, email: Option<string>,
                           cpf: string, role: string)

  const SupervisorCannotCreateAdmin: string := "Supervisor não pode criar Administrador."
  const EmailTaken: string := "E-mail já cadastrado."
  const SupervisorCannotDeleteAdmin: string := "Supervisores não podem excluir Administradores."

  /** The profile a registration asks the store to insert. */
  datatype NewProfile = NewProfile(email: string, fullName: string, cpf: string, role: Role)

  /** How a registration ends: refused before any write, refused after the
      e-mail lookup, stored, or failed with the store's error. */
  datatype Registration = Refused(message: string) | Registered(profile: NewProfile) | StoreError

  /** `handleRegister`, given whether the e-mail already has a profile and
      whether the insert fails: a supervisor may not create an
      administrator, and a known e-mail is refused before the insert. */
  function Register(viewer: Role, form: NewProfile, emailExists: bool, insertFails: bool): (r: Registration)
    ensures viewer == Supervisor && form.role == Administrador ==> r == Refused(SupervisorCannotCreateAdmin)
    ensures r.Registered? <==> !(viewer == Supervisor && form.role == Administrador) && !emailExists && !insertFails
    ensures r.Registered? ==> r.profile == form
    ensures r == Refused(EmailTaken) <==> !(viewer == Supervisor && form.role == Administrador) && emailExists
  {
    if viewer == Supervisor && form.role == Administrador then Refused(SupervisorCannotCreateAdmin)
    else if emailExists then Refused(EmailTaken)
    else if insertFails then StoreError
    else Registered(form)
  }

  /** A supervisor can register anyone but an administrator; an
      administrator can register every role. */
  lemma RegistrationByRole(viewer: Role, form: NewProfile)
    ensures Register(viewer, form, false, false).Registered? <==> !(viewer == Supervisor && form.role == Administrador)
    ensures viewer == Administrador ==> Register(viewer, form, false, false) == Registered(form)
  {
  }

  /** How a removal ends. */
  datatype Removal = Forbidden(message: string) | Cancelled | Removed | RemoveFailed

  /** The list of the team page. */
  class TeamList {
    var users: seq<Member>

    constructor (loaded: seq<Member>)
      ensures users == loaded
    {
      users := loaded;
    }

    /** `handleDelete`: a supervisor may not remove an administrator; the
        user must confirm; only when the store deletes the profile does it
        leave the list, and no other entry does. */
    method Delete(viewer: Role, target: Member, confirmed: bool, deleteFails: bool) returns (r: Removal)
      modifies this
      ensures viewer == Supervisor && target.role == "administrador" ==> r == Forbidden(SupervisorCannotDeleteAdmin)
      ensures r == Removed <==> !(viewer == Supervisor && target.role == "administrador") && confirmed && !deleteFails
      ensures r == Removed ==> users == Filter(old(users), (m: Member) => m.id != target.id)
      ensures r == Removed ==> forall m :: m in users <==> m in old(users) && m.id != target.id
      ensures r != Removed ==> users == old(users)
    {
      if viewer == Supervisor && target.role == "administrador" {
        return Forbidden(SupervisorCannotDeleteAdmin);
      }
      if !confirmed {
        return Cancelled;
      }
      if deleteFails {
        return RemoveFailed;
      }
      var keep := (m: Member) => m.id != target.id;
      forall m {
        FilterMembers(users, keep, m);
      }
      users := Filter(users, keep);
      r := Removed;
    }
  }

  /** The search test of one member: the name or the e-mail, when present,
      contains the term, ignoring case. */
  predicate Matches(m: Member, term: string) {
    (m.fullName.Some? && Contains(ToLower(m.fullName.value), ToLower(term)))
    || (m.email.Some? && Contains(ToLower(m.email.value), ToLower(term)))
  }

  /** `filteredUsers`: the members the search term matches, in list order. */
  function FilteredUsers(users: seq<Member>, term: string): (r: seq<Member>)
    ensures |r| <= |users|
    ensures forall m :: m in r <==> m in users && Matches(m, term)
    ensures r == Filter(users, (m: Member) => Matches(m, term))
  {
    var keep := (m: Member) => Matches(m, term);
    assert forall m :: m in Filter(users, keep) <==> m in users && keep(m) by {
      forall m {
        FilterMembers(users, keep, m);
      }
    }
    Filter(users, keep)
  }

  lemma ContainsEmpty(s: string)
    ensures Contains(s, "")
  {
  }

  /** An empty search lists every member that has a name or an e-mail, in
      the same order. */
  lemma EmptySearchKeepsNamed(users: seq<Member>)
    requires forall i :: 0 <= i < |users| ==> users[i].fullName.Some? || users[i].email.Some?
    ensures FilteredUsers(users, "") == users
  {
    forall i | 0 <= i < |users|
      ensures Matches(users[i], "")
    {
      if users[i].fullName.Some? {
        ContainsEmpty(ToLower(users[i].fullName.value));
      } else {
        ContainsEmpty(ToLower(users[i].email.value));
      }
    }
    FilterAll(users, (m: Member) => Matches(m, ""));
  }

  /** `getInitials`: the first two characters upper-cased, or `US` for a
      missing or empty name. */
  function Initials(name: Option<string>): (r: string)
    ensures name.None? || name == Some("") ==> r == "US"
    ensures name.Some? && name.value != "" ==> r == ToUpper(Take(name.value, 2)) && r != ""
  {
    match name
    case None => "US"
    case Some(n) => if n == "" then "US" else ToUpper(Take(n, 2))
  }

  /** Only the first two characters of a name count for its initials. */
  lemma InitialsOfFirstTwo(name: string)
    requires |name| >= 2
    ensures Initials(Some(name)) == Initials(Some(name[..2]))
  {
    assert Take(name, 2) == name[..2] == Take(name[..2], 2);
  }

  /** The text of a row's role badge: the role text with its first
      character upper-cased and the rest kept, or `Func.` for an empty
      role. */
  function RoleBadgeText(role: string): (r: string)
    ensures role == "" ==> r == "Func."
    ensures role != "" ==> var head := UpperChars(role[0]);
      |r| == |head| + |role| - 1 && r[..|head|] == head && r[|head|..] == role[1..]
  {
    if role == "" then "Func." else ToUpper([role[0]]) + role[1..]
  }

  /** The four known roles show their name capitalised. */
  lemma KnownRoleBadges()
    ensures RoleBadgeText(RoleText(Administrador)) == "Administrador"
    ensures RoleBadgeText(RoleText(Supervisor)) == "Supervisor"
    ensures RoleBadgeText(RoleText(Funcionario)) == "Funcionario"
    ensures RoleBadgeText(RoleText(Consulta)) == "Consulta"
  {
    BadgeOfLowerInitial("administrador", 'A');
    BadgeOfLowerInitial("supervisor", 'S');
    BadgeOfLowerInitial("funcionario", 'F');
    BadgeOfLowerInitial("consulta", 'C');
  }

  lemma BadgeOfLowerInitial(role: string, upper: char)
    requires role != [] && 'a' <= role[0] <= 'z' && upper as int == role[0] as int - 32
    ensures RoleBadgeText(role) == [upper] + role[1..]
  {
    assert ToUpper([role[0]]) == [upper];
  }

  /** The administrator entry of the role selector and the edit action
      are shown to administrators only. */
  function AdminControlsShown(viewer: Role): (r: bool)
    ensures r <==> viewer == Administrador
  {
    viewer == Administrador
  }

  /** The delete action is hidden on the row of the signed-in user's own
      account, and shown on every other row. */
  function DeleteShown(row: Member, current: Option<string>): (r: bool)
    ensures !r <==> row.userId.Some? && row.userId == current
  {
    !(row.userId.Some? && current.Some? && row.userId.value == current.value)
  }
}

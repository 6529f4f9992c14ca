/** The sign-in page (`Auth.tsx`): a three-step flow that first looks the
    e-mail up among the registered profiles, then either signs in with the
    password or, on a first access, creates the account and links it to
    the profile. */
module Login {
  import opened Wrappers
  import opened Text

  datatype Step = CheckEmail | SignIn | CreatePassword

  /** The store's answer to the e-mail lookup. */
  datatype ProfileLookup = LookupError | NotFound | Found(fullName: Option<string>, userId: Option<string>)

  /** Where the flow goes after a lookup: nowhere unless a profile was
      found; to the password step when the profile already has an account,
      and to account creation when it has none. */
  function StepAfterLookup(answer: ProfileLookup): (r: Option<Step>)
    ensures r.Some? <==> answer.Found?
    ensures r == Some(SignIn) <==> answer.Found? && answer.userId.Some? && answer.userId.value != ""
    ensures r == Some(CreatePassword) <==> answer.Found? && (answer.userId.None? || answer.userId.value == "")
  {
    match answer
    case Found(_, userId) =>
      if userId.Some? && userId.value != "" then Some(SignIn) else Some(CreatePassword)
    case _ => None
  }

  /** The shortest password a first access accepts. */
  const MinPassword: nat := 6

  const PasswordTooShort: string := "A senha deve ter no mínimo 6 caracteres."

  /** The auth service's answer to the sign-up: an error, no user, or the
      new account's id. */
  datatype SignUpAnswer = SignUpError(message: string) | NoUser | Created(userId: string)

  /** How a first access ends; `linked` is the account id written into the
      profile. */
  datatype FirstAccess = TooShort | SignUpFailed(message: string) | NothingCreated | LinkFailed | Activated(linked: string)

  /** `handleFirstAccess`: a password under six characters is refused
      before any call; otherwise the account is created and its id written
      into the profile with that e-mail. */
  function FirstAccessOutcome(password: string, signUp: SignUpAnswer, linkFails: bool): (r: FirstAccess)
    ensures r == TooShort <==> |password| < MinPassword
    ensures r.Activated? <==> |password| >= MinPassword && signUp.Created? && !linkFails
    ensures r.Activated? ==> r.linked == signUp.userId
    ensures signUp.SignUpError? && |password| >= MinPassword ==> r == SignUpFailed(signUp.message)
  {
    if |password| < MinPassword then TooShort
    else
      match signUp
      case SignUpError(m) => SignUpFailed(m)
      case NoUser => NothingCreated
      case Created(id) => if linkFails then LinkFailed else Activated(id)
  }

  const NotConfirmedMarker: string := "Email not confirmed"
  const NotConfirmedMessage: string := "E-mail não confirmado."
  const SignInFallback: string := "Senha incorreta ou erro no login."

  /** The message a failed sign-in shows: a dedicated one for an
      unconfirmed e-mail, otherwise the service's message, or a fallback
      when that is empty. */
  function SignInMessage(error: string): (r: string)
    ensures Contains(error, NotConfirmedMarker) ==> r == NotConfirmedMessage
    ensures !Contains(error, NotConfirmedMarker) && error != "" ==> r == error
    ensures error == "" ==> r == SignInFallback
  {
    if error != "" && Contains(error, NotConfirmedMarker) then NotConfirmedMessage
    else if error != "" then error
    else SignInFallback
  }

  /** The title and description of each step; the greetings use the first
      word of the profile's name. */
  function Header(step: Step, fullName: string): (r: (string, string))
    ensures step == CheckEmail ==> r == ("Acesso ao Sistema", "Digite seu e-mail corporativo para continuar.")
    ensures step == SignIn ==> r == ("Olá, " + FirstWord(fullName), "Digite sua senha para entrar.")
    ensures step == CreatePassword ==> r == ("Primeiro Acesso", "Olá " + FirstWord(fullName) + ", defina sua senha.")
  {
    match step
    case CheckEmail => ("Acesso ao Sistema", "Digite seu e-mail corporativo para continuar.")
    case SignIn => ("Olá, " + FirstWord(fullName), "Digite sua senha para entrar.")
    case CreatePassword => ("Primeiro Acesso", "Olá " + FirstWord(fullName) + ", defina sua senha.")
  }

  /** The greeting holds only the first name: whatever follows the first
      space of the full name is not shown. */
  lemma {:induction false} GreetingIgnoresSurname(first: string, rest: string)
    requires ' ' !in first
    ensures Header(SignIn, first + " " + rest).0 == "Olá, " + first
    decreases |first|
  {
    if first != [] {
      assert (first + " " + rest)[1..] == first[1..] + " " + rest;
      GreetingIgnoresSurname(first[1..], rest);
    }
  }

  /** The state of the page. */
  class LoginFlow {
    var step: Step
    var email: string
    var password: string
    var fullName: string

    constructor ()
      ensures step == CheckEmail && email == "" && password == "" && fullName == ""
    {
      step, email, password, fullName := CheckEmail, "", "", "";
    }

    /** `handleCheckEmail`: a blank e-mail does nothing; a found profile
        gives the name and the next step; otherwise the step stays. */
    method SubmitEmail(answer: ProfileLookup)
      modifies this
      ensures email == old(email) && password == old(password)
      ensures IsBlank(email) || !answer.Found? ==> step == old(step) && fullName == old(fullName)
      ensures !IsBlank(email) && answer.Found? ==>
                && step == StepAfterLookup(answer).value
                && fullName == (if answer.fullName.Some? then answer.fullName.value else "")
    {
      if IsBlank(email) {
        return;
      }
      match StepAfterLookup(answer) {
        case None =>
        case Some(next) =>
          fullName := if answer.fullName.Some? then answer.fullName.value else "";
          step := next;
      }
    }

    /** "Alterar" on the password step: back to the e-mail, password
        cleared. */
    method ChangeEmail()
      requires step == SignIn
      modifies this
      ensures step == CheckEmail && password == "" && email == old(email) && fullName == old(fullName)
    {
      step := CheckEmail;
      password := "";
    }

    /** "Voltar" on the account-creation step: back to the e-mail, the
        password kept. */
    method Back()
      requires step == CreatePassword
      modifies this
      ensures step == CheckEmail && password == old(password) && email == old(email) && fullName == old(fullName)
    {
      step := CheckEmail;
    }
  }
}

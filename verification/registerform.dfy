/** The registration form (components/Auth/RegisterForm.tsx): ordered submit
    validation and the effect of a successful registration. */
module RegisterForm {
  import opened Wrappers
  import opened Text
  import opened ClientTypes
  import AuthContext
  import Accounts

  const MissingFields := "Please fill in all required fields"
  const PasswordMismatch := "Passwords do not match"
  const PasswordTooShort := "Password must be at least 6 characters long"
  const DefaultError := "An error occurred during registration"

  /** The minimum `password.length`, counted in UTF-16 code units. */
  const MinPasswordLength := 6

  datatype RegisterFields = RegisterFields(
    name: string,
    email: string,
    password: string,
    confirmPassword: string,
    errorMessage: string)

  /** What the form accepts. The name is optional. */
  predicate Acceptable(f: RegisterFields) {
    f.email != "" && f.password != "" && f.password == f.confirmPassword
    && Utf16Length(f.password) >= MinPasswordLength
  }

  /** `handleSubmit`: the error is cleared, then the checks run in order and
      the first failure is shown; an accepted form sends name, email and
      password as typed. */
  function Submit(f: RegisterFields): (r: (RegisterFields, Option<Accounts.RegisterInput>))
    ensures r.1.Some? <==> Acceptable(f)
    ensures f.email == "" || f.password == "" ==> r.0.errorMessage == MissingFields
    ensures f.email != "" && f.password != "" && f.password != f.confirmPassword ==>
              r.0.errorMessage == PasswordMismatch
    ensures (f.email != "" && f.password != "" && f.password == f.confirmPassword
             && Utf16Length(f.password) < MinPasswordLength) ==> r.0.errorMessage == PasswordTooShort
    ensures r.1.Some? ==> r.0.errorMessage == ""
                          && r.1.value == Accounts.RegisterInput(f.email, f.password, Some(f.name))
    ensures r.0.name == f.name && r.0.email == f.email && r.0.password == f.password
  {
    var cleared := f.(errorMessage := "");
    if f.email == "" || f.password == "" then (cleared.(errorMessage := MissingFields), None)
    else if f.password != f.confirmPassword then (cleared.(errorMessage := PasswordMismatch), None)
    else if Utf16Length(f.password) < MinPasswordLength then (cleared.(errorMessage := PasswordTooShort), None)
    else (cleared, Some(Accounts.RegisterInput(f.email, f.password, Some(f.name))))
  }

  /** A missing field is reported even when the passwords also disagree. */
  lemma MissingFieldsReportedFirst(f: RegisterFields)
    requires f.email == "" && f.password != f.confirmPassword
    ensures Submit(f).0.errorMessage == MissingFields
  {
  }

  /** The length counts UTF-16 code units: three characters outside the Basic
      Multilingual Plane pass the six-character minimum. */
  lemma AstralCharactersCountTwice(f: RegisterFields, c: char)
    requires c as int >= 0x10000
    requires f.email != "" && f.password == [c, c, c] && f.confirmPassword == f.password
    ensures Submit(f).1.Some?
  {
    var p := f.password;
    assert p[1..] == [c, c] && p[1..][1..] == [c] && p[1..][1..][1..] == "";
    assert Utf16Length([c]) == 2 + Utf16Length("");
    assert Utf16Length([c, c]) == 2 + Utf16Length([c]);
    assert Utf16Length(p) == 2 + Utf16Length([c, c]);
  }

  /** `onError`: the server's message, or the default when it is empty. */
  function OnError(f: RegisterFields, message: string): (r: RegisterFields)
    ensures message != "" ==> r.errorMessage == message
    ensures message == "" ==> r.errorMessage == DefaultError
  {
    f.(errorMessage := if message != "" then message else DefaultError)
  }

  /** `onCompleted` as written: the token and `{ email, name }` are stored and
      the cache is written, but the shared flag is never set; the bare storage
      event dispatched at the end carries no key, so the provider ignores it. */
  function OnCompletedAsWritten(s: Session, token: string, user: MeRecord, step: CacheStep): (r: Completion)
    ensures r.session.storage == Persist(s.storage, token, user)
    ensures r.session.isLoggedIn == s.isLoggedIn
    ensures step.WriteFails? ==> r.session.cache == s.cache
    ensures !step.WriteFails? ==> r.session.cache == MeData(CachedUser(user))
    ensures r.succeeded <==> step.CacheDone?
  {
    var storage := Persist(s.storage, token, user);
    var cache := if step.WriteFails? then s.cache else MeData(CachedUser(user));
    var loggedIn := if step.CacheDone? then AuthContext.OnStorage(s.isLoggedIn, AuthContext.StorageEvent(None), storage)
                    else s.isLoggedIn;
    Completion(Session(storage, loggedIn, cache), step.CacheDone?)
  }

  /** As written, a visitor who registers stays logged out in this tab
      although the token is stored and a reload would log them in. */
  lemma RegisteredVisitorStaysLoggedOut(s: Session, token: string, user: MeRecord)
    requires !s.isLoggedIn && token != ""
    ensures var r := OnCompletedAsWritten(s, token, user, CacheDone);
            r.succeeded && !r.session.isLoggedIn && AuthContext.InitialLoggedIn(true, r.session.storage)
  {
  }

  /** `onCompleted` as written plus the one missing step: setting the shared
      flag, as the login form does. */
  function OnCompleted(s: Session, token: string, user: MeRecord, step: CacheStep): (r: Completion)
    ensures r.session.storage == Persist(s.storage, token, user)
    ensures r.session.isLoggedIn
    ensures step.WriteFails? ==> r.session.cache == s.cache
    ensures !step.WriteFails? ==> r.session.cache == MeData(CachedUser(user))
    ensures r.succeeded <==> step.CacheDone?
  {
    var written := OnCompletedAsWritten(s, token, user, step);
    written.(session := written.session.(isLoggedIn := true))
  }

  /** With the flag set, a registration agrees with what a reload would read. */
  lemma RegistrationAgreesWithReload(s: Session, token: string, user: MeRecord, step: CacheStep)
    requires token != ""
    ensures OnCompleted(s, token, user, step).session.isLoggedIn ==
            AuthContext.InitialLoggedIn(true, OnCompleted(s, token, user, step).session.storage)
  {
  }
}

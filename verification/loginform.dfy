/** The login form (components/Auth/LoginForm.tsx): submit validation, and what
    a successful login leaves in storage, in the shared logged-in flag and in
    the cached current user. */
module LoginForm {
  import opened Wrappers
  import opened ClientTypes
  import AuthContext
  import Accounts

  const MissingFields := "Please enter both email and password"
  const DefaultError := "An error occurred during login"

  datatype LoginFields = LoginFields(email: string, password: string, errorMessage: string)

  /** `handleSubmit`: the error is cleared, then both fields must be non-empty;
      there is no length or format check, and the input is sent as typed. */
  function Submit(f: LoginFields): (r: (LoginFields, Option<Accounts.LoginInput>))
    ensures r.1.Some? <==> f.email != "" && f.password != ""
    ensures r.1.None? ==> r.0.errorMessage == MissingFields
    ensures r.1.Some? ==> r.0.errorMessage == "" && r.1.value == Accounts.LoginInput(f.email, f.password)
    ensures r.0.email == f.email && r.0.password == f.password
  {
    if f.email == "" || f.password == "" then (f.(errorMessage := MissingFields), None)
    else (f.(errorMessage := ""), Some(Accounts.LoginInput(f.email, f.password)))
  }

  /** `onError`: the server's message, or the default when it is empty. */
  function OnError(f: LoginFields, message: string): (r: LoginFields)
    ensures message != "" ==> r.errorMessage == message
    ensures message == "" ==> r.errorMessage == DefaultError
    ensures r.email == f.email && r.password == f.password
  {
    f.(errorMessage := if message != "" then message else DefaultError)
  }

  /** `onCompleted`: the token and `{ email, name }` are stored and the flag is
      set before any cache work; the cache write, the refetch and the bare
      storage event follow, and the success callback runs only if the cache
      work did not throw. */
  function OnCompleted(s: Session, token: string, user: MeRecord, step: CacheStep): (r: Completion)
    ensures r.session.storage == Persist(s.storage, token, user)
    ensures r.session.isLoggedIn
    ensures step.WriteFails? ==> r.session.cache == s.cache
    ensures !step.WriteFails? ==> r.session.cache == MeData(CachedUser(user))
    ensures r.succeeded <==> step.CacheDone?
  {
    var storage := Persist(s.storage, token, user);
    var cache := if step.WriteFails? then s.cache else MeData(CachedUser(user));
    var loggedIn := if step.CacheDone? then AuthContext.OnStorage(true, AuthContext.StorageEvent(None), storage) else true;
    Completion(Session(storage, loggedIn, cache), step.CacheDone?)
  }

  /** After a login the flag agrees with what a reload would read, whatever
      happens to the cache work. */
  lemma LoginAgreesWithReload(s: Session, token: string, user: MeRecord, step: CacheStep)
    requires token != ""
    ensures OnCompleted(s, token, user, step).session.isLoggedIn ==
            AuthContext.InitialLoggedIn(true, OnCompleted(s, token, user, step).session.storage)
  {
  }
}

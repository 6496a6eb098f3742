/** The client's logged-in flag (context/AuthContext.tsx): read from storage
    when the provider mounts, and refreshed by storage events for the token key. */
module AuthContext {
  import opened Wrappers
  import opened ClientTypes

  /** The initial `isLoggedIn`: whether a non-empty token is stored, and false
      when rendering without a window. */
  function InitialLoggedIn(hasWindow: bool, storage: Storage): (loggedIn: bool)
    ensures loggedIn <==> hasWindow && storage.authToken.Some? && storage.authToken.value != ""
  {
    if hasWindow then HasToken(storage) else false
  }

  /** A `storage` event; `key` is `None` for the bare `new Event("storage")`
      the login and registration forms dispatch. */
  datatype StorageEvent = StorageEvent(key: Option<string>)

  /** `handleStorageChange`: only an event for the token key is acted on, and
      then the flag follows the storage as it is now. */
  function OnStorage(loggedIn: bool, e: StorageEvent, storage: Storage): (r: bool)
    ensures e.key == Some(TokenKey) ==> (r <==> storage.authToken.Some? && storage.authToken.value != "")
    ensures e.key != Some(TokenKey) ==> r == loggedIn
  {
    if e.key == Some(TokenKey) then HasToken(storage) else loggedIn
  }

  /** Handling the same event twice is handling it once. */
  lemma OnStorageIdempotent(loggedIn: bool, e: StorageEvent, storage: Storage)
    ensures OnStorage(OnStorage(loggedIn, e, storage), e, storage) == OnStorage(loggedIn, e, storage)
  {
  }

  /** After a token-key event the flag is what a fresh page load would read. */
  lemma TokenEventAgreesWithReload(loggedIn: bool, storage: Storage)
    ensures OnStorage(loggedIn, StorageEvent(Some(TokenKey)), storage) == InitialLoggedIn(true, storage)
  {
  }
}

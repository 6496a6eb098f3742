/** The navigation bar (components/NavBar/NavBar.tsx): the avatar initials and
    the logout transition, which a failed current-user query also triggers. */
module NavBar {
  import opened Wrappers
  import opened Text
  import opened ClientTypes
  import AuthContext

  /** The user the bar shows, `{ email, name, id }`, each possibly absent. */
  datatype ShownUser = ShownUser(email: Option<string>, name: Option<string>, id: Option<string>)

  /** `words.map(n => n[0]).join("")`: an empty word's `n[0]` is undefined,
      which `join` writes as nothing. */
  function FirstChars(words: seq<string>): (r: string)
    ensures |r| <= |words|
    ensures forall i :: 0 <= i < |r| ==> exists k :: 0 <= k < |words| && |words[k]| > 0 && words[k][0] == r[i]
    decreases |words|
  {
    if |words| == 0 then ""
    else
      var rest := FirstChars(words[1..]);
      assert forall i :: 0 <= i < |rest| ==> exists k :: 1 <= k < |words| && |words[k]| > 0 && words[k][0] == rest[i] by {
        forall i | 0 <= i < |rest|
          ensures exists k :: 1 <= k < |words| && |words[k]| > 0 && words[k][0] == rest[i]
        {
          var k :| 0 <= k < |words[1..]| && |words[1..][k]| > 0 && words[1..][k][0] == rest[i];
          assert words[k + 1] == words[1..][k];
        }
      }
      if |words[0]| > 0 then [words[0][0]] + rest else rest
  }

  /** `getUserInitials`: with a name, the upper-cased first letters of its
      space-separated words, at most two; otherwise the first two characters
      of the email upper-cased, or "U" when there is no email. */
  function Initials(user: Option<ShownUser>): (r: string)
    ensures |r| <= 2
    ensures user.Some? && Truthy(user.value.name) ==>
              r == ToUpper(Take(FirstChars(Split(user.value.name.value, ' ')), 2))
    ensures !(user.Some? && Truthy(user.value.name)) && user.Some? && Truthy(user.value.email) ==>
              r == ToUpper(Take(user.value.email.value, 2)) && |r| > 0
    ensures !(user.Some? && Truthy(user.value.name)) && !(user.Some? && Truthy(user.value.email)) ==>
              r == "U"
  {
    if user.Some? && Truthy(user.value.name) then
      var upper := ToUpper(FirstChars(Split(user.value.name.value, ' ')));
      assert Take(upper, 2) == ToUpper(Take(FirstChars(Split(user.value.name.value, ' ')), 2));
      Take(upper, 2)
    else
      var fromEmail := if user.Some? && user.value.email.Some? then ToUpper(Take(user.value.email.value, 2)) else "";
      if fromEmail != "" then fromEmail else "U"
  }

  function Spaces(n: nat): (s: string)
    ensures |s| == n && forall i :: 0 <= i < n ==> s[i] == ' '
  {
    seq(n, _ => ' ')
  }

  /** An empty word (from a run of spaces) contributes no letter. */
  lemma {:induction false} FirstCharsAfterSpaces(n: nat, w: string)
    requires |w| > 0 && ' ' !in w
    ensures FirstChars(Split(Spaces(n) + w, ' ')) == [w[0]]
    decreases n
  {
    if n == 0 {
      assert Spaces(0) + w == w;
      SplitWithoutSeparator(w, ' ');
    } else {
      SpacesStep(n, w);
      SplitAfterField("", ' ', Spaces(n - 1) + w);
      FirstCharsAfterSpaces(n - 1, w);
      var fields := Split(Spaces(n) + w, ' ');
      assert fields == [""] + Split(Spaces(n - 1) + w, ' ');
      assert fields[1..] == Split(Spaces(n - 1) + w, ' ');
    }
  }

  lemma SpacesStep(n: nat, w: string)
    requires n >= 1
    ensures Spaces(n) + w == "" + [' '] + (Spaces(n - 1) + w)
  {
    assert Spaces(n) == [' '] + Spaces(n - 1);
  }

  /** A two-word name gives the two upper-cased initials, however many spaces
      separate the words. */
  lemma {:induction false} TwoWordInitials(email: Option<string>, a: string, gap: nat, b: string)
    requires |a| > 0 && |b| > 0 && ' ' !in a && ' ' !in b && gap >= 1
    ensures Initials(Some(ShownUser(email, Some(a + Spaces(gap) + b), None))) == [UpperChar(a[0]), UpperChar(b[0])]
  {
    var name := a + Spaces(gap) + b;
    TwoWordFirstChars(a, gap, b);
    var firsts := FirstChars(Split(name, ' '));
    assert Take(firsts, 2) == firsts;
    var r := ToUpper(firsts);
    assert r == [UpperChar(a[0]), UpperChar(b[0])];
  }

  lemma {:induction false} TwoWordFirstChars(a: string, gap: nat, b: string)
    requires |a| > 0 && |b| > 0 && ' ' !in a && ' ' !in b && gap >= 1
    ensures FirstChars(Split(a + Spaces(gap) + b, ' ')) == [a[0], b[0]]
  {
    var name := a + Spaces(gap) + b;
    assert name == a + [' '] + (Spaces(gap - 1) + b);
    SplitAfterField(a, ' ', Spaces(gap - 1) + b);
    FirstCharsAfterSpaces(gap - 1, b);
    var fields := Split(name, ' ');
    assert fields[0] == a;
    assert fields[1..] == Split(Spaces(gap - 1) + b, ' ');
  }

  /** A name of spaces only is truthy, so the email is not consulted and the
      avatar is blank. */
  lemma {:induction false} BlankNameGivesNoInitials(email: Option<string>, n: nat)
    requires n >= 1
    ensures Initials(Some(ShownUser(email, Some(Spaces(n)), None))) == ""
    decreases n
  {
    BlankFields(n);
  }

  lemma {:induction false} BlankFields(n: nat)
    ensures FirstChars(Split(Spaces(n), ' ')) == ""
    decreases n
  {
    if n == 0 {
      assert Spaces(0) == "";
    } else {
      SpacesStep(n, "");
      assert Spaces(n) + "" == Spaces(n) && Spaces(n - 1) + "" == Spaces(n - 1);
      SplitAfterField("", ' ', Spaces(n - 1));
      BlankFields(n - 1);
      assert Split(Spaces(n), ' ')[1..] == Split(Spaces(n - 1), ' ');
    }
  }

  /** The bar's state: storage, the shared logged-in flag, the shown user,
      whether the user menu is open, and the current route. */
  datatype NavState = NavState(
    storage: Storage,
    isLoggedIn: bool,
    userInfo: Option<ShownUser>,
    menuOpen: bool,
    route: string)

  const HomeRoute := "/"

  /** `handleLogout`: both storage keys are removed first; only when the
      cache reset succeeds does the bar clear the flag, the user and the menu
      and go home. A failed reset is caught and changes nothing else. */
  function Logout(st: NavState, resetSucceeds: bool): (r: NavState)
    ensures r.storage.authToken.None? && r.storage.userInfo.None?
    ensures resetSucceeds ==> !r.isLoggedIn && r.userInfo.None? && !r.menuOpen && r.route == HomeRoute
    ensures !resetSucceeds ==> r.isLoggedIn == st.isLoggedIn && r.userInfo == st.userInfo
                               && r.menuOpen == st.menuOpen && r.route == st.route
  {
    var cleared := st.(storage := EmptyStorage);
    if resetSucceeds then cleared.(isLoggedIn := false, userInfo := None, menuOpen := false, route := HomeRoute)
    else cleared
  }

  /** After a logout, a reload of the page reads the user as logged out; and
      when the reset succeeded the flag already agrees. */
  lemma LogoutAgreesWithReload(st: NavState, resetSucceeds: bool)
    ensures !AuthContext.InitialLoggedIn(true, Logout(st, resetSucceeds).storage)
    ensures resetSucceeds ==>
              Logout(st, resetSucceeds).isLoggedIn == AuthContext.InitialLoggedIn(true, Logout(st, resetSucceeds).storage)
  {
  }

  /** When the reset fails, a logged-in bar keeps claiming a session whose
      token is already gone. */
  lemma FailedResetLeavesStaleFlag(st: NavState)
    requires st.isLoggedIn
    ensures Logout(st, false).isLoggedIn && !AuthContext.InitialLoggedIn(true, Logout(st, false).storage)
  {
  }

  /** The current-user query completed: a returned user becomes the shown one. */
  function OnCurrentUser(st: NavState, data: MeQuery): (r: NavState)
    ensures data.MeData? ==> r.userInfo == Some(ShownUser(Some(data.me.email), data.me.name, Some(data.me.id)))
    ensures !data.MeData? ==> r == st
    ensures r.storage == st.storage && r.isLoggedIn == st.isLoggedIn
  {
    if data.MeData? then st.(userInfo := Some(ShownUser(Some(data.me.email), data.me.name, Some(data.me.id))))
    else st
  }

  /** The current-user query failed: the bar logs out. */
  function OnCurrentUserError(st: NavState, resetSucceeds: bool): (r: NavState)
    ensures !HasToken(r.storage)
    ensures resetSucceeds ==> !r.isLoggedIn && r.userInfo.None?
  {
    Logout(st, resetSucceeds)
  }
}

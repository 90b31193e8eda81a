/** Properties of the Redux slice that relate several thunk calls: how
    registration, login, session lookup and logout see each other's writes,
    and what the raw-email duplicate test of `registerUser` lets through. */
module SliceProperties {
  import opened Text
  import opened Records
  import opened AuthSlice

  /** `loginUser` never looks at the password: any two non-empty passwords
      give the same outcome and the same storage. */
  lemma LoginIgnoresPassword(st: Storage, email: string, p1: string, p2: string)
    requires p1 != "" && p2 != ""
    ensures LoginUser(st, email, p1) == LoginUser(st, email, p2)
  {
  }

  /** A second `logoutUser` returns null and writes nothing. */
  lemma LogoutTwiceIsNoop(st: Storage)
    ensures var once := LogoutUser(st).storage;
            LogoutUser(once) == Step(Fulfilled(None), once)
  {
  }

  /** The stored email of a fresh account is what `loginUser` searches for
      when given the registration email. */
  lemma NewAccountMatchesLogin(input: RegisterInput, id: string, createdAt: string)
    ensures LoginMatch(LoginKey(input.email))(NewAccount(input, id, createdAt))
  {
    NormalizationsAgree(input.email);
    LowerIdempotent(Trim(input.email));
  }

  /** After a successful `registerUser`, logging in with the same email and
      any non-empty password succeeds. It lands on the new account unless an
      older record already answers to that email, which the raw duplicate
      test allows. */
  lemma RegisterThenLogin(st: Storage, input: RegisterInput, id: string, createdAt: string,
                          password: string)
    requires RegisterUser(st, input, id, createdAt).outcome.Fulfilled?
    requires input.email != "" && password != ""
    ensures var reg := RegisterUser(st, input, id, createdAt);
            LoginUser(reg.storage, input.email, password).outcome.Fulfilled?
    ensures var reg := RegisterUser(st, input, id, createdAt);
            (forall u :: u in Users(st) ==> Lower(u.email) != LoginKey(input.email)) ==>
              LoginUser(reg.storage, input.email, password).outcome.value == reg.outcome.value
  {
    var reg := RegisterUser(st, input, id, createdAt);
    var users := Users(st);
    var acc := NewAccount(input, id, createdAt);
    var p := LoginMatch(LoginKey(input.email));
    assert Users(reg.storage) == users + [acc];
    NewAccountMatchesLogin(input, id, createdAt);
    assert acc in Users(reg.storage);
    if forall u :: u in users ==> Lower(u.email) != LoginKey(input.email) {
      var login := LoginUser(reg.storage, input.email, password);
      var k :| IsFirst(users + [acc], k, p) && login.outcome.value == PublicView((users + [acc])[k]);
      assert (users + [acc])[k] == acc;
    }
  }

  /** Right after a successful `loginUser`, `getUser` succeeds: the record
      the session was copied from carries the session's id. It answers with
      the first stored record holding that id, which need not be the record
      logged into. */
  lemma LoginThenGetUser(st: Storage, email: string, password: string, k: int)
    requires email != "" && password != ""
    requires IsFirst(Users(st), k, LoginMatch(LoginKey(email)))
    ensures var login := LoginUser(st, email, password);
            var get := GetUser(login.storage);
            && get.outcome.Fulfilled?
            && get.storage == login.storage
            && exists k' :: IsFirst(Users(st), k', SameId(Users(st)[k].id))
                            && get.outcome.value == PublicView(Users(st)[k'])
  {
    LoginLandsOnFirstMatch(st, email, password, k);
    assert Users(st)[k] in Users(LoginUser(st, email, password).storage);
  }

  /** `loginUser` lands on the first stored record that answers to the
      email, whichever one that is. */
  lemma LoginLandsOnFirstMatch(st: Storage, email: string, password: string, k: int)
    requires email != "" && password != ""
    requires IsFirst(Users(st), k, LoginMatch(LoginKey(email)))
    ensures var v := PublicView(Users(st)[k]);
            LoginUser(st, email, password) == Step(Fulfilled(v), st.(session := Some(v)))
  {
    var users := Users(st);
    assert users[k] in users;
    var login := LoginUser(st, email, password);
    var k' :| IsFirst(users, k', LoginMatch(LoginKey(email)))
              && login.outcome.value == PublicView(users[k']);
    assert k' == k;
  }

  /** `getUser` lands on the first stored record with the session's id. */
  lemma GetUserLandsOnFirstId(st: Storage, k: int)
    requires SignedIn(st)
    requires IsFirst(Users(st), k, SameId(st.session.value.id))
    ensures GetUser(st) == Step(Fulfilled(PublicView(Users(st)[k])), st)
  {
    var users := Users(st);
    assert users[k] in users;
    var get := GetUser(st);
    var k' :| IsFirst(users, k', SameId(st.session.value.id))
              && get.outcome.value == PublicView(users[k']);
    assert k' == k;
  }

  /** Records written by the registration form have no `id`. Logging into
      an id-less record that is not the first id-less one leaves an id-less
      session, and `getUser` then answers with the FIRST id-less record:
      another user's name and email. */
  lemma GetUserConfusesIdlessAccounts(alice: Record, bob: Record, email: string)
    requires alice.id.None? && bob.id.None?
    requires email != ""
    requires !LoginMatch(LoginKey(email))(alice) && LoginMatch(LoginKey(email))(bob)
    ensures var login := LoginUser(Storage(Some([alice, bob]), None), email, "pw");
            && login.outcome == Fulfilled(PublicView(bob))
            && GetUser(login.storage).outcome == Fulfilled(PublicView(alice))
  {
    var users := [alice, bob];
    var st := Storage(Some(users), None);
    assert IsFirst(users, 1, LoginMatch(LoginKey(email)));
    LoginLandsOnFirstMatch(st, email, "pw", 1);
    var after := st.(session := Some(PublicView(bob)));
    assert IsFirst(Users(after), 0, SameId(None));
    GetUserLandsOnFirstId(after, 0);
  }

  /** A stored email that begins with white space, as `handleSubmitData`
      stores any `email` it is given, is never found by `loginUser`,
      whatever is typed. */
  lemma PaddedEmailNeverLogsIn(u: Record, email: string)
    requires |u.email| > 0 && IsSpace(u.email[0])
    ensures !LoginMatch(LoginKey(email))(u)
  {
    TrimmedLowerStartsWithNoSpace(email);
    assert Lower(u.email)[0] == LowerChar(u.email[0]);
  }

  // ---------------------------------------------------------------------
  // The raw-email duplicate test, as written and corrected.

  /** As written, `registerUser` accepts the same input twice whenever its
      email is not already in normal form, leaving two accounts with one
      email. */
  lemma RegisterTwiceSucceeds(st: Storage, input: RegisterInput, id1: string, c1: string,
                              id2: string, c2: string)
    requires NormalizeEmail(input.email) != input.email
    requires forall u :: u in Users(st) ==> u.email != input.email
    ensures var first := RegisterUser(st, input, id1, c1);
            var second := RegisterUser(first.storage, input, id2, c2);
            && first.outcome.Fulfilled? && second.outcome.Fulfilled?
            && !UniqueEmails(Users(second.storage))
  {
    var users := Users(st);
    var acc1 := NewAccount(input, id1, c1);
    var acc2 := NewAccount(input, id2, c2);
    RegisterFulfilledShape(st, input, id1, c1);
    var st1 := Storage(Some(users + [acc1]), Some(acc1));
    assert forall u :: u in Users(st1) ==> u.email != input.email by {
      assert acc1.email == NormalizeEmail(input.email);
      assert forall u :: u in users + [acc1] ==> u in users || u == acc1;
    }
    RegisterFulfilledShape(st1, input, id2, c2);
    var all := users + [acc1] + [acc2];
    assert all[|users|] == acc1 && all[|users| + 1] == acc2;
    assert acc1.email == acc2.email;
  }

  /** The premise of `RegisterTwiceSucceeds` is easy to meet: an email with
      one upper-case letter is not in normal form. */
  lemma UpperCaseEmailIsNotNormal()
    ensures NormalizeEmail("A") == "a"
  {
    assert Lower("A") == "a";
    assert "a" == [] + "a" + [];
    TrimCharacterized([], "a", []);
  }

  /** With the duplicate test on the normalised email, registration keeps
      stored emails unique. */
  lemma RegisterNormalizedKeepsEmailsUnique(st: Storage, input: RegisterInput, id: string,
                                            createdAt: string)
    requires UniqueEmails(Users(st))
    ensures UniqueEmails(Users(RegisterUserNormalized(st, input, id, createdAt).storage))
  {
    var r := RegisterUserNormalized(st, input, id, createdAt);
    if r.outcome.Fulfilled? {
      var users := Users(st);
      var all := users + [NewAccount(input, id, createdAt)];
      forall i, j | 0 <= i < j < |all|
        ensures all[i].email != all[j].email
      {
        if j == |users| {
          assert all[i] == users[i] && users[i] in users;
        } else {
          assert all[i] == users[i] && all[j] == users[j];
        }
      }
    }
  }

  /** With the corrected test, registering the same input a second time is
      rejected and writes nothing. */
  lemma RegisterNormalizedTwiceRejected(st: Storage, input: RegisterInput, id1: string,
                                        c1: string, id2: string, c2: string)
    requires RegisterUserNormalized(st, input, id1, c1).outcome.Fulfilled?
    ensures var first := RegisterUserNormalized(st, input, id1, c1);
            RegisterUserNormalized(first.storage, input, id2, c2)
              == Step(Rejected(EmailTaken), first.storage)
  {
    var first := RegisterUserNormalized(st, input, id1, c1);
    assert NewAccount(input, id1, c1) in Users(first.storage);
  }

  // ---------------------------------------------------------------------
  // The slice and storage together.

  /** After a dispatched logout the in-memory user is null, but the stored
      session survives with `isAuthenticated` false, so a reload starts the
      slice with a non-null user again. */
  lemma LogoutThenReload(app: App)
    requires SignedIn(app.storage)
    ensures var after := DispatchLogout(app);
            && after.slice.user.None?
            && InitialSlice(after.storage).user
                 == Some(app.storage.session.value.(isAuthenticated := Some(false)))
  {
  }

  /** A dispatched registration appends the password-free public view to
      the in-memory `users`, while the stored registry gains the full record
      with the trimmed plaintext password. */
  lemma RegisterDispatchDivergence(app: App, input: RegisterInput, id: string, createdAt: string)
    requires RegisterUser(app.storage, input, id, createdAt).outcome.Fulfilled?
    ensures var after := DispatchRegister(app, input, id, createdAt);
            && after.storage.session.Some?
            && var stored := after.storage.session.value;
            && Users(after.storage) == Users(app.storage) + [stored]
            && stored.password == Some(Trim(input.password))
            && after.slice.users == app.slice.users + [PublicView(stored)]
            && after.slice.user == Some(PublicView(stored))
  {
  }

  /** When the session's account is gone, `getUser` removes the session
      key, yet the rejected case leaves the in-memory user in place. */
  lemma GetUserMissingAccountKeepsMemoryUser(app: App)
    requires SignedIn(app.storage)
    requires forall u :: u in Users(app.storage) ==> u.id != app.storage.session.value.id
    ensures var after := DispatchGetUser(app);
            && after.storage == app.storage.(session := None)
            && after.slice.user == app.slice.user
            && after.slice.isError
            && after.slice.message == Message(AccountNotFound)
  {
  }
}

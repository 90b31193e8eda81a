/** The Redux authentication slice: the four async thunks as pure
    transitions over the two storage keys, and the reducers that fold their
    outcomes into the in-memory slice state. The clock readings that become
    a new account's `id` and `createdAt` are parameters. */
module AuthSlice {
  import opened Text
  import opened Records

  /** Why a thunk called `rejectWithValue`. */
  datatype Rejection =
    | EmailTaken
    | MissingCredentials
    | UserNotFound
    | NoAuthenticatedUser
    | AccountNotFound

  /** The message each rejection carries to the UI. */
  function Message(e: Rejection): string {
    match e
    case EmailTaken => "User with this email already exists."
    case MissingCredentials => "Please provide both email and password"
    case UserNotFound => "User not found. Please register."
    case NoAuthenticatedUser => "No authenticated user found"
    case AccountNotFound => "User account not found"
  }

  datatype Outcome<T> = Fulfilled(value: T) | Rejected(reason: Rejection)

  /** What a thunk returns, and the storage it leaves behind. */
  datatype Step<T> = Step(outcome: Outcome<T>, storage: Storage)

  /** The `userData` passed to `registerUser`. */
  datatype RegisterInput = RegisterInput(fullname: string, email: string, password: string)

  /** `registerUser` stores `email.toLowerCase().trim()`. */
  function NormalizeEmail(email: string): string {
    Trim(Lower(email))
  }

  /** `loginUser` searches for `email.trim().toLowerCase()`. */
  function LoginKey(email: string): string {
    Lower(Trim(email))
  }

  /** The two normalisations agree on every input. */
  lemma NormalizationsAgree(email: string)
    ensures NormalizeEmail(email) == LoginKey(email)
  {
    TrimLowerCommute(email);
  }

  /** A stored email is in normal form: lower-case, with no white space at
      either end, and normalising it again changes nothing. */
  lemma NormalizedEmailIsNormal(email: string)
    ensures IsLowerCase(NormalizeEmail(email)) && IsTrimmed(NormalizeEmail(email))
    ensures NormalizeEmail(NormalizeEmail(email)) == NormalizeEmail(email)
  {
    NormalizationsAgree(email);
    var n := NormalizeEmail(email);
    TrimLowerCommute(Lower(email));
    LowerIdempotent(email);
    TrimIdempotent(Lower(email));
    assert NormalizeEmail(n) == Trim(Lower(Trim(Lower(email))));
  }

  /** Each rejection has its own message, so the message the UI shows
      tells the causes apart. */
  lemma MessagesDistinct(e1: Rejection, e2: Rejection)
    ensures Message(e1) == Message(e2) ==> e1 == e2
  {
  }

  /** The record `registerUser` appends and writes as the session. */
  function NewAccount(input: RegisterInput, id: string, createdAt: string): Record {
    Record(Some(id), Trim(input.fullname), NormalizeEmail(input.email),
           Some(Trim(input.password)), Some(createdAt), Some(true), None)
  }

  /** The lookup test of `loginUser`: the stored email, lowered, against the
      normalised input. */
  function LoginMatch(key: string): Record -> bool {
    (u: Record) => Lower(u.email) == key
  }

  /** The lookup test of `getUser`: `user.id === authUser.id`, where two
      missing ids (`undefined === undefined`) compare equal. */
  function SameId(id: Option<string>): Record -> bool {
    (u: Record) => u.id == id
  }

  /** True when the session key holds a record whose `isAuthenticated` is
      truthy. */
  predicate SignedIn(st: Storage) {
    st.session.Some? && Truthy(st.session.value.isAuthenticated)
  }

  /** The `registerUser` thunk. It rejects exactly when a stored email equals
      the raw input email, and then writes nothing. Otherwise it appends the
      normalised account, makes that same record (plaintext password
      included) the session, and returns its public view. */
  function RegisterUser(st: Storage, input: RegisterInput, id: string, createdAt: string)
    : (r: Step<Record>)
    ensures r.outcome.Rejected? <==> exists u :: u in Users(st) && u.email == input.email
    ensures r.outcome.Rejected? ==> r.outcome.reason == EmailTaken && r.storage == st
    ensures r.outcome.Fulfilled? ==>
              && r.storage.session.Some?
              && r.storage.registry == Some(Users(st) + [r.storage.session.value])
    ensures r.outcome.Fulfilled? ==>
              var u := r.storage.session.value;
              && u.id == Some(id) && u.createdAt == Some(createdAt)
              && u.fullname == Trim(input.fullname)
              && u.email == Trim(Lower(input.email))
              && u.password == Some(Trim(input.password))
              && u.isAuthenticated == Some(true)
              && u.sessionExpiry.None?
              && r.outcome.value == PublicView(u)
  {
    var users := Users(st);
    if Any(users, SameEmail(input.email)) then
      Step(Rejected(EmailTaken), st)
    else
      var account := NewAccount(input, id, createdAt);
      Step(Fulfilled(PublicView(account)), Storage(Some(users + [account]), Some(account)))
  }

  /** When no stored email equals the raw input email, `registerUser`
      appends exactly `NewAccount` and makes it the session. */
  lemma RegisterFulfilledShape(st: Storage, input: RegisterInput, id: string, createdAt: string)
    requires forall u :: u in Users(st) ==> u.email != input.email
    ensures var acc := NewAccount(input, id, createdAt);
            RegisterUser(st, input, id, createdAt)
              == Step(Fulfilled(PublicView(acc)), Storage(Some(Users(st) + [acc]), Some(acc)))
  {
  }

  /** The `loginUser` thunk. Empty fields and an unknown email reject without
      a write; otherwise the session becomes the public view of the FIRST
      stored record whose lowered email equals the normalised input. The
      password takes no part beyond being non-empty. */
  function LoginUser(st: Storage, email: string, password: string): (r: Step<Record>)
    ensures email == "" || password == "" ==> r == Step(Rejected(MissingCredentials), st)
    ensures r.outcome.Fulfilled? <==>
              email != "" && password != ""
              && exists u :: u in Users(st) && Lower(u.email) == LoginKey(email)
    ensures r.outcome.Rejected? && email != "" && password != "" ==>
              r == Step(Rejected(UserNotFound), st)
    ensures r.outcome.Fulfilled? ==>
              && r.storage == st.(session := Some(r.outcome.value))
              && exists k :: IsFirst(Users(st), k, LoginMatch(LoginKey(email)))
                             && r.outcome.value == PublicView(Users(st)[k])
  {
    if email == "" || password == "" then
      Step(Rejected(MissingCredentials), st)
    else
      var users := Users(st);
      match Find(users, LoginMatch(LoginKey(email)))
      case None =>
        assert forall u :: u in users ==> Lower(u.email) != LoginKey(email);
        Step(Rejected(UserNotFound), st)
      case Some(u) =>
        var session := PublicView(u);
        Step(Fulfilled(session), st.(session := Some(session)))
  }

  /** The `logoutUser` thunk. With an authenticated session it rewrites that
      record with only `isAuthenticated` set to false and returns it; in
      every other case it returns null and writes nothing. It never rejects
      and never removes the key. */
  function LogoutUser(st: Storage): (r: Step<Option<Record>>)
    ensures r.outcome.Fulfilled?
    ensures r.storage.registry == st.registry
    ensures SignedIn(st) ==>
              && r.outcome.value == Some(st.session.value.(isAuthenticated := Some(false)))
              && r.storage.session == r.outcome.value
    ensures !SignedIn(st) ==> r.outcome.value == None && r.storage == st
    ensures !SignedIn(r.storage)
  {
    if SignedIn(st) then
      var updated := st.session.value.(isAuthenticated := Some(false));
      Step(Fulfilled(Some(updated)), st.(session := Some(updated)))
    else
      Step(Fulfilled(None), st)
  }

  /** The `getUser` thunk. With no authenticated session it rejects and
      writes nothing; when no stored record carries the session's id it
      removes the session key and rejects; otherwise it returns the public
      view of the first stored record with that id, and writes nothing. */
  function GetUser(st: Storage): (r: Step<Record>)
    ensures !SignedIn(st) ==> r == Step(Rejected(NoAuthenticatedUser), st)
    ensures r.outcome.Fulfilled? <==>
              SignedIn(st) && exists u :: u in Users(st) && u.id == st.session.value.id
    ensures SignedIn(st) && r.outcome.Rejected? ==>
              r == Step(Rejected(AccountNotFound), st.(session := None))
    ensures r.outcome.Fulfilled? ==>
              && r.storage == st
              && exists k :: IsFirst(Users(st), k, SameId(st.session.value.id))
                             && r.outcome.value == PublicView(Users(st)[k])
  {
    if !SignedIn(st) then
      Step(Rejected(NoAuthenticatedUser), st)
    else
      var users := Users(st);
      match Find(users, SameId(st.session.value.id))
      case None =>
        assert forall u :: u in users ==> u.id != st.session.value.id;
        Step(Rejected(AccountNotFound), st.(session := None))
      case Some(u) =>
        Step(Fulfilled(PublicView(u)), st)
  }

  // ---------------------------------------------------------------------
  // Reducers

  datatype SliceState = SliceState(
    user: Option<Record>,
    users: seq<Record>,
    isLoading: bool,
    isSuccess: bool,
    isError: bool,
    message: string)

  /** The slice's initial state, read from storage at start-up. */
  function InitialSlice(st: Storage): (s: SliceState)
    ensures s.user == st.session && s.users == Users(st)
    ensures !s.isLoading && !s.isSuccess && !s.isError && s.message == ""
  {
    SliceState(st.session, Users(st), false, false, false, "")
  }

  datatype Thunk = RegisterThunk | GetUserThunk | LoginThunk | LogoutThunk

  /** The actions the slice handles. A rejected action carries the thunk's
      message. */
  datatype Action =
    | ResetAuthState
    | RegisterFulfilled(account: Record)
    | GetUserFulfilled(account: Record)
    | LoginFulfilled(account: Record)
    | LogoutFulfilled(loggedOut: Option<Record>)
    | ThunkRejected(thunk: Thunk, message: string)

  /** The slice reducer: one case per action the slice handles. Only a
      fulfilled registration grows `users`; only the reset and a handled
      rejection touch `message`; only fulfilled actions touch `user`; a
      rejected logout has no case and changes nothing; every other action
      ends loading. */
  function Reduce(s: SliceState, a: Action): (r: SliceState)
    ensures a.RegisterFulfilled? ==> r.users == s.users + [a.account]
    ensures !a.RegisterFulfilled? ==> r.users == s.users
    ensures !a.ResetAuthState? && !a.ThunkRejected? ==> r.message == s.message
    ensures a.ResetAuthState? || a.ThunkRejected? ==> r.user == s.user
    ensures a.ThunkRejected? && a.thunk == LogoutThunk ==> r == s
    ensures !(a.ThunkRejected? && a.thunk == LogoutThunk) ==> !r.isLoading
  {
    match a
    case ResetAuthState =>
      s.(isLoading := false, isError := false, isSuccess := false, message := "")
    case RegisterFulfilled(u) =>
      s.(isLoading := false, isSuccess := true, user := Some(u), users := s.users + [u])
    case GetUserFulfilled(u) =>
      s.(isLoading := false, isSuccess := true, user := Some(u))
    case LoginFulfilled(u) =>
      s.(isLoading := false, isSuccess := true, user := Some(u))
    case LogoutFulfilled(_) =>
      s.(user := None, isSuccess := false, isLoading := false, isError := false)
    case ThunkRejected(t, m) =>
      if t == LogoutThunk then s
      else s.(isLoading := false, isError := true, message := m)
  }

  /** `resetAuthState` returns the three flags and the message to their
      initial values and keeps `user` and `users`. */
  lemma ResetAuthStateClearsFlags(s: SliceState, st: Storage)
    ensures var r := Reduce(s, ResetAuthState);
            var init := InitialSlice(st);
            && r.isLoading == init.isLoading && r.isSuccess == init.isSuccess
            && r.isError == init.isError && r.message == init.message
            && r.user == s.user && r.users == s.users
  {
  }

  /** `logoutUser.fulfilled` drops the in-memory user and clears the flags,
      whatever the thunk returned, and keeps `message` and `users`. */
  lemma LogoutFulfilledClearsUser(s: SliceState, loggedOut: Option<Record>)
    ensures var r := Reduce(s, LogoutFulfilled(loggedOut));
            && r.user.None? && !r.isLoading && !r.isSuccess && !r.isError
            && r.message == s.message && r.users == s.users
  {
  }

  // ---------------------------------------------------------------------
  // Dispatch: what `createAsyncThunk` does with a thunk's outcome.

  /** The in-memory slice together with browser storage. */
  datatype App = App(slice: SliceState, storage: Storage)

  /** A fulfilled thunk whose value became the in-memory user: loading and
      success flags settled, error flag and message kept. */
  predicate SettledFulfilled(before: SliceState, after: SliceState, v: Record) {
    && after.user == Some(v)
    && !after.isLoading && after.isSuccess
    && after.isError == before.isError && after.message == before.message
  }

  /** A rejected thunk handled by its `rejected` case: the error flag and
      the thunk's message set, user, users and success flag kept. */
  predicate SettledRejected(before: SliceState, after: SliceState, e: Rejection) {
    && after.user == before.user && after.users == before.users
    && !after.isLoading && after.isError && after.isSuccess == before.isSuccess
    && after.message == Message(e)
  }

  /** How the slice settles a finished `registerUser`: storage is what the
      thunk left; a fulfilled value becomes the user and is appended to
      `users`; a rejection sets the error and its message. */
  function SettleRegister(app: App, step: Step<Record>): (r: App)
    ensures r.storage == step.storage
    ensures step.outcome.Fulfilled? ==>
              && SettledFulfilled(app.slice, r.slice, step.outcome.value)
              && r.slice.users == app.slice.users + [step.outcome.value]
    ensures step.outcome.Rejected? ==> SettledRejected(app.slice, r.slice, step.outcome.reason)
  {
    match step.outcome
    case Fulfilled(u) => App(Reduce(app.slice, RegisterFulfilled(u)), step.storage)
    case Rejected(e) => App(Reduce(app.slice, ThunkRejected(RegisterThunk, Message(e))), step.storage)
  }

  /** `dispatch(registerUser(userData))`. A raw-email duplicate leaves
      storage as it was and reports the error; otherwise storage gains the
      new account, which the slice holds as its password-free public view. */
  function DispatchRegister(app: App, input: RegisterInput, id: string, createdAt: string)
    : (r: App)
    ensures (exists u :: u in Users(app.storage) && u.email == input.email) ==>
              r.storage == app.storage && SettledRejected(app.slice, r.slice, EmailTaken)
    ensures (forall u :: u in Users(app.storage) ==> u.email != input.email) ==>
              var acc := NewAccount(input, id, createdAt);
              && r.storage == Storage(Some(Users(app.storage) + [acc]), Some(acc))
              && SettledFulfilled(app.slice, r.slice, PublicView(acc))
              && r.slice.users == app.slice.users + [PublicView(acc)]
  {
    SettleRegister(app, RegisterUser(app.storage, input, id, createdAt))
  }

  /** How the slice settles a finished `loginUser`. */
  function SettleLogin(app: App, step: Step<Record>): (r: App)
    ensures r.storage == step.storage && r.slice.users == app.slice.users
    ensures step.outcome.Fulfilled? ==> SettledFulfilled(app.slice, r.slice, step.outcome.value)
    ensures step.outcome.Rejected? ==> SettledRejected(app.slice, r.slice, step.outcome.reason)
  {
    match step.outcome
    case Fulfilled(u) => App(Reduce(app.slice, LoginFulfilled(u)), step.storage)
    case Rejected(e) => App(Reduce(app.slice, ThunkRejected(LoginThunk, Message(e))), step.storage)
  }

  /** `dispatch(loginUser(credentials))`. Empty fields and an unknown email
      write nothing and report the error; otherwise the in-memory user and
      the session become the public view of the first stored record that
      answers to the email. The registry and `users` never change. */
  function DispatchLogin(app: App, email: string, password: string): (r: App)
    ensures r.slice.users == app.slice.users && r.storage.registry == app.storage.registry
    ensures email == "" || password == "" ==>
              r.storage == app.storage && SettledRejected(app.slice, r.slice, MissingCredentials)
    ensures email != "" && password != ""
            && (forall u :: u in Users(app.storage) ==> Lower(u.email) != LoginKey(email)) ==>
              r.storage == app.storage && SettledRejected(app.slice, r.slice, UserNotFound)
    ensures email != "" && password != ""
            && (exists u :: u in Users(app.storage) && Lower(u.email) == LoginKey(email)) ==>
              && r.slice.user.Some?
              && r.storage == app.storage.(session := r.slice.user)
              && SettledFulfilled(app.slice, r.slice, r.slice.user.value)
              && exists k :: IsFirst(Users(app.storage), k, LoginMatch(LoginKey(email)))
                             && r.slice.user == Some(PublicView(Users(app.storage)[k]))
  {
    SettleLogin(app, LoginUser(app.storage, email, password))
  }

  /** How the slice settles a finished `getUser`. */
  function SettleGetUser(app: App, step: Step<Record>): (r: App)
    ensures r.storage == step.storage && r.slice.users == app.slice.users
    ensures step.outcome.Fulfilled? ==> SettledFulfilled(app.slice, r.slice, step.outcome.value)
    ensures step.outcome.Rejected? ==> SettledRejected(app.slice, r.slice, step.outcome.reason)
  {
    match step.outcome
    case Fulfilled(u) => App(Reduce(app.slice, GetUserFulfilled(u)), step.storage)
    case Rejected(e) => App(Reduce(app.slice, ThunkRejected(GetUserThunk, Message(e))), step.storage)
  }

  /** `dispatch(getUser())`. Without an authenticated session it reports the
      error and writes nothing; when the session's id is not stored it also
      removes the session key; otherwise the in-memory user becomes the
      public view of the first stored record with the session's id, and
      nothing is written. */
  function DispatchGetUser(app: App): (r: App)
    ensures r.slice.users == app.slice.users
    ensures !SignedIn(app.storage) ==>
              r.storage == app.storage && SettledRejected(app.slice, r.slice, NoAuthenticatedUser)
    ensures SignedIn(app.storage)
            && (forall u :: u in Users(app.storage) ==> u.id != app.storage.session.value.id) ==>
              && r.storage == app.storage.(session := None)
              && SettledRejected(app.slice, r.slice, AccountNotFound)
    ensures SignedIn(app.storage)
            && (exists u :: u in Users(app.storage) && u.id == app.storage.session.value.id) ==>
              && r.storage == app.storage && r.slice.user.Some?
              && SettledFulfilled(app.slice, r.slice, r.slice.user.value)
              && exists k :: IsFirst(Users(app.storage), k, SameId(app.storage.session.value.id))
                             && r.slice.user == Some(PublicView(Users(app.storage)[k]))
  {
    SettleGetUser(app, GetUser(app.storage))
  }

  /** How the slice settles a finished `logoutUser`. The slice has no
      `rejected` case for it, so a rejection changes nothing in memory. */
  function SettleLogout(app: App, step: Step<Option<Record>>): (r: App)
    ensures r.storage == step.storage
    ensures step.outcome.Fulfilled? ==>
              && r.slice.user.None? && !r.slice.isLoading && !r.slice.isSuccess && !r.slice.isError
              && r.slice.users == app.slice.users && r.slice.message == app.slice.message
    ensures step.outcome.Rejected? ==> r.slice == app.slice
  {
    match step.outcome
    case Fulfilled(v) => App(Reduce(app.slice, LogoutFulfilled(v)), step.storage)
    case Rejected(e) => App(Reduce(app.slice, ThunkRejected(LogoutThunk, Message(e))), step.storage)
  }

  /** `dispatch(logoutUser())`. The in-memory user always becomes null and
      the flags clear; storage keeps the session record, de-authenticated
      when it was authenticated, and the registry. */
  function DispatchLogout(app: App): (r: App)
    ensures r.slice.user.None? && !r.slice.isLoading && !r.slice.isSuccess && !r.slice.isError
    ensures r.slice.users == app.slice.users && r.slice.message == app.slice.message
    ensures r.storage.registry == app.storage.registry
    ensures SignedIn(app.storage) ==>
              r.storage.session == Some(app.storage.session.value.(isAuthenticated := Some(false)))
    ensures !SignedIn(app.storage) ==> r.storage == app.storage
  {
    SettleLogout(app, LogoutUser(app.storage))
  }

  // ---------------------------------------------------------------------
  // Corrected registration: the duplicate test on the normalised email.

  /** No two stored records share an email. */
  predicate UniqueEmails(users: seq<Record>) {
    forall i, j :: 0 <= i < j < |users| ==> users[i].email != users[j].email
  }

  /** `registerUser` with the duplicate test run on the email it is about to
      store, as the stored records' normalisation evidently intends. */
  function RegisterUserNormalized(st: Storage, input: RegisterInput, id: string, createdAt: string)
    : (r: Step<Record>)
    ensures r.outcome.Rejected? <==>
              exists u :: u in Users(st) && u.email == NormalizeEmail(input.email)
    ensures r.outcome.Rejected? ==> r.outcome.reason == EmailTaken && r.storage == st
    ensures r.outcome.Fulfilled? ==>
              && r.storage.registry == Some(Users(st) + [NewAccount(input, id, createdAt)])
              && r.storage.session == Some(NewAccount(input, id, createdAt))
              && r.outcome.value == PublicView(NewAccount(input, id, createdAt))
  {
    var users := Users(st);
    if Any(users, SameEmail(NormalizeEmail(input.email))) then
      Step(Rejected(EmailTaken), st)
    else
      var account := NewAccount(input, id, createdAt);
      Step(Fulfilled(PublicView(account)), Storage(Some(users + [account]), Some(account)))
  }
}

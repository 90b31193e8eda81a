/** The minimal client-side store: one in-memory `user`, a `login` that
    stamps a five-minute expiry on whatever it is given and persists it, and
    a `logout` that clears memory only. `Date.now()` is the `now`
    parameter, in milliseconds. */
module AuthStore {
  import opened Records

  /** Five minutes, in milliseconds. */
  const SessionLifetimeMs: int := 1000 * 60 * 5

  datatype StoreState = StoreState(user: Option<Record>)

  /** What a store action leaves in storage and in memory. */
  datatype Transition = Transition(storage: Storage, state: StoreState)

  /** The store's initial `user`: the stored session record, or null. */
  function InitialState(st: Storage): (s: StoreState)
    ensures s.user.Some? <==> st.session.Some?
    ensures s.user.Some? ==> s.user.value == st.session.value
  {
    StoreState(st.session)
  }

  /** `login`: the payload is `userData` with `sessionExpiry` set to
      `now` plus five minutes (replacing any expiry it carried). The same
      payload overwrites the session key and becomes the in-memory user;
      the registry is not touched. */
  function Login(st: Storage, userData: Record, now: int): (r: Transition)
    ensures r.state.user.Some? && r.storage.session == r.state.user
    ensures r.storage.registry == st.registry
    ensures var p := r.state.user.value;
            && p.sessionExpiry == Some(now + 300_000)
            && p.(sessionExpiry := userData.sessionExpiry) == userData
  {
    var payload := userData.(sessionExpiry := Some(now + SessionLifetimeMs));
    Transition(st.(session := Some(payload)), StoreState(Some(payload)))
  }

  /** `logout`: the in-memory user becomes null and storage is left as it
      was, so the stored session record survives. */
  function Logout(st: Storage): (r: Transition)
    ensures r.state.user.None?
    ensures r.storage == st
  {
    Transition(st, StoreState(None))
  }

  /** A reload right after `login` starts from the persisted payload. */
  lemma LoginSurvivesReload(st: Storage, userData: Record, now: int)
    ensures var r := Login(st, userData, now);
            InitialState(r.storage) == r.state
  {
  }

  /** `logout` does not survive a reload: the store starts again from the
      session that `login` persisted. */
  lemma LogoutUndoneByReload(st: Storage, userData: Record, now: int)
    ensures var signedIn := Login(st, userData, now);
            var out := Logout(signedIn.storage);
            && out.state.user.None?
            && InitialState(out.storage) == signedIn.state
  {
  }

  /** A second `login` replaces the first completely: only the latest
      payload and expiry remain, in storage and in memory. */
  lemma LoginOverwrites(st: Storage, u1: Record, t1: int, u2: Record, t2: int)
    ensures var first := Login(st, u1, t1);
            Login(first.storage, u2, t2) == Login(st, u2, t2)
  {
  }
}

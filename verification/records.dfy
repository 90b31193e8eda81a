/** The values the authentication code keeps in browser storage, and the
    array searches (`find`, `some`) it runs over them. */
module Records {

  datatype Option<T> = None | Some(value: T)

  /** One user-shaped JSON object. The same shape holds every variant the
      code writes: the full account record of the Redux thunks, the
      id-less record of the registration form, the public view returned to
      the UI, and the session payload of the minimal store. A key that an
      object does not carry (or that is `undefined`, which JSON drops) is
      `None`. */
  datatype Record = Record(
    id: Option<string>,
    fullname: string,
    email: string,
    password: Option<string>,
    createdAt: Option<string>,
    isAuthenticated: Option<bool>,
    sessionExpiry: Option<int>)

  /** The two storage keys: `registeredUsers` (the registry) and
      `registeredUser` (the current session). `None` is an absent key. */
  datatype Storage = Storage(registry: Option<seq<Record>>, session: Option<Record>)

  /** `JSON.parse(localStorage.getItem("registeredUsers")) || []`. */
  function Users(st: Storage): (users: seq<Record>)
    ensures st.registry.Some? ==> users == st.registry.value
    ensures st.registry.None? ==> users == []
  {
    match st.registry
    case Some(users) => users
    case None => []
  }

  /** JavaScript truthiness of an optional boolean field. */
  predicate Truthy(b: Option<bool>) {
    b == Some(true)
  }

  /** The `{id, fullname, email, createdAt, isAuthenticated: true}` object
      the thunks hand to the UI: never a password, never an expiry. */
  function PublicView(u: Record): (v: Record)
    ensures v.password.None? && v.sessionExpiry.None? && Truthy(v.isAuthenticated)
    ensures v.id == u.id && v.fullname == u.fullname && v.email == u.email
    ensures v.createdAt == u.createdAt
  {
    Record(u.id, u.fullname, u.email, None, u.createdAt, Some(true), None)
  }

  /** `Array.prototype.findIndex`: the first position whose element
      satisfies `p`. */
  function FindIndex<T>(s: seq<T>, p: T -> bool): (r: Option<nat>)
    ensures r.Some? ==> IsFirst(s, r.value, p)
    ensures r.None? <==> forall j :: 0 <= j < |s| ==> !p(s[j])
    decreases |s|
  {
    if |s| == 0 then None
    else if p(s[0]) then Some(0)
    else
      match FindIndex(s[1..], p)
      case None => None
      case Some(i) => Some(i + 1)
  }

  /** `k` is the first position of `s` whose element satisfies `p`. */
  predicate IsFirst<T>(s: seq<T>, k: int, p: T -> bool) {
    0 <= k < |s| && p(s[k]) && forall j :: 0 <= j < k ==> !p(s[j])
  }

  /** `Array.prototype.find`. */
  function Find<T>(s: seq<T>, p: T -> bool): (r: Option<T>)
    ensures r.None? <==> forall j :: 0 <= j < |s| ==> !p(s[j])
    ensures r.Some? ==> exists k :: IsFirst(s, k, p) && s[k] == r.value
  {
    match FindIndex(s, p)
    case None => None
    case Some(k) => Some(s[k])
  }

  /** `Array.prototype.some`: true exactly when some element satisfies `p`. */
  function Any<T>(s: seq<T>, p: T -> bool): (r: bool)
    ensures r <==> exists j :: 0 <= j < |s| && p(s[j])
  {
    FindIndex(s, p).Some?
  }

  /** The duplicate test of both registration paths: the stored email
      against `email`, verbatim. */
  function SameEmail(email: string): Record -> bool {
    (u: Record) => u.email == email
  }

  /** Appending one element to an array that holds no match leaves the new
      element as the first match, if it matches at all. */
  lemma {:induction false} FindAfterAppend<T>(s: seq<T>, x: T, p: T -> bool)
    requires forall j :: 0 <= j < |s| ==> !p(s[j])
    ensures Find(s + [x], p) == if p(x) then Some(x) else None
  {
    var t := s + [x];
    assert forall j :: 0 <= j < |s| ==> t[j] == s[j];
    assert t[|s|] == x;
  }
}

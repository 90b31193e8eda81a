# Local authentication state machine — a Dafny model

This project models the client-side authentication logic of a small React
application. All persistence goes to browser storage under two keys:

- `registeredUsers`: an ordered registry of user records;
- `registeredUser`: the single current-session record.

Three pieces of code act on these keys. Each is modelled as a set of pure
transitions `(storage, inputs) -> (outcome, storage')`:

- **The Redux slice** (`src/redux/auth/authSlice.js`), module `AuthSlice`.
  - The `registerUser`, `loginUser`, `logoutUser` and `getUser` thunks are modelled.
  - So are the reducer cases that fold their outcomes into the in-memory
    slice state, and the `resetAuthState` action.
  - So is the way `createAsyncThunk` hands an outcome to those reducers:
    the `Settle*` and `Dispatch*` functions.
- **The registration form** (`src/Components/Register.jsx`), module `RegisterForm`.
  - `validateInput` is the ordered, short-circuit validator.
  - The storage logic of `handleSubmitData` is the duplicate test and the
    append. The salted hash is an opaque function argument.
- **The minimal store** (`src/store/auth.js`), module `AuthStore`.
  - The initial `user` comes from storage.
  - `login` stamps a five-minute `sessionExpiry` and persists the payload.
  - `logout` clears memory only.

Shared pieces:
- `Text` holds JavaScript's `trim()`, ASCII `toLowerCase()` and the UTF-16
  `.length`.
- `Records` holds the storage record shape and the array searches `find`,
  `findIndex` and `some`.
- `SliceProperties` holds the lemmas that relate several slice operations.

Every JSON object the code writes is one `Record`. Keys that an object may
lack are `Option` fields: `id`, `password`, `createdAt`, `isAuthenticated`
and `sessionExpiry`. So `undefined === undefined` is `None == None`, and a
truthy `isAuthenticated` is `Some(true)`.

Behaviour the model pins down:

- **Duplicate tests use the raw email.** Both registration paths compare the
  email as typed against the stored emails. `registerUser` stores the email
  lower-cased and trimmed. So the same input with an upper-case letter or
  padding registers twice (`SliceProperties.RegisterTwiceSucceeds`; see
  Findings).
- **`loginUser` never compares the password.** Any non-empty password gives
  the same outcome (`SliceProperties.LoginIgnoresPassword`). No line of
  `loginUser` compares the password with anything stored.
- **The two registration paths store different shapes.**
  - `registerUser` stores `{id, fullname, email, password, createdAt,
    isAuthenticated}`. The password is trimmed plaintext, and the same record,
    password included, becomes the session.
  - The form stores `{fullname, email, password: hash}`. The email is kept
    as typed, there is no id, and the session key is never written.
- **Id-less records confuse `getUser`.** Logging into a form-written record
  leaves a session with no id. `getUser` then returns the first id-less
  record, which can be another user
  (`SliceProperties.GetUserConfusesIdlessAccounts`).
- **Logout is not persisted.**
  - The slice's logout keeps the session record, with `isAuthenticated`
    false. A reload therefore starts the slice with a non-null user again.
  - The minimal store's logout leaves storage untouched. A reload restores
    the logged-in user.

## Model

| member | source | states |
|---|---|---|
| Text.Trim | src/redux/auth/authSlice.js:38-40 | `trim()` returns a string with no white space at either end (ECMAScript WhiteSpace and LineTerminator code points) |
| Text.SkipSpaces | src/redux/auth/authSlice.js:38-40 | the leading white space `trim()` removes is a maximal run: every character before the stop is white space and the character at the stop is not |
| Text.BackSpaces | src/redux/auth/authSlice.js:38-40 | the trailing white space `trim()` removes is a maximal run: every character from the stop on is white space and the one before the stop is not |
| Text.TrimParts | src/redux/auth/authSlice.js:38-40 | `trim()` removes only white space: the input is the result with an all-space prefix and an all-space suffix |
| Text.TrimCharacterized | src/redux/auth/authSlice.js:38-40 | `trim()` of a trimmed core between two runs of white space is exactly that core |
| Text.TrimIdempotent | src/redux/auth/authSlice.js:38-40 | trimming twice is the same as trimming once |
| Text.LowerFixesLowerCase | src/redux/auth/authSlice.js:39 | lower-casing leaves a string unchanged exactly when it has no upper-case ASCII letter |
| Text.TrimLowerCommute | src/redux/auth/authSlice.js:112 | `trim().toLowerCase()` equals `toLowerCase().trim()` on every string |
| Text.Lower | src/redux/auth/authSlice.js:39 | `toLowerCase()` keeps the length, maps each character on its own (ASCII capitals to small letters) and leaves no upper-case ASCII letter |
| Text.Utf16Length | src/Components/Register.jsx:37 | `.length` counts UTF-16 code units: one for a character in the Basic Multilingual Plane and two above it; the total lies between the number of characters and twice that, and equals it exactly when every character is in that plane |
| Text.Utf16LengthAppend | src/Components/Register.jsx:37 | `.length` of a concatenation is the sum of the two lengths, so with the one-character values it fixes the count of every string |
| Records.Users | src/redux/auth/authSlice.js:25-26 | a missing registry key reads as the empty array |
| Records.PublicView | src/redux/auth/authSlice.js:50-56 | the object handed to the UI copies id, name, email and creation time, is authenticated, and has no password or expiry |
| Records.FindIndex | src/redux/auth/authSlice.js:117-119 | the search returns the first position that matches, and returns nothing exactly when no element matches |
| Records.Find | src/redux/auth/authSlice.js:77 | `find` returns the first matching element, and `undefined` exactly when none matches |
| Records.Any | src/redux/auth/authSlice.js:28-30 | `some` is true exactly when some element matches |
| Records.FindAfterAppend | src/redux/auth/authSlice.js:45 | after appending to an array with no match, the appended element is the first match if it matches at all |
| AuthSlice.NormalizedEmailIsNormal | src/redux/auth/authSlice.js:39 | the email `registerUser` stores is lower-case with no surrounding white space, and normalising it again changes nothing |
| AuthSlice.MessagesDistinct | src/redux/auth/authSlice.js:33 | the five rejection messages (lines 33, 72, 81, 108, 123) are pairwise different, so the message identifies the cause |
| AuthSlice.NormalizationsAgree | src/redux/auth/authSlice.js:112 | the email normalisation of `loginUser` equals the one `registerUser` stores |
| AuthSlice.RegisterUser | src/redux/auth/authSlice.js:25-59 | rejects exactly when a stored email equals the raw input email, and then writes nothing. Otherwise the registry gains exactly one record at the end: email lower-cased and trimmed, name and password trimmed, authenticated, no expiry. That record becomes the session and its public view is returned |
| AuthSlice.LoginUser | src/redux/auth/authSlice.js:106-136 | rejects without a write when email or password is empty, and when no stored email lowers to the trimmed, lower-cased input. Otherwise the session becomes the public view of the first such record, the registry is unchanged, and the password plays no other part |
| AuthSlice.LogoutUser | src/redux/auth/authSlice.js:151-164 | with an authenticated session, rewrites it with only `isAuthenticated` false and returns it. Otherwise returns null and writes nothing. Never touches the registry; afterwards no session is authenticated |
| AuthSlice.GetUser | src/redux/auth/authSlice.js:69-90 | rejects without a write when the session is missing or unauthenticated. Removes the session and rejects when no stored record has its id. Otherwise returns the public view of the first record with that id and writes nothing |
| AuthSlice.InitialSlice | src/redux/auth/authSlice.js:5-18 | the slice starts with the stored session as user, the stored registry (or empty) as users, all flags false and an empty message |
| AuthSlice.Reduce | src/redux/auth/authSlice.js:178-243 | only a fulfilled registration grows `users`; only reset and handled rejections touch `message`; only fulfilled actions touch `user`; a rejected logout changes nothing; every other action clears `isLoading` |
| AuthSlice.ResetAuthStateClearsFlags | src/redux/auth/authSlice.js:179-184 | `resetAuthState` returns the flags and message to their initial values and keeps `user` and `users` |
| AuthSlice.LogoutFulfilledClearsUser | src/redux/auth/authSlice.js:237-242 | `logoutUser.fulfilled` sets `user` to null and clears the three flags, keeping `message` and `users` |
| AuthSlice.SettleRegister | src/redux/auth/authSlice.js:192-204 | storage is what `registerUser` left; a fulfilled value becomes the user and is appended to `users`, with loading off and success on; a rejection keeps user and users and sets the error flag and the thunk's message |
| AuthSlice.DispatchRegister | src/redux/auth/authSlice.js:25-59 | a raw-email duplicate leaves storage unchanged and reports "User with this email already exists."; otherwise storage gains the new account as last record and as session, and the slice holds its password-free view as user and last element of `users` |
| AuthSlice.SettleLogin | src/redux/auth/authSlice.js:224-235 | storage is what `loginUser` left and `users` is kept; a fulfilled value becomes the user; a rejection keeps the user and sets the error flag and message |
| AuthSlice.DispatchLogin | src/redux/auth/authSlice.js:106-136 | empty fields and an unknown email write nothing and report the matching message; otherwise the in-memory user and the session are both the public view of the first record answering to the email; registry and `users` never change |
| AuthSlice.SettleGetUser | src/redux/auth/authSlice.js:209-219 | storage is what `getUser` left and `users` is kept; a fulfilled value becomes the user; a rejection keeps the user and sets the error flag and message |
| AuthSlice.DispatchGetUser | src/redux/auth/authSlice.js:69-90 | no authenticated session: nothing written, error reported; session id not stored: session key removed, error reported; otherwise the in-memory user is the public view of the first stored record with the session's id, and nothing is written |
| AuthSlice.SettleLogout | src/redux/auth/authSlice.js:237-243 | a fulfilled logout nulls the user and clears the flags, keeping `users` and `message`; the slice has no rejected case, so a rejection changes nothing in memory |
| AuthSlice.DispatchLogout | src/redux/auth/authSlice.js:151-164 | the in-memory user becomes null and the flags clear; an authenticated session record stays stored with `isAuthenticated` false, any other storage is untouched; the registry is never touched |
| AuthSlice.RegisterUserNormalized | src/redux/auth/authSlice.js:28-46 | corrected registration: rejects exactly when the normalised email is already stored, and otherwise appends the same record as `registerUser` |
| SliceProperties.LoginIgnoresPassword | src/redux/auth/authSlice.js:106-136 | any two non-empty passwords give the same login outcome and storage |
| SliceProperties.LogoutTwiceIsNoop | src/redux/auth/authSlice.js:151-164 | a second logout returns null and writes nothing |
| SliceProperties.NewAccountMatchesLogin | src/redux/auth/authSlice.js:112-119 | the stored email of a new account matches the login key of its registration email |
| SliceProperties.RegisterThenLogin | src/redux/auth/authSlice.js:112-134 | after a successful registration with a non-empty email, logging in with that email and any non-empty password succeeds, and yields the returned registration view when no older record answers to the email |
| SliceProperties.LoginLandsOnFirstMatch | src/redux/auth/authSlice.js:117-136 | login lands on the first record that answers to the email |
| SliceProperties.GetUserLandsOnFirstId | src/redux/auth/authSlice.js:77-90 | `getUser` returns the public view of the first record carrying the session's id |
| SliceProperties.LoginThenGetUser | src/redux/auth/authSlice.js:77-90 | right after a login that lands on some stored record, `getUser` succeeds without a write, answering with the first record that has that record's id |
| SliceProperties.GetUserConfusesIdlessAccounts | src/redux/auth/authSlice.js:77 | with two id-less records, logging into the second makes `getUser` return the first |
| SliceProperties.PaddedEmailNeverLogsIn | src/redux/auth/authSlice.js:112-119 | a stored email that starts with white space is never found by login, whatever is typed |
| SliceProperties.RegisterTwiceSucceeds | src/redux/auth/authSlice.js:28-39 | registering the same input twice succeeds both times when its email is not already normalised and no stored email equals it as typed, leaving two records with one email |
| SliceProperties.UpperCaseEmailIsNotNormal | src/redux/auth/authSlice.js:39 | `"A"` normalises to `"a"`, so the premise of the previous row is met |
| SliceProperties.RegisterNormalizedKeepsEmailsUnique | src/redux/auth/authSlice.js:28-46 | the corrected registration keeps stored emails pairwise distinct |
| SliceProperties.RegisterNormalizedTwiceRejected | src/redux/auth/authSlice.js:28-34 | with the corrected test, a second registration of the same input is rejected and writes nothing |
| SliceProperties.LogoutThenReload | src/redux/auth/authSlice.js:5-12 | after a dispatched logout the in-memory user is null, but a reload starts the slice from the stored, de-authenticated session |
| SliceProperties.RegisterDispatchDivergence | src/redux/auth/authSlice.js:45-56 | after a dispatched registration, memory ends with the password-free view while storage ends with the record holding the trimmed plaintext password |
| SliceProperties.GetUserMissingAccountKeepsMemoryUser | src/redux/auth/authSlice.js:79-82 | when the session is authenticated but its account is gone, the session key is removed but the in-memory user stays, with the error flag and message set |
| RegisterForm.ProblemMessagesDistinct | src/Components/Register.jsx:33-45 | the three validation toasts are pairwise different |
| RegisterForm.ValidateInput | src/Components/Register.jsx:26-50 | empty field first, then a password under 6 UTF-16 units, then a mismatch; each reason is reported exactly when its check is the first to fail, and the form is valid exactly when all pass |
| RegisterForm.ThreeAstralCharactersAreLongEnough | src/Components/Register.jsx:37 | three characters above U+FFFF already reach the minimum length |
| RegisterForm.ValidPasswordHasThreeCharacters | src/Components/Register.jsx:37-41 | a password that passes validation has at least three characters |
| RegisterForm.HandleSubmitData | src/Components/Register.jsx:52-83 | an invalid form touches no storage; an email stored verbatim writes nothing; otherwise the registry gains one id-less record with name and email as typed and `hash(password, salt)` as password; the session key is never written |
| RegisterForm.ResubmitIsDuplicate | src/Components/Register.jsx:65-71 | submitting a stored form again is refused as a duplicate |
| RegisterForm.DistinctSpellingsRegisterTwice | src/Components/Register.jsx:65 | after one form is stored, a valid form is stored too when its email is spelled differently, case or padding included, and no stored email equals it as typed |
| AuthStore.InitialState | src/store/auth.js:4 | the initial user is the stored session if present, else null |
| AuthStore.Login | src/store/auth.js:6-11 | the payload is the user data with `sessionExpiry` = now + 300000 ms; it overwrites the session key and the in-memory user; the registry is untouched |
| AuthStore.Logout | src/store/auth.js:12-15 | the in-memory user becomes null and storage is unchanged |
| AuthStore.LoginSurvivesReload | src/store/auth.js:4-10 | a reload after login starts from the persisted payload |
| AuthStore.LogoutUndoneByReload | src/store/auth.js:12-15 | after login then logout, a reload restores the logged-in payload |
| AuthStore.LoginOverwrites | src/store/auth.js:9-10 | a second login leaves exactly what a single login with its data would |

## Left out

- Serialisation (`JSON.parse` / `JSON.stringify`) and the `catch` branches that
  malformed storage triggers. Storage holds typed values and is assumed to
  round-trip; only the dropping of `undefined` keys is modelled, as `None`.
- Thrown exceptions. Besides malformed storage, the `catch` branches also
  catch other throws. `userData` without `fullname`, `email` or `password`
  throws a TypeError at authSlice.js:38-40, and a `setItem` over the storage
  quota throws too. In the thunks (authSlice.js:60-62, 91-97, 137-141,
  165-169) such a throw becomes a rejection carrying the exception's message.
  In `handleSubmitData` (Register.jsx:84-87) it is only logged, and the
  registry keeps its old value. `RegisterInput` and `FormData` always carry
  three or four strings, and every write succeeds, so none of these paths is
  modelled.
- Lone surrogates. Strings are sequences of Unicode scalar values, so a
  JavaScript string holding an unpaired UTF-16 surrogate has no counterpart
  in the model.
- The clock. `Date.now()` and `new Date().toISOString()` are parameters: `id`,
  `createdAt` and `now`. Id uniqueness is not enforced by the code and is not
  assumed.
- bcrypt. `genSalt(10)` and `hash` are an opaque function and a salt argument.
  Nothing is claimed about the hash: not irreversibility, not inequality with
  the plaintext, and not the salt's randomness.
- Lower: only ASCII letters are lower-cased; JavaScript's full Unicode case
  mapping is not modelled.
- AuthStore.Login: `now + 300000` is an unbounded integer, not a
  double-precision float; the two agree below 2^53 ms.
- Toasts, `console.log`, `setPwdError`, `setIsSubmitting` and navigation.
  These are UI side effects.
- The `pending` reducer cases (authSlice.js:189-191, 206-208, 221-223), which
  set `isLoading`. Every settling case except a rejected logout resets
  `isLoading`, and `logoutUser` has no `pending` case. So the state a
  `Dispatch*` function returns is the same with or without them.
- `src/Components/Login.jsx`, `src/Components/Dashboard.jsx` and
  `src/App.jsx`: rendering, effects, routing, clock-dependent greetings and the
  random quote. Login.jsx's empty-field guard repeats `loginUser`'s own check.
- Interleaving. Every operation is one atomic step. Cross-tab races on the
  registry's read-modify-write are not modelled. Neither is the same-tab race
  in `handleSubmitData`. It awaits `bcrypt.genSalt` and `bcrypt.hash`
  (Register.jsx:73-74) between reading the registry (62-65) and writing it
  (80), and the submit button is never disabled. So two quick submissions can
  both pass the duplicate test, and the later write drops the earlier append.
- The Redux slice and the minimal store share the session key but are
  modelled as separate operation sets, as the code keeps them.

## Findings

| source | as written | input that shows it | evidently intended | confidence | as-written member | corrected member |
|---|---|---|---|---|---|---|
| src/redux/auth/authSlice.js:28-30 | the duplicate test compares the raw `userData.email`, but line 39 stores the email lower-cased and trimmed | registering `{fullname: "x", email: "A", password: "p"}` twice on empty storage: both calls succeed and the registry holds two records with email `"a"` | the duplicate test compares the normalised email, so stored emails stay unique | high (not executed) | SliceProperties.RegisterTwiceSucceeds | SliceProperties.RegisterNormalizedKeepsEmailsUnique |

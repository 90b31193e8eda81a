/** The registration form's own submit path: an ordered, short-circuit
    validator, then a duplicate test and an append to the registry. The
    salted hash is an opaque function of the password and a salt, both
    supplied by the caller. */
module RegisterForm {
  import opened Text
  import opened Records

  /** The four controlled inputs of the form. */
  datatype FormData = FormData(fullname: string, email: string, password: string, password2: string)

  /** The first check a submission fails, in the order they are tried. */
  datatype Problem = EmptyField | PasswordTooShort | PasswordMismatch

  /** The toast each problem raises. */
  function ProblemMessage(p: Problem): string {
    match p
    case EmptyField => "Don't try to cheat. Fill everything."
    case PasswordTooShort => "Password must be at least 6 characters long"
    case PasswordMismatch => "Passwords don't match"
  }

  /** Each problem raises its own toast. */
  lemma ProblemMessagesDistinct(p1: Problem, p2: Problem)
    ensures ProblemMessage(p1) == ProblemMessage(p2) ==> p1 == p2
  {
  }

  datatype Validation = Valid | Invalid(problem: Problem)

  /** Shortest accepted password, in UTF-16 code units. */
  const MinPasswordLength: nat := 6

  predicate AllFilled(f: FormData) {
    f.fullname != "" && f.email != "" && f.password != "" && f.password2 != ""
  }

  /** `validateInput`. Each outcome is characterised in both directions, so
      exactly one problem, the first in check order, is reported. */
  function ValidateInput(f: FormData): (v: Validation)
    ensures v == Invalid(EmptyField) <==> !AllFilled(f)
    ensures v == Invalid(PasswordTooShort) <==>
              AllFilled(f) && Utf16Length(f.password) < MinPasswordLength
    ensures v == Invalid(PasswordMismatch) <==>
              AllFilled(f) && Utf16Length(f.password) >= MinPasswordLength
              && f.password != f.password2
    ensures v == Valid <==>
              AllFilled(f) && Utf16Length(f.password) >= MinPasswordLength
              && f.password == f.password2
  {
    if f.fullname == "" || f.email == "" || f.password == "" || f.password2 == "" then
      Invalid(EmptyField)
    else if Utf16Length(f.password) < MinPasswordLength then
      Invalid(PasswordTooShort)
    else if f.password != f.password2 then
      Invalid(PasswordMismatch)
    else
      Valid
  }

  /** The length test counts UTF-16 code units, so three characters outside
      the Basic Multilingual Plane already make a long enough password. */
  lemma ThreeAstralCharactersAreLongEnough(a: char, b: char, c: char)
    requires a as int >= 0x1_0000 && b as int >= 0x1_0000 && c as int >= 0x1_0000
    ensures Utf16Length([a, b, c]) == MinPasswordLength
  {
    assert [a, b, c] == [a] + [b] + [c];
    Utf16LengthAppend([a] + [b], [c]);
    Utf16LengthAppend([a], [b]);
  }

  /** A password that passes the length test has at least three characters. */
  lemma ValidPasswordHasThreeCharacters(f: FormData)
    requires ValidateInput(f) == Valid
    ensures |f.password| >= MinPasswordLength / 2
  {
  }

  /** What a submission did. */
  datatype Submission = Refused(problem: Problem) | DuplicateEmail | Stored

  datatype SubmitStep = SubmitStep(result: Submission, storage: Storage)

  /** The record the form appends: the name and email exactly as typed, the
      hashed password, and no id, creation time or authentication flag. */
  function FormRecord(f: FormData, hashed: string): Record {
    Record(None, f.fullname, f.email, Some(hashed), None, None, None)
  }

  /** The storage logic of `handleSubmitData`. An invalid form touches no
      storage; an email already stored verbatim writes nothing; otherwise
      the registry gains the form record with `hash(password, salt)` in
      place of the password. The session key is never written. */
  function HandleSubmitData(st: Storage, f: FormData, hash: (string, string) -> string,
                            salt: string): (r: SubmitStep)
    ensures ValidateInput(f).Invalid? ==> r == SubmitStep(Refused(ValidateInput(f).problem), st)
    ensures r.result == DuplicateEmail <==>
              ValidateInput(f) == Valid && exists u :: u in Users(st) && u.email == f.email
    ensures r.result.DuplicateEmail? ==> r.storage == st
    ensures r.result == Stored <==>
              ValidateInput(f) == Valid && forall u :: u in Users(st) ==> u.email != f.email
    ensures r.result == Stored ==>
              && r.storage.registry.Some?
              && |r.storage.registry.value| == |Users(st)| + 1
              && var u := r.storage.registry.value[|Users(st)|];
              && r.storage.registry.value == Users(st) + [u]
              && u.id.None? && u.createdAt.None? && u.isAuthenticated.None? && u.sessionExpiry.None?
              && u.fullname == f.fullname && u.email == f.email
              && u.password == Some(hash(f.password, salt))
    ensures r.storage.session == st.session
  {
    match ValidateInput(f)
    case Invalid(p) => SubmitStep(Refused(p), st)
    case Valid =>
      var users := Users(st);
      if Any(users, SameEmail(f.email)) then
        SubmitStep(DuplicateEmail, st)
      else
        var all := users + [FormRecord(f, hash(f.password, salt))];
        SubmitStep(Stored, st.(registry := Some(all)))
  }

  /** Submitting the same form again, with any salt, is refused as a
      duplicate, since the email was stored exactly as typed. */
  lemma ResubmitIsDuplicate(st: Storage, f: FormData, hash: (string, string) -> string,
                            s1: string, s2: string)
    requires HandleSubmitData(st, f, hash, s1).result == Stored
    ensures var first := HandleSubmitData(st, f, hash, s1);
            HandleSubmitData(first.storage, f, hash, s2) == SubmitStep(DuplicateEmail, first.storage)
  {
    var first := HandleSubmitData(st, f, hash, s1);
    var reg := first.storage.registry.value;
    assert reg[|Users(st)|] in Users(first.storage);
  }

  /** The duplicate test compares emails verbatim: after one form is
      stored, another valid form is accepted as soon as its email is spelled
      differently, even when the two differ only in case or padding. */
  lemma DistinctSpellingsRegisterTwice(st: Storage, f: FormData, g: FormData,
                                  hash: (string, string) -> string, s1: string, s2: string)
    requires HandleSubmitData(st, f, hash, s1).result == Stored
    requires ValidateInput(g) == Valid
    requires g.email != f.email
    requires forall u :: u in Users(st) ==> u.email != g.email
    ensures var first := HandleSubmitData(st, f, hash, s1);
            HandleSubmitData(first.storage, g, hash, s2).result == Stored
  {
    var first := HandleSubmitData(st, f, hash, s1);
    var reg := first.storage.registry.value;
    forall u | u in Users(first.storage)
      ensures u.email != g.email
    {
      var i :| 0 <= i < |reg| && reg[i] == u;
      if i < |Users(st)| {
        assert reg[i] == Users(st)[i];
      }
    }
  }
}

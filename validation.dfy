/**
 * The sign-up and sign-in input schemas. A schema checks every field and
 * reports the failing ones; a request is valid when no
 * field fails. String lengths are JavaScript lengths (UTF-16 code units).
 * Email syntax is the library's own check and is a parameter `isEmail` here.
 */
module Validation {
  import opened Options
  import JsNumber
  import Numerals

  datatype SignUpRequest = SignUpRequest(
    fullName: string,
    email: string,
    universityId: string,
    universityCard: string,
    password: string)

  datatype SignInRequest = SignInRequest(email: string, password: string)

  datatype Field = FullName | Email | UniversityId | UniversityCard | Password

  const MinFullNameLength := 2
  const MinPasswordLength := 6

  /** JavaScript's `length`: code points above U+FFFF take two UTF-16 code units. */
  function Utf16Length(s: string): nat {
    if s == [] then 0 else (if s[0] > '\U{FFFF}' then 2 else 1) + Utf16Length(s[1..])
  }

  lemma {:induction false} Utf16LengthBounds(s: string)
    ensures |s| <= Utf16Length(s) <= 2 * |s|
    ensures (forall i :: 0 <= i < |s| ==> s[i] <= '\U{FFFF}') ==> Utf16Length(s) == |s|
  {
    if s != [] {
      Utf16LengthBounds(s[1..]);
    }
  }

  /** `z.coerce.number()`: `Number(input)` must be a finite number (NaN and infinities are refused). */
  predicate CoercesToNumber(s: string) {
    JsNumber.StringToNumber(s).Finite?
  }

  predicate PasswordOk(password: string) {
    Utf16Length(password) >= MinPasswordLength
  }

  /** The issue list contribution of one field: the field when it breaks its rule. */
  function Report(f: Field, fails: bool): (r: seq<Field>)
    ensures f in r <==> fails
    ensures forall g :: g in r ==> g == f
  {
    if fails then [f] else []
  }

  /** The sign-up issue list, from each field's verdict. */
  function SignUpReport(fullName: bool, email: bool, universityId: bool, universityCard: bool, password: bool)
    : (issues: seq<Field>)
    ensures FullName in issues <==> fullName
    ensures Email in issues <==> email
    ensures UniversityId in issues <==> universityId
    ensures UniversityCard in issues <==> universityCard
    ensures Password in issues <==> password
  {
    Report(FullName, fullName) + Report(Email, email) + Report(UniversityId, universityId)
    + Report(UniversityCard, universityCard) + Report(Password, password)
  }

  /** The failing fields of a sign-up request. */
  function SignUpIssues(r: SignUpRequest, isEmail: string -> bool): (issues: seq<Field>)
    ensures FullName in issues <==> Utf16Length(r.fullName) < MinFullNameLength
    ensures Email in issues <==> !isEmail(r.email)
    ensures UniversityId in issues <==> !CoercesToNumber(r.universityId)
    ensures UniversityCard in issues <==> r.universityCard == []
    ensures Password in issues <==> !PasswordOk(r.password)
  {
    var cardEmpty := Utf16Length(r.universityCard) < 1;
    assert cardEmpty <==> r.universityCard == [];
    SignUpReport(Utf16Length(r.fullName) < MinFullNameLength, !isEmail(r.email),
                 !CoercesToNumber(r.universityId), cardEmpty, !PasswordOk(r.password))
  }

  /** The failing fields of a sign-in request. */
  function SignInIssues(r: SignInRequest, isEmail: string -> bool): (issues: seq<Field>)
    ensures Email in issues <==> !isEmail(r.email)
    ensures Password in issues <==> !PasswordOk(r.password)
    ensures forall f :: f in issues ==> f == Email || f == Password
  {
    Report(Email, !isEmail(r.email)) + Report(Password, !PasswordOk(r.password))
  }

  predicate SignUpValid(r: SignUpRequest, isEmail: string -> bool) {
    SignUpIssues(r, isEmail) == []
  }

  predicate SignInValid(r: SignInRequest, isEmail: string -> bool) {
    SignInIssues(r, isEmail) == []
  }

  /** A sign-up request is accepted exactly when each of its five field rules holds. */
  lemma SignUpValidIff(r: SignUpRequest, isEmail: string -> bool)
    ensures SignUpValid(r, isEmail) <==>
      && Utf16Length(r.fullName) >= MinFullNameLength
      && isEmail(r.email)
      && CoercesToNumber(r.universityId)
      && r.universityCard != []
      && Utf16Length(r.password) >= MinPasswordLength
  {
    var issues := SignUpIssues(r, isEmail);
    if issues != [] {
      assert issues[0] in issues;
    }
  }

  /** A sign-in request is accepted exactly when the email passes and the password is long enough. */
  lemma SignInValidIff(r: SignInRequest, isEmail: string -> bool)
    ensures SignInValid(r, isEmail) <==> isEmail(r.email) && Utf16Length(r.password) >= MinPasswordLength
  {
    var issues := SignInIssues(r, isEmail);
    if issues != [] {
      assert issues[0] in issues;
    }
  }

  /** The email and password of a valid sign-up request form a valid sign-in request. */
  lemma SignUpProjectsToSignIn(r: SignUpRequest, isEmail: string -> bool)
    requires SignUpValid(r, isEmail)
    ensures SignInValid(SignInRequest(r.email, r.password), isEmail)
  {
    SignUpValidIff(r, isEmail);
    SignInValidIff(SignInRequest(r.email, r.password), isEmail);
  }

  /** A numeric university id such as "12345" is accepted. */
  lemma DigitIdAccepted(id: string)
    requires |id| > 0 && Numerals.IsDigits(id)
    ensures CoercesToNumber(id)
  {
    JsNumber.DigitsConvert(id);
  }

  /** A university id that cannot start a number, such as "abc", is refused. */
  lemma NonNumericIdRefused(id: string)
    requires JsNumber.Trim(id) != []
    requires var c := JsNumber.Trim(id)[0];
      !Numerals.IsDigit(c) && c != '.' && c != '+' && c != '-' && c != 'I'
    ensures !CoercesToNumber(id)
  {
    JsNumber.NonNumericIsNaN(id);
  }

  /** A blank university id coerces to 0 and is accepted. */
  lemma BlankIdAccepted(id: string)
    requires forall i :: 0 <= i < |id| ==> JsNumber.IsStrWhiteSpace(id[i])
    ensures CoercesToNumber(id)
  {
    JsNumber.BlankIsZero(id);
  }
}

/** The validator the command builds over its two inputs:
    `name` with the rules `required` and `max:250`, and `expires_at` with
    the rules `nullable` and `date_format:Y-m-d`. Every attribute is
    checked and every failure is reported, name first. */
module TokenValidation {
  import opened Optional
  import opened YmdDate

  const MaxNameLength := 250

  /** The characters PHP's `trim` removes. */
  predicate IsTrimmed(c: char) {
    c == ' ' || c == '\t' || c == '\n' || c == '\r' || c == '\0' || c == '\U{000B}'
  }

  /** A string that is empty once trimmed. */
  predicate IsBlank(s: string) {
    forall i :: 0 <= i < |s| ==> IsTrimmed(s[i])
  }

  /** PHP's `trim` without a character list: leading characters removed. */
  function TrimLeft(s: string): (t: string)
    ensures |t| <= |s| && t == s[|s| - |t|..]
    ensures IsBlank(s[..|s| - |t|])
    ensures t == [] || !IsTrimmed(t[0])
  {
    if s != [] && IsTrimmed(s[0]) then TrimLeft(s[1..]) else s
  }

  /** Trailing characters removed. */
  function TrimRight(s: string): (t: string)
    ensures |t| <= |s| && t == s[..|t|]
    ensures IsBlank(s[|t|..])
    ensures t == [] || !IsTrimmed(t[|t| - 1])
  {
    if s != [] && IsTrimmed(s[|s| - 1]) then TrimRight(s[..|s| - 1]) else s
  }

  function Trim(s: string): (t: string) {
    TrimRight(TrimLeft(s))
  }

  /** A string is blank exactly when `trim` empties it. */
  lemma TrimEmptyIffBlank(s: string)
    ensures Trim(s) == "" <==> IsBlank(s)
  {
    var l := TrimLeft(s);
    var k := |s| - |l|;
    if l == [] {
      assert s == s[..k];
    } else {
      assert s[k] == l[0];
    }
  }

  /** The `required` rule on a string, `trim($value) === ''` failing it. */
  predicate Required(name: Option<string>)
    ensures Required(name) <==> name.Some? && Trim(name.value) != ""
  {
    name.Some? && (TrimEmptyIffBlank(name.value); !IsBlank(name.value))
  }

  predicate NameValid(name: Option<string>)
    ensures NameValid(name) ==> name.Some? && 0 < |name.value| <= MaxNameLength
  {
    Required(name) && |name.value| <= MaxNameLength
  }

  /** `nullable` lets an absent expiry through; a blank one is not subject
      to `date_format`, which only checks values that are not blank. */
  predicate ExpiresValid(expires: Option<string>)
    ensures ExpiresValid(expires) && expires.Some? && !IsBlank(expires.value) ==>
              |expires.value| == 10 && expires.value[4] == '-' && expires.value[7] == '-'
  {
    expires.None? || IsBlank(expires.value) || ValidYmd(expires.value)
  }

  datatype FieldError =
    | NameRequired   // `required` failed on name
    | NameTooLong    // `max:250` failed on name
    | ExpiresNotYmd  // `date_format:Y-m-d` failed on expires_at

  /** The rules of `name`: `max` is only applied to a non-blank value. */
  function NameErrors(name: Option<string>): (errors: seq<FieldError>) {
    if !Required(name) then [NameRequired]
    else if |name.value| > MaxNameLength then [NameTooLong]
    else []
  }

  function ExpiresErrors(expires: Option<string>): (errors: seq<FieldError>) {
    if ExpiresValid(expires) then [] else [ExpiresNotYmd]
  }

  /** All validation failures of one call, in the order they are printed. */
  function Validate(name: Option<string>, expires: Option<string>): (errors: seq<FieldError>)
    ensures errors == [] <==> NameValid(name) && ExpiresValid(expires)
    ensures NameRequired in errors <==> !Required(name)
    ensures NameTooLong in errors <==> Required(name) && |name.value| > MaxNameLength
    ensures ExpiresNotYmd in errors <==> !ExpiresValid(expires)
    ensures |errors| == (if NameValid(name) then 0 else 1) + (if ExpiresValid(expires) then 0 else 1)
    ensures ExpiresNotYmd in errors ==> errors[|errors| - 1] == ExpiresNotYmd
  {
    NameErrors(name) + ExpiresErrors(expires)
  }

  /** An empty name and a name over 250 characters are both refused, and a
      bad name does not hide a bad expiry: both are reported. */
  lemma BadNameAndBadExpiryBothReported(name: Option<string>, expires: Option<string>)
    requires !NameValid(name) && !ExpiresValid(expires)
    ensures |Validate(name, expires)| == 2
    ensures Validate(name, expires)[1] == ExpiresNotYmd
    ensures Validate(name, expires)[0] == (if Required(name) then NameTooLong else NameRequired)
  {
  }

  /** The two examples of a malformed expiry: day-first order and a day
      February 2023 does not have. */
  lemma MalformedExpiryRejected(name: Option<string>)
    ensures ExpiresNotYmd in Validate(name, Some("31-12-2024"))
    ensures ExpiresNotYmd in Validate(name, Some("2023-02-29"))
  {
    var dayFirst, missingDay := "31-12-2024", "2023-02-29";
    RejectsDayFirst();
    RejectsMissingDay();
    assert !IsTrimmed(dayFirst[0]) && !IsTrimmed(missingDay[0]);
    assert !ExpiresValid(Some(dayFirst)) && !ExpiresValid(Some(missingDay));
  }
}

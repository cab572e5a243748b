/** The framework validators that users and stores declare on their email
    and address columns: presence, maximum length, and case-insensitive
    uniqueness with a format check. */
module FieldRules {
  import opened Basics
  import opened Text

  const MAX_ADDRESS_LENGTH := 400

  /** `presence: true` */
  function PresenceErrors(field: Field, v: Option<string>): (errs: seq<Error>)
    ensures errs == [] <==> !BlankValue(v)
    ensures errs != [] ==> errs == [Error(field, BLANK_MESSAGE)]
  {
    if BlankValue(v) then [Error(field, BLANK_MESSAGE)] else []
  }

  /** `length: { maximum: 400 }`. A nil value has length 0 and passes. */
  function MaxLengthErrors(field: Field, v: Option<string>): (errs: seq<Error>)
    ensures errs == [] <==> v.None? || |v.value| <= MAX_ADDRESS_LENGTH
    ensures errs != [] ==> errs == [Error(field, TOO_LONG_400_MESSAGE)]
  {
    if |ToS(v)| > MAX_ADDRESS_LENGTH then [Error(field, TOO_LONG_400_MESSAGE)] else []
  }

  /** The comparison key of `uniqueness: { case_sensitive: false }`; nil
      compares equal only to nil. */
  function EmailKey(v: Option<string>): Option<string> {
    if v.None? then None else Some(Downcase(v.value))
  }

  /** Two emails compare equal under `case_sensitive: false` exactly when
      both are nil, or both are present and differ at most in the case of
      ASCII letters. */
  lemma EmailKeyEqual(x: Option<string>, y: Option<string>)
    ensures EmailKey(x) == EmailKey(y) <==>
            (x.None? && y.None?)
            || (x.Some? && y.Some? && EqualIgnoringAsciiCase(x.value, y.value))
  {
    if x.Some? && y.Some? {
      DowncaseEqual(x.value, y.value);
    }
  }

  /** Some other record already holds this email, ignoring letter case. */
  predicate EmailTaken(email: Option<string>, others: set<Option<string>>) {
    exists o :: o in others && EmailKey(o) == EmailKey(email)
  }

  /** The errors of `validates :email, presence: true, uniqueness: {
      case_sensitive: false }, format: { with: ... }`, in that order.
      `others` are the emails of the other rows of the same table;
      `emailFormat` stands for the library's email regular expression, which
      is applied to `to_s` of the value. */
  function EmailErrors(email: Option<string>, others: set<Option<string>>, emailFormat: string -> bool)
    : (errs: seq<Error>)
    ensures forall e :: e in errs ==> e.field == Email
    ensures Error(Email, BLANK_MESSAGE) in errs <==> BlankValue(email)
    ensures Error(Email, TAKEN_MESSAGE) in errs <==> EmailTaken(email, others)
    ensures Error(Email, INVALID_MESSAGE) in errs <==> !emailFormat(ToS(email))
    ensures errs == [] <==>
            !BlankValue(email) && !EmailTaken(email, others) && emailFormat(ToS(email))
  {
    PresenceErrors(Email, email)
    + (if EmailTaken(email, others) then [Error(Email, TAKEN_MESSAGE)] else [])
    + (if emailFormat(ToS(email)) then [] else [Error(Email, INVALID_MESSAGE)])
  }

  /** Two emails that differ only in letter case collide: the second of
      `a@x.com` and `A@X.com` is refused as taken. */
  lemma EmailUniquenessIgnoresCase(emailFormat: string -> bool)
    ensures Error(Email, TAKEN_MESSAGE) in EmailErrors(Some("A@X.com"), {Some("a@x.com")}, emailFormat)
  {
    assert Downcase("A@X.com") == Downcase("a@x.com");
  }
}

/** The user record: its own validations (email, address, password), the
    shared name rule, the default role, and the role and activity scopes. */
module Users {
  import opened Basics
  import opened Text
  import opened NameRule
  import opened FieldRules

  /** The values of `ROLES`. Only the regular role is read, by
      `initialize_role`; no rule restricts `role` to these three. */
  const REGULAR_ROLE := "regular"
  const PROPRIETOR_ROLE := "proprietor"
  const SUPERVISOR_ROLE := "supervisor"

  const ADDRESS_CHARSET_MESSAGE := "contains invalid characters"
  const PASSWORD_MESSAGE :=
    "must include: 1 uppercase, 1 special character, 1 number, and be 8-16 characters"

  /** The special characters the strength pattern accepts as the source
      compiles it. Inside a Ruby regular-expression literal `#$&`
      interpolates the last-match global `$&`; no match has run in
      `password_strength` before the pattern is built, so `$&` is nil and
      adds nothing, and the class written `[!@#$&*]` is `[!@*]`. */
  const COMPILED_SPECIALS: set<char> := {'!', '@', '*'}

  /** The special characters the class spells out, and that the error
      message asks for. */
  const INTENDED_SPECIALS: set<char> := {'!', '@', '#', '$', '&', '*'}

  predicate HasSpecial(s: string, specials: set<char>) { exists i :: 0 <= i < |s| && s[i] in specials }

  /** What `(?=.*[A-Z])(?=.*[specials])(?=.*[0-9])(?=.*[a-z]).{8,16}$`
      demands of the line it starts on: `.{8,16}` must reach the end of the
      line. */
  predicate StrengthLineMatches(line: string, specials: set<char>) {
    8 <= |line| <= 16
    && HasUpper(line) && HasSpecial(line, specials) && HasDigit(line) && HasLower(line)
  }

  /** The strength pattern, anchored with `^`/`$`, matches some line. */
  predicate StrengthMatches(p: string, specials: set<char>) {
    var ls := Lines(p);
    exists k :: 0 <= k < |ls| && StrengthLineMatches(ls[k], specials)
  }

  /** The rule of `password_strength` with a given special-character class:
      a blank password is skipped; any other password that the pattern
      does not match gets one error. */
  function StrengthErrors(password: Option<string>, specials: set<char>): (errs: seq<Error>)
    ensures errs == [] <==> BlankValue(password) || StrengthMatches(password.value, specials)
    ensures errs != [] ==> errs == [Error(Password, PASSWORD_MESSAGE)]
  {
    if BlankValue(password) || StrengthMatches(password.value, specials) then []
    else [Error(Password, PASSWORD_MESSAGE)]
  }

  /** `password_strength` as the source runs it, with the class `[!@*]`. */
  function PasswordErrors(password: Option<string>): (errs: seq<Error>)
    ensures errs == [] <==> BlankValue(password) || StrengthMatches(password.value, COMPILED_SPECIALS)
    ensures errs != [] ==> errs == [Error(Password, PASSWORD_MESSAGE)]
  {
    StrengthErrors(password, COMPILED_SPECIALS)
  }

  /** `password_strength` as evidently intended, with the class `[!@#$&*]`. */
  function IntendedPasswordErrors(password: Option<string>): (errs: seq<Error>)
    ensures errs == [] <==> BlankValue(password) || StrengthMatches(password.value, INTENDED_SPECIALS)
    ensures errs != [] ==> errs == [Error(Password, PASSWORD_MESSAGE)]
  {
    StrengthErrors(password, INTENDED_SPECIALS)
  }

  /** For a password on one line the rule as run is the plain policy with
      one of `!`, `@`, `*` (`COMPILED_SPECIALS`) as the special character. */
  lemma PasswordAcceptedSingleLine(p: string)
    requires '\n' !in p
    ensures PasswordErrors(Some(p)) == [] <==>
            Blank(p) || (8 <= |p| <= 16 && HasUpper(p) && HasDigit(p) && HasLower(p)
                         && HasSpecial(p, COMPILED_SPECIALS))
  {
    SingleLine(p);
    assert StrengthMatches(p, COMPILED_SPECIALS) <==> StrengthLineMatches(Lines(p)[0], COMPILED_SPECIALS);
  }

  /** For a password on one line the intended rule is the plain policy with
      one of `!@#$&*` (`INTENDED_SPECIALS`) as the special character. */
  lemma IntendedPasswordAcceptedSingleLine(p: string)
    requires '\n' !in p
    ensures IntendedPasswordErrors(Some(p)) == [] <==>
            Blank(p) || (8 <= |p| <= 16 && HasUpper(p) && HasDigit(p) && HasLower(p)
                         && HasSpecial(p, INTENDED_SPECIALS))
  {
    SingleLine(p);
    assert StrengthMatches(p, INTENDED_SPECIALS) <==> StrengthLineMatches(Lines(p)[0], INTENDED_SPECIALS);
  }

  /** The rule as run is stricter than intended: every password it accepts
      the intended rule accepts too. */
  lemma {:induction false} CompiledRuleIsStricter(password: Option<string>)
    ensures PasswordErrors(password) == [] ==> IntendedPasswordErrors(password) == []
  {
    if !BlankValue(password) && StrengthMatches(password.value, COMPILED_SPECIALS) {
      var ls := Lines(password.value);
      var k :| 0 <= k < |ls| && StrengthLineMatches(ls[k], COMPILED_SPECIALS);
      var i :| 0 <= i < |ls[k]| && ls[k][i] in COMPILED_SPECIALS;
      assert ls[k][i] in INTENDED_SPECIALS;
      assert StrengthLineMatches(ls[k], INTENDED_SPECIALS);
    }
  }

  /** `Abcdef1#` is refused as the source runs, although the class and the
      message admit `#`; the intended rule accepts it. */
  lemma InterpolatedSpecialRefused()
    ensures PasswordErrors(Some("Abcdef1#")) == [Error(Password, PASSWORD_MESSAGE)]
    ensures IntendedPasswordErrors(Some("Abcdef1#")) == []
  {
    var p := "Abcdef1#";
    assert !IsWhiteSpace(p[0]);
    assert forall i :: 0 <= i < |p| ==> p[i] !in COMPILED_SPECIALS;
    PasswordAcceptedSingleLine(p);
    assert IsUpper(p[0]) && IsLower(p[1]) && IsDigit(p[6]);
    assert HasUpper(p) && HasLower(p) && HasDigit(p) && p[7] in INTENDED_SPECIALS;
    IntendedPasswordAcceptedSingleLine(p);
  }

  /** `Abcdef1!` is strong enough. */
  lemma StrongPasswordExample()
    ensures PasswordErrors(Some("Abcdef1!")) == []
  {
    var p := "Abcdef1!";
    assert IsUpper(p[0]) && IsLower(p[1]) && IsDigit(p[6]) && p[7] in COMPILED_SPECIALS;
    assert HasUpper(p) && HasLower(p) && HasDigit(p);
    PasswordAcceptedSingleLine(p);
  }

  /** `abcdefgh` is refused: it has no capital, digit or special character. */
  lemma WeakPasswordExample()
    ensures PasswordErrors(Some("abcdefgh")) == [Error(Password, PASSWORD_MESSAGE)]
  {
    var p := "abcdefgh";
    assert !IsWhiteSpace(p[0]);
    assert forall i :: 0 <= i < |p| ==> !IsUpper(p[i]);
    PasswordAcceptedSingleLine(p);
  }

  /** `[\w\s,.-]` */
  predicate IsAddressChar(c: char) {
    IsWordChar(c) || IsRegexSpace(c) || c == ',' || c == '.' || c == '-'
  }

  /** `/\A[\w\s,.-]+\z/` */
  predicate AddressCharsetMatches(s: string) {
    |s| > 0 && forall i :: 0 <= i < |s| ==> IsAddressChar(s[i])
  }

  /** The user address validations: presence, at most 400 characters, and
      the character set, each applied to the value (nil reads as ""). */
  function UserAddressErrors(address: Option<string>): (errs: seq<Error>)
    ensures forall e :: e in errs ==> e.field == Address
    ensures Error(Address, BLANK_MESSAGE) in errs <==> BlankValue(address)
    ensures Error(Address, TOO_LONG_400_MESSAGE) in errs <==> |ToS(address)| > MAX_ADDRESS_LENGTH
    ensures Error(Address, ADDRESS_CHARSET_MESSAGE) in errs <==> !AddressCharsetMatches(ToS(address))
    ensures errs == [] <==>
            address.Some? && !Blank(address.value) && |address.value| <= MAX_ADDRESS_LENGTH
            && forall i :: 0 <= i < |address.value| ==> IsAddressChar(address.value[i])
  {
    PresenceErrors(Address, address)
    + MaxLengthErrors(Address, address)
    + (if AddressCharsetMatches(ToS(address)) then [] else [Error(Address, ADDRESS_CHARSET_MESSAGE)])
  }

  /** The role a record keeps after `initialize_role`. */
  function InitialRole(role: Option<string>): (r: string)
    ensures role.None? ==> r == REGULAR_ROLE
    ensures role.Some? ==> r == role.value
  {
    if role.None? then REGULAR_ROLE else role.value
  }

  /** A user record as held in memory before it is saved. */
  class User {
    var name: Option<string>
    var email: Option<string>
    var address: Option<string>
    var password: Option<string>
    var role: Option<string>
    var active: bool

    constructor (name: Option<string>, email: Option<string>, address: Option<string>,
                 password: Option<string>, role: Option<string>, active: bool)
      ensures this.name == name && this.email == email && this.address == address
      ensures this.password == password && this.role == role && this.active == active
    {
      this.name := name;
      this.email := email;
      this.address := address;
      this.password := password;
      this.role := role;
      this.active := active;
    }

    /** `initialize_role`: a missing role becomes "regular"; a present role
        is kept; no other attribute changes. */
    method InitializeRole()
      modifies this`role
      ensures role == Some(InitialRole(old(role)))
    {
      if role.None? {
        role := Some(REGULAR_ROLE);
      }
    }

    /** All validations of a user, in declaration order: the name rule,
        email, address, password. `otherEmails` are the emails of the other
        saved users. The user is valid exactly when every rule passes. */
    function ValidationErrors(otherEmails: set<Option<string>>, emailFormat: string -> bool)
      : (errs: seq<Error>)
      reads this
      ensures forall e :: e in errs ==> e.field in {Name, Email, Address, Password}
      ensures errs == [] <==>
              (BlankValue(name)
               || (MIN_NAME_LENGTH <= |name.value| <= MAX_NAME_LENGTH && NameFormatMatches(name.value)))
              && !BlankValue(email) && !EmailTaken(email, otherEmails) && emailFormat(ToS(email))
              && address.Some? && !Blank(address.value) && |address.value| <= MAX_ADDRESS_LENGTH
              && (forall i :: 0 <= i < |address.value| ==> IsAddressChar(address.value[i]))
              && (BlankValue(password) || StrengthMatches(password.value, COMPILED_SPECIALS))
    {
      var n := NameErrors(name);
      var e := EmailErrors(email, otherEmails, emailFormat);
      var a := UserAddressErrors(address);
      var p := PasswordErrors(password);
      assert n + e + a + p == [] <==> n == [] && e == [] && a == [] && p == [];
      n + e + a + p
    }
  }

  // The scopes below, like `Ratings.RatingsFor` and `Ratings.ByValue`, are
  // one shape: a `where` filter that keeps the matching rows in table order,
  // built from the last row backwards. Each has a concatenation lemma that,
  // together with its membership clauses on a one-row table, fixes the
  // result row by row, so each matching row appears exactly once.

  /** Scope `by_role`: the users whose role equals `role`, in table order. */
  function ByRole(users: seq<User>, role: Option<string>): (r: seq<User>)
    reads users
    ensures |r| <= |users|
    ensures forall i :: 0 <= i < |r| ==> r[i] in users && r[i].role == role
    ensures forall i :: 0 <= i < |users| && users[i].role == role ==> users[i] in r
  {
    if users == [] then []
    else
      var last := users[|users| - 1];
      ByRole(users[..|users| - 1], role) + (if last.role == role then [last] else [])
  }

  /** Scope `active_users`: the users whose `active` flag is set, in table order. */
  function ActiveUsers(users: seq<User>): (r: seq<User>)
    reads users
    ensures |r| <= |users|
    ensures forall i :: 0 <= i < |r| ==> r[i] in users && r[i].active
    ensures forall i :: 0 <= i < |users| && users[i].active ==> users[i] in r
  {
    if users == [] then []
    else
      var last := users[|users| - 1];
      ActiveUsers(users[..|users| - 1]) + (if last.active then [last] else [])
  }

  /** `by_role` over two consecutive parts of the table is `by_role` over the
      first part, then over the second. */
  lemma {:induction false} ByRoleConcat(a: seq<User>, b: seq<User>, role: Option<string>)
    ensures ByRole(a + b, role) == ByRole(a, role) + ByRole(b, role)
  {
    if b == [] {
      assert a + b == a;
    } else {
      assert (a + b)[..|a + b| - 1] == a + b[..|b| - 1];
      ByRoleConcat(a, b[..|b| - 1], role);
    }
  }

  /** `active_users` over two consecutive parts of the table is
      `active_users` over the first part, then over the second. */
  lemma {:induction false} ActiveUsersConcat(a: seq<User>, b: seq<User>)
    ensures ActiveUsers(a + b) == ActiveUsers(a) + ActiveUsers(b)
  {
    if b == [] {
      assert a + b == a;
    } else {
      assert (a + b)[..|a + b| - 1] == a + b[..|b| - 1];
      ActiveUsersConcat(a, b[..|b| - 1]);
    }
  }
}

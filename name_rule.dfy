/** The shared name rule that users and stores both include: a name that is
    not blank must have 20 to 60 characters and must contain a letter and a
    digit. */
module NameRule {
  import opened Basics
  import opened Text

  const MIN_NAME_LENGTH := 20
  const MAX_NAME_LENGTH := 60
  const NAME_LENGTH_MESSAGE := "must be between 20 and 60 characters"
  const NAME_FORMAT_MESSAGE := "must contain both letters and numbers"

  /** What `(?=.*[a-zA-Z])(?=.*[0-9]).+` demands of the line it starts on. */
  predicate NameLineMatches(line: string) { HasLetter(line) && HasDigit(line) }

  /** `/^(?=.*[a-zA-Z])(?=.*[0-9]).+$/` matches somewhere in `s`: since `.`
      stops at a line feed and `^`/`$` are line anchors, some line of `s`
      holds both a letter and a digit. */
  predicate NameFormatMatches(s: string) {
    var ls := Lines(s);
    exists k :: 0 <= k < |ls| && NameLineMatches(ls[k])
  }

  /** The errors the name rule adds to a record. A blank name is exempt;
      otherwise the length error and the format error are decided
      independently, so both may be reported. */
  function NameErrors(name: Option<string>): (errs: seq<Error>)
    ensures |errs| <= 2
    ensures forall e :: e in errs ==> e.field == Name
    ensures BlankValue(name) ==> errs == []
    ensures errs == [] <==>
            BlankValue(name)
            || (MIN_NAME_LENGTH <= |name.value| <= MAX_NAME_LENGTH && NameFormatMatches(name.value))
    ensures !BlankValue(name) ==>
      (Error(Name, NAME_LENGTH_MESSAGE) in errs <==>
         |name.value| < MIN_NAME_LENGTH || |name.value| > MAX_NAME_LENGTH)
    ensures !BlankValue(name) ==>
      (Error(Name, NAME_FORMAT_MESSAGE) in errs <==> !NameFormatMatches(name.value))
  {
    if BlankValue(name) then []
    else
      var n := name.value;
      (if |n| < MIN_NAME_LENGTH || |n| > MAX_NAME_LENGTH then [Error(Name, NAME_LENGTH_MESSAGE)] else [])
      + (if NameFormatMatches(n) then [] else [Error(Name, NAME_FORMAT_MESSAGE)])
  }

  /** For a name on one line, the rule accepts exactly the names of 20 to 60
      characters that contain an ASCII letter and a digit. */
  lemma NameAcceptedSingleLine(n: string)
    requires '\n' !in n && !Blank(n)
    ensures NameErrors(Some(n)) == [] <==>
            MIN_NAME_LENGTH <= |n| <= MAX_NAME_LENGTH && HasLetter(n) && HasDigit(n)
  {
    SingleLine(n);
    assert NameFormatMatches(n) <==> NameLineMatches(Lines(n)[0]);
  }

  /** A name may be refused for its length and its format at once. */
  lemma BothNameErrors()
    ensures NameErrors(Some("shop")) == [Error(Name, NAME_LENGTH_MESSAGE), Error(Name, NAME_FORMAT_MESSAGE)]
  {
    var n := "shop";
    SingleLine(n);
    assert n[0] != ' ';
    assert !HasDigit(n);
  }

  /** A name on several lines passes the format check when one of its lines
      has a letter and a digit, even if no other line does. */
  lemma FormatCheckIsPerLine(first: string, second: string)
    requires '\n' !in first && '\n' !in second
    requires HasLetter(second) && HasDigit(second)
    ensures NameFormatMatches(first + ['\n'] + second)
  {
    LinesAfterLine(first, second);
    SingleLine(second);
    assert Lines(first + ['\n'] + second)[1] == second;
  }
}

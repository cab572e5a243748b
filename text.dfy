/** Character classes and line structure used by the models' regular
    expressions, and the framework's notion of a blank string. */
module Text {
  import opened Basics

  /** `[a-zA-Z]` */
  predicate IsAsciiLetter(c: char) { 'a' <= c <= 'z' || 'A' <= c <= 'Z' }

  /** `[A-Z]` */
  predicate IsUpper(c: char) { 'A' <= c <= 'Z' }

  /** `[a-z]` */
  predicate IsLower(c: char) { 'a' <= c <= 'z' }

  /** `[0-9]` */
  predicate IsDigit(c: char) { '0' <= c <= '9' }

  /** Ruby's `\w`: `[a-zA-Z0-9_]` (ASCII only). */
  predicate IsWordChar(c: char) { IsAsciiLetter(c) || IsDigit(c) || c == '_' }

  /** Ruby's `\s`: space, tab, line feed, vertical tab, form feed, carriage return. */
  predicate IsRegexSpace(c: char) { c == ' ' || 9 <= c as int <= 13 }

  /** `[[:space:]]` in a Unicode string: the White_Space characters. */
  predicate IsWhiteSpace(c: char) {
    var n := c as int;
    (9 <= n <= 13) || n == 0x20 || n == 0x85 || n == 0xA0 || n == 0x1680
    || (0x2000 <= n <= 0x200A) || n == 0x2028 || n == 0x2029
    || n == 0x202F || n == 0x205F || n == 0x3000
  }

  /** `String#blank?`: empty or made only of white space. */
  predicate Blank(s: string) { forall i :: 0 <= i < |s| ==> IsWhiteSpace(s[i]) }

  /** `blank?` on an attribute that may be nil (nil is blank). */
  predicate BlankValue(v: Option<string>) { v.None? || Blank(v.value) }

  /** `to_s` of an attribute that may be nil. */
  function ToS(v: Option<string>): string { if v.None? then "" else v.value }

  predicate HasLetter(s: string) { exists i :: 0 <= i < |s| && IsAsciiLetter(s[i]) }
  predicate HasUpper(s: string) { exists i :: 0 <= i < |s| && IsUpper(s[i]) }
  predicate HasLower(s: string) { exists i :: 0 <= i < |s| && IsLower(s[i]) }
  predicate HasDigit(s: string) { exists i :: 0 <= i < |s| && IsDigit(s[i]) }

  /** The ASCII-only lower-casing used for case-insensitive comparison. */
  function DowncaseChar(c: char): char {
    if IsUpper(c) then (c as int + 32) as char else c
  }

  function Downcase(s: string): (r: string)
    ensures |r| == |s|
    ensures forall i :: 0 <= i < |s| ==> r[i] == DowncaseChar(s[i])
  {
    seq(|s|, i requires 0 <= i < |s| => DowncaseChar(s[i]))
  }

  /** Downcasing twice is downcasing once. */
  lemma DowncaseIdempotent(s: string)
    ensures Downcase(Downcase(s)) == Downcase(s)
  {
    var d := Downcase(s);
    assert forall i :: 0 <= i < |d| ==> !IsUpper(d[i]);
  }

  /** `c` and `d` are the same character, or the same ASCII letter in the
      two cases: their codes then differ by exactly 32. */
  predicate SameIgnoringAsciiCase(c: char, d: char) {
    c == d
    || (IsAsciiLetter(c) && IsAsciiLetter(d)
        && (c as int - d as int == 32 || d as int - c as int == 32))
  }

  /** Two strings that differ at most in the case of ASCII letters. */
  predicate EqualIgnoringAsciiCase(a: string, b: string) {
    |a| == |b| && forall i :: 0 <= i < |a| ==> SameIgnoringAsciiCase(a[i], b[i])
  }

  /** Lower-casing identifies exactly the characters that differ in case. */
  lemma DowncaseCharSame(c: char, d: char)
    ensures DowncaseChar(c) == DowncaseChar(d) <==> SameIgnoringAsciiCase(c, d)
  {
  }

  /** Lower-casing identifies exactly the strings that differ in case. */
  lemma DowncaseEqual(a: string, b: string)
    ensures Downcase(a) == Downcase(b) <==> EqualIgnoringAsciiCase(a, b)
  {
    if |a| == |b| {
      forall i | 0 <= i < |a| {
        DowncaseCharSame(a[i], b[i]);
      }
      if EqualIgnoringAsciiCase(a, b) {
        assert forall i :: 0 <= i < |a| ==> Downcase(a)[i] == Downcase(b)[i];
      }
    }
  }

  /** Splits a string at every line feed: the lines that Ruby's `^` and `$`
      anchors delimit. A trailing line feed yields a final empty line. */
  function Lines(s: string): (ls: seq<string>)
    ensures |ls| >= 1
    ensures forall k :: 0 <= k < |ls| ==> '\n' !in ls[k]
  {
    if s == [] then [[]]
    else
      var rest := Lines(s[1..]);
      if s[0] == '\n' then [[]] + rest else [[s[0]] + rest[0]] + rest[1..]
  }

  /** Glues lines back together with line feeds; the inverse of `Lines`. */
  function Join(ls: seq<string>): string
    decreases |ls|
  {
    if |ls| == 0 then []
    else if |ls| == 1 then ls[0]
    else ls[0] + ['\n'] + Join(ls[1..])
  }

  /** Joining the lines of a string gives the string back. */
  lemma {:induction false} JoinLines(s: string)
    ensures Join(Lines(s)) == s
  {
    if s != [] {
      var rest := Lines(s[1..]);
      JoinLines(s[1..]);
      if s[0] == '\n' {
        assert Lines(s) == [[]] + rest;
        assert Join(Lines(s)) == [] + ['\n'] + Join(rest);
      } else {
        var ls := [[s[0]] + rest[0]] + rest[1..];
        assert Lines(s) == ls;
        if |rest| == 1 {
          assert Join(ls) == [s[0]] + rest[0];
        } else {
          assert ls[1..] == rest[1..];
          assert Join(ls) == [s[0]] + rest[0] + ['\n'] + Join(rest[1..]);
          assert Join(rest) == rest[0] + ['\n'] + Join(rest[1..]);
        }
      }
    }
  }

  /** A string without line feeds is a single line. */
  lemma {:induction false} SingleLine(s: string)
    requires '\n' !in s
    ensures Lines(s) == [s]
  {
    if s != [] {
      assert s[0] != '\n';
      SingleLine(s[1..]);
      assert [s[0]] + s[1..] == s;
    }
  }

  /** A line followed by a line feed contributes exactly that line. */
  lemma {:induction false} LinesAfterLine(line: string, rest: string)
    requires '\n' !in line
    ensures Lines(line + ['\n'] + rest) == [line] + Lines(rest)
  {
    if line == [] {
      assert line + ['\n'] + rest == ['\n'] + rest;
      assert (['\n'] + rest)[1..] == rest;
    } else {
      var s := line + ['\n'] + rest;
      assert s[0] == line[0] && s[0] != '\n';
      assert s[1..] == line[1..] + ['\n'] + rest;
      LinesAfterLine(line[1..], rest);
      assert [line[0]] + line[1..] == line;
    }
  }

  /** Splitting joined lines gives the lines back. */
  lemma {:induction false} LinesJoin(ls: seq<string>)
    requires |ls| >= 1
    requires forall k :: 0 <= k < |ls| ==> '\n' !in ls[k]
    ensures Lines(Join(ls)) == ls
  {
    if |ls| == 1 {
      SingleLine(ls[0]);
    } else {
      LinesJoin(ls[1..]);
      LinesAfterLine(ls[0], Join(ls[1..]));
      assert [ls[0]] + ls[1..] == ls;
    }
  }
}

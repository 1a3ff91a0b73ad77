/**
 * Login names and first passwords for new customers, and the whitespace
 * trimming the login check applies to both sides.
 *
 * `_generate_credentials(name)` derives the username from the customer's
 * name and the password from the name plus four random digits. The digits
 * come from the operating system's random source, so here they are a
 * parameter.
 */
module Credentials {
  import opened Wrappers
  import opened Records

  // ---------------------------------------------------------------------
  // Characters
  // ---------------------------------------------------------------------

  /** `[a-zA-Z0-9]`, the characters the username keeps. */
  predicate IsAsciiAlnum(c: char) {
    'a' <= c <= 'z' || 'A' <= c <= 'Z' || '0' <= c <= '9'
  }

  /** The characters a generated username is made of. */
  predicate IsLowerAlnum(c: char) {
    'a' <= c <= 'z' || '0' <= c <= '9'
  }

  predicate IsDigit(c: char) {
    '0' <= c <= '9'
  }

  /** Python's `str.isspace` for one character: the characters `str.strip()` removes. */
  predicate IsWhitespace(c: char) {
    || c == ' '
    || '\t' <= c <= '\r'
    || '\U{1C}' <= c <= '\U{1F}'
    || c == '\U{85}' || c == '\U{A0}' || c == '\U{1680}'
    || '\U{2000}' <= c <= '\U{200A}'
    || c == '\U{2028}' || c == '\U{2029}' || c == '\U{202F}' || c == '\U{205F}'
    || c == '\U{3000}'
  }

  /** `str.lower` on an ASCII letter or digit (the only characters a username still has). */
  function LowerAscii(c: char): (l: char)
    ensures IsAsciiAlnum(c) ==> IsLowerAlnum(l)
    ensures IsLowerAlnum(c) ==> l == c
    ensures 'A' <= c <= 'Z' ==> 'a' <= l <= 'z' && l as int - 'a' as int == c as int - 'A' as int
  {
    if 'A' <= c <= 'Z' then (c as int + 32) as char else c
  }

  // ---------------------------------------------------------------------
  // Username
  // ---------------------------------------------------------------------

  /** `re.sub(r'[^a-zA-Z0-9]', '', s)`: every character outside `[a-zA-Z0-9]` removed. */
  function KeepAlnum(s: string): (r: string)
    ensures |r| <= |s|
    ensures forall i :: 0 <= i < |r| ==> IsAsciiAlnum(r[i])
    ensures (forall i :: 0 <= i < |s| ==> IsAsciiAlnum(s[i])) ==> r == s
    ensures (forall i :: 0 <= i < |s| ==> !IsAsciiAlnum(s[i])) ==> r == []
  {
    if s == [] then []
    else if IsAsciiAlnum(s[0]) then [s[0]] + KeepAlnum(s[1..])
    else KeepAlnum(s[1..])
  }

  /** `str.lower` on a string of ASCII letters and digits. */
  function LowerAll(s: string): (r: string)
    ensures |r| == |s|
    ensures forall i :: 0 <= i < |s| ==> r[i] == LowerAscii(s[i])
  {
    if s == [] then [] else [LowerAscii(s[0])] + LowerAll(s[1..])
  }

  /** The generated username: the name with non-alphanumerics removed, then lower-cased. */
  function Username(name: string): (u: string)
    ensures |u| <= |name|
    ensures forall i :: 0 <= i < |u| ==> IsLowerAlnum(u[i])
  {
    LowerAll(KeepAlnum(name))
  }

  lemma {:induction false} KeepAlnumConcat(a: string, b: string)
    ensures KeepAlnum(a + b) == KeepAlnum(a) + KeepAlnum(b)
  {
    if a != [] {
      assert (a + b)[1..] == a[1..] + b;
      KeepAlnumConcat(a[1..], b);
    } else {
      assert a + b == b;
    }
  }

  /** The username of two alphanumeric words joined by a space is the two words lower-cased, run together. */
  lemma UsernameOfTwoWords(first: string, last: string)
    requires forall i :: 0 <= i < |first| ==> IsAsciiAlnum(first[i])
    requires forall i :: 0 <= i < |last| ==> IsAsciiAlnum(last[i])
    ensures Username(first + " " + last) == LowerAll(first + last)
  {
    var space := " ";
    assert !IsAsciiAlnum(space[0]);
    assert KeepAlnum(space) == [];
    KeepAlnumConcat(first, space);
    assert KeepAlnum(first + space) == first;
    KeepAlnumConcat(first + space, last);
    assert KeepAlnum(first + space + last) == first + last;
  }

  /** "Jane Doe" is the words "Jane" and "Doe" joined by a space. */
  lemma JaneDoeWords()
    ensures "Jane" + " " + "Doe" == "Jane Doe"
    ensures "Jane" + "Doe" == "JaneDoe"
  {
  }

  /** Lower-casing "JaneDoe" lowers its two capitals. */
  lemma LowerJaneDoe()
    ensures LowerAll("JaneDoe") == "janedoe"
  {
  }

  /** The username generated for "Jane Doe": the space dropped and the capitals lowered. */
  lemma JaneDoeUsername()
    ensures Username("Jane Doe") == "janedoe"
  {
    UsernameOfTwoWords("Jane", "Doe");
    JaneDoeWords();
    LowerJaneDoe();
  }

  /** A username computed from an already well-formed username is that username. */
  lemma UsernameOfLowerAlnum(s: string)
    requires forall i :: 0 <= i < |s| ==> IsLowerAlnum(s[i])
    ensures Username(s) == s
  {
    assert KeepAlnum(s) == s;
  }

  /** Generating a username is idempotent. */
  lemma UsernameIdempotent(name: string)
    ensures Username(Username(name)) == Username(name)
  {
    UsernameOfLowerAlnum(Username(name));
  }

  /** The username of a concatenation is the concatenation of the usernames. */
  lemma UsernameConcat(a: string, b: string)
    ensures Username(a + b) == Username(a) + Username(b)
  {
    KeepAlnumConcat(a, b);
  }

  // ---------------------------------------------------------------------
  // Password
  // ---------------------------------------------------------------------

  /** The number of `' '` characters in `s`. */
  function SpaceCount(s: string): (n: nat)
    ensures n <= |s|
    ensures n == multiset(s)[' ']
  {
    if s == [] then 0
    else
      assert s == [s[0]] + s[1..];
      (if s[0] == ' ' then 1 else 0) + SpaceCount(s[1..])
  }

  /** `s.replace(' ', '')`: only the plain space is removed, not tabs or other whitespace. */
  function WithoutSpaces(s: string): (r: string)
    ensures |r| == |s| - SpaceCount(s)
    ensures forall i :: 0 <= i < |r| ==> r[i] != ' '
    ensures forall i :: 0 <= i < |r| ==> r[i] in s
    ensures (forall i :: 0 <= i < |s| ==> s[i] != ' ') ==> r == s
    ensures (forall i :: 0 <= i < |s| ==> s[i] == ' ') ==> r == []
  {
    if s == [] then []
    else if s[0] == ' ' then WithoutSpaces(s[1..])
    else [s[0]] + WithoutSpaces(s[1..])
  }

  /** Removing spaces distributes over concatenation, so the other characters keep their order. */
  lemma {:induction false} WithoutSpacesConcat(a: string, b: string)
    ensures WithoutSpaces(a + b) == WithoutSpaces(a) + WithoutSpaces(b)
  {
    if a != [] {
      assert (a + b)[1..] == a[1..] + b;
      WithoutSpacesConcat(a[1..], b);
    } else {
      assert a + b == b;
    }
  }

  /** What `''.join(secrets.choice(string.digits) for _ in range(4))` can produce. */
  predicate IsFourDigits(d: string) {
    |d| == 4 && forall i :: 0 <= i < 4 ==> IsDigit(d[i])
  }

  /** The generated password: the name without spaces, then the four digits. */
  function Password(name: string, digits: string): (p: string)
    requires IsFourDigits(digits)
    ensures |p| == |name| - SpaceCount(name) + 4
    ensures forall i :: 0 <= i < |p| ==> p[i] != ' '
    ensures forall i :: |p| - 4 <= i < |p| ==> IsDigit(p[i])
  {
    WithoutSpaces(name) + digits
  }

  /**
   * `_generate_credentials(name)`, with the four random digits passed in.
   * The username holds only lower-case letters and digits; the password is
   * the name without its spaces followed by the digits.
   */
  function GenerateCredentials(name: string, digits: string): (creds: (string, string))
    requires IsFourDigits(digits)
    ensures forall i :: 0 <= i < |creds.0| ==> IsLowerAlnum(creds.0[i])
    ensures |creds.1| == |name| - SpaceCount(name) + 4
    ensures creds.1[..|creds.1| - 4] == WithoutSpaces(name)
    ensures creds.1[|creds.1| - 4..] == digits
    ensures forall i :: 0 <= i < |creds.1| ==> creds.1[i] != ' '
  {
    (Username(name), Password(name, digits))
  }

  // ---------------------------------------------------------------------
  // Credentials as the source calls them
  // ---------------------------------------------------------------------

  /**
   * `_generate_credentials` as written, applied to the positional arguments
   * `args`: a call without exactly one argument raises `TypeError`; a call
   * with the name raises `NameError` on its first line, since the module
   * never imports `re`. The random digits are never reached, so they are
   * not a parameter.
   */
  function GenerateCredentialsAsWritten(args: seq<string>): (r: Result<(string, string), PythonError>)
    ensures r.Failure?
    ensures |args| != 1 ==> r == Failure(TypeError)
  {
    if |args| != 1 then Failure(TypeError) else Failure(NameError)
  }

  /** `add_customer` calls `_generate_credentials()` with no argument, so every call of it raises. */
  lemma AddCustomerCallRaises(name: string)
    ensures GenerateCredentialsAsWritten([]) == Failure(TypeError)
    ensures GenerateCredentialsAsWritten([name]).Failure?
  {
  }

  // ---------------------------------------------------------------------
  // Python's str.strip()
  // ---------------------------------------------------------------------

  /** The number of whitespace characters at the start of `s`. */
  function LeadingWhitespace(s: string): (k: nat)
    ensures k <= |s|
    ensures forall i :: 0 <= i < k ==> IsWhitespace(s[i])
    ensures k < |s| ==> !IsWhitespace(s[k])
  {
    if s == [] || !IsWhitespace(s[0]) then 0 else 1 + LeadingWhitespace(s[1..])
  }

  /** The number of whitespace characters at the end of `s`. */
  function TrailingWhitespace(s: string): (k: nat)
    ensures k <= |s|
    ensures forall i :: |s| - k <= i < |s| ==> IsWhitespace(s[i])
    ensures k < |s| ==> !IsWhitespace(s[|s| - 1 - k])
  {
    if s == [] || !IsWhitespace(s[|s| - 1]) then 0 else 1 + TrailingWhitespace(s[..|s| - 1])
  }

  /**
   * `s.strip()`: the result is the part of `s` after its leading whitespace
   * with only whitespace after it, and it neither starts nor ends with
   * whitespace.
   */
  function Strip(s: string): (r: string)
    ensures r == [] || (!IsWhitespace(r[0]) && !IsWhitespace(r[|r| - 1]))
    ensures LeadingWhitespace(s) + |r| <= |s|
    ensures r == s[LeadingWhitespace(s)..LeadingWhitespace(s) + |r|]
    ensures forall i :: LeadingWhitespace(s) + |r| <= i < |s| ==> IsWhitespace(s[i])
  {
    var k := LeadingWhitespace(s);
    var t := s[k..];
    var m := TrailingWhitespace(t);
    assert forall i :: k + (|t| - m) <= i < |s| ==> s[i] == t[i - k];
    t[..|t| - m]
  }

  /** A string with no whitespace at either end strips to itself. */
  lemma StripTrimmed(s: string)
    requires s == [] || (!IsWhitespace(s[0]) && !IsWhitespace(s[|s| - 1]))
    ensures Strip(s) == s
  {
  }

  /** Stripping twice is stripping once. */
  lemma StripIdempotent(s: string)
    ensures Strip(Strip(s)) == Strip(s)
  {
    StripTrimmed(Strip(s));
  }

  /**
   * A name without whitespace other than plain spaces yields credentials
   * that `strip()` leaves alone, so they can be typed back at the login.
   */
  lemma GeneratedCredentialsAreTrimmed(name: string, digits: string)
    requires IsFourDigits(digits)
    requires forall i :: 0 <= i < |name| ==> name[i] == ' ' || !IsWhitespace(name[i])
    ensures Strip(Username(name)) == Username(name)
    ensures Strip(Password(name, digits)) == Password(name, digits)
  {
    var u := Username(name);
    assert u == [] || (!IsWhitespace(u[0]) && !IsWhitespace(u[|u| - 1]));
    StripTrimmed(u);
    var p := Password(name, digits);
    var w := WithoutSpaces(name);
    assert p[|p| - 1] == digits[3];
    if |w| > 0 {
      assert p[0] == w[0];
      assert w[0] in name;
    } else {
      assert p[0] == digits[0];
    }
    StripTrimmed(p);
  }
}

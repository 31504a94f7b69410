/** The two validators attached to the username field: a character-class
    pattern and a case-insensitive ban on one reserved name. */
module Validators {
  import opened Text

  /** `\w` restricted to ASCII: a letter, a digit or the underscore. */
  predicate IsWordChar(c: char) {
    IsUpperAscii(c) || IsLowerAscii(c) || IsDigit(c) || c == '_'
  }

  /** The class `[\w.@+-]`. */
  predicate IsUsernameChar(c: char) {
    IsWordChar(c) || c == '.' || c == '@' || c == '+' || c == '-'
  }

  /** What `^[\w.@+-]+\Z` accepts: one or more characters of the class and
      nothing after them, not even a trailing newline. */
  predicate UsernameFormatOk(value: string) {
    |value| > 0 && forall i :: 0 <= i < |value| ==> IsUsernameChar(value[i])
  }

  /** `regex_validator`: scans the value once, stopping at the first
      character outside the class. */
  method MatchUsernamePattern(value: string) returns (ok: bool)
    ensures ok <==> UsernameFormatOk(value)
    ensures ok ==> '\n' !in value
  {
    if |value| == 0 {
      return false;
    }
    var k := 0;
    while k < |value|
      invariant 0 <= k <= |value|
      invariant forall i :: 0 <= i < k ==> IsUsernameChar(value[i])
    {
      if !IsUsernameChar(value[k]) {
        return false;
      }
      k := k + 1;
    }
    return true;
  }

  /** The empty string and any value ending in a newline fail the pattern. */
  lemma PatternRejectsEmptyAndNewline(value: string)
    ensures !UsernameFormatOk("")
    ensures !UsernameFormatOk(value + "\n")
  {
    assert (value + "\n")[|value|] == '\n';
  }

  /** Two strings that agree letter by letter once both are lower-cased:
      the reference for a case-insensitive comparison. */
  predicate EqualIgnoringCase(a: string, b: string) {
    |a| == |b| && forall i :: 0 <= i < |a| ==> LowerChar(a[i]) == LowerChar(b[i])
  }

  /** `prohibited_username_validator`: the value is refused when its lower
      case equals the reserved name. */
  predicate IsProhibited(value: string, prohibited: string) {
    ToLower(value) == prohibited
  }

  /** For a lower-case reserved name the ban is exactly a case-insensitive
      comparison. */
  lemma ProhibitedIffEqualIgnoringCase(value: string, prohibited: string)
    requires IsLowerCase(prohibited)
    ensures IsProhibited(value, prohibited) <==> EqualIgnoringCase(value, prohibited)
  {
    LowerUpperRoundTrip(prohibited);
    if EqualIgnoringCase(value, prohibited) {
      assert forall i :: 0 <= i < |value| ==> ToLower(value)[i] == prohibited[i];
    }
    if IsProhibited(value, prohibited) {
      forall i | 0 <= i < |value|
        ensures LowerChar(value[i]) == LowerChar(prohibited[i])
      {
        assert ToLower(value)[i] == LowerChar(value[i]);
      }
    }
  }

  /** Every casing of a lower-case reserved name is refused, the all
      upper-case one included. */
  lemma AnyCasingIsProhibited(value: string, prohibited: string)
    requires IsLowerCase(prohibited)
    requires |value| == |prohibited|
    requires forall i :: 0 <= i < |value| ==> value[i] == prohibited[i] || value[i] == UpperChar(prohibited[i])
    ensures IsProhibited(value, prohibited)
    ensures IsProhibited(ToUpper(prohibited), prohibited)
  {
    LowerUpperRoundTrip(prohibited);
    assert forall i :: 0 <= i < |value| ==> ToLower(value)[i] == prohibited[i];
  }

  /** A reserved name holding an upper-case letter can never match, since
      the compared value is lower-cased first. */
  lemma UpperCaseNameBansNothing(value: string, prohibited: string)
    requires !IsLowerCase(prohibited)
    ensures !IsProhibited(value, prohibited)
  {
    assert IsLowerCase(ToLower(value));
  }

  /** A failed username check. */
  datatype UsernameError = BadFormat | ProhibitedName

  /** The field runs every validator and reports each failure. */
  function UsernameErrors(value: string, prohibited: string): (r: set<UsernameError>)
    ensures BadFormat in r <==> !UsernameFormatOk(value)
    ensures ProhibitedName in r <==> IsProhibited(value, prohibited)
  {
    (if UsernameFormatOk(value) then {} else {BadFormat})
    + (if IsProhibited(value, prohibited) then {ProhibitedName} else {})
  }
}

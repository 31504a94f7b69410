/** Strings as the backend manipulates them: case folding, substring search,
    decimal rendering of integers, joining and splitting lines, and the
    ordinal order used to sort by name. */
module Text {

  predicate IsUpperAscii(c: char) {
    'A' <= c <= 'Z'
  }

  predicate IsLowerAscii(c: char) {
    'a' <= c <= 'z'
  }

  function LowerChar(c: char): char {
    if IsUpperAscii(c) then (c as int + 32) as char else c
  }

  function UpperChar(c: char): char {
    if IsLowerAscii(c) then (c as int - 32) as char else c
  }

  /** `str.lower()` restricted to the ASCII letters. */
  function ToLower(s: string): string {
    seq(|s|, i requires 0 <= i < |s| => LowerChar(s[i]))
  }

  /** `str.upper()` restricted to the ASCII letters. */
  function ToUpper(s: string): string {
    seq(|s|, i requires 0 <= i < |s| => UpperChar(s[i]))
  }

  /** A string that lower-casing leaves unchanged. */
  predicate IsLowerCase(s: string) {
    forall i :: 0 <= i < |s| ==> !IsUpperAscii(s[i])
  }

  /** Lower-casing undoes upper-casing on a string that has no upper-case
      letters, and lower-casing is idempotent. */
  lemma LowerUpperRoundTrip(s: string)
    requires IsLowerCase(s)
    ensures ToLower(ToUpper(s)) == s
    ensures ToLower(ToLower(s)) == ToLower(s)
  {
  }

  /** Python's `str.isspace` on one character: the C0 separators, the space,
      NEL, the no-break space and the Unicode space separators. */
  predicate IsSpace(c: char) {
    || '\t' <= c <= '\r'
    || '\U{1C}' <= c <= ' '
    || c == '\U{85}' || c == '\U{A0}' || c == '\U{1680}'
    || '\U{2000}' <= c <= '\U{200A}'
    || c == '\U{2028}' || c == '\U{2029}' || c == '\U{202F}' || c == '\U{205F}' || c == '\U{3000}'
  }

  predicate AllSpace(s: string) {
    forall i :: 0 <= i < |s| ==> IsSpace(s[i])
  }

  /** Neither end of `s` is whitespace. */
  predicate Unpadded(s: string) {
    |s| == 0 || (!IsSpace(s[0]) && !IsSpace(s[|s| - 1]))
  }

  /** Python's `str.lstrip()`: the longest whitespace prefix removed. */
  function TrimStart(s: string): (r: string)
    ensures |r| <= |s|
    ensures |r| > 0 ==> !IsSpace(r[0])
  {
    if |s| > 0 && IsSpace(s[0]) then TrimStart(s[1..]) else s
  }

  /** Python's `str.rstrip()`: the longest whitespace suffix removed. */
  function TrimEnd(s: string): (r: string)
    ensures |r| <= |s|
    ensures |r| > 0 ==> r[0] == s[0] && !IsSpace(r[|r| - 1])
  {
    if |s| > 0 && IsSpace(s[|s| - 1]) then TrimEnd(s[..|s| - 1]) else s
  }

  /** `TrimStart` drops a whitespace prefix and keeps the rest. */
  lemma {:induction false} TrimStartShape(s: string)
    ensures TrimStart(s) == s[|s| - |TrimStart(s)|..]
    ensures AllSpace(s[..|s| - |TrimStart(s)|])
  {
    if |s| > 0 && IsSpace(s[0]) {
      TrimStartShape(s[1..]);
      var n := |s| - |TrimStart(s)|;
      assert s[1..][..n - 1] == s[1..n];
      assert s[1..][n - 1..] == s[n..];
    }
  }

  /** `TrimEnd` keeps a prefix and drops a whitespace suffix. */
  lemma {:induction false} TrimEndShape(s: string)
    ensures TrimEnd(s) == s[..|TrimEnd(s)|]
    ensures AllSpace(s[|TrimEnd(s)|..])
  {
    if |s| > 0 && IsSpace(s[|s| - 1]) {
      TrimEndShape(s[..|s| - 1]);
      var n := |TrimEnd(s)|;
      assert s[..|s| - 1][..n] == s[..n];
      assert s[..|s| - 1][n..] == s[n..|s| - 1];
    }
  }

  /** Python's `str.strip()`, which both the serializer's and the form's
      character fields apply to their input. */
  function Strip(s: string): (r: string)
    ensures Unpadded(r)
  {
    TrimEnd(TrimStart(s))
  }

  /** Stripping keeps every non-whitespace character. */
  lemma StripKeepsText(s: string)
    ensures forall c :: c in s && !IsSpace(c) ==> c in Strip(s)
  {
    forall c | c in s && !IsSpace(c)
      ensures c in Strip(s)
    {
      var i :| 0 <= i < |s| && s[i] == c;
      TrimStartKeeps(s, i);
      TrimEndKeeps(TrimStart(s), i - (|s| - |TrimStart(s)|));
    }
  }

  /** Stripping introduces no character. */
  lemma StripAddsNothing(s: string)
    ensures forall c :: c in Strip(s) ==> c in s
  {
    var t := TrimStart(s);
    var r := TrimEnd(t);
    TrimStartShape(s);
    TrimEndShape(t);
    forall c | c in r
      ensures c in s
    {
      var k :| 0 <= k < |r| && r[k] == c;
      assert t[k] == c;
      assert s[k + (|s| - |t|)] == c;
    }
  }

  /** A non-whitespace character survives `TrimStart`, shifted left. */
  lemma TrimStartKeeps(s: string, i: int)
    requires 0 <= i < |s| && !IsSpace(s[i])
    ensures |s| - |TrimStart(s)| <= i
    ensures TrimStart(s)[i - (|s| - |TrimStart(s)|)] == s[i]
  {
    TrimStartShape(s);
    var n := |s| - |TrimStart(s)|;
    assert forall k :: 0 <= k < n ==> s[..n][k] == s[k];
  }

  /** A non-whitespace character survives `TrimEnd` in place. */
  lemma TrimEndKeeps(t: string, j: int)
    requires 0 <= j < |t| && !IsSpace(t[j])
    ensures j < |TrimEnd(t)| && TrimEnd(t)[j] == t[j]
  {
    TrimEndShape(t);
    var n := |TrimEnd(t)|;
    assert forall k :: n <= k < |t| ==> t[n..][k - n] == t[k];
  }

  /** `Strip` removes exactly the surrounding whitespace: a value padded on
      both sides with whitespace strips to its unpadded core. */
  lemma StripPadding(left: string, core: string, right: string)
    requires AllSpace(left) && AllSpace(right) && Unpadded(core)
    ensures Strip(left + core + right) == core
  {
    assert left + core + right == left + (core + right);
    if |core| > 0 {
      TrimStartPadding(left, core + right, true);
      TrimEndPadding(core, right);
    } else {
      assert core + right == right;
      TrimStartPadding(left, right, false);
    }
  }

  lemma {:induction false} TrimStartPadding(left: string, rest: string, nonBlank: bool)
    requires AllSpace(left)
    requires nonBlank ==> |rest| > 0 && !IsSpace(rest[0])
    requires !nonBlank ==> AllSpace(rest)
    ensures TrimStart(left + rest) == (if nonBlank then rest else [])
    decreases |left| + |rest|
  {
    var s := left + rest;
    if |left| > 0 {
      assert s[1..] == left[1..] + rest;
      TrimStartPadding(left[1..], rest, nonBlank);
    } else if !nonBlank && |rest| > 0 {
      assert s[1..] == [] + rest[1..];
      TrimStartPadding([], rest[1..], false);
    }
  }

  lemma {:induction false} TrimEndPadding(core: string, right: string)
    requires AllSpace(right) && Unpadded(core)
    requires |core| > 0
    ensures TrimEnd(core + right) == core
    decreases |right|
  {
    var s := core + right;
    if |right| > 0 {
      assert s[..|s| - 1] == core + right[..|right| - 1];
      TrimEndPadding(core, right[..|right| - 1]);
    } else {
      assert s == core;
    }
  }

  /** A value strips to the empty string exactly when it is all whitespace. */
  lemma StripBlank(s: string)
    ensures Strip(s) == [] <==> AllSpace(s)
  {
    if !AllSpace(s) {
      var i :| 0 <= i < |s| && !IsSpace(s[i]);
      assert s[i] in s;
      StripKeepsText(s);
    } else {
      assert s == s + [] + [];
      StripPadding(s, [], []);
    }
  }

  /** Stripping twice strips no more than stripping once, and an unpadded
      value is left as it is. */
  lemma StripIdempotent(s: string)
    ensures Unpadded(s) ==> Strip(s) == s
    ensures Strip(Strip(s)) == Strip(s)
  {
    assert Strip(s) == [] + Strip(s) + [];
    StripPadding([], Strip(s), []);
    if Unpadded(s) {
      assert s == [] + s + [];
      StripPadding([], s, []);
    }
  }

  /** Upper-casing and stripping commute: case mapping never turns a
      character into whitespace or whitespace into anything else. */
  lemma StripToUpper(s: string)
    ensures Strip(ToUpper(s)) == ToUpper(Strip(s))
  {
    TrimStartToUpper(s);
    TrimEndToUpper(TrimStart(s));
  }

  /** Upper-casing neither creates nor removes whitespace. */
  lemma UpperCharKeepsSpace(c: char)
    ensures IsSpace(UpperChar(c)) == IsSpace(c)
  {
  }

  lemma {:induction false} TrimStartToUpper(s: string)
    ensures TrimStart(ToUpper(s)) == ToUpper(TrimStart(s))
  {
    if |s| > 0 {
      UpperCharKeepsSpace(s[0]);
      assert ToUpper(s)[1..] == ToUpper(s[1..]);
      if IsSpace(s[0]) {
        TrimStartToUpper(s[1..]);
      }
    }
  }

  lemma {:induction false} TrimEndToUpper(s: string)
    ensures TrimEnd(ToUpper(s)) == ToUpper(TrimEnd(s))
  {
    if |s| > 0 {
      UpperCharKeepsSpace(s[|s| - 1]);
      assert ToUpper(s)[..|s| - 1] == ToUpper(s[..|s| - 1]);
      if IsSpace(s[|s| - 1]) {
        TrimEndToUpper(s[..|s| - 1]);
      }
    }
  }

  predicate IsPrefix(p: string, s: string) {
    |p| <= |s| && s[..|p|] == p
  }

  /** Substring search, as SQL `LIKE '%needle%'`. */
  function Contains(hay: string, needle: string): bool
    decreases |hay|
  {
    IsPrefix(needle, hay) || (|hay| > 0 && Contains(hay[1..], needle))
  }

  /** `needle` occurs in `hay` starting at position `i`. */
  predicate OccursAt(hay: string, needle: string, i: int) {
    0 <= i <= |hay| - |needle| && hay[i..i + |needle|] == needle
  }

  /** The recursive search finds `needle` exactly when it occurs at some
      position of `hay`. */
  lemma ContainsIffOccurs(hay: string, needle: string)
    ensures Contains(hay, needle) <==> exists i :: OccursAt(hay, needle, i)
  {
    if Contains(hay, needle) {
      FoundOccurs(hay, needle);
    }
    forall i | OccursAt(hay, needle, i)
      ensures Contains(hay, needle)
    {
      OccursFound(hay, needle, i);
    }
  }

  /** What the search finds occurs somewhere. */
  lemma {:induction false} FoundOccurs(hay: string, needle: string)
    requires Contains(hay, needle)
    ensures exists i :: OccursAt(hay, needle, i)
    decreases |hay|
  {
    if IsPrefix(needle, hay) {
      assert OccursAt(hay, needle, 0);
    } else {
      FoundOccurs(hay[1..], needle);
      var i :| OccursAt(hay[1..], needle, i);
      assert hay[1..][i..i + |needle|] == hay[i + 1..i + 1 + |needle|];
      assert OccursAt(hay, needle, i + 1);
    }
  }

  /** Whatever occurs is found by the search. */
  lemma {:induction false} OccursFound(hay: string, needle: string, i: int)
    requires OccursAt(hay, needle, i)
    ensures Contains(hay, needle)
    decreases i
  {
    if i > 0 {
      assert hay[1..][i - 1..i - 1 + |needle|] == hay[i..i + |needle|];
      OccursFound(hay[1..], needle, i - 1);
    } else {
      assert IsPrefix(needle, hay);
    }
  }

  predicate IsDigit(c: char) {
    '0' <= c <= '9'
  }

  predicate AllDigits(s: string) {
    forall i :: 0 <= i < |s| ==> IsDigit(s[i])
  }

  function DigitChar(d: nat): char
    requires d < 10
  {
    ('0' as int + d) as char
  }

  /** The decimal numeral of `n`, without leading zeros. */
  function NatToString(n: nat): (r: string)
    ensures |r| >= 1 && AllDigits(r)
    ensures r[0] == '0' <==> n == 0
  {
    if n < 10 then [DigitChar(n)]
    else NatToString(n / 10) + [DigitChar(n % 10)]
  }

  /** Python's `str(i)` for an integer. */
  function IntToString(i: int): (r: string)
    ensures |r| >= 1
  {
    if i < 0 then "-" + NatToString(-i) else NatToString(i)
  }

  /** Python's `sep.join(xs)`. */
  function Join(xs: seq<string>, sep: char): string {
    if |xs| == 0 then ""
    else if |xs| == 1 then xs[0]
    else xs[0] + [sep] + Join(xs[1..], sep)
  }

  /** The position of the first `c` in `s`. */
  function IndexOf(s: string, c: char): (r: nat)
    requires c in s
    ensures r < |s| && s[r] == c && c !in s[..r]
  {
    if s[0] == c then 0 else 1 + IndexOf(s[1..], c)
  }

  /** Python's `s.split(sep)`: the pieces between separators, so that the
      empty string yields one empty piece. */
  function Split(s: string, sep: char): (r: seq<string>)
    ensures |r| >= 1
    decreases |s|
  {
    if sep !in s then [s]
    else
      var i := IndexOf(s, sep);
      [s[..i]] + Split(s[i + 1..], sep)
  }

  lemma IndexOfAfterPrefix(a: string, b: string, sep: char)
    requires sep !in a
    ensures sep in a + [sep] + b
    ensures IndexOf(a + [sep] + b, sep) == |a|
  {
    var s := a + [sep] + b;
    assert s[|a|] == sep;
    assert s[..|a|] == a;
  }

  /** Splitting the joined lines at the separator gives back the lines,
      provided no line contains the separator. */
  lemma {:induction false} SplitJoin(xs: seq<string>, sep: char)
    requires |xs| >= 1
    requires forall k :: 0 <= k < |xs| ==> sep !in xs[k]
    ensures Split(Join(xs, sep), sep) == xs
  {
    if |xs| == 1 {
    } else {
      var rest := Join(xs[1..], sep);
      var s := xs[0] + [sep] + rest;
      IndexOfAfterPrefix(xs[0], rest, sep);
      assert s[..|xs[0]|] == xs[0];
      assert s[|xs[0]| + 1..] == rest;
      SplitJoin(xs[1..], sep);
    }
  }

  /** `a` sorts before or with `b` when strings are compared by code point,
      the ordinal order a `ORDER BY name` yields under a binary collation. */
  predicate StrLe(a: string, b: string) {
    |a| == 0 || (|b| > 0 && (a[0] < b[0] || (a[0] == b[0] && StrLe(a[1..], b[1..]))))
  }

  lemma {:induction false} StrLeTotal(a: string, b: string)
    ensures StrLe(a, b) || StrLe(b, a)
  {
    if |a| > 0 && |b| > 0 && a[0] == b[0] {
      StrLeTotal(a[1..], b[1..]);
    }
  }

  lemma {:induction false} StrLeTransitive(a: string, b: string, c: string)
    requires StrLe(a, b) && StrLe(b, c)
    ensures StrLe(a, c)
  {
    if |a| > 0 && a[0] == b[0] && b[0] == c[0] {
      StrLeTransitive(a[1..], b[1..], c[1..]);
    }
  }
}

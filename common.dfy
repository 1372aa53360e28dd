/** Shared vocabulary of the clinic model: optional values, time values,
    and the string predicates behind the entity validation annotations. */
module Common {

  datatype Option<+T> = None | Some(value: T)

  /** A value or the exception that a service call throws instead. */
  datatype Result<+T, +E> = Ok(value: T) | Err(error: E)

  /** A `LocalDate`, as a day number. */
  type Date = int

  /** A `LocalDateTime`, as an instant number (only its order matters). */
  type DateTime = int

  /** A `LocalTime` at minute precision: minutes since midnight. */
  type Time = m: int | 0 <= m < 1440

  /** Amounts of money (`BigDecimal` with scale 2) in minor units (kuruş). */
  type Money = int

  /** The characters `String.trim` strips: every code point up to U+0020. */
  predicate IsWhitespace(c: char)
  {
    c <= ' '
  }

  /** `@NotBlank`: something is left after `trim()`, that is, at least one
      character above U+0020. */
  predicate NotBlank(s: string)
  {
    exists i :: 0 <= i < |s| && !IsWhitespace(s[i])
  }

  /** `String.trim` without its trailing part: leading characters up to U+0020 dropped. */
  function TrimStart(s: string): (r: string)
    ensures |r| <= |s| && r == s[|s| - |r|..]
    ensures r == [] || !IsWhitespace(r[0])
    decreases |s|
  {
    if s != [] && IsWhitespace(s[0]) then TrimStart(s[1..]) else s
  }

  /** Trailing characters up to U+0020 dropped. */
  function TrimEnd(s: string): (r: string)
    ensures |r| <= |s| && r == s[..|r|]
    ensures r == [] || !IsWhitespace(r[|r| - 1])
    decreases |s|
  {
    if s != [] && IsWhitespace(s[|s| - 1]) then TrimEnd(s[..|s| - 1]) else s
  }

  /** `String.trim`. */
  function Trim(s: string): string
  {
    TrimEnd(TrimStart(s))
  }

  /** `@NotBlank` is Hibernate's check `trim().length() > 0`: a string is not
      blank exactly when trimming leaves something. */
  lemma {:induction false} NotBlankIffTrimmed(s: string)
    ensures NotBlank(s) <==> Trim(s) != []
  {
    TrimStartBlank(s);
    TrimEndBlank(TrimStart(s));
  }

  lemma {:induction false} TrimStartBlank(s: string)
    ensures NotBlank(s) <==> TrimStart(s) != []
    decreases |s|
  {
    if s != [] && IsWhitespace(s[0]) {
      TrimStartBlank(s[1..]);
      if NotBlank(s) {
        var i :| 0 <= i < |s| && !IsWhitespace(s[i]);
        assert s[1..][i - 1] == s[i];
      }
      if NotBlank(s[1..]) {
        var i :| 0 <= i < |s[1..]| && !IsWhitespace(s[1..][i]);
        assert s[i + 1] == s[1..][i];
      }
    } else if s != [] {
      assert !IsWhitespace(s[0]);
    }
  }

  lemma {:induction false} TrimEndBlank(s: string)
    ensures NotBlank(s) <==> TrimEnd(s) != []
    decreases |s|
  {
    if s != [] && IsWhitespace(s[|s| - 1]) {
      var t := s[..|s| - 1];
      TrimEndBlank(t);
      if NotBlank(s) {
        var i :| 0 <= i < |s| && !IsWhitespace(s[i]);
        assert t[i] == s[i];
      }
      if NotBlank(t) {
        var i :| 0 <= i < |t| && !IsWhitespace(t[i]);
        assert s[i] == t[i];
      }
    } else if s != [] {
      assert !IsWhitespace(s[|s| - 1]);
    }
  }

  /** Whether Java stores the character as a surrogate pair: it lies beyond U+FFFF. */
  predicate IsSupplementary(c: char)
  {
    c as int >= 0x1_0000
  }

  /** `String.length()`: the number of UTF-16 code units, two for every
      character beyond U+FFFF and one for the rest. */
  function Utf16Length(s: string): (n: nat)
    ensures |s| <= n <= 2 * |s|
  {
    if s == [] then 0
    else (if IsSupplementary(s[0]) then 2 else 1) + Utf16Length(s[1..])
  }

  /** Without characters beyond U+FFFF the UTF-16 length is the character count. */
  lemma {:induction false} Utf16LengthBasic(s: string)
    requires forall i :: 0 <= i < |s| ==> !IsSupplementary(s[i])
    ensures Utf16Length(s) == |s|
  {
    if s != [] {
      assert forall i :: 0 <= i < |s[1..]| ==> s[1..][i] == s[i + 1];
      Utf16LengthBasic(s[1..]);
    }
  }

  /** With only characters beyond U+FFFF the UTF-16 length is twice the character count. */
  lemma {:induction false} Utf16LengthSupplementary(s: string)
    requires forall i :: 0 <= i < |s| ==> IsSupplementary(s[i])
    ensures Utf16Length(s) == 2 * |s|
  {
    if s != [] {
      assert forall i :: 0 <= i < |s[1..]| ==> s[1..][i] == s[i + 1];
      Utf16LengthSupplementary(s[1..]);
    }
  }

  /** UTF-16 length adds up over concatenation. */
  lemma {:induction false} Utf16LengthAppend(a: string, b: string)
    ensures Utf16Length(a + b) == Utf16Length(a) + Utf16Length(b)
  {
    if a == [] {
      assert a + b == b;
    } else {
      assert (a + b)[0] == a[0];
      assert (a + b)[1..] == a[1..] + b;
      Utf16LengthAppend(a[1..], b);
    }
  }

  /** The regular-expression class `\d` (ASCII digits). */
  predicate IsDigit(c: char)
  {
    '0' <= c <= '9'
  }

  predicate AllDigits(s: string)
  {
    forall i :: 0 <= i < |s| ==> IsDigit(s[i])
  }

  /** `@Pattern(regexp = "\\d{lo,hi}")`: the whole string is lo to hi digits. */
  predicate DigitsBetween(s: string, lo: nat, hi: nat)
  {
    lo <= |s| <= hi && AllDigits(s)
  }

  /** `sub` occurs in `s` as a contiguous piece (JavaScript `includes`). */
  predicate Contains(s: string, sub: string)
  {
    exists i :: 0 <= i <= |s| && sub <= s[i..]
  }

  /** `ad + " " + soyad`, the full-name helpers of the entities. */
  function JoinName(first: string, last: string): string
  {
    first + " " + last
  }

  /** Position of the first space, or |s| when there is none. */
  function FirstSpace(s: string): (k: nat)
    ensures k <= |s|
    ensures k < |s| ==> s[k] == ' '
    ensures forall j :: 0 <= j < k ==> s[j] != ' '
  {
    if s == [] then 0
    else if s[0] == ' ' then 0
    else 1 + FirstSpace(s[1..])
  }

  /** A full name splits back into its parts when the first name has no space. */
  lemma JoinNameSplits(first: string, last: string)
    requires forall j :: 0 <= j < |first| ==> first[j] != ' '
    ensures var full := JoinName(first, last);
            var k := FirstSpace(full);
            k == |first| && full[..k] == first && full[k + 1..] == last
  {
    var full := JoinName(first, last);
    assert full[|first|] == ' ';
    forall j | 0 <= j < |first| ensures full[j] != ' ' {
      assert full[j] == first[j];
    }
    assert full[..|first|] == first;
    assert full[|first| + 1..] == last;
  }
}

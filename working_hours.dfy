/** Working hours as the appointment service reads them: a doctor's
    `calismaSaatleri` of the form "HH:MM-HH:MM", split at '-' and parsed
    with `LocalTime.parse`; anything it cannot read allows every time. */
module WorkingHours {
  import opened Common

  /** `String.split` on a single separator character, before Java drops
      trailing empty strings (which changes no outcome below: an empty part
      fails to parse, just as a missing one is out of bounds). */
  function SplitOn(s: string, sep: char): (parts: seq<string>)
    ensures |parts| >= 1
  {
    if s == [] then [""]
    else
      var rest := SplitOn(s[1..], sep);
      if s[0] == sep then [""] + rest
      else [[s[0]] + rest[0]] + rest[1..]
  }

  /** The pieces joined back with the separator between them. */
  function JoinWith(parts: seq<string>, sep: char): string
    requires |parts| >= 1
  {
    if |parts| == 1 then parts[0] else parts[0] + [sep] + JoinWith(parts[1..], sep)
  }

  /** Splitting loses nothing: no piece holds the separator, and joining the
      pieces with it restores the string. */
  lemma {:induction false} SplitOnJoins(s: string, sep: char)
    ensures JoinWith(SplitOn(s, sep), sep) == s
    ensures forall k, i :: 0 <= k < |SplitOn(s, sep)| && 0 <= i < |SplitOn(s, sep)[k]| ==> SplitOn(s, sep)[k][i] != sep
  {
    if s != [] {
      var rest := SplitOn(s[1..], sep);
      SplitOnJoins(s[1..], sep);
      if s[0] == sep {
        assert SplitOn(s, sep) == [""] + rest;
        assert ([""] + rest)[1..] == rest;
        assert s == [sep] + s[1..];
      } else {
        var parts := [[s[0]] + rest[0]] + rest[1..];
        assert SplitOn(s, sep) == parts;
        assert parts[1..] == rest[1..];
        if |rest| > 1 {
          assert JoinWith(rest, sep) == rest[0] + [sep] + JoinWith(rest[1..], sep);
        }
        assert s == [s[0]] + s[1..];
        forall k, i | 0 <= k < |parts| && 0 <= i < |parts[k]| ensures parts[k][i] != sep {
          if k == 0 && i > 0 {
            assert parts[0][i] == rest[0][i - 1];
          } else if k > 0 {
            assert parts[k] == rest[k];
          }
        }
      }
    }
  }

  /** A string without the separator is one part. */
  lemma {:induction false} SplitOnNone(s: string, sep: char)
    requires forall i :: 0 <= i < |s| ==> s[i] != sep
    ensures SplitOn(s, sep) == [s]
  {
    if s != [] {
      SplitOnNone(s[1..], sep);
      assert [s[0]] + s[1..] == s;
    }
  }

  /** The first separator ends the first part. */
  lemma {:induction false} SplitOnFirst(a: string, b: string, sep: char)
    requires forall i :: 0 <= i < |a| ==> a[i] != sep
    ensures SplitOn(a + [sep] + b, sep) == [a] + SplitOn(b, sep)
  {
    if a == [] {
      assert a + [sep] + b == [sep] + b;
      assert ([sep] + b)[1..] == b;
    } else {
      SplitOnFirst(a[1..], b, sep);
      assert (a + [sep] + b)[1..] == a[1..] + [sep] + b;
      assert [a[0]] + a[1..] == a;
    }
  }

  function DigitValue(c: char): int
  {
    c as int - '0' as int
  }

  function DigitChar(d: int): char
    requires 0 <= d < 10
  {
    ('0' as int + d) as char
  }

  /** `LocalTime.parse` on the "HH:MM" form; any other text is a parse failure. */
  function ParseTime(s: string): (r: Option<Time>)
    ensures r.Some? ==> |s| == 5 && s[2] == ':'
  {
    if |s| == 5 && IsDigit(s[0]) && IsDigit(s[1]) && s[2] == ':' && IsDigit(s[3]) && IsDigit(s[4]) then
      var h := DigitValue(s[0]) * 10 + DigitValue(s[1]);
      var m := DigitValue(s[3]) * 10 + DigitValue(s[4]);
      if h < 24 && m < 60 then Some(h * 60 + m) else None
    else None
  }

  /** The "HH:MM" text of a time. */
  function FormatTime(t: Time): (s: string)
    ensures |s| == 5 && forall i :: 0 <= i < |s| ==> s[i] != '-'
  {
    var h := t / 60;
    var m := t % 60;
    [DigitChar(h / 10), DigitChar(h % 10), ':', DigitChar(m / 10), DigitChar(m % 10)]
  }

  /** Parsing reads back every formatted time. */
  lemma ParseFormat(t: Time)
    ensures ParseTime(FormatTime(t)) == Some(t)
  {
    var s := FormatTime(t);
    var h := t / 60;
    var m := t % 60;
    assert DigitValue(s[0]) * 10 + DigitValue(s[1]) == h;
    assert DigitValue(s[3]) * 10 + DigitValue(s[4]) == m;
  }

  /** `isWithinWorkingHours`: no hours, empty hours, a missing bound or a
      bound that does not parse allow the time; otherwise both bounds are
      inclusive. */
  function IsWithinWorkingHours(hours: Option<string>, t: Time): (b: bool)
    ensures hours.None? || hours == Some("") ==> b
  {
    match hours
    case None => true
    case Some(h) =>
      if h == "" then true
      else
        var parts := SplitOn(h, '-');
        if |parts| < 2 then true
        else match (ParseTime(parts[0]), ParseTime(parts[1]))
          case (Some(start), Some(end)) => start <= t <= end
          case _ => true
  }

  /** For hours written "HH:MM-HH:MM", a time is allowed exactly when it lies
      between the two bounds, both included. */
  lemma WorkingHoursWindow(start: Time, end: Time, t: Time)
    ensures IsWithinWorkingHours(Some(FormatTime(start) + "-" + FormatTime(end)), t) <==> start <= t <= end
  {
    var a := FormatTime(start);
    var b := FormatTime(end);
    SplitOnFirst(a, b, '-');
    SplitOnNone(b, '-');
    ParseFormat(start);
    ParseFormat(end);
    assert a + "-" + b == a + ['-'] + b;
  }

  /** Hours text with a '-' whose first or second piece does not parse as a
      time ("9:00-17:00", "09:00-") falls into the catch and allows every time. */
  lemma UnreadableBoundAllowsAll(h: string, t: Time)
    requires |SplitOn(h, '-')| >= 2
    requires ParseTime(SplitOn(h, '-')[0]).None? || ParseTime(SplitOn(h, '-')[1]).None?
    ensures IsWithinWorkingHours(Some(h), t)
  {
  }

  /** Hours text without a '-' cannot be read and allows every time. */
  lemma NoSeparatorAllowsAll(h: string, t: Time)
    requires forall i :: 0 <= i < |h| ==> h[i] != '-'
    ensures IsWithinWorkingHours(Some(h), t)
  {
    SplitOnNone(h, '-');
  }
}

/**
 * The `m:ss` clock text: whole minutes, a colon, then the remaining seconds
 * padded on the left with '0' to two digits.
 */
module TimeDisplay {
  import opened Optional

  predicate IsDigit(c: char) {
    '0' <= c <= '9'
  }

  predicate AllDigits(s: string) {
    forall k :: 0 <= k < |s| ==> IsDigit(s[k])
  }

  function DigitChar(d: nat): (c: char)
    requires d < 10
    ensures IsDigit(c) && (c as int) - ('0' as int) == d
  {
    (('0' as int) + d) as char
  }

  /** The decimal value of a string of digits. */
  function DigitsValue(s: string): (r: nat)
    requires AllDigits(s)
  {
    if |s| == 0 then 0
    else DigitsValue(s[..|s| - 1]) * 10 + ((s[|s| - 1] as int) - ('0' as int))
  }

  /** `n.toString()` for a non-negative integer: its decimal digits, no leading zero. */
  function NatToString(n: nat): (r: string)
    ensures 1 <= |r|
    ensures |r| == 1 <==> n < 10
    ensures r[0] == '0' ==> n == 0
    decreases n
  {
    if n < 10 then [DigitChar(n)] else NatToString(n / 10) + [DigitChar(n % 10)]
  }

  /** The decimal text is made of digits and reads back as the number. */
  lemma {:induction false} NatToStringValue(n: nat)
    ensures AllDigits(NatToString(n))
    ensures DigitsValue(NatToString(n)) == n
    decreases n
  {
    if n >= 10 {
      var r := NatToString(n);
      NatToStringValue(n / 10);
      assert r[..|r| - 1] == NatToString(n / 10);
    }
  }

  /** `s.padStart(width, fill)` for a one-character `fill`: `fill` repeated on the left up to `width` characters. */
  function PadStart(s: string, width: nat, fill: char): (r: string)
    ensures |r| == if |s| < width then width else |s|
  {
    if |s| < width then seq(width - |s|, _ => fill) + s else s
  }

  /** The padded text ends with the original text and begins with nothing but the fill character. */
  lemma PadStartContents(s: string, width: nat, fill: char)
    ensures var r := PadStart(s, width, fill);
      r[|r| - |s|..] == s && forall k :: 0 <= k < |r| - |s| ==> r[k] == fill
  {
  }

  /** Text of the form `<digits>:<two digits>`. */
  predicate ClockShaped(t: string) {
    4 <= |t| && t[|t| - 3] == ':' && AllDigits(t[..|t| - 3]) && AllDigits(t[|t| - 2..])
  }

  /** The clock text for an elapsed number of seconds. */
  function FormatTime(seconds: nat): (r: string)
    ensures 4 <= |r| && r[|r| - 3] == ':'
  {
    NatToString(seconds / 60) + ":" + PadStart(NatToString(seconds % 60), 2, '0')
  }

  /** Reads `m:ss` clock text back into seconds; `None` if it is not of that form. */
  function ParseTime(t: string): (r: Option<nat>)
    ensures r.Some? ==> ClockShaped(t)
  {
    if ClockShaped(t) && DigitsValue(t[|t| - 2..]) < 60
    then Some(DigitsValue(t[..|t| - 3]) * 60 + DigitsValue(t[|t| - 2..]))
    else None
  }

  /** The two-digit field of the clock holds the seconds below one minute. */
  lemma SecondsFieldValue(secs: nat)
    requires secs < 60
    ensures |PadStart(NatToString(secs), 2, '0')| == 2
    ensures AllDigits(PadStart(NatToString(secs), 2, '0'))
    ensures DigitsValue(PadStart(NatToString(secs), 2, '0')) == secs
  {
    var p := PadStart(NatToString(secs), 2, '0');
    NatToStringValue(secs);
    if secs < 10 {
      assert p == ['0', DigitChar(secs)];
      assert p[..1] == ['0'];
    } else {
      assert p == NatToString(secs);
    }
  }

  /** Clock text built from a digit string and a two-digit field below 60 reads back as minutes and seconds. */
  lemma ParseClock(m: string, p: string, mins: nat, secs: nat)
    requires 1 <= |m| && AllDigits(m) && DigitsValue(m) == mins
    requires |p| == 2 && AllDigits(p) && DigitsValue(p) == secs && secs < 60
    ensures ParseTime(m + ":" + p) == Some(mins * 60 + secs)
  {
    var t := m + ":" + p;
    assert t[..|t| - 3] == m && t[|t| - 2..] == p && t[|t| - 3] == ':';
    assert ClockShaped(t);
  }

  /** The text for `mins` minutes and `secs` seconds reads back as `mins * 60 + secs`. */
  lemma ParseFields(mins: nat, secs: nat)
    requires secs < 60
    ensures ParseTime(NatToString(mins) + ":" + PadStart(NatToString(secs), 2, '0')) == Some(mins * 60 + secs)
  {
    var m, p := NatToString(mins), PadStart(NatToString(secs), 2, '0');
    assert AllDigits(m) && DigitsValue(m) == mins by {
      NatToStringValue(mins);
    }
    assert |p| == 2 && AllDigits(p) && DigitsValue(p) == secs by {
      SecondsFieldValue(secs);
    }
    ParseClock(m, p, mins, secs);
  }

  /** The clock text loses nothing: it reads back to the elapsed seconds. */
  lemma FormatTimeRoundTrip(seconds: nat)
    ensures ParseTime(FormatTime(seconds)) == Some(seconds)
  {
    var mins, secs := seconds / 60, seconds % 60;
    assert FormatTime(seconds) == NatToString(mins) + ":" + PadStart(NatToString(secs), 2, '0');
    ParseFields(mins, secs);
  }
}

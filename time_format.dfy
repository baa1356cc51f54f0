/** The countdown label of the Hyperlocal Swarm screen: whole minutes, a colon, and
    the remaining seconds as exactly two digits (`M:SS`). */
module TimeFormat {
  import opened Base
  import opened Decimal

  /** `formatTime(seconds)` for a whole, non-negative number of seconds:
      `Math.floor(seconds / 60)` minutes and `seconds % 60` seconds. */
  function FormatTime(seconds: nat): (r: string) {
    Label(seconds / 60, seconds % 60)
  }

  /** `${mins}:${secs.toString().padStart(2, '0')}`. */
  function Label(mins: nat, secs: nat): (r: string) {
    NatToString(mins) + ":" + PadStart(NatToString(secs), 2, '0')
  }

  /** The label is a numeral, a colon, then two digits, and it starts with `0` exactly
      when less than a minute is left. */
  lemma FormatTimeShape(seconds: nat)
    ensures var r := FormatTime(seconds);
      && |r| >= 4 && r[|r| - 3] == ':'
      && AllDigits(r[..|r| - 3]) && IsDigit(r[|r| - 2]) && IsDigit(r[|r| - 1])
      && (r[0] == '0') == (seconds < 60)
  {
    MinutesAndSeconds(seconds);
    LabelShape(seconds / 60, seconds % 60);
  }

  /** `Math.floor(seconds / 60)` and `seconds % 60`: the remainder is below 60 and the
      minutes are zero exactly below one minute. */
  lemma MinutesAndSeconds(seconds: nat)
    ensures seconds % 60 < 60 && (seconds / 60 == 0) == (seconds < 60)
    ensures (seconds / 60) * 60 + seconds % 60 == seconds
  {
  }

  /** The shape of a label with a seconds value below 60. */
  lemma LabelShape(mins: nat, secs: nat)
    requires secs < 60
    ensures var r := Label(mins, secs);
      && |r| >= 4 && r[|r| - 3] == ':'
      && AllDigits(r[..|r| - 3]) && IsDigit(r[|r| - 2]) && IsDigit(r[|r| - 1])
      && (r[0] == '0') == (mins == 0)
  {
    SecondsField(secs);
    NatToStringShape(mins);
    ShapeOf(NatToString(mins), PadStart(NatToString(secs), 2, '0'), mins);
  }

  /** The shape of `m + ":" + f` for a numeral `m` of `mins` and a two-digit `f`. */
  lemma ShapeOf(m: string, f: string, mins: nat)
    requires |m| >= 1 && AllDigits(m) && (m[0] == '0') == (mins == 0)
    requires |f| == 2 && AllDigits(f)
    ensures var r := m + ":" + f;
      && |r| >= 4 && r[|r| - 3] == ':'
      && AllDigits(r[..|r| - 3]) && IsDigit(r[|r| - 2]) && IsDigit(r[|r| - 1])
      && (r[0] == '0') == (mins == 0)
  {
    LabelParts(m, f);
  }

  /** The seconds field: `k.toString().padStart(2, '0')` for `k < 60` is two digits
      that read back as `k`. */
  lemma SecondsField(k: nat)
    requires k < 60
    ensures var f := PadStart(NatToString(k), 2, '0');
      |f| == 2 && AllDigits(f) && DigitsValue(f) == k
  {
    if k < 10 {
      OneDigitField(k);
    } else {
      TwoDigitField(k);
    }
  }

  /** A single digit is padded with one `0`. */
  lemma OneDigitField(k: nat)
    requires k < 10
    ensures var f := PadStart(NatToString(k), 2, '0');
      |f| == 2 && AllDigits(f) && DigitsValue(f) == k
  {
    var f := PadStart(NatToString(k), 2, '0');
    assert f == ['0', DigitChar(k)];
    assert f[..1] == ['0'];
    assert DigitsValue(['0']) == 0;
  }

  /** Two digits are left as they are. */
  lemma TwoDigitField(k: nat)
    requires 10 <= k < 60
    ensures var f := PadStart(NatToString(k), 2, '0');
      |f| == 2 && AllDigits(f) && DigitsValue(f) == k
  {
    TwoDigitNumeral(k);
    NatToStringRoundTrip(k);
  }

  /** Index of the first occurrence of `c` in `s`, if any. */
  function IndexOf(s: string, c: char): (r: Option<nat>)
    ensures r.Some? ==> r.value < |s| && s[r.value] == c && forall j :: 0 <= j < r.value ==> s[j] != c
    ensures r.None? ==> forall j :: 0 <= j < |s| ==> s[j] != c
  {
    if s == [] then None
    else if s[0] == c then Some(0)
    else match IndexOf(s[1..], c)
      case None => None
      case Some(i) => Some(i + 1)
  }

  /** Reading an `M:SS` label back into seconds: a non-empty run of digits before the
      first colon, exactly two digits after it, and those two below 60. */
  function ParseTime(t: string): (r: Option<nat>) {
    match IndexOf(t, ':')
    case None => None
    case Some(i) =>
      var mins := ParseDecimal(t[..i]);
      var secs := ParseDecimal(t[i + 1..]);
      if mins.Some? && |t| == i + 3 && secs.Some? && secs.value < 60
      then Some(mins.value * 60 + secs.value)
      else None
  }

  /** The two fields of the label: the minutes read back as `seconds / 60` and the
      two-digit seconds field reads back as `seconds % 60`, a value in 0..59. */
  lemma FormatTimeFields(seconds: nat)
    ensures var r := FormatTime(seconds);
      && ParseDecimal(r[..|r| - 3]) == Some(seconds / 60)
      && ParseDecimal(r[|r| - 2..]) == Some(seconds % 60)
      && seconds % 60 < 60
  {
    MinutesAndSeconds(seconds);
    LabelFields(seconds / 60, seconds % 60);
  }

  /** The fields of a label, read back, and its colon, which is the first. */
  lemma LabelFields(mins: nat, secs: nat)
    requires secs < 60
    ensures var r := Label(mins, secs);
      && |r| >= 4 && r[|r| - 3] == ':'
      && (forall j :: 0 <= j < |r| - 3 ==> r[j] != ':')
      && ParseDecimal(r[..|r| - 3]) == Some(mins)
      && ParseDecimal(r[|r| - 2..]) == Some(secs)
  {
    SecondsField(secs);
    NatToStringRoundTrip(mins);
    FieldsOf(NatToString(mins), PadStart(NatToString(secs), 2, '0'), mins, secs);
  }

  /** The fields of `m + ":" + f` for a numeral `m` of `mins` and a two-digit `f`
      of `secs`. */
  lemma FieldsOf(m: string, f: string, mins: nat, secs: nat)
    requires ParseDecimal(m) == Some(mins)
    requires |f| == 2 && AllDigits(f) && DigitsValue(f) == secs
    ensures var r := m + ":" + f;
      && |r| >= 4 && r[|r| - 3] == ':'
      && (forall j :: 0 <= j < |r| - 3 ==> r[j] != ':')
      && ParseDecimal(r[..|r| - 3]) == Some(mins)
      && ParseDecimal(r[|r| - 2..]) == Some(secs)
  {
    LabelParts(m, f);
  }

  /** The parts of `m + ":" + f` for a two-character `f` and a digit string `m`. */
  lemma LabelParts(m: string, f: string)
    requires |m| >= 1 && AllDigits(m) && |f| == 2 && AllDigits(f)
    ensures var r := m + ":" + f;
      && |r| >= 4 && r[|r| - 3] == ':' && r[0] == m[0]
      && r[..|r| - 3] == m && r[|r| - 2..] == f
      && r[|r| - 2] == f[0] && r[|r| - 1] == f[1]
      && forall j :: 0 <= j < |r| - 3 ==> r[j] != ':'
  {
    var r := m + ":" + f;
    assert r[..|r| - 3] == m;
    assert r[|r| - 2..] == f;
    forall j | 0 <= j < |r| - 3 ensures r[j] != ':' {
      assert r[j] == m[j];
    }
  }

  /** A label whose colon is its first and comes three characters from the end and
      whose two fields read as `mins` and `secs < 60`, parses as `mins * 60 + secs`. */
  lemma ParseLabel(r: string, mins: nat, secs: nat)
    requires |r| >= 4 && r[|r| - 3] == ':' && forall j :: 0 <= j < |r| - 3 ==> r[j] != ':'
    requires ParseDecimal(r[..|r| - 3]) == Some(mins) && ParseDecimal(r[|r| - 2..]) == Some(secs)
    requires secs < 60
    ensures ParseTime(r) == Some(mins * 60 + secs)
  {
    assert IndexOf(r, ':') == Some(|r| - 3);
    assert r[|r| - 3 + 1..] == r[|r| - 2..];
  }

  /** `formatTime` loses nothing: parsing its label gives the seconds back. */
  lemma FormatTimeRoundTrip(seconds: nat)
    ensures ParseTime(FormatTime(seconds)) == Some(seconds)
  {
    MinutesAndSeconds(seconds);
    LabelRoundTrip(seconds / 60, seconds % 60);
  }

  /** A label with a seconds value below 60 parses as `mins * 60 + secs`. */
  lemma LabelRoundTrip(mins: nat, secs: nat)
    requires secs < 60
    ensures ParseTime(Label(mins, secs)) == Some(mins * 60 + secs)
  {
    LabelFields(mins, secs);
    ParseLabel(Label(mins, secs), mins, secs);
  }

  /** Distinct times get distinct labels. */
  lemma FormatTimeInjective(a: nat, b: nat)
    requires FormatTime(a) == FormatTime(b)
    ensures a == b
  {
    FormatTimeRoundTrip(a);
    FormatTimeRoundTrip(b);
  }

  /** The labels around the first minute boundary. */
  lemma FormatTimeMinuteExamples()
    ensures FormatTime(0) == "0:00"
    ensures FormatTime(59) == "0:59"
    ensures FormatTime(60) == "1:00"
  {
    LabelOf(0, 0, 0, "0", "00");
    LabelOf(59, 0, 59, "0", "59");
    LabelOf(60, 1, 0, "1", "00");
  }

  /** A padded seconds field, the label of a full session (30 * 60 seconds) and of a
      value just above it. */
  lemma FormatTimeSessionExamples()
    ensures FormatTime(65) == "1:05"
    ensures FormatTime(1800) == "30:00"
    ensures FormatTime(1829) == "30:29"
  {
    LabelOf(65, 1, 5, "1", "05");
    LabelOf(1800, 30, 0, "30", "00");
    LabelOf(1829, 30, 29, "30", "29");
  }

  /** One label, from its two fields. */
  lemma LabelOf(seconds: nat, mins: nat, secs: nat, m: string, ss: string)
    requires mins == seconds / 60 && secs == seconds % 60
    requires NatToString(mins) == m && PadStart(NatToString(secs), 2, '0') == ss
    ensures FormatTime(seconds) == m + ":" + ss
  {
    MinutesAndSeconds(seconds);
  }
}

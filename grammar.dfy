/**
 * The request grammar `^thread_id@(\d+),publish_date@(\d{4}-\d{2}-\d{2}T\d{2}:\d{2})$`
 * (main.py:34), the `int()` conversion of the first group and the `strptime` conversion of
 * the second with format `%Y-%m-%dT%H:%M` (main.py:35, main.py:48-49).
 * Digits are the ASCII digits and `$` means the end of the text.
 */
module Grammar {
  import opened Wrappers
  import opened Timestamps

  predicate IsDigit(c: char) {
    '0' <= c <= '9'
  }

  predicate AllDigits(s: string) {
    forall i :: 0 <= i < |s| ==> IsDigit(s[i])
  }

  function DigitValue(c: char): nat
    requires IsDigit(c)
  {
    c as int - '0' as int
  }

  function DigitChar(d: nat): (c: char)
    requires d < 10
    ensures IsDigit(c) && DigitValue(c) == d
  {
    ('0' as int + d) as char
  }

  function Pow10(n: nat): (p: nat)
    ensures p >= 1
  {
    if n == 0 then 1 else 10 * Pow10(n - 1)
  }

  /** `int(s)` for a run of ASCII digits; leading zeros are allowed and no bound applies within a message's length. */
  function DecimalValue(s: string): nat
    requires AllDigits(s)
  {
    if s == [] then 0 else DecimalValue(s[..|s| - 1]) * 10 + DigitValue(s[|s| - 1])
  }

  /** The shortest decimal spelling of `n`. */
  function DecimalDigits(n: nat): (s: string)
    ensures |s| > 0 && AllDigits(s)
  {
    if n < 10 then [DigitChar(n)] else DecimalDigits(n / 10) + [DigitChar(n % 10)]
  }

  /** Every thread id is the value of some digit group: `int` is onto the naturals. */
  lemma {:induction false} DecimalRoundTrip(n: nat)
    ensures DecimalValue(DecimalDigits(n)) == n
  {
    if n >= 10 {
      DecimalRoundTrip(n / 10);
      var s := DecimalDigits(n / 10) + [DigitChar(n % 10)];
      assert s[..|s| - 1] == DecimalDigits(n / 10);
    }
  }

  /** `n` written with exactly `width` digits, zero-padded on the left (the low digits are kept). */
  function Padded(n: nat, width: nat): (s: string)
    ensures |s| == width && AllDigits(s)
  {
    if width == 0 then [] else Padded(n / 10, width - 1) + [DigitChar(n % 10)]
  }

  lemma {:induction false} PaddedRoundTrip(n: nat, width: nat)
    requires n < Pow10(width)
    ensures DecimalValue(Padded(n, width)) == n
  {
    if width > 0 {
      assert n / 10 < Pow10(width - 1);
      PaddedRoundTrip(n / 10, width - 1);
      var s := Padded(n, width);
      assert s[..|s| - 1] == Padded(n / 10, width - 1);
    }
  }

  /** A digit run of width `w` holds a value below 10^w and is that value padded to width `w`. */
  lemma {:induction false} DigitsArePadded(s: string)
    requires AllDigits(s)
    ensures DecimalValue(s) < Pow10(|s|)
    ensures Padded(DecimalValue(s), |s|) == s
  {
    if s != [] {
      var init := s[..|s| - 1];
      DigitsArePadded(init);
      var v := DecimalValue(s);
      assert v / 10 == DecimalValue(init) && v % 10 == DigitValue(s[|s| - 1]);
      assert s == init + [s[|s| - 1]];
    }
  }

  /** The shape `\d{4}-\d{2}-\d{2}T\d{2}:\d{2}` of the second group. */
  predicate IsStampShape(s: string) {
    && |s| == 16
    && AllDigits(s[0..4]) && s[4] == '-'
    && AllDigits(s[5..7]) && s[7] == '-'
    && AllDigits(s[8..10]) && s[10] == 'T'
    && AllDigits(s[11..13]) && s[13] == ':'
    && AllDigits(s[14..16])
  }

  /** The five numeric fields of a stamp, before any range check. */
  function StampFields(s: string): Timestamp
    requires IsStampShape(s)
  {
    Timestamp(DecimalValue(s[0..4]), DecimalValue(s[5..7]), DecimalValue(s[8..10]),
              DecimalValue(s[11..13]), DecimalValue(s[14..16]))
  }

  /**
   * `datetime.strptime(s, '%Y-%m-%dT%H:%M')` on a string of the right shape: it raises
   * (here `None`) unless the fields name a minute that exists in the calendar.
   */
  function ParseStamp(s: string): (r: Option<Timestamp>)
    requires IsStampShape(s)
    ensures r.Some? ==> IsCalendarValid(r.value)
  {
    var t := StampFields(s);
    if IsCalendarValid(t) then Some(t) else None
  }

  /** `t.strftime('%Y-%m-%dT%H:%M')` for a year below 10000. */
  function FormatStamp(t: Timestamp): string {
    Padded(t.year, 4) + "-" + Padded(t.month, 2) + "-" + Padded(t.day, 2) + "T"
      + Padded(t.hour, 2) + ":" + Padded(t.minute, 2)
  }

  lemma FormatStampSlices(t: Timestamp)
    ensures var s := FormatStamp(t);
      && |s| == 16
      && s[0..4] == Padded(t.year, 4) && s[4] == '-'
      && s[5..7] == Padded(t.month, 2) && s[7] == '-'
      && s[8..10] == Padded(t.day, 2) && s[10] == 'T'
      && s[11..13] == Padded(t.hour, 2) && s[13] == ':'
      && s[14..16] == Padded(t.minute, 2)
  {
  }

  /** Formatting fields that fit their widths gives a stamp whose fields read back unchanged. */
  lemma FormatStampFields(t: Timestamp)
    requires t.year < 10000 && t.month < 100 && t.day < 100 && t.hour < 100 && t.minute < 100
    ensures IsStampShape(FormatStamp(t))
    ensures StampFields(FormatStamp(t)) == t
  {
    FormatStampSlices(t);
    PaddedRoundTrip(t.year, 4);
    PaddedRoundTrip(t.month, 2);
    PaddedRoundTrip(t.day, 2);
    PaddedRoundTrip(t.hour, 2);
    PaddedRoundTrip(t.minute, 2);
  }

  /** Every minute the calendar has is written by exactly one stamp, and strptime reads it back. */
  lemma StampRoundTrip(t: Timestamp)
    requires IsCalendarValid(t)
    ensures IsStampShape(FormatStamp(t))
    ensures ParseStamp(FormatStamp(t)) == Some(t)
  {
    FormatStampFields(t);
  }

  /** A stamp strptime accepts is the canonical spelling of what it reads. */
  lemma StampCanonical(s: string)
    requires IsStampShape(s) && ParseStamp(s).Some?
    ensures FormatStamp(ParseStamp(s).value) == s
  {
    var t := ParseStamp(s).value;
    FormatStampSlices(t);
    DigitsArePadded(s[0..4]);
    DigitsArePadded(s[5..7]);
    DigitsArePadded(s[8..10]);
    DigitsArePadded(s[11..13]);
    DigitsArePadded(s[14..16]);
    var f := FormatStamp(t);
    assert forall i :: 0 <= i < 16 ==> f[i] == s[i] by {
      forall i | 0 <= i < 16 ensures f[i] == s[i] {
        if i < 4 { assert f[i] == f[0..4][i] && s[i] == s[0..4][i]; }
        else if 5 <= i < 7 { assert f[i] == f[5..7][i - 5] && s[i] == s[5..7][i - 5]; }
        else if 8 <= i < 10 { assert f[i] == f[8..10][i - 8] && s[i] == s[8..10][i - 8]; }
        else if 11 <= i < 13 { assert f[i] == f[11..13][i - 11] && s[i] == s[11..13][i - 11]; }
        else if 14 <= i { assert f[i] == f[14..16][i - 14] && s[i] == s[14..16][i - 14]; }
      }
    }
  }

  const Prefix: string := "thread_id@"
  const Separator: string := ",publish_date@"

  /** The two capture groups of a match: the thread id digits and the date-time text. */
  datatype Groups = Groups(digits: string, stamp: string)

  predicate WellFormed(g: Groups) {
    |g.digits| > 0 && AllDigits(g.digits) && IsStampShape(g.stamp)
  }

  /** The one text that the grammar reads as the groups `g`. */
  function Render(g: Groups): string {
    Prefix + g.digits + Separator + g.stamp
  }

  /**
   * `re.match(MSG_PATTERN, text)`. The pattern ends in a fixed-width tail of 14 + 16
   * characters, and `\d+` cannot swallow the comma, so the only possible split is the
   * one below.
   */
  function MatchMessage(text: string): Option<Groups> {
    var n := |text|;
    var tail := |Separator| + 16;
    if n < |Prefix| + 1 + tail || text[..|Prefix|] != Prefix then None
    else
      var digits := text[|Prefix|..n - tail];
      var stamp := text[n - 16..];
      if AllDigits(digits) && text[n - tail..n - 16] == Separator && IsStampShape(stamp)
      then Some(Groups(digits, stamp))
      else None
  }

  /** Completeness: every text the grammar describes is matched, with its own groups. */
  lemma MatchAcceptsGrammar(g: Groups)
    requires WellFormed(g)
    ensures MatchMessage(Render(g)) == Some(g)
  {
    var t := Render(g);
    var n := |t|;
    assert t[..|Prefix|] == Prefix;
    assert t[|Prefix|..n - |Separator| - 16] == g.digits;
    assert t[n - |Separator| - 16..n - 16] == Separator;
    assert t[n - 16..] == g.stamp;
  }

  /** Soundness and anchoring: a match means the whole text is exactly the rendered groups. */
  lemma MatchOnlyGrammar(text: string)
    requires MatchMessage(text).Some?
    ensures WellFormed(MatchMessage(text).value)
    ensures Render(MatchMessage(text).value) == text
  {
  }

  /** A text is matched exactly when some well-formed groups render to it. */
  lemma MatchIff(text: string)
    ensures MatchMessage(text).Some? <==> exists g :: WellFormed(g) && Render(g) == text
  {
    if MatchMessage(text).Some? {
      MatchOnlyGrammar(text);
    }
    if g :| WellFormed(g) && Render(g) == text {
      MatchAcceptsGrammar(g);
    }
  }

  /** A non-numeric thread id is refused. */
  lemma RejectsLetterThreadId()
    ensures MatchMessage("thread_id@abc,publish_date@2025-01-01T09:00") == None
  {
    var t := "thread_id@abc,publish_date@2025-01-01T09:00";
    assert |t| == 43 && |Prefix| == 10 && |Separator| == 14;
    assert t[10] == 'a';
    assert t[10..13][0] == t[10];
    assert !IsDigit(t[10..13][0]);
    assert !AllDigits(t[10..13]);
  }

  /** A space between date and time is refused: only `T` separates them. */
  lemma RejectsSpaceSeparator()
    ensures MatchMessage("thread_id@123,publish_date@2025-01-01 09:00") == None
  {
  }
}

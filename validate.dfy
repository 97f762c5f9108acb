/** The booking form's field checks, verifyTime and verifyDate, shared by the
    booking page and the edit page. Regular expressions are written out as the
    matcher Python's re.match runs: anchored at the start, and with `$` matching
    at the very end or just before a final newline. */
module Validate {
  import opened Text
  import opened Calendar
  import opened Outcomes

  /** `\d{1}:\d{2}` with nothing after it. */
  predicate IsClockTail(s: string) {
    |s| == 4 && IsDigit(s[0]) && s[1] == ':' && IsDigit(s[2]) && IsDigit(s[3])
  }

  /** `[012]*\d{1}:\d{2}` matched against the whole of s: the star either stops
      here or takes one more of 0, 1, 2. */
  predicate MatchClock(s: string) {
    IsClockTail(s) || (|s| > 0 && s[0] in "012" && MatchClock(s[1..]))
  }

  /** verifyTime: re.match(r'^[012]*\d{1}:\d{2}$', time). It accepts exactly: zero
      or more of 0, 1, 2, one digit, a colon and two digits, optionally followed by
      one newline. No range is checked. */
  predicate VerifyTime(time: string)
    ensures VerifyTime(time) <==>
      ClockShape(time) || (|time| > 0 && time[|time| - 1] == '\n' && ClockShape(time[..|time| - 1]))
  {
    MatchClockIsClockShape(time);
    if |time| > 0 && time[|time| - 1] == '\n' then
      MatchClockIsClockShape(time[..|time| - 1]);
      MatchClock(time) || MatchClock(time[..|time| - 1])
    else
      MatchClock(time)
  }

  /** The positional reading of the time pattern: only 0, 1 and 2 before the
      last four characters, which are a digit, a colon and two digits. */
  predicate ClockShape(s: string) {
    && |s| >= 4
    && (forall i :: 0 <= i < |s| - 4 ==> s[i] in "012")
    && IsClockTail(s[|s| - 4..])
  }

  lemma {:induction false} MatchClockIsClockShape(s: string)
    ensures MatchClock(s) <==> ClockShape(s)
    decreases |s|
  {
    if |s| > 0 {
      MatchClockIsClockShape(s[1..]);
      if |s| > 4 {
        assert s[1..][|s[1..]| - 4..] == s[|s| - 4..];
        assert ClockShape(s) ==> ClockShape(s[1..]) by {
          if ClockShape(s) {
            forall i | 0 <= i < |s[1..]| - 4 ensures s[1..][i] in "012" {
              assert s[1..][i] == s[i + 1];
            }
          }
        }
        assert (s[0] in "012" && ClockShape(s[1..])) ==> ClockShape(s) by {
          if s[0] in "012" && ClockShape(s[1..]) {
            forall i | 0 <= i < |s| - 4 ensures s[i] in "012" {
              if i > 0 { assert s[i] == s[1..][i - 1]; }
            }
          }
        }
      }
    }
  }

  /** Samples: one- and two-digit hours pass, hours and minutes are not range
      checked, and a missing colon or minute digit fails. */
  lemma VerifyTimeSamples()
    ensures VerifyTime("9:30") && VerifyTime("09:30") && VerifyTime("29:99") && VerifyTime("2229:00")
    ensures VerifyTime("9:30\n")
    ensures !VerifyTime("930") && !VerifyTime("9:3") && !VerifyTime("39:30") && !VerifyTime("")
  {
    assert "9:30\n"[..4] == "9:30";
    assert "39:30"[0] == '3';
  }

  /** `\d{4}-\d{1,2}-\d{1,2}` with nothing after it. */
  predicate IsDateBody(s: string) {
    exists ml, dl | 1 <= ml <= 2 && 1 <= dl <= 2 :: IsDateBodyOf(s, ml, dl)
  }

  /** The date body with a month of ml digits and a day of dl digits. */
  predicate IsDateBodyOf(s: string, ml: int, dl: int)
    requires 1 <= ml <= 2 && 1 <= dl <= 2
  {
    && |s| == 6 + ml + dl
    && AllDigits(s[..4]) && s[4] == '-'
    && AllDigits(s[5..5 + ml]) && s[5 + ml] == '-'
    && AllDigits(s[6 + ml..])
  }

  /** re.match(r'^\d{4}-\d{1,2}-\d{1,2}$', s). */
  predicate MatchesDatePattern(s: string) {
    || IsDateBody(s)
    || (|s| > 0 && s[|s| - 1] == '\n' && IsDateBody(s[..|s| - 1]))
  }

  /** The three leading dash-separated fields are numerals, so int() accepts them. */
  predicate HasNumericFields(s: string) {
    var f := Split(s);
    |f| >= 3 && IsNumeral(f[0]) && IsNumeral(f[1]) && IsNumeral(f[2])
  }

  /** The (year, month, day) that int() reads off the first three fields. */
  function FieldsOf(s: string): CivilDate
    requires HasNumericFields(s)
  {
    var f := Split(s);
    CivilDate(DigitsValue(f[0]), DigitsValue(f[1]), DigitsValue(f[2]))
  }

  /** The check that is meant to reject past dates: each field on its own is at most
      today's, and the day is below today's. */
  predicate ComponentwisePast(d: CivilDate, today: CivilDate) {
    d.year <= today.year && d.month <= today.month && d.day < today.day
  }

  /** verifyDate as written: reject a component-wise past date, then a triple that is
      not a calendar date, then text that does not match the pattern. It accepts
      exactly the well-formed date text that is not component-wise in the past. */
  predicate VerifyDate(text: string, today: CivilDate)
    requires HasNumericFields(Strip(text))
    ensures VerifyDate(text, today) <==>
      IsWellFormedDate(Strip(text)) && !ComponentwisePast(FieldsOf(Strip(text)), today)
  {
    var s := Strip(text);
    DatePatternIsFieldShape(s);
    var d := FieldsOf(s);
    if ComponentwisePast(d, today) then false
    else if !IsCalendarDate(d) then false
    else MatchesDatePattern(s)
  }

  /** Well-formed date text: exactly three fields of 4, 1-2 and 1-2 digits that name a calendar date. */
  predicate IsWellFormedDate(s: string)
    requires HasNumericFields(s)
  {
    var f := Split(s);
    && |f| == 3 && |f[0]| == 4 && 1 <= |f[1]| <= 2 && 1 <= |f[2]| <= 2
    && IsCalendarDate(FieldsOf(s))
  }

  /** A date body splits into its year, month and day digits. */
  lemma DateBodySplits(s: string, ml: int, dl: int)
    requires 1 <= ml <= 2 && 1 <= dl <= 2 && IsDateBodyOf(s, ml, dl)
    ensures Split(s) == [s[..4], s[5..5 + ml], s[6 + ml..]]
  {
    var a, b, c := s[..4], s[5..5 + ml], s[6 + ml..];
    assert '-' !in a && '-' !in b && '-' !in c by {
      assert forall x :: x in a ==> IsDigit(x);
      assert forall x :: x in b ==> IsDigit(x);
      assert forall x :: x in c ==> IsDigit(x);
    }
    assert s == a + "-" + b + "-" + c;
    SplitThreeFields(a, b, c);
  }

  /** Three numerals of 4, 1-2 and 1-2 digits joined by dashes form a date body. */
  lemma FieldsFormDateBody(f: seq<string>)
    requires |f| == 3 && IsNumeral(f[0]) && IsNumeral(f[1]) && IsNumeral(f[2])
    requires |f[0]| == 4 && 1 <= |f[1]| <= 2 && 1 <= |f[2]| <= 2
    ensures IsDateBodyOf(Join(f), |f[1]|, |f[2]|)
  {
    assert f[1..][0] == f[1] && f[1..][1..] == f[2..] && f[2..][0] == f[2];
    assert Join(f[2..]) == f[2];
    assert Join(f[1..]) == f[1] + "-" + f[2];
    var s := Join(f);
    assert s == f[0] + "-" + (f[1] + "-" + f[2]);
    assert s == f[0] + "-" + f[1] + "-" + f[2];
    var ml := |f[1]|;
    assert s[..4] == f[0] && s[5..5 + ml] == f[1] && s[6 + ml..] == f[2];
  }

  /** On text with numeric fields and no trailing white space, the date pattern holds
      exactly when there are three fields of 4, 1-2 and 1-2 digits. */
  lemma DatePatternIsFieldShape(s: string)
    requires HasNumericFields(s) && (s == [] || !IsSpace(s[|s| - 1]))
    ensures MatchesDatePattern(s) <==>
      var f := Split(s); |f| == 3 && |f[0]| == 4 && 1 <= |f[1]| <= 2 && 1 <= |f[2]| <= 2
  {
    var f := Split(s);
    if IsDateBody(s) {
      var ml, dl :| 1 <= ml <= 2 && 1 <= dl <= 2 && IsDateBodyOf(s, ml, dl);
      DateBodySplits(s, ml, dl);
    }
    if |f| == 3 && |f[0]| == 4 && 1 <= |f[1]| <= 2 && 1 <= |f[2]| <= 2 {
      FieldsFormDateBody(f);
    }
  }

  /** The component-wise check never rejects today or a later date. */
  lemma ComponentwisePastIsPast(d: CivilDate, today: CivilDate)
    requires ComponentwisePast(d, today)
    ensures Before(d, today)
  {
  }

  lemma DigitsAndDashesUnstripped(s: string)
    requires forall c :: c in s ==> IsDigit(c) || c == '-'
    ensures Strip(s) == s
  {
    assert forall i :: 0 <= i < |s| ==> s[i] in s;
  }

  /** Numerals joined by dashes carry no white space, so strip() keeps them. */
  lemma NumeralsJoinedUnstripped(y: string, m: string, d: string)
    requires IsNumeral(y) && IsNumeral(m) && IsNumeral(d)
    ensures Strip(y + "-" + m + "-" + d) == y + "-" + m + "-" + d
  {
    var s := y + "-" + m + "-" + d;
    assert forall c :: c in s ==> IsDigit(c) || c == '-' by {
      assert forall c :: c in s ==> c in y || c == '-' || c in m || c in d;
    }
    DigitsAndDashesUnstripped(s);
  }

  /** Three numerals joined by dashes split into those numerals, which int() reads. */
  lemma NumeralFieldsRead(y: string, m: string, d: string)
    requires IsNumeral(y) && IsNumeral(m) && IsNumeral(d)
    ensures var s := y + "-" + m + "-" + d;
      && Split(s) == [y, m, d] && HasNumericFields(s)
      && FieldsOf(s) == CivilDate(DigitsValue(y), DigitsValue(m), DigitsValue(d))
  {
    assert '-' !in y && '-' !in m && '-' !in d by {
      assert forall c :: c in y ==> IsDigit(c);
      assert forall c :: c in m ==> IsDigit(c);
      assert forall c :: c in d ==> IsDigit(c);
    }
    SplitThreeFields(y, m, d);
  }

  /** Date text spelled as numerals of 4, 1-2 and 1-2 digits, joined by dashes. */
  predicate IsDateSpelling(y: string, m: string, d: string) {
    && IsNumeral(y) && IsNumeral(m) && IsNumeral(d)
    && |y| == 4 && 1 <= |m| <= 2 && 1 <= |d| <= 2
  }

  /** The date such a spelling names. */
  function SpelledDate(y: string, m: string, d: string): CivilDate
    requires IsDateSpelling(y, m, d)
  {
    CivilDate(DigitsValue(y), DigitsValue(m), DigitsValue(d))
  }

  /** A spelling of a calendar date is well-formed date text with no white space,
      read as the date it spells. */
  lemma SpellingIsWellFormed(y: string, m: string, d: string)
    requires IsDateSpelling(y, m, d) && IsCalendarDate(SpelledDate(y, m, d))
    ensures var s := y + "-" + m + "-" + d;
      && Strip(s) == s && HasNumericFields(s) && FieldsOf(s) == SpelledDate(y, m, d)
      && IsWellFormedDate(s)
  {
    NumeralsJoinedUnstripped(y, m, d);
    NumeralFieldsRead(y, m, d);
  }

  /** "2024", "02" and "20" spell 2024-02-20; "2024", "2" and "20" spell it too. */
  lemma SampleDateSpellings()
    ensures IsDateSpelling("2024", "02", "20") && SpelledDate("2024", "02", "20") == CivilDate(2024, 2, 20)
    ensures IsDateSpelling("2024", "2", "20") && SpelledDate("2024", "2", "20") == CivilDate(2024, 2, 20)
  {
    assert "2024"[..3] == "202" && "202"[..2] == "20" && "20"[..1] == "2" && "2"[..0] == "";
    assert "02"[..1] == "0" && "0"[..0] == "";
  }

  /** Finding, as written: in today's year, a date in an earlier month whose day
      number is at least today's passes the check although it lies in the past. With
      today 2024-03-15 this admits 2024-02-20, spelled as in SampleDateSpellings. */
  lemma VerifyDateAcceptsPastDate(y: string, m: string, d: string, today: CivilDate)
    requires IsDateSpelling(y, m, d) && IsCalendarDate(SpelledDate(y, m, d))
    requires var date := SpelledDate(y, m, d);
      date.year == today.year && date.month < today.month && date.day >= today.day
    ensures var s := y + "-" + m + "-" + d;
      && HasNumericFields(Strip(s)) && VerifyDate(s, today)
      && Before(FieldsOf(Strip(s)), today)
  {
    SpellingIsWellFormed(y, m, d);
  }

  /** The check the comment of verifyDate describes: reject any date before today.
      It accepts exactly the well-formed dates on or after today, and it accepts
      nothing the original rejects. */
  predicate VerifyDateCorrected(text: string, today: CivilDate)
    requires HasNumericFields(Strip(text))
    ensures VerifyDateCorrected(text, today) <==>
      IsWellFormedDate(Strip(text)) && !Before(FieldsOf(Strip(text)), today)
    ensures VerifyDateCorrected(text, today) ==> VerifyDate(text, today)
  {
    var s := Strip(text);
    DatePatternIsFieldShape(s);
    var d := FieldsOf(s);
    if Before(d, today) then false
    else if !IsCalendarDate(d) then false
    else MatchesDatePattern(s)
  }

  /** Dates the corrected check accepts are on or after today by ordinal too. */
  lemma CorrectedDateNotBeforeToday(text: string, today: CivilDate)
    requires HasNumericFields(Strip(text)) && IsCalendarDate(today)
    requires VerifyDateCorrected(text, today)
    ensures IsCalendarDate(FieldsOf(Strip(text)))
    ensures Ordinal(FieldsOf(Strip(text))) >= Ordinal(today)
  {
    OrdinalMonotone(FieldsOf(Strip(text)), today);
  }

  /** verifyDate with the exceptions its first lines raise: int() of each field
      in turn, ValueError when it is not a numeral, and IndexError when the text has
      fewer fields than the one being read, so IndexError exactly when every field
      present is a numeral but there are fewer than three. Text with three numeric
      fields gets the answer of the check. */
  function DateCheck(text: string, today: CivilDate): (r: Result<bool>)
    ensures r.Ok? <==> HasNumericFields(Strip(text))
    ensures r.Ok? ==> (r.value <==> VerifyDate(text, today))
    ensures r.Err? ==> r.error == ValueError || r.error == IndexError
    ensures var f := Split(Strip(text));
      r == Err(IndexError) <==> |f| < 3 && forall j :: 0 <= j < |f| ==> IsNumeral(f[j])
  {
    var f := Split(Strip(text));
    if !IsNumeral(f[0]) then Err(ValueError)
    else if |f| < 2 then Err(IndexError)
    else if !IsNumeral(f[1]) then Err(ValueError)
    else if |f| < 3 then Err(IndexError)
    else if !IsNumeral(f[2]) then Err(ValueError)
    else Ok(VerifyDate(text, today))
  }

  /** A date without its day, two numerals joined by one dash, raises IndexError. */
  lemma DateCheckMissingDay(year: string, month: string, today: CivilDate)
    requires IsNumeral(year) && IsNumeral(month)
    ensures DateCheck(year + "-" + month, today) == Err(IndexError)
  {
    var s := year + "-" + month;
    assert '-' !in year && '-' !in month by {
      assert forall c :: c in year ==> IsDigit(c);
      assert forall c :: c in month ==> IsDigit(c);
    }
    forall i | 0 <= i < |s| ensures !IsSpace(s[i]) {
      if i < |year| {
        assert s[i] == year[i];
      } else if i > |year| {
        assert s[i] == month[i - |year| - 1];
      }
    }
    SplitAfterField(year, month);
    SplitSingleField(month);
  }

  /** Empty text raises ValueError: its single field is empty. */
  lemma DateCheckEmpty(today: CivilDate)
    ensures DateCheck("", today) == Err(ValueError)
  {
    assert Split("") == [""];
  }

  /** Text with another separator raises ValueError: its single field is not a numeral. */
  lemma DateCheckOtherSeparator(today: CivilDate)
    ensures DateCheck("20/3", today) == Err(ValueError)
  {
    var s := "20/3";
    assert forall i :: 0 <= i < |s| ==> !IsSpace(s[i]) && s[i] != '-';
    assert Strip(s) == s;
    SplitSingleField(s);
    assert !IsDigit(s[2]);
  }
}

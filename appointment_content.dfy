/** The text of one appointment card on the timeline: the `day/month` and `HH:MM`
    labels, and the fallback shown for a missing report, place or doctor name. */
module AppointmentContent {
  import opened Types

  predicate IsDigit(c: char) { '0' <= c <= '9' }

  predicate AllDigits(s: string) { forall i :: 0 <= i < |s| ==> IsDigit(s[i]) }

  /** The rendering of a number that is not padded: one digit, or no leading zero. */
  predicate NoLeadingZero(s: string) { |s| == 1 || (|s| > 1 && s[0] != '0') }

  function DigitChar(d: nat): (c: char)
    requires d < 10
    ensures IsDigit(c) && (c as int) - ('0' as int) == d
  {
    (('0' as int) + d) as char
  }

  /** `n.toString()` for a non-negative integer: its decimal digits, most significant first. */
  function DecimalString(n: nat): (s: string)
    ensures AllDigits(s) && NoLeadingZero(s)
    ensures n < 10 ==> |s| == 1
    ensures 10 <= n < 100 ==> |s| == 2
    ensures n >= 10 ==> |s| >= 2
    ensures s[0] == '0' <==> n == 0
  {
    if n < 10 then [DigitChar(n)] else DecimalString(n / 10) + [DigitChar(n % 10)]
  }

  /** The number a string of decimal digits denotes, leading zeros allowed (0 for the
      empty string). */
  function DecimalValue(s: string): nat
    requires AllDigits(s)
  {
    if s == [] then 0
    else 10 * DecimalValue(s[..|s| - 1]) + ((s[|s| - 1] as int) - ('0' as int))
  }

  /** Reading a rendered number back gives the number. */
  lemma {:induction false} DecimalRoundTrip(n: nat)
    ensures DecimalValue(DecimalString(n)) == n
  {
    if n >= 10 {
      DecimalRoundTrip(n / 10);
      var s := DecimalString(n);
      assert s[..|s| - 1] == DecimalString(n / 10);
    }
  }

  /** `s.padStart(targetLength, padChar)` for a one-character pad string. */
  function PadStart(s: string, targetLength: nat, padChar: char): (r: string)
    ensures |r| == if |s| >= targetLength then |s| else targetLength
    ensures r[|r| - |s|..] == s
    ensures forall i :: 0 <= i < |r| - |s| ==> r[i] == padChar
    ensures |s| >= targetLength ==> r == s
  {
    if |s| >= targetLength then s else seq(targetLength - |s|, _ => padChar) + s
  }

  /** Leading zeros do not change the value of a digit string. */
  lemma {:induction false} LeadingZerosKeepValue(zeros: string, s: string)
    requires forall i :: 0 <= i < |zeros| ==> zeros[i] == '0'
    requires AllDigits(s)
    ensures AllDigits(zeros + s)
    ensures DecimalValue(zeros + s) == DecimalValue(s)
    decreases |s|, |zeros|
  {
    var t := zeros + s;
    if s == [] {
      if zeros != [] {
        assert t[..|t| - 1] == zeros[..|zeros| - 1];
        LeadingZerosKeepValue(zeros[..|zeros| - 1], []);
        assert zeros[..|zeros| - 1] + [] == zeros[..|zeros| - 1];
      }
    } else {
      assert t[..|t| - 1] == zeros + s[..|s| - 1];
      LeadingZerosKeepValue(zeros, s[..|s| - 1]);
    }
  }

  /** Padding a digit string with `'0'` keeps its value. */
  lemma ZeroPadKeepsValue(s: string, targetLength: nat)
    requires AllDigits(s)
    ensures AllDigits(PadStart(s, targetLength, '0'))
    ensures DecimalValue(PadStart(s, targetLength, '0')) == DecimalValue(s)
  {
    var r := PadStart(s, targetLength, '0');
    var zeros := r[..|r| - |s|];
    assert r == zeros + s;
    LeadingZerosKeepValue(zeros, s);
  }

  /** `extractDate`: the day of the month, a slash, and the month number
      (`getMonth() + 1`), neither padded. The label holds exactly one slash, since both
      sides are digits; for a month index of `getMonth()` the month number is 1 to 12. */
  function ExtractDate(day: nat, monthIndex: nat): (r: string)
    ensures exists k :: (
              && 0 <= k < |r| && r[k] == '/'
              && AllDigits(r[..k]) && NoLeadingZero(r[..k]) && DecimalValue(r[..k]) == day
              && AllDigits(r[k + 1..]) && NoLeadingZero(r[k + 1..])
              && DecimalValue(r[k + 1..]) == monthIndex + 1
              && (monthIndex < 12 ==> 1 <= DecimalValue(r[k + 1..]) <= 12))
  {
    var d, m := DecimalString(day), DecimalString(monthIndex + 1);
    DecimalRoundTrip(day);
    DecimalRoundTrip(monthIndex + 1);
    Joined(d, "/", m);
    d + "/" + m
  }

  /** Two parts joined by a one-character separator can be cut apart again at it. */
  lemma Joined(a: string, sep: string, b: string)
    requires |sep| == 1
    ensures (a + sep + b)[..|a|] == a && (a + sep + b)[|a|] == sep[0]
    ensures (a + sep + b)[|a| + 1..] == b
  {
  }

  /** `f` is how `padStart(2, '0')` writes `n`: digits only, at least two of them,
      reading back as `n`; one `'0'` ahead of a single digit, and unpadded from 10 on. */
  predicate IsTimeField(f: string, n: nat)
  {
    && |f| >= 2 && AllDigits(f) && DecimalValue(f) == n
    && (n < 10 ==> f == ['0'] + DecimalString(n))
    && (n >= 10 ==> f == DecimalString(n))
  }

  /** `extractTime`: hours and minutes, each left-padded with `'0'` to two characters,
      around a colon. (`minutes.toFixed(0)` renders a whole number as `toString` does.)
      Whatever the numbers, the label is the two padded fields around its colon. */
  function ExtractTime(hours: nat, minutes: nat): (r: string)
    ensures exists k :: (
              && 0 <= k < |r| && r[k] == ':'
              && IsTimeField(r[..k], hours) && IsTimeField(r[k + 1..], minutes))
  {
    var h, m := TimeField(hours), TimeField(minutes);
    Joined(h, ":", m);
    h + ":" + m
  }

  /** One time field, `n.toString().padStart(2, '0')`. */
  function TimeField(n: nat): (f: string)
    ensures IsTimeField(f, n)
  {
    ZeroPadKeepsValue(DecimalString(n), 2);
    DecimalRoundTrip(n);
    PadStart(DecimalString(n), 2, '0')
  }

  /** Reads a `day/month` label back: two non-empty digit strings around the first slash. */
  function ParseDateLabel(s: string): Option<(nat, nat)>
  {
    if exists k :: 0 <= k < |s| && s[k] == '/' then
      var k := FirstSlash(s, 0);
      if 0 < k < |s| - 1 && AllDigits(s[..k]) && AllDigits(s[k + 1..])
      then Some((DecimalValue(s[..k]), DecimalValue(s[k + 1..])))
      else None
    else None
  }

  /** The index of the first slash at or after `from`. */
  function FirstSlash(s: string, from: nat): (k: nat)
    requires from <= |s|
    requires exists k :: from <= k < |s| && s[k] == '/'
    ensures from <= k < |s| && s[k] == '/'
    ensures forall i :: from <= i < k ==> s[i] != '/'
    decreases |s| - from
  {
    if s[from] == '/' then from else FirstSlash(s, from + 1)
  }

  /** In digits, a slash, then anything, the first slash is the one after the digits. */
  lemma SlashAfterDigits(d: string, m: string)
    requires AllDigits(d)
    ensures (d + "/" + m)[|d|] == '/' && FirstSlash(d + "/" + m, 0) == |d|
  {
    var r := d + "/" + m;
    assert r[|d|] == '/';
    assert forall i :: 0 <= i < |d| ==> r[i] == d[i] && r[i] != '/';
  }

  /** Parsing a date label gives back the day and the month number. */
  lemma ExtractDateRoundTrip(day: nat, monthIndex: nat)
    ensures ParseDateLabel(ExtractDate(day, monthIndex)) == Some((day, monthIndex + 1))
  {
    var d, m := DecimalString(day), DecimalString(monthIndex + 1);
    Joined(d, "/", m);
    SlashAfterDigits(d, m);
    DecimalRoundTrip(day);
    DecimalRoundTrip(monthIndex + 1);
  }

  /** For a clock time the label is `HH:MM`: five characters, the colon at index 2,
      and each field reads back as the original number. */
  lemma ExtractTimeFields(hours: nat, minutes: nat)
    requires hours < 24 && minutes < 60
    ensures var r := ExtractTime(hours, minutes);
      && |r| == 5 && r[2] == ':'
      && AllDigits(r[..2]) && DecimalValue(r[..2]) == hours
      && AllDigits(r[3..]) && DecimalValue(r[3..]) == minutes
  {
    var h, m := TimeField(hours), TimeField(minutes);
    var r := ExtractTime(hours, minutes);
    assert |h| == 2 && |m| == 2;
    assert r[..2] == h && r[2] == ':' && r[3..] == m;
  }

  /** The label shown when a report, place or doctor name is null. */
  const Unknown: string := "Không xác định"

  /** `field ?? 'Không xác định'`: only a missing value falls back; an empty string is
      shown as it is. */
  function DisplayOrUnknown(field: Option<string>): (shown: string)
    ensures field.Some? ==> shown == field.value
    ensures field.None? ==> shown == Unknown
    ensures shown == "" <==> field == Some("")
  {
    match field
    case Some(v) => v
    case None => Unknown
  }

  /** The texts of one appointment card: the date and time of the visit, the report,
      the place and the doctor's name, the last three falling back to the unknown label. */
  datatype CardTexts = CardTexts(date: string, time: string, report: string, place: string, doctorName: string)

  /** The card's texts for one appointment. */
  function AppointmentCard(a: Appointment): (c: CardTexts)
    ensures c.date == ExtractDate(a.date.day, a.date.monthIndex)
    ensures c.time == ExtractTime(a.date.hours, a.date.minutes)
    ensures a.report.Some? ==> c.report == a.report.value
    ensures a.report.None? ==> c.report == Unknown
    ensures a.place.Some? ==> c.place == a.place.value
    ensures a.place.None? ==> c.place == Unknown
    ensures a.doctor.name.Some? ==> c.doctorName == a.doctor.name.value
    ensures a.doctor.name.None? ==> c.doctorName == Unknown
  {
    CardTexts(
      ExtractDate(a.date.day, a.date.monthIndex),
      ExtractTime(a.date.hours, a.date.minutes),
      DisplayOrUnknown(a.report),
      DisplayOrUnknown(a.place),
      DisplayOrUnknown(a.doctor.name))
  }
}

/** The `formatDate` helper the Dashboard and the job details page share:
    its date-only branch, which rearranges `YYYY-MM-DD` text without any date
    parsing, and the 12-hour clock the details page prints for timestamps. */
module DateFormat {
  import opened Wrappers
  import opened Text

  /** What `formatDate` shows: text it computes without parsing a date, or
      the marker that the input goes to the timestamp branch, which parses it
      with `Date` and is not part of this model. */
  datatype Shown = DateText(text: string) | Timestamp(raw: string)

  /** Array destructuring: a missing part prints as `undefined`. */
  function Part(parts: seq<string>, i: nat): string {
    if i < |parts| then parts[i] else "undefined"
  }

  /** The branch `formatDate` takes without parsing: ten characters with a dash. */
  predicate IsDateOnly(s: string) {
    |s| == 10 && Includes(s, "-")
  }

  /** `formatDate(s)` without a time: `N/A` for a missing or empty input,
      and `D/M/Y` from the dash-separated parts of a date-only string. */
  function FormatDate(s: Option<string>): (r: Shown)
    ensures s.None? || s == Some("") ==> r == DateText("N/A")
    ensures r.Timestamp? <==> s.Some? && s.value != "" && !IsDateOnly(s.value)
    ensures r.Timestamp? ==> r.raw == s.value
  {
    match s
    case None => DateText("N/A")
    case Some(t) =>
      if t == "" then DateText("N/A")
      else if IsDateOnly(t) then
        var parts := Split(t, "-");
        DateText(Part(parts, 2) + "/" + Part(parts, 1) + "/" + Part(parts, 0))
      else Timestamp(t)
  }

  /** Unfolding step: `FormatDate` on a date-only string takes its
      date-only branch. */
  lemma FormatDateOnly(s: string)
    requires IsDateOnly(s)
    ensures FormatDate(Some(s))
            == var parts := Split(s, "-");
               DateText(Part(parts, 2) + "/" + Part(parts, 1) + "/" + Part(parts, 0))
  {
  }

  /** Joining three pieces. */
  lemma Join3(a: string, b: string, c: string, sep: string)
    ensures Join([a, b, c], sep) == a + sep + b + sep + c
  {
    assert [a, b, c][1..] == [b, c];
    assert Join([b, c], sep) == b + sep + c;
  }

  /** A `Y-M-D` string of ten characters is shown as `D/M/Y`. */
  lemma FormatYearMonthDay(y: string, m: string, d: string)
    requires !Includes(y, "-") && !Includes(m, "-") && !Includes(d, "-")
    requires |y| + |m| + |d| == 8
    ensures FormatDate(Some(y + "-" + m + "-" + d)) == DateText(d + "/" + m + "/" + y)
  {
    var s := y + "-" + m + "-" + d;
    Join3(y, m, d, "-");
    SingleCharNoBorder("-");
    SplitJoin([y, m, d], "-");
    assert OccursAt(s, "-", |y|);
    FormatDateOnly(s);
  }

  /** Reading a shown date back: the slash-separated parts, reversed and
      joined with dashes. */
  function Unformat(text: string): string {
    var parts := Split(text, "/");
    if |parts| == 3 then parts[2] + "-" + parts[1] + "-" + parts[0] else text
  }

  /** A date-only string of three dash-separated parts without slashes is
      shown in a form that can be read back to it: the display loses nothing. */
  lemma FormatDateInvertible(s: string)
    requires IsDateOnly(s)
    requires |Split(s, "-")| == 3
    requires forall i :: 0 <= i < 3 ==> !Includes(Split(s, "-")[i], "/")
    ensures FormatDate(Some(s)).DateText?
    ensures Unformat(FormatDate(Some(s)).text) == s
  {
    var parts := Split(s, "-");
    var y, m, d := parts[0], parts[1], parts[2];
    FormatDateOnly(s);
    assert FormatDate(Some(s)) == DateText(d + "/" + m + "/" + y);
    SplitParts(s, parts);
    UnformatShown(y, m, d);
  }

  /** A string split into three parts is those parts joined again. */
  lemma SplitParts(s: string, parts: seq<string>)
    requires parts == Split(s, "-") && |parts| == 3
    ensures s == parts[0] + "-" + parts[1] + "-" + parts[2]
  {
    JoinSplit(s, "-");
    assert parts == [parts[0], parts[1], parts[2]];
    Join3(parts[0], parts[1], parts[2], "-");
  }

  /** Three slash-free parts shown as `D/M/Y` read back as `Y-M-D`. */
  lemma UnformatShown(y: string, m: string, d: string)
    requires !Includes(y, "/") && !Includes(m, "/") && !Includes(d, "/")
    ensures Unformat(d + "/" + m + "/" + y) == y + "-" + m + "-" + d
  {
    Join3(d, m, y, "/");
    SingleCharNoBorder("/");
    SplitJoin([d, m, y], "/");
  }

  /** `hours % 12 || 12`: the hour on a 12-hour clock. */
  function Hour12(h: nat): (r: nat)
    requires h < 24
    ensures 1 <= r <= 12
    ensures r % 12 == h % 12
  {
    if h % 12 == 0 then 12 else h % 12
  }

  /** `hours >= 12 ? 'PM' : 'AM'`. */
  function Meridiem(h: nat): string {
    if h >= 12 then "PM" else "AM"
  }

  /** The 24-hour reading of a 12-hour clock time. */
  function Hour24(hour12: nat, meridiem: string): nat {
    hour12 % 12 + if meridiem == "PM" then 12 else 0
  }

  /** The 12-hour display loses nothing: the hour and suffix give back the
      hour of the day. */
  lemma Hour12RoundTrip(h: nat)
    requires h < 24
    ensures Hour24(Hour12(h), Meridiem(h)) == h
  {
  }

  /** `String(minutes).padStart(2, '0')`. */
  function Minutes(m: nat): (r: string)
    requires m < 60
    ensures |r| == 2
    ensures forall i :: 0 <= i < 2 ==> '0' <= r[i] <= '9'
    ensures DigitsValue(r) == m
  {
    MinutesDigits(m);
    PadStart(NatToString(m), 2, '0')
  }

  /** The padded text of a minute is two digits that denote it. */
  lemma MinutesDigits(m: nat)
    requires m < 60
    ensures var r := PadStart(NatToString(m), 2, '0');
            |r| == 2 && (forall i :: 0 <= i < 2 ==> '0' <= r[i] <= '9') && DigitsValue(r) == m
  {
    PaddedDigits(m);
    var tens, units := m / 10, m % 10;
    DigitValue(tens);
    DigitValue(units);
    var r := [DigitChar(tens), DigitChar(units)];
    assert DigitsValue(r) == tens * 10 + units;
  }

  /** A decimal digit character and the digit it denotes. */
  lemma DigitValue(d: nat)
    requires d < 10
    ensures '0' <= DigitChar(d) <= '9'
    ensures DigitChar(d) as int - '0' as int == d
  {
  }

  /** The padded decimal text of a number below 100 is its tens digit and
      its units digit. */
  lemma PaddedDigits(m: nat)
    requires m < 100
    ensures PadStart(NatToString(m), 2, '0') == [DigitChar(m / 10), DigitChar(m % 10)]
  {
    var tens, units := m / 10, m % 10;
    assert tens < 10 && units < 10;
    var text := NatToString(m);
    if m >= 10 {
      assert NatToString(tens) == [DigitChar(tens)];
      assert text == NatToString(tens) + [DigitChar(units)];
      assert |text| == 2;
    } else {
      assert tens == 0 && units == m;
      assert text == [DigitChar(m)];
      assert DigitChar(0) == '0';
      assert PadStart(text, 2, '0') == seq(1, _ => '0') + text;
    }
  }

  /** The number two decimal digits denote. */
  function DigitsValue(r: string): int
    requires |r| == 2
  {
    (r[0] as int - '0' as int) * 10 + (r[1] as int - '0' as int)
  }

  /** The clock part of a timestamp on the details page: `h:mm AM` or `h:mm PM`. */
  function ClockText(h: nat, m: nat): (r: string)
    requires h < 24 && m < 60
    ensures |r| == if Hour12(h) < 10 then 7 else 8
  {
    var hour := Hour12(h);
    TwoDigits(hour);
    var digits := NatToString(hour);
    assert |digits| == if hour < 10 then 1 else 2;
    assert |Meridiem(h)| == 2;
    digits + ":" + Minutes(m) + " " + Meridiem(h)
  }
}

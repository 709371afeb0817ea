/**
 * `datetime.strptime(s, '%H%M')` as the calculators use it: the format becomes the regular
 * expression `(2[0-3]|[0-1]\d|\d)([0-5]\d|\d)`, which is matched at the start of `s` with the
 * usual backtracking, and whatever it leaves unconsumed is an error ("unconverted data remains").
 */
module TimeParse {

  import opened Wrappers
  import opened Digits

  datatype HourMinute = HourMinute(hour: int, minute: int)

  /** A regular-expression match at the start of a string: the value read and the characters taken. */
  datatype Token = Token(value: nat, length: nat)

  /** The alternatives of `%H` that match at the start of `s`, in the order the pattern tries them:
      `2[0-3]`, then `[0-1]\d`, then `\d`. */
  function HourAlternatives(s: string): (alts: seq<Token>)
    ensures forall i :: 0 <= i < |alts| ==> 1 <= alts[i].length <= |s| && alts[i].value < 24
  {
    var twoDigits :=
      if |s| >= 2 && IsDigit(s[1]) && ((s[0] == '2' && s[1] <= '3') || s[0] == '0' || s[0] == '1')
      then [Token(10 * DigitValue(s[0]) + DigitValue(s[1]), 2)]
      else [];
    var oneDigit := if |s| >= 1 && IsDigit(s[0]) then [Token(DigitValue(s[0]), 1)] else [];
    twoDigits + oneDigit
  }

  /** The first alternative of `%M` that matches at the start of `s`: `[0-5]\d`, then `\d`.
      Nothing follows `%M` in the pattern, so the first one that matches is final. */
  function MinuteMatch(s: string): (m: Option<Token>)
    ensures m.Some? ==> 1 <= m.value.length <= |s| && m.value.value < 60
  {
    if |s| >= 2 && '0' <= s[0] <= '5' && IsDigit(s[1]) then
      Some(Token(10 * DigitValue(s[0]) + DigitValue(s[1]), 2))
    else if |s| >= 1 && IsDigit(s[0]) then
      Some(Token(DigitValue(s[0]), 1))
    else
      None
  }

  /** The regular-expression match: the first hour alternative after which `%M` can match. */
  function MatchFrom(s: string, alts: seq<Token>): (r: Option<(HourMinute, nat)>)
    requires forall i :: 0 <= i < |alts| ==> alts[i].length <= |s| && alts[i].value < 24
    ensures r.Some? ==> r.value.1 <= |s| && 0 <= r.value.0.hour < 24 && 0 <= r.value.0.minute < 60
  {
    if alts == [] then None
    else
      match MinuteMatch(s[alts[0].length..])
      case Some(m) => Some((HourMinute(alts[0].value, m.value), alts[0].length + m.length))
      case None => MatchFrom(s, alts[1..])
  }

  /** `datetime.strptime(s, '%H%M')`, reduced to the hour and minute it yields; `None` stands for
      the `ValueError` it raises. */
  function ParseHourMinute(s: string): (r: Option<HourMinute>)
    ensures r.Some? ==> 0 <= r.value.hour < 24 && 0 <= r.value.minute < 60
  {
    match MatchFrom(s, HourAlternatives(s))
    case None => None
    case Some((hm, consumed)) => if consumed == |s| then Some(hm) else None
  }

  /** The zero-padded two-digit decimal form of `n`. */
  function TwoDigits(n: nat): (s: string)
    requires n < 100
    ensures |s| == 2 && IsDigit(s[0]) && IsDigit(s[1])
  {
    ['0' + (n / 10) as char, '0' + (n % 10) as char]
  }

  /** The stored settings look like "0330": a zero-padded hour followed by a zero-padded minute.
      Every such string for a real time of day parses back to that time. */
  lemma ParseFormatted(hour: nat, minute: nat)
    requires hour < 24 && minute < 60
    ensures ParseHourMinute(TwoDigits(hour) + TwoDigits(minute)) == Some(HourMinute(hour, minute))
  {
    var s := TwoDigits(hour) + TwoDigits(minute);
    var alts := HourAlternatives(s);
    assert alts[0] == Token(hour, 2);
    assert s[2..] == TwoDigits(minute);
    assert MinuteMatch(s[2..]) == Some(Token(minute, 2));
  }

  /** For a four-digit string "HHMM", the parse succeeds exactly when HH is an hour and MM a
      minute, and then it yields them. */
  lemma FourDigitParse(s: string)
    requires |s| == 4 && IsDigit(s[0]) && IsDigit(s[1]) && IsDigit(s[2]) && IsDigit(s[3])
    ensures var hh := 10 * DigitValue(s[0]) + DigitValue(s[1]);
            var mm := 10 * DigitValue(s[2]) + DigitValue(s[3]);
            ParseHourMinute(s) == if hh < 24 && mm < 60 then Some(HourMinute(hh, mm)) else None
  {
    var hh := 10 * DigitValue(s[0]) + DigitValue(s[1]);
    var alts := HourAlternatives(s);
    if hh < 24 {
      assert alts[0] == Token(hh, 2);
      assert MinuteMatch(s[2..]).Some?;
    } else {
      assert alts == [Token(DigitValue(s[0]), 1)];
      assert MinuteMatch(s[1..]).Some?;
    }
  }

  /** The pattern's leniency: a two-digit "12" backtracks to hour 1, minute 2. */
  lemma ParseShortForms()
    ensures ParseHourMinute("12") == Some(HourMinute(1, 2))
    ensures ParseHourMinute("330") == Some(HourMinute(3, 30))
    ensures ParseHourMinute("2400") == None
    ensures ParseHourMinute("") == None
  {
    var alts := HourAlternatives("12");
    assert alts == [Token(12, 2), Token(1, 1)];
    assert "12"[2..] == "";
    assert "12"[1..] == "2";
    var alts3 := HourAlternatives("330");
    assert alts3 == [Token(3, 1)];
    assert "330"[1..] == "30";
    FourDigitParse("2400");
  }
}

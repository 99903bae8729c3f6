/** `parseTimestamp` (utils.ts): "MM:SS" or "SS" to a count of seconds, `NaN` (here `None`)
    for any other shape. Each piece goes through JavaScript's `Number`, modelled on strings
    of ASCII decimal digits. */
module TimestampParser {
  import opened Types
  import opened JsText

  predicate IsDigit(c: char) {
    '0' <= c <= '9'
  }

  predicate IsDigits(s: string) {
    forall i :: 0 <= i < |s| ==> IsDigit(s[i])
  }

  /** The decimal value of a digit string; the empty string is worth 0, as `Number("")` is. */
  function DigitsValue(s: string): (n: nat)
    requires IsDigits(s)
  {
    if s == [] then 0 else 10 * DigitsValue(s[..|s| - 1]) + (s[|s| - 1] as int - '0' as int)
  }

  /** `Number(token)` over digit strings; every other token gives `NaN`. */
  function ToNumber(token: string): (r: Option<nat>)
    ensures r.Some? <==> IsDigits(token)
    ensures token == [] ==> r == Some(0)
  {
    if IsDigits(token) then Some(DigitsValue(token)) else None
  }

  /** The shortest decimal spelling of `n`, with no leading zero ("0" for zero). */
  function Decimal(n: nat): (s: string)
    ensures IsDigits(s) && s != []
  {
    if n < 10 then [('0' as int + n) as char] else Decimal(n / 10) + [('0' as int + n % 10) as char]
  }

  /** `Number` reads back what `Decimal` writes. */
  lemma {:induction false} NumberOfDecimal(n: nat)
    ensures ToNumber(Decimal(n)) == Some(n)
  {
    var s := Decimal(n);
    if n < 10 {
      assert s[..|s| - 1] == [] && s[|s| - 1] as int == '0' as int + n;
      assert DigitsValue(s) == 10 * DigitsValue([]) + n;
    } else {
      NumberOfDecimal(n / 10);
      assert s[..|s| - 1] == Decimal(n / 10);
      assert s[|s| - 1] as int - '0' as int == n % 10;
    }
  }

  /** Leading zeros do not change the value: `Number("05")` is 5. */
  lemma {:induction false} LeadingZero(s: string)
    requires IsDigits(s)
    ensures ToNumber("0" + s) == ToNumber(s)
    decreases |s|
  {
    if s != [] {
      var init := s[..|s| - 1];
      assert ("0" + s)[..|"0" + s| - 1] == "0" + init;
      LeadingZero(init);
    }
  }

  /** `time.split(':').map(Number)` followed by the length test of utils.ts. */
  function ParseTimestamp(time: string): (r: Option<nat>) {
    // `Number` is applied to every piece; with three or more pieces the result is `NaN`
    // whatever they hold, so only the pieces of the one- and two-piece cases are read.
    var parts := Split(time, ':');
    if |parts| == 2 then
      var minutes, seconds := ToNumber(parts[0]), ToNumber(parts[1]);
      if minutes.Some? && seconds.Some? then Some(minutes.value * 60 + seconds.value) else None
    else if |parts| == 1 then
      ToNumber(parts[0])
    else
      None
  }

  /** "MM:SS" with both pieces numeric is minutes times sixty plus seconds. */
  lemma MinutesAndSeconds(minutes: string, seconds: string)
    requires IsDigits(minutes) && IsDigits(seconds)
    ensures ParseTimestamp(minutes + ":" + seconds) == Some(60 * DigitsValue(minutes) + DigitsValue(seconds))
  {
    NoColonInDigits(minutes);
    NoColonInDigits(seconds);
    SplitAtColon(minutes, seconds);
    TwoNumericPieces(minutes + ":" + seconds, minutes, seconds);
  }

  /** Two numeric pieces around the one colon give minutes times sixty plus seconds. */
  lemma TwoNumericPieces(time: string, minutes: string, seconds: string)
    requires IsDigits(minutes) && IsDigits(seconds)
    requires var parts := Split(time, ':'); |parts| == 2 && parts[0] == minutes && parts[1] == seconds
    ensures ParseTimestamp(time) == Some(60 * DigitsValue(minutes) + DigitsValue(seconds))
  {
  }

  /** "MM:SS" where either piece is not numeric is `NaN`. */
  lemma NonNumericPiece(minutes: string, seconds: string)
    requires ':' !in minutes && ':' !in seconds
    requires !IsDigits(minutes) || !IsDigits(seconds)
    ensures ParseTimestamp(minutes + ":" + seconds) == None
  {
    SplitAtColon(minutes, seconds);
  }

  /** A string without a colon is read whole by `Number`; one with two colons or more is `NaN`. */
  lemma ColonCount(time: string)
    ensures Count(time, ':') == 0 ==> ParseTimestamp(time) == ToNumber(time)
    ensures Count(time, ':') >= 2 ==> ParseTimestamp(time) == None
  {
    SplitPieces(time, ':');
  }

  /** A digit string without a colon is a number of seconds. */
  lemma WholeSeconds(seconds: string)
    requires IsDigits(seconds)
    ensures ParseTimestamp(seconds) == Some(DigitsValue(seconds))
  {
    NoColonInDigits(seconds);
    ColonCount(seconds);
  }

  /** A timestamp that parses has at most one colon and nothing but digits around it. */
  lemma {:induction false} ParsedShape(time: string)
    requires ParseTimestamp(time).Some?
    ensures Count(time, ':') <= 1
    ensures forall i :: 0 <= i < |time| ==> IsDigit(time[i]) || time[i] == ':'
  {
    var parts := Split(time, ':');
    SplitPieces(time, ':');
    if |parts| == 1 {
      assert time == parts[0];
    } else {
      assert |parts| == 2 && parts[1..] == [parts[1]];
      assert Join(parts[1..], ':') == parts[1];
      var m, sec := parts[0], parts[1];
      assert time == m + [':'] + sec;
      assert IsDigits(m) && IsDigits(sec);
      NoColonInDigits(m);
      NoColonInDigits(sec);
      forall i | 0 <= i < |time|
        ensures IsDigit(time[i]) || time[i] == ':'
      {
        if i < |m| { assert time[i] == m[i]; }
        else if i > |m| { assert time[i] == sec[i - |m| - 1]; }
      }
    }
  }

  /** A digit string holds no colon. */
  lemma NoColonInDigits(s: string)
    requires IsDigits(s)
    ensures ':' !in s
  {
    assert forall i :: 0 <= i < |s| ==> s[i] != ':';
  }

  /** Two colon-free pieces joined by a colon split back into those two pieces. */
  lemma SplitAtColon(minutes: string, seconds: string)
    requires ':' !in minutes && ':' !in seconds
    ensures var parts := Split(minutes + ":" + seconds, ':');
      |parts| == 2 && parts[0] == minutes && parts[1] == seconds
  {
    var parts := [minutes, seconds];
    assert parts[1..] == [seconds];
    assert Join(parts, ':') == minutes + ":" + seconds;
    SplitJoin(parts, ':');
  }

  /** The cases listed for the parser: "05:30" is 330 seconds and "45" is 45. */
  lemma ExamplesThatParse()
    ensures ParseTimestamp("05:30") == Some(330)
    ensures ParseTimestamp("45") == Some(45)
  {
    assert "05" + ":" + "30" == "05:30";
    MinutesAndSeconds("05", "30");
    assert DigitsValue("05") == 5 by { assert "05"[..1] == "0"; assert "0"[..0] == ""; }
    assert DigitsValue("30") == 30 by { assert "30"[..1] == "3"; assert "3"[..0] == ""; }
    WholeSeconds("45");
    assert DigitsValue("45") == 45 by { assert "45"[..1] == "4"; assert "4"[..0] == ""; }
  }

  /** "1:2:3" has three pieces and is `NaN`. */
  lemma ExampleThreePieces()
    ensures ParseTimestamp("1:2:3") == None
  {
    var parts := ["1", "2", "3"];
    assert parts[1..] == ["2", "3"] && parts[1..][1..] == ["3"];
    assert Join(parts, ':') == "1:2:3";
    SplitJoin(parts, ':');
  }

  /** The empty string and "5:" are not `NaN`, because `Number("")` is 0. */
  lemma ExamplesWithEmptyPieces()
    ensures ParseTimestamp("") == Some(0)
    ensures ParseTimestamp("5:") == Some(300)
  {
    assert "5" + ":" + "" == "5:";
    MinutesAndSeconds("5", "");
    assert DigitsValue("5") == 5 by { assert "5"[..0] == ""; }
  }
}

/** The quiz countdown started by startTimer: a one-second interval that shows
    the time left as minutes:seconds, counts down, and ends the quiz once the
    time left drops below zero. A tick is a step here, not a second of real time. */
module Countdown {
  import opened Decimal

  /** `t % 60` in JavaScript: the remainder takes the sign of the dividend,
      so it is a whole number of minutes away from t. */
  function JsSeconds(t: int): (r: int)
    ensures -60 < r < 60 && (t - r) % 60 == 0
    ensures t >= 0 ==> r >= 0
    ensures t < 0 ==> r <= 0
  {
    if t >= 0 then t % 60 else -((-t) % 60)
  }

  /** `seconds < 10 ? '0' + seconds : seconds` */
  function PaddedSeconds(seconds: int): string {
    if seconds < 10 then "0" + IntToString(seconds) else IntToString(seconds)
  }

  /** The text shown after "Time: " when t seconds are left. Math.floor(t / 60)
      is Dafny's division by the positive 60; for a negative t the '0' of the
      padding lands in front of the minus sign, as in the source. */
  function ClockText(t: int): string {
    IntToString(t / 60) + ":" + PaddedSeconds(JsSeconds(t))
  }

  /** Seconds from 0 to 59 are shown as exactly two digits that read back as them. */
  lemma PaddedSecondsReadBack(sec: int)
    requires 0 <= sec < 60
    ensures |PaddedSeconds(sec)| == 2 && AllDigits(PaddedSeconds(sec))
    ensures DigitsValue(PaddedSeconds(sec)) == sec
  {
    NatToStringLength(sec);
    NatToStringRoundTrip(sec);
    var ss := PaddedSeconds(sec);
    if sec < 10 {
      assert ss[..1] == "0";
      assert DigitsValue(ss[..1]) == 0;
    } else {
      var d := NatToString(sec);
      assert ss == d;
    }
  }

  /** For a time left that is not negative the display reads back as m:ss:
      the minutes, a colon, exactly two digits of seconds, and
      60 * minutes + seconds is the time left. */
  lemma ClockTextReadsBack(t: nat)
    ensures var s := ClockText(t); var k := |s| - 3;
      k >= 1 && s[k] == ':' && AllDigits(s[..k]) && AllDigits(s[k + 1..]) &&
      DigitsValue(s[..k]) == t / 60 && DigitsValue(s[k + 1..]) == t % 60 &&
      60 * DigitsValue(s[..k]) + DigitsValue(s[k + 1..]) == t
  {
    var ss := PaddedSeconds(JsSeconds(t));
    assert JsSeconds(t) == t % 60;
    PaddedSecondsReadBack(t % 60);
    NatToStringRoundTrip(t / 60);
    var m := NatToString(t / 60);
    var s := ClockText(t);
    assert s == m + ":" + ss;
    assert s[..|s| - 3] == m;
    assert s[|s| - 2..] == ss;
  }

  /** A negative time left (the quiz shows one only when it was started with a
      negative number of minutes) reads as negative minutes. Whole minutes
      show ":00"; otherwise the seconds are negative too and the padding's '0'
      lands in front of their minus sign: -5 shows as "-1:0-5". */
  lemma ClockTextBelowZero(t: int)
    requires t < 0
    ensures (-t) % 60 == 0 ==> ClockText(t) == "-" + NatToString((-t) / 60) + ":00"
    ensures (-t) % 60 != 0 ==>
      ClockText(t) == "-" + NatToString((-t) / 60 + 1) + ":0-" + NatToString((-t) % 60)
  {
    var m, r := (-t) / 60, (-t) % 60;
    assert -t == 60 * m + r;
    if r == 0 {
      assert t / 60 == -m;
      assert ClockText(t) == IntToString(-m) + ":" + "0" + NatToString(0);
    } else {
      assert t / 60 == -(m + 1);
      assert JsSeconds(t) == -r;
    }
  }

  /** The countdown between ticks: the seconds left and whether the interval still runs. */
  datatype Timer = Timer(left: int, running: bool)

  /** One tick: `if (--timeLeft < 0)` clears the interval. A cleared interval does not tick. */
  function Step(c: Timer): (r: Timer)
    ensures r.running ==> c.running && r.left >= 0
    ensures r.left <= c.left
  {
    if !c.running then c else Timer(c.left - 1, c.left - 1 >= 0)
  }

  /** The countdown after k ticks of startTimer(duration). */
  function AfterTicks(duration: int, k: nat): Timer {
    if k == 0 then Timer(duration, true) else Step(AfterTicks(duration, k - 1))
  }

  /** A duration d >= 0 keeps running through tick d and ends on tick d + 1
      (a duration of 0 ends on the first tick, a negative one too), and each
      tick before the end takes exactly one second off. */
  lemma {:induction false} EndsOnTick(duration: int, k: nat)
    ensures var last := if duration < 0 then 0 else duration;
      (AfterTicks(duration, k).running <==> k <= last) &&
      AfterTicks(duration, k).left == duration - (if k <= last + 1 then k else last + 1)
  {
    if k > 0 {
      EndsOnTick(duration, k - 1);
    }
  }
}

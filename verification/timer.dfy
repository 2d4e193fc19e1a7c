/** The exam countdown (src/components/Exam/Timer.tsx): a per-second tick over
    `timeLeft` and `isWarning`, the `H:MM:SS` / `M:SS` display and the colour of the
    timer. */
module Timer {
  import opened Types

  // ---------------------------------------------------------------------------
  // The tick

  /** The state after one tick, and whether that tick called `onTimeUp`. */
  datatype TickOutcome = TickOutcome(timeLeft: nat, isWarning: bool, timeUp: bool)

  /** One tick of the interval: the time drops by one second; at or below 300 seconds
      the warning turns on (and stays on); a tick that reaches 0 stores 0 and calls
      `onTimeUp`. */
  function Step(timeLeft: nat, isWarning: bool): (r: TickOutcome)
    ensures timeLeft > 1 ==> r.timeLeft == timeLeft - 1 && !r.timeUp
    ensures timeLeft <= 1 ==> r.timeLeft == 0 && r.timeUp
    ensures isWarning ==> r.isWarning
  {
    var newTime := timeLeft - 1;
    var warning := if newTime <= 300 && !isWarning then true else isWarning;
    if newTime <= 0 then TickOutcome(0, warning, true) else TickOutcome(newTime, warning, false)
  }

  /** The state after k ticks from `timeLeft` and `isWarning`; `timeUp` tells whether
      the k-th tick called `onTimeUp`. */
  function After(timeLeft: nat, isWarning: bool, k: nat): TickOutcome
    decreases k
  {
    if k == 0 then TickOutcome(timeLeft, isWarning, false)
    else
      var previous := After(timeLeft, isWarning, k - 1);
      Step(previous.timeLeft, previous.isWarning)
  }

  /** How many times the first k ticks call `onTimeUp`. */
  function TimeUpCalls(timeLeft: nat, isWarning: bool, k: nat): (calls: nat)
    ensures calls <= k
    decreases k
  {
    if k == 0 then 0
    else TimeUpCalls(timeLeft, isWarning, k - 1) + (if After(timeLeft, isWarning, k).timeUp then 1 else 0)
  }

  /** The deadline as the code has it: after k ticks from t seconds the time left is
      t - k, clamped at 0; `onTimeUp` is first called at tick t and then again at every
      later tick; the warning is on once some tick reached 300 seconds or less. */
  lemma {:induction false} Deadline(t: nat, w: bool, k: nat)
    ensures After(t, w, k).timeLeft == if k < t then t - k else 0
    ensures k >= 1 ==> (After(t, w, k).timeUp <==> k >= t)
    ensures After(t, w, k).isWarning <==> w || (k >= 1 && t - k <= 300)
    ensures TimeUpCalls(t, w, k) == if k < t then 0 else if t == 0 then k else k - t + 1
    decreases k
  {
    if k > 0 {
      Deadline(t, w, k - 1);
    }
  }

  /** The countdown component's state. */
  class Countdown {
    var timeLeft: nat
    var isWarning: bool

    /** `useState(duration * 60)` and `useState(false)`. */
    constructor (duration: nat)
      ensures timeLeft == duration * 60 && !isWarning
    {
      timeLeft := duration * 60;
      isWarning := false;
    }

    /** The interval callback; `timeUp` tells whether it called `onTimeUp`. */
    method Tick() returns (timeUp: bool)
      modifies this
      ensures TickOutcome(timeLeft, isWarning, timeUp) == Step(old(timeLeft), old(isWarning))
    {
      var newTime := timeLeft - 1;
      if newTime <= 300 && !isWarning {
        isWarning := true;
      }
      if newTime <= 0 {
        timeUp := true;
        timeLeft := 0;
      } else {
        timeUp := false;
        timeLeft := newTime;
      }
    }

    /** The text the component shows. */
    function Display(): string
      reads this
    {
      FormatTime(timeLeft)
    }

    /** The colour the component shows. */
    function Style(): Style
      reads this
    {
      StyleOf(timeLeft)
    }
  }

  // ---------------------------------------------------------------------------
  // Colour

  datatype Style = Red | Amber | Neutral

  /** `getTimerStyle`: red in the last minute, amber in the last five minutes, neutral
      before. */
  function StyleOf(timeLeft: int): (s: Style)
    ensures s == Red <==> timeLeft <= 60
    ensures s == Amber <==> 60 < timeLeft <= 300
    ensures s == Neutral <==> 300 < timeLeft
  {
    if timeLeft <= 60 then Red
    else if timeLeft <= 300 then Amber
    else Neutral
  }

  function Urgency(s: Style): nat {
    match s
    case Neutral => 0
    case Amber => 1
    case Red => 2
  }

  /** As the time runs down the colour only ever gets more urgent. */
  lemma StyleEscalates(earlier: int, later: int)
    requires later <= earlier
    ensures Urgency(StyleOf(earlier)) <= Urgency(StyleOf(later))
  {
  }

  // ---------------------------------------------------------------------------
  // Display

  /** A non-empty string of decimal digits. */
  predicate IsDigits(s: string) {
    |s| >= 1 && forall i :: 0 <= i < |s| ==> '0' <= s[i] <= '9'
  }

  function DigitChar(d: nat): (c: char)
    requires d < 10
    ensures '0' <= c <= '9'
  {
    ('0' as int + d) as char
  }

  /** `n.toString()` in decimal. */
  function Decimal(n: nat): (s: string)
    ensures IsDigits(s)
    decreases n
  {
    if n < 10 then [DigitChar(n)] else Decimal(n / 10) + [DigitChar(n % 10)]
  }

  /** `s.padStart(2, '0')`. */
  function PadStart2(s: string): (p: string)
    ensures |s| >= 2 ==> p == s
    ensures |s| < 2 ==> |p| == 2 && p[2 - |s|..] == s && forall i :: 0 <= i < 2 - |s| ==> p[i] == '0'
  {
    if |s| >= 2 then s else if |s| == 1 then "0" + s else "00"
  }

  /** The components `formatTime` computes: hours, minutes within the hour and seconds
      within the minute; they recombine to the input. */
  function ClockParts(seconds: nat): (p: (nat, nat, nat))
    ensures p.1 < 60 && p.2 < 60
    ensures p.0 * 3600 + p.1 * 60 + p.2 == seconds
    ensures p.0 > 0 <==> seconds >= 3600
  {
    (seconds / 3600, (seconds % 3600) / 60, seconds % 60)
  }

  /** `formatTime`: `H:MM:SS` when there is at least one hour, `M:SS` otherwise. */
  function FormatTime(seconds: nat): string {
    var (hours, minutes, remainingSeconds) := ClockParts(seconds);
    Clock(hours, minutes, remainingSeconds)
  }

  /** The template literal of `formatTime`. */
  function Clock(hours: nat, minutes: nat, remainingSeconds: nat): string {
    if hours > 0 then
      Decimal(hours) + ":" + PadStart2(Decimal(minutes)) + ":" + PadStart2(Decimal(remainingSeconds))
    else
      Decimal(minutes) + ":" + PadStart2(Decimal(remainingSeconds))
  }

  /** The fields of a string separated by ':'. */
  function Split(s: string): (fields: seq<string>)
    ensures |fields| >= 1
  {
    if s == [] then [""]
    else
      var rest := Split(s[1..]);
      if s[0] == ':' then [""] + rest else [[s[0]] + rest[0]] + rest[1..]
  }

  /** The number a string of decimal digits denotes. */
  function ValueOf(s: string): nat
    requires forall i :: 0 <= i < |s| ==> '0' <= s[i] <= '9'
    decreases |s|
  {
    if s == [] then 0 else ValueOf(s[..|s| - 1]) * 10 + (s[|s| - 1] as int - '0' as int)
  }

  /** Reads a displayed clock back: `H:MM:SS` or `M:SS` into seconds. */
  function ParseClock(s: string): Option<nat> {
    ParseFields(Split(s))
  }

  /** The seconds a list of clock fields denotes. */
  function ParseFields(f: seq<string>): Option<nat> {
    if |f| == 3 && IsDigits(f[0]) && IsDigits(f[1]) && IsDigits(f[2]) then
      Some(ValueOf(f[0]) * 3600 + ValueOf(f[1]) * 60 + ValueOf(f[2]))
    else if |f| == 2 && IsDigits(f[0]) && IsDigits(f[1]) then
      Some(ValueOf(f[0]) * 60 + ValueOf(f[1]))
    else None
  }

  lemma {:induction false} ValueOfDecimal(n: nat)
    ensures ValueOf(Decimal(n)) == n
    decreases n
  {
    if n >= 10 {
      var s := Decimal(n);
      assert s[..|s| - 1] == Decimal(n / 10);
      ValueOfDecimal(n / 10);
    }
  }

  lemma {:induction false} ValueOfLeadingZero(s: string)
    requires forall i :: 0 <= i < |s| ==> '0' <= s[i] <= '9'
    ensures ValueOf("0" + s) == ValueOf(s)
    decreases |s|
  {
    if s != [] {
      assert ("0" + s)[..|"0" + s| - 1] == "0" + s[..|s| - 1];
      ValueOfLeadingZero(s[..|s| - 1]);
    }
  }

  lemma {:induction false} SplitSingle(a: string)
    requires forall i :: 0 <= i < |a| ==> a[i] != ':'
    ensures Split(a) == [a]
    decreases |a|
  {
    if a != [] {
      SplitSingle(a[1..]);
      assert Split(a) == [[a[0]] + a[1..]];
      assert [a[0]] + a[1..] == a;
    }
  }

  lemma {:induction false} SplitJoin(a: string, b: string)
    requires forall i :: 0 <= i < |a| ==> a[i] != ':'
    ensures Split(a + ":" + b) == [a] + Split(b)
    decreases |a|
  {
    if a == [] {
      assert a + ":" + b == [':'] + b;
      assert (a + ":" + b)[1..] == b;
    } else {
      assert (a + ":" + b)[1..] == a[1..] + ":" + b;
      SplitJoin(a[1..], b);
      assert [a[0]] + a[1..] == a;
    }
  }

  /** A field of `formatTime`'s output has no ':' and reads back as its number. */
  lemma Field(n: nat, padded: bool)
    ensures var s := if padded then PadStart2(Decimal(n)) else Decimal(n);
            IsDigits(s) && ValueOf(s) == n && forall i :: 0 <= i < |s| ==> s[i] != ':'
    ensures n < 60 ==> |PadStart2(Decimal(n))| == 2
  {
    ValueOfDecimal(n);
    if |Decimal(n)| == 1 {
      ValueOfLeadingZero(Decimal(n));
    }
    if 10 <= n < 60 {
      assert Decimal(n) == Decimal(n / 10) + [DigitChar(n % 10)];
    }
  }

  lemma SplitThree(a: string, b: string, c: string)
    requires forall i :: 0 <= i < |a| ==> a[i] != ':'
    requires forall i :: 0 <= i < |b| ==> b[i] != ':'
    requires forall i :: 0 <= i < |c| ==> c[i] != ':'
    ensures Split(a + ":" + b + ":" + c) == [a, b, c]
  {
    assert a + ":" + b + ":" + c == a + ":" + (b + ":" + c);
    SplitJoin(a, b + ":" + c);
    SplitJoin(b, c);
    SplitSingle(c);
  }

  lemma SplitTwo(a: string, b: string)
    requires forall i :: 0 <= i < |a| ==> a[i] != ':'
    requires forall i :: 0 <= i < |b| ==> b[i] != ':'
    ensures Split(a + ":" + b) == [a, b]
  {
    SplitJoin(a, b);
    SplitSingle(b);
  }

  lemma ParseThree(a: string, b: string, c: string, x: nat, y: nat, z: nat)
    requires IsDigits(a) && IsDigits(b) && IsDigits(c)
    requires ValueOf(a) == x && ValueOf(b) == y && ValueOf(c) == z
    ensures Split(a + ":" + b + ":" + c) == [a, b, c]
    ensures ParseClock(a + ":" + b + ":" + c) == Some(x * 3600 + y * 60 + z)
  {
    SplitThree(a, b, c);
    assert ParseClock(a + ":" + b + ":" + c) == ParseFields([a, b, c]);
  }

  lemma ParseTwo(a: string, b: string)
    requires IsDigits(a) && IsDigits(b)
    ensures Split(a + ":" + b) == [a, b]
    ensures ParseClock(a + ":" + b) == Some(ValueOf(a) * 60 + ValueOf(b))
  {
    SplitTwo(a, b);
    assert ParseClock(a + ":" + b) == ParseFields([a, b]);
  }

  /** With hours, the template reads back as the seconds its components denote, in
      three fields whose last two have two digits. */
  lemma ClockRoundTripHours(h: nat, m: nat, r: nat)
    requires h > 0 && m < 60 && r < 60
    ensures ParseClock(Clock(h, m, r)) == Some(h * 3600 + m * 60 + r)
    ensures var f := Split(Clock(h, m, r)); |f| == 3 && |f[1]| == 2 && |f[2]| == 2
  {
    Field(h, false);
    Field(m, true);
    Field(r, true);
    ParseThree(Decimal(h), PadStart2(Decimal(m)), PadStart2(Decimal(r)), h, m, r);
  }

  /** Without hours, the template reads back as the seconds its components denote, in
      two fields whose last has two digits. */
  lemma ClockRoundTripMinutes(m: nat, r: nat)
    requires m < 60 && r < 60
    ensures ParseClock(Clock(0, m, r)) == Some(m * 60 + r)
    ensures var f := Split(Clock(0, m, r)); |f| == 2 && |f[1]| == 2
  {
    Field(m, false);
    Field(r, true);
    ParseTwo(Decimal(m), PadStart2(Decimal(r)));
  }

  /** The display round-trips: reading `formatTime(s)` back gives s, so no second is
      lost or rounded. With an hour or more it has three fields, the last two of two
      digits; below an hour it has two, the last of two digits. */
  lemma FormatTimeRoundTrip(seconds: nat)
    ensures ParseClock(FormatTime(seconds)) == Some(seconds)
    ensures var f := Split(FormatTime(seconds));
            if seconds >= 3600 then |f| == 3 && |f[1]| == 2 && |f[2]| == 2
            else |f| == 2 && |f[1]| == 2
  {
    var p := ClockParts(seconds);
    assert FormatTime(seconds) == Clock(p.0, p.1, p.2);
    if p.0 > 0 {
      ClockRoundTripHours(p.0, p.1, p.2);
    } else {
      ClockRoundTripMinutes(p.1, p.2);
    }
  }
}

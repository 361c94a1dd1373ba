/** The deep-work timer of `src/Components/FocusMode.jsx`: a countdown
    from 25 minutes, shown as `m:ss`, that can be paused and stops at zero. */
module Focus {
  import opened Text

  /** `25 * 60`: the session length in seconds. */
  const SessionLength: nat := 1500

  /** The seconds field: a leading `0` below ten, as `s < 10 ? '0' : ''`. */
  function TwoDigits(s: nat): string
  {
    (if s < 10 then "0" else "") + NatToString(s)
  }

  /** `formatTime(seconds)`: `Math.floor(seconds / 60)`, a colon, and
      `seconds % 60` padded to two digits. */
  function FormatTime(seconds: nat): string
  {
    NatToString(seconds / 60) + ":" + TwoDigits(seconds % 60)
  }

  lemma {:induction false} NatToStringShort(n: nat)
    ensures n < 10 ==> |NatToString(n)| == 1
    ensures 10 <= n < 100 ==> |NatToString(n)| == 2
  {
    if 10 <= n < 100 {
      assert NatToString(n) == NatToString(n / 10) + [DigitChar(n % 10)];
    }
  }

  /** The seconds field is always two digits whose value is `s`. */
  lemma TwoDigitsSpec(s: nat)
    requires s < 60
    ensures |TwoDigits(s)| == 2 && AllDigits(TwoDigits(s)) && DigitsValue(TwoDigits(s)) == s
  {
    NatToStringShort(s);
    DigitsValueOfNatToString(s);
    var t := TwoDigits(s);
    if s < 10 {
      assert t == "0" + NatToString(s);
      assert t[..1] == "0";
      assert DigitsValue(t[..1]) == 0;
    } else {
      assert t == NatToString(s);
    }
  }

  /** The full session shows as `25:00`. */
  lemma SessionStartShows()
    ensures FormatTime(SessionLength) == "25:00"
  {
    assert NatToString(25) == NatToString(2) + [DigitChar(5)];
  }

  /** The minutes are every character before the colon. */
  lemma {:induction false} MinutesBeforeColon(m: string, rest: string)
    requires AllDigits(m)
    ensures forall k :: 0 <= k < |m| ==> (m + ":" + rest)[k] != ':'
  {
  }

  /** Different times never show the same text: reading the text back
      gives the minutes before the colon and the two digits after it. */
  lemma FormatTimeInjective(a: nat, b: nat)
    requires FormatTime(a) == FormatTime(b)
    ensures a == b
  {
    var ma, mb := NatToString(a / 60), NatToString(b / 60);
    var sa, sb := TwoDigits(a % 60), TwoDigits(b % 60);
    TwoDigitsSpec(a % 60);
    TwoDigitsSpec(b % 60);
    var fa := FormatTime(a);
    assert fa == ma + ":" + sa;
    assert FormatTime(b) == mb + ":" + sb;
    MinutesBeforeColon(ma, sa);
    MinutesBeforeColon(mb, sb);
    assert fa[|ma|] == ':' && FormatTime(b)[|mb|] == ':';
    assert |ma| == |mb|;
    assert ma == fa[..|ma|] && mb == fa[..|mb|];
    assert sa == fa[|ma| + 1..] && sb == fa[|mb| + 1..];
    NatToStringInjective(a / 60, b / 60);
  }

  // ---------------------------------------------------------------------------
  // The countdown

  /** The component's `timeLeft` and `isActive` state as a value. */
  datatype TimerState = TimerState(timeLeft: int, isActive: bool)

  /** One run of the effect on `[isActive, timeLeft]` together with the
      interval callback it schedules: while running with time left, one
      second passes; at zero the timer stops (and the alarm sounds);
      otherwise nothing happens. */
  function TickStep(s: TimerState): TimerState
  {
    if s.isActive && s.timeLeft > 0 then s.(timeLeft := s.timeLeft - 1)
    else if s.timeLeft == 0 then s.(isActive := false)
    else s
  }

  /** `n` seconds of ticking. */
  function Ticks(s: TimerState, n: nat): TimerState
    decreases n
  {
    if n == 0 then s else Ticks(TickStep(s), n - 1)
  }

  /** A running timer counts down one per tick to zero, is still running
      at zero and stops on the next tick; `timeLeft` never goes below zero.
      A paused timer keeps its time. */
  lemma {:induction false} TicksCountDown(s: TimerState, n: nat)
    requires s.timeLeft >= 0
    ensures Ticks(s, n).timeLeft == if s.isActive && n <= s.timeLeft then s.timeLeft - n
                                    else if s.isActive then 0 else s.timeLeft
    ensures Ticks(s, n).isActive <==> s.isActive && n <= s.timeLeft
    ensures Ticks(s, n).timeLeft >= 0
    decreases n
  {
    if n > 0 {
      TicksCountDown(TickStep(s), n - 1);
    }
  }

  /** The full session lasts 1500 ticks and ends with the timer stopped at
      `0:00`. */
  lemma SessionEnds()
    ensures Ticks(TimerState(SessionLength, true), SessionLength) == TimerState(0, true)
    ensures Ticks(TimerState(SessionLength, true), SessionLength + 1) == TimerState(0, false)
    ensures FormatTime(0) == "0:00"
  {
    TicksCountDown(TimerState(SessionLength, true), SessionLength);
    TicksCountDown(TimerState(SessionLength, true), SessionLength + 1);
  }

  /** The component's state; each step replaces it as the functions above
      say. */
  class Timer {
    var timeLeft: int
    var isActive: bool

    function State(): TimerState
      reads this
    {
      TimerState(timeLeft, isActive)
    }

    ghost predicate Valid()
      reads this
    {
      0 <= timeLeft <= SessionLength
    }

    /** Mounting: 25 minutes left, running. */
    constructor ()
      ensures Valid() && timeLeft == SessionLength && isActive
    {
      timeLeft := SessionLength;
      isActive := true;
    }

    /** One tick. */
    method Tick()
      requires Valid()
      modifies this
      ensures Valid()
      ensures State() == TickStep(old(State()))
    {
      if isActive && timeLeft > 0 {
        timeLeft := timeLeft - 1;
      } else if timeLeft == 0 {
        isActive := false;
      }
    }

    /** The Pause/Resume button: flips `isActive` and keeps the time. */
    method Toggle()
      requires Valid()
      modifies this
      ensures Valid() && isActive == !old(isActive) && timeLeft == old(timeLeft)
    {
      isActive := !isActive;
    }

    /** The timer display. */
    function Display(): string
      reads this
      requires Valid()
    {
      FormatTime(timeLeft)
    }
  }
}

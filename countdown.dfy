/** The countdown of script.js as integer state: `pausedRemain`, the running
    interval's `remain`, and whether the interval is active. */
module Countdown {
  import opened Base
  import TimeFormat

  /** A snapshot of the timer's state. */
  datatype TimerState = TimerState(pausedRemain: Option<int>, remain: int, running: bool)

  /** The value a start counts down from: `pausedRemain` if set, else `m*60+s`. */
  function StartValue(pausedRemain: Option<int>, m: int, s: int): int {
    if pausedRemain.Some? then pausedRemain.value else m * 60 + s
  }

  /** One interval tick: at zero the timer stops and forgets `pausedRemain`;
      otherwise `remain` goes down by one and is remembered as `pausedRemain`. */
  function Step(t: TimerState): TimerState {
    if !t.running then t
    else if t.remain <= 0 then t.(running := false, pausedRemain := None)
    else t.(remain := t.remain - 1, pausedRemain := Some(t.remain - 1))
  }

  /** `k` ticks in a row. */
  function Ticks(t: TimerState, k: nat): TimerState
    decreases k
  {
    if k == 0 then t else Ticks(Step(t), k - 1)
  }

  /** While time is left, each tick takes exactly one second off and the timer keeps
      running; `pausedRemain` follows `remain`. */
  lemma {:induction false} TicksCountDown(t: TimerState, k: nat)
    requires t.running && k <= t.remain
    ensures Ticks(t, k).running && Ticks(t, k).remain == t.remain - k
    ensures k > 0 ==> Ticks(t, k).pausedRemain == Some(t.remain - k)
    decreases k
  {
    if k > 0 {
      TicksCountDown(Step(t), k - 1);
    }
  }

  /** A timer started at `n >= 0` reaches 0 after `n` ticks and stops, clearing
      `pausedRemain`, on the tick after. */
  lemma TimerStops(t: TimerState)
    requires t.running && t.remain >= 0
    ensures Ticks(t, t.remain).remain == 0
    ensures !Ticks(t, t.remain + 1).running && Ticks(t, t.remain + 1).pausedRemain == None
  {
    TicksCountDown(t, t.remain);
    var u := Ticks(t, t.remain);
    assert Ticks(u, 1) == Step(u);
    TicksSplit(t, t.remain, 1);
  }

  lemma {:induction false} TicksSplit(t: TimerState, a: nat, b: nat)
    ensures Ticks(t, a + b) == Ticks(Ticks(t, a), b)
    decreases a
  {
    if a > 0 {
      TicksSplit(Step(t), a - 1, b);
    }
  }

  class Timer {
    var pausedRemain: Option<int>
    var remain: int
    var running: bool

    function State(): TimerState
      reads this
    {
      TimerState(pausedRemain, remain, running)
    }

    /** A remembered value is never negative, and a running timer's count is not
        negative and agrees with `pausedRemain` once that is set. */
    ghost predicate Valid()
      reads this
    {
      && (pausedRemain.Some? ==> pausedRemain.value >= 0)
      && (running ==> remain >= 0 && (pausedRemain.Some? ==> pausedRemain.value == remain))
    }

    constructor ()
      ensures Valid() && pausedRemain == None && !running
    {
      pausedRemain := None;
      remain := 0;
      running := false;
    }

    /** The start button: rejected (nothing changes) when the start value is not
        positive; otherwise the interval (re)starts from that value. */
    method Start(m: int, s: int) returns (started: bool)
      requires Valid()
      modifies this
      ensures Valid()
      ensures started <==> StartValue(old(pausedRemain), m, s) > 0
      ensures started ==> running && remain == StartValue(old(pausedRemain), m, s)
      ensures started ==> pausedRemain == old(pausedRemain)
      ensures !started ==> State() == old(State())
    {
      var r := StartValue(pausedRemain, m, s);
      if r <= 0 {
        return false;
      }
      remain := r;
      running := true;
      started := true;
    }

    /** One interval callback: shows the time left, then stops at 0 or counts down. */
    method Tick() returns (shown: string, finished: bool)
      requires Valid() && running
      modifies this
      ensures Valid()
      ensures State() == Step(old(State()))
      ensures shown == TimeFormat.FmtMMSS(old(remain))
      ensures finished <==> old(remain) == 0
    {
      shown := TimeFormat.FmtMMSS(remain);
      if remain <= 0 {
        running := false;
        pausedRemain := None;
        return shown, true;
      }
      remain := remain - 1;
      pausedRemain := Some(remain);
      finished := false;
    }

    /** The pause button: the interval stops, `pausedRemain` is kept for the next start. */
    method Pause()
      requires Valid()
      modifies this
      ensures Valid()
      ensures State() == old(State()).(running := false)
    {
      running := false;
    }

    /** The reset button: stops, forgets `pausedRemain`, and shows the entered time. */
    method Reset(m: int, s: int) returns (shown: string)
      requires Valid()
      modifies this
      ensures Valid()
      ensures State() == old(State()).(running := false, pausedRemain := None)
      ensures shown == TimeFormat.FmtMMSS(m * 60 + s)
    {
      running := false;
      pausedRemain := None;
      shown := TimeFormat.FmtMMSS(m * 60 + s);
    }
  }
}

/** QCubed\Timer: named stopwatches. A timer is running while its start time
    is not the sentinel -1; the static registry creates timers on demand.
    microtime(true) is the `now` argument of each operation. */
module Timers {
  import opened Php

  const NOT_STARTED: int := -1

  class Timer {
    const name: string
    var countStarted: int
    var timeStart: int
    var time: int

    /** new Timer(name): stopped, never started, no time accumulated. */
    constructor(name: string)
      ensures this.name == name && countStarted == 0 && timeStart == NOT_STARTED && time == 0
    {
      this.name := name;
      countStarted := 0;
      timeStart := NOT_STARTED;
      time := 0;
    }

    predicate Running() reads this { timeStart != NOT_STARTED }

    /** getTimerTime(): the accumulated time, plus the time since the start
        while running. */
    function TimerTime(now: int): (r: int)
      reads this
      ensures !Running() ==> r == time
      ensures Running() ==> r - time == now - timeStart
    {
      if timeStart == NOT_STARTED then time else time + now - timeStart
    }

    /** startTimer(): refuses a running timer; otherwise records the start and
        counts it. */
    method StartTimer(now: int) returns (r: Outcome<()>)
      modifies this
      ensures old(Running()) ==>
        (r == Raise(Exc(CallerExc, "Timer was already started"))
         && countStarted == old(countStarted) && timeStart == old(timeStart) && time == old(time))
      ensures !old(Running()) ==>
        (r == Ok(()) && countStarted == old(countStarted) + 1 && timeStart == now && time == old(time))
    {
      if timeStart != NOT_STARTED {
        return Raise(Exc(CallerExc, "Timer was already started"));
      }
      timeStart := now;
      countStarted := countStarted + 1;
      r := Ok(());
    }

    /** stopTimer(): freezes the current reading as the accumulated time. */
    method StopTimer(now: int) returns (t: int)
      modifies this
      ensures t == old(TimerTime(now)) && time == t && !Running()
      ensures countStarted == old(countStarted)
      ensures old(!Running()) ==> time == old(time)
    {
      time := TimerTime(now);
      timeStart := NOT_STARTED;
      t := time;
    }

    /** resetTimer(): returns the reading before the reset and starts again
        from zero; it cannot fail, since the timer is stopped first. */
    method ResetTimer(now: int) returns (t: int)
      modifies this
      ensures t == old(TimerTime(now))
      ensures time == 0 && timeStart == now && countStarted == old(countStarted) + 1
      ensures now != NOT_STARTED ==> Running() && TimerTime(now) == 0
    {
      t := StopTimer(now);
      time := 0;
      var started := StartTimer(now);
    }

    /** __get(): CountStarted and TimeStart; any other name raises. */
    method Get(property: string) returns (r: Outcome<Value>)
      ensures property == "CountStarted" ==> r == Ok(Int(countStarted))
      ensures property == "TimeStart" ==> r == Ok(Int(timeStart))
      ensures property != "CountStarted" && property != "TimeStart" ==>
        r == Raise(Exc(CallerExc, "Undefined property: " + property))
    {
      if property == "CountStarted" {
        r := Ok(Int(countStarted));
      } else if property == "TimeStart" {
        r := Ok(Int(timeStart));
      } else {
        r := Raise(Exc(CallerExc, "Undefined property: " + property));
      }
    }
  }

  /** A stopped timer keeps its reading however much later it is read. */
  lemma StoppedReadingFrozen(t: Timer, now1: int, now2: int)
    requires !t.Running()
    ensures t.TimerTime(now1) == t.TimerTime(now2)
  {
  }

  /** Start then stop accumulates exactly the time in between. */
  method StartStop(t: Timer, start: int, stop: int) returns (r: Outcome<()>, reading: int)
    requires !t.Running() && start != NOT_STARTED
    modifies t
    ensures r == Ok(()) && reading == old(t.time) + (stop - start)
    ensures t.countStarted == old(t.countStarted) + 1 && !t.Running()
  {
    r := t.StartTimer(start);
    reading := t.StopTimer(stop);
  }

  /** The static Timer::$objTimerArray. */
  class Registry {
    var timers: map<string, Timer>

    constructor()
      ensures timers == map[]
    {
      timers := map[];
    }

    /** Every timer is filed under its own name. */
    predicate Valid()
      reads this
    {
      forall n | n in timers :: timers[n].name == n
    }

    /** start(name): creates the named timer when missing, then starts it. */
    method Start(name: string, now: int) returns (r: Outcome<Timer>)
      requires Valid()
      modifies this, (if name in timers then {timers[name]} else {})
      ensures Valid() && name in timers
      ensures timers.Keys == old(timers.Keys) + {name}
      ensures forall n | n in old(timers) :: timers[n] == old(timers[n])
      ensures name !in old(timers) ==>
        (fresh(timers[name]) && timers[name].countStarted == 1
         && timers[name].timeStart == now && timers[name].time == 0 && r == Ok(timers[name]))
      ensures name in old(timers) && old(timers[name].Running()) ==>
        (r == Raise(Exc(CallerExc, "Timer was already started"))
         && timers[name].timeStart == old(timers[name].timeStart)
         && timers[name].countStarted == old(timers[name].countStarted)
         && timers[name].time == old(timers[name].time))
      ensures name in old(timers) && !old(timers[name].Running()) ==>
        (r == Ok(timers[name]) && timers[name].timeStart == now
         && timers[name].countStarted == old(timers[name].countStarted) + 1
         && timers[name].time == old(timers[name].time))
    {
      if name !in timers {
        var t := new Timer(name);
        timers := timers[name := t];
      }
      var t := timers[name];
      var s := t.StartTimer(now);
      if s.Raise? {
        return Raise(s.exc);
      }
      r := Ok(t);
    }

    /** getTime(name): the reading of a known timer; an unknown name raises
        and creates nothing. */
    method GetTime(name: string, now: int) returns (r: Outcome<int>)
      ensures name in timers ==> r == Ok(timers[name].TimerTime(now))
      ensures name !in timers ==>
        r == Raise(Exc(CallerExc, "Timer with name " + name + " was not started, cannot get its value"))
    {
      if name in timers {
        r := Ok(timers[name].TimerTime(now));
      } else {
        r := Raise(Exc(CallerExc, "Timer with name " + name + " was not started, cannot get its value"));
      }
    }

    /** stop(name): stops a known timer; an unknown name raises and creates
        nothing. */
    method Stop(name: string, now: int) returns (r: Outcome<int>)
      modifies (if name in timers then {timers[name]} else {})
      ensures name in timers ==>
        (r == Ok(old(timers[name].TimerTime(now))) && timers[name].time == r.value && !timers[name].Running()
         && timers[name].countStarted == old(timers[name].countStarted))
      ensures name !in timers ==>
        r == Raise(Exc(CallerExc, "Timer with name " + name + " it was not started, cannot stop it"))
    {
      if name in timers {
        var t := timers[name].StopTimer(now);
        r := Ok(t);
      } else {
        r := Raise(Exc(CallerExc, "Timer with name " + name + " it was not started, cannot stop it"));
      }
    }

    /** reset(name): resets a known timer; None (null) for an unknown name. */
    method Reset(name: string, now: int) returns (r: Option<int>)
      modifies (if name in timers then {timers[name]} else {})
      ensures name in timers ==>
        (r == Some(old(timers[name].TimerTime(now))) && timers[name].time == 0 && timers[name].timeStart == now
         && timers[name].countStarted == old(timers[name].countStarted) + 1)
      ensures name !in timers ==> r == None
    {
      if name in timers {
        var t := timers[name].ResetTimer(now);
        r := Some(t);
      } else {
        r := None;
      }
    }

    /** getTimer(name): the timer itself, or None (null). */
    method GetTimer(name: string) returns (r: Option<Timer>)
      ensures name in timers ==> r == Some(timers[name])
      ensures name !in timers ==> r == None
    {
      if name in timers {
        r := Some(timers[name]);
      } else {
        r := None;
      }
    }
  }
}

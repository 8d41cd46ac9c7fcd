/** The hardware watchdog feeder of src/sip_media/hardware_watchdog.c: which configurations
    it accepts, when its thread feeds the device, and what that means for the hardware.

    Times are milliseconds of the monotonic clock, configuration values are seconds. */
module HardwareWatchdog {

  // --------------------------------------------------------------------- driver

  /** What the driver answers during hardware_watchdog_start; `actual` is the timeout it settled on,
      and `enables` is also true when it does not know the call (EINVAL or ENOTTY). */
  datatype Driver = Driver(opens: bool, setsTimeout: bool, actual: int, enables: bool, keepsAlive: bool,
                           threadStarts: bool, disarms: bool)

  // ------------------------------------------------------------------- feeding

  /** What the feeder thread decides on. */
  datatype Feeder = Feeder(timeout: nat, feed: nat, heartbeat: nat, lastFeed: nat)

  predicate Stale(f: Feeder, now: nat) {
    now > f.heartbeat && now - f.heartbeat >= f.timeout * 500
  }

  /** The thread's decision at one wake-up. */
  predicate Feeds(f: Feeder, now: nat, keepaliveOk: bool) {
    !Stale(f, now) && now - f.lastFeed >= f.feed * 1000 && keepaliveOk
  }

  /** In numbers: the device is fed exactly when the last beat is younger than half the timeout, the
      feed interval is over and the keepalive works. */
  lemma FeedingIsDueExactly(f: Feeder, now: nat, keepaliveOk: bool)
    requires f.timeout > 0
    ensures Feeds(f, now, keepaliveOk) <==>
            now < f.heartbeat + f.timeout * 500 && now >= f.lastFeed + f.feed * 1000 && keepaliveOk
  {
  }

  datatype Event = Beat(now: nat) | Tick(now: nat, keepaliveOk: bool)

  function Step(f: Feeder, e: Event): Feeder {
    match e
    case Beat(now) => f.(heartbeat := now)
    case Tick(now, ok) => if Feeds(f, now, ok) then f.(lastFeed := now) else f
  }

  /** Times at which the device is fed along a run. */
  function FeedTimes(f: Feeder, events: seq<Event>): seq<nat>
    decreases |events|
  {
    if events == [] then []
    else
      var e := events[0];
      (if e.Tick? && Feeds(f, e.now, e.keepaliveOk) then [e.now] else []) + FeedTimes(Step(f, e), events[1..])
  }

  /** A run in which keepalives work, the last beat is younger than half the timeout at every
      wake-up of the thread, and it wakes at least every `spacing` ms; `woke` is its last wake-up. */
  ghost predicate Healthy(f: Feeder, woke: nat, spacing: nat, events: seq<Event>)
    decreases |events|
  {
    events == []
    || (var e := events[0];
        && woke <= e.now
        && (e.Tick? ==> e.now - woke <= spacing && e.keepaliveOk && e.now < f.heartbeat + f.timeout * 500)
        && Healthy(Step(f, e), if e.Tick? then e.now else woke, spacing, events[1..]))
  }

  /** The hardware, fed last at `fed`, never waits `limit` ms up to any wake-up of the thread. */
  ghost predicate NeverStarved(f: Feeder, fed: nat, events: seq<Event>, limit: nat)
    decreases |events|
  {
    events == []
    || (var e := events[0];
        && (e.Tick? ==> e.now < fed + limit)
        && NeverStarved(Step(f, e), if e.Tick? && Feeds(f, e.now, e.keepaliveOk) then e.now else fed,
                        events[1..], limit))
  }

  /** Whatever the schedule, the device waits less than one feed interval plus one wake-up,
      plus the head start `fed` had on the thread's own first reading of the clock. */
  lemma {:induction false} FedInTime(f: Feeder, fed: nat, woke: nat, spacing: nat, events: seq<Event>, limit: nat)
    requires fed <= f.lastFeed <= woke < f.lastFeed + f.feed * 1000
    requires Healthy(f, woke, spacing, events)
    requires f.lastFeed - fed + f.feed * 1000 + spacing <= limit
    ensures NeverStarved(f, fed, events, limit)
    decreases |events|
  {
    if events != [] {
      var e := events[0];
      FedInTime(Step(f, e), if e.Tick? && Feeds(f, e.now, e.keepaliveOk) then e.now else fed,
                if e.Tick? then e.now else woke, spacing, events[1..], limit);
    }
  }

  /** Every timeout the code settles on, which is any answer of the driver above two feed
      intervals, keeps a healthy system alive, even when the thread wakes only once per feed
      interval and starts up to a second after the first keepalive. */
  lemma AcceptedConfigurationIsSafe(timeout: nat, feed: nat, first: nat, start: nat, events: seq<Event>)
    requires 1 <= feed && timeout > feed * 2
    requires first <= start <= first + 1000
    requires Healthy(Feeder(timeout, feed, start, start), start, feed * 1000, events)
    ensures NeverStarved(Feeder(timeout, feed, start, start), first, events, timeout * 1000)
  {
    FedInTime(Feeder(timeout, feed, start, start), first, start, feed * 1000, events, timeout * 1000);
  }

  /** The factor 2 is exact: for wake-ups one feed interval apart, every healthy run stays below
      the timeout if and only if the timeout covers two feed intervals. */
  lemma FactorTwoIsExact(timeout: nat, feed: nat)
    requires 0 < feed
    ensures feed * 2 <= timeout <==>
            forall events :: Healthy(Feeder(timeout, feed, 0, 0), 0, feed * 1000, events) ==>
                             NeverStarved(Feeder(timeout, feed, 0, 0), 0, events, timeout * 1000)
  {
    var f := Feeder(timeout, feed, 0, 0);
    if feed * 2 <= timeout {
      forall events | Healthy(f, 0, feed * 1000, events) ensures NeverStarved(f, 0, events, timeout * 1000) {
        FedInTime(f, 0, 0, feed * 1000, events, timeout * 1000);
      }
    } else {
      LateFeed(f);
    }
  }

  /** Waking just before a feed is due and one interval later leaves the device unfed for
      almost two intervals. */
  lemma LateFeed(f: Feeder)
    requires f.feed > 0 && f.feed * 2 > f.timeout && f.heartbeat == f.lastFeed == 0
    ensures exists events :: Healthy(f, 0, f.feed * 1000, events) && !NeverStarved(f, 0, events, f.timeout * 1000)
  {
    if f.timeout == 0 {
      StarvedAtOnce(f);
      return;
    }
    var early, late := f.feed * 1000 - 1, f.feed * 2000 - 1;
    var last := [Tick(late, true)];
    var beaten, again := f.(heartbeat := early), f.(heartbeat := late);
    var spacing, limit := f.feed * 1000, f.timeout * 1000;
    LastTick(again, 0, early, late, spacing, limit);
    Prepend(beaten, 0, early, Beat(late), again, last, spacing, limit);
    Prepend(beaten, 0, 0, Tick(early, true), beaten, [Beat(late)] + last, spacing, limit);
    var events := [Tick(early, true)] + ([Beat(late)] + last);
    Prepend(f, 0, 0, Beat(early), beaten, events, spacing, limit);
    assert Healthy(f, 0, spacing, [Beat(early)] + events);
  }

  /** With a timeout of zero, starved means woken at all. */
  lemma StarvedAtOnce(f: Feeder)
    requires f.timeout == 0 && f.feed > 0 && f.heartbeat == f.lastFeed == 0
    ensures exists events :: Healthy(f, 0, f.feed * 1000, events) && !NeverStarved(f, 0, events, 0)
  {
    var beaten := f.(heartbeat := 1);
    LastTick(beaten, 0, 0, 0, f.feed * 1000, 0);
    Prepend(f, 0, 0, Beat(1), beaten, [Tick(0, true)], f.feed * 1000, 0);
  }

  lemma LastTick(f: Feeder, fed: nat, woke: nat, now: nat, spacing: nat, limit: nat)
    requires woke <= now <= woke + spacing && now < f.heartbeat + f.timeout * 500 && fed + limit <= now
    ensures Healthy(f, woke, spacing, [Tick(now, true)]) && !NeverStarved(f, fed, [Tick(now, true)], limit)
  {
    var events := [Tick(now, true)];
    var e := events[0];
    assert events[1..] == [] && e.Tick?;
    assert NeverStarved(f, fed, events, limit) ==> e.now < fed + limit;
  }

  /** An event that feeds nothing, in front of a run. */
  lemma Prepend(f: Feeder, fed: nat, woke: nat, e: Event, next: Feeder, events: seq<Event>, spacing: nat, limit: nat)
    requires Step(f, e) == next && woke <= e.now
    requires e.Tick? ==> !Feeds(f, e.now, e.keepaliveOk) && e.now < f.heartbeat + f.timeout * 500 && e.keepaliveOk
    requires e.Tick? ==> e.now - woke <= spacing
    requires !NeverStarved(next, fed, events, limit)
    requires Healthy(next, if e.Tick? then e.now else woke, spacing, events)
    ensures !NeverStarved(f, fed, [e] + events, limit)
    ensures Healthy(f, woke, spacing, [e] + events)
  {
    assert ([e] + events)[1..] == events;
  }

  /** Without a beat after h nothing is fed from h + timeout/2 on. */
  lemma {:induction false} FeedingEndsAfterTheBeat(f: Feeder, events: seq<Event>)
    requires f.timeout > 0 && forall k | 0 <= k < |events| :: events[k].Tick?
    ensures forall t | t in FeedTimes(f, events) :: t < f.heartbeat + f.timeout * 500
    ensures forall t | t in FeedTimes(f, events) :: t + f.timeout * 1000 < f.heartbeat + f.timeout * 1500
    decreases |events|
  {
    if events != [] {
      var e := events[0];
      FeedingEndsAfterTheBeat(Step(f, e), events[1..]);
      var rest := FeedTimes(Step(f, e), events[1..]);
      assert FeedTimes(f, events) == (if Feeds(f, e.now, e.keepaliveOk) then [e.now] else []) + rest;
    }
  }

  /** A hung main loop is found: when the last beat was at h, the hardware, fed last before
      h + timeout/2, has waited a whole timeout by the time of any wake-up at or after h + 1.5
      timeouts, whatever the thread did in between. */
  lemma {:induction false} HungLoopIsReset(f: Feeder, fed: nat, events: seq<Event>, k: nat)
    requires f.timeout > 0 && fed < f.heartbeat + f.timeout * 500
    requires forall j | 0 <= j < |events| :: events[j].Tick?
    requires k < |events| && events[k].now >= f.heartbeat + f.timeout * 1500
    ensures !NeverStarved(f, fed, events, f.timeout * 1000)
    decreases |events|
  {
    var e := events[0];
    if k > 0 {
      assert events[1..][k - 1] == events[k];
      HungLoopIsReset(Step(f, e), if Feeds(f, e.now, e.keepaliveOk) then e.now else fed, events[1..], k - 1);
    }
  }

  // ------------------------------------------------------------ the C routines

  /** hardware_watchdog_state_t, the thread's own variables, and the device behind it. */
  class Watchdog {
    var deviceOpen: bool
    var running: bool
    var timeoutSeconds: int
    var feedSeconds: int
    var lastHeartbeat: nat
    var lastFeed: nat
    var staleReported: bool
    var armed: bool

    constructor ()
      ensures !deviceOpen && !running && !armed
    {
      deviceOpen, running, timeoutSeconds, feedSeconds := false, false, 0, 0;
      lastHeartbeat, lastFeed, staleReported, armed := 0, 0, false, false;
    }

    /** Started means fed by a thread under a configuration that leaves room for two intervals. */
    ghost predicate Valid()
      reads this
    {
      && (running ==> deviceOpen && armed && feedSeconds >= 1 && timeoutSeconds > feedSeconds * 2)
      && (!running ==> !deviceOpen)
    }

    function Decision(): Feeder
      requires timeoutSeconds >= 0 && feedSeconds >= 0
      reads this
    {
      Feeder(timeoutSeconds, feedSeconds, lastHeartbeat, lastFeed)
    }

    /** hardware_watchdog_start.  `guarded`: the OTA guard file exists. */
    method Start(enabled: bool, guarded: bool, device: string, timeout: int, feed: int, driver: Driver, now: nat)
      returns (rc: int)
      requires Valid()
      modifies this
      ensures Valid()
      ensures var asked := enabled && !guarded;
              var fit := device != "" && 5 <= timeout <= 3600 && 1 <= feed <= 3600 && feed * 2 < timeout;
              var settled := driver.opens && driver.setsTimeout && driver.actual > feed * 2;
              var willing := settled && driver.enables && driver.keepsAlive && driver.threadStarts;
              && rc == (if asked && (!fit || (!old(running) && !willing)) then -1 else 0)
              && running == (old(running) || (asked && fit && willing))
              && armed == (if !asked || !fit || old(running) || !driver.opens then old(armed)
                           else if running then true
                           else !driver.disarms && if settled then driver.enables else old(armed))
      ensures if running && !old(running)
              then timeoutSeconds == driver.actual && feedSeconds == feed && lastHeartbeat == lastFeed == now && !staleReported
              else unchanged(`deviceOpen, `timeoutSeconds, `feedSeconds, `lastHeartbeat, `lastFeed, `staleReported)
    {
      if !enabled { return 0; }
      if guarded { return 0; }
      if device == "" || timeout < 5 || timeout > 3600 || feed < 1 || feed > 3600 || feed * 2 >= timeout {
        return -1;
      }
      if running || deviceOpen { return 0; }
      if !driver.opens { return -1; }
      var actual := driver.actual;
      if !driver.setsTimeout || actual <= feed * 2 {
        DisarmAndClose(driver.disarms);
        return -1;
      }
      armed := driver.enables;
      if !driver.enables || !driver.keepsAlive {
        DisarmAndClose(driver.disarms);
        return -1;
      }
      if !driver.threadStarts {
        DisarmAndClose(driver.disarms);
        return -1;
      }
      deviceOpen, running, timeoutSeconds, feedSeconds, lastHeartbeat := true, true, actual, feed, now;
      lastFeed, staleReported := now, false;
      return 0;
    }

    /** watchdog_disarm_and_close with disarm requested. */
    method DisarmAndClose(disarms: bool)
      modifies `armed
      ensures armed == (old(armed) && !disarms)
    {
      if disarms { armed := false; }
    }

    method Heartbeat(now: nat)
      requires Valid()
      modifies `lastHeartbeat
      ensures Valid()
      ensures if running then Decision() == Step(old(Decision()), Beat(now)) else lastHeartbeat == old(lastHeartbeat)
    {
      if running { lastHeartbeat := now; }
    }

    /** One round of hardware_watchdog_thread on a running watchdog. */
    method Tick(now: nat, keepaliveOk: bool) returns (fed: bool)
      requires Valid() && running && now >= lastFeed
      modifies `lastFeed, `staleReported
      ensures Valid()
      ensures fed <==> now < lastHeartbeat + timeoutSeconds * 500
                       && now >= old(lastFeed) + feedSeconds * 1000 && keepaliveOk
      ensures Decision() == Step(old(Decision()), Event.Tick(now, keepaliveOk))
      ensures staleReported <==> now >= lastHeartbeat + timeoutSeconds * 500
    {
      fed := false;
      var staleAfter := timeoutSeconds * 500;
      if now > lastHeartbeat && now - lastHeartbeat >= staleAfter {
        if !staleReported { staleReported := true; }
      } else {
        staleReported := false;
        if now - lastFeed >= feedSeconds * 1000 {
          if keepaliveOk {
            lastFeed := now;
            fed := true;
          }
        }
      }
    }

    /** hardware_watchdog_stop. */
    method Stop(disarm: bool, disarms: bool)
      requires Valid()
      modifies this
      ensures Valid() && !running && !deviceOpen && timeoutSeconds == feedSeconds == lastHeartbeat == 0
      ensures armed == (old(armed) && !(old(deviceOpen) && disarm && disarms))
    {
      if deviceOpen && disarm { DisarmAndClose(disarms); }
      running, deviceOpen, timeoutSeconds, feedSeconds, lastHeartbeat := false, false, 0, 0, 0;
    }
  }

  /** What hardware_watchdog_start leaves running is fed in time: any valid running state, whose
      first keepalive was up to a second before the thread's first reading of the clock. */
  lemma StartedWatchdogIsSafe(w: Watchdog, first: nat, events: seq<Event>)
    requires w.Valid() && w.running && first <= w.lastFeed <= first + 1000
    requires Healthy(w.Decision(), w.lastFeed, w.feedSeconds * 1000, events)
    ensures NeverStarved(w.Decision(), first, events, w.timeoutSeconds * 1000)
  {
    FedInTime(w.Decision(), first, w.lastFeed, w.feedSeconds * 1000, events, w.timeoutSeconds * 1000);
  }
}

/** The protocol between firmware updaters (src/firmware_update.c) and media daemons
    (src/sip_media/hardware_watchdog.c) over the OTA guard file and the watchdog device.

    Every system call that another process can observe is one event, so a run is any
    interleaving of any number of updaters and daemons, each of which may also die
    between two events.  /proc is read one entry at a time. */
module OtaProtocol {

  type Pid = nat

  datatype Device = Absent | Present(armed: bool)

  datatype GuardState = Prepare | FlashingNow | VerifyingNow | Complete

  /** The guard file: link() creates it only when it is missing. */
  datatype Guard = Free | Held(owner: Pid, state: GuardState)

  /** A media daemon before its guard check, after finding no guard (it may touch the watchdog
      from here on, at any time), or after finding one (it never will). */
  datatype Daemon = Starting | Cleared | Refused

  /** Where stop_media_daemons_for_ota is: counting, sending SIGTERM, polling, sending SIGKILL,
      polling again; `left` polls remain after the current one. */
  datatype Stage = Count | Terminate | AwaitTerm(left: nat) | Force | AwaitKill(left: nat)

  /** An updater's program counter. */
  datatype Phase =
    | Launched
    | Opening(stage: Stage)
    | Visiting(stage: Stage, todo: set<Pid>, found: nat)
    | Disarming
    | Ready
    | Unmounting
    | Flashing
    | Verifying
    | Cancelling
    | Finished

  /** `touched`: some block has been erased or written since boot. */
  datatype State = State(device: Device, guard: Guard, daemons: map<Pid, Daemon>, updaters: map<Pid, Phase>,
                         touched: bool)

  datatype Event =
    | StartDaemon(d: Pid)
    | CheckGuard(d: Pid)
    | Arm(d: Pid)
    | Release(d: Pid)
    | DaemonDies(d: Pid)
    | StartUpdater(u: Pid)
    | LinkGuard(u: Pid, ok: bool)
    | OpenProc(u: Pid, ok: bool)
    | VisitEntry(u: Pid, entry: Pid, killed: bool)
    | CloseProc(u: Pid)
    | DisarmDevice(u: Pid, ok: bool, magicClose: bool)
    | SelfTestDone(u: Pid)
    | Reject(u: Pid)
    | PublishFlashing(u: Pid, ok: bool)
    | Unmount(u: Pid, ok: bool)
    | EraseOrWrite(u: Pid, ok: bool)
    | FlashWritten(u: Pid, published: bool)
    | Verified(u: Pid, ok: bool, published: bool)
    | RemoveGuard(u: Pid, ok: bool)
    | UpdaterDies(u: Pid)
    | Reboot

  const TERM_POLLS := 120  // 12000 ms in steps of 100 ms
  const KILL_POLLS := 20   // 2000 ms

  predicate At(s: State, u: Pid, phase: Phase) { u in s.updaters && s.updaters[u] == phase }

  predicate Enabled(s: State, e: Event) {
    match e
    case StartDaemon(d) => d !in s.daemons && d !in s.updaters
    case CheckGuard(d) => d in s.daemons && s.daemons[d] == Starting
    case Arm(d) => d in s.daemons && s.daemons[d] == Cleared && s.device.Present?
    case Release(d) => d in s.daemons && s.daemons[d] == Cleared && s.device.Present?
    case DaemonDies(d) => d in s.daemons
    case StartUpdater(u) => u !in s.daemons && u !in s.updaters
    case LinkGuard(u, ok) => At(s, u, Launched) && (ok ==> s.guard.Free?)
    case OpenProc(u, _) => u in s.updaters && s.updaters[u].Opening?
    case VisitEntry(u, entry, _) => u in s.updaters && s.updaters[u].Visiting? && entry != u
    case CloseProc(u) => u in s.updaters && s.updaters[u].Visiting? && s.updaters[u].todo == {}
    case DisarmDevice(u, ok, _) => At(s, u, Disarming) && (ok || s.device.Present?)
    case SelfTestDone(u) => At(s, u, Ready)
    case Reject(u) => At(s, u, Ready)
    case PublishFlashing(u, _) => At(s, u, Ready)
    case Unmount(u, _) => At(s, u, Unmounting)
    case EraseOrWrite(u, _) => At(s, u, Flashing)
    case FlashWritten(u, _) => At(s, u, Flashing)
    case Verified(u, _, _) => At(s, u, Verifying)
    case RemoveGuard(u, _) => At(s, u, Cancelling)
    case UpdaterDies(u) => u in s.updaters
    case Reboot => true
  }

  /** What follows a visit that reported `found` daemons. */
  function AfterVisit(stage: Stage, found: nat): Phase {
    match stage
    case Count => if found == 0 then Disarming else Opening(Terminate)
    case Terminate => Opening(AwaitTerm(TERM_POLLS))
    case AwaitTerm(left) =>
      if found == 0 then Disarming else if left > 0 then Opening(AwaitTerm(left - 1)) else Opening(Force)
    case Force => Opening(AwaitKill(KILL_POLLS))
    case AwaitKill(left) =>
      if found == 0 then Disarming else if left > 0 then Opening(AwaitKill(left - 1)) else Cancelling
  }

  /** What follows when /proc cannot be opened: an unfinished SIGTERM wait is escalated, anything
      else gives up. */
  function AfterFailedOpen(stage: Stage): Phase {
    if stage.AwaitTerm? then Opening(Force) else Cancelling
  }

  function Goto(s: State, u: Pid, phase: Phase): State { s.(updaters := s.updaters[u := phase]) }

  /** rename() puts the new state in place whatever the guard file was. */
  function Publish(s: State, u: Pid, state: GuardState, ok: bool): State {
    if ok then s.(guard := Held(u, state)) else s
  }

  function Next(s: State, e: Event): State
    requires Enabled(s, e)
  {
    match e
    case StartDaemon(d) => s.(daemons := s.daemons[d := Starting])
    case CheckGuard(d) => s.(daemons := s.daemons[d := if s.guard.Free? then Cleared else Refused])
    case Arm(d) => s.(device := Present(true))
    case Release(d) => s.(device := Present(false))
    case DaemonDies(d) => s.(daemons := s.daemons - {d})
    case StartUpdater(u) => Goto(s, u, Launched)
    case LinkGuard(u, ok) =>
      if ok then Goto(s.(guard := Held(u, Prepare)), u, Opening(Count)) else Goto(s, u, Finished)
    case OpenProc(u, ok) =>
      var stage := s.updaters[u].stage;
      Goto(s, u, if ok then Visiting(stage, s.daemons.Keys, 0) else AfterFailedOpen(stage))
    case VisitEntry(u, entry, killed) =>
      var v := s.updaters[u];
      var seen := entry in s.daemons;
      var s' := if seen && killed && v.stage.Force? then s.(daemons := s.daemons - {entry}) else s;
      Goto(s', u, Visiting(v.stage, v.todo - {entry}, if seen then v.found + 1 else v.found))
    case CloseProc(u) => Goto(s, u, AfterVisit(s.updaters[u].stage, s.updaters[u].found))
    case DisarmDevice(u, ok, magicClose) =>
      var s' := if s.device.Present? && (ok || magicClose) then s.(device := Present(false)) else s;
      Goto(s', u, if ok then Ready else Cancelling)
    case SelfTestDone(u) => Goto(s, u, Cancelling)
    case Reject(u) => Goto(s, u, Cancelling)
    case PublishFlashing(u, ok) => Goto(Publish(s, u, FlashingNow, ok), u, if ok then Unmounting else Cancelling)
    case Unmount(u, ok) => Goto(s, u, if ok then Flashing else Cancelling)
    case EraseOrWrite(u, ok) => Goto(s.(touched := true), u, if ok then Flashing else Finished)
    case FlashWritten(u, published) =>
      Goto(Publish(s.(touched := true), u, VerifyingNow, published), u, Verifying)
    case Verified(u, ok, published) => Goto(Publish(s, u, Complete, ok && published), u, Finished)
    case RemoveGuard(u, ok) => Goto(if ok then s.(guard := Free) else s, u, Finished)
    case UpdaterDies(u) => s.(updaters := s.updaters - {u})
    case Reboot => Boot(s.device)
  }

  /** /tmp, the processes and the armed watchdog do not survive a reboot. */
  function Boot(device: Device): State {
    State(if device.Present? then Present(false) else Absent, Free, map[], map[], false)
  }

  // -------------------------------------------------------------------- safety

  /** Between a successful link() and the end of guarded_flash_file. */
  predicate InCriticalSection(phase: Phase) { !phase.Launched? && !phase.Finished? }

  /** Past stop_media_daemons_for_ota with success. */
  predicate PastStop(phase: Phase) {
    phase.Disarming? || phase.Ready? || phase.Unmounting? || phase.Flashing? || phase.Verifying?
  }

  /** Past ota_guard_begin with success. */
  predicate PastBegin(phase: Phase) { PastStop(phase) && !phase.Disarming? }

  predicate MayFlash(phase: Phase) { phase.Flashing? || phase.Verifying? }

  ghost predicate NoClearedDaemon(s: State) {
    forall d | d in s.daemons :: s.daemons[d] != Cleared
  }

  ghost predicate OwnerHoldsGuard(s: State, u: Pid)
    requires u in s.updaters
  {
    InCriticalSection(s.updaters[u]) ==> s.guard.Held? && s.guard.owner == u
  }

  /** A visit that has found nothing so far still has every cleared daemon ahead of it. */
  ghost predicate VisitCovers(s: State, u: Pid)
    requires u in s.updaters
  {
    s.updaters[u].Visiting? && s.updaters[u].found == 0 ==>
      forall d | d in s.daemons && s.daemons[d] == Cleared :: d in s.updaters[u].todo
  }

  ghost predicate Sound(s: State, u: Pid)
    requires u in s.updaters
  {
    var phase := s.updaters[u];
    && OwnerHoldsGuard(s, u)
    && VisitCovers(s, u)
    && (PastStop(phase) ==> NoClearedDaemon(s))
    && (PastBegin(phase) ==> s.device != Present(true))
    && (InCriticalSection(phase) && !MayFlash(phase) ==> !s.touched)
  }

  /** Nobody can remove the guard, take it, or arm the watchdog. */
  ghost predicate LockedDown(s: State) {
    s.guard.Held? && NoClearedDaemon(s) && s.device != Present(true)
  }

  ghost predicate Inv(s: State) {
    && (forall u | u in s.updaters :: Sound(s, u))
    && (s.touched ==> LockedDown(s))
    && s.daemons.Keys !! s.updaters.Keys
  }

  lemma InvAtBoot(device: Device)
    ensures Inv(Boot(device))
  {
  }

  /** Two updaters are never in the critical section at once. */
  lemma MutualExclusion(s: State, u: Pid, v: Pid)
    requires Inv(s) && u in s.updaters && v in s.updaters
    requires InCriticalSection(s.updaters[u]) && InCriticalSection(s.updaters[v])
    ensures u == v
  {
    assert Sound(s, u) && Sound(s, v);
  }

  lemma DaemonStepKeepsInv(s: State, e: Event)
    requires Inv(s) && Enabled(s, e)
    requires e.StartDaemon? || e.CheckGuard? || e.Arm? || e.Release? || e.DaemonDies?
    ensures Inv(Next(s, e))
  {
    var s' := Next(s, e);
    forall u | u in s'.updaters ensures Sound(s', u) {
      assert Sound(s, u);
    }
  }

  predicate IsUpdaterStep(e: Event) {
    !(e.StartDaemon? || e.CheckGuard? || e.Arm? || e.Release? || e.DaemonDies? || e.Reboot?)
  }

  lemma UpdaterStepKeepsOwnSound(s: State, e: Event)
    requires Inv(s) && Enabled(s, e) && IsUpdaterStep(e) && e.u in Next(s, e).updaters
    ensures Sound(Next(s, e), e.u)
  {
    if e.u in s.updaters { assert Sound(s, e.u); }
  }

  lemma UpdaterStepKeepsOtherSound(s: State, e: Event, v: Pid)
    requires Inv(s) && Enabled(s, e) && IsUpdaterStep(e) && v in s.updaters && v != e.u
    ensures v in Next(s, e).updaters && Sound(Next(s, e), v)
  {
    assert Sound(s, v);
    if e.u in s.updaters && InCriticalSection(s.updaters[e.u]) && InCriticalSection(s.updaters[v]) {
      MutualExclusion(s, e.u, v);
    }
  }

  lemma UpdaterStepKeepsInv(s: State, e: Event)
    requires Inv(s) && Enabled(s, e) && IsUpdaterStep(e)
    ensures Inv(Next(s, e))
  {
    var s' := Next(s, e);
    if e.u in s.updaters { assert Sound(s, e.u); }
    forall v | v in s'.updaters ensures Sound(s', v) {
      if v == e.u { UpdaterStepKeepsOwnSound(s, e); } else { UpdaterStepKeepsOtherSound(s, e, v); }
    }
  }

  lemma StepKeepsInv(s: State, e: Event)
    requires Inv(s) && Enabled(s, e)
    ensures Inv(Next(s, e))
  {
    match e
    case StartDaemon(_) => DaemonStepKeepsInv(s, e);
    case CheckGuard(_) => DaemonStepKeepsInv(s, e);
    case Arm(_) => DaemonStepKeepsInv(s, e);
    case Release(_) => DaemonStepKeepsInv(s, e);
    case DaemonDies(_) => DaemonStepKeepsInv(s, e);
    case Reboot => InvAtBoot(s.device);
    case _ => UpdaterStepKeepsInv(s, e);
  }

  // ------------------------------------------------------------------ all runs

  ghost predicate IsRun(s: State, events: seq<Event>)
    decreases |events|
  {
    events == [] || (Enabled(s, events[0]) && IsRun(Next(s, events[0]), events[1..]))
  }

  function After(s: State, events: seq<Event>): State
    requires IsRun(s, events)
    decreases |events|
  {
    if events == [] then s else After(Next(s, events[0]), events[1..])
  }

  lemma {:induction false} RunKeepsInv(s: State, events: seq<Event>)
    requires Inv(s) && IsRun(s, events)
    ensures Inv(After(s, events))
    decreases |events|
  {
    if events != [] {
      StepKeepsInv(s, events[0]);
      RunKeepsInv(Next(s, events[0]), events[1..]);
    }
  }

  predicate TouchesFlash(e: Event) { e.EraseOrWrite? || e.FlashWritten? }

  /** In every run from boot, whenever an updater can erase or write a block: the watchdog is
      not armed, no live daemon can arm it, and no other updater is in the critical section. */
  lemma FlashingIsSafe(device: Device, events: seq<Event>, e: Event)
    requires IsRun(Boot(device), events) && TouchesFlash(e)
    requires Enabled(After(Boot(device), events), e)
    ensures var s := After(Boot(device), events);
            && s.device != Present(true)
            && (forall d :: !Enabled(s, Arm(d)))
            && (forall v | v in s.updaters && InCriticalSection(s.updaters[v]) :: v == e.u)
  {
    InvAtBoot(device);
    RunKeepsInv(Boot(device), events);
    var s := After(Boot(device), events);
    assert Sound(s, e.u);
    forall v | v in s.updaters && InCriticalSection(s.updaters[v]) ensures v == e.u {
      MutualExclusion(s, v, e.u);
    }
  }

  /** In every run from boot at most one updater is past ota_guard_begin, whatever dies when. */
  lemma OneUpdaterPastBegin(device: Device, events: seq<Event>, u: Pid, v: Pid)
    requires IsRun(Boot(device), events)
    requires var s := After(Boot(device), events);
             u in s.updaters && PastBegin(s.updaters[u]) && v in s.updaters && PastBegin(s.updaters[v])
    ensures u == v
  {
    InvAtBoot(device);
    RunKeepsInv(Boot(device), events);
    MutualExclusion(After(Boot(device), events), u, v);
  }

  /** Once a block was touched, then until reboot nobody arms the watchdog, takes the guard or
      removes it, even if the updater died half way: no daemon restart over a partial image. */
  lemma {:induction false} TouchedFlashStaysLocked(s: State, events: seq<Event>)
    requires Inv(s) && s.touched && IsRun(s, events)
    requires forall e | e in events :: !e.Reboot?
    ensures LockedDown(After(s, events)) && After(s, events).touched
    ensures forall e | e in events :: !e.Arm? && !(e.LinkGuard? && e.ok) && !e.RemoveGuard?
    decreases |events|
  {
    if events != [] {
      var e := events[0];
      StepKeepsInv(s, e);
      assert e.RemoveGuard? ==> Sound(s, e.u);
      assert events == [e] + events[1..];
      TouchedFlashStaysLocked(Next(s, e), events[1..]);
    }
  }

  /** The guard is only ever removed while no block has been touched. */
  lemma GuardRemovedOnlyUntouched(device: Device, events: seq<Event>, u: Pid)
    requires IsRun(Boot(device), events) && Enabled(After(Boot(device), events), RemoveGuard(u, true))
    ensures !After(Boot(device), events).touched
    ensures var g := After(Boot(device), events).guard; g.Held? && g.owner == u
  {
    InvAtBoot(device);
    RunKeepsInv(Boot(device), events);
    assert Sound(After(Boot(device), events), u);
  }

  // ------------------------------------------------------------------ progress

  /** Visits of /proc that can still follow one made at this stage. */
  function VisitsLeft(stage: Stage): nat {
    match stage
    case Count => 1 + (TERM_POLLS + 1) + 1 + (KILL_POLLS + 1)
    case Terminate => (TERM_POLLS + 1) + 1 + (KILL_POLLS + 1)
    case AwaitTerm(left) => left + 1 + (KILL_POLLS + 1)
    case Force => KILL_POLLS + 1
    case AwaitKill(left) => left
  }

  /** Stopping the daemons always comes to an end, and only a visit that found none succeeds. */
  lemma StoppingEnds(stage: Stage, found: nat)
    ensures var next := AfterVisit(stage, found);
            && (next.Opening? ==> VisitsLeft(next.stage) < VisitsLeft(stage))
            && (next.Disarming? ==> found == 0)
            && (next.Opening? || next.Disarming? || next.Cancelling?)
    ensures var next := AfterFailedOpen(stage);
            next.Opening? ==> VisitsLeft(next.stage) < VisitsLeft(stage)
  {
  }

  /** In the loop of visits of stop_media_daemons_for_ota. */
  predicate Stopping(phase: Phase) { phase.Opening? || phase.Visiting? }

  /** The run never leaves this loop before its last event. */
  ghost predicate StoppingThroughout(s: State, u: Pid, events: seq<Event>)
    requires IsRun(s, events)
    decreases |events|
  {
    events == []
    || (u in s.updaters && Stopping(s.updaters[u]) && StoppingThroughout(Next(s, events[0]), u, events[1..]))
  }

  /** How often u opens /proc, with success or not. */
  function Visits(u: Pid, events: seq<Event>): nat
    decreases |events|
  {
    if events == [] then 0
    else (if events[0].OpenProc? && events[0].u == u then 1 else 0) + Visits(u, events[1..])
  }

  /** Visits that can still begin. */
  function Rank(phase: Phase): nat
    requires Stopping(phase)
  {
    if phase.Opening? then VisitsLeft(phase.stage) + 1 else VisitsLeft(phase.stage)
  }

  /** One event lowers the rank when it begins a visit and never raises it; the loop is left to
      disarm only from a finished visit that found no daemon, and to give up only when the last
      poll behind SIGKILL still found one or /proc cannot be read outside the wait for SIGTERM. */
  lemma StoppingStep(s: State, u: Pid, e: Event)
    requires u in s.updaters && Stopping(s.updaters[u]) && Enabled(s, e)
    ensures var t := Next(s, e);
            u in t.updaters && Stopping(t.updaters[u]) ==>
              Rank(t.updaters[u]) + (if e.OpenProc? && e.u == u then 1 else 0) <= Rank(s.updaters[u])
    ensures var t := Next(s, e);
            At(t, u, Disarming) ==>
              && e == CloseProc(u) && s.updaters[u].Visiting?
              && s.updaters[u].todo == {} && s.updaters[u].found == 0
    ensures At(Next(s, e), u, Cancelling) ==>
              || (e == CloseProc(u) && s.updaters[u].stage == AwaitKill(0) && s.updaters[u].found > 0)
              || (e == OpenProc(u, false) && !s.updaters[u].stage.AwaitTerm?)
  {
    var phase := s.updaters[u];
    StoppingEnds(phase.stage, if phase.Visiting? then phase.found else 0);
  }

  lemma {:induction false} VisitsAreBounded(s: State, u: Pid, events: seq<Event>)
    requires IsRun(s, events) && StoppingThroughout(s, u, events)
    requires u in s.updaters && Stopping(s.updaters[u])
    ensures Visits(u, events) <= Rank(s.updaters[u])
    decreases |events|
  {
    if events != [] {
      var t := Next(s, events[0]);
      StoppingStep(s, u, events[0]);
      if |events| > 1 {
        VisitsAreBounded(t, u, events[1..]);
      } else {
        assert events[1..] == [];
      }
    }
  }

  /** In every interleaving, an updater that has taken the guard reads /proc at most
      VisitsLeft(Count) + 1 times, 145 in all, before it disarms the watchdog or gives up. */
  lemma StoppingIsBounded(s: State, u: Pid, events: seq<Event>)
    requires Enabled(s, LinkGuard(u, true))
    requires var t := Next(s, LinkGuard(u, true)); IsRun(t, events) && StoppingThroughout(t, u, events)
    ensures Visits(u, events) <= VisitsLeft(Count) + 1 == 145
  {
    VisitsAreBounded(Next(s, LinkGuard(u, true)), u, events);
  }

  /** The n-th visit when every one before it found a daemon. */
  function BusyPhase(n: nat): Phase {
    if n == 0 then Opening(Count)
    else var before := BusyPhase(n - 1); if before.Opening? then AfterVisit(before.stage, 1) else before
  }

  /** A daemon that does not go away: the second visit sends SIGTERM, 121 polls follow, the 124th
      visit sends SIGKILL, 21 polls follow, and the updater gives up after exactly 145 visits. */
  lemma {:induction false} StubbornDaemon(n: nat)
    requires n <= 145
    ensures BusyPhase(n) == if n == 0 then Opening(Count)
                            else if n == 1 then Opening(Terminate)
                            else if n <= 122 then Opening(AwaitTerm(122 - n))
                            else if n == 123 then Opening(Force)
                            else if n <= 144 then Opening(AwaitKill(144 - n))
                            else Cancelling
  {
    if n > 0 { StubbornDaemon(n - 1); }
  }

  // ------------------------------------------------------------- what the guard tells

  /** The guard's state is as far as its owner has come. */
  predicate Tells(state: GuardState, phase: Phase) {
    match phase
    case Unmounting => state == FlashingNow
    case Flashing => state == FlashingNow
    case Verifying => state == FlashingNow || state == VerifyingNow
    case Cancelling => state == Prepare || state == FlashingNow
    case _ => state == Prepare
  }

  ghost predicate GuardTells(s: State) {
    && (forall u | u in s.updaters && InCriticalSection(s.updaters[u]) ::
          s.guard.Held? && s.guard.owner == u && Tells(s.guard.state, s.updaters[u]))
    && (s.touched ==> s.guard.Held? && s.guard.state != Prepare)
  }

  lemma StepTells(s: State, e: Event)
    requires Inv(s) && GuardTells(s) && Enabled(s, e)
    ensures GuardTells(Next(s, e))
  {
    StepKeepsInv(s, e);
    var t := Next(s, e);
    forall u | u in t.updaters && InCriticalSection(t.updaters[u])
      ensures t.guard.Held? && t.guard.owner == u && Tells(t.guard.state, t.updaters[u])
    {
      assert Sound(t, u);
      if u in s.updaters { assert Sound(s, u); }
    }
    if IsUpdaterStep(e) && e.u in s.updaters { assert Sound(s, e.u); }
  }

  /** In every run, a guard that says PREPARE means an untouched flash, and an owner that is alive
      is where its guard says it is. */
  lemma {:induction false} GuardTellsThePhase(s: State, events: seq<Event>)
    requires Inv(s) && GuardTells(s) && IsRun(s, events)
    ensures GuardTells(After(s, events))
    decreases |events|
  {
    if events != [] {
      StepKeepsInv(s, events[0]);
      StepTells(s, events[0]);
      GuardTellsThePhase(Next(s, events[0]), events[1..]);
    }
  }

  predicate SaysComplete(g: Guard) { g.Held? && g.state.Complete? }

  /** A guard says COMPLETE only when its owner has read the image back and found it right. */
  lemma {:induction false} CompleteMeansVerified(s: State, events: seq<Event>)
    requires IsRun(s, events) && !SaysComplete(s.guard) && SaysComplete(After(s, events).guard)
    ensures Verified(After(s, events).guard.owner, true, true) in events
    decreases |events|
  {
    var e, t := events[0], Next(s, events[0]);
    if SaysComplete(t.guard) {
      CompleteStays(t, events[1..]);
    } else {
      CompleteMeansVerified(t, events[1..]);
    }
  }

  /** An owner of a COMPLETE guard that changes has read its image back, too. */
  lemma {:induction false} CompleteStays(s: State, events: seq<Event>)
    requires IsRun(s, events) && SaysComplete(s.guard) && SaysComplete(After(s, events).guard)
    ensures After(s, events).guard.owner == s.guard.owner || Verified(After(s, events).guard.owner, true, true) in events
    decreases |events|
  {
    if events != [] {
      var t := Next(s, events[0]);
      if SaysComplete(t.guard) {
        CompleteStays(t, events[1..]);
      } else {
        CompleteMeansVerified(t, events[1..]);
      }
    }
  }

  /** A guard over an untouched flash has an owner that is still at work. */
  ghost predicate Anchored(s: State) {
    && (s.guard.Held? && !s.touched ==>
          s.guard.owner in s.updaters && InCriticalSection(s.updaters[s.guard.owner]))
    && forall u | u in s.updaters && s.updaters[u].Verifying? :: s.touched
  }

  /** As long as no updater dies and the guard can be removed, nobody who has not touched the flash
      leaves without giving the guard back, whatever else fails. */
  lemma {:induction false} UntouchedGuardsAreGivenBack(s: State, events: seq<Event>)
    requires Inv(s) && Anchored(s) && IsRun(s, events)
    requires forall e | e in events :: !e.UpdaterDies? && !(e.RemoveGuard? && !e.ok)
    ensures Anchored(After(s, events))
    decreases |events|
  {
    if events != [] {
      var e := events[0];
      assert e in events;
      StepKeepsInv(s, e);
      StepAnchors(s, e);
      UntouchedGuardsAreGivenBack(Next(s, e), events[1..]);
    }
  }

  lemma StepAnchors(s: State, e: Event)
    requires Inv(s) && Anchored(s) && Enabled(s, e) && !e.UpdaterDies? && !(e.RemoveGuard? && !e.ok)
    ensures Anchored(Next(s, e))
  {
    if IsUpdaterStep(e) && e.u in s.updaters { assert Sound(s, e.u); }
  }

  /** A guard given back locks nobody out: the next daemon that looks may arm the watchdog, and the
      next updater may take the guard. */
  lemma RemovedGuardLetsOthersIn(s: State, u: Pid, d: Pid, v: Pid)
    requires Enabled(s, RemoveGuard(u, true)) && d in s.daemons && s.daemons[d] == Starting && s.device.Present?
    requires At(s, v, Launched)
    ensures var t := Next(s, RemoveGuard(u, true));
            && Enabled(t, LinkGuard(v, true))
            && Enabled(t, CheckGuard(d)) && Enabled(Next(t, CheckGuard(d)), Arm(d))
            && Next(Next(t, CheckGuard(d)), Arm(d)).device == Present(true)
  {
  }

  // ------------------------------------------------------------------- a whole run

  lemma Prepend(s: State, e: Event, t: State, events: seq<Event>)
    requires Enabled(s, e) && Next(s, e) == t && IsRun(t, events)
    ensures IsRun(s, [e] + events) && After(s, [e] + events) == After(t, events)
  {
    assert ([e] + events)[1..] == events;
  }

  lemma FromDisarmToErase(s8: State) returns (events: seq<Event>)
    requires s8 == State(Present(true), Held(7, Prepare), map[], map[7 := Disarming], false)
    ensures IsRun(s8, events) && After(s8, events).touched
  {
    var s9 := s8.(device := Present(false), updaters := map[7 := Ready]);
    var s10 := s9.(guard := Held(7, FlashingNow), updaters := map[7 := Unmounting]);
    var s11 := s10.(updaters := map[7 := Flashing]);
    Prepend(s11, EraseOrWrite(7, true), s11.(touched := true), []);
    events := [EraseOrWrite(7, true)] + [];
    Prepend(s10, Unmount(7, true), s11, events);
    events := [Unmount(7, true)] + events;
    Prepend(s9, PublishFlashing(7, true), s10, events);
    events := [PublishFlashing(7, true)] + events;
    Prepend(s8, DisarmDevice(7, true, true), s9, events);
    events := [DisarmDevice(7, true, true)] + events;
  }

  lemma FromLaunchToErase(s4: State) returns (events: seq<Event>)
    requires s4 == State(Present(true), Free, map[], map[], false)
    ensures IsRun(s4, events) && After(s4, events).touched
  {
    var s5 := s4.(updaters := map[7 := Launched]);
    var s6 := s4.(guard := Held(7, Prepare), updaters := map[7 := Opening(Count)]);
    var s7 := s6.(updaters := map[7 := Visiting(Count, {}, 0)]);
    var s8 := s6.(updaters := map[7 := Disarming]);
    events := FromDisarmToErase(s8);
    assert s6.daemons.Keys == {};
    Prepend(s7, CloseProc(7), s8, events);
    events := [CloseProc(7)] + events;
    Prepend(s6, OpenProc(7, true), s7, events);
    events := [OpenProc(7, true)] + events;
    Prepend(s5, LinkGuard(7, true), s6, events);
    events := [LinkGuard(7, true)] + events;
    Prepend(s4, StartUpdater(7), s5, events);
    events := [StartUpdater(7)] + events;
  }

  /** The protocol is not safe by standing still: from boot, past a daemon that armed the
      watchdog and died, a run reaches the first erase. */
  lemma ARunThatFlashes() returns (events: seq<Event>)
    ensures IsRun(Boot(Present(false)), events) && After(Boot(Present(false)), events).touched
    ensures |events| > 2 && events[2] == Arm(5)
  {
    var s0 := Boot(Present(false));
    var s1 := s0.(daemons := map[5 := Starting]);
    var s2 := s0.(daemons := map[5 := Cleared]);
    var s3 := s2.(device := Present(true));
    var s4 := s3.(daemons := map[]);
    events := FromLaunchToErase(s4);
    Prepend(s3, DaemonDies(5), s4, events);
    events := [DaemonDies(5)] + events;
    Prepend(s2, Arm(5), s3, events);
    events := [Arm(5)] + events;
    Prepend(s1, CheckGuard(5), s2, events);
    events := [CheckGuard(5)] + events;
    Prepend(s0, StartDaemon(5), s1, events);
    events := [StartDaemon(5)] + events;
  }
}

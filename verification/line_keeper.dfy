/** Keeping the intercom line in step with the stream viewers: rtsp_intercom_line_sync of
    src/sip_media/sip_media.c, called once a second and whenever a viewer comes or goes.

    `Step` is one call between arbitrary doings of others on the shared line; `LineKeeper` is the C
    code.  `log` is the history of what the keeper did, and `Fits` says, from the history alone,
    when each entry may be there. */
module IntercomLine {
  import opened Wrappers

  const SHORT_LIVED_MS := 5000
  const MAX_BACKOFF_STEP := 4

  /** Who brought the line up. */
  datatype Line = Down | Ours | Others

  /** Stopping for the cap and for the last viewer are a Stop, unless a SIP call needs the line,
      followed by Cap or Left.  Dropped: the line was found down, after a healthy time or not. */
  datatype Entry = Start(at: int, ok: bool) | Stop(at: int) | Dropped(at: int, healthy: bool) | Cap(at: int) | Left(at: int)

  datatype State = State(owned: bool, openedAt: int, retryAfter: int, failures: nat, capped: bool,
                         line: Line, log: seq<Entry>)

  const FRESH := State(false, 0, 0, 0, false, Down, [])

  /** One call of the keeper at `now`, with a SIP call active or not; `raced` says that somebody else
      opens the line between the keeper's check and its own attempt, `sent` that START_CALL goes out. */
  datatype Event = Sync(now: nat, viewers: bool, sip: bool, raced: bool, sent: bool) | OthersOpen | LineDrops

  // ------------------------------------------------------------------- the steps

  function Backoff(failures: nat): nat {
    match failures
    case 0 => 1000
    case 1 => 5000
    case 2 => 15000
    case 3 => 60000
    case _ => 300000
  }

  function OneMore(failures: nat): nat {
    if failures < MAX_BACKOFF_STEP then failures + 1 else failures
  }

  predicate CapReached(cap: int, s: State, now: int) {
    s.owned && cap > 0 && now - s.openedAt >= cap * 1000
  }

  /** Let the line go, with STOP_CALL unless a SIP call uses it. */
  function Release(s: State, sip: bool, now: int): State {
    var free := s.(owned := false);
    if s.owned && !sip then free.(line := Down, log := s.log + [Stop(now)]) else free
  }

  function Try(s: State, e: Event): State
    requires e.Sync?
  {
    if e.sent && !e.raced then
      s.(owned := true, openedAt := e.now, line := Ours, log := s.log + [Start(e.now, true)])
    else
      var failures := OneMore(s.failures);
      s.(failures := failures, retryAfter := e.now + Backoff(failures),
         line := if e.raced then Others else s.line, log := s.log + [Start(e.now, false)])
  }

  function NoteDrop(s: State, now: int): State {
    var healthy := now - s.openedAt >= SHORT_LIVED_MS;
    var failures := if healthy then 0 else OneMore(s.failures);
    s.(owned := false, failures := failures, retryAfter := now + Backoff(failures),
       log := s.log + [Dropped(now, healthy)])
  }

  function Step(cap: int, s: State, e: Event): State {
    match e
    case OthersOpen => if s.line == Down then s.(line := Others) else s
    case LineDrops => s.(line := Down)
    case Sync(now, viewers, sip, _, _) =>
      if !viewers then
        var t := Release(s, sip, now);
        t.(failures := 0, retryAfter := 0, capped := false, log := t.log + [Left(now)])
      else if CapReached(cap, s, now) then
        var t := Release(s, sip, now);
        t.(capped := true, log := t.log + [Cap(now)])
      else if s.line != Down || sip || s.capped then s
      else if s.owned then NoteDrop(s, now)
      else if now < s.retryAfter then s
      else Try(s, e)
  }

  function Run(cap: int, es: seq<Event>): State {
    if es == [] then FRESH else Step(cap, Run(cap, es[..|es| - 1]), es[|es| - 1])
  }

  /** Time of the last call. */
  function Clock(es: seq<Event>): nat {
    if es == [] then 0 else if es[|es| - 1].Sync? then es[|es| - 1].now else Clock(es[..|es| - 1])
  }

  /** The clock never goes back. */
  predicate InOrder(es: seq<Event>) {
    es == [] || (
      && InOrder(es[..|es| - 1])
      && (es[|es| - 1].Sync? ==> Clock(es[..|es| - 1]) <= es[|es| - 1].now))
  }

  // ------------------------------------------------- what the history has to say

  /** A line this keeper opened has not been given up yet. */
  predicate Holding(log: seq<Entry>) {
    log != [] && match log[|log| - 1]
      case Start(_, ok) => ok || Holding(log[..|log| - 1])
      case _ => false
  }

  /** Refusals in a row in this viewing session, at most 4. */
  function Refusals(log: seq<Entry>): nat {
    if log == [] then 0
    else var before := log[..|log| - 1];
      match log[|log| - 1]
      case Start(_, ok) => if ok then Refusals(before) else OneMore(Refusals(before))
      case Dropped(_, healthy) => if healthy then 0 else OneMore(Refusals(before))
      case Left(_) => 0
      case _ => Refusals(before)
  }

  /** The time before which the back-off table forbids another attempt. */
  function NotBefore(log: seq<Entry>): int {
    if log == [] then 0
    else match log[|log| - 1]
      case Start(at, ok) => if ok then NotBefore(log[..|log| - 1]) else at + Backoff(Refusals(log))
      case Dropped(at, _) => at + Backoff(Refusals(log))
      case Left(_) => 0
      case _ => NotBefore(log[..|log| - 1])
  }

  /** The last attempt of this viewing session. */
  function LastStart(log: seq<Entry>): Option<int> {
    if log == [] then None
    else match log[|log| - 1]
      case Start(at, _) => Some(at)
      case Left(_) => None
      case _ => LastStart(log[..|log| - 1])
  }

  /** The cap fired and the viewers have not left since. */
  predicate Capped(log: seq<Entry>) {
    log != [] && match log[|log| - 1]
      case Cap(_) => true
      case Left(_) => false
      case _ => Capped(log[..|log| - 1])
  }

  /** When an entry may follow a history. */
  predicate Fits(before: seq<Entry>, e: Entry) {
    match e
    case Start(at, _) =>
      && !Holding(before) && !Capped(before) && at >= NotBefore(before)
      && (LastStart(before).Some? ==> at >= LastStart(before).value + SHORT_LIVED_MS)
    case Dropped(at, healthy) =>
      Holding(before) && LastStart(before).Some? && healthy == (at - LastStart(before).value >= SHORT_LIVED_MS)
    case Stop(_) => Holding(before)
    case Cap(_) => !Capped(before)
    case Left(_) => true
  }

  ghost predicate AllFit(log: seq<Entry>) {
    forall k | 0 <= k < |log| :: Fits(log[..k], log[k])
  }

  /** The keeper's variables are what its history says they are. */
  predicate Linked(s: State, clock: int) {
    && s.owned == Holding(s.log)
    && (s.owned ==> LastStart(s.log) == Some(s.openedAt) && s.openedAt <= clock && !s.capped)
    && s.failures == Refusals(s.log)
    && s.retryAfter == NotBefore(s.log)
    && s.capped == Capped(s.log)
    && (LastStart(s.log).Some? && !s.owned && !s.capped ==> s.retryAfter >= LastStart(s.log).value + SHORT_LIVED_MS)
  }

  lemma FitsMore(log: seq<Entry>, e: Entry)
    requires AllFit(log) && Fits(log, e)
    ensures AllFit(log + [e]) && (log + [e])[..|log|] == log
  {
    var longer := log + [e];
    assert longer[..|log|] == log;
    forall k | 0 <= k < |longer| ensures Fits(longer[..k], longer[k]) {
      if k < |log| { assert longer[..k] == log[..k]; }
    }
  }

  lemma ReleaseFits(s: State, sip: bool, now: int)
    requires Linked(s, now) && AllFit(s.log)
    ensures var t := Release(s, sip, now);
            && AllFit(t.log) && Refusals(t.log) == s.failures && NotBefore(t.log) == s.retryAfter
            && LastStart(t.log) == LastStart(s.log) && Capped(t.log) == Capped(s.log)
  {
    if s.owned { FitsMore(s.log, Stop(now)); }
  }

  lemma DropFits(s: State, now: int)
    requires Linked(s, now) && AllFit(s.log) && s.owned
    ensures Linked(NoteDrop(s, now), now) && AllFit(NoteDrop(s, now).log)
  {
    FitsMore(s.log, Dropped(now, now - s.openedAt >= SHORT_LIVED_MS));
  }

  /** What an attempt adds to the history. */
  lemma AfterStart(log: seq<Entry>, at: int, ok: bool)
    ensures var longer := log + [Start(at, ok)];
            && Holding(longer) == (ok || Holding(log)) && Capped(longer) == Capped(log)
            && LastStart(longer) == Some(at)
            && Refusals(longer) == (if ok then Refusals(log) else OneMore(Refusals(log)))
            && NotBefore(longer) == if ok then NotBefore(log) else at + Backoff(OneMore(Refusals(log)))
  {
    assert (log + [Start(at, ok)])[..|log|] == log;
  }

  lemma TryFits(s: State, e: Event)
    requires e.Sync? && Linked(s, e.now) && AllFit(s.log) && !s.owned && !s.capped && e.now >= s.retryAfter
    ensures Linked(Try(s, e), e.now) && AllFit(Try(s, e).log)
  {
    hide Holding, Refusals, NotBefore, LastStart, Capped;
    FitsMore(s.log, Start(e.now, e.sent && !e.raced));
    AfterStart(s.log, e.now, e.sent && !e.raced);
  }

  lemma GiveUpFits(s: State, sip: bool, now: int)
    requires Linked(s, now) && AllFit(s.log)
    ensures var t := Release(s, sip, now);
            var left := t.(failures := 0, retryAfter := 0, capped := false, log := t.log + [Left(now)]);
            Linked(left, now) && AllFit(left.log)
    ensures var t := Release(s, sip, now);
            var held := t.(capped := true, log := t.log + [Cap(now)]);
            s.owned ==> Linked(held, now) && AllFit(held.log)
  {
    ReleaseFits(s, sip, now);
    var t := Release(s, sip, now);
    FitsMore(t.log, Left(now));
    if s.owned { FitsMore(t.log, Cap(now)); }
  }

  lemma SyncFits(cap: int, s: State, clock: nat, e: Event)
    requires Linked(s, clock) && AllFit(s.log) && e.Sync? && clock <= e.now
    ensures Linked(Step(cap, s, e), e.now) && AllFit(Step(cap, s, e).log)
  {
    if !e.viewers || CapReached(cap, s, e.now) {
      GiveUpFits(s, e.sip, e.now);
    } else if s.line != Down || e.sip || s.capped {
    } else if s.owned {
      DropFits(s, e.now);
    } else if e.now >= s.retryAfter {
      TryFits(s, e);
    }
  }

  lemma {:induction false} RunFits(cap: int, es: seq<Event>)
    requires InOrder(es)
    ensures Linked(Run(cap, es), Clock(es)) && AllFit(Run(cap, es).log)
    decreases |es|
  {
    if es != [] {
      var before := es[..|es| - 1];
      RunFits(cap, before);
      if es[|es| - 1].Sync? { SyncFits(cap, Run(cap, before), Clock(before), es[|es| - 1]); }
    }
  }

  // ----------------------------------------------------------------- whole runs

  predicate LeftBetween(log: seq<Entry>, i: nat, j: nat)
    requires j <= |log|
  {
    exists k | i < k < j :: log[k].Left?
  }

  /** The last attempt of the session is not before any attempt in it. */
  lemma {:induction false} LastStartIsLast(log: seq<Entry>, i: nat, j: nat)
    requires AllFit(log) && i < j <= |log| && log[i].Start? && !LeftBetween(log, i, j)
    ensures LastStart(log[..j]).Some? && LastStart(log[..j]).value >= log[i].at
    decreases j
  {
    assert log[..j][..j - 1] == log[..j - 1];
    if i < j - 1 {
      assert !log[j - 1].Left?;
      LastStartIsLast(log, i, j - 1);
      assert Fits(log[..j - 1], log[j - 1]);
    }
  }

  /** Within one viewing session attempts to open the line are at least 5 seconds apart and keep
      to the back-off table, whatever the panel, the other users of the line and the bus do. */
  lemma AttemptsAreApart(cap: int, es: seq<Event>, i: nat, j: nat)
    requires InOrder(es)
    requires var log := Run(cap, es).log;
             i < j < |log| && log[i].Start? && log[j].Start? && !LeftBetween(log, i, j)
    ensures var log := Run(cap, es).log;
            log[j].at >= log[i].at + 5000 && log[j].at >= NotBefore(log[..j])
  {
    RunFits(cap, es);
    var log := Run(cap, es).log;
    LastStartIsLast(log, i, j);
    assert Fits(log[..j], log[j]);
  }

  lemma {:induction false} CappedStays(log: seq<Entry>, i: nat, j: nat)
    requires i < j <= |log| && log[i].Cap? && !LeftBetween(log, i, j)
    ensures Capped(log[..j])
    decreases j
  {
    assert log[..j][..j - 1] == log[..j - 1];
    if i < j - 1 {
      assert !log[j - 1].Left?;
      CappedStays(log, i, j - 1);
    }
  }

  /** Once the cap has fired, no attempt is made before the viewers have left. */
  lemma NothingOpensAfterTheCap(cap: int, es: seq<Event>, i: nat, j: nat)
    requires InOrder(es)
    requires var log := Run(cap, es).log; i < j < |log| && log[i].Cap? && log[j].Start?
    ensures LeftBetween(Run(cap, es).log, i, j)
  {
    RunFits(cap, es);
    var log := Run(cap, es).log;
    assert Fits(log[..j], log[j]);
    if !LeftBetween(log, i, j) { CappedStays(log, i, j); }
  }

  /** The line opened last before position j. */
  function OpenedBefore(log: seq<Entry>, j: nat): (i: int)
    requires j <= |log|
    ensures -1 <= i < j
    ensures i >= 0 ==> log[i].Start? && log[i].ok
    ensures forall k | i < k < j :: !(log[k].Start? && log[k].ok)
  {
    if j == 0 then -1 else if log[j - 1].Start? && log[j - 1].ok then j - 1 else OpenedBefore(log, j - 1)
  }

  lemma {:induction false} HoldingSinceOpened(log: seq<Entry>, j: nat)
    requires j <= |log| && Holding(log[..j])
    ensures OpenedBefore(log, j) >= 0
    ensures forall k | OpenedBefore(log, j) <= k < j :: log[k].Start?
  {
    assert log[..j][..j - 1] == log[..j - 1];
    if !(log[j - 1].Start? && log[j - 1].ok) { HoldingSinceOpened(log, j - 1); }
  }

  /** Every STOP_CALL has a START_CALL of its own: one that went out earlier, with no other
      STOP_CALL between the two. */
  lemma EveryStopHasItsStart(cap: int, es: seq<Event>, j: nat)
    requires InOrder(es)
    requires var log := Run(cap, es).log; j < |log| && log[j].Stop?
    ensures var log := Run(cap, es).log;
            var i := OpenedBefore(log, j);
            && i >= 0
            && forall k | i < k < j :: !log[k].Stop?
  {
    RunFits(cap, es);
    var log := Run(cap, es).log;
    assert Fits(log[..j], log[j]);
    HoldingSinceOpened(log, j);
  }

  /** After every call that sees viewers, a line held by the keeper has been held less than the
      cap, and a line found down is not counted as held. */
  lemma TheCapHolds(cap: int, es: seq<Event>, e: Event)
    requires InOrder(es) && e.Sync? && e.viewers && cap > 0
    ensures var t := Step(cap, Run(cap, es), e);
            t.owned ==> e.now - t.openedAt < cap * 1000 && (t.line != Down || e.sip)
  {
    RunFits(cap, es);
  }

  // ---------------------------------------------------------- when the keeper acts

  /** How long the line stays alone, by the refusals in a row so far. */
  lemma BackoffTimes(log: seq<Entry>, at: int)
    ensures var more := [Start(at, false)];
            NotBefore(log + more) == at + (match Refusals(log)
              case 0 => 5000
              case 1 => 15000
              case 2 => 60000
              case _ => 300000)
    ensures NotBefore(log + [Dropped(at, false)]) == NotBefore(log + [Start(at, false)])
    ensures NotBefore(log + [Dropped(at, true)]) == at + 1000
    ensures Refusals(log + [Start(at, false)]) == Refusals(log + [Dropped(at, false)]) ==
            if Refusals(log) < 4 then Refusals(log) + 1 else Refusals(log)
    ensures Refusals(log + [Dropped(at, true)]) == Refusals(log + [Left(at)]) == 0
    ensures NotBefore(log + [Left(at)]) == 0
  {
    var start, kept, lost, left := Start(at, false), Dropped(at, true), Dropped(at, false), Left(at);
    assert (log + [start])[..|log|] == (log + [kept])[..|log|] == (log + [lost])[..|log|] == (log + [left])[..|log|] == log;
  }

  /** No attempt waits longer than five minutes from the last call on. */
  lemma {:induction false} BackoffIsBounded(cap: int, es: seq<Event>)
    requires InOrder(es)
    ensures NotBefore(Run(cap, es).log) <= Clock(es) + 300000
    decreases |es|
  {
    RunFits(cap, es);
    if es != [] {
      BackoffIsBounded(cap, es[..|es| - 1]);
      RunFits(cap, es[..|es| - 1]);
    }
  }

  /** In the clear: viewers, no SIP call, a line that is down and not held, no cap and no back-off. */
  predicate OpensNow(log: seq<Entry>, line: Line, e: Event)
    requires e.Sync?
  {
    e.viewers && !e.sip && line == Down && !Holding(log) && !Capped(log) && e.now >= NotBefore(log)
  }

  /** The keeper makes an attempt if and only if its history allows one and the line is wanted and
      down: it then sends START_CALL unless others are faster, and what was sent makes the line its
      own from then on. */
  lemma OpensExactlyWhenDue(cap: int, es: seq<Event>, e: Event)
    requires InOrder(es) && e.Sync? && Clock(es) <= e.now
    ensures var s, t := Run(cap, es), Step(cap, Run(cap, es), e);
            && ((exists ok :: Start(e.now, ok) in t.log[|s.log|..]) <==> OpensNow(s.log, s.line, e))
            && (OpensNow(s.log, s.line, e) ==>
                  && t.log == s.log + [Start(e.now, e.sent && !e.raced)]
                  && t.line == (if e.raced then Others else if e.sent then Ours else Down)
                  && (e.sent && !e.raced <==> Holding(t.log))
                  && (e.sent && !e.raced ==> t.owned && t.openedAt == e.now))
  {
    hide Holding, Refusals, NotBefore, LastStart, Capped, AllFit;
    RunFits(cap, es);
    var s := Run(cap, es);
    if OpensNow(s.log, s.line, e) {
      AfterStart(s.log, e.now, e.sent && !e.raced);
      assert Step(cap, s, e) == Try(s, e);
      assert Try(s, e).log[|s.log|] == Start(e.now, e.sent && !e.raced);
    } else {
      OnlyTriesStart(cap, s, e);
    }
  }

  lemma OnlyTriesStart(cap: int, s: State, e: Event)
    requires e.Sync?
    requires e.viewers ==> CapReached(cap, s, e.now) || s.line != Down || e.sip || s.capped || s.owned || e.now < s.retryAfter
    ensures forall ok :: Start(e.now, ok) !in Step(cap, s, e).log[|s.log|..]
  {
    var t := Step(cap, s, e);
    assert forall k | |s.log| <= k < |t.log| :: !t.log[k].Start?;
  }

  /** What the keeper does in all other calls, from the history alone.  A line it holds is given
      up with the last viewer and at the cap, with a STOP_CALL unless a SIP call needs it; a line
      it holds and finds down is noted as dropped; otherwise nothing happens. */
  lemma GivesUpWhenDue(cap: int, es: seq<Event>, e: Event)
    requires InOrder(es) && e.Sync? && Clock(es) <= e.now
    ensures var s, t := Run(cap, es), Step(cap, Run(cap, es), e);
            var held := Holding(s.log);
            var stop := if held && !e.sip then [Stop(e.now)] else [];
            && (held ==> LastStart(s.log).Some?)
            && (!OpensNow(s.log, s.line, e) ==>
                  t.line == if stop != [] && (!e.viewers || Cap(e.now) in t.log[|s.log|..]) then Down else s.line)
            && t.log == s.log + if !e.viewers then stop + [Left(e.now)]
                                else if held && cap > 0 && e.now >= LastStart(s.log).value + cap * 1000 then
                                  stop + [Cap(e.now)]
                                else if held && s.line == Down && !e.sip then
                                  [Dropped(e.now, e.now >= LastStart(s.log).value + 5000)]
                                else if OpensNow(s.log, s.line, e) then [Start(e.now, e.sent && !e.raced)]
                                else []
  {
    RunFits(cap, es);
    var s := Run(cap, es);
    if s.owned && !e.sip {
      Regroup(s.log, [Stop(e.now)], [Left(e.now)]);
      Regroup(s.log, [Stop(e.now)], [Cap(e.now)]);
    }
  }

  lemma Regroup(a: seq<Entry>, b: seq<Entry>, c: seq<Entry>)
    ensures a + b + c == a + (b + c)
  {
  }

  // ------------------------------------------------------ lines opened by others

  /** The keeper takes a line that others opened for its own. */
  predicate Mistaken(s: State) {
    s.owned && s.line == Others
  }

  /** Its line has dropped and others open theirs before it looks again. */
  predicate Takeover(s: State, e: Event) {
    e.OthersOpen? && s.owned && s.line == Down
  }

  /** A call stops a line that others opened. */
  predicate TearsDown(cap: int, s: State, e: Event) {
    e.Sync? && s.line == Others && Stop(e.now) in Step(cap, s, e).log[|s.log|..]
  }

  /** With a mistaken line, the next call that sees neither viewers nor a SIP call tears it down;
      without one, no call does. */
  lemma TearsDownWhenMistaken(cap: int, s: State)
    ensures Mistaken(s) <==> exists e :: TearsDown(cap, s, e)
  {
    if Mistaken(s) {
      var e := Sync(0, false, false, false, false);
      assert Step(cap, s, e).log[|s.log|] == Stop(0);
      assert TearsDown(cap, s, e);
    }
    forall e | TearsDown(cap, s, e) ensures Mistaken(s) {
    }
  }

  ghost predicate NoTakeover(cap: int, es: seq<Event>) {
    es == [] || (NoTakeover(cap, es[..|es| - 1]) && !Takeover(Run(cap, es[..|es| - 1]), es[|es| - 1]))
  }

  ghost predicate NeverMistaken(cap: int, es: seq<Event>) {
    !Mistaken(Run(cap, es)) && (es == [] || NeverMistaken(cap, es[..|es| - 1]))
  }

  lemma MistakenSince(cap: int, s: State, e: Event)
    requires !Mistaken(s)
    ensures Mistaken(Step(cap, s, e)) <==> Takeover(s, e)
  {
  }

  /** A line opened by others is at no point of a run open to being torn down if and only if others
      never open it while the keeper still counts on its own line that has dropped. */
  lemma {:induction false} OthersAreSafeExactly(cap: int, es: seq<Event>)
    ensures NoTakeover(cap, es) <==> NeverMistaken(cap, es)
    decreases |es|
  {
    if es != [] {
      var before := es[..|es| - 1];
      OthersAreSafeExactly(cap, before);
      if !Mistaken(Run(cap, before)) { MistakenSince(cap, Run(cap, before), es[|es| - 1]); }
    }
  }

  // ------------------------------------------------------------------ the C code

  /** The rtsp_line_ variables and call_active. */
  class LineKeeper {
    const maxSeconds: int
    var openedByUs: bool
    var openedAtMs: int
    var retryAfterMs: int
    var openFailures: nat
    var capped: bool
    var callActive: bool
    ghost var line: Line
    var log: seq<Entry>

    ghost predicate Valid()
      reads this
    {
      callActive == (line != Down)
    }

    ghost function Abstract(): State
      reads this
    {
      State(openedByUs, openedAtMs, retryAfterMs, openFailures, capped, line, log)
    }

    constructor (maxSeconds: int)
      ensures Valid() && Abstract() == FRESH && this.maxSeconds == maxSeconds
    {
      this.maxSeconds := maxSeconds;
      openedByUs, openedAtMs, retryAfterMs, openFailures, capped, callActive := false, 0, 0, 0, false, false;
      line, log := Down, [];
    }

    /** ensure_intercom_call_open: 1 when START_CALL went out, 0 when the line is up, -1 on failure. */
    method EnsureOpen(raced: bool, sent: bool) returns (rc: int)
      requires Valid() && !callActive
      modifies this`callActive, this`line
      ensures Valid() && rc == (if raced then 0 else if sent then 1 else -1)
      ensures line == if raced then Others else if sent then Ours else old(line)
    {
      if raced { callActive, line := true, Others; }
      if callActive { return 0; }
      if !sent { return -1; }
      callActive, line := true, Ours;
      return 1;
    }

    /** close_intercom_call and clear_intercom_call_state. */
    method Close(now: int)
      requires Valid()
      modifies this`callActive, this`line, this`log
      ensures Valid() && line == Down && log == old(log) + [Stop(now)]
    {
      log := log + [Stop(now)];
      callActive, line := false, Down;
    }

    /** The count and the back-off after a refusal. */
    method Refused(now: nat)
      modifies this`openFailures, this`retryAfterMs
      ensures openFailures == OneMore(old(openFailures)) && retryAfterMs == now + Backoff(openFailures)
    {
      if openFailures < MAX_BACKOFF_STEP { openFailures := openFailures + 1; }
      retryAfterMs := now + Backoff(openFailures);
    }

    /** rtsp_intercom_line_sync with the feature enabled. */
    method SyncLine(e: Event)
      requires Valid() && e.Sync?
      modifies this
      ensures Valid() && Abstract() == Step(maxSeconds, old(Abstract()), e)
    {
      var now := e.now;
      if !e.viewers {
        if openedByUs {
          openedByUs := false;
          if !e.sip { Close(now); }
        }
        openFailures, retryAfterMs, capped := 0, 0, false;
        log := log + [Left(now)];
        return;
      }
      if openedByUs && maxSeconds > 0 && now - openedAtMs >= maxSeconds * 1000 {
        openedByUs, capped := false, true;
        if !e.sip { Close(now); }
        log := log + [Cap(now)];
        return;
      }
      if callActive || e.sip { return; }
      if capped { return; }
      if openedByUs {
        var lifetime := now - openedAtMs;
        openedByUs := false;
        log := log + [Dropped(now, lifetime >= SHORT_LIVED_MS)];
        if lifetime < SHORT_LIVED_MS {
          Refused(now);
        } else {
          openFailures, retryAfterMs := 0, now + Backoff(0);
        }
        return;
      }
      if now < retryAfterMs { return; }
      var rc := EnsureOpen(e.raced, e.sent);
      log := log + [Start(now, rc > 0)];
      if rc > 0 {
        openedByUs, openedAtMs := true, now;
      } else {
        Refused(now);
      }
    }
  }
}

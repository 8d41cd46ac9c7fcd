/** The talk-back path of src/sip_media/rtsp_stream.c: a drop-oldest ring of audio bytes and the
    thread that plays frames out of it against a deadline.

    `State` and `Step` say what happens on byte sequences; `Backchannel` is the C code over its
    array and is proved to do exactly these steps.  What holds over whole runs is proved about
    `Run`: which bytes are played, and when. */
module Backchannel {
  import opened Bytes

  const RING := 16000
  const PREBUFFER := 1600
  const FRAME_MAX := 512
  const US_PER_SAMPLE := 125
  const RESYNC_US := 200000

  // ------------------------------------------------------------ steps on values

  /** `queue` waits to be played; `pushed` and `played` are the bytes since the thread started;
      `next` is the deadline, meaningful while playing. */
  datatype State = State(pushed: seq<Byte>, queue: seq<Byte>, played: seq<Byte>,
                         overruns: nat, underruns: nat, playing: bool, next: int)

  const SILENT := State([], [], [], 0, 0, false, 0)

  /** One frame of `size` bytes with the clock readings around it in microseconds: `resume` before
      the frame is taken, `taken` when it is, `now` and `again` after it is sent, `done` when the
      thread is back at the top of its loop. */
  datatype Round = Round(size: nat, resume: int, taken: int, now: int, again: int, done: int)

  /** The receiver pushes, the thread finds too little to play, or it plays a frame. */
  datatype Event = Push(data: seq<Byte>) | Starve(size: nat) | Play(round: Round)

  /** The last n elements. */
  function Last<T>(s: seq<T>, n: nat): (r: seq<T>)
    ensures |s| <= n ==> r == s
    ensures |s| > n ==> |r| == n && r == s[|s| - n..]
  {
    if |s| <= n then s else s[|s| - n..]
  }

  /** The frame size used when the hardware reports `reported`. */
  function FrameSize(reported: nat): (size: nat)
    ensures 1 <= size <= FRAME_MAX && (1 <= reported <= 512 ==> size == reported)
  {
    if reported == 0 || reported > FRAME_MAX then 160 else reported
  }

  predicate Ready(s: State, size: nat) {
    if s.playing then |s.queue| >= size else |s.queue| >= PREBUFFER
  }

  predicate Enabled(s: State, e: Event) {
    match e
    case Push(_) => true
    case Starve(size) => 1 <= size <= FRAME_MAX && !Ready(s, size)
    case Play(r) => 1 <= r.size <= FRAME_MAX && Ready(s, r.size)
  }

  /** When this frame should have been over. */
  function Deadline(s: State, r: Round): int {
    (if s.playing then s.next else r.resume) + US_PER_SAMPLE * r.size
  }

  function Step(s: State, e: Event): State
    requires Enabled(s, e)
  {
    match e
    case Push(data) =>
      var all := s.queue + data;
      s.(pushed := s.pushed + data, queue := Last(all, RING),
         overruns := s.overruns + if |all| > RING then |all| - RING else 0)
    case Starve(_) => if s.playing then s.(playing := false, underruns := s.underruns + 1, next := 0) else s
    case Play(r) =>
      s.(queue := s.queue[r.size..], played := s.played + s.queue[..r.size], playing := true,
         next := if Deadline(s, r) < r.now - RESYNC_US then r.again else Deadline(s, r))
  }

  ghost predicate Possible(s: State, es: seq<Event>)
    decreases |es|
  {
    es == [] || (Enabled(s, es[0]) && Possible(Step(s, es[0]), es[1..]))
  }

  ghost function Run(s: State, es: seq<Event>): State
    requires Possible(s, es)
    decreases |es|
  {
    if es == [] then s else Run(Step(s, es[0]), es[1..])
  }

  lemma {:induction false} RunAppend(s: State, es: seq<Event>, more: seq<Event>)
    ensures Possible(s, es + more) <==> Possible(s, es) && Possible(Run(s, es), more)
    ensures Possible(s, es + more) ==> Run(s, es + more) == Run(Run(s, es), more)
    decreases |es|
  {
    if es == [] {
      assert es + more == more;
    } else {
      assert (es + more)[1..] == es[1..] + more;
      if Enabled(s, es[0]) { RunAppend(Step(s, es[0]), es[1..], more); }
    }
  }

  // --------------------------------------------------------- which bytes are played

  /** Every byte pushed was played, was dropped or is queued, and the queue is the end of what
      was pushed. */
  ghost predicate Conserved(s: State) {
    && |s.queue| <= RING
    && |s.pushed| == |s.played| + s.overruns + |s.queue|
    && s.queue == s.pushed[|s.played| + s.overruns..]
    && (s.overruns == 0 ==> s.played + s.queue == s.pushed)
  }

  lemma SuffixGrows<T>(p: seq<T>, k: nat, data: seq<T>)
    requires k <= |p|
    ensures p[k..] + data == (p + data)[k..]
  {
  }

  lemma SuffixShrinks<T>(p: seq<T>, k: nat, n: nat)
    requires k + n <= |p|
    ensures p[k..][n..] == p[k + n..]
  {
  }

  lemma PushConserves(s: State, data: seq<Byte>)
    requires Conserved(s)
    ensures Conserved(Step(s, Push(data)))
  {
    var k, all := |s.played| + s.overruns, s.queue + data;
    SuffixGrows(s.pushed, k, data);
    if |all| > RING {
      SuffixShrinks(s.pushed + data, k, |all| - RING);
    } else {
      Regroup(s.played, s.queue, data);
    }
  }

  lemma PlayConserves(s: State, r: Round)
    requires Conserved(s) && Enabled(s, Play(r))
    ensures Conserved(Step(s, Play(r)))
  {
    SuffixShrinks(s.pushed, |s.played| + s.overruns, r.size);
    Regroup(s.played, s.queue[..r.size], s.queue[r.size..]);
    assert s.queue[..r.size] + s.queue[r.size..] == s.queue;
  }

  lemma StepConserves(s: State, e: Event)
    requires Conserved(s) && Enabled(s, e)
    ensures Conserved(Step(s, e))
  {
    match e
    case Push(data) => PushConserves(s, data);
    case Starve(_) =>
    case Play(r) => PlayConserves(s, r);
  }

  lemma {:induction false} RunConserves(s: State, es: seq<Event>)
    requires Conserved(s) && Possible(s, es)
    ensures Conserved(Run(s, es))
    decreases |es|
  {
    if es != [] {
      StepConserves(s, es[0]);
      RunConserves(Step(s, es[0]), es[1..]);
    }
  }

  /** The next frame is a contiguous piece of what was pushed, not older than its last 16000 bytes,
      and begins right behind the bytes played and dropped so far. */
  ghost predicate NextFrameIsContiguous(s: State, size: nat) {
    var at := |s.played| + s.overruns;
    && |s.pushed| == at + |s.queue|
    && |s.pushed| - 16000 <= at && at + size <= |s.pushed|
    && s.queue[..size] == s.pushed[at..at + size]
  }

  lemma NextFrame(s: State, size: nat)
    requires Conserved(s) && size <= |s.queue|
    ensures NextFrameIsContiguous(s, size)
  {
    SuffixShrinks(s.pushed, |s.played| + s.overruns, 0);
  }

  /** Since start, bytes pushed = bytes played + bytes dropped + bytes queued, and every frame
      played is a contiguous piece of what was pushed. */
  lemma FramesAreContiguous(es: seq<Event>, r: Round)
    requires Possible(SILENT, es) && Enabled(Run(SILENT, es), Play(r))
    ensures var s := Run(SILENT, es);
            && NextFrameIsContiguous(s, r.size)
            && Step(s, Play(r)).played == s.played + s.queue[..r.size]
  {
    RunConserves(SILENT, es);
    NextFrame(Run(SILENT, es), r.size);
  }

  /** As long as nothing was dropped, what was played is a prefix of what was pushed. */
  lemma WithoutOverrunsNothingIsLost(es: seq<Event>)
    requires Possible(SILENT, es) && Run(SILENT, es).overruns == 0
    ensures var s := Run(SILENT, es);
            s.played <= s.pushed && s.queue == s.pushed[|s.played|..]
  {
    RunConserves(SILENT, es);
    var s := Run(SILENT, es);
    assert s.played == s.pushed[..|s.played|];
  }

  /** Once playback stops for want of data, nothing is played before 1600 bytes are queued. */
  lemma {:induction false} QuietUntilPrebuffered(s: State, es: seq<Event>) returns (n: nat)
    requires Possible(s, es) && !s.playing
    requires Run(s, es).played != s.played
    ensures n <= |es| && Possible(s, es[..n])
    ensures var t := Run(s, es[..n]);
            t.played == s.played && !t.playing && |t.queue| >= 1600
    decreases |es|
  {
    if es[0].Play? {
      n := 0;
    } else {
      n := QuietUntilPrebuffered(Step(s, es[0]), es[1..]);
      assert es[..n + 1][1..] == es[1..][..n];
      n := n + 1;
    }
  }

  /** Which way the thread turns in any run: at rest it plays exactly when 1600 bytes that were
      neither played nor dropped have come in, and once playing as long as there is a whole frame
      of them.  Otherwise it waits. */
  lemma PlaysExactlyWhen(es: seq<Event>, r: Round)
    requires Possible(SILENT, es) && 1 <= r.size <= 512
    ensures var s := Run(SILENT, es);
            var ready := |s.pushed| - |s.played| - s.overruns >= if s.playing then r.size else 1600;
            && (Enabled(s, Play(r)) <==> ready) && (Enabled(s, Starve(r.size)) <==> !ready)
            && (ready ==> Step(s, Play(r)).playing && |Step(s, Play(r)).played| == |s.played| + r.size)
            && (!ready ==> !Step(s, Starve(r.size)).playing)
  {
    RunConserves(SILENT, es);
  }

  /** How often playback began. */
  ghost function Beginnings(s: State, es: seq<Event>): nat
    requires Possible(s, es)
    decreases |es|
  {
    if es == [] then 0
    else (if es[0].Play? && !s.playing then 1 else 0) + Beginnings(Step(s, es[0]), es[1..])
  }

  /** Each time playback began it goes on or has ended in one underrun. */
  lemma {:induction false} UnderrunsEndPlayback(s: State, es: seq<Event>)
    requires Possible(s, es)
    ensures var t := Run(s, es);
            Beginnings(s, es) + s.underruns + (if s.playing then 1 else 0) == t.underruns + if t.playing then 1 else 0
    decreases |es|
  {
    if es != [] { UnderrunsEndPlayback(Step(s, es[0]), es[1..]); }
  }

  // ----------------------------------------------------------- when they are played

  /** The clock never goes back and a sleep is never short; the thread is at the top of its loop
      at time `from`. */
  predicate InTime(s: State, from: int, r: Round) {
    && from <= r.resume <= r.taken <= r.now <= r.again <= r.done
    && (Deadline(s, r) > r.now ==> r.done >= Deadline(s, r))
  }

  ghost predicate Timed(s: State, from: int, es: seq<Event>)
    decreases |es|
  {
    es == [] || (
      && Enabled(s, es[0])
      && (es[0].Play? ==> InTime(s, from, es[0].round))
      && Timed(Step(s, es[0]), if es[0].Play? then es[0].round.done else from, es[1..]))
  }

  lemma {:induction false} TimedIsPossible(s: State, from: int, es: seq<Event>)
    requires Timed(s, from, es)
    ensures Possible(s, es)
    decreases |es|
  {
    if es != [] { TimedIsPossible(Step(s, es[0]), if es[0].Play? then es[0].round.done else from, es[1..]); }
  }

  function AudioBytes(es: seq<Event>): nat {
    if es == [] then 0 else (if es[0].Play? then es[0].round.size else 0) + AudioBytes(es[1..])
  }

  function Frames(es: seq<Event>): nat {
    if es == [] then 0 else (if es[0].Play? then 1 else 0) + Frames(es[1..])
  }

  /** The earliest moment the deadlines still allow. */
  function Floor(s: State, from: int): int {
    if s.playing then s.next else from
  }

  /** The thread is never at the top of its loop before its deadline. */
  lemma {:induction false} NeverAhead(s: State, from: int, es: seq<Event>, last: Round)
    requires Floor(s, from) <= from && Timed(s, from, es + [Play(last)])
    ensures last.taken >= Floor(s, from) + US_PER_SAMPLE * AudioBytes(es)
    decreases |es|
  {
    if es == [] {
      assert (es + [Play(last)])[0] == Play(last);
    } else {
      var e := es[0];
      assert (es + [Play(last)])[0] == e && (es + [Play(last)])[1..] == es[1..] + [Play(last)];
      NeverAhead(Step(s, e), if e.Play? then e.round.done else from, es[1..], last);
    }
  }

  /** Over re-buffering and resynchronisation, a frame is taken no earlier after the first one's
      clock reading than the bytes before it take to play. */
  lemma PlayoutIsNeverEarly(s: State, from: int, first: Round, es: seq<Event>, last: Round)
    requires !s.playing && Timed(s, from, [Play(first)] + es + [Play(last)])
    ensures last.taken >= first.resume + 125 * (first.size + AudioBytes(es))
  {
    var all := [Play(first)] + es + [Play(last)];
    assert all[0] == Play(first) && all[1..] == es + [Play(last)];
    NeverAhead(Step(s, Play(first)), first.done, es, last);
  }

  /** Nothing runs out, and the thread is never more than 200 ms late. */
  ghost predicate Steady(s: State, es: seq<Event>)
    requires Possible(s, es)
    decreases |es|
  {
    es == [] || (
      && !es[0].Starve?
      && (es[0].Play? ==> es[0].round.now <= s.next + 125 * es[0].round.size + 200000)
      && Steady(Step(s, es[0]), es[1..]))
  }

  /** Then the deadlines neither gain nor lose: the next frame is due exactly as much later as the
      bytes in between take to play. */
  lemma {:induction false} SteadyPlayoutKeepsTime(s: State, es: seq<Event>)
    requires s.playing && Possible(s, es) && Steady(s, es)
    ensures var t := Run(s, es); t.playing && t.next == s.next + 125 * AudioBytes(es)
    decreases |es|
  {
    if es != [] { SteadyPlayoutKeepsTime(Step(s, es[0]), es[1..]); }
  }

  /** A thread more than 200 ms late starts anew from the clock, and otherwise keeps its deadline,
      so that it never carries more than 200 ms of lateness on. */
  lemma LateFramesRestartTheClock(s: State, r: Round)
    requires Enabled(s, Play(r)) && s.playing && r.now <= r.again
    ensures var t, due := Step(s, Play(r)), s.next + 125 * r.size;
            && t.next == (if r.now - due > 200000 then r.again else due)
            && t.next >= r.now - 200000
  {
  }

  // Counted from the taking of the first frame, which may come after the clock reading.

  const LONGEST := US_PER_SAMPLE * FRAME_MAX

  /** When the first frame would end if it had begun when it was taken. */
  function End(first: Round): int {
    first.taken + US_PER_SAMPLE * first.size
  }

  /** The deadline is not before that end; or the thread stalls so long that the next frame, of
      whatever size, has the clock restarted, and late enough. */
  predicate Settled(s: State, first: Round)
    requires Enabled(s, Play(first))
  {
    var next := Step(s, Play(first)).next;
    || next >= End(first)
    || (first.done > next + LONGEST + RESYNC_US && first.done >= End(first) + LONGEST)
  }

  ghost predicate Continues(s: State, from: int, first: Round, es: seq<Event>, last: Round) {
    Timed(s, from, [Play(first)] + es + [Play(last)])
  }

  /** `last` is taken no earlier after `first` than the bytes from first on take to play. */
  predicate NotEarly(first: Round, es: seq<Event>, last: Round) {
    last.taken >= first.taken + 125 * (first.size + AudioBytes(es))
  }

  lemma SettledIsNotEarly(s: State, from: int, first: Round, es: seq<Event>, last: Round)
    requires Enabled(s, Play(first)) && Settled(s, first) && Continues(s, from, first, es, last)
    ensures NotEarly(first, es, last)
  {
    var all, t := [Play(first)] + es + [Play(last)], Step(s, Play(first));
    assert all[0] == Play(first) && all[1..] == es + [Play(last)];
    if t.next >= End(first) {
      NeverAhead(t, first.done, es, last);
    } else {
      StalledIsNotEarly(t, first.done, es, last, End(first));
    }
  }

  /** After a long stall: pushes change nothing, an underrun restarts the clock, and so does the
      next frame. */
  lemma {:induction false} StalledIsNotEarly(s: State, from: int, es: seq<Event>, last: Round, end: int)
    requires s.playing && from > s.next + LONGEST + RESYNC_US && from >= end + LONGEST
    requires Timed(s, from, es + [Play(last)])
    ensures last.taken >= end + US_PER_SAMPLE * AudioBytes(es)
    decreases |es|
  {
    var all := es + [Play(last)];
    if es == [] {
      assert all[0] == Play(last);
    } else {
      var e := es[0];
      assert all[0] == e && all[1..] == es[1..] + [Play(last)];
      match e
      case Push(_) => StalledIsNotEarly(Step(s, e), from, es[1..], last, end);
      case Starve(_) => NeverAhead(Step(s, e), from, es[1..], last);
      case Play(r) => NeverAhead(Step(s, e), r.done, es[1..], last);
    }
  }

  /** A frame of the longest size taken, sent and slept for without delay at time `at`. */
  function Prompt(at: int, next: int): Round {
    Round(FRAME_MAX, at, at, at, at, if next + LONGEST > at then next + LONGEST else at)
  }

  /** k such frames in a row. */
  function Burst(at: int, next: int, k: nat): seq<Event>
    decreases k
  {
    if k == 0 then [] else [Play(Prompt(at, next))] + Burst(Prompt(at, next).done, next + LONGEST, k - 1)
  }

  /** They can follow each other while the thread is at most 200 ms behind, and the one after them
      is taken at once. */
  lemma {:induction false} BurstIsTimed(s: State, at: int, k: nat) returns (last: Round)
    requires s.playing && |s.queue| >= (k + 1) * FRAME_MAX && at <= s.next + LONGEST + RESYNC_US
    ensures Timed(s, at, Burst(at, s.next, k) + [Play(last)])
    ensures AudioBytes(Burst(at, s.next, k)) == k * FRAME_MAX
    ensures last.taken == if k > 0 && s.next + k * LONGEST > at then s.next + k * LONGEST else at
    decreases k
  {
    var r := Prompt(at, s.next);
    var t := Step(s, Play(r));
    if k == 0 {
      last := r;
      assert Burst(at, s.next, k) + [Play(last)] == [Play(r)];
      assert [Play(r)][1..] == [];
    } else {
      last := BurstIsTimed(t, r.done, k - 1);
      var rest := Burst(r.done, t.next, k - 1);
      assert Burst(at, s.next, k) == [Play(r)] + rest;
      assert ([Play(r)] + rest)[1..] == rest;
      assert ([Play(r)] + rest + [Play(last)])[1..] == rest + [Play(last)];
    }
  }

  /** The queue can be filled without time passing. */
  lemma Refill(s: State, first: Round) returns (data: seq<Byte>)
    requires Enabled(s, Play(first))
    ensures var t := Step(Step(s, Play(first)), Push(data));
            |t.queue| >= 6 * FRAME_MAX && t.playing && t.next == Step(s, Play(first)).next
  {
    data := seq(6 * FRAME_MAX, _ => 0);
  }

  /** A first round, a push, and frames behind it. */
  lemma AfterAPush(s: State, from: int, first: Round, data: seq<Byte>, burst: seq<Event>, last: Round)
    requires Enabled(s, Play(first)) && InTime(s, from, first)
    requires Timed(Step(Step(s, Play(first)), Push(data)), first.done, burst + [Play(last)])
    ensures Continues(s, from, first, [Push(data)] + burst, last)
    ensures AudioBytes([Push(data)] + burst) == AudioBytes(burst)
  {
    var t, es := Step(s, Play(first)), [Push(data)] + burst;
    assert es[1..] == burst && (es + [Play(last)])[1..] == burst + [Play(last)];
    assert Timed(t, first.done, es + [Play(last)]);
    var all := [Play(first)] + es + [Play(last)];
    assert all[0] == Play(first) && all[1..] == es + [Play(last)];
  }

  /** A frame that has the clock restarted at once, and one right behind it. */
  lemma RestartedBurst(u: State, at: int) returns (burst: seq<Event>, last: Round)
    requires u.playing && |u.queue| >= 2 * FRAME_MAX && at > u.next + LONGEST + RESYNC_US
    ensures Timed(u, at, burst + [Play(last)]) && AudioBytes(burst) == FRAME_MAX && last.taken == at
  {
    var r := Round(FRAME_MAX, at, at, at, at, at);
    var v := Step(u, Play(r));
    last := BurstIsTimed(v, at, 0);
    assert Burst(at, v.next, 0) == [] && [] + [Play(last)] == [Play(last)];
    burst := [Play(r)];
    assert burst[1..] == [] && (burst + [Play(last)])[1..] == [Play(last)];
  }

  /** Behind a first round that is not settled, some frame comes too early. */
  lemma UnsettledComesEarly(s: State, from: int, first: Round) returns (es: seq<Event>, last: Round)
    requires Enabled(s, Play(first)) && InTime(s, from, first) && !Settled(s, first)
    ensures Continues(s, from, first, es, last) && !NotEarly(first, es, last)
  {
    var data := Refill(s, first);
    var u := Step(Step(s, Play(first)), Push(data));
    var burst: seq<Event>;
    if first.done <= u.next + LONGEST + RESYNC_US {
      burst := Burst(first.done, u.next, 5);
      last := BurstIsTimed(u, first.done, 5);
    } else {
      burst, last := RestartedBurst(u, first.done);
    }
    es := [Push(data)] + burst;
    AfterAPush(s, from, first, data, burst, last);
  }

  /** For a first round of any run: every frame behind it is taken no earlier, counted from the
      taking of the first, than the bytes in between take to play, if and only if the round is
      settled. */
  lemma CountedFromTheTakingExactly(s: State, from: int, first: Round)
    requires Enabled(s, Play(first)) && InTime(s, from, first)
    ensures (forall es, last :: Continues(s, from, first, es, last) ==> NotEarly(first, es, last)) <==> Settled(s, first)
  {
    if Settled(s, first) {
      forall es, last | Continues(s, from, first, es, last) ensures NotEarly(first, es, last) {
        SettledIsNotEarly(s, from, first, es, last);
      }
    } else {
      var es, last := UnsettledComesEarly(s, from, first);
    }
  }

  /** An unsettled round exists: the second frame can follow the first by less than a frame's
      time. */
  lemma NotCountedFromTheTaking() returns (data: seq<Byte>, first: Round, last: Round)
    ensures Timed(SILENT, 0, [Push(data), Play(first), Play(last)])
    ensures last.taken < first.taken + US_PER_SAMPLE * first.size
  {
    data := seq(PREBUFFER, _ => 0);
    first, last := Round(160, 0, 1000, 1000, 1000, 20000), Round(160, 20000, 20000, 20000, 20000, 40000);
    var all := [Push(data), Play(first), Play(last)];
    var s1 := Step(SILENT, Push(data));
    var s2 := Step(s1, Play(first));
    assert [] + data == data && |s1.queue| == PREBUFFER && |s2.queue| == PREBUFFER - 160;
    assert all[1..] == [Play(first), Play(last)] && all[1..][1..] == [Play(last)];
    assert Timed(s2, first.done, [Play(last)]);
    assert Timed(s1, 0, all[1..]);
  }

  /** Between any two frames of a run, however late the thread was, no more is played than fits
      the time between them and 200 ms. */
  lemma BurstsAreBounded(s: State, from: int, a: Round, es: seq<Event>, b: Round)
    requires Timed(s, from, [Play(a)] + es + [Play(b)])
    ensures 125 * AudioBytes(es) <= b.taken - a.taken + 200000
  {
    var all := [Play(a)] + es + [Play(b)];
    assert all[0] == Play(a) && all[1..] == es + [Play(b)];
    NeverAhead(Step(s, Play(a)), a.done, es, b);
  }

  ghost predicate AllFramesOf(es: seq<Event>, size: nat) {
    forall e | e in es :: e.Play? ==> e.round.size == size
  }

  lemma {:induction false} BytesOfFrames(es: seq<Event>, size: nat)
    requires AllFramesOf(es, size)
    ensures AudioBytes(es) == Frames(es) * size
  {
    if es != [] {
      assert AllFramesOf(es[1..], size) by { assert forall e | e in es[1..] :: e in es; }
      BytesOfFrames(es[1..], size);
    }
  }

  /** With frames of one size, a stretch of w microseconds holds at most 2 + (w + 200000) / (125 * size)
      of them, wherever in the run it lies. */
  lemma FramesInAWindow(s: State, from: int, a: Round, es: seq<Event>, b: Round, size: nat, w: nat)
    requires Timed(s, from, [Play(a)] + es + [Play(b)]) && b.taken - a.taken <= w
    requires AllFramesOf(es, size) && size > 0
    ensures Frames(es) + 2 <= 2 + (w + 200000) / (125 * size)
  {
    BurstsAreBounded(s, from, a, es, b);
    BytesOfFrames(es, size);
    FitsIn(Frames(es), size, w + RESYNC_US);
  }

  lemma FitsIn(n: nat, size: nat, total: nat)
    requires size > 0 && US_PER_SAMPLE * (n * size) <= total
    ensures n <= total / (US_PER_SAMPLE * size)
  {
    var d := US_PER_SAMPLE * size;
    var q := total / d;
    assert n * d == US_PER_SAMPLE * (n * size);
    assert total < (q + 1) * d;
    assert n >= q + 1 ==> n * d >= (q + 1) * d;
  }

  // ------------------------------------------------------------------- the C code

  /** The array index i places behind the read position. */
  function Slot(tail: nat, i: nat): (slot: nat)
    requires tail < RING && i <= RING
    ensures slot == (tail + i) % RING
  {
    if tail + i < RING then tail + i else tail + i - RING
  }

  /** bc_ring with its indices, and the local state of bc_playout_thread. */
  class Backchannel {
    const ring: array<Byte>
    var head: nat
    var tail: nat
    var fill: nat
    var overruns: nat
    var underruns: nat
    var playing: bool
    var nextUs: int
    ghost var pushed: seq<Byte>
    ghost var queue: seq<Byte>
    ghost var played: seq<Byte>

    ghost predicate Valid()
      reads this, ring
    {
      && ring.Length == RING
      && tail < RING && fill == |queue| <= RING && head == Slot(tail, fill)
      && forall i | 0 <= i < fill :: queue[i] == ring[Slot(tail, i)]
    }

    ghost function Abstract(): State
      reads this
    {
      State(pushed, queue, played, overruns, underruns, playing, nextUs)
    }

    /** bc_playout_start after a stop. */
    constructor ()
      ensures Valid() && fresh(ring) && Abstract() == SILENT
    {
      ring := new Byte[RING](_ => 0);
      head, tail, fill, overruns, underruns, playing, nextUs := 0, 0, 0, 0, 0, false, 0;
      pushed, queue, played := [], [], [];
    }

    method PushByte(b: Byte)
      requires Valid()
      modifies this`head, this`tail, this`fill, this`overruns, this`queue, ring
      ensures Valid() && queue == Last(old(queue) + [b], RING)
      ensures overruns == old(overruns) + if old(fill) == RING then 1 else 0
    {
      if fill == RING {
        tail := (tail + 1) % RING;
        fill := fill - 1;
        overruns := overruns + 1;
        queue := queue[1..];
      }
      ring[head] := b;
      head := (head + 1) % RING;
      fill := fill + 1;
      queue := queue + [b];
    }

    /** The loop of bc_ring_push. */
    method PushBytes(data: seq<Byte>)
      requires Valid()
      modifies this`head, this`tail, this`fill, this`overruns, this`queue, ring
      ensures Valid() && queue == Last(old(queue) + data, RING)
      ensures overruns == old(overruns) + if |old(queue)| + |data| > RING then |old(queue)| + |data| - RING else 0
    {
      ghost var before := queue;
      var i := 0;
      while i < |data|
        invariant i <= |data| && Valid()
        invariant queue == Last(before + data[..i], RING)
        invariant overruns == old(overruns) + if |before| + i > RING then |before| + i - RING else 0
      {
        PushByte(data[i]);
        LastOfOneMore(before, data, i);
        i := i + 1;
      }
      assert data[..|data|] == data;
    }

    /** bc_ring_push. */
    method Push(data: seq<Byte>)
      requires Valid()
      modifies this, ring
      ensures Valid() && Abstract() == Step(old(Abstract()), Event.Push(data))
    {
      PushBytes(data);
      pushed := pushed + data;
    }

    /** The condition of the wait loop: true when a frame may be played, else the thread waits. */
    method Poll(size: nat) returns (ready: bool)
      requires Valid() && 1 <= size <= FRAME_MAX
      modifies this`playing, this`underruns, this`nextUs
      ensures Valid() && ready == Ready(old(Abstract()), size)
      ensures Abstract() == if ready then old(Abstract()) else Step(old(Abstract()), Starve(size))
    {
      ready := if playing then fill >= size else fill >= PREBUFFER;
      if !ready && playing {
        playing := false;
        underruns := underruns + 1;
        nextUs := 0;
      }
    }

    method TakeFrame(size: nat) returns (frame: seq<Byte>)
      requires Valid() && size <= fill
      modifies this`tail, this`fill, this`queue
      ensures Valid() && frame == old(queue)[..size] && queue == old(queue)[size..]
    {
      ghost var first := tail;
      var i := 0;
      frame := [];
      while i < size
        invariant i <= size <= fill == old(fill) && queue == old(queue)
        invariant tail == Slot(first, i) && frame == queue[..i]
      {
        assert queue[i] == ring[Slot(first, i)];
        frame := frame + [ring[tail]];
        tail := (tail + 1) % RING;
        i := i + 1;
      }
      fill := fill - size;
      queue := queue[size..];
      assert forall i | 0 <= i < fill :: queue[i] == old(queue)[size + i];
    }

    /** One turn of bc_playout_thread after the wait, with its clock readings. */
    method PlayFrame(r: Round) returns (frame: seq<Byte>, sleep: int)
      requires Valid() && Enabled(Abstract(), Play(r))
      modifies this
      ensures Valid() && Abstract() == Step(old(Abstract()), Play(r))
      ensures played == old(played) + frame
      ensures sleep == if Deadline(old(Abstract()), r) > r.now then Deadline(old(Abstract()), r) - r.now else 0
    {
      if !playing { nextUs := r.resume; }
      playing := true;
      frame := TakeFrame(r.size);
      played := played + frame;
      nextUs := nextUs + r.size * US_PER_SAMPLE;
      var wait := nextUs - r.now;
      sleep := 0;
      if wait > 0 {
        sleep := wait;
      } else if wait < -RESYNC_US {
        nextUs := r.again;
      }
    }
  }

  lemma LastOfOneMore(before: seq<Byte>, data: seq<Byte>, i: nat)
    requires i < |data|
    ensures Last(Last(before + data[..i], RING) + [data[i]], RING) == Last(before + data[..i + 1], RING)
  {
    assert before + data[..i + 1] == before + data[..i] + [data[i]];
  }
}

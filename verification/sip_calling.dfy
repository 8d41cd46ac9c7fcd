/** The SIP call session of src/sip_media/sip_calling.c.  Every public function runs under one
    recursive lock, so each call is one atomic step on the session.

    `Step` is the transition table over session values; `SipCalling` is the C code and is proved to
    make exactly these steps.  PJSIP is a parameter: an event says which of its create and send
    calls succeed.  Everything the session does to the outside is appended to `log`. */
module SipSession {
  import opened Wrappers

  datatype CallState = Idle | Calling | Ringing | Incoming | Established | Failed

  datatype Direction = NoDirection | Outgoing | IncomingCall

  /** What the SDP of the other side says. */
  datatype Media = Media(audioPort: int, dtmf: int, videoPort: int, videoPayload: int)

  const DEFAULT_MEDIA := Media(8000, 101, 0, 0)

  /** The longest Call-ID that fits call_id_buf. */
  const CALL_ID_MAX := 127

  /** Effects in order.  `Tried` means handed to PJSIP, which may fail; INVITEs are numbered in
      the order they are created. */
  datatype Note =
    | Changed(from: CallState, to: CallState)
    | AudioStarted(media: Media)
    | InviteSent(invite: nat, callId: string)
    | CancelTried(invite: nat)
    | AckTried(callId: string)
    | ByeTried(callId: string)
    | Refused(callId: string, code: int)
    | PeerBye(callId: string)
    | Replied(code: int)

  datatype Session = Session(state: CallState, direction: Direction, callId: string, retained: Option<nat>,
                             media: Media, started: int, created: nat, refs: int, log: seq<Note>)

  const FRESH := Session(Idle, NoDirection, "", None, DEFAULT_MEDIA, 0, 0, 0, [])

  datatype Event =
    | MakeCall(now: int, newCallId: string, create: bool, offer: bool, send: bool)
    | Invite(cid: Option<string>, sdp: Option<Media>, create: bool, offer: bool, send: bool)
    | Ack(cid: Option<string>)
    | Bye(cid: Option<string>)
    | Cancel
    | Response(cid: Option<string>, code: int, sdp: Option<Media>)
    | Terminate
    | CheckTimeout(now: int, timeout: int)

  /** snprintf into a buffer of 64 bytes gives an outgoing Call-ID of at most 63. */
  predicate Enabled(e: Event) {
    e.MakeCall? ==> 0 < |e.newCallId| < 64
  }

  // ------------------------------------------------------------ transition table

  function Noted(s: Session, n: Note): Session {
    s.(log := s.log + [n])
  }

  /** To IDLE, whether asked for as IDLE or as FAILED; from IDLE only FAILED does anything. */
  function Reset(s: Session): Session {
    Session(Idle, NoDirection, "", None, DEFAULT_MEDIA, 0, s.created,
            s.refs - (if s.retained.Some? then 1 else 0), s.log + [Changed(s.state, Idle)])
  }

  function Hangup(s: Session): Session {
    if s.state == Idle then s else Reset(s)
  }

  function Move(s: Session, to: CallState): Session {
    if s.state == to then s else Noted(s.(state := to), Changed(s.state, to))
  }

  function Establish(s: Session): Session {
    if s.state == Established then s
    else Move(Noted(s, AudioStarted(s.media)), Established)
  }

  function WithCancel(s: Session): Session {
    if s.direction == Outgoing && s.retained.Some? then Noted(s, CancelTried(s.retained.value)) else s
  }

  function WithMedia(s: Session, sdp: Option<Media>): Session {
    if sdp.Some? then s.(media := sdp.value) else s
  }

  function Place(s: Session, e: Event): Session
    requires e.MakeCall? && s.state == Idle
  {
    var calling := Move(s.(direction := Outgoing, started := e.now), Calling).(callId := e.newCallId);
    if !e.create then Reset(calling)
    else if !e.offer then Reset(calling.(created := s.created + 1))
    else
      var holding := calling.(created := s.created + 1, retained := Some(s.created),
                              refs := s.refs + 1 - (if s.retained.Some? then 1 else 0));
      if e.send then Noted(holding, InviteSent(s.created, e.newCallId)) else Reset(holding)
  }

  function Accept(s: Session, e: Event): Session
    requires e.Invite? && s.state == Idle
  {
    var id := if e.cid.None? then s.callId
              else if |e.cid.value| <= CALL_ID_MAX then e.cid.value else e.cid.value[..CALL_ID_MAX];
    var taken := WithMedia(s.(direction := IncomingCall, callId := id), e.sdp);
    if e.create && e.offer && e.send then Move(Noted(taken, Replied(200)), Incoming) else Reset(taken)
  }

  function OnInvite(s: Session, e: Event): Session
    requires e.Invite?
  {
    if s.state == Idle then Accept(s, e)
    else if s.callId != "" && e.cid == Some(s.callId) then Noted(s, Replied(200))
    else if s.state == Calling || s.state == Ringing then Accept(Hangup(WithCancel(s)), e)
    else Noted(s, Replied(486))
  }

  predicate ForOurCall(s: Session, e: Event)
    requires e.Response?
  {
    s.state != Idle && s.direction == Outgoing && e.cid == Some(s.callId)
  }

  function OnResponse(s: Session, e: Event): Session
    requires e.Response?
  {
    if !ForOurCall(s, e) then s
    else if e.code == 180 || e.code == 183 then Move(s, Ringing)
    else if e.code == 200 then
      if s.state == Established then Noted(s, AckTried(s.callId))
      else Establish(Noted(WithMedia(s, e.sdp), AckTried(s.callId)))
    else if e.code >= 300 then Hangup(Noted(s, Refused(s.callId, e.code)))
    else s
  }

  function OnTerminate(s: Session): Session {
    if s.state == Established && s.callId != "" then
      Hangup(s.(log := s.log + [ByeTried(s.callId), ByeTried(s.callId), ByeTried(s.callId)]))
    else if s.state == Calling || s.state == Ringing then Hangup(WithCancel(s))
    else Hangup(s)
  }

  function Step(s: Session, e: Event): Session {
    match e
    case MakeCall(_, _, _, _, _) => if s.state == Idle then Place(s, e) else s
    case Invite(_, _, _, _, _) => OnInvite(s, e)
    case Ack(cid) => if cid == Some(s.callId) && s.state == Incoming then Establish(s) else s
    case Bye(cid) =>
      if s.callId != "" && cid == Some(s.callId)
      then Hangup(Noted(Noted(s, Replied(200)), PeerBye(s.callId)))
      else Noted(s, Replied(481))
    case Cancel => if s.state == Incoming then Hangup(Noted(s, Replied(200))) else Noted(s, Replied(200))
    case Response(_, _, _) => OnResponse(s, e)
    case Terminate => OnTerminate(s)
    case CheckTimeout(now, timeout) =>
      if (s.state == Calling || s.state == Ringing) && now - s.started >= timeout then Hangup(WithCancel(s)) else s
  }

  ghost predicate Possible(es: seq<Event>) {
    forall k | 0 <= k < |es| :: Enabled(es[k])
  }

  function Run(s: Session, es: seq<Event>): Session {
    if es == [] then s else Step(Run(s, es[..|es| - 1]), es[|es| - 1])
  }

  // ------------------------------------------------- what holds after every step

  predicate Consistent(s: Session) {
    && (match s.state
        case Idle =>
          && s.direction == NoDirection && s.callId == "" && s.retained == None
          && s.media == Media(8000, 101, 0, 0) && s.started == 0
        case Calling => s.direction == Outgoing && s.callId != "" && s.retained.Some?
        case Ringing => s.direction == Outgoing && s.callId != "" && s.retained.Some?
        case Incoming => s.direction == IncomingCall && s.retained == None
        case Established =>
          if s.direction == Outgoing then s.callId != "" && s.retained.Some?
          else s.direction == IncomingCall && s.retained == None
        case Failed => false)
    && s.refs == (if s.retained.Some? then 1 else 0)
    && (s.retained.Some? ==> s.retained.value < s.created)
  }

  /** The state the callbacks have reported last. */
  function Reported(log: seq<Note>): CallState {
    if log == [] then Idle
    else if log[|log| - 1].Changed? then log[|log| - 1].to
    else Reported(log[..|log| - 1])
  }

  /** Every callback starts from where the one before it ended. */
  predicate Chained(log: seq<Note>) {
    log == [] || (
      && Chained(log[..|log| - 1])
      && (log[|log| - 1].Changed? ==> log[|log| - 1].from == Reported(log[..|log| - 1])))
  }

  lemma ChainGrows(log: seq<Note>, n: Note)
    ensures Reported(log + [n]) == if n.Changed? then n.to else Reported(log)
    ensures Chained(log + [n]) <==> Chained(log) && (n.Changed? ==> n.from == Reported(log))
  {
    assert (log + [n])[..|log|] == log;
  }

  ghost predicate ReportsItself(s: Session) {
    Chained(s.log) && Reported(s.log) == s.state
  }

  lemma NotedReports(s: Session, n: Note)
    requires ReportsItself(s) && !n.Changed?
    ensures ReportsItself(Noted(s, n))
  {
    ChainGrows(s.log, n);
  }

  lemma MoveReports(s: Session, to: CallState)
    requires ReportsItself(s)
    ensures ReportsItself(Move(s, to)) && ReportsItself(Reset(s)) && ReportsItself(Hangup(s))
  {
    ChainGrows(s.log, Changed(s.state, to));
    ChainGrows(s.log, Changed(s.state, Idle));
  }

  lemma EstablishReports(s: Session)
    requires ReportsItself(s)
    ensures ReportsItself(Establish(s))
  {
    NotedReports(s, AudioStarted(s.media));
    MoveReports(Noted(s, AudioStarted(s.media)), Established);
  }

  lemma CancelReports(s: Session)
    requires ReportsItself(s)
    ensures ReportsItself(WithCancel(s)) && ReportsItself(Hangup(WithCancel(s)))
  {
    if s.retained.Some? { NotedReports(s, CancelTried(s.retained.value)); }
    MoveReports(WithCancel(s), Idle);
  }

  lemma PlaceReports(s: Session, e: Event)
    requires ReportsItself(s) && e.MakeCall? && s.state == Idle
    ensures ReportsItself(Place(s, e))
  {
    MoveReports(s, Calling);
    var calling := Move(s, Calling);
    MoveReports(calling, Idle);
    NotedReports(calling, InviteSent(s.created, e.newCallId));
  }

  lemma AcceptReports(s: Session, e: Event)
    requires ReportsItself(s) && e.Invite? && s.state == Idle
    ensures ReportsItself(Accept(s, e))
  {
    MoveReports(s, Idle);
    NotedReports(s, Replied(200));
    MoveReports(Noted(s, Replied(200)), Incoming);
  }

  lemma ResponseReports(s: Session, e: Event)
    requires ReportsItself(s) && e.Response?
    ensures ReportsItself(OnResponse(s, e))
  {
    if e.code == 180 || e.code == 183 {
      MoveReports(s, Ringing);
    } else if e.code == 200 {
      NotedReports(s, AckTried(s.callId));
      EstablishReports(Noted(WithMedia(s, e.sdp), AckTried(s.callId)));
    } else {
      NotedReports(s, Refused(s.callId, e.code));
      MoveReports(Noted(s, Refused(s.callId, e.code)), Idle);
    }
  }

  lemma TerminateReports(s: Session)
    requires ReportsItself(s)
    ensures ReportsItself(OnTerminate(s))
  {
    var bye := ByeTried(s.callId);
    var one := Noted(s, bye);
    var two := Noted(one, bye);
    NotedReports(s, bye);
    NotedReports(one, bye);
    NotedReports(two, bye);
    assert Noted(two, bye).log == s.log + [bye, bye, bye];
    MoveReports(Noted(two, bye), Idle);
    MoveReports(s, Idle);
    CancelReports(s);
  }

  lemma StepReports(s: Session, e: Event)
    requires ReportsItself(s)
    ensures ReportsItself(Step(s, e))
  {
    CancelReports(s);
    match e
    case MakeCall(_, _, _, _, _) => if s.state == Idle { PlaceReports(s, e); }
    case Invite(_, _, _, _, _) =>
      NotedReports(s, Replied(200));
      NotedReports(s, Replied(486));
      if s.state == Idle {
        AcceptReports(s, e);
      } else {
        AcceptReports(Hangup(WithCancel(s)), e);
      }
    case Ack(_) => EstablishReports(s);
    case Bye(_) =>
      NotedReports(s, Replied(481));
      NotedReports(s, Replied(200));
      NotedReports(Noted(s, Replied(200)), PeerBye(s.callId));
      MoveReports(Noted(Noted(s, Replied(200)), PeerBye(s.callId)), Idle);
    case Cancel =>
      NotedReports(s, Replied(200));
      MoveReports(Noted(s, Replied(200)), Idle);
    case Response(_, _, _) => ResponseReports(s, e);
    case Terminate => TerminateReports(s);
    case CheckTimeout(_, _) =>
  }

  lemma PlaceIsConsistent(s: Session, e: Event)
    requires Consistent(s) && Enabled(e) && e.MakeCall? && s.state == Idle
    ensures Consistent(Place(s, e))
  {
  }

  lemma InviteIsConsistent(s: Session, e: Event)
    requires Consistent(s) && e.Invite?
    ensures Consistent(OnInvite(s, e))
  {
  }

  lemma ResponseIsConsistent(s: Session, e: Event)
    requires Consistent(s) && e.Response?
    ensures Consistent(OnResponse(s, e))
  {
  }

  lemma StepIsConsistent(s: Session, e: Event)
    requires Consistent(s) && Enabled(e)
    ensures Consistent(Step(s, e))
  {
    if e.MakeCall? {
      if s.state == Idle { PlaceIsConsistent(s, e); }
    } else if e.Invite? {
      InviteIsConsistent(s, e);
    } else if e.Response? {
      ResponseIsConsistent(s, e);
    }
  }

  /** After every step of every run: FAILED is never stored, an idle session is empty, an
      unanswered outgoing call keeps its INVITE and an incoming one keeps none, INVITE references
      are balanced, and the state callbacks form one chain from IDLE to the current state. */
  lemma {:induction false} SessionStaysConsistent(es: seq<Event>)
    requires Possible(es)
    ensures Consistent(Run(FRESH, es)) && ReportsItself(Run(FRESH, es))
    decreases |es|
  {
    if es != [] {
      var before := es[..|es| - 1];
      SessionStaysConsistent(before);
      StepIsConsistent(Run(FRESH, before), es[|es| - 1]);
      StepReports(Run(FRESH, before), es[|es| - 1]);
    }
  }

  // ---------------------------------------------------- what the call's own events do

  predicate Waits(s: Session) {
    s.state == Calling || s.state == Ringing
  }

  /** The empty session, with this much more reported and done. */
  function Emptied(s: Session, notes: seq<Note>): Session {
    Session(Idle, NoDirection, "", None, Media(8000, 101, 0, 0), 0, s.created, 0, s.log + notes)
  }

  /** A call goes out from a free session only, is numbered and kept with one reference, and
      whatever fails on the way leaves the session empty again. */
  lemma CallsArePlaced(s: Session, now: int, id: string, create: bool, offer: bool, send: bool)
    requires Consistent(s) && 0 < |id| < 64
    ensures var t := Step(s, MakeCall(now, id, create, offer, send));
            if s.state != Idle then t == s
            else if create && offer && send then
              t == Session(Calling, Outgoing, id, Some(s.created), Media(8000, 101, 0, 0), now, s.created + 1, 1,
                           s.log + [Changed(Idle, Calling), InviteSent(s.created, id)])
            else t == Emptied(s, [Changed(Idle, Calling), Changed(Calling, Idle)]).(created := t.created)
                 && t.created == s.created + if create then 1 else 0
  {
  }

  /** Ringing is shown while the answer is awaited; other responses below 300 do nothing. */
  lemma RingingIsShown(s: Session, code: int, sdp: Option<Media>)
    requires Consistent(s) && Waits(s) && code < 300 && code != 200
    ensures var t := Step(s, Response(Some(s.callId), code, sdp));
            if s.state == Calling && (code == 180 || code == 183) then
              t == s.(state := Ringing, log := s.log + [Changed(Calling, Ringing)])
            else t == s
  {
  }

  /** The 200 of a waiting call is acknowledged, then audio starts with the media of its SDP, or
      with what was there before when it has none; the 200 of an answered call is only
      acknowledged once more. */
  lemma AnswerStartsAudio(s: Session, sdp: Option<Media>)
    requires Consistent(s) && s.direction == Outgoing
    ensures var t := Step(s, Response(Some(s.callId), 200, sdp));
            var media := if sdp.Some? then sdp.value else s.media;
            if s.state == Established then t == s.(log := s.log + [AckTried(s.callId)])
            else t == s.(state := Established, media := media,
                         log := s.log + [AckTried(s.callId), AudioStarted(media), Changed(s.state, Established)])
  {
  }

  lemma RefusalEndsTheCall(s: Session, code: int, sdp: Option<Media>)
    requires Consistent(s) && s.direction == Outgoing && code >= 300
    ensures Step(s, Response(Some(s.callId), code, sdp)) == Emptied(s, [Refused(s.callId, code), Changed(s.state, Idle)])
  {
  }

  /** A response concerns the session only when it made the call itself and the Call-ID is its own. */
  lemma OtherResponsesAreIgnored(s: Session, cid: Option<string>, code: int, sdp: Option<Media>)
    requires Consistent(s) && (s.direction != Outgoing || cid != Some(s.callId))
    ensures Step(s, Response(cid, code, sdp)) == s
  {
  }

  /** An INVITE at a free session: answered with 200 and kept under its Call-ID as far as 127
      characters, with the media of its SDP, or refused without a trace when that fails. */
  lemma InvitesAreTaken(s: Session, e: Event)
    requires Consistent(s) && s.state == Idle && e.Invite?
    ensures var id := if e.cid.None? then "" else if |e.cid.value| > 127 then e.cid.value[..127] else e.cid.value;
            var media := if e.sdp.Some? then e.sdp.value else Media(8000, 101, 0, 0);
            if e.create && e.offer && e.send then
              Step(s, e) == Session(Incoming, IncomingCall, id, None, media, 0, s.created, 0,
                                    s.log + [Replied(200), Changed(Idle, Incoming)])
            else Step(s, e) == Emptied(s, [Changed(Idle, Idle)])
  {
  }

  /** The INVITE of the call at hand, once more, is only answered. */
  lemma RepeatedInviteIsAnswered(s: Session, e: Event)
    requires e.Invite? && s.state != Idle && s.callId != "" && e.cid == Some(s.callId)
    ensures Step(s, e) == s.(log := s.log + [Replied(200)])
  {
  }

  /** The ACK of an incoming call starts audio with the media of its INVITE; no other ACK does
      anything. */
  lemma AckStartsAudio(s: Session, cid: Option<string>)
    requires Consistent(s)
    ensures Step(s, Ack(cid)) ==
            if s.state == Incoming && cid == Some(s.callId) then
              s.(state := Established, log := s.log + [AudioStarted(s.media), Changed(Incoming, Established)])
            else s
  {
  }

  /** The BYE of the call is answered and ends it, whatever its state, with one report; any other
      BYE is answered with 481. */
  lemma ByeEndsTheCall(s: Session, cid: Option<string>)
    requires Consistent(s)
    ensures Step(s, Bye(cid)) ==
            if s.callId != "" && cid == Some(s.callId) then
              Emptied(s, [Replied(200), PeerBye(s.callId), Changed(s.state, Idle)])
            else s.(log := s.log + [Replied(481)])
  {
  }

  /** A CANCEL is answered, and ends a call that has not had its ACK. */
  lemma CancelEndsTheCall(s: Session)
    requires Consistent(s)
    ensures Step(s, Cancel) == if s.state == Incoming then Emptied(s, [Replied(200), Changed(Incoming, Idle)])
                               else s.(log := s.log + [Replied(200)])
  {
  }

  /** A call that waits for its answer is cancelled and ended once it has waited that long, and
      nothing else ends by time. */
  lemma UnansweredCallsTimeOut(s: Session, now: int, timeout: int)
    requires Consistent(s)
    ensures Step(s, CheckTimeout(now, timeout)) ==
            if Waits(s) && now - s.started >= timeout then
              Emptied(s, [CancelTried(s.retained.value), Changed(s.state, Idle)])
            else s
  {
  }

  /** Hanging up ends the call in every state: an established one, of either direction, with three
      tries at a BYE, one that waits for its answer with a CANCEL of its INVITE. */
  lemma HangingUpEndsTheCall(s: Session)
    requires Consistent(s)
    ensures var t := Step(s, Terminate);
            if s.state == Idle then t == s
            else if s.state == Established && s.callId != "" then
              t == Emptied(s, [ByeTried(s.callId), ByeTried(s.callId), ByeTried(s.callId), Changed(Established, Idle)])
            else if Waits(s) then t == Emptied(s, [CancelTried(s.retained.value), Changed(s.state, Idle)])
            else t == Emptied(s, [Changed(s.state, Idle)])
  {
    if s.state == Established && s.callId != "" {
      var bye := ByeTried(s.callId);
      assert s.log + [bye, bye, bye] + [Changed(Established, Idle)] ==
             s.log + [bye, bye, bye, Changed(Established, Idle)];
    }
  }

  // ------------------------------------------------------- every INVITE is resolved

  /** This note settles INVITE number `invite` of the call: a CANCEL built from that very INVITE
      (section 9.1 of RFC 3261), the ACK of a 200, a final response of 300 or more, or a BYE. */
  predicate Resolves(n: Note, invite: nat, callId: string) {
    || n == CancelTried(invite)
    || n == AckTried(callId)
    || n == PeerBye(callId)
    || (n.Refused? && n.callId == callId)
  }

  ghost predicate ResolvedAfter(log: seq<Note>, k: nat, invite: nat, callId: string) {
    exists j | k < j < |log| :: Resolves(log[j], invite, callId)
  }

  /** The INVITE that still waits for an answer, if any. */
  function Owing(s: Session): Option<(nat, string)> {
    if (s.state == Calling || s.state == Ringing) && s.retained.Some? then Some((s.retained.value, s.callId)) else None
  }

  /** Every INVITE sent is resolved later on, or is the one the session still waits for. */
  ghost predicate Ledger(log: seq<Note>, owing: Option<(nat, string)>) {
    forall k | 0 <= k < |log| && log[k].InviteSent? ::
      owing == Some((log[k].invite, log[k].callId)) || ResolvedAfter(log, k, log[k].invite, log[k].callId)
  }

  lemma LedgerNote(log: seq<Note>, owing: Option<(nat, string)>, n: Note)
    requires Ledger(log, owing) && !n.InviteSent?
    ensures Ledger(log + [n], owing)
    ensures owing.Some? && Resolves(n, owing.value.0, owing.value.1) ==> Ledger(log + [n], None)
  {
    var longer := log + [n];
    var settled := owing.Some? && Resolves(n, owing.value.0, owing.value.1);
    forall k | 0 <= k < |longer| && longer[k].InviteSent?
      ensures !settled ==> owing == Some((longer[k].invite, longer[k].callId))
                           || ResolvedAfter(longer, k, longer[k].invite, longer[k].callId)
      ensures settled ==> ResolvedAfter(longer, k, longer[k].invite, longer[k].callId)
    {
      assert longer[k] == log[k] && longer[|log|] == n;
      if ResolvedAfter(log, k, log[k].invite, log[k].callId) {
        var j :| k < j < |log| && Resolves(log[j], log[k].invite, log[k].callId);
        assert longer[j] == log[j];
      }
    }
  }

  lemma LedgerSend(log: seq<Note>, invite: nat, callId: string)
    requires Ledger(log, None)
    ensures Ledger(log + [InviteSent(invite, callId)], Some((invite, callId)))
  {
    var longer := log + [InviteSent(invite, callId)];
    forall k | 0 <= k < |log| && longer[k].InviteSent?
      ensures ResolvedAfter(longer, k, longer[k].invite, longer[k].callId)
    {
      assert longer[k] == log[k];
      var j :| k < j < |log| && Resolves(log[j], log[k].invite, log[k].callId);
      assert longer[j] == log[j];
    }
  }

  ghost predicate Balanced(s: Session) {
    Ledger(s.log, Owing(s))
  }

  lemma HangupBalances(s: Session)
    requires Ledger(s.log, None)
    ensures Ledger(Hangup(s).log, None) && Ledger(Reset(s).log, None)
  {
    LedgerNote(s.log, None, Changed(s.state, Idle));
  }

  lemma CancelBalances(s: Session)
    requires Consistent(s) && Balanced(s)
    ensures (s.state == Calling || s.state == Ringing) ==> Ledger(Hangup(WithCancel(s)).log, None)
  {
    if s.state == Calling || s.state == Ringing {
      LedgerNote(s.log, Owing(s), CancelTried(s.retained.value));
      HangupBalances(WithCancel(s));
    }
  }

  lemma PlaceBalances(s: Session, e: Event)
    requires Consistent(s) && Balanced(s) && e.MakeCall? && s.state == Idle
    ensures Balanced(Place(s, e))
  {
    LedgerNote(s.log, None, Changed(Idle, Calling));
    var log := s.log + [Changed(Idle, Calling)];
    LedgerSend(log, s.created, e.newCallId);
    LedgerNote(log, None, Changed(Calling, Idle));
  }

  lemma AcceptBalances(s: Session, e: Event)
    requires Ledger(s.log, None) && e.Invite? && s.state == Idle
    ensures Balanced(Accept(s, e))
  {
    LedgerNote(s.log, None, Changed(Idle, Idle));
    LedgerNote(s.log, None, Replied(200));
    LedgerNote(s.log + [Replied(200)], None, Changed(Idle, Incoming));
  }

  lemma ResponseBalances(s: Session, e: Event)
    requires Consistent(s) && Balanced(s) && e.Response? && ForOurCall(s, e)
    ensures Balanced(OnResponse(s, e))
  {
    var media := WithMedia(s, e.sdp);
    LedgerNote(s.log, Owing(s), Changed(s.state, Ringing));
    LedgerNote(s.log, Owing(s), AckTried(s.callId));
    LedgerNote(s.log + [AckTried(s.callId)], None, AudioStarted(media.media));
    LedgerNote(s.log + [AckTried(s.callId)] + [AudioStarted(media.media)], None, Changed(s.state, Established));
    LedgerNote(s.log, Owing(s), Refused(s.callId, e.code));
    HangupBalances(Noted(s, Refused(s.callId, e.code)));
  }

  lemma TerminateBalances(s: Session)
    requires Consistent(s) && Balanced(s)
    ensures Balanced(OnTerminate(s))
  {
    CancelBalances(s);
    if s.state == Established {
      var bye := ByeTried(s.callId);
      LedgerNote(s.log, None, bye);
      LedgerNote(s.log + [bye], None, bye);
      LedgerNote(s.log + [bye] + [bye], None, bye);
      assert s.log + [bye] + [bye] + [bye] == s.log + [bye, bye, bye];
      HangupBalances(s.(log := s.log + [bye, bye, bye]));
    }
    if s.state == Established || s.state == Incoming { HangupBalances(s); }
  }

  lemma StepBalances(s: Session, e: Event)
    requires Consistent(s) && Balanced(s)
    ensures Balanced(Step(s, e))
  {
    CancelBalances(s);
    match e
    case MakeCall(_, _, _, _, _) => if s.state == Idle { PlaceBalances(s, e); }
    case Invite(_, _, _, _, _) =>
      LedgerNote(s.log, Owing(s), Replied(200));
      LedgerNote(s.log, Owing(s), Replied(486));
      if s.state == Idle {
        AcceptBalances(s, e);
      } else if s.state == Calling || s.state == Ringing {
        AcceptBalances(Hangup(WithCancel(s)), e);
      }
    case Ack(_) =>
      if s.state == Incoming {
        LedgerNote(s.log, None, AudioStarted(s.media));
        LedgerNote(s.log + [AudioStarted(s.media)], None, Changed(Incoming, Established));
      }
    case Bye(_) =>
      LedgerNote(s.log, Owing(s), Replied(481));
      LedgerNote(s.log, Owing(s), Replied(200));
      LedgerNote(s.log + [Replied(200)], Owing(s), PeerBye(s.callId));
      HangupBalances(Noted(Noted(s, Replied(200)), PeerBye(s.callId)));
    case Cancel =>
      LedgerNote(s.log, Owing(s), Replied(200));
      if s.state == Incoming { HangupBalances(Noted(s, Replied(200))); }
    case Response(_, _, _) => if ForOurCall(s, e) { ResponseBalances(s, e); }
    case Terminate => TerminateBalances(s);
    case CheckTimeout(_, _) =>
  }

  lemma {:induction false} RunBalances(es: seq<Event>)
    requires Possible(es)
    ensures Balanced(Run(FRESH, es))
    decreases |es|
  {
    if es != [] {
      var before := es[..|es| - 1];
      RunBalances(before);
      SessionStaysConsistent(before);
      StepBalances(Run(FRESH, before), es[|es| - 1]);
    }
  }

  /** Whenever the session is idle, every INVITE ever sent was settled after it was sent. */
  lemma NoInviteIsForgotten(es: seq<Event>, k: nat)
    requires Possible(es)
    requires var s := Run(FRESH, es); s.state == Idle && k < |s.log| && s.log[k].InviteSent?
    ensures var log := Run(FRESH, es).log; ResolvedAfter(log, k, log[k].invite, log[k].callId)
  {
    RunBalances(es);
    SessionStaysConsistent(es);
  }

  // ---------------------------------------------------------- CANCELs match INVITEs

  ghost predicate SentBefore(log: seq<Note>, k: nat, invite: nat)
    requires k <= |log|
  {
    exists i | 0 <= i < k :: log[i].InviteSent? && log[i].invite == invite
  }

  /** Every CANCEL is for an INVITE sent before it and no longer held, and is the first for it. */
  ghost predicate Cancels(log: seq<Note>, held: Option<nat>, created: nat) {
    forall k | 0 <= k < |log| && log[k].CancelTried? ::
      && log[k].invite < created && held != Some(log[k].invite)
      && SentBefore(log, k, log[k].invite)
      && forall j | 0 <= j < k :: log[j] != log[k]
  }

  ghost predicate CancelsOnce(s: Session) {
    && Cancels(s.log, s.retained, s.created)
    && (s.retained.Some? ==> SentBefore(s.log, |s.log|, s.retained.value))
  }

  lemma SentStays(log: seq<Note>, k: nat, invite: nat, n: Note)
    requires k <= |log| && SentBefore(log, k, invite)
    ensures SentBefore(log + [n], k, invite) && SentBefore(log + [n], |log| + 1, invite)
  {
    var i :| 0 <= i < k && log[i].InviteSent? && log[i].invite == invite;
    assert (log + [n])[i] == log[i];
  }

  /** A note that is no CANCEL, or the CANCEL of the INVITE that is let go. */
  lemma CancelsNote(log: seq<Note>, held: Option<nat>, created: nat, n: Note)
    requires Cancels(log, held, created)
    requires n.CancelTried? ==> n.invite < created && held == Some(n.invite) && SentBefore(log, |log|, n.invite)
    ensures Cancels(log + [n], if n.CancelTried? then None else held, created)
  {
    var longer := log + [n];
    forall k | 0 <= k < |longer| && longer[k].CancelTried?
      ensures longer[k].invite < created && SentBefore(longer, k, longer[k].invite)
      ensures n.CancelTried? || held != Some(longer[k].invite)
      ensures forall j | 0 <= j < k :: longer[j] != longer[k]
    {
      if k < |log| {
        assert longer[k] == log[k];
        SentStays(log, k, log[k].invite, n);
      } else {
        SentStays(log, |log|, n.invite, n);
        assert forall j | 0 <= j < |log| :: longer[j] == log[j];
      }
    }
  }

  /** An effect other than CANCEL, and the INVITE kept or let go. */
  lemma NotedCancels(s: Session, n: Note)
    requires CancelsOnce(s) && !n.CancelTried?
    ensures CancelsOnce(Noted(s, n)) && CancelsOnce(Noted(s.(retained := None), n))
  {
    CancelsNote(s.log, s.retained, s.created, n);
    if s.retained.Some? { SentStays(s.log, |s.log|, s.retained.value, n); }
  }

  lemma HangupCancels(s: Session)
    requires CancelsOnce(s)
    ensures CancelsOnce(Hangup(s)) && CancelsOnce(Reset(s))
  {
    NotedCancels(s, Changed(s.state, Idle));
  }

  lemma EstablishCancels(s: Session)
    requires CancelsOnce(s)
    ensures CancelsOnce(Establish(s))
  {
    NotedCancels(s, AudioStarted(s.media));
    NotedCancels(Noted(s, AudioStarted(s.media)), Changed(s.state, Established));
  }

  lemma WithCancelCancels(s: Session)
    requires CancelsOnce(s) && Consistent(s) && s.state != Idle
    ensures CancelsOnce(Hangup(WithCancel(s)))
  {
    var t := WithCancel(s);
    if t != s { CancelsNote(s.log, s.retained, s.created, CancelTried(s.retained.value)); }
    var gone := t.(retained := None);
    assert CancelsOnce(gone);
    HangupCancels(gone);
    assert Hangup(t).log == Hangup(gone).log;
  }

  lemma PlaceCancels(s: Session, e: Event)
    requires CancelsOnce(s) && s.retained == None && e.MakeCall? && s.state == Idle
    ensures CancelsOnce(Place(s, e))
  {
    var calling := s.(log := s.log + [Changed(Idle, Calling)]);
    NotedCancels(s, Changed(Idle, Calling));
    NotedCancels(calling, Changed(Calling, Idle));
    var invite := InviteSent(s.created, e.newCallId);
    CancelsNote(calling.log, None, s.created, invite);
    var longer := calling.log + [invite];
    assert longer[|calling.log|] == invite;
    assert SentBefore(longer, |longer|, s.created);
  }

  lemma AcceptCancels(s: Session, e: Event)
    requires CancelsOnce(s) && s.retained == None && e.Invite? && s.state == Idle
    ensures CancelsOnce(Accept(s, e))
  {
    NotedCancels(s, Changed(Idle, Idle));
    NotedCancels(s, Replied(200));
    NotedCancels(Noted(s, Replied(200)), Changed(Idle, Incoming));
  }

  lemma ResponseCancels(s: Session, e: Event)
    requires CancelsOnce(s) && e.Response?
    ensures CancelsOnce(OnResponse(s, e))
  {
    NotedCancels(s, Changed(s.state, Ringing));
    NotedCancels(s, AckTried(s.callId));
    EstablishCancels(Noted(WithMedia(s, e.sdp), AckTried(s.callId)));
    NotedCancels(s, Refused(s.callId, e.code));
    HangupCancels(Noted(s, Refused(s.callId, e.code)));
  }

  lemma TerminateCancels(s: Session)
    requires CancelsOnce(s) && Consistent(s)
    ensures CancelsOnce(OnTerminate(s))
  {
    var bye := ByeTried(s.callId);
    NotedCancels(s, bye);
    NotedCancels(Noted(s, bye), bye);
    NotedCancels(Noted(Noted(s, bye), bye), bye);
    assert s.log + [bye] + [bye] + [bye] == s.log + [bye, bye, bye];
    HangupCancels(s.(log := s.log + [bye, bye, bye]));
    HangupCancels(s);
    if s.state != Idle { WithCancelCancels(s); }
  }

  lemma StepCancelsOnce(s: Session, e: Event)
    requires CancelsOnce(s) && Consistent(s)
    ensures CancelsOnce(Step(s, e))
  {
    if s.state != Idle { WithCancelCancels(s); }
    match e
    case MakeCall(_, _, _, _, _) => if s.state == Idle { PlaceCancels(s, e); }
    case Invite(_, _, _, _, _) =>
      NotedCancels(s, Replied(200));
      NotedCancels(s, Replied(486));
      if s.state == Idle {
        AcceptCancels(s, e);
      } else {
        AcceptCancels(Hangup(WithCancel(s)), e);
      }
    case Ack(_) => EstablishCancels(s);
    case Bye(_) =>
      NotedCancels(s, Replied(481));
      NotedCancels(s, Replied(200));
      NotedCancels(Noted(s, Replied(200)), PeerBye(s.callId));
      HangupCancels(Noted(Noted(s, Replied(200)), PeerBye(s.callId)));
    case Cancel =>
      NotedCancels(s, Replied(200));
      HangupCancels(Noted(s, Replied(200)));
    case Response(_, _, _) => ResponseCancels(s, e);
    case Terminate => TerminateCancels(s);
    case CheckTimeout(_, _) =>
  }

  /** In every run, a CANCEL is built from an INVITE that was sent before it, and no INVITE is
      cancelled twice. */
  lemma {:induction false} OneCancelPerSentInvite(es: seq<Event>)
    requires Possible(es)
    ensures CancelsOnce(Run(FRESH, es))
    decreases |es|
  {
    if es != [] {
      var before := es[..|es| - 1];
      OneCancelPerSentInvite(before);
      SessionStaysConsistent(before);
      StepCancelsOnce(Run(FRESH, before), es[|es| - 1]);
    }
  }

  // ------------------------------------------------- calls of others, and odd cases

  /** An INVITE of another call during an incoming or established call is refused and leaves the
      session as it is. */
  lemma ForeignInviteIsRefused(s: Session, e: Event)
    requires e.Invite? && (s.state == Incoming || s.state == Established) && e.cid != Some(s.callId)
    ensures Step(s, e) == s.(log := s.log + [Replied(486)])
  {
  }

  /** While an outgoing call waits for its answer, the INVITE of another call wins: the waiting one
      is cancelled and reported as ended, and the session then takes the INVITE as a free one does. */
  lemma IncomingCallWins(s: Session, e: Event)
    requires Consistent(s) && e.Invite? && (s.state == Calling || s.state == Ringing) && e.cid != Some(s.callId)
    ensures var t := Step(s, e);
            && t == Step(Emptied(s, [CancelTried(s.retained.value), Changed(s.state, Idle)]), e)
            && t.retained == None && |s.log| < |t.log| && t.log[|s.log|] == CancelTried(s.retained.value)
            && t.state == (if e.create && e.offer && e.send then Incoming else Idle)
  {
  }

  /** A CANCEL is not matched with the call: it ends the session exactly when the session waits for
      an ACK, whichever call the CANCEL belongs to. */
  lemma CancelEndsWhateverIsIncoming(s: Session)
    requires Consistent(s)
    ensures Step(s, Cancel).(log := s.log) == s <==> s.state != Incoming
  {
  }

  /** The Call-ID is kept in 127 characters.  A caller whose INVITE was accepted gets through with
      the ACK of that INVITE if and only if its Call-ID is no longer. */
  lemma LongCallIdsNeverConnect(s: Session, invite: Event)
    requires s.state == Idle && invite.Invite? && invite.cid.Some?
    requires Step(s, invite).state == Incoming
    ensures Step(Step(s, invite), Ack(invite.cid)).state == Established
            <==> |invite.cid.value| <= CALL_ID_MAX
  {
  }

  /** Responses are told apart by Call-ID alone: the refusal of a call that was given up ends the
      next call if and only if both have the same Call-ID, as calls placed within one second have. */
  lemma LateRefusalEndsTheNextCall(now: int, one: string, two: string, code: int)
    requires 0 < |one| < 64 && 0 < |two| < 64 && code >= 300
    ensures var es := [MakeCall(now, one, true, true, true), Terminate, MakeCall(now, two, true, true, true),
                       Response(Some(one), code, None)];
            Run(FRESH, es).state == (if one == two then Idle else Calling)
  {
    var first, second := MakeCall(now, one, true, true, true), MakeCall(now, two, true, true, true);
    var late := Response(Some(one), code, None);
    var es := [first, Terminate, second, late];
    assert es[..3] == [first, Terminate, second] && es[..3][..2] == [first, Terminate] && es[..3][..2][..1] == [first];
    var s1 := Step(FRESH, first);
    assert Run(FRESH, [first]) == s1 by { assert [first][..0] == []; }
    var s2 := Step(s1, Terminate);
    assert Run(FRESH, [first, Terminate]) == s2;
    var s3 := Step(s2, second);
    assert Run(FRESH, [first, Terminate, second]) == s3;
    assert Run(FRESH, es) == Step(s3, late);
    assert s2.state == Idle && s3.state == Calling && s3.callId == two;
  }

  // ------------------------------------------------------------- traffic of others

  lemma PlaceExtends(s: Session, e: Event)
    requires e.MakeCall? && s.state == Idle
    ensures s.log <= Place(s, e).log
  {
  }

  lemma InviteExtends(s: Session, e: Event)
    requires e.Invite?
    ensures s.log <= OnInvite(s, e).log
  {
  }

  lemma ResponseExtends(s: Session, e: Event)
    requires e.Response?
    ensures s.log <= OnResponse(s, e).log
  {
  }

  lemma StepExtends(s: Session, e: Event)
    ensures s.log <= Step(s, e).log
  {
    match e
    case MakeCall(_, _, _, _, _) => if s.state == Idle { PlaceExtends(s, e); }
    case Invite(_, _, _, _, _) => InviteExtends(s, e);
    case Response(_, _, _) => ResponseExtends(s, e);
    case _ =>
  }

  /** A message of another call. */
  predicate Foreign(callId: string, e: Event) {
    match e
    case Invite(cid, _, _, _, _) => cid != Some(callId)
    case Ack(cid) => cid != Some(callId)
    case Bye(cid) => cid != Some(callId)
    case Response(cid, _, _) => cid != Some(callId)
    case _ => false
  }

  ghost predicate AllForeign(callId: string, es: seq<Event>) {
    forall k | 0 <= k < |es| :: Foreign(callId, es[k])
  }

  /** No sequence of messages of other calls changes an incoming or established session: they are
      answered, and that is all. */
  lemma {:induction false} ForeignTrafficIsIgnored(s: Session, es: seq<Event>)
    requires s.state == Incoming || s.state == Established
    requires AllForeign(s.callId, es)
    ensures Run(s, es).(log := s.log) == s && s.log <= Run(s, es).log
    decreases |es|
  {
    if es != [] {
      ForeignTrafficIsIgnored(s, es[..|es| - 1]);
      StepExtends(Run(s, es[..|es| - 1]), es[|es| - 1]);
    }
  }

  /** So a caller with a Call-ID over 127 characters, once its INVITE is accepted, is a stranger to
      its own call: whatever ACKs and BYEs it sends, the session stays as it is, waiting. */
  lemma {:induction false} LongCallIdsAreStrangers(s: Session, invite: Event, es: seq<Event>)
    requires s.state == Idle && invite.Invite? && invite.cid.Some? && |invite.cid.value| > CALL_ID_MAX
    requires Step(s, invite).state == Incoming
    requires forall k | 0 <= k < |es| :: es[k] == Ack(invite.cid) || es[k] == Bye(invite.cid)
    ensures var t := Step(s, invite); Run(t, es).(log := t.log) == t
  {
    var t := Step(s, invite);
    assert |t.callId| == CALL_ID_MAX;
    ForeignTrafficIsIgnored(t, es);
  }

  // --------------------------------------------------------- answered outgoing calls

  predicate Rings(code: int) {
    code == 180 || code == 183
  }

  /** The last response of this call that says anything says that it rings. */
  predicate RingsLast(callId: string, es: seq<Event>) {
    if es == [] then false
    else
      var e, before := es[|es| - 1], es[..|es| - 1];
      if e.Response? && e.cid == Some(callId) && (Rings(e.code) || e.code == 200) then Rings(e.code)
      else RingsLast(callId, before)
  }

  /** Anything but what ends the call itself: its BYE, its refusal, a hang-up from this side. */
  predicate Mild(callId: string, e: Event) {
    match e
    case Bye(cid) => cid != Some(callId)
    case Response(cid, code, _) => cid != Some(callId) || code < 300
    case Terminate => false
    case _ => true
  }

  ghost predicate AllMild(callId: string, es: seq<Event>) {
    forall k | 0 <= k < |es| :: Mild(callId, es[k])
  }

  /** What gives up a call that is not answered: the INVITE of another, or time running out. */
  predicate GivesUp(s: Session, e: Event) {
    || (e.Invite? && e.cid != Some(s.callId))
    || (e.CheckTimeout? && e.now - s.started >= e.timeout)
  }

  /** At no point does such an event come while ringing was reported last. */
  ghost predicate NeverGivenUp(s: Session, es: seq<Event>) {
    es == []
    || (&& NeverGivenUp(s, es[..|es| - 1])
        && !(GivesUp(s, es[|es| - 1]) && RingsLast(s.callId, es[..|es| - 1])))
  }

  ghost predicate Answered(s: Session) {
    Consistent(s) && s.state == Established && s.direction == Outgoing
  }

  /** The call is still up, RINGING exactly when ringing was reported last. */
  predicate StillUp(s: Session, t: Session, ringing: bool) {
    && t.state == (if ringing then Ringing else Established)
    && t.callId == s.callId && t.retained == s.retained && t.direction == Outgoing
    && t.started == s.started && t.created == s.created && |s.log| <= |t.log|
  }

  /** The call was given up since: its INVITE is not kept any more, and was cancelled. */
  ghost predicate GivenUp(s: Session, t: Session)
    requires s.retained.Some?
  {
    && t.retained != s.retained && t.created >= s.created
    && exists k :: |s.log| <= k < |t.log| && t.log[k] == CancelTried(s.retained.value)
  }

  lemma AnsweredStep(s: Session, t: Session, e: Event, ringing: bool)
    requires Answered(s) && StillUp(s, t, ringing) && Mild(s.callId, e)
    ensures var u := Step(t, e);
            if GivesUp(s, e) && ringing then GivenUp(s, u)
            else StillUp(s, u, if e.Response? && e.cid == Some(s.callId) && (Rings(e.code) || e.code == 200)
                               then Rings(e.code) else ringing)
  {
    StepExtends(t, e);
    if GivesUp(s, e) && ringing {
      assert WithCancel(t).log[|t.log|] == CancelTried(s.retained.value);
      assert Hangup(WithCancel(t)).log[|t.log|] == CancelTried(s.retained.value);
      assert Step(t, e).log[|t.log|] == CancelTried(s.retained.value);
    }
  }

  /** An INVITE is kept on, let go, or replaced by one with the next number. */
  predicate NumbersOn(t: Session, u: Session) {
    u.created >= t.created && (u.retained == t.retained || u.retained == None || u.retained == Some(t.created))
  }

  lemma StepNumbersOn(t: Session, e: Event)
    ensures NumbersOn(t, Step(t, e))
  {
  }

  lemma GivenUpForGood(s: Session, t: Session, u: Session)
    requires Answered(s) && GivenUp(s, t) && t.log <= u.log && NumbersOn(t, u)
    ensures GivenUp(s, u)
  {
    var k :| |s.log| <= k < |t.log| && t.log[k] == CancelTried(s.retained.value);
    assert u.log[k] == t.log[k];
  }

  /** Through whatever does not end the call itself, an answered call stays up, and is RINGING
      exactly when ringing was reported last, if and only if no timeout check that has run out and
      no INVITE of another call comes while it is.  Otherwise its INVITE is cancelled, long after
      it was answered. */
  lemma {:induction false} AnsweredThenRinging(s: Session, es: seq<Event>)
    requires Answered(s) && AllMild(s.callId, es)
    ensures var t := Run(s, es);
            if NeverGivenUp(s, es) then StillUp(s, t, RingsLast(s.callId, es)) else GivenUp(s, t)
    decreases |es|
  {
    if es != [] {
      var before, e := es[..|es| - 1], es[|es| - 1];
      AnsweredThenRinging(s, before);
      if NeverGivenUp(s, before) {
        AnsweredStep(s, Run(s, before), e, RingsLast(s.callId, before));
      } else {
        StepExtends(Run(s, before), e);
        StepNumbersOn(Run(s, before), e);
        GivenUpForGood(s, Run(s, before), Run(s, es));
      }
    }
  }

  predicate EndsWithBye(s: Session, t: Session) {
    |s.log| < |t.log| && t.log[|s.log|] == ByeTried(s.callId)
  }

  predicate EndsWithCancel(s: Session, t: Session) {
    && s.retained.Some? && |s.log| < |t.log| && t.log[|s.log|] == CancelTried(s.retained.value)
  }

  /** Hanging up an answered call that is still up sends its BYE if and only if no 180 or 183 was
      the last response to say anything; otherwise it sends a CANCEL for an INVITE that was long
      answered. */
  lemma AnsweredCallsEndWithBye(s: Session, es: seq<Event>)
    requires Answered(s) && AllMild(s.callId, es) && NeverGivenUp(s, es)
    ensures var t := Run(s, es);
            && (EndsWithBye(t, Step(t, Terminate)) <==> !RingsLast(s.callId, es))
            && (EndsWithCancel(t, Step(t, Terminate)) <==> RingsLast(s.callId, es))
  {
    AnsweredThenRinging(s, es);
  }

  // ------------------------------------------------------------------- the C code

  /** set_call_state, as seen from outside. */
  function SetState(s: Session, to: CallState, now: int): Session {
    if s.state == to then s
    else match to
      case Idle => Reset(s)
      case Failed => Reset(s)
      case Calling => Move(s.(started := now), Calling)
      case Established => Establish(s)
      case _ => Move(s, to)
  }

  /** current_session and outgoing_invite_tdata. */
  class SipCalling {
    var timeout: int
    var state: CallState
    var direction: Direction
    var callId: string
    var retained: Option<nat>
    var media: Media
    var started: int
    var created: nat
    var refs: int
    var log: seq<Note>

    /** sip_calling_init. */
    constructor (timeout: int)
      ensures Abstract() == FRESH && this.timeout == timeout
    {
      this.timeout := timeout;
      state, direction, callId, retained, media := Idle, NoDirection, "", None, DEFAULT_MEDIA;
      started, created, refs, log := 0, 0, 0, [];
    }

    ghost function Abstract(): Session
      reads this
    {
      Session(state, direction, callId, retained, media, started, created, refs, log)
    }

    /** sip_calling_set_call_timeout. */
    method SetCallTimeout(seconds: int)
      modifies this`timeout
      ensures 10 <= timeout <= 120 && (10 <= seconds <= 120 ==> timeout == seconds)
      ensures Abstract() == old(Abstract())
    {
      timeout := if seconds < 10 then 10 else if seconds > 120 then 120 else seconds;
    }

    /** release_outgoing_invite_tdata. */
    method ReleaseInvite()
      modifies this`retained, this`refs
      ensures retained == None && refs == old(refs) - if old(retained).Some? then 1 else 0
    {
      if retained.Some? {
        refs := refs - 1;
        retained := None;
      }
    }

    /** clear_session_data. */
    method Clear()
      modifies this`retained, this`refs, this`started, this`direction, this`media, this`callId
      ensures retained == None && refs == old(refs) - if old(retained).Some? then 1 else 0
      ensures started == 0 && direction == NoDirection && media == DEFAULT_MEDIA && callId == ""
    {
      ReleaseInvite();
      started, direction, media, callId := 0, NoDirection, DEFAULT_MEDIA, "";
    }

    /** set_call_state, with time(NULL) as `now`. */
    method SetCallState(to: CallState, now: int)
      modifies `state, `direction, `callId, `retained, `media, `started, `created, `refs, `log
      ensures Abstract() == SetState(old(Abstract()), to, now)
    {
      var from := state;
      if from == to { return; }
      state := to;
      var reported := to;
      if to == Calling {
        started := now;
      } else if to == Idle {
        Clear();
      } else if to == Failed {
        Clear();
        state, reported := Idle, Idle;
      } else if to == Established {
        log := log + [AudioStarted(media)];
      }
      log := log + [Changed(from, reported)];
    }

    /** sip_calling_make_call_locked and send_invite_request; false for any error. */
    method PlaceCall(e: Event) returns (ok: bool)
      requires e.MakeCall?
      modifies `state, `direction, `callId, `retained, `media, `started, `created, `refs, `log
      ensures Abstract() == Step(old(Abstract()), e)
      ensures ok <==> old(state) == Idle && e.create && e.offer && e.send
    {
      if state != Idle { return false; }
      direction := Outgoing;
      SetCallState(Calling, e.now);
      callId := e.newCallId;
      if !e.create {
        SetCallState(Failed, e.now);
        return false;
      }
      var invite := created;
      created := created + 1;
      if !e.offer {
        SetCallState(Failed, e.now);
        return false;
      }
      ReleaseInvite();
      refs := refs + 1;
      retained := Some(invite);
      if !e.send {
        SetCallState(Failed, e.now);
        return false;
      }
      log := log + [InviteSent(invite, callId)];
      return true;
    }

    /** send_cancel_request. */
    method SendCancel()
      modifies this`log
      ensures Abstract() == WithCancel(old(Abstract()))
    {
      if direction != Outgoing || retained.None? { return; }
      log := log + [CancelTried(retained.value)];
    }

    /** store_dialog_info_from_invite, as far as the Call-ID. */
    method StoreCallId(cid: Option<string>)
      modifies this`callId
      ensures callId == if cid.None? then old(callId)
                        else if |cid.value| <= CALL_ID_MAX then cid.value else cid.value[..CALL_ID_MAX]
    {
      if cid.Some? {
        var length := if |cid.value| < CALL_ID_MAX then |cid.value| else CALL_ID_MAX;
        callId := cid.value[..length];
      }
    }

    /** The part of sip_calling_handle_incoming_invite_locked for a free session. */
    method AcceptInvite(e: Event) returns (ok: bool)
      requires e.Invite? && state == Idle
      modifies `state, `direction, `callId, `retained, `media, `started, `created, `refs, `log
      ensures Abstract() == Accept(old(Abstract()), e)
      ensures ok <==> e.create && e.offer && e.send
    {
      direction := IncomingCall;
      StoreCallId(e.cid);
      if e.sdp.Some? { media := e.sdp.value; }
      if !e.create || !e.offer || !e.send {
        SetCallState(Failed, 0);
        return false;
      }
      log := log + [Replied(200)];
      SetCallState(Incoming, 0);
      return true;
    }

    /** sip_calling_handle_incoming_invite_locked. */
    method HandleInvite(e: Event) returns (ok: bool)
      requires e.Invite?
      modifies `state, `direction, `callId, `retained, `media, `started, `created, `refs, `log
      ensures Abstract() == Step(old(Abstract()), e)
      ensures ok <==> (if old(state) != Idle && old(callId) != "" && e.cid == Some(old(callId)) then true
                       else old(state) in {Idle, Calling, Ringing} && e.create && e.offer && e.send)
    {
      if state != Idle {
        if e.cid.Some? && callId != "" && e.cid.value == callId {
          log := log + [Replied(200)];
          return true;
        }
        if state != Calling && state != Ringing {
          log := log + [Replied(486)];
          return false;
        }
        if direction == Outgoing { SendCancel(); }
        SetCallState(Idle, 0);
      }
      ok := AcceptInvite(e);
    }

    /** sip_calling_handle_incoming_ack_locked. */
    method HandleAck(cid: Option<string>) returns (ok: bool)
      modifies `state, `direction, `callId, `retained, `media, `started, `created, `refs, `log
      ensures Abstract() == Step(old(Abstract()), Ack(cid))
      ensures ok <==> old(state) == Incoming && cid == Some(old(callId))
    {
      if cid.None? || cid.value != callId { return false; }
      if state != Incoming { return false; }
      SetCallState(Established, 0);
      return true;
    }

    /** sip_calling_handle_incoming_bye_locked. */
    method HandleBye(cid: Option<string>) returns (ok: bool)
      modifies `state, `direction, `callId, `retained, `media, `started, `created, `refs, `log
      ensures Abstract() == Step(old(Abstract()), Bye(cid))
      ensures ok <==> old(callId) != "" && cid == Some(old(callId))
    {
      if cid.None? || callId == "" || cid.value != callId {
        log := log + [Replied(481)];
        return false;
      }
      log := log + [Replied(200)];
      log := log + [PeerBye(callId)];
      SetCallState(Idle, 0);
      return true;
    }

    /** sip_calling_handle_incoming_cancel_locked. */
    method HandleCancel()
      modifies `state, `direction, `callId, `retained, `media, `started, `created, `refs, `log
      ensures Abstract() == Step(old(Abstract()), Cancel)
    {
      log := log + [Replied(200)];
      if state == Incoming { SetCallState(Idle, 0); }
    }

    /** sip_calling_handle_response_locked; false when the response is not for this session. */
    method HandleResponse(cid: Option<string>, code: int, sdp: Option<Media>) returns (ours: bool)
      modifies `state, `direction, `callId, `retained, `media, `started, `created, `refs, `log
      ensures Abstract() == Step(old(Abstract()), Response(cid, code, sdp))
      ensures ours == ForOurCall(old(Abstract()), Response(cid, code, sdp))
    {
      if state == Idle || direction != Outgoing { return false; }
      if cid.None? || cid.value != callId { return false; }
      if code == 200 && state == Established {
        log := log + [AckTried(callId)];
        return true;
      }
      if 100 <= code < 200 {
        if code == 180 || code == 183 { SetCallState(Ringing, 0); }
      } else if code == 200 {
        if sdp.Some? { media := sdp.value; }
        log := log + [AckTried(callId)];
        SetCallState(Established, 0);
      } else if code >= 300 {
        log := log + [Refused(callId, code)];
        SetCallState(Idle, 0);
      }
      return true;
    }

    /** send_bye_request: three tries. */
    method SendBye()
      modifies this`log
      ensures log == old(log) + if callId == "" then [] else [ByeTried(callId), ByeTried(callId), ByeTried(callId)]
    {
      if callId == "" { return; }
      var bye := ByeTried(callId);
      for retry := 0 to 3
        invariant log == old(log) + [bye, bye, bye][..retry]
      {
        log := log + [bye];
      }
    }

    /** sip_calling_terminate_call_locked. */
    method TerminateCall()
      modifies `state, `direction, `callId, `retained, `media, `started, `created, `refs, `log
      ensures Abstract() == Step(old(Abstract()), Terminate)
    {
      if state == Idle { return; }
      if state == Established {
        SendBye();
      } else if direction == Outgoing && (state == Calling || state == Ringing) {
        SendCancel();
      }
      SetCallState(Idle, 0);
    }

    /** sip_calling_check_timeout_locked. */
    method CheckCallTimeout(now: int) returns (expired: bool)
      modifies `state, `direction, `callId, `retained, `media, `started, `created, `refs, `log
      ensures Abstract() == Step(old(Abstract()), CheckTimeout(now, timeout))
      ensures expired <==> old(state) in {Calling, Ringing} && now - old(started) >= timeout
    {
      if state == Calling || state == Ringing {
        if now - started >= timeout {
          if direction == Outgoing { SendCancel(); }
          SetCallState(Idle, 0);
          return true;
        }
      }
      return false;
    }
  }
}

/** The call-event log of src/sip_media/call_session.c: one session at a time, events numbered
    within it, and call ids made of a boot nonce and a 32-bit call counter. */
module CallSessions {

  const U32 := 0x1_0000_0000

  // ------------------------------------------------------------------- call ids

  function HexDigit(d: nat): char
    requires d < 16
  {
    "0123456789abcdef"[d]
  }

  /** The lowest `width` hexadecimal digits of n, as %0<width>x prints a number that fits. */
  function Hex(n: nat, width: nat): (s: string)
    ensures |s| == width
    decreases width
  {
    if width == 0 then "" else Hex(n / 16, width - 1) + [HexDigit(n % 16)]
  }

  function Power16(width: nat): nat {
    if width == 0 then 1 else 16 * Power16(width - 1)
  }

  /** What a hexadecimal digit stands for. */
  function DigitValue(c: char): int {
    if '0' <= c <= '9' then c as int - '0' as int else c as int - 'a' as int + 10
  }

  function HexValue(s: string): int {
    if s == "" then 0 else HexValue(s[..|s| - 1]) * 16 + DigitValue(s[|s| - 1])
  }

  /** A number that fits is printed in lower-case digits that stand for it. */
  lemma {:induction false} HexReadsBack(n: nat, width: nat)
    requires n < Power16(width)
    ensures HexValue(Hex(n, width)) == n
    ensures forall i | 0 <= i < width :: '0' <= Hex(n, width)[i] <= '9' || 'a' <= Hex(n, width)[i] <= 'f'
    decreases width
  {
    if width > 0 {
      var s := Hex(n, width);
      assert s[..width - 1] == Hex(n / 16, width - 1) && s[width - 1] == HexDigit(n % 16);
      HexReadsBack(n / 16, width - 1);
    }
  }

  /** A call id; the field is empty between calls. */
  datatype CallId = NoCall | CallId(nonce: nat, number: nat)

  /** snprintf with "%08x-%08x". */
  function Text(id: CallId): string {
    match id
    case NoCall => ""
    case CallId(nonce, number) => Hex(nonce, 8) + "-" + Hex(number, 8)
  }

  /** Ids with 32-bit parts differ in print if they differ. */
  lemma TextIsInjective(a: CallId, b: CallId)
    requires a.CallId? && b.CallId? && a.nonce < U32 && b.nonce < U32 && a.number < U32 && b.number < U32
    requires Text(a) == Text(b)
    ensures a == b
  {
    var s, t := Text(a), Text(b);
    assert s[..8] == Hex(a.nonce, 8) && t[..8] == Hex(b.nonce, 8);
    assert s[9..] == Hex(a.number, 8) && t[9..] == Hex(b.number, 8);
    EightDigits();
    HexReadsBack(a.nonce, 8);
    HexReadsBack(b.nonce, 8);
    HexReadsBack(a.number, 8);
    HexReadsBack(b.number, 8);
  }

  lemma EightDigits()
    ensures Power16(8) == U32
  {
    assert Power16(4) == 65536;
    assert Power16(8) == 16 * (16 * (16 * (16 * Power16(4))));
  }

  /** next_call of the c-th call since boot: the counter skips 0 when it wraps around. */
  function Number(c: nat): (n: nat)
    ensures n < U32 && (n == 0 <==> c == 0)
  {
    if c == 0 then 0 else (c - 1) % (U32 - 1) + 1
  }

  /** The counter step of call_session_start. */
  function Following(number: nat): nat {
    if (number + 1) % U32 == 0 then 1 else (number + 1) % U32
  }

  lemma NumberFollows(c: nat)
    ensures Number(c + 1) == Following(Number(c))
  {
  }

  lemma Unique(n: int, m: int, q: int, r: int)
    requires 0 <= r < m && n == q * m + r
    ensures n % m == r
  {
    var p, s := n / m, n % m;
    assert n == p * m + s;
    assert (q - p) * m == s - r;
    assert q - p >= 1 ==> (q - p) * m >= m;
    assert q - p <= -1 ==> (q - p) * m <= -m;
  }

  lemma SameRemainder(a: int, b: int, m: int)
    requires m > 0
    ensures a % m == b % m <==> (b - a) % m == 0
  {
    var p, q := a / m, b / m;
    assert a == p * m + a % m && b == q * m + b % m;
    if a % m == b % m {
      assert b - a == (q - p) * m + 0;
      Unique(b - a, m, q - p, 0);
    } else if (b - a) % m == 0 {
      var k := (b - a) / m;
      assert b - a == k * m;
      assert b == (p + k) * m + a % m;
      Unique(b, m, p + k, a % m);
    }
  }

  /** Two calls of one boot share an id if and only if a multiple of 2^32 - 1 calls lies between
      them. */
  lemma CallsShareAnIdExactly(c: nat, d: nat)
    requires c >= 1 && d >= 1
    ensures Number(c) == Number(d) <==> (d - c) % (U32 - 1) == 0
  {
    SameRemainder(c - 1, d - 1, U32 - 1);
  }

  /** So the first 2^32 - 1 calls have pairwise distinct ids. */
  lemma FirstCallsAreDistinct(c: nat, d: nat)
    requires 1 <= c < U32 && 1 <= d < U32
    ensures Number(c) == Number(d) <==> c == d
  {
    Unique(c - 1, U32 - 1, 0, c - 1);
    Unique(d - 1, U32 - 1, 0, d - 1);
  }

  // ------------------------------------------------------------------- the events

  /** An event as it is handed out. */
  datatype Event = Event(callId: CallId, sequence: nat, startedAt: int, timestamp: int, terminal: bool)

  /** An event in the log of all events, with its call counted from 1 since boot. */
  datatype Entry = Entry(call: nat, event: Event)

  predicate First(e: Event) {
    e.sequence == 1 && !e.terminal && e.startedAt == e.timestamp
  }

  /** b comes next to a in the log: the next event of its call, or the first of the next call. */
  predicate Follows(a: Entry, b: Entry) {
    || (&& b.call == a.call && b.event.startedAt == a.event.startedAt && !a.event.terminal
        && b.event.sequence == (a.event.sequence + 1) % U32)
    || (b.call == a.call + 1 && a.event.terminal && First(b.event))
  }

  predicate FollowsAt(log: seq<Entry>, k: nat)
    requires k < |log|
  {
    if k == 0 then log[0].call == 1 && First(log[0].event) else Follows(log[k - 1], log[k])
  }

  ghost predicate WellOrdered(nonce: nat, log: seq<Entry>) {
    && (forall k | 0 <= k < |log| :: log[k].event.callId == CallId(nonce, Number(log[k].call)))
    && (forall k | 0 <= k < |log| :: FollowsAt(log, k))
  }

  lemma NextNumber(sequence: nat, k: nat)
    ensures ((sequence + k) % U32 + 1) % U32 == (sequence + k + 1) % U32
  {
  }

  /** In one call, events are numbered one by one, without another call in between, all with one
      start time and one id, and none but the last is terminal. */
  lemma {:induction false} EventsOfACall(nonce: nat, log: seq<Entry>, i: nat, j: nat)
    requires WellOrdered(nonce, log) && i < j < |log|
    ensures log[i].call <= log[j].call
    ensures log[i].call == log[j].call ==>
              && !log[i].event.terminal
              && log[j].event.startedAt == log[i].event.startedAt && log[j].event.callId == log[i].event.callId
              && log[j].event.sequence == (log[i].event.sequence + (j - i)) % U32
    decreases j
  {
    assert FollowsAt(log, j);
    if i < j - 1 {
      EventsOfACall(nonce, log, i, j - 1);
      NextNumber(log[i].event.sequence, j - 1 - i);
    }
  }

  /** A call's first event has number 1, and the event before it ended another call. */
  lemma CallsBeginAtOne(nonce: nat, log: seq<Entry>, i: nat)
    requires WellOrdered(nonce, log) && i < |log| && (i == 0 || log[i - 1].call != log[i].call)
    ensures log[i].event.sequence == 1 && log[i].event.startedAt == log[i].event.timestamp
    ensures i > 0 ==> log[i - 1].event.terminal && log[i].call == log[i - 1].call + 1
  {
    assert FollowsAt(log, i);
  }

  /** Among the first 2^32 - 1 calls, events with one id are events of one call. */
  lemma IdsNameCalls(nonce: nat, log: seq<Entry>, i: nat, j: nat)
    requires WellOrdered(nonce, log) && i < |log| && j < |log| && nonce < U32
    requires 1 <= log[i].call < U32 && 1 <= log[j].call < U32
    ensures Text(log[i].event.callId) == Text(log[j].event.callId) <==> log[i].call == log[j].call
  {
    FirstCallsAreDistinct(log[i].call, log[j].call);
    if Text(log[i].event.callId) == Text(log[j].event.callId) { TextIsInjective(log[i].event.callId, log[j].event.callId); }
  }

  lemma LogGrows(nonce: nat, log: seq<Entry>, next: Entry)
    requires WellOrdered(nonce, log) && next.event.callId == CallId(nonce, Number(next.call))
    requires if log == [] then next.call == 1 && First(next.event) else Follows(log[|log| - 1], next)
    ensures WellOrdered(nonce, log + [next])
  {
    var longer := log + [next];
    forall k | 0 <= k < |longer| ensures FollowsAt(longer, k) {
      assert k < |log| ==> FollowsAt(log, k);
    }
  }

  // ------------------------------------------------------------------- the C code

  class CallSession {
    const nonce: nat
    var nextCall: nat
    var eventSequence: nat
    var active: bool
    var startedAt: int
    var callId: CallId
    ghost var calls: nat
    ghost var log: seq<Entry>

    ghost predicate Valid()
      reads this
    {
      && WellOrdered(nonce, log)
      && nextCall == Number(calls)
      && (if log == [] then calls == 0 && !active
          else log[|log| - 1].call == calls && active == !log[|log| - 1].event.terminal)
      && (active ==>
            && callId == CallId(nonce, nextCall)
            && startedAt == log[|log| - 1].event.startedAt && eventSequence == log[|log| - 1].event.sequence)
    }

    /** call_session_init. */
    constructor (bootNonce: nat)
      ensures Valid() && log == [] && !active && nonce == if bootNonce == 0 then 1 else bootNonce
    {
      nonce := if bootNonce == 0 then 1 else bootNonce;
      nextCall, eventSequence, active, startedAt, callId := 0, 0, false, 0, NoCall;
      calls, log := 0, [];
    }

    /** fill_event; the event is logged. */
    method FillEvent(terminal: bool, timestamp: int) returns (e: Event)
      modifies this`log
      ensures e == Event(callId, eventSequence, startedAt, timestamp, terminal)
      ensures log == old(log) + [Entry(calls, e)]
    {
      e := Event(callId, eventSequence, startedAt, timestamp, terminal);
      log := log + [Entry(calls, e)];
    }

    /** call_session_start: 1 with the first event of a new call, 0 when a call is active. */
    method StartCall(timestamp: int) returns (rc: int, e: Event)
      requires Valid()
      modifies this
      ensures Valid() && rc == if old(active) then 0 else 1
      ensures if rc == 0 then log == old(log) && calls == old(calls)
              else log == old(log) + [Entry(calls, e)] && calls == old(calls) + 1 && First(e) && e.timestamp == timestamp && active
    {
      if active { return 0, Event(NoCall, 0, 0, 0, false); }
      NumberFollows(calls);
      nextCall := (nextCall + 1) % U32;
      if nextCall == 0 { nextCall := (nextCall + 1) % U32; }
      calls := calls + 1;
      callId := CallId(nonce, nextCall);
      eventSequence, startedAt, active := 1, timestamp, true;
      LogGrows(nonce, log, Entry(calls, Event(callId, 1, timestamp, timestamp, false)));
      e := FillEvent(false, timestamp);
      return 1, e;
    }

    /** call_session_record: 1 with the next event of the call, 0 when there is none. */
    method Record(terminal: bool, timestamp: int) returns (rc: int, e: Event)
      requires Valid()
      modifies this
      ensures Valid() && calls == old(calls) && rc == if old(active) then 1 else 0
      ensures if rc == 0 then log == old(log) && !active
              else log == old(log) + [Entry(calls, e)] && e.terminal == terminal && e.timestamp == timestamp && active == !terminal
    {
      if !active { return 0, Event(NoCall, 0, 0, 0, false); }
      eventSequence := (eventSequence + 1) % U32;
      LogGrows(nonce, log, Entry(calls, Event(callId, eventSequence, startedAt, timestamp, terminal)));
      e := FillEvent(terminal, timestamp);
      if terminal {
        active, eventSequence, startedAt, callId := false, 0, 0, NoCall;
      }
      return 1, e;
    }
  }
}

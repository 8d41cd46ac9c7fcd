/** The H.264 Annex B splitter and the RTP packetizer of src/sip_media/h264_annexb.c.

    The methods walk the byte stream with the cursors of the C code and are proved
    against `Nals` (what a stream contains) and `Plan` (what is sent for it).  The
    partner of the packetizer is `Reassemble`, a receiver written from sections 5.6
    and 5.8 of RFC 6184, and the partner of the splitter is `Print`, an Annex B
    writer that may put any number of zero bytes around its start codes. */
module H264AnnexB {

  import opened Bytes

  type Nal = seq<Byte>

  /** A payload handed to the RTP writer, with the marker bit of section 5.1 of RFC 6184. */
  datatype Packet = Packet(payload: seq<Byte>, marker: bool)

  // ---------------------------------------------------------------- splitting

  /** Length of the start code at position i: 3, 4, or 0 when there is none. */
  function CodeLength(s: seq<Byte>, i: nat): (n: nat)
    ensures n == 0 || n == 3 || n == 4
    ensures n > 0 ==> i + n <= |s|
  {
    if i + 3 <= |s| && s[i] == 0 && s[i + 1] == 0 && s[i + 2] == 1 then 3
    else if i + 4 <= |s| && s[i] == 0 && s[i + 1] == 0 && s[i + 2] == 0 && s[i + 3] == 1 then 4
    else 0
  }

  /** First position at or after i where a start code begins; |s| when there is none. */
  function FindCode(s: seq<Byte>, i: nat): (r: nat)
    requires i <= |s|
    ensures i <= r <= |s|
    ensures r < |s| ==> CodeLength(s, r) > 0
    decreases |s| - i
  {
    if i == |s| || CodeLength(s, i) > 0 then i else FindCode(s, i + 1)
  }

  /** End of s[lo..hi] once its trailing zero bytes are dropped. */
  function TrimmedEnd(s: seq<Byte>, lo: nat, hi: nat): (e: nat)
    requires lo <= hi <= |s|
    ensures lo <= e <= hi
  {
    if hi == lo || s[hi - 1] != 0 then hi else TrimmedEnd(s, lo, hi - 1)
  }

  /** NAL units of s from the start code at position c on, empty ones dropped. */
  function NalsFrom(s: seq<Byte>, c: nat): (nals: seq<Nal>)
    requires c <= |s|
    requires c < |s| ==> CodeLength(s, c) > 0
    decreases |s| - c
  {
    if c == |s| then []
    else
      var nal := c + CodeLength(s, c);
      var next := FindCode(s, nal);
      var end := TrimmedEnd(s, nal, next);
      (if end > nal then [s[nal..end]] else []) + NalsFrom(s, next)
  }

  /** NAL units of a buffer; a buffer without any start code is one bare NAL unit. */
  function Nals(s: seq<Byte>): (nals: seq<Nal>) {
    var c := FindCode(s, 0);
    if c < |s| then NalsFrom(s, c) else if s == [] then [] else [s]
  }

  /** The position found is the first start code, and only that one. */
  lemma {:induction false} FindCodeIs(s: seq<Byte>, i: nat, r: nat)
    requires i <= r <= |s|
    ensures FindCode(s, i) == r <==>
            (r < |s| ==> CodeLength(s, r) > 0) && forall j | i <= j < r :: CodeLength(s, j) == 0
    decreases |s| - i
  {
    if i < |s| && CodeLength(s, i) == 0 {
      if i < r { FindCodeIs(s, i + 1, r); }
    } else if i < r {
      assert CodeLength(s, i) > 0;
    }
  }

  /** Trimming stops at the last nonzero byte. */
  lemma {:induction false} TrimmedEndIs(s: seq<Byte>, lo: nat, e: nat, hi: nat)
    requires lo <= e <= hi <= |s|
    ensures TrimmedEnd(s, lo, hi) == e <==> (e == lo || s[e - 1] != 0) && forall j | e <= j < hi :: s[j] == 0
    decreases hi
  {
    if e < hi {
      if s[hi - 1] == 0 { TrimmedEndIs(s, lo, e, hi - 1); }
    } else if lo < hi && s[hi - 1] == 0 {
      assert TrimmedEnd(s, lo, hi) < hi;
    }
  }

  // ------------------------------------------------------- Annex B round trip

  /** An Annex B stream as its writer sees it: `zeros` extra zero bytes, 00 00 01 and a NAL
      unit, again and again, then trailing zero bytes.  A 4-byte start code is a 3-byte one
      behind an extra zero byte. */
  datatype Stream = End(tail: nat) | Unit(zeros: nat, nal: Nal, rest: Stream) {
    function Print(): seq<Byte> {
      if End? then Zeros(tail) else Zeros(zeros) + [0, 0, 1] + nal + rest.Print()
    }

    function Units(): seq<Nal> {
      if End? then [] else [nal] + rest.Units()
    }

    /** What an Annex B writer owes: no NAL unit holds a start code or ends in zero. */
    ghost predicate Legal() {
      End? || (Printable(nal) && rest.Legal())
    }

    ghost predicate SingleTypes() {
      End? || (|nal| > 0 && 1 <= nal[0] % 32 <= 23 && rest.SingleTypes())
    }

    /** From position p on, s reads like this stream. */
    ghost predicate ReadFrom(s: seq<Byte>, p: nat) {
      if End? then p <= |s| && forall j | p <= j < |s| :: s[j] == 0
      else
        var n := p + zeros + 3;
        var q := n + |nal|;
        && q <= |s|
        && (forall j | p <= j < n - 1 :: s[j] == 0)
        && s[n - 1] == 1
        && s[n..q] == nal
        && rest.ReadFrom(s, q)
    }
  }

  ghost predicate Printable(nal: Nal) {
    && |nal| > 0
    && nal[|nal| - 1] != 0
    && forall j | 0 <= j < |nal| :: CodeLength(nal, j) == 0
  }

  function Zeros(n: nat): (z: seq<Byte>)
    ensures |z| == n
    ensures forall j | 0 <= j < n :: z[j] == 0
  {
    seq(n, _ => 0)
  }

  lemma {:induction false} PrintReads(before: seq<Byte>, u: Stream, s: seq<Byte>)
    requires s == before + u.Print()
    ensures u.ReadFrom(s, |before|)
    decreases u
  {
    if u.Unit? {
      var next := before + Zeros(u.zeros) + [0, 0, 1] + u.nal;
      assert s == next + u.rest.Print();
      PrintReads(next, u.rest, s);
    }
  }

  /** No start code begins inside a printable NAL unit. */
  lemma NoCodeInside(s: seq<Byte>, n: nat, nal: Nal, j: nat)
    requires Printable(nal)
    requires n + |nal| <= |s| && s[n..n + |nal|] == nal
    requires n <= j < n + |nal|
    ensures CodeLength(s, j) == 0
  {
    var last := n + |nal| - 1;
    assert s[last] == s[n..last + 1][|nal| - 1];
    assert CodeLength(nal, j - n) == 0;
    if j + 2 <= last { assert forall k | j <= k <= j + 2 :: s[k] == s[n..last + 1][k - n]; }
    if j + 3 <= last { assert forall k | j <= k <= j + 3 :: s[k] == s[n..last + 1][k - n]; }
  }

  /** A start code behind extra zero bytes is found at its fourth-last zero at the earliest. */
  lemma CodeBehindZeros(s: seq<Byte>, p: nat, n: nat)
    requires p + 3 <= n <= |s| && s[n - 1] == 1
    requires forall j | p <= j < n - 1 :: s[j] == 0
    ensures var c := FindCode(s, p); c <= n - 3 && c + CodeLength(s, c) == n
  {
    FindCodeIs(s, p, if n == p + 3 then p else n - 4);
  }

  lemma NoCodeInZeros(s: seq<Byte>, p: nat)
    requires p <= |s| && forall j | p <= j < |s| :: s[j] == 0
    ensures FindCode(s, p) == |s|
  {
    FindCodeIs(s, p, |s|);
  }

  /** Behind a printed NAL unit, only the zeros before the next code are trimmed. */
  lemma UnitBounds(s: seq<Byte>, n: nat, q: nat, nal: Nal)
    requires Printable(nal) && q == n + |nal| <= |s| && s[n..q] == nal
    requires forall j | q <= j < FindCode(s, q) :: s[j] == 0
    ensures n < q && FindCode(s, n) == FindCode(s, q) && TrimmedEnd(s, n, FindCode(s, q)) == q
  {
    var next := FindCode(s, q);
    FindCodeIs(s, q, next);
    forall j | n <= j < q ensures CodeLength(s, j) == 0 { NoCodeInside(s, n, nal, j); }
    FindCodeIs(s, n, next);
    assert s[q - 1] == s[n..q][|nal| - 1];
    TrimmedEndIs(s, n, q, next);
  }

  lemma ZerosBeforeNext(s: seq<Byte>, p: nat, u: Stream)
    requires u.ReadFrom(s, p)
    ensures p <= |s| && forall j | p <= j < FindCode(s, p) :: s[j] == 0
  {
    if u.End? { NoCodeInZeros(s, p); } else { CodeBehindZeros(s, p, p + u.zeros + 3); }
  }

  lemma SplitStep(s: seq<Byte>, c: nat, n: nat, q: nat, next: nat)
    requires c < |s| && CodeLength(s, c) > 0 && n == c + CodeLength(s, c)
    requires next == FindCode(s, n) && q == TrimmedEnd(s, n, next)
    ensures NalsFrom(s, c) == if q > n then [s[n..q]] + NalsFrom(s, next) else NalsFrom(s, next)
  {
  }

  /** The splitter's cursors meet this stream at its start codes, from position p on. */
  ghost predicate Located(s: seq<Byte>, p: nat, u: Stream)
    requires p <= |s|
    decreases u
  {
    var c := FindCode(s, p);
    if u.End? then c == |s|
    else
      var n := p + u.zeros + 3;
      var q := n + |u.nal|;
      && n < q <= |s| && s[n..q] == u.nal
      && c < |s| && c + CodeLength(s, c) == n
      && FindCode(s, n) == FindCode(s, q) && TrimmedEnd(s, n, FindCode(s, q)) == q
      && Located(s, q, u.rest)
  }

  lemma {:induction false} ReadIsLocated(s: seq<Byte>, p: nat, u: Stream)
    requires u.ReadFrom(s, p) && u.Legal()
    ensures p <= |s| && Located(s, p, u)
    decreases u
  {
    hide FindCode, TrimmedEnd, CodeLength, Printable;
    if u.Unit? {
      var n := p + u.zeros + 3;
      var q := n + |u.nal|;
      CodeBehindZeros(s, p, n);
      ZerosBeforeNext(s, q, u.rest);
      UnitBounds(s, n, q, u.nal);
      ReadIsLocated(s, q, u.rest);
    } else {
      NoCodeInZeros(s, p);
    }
  }

  lemma {:induction false} SplitLocated(s: seq<Byte>, p: nat, u: Stream)
    requires p <= |s| && Located(s, p, u)
    ensures NalsFrom(s, FindCode(s, p)) == u.Units()
    decreases u
  {
    if u.Unit? {
      var n := p + u.zeros + 3;
      var q := n + |u.nal|;
      SplitLocated(s, q, u.rest);
      SplitStep(s, FindCode(s, p), n, q, FindCode(s, q));
    }
  }

  lemma SplitText(s: seq<Byte>, u: Stream)
    requires u.Unit? && u.Legal() && u.ReadFrom(s, 0)
    ensures Nals(s) == u.Units()
  {
    ReadIsLocated(s, 0, u);
    SplitLocated(s, 0, u);
  }

  /** The splitter inverts every Annex B writer, whatever its start codes and zero padding. */
  lemma SplitInvertsPrint(u: Stream)
    requires u.Unit? && u.Legal()
    ensures Nals(u.Print()) == u.Units()
  {
    PrintReads([], u, u.Print());
    SplitText(u.Print(), u);
  }

  /** Data without a start code is one NAL unit as it stands, zeros at its end included. */
  lemma BareUnit(s: seq<Byte>)
    requires s != [] && forall j | 0 <= j < |s| :: CodeLength(s, j) == 0
    ensures Nals(s) == [s]
  {
  }

  // -------------------------------------------------------------- packetizing

  /** (header & 0xe0) | 28 */
  function FuIndicator(header: Byte): Byte { header - header % 32 + 28 }

  /** S bit, E bit and the NAL type. */
  function FuHeader(header: Byte, first: bool, last: bool): Byte {
    (if first then 128 else 0) + (if last then 64 else 0) + header % 32
  }

  /** Bytes of the NAL unit carried by the fragment that starts at `position`. */
  function Chunk(length: nat, position: nat, max: nat): (chunk: nat)
    requires position < length && max >= 3
    ensures 0 < chunk <= length - position
  {
    if length - position > max - 2 then max - 2 else length - position
  }

  function FuPayload(header: Byte, first: bool, last: bool, body: seq<Byte>): seq<Byte> {
    [FuIndicator(header), FuHeader(header, first, last)] + body
  }

  /** FU-A payloads for nal[position..], at most `max` bytes each. */
  function Fragments(nal: Nal, position: nat, max: nat, marker: bool): (packets: seq<Packet>)
    requires 1 <= position <= |nal| && max >= 3
    decreases |nal| - position
  {
    if position == |nal| then []
    else
      var next := position + Chunk(|nal|, position, max);
      var last := next == |nal|;
      [Packet(FuPayload(nal[0], position == 1, last, nal[position..next]), marker && last)]
      + Fragments(nal, next, max, marker)
  }

  predicate Feasible(nal: seq<Byte>, max: nat) { |nal| <= max || max >= 3 }

  function NalPackets(nal: Nal, max: nat, marker: bool): seq<Packet> {
    if |nal| <= max then [Packet(nal, marker)]
    else if max >= 3 then Fragments(nal, 1, max, marker)
    else []
  }

  /** Everything sent for `nals`, up to a NAL unit that cannot be sent at all; when `ended`,
      the last NAL unit carries the marker. */
  function Plan(nals: seq<Nal>, max: nat, ended: bool): seq<Packet> {
    if nals == [] || !Feasible(nals[0], max) then []
    else NalPackets(nals[0], max, ended && |nals| == 1) + Plan(nals[1..], max, ended)
  }

  lemma {:induction false} PlanAppend(a: seq<Nal>, b: seq<Nal>, max: nat, ended: bool)
    requires AllFeasible(a, max)
    requires b != [] || !ended
    ensures Plan(a + b, max, ended) == Plan(a, max, false) + Plan(b, max, ended)
    decreases |a|
  {
    if a == [] {
      assert a + b == b;
    } else {
      var all, head, tail := a + b, NalPackets(a[0], max, false), Plan(a[1..], max, false);
      assert all[1..] == a[1..] + b && all[0] == a[0] && a[0] in a;
      PlanAppend(a[1..], b, max, ended);
      assert Plan(a, max, false) == head + tail;
      assert !(ended && |all| == 1);
      calc {
        Plan(all, max, ended);
        head + Plan(all[1..], max, ended);
        head + (tail + Plan(b, max, ended));
        { Regroup(head, tail, Plan(b, max, ended)); }
        head + tail + Plan(b, max, ended);
      }
    }
  }

  lemma HeadAndTail<T>(a: seq<T>)
    requires a != []
    ensures [a[0]] + a[1..] == a
  {
  }

  lemma PlanCons(nal: Nal, rest: seq<Nal>, max: nat, ended: bool)
    ensures Plan([nal] + rest, max, ended) ==
            NalPackets(nal, max, ended && rest == []) + (if Feasible(nal, max) then Plan(rest, max, ended) else [])
    ensures rest == [] ==> Plan([nal], max, ended) == NalPackets(nal, max, ended)
  {
    var all := [nal] + rest;
    assert all[1..] == rest && (|all| == 1 <==> rest == []);
    if rest == [] { assert all == [nal] && Plan(rest, max, ended) == []; }
  }

  // ------------------------------------------------------------- reassembling

  /** A receiver: completed NAL units and the one being collected from FU-A fragments. */
  datatype Receiver = Receiver(done: seq<Nal>, partial: seq<Byte>)

  /** One payload, by the rules of sections 5.6 and 5.8 of RFC 6184. */
  function Accept(r: Receiver, payload: seq<Byte>): Receiver {
    if payload == [] then r
    else if payload[0] % 32 != 28 then Receiver(r.done + [payload], [])
    else if |payload| < 2 then r
    else
      var head: Byte := payload[0] - payload[0] % 32 + payload[1] % 32;
      var started: Nal := if Bit(payload[1], 128) || r.partial == [] then [head] else r.partial;
      var collected: Nal := started + payload[2..];
      if Bit(payload[1], 64) then Receiver(r.done + [collected], []) else Receiver(r.done, collected)
  }

  function Receive(r: Receiver, packets: seq<Packet>): Receiver
    decreases |packets|
  {
    if packets == [] then r else Receive(Accept(r, packets[0].payload), packets[1..])
  }

  function Reassemble(packets: seq<Packet>): seq<Nal> { Receive(Receiver([], []), packets).done }

  lemma {:induction false} ReceiveAppend(r: Receiver, a: seq<Packet>, b: seq<Packet>)
    ensures Receive(r, a + b) == Receive(Receive(r, a), b)
    decreases |a|
  {
    if a == [] {
      assert a + b == b;
    } else {
      assert (a + b)[1..] == a[1..] + b;
      ReceiveAppend(Accept(r, a[0].payload), a[1..], b);
    }
  }

  lemma AcceptFragment(r: Receiver, header: Byte, first: bool, last: bool, body: seq<Byte>)
    requires first || r.partial != []
    ensures var collected := (if first then [header] else r.partial) + body;
            Accept(r, FuPayload(header, first, last, body)) ==
            if last then Receiver(r.done + [collected], []) else Receiver(r.done, collected)
  {
    var payload := FuPayload(header, first, last, body);
    assert payload[0] % 32 == 28 && payload[0] - payload[0] % 32 + payload[1] % 32 == header;
    assert Bit(payload[1], 128) <==> first;
    assert Bit(payload[1], 64) <==> last;
    assert payload[2..] == body;
  }

  /** A receiver that holds nal[..position] completes `nal` from its remaining fragments. */
  lemma {:induction false} ReceiveFragments(r: Receiver, nal: Nal, position: nat, max: nat, marker: bool)
    requires 1 <= position < |nal| && max >= 3
    requires position > 1 ==> r.partial == nal[..position]
    ensures Receive(r, Fragments(nal, position, max, marker)) == Receiver(r.done + [nal], [])
    decreases |nal| - position
  {
    var next := position + Chunk(|nal|, position, max);
    var last, body := next == |nal|, nal[position..next];
    AcceptFragment(r, nal[0], position == 1, last, body);
    var packets := Fragments(nal, position, max, marker);
    assert packets[1..] == Fragments(nal, next, max, marker);
    assert (if position == 1 then [nal[0]] else r.partial) + body == nal[..next];
    if last {
      assert nal[..next] == nal;
    } else {
      ReceiveFragments(Accept(r, packets[0].payload), nal, next, max, marker);
    }
  }

  /** One NAL unit of a type that section 5.6 of RFC 6184 lets travel alone. */
  lemma ReceiveNal(r: Receiver, nal: Nal, max: nat, marker: bool)
    requires |nal| > 0 && 1 <= nal[0] % 32 <= 23 && Feasible(nal, max)
    ensures Receive(r, NalPackets(nal, max, marker)) == Receiver(r.done + [nal], [])
  {
    if |nal| <= max {
      assert Receive(Accept(r, nal), []) == Receiver(r.done + [nal], []);
      assert [Packet(nal, marker)][1..] == [];
    } else {
      ReceiveFragments(r, nal, 1, max, marker);
    }
  }

  lemma {:induction false} ReceivePlan(r: Receiver, u: Stream, max: nat)
    requires u.SingleTypes() && max >= 3 && r.partial == []
    ensures Receive(r, Plan(u.Units(), max, true)) == Receiver(r.done + u.Units(), [])
    decreases u
  {
    if u.Unit? {
      var units := u.rest.Units();
      PlanCons(u.nal, units, max, true);
      var packets := NalPackets(u.nal, max, units == []);
      ReceiveNal(r, u.nal, max, units == []);
      ReceiveAppend(r, packets, Plan(units, max, true));
      ReceivePlan(Receiver(r.done + [u.nal], []), u.rest, max);
      Regroup(r.done, [u.nal], units);
    }
  }

  /** End to end: whatever Annex B text carries units of types 1 to 23, and for any payload size
      of at least 3 bytes, a receiver of the packetized text rebuilds exactly those units. */
  lemma PacketizedStreamReassembles(u: Stream, max: nat)
    requires u.Unit? && u.Legal() && u.SingleTypes() && max >= 3
    ensures Reassemble(Plan(Nals(u.Print()), max, true)) == u.Units()
  {
    SplitInvertsPrint(u);
    ReceivePlan(Receiver([], []), u, max);
    assert [] + u.Units() == u.Units();
  }

  // ------------------------------------------------------ shape of the payloads

  predicate IsFragment(p: seq<Byte>) { |p| > 2 && p[0] % 32 == 28 }
  predicate StartBit(p: seq<Byte>) requires IsFragment(p) { Bit(p[1], 128) }
  predicate EndBit(p: seq<Byte>) requires IsFragment(p) { Bit(p[1], 64) }

  lemma {:induction false} FragmentShape(nal: Nal, position: nat, max: nat, marker: bool)
    requires 1 <= position < |nal| && max >= 3
    ensures var f := Fragments(nal, position, max, marker);
            && |f| > 0
            && (|nal| - position > max - 2 ==> |f| >= 2)
            && forall k | 0 <= k < |f| ::
              && IsFragment(f[k].payload) && |f[k].payload| <= max
              && (k < |f| - 1 ==> |f[k].payload| == max)
              && (StartBit(f[k].payload) <==> position == 1 && k == 0)
              && (EndBit(f[k].payload) <==> k == |f| - 1)
              && (f[k].marker <==> marker && k == |f| - 1)
    decreases |nal| - position
  {
    var next := position + Chunk(|nal|, position, max);
    var rest := Fragments(nal, next, max, marker);
    AcceptFragment(Receiver([], nal), nal[0], position == 1, next == |nal|, []);
    var f := Fragments(nal, position, max, marker);
    assert f == [f[0]] + rest;
    if next < |nal| {
      FragmentShape(nal, next, max, marker);
      assert forall k | 1 <= k < |f| :: f[k] == rest[k - 1];
    }
  }

  /** A NAL unit that fits a payload travels alone and as it is. */
  lemma ShortNal(nal: Nal, max: nat, marker: bool)
    requires |nal| <= max
    ensures NalPackets(nal, max, marker) == [Packet(nal, marker)]
  {
  }

  /** A NAL unit longer than a payload travels in two or more FU-A fragments, all but the last of
      the full size, S on exactly the first, E and the marker on exactly the last. */
  lemma FragmentedNal(nal: Nal, max: nat, marker: bool)
    requires |nal| > max >= 3
    ensures var f := NalPackets(nal, max, marker);
            && |f| >= 2
            && forall k | 0 <= k < |f| ::
              && IsFragment(f[k].payload) && |f[k].payload| <= max
              && (k < |f| - 1 ==> |f[k].payload| == max)
              && (StartBit(f[k].payload) <==> k == 0)
              && (EndBit(f[k].payload) <==> k == |f| - 1)
              && (f[k].marker <==> marker && k == |f| - 1)
  {
    FragmentShape(nal, 1, max, marker);
  }

  /** Payloads of 1 to `max` bytes, the marker on the last one exactly when `marked`. */
  ghost predicate WellMarked(p: seq<Packet>, max: nat, marked: bool) {
    && p != []
    && forall k | 0 <= k < |p| :: 0 < |p[k].payload| <= max && (p[k].marker <==> marked && k == |p| - 1)
  }

  lemma WellMarkedJoin(a: seq<Packet>, b: seq<Packet>, max: nat)
    requires WellMarked(a, max, false) && WellMarked(b, max, true)
    ensures WellMarked(a + b, max, true)
  {
    assert forall k | |a| <= k < |a + b| :: (a + b)[k] == b[k - |a|];
  }

  lemma WellMarkedNal(nal: Nal, max: nat, marker: bool)
    requires |nal| > 0 && Feasible(nal, max)
    ensures WellMarked(NalPackets(nal, max, marker), max, marker)
  {
    if |nal| > max { FragmentedNal(nal, max, marker); }
  }

  /** A frame that can be sent at all ends in its one marked packet, and no payload is
      empty or longer than the limit. */
  lemma {:induction false} OneMarkerAtTheEnd(nals: seq<Nal>, max: nat)
    requires nals != []
    requires forall n | n in nals :: |n| > 0 && Feasible(n, max)
    ensures WellMarked(Plan(nals, max, true), max, true)
    decreases |nals|
  {
    assert nals[0] in nals;
    WellMarkedNal(nals[0], max, |nals| == 1);
    HeadAndTail(nals);
    PlanCons(nals[0], nals[1..], max, true);
    if |nals| > 1 {
      OneMarkerAtTheEnd(nals[1..], max);
      WellMarkedJoin(NalPackets(nals[0], max, false), Plan(nals[1..], max, true), max);
    }
  }

  // ------------------------------------------------------------ the C routines

  /** The writer callback and malloc.  Either may fail at any point: `refused` holds the
      numbers of the calls that fail, `exhausted` the numbers of calls after which malloc fails. */
  class Transport {
    const refused: set<nat>
    const exhausted: set<nat>
    var calls: nat
    var delivered: seq<Packet>

    constructor (refused: set<nat>, exhausted: set<nat>)
      ensures this.refused == refused && this.exhausted == exhausted
      ensures Seen() == Log(0, [])
    {
      this.refused, this.exhausted := refused, exhausted;
      calls, delivered := 0, [];
    }

    function Seen(): Log reads this { Log(calls, delivered) }

    method Write(payload: seq<Byte>, marker: bool) returns (ok: bool)
      modifies this
      ensures ok == (old(calls) !in refused) && calls == old(calls) + 1
      ensures delivered == if ok then old(delivered) + [Packet(payload, marker)] else old(delivered)
    {
      ok := calls !in refused;
      calls := calls + 1;
      if ok { delivered := delivered + [Packet(payload, marker)]; }
    }
  }

  /** What the writer has seen so far. */
  datatype Log = Log(calls: nat, delivered: seq<Packet>)

  ghost predicate Accepted(refused: set<nat>, from: nat, upTo: nat) {
    forall n | from <= n < upTo :: n !in refused
  }

  /** All of `plan` went out. */
  ghost predicate AllSent(t: Transport, before: Log, after: Log, plan: seq<Packet>) {
    && after == Log(before.calls + |plan|, before.delivered + plan)
    && Accepted(t.refused, before.calls, before.calls + |plan|)
  }

  /** Only plan[..sent] went out: the next payload was refused, or malloc failed, or nothing
      more could be sent; no call was made after that. */
  ghost predicate Stopped(t: Transport, before: Log, after: Log, plan: seq<Packet>, complete: bool, sent: nat) {
    && sent <= |plan|
    && after.delivered == before.delivered + plan[..sent]
    && Accepted(t.refused, before.calls, before.calls + sent)
    && (|| (after.calls == before.calls + sent + 1 && sent < |plan| && before.calls + sent in t.refused)
        || (after.calls == before.calls + sent && sent < |plan| && before.calls + sent in t.exhausted)
        || (after.calls == before.calls + sent && sent == |plan| && !complete))
  }

  /** Result of a run that had `plan` to send, which is `complete` unless some NAL unit is infeasible. */
  ghost predicate Outcome(t: Transport, before: Log, after: Log, plan: seq<Packet>, complete: bool, ok: bool) {
    if ok then complete && AllSent(t, before, after, plan)
    else exists sent: nat :: Stopped(t, before, after, plan, complete, sent)
  }

  lemma Then(t: Transport, a: Log, b: Log, c: Log, first: seq<Packet>, second: seq<Packet>, complete: bool, ok: bool)
    requires AllSent(t, a, b, first)
    requires Outcome(t, b, c, second, complete, ok)
    ensures Outcome(t, a, c, first + second, complete, ok)
  {
    if ok {
      Regroup(a.delivered, first, second);
    } else {
      var sent: nat :| Stopped(t, b, c, second, complete, sent);
      assert (first + second)[..|first| + sent] == first + second[..sent];
      Regroup(a.delivered, first, second[..sent]);
      assert Stopped(t, a, c, first + second, complete, |first| + sent);
    }
  }

  method FindStartCode(data: seq<Byte>, start: nat) returns (position: nat, length: nat)
    requires start <= |data|
    ensures position == FindCode(data, start)
    ensures length == if position < |data| then CodeLength(data, position) else 0
  {
    var cursor := start;
    while cursor < |data|
      invariant start <= cursor <= |data|
      invariant FindCode(data, start) == FindCode(data, cursor)
    {
      if |data| - cursor >= 3 && data[cursor] == 0 && data[cursor + 1] == 0 && data[cursor + 2] == 1 {
        return cursor, 3;
      }
      if |data| - cursor >= 4 && data[cursor] == 0 && data[cursor + 1] == 0 &&
         data[cursor + 2] == 0 && data[cursor + 3] == 1 {
        return cursor, 4;
      }
      cursor := cursor + 1;
    }
    return |data|, 0;
  }

  method TrimZeros(data: seq<Byte>, nal: nat, limit: nat) returns (end: nat)
    requires nal <= limit <= |data|
    ensures end == TrimmedEnd(data, nal, limit)
  {
    end := limit;
    while end > nal && data[end - 1] == 0
      invariant nal <= end <= limit
      invariant TrimmedEnd(data, nal, limit) == TrimmedEnd(data, nal, end)
    {
      end := end - 1;
    }
  }

  method PacketizeNal(nal: Nal, max: nat, marker: bool, writer: Transport) returns (ok: bool)
    modifies writer
    ensures Outcome(writer, old(writer.Seen()), writer.Seen(), NalPackets(nal, max, marker), Feasible(nal, max), ok)
  {
    if |nal| <= max {
      ghost var start := writer.Seen();
      ok := writer.Write(nal, marker);
      assert AllSent(writer, start, start, []);
      WriteThen(writer, start, start, writer.Seen(), [], Packet(nal, marker), [], ok);
      assert [] + [Packet(nal, marker)] + [] == NalPackets(nal, max, marker);
      return;
    }
    if max < 3 || writer.calls in writer.exhausted {
      assert Stopped(writer, writer.Seen(), writer.Seen(), NalPackets(nal, max, marker), Feasible(nal, max), 0);
      return false;
    }
    ok := SendFragments(nal, max, marker, writer);
  }

  /** The FU-A loop of packetize_nal, over one reused fragment buffer. */
  method SendFragments(nal: Nal, max: nat, marker: bool, writer: Transport) returns (ok: bool)
    requires |nal| > 0 && max >= 3
    modifies writer
    ensures Outcome(writer, old(writer.Seen()), writer.Seen(), Fragments(nal, 1, max, marker), true, ok)
  {
    var fragment := new Byte[max];
    fragment[0] := nal[0] - nal[0] % 32 + 28;
    var position := 1;
    ghost var start, done := writer.Seen(), [];
    while position < |nal|
      invariant 1 <= position <= |nal| && fragment[0] == FuIndicator(nal[0])
      invariant done + Fragments(nal, position, max, marker) == Fragments(nal, 1, max, marker)
      invariant AllSent(writer, start, writer.Seen(), done)
    {
      var chunk := |nal| - position;
      if chunk > max - 2 { chunk := max - 2; }
      var last := position + chunk == |nal|;
      var payload := FillFragment(fragment, nal, position, chunk, last);
      ghost var here, packet := writer.Seen(), Packet(payload, marker && last);
      ghost var rest := Fragments(nal, position + chunk, max, marker);
      FragmentsStep(nal, position, max, marker, done, packet, rest);
      var accepted := writer.Write(payload, marker && last);
      WriteThen(writer, start, here, writer.Seen(), done, packet, rest, accepted);
      if !accepted { return false; }
      done := done + [packet];
      position := position + chunk;
    }
    return true;
  }

  lemma FragmentsStep(nal: Nal, position: nat, max: nat, marker: bool, done: seq<Packet>,
                      packet: Packet, rest: seq<Packet>)
    requires 1 <= position < |nal| && max >= 3
    requires var next := position + Chunk(|nal|, position, max);
             && packet == Packet(FuPayload(nal[0], position == 1, next == |nal|, nal[position..next]),
                                 marker && next == |nal|)
             && rest == Fragments(nal, next, max, marker)
    ensures done + Fragments(nal, position, max, marker) == done + [packet] + rest
  {
  }

  /** One more writer call after a successful start, with `rest` still to come. */
  lemma WriteThen(t: Transport, a: Log, b: Log, c: Log, done: seq<Packet>, packet: Packet, rest: seq<Packet>, ok: bool)
    requires AllSent(t, a, b, done)
    requires ok == (b.calls !in t.refused) && c.calls == b.calls + 1
    requires c.delivered == if ok then b.delivered + [packet] else b.delivered
    ensures ok ==> AllSent(t, a, c, done + [packet])
    ensures !ok ==> Outcome(t, a, c, done + [packet] + rest, true, false)
  {
    assert (done + [packet] + rest)[..|done|] == done;
    assert !ok ==> Stopped(t, a, c, done + [packet] + rest, true, |done|);
  }

  /** The FU header byte and the memcpy into the fragment buffer, whose front is the payload. */
  method FillFragment(fragment: array<Byte>, nal: Nal, position: nat, chunk: nat, last: bool)
    returns (payload: seq<Byte>)
    requires 1 <= position && position + chunk <= |nal| && chunk + 2 <= fragment.Length
    requires fragment[0] == FuIndicator(nal[0])
    modifies fragment
    ensures fragment[0] == old(fragment[0])
    ensures payload == FuPayload(nal[0], position == 1, last, nal[position..position + chunk])
  {
    fragment[1] := (if position == 1 then 128 else 0) + (if last then 64 else 0) + nal[0] % 32;
    forall k | 2 <= k < chunk + 2 { fragment[k] := nal[position + k - 2]; }
    payload := fragment[..chunk + 2];
    var body := nal[position..position + chunk];
    assert forall k | 0 <= k < chunk :: fragment[k + 2] == body[k];
    assert payload[2..] == body;
    assert payload == payload[..2] + payload[2..];
  }

  /** h264_annexb_packetize.  The result is the number of NAL units sent, or -1. */
  method Packetize(data: seq<Byte>, max: nat, writer: Transport) returns (rc: int)
    modifies writer
    ensures data == [] || max == 0 ==> rc == -1 && writer.Seen() == old(writer.Seen())
    ensures data != [] && max > 0 ==>
              Outcome(writer, old(writer.Seen()), writer.Seen(), Plan(Nals(data), max, true),
                      AllFeasible(Nals(data), max), rc != -1)
    ensures rc != -1 ==> rc == |Nals(data)|
  {
    if data == [] || max == 0 { return -1; }
    var startCode, length := FindStartCode(data, 0);
    if startCode == |data| {
      ghost var start := writer.Seen();
      var ok := PacketizeNal(data, max, true, writer);
      SentPending(writer, start, start, writer.Seen(), [], data, [], max, ok);
      assert [] + [data] + [] == Nals(data);
      return if ok then 1 else -1;
    }
    rc := PacketizeUnits(data, startCode, length, max, writer);
  }

  /** The loop over start codes, which sends each NAL unit once the next one is found. */
  method PacketizeUnits(data: seq<Byte>, first: nat, firstLength: nat, max: nat, writer: Transport) returns (rc: int)
    requires first < |data| && CodeLength(data, first) == firstLength > 0
    modifies writer
    ensures Outcome(writer, old(writer.Seen()), writer.Seen(), Plan(NalsFrom(data, first), max, true),
                    AllFeasible(NalsFrom(data, first), max), rc != -1)
    ensures rc != -1 ==> rc == |NalsFrom(data, first)|
  {
    ghost var all, start := NalsFrom(data, first), writer.Seen();
    var startCode, length := first, firstLength;
    var pending, sent := Nothing, 0;
    ghost var before: seq<Nal> := [];
    while startCode < |data|
      invariant startCode <= |data| && length == (if startCode < |data| then CodeLength(data, startCode) else 0)
      invariant startCode < |data| ==> length > 0
      invariant all == before + pending.Units() + NalsFrom(data, startCode)
      invariant pending.Nothing? ==> before == []
      invariant sent == |before| && AllFeasible(before, max)
      invariant AllSent(writer, start, writer.Seen(), Plan(before, max, false))
      decreases |data| - startCode
    {
      var nal := startCode + length;
      var next, nextLength := FindStartCode(data, nal);
      var nalEnd := TrimZeros(data, nal, next);
      SplitStep(data, startCode, nal, nalEnd, next);
      if nalEnd > nal {
        var unit := data[nal..nalEnd];
        ghost var rest := NalsFrom(data, next);
        Regroup(before + pending.Units(), [unit], rest);
        if pending.Pending? {
          var ok := SendPending(writer, start, before, pending.nal, [unit] + rest, max, false);
          if !ok { return -1; }
          before := before + [pending.nal];
          sent := sent + 1;
        } else {
          assert before + pending.Units() == before;
        }
        pending := Pending(unit);
        assert all == before + pending.Units() + rest;
      }
      startCode, length := next, nextLength;
    }
    if pending.Nothing? { return 0; }
    var ok := SendPending(writer, start, before, pending.nal, [], max, true);
    if !ok { return -1; }
    return sent + 1;
  }

  /** packetize_nal on the pending NAL unit; it carries the marker when no other follows. */
  method SendPending(writer: Transport, ghost start: Log, ghost before: seq<Nal>, pending: Nal, ghost rest: seq<Nal>,
                     max: nat, marker: bool) returns (ok: bool)
    requires AllFeasible(before, max) && AllSent(writer, start, writer.Seen(), Plan(before, max, false))
    requires marker <==> rest == []
    modifies writer
    ensures Sent(writer, start, writer.Seen(), before, pending, rest, max, ok)
  {
    ghost var here := writer.Seen();
    ok := PacketizeNal(pending, max, marker, writer);
    SentPending(writer, start, here, writer.Seen(), before, pending, rest, max, ok);
  }

  ghost predicate Sent(t: Transport, a: Log, c: Log, before: seq<Nal>, pending: Nal, rest: seq<Nal>, max: nat, ok: bool) {
    var all := before + [pending] + rest;
    if ok && rest != [] then
      && AllFeasible(before + [pending], max)
      && AllSent(t, a, c, Plan(before + [pending], max, false))
    else
      Outcome(t, a, c, Plan(all, max, true), AllFeasible(all, max), ok)
  }

  /** The NAL unit found last, kept back because the last one of a frame carries the marker. */
  datatype Pending = Nothing | Pending(nal: Nal) {
    function Units(): seq<Nal> { if Nothing? then [] else [nal] }
  }

  ghost predicate AllFeasible(nals: seq<Nal>, max: nat) { forall n | n in nals :: Feasible(n, max) }

  /** The plan of a frame splits around its pending NAL unit. */
  lemma PlanAround(before: seq<Nal>, pending: Nal, rest: seq<Nal>, max: nat)
    requires AllFeasible(before, max)
    ensures Plan(before + [pending] + rest, max, true) ==
            Plan(before, max, false) + NalPackets(pending, max, rest == []) +
            (if Feasible(pending, max) then Plan(rest, max, true) else [])
    ensures Plan(before + [pending], max, false) == Plan(before, max, false) + NalPackets(pending, max, false)
  {
    Regroup(before, [pending], rest);
    PlanAppend(before, [pending] + rest, max, true);
    PlanCons(pending, rest, max, true);
    Regroup(Plan(before, max, false), NalPackets(pending, max, rest == []),
            if Feasible(pending, max) then Plan(rest, max, true) else []);
    PlanAppend(before, [pending], max, false);
    PlanCons(pending, [], max, false);
  }

  /** Sending the pending NAL unit extends the run, or ends it in failure. */
  lemma SentPending(t: Transport, a: Log, b: Log, c: Log, before: seq<Nal>, pending: Nal, rest: seq<Nal>, max: nat,
                    ok: bool)
    requires AllFeasible(before, max)
    requires AllSent(t, a, b, Plan(before, max, false))
    requires Outcome(t, b, c, NalPackets(pending, max, rest == []), Feasible(pending, max), ok)
    ensures Sent(t, a, c, before, pending, rest, max, ok)
  {
    var all := before + [pending] + rest;
    var packets := NalPackets(pending, max, rest == []);
    PlanAround(before, pending, rest, max);
    Then(t, a, b, c, Plan(before, max, false), packets, Feasible(pending, max), ok);
    assert pending in all;
    if !Feasible(pending, max) {
      assert packets == [] && Plan(before, max, false) + packets + [] == Plan(before, max, false) + packets;
      assert !AllFeasible(all, max);
    } else if !ok {
      Longer(t, a, c, Plan(before, max, false) + packets, Plan(rest, max, true), AllFeasible(all, max));
    }
  }

  /** A run that a refusal stopped early is also a stopped run of any longer plan. */
  lemma Longer(t: Transport, a: Log, b: Log, plan: seq<Packet>, more: seq<Packet>, complete: bool)
    requires Outcome(t, a, b, plan, true, false)
    ensures Outcome(t, a, b, plan + more, complete, false)
  {
    var sent: nat :| Stopped(t, a, b, plan, true, sent);
    assert (plan + more)[..sent] == plan[..sent];
    assert Stopped(t, a, b, plan + more, complete, sent);
  }

  // ------------------------------------------------------------------ scanning

  /** Contents of the scan result and of the two parameter-set caches. */
  datatype Summary = Summary(first: int, last: int, hasSps: bool, hasPps: bool, hasIdr: bool, hasSlice: bool,
                             count: nat, sps: Nal, pps: Nal)

  /** The summary after one more NAL unit; a copy that finds no memory leaves the cache alone. */
  function Note(s: Summary, nal: Nal, exhausted: set<nat>): Summary
    requires |nal| > 0
  {
    var kind := nal[0] as int % 32;
    var copied := s.count !in exhausted;
    Summary(if s.first < 0 then kind else s.first, kind,
            s.hasSps || kind == 7, s.hasPps || kind == 8, s.hasIdr || kind == 5, s.hasSlice || kind == 5 || kind == 1,
            s.count + 1,
            if kind == 7 && copied then nal else s.sps, if kind == 8 && copied then nal else s.pps)
  }

  function NoteAll(s: Summary, nals: seq<Nal>, exhausted: set<nat>): Summary
    decreases |nals|
  {
    if nals == [] then s
    else NoteAll(if |nals[0]| > 0 then Note(s, nals[0], exhausted) else s, nals[1..], exhausted)
  }

  lemma NoteFirst(s: Summary, nal: Nal, rest: seq<Nal>, exhausted: set<nat>)
    ensures NoteAll(s, [nal] + rest, exhausted) ==
            NoteAll(if |nal| > 0 then Note(s, nal, exhausted) else s, rest, exhausted)
    ensures rest == [] ==>
              NoteAll(s, [nal], exhausted) == if |nal| > 0 then Note(s, nal, exhausted) else s
  {
    assert ([nal] + rest)[1..] == rest && ([nal] + rest)[0] == nal;
    if rest == [] { assert [nal] + rest == [nal]; }
  }

  ghost predicate Holds(nals: seq<Nal>, kind: int) {
    exists n | n in nals :: |n| > 0 && n[0] as int % 32 == kind
  }

  function Unseen(sps: Nal, pps: Nal): Summary { Summary(-1, -1, false, false, false, false, 0, sps, pps) }

  /** What the accumulated summary says about the whole list. */
  lemma {:induction false} NoteAllMeaning(s: Summary, nals: seq<Nal>, exhausted: set<nat>)
    requires forall n | n in nals :: |n| > 0
    ensures var r := NoteAll(s, nals, exhausted);
            && r.count == s.count + |nals|
            && (nals != [] ==> r.first == (if s.first < 0 then nals[0][0] as int % 32 else s.first))
            && (nals != [] ==> r.last == nals[|nals| - 1][0] as int % 32)
            && (r.hasSps <==> s.hasSps || Holds(nals, 7))
            && (r.hasPps <==> s.hasPps || Holds(nals, 8))
            && (r.hasIdr <==> s.hasIdr || Holds(nals, 5))
            && (r.hasSlice <==> s.hasSlice || Holds(nals, 1) || Holds(nals, 5))
    decreases |nals|
  {
    if nals != [] {
      NoteAllMeaning(Note(s, nals[0], exhausted), nals[1..], exhausted);
      assert forall kind :: Holds(nals, kind) <==> nals[0][0] as int % 32 == kind || Holds(nals[1..], kind) by {
        HeadAndTail(nals);
      }
    }
  }

  /** Copied from the last unit of this type whose copy found memory, where the k-th unit is
      number first + k; kept when there is none. */
  ghost predicate LastCopy(nals: seq<Nal>, kind: int, first: nat, exhausted: set<nat>, before: Nal, now: Nal) {
    || (now == before && forall j | 0 <= j < |nals| :: !Copied(nals, kind, first, exhausted, j))
    || exists k: nat :: LastCopied(nals, kind, first, exhausted, k) && now == nals[k]
  }

  ghost predicate LastCopied(nals: seq<Nal>, kind: int, first: nat, exhausted: set<nat>, k: nat) {
    && k < |nals| && Copied(nals, kind, first, exhausted, k)
    && forall j | k < j < |nals| :: !Copied(nals, kind, first, exhausted, j)
  }

  ghost predicate Copied(nals: seq<Nal>, kind: int, first: nat, exhausted: set<nat>, k: nat)
    requires k < |nals|
  {
    |nals[k]| > 0 && nals[k][0] as int % 32 == kind && first + k !in exhausted
  }

  /** The two caches after a list of units: the SPS cache holds the last unit of type 7 whose copy
      found memory, the PPS cache the last of type 8, and each is left alone when there is none. */
  lemma {:induction false} CachesHoldTheLast(s: Summary, nals: seq<Nal>, exhausted: set<nat>)
    requires forall n | n in nals :: |n| > 0
    ensures LastCopy(nals, 7, s.count, exhausted, s.sps, NoteAll(s, nals, exhausted).sps)
    ensures LastCopy(nals, 8, s.count, exhausted, s.pps, NoteAll(s, nals, exhausted).pps)
    decreases |nals|
  {
    hide LastCopied;
    if nals != [] {
      var noted := Note(s, nals[0], exhausted);
      var r := NoteAll(s, nals, exhausted);
      CachesHoldTheLast(noted, nals[1..], exhausted);
      LastOfTail(nals, 7, s.count, exhausted, s.sps, noted.sps, r.sps);
      LastOfTail(nals, 8, s.count, exhausted, s.pps, noted.pps, r.pps);
    }
  }

  lemma LastOfTail(nals: seq<Nal>, kind: int, first: nat, exhausted: set<nat>, before: Nal, between: Nal, now: Nal)
    requires nals != []
    requires between == if Copied(nals, kind, first, exhausted, 0) then nals[0] else before
    requires LastCopy(nals[1..], kind, first + 1, exhausted, between, now)
    ensures LastCopy(nals, kind, first, exhausted, before, now)
  {
    var tail := nals[1..];
    assert forall j | 1 <= j < |nals| ::
        Copied(nals, kind, first, exhausted, j) == Copied(tail, kind, first + 1, exhausted, j - 1);
    if k: nat :| LastCopied(tail, kind, first + 1, exhausted, k) && now == tail[k] {
      assert LastCopied(nals, kind, first, exhausted, k + 1) && now == nals[k + 1];
    } else if Copied(nals, kind, first, exhausted, 0) {
      assert LastCopied(nals, kind, first, exhausted, 0);
    }
  }

  lemma {:induction false} NoEmptyUnits(s: seq<Byte>, c: nat)
    requires c <= |s| && (c < |s| ==> CodeLength(s, c) > 0)
    ensures forall n | n in NalsFrom(s, c) :: |n| > 0
    decreases |s| - c
  {
    if c < |s| { NoEmptyUnits(s, FindCode(s, c + CodeLength(s, c))); }
  }

  /** In any data that can be sent and holds a NAL unit, the last packet, and only it, is marked. */
  lemma FramesAreWellMarked(data: seq<Byte>, max: nat)
    requires data != [] && Nals(data) != [] && AllFeasible(Nals(data), max)
    ensures WellMarked(Plan(Nals(data), max, true), max, true)
  {
    if FindCode(data, 0) < |data| { NoEmptyUnits(data, FindCode(data, 0)); }
    OneMarkerAtTheEnd(Nals(data), max);
  }

  /** What a scan of the data leaves behind counts its units and caches the last ones. */
  lemma ScanSummary(sps: Nal, pps: Nal, data: seq<Byte>, exhausted: set<nat>)
    ensures var r := NoteAll(Unseen(sps, pps), Nals(data), exhausted);
            && r.count == |Nals(data)|
            && LastCopy(Nals(data), 7, 0, exhausted, sps, r.sps)
            && LastCopy(Nals(data), 8, 0, exhausted, pps, r.pps)
  {
    if FindCode(data, 0) < |data| { NoEmptyUnits(data, FindCode(data, 0)); }
    NoteAllMeaning(Unseen(sps, pps), Nals(data), exhausted);
    CachesHoldTheLast(Unseen(sps, pps), Nals(data), exhausted);
  }

  /** h264_annexb_scan_t together with the caller's SPS and PPS caches. */
  class Scan {
    var first: int
    var last: int
    var hasSps: bool
    var hasPps: bool
    var hasIdr: bool
    var hasSlice: bool
    var count: nat
    var sps: Nal
    var pps: Nal
    const exhausted: set<nat>

    constructor (exhausted: set<nat>)
      ensures this.exhausted == exhausted
    {
      this.exhausted := exhausted;
    }

    function State(): Summary reads this {
      Summary(first, last, hasSps, hasPps, hasIdr, hasSlice, count, sps, pps)
    }

    method ScanNal(nal: Nal)
      modifies this
      ensures State() == if |nal| > 0 then Note(old(State()), nal, exhausted) else old(State())
    {
      if |nal| == 0 { return; }
      var kind := nal[0] as int % 32;
      var copied := count !in exhausted;
      if first < 0 { first := kind; }
      last := kind;
      count := count + 1;
      if kind == 7 {
        hasSps := true;
        if copied { sps := nal; }
      } else if kind == 8 {
        hasPps := true;
        if copied { pps := nal; }
      } else if kind == 5 {
        hasIdr := true;
        hasSlice := true;
      } else if kind == 1 {
        hasSlice := true;
      }
    }

    /** h264_annexb_scan. */
    method Run(data: seq<Byte>) returns (rc: int)
      modifies this
      ensures State() == NoteAll(Unseen(old(sps), old(pps)), Nals(data), exhausted)
      ensures count == |Nals(data)|
      ensures LastCopy(Nals(data), 7, 0, exhausted, old(sps), sps)
      ensures LastCopy(Nals(data), 8, 0, exhausted, old(pps), pps)
      ensures rc == if data == [] then -1 else first
    {
      first, last, hasSps, hasPps, hasIdr, hasSlice, count := -1, -1, false, false, false, false, 0;
      ghost var zero := State();
      ScanSummary(sps, pps, data, exhausted);
      if data == [] { return -1; }
      var startCode, length := FindStartCode(data, 0);
      if startCode == |data| {
        ScanNal(data);
        NoteFirst(zero, data, [], exhausted);
        return first;
      }
      ghost var all := NalsFrom(data, startCode);
      while startCode < |data|
        invariant startCode <= |data| && length == (if startCode < |data| then CodeLength(data, startCode) else 0)
        invariant startCode < |data| ==> length > 0
        invariant NoteAll(State(), NalsFrom(data, startCode), exhausted) == NoteAll(zero, all, exhausted)
        invariant all == Nals(data)
        decreases |data| - startCode
      {
        var nal := startCode + length;
        var next, nextLength := FindStartCode(data, nal);
        var nalEnd := TrimZeros(data, nal, next);
        SplitStep(data, startCode, nal, nalEnd, next);
        NoteFirst(State(), data[nal..nalEnd], NalsFrom(data, next), exhausted);
        ScanNal(data[nal..nalEnd]);
        startCode, length := next, nextLength;
      }
      return first;
    }
  }
}

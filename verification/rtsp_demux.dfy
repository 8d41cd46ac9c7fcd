/** The receive side of src/sip_media/rtsp_stream.c: RTSP requests and interleaved RTP frames
    (section 10.12 of RFC 2326) taken from one TCP stream that recv() cuts anywhere.

    The buffer of the C code always holds stream[start..pos], so the specification works on
    those two positions: `Run` is what the code does for one way of cutting, `Ideal` looks at
    the stream alone.  The two agree for every way of cutting exactly on unambiguous streams. */
module RtspDemux {
  import opened Bytes

  const CR: Byte := 13
  const LF: Byte := 10
  const DOLLAR: Byte := 36
  const RX_MAX := 4096
  const REQUEST_MAX := 2048

  // ------------------------------------------------------------- one decision

  predicate BlankLineAt(s: seq<Byte>, i: nat) {
    i + 4 <= |s| && s[i] == CR && s[i + 1] == LF && s[i + 2] == CR && s[i + 3] == LF
  }

  /** Position behind the first CR LF CR LF of s[i..pos]; 0 when it does not occur. */
  function HeaderEnd(s: seq<Byte>, i: nat, pos: nat): (end: nat)
    requires pos <= |s|
    ensures end == 0 || i + 4 <= end <= pos
    decreases pos - i
  {
    if i + 4 > pos then 0 else if BlankLineAt(s, i) then i + 4 else HeaderEnd(s, i + 1, pos)
  }

  /** What the reader does with its buffer s[start..pos]: drop a stray CR or LF, take a frame or
      a request of n bytes, give the connection up, or wait for more. */
  datatype Decision = Skip | TakeFrame(n: nat) | TakeRequest(n: nat) | GiveUp | More

  function FrameLength(s: seq<Byte>, start: nat): (n: nat)
    requires start + 4 <= |s|
  {
    4 + U16(s[start + 2], s[start + 3])
  }

  predicate FrameReady(s: seq<Byte>, start: nat, pos: nat)
    requires start <= pos <= |s|
  {
    start + 4 <= pos && s[start] == DOLLAR && start + FrameLength(s, start) <= pos
  }

  function Decide(s: seq<Byte>, start: nat, pos: nat): (d: Decision)
    requires start <= pos <= |s|
    ensures d.TakeFrame? || d.TakeRequest? ==> 0 < d.n && start + d.n <= pos
    ensures d.Skip? ==> start < pos
    ensures d.More? ==> pos < start + RX_MAX
  {
    if start < pos && (s[start] == CR || s[start] == LF) then Skip
    else if FrameReady(s, start, pos) then TakeFrame(FrameLength(s, start))
    else
      var end := HeaderEnd(s, start, pos);
      if end > 0 then if end - start + 1 > REQUEST_MAX then GiveUp else TakeRequest(end - start)
      else if pos >= start + RX_MAX then GiveUp
      else More
  }

  /** What has been found stays found when the buffer grows, and what a longer buffer finds late
      is not in a shorter one. */
  lemma {:induction false} HeaderEndGrows(s: seq<Byte>, i: nat, pos: nat, later: nat)
    requires pos <= later <= |s|
    ensures HeaderEnd(s, i, pos) == if HeaderEnd(s, i, later) <= pos then HeaderEnd(s, i, later) else 0
    decreases pos - i
  {
    if i + 4 <= pos && !BlankLineAt(s, i) { HeaderEndGrows(s, i + 1, pos, later); }
  }

  // --------------------------------------------------------------- whole runs

  datatype Item = Frame(bytes: seq<Byte>) | Request(text: seq<Byte>)

  /** Items in order, then how it ends: a dropped connection, or waiting with everything before
      position `at` consumed. */
  datatype Outcome = Waiting(at: nat) | Failed | Next(item: Item, rest: Outcome)

  /** How many bytes a recv() at a stream position may return at most. */
  type Cuts = nat -> nat

  /** Bytes recv() returns: at least one, no more than there are and than fit the buffer. */
  function Received(s: seq<Byte>, cuts: Cuts, start: nat, pos: nat): (n: nat)
    requires start <= pos < |s| && pos < start + RX_MAX
    ensures 1 <= n && pos + n <= |s| && pos + n <= start + RX_MAX
  {
    var wanted := if cuts(pos) == 0 then 1 else cuts(pos);
    var fits := if |s| < start + RX_MAX then |s| - pos else start + RX_MAX - pos;
    if wanted < fits then wanted else fits
  }

  /** The reader's items when its buffer is s[start..pos] and recv() cuts the rest as in `cuts`. */
  function Run(s: seq<Byte>, cuts: Cuts, start: nat, pos: nat): Outcome
    requires start <= pos <= |s| && pos <= start + RX_MAX
    decreases |s| - start, |s| - pos
  {
    match Decide(s, start, pos)
    case Skip => Run(s, cuts, start + 1, pos)
    case TakeFrame(n) => Next(Frame(s[start..start + n]), Run(s, cuts, start + n, pos))
    case TakeRequest(n) => Next(Request(s[start..start + n]), Run(s, cuts, start + n, pos))
    case GiveUp => Failed
    case More => if pos == |s| then Waiting(start) else Run(s, cuts, start, pos + Received(s, cuts, start, pos))
  }

  /** As far into the stream as the buffer can reach. */
  function Reach(s: seq<Byte>, start: nat): (pos: nat)
    requires start <= |s|
    ensures start <= pos <= |s|
  {
    if |s| <= start + RX_MAX then |s| else start + RX_MAX
  }

  /** The decision the stream itself calls for. */
  function Due(s: seq<Byte>, start: nat): Decision
    requires start <= |s|
  {
    Decide(s, start, Reach(s, start))
  }

  /** The items of the stream itself. */
  function Ideal(s: seq<Byte>, start: nat): Outcome
    requires start <= |s|
    decreases |s| - start
  {
    match Due(s, start)
    case Skip => Ideal(s, start + 1)
    case TakeFrame(n) => Next(Frame(s[start..start + n]), Ideal(s, start + n))
    case TakeRequest(n) => Next(Request(s[start..start + n]), Ideal(s, start + n))
    case GiveUp => Failed
    case More => Waiting(start)
  }

  /** A complete frame begins at p and holds CR LF CR LF before its last byte. */
  predicate BlankLineInFrame(s: seq<Byte>, p: nat)
    requires p <= |s|
  {
    Due(s, p).TakeFrame? && HeaderEnd(s, p, p + Due(s, p).n - 1) > 0
  }

  /** No frame of the stream holds CR LF CR LF before its last byte. */
  ghost predicate Unambiguous(s: seq<Byte>, start: nat)
    requires start <= |s|
    decreases |s| - start
  {
    match Due(s, start)
    case Skip => Unambiguous(s, start + 1)
    case TakeFrame(n) => !BlankLineInFrame(s, start) && Unambiguous(s, start + n)
    case TakeRequest(n) => Unambiguous(s, start + n)
    case _ => true
  }

  /** A partial buffer either waits or decides as the full one does. */
  lemma DecideEarly(s: seq<Byte>, start: nat, pos: nat)
    requires start <= pos <= |s| && pos <= start + RX_MAX && !BlankLineInFrame(s, start)
    ensures var d := Decide(s, start, pos);
            d == Due(s, start) || (d.More? && (pos == |s| ==> Due(s, start).More?))
  {
    HeaderEndGrows(s, start, pos, Reach(s, start));
    if FrameReady(s, start, Reach(s, start)) && pos < start + FrameLength(s, start) {
      HeaderEndGrows(s, start, pos, start + FrameLength(s, start) - 1);
    }
  }

  lemma {:induction false} CutsDoNotMatter(s: seq<Byte>, cuts: Cuts, start: nat, pos: nat)
    requires start <= pos <= |s| && pos <= start + RX_MAX
    requires Unambiguous(s, start)
    ensures Run(s, cuts, start, pos) == Ideal(s, start)
    decreases |s| - start, |s| - pos
  {
    DecideEarly(s, start, pos);
    var d := Decide(s, start, pos);
    if d.More? {
      if pos < |s| {
        CutsDoNotMatter(s, cuts, start, pos + Received(s, cuts, start, pos));
      } else {
        assert Due(s, start).More?;
      }
    } else {
      assert d == Due(s, start);
      if !d.GiveUp? { CutsDoNotMatter(s, cuts, start + (if d.Skip? then 1 else d.n), pos); }
    }
  }

  // -------------------------------------- where cutting does matter: the converse

  /** Bytes of the next item, for a recv() that stops at item boundaries. */
  function ItemLength(s: seq<Byte>, p: nat): nat {
    if p > |s| then RX_MAX
    else match Due(s, p)
      case Skip => 1
      case TakeFrame(n) => n
      case TakeRequest(n) => n
      case _ => RX_MAX
  }

  /** The first frame of the stream that holds a blank line before its last byte. */
  function AmbiguousAt(s: seq<Byte>, start: nat): (p: nat)
    requires start <= |s| && !Unambiguous(s, start)
    ensures start <= p <= |s| && BlankLineInFrame(s, p)
    decreases |s| - start
  {
    if BlankLineInFrame(s, start) then start else AmbiguousAt(s, start + ItemLength(s, start))
  }

  /** A recv() into an empty buffer that returns the first `n` bytes. */
  lemma FirstReceive(s: seq<Byte>, cuts: Cuts, p: nat, n: nat)
    requires p < |s| && cuts(p) == n && 1 <= n && p + n <= Reach(s, p)
    ensures Run(s, cuts, p, p) == Run(s, cuts, p, p + n)
  {
    assert Decide(s, p, p) == More;
  }

  /** Cut at an item boundary, the next item is the one of the stream. */
  lemma AlignedStep(s: seq<Byte>, cuts: Cuts, p: nat)
    requires p <= |s| && cuts(p) == ItemLength(s, p)
    requires Due(s, p).Skip? || Due(s, p).TakeFrame? || Due(s, p).TakeRequest?
    ensures var n := ItemLength(s, p);
            && 1 <= n && p + n <= |s|
            && Run(s, cuts, p, p) ==
               match Due(s, p)
               case Skip => Run(s, cuts, p + n, p + n)
               case TakeFrame(_) => Next(Frame(s[p..p + n]), Run(s, cuts, p + n, p + n))
               case TakeRequest(_) => Next(Request(s[p..p + n]), Run(s, cuts, p + n, p + n))
  {
    var n := ItemLength(s, p);
    FirstReceive(s, cuts, p, n);
    HeaderEndGrows(s, p, p + n, Reach(s, p));
    assert Decide(s, p, p + n) == Due(s, p);
  }

  /** Before the ambiguity there are only items with a length. */
  lemma AmbiguityAhead(s: seq<Byte>, start: nat)
    requires start <= |s| && !Unambiguous(s, start) && !BlankLineInFrame(s, start)
    ensures var n, d := ItemLength(s, start), Due(s, start);
            && (d.Skip? || d.TakeFrame? || d.TakeRequest?)
            && 1 <= n && start + n <= |s| && !Unambiguous(s, start + n)
            && AmbiguousAt(s, start) == AmbiguousAt(s, start + n)
  {
  }

  lemma {:induction false} AgreeUpToAmbiguity(s: seq<Byte>, a: Cuts, b: Cuts, start: nat)
    requires start <= |s| && !Unambiguous(s, start)
    requires forall q | start <= q < AmbiguousAt(s, start) :: a(q) == b(q) == ItemLength(s, q)
    requires var p := AmbiguousAt(s, start); Run(s, a, p, p) != Run(s, b, p, p)
    ensures Run(s, a, start, start) != Run(s, b, start, start)
    decreases |s| - start
  {
    if !BlankLineInFrame(s, start) {
      AmbiguityAhead(s, start);
      var next := start + ItemLength(s, start);
      AgreeUpToAmbiguity(s, a, b, next);
      assert a(start) == b(start) == ItemLength(s, start);
      AlignedStep(s, a, start);
      AlignedStep(s, b, start);
      assert Run(s, a, next, next) != Run(s, b, next, next);
    }
  }

  lemma DecideInsideFrame(s: seq<Byte>, p: nat, end: nat)
    requires p <= |s| && BlankLineInFrame(s, p)
    requires end == HeaderEnd(s, p, p + Due(s, p).n - 1)
    ensures p < end <= Reach(s, p)
    ensures var d := Decide(s, p, end); d.TakeRequest? || d.GiveUp?
  {
    HeaderEndGrows(s, p, end, p + Due(s, p).n - 1);
  }

  /** Cut right behind the blank line inside an ambiguous frame, the frame is not seen as one. */
  lemma CutInsideFrame(s: seq<Byte>, cuts: Cuts, p: nat)
    requires p <= |s| && BlankLineInFrame(s, p)
    requires cuts(p) == HeaderEnd(s, p, p + Due(s, p).n - 1) - p
    ensures var o := Run(s, cuts, p, p); o.Failed? || (o.Next? && o.item.Request?)
  {
    var end := HeaderEnd(s, p, p + Due(s, p).n - 1);
    DecideInsideFrame(s, p, end);
    FirstReceive(s, cuts, p, end - p);
  }

  lemma AmbiguousStreamsDiffer(s: seq<Byte>) returns (a: Cuts, b: Cuts)
    requires !Unambiguous(s, 0)
    ensures Run(s, a, 0, 0) != Run(s, b, 0, 0)
  {
    var p := AmbiguousAt(s, 0);
    var end := HeaderEnd(s, p, p + Due(s, p).n - 1);
    a := q => ItemLength(s, q);
    b := q => if q == p then end - p else ItemLength(s, q);
    AlignedStep(s, a, p);
    CutInsideFrame(s, b, p);
    assert Run(s, a, p, p) != Run(s, b, p, p);
    AgreeUpToAmbiguity(s, a, b, 0);
  }

  /** What the reader takes from a stream is independent of how recv() cuts it if and only if
      no interleaved frame holds a blank line before its last byte. */
  lemma IndependentOfCutsExactly(s: seq<Byte>)
    ensures Unambiguous(s, 0) <==> forall a, b :: Run(s, a, 0, 0) == Run(s, b, 0, 0)
  {
    if Unambiguous(s, 0) {
      forall a, b ensures Run(s, a, 0, 0) == Run(s, b, 0, 0) {
        CutsDoNotMatter(s, a, 0, 0);
        CutsDoNotMatter(s, b, 0, 0);
      }
    } else {
      var a, b := AmbiguousStreamsDiffer(s);
    }
  }

  /** Such streams exist: a 5-byte RTP payload that begins with a blank line. */
  lemma AnAmbiguousStream()
    ensures !Unambiguous([DOLLAR, 4, 0, 5, CR, LF, CR, LF, 0], 0)
  {
    var s := [DOLLAR, 4, 0, 5, CR, LF, CR, LF, 0];
    assert HeaderEnd(s, 4, 8) == 8 && HeaderEnd(s, 3, 8) == 8 && HeaderEnd(s, 2, 8) == 8;
    assert HeaderEnd(s, 1, 8) == 8 && HeaderEnd(s, 0, 8) == 8;
    assert Due(s, 0) == TakeFrame(9);
  }

  // ------------------------------------------------------- audio of an RTP packet

  /** Where the payload begins, with the CSRC list and, when it fits, the extension skipped. */
  function PayloadStart(rtp: seq<Byte>): nat
    requires |rtp| >= 12
  {
    var hdr := 12 + rtp[0] as int % 16 * 4;
    if Bit(rtp[0], 16) && |rtp| >= hdr + 4 then hdr + 4 + U16(rtp[hdr + 2], rtp[hdr + 3]) * 4 else hdr
  }

  /** The audio taken from one RTP packet; empty when nothing is pushed. */
  function AudioOf(rtp: seq<Byte>): seq<Byte> {
    if |rtp| < 12 || |rtp| <= PayloadStart(rtp) then []
    else
      var start := PayloadStart(rtp);
      var length := |rtp| - start;
      var pad := rtp[|rtp| - 1] as int;
      if !Bit(rtp[0], 32) then rtp[start..] else if pad <= length then rtp[start..start + length - pad] else []
  }

  /** A header extension: its profile word and its data in 32-bit words. */
  datatype Extension = NoExtension | Extension(profile: (Byte, Byte), words: seq<(Byte, Byte, Byte, Byte)>)

  /** An RTP packet as section 5.1 of RFC 3550 lays it out; `padding` counts its own last byte. */
  datatype Rtp = Rtp(fixed: seq<Byte>, csrc: seq<(Byte, Byte, Byte, Byte)>, extension: Extension,
                     payload: seq<Byte>, padding: nat)

  function Words(words: seq<(Byte, Byte, Byte, Byte)>): (b: seq<Byte>)
    ensures |b| == 4 * |words|
  {
    if words == [] then [] else [words[0].0, words[0].1, words[0].2, words[0].3] + Words(words[1..])
  }

  /** Version 2 and the padding, extension and CSRC count fields. */
  function FirstByte(p: Rtp): Byte
    requires |p.csrc| < 16
  {
    128 + (if p.padding > 0 then 32 else 0) + (if p.extension.Extension? then 16 else 0) + |p.csrc| as Byte
  }

  ghost predicate WellFormed(p: Rtp) {
    && |p.fixed| == 11 && |p.csrc| < 16 && p.padding < 256
    && (p.extension.Extension? ==> |p.extension.words| < 0x1_0000)
  }

  function ExtensionBytes(e: Extension): seq<Byte>
    requires e.Extension? ==> |e.words| < 0x1_0000
  {
    if e.NoExtension? then []
    else [e.profile.0, e.profile.1, (|e.words| / 256) as Byte, (|e.words| % 256) as Byte] + Words(e.words)
  }

  function PaddingBytes(n: nat): (b: seq<Byte>)
    requires n < 256
    ensures |b| == n && (n > 0 ==> b[n - 1] as int == n)
  {
    seq(n, i => if i == n - 1 then n as Byte else 0)
  }

  function PrintRtp(p: Rtp): seq<Byte>
    requires WellFormed(p)
  {
    [FirstByte(p)] + p.fixed + Words(p.csrc) + ExtensionBytes(p.extension) + p.payload + PaddingBytes(p.padding)
  }

  lemma FirstByteBits(p: Rtp)
    requires WellFormed(p)
    ensures FirstByte(p) as int % 16 == |p.csrc|
    ensures Bit(FirstByte(p), 16) <==> p.extension.Extension?
    ensures Bit(FirstByte(p), 32) <==> p.padding > 0
  {
  }

  lemma PayloadStartIs(p: Rtp, head: seq<Byte>, tail: seq<Byte>)
    requires WellFormed(p) && |head| == 12 + 4 * |p.csrc| && head[0] == FirstByte(p)
    ensures PayloadStart(head + ExtensionBytes(p.extension) + tail) == |head| + |ExtensionBytes(p.extension)|
  {
    FirstByteBits(p);
    var ext := ExtensionBytes(p.extension);
    var rtp := head + ext + tail;
    assert rtp[0] == FirstByte(p);
    if p.extension.Extension? {
      assert rtp[|head| + 2] == ext[2] && rtp[|head| + 3] == ext[3];
      assert U16(ext[2], ext[3]) == |p.extension.words|;
    }
  }

  /** For every well-formed RTP packet, whatever its CSRC list, extension and padding, the audio
      taken from it is exactly its payload. */
  lemma AudioIsThePayload(p: Rtp)
    requires WellFormed(p)
    ensures AudioOf(PrintRtp(p)) == p.payload
  {
    var head := [FirstByte(p)] + p.fixed + Words(p.csrc);
    var ext, pad := ExtensionBytes(p.extension), PaddingBytes(p.padding);
    var front := head + ext;
    var rtp := front + p.payload + pad;
    assert rtp == front + (p.payload + pad);
    PayloadStartIs(p, head, p.payload + pad);
    FirstByteBits(p);
    assert rtp[0] == front[0] == head[0] == FirstByte(p);
    assert PayloadStart(rtp) == |front|;
    if p.padding > 0 {
      assert rtp[|rtp| - 1] == pad[p.padding - 1];
      assert rtp[|front|..|front| + |p.payload|] == p.payload;
      assert |rtp| - |front| == |p.payload| + p.padding;
    } else {
      assert rtp[|front|..] == p.payload;
    }
  }

  /** Nothing is pushed of a packet without its fixed part, of one that ends in its CSRC list or
      in its extension, or of one that claims more padding than it holds behind its header. */
  lemma MalformedIsSilent(rtp: seq<Byte>)
    requires var csrc := if |rtp| > 0 then rtp[0] as int % 16 else 0;
             || |rtp| <= 12 + 4 * csrc
             || (Bit(rtp[0], 16) && 16 + 4 * csrc <= |rtp|
                 && |rtp| <= 16 + 4 * csrc + 4 * U16(rtp[14 + 4 * csrc], rtp[15 + 4 * csrc]))
             || (!Bit(rtp[0], 16) && Bit(rtp[0], 32) && rtp[|rtp| - 1] as int > |rtp| - 12 - 4 * csrc)
    ensures AudioOf(rtp) == []
  {
  }

  // ------------------------------------------------------------ printing a stream

  /** What a client sends: a stray line end, a frame with any payload, a frame with an RTP packet,
      or a request. */
  datatype Piece =
    | Stray(b: Byte)
    | Data(channel: Byte, payload: seq<Byte>)
    | Voice(channel: Byte, packet: Rtp)
    | Ask(text: seq<Byte>)

  datatype Traffic = Quiet | Then(first: Piece, rest: Traffic)

  /** Section 10.12 of RFC 2326: dollar sign, channel, length in network order, data. */
  function PrintFrame(channel: Byte, payload: seq<Byte>): seq<Byte>
    requires |payload| < 0x1_0000
  {
    [DOLLAR, channel, (|payload| / 256) as Byte, (|payload| % 256) as Byte] + payload
  }

  /** A frame that fits the buffer and holds no blank line before its last byte. */
  ghost predicate LegalFrame(channel: Byte, payload: seq<Byte>) {
    && |payload| <= 4092
    && forall i | 0 <= i < |payload| :: !BlankLineAt(PrintFrame(channel, payload), i)
  }

  /** A request of at most 2047 bytes that begins with neither a line end nor a dollar sign and
      whose only blank line is its end. */
  ghost predicate LegalRequest(text: seq<Byte>) {
    && 4 <= |text| <= 2047
    && text[0] != CR && text[0] != LF && text[0] != DOLLAR
    && BlankLineAt(text, |text| - 4)
    && forall i | 0 <= i < |text| - 4 :: !BlankLineAt(text, i)
  }

  ghost predicate LegalPiece(piece: Piece) {
    match piece
    case Stray(b) => b == CR || b == LF
    case Data(channel, payload) => LegalFrame(channel, payload)
    case Voice(channel, packet) => WellFormed(packet) && LegalFrame(channel, PrintRtp(packet))
    case Ask(text) => LegalRequest(text)
  }

  ghost predicate Legal(t: Traffic) {
    t.Then? ==> LegalPiece(t.first) && Legal(t.rest)
  }

  ghost function PieceBytes(piece: Piece): seq<Byte>
    requires LegalPiece(piece)
  {
    match piece
    case Stray(b) => [b]
    case Data(channel, payload) => PrintFrame(channel, payload)
    case Voice(channel, packet) => PrintFrame(channel, PrintRtp(packet))
    case Ask(text) => text
  }

  ghost function Print(t: Traffic): seq<Byte>
    requires Legal(t)
  {
    if t.Quiet? then [] else PieceBytes(t.first) + Print(t.rest)
  }

  /** What the reader is to make of it, beginning at position `at`. */
  ghost function Items(t: Traffic, at: nat): Outcome
    requires Legal(t)
  {
    if t.Quiet? then Waiting(at)
    else
      var bytes := PieceBytes(t.first);
      var rest := Items(t.rest, at + |bytes|);
      if t.first.Stray? then rest
      else if t.first.Ask? then Next(Request(bytes), rest)
      else Next(Frame(bytes), rest)
  }

  /** The piece stands at p in s. */
  ghost predicate StandsAt(s: seq<Byte>, p: nat, bytes: seq<Byte>) {
    p + |bytes| <= |s| && s[p..p + |bytes|] == bytes
  }

  /** From position p on, s is the printed traffic and nothing else. */
  ghost predicate Reads(s: seq<Byte>, p: nat, t: Traffic)
    requires Legal(t)
    decreases t
  {
    if t.Quiet? then p == |s|
    else StandsAt(s, p, PieceBytes(t.first)) && Reads(s, p + |PieceBytes(t.first)|, t.rest)
  }

  lemma {:induction false} PrintReads(before: seq<Byte>, t: Traffic, s: seq<Byte>)
    requires Legal(t) && s == before + Print(t)
    ensures Reads(s, |before|, t)
    decreases t
  {
    if t.Then? {
      Regroup(before, PieceBytes(t.first), Print(t.rest));
      PrintReads(before + PieceBytes(t.first), t.rest, s);
    }
  }

  /** A piece of the stream holds the blank lines of its own. */
  lemma BlankLineInPiece(s: seq<Byte>, p: nat, piece: seq<Byte>, i: nat)
    requires StandsAt(s, p, piece) && i + 4 <= |piece|
    ensures BlankLineAt(s, p + i) == BlankLineAt(piece, i)
  {
    assert s[p + i] == piece[i] && s[p + i + 1] == piece[i + 1];
    assert s[p + i + 2] == piece[i + 2] && s[p + i + 3] == piece[i + 3];
  }

  /** The end found is that of the first blank line. */
  lemma {:induction false} HeaderEndIs(s: seq<Byte>, i: nat, pos: nat, end: nat)
    requires i + 4 <= end <= pos <= |s| && BlankLineAt(s, end - 4)
    requires forall j | i <= j < end - 4 :: !BlankLineAt(s, j)
    ensures HeaderEnd(s, i, pos) == end
    decreases end - i
  {
    if i < end - 4 { HeaderEndIs(s, i + 1, pos, end); }
  }

  lemma {:induction false} NoHeaderEnd(s: seq<Byte>, i: nat, pos: nat)
    requires pos <= |s| && forall j | i <= j && j + 4 <= pos :: !BlankLineAt(s, j)
    ensures HeaderEnd(s, i, pos) == 0
    decreases pos - i
  {
    if i + 4 <= pos { NoHeaderEnd(s, i + 1, pos); }
  }

  /** A printed frame is taken as the frame it is, and holds no misleading blank line. */
  lemma FrameIsDue(s: seq<Byte>, p: nat, channel: Byte, payload: seq<Byte>)
    requires LegalFrame(channel, payload) && StandsAt(s, p, PrintFrame(channel, payload))
    ensures Due(s, p) == TakeFrame(4 + |payload|) && !BlankLineInFrame(s, p)
  {
    var f := PrintFrame(channel, payload);
    assert s[p] == f[0] && s[p + 2] == f[2] && s[p + 3] == f[3];
    assert U16(f[2], f[3]) == |payload|;
    forall j | p <= j && j + 4 <= p + |f| - 1 ensures !BlankLineAt(s, j) {
      BlankLineInPiece(s, p, f, j - p);
    }
    NoHeaderEnd(s, p, p + |f| - 1);
  }

  lemma RequestIsDue(s: seq<Byte>, p: nat, text: seq<Byte>)
    requires LegalRequest(text) && StandsAt(s, p, text)
    ensures Due(s, p) == TakeRequest(|text|)
  {
    assert s[p] == text[0];
    forall j | p <= j < p + |text| - 4 ensures !BlankLineAt(s, j) {
      BlankLineInPiece(s, p, text, j - p);
    }
    BlankLineInPiece(s, p, text, |text| - 4);
    HeaderEndIs(s, p, Reach(s, p), p + |text|);
  }

  /** A printed piece is what the stream is decided to hold where it stands. */
  lemma PieceIsDue(s: seq<Byte>, p: nat, piece: Piece)
    requires LegalPiece(piece) && StandsAt(s, p, PieceBytes(piece))
    ensures var n := |PieceBytes(piece)|;
            0 < n && (piece.Stray? ==> n == 1) && !BlankLineInFrame(s, p) && p + n <= |s| && s[p..p + n] == PieceBytes(piece)
    ensures Due(s, p) == if piece.Stray? then Skip
                         else if piece.Ask? then TakeRequest(|PieceBytes(piece)|)
                         else TakeFrame(|PieceBytes(piece)|)
  {
    match piece
    case Stray(b) => assert s[p] == s[p..p + 1][0];
    case Data(channel, payload) => FrameIsDue(s, p, channel, payload);
    case Voice(channel, packet) => FrameIsDue(s, p, channel, PrintRtp(packet));
    case Ask(text) => RequestIsDue(s, p, text);
  }

  lemma NothingIsDue(s: seq<Byte>)
    ensures Due(s, |s|) == More && !BlankLineInFrame(s, |s|)
  {
  }

  lemma {:induction false} TrafficIsRead(s: seq<Byte>, p: nat, t: Traffic)
    requires Legal(t) && Reads(s, p, t)
    ensures p <= |s| && Ideal(s, p) == Items(t, p) && Unambiguous(s, p)
    decreases t
  {
    hide PieceBytes, LegalPiece, Due, BlankLineInFrame;
    if t.Quiet? {
      NothingIsDue(s);
    } else {
      PieceIsDue(s, p, t.first);
      TrafficIsRead(s, p + |PieceBytes(t.first)|, t.rest);
    }
  }

  /** However recv() cuts the stream, and however much of it is already in the buffer, what is
      printed is read back: its frames and requests in order, stray line ends dropped, and nothing
      left over. */
  lemma ReadInvertsPrint(before: seq<Byte>, t: Traffic, cuts: Cuts, pos: nat)
    requires Legal(t)
    requires var s := before + Print(t); |before| <= pos <= |s| && pos <= |before| + RX_MAX
    ensures Run(before + Print(t), cuts, |before|, pos) == Items(t, |before|)
  {
    var s := before + Print(t);
    PrintReads(before, t, s);
    TrafficIsRead(s, |before|, t);
    CutsDoNotMatter(s, cuts, |before|, pos);
  }

  /** A request of 2048 bytes or more ends the connection. */
  lemma LongRequestsAreRefused(s: seq<Byte>, p: nat, end: nat)
    requires p < |s| && s[p] != CR && s[p] != LF && s[p] != DOLLAR
    requires p + 2048 <= end <= |s| && end <= p + 4096 && BlankLineAt(s, end - 4)
    requires forall j | p <= j < end - 4 :: !BlankLineAt(s, j)
    ensures Ideal(s, p) == Failed
  {
    HeaderEndIs(s, p, Reach(s, p), end);
  }

  /** So do 4096 bytes of a request without its end. */
  lemma EndlessRequestsAreRefused(s: seq<Byte>, p: nat)
    requires p + 4096 <= |s| && s[p] != CR && s[p] != LF && s[p] != DOLLAR
    requires forall j | p <= j && j + 4 <= p + 4096 :: !BlankLineAt(s, j)
    ensures Ideal(s, p) == Failed
  {
    NoHeaderEnd(s, p, p + 4096);
  }

  // ------------------------------------------------------- the audio of a stream

  /** Frames before the next request. */
  function LeadingFrames(o: Outcome): seq<seq<Byte>> {
    if o.Next? && o.item.Frame? then [o.item.bytes] + LeadingFrames(o.rest) else []
  }

  /** What follows those frames. */
  function Behind(o: Outcome): Outcome {
    if o.Next? && o.item.Frame? then Behind(o.rest) else o
  }

  function FrameAudio(frame: seq<Byte>, backchannel: bool, channel: Byte): seq<Byte> {
    if backchannel && |frame| >= 4 && frame[1] == channel then AudioOf(frame[4..]) else []
  }

  /** Audio of interleaved frames that arrive on the backchannel. */
  function Audio(frames: seq<seq<Byte>>, backchannel: bool, channel: Byte): seq<Byte>
    decreases |frames|
  {
    if frames == [] then []
    else Audio(frames[..|frames| - 1], backchannel, channel)
         + FrameAudio(frames[|frames| - 1], backchannel, channel)
  }

  lemma AudioOfOneMore(frames: seq<seq<Byte>>, frame: seq<Byte>, backchannel: bool, channel: Byte)
    ensures Audio(frames + [frame], backchannel, channel) ==
            Audio(frames, backchannel, channel) + FrameAudio(frame, backchannel, channel)
  {
    assert (frames + [frame])[..|frames|] == frames;
  }

  /** The payloads of the RTP packets sent on the backchannel before the next request, in order. */
  ghost function Spoken(t: Traffic, channel: Byte): seq<Byte> {
    if t.Quiet? || t.first.Ask? then []
    else
      (if t.first.Voice? && t.first.channel == channel then t.first.packet.payload else []) + Spoken(t.rest, channel)
  }

  /** Nothing but RTP is sent on this channel. */
  predicate OnlyRtpOn(t: Traffic, channel: Byte) {
    t.Then? ==> !(t.first.Data? && t.first.channel == channel) && OnlyRtpOn(t.rest, channel)
  }

  /** The next request and what is left of the traffic behind it. */
  ghost function AfterRequest(t: Traffic, at: nat): Outcome
    requires Legal(t)
  {
    if t.Quiet? || t.first.Ask? then Items(t, at) else AfterRequest(t.rest, at + |PieceBytes(t.first)|)
  }

  lemma {:induction false} AudioOfFirst(frame: seq<Byte>, frames: seq<seq<Byte>>, backchannel: bool, channel: Byte)
    ensures Audio([frame] + frames, backchannel, channel) ==
            FrameAudio(frame, backchannel, channel) + Audio(frames, backchannel, channel)
    decreases |frames|
  {
    var one := [frame];
    if frames == [] {
      assert one + frames == one && one[..0] == [];
    } else {
      var most, last := frames[..|frames| - 1], frames[|frames| - 1];
      AudioOfFirst(frame, most, backchannel, channel);
      assert (one + frames)[..|frames|] == one + most;
      Regroup(FrameAudio(frame, backchannel, channel), Audio(most, backchannel, channel),
              FrameAudio(last, backchannel, channel));
    }
  }

  lemma PayloadOfFrame(channel: Byte, payload: seq<Byte>)
    requires |payload| < 0x1_0000
    ensures PrintFrame(channel, payload)[4..] == payload && PrintFrame(channel, payload)[1] == channel
  {
  }

  lemma PieceAudioIs(piece: Piece, backchannel: bool, channel: Byte)
    requires LegalPiece(piece) && (piece.Data? || piece.Voice?)
    requires backchannel ==> !(piece.Data? && piece.channel == channel)
    ensures FrameAudio(PieceBytes(piece), backchannel, channel) ==
            if backchannel && piece.Voice? && piece.channel == channel then piece.packet.payload else []
  {
    if piece.Voice? {
      PayloadOfFrame(piece.channel, PrintRtp(piece.packet));
      AudioIsThePayload(piece.packet);
    }
  }

  lemma NothingHeard(o: Outcome, backchannel: bool, channel: Byte)
    requires !(o.Next? && o.item.Frame?)
    ensures Audio(LeadingFrames(o), backchannel, channel) == [] && Behind(o) == o
  {
  }

  lemma FrameHeard(bytes: seq<Byte>, rest: Outcome, backchannel: bool, channel: Byte)
    ensures var o := Next(Frame(bytes), rest);
            && Audio(LeadingFrames(o), backchannel, channel) ==
               FrameAudio(bytes, backchannel, channel) + Audio(LeadingFrames(rest), backchannel, channel)
            && Behind(o) == Behind(rest)
  {
    AudioOfFirst(bytes, LeadingFrames(rest), backchannel, channel);
  }

  /** The audio pushed for printed traffic is exactly the payloads sent on the backchannel, and
      nothing when there is none. */
  lemma {:induction false} TrafficIsHeard(t: Traffic, at: nat, backchannel: bool, channel: Byte)
    requires Legal(t) && (backchannel ==> OnlyRtpOn(t, channel))
    ensures Audio(LeadingFrames(Items(t, at)), backchannel, channel) == if backchannel then Spoken(t, channel) else []
    ensures Behind(Items(t, at)) == AfterRequest(t, at)
    decreases t
  {
    hide LegalPiece, PieceBytes, FrameAudio, Audio, LeadingFrames, Behind;
    if t.Quiet? || t.first.Ask? {
      NothingHeard(Items(t, at), backchannel, channel);
    } else {
      var bytes := PieceBytes(t.first);
      TrafficIsHeard(t.rest, at + |bytes|, backchannel, channel);
      if !t.first.Stray? {
        PieceAudioIs(t.first, backchannel, channel);
        FrameHeard(bytes, Items(t.rest, at + |bytes|), backchannel, channel);
      }
    }
  }

  /** What read_rtsp_request does on printed traffic, given what it does on runs: it pushes the
      payloads sent on the backchannel before the next request and returns that request, or pushes
      them and gives up when there is none. */
  lemma RequestOfTraffic(before: seq<Byte>, t: Traffic, cuts: Cuts, pos: nat, backchannel: bool, channel: Byte,
                         rc: int, text: seq<Byte>, now: Outcome)
    requires Legal(t) && (backchannel ==> OnlyRtpOn(t, channel))
    requires var s := before + Print(t); |before| <= pos <= |s| && pos <= |before| + RX_MAX
    requires var o := Run(before + Print(t), cuts, |before|, pos); Answer(o, LeadingFrames(o), rc, text, now)
    ensures var o := Run(before + Print(t), cuts, |before|, pos);
            Audio(LeadingFrames(o), backchannel, channel) == if backchannel then Spoken(t, channel) else []
    ensures match AfterRequest(t, |before|)
            case Next(item, rest) => item == Request(text) && rc == |text| && now == rest
            case _ => rc == -1
  {
    ReadInvertsPrint(before, t, cuts, pos);
    TrafficIsHeard(t, |before|, backchannel, channel);
  }

  // ------------------------------------------------------------ the C routines

  /** The audio pushed so far, after a round that took at most one frame. */
  lemma AudioOfNext(frames: seq<seq<Byte>>, taken: seq<seq<Byte>>, first: seq<Byte>, before: seq<Byte>, now: seq<Byte>,
                    backchannel: bool, channel: Byte)
    requires before == first + Audio(frames, backchannel, channel)
    requires taken == frames ==> now == before
    requires taken != frames ==>
               exists frame :: taken == frames + [frame] && now == before + FrameAudio(frame, backchannel, channel)
    ensures now == first + Audio(taken, backchannel, channel)
  {
    if taken != frames {
      var frame :| taken == frames + [frame] && now == before + FrameAudio(frame, backchannel, channel);
      AudioOfOneMore(frames, frame, backchannel, channel);
      Regroup(first, Audio(frames, backchannel, channel), FrameAudio(frame, backchannel, channel));
    }
  }

  /** The worker's receive buffer in front of its socket, and the bytes handed to the ring. */
  class Receiver {
    const stream: seq<Byte>
    const cuts: Cuts
    const rxbuf: array<Byte>
    var rxlen: nat
    var pos: nat
    ghost var start: nat
    var backchannel: bool
    var channel: Byte
    var pushed: seq<Byte>

    constructor (stream: seq<Byte>, cuts: Cuts)
      ensures Valid() && fresh(rxbuf) && this.stream == stream && this.cuts == cuts
      ensures start == pos == 0 && pushed == [] && !backchannel
    {
      this.stream, this.cuts := stream, cuts;
      rxbuf := new Byte[RX_MAX](_ => 0);
      rxlen, pos, start, backchannel, channel, pushed := 0, 0, 0, false, 4, [];
    }

    ghost predicate Valid()
      reads this, rxbuf
    {
      && rxbuf.Length == RX_MAX
      && start <= pos <= |stream| && rxlen == pos - start <= RX_MAX
      && forall k | 0 <= k < rxlen :: rxbuf[k] == stream[start + k]
    }

    /** consume_rx_bytes: the memmove to the front of the buffer. */
    method Consume(n: nat)
      requires Valid() && n <= rxlen
      modifies this`rxlen, this`start, rxbuf
      ensures Valid() && start == old(start) + n
    {
      var left := rxlen - n;
      forall k | 0 <= k < left { rxbuf[k] := rxbuf[k + n]; }
      assert forall k | 0 <= k < left :: rxbuf[k] == stream[start + n + k];
      rxlen, start := left, start + n;
    }

    /** find_rtsp_header_end. */
    method FindHeaderEnd() returns (length: nat)
      requires Valid()
      ensures length == if HeaderEnd(stream, start, pos) == 0 then 0 else HeaderEnd(stream, start, pos) - start
    {
      var i := 0;
      while i + 3 < rxlen
        invariant i <= rxlen
        invariant HeaderEnd(stream, start + i, pos) == HeaderEnd(stream, start, pos)
      {
        if rxbuf[i] == CR && rxbuf[i + 1] == LF && rxbuf[i + 2] == CR && rxbuf[i + 3] == LF {
          assert BlankLineAt(stream, start + i);
          return i + 4;
        }
        i := i + 1;
      }
      return 0;
    }

    method Recv() returns (n: nat)
      requires Valid() && rxlen < RX_MAX
      modifies this`rxlen, this`pos, rxbuf
      ensures Valid()
      ensures pos == if old(pos) == |stream| then old(pos) else old(pos) + Received(stream, cuts, start, old(pos))
      ensures n == pos - old(pos)
    {
      if pos == |stream| { return 0; }
      n := if cuts(pos) == 0 then 1 else cuts(pos);
      if n > RX_MAX - rxlen { n := RX_MAX - rxlen; }
      if n > |stream| - pos { n := |stream| - pos; }
      forall k | rxlen <= k < rxlen + n { rxbuf[k] := stream[pos + k - rxlen]; }
      rxlen, pos := rxlen + n, pos + n;
    }

    /** The branch of read_rtsp_request for a complete frame at the front of the buffer. */
    method HandleFrame(length: nat)
      requires Valid() && 4 <= length <= rxlen
      modifies this`rxlen, this`start, this`pushed, rxbuf
      ensures Valid() && start == old(start) + length
      ensures pushed == old(pushed) + FrameAudio(stream[old(start)..start], backchannel, channel)
    {
      var frame := rxbuf[..length];
      assert frame == stream[start..start + length];
      var audio := BackchannelAudio(frame, backchannel, channel);
      pushed := pushed + audio;
      Consume(length);
    }

    static method BackchannelAudio(frame: seq<Byte>, backchannel: bool, channel: Byte) returns (audio: seq<Byte>)
      requires |frame| >= 4
      ensures audio == FrameAudio(frame, backchannel, channel)
    {
      if !backchannel || frame[1] != channel { return []; }
      audio := ExtractAudio(frame[4..]);
    }

    static method ExtractAudio(rtp: seq<Byte>) returns (audio: seq<Byte>)
      ensures audio == AudioOf(rtp)
    {
      if |rtp| < 12 { return []; }
      var hdr := 12 + rtp[0] as int % 16 * 4;
      if Bit(rtp[0], 16) && |rtp| >= hdr + 4 {
        var extWords := U16(rtp[hdr + 2], rtp[hdr + 3]);
        hdr := hdr + 4 + extWords * 4;
      }
      if |rtp| <= hdr { return []; }
      var audioLength := |rtp| - hdr;
      if Bit(rtp[0], 32) {
        var pad := rtp[|rtp| - 1] as int;
        audioLength := if pad <= audioLength then audioLength - pad else 0;
      }
      audio := rtp[hdr..hdr + audioLength];
    }

    /** What one round of read_rtsp_request does before it calls recv(). */
    method Examine() returns (d: Decision, text: seq<Byte>)
      requires Valid()
      modifies this`rxlen, this`start, this`pushed, rxbuf
      ensures Valid()
      ensures d == Decide(stream, old(start), pos)
      ensures start == old(start) + match d case Skip => 1 case TakeFrame(n) => n case TakeRequest(n) => n case _ => 0
      ensures pushed == old(pushed) + if d.TakeFrame? then FrameAudio(stream[old(start)..start], backchannel, channel) else []
      ensures d.TakeRequest? ==> text == stream[old(start)..start]
    {
      text := [];
      if rxlen > 0 && (rxbuf[0] == CR || rxbuf[0] == LF) {
        Consume(1);
        return Skip, text;
      }
      if rxlen >= 4 && rxbuf[0] == DOLLAR {
        var length := 4 + U16(rxbuf[2], rxbuf[3]);
        if rxlen >= length {
          HandleFrame(length);
          return TakeFrame(length), text;
        }
      }
      assert !FrameReady(stream, start, pos);
      var end := FindHeaderEnd();
      if end > 0 {
        if end + 1 > REQUEST_MAX { return GiveUp, text; }
        text := rxbuf[..end];
        assert text == stream[start..start + end];
        Consume(end);
        return TakeRequest(end), text;
      }
      if rxlen >= RX_MAX { return GiveUp, text; }
      return More, text;
    }

    /** One round of the loop in read_rtsp_request, which either goes on or returns. */
    method Round(ghost o: Outcome, ghost frames: seq<seq<Byte>>)
        returns (done: bool, rc: int, text: seq<Byte>, ghost taken: seq<seq<Byte>>)
      requires Valid() && Reached(o, frames, Run(stream, cuts, start, pos))
      modifies this`rxlen, this`pos, this`start, this`pushed, rxbuf
      ensures Valid()
      ensures taken == frames ==> pushed == old(pushed)
      ensures taken != frames ==>
                exists frame :: taken == frames + [frame] && pushed == old(pushed) + FrameAudio(frame, backchannel, channel)
      ensures !done ==> Reached(o, taken, Run(stream, cuts, start, pos))
      ensures !done ==> start > old(start) || (start == old(start) && pos > old(pos))
      ensures done ==> Answer(o, taken, rc, text, Run(stream, cuts, start, pos))
    {
      hide HeaderEnd, FrameAudio, LeadingFrames, Behind, Reached;
      ghost var at, had := start, pos;
      RunStep(o, frames, stream, cuts, at, had);
      var d: Decision;
      d, text := Examine();
      taken := if d.TakeFrame? then frames + [stream[at..at + d.n]] else frames;
      rc, done := -1, d.GiveUp?;
      if d.TakeRequest? {
        rc, done := |text|, true;
      } else if d.More? {
        var n := Recv();
        done := n == 0;
      }
    }

    /** read_rtsp_request: the next request, or -1 when the connection is to be dropped. */
    method ReadRequest() returns (rc: int, text: seq<Byte>)
      requires Valid()
      modifies this`rxlen, this`pos, this`start, this`pushed, rxbuf
      ensures Valid()
      ensures var o := Run(stream, cuts, old(start), old(pos));
              && pushed == old(pushed) + Audio(LeadingFrames(o), backchannel, channel)
              && Answer(o, LeadingFrames(o), rc, text, Run(stream, cuts, start, pos))
    {
      ghost var o, first := Run(stream, cuts, start, pos), pushed;
      ghost var frames: seq<seq<Byte>> := [];
      var done := false;
      rc, text := -1, [];
      while !done
        invariant Valid()
        invariant !done ==> Reached(o, frames, Run(stream, cuts, start, pos))
        invariant done ==> Answer(o, frames, rc, text, Run(stream, cuts, start, pos))
        invariant pushed == first + Audio(frames, backchannel, channel)
        decreases !done, |stream| - start, |stream| - pos
      {
        ghost var before, taken := pushed, frames;
        done, rc, text, taken := Round(o, frames);
        AudioOfNext(frames, taken, first, before, pushed, backchannel, channel);
        frames := taken;
      }
    }
  }

  /** `frames` have been taken of the outcome `o`, and `now` is left of it. */
  ghost predicate Reached(o: Outcome, frames: seq<seq<Byte>>, now: Outcome) {
    LeadingFrames(o) == frames + LeadingFrames(now) && Behind(o) == Behind(now)
  }

  /** What read_rtsp_request returns once `frames` have been taken of `o`: the request that
      follows them, with `now` left, or -1 when there is none. */
  ghost predicate Answer(o: Outcome, frames: seq<seq<Byte>>, rc: int, text: seq<Byte>, now: Outcome) {
    && LeadingFrames(o) == frames
    && match Behind(o)
       case Next(item, rest) => item == Request(text) && rc == |text| && now == rest
       case _ => rc == -1
  }

  /** One decision of a run, as the frames taken and what is behind them. */
  lemma RunStep(o: Outcome, frames: seq<seq<Byte>>, s: seq<Byte>, cuts: Cuts, start: nat, pos: nat)
    requires start <= pos <= |s| && pos <= start + RX_MAX
    requires Reached(o, frames, Run(s, cuts, start, pos))
    ensures match Decide(s, start, pos)
            case Skip => Reached(o, frames, Run(s, cuts, start + 1, pos))
            case TakeFrame(n) => Reached(o, frames + [s[start..start + n]], Run(s, cuts, start + n, pos))
            case TakeRequest(n) =>
              && LeadingFrames(o) == frames
              && Behind(o) == Next(Request(s[start..start + n]), Run(s, cuts, start + n, pos))
            case GiveUp => LeadingFrames(o) == frames && Behind(o) == Failed
            case More =>
              if pos == |s| then LeadingFrames(o) == frames && Behind(o) == Waiting(start)
              else Reached(o, frames, Run(s, cuts, start, pos + Received(s, cuts, start, pos)))
  {
    var now := Run(s, cuts, start, pos);
    if now.Next? && now.item.Frame? {
      Regroup(frames, [now.item.bytes], LeadingFrames(now.rest));
    } else {
      assert LeadingFrames(now) == [] && frames + [] == frames;
    }
  }
}

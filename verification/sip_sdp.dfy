/** The SDP body of src/sip_media/sip_sdp.c: what is built for an INVITE and what is read from the
    other side (sections 5.14 and 6 of RFC 4566).  A pointer into the text is the rest of the text
    from there on. */
module SipSdp {
  import opened Characters
  import opened Wrappers

  const CR_LF := "\r\n"

  // ------------------------------------------------------------------ the library

  predicate Digit(c: char) {
    '0' <= c <= '9'
  }

  /** strstr: the rest of s from the first occurrence of `pattern`. */
  function Find(s: string, pattern: string): (r: Option<string>)
    ensures r.Some? ==> pattern <= r.value && |r.value| <= |s|
  {
    if pattern <= s then Some(s) else if s == "" then None else Find(s[1..], pattern)
  }

  function Skip(s: string): (r: string)
    ensures |r| <= |s|
  {
    if s != "" && Space(s[0]) then Skip(s[1..]) else s
  }

  function Numeral(n: nat): (s: string)
    ensures s != "" && forall i | 0 <= i < |s| :: Digit(s[i])
  {
    if n < 10 then [('0' as int + n) as char] else Numeral(n / 10) + [('0' as int + n % 10) as char]
  }

  /** %d of printf. */
  function Decimal(n: int): string {
    if n < 0 then "-" + Numeral(-n) else Numeral(n)
  }

  function Amount(c: char): nat
    requires Digit(c)
  {
    c as int - '0' as int
  }

  /** The digits at the front of s, read on from `sum`. */
  function Digits(s: string, sum: nat): (nat, string) {
    if s != "" && Digit(s[0]) then Digits(s[1..], sum * 10 + Amount(s[0])) else (sum, s)
  }

  /** %d of scanf: blanks, a sign, at least one digit. */
  function ScanInt(s: string): Option<(int, string)> {
    var t := Skip(s);
    var signed := t != "" && (t[0] == '-' || t[0] == '+');
    var u := if signed then t[1..] else t;
    if u == "" || !Digit(u[0]) then None
    else
      var amount: int := Digits(u, 0).0;
      Some((if signed && t[0] == '-' then -amount else amount, Digits(u, 0).1))
  }

  /** The longest front of s, up to `most` characters, without characters of `stop`. */
  function Span(s: string, stop: set<char>, most: nat): string {
    if s == "" || most == 0 || s[0] in stop then "" else [s[0]] + Span(s[1..], stop, most - 1)
  }

  const SPACES := {' ', '\t', '\n', '\U{000B}', '\U{000C}', '\r'}

  // ---------------------------------------------------------------------- parsing

  /** What the other side offers. */
  datatype Media = Media(audioPort: int, dtmf: int, videoPort: int, videoPayload: int)

  /** sscanf with "<media>%d %31s", where `media` is at the front of s. */
  function Port(s: string, media: string): Option<int>
    requires |media| <= |s|
  {
    var number := ScanInt(s[|media|..]);
    if number.None? then None
    else
      var protocol := Span(Skip(number.value.1), SPACES, 31);
      if protocol != "" && Find(protocol, "RTP").Some? && 0 < number.value.0 <= 65535 then Some(number.value.0) else None
  }

  function PortOf(s: string, media: string): Option<int> {
    match Find(s, media) case None => None case Some(line) => Port(line, media)
  }

  /** sscanf with "a=rtpmap:%d %31[^/\r\n]": payload type and codec. */
  function RtpMap(line: string): Option<(int, string)> {
    if !("a=rtpmap:" <= line) then None
    else
      var number := ScanInt(line[9..]);
      if number.None? then None
      else
        var codec := Span(Skip(number.value.1), {'/', '\r', '\n'}, 31);
        if codec == "" then None else Some((number.value.0, codec))
  }

  function Lower(c: char): char {
    if 'A' <= c <= 'Z' then (c as int + 32) as char else c
  }

  /** strcasecmp finds no difference. */
  predicate SameName(a: string, b: string) {
    |a| == |b| && forall i | 0 <= i < |a| :: Lower(a[i]) == Lower(b[i])
  }

  function NextLine(s: string): (r: Option<string>)
    ensures r.Some? ==> |r.value| < |s|
  {
    if s == "" then None else if s[0] == '\n' then Some(s[1..]) else NextLine(s[1..])
  }

  /** The walk over the lines of one media section. */
  function PayloadIn(line: string, codec: string, first: bool): int
    decreases |line|
  {
    if line == "" || (!first && "m=" <= line) then 0
    else
      var map_ := RtpMap(line);
      if map_.Some? && SameName(map_.value.1, codec) then map_.value.0
      else
        var next := NextLine(line);
        if next.None? then 0 else PayloadIn(next.value, codec, false)
  }

  /** parse_payload_type. */
  function PayloadType(s: string, media: string, codec: string): int {
    match Find(s, media) case None => 0 case Some(line) => PayloadIn(line, codec, true)
  }

  /** sip_sdp_parse. */
  function Parse(s: string): Media {
    var audio, video := PortOf(s, "m=audio "), PortOf(s, "m=video ");
    var dtmf := PayloadType(s, "m=audio ", "telephone-event");
    Media(if audio.Some? then audio.value else 8000, if dtmf > 0 then dtmf else 101,
          if video.Some? then video.value else 0, PayloadType(s, "m=video ", "H264"))
  }

  // --------------------------------------------------------------------- building

  /** "a=rtpmap:<payload> <codec><clock>", with the text behind it. */
  function MapLine(payload: int, codec: string, clock: string, rest: string): string {
    "a=rtpmap:" + (Decimal(payload) + (" " + (codec + (clock + (CR_LF + rest)))))
  }

  function VideoPart(port: int, payload: int): string {
    "m=video " + (Decimal(port) + (" RTP/AVP" + (" " + (Decimal(payload) + (CR_LF +
      MapLine(payload, "H264", "/90000",
              "a=fmtp:" + Decimal(payload) + " packetization-mode=1;profile-level-id=42e01e\r\na=sendonly\r\n"))))))
  }

  function AudioMaps(rest: string): string {
    MapLine(8, "PCMA", "/8000",
            MapLine(101, "telephone-event", "/8000", "a=fmtp:101 0-16\r\na=sendrecv\r\n" + rest))
  }

  function AudioPart(port: int, rest: string): string {
    "m=audio " + (Decimal(port) + (" RTP/AVP" + (" 8 101" + (CR_LF + AudioMaps(rest)))))
  }

  function Head(ip: string, rest: string): string {
    "v=0\r\no=wibox 123456 654321 IN IP4 " + (ip + ("\r\ns=Wibox Media Session\r\nc=IN IP4 " + (ip + ("\r\nt=0 0\r\n" + rest))))
  }

  /** sip_sdp_build into a buffer of `size`. */
  function Build(ip: string, audio: int, video: int, payload: int, size: nat): Option<string> {
    var text := Head(ip, AudioPart(audio, if video > 0 then VideoPart(video, payload) else ""));
    if ip == "" || audio <= 0 || |text| >= size then None else Some(text)
  }

  // ---------------------------------------------------------- lemmas on scanning

  /** No "m=" inside s. */
  predicate Clean(s: string) {
    forall i | 0 <= i < |s| - 1 :: s[i] == 'm' ==> s[i + 1] != '='
  }

  /** Nor across the border to what comes behind. */
  predicate Apart(s: string, rest: string) {
    s == "" || rest == "" || s[|s| - 1] != 'm' || rest[0] != '='
  }

  lemma {:induction false} FindBehind(a: string, b: string, pattern: string)
    requires Clean(a) && Apart(a, b) && "m=" <= pattern
    ensures Find(a + b, pattern) == Find(b, pattern)
    decreases |a|
  {
    if a == "" {
      assert a + b == b;
    } else {
      var s := a + b;
      assert s[1..] == a[1..] + b;
      assert pattern[0] == 'm' && pattern[1] == '=';
      assert |a| > 1 ==> s[1] == a[1];
      assert |s| < 2 || s[0] != 'm' || s[1] != '=';
      forall i | 0 <= i < |a[1..]| - 1 ensures a[1..][i] == 'm' ==> a[1..][i + 1] != '=' {
        assert a[1..][i] == a[i + 1] && a[1..][i + 1] == a[i + 2];
        assert a[i + 1] == 'm' ==> a[(i + 1) + 1] != '=';
      }
      FindBehind(a[1..], b, pattern);
    }
  }

  function Power(k: nat): nat {
    if k == 0 then 1 else 10 * Power(k - 1)
  }

  lemma {:induction false} DigitsOfNumeral(n: nat, rest: string, sum: nat)
    requires rest == "" || !Digit(rest[0])
    ensures Digits(Numeral(n) + rest, sum) == (sum * Power(|Numeral(n)|) + n, rest)
    decreases n
  {
    DigitsThrough(Numeral(n), rest, sum);
    ValueOfNumeral(n, sum);
  }

  /** The value of digits read on from `sum`. */
  function Value(s: string, sum: nat): nat
    requires forall i | 0 <= i < |s| :: Digit(s[i])
  {
    if s == "" then sum else Value(s[..|s| - 1], sum) * 10 + Amount(s[|s| - 1])
  }

  lemma {:induction false} DigitsThrough(s: string, rest: string, sum: nat)
    requires forall i | 0 <= i < |s| :: Digit(s[i])
    requires rest == "" || !Digit(rest[0])
    ensures Digits(s + rest, sum) == (Value(s, sum), rest)
    decreases |s|
  {
    if s == "" {
      assert s + rest == rest;
    } else {
      var d := Amount(s[0]);
      assert (s + rest)[1..] == s[1..] + rest;
      DigitsThrough(s[1..], rest, sum * 10 + d);
      ValueFromTheFront(s, sum);
    }
  }

  lemma {:induction false} ValueFromTheFront(s: string, sum: nat)
    requires s != "" && forall i | 0 <= i < |s| :: Digit(s[i])
    ensures Value(s, sum) == Value(s[1..], sum * 10 + Amount(s[0]))
    decreases |s|
  {
    if |s| > 1 {
      ValueFromTheFront(s[..|s| - 1], sum);
      assert s[..|s| - 1][1..] == s[1..][..|s| - 2];
    }
  }

  lemma LastDigit(sum: nat, p: nat, n: nat)
    ensures (sum * p + n / 10) * 10 + n % 10 == sum * (10 * p) + n
  {
    var q := sum * p;
    assert sum * (10 * p) == 10 * q;
  }

  lemma {:induction false} ValueOfNumeral(n: nat, sum: nat)
    ensures Value(Numeral(n), sum) == sum * Power(|Numeral(n)|) + n
    decreases n
  {
    var s := Numeral(n);
    if n >= 10 {
      var front := Numeral(n / 10);
      ValueOfNumeral(n / 10, sum);
      assert s[..|s| - 1] == front && Amount(s[|s| - 1]) == n % 10;
      LastDigit(sum, Power(|front|), n);
      assert Power(|s|) == 10 * Power(|front|);
      assert Value(s, sum) == Value(front, sum) * 10 + n % 10;
    } else {
      assert s[..0] == "" && Value(s[..0], sum) == sum;
      assert Power(1) == 10;
    }
  }

  lemma {:induction false} DecimalScans(n: nat, rest: string)
    requires rest == "" || !Digit(rest[0])
    ensures ScanInt(Decimal(n) + rest) == Some((n as int, rest))
  {
    var s := Decimal(n) + rest;
    assert s[0] == Numeral(n)[0];
    assert Skip(s) == s;
    DigitsOfNumeral(n, rest, 0);
  }

  lemma {:induction false} SpanOf(w: string, rest: string, stop: set<char>, most: nat)
    requires |w| <= most && forall i | 0 <= i < |w| :: w[i] !in stop
    requires rest == "" || rest[0] in stop
    ensures Span(w + rest, stop, most) == w
    decreases |w|
  {
    if w == "" {
      assert w + rest == rest;
    } else {
      assert (w + rest)[1..] == w[1..] + rest;
      SpanOf(w[1..], rest, stop, most - 1);
    }
  }

  lemma SkipBlank(s: string)
    requires s != "" && !Space(s[0])
    ensures Skip(" " + s) == s
  {
    assert (" " + s)[1..] == s;
  }

  lemma {:induction false} NextLineBehind(a: string, b: string)
    requires '\n' !in a
    ensures NextLine(a + b) == NextLine(b)
    decreases |a|
  {
    if a == "" {
      assert a + b == b;
    } else {
      assert (a + b)[1..] == a[1..] + b && (a + b)[0] == a[0];
      NextLineBehind(a[1..], b);
    }
  }

  lemma LineEnds(rest: string)
    ensures NextLine("\r\n" + rest) == Some(rest)
  {
    assert ("\r\n" + rest)[1..] == "\n" + rest && ("\n" + rest)[1..] == rest;
  }

  /** A word between blanks, short enough for the buffer of the scanner. */
  predicate Word(w: string) {
    0 < |w| <= 31 && forall i | 0 <= i < |w| :: !Space(w[i]) && w[i] !in SPACES
  }

  /** The port of a media line counts when it is in 1..65535 and the protocol is an RTP one. */
  lemma PortScans(media: string, port: nat, protocol: string, rest: string)
    requires Word(protocol) && rest != "" && rest[0] in SPACES
    ensures Port(media + (Decimal(port) + (" " + (protocol + rest))), media) ==
            if 0 < port <= 65535 && Find(protocol, "RTP").Some? then Some(port as int) else None
  {
    var line := media + (Decimal(port) + (" " + (protocol + rest)));
    assert line[|media|..] == Decimal(port) + (" " + (protocol + rest));
    DecimalScans(port, " " + (protocol + rest));
    assert (protocol + rest)[0] == protocol[0];
    SkipBlank(protocol + rest);
    SpanOf(protocol, rest, SPACES, 31);
  }

  /** As both parts of the built text write it. */
  lemma OwnPortScans(media: string, port: nat, rest: string)
    requires 1 <= port <= 65535 && rest != "" && rest[0] == ' '
    ensures Port(media + (Decimal(port) + (" RTP/AVP" + rest)), media) == Some(port as int)
  {
    var protocol := "RTP/AVP";
    assert " RTP/AVP" + rest == " " + (protocol + rest);
    PortScans(media, port, protocol, rest);
    assert "RTP" <= protocol;
  }

  lemma MapLineScans(payload: nat, codec: string, clock: string, rest: string)
    requires codec != "" && !Space(codec[0]) && |codec| <= 31
    requires forall i | 0 <= i < |codec| :: codec[i] !in {'/', '\r', '\n'}
    requires clock != "" && clock[0] == '/'
    ensures RtpMap(MapLine(payload, codec, clock, rest)) == Some((payload as int, codec))
  {
    var line, behind := MapLine(payload, codec, clock, rest), clock + (CR_LF + rest);
    assert line[9..] == Decimal(payload) + (" " + (codec + behind));
    DecimalScans(payload, " " + (codec + behind));
    SkipBlank(codec + behind);
    SpanOf(codec, behind, {'/', '\r', '\n'}, 31);
  }

  lemma NotRtpMap(line: string)
    requires line != "" && line[0] != 'a'
    ensures RtpMap(line) == None
  {
    var key := "a=rtpmap:";
    assert key[0] == 'a';
  }

  lemma SameNameAsItself(a: string)
    ensures SameName(a, a)
  {
  }

  lemma NotMedia(line: string)
    requires line != "" && line[0] != 'm'
    ensures !("m=" <= line)
  {
    var key := "m=";
    assert key[0] == 'm';
  }

  lemma NoNewline(n: nat)
    ensures '\n' !in Decimal(n) && Clean(Decimal(n)) && Decimal(n)[|Decimal(n)| - 1] != 'm'
  {
    assert forall i | 0 <= i < |Numeral(n)| :: Digit(Numeral(n)[i]);
  }

  // ------------------------------------------------------------ the built text

  lemma BehindFour(a: string, b: string, c: string, d: string, rest: string)
    requires '\n' !in a && '\n' !in b && '\n' !in c && '\n' !in d
    ensures NextLine(a + (b + (c + (d + rest)))) == NextLine(rest)
  {
    NextLineBehind(d, rest);
    NextLineBehind(c, d + rest);
    NextLineBehind(b, c + (d + rest));
    NextLineBehind(a, b + (c + (d + rest)));
  }

  lemma BehindMapLine(payload: nat, codec: string, clock: string, rest: string)
    requires '\n' !in codec && '\n' !in clock
    ensures NextLine(MapLine(payload, codec, clock, rest)) == Some(rest)
  {
    NoNewline(payload);
    LineEnds(rest);
    NextLineBehind(clock, CR_LF + rest);
    BehindFour("a=rtpmap:", Decimal(payload), " ", codec, clock + (CR_LF + rest));
  }

  lemma BehindPortLine(media: string, port: nat, formats: string, rest: string)
    requires '\n' !in media && '\n' !in formats
    ensures NextLine(media + (Decimal(port) + (" RTP/AVP" + (formats + (CR_LF + rest))))) == Some(rest)
  {
    NoNewline(port);
    LineEnds(rest);
    BehindFour(media, Decimal(port), " RTP/AVP", formats, CR_LF + rest);
  }

  /** A map line of another codec is passed by, one of this codec decides. */
  lemma MapLineCounts(payload: nat, codec: string, clock: string, rest: string, wanted: string)
    requires codec != "" && !Space(codec[0]) && |codec| <= 31 && '\n' !in codec && '\n' !in clock
    requires forall i | 0 <= i < |codec| :: codec[i] !in {'/', '\r', '\n'}
    requires clock != "" && clock[0] == '/'
    ensures PayloadIn(MapLine(payload, codec, clock, rest), wanted, false)
            == if SameName(codec, wanted) then payload else PayloadIn(rest, wanted, false)
  {
    MapLineScans(payload, codec, clock, rest);
    BehindMapLine(payload, codec, clock, rest);
    NotMedia(MapLine(payload, codec, clock, rest));
  }

  lemma MapsOfAudio(rest: string)
    ensures PayloadIn(MapLine(8, "PCMA", "/8000", MapLine(101, "telephone-event", "/8000", rest)), "telephone-event", false) == 101
  {
    MapLineCounts(8, "PCMA", "/8000", MapLine(101, "telephone-event", "/8000", rest), "telephone-event");
    MapLineCounts(101, "telephone-event", "/8000", rest, "telephone-event");
    SameNameAsItself("telephone-event");
  }

  /** The port line, which is where the walk begins, is passed by. */
  lemma PortLineIsPassed(line: string, next: string, codec: string)
    requires line != "" && line[0] == 'm' && NextLine(line) == Some(next)
    ensures PayloadIn(line, codec, true) == PayloadIn(next, codec, false)
  {
    NotRtpMap(line);
  }

  /** The audio section says 101 for telephone-event. */
  lemma AudioDtmf(port: nat, rest: string)
    ensures PayloadIn(AudioPart(port, rest), "telephone-event", true) == 101
  {
    var end := "a=fmtp:101 0-16\r\na=sendrecv\r\n" + rest;
    BehindPortLine("m=audio ", port, " 8 101", AudioMaps(rest));
    PortLineIsPassed(AudioPart(port, rest), AudioMaps(rest), "telephone-event");
    MapsOfAudio(end);
  }

  /** The video section says `payload` for H264. */
  lemma VideoPayload(port: nat, payload: nat)
    ensures PayloadIn(VideoPart(port, payload), "H264", true) == payload as int
  {
    var end := "a=fmtp:" + Decimal(payload) + " packetization-mode=1;profile-level-id=42e01e\r\na=sendonly\r\n";
    var second := MapLine(payload, "H264", "/90000", end);
    NoNewline(payload);
    var formats := " " + Decimal(payload);
    assert " " + (Decimal(payload) + (CR_LF + second)) == formats + (CR_LF + second);
    BehindPortLine("m=video ", port, formats, second);
    PortLineIsPassed(VideoPart(port, payload), second, "H264");
    MapLineCounts(payload, "H264", "/90000", end, "H264");
    SameNameAsItself("H264");
  }

  lemma FindHere(a: string, b: string)
    requires a != ""
    ensures Find(a + b, a) == Some(a + b)
  {
  }

  lemma FindBehindFour(a: string, b: string, c: string, d: string, rest: string, pattern: string)
    requires "m=" <= pattern && Clean(a) && Clean(b) && Clean(c) && Clean(d)
    requires Ends(a) && Ends(b) && Ends(c) && Ends(d)
    ensures Find(a + (b + (c + (d + rest))), pattern) == Find(rest, pattern)
  {
    FindBehind(d, rest, pattern);
    FindBehind(c, d + rest, pattern);
    FindBehind(b, c + (d + rest), pattern);
    FindBehind(a, b + (c + (d + rest)), pattern);
  }

  predicate Ends(s: string) {
    s != "" && s[|s| - 1] != 'm'
  }

  lemma MapLineHasNoMark(payload: nat, codec: string, clock: string, rest: string, pattern: string)
    requires "m=" <= pattern && Clean(codec) && Clean(clock) && Ends(codec) && Ends(clock)
    ensures Find(MapLine(payload, codec, clock, rest), pattern) == Find(rest, pattern)
  {
    NoNewline(payload);
    FindBehind(CR_LF, rest, pattern);
    FindBehind(clock, CR_LF + rest, pattern);
    FindBehindFour("a=rtpmap:", Decimal(payload), " ", codec, clock + (CR_LF + rest), pattern);
  }

  lemma MapsHaveNoMark(rest: string, pattern: string)
    requires "m=" <= pattern
    ensures Find(MapLine(8, "PCMA", "/8000", MapLine(101, "telephone-event", "/8000", rest)), pattern) == Find(rest, pattern)
  {
    MapLineHasNoMark(101, "telephone-event", "/8000", rest, pattern);
    MapLineHasNoMark(8, "PCMA", "/8000", MapLine(101, "telephone-event", "/8000", rest), pattern);
  }

  lemma PortLineHasNoMark(port: nat, rest: string, pattern: string)
    requires "m=" <= pattern
    ensures Find("=audio " + (Decimal(port) + (" RTP/AVP" + (" 8 101" + (CR_LF + rest)))), pattern) == Find(rest, pattern)
  {
    NoNewline(port);
    FindBehind(CR_LF, rest, pattern);
    FindBehindFour("=audio ", Decimal(port), " RTP/AVP", " 8 101", CR_LF + rest, pattern);
  }

  lemma AudioMapsHaveNoMark(rest: string, pattern: string)
    requires "m=" <= pattern
    ensures Find(AudioMaps(rest), pattern) == Find(rest, pattern)
  {
    FindBehind("a=fmtp:101 0-16\r\na=sendrecv\r\n", rest, pattern);
    MapsHaveNoMark("a=fmtp:101 0-16\r\na=sendrecv\r\n" + rest, pattern);
  }

  /** There is no video section inside the audio section. */
  lemma VideoIsBehindAudio(port: nat, rest: string)
    ensures Find(AudioPart(port, rest), "m=video ") == Find(rest, "m=video ")
  {
    AudioMapsHaveNoMark(rest, "m=video ");
    PortLineHasNoMark(port, AudioMaps(rest), "m=video ");
    NotVideo(Decimal(port) + (" RTP/AVP" + (" 8 101" + (CR_LF + AudioMaps(rest)))));
  }

  lemma NotVideo(rest: string)
    ensures Find("m=audio " + rest, "m=video ") == Find("=audio " + rest, "m=video ")
  {
    var s, key := "m=audio " + rest, "m=video ";
    assert s[2] == 'a' && key[2] == 'v';
    assert s[1..] == "=audio " + rest;
  }

  lemma HeadHasNoMark(ip: string, rest: string, pattern: string)
    requires Clean(ip) && "m=" <= pattern
    ensures Find(Head(ip, rest), pattern) == Find(rest, pattern)
  {
    var a, b, c := "v=0\r\no=wibox 123456 654321 IN IP4 ", "\r\ns=Wibox Media Session\r\nc=IN IP4 ", "\r\nt=0 0\r\n";
    WithoutM(a);
    WithoutM(b);
    WithoutM(c);
    FindBehind(c, rest, pattern);
    FindBehind(ip, c + rest, pattern);
    FindBehind(b, ip + (c + rest), pattern);
    FindBehind(ip, b + (ip + (c + rest)), pattern);
    FindBehind(a, ip + (b + (ip + (c + rest))), pattern);
  }

  lemma WithoutM(s: string)
    requires 'm' !in s
    ensures Clean(s) && forall rest :: Apart(s, rest)
  {
  }

  /** For every audio port in 1..65535, video port in 0..65535, payload type in 1..127 and address
      without "m=", parsing what was built gives these back, with DTMF payload 101 and, when there
      is no video, payload 0. */
  lemma ParseInvertsBuild(ip: string, audio: nat, video: nat, payload: nat, size: nat)
    requires 1 <= audio <= 65535 && video <= 65535 && 1 <= payload <= 127 && Clean(ip)
    requires Build(ip, audio, video, payload, size).Some?
    ensures Parse(Build(ip, audio, video, payload, size).value)
            == Media(audio, 101, video, if video > 0 then payload else 0)
  {
    var v := if video > 0 then VideoPart(video, payload) else "";
    HeadHasNoMark(ip, AudioPart(audio, v), "m=audio ");
    HeadHasNoMark(ip, AudioPart(audio, v), "m=video ");
    AudioStands(audio, v);
    AudioDtmf(audio, v);
    VideoIsBehindAudio(audio, v);
    if video > 0 {
      VideoStands(video, payload);
      VideoPayload(video, payload);
    }
  }

  lemma AudioStands(port: nat, rest: string)
    requires 1 <= port <= 65535
    ensures Find(AudioPart(port, rest), "m=audio ") == Some(AudioPart(port, rest))
    ensures Port(AudioPart(port, rest), "m=audio ") == Some(port as int)
  {
    var formats := " 8 101" + (CR_LF + AudioMaps(rest));
    FindHere("m=audio ", Decimal(port) + (" RTP/AVP" + formats));
    OwnPortScans("m=audio ", port, formats);
  }

  lemma VideoStands(port: nat, payload: nat)
    requires 1 <= port <= 65535
    ensures Find(VideoPart(port, payload), "m=video ") == Some(VideoPart(port, payload))
    ensures Port(VideoPart(port, payload), "m=video ") == Some(port as int)
  {
    var end := "a=fmtp:" + Decimal(payload) + " packetization-mode=1;profile-level-id=42e01e\r\na=sendonly\r\n";
    var formats := " " + (Decimal(payload) + (CR_LF + MapLine(payload, "H264", "/90000", end)));
    FindHere("m=video ", Decimal(port) + (" RTP/AVP" + formats));
    OwnPortScans("m=video ", port, formats);
  }

  // ------------------------------------------------------- what others may write

  /** The payload maps of a media section. */
  datatype Maps = NoMaps | Map(payload: nat, codec: string, clock: string, rest: Maps)

  predicate LegalMaps(maps: Maps) {
    maps.Map? ==>
      && maps.codec != "" && !Space(maps.codec[0]) && |maps.codec| <= 31
      && (forall i | 0 <= i < |maps.codec| :: maps.codec[i] !in {'/', '\r', '\n'})
      && maps.clock != "" && maps.clock[0] == '/' && '\n' !in maps.clock
      && Clean(maps.codec) && Clean(maps.clock) && Ends(maps.codec) && Ends(maps.clock)
      && LegalMaps(maps.rest)
  }

  function MapsText(maps: Maps, rest: string): string {
    if maps.NoMaps? then rest else MapLine(maps.payload, maps.codec, maps.clock, MapsText(maps.rest, rest))
  }

  /** The first map of a codec, whatever the case of its letters. */
  function FirstMap(maps: Maps, codec: string): Option<nat> {
    if maps.NoMaps? then None
    else if SameName(maps.codec, codec) then Some(maps.payload)
    else FirstMap(maps.rest, codec)
  }

  /** A media section: port, protocol and formats on its first line, then its maps. */
  datatype Section = Section(port: nat, protocol: string, formats: string, maps: Maps)

  predicate LegalSection(c: Section) {
    && Word(c.protocol) && Clean(c.protocol) && Ends(c.protocol)
    && c.formats != "" && c.formats[0] == ' ' && '\n' !in c.formats && Clean(c.formats) && Ends(c.formats)
    && LegalMaps(c.maps)
  }

  /** "m=audio " or "m=video " with the section behind it. */
  function SectionText(media: string, c: Section, rest: string): string {
    media + (Decimal(c.port) + (" " + (c.protocol + (c.formats + (CR_LF + MapsText(c.maps, rest))))))
  }

  /** The port a section is good for. */
  function GoodPort(c: Section): Option<int> {
    if 0 < c.port <= 65535 && Find(c.protocol, "RTP").Some? then Some(c.port) else None
  }

  /** What comes behind the last map ends the section. */
  predicate EndsSection(rest: string) {
    rest == "" || "m=" <= rest
  }

  lemma {:induction false} FirstMapCounts(maps: Maps, codec: string, rest: string)
    requires LegalMaps(maps) && EndsSection(rest)
    ensures PayloadIn(MapsText(maps, rest), codec, false) ==
            var found := FirstMap(maps, codec); if found.Some? then found.value else 0
    decreases maps
  {
    if maps.Map? {
      MapLineCounts(maps.payload, maps.codec, maps.clock, MapsText(maps.rest, rest), codec);
      FirstMapCounts(maps.rest, codec, rest);
    }
  }

  lemma {:induction false} MapsHaveNoMarkInside(maps: Maps, rest: string, pattern: string)
    requires LegalMaps(maps) && "m=" <= pattern
    ensures Find(MapsText(maps, rest), pattern) == Find(rest, pattern)
    decreases maps
  {
    if maps.Map? {
      MapLineHasNoMark(maps.payload, maps.codec, maps.clock, MapsText(maps.rest, rest), pattern);
      MapsHaveNoMarkInside(maps.rest, rest, pattern);
    }
  }

  /** The walk through a section finds its first map of the codec. */
  lemma SectionPayload(media: string, c: Section, rest: string, codec: string)
    requires LegalSection(c) && EndsSection(rest) && media != "" && media[0] == 'm' && '\n' !in media
    ensures PayloadIn(SectionText(media, c, rest), codec, true) ==
            var found := FirstMap(c.maps, codec); if found.Some? then found.value else 0
  {
    var next := MapsText(c.maps, rest);
    NoNewline(c.port);
    LineEnds(next);
    NextLineBehind(c.formats, CR_LF + next);
    BehindFour(media, Decimal(c.port), " ", c.protocol, c.formats + (CR_LF + next));
    PortLineIsPassed(SectionText(media, c, rest), next, codec);
    FirstMapCounts(c.maps, codec, rest);
  }

  lemma SectionStands(media: string, c: Section, rest: string)
    requires LegalSection(c) && media != ""
    ensures PortOf(SectionText(media, c, rest), media) == GoodPort(c)
    ensures Find(SectionText(media, c, rest), media) == Some(SectionText(media, c, rest))
  {
    var behind := c.formats + (CR_LF + MapsText(c.maps, rest));
    FindHere(media, Decimal(c.port) + (" " + (c.protocol + behind)));
    PortScans(media, c.port, c.protocol, behind);
  }

  lemma SectionBegins(media: string, c: Section, rest: string)
    requires "m=" <= media
    ensures "m=" <= SectionText(media, c, rest)
  {
  }

  lemma NothingToFind(pattern: string)
    requires pattern != ""
    ensures Find("", pattern) == None
  {
  }

  /** No section begins inside an audio section. */
  lemma NoVideoInside(c: Section, rest: string)
    requires LegalSection(c)
    ensures Find(SectionText("m=audio ", c, rest), "m=video ") == Find(rest, "m=video ")
  {
    var maps := MapsText(c.maps, rest);
    var behind := Decimal(c.port) + (" " + (c.protocol + (c.formats + (CR_LF + maps))));
    MapsHaveNoMarkInside(c.maps, rest, "m=video ");
    FindBehind(CR_LF, maps, "m=video ");
    FindBehind(c.formats, CR_LF + maps, "m=video ");
    NoNewline(c.port);
    FindBehindFour("=audio ", Decimal(c.port), " ", c.protocol, c.formats + (CR_LF + maps), "m=video ");
    NotVideo(behind);
  }

  /** For every description with an audio section and perhaps a video section behind it, whatever
      stands before them: a port counts when it is in 1..65535 and the protocol is an RTP one, the
      payload types are those of the first telephone-event and H264 maps of their own section, in
      any case of letters, and what is missing is 8000, 101, 0 and 0. */
  lemma ParseReadsOffers(head: string, audio: Section, video: Option<Section>)
    requires Clean(head) && LegalSection(audio) && (video.Some? ==> LegalSection(video.value))
    ensures var rest := if video.Some? then SectionText("m=video ", video.value, "") else "";
            var dtmf := FirstMap(audio.maps, "telephone-event");
            var media := Parse(head + SectionText("m=audio ", audio, rest));
            && media.audioPort == (if GoodPort(audio).Some? then GoodPort(audio).value else 8000)
            && media.dtmf == (if dtmf.Some? && dtmf.value > 0 then dtmf.value else 101)
            && media.videoPort == (if video.Some? && GoodPort(video.value).Some? then GoodPort(video.value).value else 0)
            && media.videoPayload == (if video.Some? && FirstMap(video.value.maps, "H264").Some?
                                      then FirstMap(video.value.maps, "H264").value else 0)
  {
    hide SectionText, FirstMap, LegalSection, PayloadIn, Find, GoodPort;
    var rest := if video.Some? then SectionText("m=video ", video.value, "") else "";
    var text := SectionText("m=audio ", audio, rest);
    if video.Some? { SectionBegins("m=video ", video.value, ""); }
    SectionBegins("m=audio ", audio, rest);
    FindBehind(head, text, "m=audio ");
    FindBehind(head, text, "m=video ");
    SectionStands("m=audio ", audio, rest);
    SectionPayload("m=audio ", audio, rest, "telephone-event");
    NoVideoInside(audio, rest);
    if video.Some? {
      SectionStands("m=video ", video.value, "");
      SectionPayload("m=video ", video.value, "", "H264");
    } else {
      NothingToFind("m=video ");
    }
  }

  /** Text without a media section leaves the defaults. */
  lemma NothingOffered(s: string)
    requires Clean(s)
    ensures Parse(s) == Media(8000, 101, 0, 0)
  {
    FindBehind(s, "", "m=audio ");
    FindBehind(s, "", "m=video ");
    assert s + "" == s;
  }

  lemma {:induction false} NumeralLength(n: nat, k: nat)
    requires n < Power(k) && k > 0
    ensures |Numeral(n)| <= k
    decreases k
  {
    if n >= 10 { NumeralLength(n / 10, k - 1); }
  }

  lemma MapLineLength(payload: nat, codec: string, clock: string, rest: string)
    requires payload < 1000
    ensures |MapLine(payload, codec, clock, rest)| <= 15 + |codec| + |clock| + |rest|
  {
    assert Power(3) == 1000;
    NumeralLength(payload, 3);
  }

  lemma AudioLength(port: nat, rest: string)
    requires port <= 65535
    ensures |AudioPart(port, rest)| <= 200 + |rest|
  {
    assert Power(5) == 100000;
    NumeralLength(port, 5);
    var end := "a=fmtp:101 0-16\r\na=sendrecv\r\n" + rest;
    MapLineLength(101, "telephone-event", "/8000", end);
    MapLineLength(8, "PCMA", "/8000", MapLine(101, "telephone-event", "/8000", end));
  }

  lemma VideoLength(port: nat, payload: nat)
    requires port <= 65535 && payload < 1000
    ensures |VideoPart(port, payload)| <= 200
  {
    assert Power(3) == 1000 && Power(5) == 100000;
    NumeralLength(port, 5);
    NumeralLength(payload, 3);
    var end := "a=fmtp:" + Decimal(payload) + " packetization-mode=1;profile-level-id=42e01e\r\na=sendonly\r\n";
    MapLineLength(payload, "H264", "/90000", end);
  }

  /** The text fits the buffer of 768 bytes its only caller has, for every dotted address. */
  lemma BuildFits(ip: string, audio: nat, video: nat, payload: nat)
    requires 0 < |ip| < 16 && 1 <= audio <= 65535 && video <= 65535 && 1 <= payload <= 127
    ensures Build(ip, audio, video, payload, 768).Some?
  {
    var v := if video > 0 then VideoPart(video, payload) else "";
    VideoLength(video, payload);
    AudioLength(audio, v);
  }

  // ------------------------------------------------------------------- the C code

  /** parse_payload_type. */
  method ParsePayloadType(sdp: string, media: string, codec: string) returns (payload: int)
    ensures payload == PayloadType(sdp, media, codec)
  {
    var section := Find(sdp, media);
    if section.None? { return 0; }
    var line, first := section.value, true;
    while line != ""
      invariant PayloadType(sdp, media, codec) == PayloadIn(line, codec, first)
      decreases |line|
    {
      if !first && "m=" <= line { return 0; }
      var found := RtpMap(line);
      if found.Some? && SameName(found.value.1, codec) { return found.value.0; }
      var next := NextLine(line);
      if next.None? { return 0; }
      line, first := next.value, false;
    }
    return 0;
  }

  /** sip_sdp_parse. */
  method ParseSdp(sdp: string) returns (media: Media)
    ensures media == Parse(sdp)
  {
    var audioPort, dtmf, videoPort := 8000, 101, 0;
    var line := Find(sdp, "m=audio ");
    if line.Some? {
      var port := Port(line.value, "m=audio ");
      if port.Some? { audioPort := port.value; }
    }
    line := Find(sdp, "m=video ");
    if line.Some? {
      var port := Port(line.value, "m=video ");
      if port.Some? { videoPort := port.value; }
    }
    var payload := ParsePayloadType(sdp, "m=audio ", "telephone-event");
    if payload > 0 { dtmf := payload; }
    payload := ParsePayloadType(sdp, "m=video ", "H264");
    media := Media(audioPort, dtmf, videoPort, payload);
  }
}

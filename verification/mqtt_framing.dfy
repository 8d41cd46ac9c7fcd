/** MQTT packets as src/sip_media/mqtt.c writes them to its socket and reads them from it (section
    2.2 of MQTT 3.1.1): type byte, remaining length in 7-bit groups, body. */
module MqttFraming {
  import opened Bytes
  import opened Wrappers

  /** The reader takes three length bytes, not the four of the standard. */
  const READ_LIMIT := 128 * 128 * 128
  const WRITE_LIMIT := 128 * 128 * 128 * 128

  const TOPIC_MAX := 255
  const MESSAGE_MAX := 511
  const BODY_MAX := 2048

  // ---------------------------------------------------------- remaining length

  /** Low group first, the top bit set on all groups but the last. */
  function Encode(n: nat): (e: seq<Byte>)
    ensures |e| >= 1
  {
    if n < 128 then [n as Byte] else [(n % 128 + 128) as Byte] + Encode(n / 128)
  }

  /** What any sequence of groups stands for. */
  function Value(e: seq<Byte>): nat {
    if e == [] then 0 else e[0] as int % 128 + 128 * Value(e[1..])
  }

  predicate Continued(e: seq<Byte>) {
    forall k | 0 <= k < |e| - 1 :: e[k] >= 128
  }

  /** The encoding stands for n, and no other is shorter. */
  lemma {:induction false} EncodeIsMinimal(n: nat)
    ensures var e := Encode(n); Value(e) == n && Continued(e) && e[|e| - 1] < 128
    ensures forall e | |e| >= 1 && Value(e) == n :: |Encode(n)| <= |e|
  {
    EncodeStandsFor(n);
    forall e: seq<Byte> | |e| >= 1 && Value(e) == n ensures |Encode(n)| <= |e| {
      EncodeIsShortest(e);
    }
  }

  lemma {:induction false} EncodeStandsFor(n: nat)
    ensures var e := Encode(n); Value(e) == n && Continued(e) && e[|e| - 1] < 128
  {
    if n >= 128 {
      EncodeStandsFor(n / 128);
      var e := Encode(n);
      assert e[1..] == Encode(n / 128);
      forall k | 0 <= k < |e| - 1 ensures e[k] >= 128 {
        assert k > 0 ==> e[k] == e[1..][k - 1];
      }
      assert e[|e| - 1] == e[1..][|e| - 2];
    }
  }

  lemma {:induction false} EncodeIsShortest(e: seq<Byte>)
    requires |e| >= 1
    ensures |Encode(Value(e))| <= |e|
    decreases |e|
  {
    if |e| > 1 {
      EncodeIsShortest(e[1..]);
      var low, high := e[0] as int % 128, Value(e[1..]);
      assert Value(e) == low + 128 * high && 0 <= low < 128;
      assert (low + 128 * high) / 128 == high;
    } else {
      assert e[1..] == [];
    }
  }

  lemma UpToTwoBytes(n: nat)
    ensures |Encode(n)| <= 1 <==> n < 128
    ensures |Encode(n)| <= 2 <==> n < 128 * 128
  {
  }

  lemma UpToThreeBytes(n: nat)
    ensures |Encode(n)| <= 3 <==> n < READ_LIMIT
  {
    UpToTwoBytes(n);
    UpToTwoBytes(n / 128);
  }

  lemma EncodedSize(n: nat)
    ensures |Encode(n)| <= 3 <==> n < READ_LIMIT
    ensures |Encode(n)| <= 4 <==> n < WRITE_LIMIT
  {
    UpToThreeBytes(n);
    UpToThreeBytes(n / 128);
  }

  // ------------------------------------------------------------------ one packet

  datatype Packet = Packet(kind: Byte, body: seq<Byte>)

  function Print(p: Packet): seq<Byte> {
    [p.kind] + Encode(|p.body|) + p.body
  }

  /** Weight of the group behind k groups. */
  function Weight(k: nat): nat {
    match k case 0 => 1 case 1 => 128 case 2 => 128 * 128 case _ => READ_LIMIT
  }

  /** The remaining length from position `at` on, k groups summing up to `sum` already read; and
      where the body begins. */
  function ReadLength(s: seq<Byte>, at: nat, k: nat, sum: nat): (r: Option<(nat, nat)>)
    ensures r.Some? ==> at < r.value.1 <= |s|
    decreases |s| - at
  {
    if at >= |s| || k >= 3 then None
    else
      var total := sum + s[at] as int % 128 * Weight(k);
      if s[at] >= 128 then ReadLength(s, at + 1, k + 1, total) else Some((total, at + 1))
  }

  /** A packet read, and where the next one begins. */
  datatype Got = Got(packet: Packet, next: nat)

  /** mqtt_read_packet into a buffer of `size`: too large a body is skipped and reported empty. */
  function Read(s: seq<Byte>, at: nat, size: nat): Option<Got> {
    if at >= |s| then None
    else match ReadLength(s, at + 1, 0, 0)
      case None => None
      case Some((length, start)) =>
        if start + length > |s| then None
        else Some(Got(Packet(s[at], if length <= size then s[start..start + length] else []), start + length))
  }

  /** The length read where an encoding stands: k groups before it leave room for 3 - k. */
  lemma {:induction false} ReadEncoded(s: seq<Byte>, at: nat, n: nat, k: nat, sum: nat)
    requires k <= 3 && at + |Encode(n)| <= |s|
    requires forall i | 0 <= i < |Encode(n)| :: s[at + i] == Encode(n)[i]
    ensures ReadLength(s, at, k, sum) ==
            if k + |Encode(n)| <= 3 then Some((sum + n * Weight(k), at + |Encode(n)|)) else None
    decreases n
  {
    hide Weight;
    assert s[at] == Encode(n)[0] && s[at] as int % 128 == n % 128 && (s[at] >= 128 <==> n >= 128);
    if n >= 128 && k < 3 {
      var rest := Encode(n / 128);
      forall i | 0 <= i < |rest| ensures s[at + 1 + i] == rest[i] { assert s[at + (i + 1)] == Encode(n)[i + 1]; }
      ReadEncoded(s, at + 1, n / 128, k + 1, sum + n % 128 * Weight(k));
      if k < 2 { Shifted(n, k); }
    }
  }

  lemma Shifted(n: nat, k: nat)
    requires k < 2
    ensures n % 128 * Weight(k) + n / 128 * Weight(k + 1) == n * Weight(k)
  {
  }

  /** A packet stands at a position, by position of its parts. */
  ghost predicate Stands(s: seq<Byte>, at: nat, p: Packet) {
    && at + Size(p) <= |s| && s[at] == p.kind
    && (forall i | 0 <= i < |Encode(|p.body|)| :: s[at + 1 + i] == Encode(|p.body|)[i])
    && s[at + 1 + |Encode(|p.body|)|..at + Size(p)] == p.body
  }

  function Size(p: Packet): nat {
    1 + |Encode(|p.body|)| + |p.body|
  }

  lemma PrintStands(before: seq<Byte>, p: Packet, after: seq<Byte>)
    ensures |Print(p)| == Size(p) && Stands(before + Print(p) + after, |before|, p)
  {
    var s, e := before + Print(p) + after, Encode(|p.body|);
    var at := |before|;
    forall k | 0 <= k < Size(p) ensures s[at + k] == Print(p)[k] {
    }
    forall i | 0 <= i < |e| ensures s[at + 1 + i] == e[i] {
      assert s[at + (1 + i)] == Print(p)[1 + i];
    }
    assert s[at + 1 + |e|..at + Size(p)] == p.body;
  }

  /** What a read at a packet gives; a body that does not fit its buffer is reported empty. */
  function Expected(at: nat, p: Packet, size: nat): Option<Got> {
    if |p.body| < READ_LIMIT then Some(Got(Packet(p.kind, if |p.body| <= size then p.body else []), at + Size(p)))
    else None
  }

  lemma ReadStanding(s: seq<Byte>, at: nat, p: Packet, size: nat)
    requires Stands(s, at, p)
    ensures Read(s, at, size) == Expected(at, p, size)
  {
    ReadEncoded(s, at + 1, |p.body|, 0, 0);
    EncodedSize(|p.body|);
  }

  /** A packet is read back, and the reader stands right behind it, whatever surrounds it, exactly
      when its body is shorter than 128^3 bytes; a longer one ends the connection. */
  lemma ReadPrinted(before: seq<Byte>, p: Packet, after: seq<Byte>, size: nat)
    ensures Read(before + Print(p) + after, |before|, size) == Expected(|before|, p, size)
  {
    PrintStands(before, p, after);
    ReadStanding(before + Print(p) + after, |before|, p, size);
  }

  // ---------------------------------------------------------------- many packets

  /** Packets in order, each with the size of the buffer it is read into. */
  datatype Traffic = End | Then(packet: Packet, size: nat, rest: Traffic)

  function PrintAll(t: Traffic): seq<Byte> {
    match t
    case End => []
    case Then(p, _, rest) => Print(p) + PrintAll(rest)
  }

  /** What the reads report: bodies that do not fit their buffer are empty. */
  function Reported(t: Traffic): seq<Packet> {
    match t
    case End => []
    case Then(p, size, rest) => [Packet(p.kind, if |p.body| <= size then p.body else [])] + Reported(rest)
  }

  /** One read per packet. */
  function ReadMany(s: seq<Byte>, at: nat, t: Traffic): Option<(seq<Packet>, nat)>
    decreases t
  {
    match t
    case End => Some(([], at))
    case Then(_, size, rest) =>
      var got := Read(s, at, size);
      if got.None? then None
      else
        var more := ReadMany(s, got.value.next, rest);
        if more.None? then None else Some(([got.value.packet] + more.value.0, more.value.1))
  }

  predicate AllShort(t: Traffic) {
    match t
    case End => true
    case Then(p, _, rest) => |p.body| < READ_LIMIT && AllShort(rest)
  }

  ghost predicate AllStand(s: seq<Byte>, at: nat, t: Traffic)
    decreases t
  {
    match t
    case End => at == |s|
    case Then(p, _, rest) => Stands(s, at, p) && AllStand(s, at + Size(p), rest)
  }

  lemma {:induction false} PrintAllStands(s: seq<Byte>, before: seq<Byte>, t: Traffic)
    requires s == before + PrintAll(t)
    ensures AllStand(s, |before|, t)
    decreases t
  {
    match t
    case End =>
    case Then(p, size, rest) =>
      Regroup(before, Print(p), PrintAll(rest));
      PrintStands(before, p, PrintAll(rest));
      PrintAllStands(s, before + Print(p), rest);
  }

  lemma {:induction false} ReadsFollowThePackets(s: seq<Byte>, at: nat, t: Traffic)
    requires AllStand(s, at, t)
    ensures ReadMany(s, at, t) == if AllShort(t) then Some((Reported(t), |s|)) else None
    decreases t
  {
    match t
    case End =>
    case Then(p, size, rest) =>
      ReadStanding(s, at, p, size);
      ReadsFollowThePackets(s, at + Size(p), rest);
  }

  /** A sequence of packets is read back packet by packet, every read ending on a boundary and
      oversized bodies drained and reported empty, for any buffer sizes, if and only if all bodies
      are shorter than 128^3 bytes. */
  lemma FramingStaysInSync(t: Traffic)
    ensures ReadMany(PrintAll(t), 0, t) == Some((Reported(t), |PrintAll(t)|)) <==> AllShort(t)
    ensures ReadMany(PrintAll(t), 0, t) == None <==> !AllShort(t)
  {
    assert [] + PrintAll(t) == PrintAll(t);
    PrintAllStands(PrintAll(t), [], t);
    ReadsFollowThePackets(PrintAll(t), 0, t);
  }

  // --------------------------------------------------------------------- publish

  function Str(text: seq<Byte>): (s: seq<Byte>)
    requires |text| < 0x1_0000
    ensures |s| == 2 + |text|
  {
    [(|text| / 256) as Byte, (|text| % 256) as Byte] + text
  }

  /** What mqtt_handle_publish makes of a body: topic and message, the message cut to its buffer. */
  function Delivered(body: seq<Byte>): Option<(seq<Byte>, seq<Byte>)> {
    if |body| < 2 then None
    else
      var n := U16(body[0], body[1]);
      if n == 0 || n > TOPIC_MAX || 2 + n > |body| then None
      else
        var message := body[2 + n..];
        Some((body[2..2 + n], if |message| > MESSAGE_MAX then message[..MESSAGE_MAX] else message))
  }

  /** What is published, wherever it stands in the stream, arrives as that topic and message if and
      only if the topic has 1 to 255 bytes, the message at most 511 and the body at most 2048.  With
      a longer message its first 511 bytes arrive; with any other topic or a longer body nothing. */
  lemma PublishedIsDelivered(before: seq<Byte>, kind: Byte, topic: seq<Byte>, message: seq<Byte>, after: seq<Byte>)
    requires |topic| < 0x1_0000
    ensures var p := Packet(kind, Str(topic) + message);
            var got := Read(before + Print(p) + after, |before|, BODY_MAX);
            (got.Some? && got.value.next == |before| + |Print(p)| && Delivered(got.value.packet.body) == Some((topic, message)))
            <==> 1 <= |topic| <= 255 && |message| <= 511 && |p.body| <= 2048
    ensures var p := Packet(kind, Str(topic) + message);
            var got := Read(before + Print(p) + after, |before|, BODY_MAX);
            got.Some? ==>
              Delivered(got.value.packet.body) ==
              if 1 <= |topic| <= 255 && |p.body| <= 2048
              then Some((topic, if |message| <= 511 then message else message[..511]))
              else None
  {
    hide Str, Print, Read;
    var body := Str(topic) + message;
    PrintStands(before, Packet(kind, body), after);
    ReadPrinted(before, Packet(kind, body), after, BODY_MAX);
    BodyDelivered(topic, message);
  }

  lemma BodyDelivered(topic: seq<Byte>, message: seq<Byte>)
    requires |topic| < 0x1_0000
    ensures Delivered(Str(topic) + message) ==
            if 1 <= |topic| <= 255 then Some((topic, if |message| <= 511 then message else message[..511])) else None
  {
    var body := Str(topic) + message;
    assert U16(body[0], body[1]) == |topic|;
    assert body[2..2 + |topic|] == topic && body[2 + |topic|..] == message;
  }

  // ------------------------------------------------------------------- the C code

  /** mqtt_encode_remaining; -1 when the buffer is too small. */
  method EncodeRemaining(out: array<Byte>, len: nat) returns (size: int)
    modifies out
    ensures size == (if |Encode(len)| <= out.Length then |Encode(len)| else -1)
    ensures size >= 0 ==> out[..size] == Encode(len)
  {
    var pos, left, more := 0, len, true;
    while more
      invariant pos <= out.Length
      invariant more ==> out[..pos] + Encode(left) == Encode(len)
      invariant !more ==> pos == |Encode(len)| && out[..pos] == Encode(len)
      decreases more, left
    {
      ghost var done, rest := out[..pos], left;
      var encoded := left % 128;
      left := left / 128;
      if left > 0 { encoded := encoded + 128; }
      if pos >= out.Length { return -1; }
      out[pos] := encoded as Byte;
      pos := pos + 1;
      more := left > 0;
      assert out[..pos] == done + [encoded as Byte];
      assert Encode(rest) == [encoded as Byte] + if more then Encode(left) else [];
      assert more ==> out[..pos] + Encode(left) == done + Encode(rest);
    }
    return pos;
  }

  /** A packet buffer with the position up to which it is filled. */
  class PacketBuffer {
    const buf: array<Byte>
    var pos: nat

    ghost predicate Valid()
      reads this
    {
      pos <= buf.Length
    }

    ghost function Text(): seq<Byte>
      requires Valid()
      reads this, buf
    {
      buf[..pos]
    }

    constructor (size: nat)
      ensures Valid() && fresh(buf) && buf.Length == size && pos == 0
    {
      buf := new Byte[size](_ => 0);
      pos := 0;
    }

    /** mqtt_append_bytes. */
    method AppendBytes(data: seq<Byte>) returns (ok: bool)
      requires Valid()
      modifies this`pos, buf
      ensures Valid() && ok == (old(pos) + |data| <= buf.Length)
      ensures Text() == if ok then old(Text()) + data else old(Text())
    {
      if pos + |data| > buf.Length { return false; }
      forall k | pos <= k < pos + |data| { buf[k] := data[k - pos]; }
      pos := pos + |data|;
      return true;
    }

    /** mqtt_append_u16 and mqtt_append_bytes under the limit of mqtt_append_str. */
    method AppendStr(text: seq<Byte>) returns (ok: bool)
      requires Valid()
      modifies this`pos, buf
      ensures Valid() && ok == (|text| < 0x1_0000 && old(pos) + 2 + |text| <= buf.Length)
      ensures ok ==> Text() == old(Text()) + Str(text)
    {
      if |text| > 65535 { return false; }
      ok := AppendBytes([(|text| / 256) as Byte, (|text| % 256) as Byte]);
      if !ok { return false; }
      ok := AppendBytes(text);
    }
  }

  /** The socket: what send() has taken, and what recv() still has to give. */
  class Connection {
    const incoming: seq<Byte>
    const cuts: nat -> nat
    const sendFails: set<nat>
    var pos: nat
    var sent: seq<Byte>

    constructor (incoming: seq<Byte>, cuts: nat -> nat, sendFails: set<nat>)
      ensures Valid() && pos == 0 && sent == []
      ensures this.incoming == incoming && this.cuts == cuts && this.sendFails == sendFails
    {
      this.incoming, this.cuts, this.sendFails, pos, sent := incoming, cuts, sendFails, 0, [];
    }

    ghost predicate Valid()
      reads this
    {
      pos <= |incoming|
    }

    /** socket_write_all: send() may take less, or fail at some position of the stream. */
    method WriteAll(data: seq<Byte>) returns (ok: bool)
      modifies this`sent
      ensures ok ==> sent == old(sent) + data
      ensures !ok ==> old(sent) <= sent <= old(sent) + data && |sent| in sendFails
    {
      var done := 0;
      while done < |data|
        invariant done <= |data| && sent == old(sent) + data[..done]
      {
        if |sent| in sendFails { return false; }
        var n := if cuts(|sent|) == 0 then 1 else cuts(|sent|);
        if n > |data| - done { n := |data| - done; }
        assert data[..done] + data[done..done + n] == data[..done + n];
        sent := sent + data[done..done + n];
        done := done + n;
      }
      assert data[..done] == data;
      return true;
    }

    /** socket_read_all. */
    method ReadAll(length: nat) returns (ok: bool, data: seq<Byte>)
      requires Valid()
      modifies this`pos
      ensures Valid() && ok == (old(pos) + length <= |incoming|)
      ensures ok ==> pos == old(pos) + length && data == incoming[old(pos)..pos]
    {
      data := [];
      while |data| < length
        invariant Valid() && |data| <= length && pos == old(pos) + |data| && data == incoming[old(pos)..pos]
      {
        if pos == |incoming| { return false, []; }
        var n := if cuts(pos) == 0 then 1 else cuts(pos);
        if n > length - |data| { n := length - |data|; }
        if n > |incoming| - pos { n := |incoming| - pos; }
        assert incoming[old(pos)..pos] + incoming[pos..pos + n] == incoming[old(pos)..pos + n];
        data := data + incoming[pos..pos + n];
        pos := pos + n;
      }
      return true, data;
    }

    /** The loop over the length bytes; None stands for an error. */
    method ReadRemaining() returns (r: Option<nat>)
      requires Valid()
      modifies this`pos
      ensures Valid()
      ensures var want := ReadLength(incoming, old(pos), 0, 0);
              if want.None? then r == None else r == Some(want.value.0) && pos == want.value.1
    {
      var multiplier: nat, remaining: nat, more := 1, 0, true;
      ghost var k := 0;
      while more
        invariant Valid() && k <= 3 && multiplier == Weight(k)
        invariant more ==> ReadLength(incoming, old(pos), 0, 0) == ReadLength(incoming, pos, k, remaining)
        invariant !more ==> ReadLength(incoming, old(pos), 0, 0) == Some((remaining, pos))
        decreases more, 3 - k
      {
        var ok, b := ReadAll(1);
        if !ok { return None; }
        remaining := remaining + b[0] as int % 128 * multiplier;
        multiplier := multiplier * 128;
        more := b[0] >= 128;
        if multiplier > 128 * 128 * 128 { return None; }
        k := k + 1;
      }
      return Some(remaining);
    }

    /** mqtt_read_packet with a buffer of `size`; None stands for an error. */
    method ReadPacket(size: nat) returns (r: Option<Packet>)
      requires Valid()
      modifies this`pos
      ensures Valid()
      ensures var want := Read(incoming, old(pos), size);
              if want.None? then r == None else r == Some(want.value.packet) && pos == want.value.next
    {
      var ok, kind := ReadAll(1);
      if !ok { return None; }
      var length := ReadRemaining();
      if length.None? { return None; }
      if length.value > size {
        ok := Drain(length.value);
        return if ok then Some(Packet(kind[0], [])) else None;
      }
      var body: seq<Byte>;
      ok, body := ReadAll(length.value);
      return if ok then Some(Packet(kind[0], body)) else None;
    }

    /** The loop that throws an oversized body away, 128 bytes at a time. */
    method Drain(length: nat) returns (ok: bool)
      requires Valid()
      modifies this`pos
      ensures Valid() && ok == (old(pos) + length <= |incoming|)
      ensures ok ==> pos == old(pos) + length
    {
      var left: nat := length;
      while left > 0
        invariant Valid() && left <= length && pos == old(pos) + (length - left)
      {
        var chunk := if left > 128 then 128 else left;
        var got, _ := ReadAll(chunk);
        if !got { return false; }
        left := left - chunk;
      }
      return true;
    }

    /** mqtt_send_packet: the whole packet, or part of it before an error. */
    method SendPacket(p: Packet) returns (ok: bool)
      modifies this`sent
      ensures ok ==> sent == old(sent) + Print(p)
      ensures !ok ==> old(sent) <= sent <= old(sent) + Print(p)
      ensures |p.body| >= WRITE_LIMIT ==> !ok && sent == old(sent)
      ensures !ok ==> |p.body| >= WRITE_LIMIT || |sent| in sendFails
    {
      var header := new Byte[4](_ => 0);
      var size := EncodeRemaining(header, |p.body|);
      EncodedSize(|p.body|);
      if size < 0 { return false; }
      var head := [p.kind] + header[..size];
      Regroup(old(sent), head, p.body);
      ok := WriteAll(head);
      if !ok { return false; }
      ok := WriteAll(p.body);
    }

    /** mqtt_publish_bytes on an open connection. */
    method Publish(topic: seq<Byte>, payload: seq<Byte>, retain: bool) returns (ok: bool)
      modifies this`sent
      ensures ok ==> |topic| < 0x1_0000
                     && sent == old(sent) + Print(Packet(if retain then 0x31 else 0x30, Str(topic) + payload))
      ensures |topic| >= 0x1_0000 ==> !ok && sent == old(sent)
      ensures !ok ==> |topic| >= 0x1_0000 || 2 + |topic| + |payload| >= WRITE_LIMIT || |sent| in sendFails
    {
      var body: seq<Byte>;
      ok, body := PublishBody(topic, payload);
      if !ok { return false; }
      var packet := Packet(if retain then 0x31 else 0x30, body);
      ok := SendPacket(packet);
    }
  }

  /** The buffer mqtt_publish_bytes fills, which is as large as it has to be. */
  method PublishBody(topic: seq<Byte>, payload: seq<Byte>) returns (ok: bool, body: seq<Byte>)
    ensures ok == (|topic| < 0x1_0000)
    ensures ok ==> body == Str(topic) + payload && |body| == 2 + |topic| + |payload|
  {
    hide Str;
    var packet := new PacketBuffer(2 + |topic| + |payload|);
    ok := packet.AppendStr(topic);
    if !ok { return false, []; }
    ok := packet.AppendBytes(payload);
    assert packet.Text() == Str(topic) + payload;
    body := packet.buf[..packet.pos];
  }

  /** mqtt_handle_publish up to the dispatch on the topic. */
  method HandlePublish(body: seq<Byte>) returns (r: Option<(seq<Byte>, seq<Byte>)>)
    ensures r == Delivered(body)
  {
    if |body| < 2 { return None; }
    var topicLength := U16(body[0], body[1]);
    if topicLength == 0 || topicLength >= 256 || 2 + topicLength > |body| { return None; }
    var message := body[2 + topicLength..];
    if |message| >= 512 { message := message[..511]; }
    return Some((body[2..2 + topicLength], message));
  }
}

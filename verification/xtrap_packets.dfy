/** How XTrap sends a datum to its client: in packets that fit an X event. */
module XTrapPackets {
  type Byte = b: int | 0 <= b < 256

  /** An event of 32 bytes less its header of 8. */
  const EVENT_DATA: nat := 24

  datatype Detail = Start | Continued | Last

  datatype Packet = Packet(detail: Detail, idx: nat, data: seq<Byte>)

  /** The data of the packets, one after the other. */
  function Joined(packets: seq<Packet>): seq<Byte> {
    if packets == [] then [] else Joined(packets[..|packets| - 1]) + packets[|packets| - 1].data
  }

  predicate AllZero(s: seq<Byte>) {
    forall i | 0 <= i < |s| :: s[i] == 0
  }

  /** The packets make up the first n bytes of the data: nothing but zeros, less than a packet of them, comes after. */
  predicate MakeUp(packets: seq<Packet>, data: seq<Byte>, n: nat)
    requires n <= |data|
  {
    && n <= |Joined(packets)| < n + EVENT_DATA
    && Joined(packets)[..n] == data[..n]
    && AllZero(Joined(packets)[n..])
  }

  /** Packets are full, and numbered from 0 on. */
  predicate Numbered(packets: seq<Packet>) {
    forall k | 0 <= k < |packets| :: packets[k].idx == k && |packets[k].data| == EVENT_DATA
  }

  /** Only the first packet is marked Start, and of several only the last is marked Last. */
  predicate Marked(packets: seq<Packet>, more: bool) {
    forall k | 0 <= k < |packets| ::
      packets[k].detail == if k == 0 then Start else if k == |packets| - 1 && !more then Last else Continued
  }

  lemma {:induction false} JoinedLength(packets: seq<Packet>)
    requires Numbered(packets)
    ensures |Joined(packets)| == EVENT_DATA * |packets|
  {
    if packets != [] {
      JoinedLength(packets[..|packets| - 1]);
    }
  }

  /** One more packet carries the next bytes. */
  lemma OneMore(packets: seq<Packet>, packet: Packet, data: seq<Byte>, total: nat, size: nat)
    requires total + size <= |data| && Joined(packets) == data[..total] && size <= EVENT_DATA == |packet.data|
    requires packet.data[..size] == data[total..total + size] && AllZero(packet.data[size..])
    ensures Joined(packets + [packet])[..total + size] == data[..total + size]
    ensures |Joined(packets + [packet])| == total + EVENT_DATA
    ensures AllZero(Joined(packets + [packet])[total + size..])
  {
    assert (packets + [packet])[..|packets|] == packets;
    var joined := Joined(packets + [packet]);
    assert joined == data[..total] + packet.data;
    assert joined[..total + size] == data[..total] + packet.data[..size];
    assert joined[total + size..] == packet.data[size..];
  }

  /** The copied bytes, padded with zeros. */
  function Body(data: seq<Byte>, from: nat, size: nat): (r: seq<Byte>)
    requires from + size <= |data| && size <= EVENT_DATA
    ensures |r| == EVENT_DATA
  {
    data[from..from + size] + seq(EVENT_DATA - size, i => 0)
  }

  /** The packets sent so far carry the first `total` bytes. */
  ghost predicate Progress(sent: seq<Packet>, data: seq<Byte>, nbytes: nat, total: nat)
    requires nbytes <= |data|
  {
    && total <= nbytes && Numbered(sent) && Marked(sent, total < nbytes)
    && (total < nbytes ==> Joined(sent) == data[..total] && total == EVENT_DATA * |sent|)
    && (total == nbytes ==> EVENT_DATA * |sent| < nbytes + EVENT_DATA && (sent != [] ==> MakeUp(sent, data, nbytes)))
    && (sent == [] <==> total == 0)
  }

  lemma NoneSent(data: seq<Byte>, nbytes: nat)
    requires nbytes <= |data|
    ensures Progress([], data, nbytes, 0)
  {}

  lemma BodyIs(data: seq<Byte>, from: nat, size: nat)
    requires from + size <= |data| && size <= EVENT_DATA
    ensures Body(data, from, size)[..size] == data[from..from + size] && AllZero(Body(data, from, size)[size..])
  {}

  lemma MarksGrow(sent: seq<Packet>, packet: Packet, more: bool)
    requires Marked(sent, true)
    requires packet.detail == if sent == [] then Start else if more then Continued else Last
    ensures Marked(sent + [packet], more)
  {}

  lemma OneSent(sent: seq<Packet>, data: seq<Byte>, nbytes: nat, total: nat, size: nat, packet: Packet)
    requires nbytes <= |data| && total < nbytes && Progress(sent, data, nbytes, total)
    requires size == if nbytes - total > EVENT_DATA then EVENT_DATA else nbytes - total
    requires packet.data == Body(data, total, size) && packet.idx == |sent|
    requires packet.detail == if sent == [] then Start else if total + size < nbytes then Continued else Last
    ensures Progress(sent + [packet], data, nbytes, total + size)
  {
    BodyIs(data, total, size);
    MarksGrow(sent, packet, total + size < nbytes);
    hide Marked, Body;
    OneMore(sent, packet, data, total, size);
    if size == EVENT_DATA {
      var joined := Joined(sent + [packet]);
      assert joined[..total + size] == joined;
    }
  }

  lemma AllSent(sent: seq<Packet>, data: seq<Byte>, nbytes: nat)
    requires nbytes <= |data| && Progress(sent, data, nbytes, nbytes)
    ensures Numbered(sent) && Marked(sent, false)
    ensures nbytes > 0 ==> MakeUp(sent, data, nbytes)
    ensures |sent| == (nbytes + EVENT_DATA - 1) / EVENT_DATA
  {
    JoinedLength(sent);
  }

  /**
    * XETrapWriteXLib: the first nbytes of the data go out in as many packets as they need; the result is the
    * number of bytes sent.
    */
  method WriteXLib(data: seq<Byte>, nbytes: nat) returns (sent: seq<Packet>, total: nat)
    requires nbytes <= |data|
    ensures total == nbytes
    ensures Numbered(sent) && Marked(sent, false)
    ensures nbytes > 0 ==> MakeUp(sent, data, nbytes)
    ensures |sent| == (nbytes + EVENT_DATA - 1) / EVENT_DATA
  {
    hide Joined, Numbered, Marked, MakeUp, AllZero;
    sent, total := [], 0;
    var detail, idx := Start, 0;
    var left: int := nbytes;
    NoneSent(data, nbytes);
    while left > 0
      invariant 0 <= left <= nbytes && total == nbytes - left && idx == |sent|
      invariant Progress(sent, data, nbytes, total)
      invariant sent == [] ==> detail == Start
    {
      var size := if left > EVENT_DATA then EVENT_DATA else left;
      var body: seq<Byte> := Body(data, total, size);
      ghost var before := sent;
      left := left - size;
      total := total + size;
      if total != size {
        detail := if left > 0 then Continued else Last;
      }
      sent := sent + [Packet(detail, idx, body)];
      OneSent(before, data, nbytes, total - size, size, Packet(detail, idx, body));
      idx := idx + 1;
    }
    AllSent(sent, data, nbytes);
  }

  // ---------- The receiver ----------

  /** The first datum of a stream: its packets are those before the next Start. */
  function FirstDatum(stream: seq<Packet>): (n: nat)
    ensures n <= |stream|
  {
    if |stream| <= 1 then |stream|
    else if stream[1].detail == Start then 1
    else 1 + FirstDatum(stream[1..])
  }

  /** Data that follow each other can be told apart, and the packets of each give it back. */
  lemma {:induction false} DatumIsFound(sent: seq<Packet>, rest: seq<Packet>)
    requires sent != [] && (rest != [] ==> rest[0].detail == Start)
    requires forall k | 0 < k < |sent| :: sent[k].detail != Start
    ensures FirstDatum(sent + rest) == |sent|
  {
    var stream := sent + rest;
    if |sent| == 1 {
      assert |stream| > 1 ==> stream[1] == rest[0];
    } else {
      assert stream[1] == sent[1];
      assert stream[1..] == sent[1..] + rest;
      DatumIsFound(sent[1..], rest);
    }
  }

  /** From a stream of packets the receiver gets back the datum, if it knows its length. */
  lemma Received(sent: seq<Packet>, rest: seq<Packet>, data: seq<Byte>, n: nat)
    requires 0 < n <= |data| && Numbered(sent) && Marked(sent, false) && MakeUp(sent, data, n)
    requires rest != [] ==> rest[0].detail == Start
    ensures var stream := sent + rest;
            var joined := Joined(stream[..FirstDatum(stream)]);
            n <= |joined| && joined[..n] == data[..n]
  {
    assert sent != [];
    DatumIsFound(sent, rest);
    assert (sent + rest)[..|sent|] == sent;
  }
}

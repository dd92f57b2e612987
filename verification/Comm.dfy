/** The typed messages that the UI and the process thread exchange over two rings. */
module Comm {
  import opened Bytes
  import opened Rings

  datatype RunState = Running | Paused

  /** The body of an event whose payload size is a 32-bit word. */
  type Body = s: seq<Byte> | TRANSFER_SIZE + |s| < TWO_TO_THE_32

  /** Control values are the bits of a float. */
  datatype Message =
    | ControlChange(port: U32, value: U32)
    | EventTransfer(port: U32, kind: U32, body: Body)
    | LatencyChange(latency: U32)
    | StateRequest
    | RunStateChange(state: RunState)

  // sizeof(JalvMessageHeader), sizeof(JalvControlChange), sizeof(JalvEventTransfer), sizeof(JalvRunStateChange)
  const HEADER_SIZE := 8
  const CONTROL_SIZE := 8
  const TRANSFER_SIZE := 12
  const RUN_STATE_SIZE := 4

  // JalvMessageType
  const CONTROL_PORT_CHANGE: U32 := 1
  const EVENT_TRANSFER: U32 := 2
  const LATENCY_CHANGE: U32 := 3
  const STATE_REQUEST: U32 := 4
  const RUN_STATE_CHANGE: U32 := 5

  function Type(m: Message): U32 {
    match m
    case ControlChange(_, _) => CONTROL_PORT_CHANGE
    case EventTransfer(_, _, _) => EVENT_TRANSFER
    case LatencyChange(_) => LATENCY_CHANGE
    case StateRequest => STATE_REQUEST
    case RunStateChange(_) => RUN_STATE_CHANGE
  }

  function StateWord(s: RunState): U32 {
    if s.Running? then 0 else 1
  }

  function Payload(m: Message): (s: seq<Byte>)
    ensures |s| < TWO_TO_THE_32
    ensures |s| == PayloadSize(m)
  {
    match m
    case ControlChange(port, value) => EncodeU32(port) + EncodeU32(value)
    case EventTransfer(port, kind, body) => EncodeU32(port) + EncodeU32(|body|) + EncodeU32(kind) + body
    case LatencyChange(latency) => EncodeU32(latency)
    case StateRequest => []
    case RunStateChange(state) => EncodeU32(StateWord(state))
  }

  function PayloadSize(m: Message): nat {
    match m
    case ControlChange(_, _) => CONTROL_SIZE
    case EventTransfer(_, _, body) => TRANSFER_SIZE + |body|
    case LatencyChange(_) => 4
    case StateRequest => 0
    case RunStateChange(_) => RUN_STATE_SIZE
  }

  function Header(m: Message): (s: seq<Byte>)
    ensures |s| == HEADER_SIZE
  {
    EncodeU32(Type(m)) + EncodeU32(|Payload(m)|)
  }

  function Encode(m: Message): (s: seq<Byte>)
    ensures |s| == HEADER_SIZE + PayloadSize(m)
  {
    Header(m) + Payload(m)
  }

  function EncodeAll(ms: seq<Message>): seq<Byte> {
    if ms == [] then [] else Encode(ms[0]) + EncodeAll(ms[1..])
  }

  lemma {:induction false} EncodeAllAppend(ms: seq<Message>, ns: seq<Message>)
    ensures EncodeAll(ms + ns) == EncodeAll(ms) + EncodeAll(ns)
  {
    hide Encode;
    if ms == [] {
      assert ms + ns == ns;
    } else {
      assert (ms + ns)[0] == ms[0] && (ms + ns)[1..] == ms[1..] + ns;
      EncodeAllAppend(ms[1..], ns);
    }
  }

  lemma EncodeAllSnoc(ms: seq<Message>, m: Message)
    ensures EncodeAll(ms + [m]) == EncodeAll(ms) + Encode(m)
  {
    hide Encode;
    EncodeAllAppend(ms, [m]);
    assert [m][1..] == [] && EncodeAll([m]) == Encode(m) + EncodeAll([]);
  }

  /** What messages of each type look like in the ring. */
  lemma WireFormat(port: U32, kind: U32, value: U32, body: Body)
    requires port < 0x100 && kind < 0x100 && value < 0x100 && TRANSFER_SIZE + |body| < 0x100
    ensures Encode(ControlChange(port, value)) == [1, 0, 0, 0, 8, 0, 0, 0, port, 0, 0, 0, value, 0, 0, 0]
    ensures Encode(EventTransfer(port, kind, body)) ==
      [2, 0, 0, 0, 12 + |body|, 0, 0, 0, port, 0, 0, 0, |body|, 0, 0, 0, kind, 0, 0, 0] + body
    ensures Encode(LatencyChange(value)) == [3, 0, 0, 0, 4, 0, 0, 0, value, 0, 0, 0]
    ensures Encode(StateRequest) == [4, 0, 0, 0, 0, 0, 0, 0]
    ensures Encode(RunStateChange(Running)) == [5, 0, 0, 0, 4, 0, 0, 0, 0, 0, 0, 0]
    ensures Encode(RunStateChange(Paused)) == [5, 0, 0, 0, 4, 0, 0, 0, 1, 0, 0, 0]
  {
    hide Encode;
    ControlFormat(port, value);
    TransferFormat(port, kind, body);
    OtherFormats(value);
  }

  lemma ControlFormat(port: U32, value: U32)
    requires port < 0x100 && value < 0x100
    ensures Encode(ControlChange(port, value)) == [1, 0, 0, 0, 8, 0, 0, 0, port, 0, 0, 0, value, 0, 0, 0]
  {
    hide EncodeU32, DecodeU32;
    WordFormat(1);
    WordFormat(8);
    WordFormat(port);
    WordFormat(value);
  }

  lemma TransferFormat(port: U32, kind: U32, body: Body)
    requires port < 0x100 && kind < 0x100 && TRANSFER_SIZE + |body| < 0x100
    ensures Encode(EventTransfer(port, kind, body)) ==
      [2, 0, 0, 0, 12 + |body|, 0, 0, 0, port, 0, 0, 0, |body|, 0, 0, 0, kind, 0, 0, 0] + body
  {
    hide EncodeU32, DecodeU32;
    WordFormat(2);
    WordFormat(12 + |body|);
    WordFormat(port);
    WordFormat(|body|);
    WordFormat(kind);
    var s := EncodeU32(2) + EncodeU32(12 + |body|) + EncodeU32(port) + EncodeU32(|body|) + EncodeU32(kind);
    assert s == [2, 0, 0, 0, 12 + |body|, 0, 0, 0, port, 0, 0, 0, |body|, 0, 0, 0, kind, 0, 0, 0];
    assert Encode(EventTransfer(port, kind, body)) == s + body;
  }

  lemma OtherFormats(value: U32)
    requires value < 0x100
    ensures Encode(LatencyChange(value)) == [3, 0, 0, 0, 4, 0, 0, 0, value, 0, 0, 0]
    ensures Encode(StateRequest) == [4, 0, 0, 0, 0, 0, 0, 0]
    ensures Encode(RunStateChange(Running)) == [5, 0, 0, 0, 4, 0, 0, 0, 0, 0, 0, 0]
    ensures Encode(RunStateChange(Paused)) == [5, 0, 0, 0, 4, 0, 0, 0, 1, 0, 0, 0]
  {
    hide EncodeU32, DecodeU32;
    WordFormat(0);
    WordFormat(1);
    WordFormat(3);
    WordFormat(4);
    WordFormat(5);
    WordFormat(value);
  }

  // ------------------------------------------------------------ decoding

  function HeaderType(s: seq<Byte>): U32
    requires |s| == HEADER_SIZE
  {
    DecodeU32(s[..4])
  }

  function HeaderBodySize(s: seq<Byte>): U32
    requires |s| == HEADER_SIZE
  {
    DecodeU32(s[4..])
  }

  /** A body of the given type as the receiver reads it; none for an unknown type or a body it would misread. */
  function DecodeBody(kind: U32, s: seq<Byte>): (m: seq<Message>)
    ensures |m| <= 1
  {
    if kind == CONTROL_PORT_CHANGE && |s| == CONTROL_SIZE then
      [ControlChange(DecodeU32(s[..4]), DecodeU32(s[4..]))]
    else if kind == EVENT_TRANSFER && TRANSFER_SIZE <= |s| < TWO_TO_THE_32
            && DecodeU32(s[4..8]) == |s| - TRANSFER_SIZE then
      [EventTransfer(DecodeU32(s[..4]), DecodeU32(s[8..12]), s[TRANSFER_SIZE..])]
    else if kind == LATENCY_CHANGE && |s| == 4 then
      [LatencyChange(DecodeU32(s))]
    else if kind == STATE_REQUEST && s == [] then
      [StateRequest]
    else if kind == RUN_STATE_CHANGE && |s| == RUN_STATE_SIZE && DecodeU32(s) <= 1 then
      [RunStateChange(if DecodeU32(s) == 0 then Running else Paused)]
    else
      []
  }

  /** A header read from the front of an encoded message announces its type and size, whatever follows. */
  lemma HeaderRoundTrip(m: Message, rest: seq<Byte>)
    ensures var s := Encode(m) + rest;
      && HeaderType(s[..HEADER_SIZE]) == Type(m)
      && HeaderBodySize(s[..HEADER_SIZE]) == PayloadSize(m)
      && s[HEADER_SIZE..] == Payload(m) + rest
  {
    hide DecodeU32, EncodeU32, Payload;
    var s := Encode(m) + rest;
    assert s[..HEADER_SIZE] == Header(m);
    assert Header(m)[..4] == EncodeU32(Type(m)) && Header(m)[4..] == EncodeU32(|Payload(m)|);
  }

  /** The rest of an encoded message is its payload, which decodes to the message. */
  lemma BodyRoundTrip(m: Message, rest: seq<Byte>)
    ensures (Payload(m) + rest)[..PayloadSize(m)] == Payload(m)
    ensures (Payload(m) + rest)[PayloadSize(m)..] == rest
    ensures DecodeBody(Type(m), Payload(m)) == [m]
  {
    hide DecodeU32, EncodeU32;
    match m
    case ControlChange(port, value) =>
      assert Payload(m)[..4] == EncodeU32(port) && Payload(m)[4..] == EncodeU32(value);
    case EventTransfer(port, kind, body) =>
      var s := Payload(m);
      assert s[..4] == EncodeU32(port) && s[4..8] == EncodeU32(|body|);
      assert s[8..12] == EncodeU32(kind) && s[TRANSFER_SIZE..] == body;
    case LatencyChange(_) =>
    case StateRequest =>
    case RunStateChange(_) =>
  }

  /** Two message sequences with the same bytes are the same: nothing can be merged or split. */
  lemma {:induction false} EncodeAllInjective(ms: seq<Message>, ns: seq<Message>)
    requires EncodeAll(ms) == EncodeAll(ns)
    ensures ms == ns
  {
    hide DecodeU32, EncodeU32, Payload, DecodeBody, HeaderType, HeaderBodySize;
    if ms != [] && ns != [] {
      HeaderRoundTrip(ms[0], EncodeAll(ms[1..]));
      HeaderRoundTrip(ns[0], EncodeAll(ns[1..]));
      BodyRoundTrip(ms[0], EncodeAll(ms[1..]));
      BodyRoundTrip(ns[0], EncodeAll(ns[1..]));
      EncodeAllInjective(ms[1..], ns[1..]);
    }
  }

  // ------------------------------------------------------------ encoders

  /** A message in two parts, in one transaction: the reader sees both parts or neither. */
  method WriteSplitMessage(target: Ring, header: seq<Byte>, body: seq<Byte>) returns (st: Status)
    requires target.Valid()
    modifies target
    ensures target.Valid()
    ensures st.Success? <==> |old(target.data)| + |header| + |body| <= target.capacity
    ensures target.data == if st.Success? then old(target.data) + header + body else old(target.data)
  {
    var tx := target.BeginWrite();
    st, tx := target.AmendWrite(tx, header);
    if st.Success? {
      st, tx := target.AmendWrite(tx, body);
      if st.Success? {
        st := target.CommitWrite(tx);
        assert old(target.data) + (header + body) == old(target.data) + header + body;
      }
    }
  }

  method WriteEvent(target: Ring, port: U32, kind: U32, body: seq<Byte>) returns (st: Status)
    requires target.Valid() && |body| < TWO_TO_THE_32
    modifies target
    ensures target.Valid()
    ensures st.Success? <==> |old(target.data)| + HEADER_SIZE + TRANSFER_SIZE + |body| <= target.capacity
    ensures st.Success? ==> TRANSFER_SIZE + |body| < TWO_TO_THE_32
    ensures target.data ==
      old(target.data) + if st.Success? then Encode(EventTransfer(port, kind, body)) else []
  {
    hide EncodeU32, DecodeU32;
    // The payload size is truncated to 32 bits, which no message that fits the ring notices
    var size := Wrap32(TRANSFER_SIZE + |body|);
    var header := EncodeU32(EVENT_TRANSFER) + EncodeU32(size)
                  + EncodeU32(port) + EncodeU32(|body|) + EncodeU32(kind);
    st := WriteSplitMessage(target, header, body);
    if st.Success? {
      assert header + body == Encode(EventTransfer(port, kind, body));
      assert old(target.data) + header + body == old(target.data) + (header + body);
    }
  }

  method WriteControl(target: Ring, port: U32, value: U32) returns (st: Status)
    requires target.Valid()
    modifies target
    ensures target.Valid()
    ensures st.Success? <==> |old(target.data)| + HEADER_SIZE + CONTROL_SIZE <= target.capacity
    ensures target.data == old(target.data) + if st.Success? then Encode(ControlChange(port, value)) else []
  {
    var msg := EncodeU32(CONTROL_PORT_CHANGE) + EncodeU32(CONTROL_SIZE) + EncodeU32(port) + EncodeU32(value);
    assert msg == Encode(ControlChange(port, value));
    var n := target.Write(msg);
    st := if n == |msg| then Success else Error;
  }

  // ------------------------------------------------------------ receiving

  /**
   Read the header of the message `m` from the front of a ring, after the writer may have committed
   more of the chunks `late`, of which it had committed `k`.
   */
  method ReceiveHeader(ring: Ring, ghost m: Message, ghost rest: seq<Byte>, late: seq<seq<Byte>>, k: nat)
    returns (count: nat, header: seq<Byte>, committed: nat)
    requires ring.Valid() && k <= |late|
    requires ring.data == Encode(m) + rest + Flatten(late[..k])
    modifies ring
    ensures ring.Valid() && k <= committed <= |late|
    ensures count == HEADER_SIZE == |header|
    ensures HeaderType(header) == Type(m) && HeaderBodySize(header) == PayloadSize(m)
    ensures ring.data == Payload(m) + rest + Flatten(late[..committed])
  {
    hide Payload, Encode, HeaderType, HeaderBodySize, Flatten;
    committed := ring.WriterRuns(late, k);
    assert ring.data == Encode(m) + (rest + Flatten(late[..committed]));
    HeaderRoundTrip(m, rest + Flatten(late[..committed]));
    count, header := ring.Read(HEADER_SIZE);
  }

  /** Read the body of the message `m`, likewise. */
  method ReceiveBody(ring: Ring, n: nat, ghost m: Message, ghost rest: seq<Byte>, late: seq<seq<Byte>>, k: nat)
    returns (count: nat, body: seq<Byte>, committed: nat)
    requires ring.Valid() && k <= |late| && n == PayloadSize(m)
    requires ring.data == Payload(m) + rest + Flatten(late[..k])
    modifies ring
    ensures ring.Valid() && k <= committed <= |late|
    ensures count == n && body == Payload(m) && ring.data == rest + Flatten(late[..committed])
  {
    hide Payload, DecodeBody, Flatten;
    committed := ring.WriterRuns(late, k);
    assert ring.data == Payload(m) + (rest + Flatten(late[..committed]));
    BodyRoundTrip(m, rest + Flatten(late[..committed]));
    count, body := ring.Read(n);
  }
}

/** The UI thread: it decodes the messages of the process thread and dispatches them. */
module UiUpdates {
  import opened Bytes
  import opened Rings
  import opened Comm
  import opened Evbuf

  /** Messages up to the first that the UI does not know. */
  function Known(ms: seq<Message>): (n: nat)
    ensures n <= |ms|
    ensures forall i | 0 <= i < n :: !ms[i].StateRequest? && !ms[i].RunStateChange?
    ensures n < |ms| ==> ms[n].StateRequest? || ms[n].RunStateChange?
  {
    if ms == [] || !ForUi(ms[0]) then 0 else 1 + Known(ms[1..])
  }

  lemma KnownAll(ms: seq<Message>)
    ensures (forall m | m in ms :: !m.StateRequest? && !m.RunStateChange?) ==>
              Known(ms) == |ms| && ms[..Known(ms)] == ms
  {
    if Known(ms) < |ms| {
      assert ms[Known(ms)] in ms;
    }
  }

  predicate ForUi(m: Message) {
    m.ControlChange? || m.EventTransfer? || m.LatencyChange?
  }

  lemma PrefixNext(base: seq<Message>, ms: seq<Message>, j: nat)
    requires j < |ms|
    ensures base + ms[..j] + [ms[j]] == base + ms[..j + 1]
  {
  }

  class Ui {
    const messageSize: nat
    const ring: Ring
    var updating: bool
    var dispatched: seq<Message>

    constructor (messageSize: nat, ring: Ring)
      ensures this.messageSize == messageSize && this.ring == ring
      ensures !updating && dispatched == []
    {
      this.messageSize, this.ring := messageSize, ring;
      updating, dispatched := false, [];
    }

    /** Dispatch what the body of a message of a type for the UI says. */
    method Dispatch(kind: U32, body: seq<Byte>, ghost m: Message)
      requires ForUi(m) && kind == Type(m) && body == Payload(m)
      modifies this
      ensures dispatched == old(dispatched) + [m] && updating == old(updating)
    {
      hide EncodeU32, DecodeU32;
      BodyRoundTrip(m, []);
      if kind == CONTROL_PORT_CHANGE {
        dispatched := dispatched + [ControlChange(DecodeU32(body[..4]), DecodeU32(body[4..]))];
      } else if kind == EVENT_TRANSFER {
        // The atom says its own size
        var size := DecodeU32(body[4..8]);
        var data := body[TRANSFER_SIZE..TRANSFER_SIZE + size];
        assert data == body[TRANSFER_SIZE..];
        dispatched := dispatched + [EventTransfer(DecodeU32(body[..4]), DecodeU32(body[8..12]), data)];
      } else {
        dispatched := dispatched + [LatencyChange(DecodeU32(body))];
      }
    }

    /** Read a whole message into the receive buffer. */
    method Receive(ghost m: Message, ghost rest: seq<Byte>, late: seq<seq<Byte>>, k: nat)
      returns (complete: bool, kind: U32, size: U32, body: seq<Byte>, committed: nat)
      requires ring.Valid() && k <= |late| && PayloadSize(m) <= messageSize
      requires ring.data == Encode(m) + rest + Flatten(late[..k])
      modifies ring
      ensures ring.Valid() && k <= committed <= |late|
      ensures complete && kind == Type(m) && size == PayloadSize(m) && body == Payload(m)
      ensures ring.data == rest + Flatten(late[..committed])
    {
      hide Type, HeaderType, HeaderBodySize, Payload, Encode, Flatten;
      var count, header;
      count, header, committed := ReceiveHeader(ring, m, rest, late, k);
      if count != HEADER_SIZE {
        complete := false;
        return;
      }
      kind, size := HeaderType(header), HeaderBodySize(header);
      assert size <= messageSize;
      count, body, committed := ReceiveBody(ring, size, m, rest, late, committed);
      complete := count == size;
    }

    /**
     Read and dispatch the messages that are in the ring on entry, here `ms`.  Before every read the
     process thread may commit more, here any of the chunks `late`.  `isOpen` says that there is a
     plugin, and `quit` that the done signal was posted.
     */
    method Update(isOpen: bool, quit: bool, ghost ms: seq<Message>, late: seq<seq<Byte>>)
      returns (r: int, committed: nat)
      requires ring.Valid() && ring.data == EncodeAll(ms)
      requires forall m | m in ms :: PayloadSize(m) <= messageSize
      modifies this, ring
      ensures ring.Valid() && committed <= |late|
      ensures !isOpen || quit ==>
                r == (if isOpen then -1 else 0)
                && dispatched == old(dispatched) && updating == old(updating) && ring.data == old(ring.data)
      ensures isOpen && !quit ==> r == 1 && !updating && dispatched == old(dispatched) + ms[..Known(ms)]
      ensures isOpen && !quit && (forall m | m in ms :: !m.StateRequest? && !m.RunStateChange?) ==>
                dispatched == old(dispatched) + ms && ring.data == Flatten(late[..committed])
      ensures isOpen && !quit && Known(ms) == |ms| ==> ring.data == Flatten(late[..committed])
      ensures isOpen && !quit && Known(ms) < |ms| ==>
                ring.data == EncodeAll(ms[Known(ms) + 1..]) + Flatten(late[..committed])
    {
      hide EncodeU32, DecodeU32, Payload, PayloadSize, Encode, Known;
      committed := 0;
      assert late[..0] == [] && Flatten([]) == [];
      hide Flatten;
      if !isOpen {
        return 0, 0;
      }
      if quit {
        return -1, 0;
      }
      updating := true;
      var space, i := |ring.data|, 0;
      ghost var j := 0;
      while i < space
        invariant ring.Valid() && committed <= |late|
        invariant j <= Known(ms)
        invariant i + |EncodeAll(ms[j..])| == space
        invariant ring.data == EncodeAll(ms[j..]) + Flatten(late[..committed])
        invariant dispatched == old(dispatched) + ms[..j]
        decreases space - i
      {
        ghost var m, rest := ms[j], EncodeAll(ms[j + 1..]);
        assert ms[j..][1..] == ms[j + 1..] && m in ms;
        var complete, kind, size, body;
        complete, kind, size, body, committed := Receive(m, rest, late, committed);
        if !complete {
          break;
        }
        if kind == CONTROL_PORT_CHANGE || kind == EVENT_TRANSFER || kind == LATENCY_CHANGE {
          Dispatch(kind, body, m);
        } else {
          break;
        }
        i := i + HEADER_SIZE + size;
        j := j + 1;
        PrefixNext(old(dispatched), ms, j - 1);
      }
      updating, r := false, 1;
      KnownAll(ms);
    }
  }

  // ------------------------------------------------- the size of the receive buffer

  /** What an output port asks for; the settings decide if it asks for nothing. */
  function BufferSize(requested: U32, default: U32): U32 {
    if requested != 0 then requested else default
  }

  /**
   The size of the receive buffer: the maximum over the output ports as they are created, when the
   default is `early`, and then of the default `late` that the backend has set by the end.
   */
  function MessageSize(outputs: seq<U32>, early: U32, late: U32): nat {
    if outputs == [] then late
    else
      var rest: nat, size: nat := MessageSize(outputs[1..], early, late), BufferSize(outputs[0], early);
      if rest > size then rest else size
  }

  lemma {:induction false} MessageSizeCovers(outputs: seq<U32>, early: U32, late: U32, p: nat)
    requires p < |outputs|
    ensures BufferSize(outputs[p], late) <= MessageSize(outputs, early, late)
  {
    if p > 0 {
      MessageSizeCovers(outputs[1..], early, late, p - 1);
    } else {
      MessageSizeAtLeast(outputs[1..], early, late);
    }
  }

  lemma {:induction false} MessageSizeAtLeast(outputs: seq<U32>, early: U32, late: U32)
    ensures late <= MessageSize(outputs, early, late)
  {
    if outputs != [] {
      MessageSizeAtLeast(outputs[1..], early, late);
    }
  }

  /** The size is no more than what is needed: whatever covers all that was asked for covers it. */
  lemma {:induction false} MessageSizeLeast(outputs: seq<U32>, early: U32, late: U32, bound: nat)
    requires late <= bound && forall requested | requested in outputs :: BufferSize(requested, early) <= bound
    ensures MessageSize(outputs, early, late) <= bound
  {
    if outputs != [] {
      MessageSizeLeast(outputs[1..], early, late, bound);
    }
  }

  /** A port gets what it asks for, and the default if it asks for nothing. */
  lemma MessageSizeAsked(outputs: seq<U32>, early: U32, late: U32, p: nat)
    requires p < |outputs|
    ensures outputs[p] <= MessageSize(outputs, early, late)
    ensures outputs[p] == 0 ==> late <= MessageSize(outputs, early, late)
  {
    MessageSizeCovers(outputs, early, late, p);
    MessageSizeAtLeast(outputs, early, late);
  }

  /**
   Whatever a plugin leaves in the buffer of an output port, as long as it keeps to its capacity, each
   event that is forwarded to the UI fits the buffer that the UI receives it in.
   */
  lemma ForwardedEventsFit(outputs: seq<U32>, early: U32, late: U32, p: nat, img: Image, es: seq<Event>, k: nat)
    requires p < |outputs| && img.capacity == BufferSize(outputs[p], late)
    requires Represents(img, es) && img.size <= img.capacity && k < |es|
    ensures TRANSFER_SIZE + |es[k].body| <= MessageSize(outputs, early, late)
  {
    hide RoundUp, EventsAt;
    MessageSizeCovers(outputs, early, late, p);
    InRange(img, es, k);
    OffsetMonotone(es, k, |es|);
    assert es[..|es|] == es;
    RoundUpAligned(img.size - ATOM_SIZE);
  }
}

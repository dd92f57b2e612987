/** The process thread: it decodes the messages of the UI and applies them to the plugin's ports. */
module Processing {
  import opened Bytes
  import opened Rings
  import opened Comm
  import opened Evbuf
  import opened Updates
  import opened Workers

  datatype ProcessStatus =
    | ProcessSuccess | SendUpdates | BadHeader | BadControlValue | BadEvent | BadStateChange | BadMessageType

  /**
   An event input port and the events that its buffer has accepted.  If some were written over others, it
   has the size of them all, and what it represents is another matter.
   */
  datatype Input =
    | NoInput
    | Input(capacity: U32, events: seq<Event>)
    | Overlaid(capacity: U32, events: seq<Event>)

  /** What messages act on; `get` is the body of the general patch:Get message and `object` its type. */
  datatype State = State(controls: seq<U32>, inputs: seq<Input>, runState: RunState)

  datatype Config = Config(messageSize: nat, controlIn: nat, objectType: U32, get: seq<Byte>)

  function Receive(input: Input, e: Event): Input {
    if input.NoInput? then input else input.(events := Append(input.capacity, input.events, e))
  }

  /** What the code asserts of a message: its port exists and its payload fits the receive buffer. */
  predicate Acceptable(c: Config, st: State, m: Message) {
    match m
    case ControlChange(port, _) => port < |st.controls|
    case EventTransfer(port, _, _) => port < |st.inputs| && !st.inputs[port].NoInput? && PayloadSize(m) <= c.messageSize
    case StateRequest => c.controlIn < |st.inputs| && !st.inputs[c.controlIn].NoInput?
    case RunStateChange(_) => true
    case LatencyChange(_) => false
  }

  function ApplyControl(controls: seq<U32>, m: Message): (r: seq<U32>)
    ensures |r| == |controls|
  {
    if m.ControlChange? && m.port < |controls| then controls[m.port := m.value] else controls
  }

  function ApplyRunState(s: RunState, m: Message): RunState {
    if m.RunStateChange? then m.state else s
  }

  /** The event that a message puts on a port: stamped with the end of the cycle. */
  function EventFor(c: Config, m: Message, port: nat, nframes: U32): seq<Event> {
    if m.EventTransfer? && m.port == port then [Event(nframes, m.kind, m.body)]
    else if m.StateRequest? && c.controlIn == port && |c.get| < TWO_TO_THE_32 then
      [Event(nframes, c.objectType, c.get)]
    else []
  }

  function ApplyInput(c: Config, input: Input, m: Message, port: nat, nframes: U32): Input {
    var es := EventFor(c, m, port, nframes);
    if es == [] then input else Receive(input, es[0])
  }

  function Apply(c: Config, st: State, m: Message, nframes: U32): (r: State)
    ensures |r.controls| == |st.controls| && |r.inputs| == |st.inputs|
  {
    State(ApplyControl(st.controls, m),
          seq(|st.inputs|, i requires 0 <= i < |st.inputs| => ApplyInput(c, st.inputs[i], m, i, nframes)),
          ApplyRunState(st.runState, m))
  }

  function ApplyAll(c: Config, st: State, ms: seq<Message>, nframes: U32): State
    decreases |ms|
  {
    if ms == [] then st else ApplyAll(c, Apply(c, st, ms[0], nframes), ms[1..], nframes)
  }

  predicate IsPause(m: Message) {
    m == RunStateChange(Paused)
  }

  /** The number of times that the paused signal is posted. */
  function Pauses(ms: seq<Message>): nat {
    if ms == [] then 0 else (if IsPause(ms[0]) then 1 else 0) + Pauses(ms[1..])
  }

  // ------------------------------------------- what the messages amount to

  /** The value that a port is left with: the last that was sent to it. */
  function LastControl(ms: seq<Message>, port: nat, initial: U32): U32 {
    if ms == [] then initial
    else
      var m := ms[|ms| - 1];
      if m.ControlChange? && m.port == port then m.value else LastControl(ms[..|ms| - 1], port, initial)
  }

  function LastRunState(ms: seq<Message>, initial: RunState): RunState {
    if ms == [] then initial
    else if ms[|ms| - 1].RunStateChange? then ms[|ms| - 1].state
    else LastRunState(ms[..|ms| - 1], initial)
  }

  function EventsFor(c: Config, ms: seq<Message>, port: nat, nframes: U32): seq<Event> {
    if ms == [] then [] else EventsFor(c, ms[..|ms| - 1], port, nframes) + EventFor(c, ms[|ms| - 1], port, nframes)
  }

  lemma {:induction false} ApplyAllSnoc(c: Config, st: State, ms: seq<Message>, m: Message, nframes: U32)
    ensures ApplyAll(c, st, ms + [m], nframes) == Apply(c, ApplyAll(c, st, ms, nframes), m, nframes)
    decreases |ms|
  {
    hide Apply;
    if ms == [] {
      assert [m][1..] == [];
    } else {
      assert (ms + [m])[0] == ms[0] && (ms + [m])[1..] == ms[1..] + [m];
      ApplyAllSnoc(c, Apply(c, st, ms[0], nframes), ms[1..], m, nframes);
    }
  }

  lemma ApplyOne(c: Config, st: State, m: Message, nframes: U32)
    requires Acceptable(c, st, m) && |c.get| < TWO_TO_THE_32
    ensures Apply(c, st, m, nframes) ==
      match m
      case ControlChange(port, value) => st.(controls := st.controls[port := value])
      case EventTransfer(port, kind, body) =>
        st.(inputs := st.inputs[port := Receive(st.inputs[port], Event(nframes, kind, body))])
      case StateRequest =>
        st.(inputs := st.inputs[c.controlIn := Receive(st.inputs[c.controlIn], Event(nframes, c.objectType, c.get))])
      case RunStateChange(s) => st.(runState := s)
      case LatencyChange(_) => st
    ensures forall n: Message | Acceptable(c, st, n) :: Acceptable(c, Apply(c, st, m, nframes), n)
  {
  }

  /** What an input is left with: of the events for it, those that fit are appended, in order. */
  function Delivered(c: Config, input: Input, ms: seq<Message>, port: nat, nframes: U32): Input {
    if input.NoInput? then input
    else input.(events := AppendAll(input.capacity, input.events, EventsFor(c, ms, port, nframes)))
  }

  lemma DeliveredNext(c: Config, input: Input, ms: seq<Message>, m: Message, port: nat, nframes: U32)
    ensures Delivered(c, input, ms + [m], port, nframes)
         == ApplyInput(c, Delivered(c, input, ms, port, nframes), m, port, nframes)
  {
    hide Append;
    assert (ms + [m])[..|ms|] == ms;
    var es, e := EventsFor(c, ms, port, nframes), EventFor(c, m, port, nframes);
    if e == [] {
      assert es + e == es;
    } else {
      assert (es + e)[..|es|] == es;
    }
  }

  /** Decoding in order makes the last write win, the last run state stand, and the events pile up as they fit. */
  lemma {:induction false} ApplyAllMeaning(c: Config, st: State, ms: seq<Message>, nframes: U32)
    ensures var r := ApplyAll(c, st, ms, nframes);
      && |r.controls| == |st.controls| && |r.inputs| == |st.inputs|
      && r.runState == LastRunState(ms, st.runState)
      && (forall p | 0 <= p < |st.controls| :: r.controls[p] == LastControl(ms, p, st.controls[p]))
      && (forall p | 0 <= p < |st.inputs| :: r.inputs[p] == Delivered(c, st.inputs[p], ms, p, nframes))
    decreases |ms|
  {
    hide ApplyInput, EventsFor, AppendAll;
    if ms == [] {
      forall p | 0 <= p < |st.inputs| ensures st.inputs[p] == Delivered(c, st.inputs[p], [], p, nframes) {
        DeliveredNone(c, st.inputs[p], p, nframes);
      }
    } else {
      var before, m := ms[..|ms| - 1], ms[|ms| - 1];
      assert ms == before + [m];
      ApplyAllSnoc(c, st, before, m, nframes);
      ApplyAllMeaning(c, st, before, nframes);
      forall p | 0 <= p < |st.inputs|
        ensures Delivered(c, st.inputs[p], ms, p, nframes)
             == ApplyInput(c, Delivered(c, st.inputs[p], before, p, nframes), m, p, nframes)
      {
        DeliveredNext(c, st.inputs[p], before, m, p, nframes);
      }
    }
  }

  lemma DeliveredNone(c: Config, input: Input, port: nat, nframes: U32)
    ensures Delivered(c, input, [], port, nframes) == input
  {
  }

  // ------------------------------------------------- the size of the receive buffer

  const MIN_MESSAGE_SIZE := 1024

  /** The size of the buffer that messages from the UI are received in, for event inputs of the given capacities. */
  function ReceiveSize(capacities: seq<U32>): nat {
    if capacities == [] then MIN_MESSAGE_SIZE
    else
      var rest := ReceiveSize(capacities[..|capacities| - 1]);
      if capacities[|capacities| - 1] > rest then capacities[|capacities| - 1] else rest
  }

  lemma {:induction false} ReceiveSizeCovers(capacities: seq<U32>, p: nat)
    requires p < |capacities|
    ensures capacities[p] <= ReceiveSize(capacities)
  {
    if p < |capacities| - 1 {
      ReceiveSizeCovers(capacities[..|capacities| - 1], p);
    }
  }

  /** The size is the greatest capacity, or the minimum, and no more. */
  lemma {:induction false} ReceiveSizeLeast(capacities: seq<U32>, bound: nat)
    requires MIN_MESSAGE_SIZE <= bound && forall p | 0 <= p < |capacities| :: capacities[p] <= bound
    ensures MIN_MESSAGE_SIZE <= ReceiveSize(capacities) <= bound
  {
    if capacities != [] {
      ReceiveSizeLeast(capacities[..|capacities| - 1], bound);
    }
  }

  /**
   An event that some input could take, if it were empty, can be received.  So a transfer that is too
   big to be received, which the source asserts that there is not, is of an event that no input could take.
   */
  lemma AcceptedCanBeReceived(capacities: seq<U32>, p: nat, e: Event)
    requires p < |capacities| && Append(capacities[p], [], e) != []
    ensures TRANSFER_SIZE + |e.body| <= ReceiveSize(capacities)
  {
    ReceiveSizeCovers(capacities, p);
  }

  // ------------------------------------------------- in place

  /** What a buffer holds of an input. */
  ghost predicate HoldsInput(img: Image, input: Input) {
    && !input.NoInput? && input.capacity == img.capacity
    && Sound(img) && img.isSequence && img.size == ATOM_SIZE + TotalSize(input.events)
    && (input.Input? ==> InputBuffer(img, input.events))
  }

  lemma InputHolds(img: Image, es: seq<Event>)
    requires InputBuffer(img, es)
    ensures HoldsInput(img, Input(img.capacity, es))
  {
    InputEnd(img, es);
  }

  lemma HoldsSound(img: Image, input: Input)
    requires HoldsInput(img, input)
    ensures Sound(img) && img.isSequence
  {
  }

  /** A write at the end makes the size that of one more event, or refuses it for its padded size. */
  lemma SizeAppended(img: Image, es: seq<Event>, e: Event)
    requires Sound(img) && img.isSequence && img.size == ATOM_SIZE + TotalSize(es)
    ensures Writable(img, End(img), e) && Sound(WriteAt(img, End(img), e))
    ensures WriteAt(img, End(img), e).size == ATOM_SIZE + TotalSize(Append(img.capacity, es, e))
  {
    hide RoundUp, Overwrite, Evbuf.Header, End;
    EndInside(img, e);
    SafeGuard(img.capacity, img.size, |e.body|);
    assert (es + [e])[..|es|] == es;
  }

  lemma HoldsAppended(img: Image, input: Input, e: Event)
    requires HoldsInput(img, input)
    ensures Writable(img, End(img), e)
    ensures HoldsInput(WriteAt(img, End(img), e), Receive(input, e))
  {
    hide Represents, Append, Refuses, SizeAfter, Overwrite, End, Sound, TotalSize;
    SizeAppended(img, input.events, e);
    if input.Input? {
      WriteAppends(img, input.events, e);
    }
  }

  /** A run of the plugin: for how many frames, and on what. */
  datatype PluginRun = PluginRun(nframes: U32, on: State)

  /** Messages up to the first that the process thread does not know. */
  function Known(ms: seq<Message>): (n: nat)
    ensures n <= |ms| && (forall i | 0 <= i < n :: !ms[i].LatencyChange?) && (n < |ms| ==> ms[n].LatencyChange?)
  {
    if ms == [] || ms[0].LatencyChange? then 0 else 1 + Known(ms[1..])
  }

  class Process {
    const config: Config
    const ring: Ring
    const controls: array<U32>
    const buffers: seq<EventBuffer?>
    const updateFrames: U32
    var runState: RunState
    var paused: nat
    var pendingFrames: U32
    ghost var inputs: seq<Input>
    /** The runs of the plugin so far. */
    ghost var runs: seq<PluginRun>

    /** As initialised: paused, with nothing posted or pending, and the buffers of the event inputs reset. */
    constructor (config: Config, ring: Ring, controls: array<U32>, buffers: seq<EventBuffer?>, updateFrames: U32)
      requires ring.Valid() && |config.get| < TWO_TO_THE_32
      requires forall i | 0 <= i < |buffers| && buffers[i] != null ::
        && buffers[i].buf as object != controls && buffers[i].Allocated()
        && InputBuffer(buffers[i].Img(), [])
      requires forall i, j | 0 <= i < j < |buffers| && buffers[i] != null && buffers[j] != null ::
        buffers[i] != buffers[j] && buffers[i].buf != buffers[j].buf
      ensures Valid() && runState == Paused && paused == 0 && pendingFrames == 0 && runs == []
      ensures |inputs| == |buffers| && forall i | 0 <= i < |buffers| ::
        inputs[i] == if buffers[i] == null then NoInput else Input(buffers[i].capacity, [])
      ensures this.config == config && this.ring == ring && this.controls == controls
      ensures this.buffers == buffers && this.updateFrames == updateFrames
    {
      this.config, this.ring, this.controls, this.buffers := config, ring, controls, buffers;
      this.updateFrames, runState, paused, pendingFrames := updateFrames, Paused, 0, 0;
      inputs := seq(|buffers|, i requires 0 <= i < |buffers| =>
        if buffers[i] == null then NoInput else Input(buffers[i].capacity, []));
      runs := [];
      new;
      forall i | 0 <= i < |buffers| && buffers[i] != null ensures HoldsInput(buffers[i].Img(), inputs[i]) {
        InputHolds(buffers[i].Img(), []);
      }
    }

    /** The event buffers of the input ports and their arrays; they never change. */
    ghost function Buffers(): set<object> {
      (set i | 0 <= i < |buffers| && buffers[i] != null :: buffers[i] as object)
      + (set i | 0 <= i < |buffers| && buffers[i] != null :: buffers[i].buf as object)
    }

    ghost function Repr(): set<object> {
      {this, ring, controls} + Buffers()
    }

    ghost predicate Separate() {
      && controls !in Buffers()
      && (forall i | 0 <= i < |buffers| && buffers[i] != null :: buffers[i].Allocated())
      && (forall i, j | 0 <= i < j < |buffers| && buffers[i] != null && buffers[j] != null ::
            buffers[i] != buffers[j] && buffers[i].buf != buffers[j].buf)
    }

    ghost predicate Holds(i: nat)
      requires i < |buffers| == |inputs|
      reads this`inputs, Buffers()
    {
      if buffers[i] == null then inputs[i] == NoInput else HoldsInput(buffers[i].Img(), inputs[i])
    }

    ghost predicate BuffersHold()
      reads this`inputs, Buffers()
    {
      |buffers| == |inputs| && forall i | 0 <= i < |buffers| :: Holds(i)
    }

    ghost predicate Valid()
      reads this, Repr()
    {
      Separate() && ring.Valid() && |config.get| < TWO_TO_THE_32 && BuffersHold()
    }

    ghost function St(): State
      reads this, controls
    {
      State(controls[..], inputs, runState)
    }

    /** Append an event to the buffer of a port, if it fits. */
    method Deliver(port: nat, e: Event)
      requires Valid() && port < |inputs| && !inputs[port].NoInput? && e.frames < TWO_TO_THE_32
      modifies Repr()
      ensures Valid()
      ensures inputs == old(inputs)[port := Receive(old(inputs)[port], e)]
      ensures controls[..] == old(controls[..]) && ring.data == old(ring.data)
      ensures runState == old(runState) && paused == old(paused)
      ensures pendingFrames == old(pendingFrames) && runs == old(runs)
    {
      hide InputBuffer, Represents, WriteAt, Append, Receive, HoldsInput;
      var buffer := buffers[port];
      assert Holds(port) && HoldsInput(buffer.Img(), inputs[port]);
      HoldsSound(buffer.Img(), inputs[port]);
      HoldsAppended(buffer.Img(), inputs[port], e);
      hide Sound;
      var ok := buffer.WriteAtEnd(e, inputs[port].events);
      inputs := inputs[port := Receive(inputs[port], e)];
      forall i | 0 <= i < |buffers| ensures Holds(i) {
        assert old(Holds(i));
        assert i != port && buffers[i] != null ==> buffers[i].Img() == old(buffers[i].Img());
      }
    }

    method SetControl(port: U32, value: U32)
      requires Valid() && port < controls.Length
      modifies controls
      ensures Valid()
      ensures controls[..] == old(controls[..])[port := value]
    {
      hide BuffersHold;
      controls[port] := value;
    }

    method ApplyControlChange(ghost m: Message, ghost rest: seq<Byte>, late: seq<seq<Byte>>, k: nat)
      returns (st: ProcessStatus, committed: nat)
      requires Valid() && k <= |late| && m.ControlChange? && m.port < controls.Length
      requires ring.data == Payload(m) + rest + Flatten(late[..k])
      modifies ring, controls
      ensures Valid() && k <= committed <= |late|
      ensures st == ProcessSuccess && ring.data == rest + Flatten(late[..committed])
      ensures controls[..] == old(controls[..])[m.port := m.value]
    {
      hide DecodeU32, EncodeU32, BuffersHold;
      var count, body;
      count, body, committed := ReceiveBody(ring, CONTROL_SIZE, m, rest, late, k);
      if count != CONTROL_SIZE {
        st := BadControlValue;
        return;
      }
      assert body[..4] == EncodeU32(m.port) && body[4..] == EncodeU32(m.value);
      SetControl(DecodeU32(body[..4]), DecodeU32(body[4..]));
      st := ProcessSuccess;
    }

    method ApplyEventTransfer(size: U32, nframes: U32, ghost m: Message, ghost rest: seq<Byte>,
                              late: seq<seq<Byte>>, k: nat)
      returns (st: ProcessStatus, committed: nat)
      requires Valid() && k <= |late| && m.EventTransfer? && m.port < |inputs| && !inputs[m.port].NoInput?
      requires size == PayloadSize(m) && ring.data == Payload(m) + rest + Flatten(late[..k])
      modifies Repr()
      ensures Valid() && k <= committed <= |late|
      ensures st == ProcessSuccess && ring.data == rest + Flatten(late[..committed])
      ensures inputs == old(inputs)[m.port := Receive(old(inputs)[m.port], Event(nframes, m.kind, m.body))]
      ensures controls[..] == old(controls[..]) && runState == old(runState)
      ensures paused == old(paused) && pendingFrames == old(pendingFrames) && runs == old(runs)
    {
      hide DecodeU32, EncodeU32, Holds, Receive;
      var count, body;
      count, body, committed := ReceiveBody(ring, size, m, rest, late, k);
      if count != size {
        st := BadEvent;
        return;
      }
      assert body[..4] == EncodeU32(m.port) && body[4..8] == EncodeU32(|m.body|);
      assert body[8..12] == EncodeU32(m.kind) && body[TRANSFER_SIZE..] == m.body;
      var data := body[TRANSFER_SIZE..TRANSFER_SIZE + DecodeU32(body[4..8])];
      assert data == m.body;
      Deliver(DecodeU32(body[..4]), Event(nframes, DecodeU32(body[8..12]), data));
      st := ProcessSuccess;
    }

    method ApplyRunStateChange(ghost m: Message, ghost rest: seq<Byte>, late: seq<seq<Byte>>, k: nat)
      returns (st: ProcessStatus, committed: nat)
      requires Valid() && k <= |late| && m.RunStateChange?
      requires ring.data == Payload(m) + rest + Flatten(late[..k])
      modifies this, ring
      ensures Valid() && k <= committed <= |late|
      ensures st == ProcessSuccess && ring.data == rest + Flatten(late[..committed])
      ensures runState == m.state && paused == old(paused) + if IsPause(m) then 1 else 0
      ensures inputs == old(inputs) && pendingFrames == old(pendingFrames) && runs == old(runs)
    {
      hide BuffersHold;
      var count, body;
      count, body, committed := ReceiveBody(ring, RUN_STATE_SIZE, m, rest, late, k);
      if count != RUN_STATE_SIZE {
        st := BadStateChange;
        return;
      }
      runState := if DecodeU32(body) == 0 then Running else Paused;
      if runState == Paused {
        paused := paused + 1;
      }
      st := ProcessSuccess;
    }

    /** Apply one message after its header. */
    method ApplyMessage(kind: U32, size: U32, nframes: U32, ghost m: Message, ghost rest: seq<Byte>,
                        late: seq<seq<Byte>>, k: nat)
      returns (st: ProcessStatus, committed: nat)
      requires Valid() && k <= |late| && kind == Type(m) && size == PayloadSize(m)
      requires ring.data == Payload(m) + rest + Flatten(late[..k])
      requires !m.LatencyChange? ==> Acceptable(config, St(), m)
      modifies Repr()
      ensures Valid() && k <= committed <= |late| && pendingFrames == old(pendingFrames) && runs == old(runs)
      ensures m.LatencyChange? ==>
                && st == BadMessageType && committed == k
                && ring.data == old(ring.data) && St() == old(St()) && paused == old(paused)
      ensures !m.LatencyChange? ==>
                && st == ProcessSuccess
                && ring.data == rest + Flatten(late[..committed])
                && St() == Apply(config, old(St()), m, nframes)
                && paused == old(paused) + if IsPause(m) then 1 else 0
    {
      hide Apply, Receive, Payload, Holds;
      committed := k;
      if !m.LatencyChange? {
        ApplyOne(config, St(), m, nframes);
      }
      if kind == CONTROL_PORT_CHANGE {
        st, committed := ApplyControlChange(m, rest, late, committed);
      } else if kind == EVENT_TRANSFER {
        st, committed := ApplyEventTransfer(size, nframes, m, rest, late, committed);
      } else if kind == STATE_REQUEST {
        assert Payload(m) == [];
        Deliver(config.controlIn, Event(nframes, config.objectType, config.get));
        st := ProcessSuccess;
      } else if kind == RUN_STATE_CHANGE {
        st, committed := ApplyRunStateChange(m, rest, late, committed);
      } else {
        st := BadMessageType;
      }
    }

    /**
     Read and apply the messages that are in the ring on entry, here `ms`.  Before every read the UI
     may commit more, here any of the chunks `late`; the first `committed` of them are what is left.
     */
    method ApplyUiEvents(nframes: U32, ghost ms: seq<Message>, late: seq<seq<Byte>>)
      returns (st: ProcessStatus, committed: nat)
      requires Valid() && ring.data == EncodeAll(ms)
      requires forall m | m in ms[..Known(ms)] :: Acceptable(config, St(), m)
      modifies Repr()
      ensures Valid() && committed <= |late|
      ensures St() == ApplyAll(config, old(St()), ms[..Known(ms)], nframes)
      ensures paused == old(paused) + Pauses(ms[..Known(ms)])
      ensures pendingFrames == old(pendingFrames) && runs == old(runs)
      ensures Known(ms) == |ms| ==> st == ProcessSuccess && ring.data == Flatten(late[..committed])
      ensures Known(ms) < |ms| ==>
                && st == BadMessageType
                && ring.data == Payload(ms[Known(ms)]) + EncodeAll(ms[Known(ms) + 1..]) + Flatten(late[..committed])
    {
      hide Apply, ApplyInput, HeaderType, HeaderBodySize, BuffersHold, Encode, Payload;
      var space, i := |ring.data|, 0;
      committed := 0;
      ghost var known, j := Known(ms), 0;
      assert ms[0..known] == ms[..known];
      while i < space
        invariant Valid() && committed <= |late|
        invariant j <= known
        invariant i + |EncodeAll(ms[j..])| == space
        invariant ring.data == EncodeAll(ms[j..]) + Flatten(late[..committed])
        invariant forall m | m in ms[j..known] :: Acceptable(config, St(), m)
        invariant ApplyAll(config, St(), ms[j..known], nframes) == ApplyAll(config, old(St()), ms[..known], nframes)
        invariant paused + Pauses(ms[j..known]) == old(paused) + Pauses(ms[..known])
        invariant pendingFrames == old(pendingFrames) && runs == old(runs)
        decreases space - i
      {
        ghost var m, rest := ms[j], EncodeAll(ms[j + 1..]);
        assert ms[j..][1..] == ms[j + 1..];
        var count, header;
        count, header, committed := ReceiveHeader(ring, m, rest, late, committed);
        if count != HEADER_SIZE {
          st := BadHeader;
          return;
        }
        ghost var before := St();
        assert j < known ==> ms[j..known][0] == m && ms[j..known][1..] == ms[j + 1..known];
        st, committed := ApplyMessage(HeaderType(header), HeaderBodySize(header), nframes, m, rest, late, committed);
        if st != ProcessSuccess {
          assert j == known;
          return;
        }
        ApplyOne(config, before, m, nframes);
        assert forall n | n in ms[j + 1..known] :: n in ms[j..known];
        i := i + HEADER_SIZE + HeaderBodySize(header);
        j := j + 1;
      }
      st := ProcessSuccess;
    }

    /** A worker and its responses are none of the process's own. */
    ghost predicate Apart(w: Worker?) {
      w != null ==> w as object !in Repr() && w.responses as object !in Repr()
    }

    /**
     A cycle that runs the plugin, on what the messages have been applied to.  The responses of both workers
     and the update counter follow.  An error from the messages hides that updates are due.
     */
    method Run(nframes: U32, stateWorker: Worker?, worker: Worker?, ghost ms: seq<Message>, late: seq<seq<Byte>>,
               fromState: Responses, fromWorker: Responses)
      returns (st: ProcessStatus, committed: nat, k: nat, n: nat)
      requires Valid() && ring.data == EncodeAll(ms)
      requires forall m | m in ms[..Known(ms)] :: Acceptable(config, St(), m)
      requires Apart(stateWorker) && Apart(worker)
      requires stateWorker != null && worker != null ==>
        stateWorker != worker && stateWorker.responses != worker.responses
      requires stateWorker != null ==>
        stateWorker.responses.Valid() && stateWorker.responses.data == Packets(fromState.queued)
      requires worker != null ==> worker.responses.Valid() && worker.responses.data == Packets(fromWorker.queued)
      modifies Repr()
      modifies if stateWorker == null then {} else {stateWorker, stateWorker.responses}
      modifies if worker == null then {} else {worker, worker.responses}
      ensures Valid() && committed <= |late| && k <= |fromState.late| && n <= |fromWorker.late|
      ensures St() == ApplyAll(config, old(St()), ms[..Known(ms)], nframes)
      ensures paused == old(paused) + Pauses(ms[..Known(ms)])
      ensures Known(ms) == |ms| ==> ring.data == Flatten(late[..committed])
      ensures runs == old(runs) + [PluginRun(nframes, St())]
      ensures stateWorker != null ==>
        && stateWorker.responses.data == []
        && stateWorker.responded == old(stateWorker.responded) + fromState.queued + fromState.late[..k]
        && stateWorker.ended == old(stateWorker.ended)
      ensures worker != null ==>
        && worker.responses.data == []
        && worker.responded == old(worker.responded) + fromWorker.queued + fromWorker.late[..n]
        && worker.ended == old(worker.ended) + (if worker.hasEndRun then 1 else 0)
      ensures pendingFrames == Tick(old(pendingFrames), updateFrames, nframes).0
      ensures st == if Known(ms) < |ms| then BadMessageType
                    else if Tick(old(pendingFrames), updateFrames, nframes).1 then SendUpdates
                    else ProcessSuccess
    {
      hide Valid, Repr, Apply, ApplyAll, Tick, Packets, Flatten, Known, EncodeAll;
      st, committed := RunPlugin(nframes, ms, late);
      k, n := FinishRun(stateWorker, worker, fromState, fromWorker);
      st := CountFrames(nframes, st);
    }

    /** What follows a run of the plugin in the workers leaves the process alone. */
    method FinishRun(stateWorker: Worker?, worker: Worker?, fromState: Responses, fromWorker: Responses)
      returns (k: nat, n: nat)
      requires Valid() && Apart(stateWorker) && Apart(worker)
      requires stateWorker != null && worker != null ==>
        stateWorker != worker && stateWorker.responses != worker.responses
      requires stateWorker != null ==>
        stateWorker.responses.Valid() && stateWorker.responses.data == Packets(fromState.queued)
      requires worker != null ==> worker.responses.Valid() && worker.responses.data == Packets(fromWorker.queued)
      modifies if stateWorker == null then {} else {stateWorker, stateWorker.responses}
      modifies if worker == null then {} else {worker, worker.responses}
      ensures Valid() && St() == old(St()) && ring.data == old(ring.data)
      ensures paused == old(paused) && pendingFrames == old(pendingFrames) && runs == old(runs)
      ensures k <= |fromState.late| && n <= |fromWorker.late|
      ensures stateWorker != null ==>
        && stateWorker.responses.data == []
        && stateWorker.responded == old(stateWorker.responded) + fromState.queued + fromState.late[..k]
        && stateWorker.ended == old(stateWorker.ended)
      ensures worker != null ==>
        && worker.responses.data == []
        && worker.responded == old(worker.responded) + fromWorker.queued + fromWorker.late[..n]
        && worker.ended == old(worker.ended) + (if worker.hasEndRun then 1 else 0)
    {
      hide HoldsInput, Packets;
      k, n := Worker.FinishRun(stateWorker, worker, fromState, fromWorker);
      forall i | 0 <= i < |buffers| ensures Holds(i) {
        assert old(Holds(i));
        assert buffers[i] != null ==> buffers[i].Img() == old(buffers[i].Img());
      }
    }

    method CountFrames(nframes: U32, before: ProcessStatus) returns (st: ProcessStatus)
      requires Valid()
      modifies this`pendingFrames
      ensures Valid()
      ensures pendingFrames == Tick(old(pendingFrames), updateFrames, nframes).0
      ensures st == if before == ProcessSuccess && Tick(old(pendingFrames), updateFrames, nframes).1
                    then SendUpdates else before
    {
      hide BuffersHold;
      st := before;
      if updateFrames != 0 {
        pendingFrames := Wrap32(pendingFrames + nframes);
        if pendingFrames > updateFrames {
          pendingFrames := 0;
          st := if st != ProcessSuccess then st else SendUpdates;
        }
      }
    }

    method RunPlugin(nframes: U32, ghost ms: seq<Message>, late: seq<seq<Byte>>)
      returns (st: ProcessStatus, committed: nat)
      requires Valid() && ring.data == EncodeAll(ms)
      requires forall m | m in ms[..Known(ms)] :: Acceptable(config, St(), m)
      modifies Repr()
      ensures Valid() && committed <= |late|
      ensures St() == ApplyAll(config, old(St()), ms[..Known(ms)], nframes)
      ensures paused == old(paused) + Pauses(ms[..Known(ms)])
      ensures Known(ms) == |ms| ==> ring.data == Flatten(late[..committed])
      ensures runs == old(runs) + [PluginRun(nframes, St())] && pendingFrames == old(pendingFrames)
      ensures st == if Known(ms) < |ms| then BadMessageType else ProcessSuccess
    {
      hide BuffersHold, Apply;
      st, committed := ApplyUiEvents(nframes, ms, late);
      runs := runs + [PluginRun(nframes, St())];
    }

    /** A cycle that does not run it: the messages are applied, and nothing else happens. */
    method Bypass(nframes: U32, ghost ms: seq<Message>, late: seq<seq<Byte>>)
      returns (r: int, committed: nat)
      requires Valid() && ring.data == EncodeAll(ms)
      requires forall m | m in ms[..Known(ms)] :: Acceptable(config, St(), m)
      modifies Repr()
      ensures Valid() && committed <= |late| && r == 0
      ensures St() == ApplyAll(config, old(St()), ms[..Known(ms)], nframes)
      ensures paused == old(paused) + Pauses(ms[..Known(ms)])
      ensures pendingFrames == old(pendingFrames) && runs == old(runs)
      ensures Known(ms) == |ms| ==> ring.data == Flatten(late[..committed])
    {
      var st;
      st, committed := ApplyUiEvents(nframes, ms, late);
      r := 0;
    }
  }
}

/** What the JACK process callback does with event ports, before and after the plugin runs. */
module Jack {
  import opened Bytes
  import opened Rings
  import opened Comm
  import opened Evbuf
  import opened Processing
  import opened Transports
  import opened Workers

  datatype Midi = Midi(time: U32, data: Data)

  // ------------------------------------------------------------ before

  function MidiEvent(m: Midi, kind: U32): Event {
    Event(m.time, kind, m.data)
  }

  function MidiEvents(midi: seq<Midi>, kind: U32): (es: seq<Event>)
    ensures |es| == |midi|
    ensures forall i | 0 <= i < |es| :: es[i] == MidiEvent(midi[i], kind)
  {
    if midi == [] then [] else MidiEvents(midi[..|midi| - 1], kind) + [MidiEvent(midi[|midi| - 1], kind)]
  }

  /** What is written to an event input before the plugin runs: the transport, if it is reported, then MIDI. */
  function CycleEvents(position: seq<Event>, midi: seq<Midi>, kind: U32): seq<Event> {
    position + MidiEvents(midi, kind)
  }

  /**
   The buffer, and the iterator, after attempts to write `es` one after the other through an iterator
   that starts at the beginning.
   */
  function Written(img: Image, es: seq<Event>): (r: (Image, U32))
    requires Sound(img)
    ensures Sound(r.0) && r.1 <= r.0.size - ATOM_SIZE
    ensures r.0.capacity == img.capacity && r.0.isSequence == img.isSequence
  {
    if es == [] then (img, 0)
    else
      var (before, offset) := Written(img, es[..|es| - 1]);
      var e := es[|es| - 1];
      WriteInside(before, offset, e);
      (WriteAt(before, offset, e), Evbuf.After(offset, e, !Refuses(before.capacity, before.size, |e.body|)))
  }

  /** The size grows as if the events were appended, wherever they are written. */
  lemma {:induction false} WrittenSize(img: Image, es: seq<Event>, more: seq<Event>)
    requires Sound(img) && img.size == ATOM_SIZE + TotalSize(es)
    ensures Written(img, more).0.size == ATOM_SIZE + TotalSize(AppendAll(img.capacity, es, more))
  {
    hide RoundUp, Overwrite, Evbuf.Header;
    if more != [] {
      var before, e := Written(img, more[..|more| - 1]).0, more[|more| - 1];
      WrittenSize(img, es, more[..|more| - 1]);
      SafeGuard(before.capacity, before.size, |e.body|);
      TotalSizeSnoc(AppendAll(img.capacity, es, more[..|more| - 1]), e);
    }
  }

  lemma TotalSizeSnoc(es: seq<Event>, e: Event)
    ensures TotalSize(es + [e]) == TotalSize(es) + PaddedSize(e)
  {
    assert (es + [e])[..|es|] == es;
  }

  /** In an empty buffer the iterator stays at the end, so that the events are appended. */
  lemma {:induction false} WrittenFromEmpty(img: Image, es: seq<Event>)
    requires InputBuffer(img, [])
    ensures InputBuffer(Written(img, es).0, AppendAll(img.capacity, [], es))
    ensures Written(img, es).1 == End(Written(img, es).0)
  {
    hide RoundUp, EventsAt, Overwrite, Evbuf.Header, Append;
    if es == [] {
      InputEnd(img, []);
    } else {
      var (before, offset) := Written(img, es[..|es| - 1]);
      var e, fs := es[|es| - 1], AppendAll(img.capacity, [], es[..|es| - 1]);
      WrittenFromEmpty(img, es[..|es| - 1]);
      WriteAppends(before, fs, e);
      InputEnd(before, fs);
      InputEnd(WriteAt(before, offset, e), Append(img.capacity, fs, e));
      SafeGuard(before.capacity, before.size, |e.body|);
    }
  }

  /** Events that fit together are all accepted. */
  lemma {:induction false} AllAccepted(capacity: U32, es: seq<Event>, more: seq<Event>)
    requires 2 * ATOM_SIZE + TotalSize(es) + TotalSize(more) <= capacity
    ensures AppendAll(capacity, es, more) == es + more
    ensures TotalSize(es + more) == TotalSize(es) + TotalSize(more)
  {
    hide PaddedSize;
    if more == [] {
      assert es + more == es;
    } else {
      var before := more[..|more| - 1];
      AllAccepted(capacity, es, before);
      assert es + more == es + before + [more[|more| - 1]];
      TotalSizeSnoc(es + before, more[|more| - 1]);
    }
  }

  /**
   The events of a cycle that fit together are what the buffer represents after they have been written
   exactly if the buffer was empty.
   */
  lemma IntendedExactlyIfEmpty(img: Image, es: seq<Event>, cycle: seq<Event>)
    requires InputBuffer(img, es) && cycle != []
    requires 2 * ATOM_SIZE + TotalSize(es) + TotalSize(cycle) <= img.capacity
    ensures Represents(Written(img, cycle).0, cycle) <==> es == []
  {
    hide RoundUp, EventsAt, Written, AppendAll;
    AllAccepted(img.capacity, es, cycle);
    InputEnd(img, es);
    WrittenSize(img, es, cycle);
    RoundUpAligned(Written(img, cycle).0.size - ATOM_SIZE);
    if es == [] {
      WrittenFromEmpty(img, cycle);
      assert es + cycle == cycle;
    }
  }

  /**
   Prepare an event input, which may begin with the events `es`.  `position` holds the transport report if
   the port supports it and the transport has changed; `midi` is what JACK has for the port, nothing
   without a system port.  The iterator starts at the beginning, so only an empty buffer ends up with
   the events intended.
   */
  method PreProcessEventInput(port: EventBuffer, position: seq<Event>, midi: seq<Midi>, kind: U32, ghost es: seq<Event>)
    requires port.Allocated() && Sound(port.Img())
    requires |position| <= 1 && forall e | e in position :: e.frames == 0
    modifies port, port.buf
    ensures port.Img() == Written(old(port.Img()), CycleEvents(position, midi, kind)).0
    ensures InputBuffer(old(port.Img()), es) ==>
              var cycle := CycleEvents(position, midi, kind);
              && port.atomSize == ATOM_SIZE + TotalSize(AppendAll(port.capacity, es, cycle))
              && (es == [] ==> InputBuffer(port.Img(), AppendAll(port.capacity, [], cycle)))
              && (cycle != [] && 2 * ATOM_SIZE + TotalSize(es) + TotalSize(cycle) <= port.capacity ==>
                    (Represents(port.Img(), cycle) <==> es == []))
  {
    hide AppendAll, InputBuffer, Represents, Sound, TotalSize, Written, MidiEvents;
    ghost var img := port.Img();
    WrittenNone(img);
    var offset: U32 := 0;
    if position != [] {
      offset := WriteNext(port, offset, position[0], img, []);
      assert [] + [position[0]] == position;
    }
    assert midi[..0] == [];
    CycleEventsNone(position, kind);
    for i := 0 to |midi|
      invariant port.Img() == Written(img, CycleEvents(position, midi[..i], kind)).0
      invariant offset == Written(img, CycleEvents(position, midi[..i], kind)).1
    {
      offset := WriteNext(port, offset, MidiEvent(midi[i], kind), img, CycleEvents(position, midi[..i], kind));
      CycleEventsNext(position, midi, i, kind);
    }
    assert midi[..|midi|] == midi;
    if InputBuffer(img, es) {
      Prepared(img, es, CycleEvents(position, midi, kind));
    }
  }

  /** One write through an iterator that advances; `done` has been written before. */
  method WriteNext(port: EventBuffer, offset: U32, e: Event, ghost img: Image, ghost done: seq<Event>)
    returns (next: U32)
    requires Sound(img) && e.frames < TWO_TO_THE_32
    requires (port.Img(), offset) == Written(img, done)
    modifies port, port.buf
    ensures (port.Img(), next) == Written(img, done + [e])
  {
    hide Sound, Evbuf.After, Overwrite, Refuses;
    assert (done + [e])[..|done|] == done;
    WritableInside(port.Img(), offset, e);
    var ok;
    ok, next := port.Write(offset, e.frames, e.kind, e.body);
  }

  lemma WrittenNone(img: Image)
    requires Sound(img)
    ensures Written(img, []) == (img, 0)
  {
  }

  lemma CycleEventsNone(position: seq<Event>, kind: U32)
    ensures CycleEvents(position, [], kind) == position
  {
  }

  lemma Prepared(img: Image, es: seq<Event>, cycle: seq<Event>)
    requires InputBuffer(img, es)
    ensures Written(img, cycle).0.size == ATOM_SIZE + TotalSize(AppendAll(img.capacity, es, cycle))
    ensures es == [] ==> InputBuffer(Written(img, cycle).0, AppendAll(img.capacity, [], cycle))
    ensures cycle != [] && 2 * ATOM_SIZE + TotalSize(es) + TotalSize(cycle) <= img.capacity ==>
              (Represents(Written(img, cycle).0, cycle) <==> es == [])
  {
    hide Written, AppendAll, TotalSize, Represents;
    InputEnd(img, es);
    WrittenSize(img, es, cycle);
    if es == [] {
      WrittenFromEmpty(img, cycle);
    }
    if cycle != [] && 2 * ATOM_SIZE + TotalSize(es) + TotalSize(cycle) <= img.capacity {
      IntendedExactlyIfEmpty(img, es, cycle);
    }
  }

  lemma CycleEventsNext(position: seq<Event>, midi: seq<Midi>, i: nat, kind: U32)
    requires i < |midi|
    ensures CycleEvents(position, midi[..i + 1], kind)
         == CycleEvents(position, midi[..i], kind) + [MidiEvent(midi[i], kind)]
  {
    assert midi[..i + 1][..i] == midi[..i];
  }

  lemma {:induction false} AppendAllTwice(capacity: U32, es: seq<Event>, more: seq<Event>, last: seq<Event>)
    ensures AppendAll(capacity, AppendAll(capacity, es, more), last) == AppendAll(capacity, es, more + last)
  {
    if last == [] {
      assert more + last == more;
    } else {
      AppendAllTwice(capacity, es, more, last[..|last| - 1]);
      assert (more + last)[..|more + last| - 1] == more + last[..|last| - 1];
    }
  }

  lemma {:induction false} EventsForStamped(c: Config, ms: seq<Message>, port: nat, nframes: U32)
    ensures forall e | e in EventsFor(c, ms, port, nframes) :: e.frames == nframes
  {
    if ms != [] {
      EventsForStamped(c, ms[..|ms| - 1], port, nframes);
    }
  }

  /** MIDI is in order and within the cycle. */
  predicate InCycle(midi: seq<Midi>, nframes: U32) {
    && (forall i | 0 <= i < |midi| :: midi[i].time < nframes)
    && (forall i, j | 0 <= i < j < |midi| :: midi[i].time <= midi[j].time)
  }

  lemma LowOfWord(m: Midi, kind: U32)
    ensures MidiOf(MidiEvent(m, kind)) == m
  {
  }

  lemma {:induction false} MidiOutAppend(es: seq<Event>, fs: seq<Event>, kind: U32)
    ensures MidiOut(es + fs, kind) == MidiOut(es, kind) + MidiOut(fs, kind)
  {
    hide Low32;
    if fs == [] {
      assert es + fs == es;
    } else {
      assert (es + fs)[..|es + fs| - 1] == es + fs[..|fs| - 1];
      MidiOutAppend(es, fs[..|fs| - 1], kind);
    }
  }

  /**
   MIDI that goes through a plugin unchanged comes out of it unchanged, and the events of other types that
   are on the same port do not come out as MIDI.
   */
  lemma {:induction false} MidiRoundTrip(others: seq<Event>, midi: seq<Midi>, kind: U32)
    requires forall e | e in others :: e.kind != kind
    ensures MidiOut(CycleEvents(others, midi, kind), kind) == midi
  {
    hide Low32, MidiOf;
    MidiOutAppend(others, MidiEvents(midi, kind), kind);
    MidiOutNone(others, kind);
    MidiOutAll(midi, kind);
  }

  lemma {:induction false} MidiOutNone(es: seq<Event>, kind: U32)
    requires forall e | e in es :: e.kind != kind
    ensures MidiOut(es, kind) == []
  {
    if es != [] {
      MidiOutNone(es[..|es| - 1], kind);
    }
  }

  lemma {:induction false} MidiOutAll(midi: seq<Midi>, kind: U32)
    ensures MidiOut(MidiEvents(midi, kind), kind) == midi
  {
    hide Low32, MidiOf;
    if midi != [] {
      var n := |midi| - 1;
      var es := MidiEvents(midi, kind);
      MidiOutAll(midi[..n], kind);
      LowOfWord(midi[n], kind);
      assert es[..n] == MidiEvents(midi[..n], kind) && es[n] == MidiEvent(midi[n], kind);
      assert midi == midi[..n] + [midi[n]];
    }
  }

  lemma CycleEventsOrdered(position: seq<Event>, midi: seq<Midi>, kind: U32, nframes: U32)
    requires |position| <= 1 && (forall e | e in position :: e.frames == 0) && InCycle(midi, nframes)
    ensures TimeOrdered(CycleEvents(position, midi, kind))
    ensures forall e | e in CycleEvents(position, midi, kind) :: e.frames <= nframes
  {
    hide MidiEvents;
    var es := CycleEvents(position, midi, kind);
    forall i, j | 0 <= i < j < |es| ensures es[i].frames <= es[j].frames {
      if i < |position| {
        assert position[i] in position;
      }
    }
  }

  lemma StampedLast(before: seq<Event>, last: seq<Event>, nframes: U32)
    requires TimeOrdered(before) && forall e | e in before :: e.frames <= nframes
    requires forall e | e in last :: e.frames == nframes
    ensures TimeOrdered(before + last)
  {
    var all := before + last;
    forall i, j | 0 <= i < j < |all| ensures all[i].frames <= all[j].frames {
      if i < |before| {
        assert all[i] == before[i] && before[i] in before;
      }
      if j >= |before| {
        assert all[j] in last;
      }
    }
  }

  /**
   What a plugin sees on an event input is ordered in time: from an empty buffer, the transport and
   sorted MIDI within the cycle, and then whatever the UI sent, of which any events may not have fit.
   */
  lemma InputsTimeOrdered(c: Config, st: State, ms: seq<Message>, port: nat, nframes: U32,
                          position: seq<Event>, midi: seq<Midi>, kind: U32)
    requires port < |st.inputs| && st.inputs[port].Input?
    requires st.inputs[port].events == AppendAll(st.inputs[port].capacity, [], CycleEvents(position, midi, kind))
    requires |position| <= 1 && (forall e | e in position :: e.frames == 0) && InCycle(midi, nframes)
    ensures |ApplyAll(c, st, ms, nframes).inputs| == |st.inputs| && ApplyAll(c, st, ms, nframes).inputs[port].Input?
    ensures TimeOrdered(ApplyAll(c, st, ms, nframes).inputs[port].events)
  {
    hide ApplyAll, AppendAll, CycleEvents, EventsFor, TimeOrdered, InCycle;
    var before, ui := CycleEvents(position, midi, kind), EventsFor(c, ms, port, nframes);
    ApplyAllMeaning(c, st, ms, nframes);
    CycleEventsOrdered(position, midi, kind, nframes);
    EventsForStamped(c, ms, port, nframes);
    StampedLast(before, ui, nframes);
    AppendAllTwice(st.inputs[port].capacity, [], before, ui);
    assert [] + (before + ui) == before + ui;
    AppendAllOrdered(st.inputs[port].capacity, [], before + ui);
  }

  // ------------------------------------------------------------ a whole cycle

  /** What there is for a port in a cycle. */
  datatype Arrival = Arrival(position: seq<Event>, midi: seq<Midi>)

  predicate Arrivals(arrivals: seq<Arrival>) {
    forall a | a in arrivals :: |a.position| <= 1 && forall e | e in a.position :: e.frames == 0
  }

  /** An input after the events of a cycle have been written to it from the beginning. */
  function PreparedInput(input: Input, cycle: seq<Event>): Input {
    if input.NoInput? || cycle == [] then input
    else if input.Input? && input.events == [] then Input(input.capacity, AppendAll(input.capacity, [], cycle))
    else Overlaid(input.capacity, AppendAll(input.capacity, input.events, cycle))
  }

  function PreparedState(st: State, arrivals: seq<Arrival>, kind: U32): State
    requires |arrivals| == |st.inputs|
  {
    st.(inputs := seq(|st.inputs|, p requires 0 <= p < |st.inputs| =>
      PreparedInput(st.inputs[p], CycleEvents(arrivals[p].position, arrivals[p].midi, kind))))
  }

  lemma WrittenHolds(img: Image, input: Input, cycle: seq<Event>)
    requires HoldsInput(img, input)
    ensures Sound(img) && HoldsInput(Written(img, cycle).0, PreparedInput(input, cycle))
  {
    hide Represents, SafeCapacity, SafeSize, WriteAt, Append, TotalSize;
    WrittenSize(img, input.events, cycle);
    if cycle == [] {
      WrittenNone(img);
    } else if input.Input? && input.events == [] {
      WrittenFromEmpty(img, cycle);
      InputHolds(Written(img, cycle).0, AppendAll(img.capacity, [], cycle));
    }
  }

  method PrepareInput(proc: Process, p: nat, a: Arrival, kind: U32)
    requires proc.Valid() && p < |proc.inputs| && !proc.inputs[p].NoInput? && Arrivals([a])
    modifies proc`inputs, proc.Buffers()
    ensures proc.Valid()
    ensures proc.inputs ==
      old(proc.inputs)[p := PreparedInput(old(proc.inputs[p]), CycleEvents(a.position, a.midi, kind))]
  {
    hide HoldsInput, CycleEvents, PreparedInput, Written, InputBuffer, Represents, TotalSize, AppendAll, Sound;
    ghost var input := proc.inputs[p];
    assert proc.Holds(p) && a in [a];
    var buffer := proc.buffers[p];
    WrittenHolds(buffer.Img(), input, CycleEvents(a.position, a.midi, kind));
    PreProcessEventInput(buffer, a.position, a.midi, kind, []);
    proc.inputs := proc.inputs[p := PreparedInput(input, CycleEvents(a.position, a.midi, kind))];
    forall i | 0 <= i < |proc.buffers| ensures proc.Holds(i) {
      assert old(proc.Holds(i));
      assert i != p && proc.buffers[i] != null ==> proc.buffers[i].Img() == old(proc.buffers[i].Img());
    }
  }

  method PrepareInputs(proc: Process, arrivals: seq<Arrival>, kind: U32)
    requires proc.Valid() && |arrivals| == |proc.buffers| && Arrivals(arrivals)
    modifies proc`inputs, proc.Buffers()
    ensures proc.Valid() && proc.St() == PreparedState(old(proc.St()), arrivals, kind)
  {
    hide HoldsInput, CycleEvents, PreparedInput;
    ghost var before := proc.inputs;
    for p := 0 to |proc.buffers|
      invariant proc.Valid() && |proc.inputs| == |before|
      invariant forall i | p <= i < |before| :: proc.inputs[i] == before[i]
      invariant forall i | 0 <= i < p ::
        proc.inputs[i] == PreparedInput(before[i], CycleEvents(arrivals[i].position, arrivals[i].midi, kind))
    {
      assert proc.Holds(p);
      if proc.buffers[p] != null {
        assert Arrivals([arrivals[p]]);
        HoldsSome(proc.buffers[p].Img(), proc.inputs[p]);
        PrepareInput(proc, p, arrivals[p], kind);
      } else {
        PreparedNone(before[p], CycleEvents(arrivals[p].position, arrivals[p].midi, kind));
      }
    }
  }

  lemma HoldsSome(img: Image, input: Input)
    requires HoldsInput(img, input)
    ensures !input.NoInput? && input.capacity == img.capacity && SafeCapacity(img.capacity)
  {
  }

  lemma PreparedNone(input: Input, cycle: seq<Event>)
    requires input.NoInput?
    ensures PreparedInput(input, cycle) == input
  {
  }

  /** After the plugin has run, the inputs are emptied. */
  method ResetInputs(proc: Process)
    requires proc.Valid()
    modifies proc`inputs, proc.Buffers()
    ensures proc.Valid()
    ensures forall p | 0 <= p < |proc.buffers| && proc.buffers[p] != null ::
      proc.inputs[p] == Input(proc.buffers[p].capacity, []) && InputBuffer(proc.buffers[p].Img(), [])
  {
    hide HoldsInput, InputBuffer, SafeCapacity;
    for p := 0 to |proc.buffers|
      invariant proc.Valid()
      invariant forall i | 0 <= i < p && proc.buffers[i] != null ::
        proc.inputs[i] == Input(proc.buffers[i].capacity, [])
    {
      assert proc.Holds(p);
      if proc.buffers[p] != null {
        HoldsSome(proc.buffers[p].Img(), proc.inputs[p]);
        ResetInput(proc, p);
      }
    }
    forall p | 0 <= p < |proc.buffers| && proc.buffers[p] != null ensures InputBuffer(proc.buffers[p].Img(), []) {
      assert proc.Holds(p);
      HoldsEvents(proc.buffers[p].Img(), proc.inputs[p]);
    }
  }

  lemma HoldsEvents(img: Image, input: Input)
    requires HoldsInput(img, input) && input.Input?
    ensures InputBuffer(img, input.events)
  {
  }

  method ResetInput(proc: Process, p: nat)
    requires proc.Valid() && p < |proc.inputs| && !proc.inputs[p].NoInput?
    modifies proc`inputs, proc.Buffers()
    ensures proc.Valid()
    ensures proc.inputs == old(proc.inputs)[p := Input(old(proc.inputs[p]).capacity, [])]
  {
    hide HoldsInput, InputBuffer, SafeCapacity;
    assert proc.Holds(p);
    var buffer := proc.buffers[p];
    HoldsSome(buffer.Img(), proc.inputs[p]);
    buffer.Reset(true);
    InputHolds(buffer.Img(), []);
    proc.inputs := proc.inputs[p := Input(proc.inputs[p].capacity, [])];
    forall i | 0 <= i < |proc.buffers| ensures proc.Holds(i) {
      assert old(proc.Holds(i));
      assert i != p && proc.buffers[i] != null ==> proc.buffers[i].Img() == old(proc.buffers[i].Img());
    }
  }

  lemma StillAcceptable(c: Config, st: State, arrivals: seq<Arrival>, kind: U32, m: Message)
    requires |arrivals| == |st.inputs| && Acceptable(c, st, m)
    ensures Acceptable(c, PreparedState(st, arrivals, kind), m)
  {
    hide CycleEvents, AppendAll;
  }

  /** A port in a cycle: whether it supports the report of the transport, and the MIDI that JACK has for it. */
  datatype Port = Port(supportsPosition: bool, midi: seq<Midi>)

  /** What there is for the ports, with a report of the transport if it has changed. */
  function Arriving(ports: seq<Port>, changed: bool, report: Event): seq<Arrival> {
    seq(|ports|, p requires 0 <= p < |ports| =>
      Arrival(if ports[p].supportsPosition && changed then [report] else [], ports[p].midi))
  }

  lemma ArrivingArrives(ports: seq<Port>, changed: bool, report: Event)
    requires report.frames == 0
    ensures Arrivals(Arriving(ports, changed, report)) && |Arriving(ports, changed, report)| == |ports|
    ensures forall p | 0 <= p < |ports| ::
      Arriving(ports, changed, report)[p] ==
        Arrival(if ports[p].supportsPosition && changed then [report] else [], ports[p].midi)
  {
  }

  /** A cycle that runs the plugin, with what has arrived for the inputs. */
  method RunCycle(proc: Process, arrivals: seq<Arrival>, kind: U32, nframes: U32, stateWorker: Worker?, worker: Worker?,
                  ghost ms: seq<Message>, late: seq<seq<Byte>>, fromState: Responses, fromWorker: Responses)
    returns (committed: nat, k: nat, n: nat)
    requires proc.Valid() && proc.ring.data == EncodeAll(ms)
    requires forall m | m in ms[..Known(ms)] :: Acceptable(proc.config, proc.St(), m)
    requires |arrivals| == |proc.buffers| && Arrivals(arrivals)
    requires proc.Apart(stateWorker) && proc.Apart(worker)
    requires stateWorker != null && worker != null ==>
      stateWorker != worker && stateWorker.responses != worker.responses
    requires stateWorker != null ==>
      stateWorker.responses.Valid() && stateWorker.responses.data == Packets(fromState.queued)
    requires worker != null ==> worker.responses.Valid() && worker.responses.data == Packets(fromWorker.queued)
    modifies proc.Repr()
    modifies if stateWorker == null then {} else {stateWorker, stateWorker.responses}
    modifies if worker == null then {} else {worker, worker.responses}
    ensures proc.Valid() && committed <= |late| && k <= |fromState.late| && n <= |fromWorker.late|
    ensures proc.paused == old(proc.paused) + Pauses(ms[..Known(ms)])
    ensures Known(ms) == |ms| ==> proc.ring.data == Flatten(late[..committed])
    ensures
      var on := ApplyAll(proc.config, PreparedState(old(proc.St()), arrivals, kind), ms[..Known(ms)], nframes);
      && proc.runs == old(proc.runs) + [PluginRun(nframes, on)]
      && proc.controls[..] == on.controls && proc.runState == on.runState
      && |on.inputs| == |arrivals|
      && (forall p | 0 <= p < |on.inputs| && old(proc.inputs)[p].Input? && old(proc.inputs)[p].events == [] ::
            var cap, a := old(proc.inputs)[p].capacity, arrivals[p];
            on.inputs[p] == Input(cap, AppendAll(cap, AppendAll(cap, [], a.position + MidiEvents(a.midi, kind)),
                                                 EventsFor(proc.config, ms[..Known(ms)], p, nframes))))
    ensures forall p | 0 <= p < |proc.buffers| && proc.buffers[p] != null ::
      proc.inputs[p] == Input(proc.buffers[p].capacity, []) && InputBuffer(proc.buffers[p].Img(), [])
    ensures stateWorker != null ==>
      stateWorker.responded == old(stateWorker.responded) + fromState.queued + fromState.late[..k]
    ensures worker != null ==>
      worker.responded == old(worker.responded) + fromWorker.queued + fromWorker.late[..n]
  {
    hide Acceptable, Apply, ApplyAll, HoldsInput, InputBuffer, PreparedState, EncodeAll, Packets, Flatten;
    hide AppendAll, EventsFor, MidiEvents;
    ghost var st := proc.St();
    PrepareInputs(proc, arrivals, kind);
    forall m | m in ms[..Known(ms)] ensures Acceptable(proc.config, proc.St(), m) {
      StillAcceptable(proc.config, st, arrivals, kind, m);
    }
    var status;
    status, committed, k, n := proc.Run(nframes, stateWorker, worker, ms, late, fromState, fromWorker);
    CycleInputs(proc.config, st, arrivals, kind, ms[..Known(ms)], nframes);
    ResetInputs(proc);
  }

  /** The plugin gets what arrived and what the UI sent, of which what fits, on each input that was empty. */
  lemma CycleInputs(c: Config, st: State, arrivals: seq<Arrival>, kind: U32, ms: seq<Message>, nframes: U32)
    requires |arrivals| == |st.inputs|
    ensures var on := ApplyAll(c, PreparedState(st, arrivals, kind), ms, nframes);
      && |on.inputs| == |st.inputs|
      && forall p | 0 <= p < |on.inputs| && st.inputs[p].Input? && st.inputs[p].events == [] ::
           var cap, a := st.inputs[p].capacity, arrivals[p];
           on.inputs[p] == Input(cap, AppendAll(cap, AppendAll(cap, [], a.position + MidiEvents(a.midi, kind)),
                                                EventsFor(c, ms, p, nframes)))
  {
    hide ApplyAll, EventsFor, MidiEvents;
    ApplyAllMeaning(c, PreparedState(st, arrivals, kind), ms, nframes);
  }

  lemma AcceptableStays(c: Config, st: State, after: State, m: Message)
    requires Acceptable(c, st, m) && |after.controls| == |st.controls| && |after.inputs| == |st.inputs|
    requires forall p | 0 <= p < |st.inputs| :: after.inputs[p].NoInput? <==> st.inputs[p].NoInput?
    ensures Acceptable(c, after, m)
  {
  }

  lemma AllKnown(ms: seq<Message>)
    requires forall m | m in ms :: !m.LatencyChange?
    ensures Known(ms) == |ms| && ms[..Known(ms)] == ms
  {
    assert forall i | 0 <= i < |ms| :: ms[i] in ms;
  }

  /** The UI commits messages to the empty ring between two cycles. */
  method UiWrites(proc: Process, more: seq<Message>)
    requires proc.Valid() && proc.ring.data == [] && |EncodeAll(more)| <= proc.ring.capacity
    modifies proc.ring
    ensures proc.Valid() && proc.ring.data == EncodeAll(more)
  {
    hide EncodeAll, HoldsInput;
    var count := proc.ring.Write(EncodeAll(more));
    assert [] + EncodeAll(more) == EncodeAll(more);
    forall i | 0 <= i < |proc.buffers| ensures proc.Holds(i) {
      assert old(proc.Holds(i));
    }
  }

  /**
   Two cycles that run the plugin, one after the other.  Whatever was in the inputs before the first, and
   whatever the first brought, the plugin gets in the second exactly what that brings, of which what fits.
   */
  method TwoCycles(proc: Process, first: seq<Arrival>, second: seq<Arrival>, kind: U32, nframes: U32,
                   ghost ms: seq<Message>, more: seq<Message>)
    requires proc.Valid() && proc.ring.data == EncodeAll(ms) && |EncodeAll(more)| <= proc.ring.capacity
    requires forall m | m in ms + more :: !m.LatencyChange? && Acceptable(proc.config, proc.St(), m)
    requires |first| == |second| == |proc.buffers| && Arrivals(first) && Arrivals(second)
    modifies proc.Repr()
    ensures proc.Valid() && |proc.runs| == |old(proc.runs)| + 2
    ensures var on := proc.runs[|proc.runs| - 1].on;
      && |on.inputs| == |proc.buffers|
      && forall p | 0 <= p < |proc.buffers| && proc.buffers[p] != null ::
           var cap, a := proc.buffers[p].capacity, second[p];
           on.inputs[p] == Input(cap, AppendAll(cap, AppendAll(cap, [], a.position + MidiEvents(a.midi, kind)),
                                                EventsFor(proc.config, more, p, nframes)))
  {
    hide Acceptable, ApplyAll, HoldsInput, InputBuffer, PreparedState, EncodeAll, Packets;
    hide AppendAll, EventsFor, MidiEvents, Known;
    AllKnown(ms);
    AllKnown(more);
    assert Flatten([]) == [];
    var none := Responses([], []);
    ghost var st := proc.St();
    InputKinds(proc);
    var committed, k, n := RunCycle(proc, first, kind, nframes, null, null, ms, [], none, none);
    InputKinds(proc);
    forall m | m in more ensures Acceptable(proc.config, proc.St(), m) {
      assert m in ms + more;
      AcceptableStays(proc.config, st, proc.St(), m);
    }
    UiWrites(proc, more);
    committed, k, n := RunCycle(proc, second, kind, nframes, null, null, more, [], none, none);
  }

  lemma InputKinds(proc: Process)
    requires proc.Valid()
    ensures |proc.inputs| == |proc.buffers|
    ensures forall p | 0 <= p < |proc.buffers| :: proc.inputs[p].NoInput? <==> proc.buffers[p] == null
  {
    hide InputBuffer, Sound, TotalSize;
    forall p | 0 <= p < |proc.buffers| ensures proc.inputs[p].NoInput? <==> proc.buffers[p] == null {
      assert proc.Holds(p);
    }
  }

  /**
   The process callback, up to its outputs.  While the process is paused the messages of the UI are applied,
   and their events stay in the inputs.  Otherwise the transport is asked, and the plugin runs on inputs that
   hold what arrived and then the events of the UI, ordered in time if they were empty.  The responses of the
   workers follow, and the inputs are empty again.
   */
  method ProcessCallback(proc: Process, transport: Transport, q: Query, report: Event, ports: seq<Port>, kind: U32,
                         nframes: U32, stateWorker: Worker?, worker: Worker?, ghost ms: seq<Message>,
                         late: seq<seq<Byte>>, fromState: Responses, fromWorker: Responses)
    returns (committed: nat, k: nat, n: nat)
    requires proc.Valid() && proc.ring.data == EncodeAll(ms)
    requires forall m | m in ms[..Known(ms)] :: Acceptable(proc.config, proc.St(), m)
    requires |ports| == |proc.buffers| && report.frames == 0
    requires transport.Valid() && transport as object !in proc.Repr()
    requires proc.Apart(stateWorker) && proc.Apart(worker)
    requires stateWorker != null && worker != null ==>
      stateWorker != worker && stateWorker.responses != worker.responses
    requires stateWorker != null ==>
      stateWorker.responses.Valid() && stateWorker.responses.data == Packets(fromState.queued)
    requires worker != null ==> worker.responses.Valid() && worker.responses.data == Packets(fromWorker.queued)
    modifies proc.Repr(), transport
    modifies if stateWorker == null then {} else {stateWorker, stateWorker.responses}
    modifies if worker == null then {} else {worker, worker.responses}
    ensures proc.Valid() && transport.Valid()
    ensures committed <= |late| && k <= |fromState.late| && n <= |fromWorker.late|
    ensures proc.paused == old(proc.paused) + Pauses(ms[..Known(ms)])
    ensures old(proc.runState) == Paused ==>
              && proc.runs == old(proc.runs) && transport.cycles == old(transport.cycles)
              && proc.St() == ApplyAll(proc.config, old(proc.St()), ms[..Known(ms)], nframes)
    ensures old(proc.runState) != Paused ==>
              var arrivals := Arriving(ports, !Predicted(old(transport.cycles), q), report);
              var on := ApplyAll(proc.config, PreparedState(old(proc.St()), arrivals, kind), ms[..Known(ms)], nframes);
              && transport.cycles == old(transport.cycles) + [Cycle(q, nframes)]
              && proc.runs == old(proc.runs) + [PluginRun(nframes, on)]
              && proc.controls[..] == on.controls && proc.runState == on.runState
              && |on.inputs| == |ports|
              && (forall p | 0 <= p < |on.inputs| && old(proc.inputs)[p].Input? && old(proc.inputs)[p].events == [] ::
                    var cap, ui := old(proc.inputs)[p].capacity, EventsFor(proc.config, ms[..Known(ms)], p, nframes);
                    var reported := ports[p].supportsPosition && !Predicted(old(transport.cycles), q);
                    var position := if reported then [report] else [];
                    && on.inputs[p] ==
                         Input(cap, AppendAll(cap, AppendAll(cap, [], position + MidiEvents(ports[p].midi, kind)), ui))
                    && (InCycle(ports[p].midi, nframes) ==> TimeOrdered(on.inputs[p].events)))
              && (forall p | 0 <= p < |proc.buffers| && proc.buffers[p] != null ::
                    proc.inputs[p] == Input(proc.buffers[p].capacity, []) && InputBuffer(proc.buffers[p].Img(), []))
              && (stateWorker != null ==>
                    stateWorker.responded == old(stateWorker.responded) + fromState.queued + fromState.late[..k])
              && (worker != null ==>
                    worker.responded == old(worker.responded) + fromWorker.queued + fromWorker.late[..n])
  {
    hide Acceptable, Apply, ApplyAll, HoldsInput, PreparedState, EncodeAll, TimeOrdered;
    hide InputBuffer, AppendAll, EventsFor, MidiEvents, Arriving, InCycle, Predicted;
    hide Packets, Flatten, Pauses, Known, Transports.After;
    if proc.runState == Paused {
      var r;
      r, committed := proc.Bypass(nframes, ms, late);
      k, n := 0, 0;
      return;
    }
    ghost var st := proc.St();
    var changed := transport.Process(q, nframes);
    ArrivingArrives(ports, changed, report);
    committed, k, n := RunCycle(proc, Arriving(ports, changed, report), kind, nframes, stateWorker, worker,
                                ms, late, fromState, fromWorker);
    InputsOrdered(proc.config, st, ports, changed, report, kind, ms[..Known(ms)], nframes);
  }

  lemma InputsOrdered(c: Config, st: State, ports: seq<Port>, changed: bool, report: Event, kind: U32,
                      ms: seq<Message>, nframes: U32)
    requires |ports| == |st.inputs| && report.frames == 0
    ensures |Arriving(ports, changed, report)| == |ports|
    ensures var on := ApplyAll(c, PreparedState(st, Arriving(ports, changed, report), kind), ms, nframes);
      && |on.inputs| == |st.inputs|
      && forall p | 0 <= p < |st.inputs| && st.inputs[p].Input? && st.inputs[p].events == []
                    && InCycle(ports[p].midi, nframes) ::
           on.inputs[p].Input? && TimeOrdered(on.inputs[p].events)
  {
    hide ApplyAll, PreparedState, TimeOrdered, InCycle, Arriving;
    ArrivingArrives(ports, changed, report);
    CycleInputs(c, st, Arriving(ports, changed, report), kind, ms, nframes);
    forall p | 0 <= p < |st.inputs| && st.inputs[p].Input? && st.inputs[p].events == []
               && InCycle(ports[p].midi, nframes)
      ensures
        var on := ApplyAll(c, PreparedState(st, Arriving(ports, changed, report), kind), ms, nframes);
        p < |on.inputs| && on.inputs[p].Input? && TimeOrdered(on.inputs[p].events)
    {
      CycleOrdered(c, st, Arriving(ports, changed, report), kind, ms, p, nframes);
    }
  }

  lemma CycleOrdered(c: Config, st: State, arrivals: seq<Arrival>, kind: U32, ms: seq<Message>, p: nat, nframes: U32)
    requires |arrivals| == |st.inputs| && Arrivals(arrivals) && p < |st.inputs|
    requires st.inputs[p].Input? && st.inputs[p].events == [] && InCycle(arrivals[p].midi, nframes)
    ensures var on := ApplyAll(c, PreparedState(st, arrivals, kind), ms, nframes);
      |on.inputs| == |st.inputs| && on.inputs[p].Input? && TimeOrdered(on.inputs[p].events)
  {
    hide ApplyAll, TimeOrdered, CycleEvents;
    assert arrivals[p] in arrivals;
    var a := arrivals[p];
    InputsTimeOrdered(c, PreparedState(st, arrivals, kind), ms, p, nframes, a.position, a.midi, kind);
  }

  // ------------------------------------------------------------ after a bypassed cycle

  /**
   Events that a cycle without the plugin has left in a buffer are why the buffer must be empty: an event
   written from the beginning is all that there is in it afterwards exactly if the buffer was empty.
   */
  lemma AloneExactlyIfEmpty(img: Image, es: seq<Event>, e: Event)
    requires InputBuffer(img, es) && !Refuses(img.capacity, img.size, |e.body|)
    ensures Writable(img, 0, e)
    ensures Represents(WriteAt(img, 0, e), [e]) <==> es == []
  {
    hide RoundUp, EventsAt, Overwrite, Refuses;
    OverwritesOnlyAtEnd(img, es, 0, e);
    if es == [] {
      assert Overwritten(es, 0, e) == [e];
    } else {
      InputEnd(img, es);
      SafeGuard(img.capacity, img.size, |e.body|);
      RoundUpAligned(SizeAfter(img.capacity, img.size, |e.body|) - ATOM_SIZE);
      OffsetMonotone(es, 0, |es|);
      assert es[..|es|] == es && [e][..0] == [];
    }
  }

  /**
   A bypassed cycle leaves the event of a transfer in an empty input.  Whatever arrives in the next cycle,
   if it would fit, is then not what the plugin gets.
   */
  lemma BypassSpoils(c: Config, st: State, port: U32, kind: U32, body: Data, nframes: U32,
                     img: Image, cycle: seq<Event>)
    requires port < |st.inputs| && st.inputs[port] == Input(img.capacity, []) && TRANSFER_SIZE + |body| < TWO_TO_THE_32
    requires var e := Event(nframes, kind, body);
      2 * ATOM_SIZE + TotalSize([e]) + TotalSize(cycle) <= img.capacity
    requires cycle != []
    ensures var inputs := ApplyAll(c, st, [EventTransfer(port, kind, body)], nframes).inputs;
      && port < |inputs| && inputs[port] == Input(img.capacity, [Event(nframes, kind, body)])
      && (HoldsInput(img, inputs[port]) ==> !Represents(Written(img, cycle).0, cycle))
  {
    hide RoundUp, EventsAt, Written;
    var m, e := EventTransfer(port, kind, body), Event(nframes, kind, body);
    assert [m][1..] == [] && ApplyAll(c, st, [m], nframes) == Apply(c, st, m, nframes);
    assert [e][..0] == [];
    var after := Input(img.capacity, [e]);
    if HoldsInput(img, after) {
      IntendedExactlyIfEmpty(img, [e], cycle);
    }
  }

  // ------------------------------------------------------------ after

  /** The events of a buffer can be sent: their payload size is a 32-bit word. */
  predicate Sendable(es: seq<Event>) {
    forall e | e in es :: TRANSFER_SIZE + |e.body| < TWO_TO_THE_32
  }

  lemma RepresentedSendable(img: Image, es: seq<Event>)
    requires Iterates(img, es)
    ensures Sendable(es)
  {
    hide RoundUp, TotalSize, EventsAt;
    forall k | 0 <= k < |es| ensures TRANSFER_SIZE + |es[k].body| < TWO_TO_THE_32 {
      InRange(img, es, k);
    }
  }

  /** The messages for those events of an output port whose write succeeded. */
  function Transfers(port: U32, es: seq<Event>, written: seq<bool>): seq<Message>
    requires |es| == |written| && Sendable(es)
  {
    if es == [] then []
    else
      Transfers(port, es[..|es| - 1], written[..|es| - 1])
      + if written[|es| - 1] then [EventTransfer(port, es[|es| - 1].kind, es[|es| - 1].body)] else []
  }

  function MidiOf(e: Event): Midi {
    Midi(Low32(e.frames), e.body)
  }

  function MidiOut(es: seq<Event>, kind: U32): seq<Midi> {
    if es == [] then []
    else MidiOut(es[..|es| - 1], kind) + if es[|es| - 1].kind == kind then [MidiOf(es[|es| - 1])] else []
  }

  /** What forwarding the first `k` events amounts to: the bytes that went into the ring, and the MIDI. */
  ghost predicate Forwarded(es: seq<Event>, k: nat, index: U32, written: seq<bool>, sent: seq<Byte>,
                            hasMidiOut: bool, kind: U32, midi: seq<Midi>)
  {
    && k <= |es| && |written| == k && Sendable(es)
    && sent == EncodeAll(Transfers(index, es[..k], written))
    && midi == if hasMidiOut then MidiOut(es[..k], kind) else []
  }

  lemma ForwardedNone(img: Image, es: seq<Event>, index: U32, hasMidiOut: bool, kind: U32)
    requires Iterates(img, es)
    ensures Sendable(es) && Forwarded(es, 0, index, [], [], hasMidiOut, kind, [])
  {
    RepresentedSendable(img, es);
  }

  lemma ForwardedNext(es: seq<Event>, k: nat, index: U32, written: seq<bool>, sent: seq<Byte>,
                      hasMidiOut: bool, kind: U32, midi: seq<Midi>, ok: bool)
    requires k < |es| && Forwarded(es, k, index, written, sent, hasMidiOut, kind, midi)
    ensures Forwarded(es, k + 1, index, written + [ok],
      sent + if ok then Encode(EventTransfer(index, es[k].kind, es[k].body)) else [],
      hasMidiOut, kind, midi + if hasMidiOut && es[k].kind == kind then [MidiOf(es[k])] else [])
  {
    hide Encode, EncodeAll;
    assert es[..k + 1][..k] == es[..k] && (written + [ok])[..k] == written;
    var ms := Transfers(index, es[..k], written);
    if ok {
      EncodeAllSnoc(ms, EventTransfer(index, es[k].kind, es[k].body));
    } else {
      assert ms + [] == ms;
    }
  }

  /** Forward one event, after the UI may have read more. */
  method ForwardEvent(ring: Ring, index: U32, e: Event, ghost taken: seq<Byte>)
    returns (ok: bool, ghost nowTaken: seq<Byte>)
    requires ring.Valid() && TRANSFER_SIZE + |e.body| < TWO_TO_THE_32
    modifies ring
    ensures ring.Valid()
    ensures nowTaken + ring.data ==
      taken + old(ring.data) + if ok then Encode(EventTransfer(index, e.kind, e.body)) else []
  {
    hide Encode;
    ghost var more := ring.ReaderRuns();
    ghost var left := ring.data;
    nowTaken := taken + more;
    var st := WriteEvent(ring, index, e.kind, e.body);
    ok := st.Success?;
    Rejoined(taken, more, left, if ok then Encode(EventTransfer(index, e.kind, e.body)) else []);
  }

  lemma Rejoined(taken: seq<Byte>, more: seq<Byte>, left: seq<Byte>, sent: seq<Byte>)
    ensures taken + more + (left + sent) == taken + (more + left) + sent
    ensures left + [] == left
  {
  }

  /**
   Forward the events of an output port to the UI, and MIDI to JACK, while the UI reads.  `written`
   says which ring writes succeeded, and `taken` is what the UI has read of the ring meanwhile.
   */
  method PostProcessEventOutput(ring: Ring, port: EventBuffer, index: U32, hasMidiOut: bool, kind: U32,
                                ghost es: seq<Event>)
    returns (midi: seq<Midi>, ghost written: seq<bool>, ghost taken: seq<Byte>)
    requires ring.Valid() && Iterates(port.Img(), es)
    modifies ring
    ensures ring.Valid() && |written| == |es| && Sendable(es)
    ensures taken + ring.data == old(ring.data) + EncodeAll(Transfers(index, es, written))
    ensures midi == if hasMidiOut then MidiOut(es, kind) else []
  {
    hide Get, Next, IsValid, Readable, Iterates, Visited, Forwarded, Encode, EncodeAll, Transfers, MidiOut, Low32;
    var img := port.Img();
    ForwardedNone(img, es, index, hasMidiOut, kind);
    VisitFirst(img, es);
    VisitNext(img, es, 0, 0);
    var offset: U32 := 0;
    ghost var k: nat, sent: seq<Byte> := 0, [];
    midi, written, taken := [], [], [];
    while IsValid(img, offset)
      invariant ring.Valid() && k <= |es|
      invariant Visited(img, es, k, offset) && Readable(img, offset) && (IsValid(img, offset) <==> k < |es|)
      invariant Forwarded(es, k, index, written, sent, hasMidiOut, kind, midi)
      invariant taken + ring.data == old(ring.data) + sent
      decreases |es| - k
    {
      VisitNext(img, es, k, offset);
      VisitNext(img, es, k + 1, Next(img, offset));
      var e, ok := Get(img, offset), false;
      ok, taken := ForwardEvent(ring, index, e, taken);
      assert Midi(e.frames, e.body) == MidiOf(es[k]) && e.kind == es[k].kind;
      ForwardedNext(es, k, index, written, sent, hasMidiOut, kind, midi, ok);
      ghost var more := if ok then Encode(EventTransfer(index, e.kind, e.body)) else [];
      assert taken + ring.data == old(ring.data) + (sent + more);
      midi := midi + if hasMidiOut && e.kind == kind then [Midi(e.frames, e.body)] else [];
      written, sent, k := written + [ok], sent + more, k + 1;
      offset := Next(img, offset);
    }
    ForwardedAll(es, k, index, written, sent, hasMidiOut, kind, midi);
  }

  lemma ForwardedAll(es: seq<Event>, k: nat, index: U32, written: seq<bool>, sent: seq<Byte>,
                     hasMidiOut: bool, kind: U32, midi: seq<Midi>)
    requires k == |es| && Forwarded(es, k, index, written, sent, hasMidiOut, kind, midi)
    ensures |written| == |es| && Sendable(es)
    ensures sent == EncodeAll(Transfers(index, es, written)) && midi == if hasMidiOut then MidiOut(es, kind) else []
  {
    assert es[..k] == es;
  }
}

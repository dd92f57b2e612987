/**
 From the event outputs of a plugin to the UI: what the audio thread forwards out of the buffers,
 through the ring, whatever the interleaving, to what the UI dispatches.
 */
module Forwarding {
  import opened Bytes
  import opened Comm
  import opened Evbuf
  import opened Delivery
  import Jack

  /** An output port as a cycle leaves it: the bytes of its buffer, and the events they represent. */
  datatype Output = Output(port: U32, buffer: Image, events: seq<Event>)

  /** The messages that forward the events of a port, one each. */
  function PortMessages(port: U32, es: seq<Event>): (ms: seq<Message>)
    requires Jack.Sendable(es)
    ensures |ms| == |es|
    ensures forall i | 0 <= i < |es| :: ms[i] == EventTransfer(port, es[i].kind, es[i].body)
  {
    seq(|es|, i requires 0 <= i < |es| => EventTransfer(port, es[i].kind, es[i].body))
  }

  predicate AllSendable(outputs: seq<Output>) {
    forall o | o in outputs :: Jack.Sendable(o.events)
  }

  /** The messages that forward the events of several ports, one after the other. */
  function Messages(outputs: seq<Output>): seq<Message>
    requires AllSendable(outputs)
  {
    if outputs == [] then []
    else
      var last := outputs[|outputs| - 1];
      Messages(outputs[..|outputs| - 1]) + PortMessages(last.port, last.events)
  }

  /** The messages that were written, in order. */
  function Kept(ms: seq<Message>, written: seq<bool>): seq<Message>
    requires |ms| == |written|
  {
    if ms == [] then []
    else
      var before := Kept(ms[..|ms| - 1], written[..|ms| - 1]);
      if written[|ms| - 1] then before + [ms[|ms| - 1]] else before
  }

  /** The writes that a run attempts. */
  function Attempts(actions: seq<Action>): seq<Message> {
    if actions == [] then []
    else
      var a, before := actions[|actions| - 1], Attempts(actions[..|actions| - 1]);
      if a.Send? then before + [a.m] else before
  }

  /** Whether each attempted write succeeds: exactly when the message fits the ring as it then is. */
  function Outcomes(capacity: nat, actions: seq<Action>): (written: seq<bool>)
    ensures |written| == |Attempts(actions)|
  {
    if actions == [] then []
    else
      var a, before := actions[|actions| - 1], actions[..|actions| - 1];
      if a.Send? then
        Outcomes(capacity, before) + [|Exec(Init(capacity), before).ring| + |Encode(a.m)| <= capacity]
      else
        Outcomes(capacity, before)
  }

  function Transfers(ms: seq<Message>): seq<Message> {
    if ms == [] then []
    else
      var before := Transfers(ms[..|ms| - 1]);
      if ms[|ms| - 1].EventTransfer? then before + [ms[|ms| - 1]] else before
  }

  /** The outcomes of the event transfers among the messages. */
  function TransferOutcomes(ms: seq<Message>, written: seq<bool>): (r: seq<bool>)
    requires |ms| == |written|
    ensures |r| == |Transfers(ms)|
  {
    if ms == [] then []
    else
      var before := TransferOutcomes(ms[..|ms| - 1], written[..|ms| - 1]);
      if ms[|ms| - 1].EventTransfer? then before + [written[|ms| - 1]] else before
  }

  lemma KeptSnoc(ms: seq<Message>, written: seq<bool>, m: Message, ok: bool)
    requires |ms| == |written|
    ensures Kept(ms + [m], written + [ok]) == if ok then Kept(ms, written) + [m] else Kept(ms, written)
  {
    assert (ms + [m])[..|ms|] == ms && (written + [ok])[..|ms|] == written;
  }

  lemma {:induction false} TransfersAppend(a: seq<Message>, b: seq<Message>)
    ensures Transfers(a + b) == Transfers(a) + Transfers(b)
  {
    if b == [] {
      assert a + b == a;
    } else {
      assert (a + b)[..|a + b| - 1] == a + b[..|b| - 1];
      TransfersAppend(a, b[..|b| - 1]);
    }
  }

  lemma TransfersSnoc(ms: seq<Message>, m: Message)
    ensures Transfers(ms + [m]) == if m.EventTransfer? then Transfers(ms) + [m] else Transfers(ms)
  {
    assert (ms + [m])[..|ms|] == ms;
  }

  /** What has gone into the ring is what was attempted, without the writes that failed. */
  lemma {:induction false} SentAreKept(capacity: nat, actions: seq<Action>)
    ensures Exec(Init(capacity), actions).capacity == capacity
    ensures Exec(Init(capacity), actions).sent == Kept(Attempts(actions), Outcomes(capacity, actions))
  {
    hide Encode;
    if actions != [] {
      var before, a := actions[..|actions| - 1], actions[|actions| - 1];
      SentAreKept(capacity, before);
      if a.Send? {
        var ok := |Exec(Init(capacity), before).ring| + |Encode(a.m)| <= capacity;
        KeptSnoc(Attempts(before), Outcomes(capacity, before), a.m, ok);
      }
    }
  }

  /** Losing messages of other types does not matter to the events. */
  lemma {:induction false} TransfersKept(ms: seq<Message>, written: seq<bool>)
    requires |ms| == |written|
    ensures Transfers(Kept(ms, written)) == Kept(Transfers(ms), TransferOutcomes(ms, written))
  {
    if ms != [] {
      var n := |ms| - 1;
      TransfersKept(ms[..n], written[..n]);
      TransfersSnoc(Kept(ms[..n], written[..n]), ms[n]);
      if ms[n].EventTransfer? {
        KeptSnoc(Transfers(ms[..n]), TransferOutcomes(ms[..n], written[..n]), ms[n], written[n]);
      }
    }
  }

  /** Forwarding as the audio thread does it for one port puts exactly the kept messages into the ring. */
  lemma {:induction false} PortTransfersAreKept(port: U32, es: seq<Event>, written: seq<bool>)
    requires |es| == |written| && Jack.Sendable(es)
    ensures Jack.Transfers(port, es, written) == Kept(PortMessages(port, es), written)
  {
    if es != [] {
      var n := |es| - 1;
      PortTransfersAreKept(port, es[..n], written[..n]);
      assert PortMessages(port, es)[..n] == PortMessages(port, es[..n]);
    }
  }

  /**
   Of the event transfers that a run attempts, those that the UI has received are, in order, the first of
   those whose write succeeded; and all of those, once it has drained the ring.
   */
  lemma TransfersDelivered(capacity: nat, actions: seq<Action>)
    ensures var s := Exec(Init(capacity), actions);
      var kept := Kept(Transfers(Attempts(actions)), TransferOutcomes(Attempts(actions), Outcomes(capacity, actions)));
      Transfers(s.received) <= kept && (!s.reader.InBody? && s.ring == [] ==> Transfers(s.received) == kept)
  {
    hide Encode;
    var s := Exec(Init(capacity), actions);
    SentAreKept(capacity, actions);
    TransfersKept(Attempts(actions), Outcomes(capacity, actions));
    EveryInterleavingDelivers(capacity, actions);
    EmptyMeansAllReceived(capacity, actions);
    var n := |s.received|;
    assert s.sent == s.sent[..n] + s.sent[n..];
    TransfersAppend(s.received, s.sent[n..]);
  }

  // ------------------------------------------------- the audio thread and the UI

  /** The audio thread, outside and inside of its loop over the bytes of an output's buffer. */
  datatype Audio = Outside | Inside(port: U32, buffer: Image, offset: U32)

  /**
   The two threads.  `trace` is what has been done to the ring; `left` records the outputs that the plugin
   has left for forwarding so far, the current one last, and `count` the events forwarded of that.
   */
  datatype System = System(capacity: nat, trace: seq<Action>, audio: Audio, left: seq<Output>, count: nat)

  datatype Step =
    // The plugin has left a buffer that an iteration reads as `events`, and the loop over it begins
    | Leave(port: U32, buffer: Image, events: seq<Event>)
    // A round of the loop
    | Forward
    | FinishLoop
    // The audio thread writes a message of another type
    | Other(m: Message)
    // A step of the UI
    | Read(a: Action)

  /** One step; a step that is not possible changes nothing. */
  ghost function Advance(s: System, a: Step): System {
    match a
    case Leave(port, buffer, events) =>
      if s.audio.Outside? && Iterates(buffer, events) then
        s.(audio := Inside(port, buffer, 0), left := s.left + [Output(port, buffer, events)], count := 0)
      else s
    case Forward =>
      if InLoop(s) then
        var e := Get(s.audio.buffer, s.audio.offset);
        s.(trace := s.trace + [Send(EventTransfer(s.audio.port, e.kind, e.body))],
           audio := s.audio.(offset := Evbuf.Next(s.audio.buffer, s.audio.offset)),
           count := s.count + 1)
      else s
    case FinishLoop =>
      if s.audio.Inside? && WellTyped(s.audio.buffer) && !IsValid(s.audio.buffer, s.audio.offset)
      then s.(audio := Outside) else s
    case Other(m) =>
      if !m.EventTransfer? then s.(trace := s.trace + [Send(m)]) else s
    case Read(action) =>
      if !action.Send? then s.(trace := s.trace + [action]) else s
  }

  /** The iterator is at an event that can be read, and sent. */
  predicate InLoop(s: System) {
    && s.audio.Inside?
    && Readable(s.audio.buffer, s.audio.offset)
    && IsValid(s.audio.buffer, s.audio.offset)
    && TRANSFER_SIZE + |Get(s.audio.buffer, s.audio.offset).body| < TWO_TO_THE_32
  }

  ghost function Run(capacity: nat, steps: seq<Step>): System {
    if steps == [] then System(capacity, [], Outside, [], 0)
    else Advance(Run(capacity, steps[..|steps| - 1]), steps[|steps| - 1])
  }

  /** The ring between the threads. */
  function Ring(s: System): Link {
    Exec(Init(s.capacity), s.trace)
  }

  /**
   The messages whose write the audio thread should have attempted: for all that was left, but for the rest
   of the loop.
   */
  function Due(s: System): seq<Message>
    requires AllSendable(s.left)
  {
    if s.audio.Outside? || s.left == [] then Messages(s.left)
    else
      var n := |s.left| - 1;
      var all := PortMessages(s.left[n].port, s.left[n].events);
      Messages(s.left[..n]) + if s.count <= |all| then all[..s.count] else all
  }

  ghost predicate LoopInv(s: System) {
    && AllSendable(s.left)
    && Transfers(Attempts(s.trace)) == Due(s)
    && (s.audio.Inside? ==>
          && s.left != []
          && var o := s.left[|s.left| - 1];
             && o.port == s.audio.port && o.buffer == s.audio.buffer
             && Visited(o.buffer, o.events, s.count, s.audio.offset))
  }

  /** An action on the ring attempts at most one transfer. */
  lemma TransfersOfAction(trace: seq<Action>, a: Action)
    ensures Transfers(Attempts(trace + [a]))
         == if a.Send? && a.m.EventTransfer? then Transfers(Attempts(trace)) + [a.m] else Transfers(Attempts(trace))
  {
    assert (trace + [a])[..|trace|] == trace;
    if a.Send? {
      TransfersSnoc(Attempts(trace), a.m);
    }
  }

  /** The writes that a run attempts are those of its loops, and any other messages of the audio thread. */
  lemma WritesOfStep(s: System, a: Step)
    ensures Attempts(Advance(s, a).trace) == Attempts(s.trace) +
      match a
      case Forward =>
        if InLoop(s) then
          var e := Get(s.audio.buffer, s.audio.offset);
          [EventTransfer(s.audio.port, e.kind, e.body)]
        else []
      case Other(m) => if m.EventTransfer? then [] else [m]
      case _ => []
  {
    hide Get, Readable, IsValid, Evbuf.Next;
    var t := Advance(s, a);
    if t.trace != s.trace {
      assert t.trace[..|s.trace|] == s.trace;
    }
  }

  lemma LeaveKeepsLoop(s: System, port: U32, buffer: Image, events: seq<Event>)
    requires LoopInv(s)
    ensures LoopInv(Advance(s, Leave(port, buffer, events)))
  {
    hide Iterates, Jack.Sendable, Attempts, Transfers, Visited;
    if s.audio.Outside? && Iterates(buffer, events) {
      Jack.RepresentedSendable(buffer, events);
      VisitFirst(buffer, events);
      var t := Advance(s, Leave(port, buffer, events));
      assert t.left[..|s.left|] == s.left;
      var all := PortMessages(port, events);
      assert all[..0] == [] && Messages(s.left) + [] == Messages(s.left);
    }
  }

  lemma ForwardKeepsLoop(s: System)
    requires LoopInv(s)
    ensures LoopInv(Advance(s, Forward))
  {
    hide Visited, Get, Evbuf.Next, Readable, IsValid, Jack.Sendable, Attempts, Transfers, Messages;
    if InLoop(s) {
      var n := |s.left| - 1;
      var o := s.left[n];
      VisitedInside(o.buffer, o.events, s.count, s.audio.offset);
      VisitNext(o.buffer, o.events, s.count, s.audio.offset);
      var all, e := PortMessages(o.port, o.events), Get(s.audio.buffer, s.audio.offset);
      TransfersOfAction(s.trace, Send(EventTransfer(s.audio.port, e.kind, e.body)));
      assert all[..s.count + 1] == all[..s.count] + [all[s.count]];
    }
  }

  lemma VisitedInside(img: Image, es: seq<Event>, k: nat, offset: U32)
    requires Visited(img, es, k, offset)
    ensures k <= |es|
  {
  }

  lemma OthersKeepLoop(s: System, a: Step)
    requires LoopInv(s) && !a.Leave? && !a.Forward?
    ensures LoopInv(Advance(s, a))
  {
    hide Visited, Get, Evbuf.Next, Readable, Jack.Sendable, Attempts, Transfers;
    if a.Other? {
      TransfersOfAction(s.trace, Send(a.m));
    } else if a.Read? {
      TransfersOfAction(s.trace, a.a);
    } else if s.audio.Inside? {
      var o := s.left[|s.left| - 1];
      VisitedInside(o.buffer, o.events, s.count, s.audio.offset);
      VisitNext(o.buffer, o.events, s.count, s.audio.offset);
      var all := PortMessages(o.port, o.events);
      assert s.count == |all| ==> all[..s.count] == all;
    }
  }

  lemma {:induction false} RunKeepsLoop(capacity: nat, steps: seq<Step>)
    ensures LoopInv(Run(capacity, steps)) && Run(capacity, steps).capacity == capacity
  {
    hide LoopInv, Advance;
    if steps == [] {
      LoopInvInit(capacity);
    } else {
      var s, a := Run(capacity, steps[..|steps| - 1]), steps[|steps| - 1];
      RunKeepsLoop(capacity, steps[..|steps| - 1]);
      AdvanceKeepsCapacity(s, a);
      match a
      case Leave(port, buffer, events) => LeaveKeepsLoop(s, port, buffer, events);
      case Forward => ForwardKeepsLoop(s);
      case _ => OthersKeepLoop(s, a);
    }
  }

  lemma LoopInvInit(capacity: nat)
    ensures LoopInv(System(capacity, [], Outside, [], 0))
  {
  }

  lemma AdvanceKeepsCapacity(s: System, a: Step)
    ensures Advance(s, a).capacity == s.capacity
  {
  }

  /** The loop never stops short: while there is an event left in the buffer, the next round is possible. */
  lemma LoopGoesOn(capacity: nat, steps: seq<Step>)
    ensures var s := Run(capacity, steps);
      s.audio.Inside? ==>
        && s.left != []
        && WellTyped(s.audio.buffer)
        && (InLoop(s) <==> s.count < |s.left[|s.left| - 1].events|)
        && (!InLoop(s) ==> Advance(s, FinishLoop).audio.Outside?)
  {
    hide Visited, Get, Evbuf.Next, Run, Due, Attempts, Transfers;
    RunKeepsLoop(capacity, steps);
    var s := Run(capacity, steps);
    if s.audio.Inside? {
      var o := s.left[|s.left| - 1];
      VisitedInside(o.buffer, o.events, s.count, s.audio.offset);
      VisitNext(o.buffer, o.events, s.count, s.audio.offset);
      assert o in s.left;
    }
  }

  /**
   Delivery from end to end.  The plugin leaves any buffers over any cycles, the audio thread iterates over
   their bytes and writes to the ring, other messages among these, and the UI reads the ring, all in any
   interleaving.  The writes attempted are those for the events that the buffers represent, each once and in
   order.  The events that the UI has received are, in order, the first of those whose write succeeded; and
   all of those, once it has drained the ring.
   */
  lemma EventsReachUi(capacity: nat, steps: seq<Step>)
    ensures var s := Run(capacity, steps);
      && AllSendable(s.left)
      && Transfers(Attempts(s.trace)) == Due(s)
      && var kept := Kept(Due(s), TransferOutcomes(Attempts(s.trace), Outcomes(capacity, s.trace)));
         && Transfers(Ring(s).received) <= kept
         && (!Ring(s).reader.InBody? && Ring(s).ring == [] ==> Transfers(Ring(s).received) == kept)
  {
    hide Run, Due, Exec, Attempts, Transfers, Kept, Outcomes, TransferOutcomes, Visited;
    RunKeepsLoop(capacity, steps);
    TransfersDelivered(capacity, Run(capacity, steps).trace);
  }

  // ------------------------------------------------- how both threads come to an end

  lemma RunMore(capacity: nat, steps: seq<Step>, a: Step)
    ensures Run(capacity, steps + [a]) == Advance(Run(capacity, steps), a)
  {
    assert (steps + [a])[..|steps|] == steps;
  }

  /** The audio thread on its own finishes its loop, and attempts a write for each event that is left. */
  lemma {:induction false} LoopFinishes(capacity: nat, steps: seq<Step>) returns (more: seq<Step>)
    ensures var s, t := Run(capacity, steps), Run(capacity, more);
      && t.audio.Outside? && t.left == s.left && steps <= more
      && (forall k | |steps| <= k < |more| :: more[k] == Forward || more[k] == FinishLoop)
    decreases
      var s := Run(capacity, steps);
      if s.audio.Outside? || s.left == [] then 0 else 1 + |s.left[|s.left| - 1].events| - s.count
  {
    hide Run, Advance, InLoop;
    var s := Run(capacity, steps);
    LoopGoesOn(capacity, steps);
    if s.audio.Outside? {
      more := steps;
    } else if InLoop(s) {
      RunMore(capacity, steps, Forward);
      ForwardCounts(s);
      LoopGoesOn(capacity, steps + [Forward]);
      more := LoopFinishes(capacity, steps + [Forward]);
    } else {
      RunMore(capacity, steps, FinishLoop);
      FinishKeeps(s);
      more := steps + [FinishLoop];
    }
  }

  lemma ForwardCounts(s: System)
    requires InLoop(s)
    ensures Advance(s, Forward).count == s.count + 1
    ensures Advance(s, Forward).left == s.left && Advance(s, Forward).audio.Inside?
  {
    hide Get, Evbuf.Next, Readable, IsValid;
  }

  lemma FinishKeeps(s: System)
    ensures Advance(s, FinishLoop).left == s.left
  {
  }

  /** The UI makes the steps `actions`. */
  lemma {:induction false} UiReads(capacity: nat, steps: seq<Step>, actions: seq<Action>) returns (more: seq<Step>)
    requires forall a | a in actions :: !a.Send?
    ensures Run(capacity, more) == Run(capacity, steps).(trace := Run(capacity, steps).trace + actions)
  {
    hide Run;
    var s := Run(capacity, steps);
    if actions == [] {
      more := steps;
      assert s.trace + [] == s.trace;
    } else {
      var n := |actions| - 1;
      more := UiReads(capacity, steps, actions[..n]);
      RunMore(capacity, more, Read(actions[n]));
      assert actions[n] in actions && s.trace + actions[..n] + [actions[n]] == s.trace + actions;
      more := more + [Read(actions[n])];
    }
  }

  lemma {:induction false} ExecAppend(s: Link, first: seq<Action>, more: seq<Action>)
    ensures Exec(s, first + more) == Exec(Exec(s, first), more)
  {
    hide Delivery.Next;
    if more == [] {
      assert first + more == first;
    } else {
      var n := |more| - 1;
      ExecAppend(s, first, more[..n]);
      assert (first + more)[..|first| + n] == first + more[..n];
    }
  }

  /**
   From every state of every run both threads can come to an end, and then each event of every buffer that
   was left has been attempted, and each whose write succeeded has been received.
   */
  lemma AllEventsReachUi(capacity: nat, steps: seq<Step>) returns (more: seq<Step>)
    ensures var s, t := Run(capacity, steps), Run(capacity, more);
      && t.left == s.left && AllSendable(t.left)
      && Transfers(Attempts(t.trace)) == Messages(t.left)
      && Ring(t).ring == []
      && Transfers(Ring(t).received)
         == Kept(Messages(t.left), TransferOutcomes(Attempts(t.trace), Outcomes(capacity, t.trace)))
  {
    hide Run, Exec, Attempts, Transfers, Kept, Outcomes, TransferOutcomes, Messages, AllSendable, Delivery.Inv;
    var finished := LoopFinishes(capacity, steps);
    var u := Run(capacity, finished);
    EveryInterleavingDelivers(capacity, u.trace);
    var actions := ReaderDrains(Exec(Init(capacity), u.trace));
    ExecAppend(Init(capacity), u.trace, actions);
    more := UiReads(capacity, finished, actions);
    RunKeepsLoop(capacity, more);
    EventsReachUi(capacity, more);
  }
}

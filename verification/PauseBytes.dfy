/**
 The queue of messages between the UI thread and the audio thread, and the bytes that it stands for: every
 run of the handshake is a run of the ring of bytes, with the same writes, outcomes and reads.
 */
module PauseBytes {
  import opened Bytes
  import opened Comm
  import opened PauseProtocol
  import D = Delivery

  /** The bytes in the ring: the header of the first message may have been read. */
  function RingBytes(s: System): seq<Byte> {
    if s.audio.InBody? && s.queue != [] then Payload(s.queue[0]) + EncodeAll(s.queue[1..]) else EncodeAll(s.queue)
  }

  lemma UsedBytes(s: System)
    requires s.audio.InBody? ==> s.queue != []
    ensures Used(s) == |RingBytes(s)|
  {
    hide Encode, Payload;
  }

  /** The queue is what has been sent and not received, and the reader is where the audio thread is. */
  ghost predicate Related(s: System, link: D.Link) {
    && D.Inv(link) && link.capacity == s.capacity
    && link.sent[|link.received|..] == s.queue
    && ReaderAt(s.audio, link)
  }

  predicate ReaderAt(a: Audio, link: D.Link) {
    match a
    case Draining(_, left, _) => link.reader.Scanning? && link.until == |link.received| + left
    case InBody(_, left, _) => link.reader.InBody? && link.until == |link.received| + left
    case Holding(_, left, _, _) => link.reader.Scanning? && link.until == |link.received| + left
    case Posting(_, left) => link.reader.Scanning? && link.until == |link.received| + left
    case _ => link.reader.AtRest?
  }

  /** What a step does to the ring, if anything. */
  function Moves(s: System, a: Action): (r: seq<D.Action>)
    ensures |r| <= 1
  {
    match a
    case SendControl(port, value) =>
      if s.ui.Idle? && HasPort(s, port) then [D.Send(ControlChange(port, value))] else []
    case SendEvent(m) =>
      if s.ui.Idle? && m.EventTransfer? then [D.Send(m)] else []
    case WritePause =>
      if s.ui.Pausing? then [D.Send(PAUSE)] else []
    case SetPort =>
      if s.ui.SettingPort? && HasPort(s, s.ui.port) && !s.ui.direct
      then [D.Send(ControlChange(s.ui.port, s.ui.value))] else []
    case Request =>
      if s.ui.Requesting? && s.hasControlIn then [D.Send(StateRequest)] else []
    case WriteResume =>
      if s.ui.Resuming? then [D.Send(RESUME)] else []
    case CountSpace =>
      if s.audio.Entered? then [D.Begin] else []
    case ReadHeader =>
      if s.audio.Draining? && s.audio.left > 0 && s.queue != [] then [D.ReadHeader] else []
    case ReadBody =>
      if s.audio.InBody? && s.audio.left > 0 && s.queue != [] then [D.ReadBody] else []
    case FinishDrain =>
      if s.audio.Draining? && s.audio.left == 0 then [D.End] else []
    case _ => []
  }

  /** What a run does to the ring. */
  function Trace(s: System, actions: seq<Action>): seq<D.Action> {
    if actions == [] then []
    else
      var before := actions[..|actions| - 1];
      Trace(s, before) + Moves(Exec(s, before), actions[|actions| - 1])
  }

  lemma RelatedBytes(s: System, link: D.Link)
    requires Related(s, link)
    ensures link.ring == RingBytes(s)
    ensures forall m :: Fits(s, m) <==> |link.ring| + |Encode(m)| <= link.capacity
  {
    hide Encode, Payload, EncodeAll;
    var n := |link.received|;
    if s.audio.InBody? {
      assert s.queue[0] == link.sent[n] && s.queue[1..] == link.sent[n + 1..];
    }
    UsedBytes(s);
  }

  lemma WriteIsSend(s: System, m: Message, link: D.Link)
    requires Related(s, link)
    ensures Related(Write(s, m), D.Next(link, D.Send(m)))
  {
    hide Encode, EncodeAll, Payload, D.Inv, Fits;
    D.SendKeeps(link, m);
    RelatedBytes(s, link);
    RelatedOrder(link);
  }

  lemma RelatedOrder(link: D.Link)
    requires D.Inv(link)
    ensures |link.received| <= |link.sent|
  {
  }

  /** Only the queue, the capacity and the place of the audio thread matter. */
  lemma RelatedAlso(s: System, t: System, link: D.Link)
    requires Related(s, link) && t.queue == s.queue && t.capacity == s.capacity && t.audio == s.audio
    ensures Related(t, link)
  {
  }

  lemma UiIsDelivery(s: System, a: Action, link: D.Link)
    requires Related(s, link) && !ByAudio(a)
    ensures Related(Next(s, a), if Moves(s, a) == [] then link else D.Next(link, Moves(s, a)[0]))
  {
    hide Related, D.Next, NextAudio, Fits;
    if Moves(s, a) == [] {
      StaysRelated(s, a);
      RelatedAlso(s, Next(s, a), link);
    } else {
      var m := Moves(s, a)[0].m;
      WriteIsSend(s, m, link);
      WritesMove(s, a);
      RelatedAlso(Write(s, m), Next(s, a), D.Next(link, D.Send(m)));
    }
  }

  lemma StaysRelated(s: System, a: Action)
    requires !ByAudio(a) && Moves(s, a) == []
    ensures Next(s, a).queue == s.queue && Next(s, a).capacity == s.capacity && Next(s, a).audio == s.audio
  {
    hide NextAudio, Fits, Issue, Write, WriteRunState;
  }

  lemma WritesMove(s: System, a: Action)
    requires !ByAudio(a) && Moves(s, a) != []
    ensures Moves(s, a)[0].Send?
    ensures var t, u := Next(s, a), Write(s, Moves(s, a)[0].m);
      t.queue == u.queue && t.capacity == u.capacity && t.audio == u.audio
  {
    hide NextAudio, Fits;
  }

  lemma BeginIsDelivery(s: System, link: D.Link)
    requires Related(s, link) && s.audio.Entered?
    ensures Related(Next(s, CountSpace), D.Next(link, D.Begin))
  {
    hide NextUi, Encode, EncodeAll, Payload, D.Inv;
    D.BeginKeeps(link);
    RelatedOrder(link);
  }

  lemma HeaderIsDelivery(s: System, link: D.Link)
    requires Related(s, link) && s.audio.Draining? && s.audio.left > 0 && s.queue != []
    ensures Related(Next(s, ReadHeader), D.Next(link, D.ReadHeader))
  {
    hide NextUi, Encode, EncodeAll, Payload, HeaderType, HeaderBodySize;
    D.HeaderKeeps(link);
    HeaderThere(link);
  }

  lemma EndIsDelivery(s: System, link: D.Link)
    requires Related(s, link) && s.audio.Draining? && s.audio.left == 0
    ensures Related(Next(s, FinishDrain), D.Next(link, D.End))
  {
    hide NextUi, Encode, Payload;
    D.BeginKeeps(link);
    assert link.sent[|link.received|..link.until] == [];
  }

  /** While messages that were counted are left, the loop goes on and a header is there. */
  lemma HeaderThere(link: D.Link)
    requires D.Inv(link) && link.reader.Scanning? && |link.received| < link.until
    ensures link.reader.i < link.reader.space && |link.ring| >= HEADER_SIZE
  {
    hide Encode, Payload;
    var n := |link.received|;
    assert link.sent[n..link.until] != [] && link.sent[n..] != [];
  }

  lemma BodyIsDelivery(s: System, link: D.Link)
    requires Related(s, link) && s.audio.InBody? && s.audio.left > 0
    ensures Related(Next(s, ReadBody), D.Next(link, D.ReadBody))
  {
    hide NextUi, Encode, EncodeAll, Payload, DecodeBody;
    var n := |link.received|;
    D.BodyKeeps(link);
    BodyRoundTrip(link.sent[n], EncodeAll(link.sent[n + 1..]));
    assert link.sent[n..][1..] == link.sent[n + 1..];
  }

  lemma AudioIsDelivery(s: System, a: Action, link: D.Link)
    requires Inv(s) && Related(s, link) && ByAudio(a)
    ensures Related(Next(s, a), if Moves(s, a) == [] then link else D.Next(link, Moves(s, a)[0]))
  {
    hide UiInv, DataInv, D.Inv, D.Next, Encode, EncodeAll, P.ApplyControl, P.ApplyRunState;
    match a
    case CountSpace =>
      if s.audio.Entered? {
        BeginIsDelivery(s, link);
      }
    case ReadHeader =>
      if s.audio.Draining? && s.audio.left > 0 {
        HeaderIsDelivery(s, link);
      }
    case FinishDrain =>
      if s.audio.Draining? && s.audio.left == 0 {
        EndIsDelivery(s, link);
      }
    case ReadBody =>
      if s.audio.InBody? {
        BodyIsDelivery(s, link);
      }
    case _ =>
  }

  lemma StartIsDelivery(s: System)
    requires Init(s)
    ensures Related(s, D.Init(s.capacity))
  {
  }

  /**
   The bytes of the ring in any run are those of the queue, and a message fits the queue exactly if it fits
   the ring: with the steps that the run makes, the ring of bytes is in the same state.
   */
  lemma {:induction false} RunIsDelivery(s: System, actions: seq<Action>)
    requires Init(s)
    ensures var t, link := Exec(s, actions), D.Exec(D.Init(s.capacity), Trace(s, actions));
      && Related(t, link) && link.ring == RingBytes(t)
      && forall m :: Fits(t, m) <==> |link.ring| + |Encode(m)| <= link.capacity
  {
    hide Related, RingBytes, Fits, Next, Moves, D.Next, Inv, Encode;
    if actions == [] {
      StartIsDelivery(s);
    } else {
      var before, a := actions[..|actions| - 1], actions[|actions| - 1];
      RunIsDelivery(s, before);
      InvInit(s);
      RunKeepsInv(s, before);
      var u, link := Exec(s, before), D.Exec(D.Init(s.capacity), Trace(s, before));
      if ByAudio(a) {
        AudioIsDelivery(u, a, link);
      } else {
        UiIsDelivery(u, a, link);
      }
      TraceNext(Trace(s, before), Moves(u, a), s.capacity);
    }
    RelatedBytes(Exec(s, actions), D.Exec(D.Init(s.capacity), Trace(s, actions)));
  }

  lemma TraceNext(trace: seq<D.Action>, moves: seq<D.Action>, capacity: nat)
    requires |moves| <= 1
    ensures D.Exec(D.Init(capacity), trace + moves)
         == if moves == [] then D.Exec(D.Init(capacity), trace)
            else D.Next(D.Exec(D.Init(capacity), trace), moves[0])
  {
    hide D.Next;
    if moves == [] {
      assert trace + moves == trace;
    } else {
      assert (trace + moves)[..|trace|] == trace;
    }
  }
}

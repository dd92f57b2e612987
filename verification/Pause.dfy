/**
 The handshake by which the UI thread pauses the plugin to restore state, as an interleaving of the
 steps of the UI thread and of the audio thread.  The ring is a queue of messages here, of which the first
 may have been read as far as its header; what its bytes are is the subject of the module PauseBytes.
 */
module PauseProtocol {
  import opened Bytes
  import opened Comm
  import P = Processing

  /** The UI thread: idle, or somewhere in `jalv_apply_state`.  `held` says that it paused the plugin. */
  datatype Ui =
    | Idle
    | Pausing
    | Waiting(written: bool)
    | Restoring(held: bool)
    | SettingPort(held: bool, port: nat, value: U32, direct: bool)
    | Echoing(held: bool)
    | Requesting(held: bool)
    | Resuming

  /**
   The audio thread: `bypass` is what it decided on entry, and `left` counts the messages that it still has
   to take from the ring.  Between the read of a message and what it does, it holds the message.
   */
  datatype Audio =
    | Between
    | Entered(bypass: bool)
    | Draining(bypass: bool, left: nat, tookPause: bool)
    | InBody(bypass: bool, left: nat, tookPause: bool)
    | Holding(bypass: bool, left: nat, tookPause: bool, m: Message)
    | Posting(bypass: bool, left: nat)
    | PluginRuns(tookPause: bool)

  /**
   `tempoPorts` are the control inputs that the audio thread sets to the tempo of the transport, and
   `active` is set when the plugin is activated.  The last fields record the past: the last value issued
   for each port, the run states written to the ring, the waits completed, and whether a cycle that runs
   the plugin began during a restore.
   */
  datatype System = System(
    safeRestore: bool, capacity: nat, hasControlIn: bool, tempoPorts: set<nat>,
    queue: seq<Message>, controls: seq<U32>, runState: RunState, paused: nat,
    ui: Ui, audio: Audio, active: bool,
    issued: seq<U32>, written: seq<RunState>, waits: nat, overlap: bool)

  datatype Action =
    // UI thread
    | SendControl(port: nat, value: U32)
    | SendEvent(event: Message)
    | Activate
    | BeginApply
    | WritePause
    | FinishWait
    | ReadRunState(at: nat, to: U32)
    | SetPort
    | Echo
    | FinishRestore
    | Request
    | WriteResume
    // audio thread
    | StartCycle
    | StoreTempo(tempoPort: nat, tempo: U32)
    | CountSpace
    | ReadHeader
    | ReadBody
    | Apply
    | Post
    | FinishDrain
    | FinishRun

  const PAUSE := RunStateChange(Paused)
  const RESUME := RunStateChange(Running)

  /** The bytes in the ring. */
  function Used(s: System): int {
    |EncodeAll(s.queue)| - if s.audio.InBody? then HEADER_SIZE else 0
  }

  predicate Fits(s: System, m: Message) {
    Used(s) + |Encode(m)| <= s.capacity
  }

  /** The messages that have not been applied: that which the audio thread holds, and then those in the ring. */
  function Pending(s: System): seq<Message> {
    if s.audio.Holding? then [s.audio.m] + s.queue else s.queue
  }

  /** Write a message to the ring, which drops it if it does not fit. */
  function Write(s: System, m: Message): System {
    if Fits(s, m) then s.(queue := s.queue + [m]) else s
  }

  /** Write a control change, and take note of it if it was written. */
  function Issue(s: System, port: nat, value: U32): System
    requires port < |s.issued| && port < TWO_TO_THE_32
  {
    if Fits(s, ControlChange(port, value))
    then Write(s, ControlChange(port, value)).(issued := s.issued[port := value]) else s
  }

  function WriteRunState(s: System, r: RunState): System {
    var m := RunStateChange(r);
    if Fits(s, m) then Write(s, m).(written := s.written + [r]) else s
  }

  predicate HasPort(s: System, port: nat) {
    port < |s.controls| == |s.issued| && port < TWO_TO_THE_32
  }

  predicate InRestore(u: Ui) {
    u.Restoring? || u.SettingPort? || u.Echoing?
  }

  function NextUi(s: System, a: Action): System {
    match a
    case SendControl(port, value) =>
      if s.ui.Idle? && HasPort(s, port) then Issue(s, port, value) else s
    case SendEvent(m) =>
      if s.ui.Idle? && m.EventTransfer? then Write(s, m) else s
    case Activate =>
      if s.ui.Idle? && !s.active then s.(active := true, runState := Running) else s
    case BeginApply =>
      if !s.ui.Idle? then s
      else if !s.safeRestore && s.runState == Running then s.(ui := Pausing)
      else s.(ui := Restoring(false))
    case WritePause =>
      if s.ui.Pausing? then WriteRunState(s, Paused).(ui := Waiting(Fits(s, PAUSE))) else s
    case FinishWait =>
      if s.ui.Waiting? && s.paused > 0 then
        s.(ui := Restoring(true), paused := s.paused - 1, waits := s.waits + 1)
      else s
    case ReadRunState(port, value) =>
      if s.ui.Restoring? && HasPort(s, port) then
        s.(ui := SettingPort(s.ui.held, port, value, s.runState != Running))
      else s
    case SetPort =>
      if s.ui.SettingPort? && HasPort(s, s.ui.port) then
        if s.ui.direct then
          s.(controls := s.controls[s.ui.port := s.ui.value], issued := s.issued[s.ui.port := s.ui.value],
             ui := Echoing(s.ui.held))
        else
          Issue(s, s.ui.port, s.ui.value).(
            ui := if Fits(s, ControlChange(s.ui.port, s.ui.value)) then Echoing(s.ui.held) else Restoring(s.ui.held))
      else s
    case Echo =>
      if s.ui.Echoing? then s.(ui := Restoring(s.ui.held)) else s
    case FinishRestore =>
      if s.ui.Restoring? then s.(ui := Requesting(s.ui.held)) else s
    case Request =>
      if s.ui.Requesting? then
        (if s.hasControlIn then Write(s, StateRequest) else s).(ui := if s.ui.held then Resuming else Idle)
      else s
    case WriteResume =>
      if s.ui.Resuming? then WriteRunState(s, Running).(ui := Idle) else s
    case _ => s
  }

  function NextAudio(s: System, a: Action): System {
    match a
    case StartCycle =>
      if s.audio.Between? then
        s.(audio := Entered(s.runState == Paused),
           overlap := s.overlap || (InRestore(s.ui) && s.runState != Paused))
      else s
    case StoreTempo(port, value) =>
      if s.audio == Entered(false) && port in s.tempoPorts && HasPort(s, port) then
        s.(controls := s.controls[port := value])
      else s
    case CountSpace =>
      if s.audio.Entered? then s.(audio := Draining(s.audio.bypass, |s.queue|, false)) else s
    case ReadHeader =>
      if s.audio.Draining? && s.audio.left > 0 && s.queue != [] then
        s.(audio := InBody(s.audio.bypass, s.audio.left, s.audio.tookPause))
      else s
    case ReadBody =>
      if s.audio.InBody? && s.audio.left > 0 && s.queue != [] then
        s.(queue := s.queue[1..],
           audio := Holding(s.audio.bypass, s.audio.left - 1, s.audio.tookPause, s.queue[0]))
      else s
    case Apply =>
      if s.audio.Holding? then
        s.(controls := P.ApplyControl(s.controls, s.audio.m),
           runState := P.ApplyRunState(s.runState, s.audio.m),
           audio := if P.IsPause(s.audio.m) then Posting(s.audio.bypass, s.audio.left)
                    else Draining(s.audio.bypass, s.audio.left, s.audio.tookPause))
      else s
    case Post =>
      if s.audio.Posting? then
        s.(paused := s.paused + 1, audio := Draining(s.audio.bypass, s.audio.left, true))
      else s
    case FinishDrain =>
      if s.audio.Draining? && s.audio.left == 0 then
        s.(audio := if s.audio.bypass then Between else PluginRuns(s.audio.tookPause))
      else s
    case FinishRun =>
      if s.audio.PluginRuns? then s.(audio := Between) else s
    case _ => s
  }

  predicate ByAudio(a: Action) {
    || a.StartCycle? || a.StoreTempo? || a.CountSpace? || a.ReadHeader? || a.ReadBody? || a.Apply?
    || a.Post? || a.FinishDrain? || a.FinishRun?
  }

  /** One step; a step that is not possible changes nothing. */
  function Next(s: System, a: Action): System {
    if ByAudio(a) then NextAudio(s, a) else NextUi(s, a)
  }

  function Exec(s: System, actions: seq<Action>): System {
    if actions == [] then s else Next(Exec(s, actions[..|actions| - 1]), actions[|actions| - 1])
  }

  lemma {:induction false} ExecCons(s: System, a: Action, actions: seq<Action>)
    ensures Exec(s, [a] + actions) == Exec(Next(s, a), actions)
  {
    hide Next;
    if actions == [] {
      assert ([a] + actions)[..0] == [] && Exec(s, []) == s;
    } else {
      var n := |actions| - 1;
      ExecCons(s, a, actions[..n]);
      assert ([a] + actions)[..n + 1] == [a] + actions[..n];
    }
  }

  /**
   Before activation: paused, with an empty ring.  It has room for a request and a resume; the rings are
   created with 4096 bytes or more.
   */
  predicate Init(s: System) {
    && s.queue == [] && s.runState == Paused && s.paused == 0
    && s.ui.Idle? && s.audio.Between? && !s.active
    && s.issued == s.controls && s.written == [] && s.waits == 0 && !s.overlap
    && s.capacity >= 20
  }

  // ---------------------------------------------------------- the invariant

  /** The run states in the messages of a queue. */
  function RunStates(q: seq<Message>): seq<RunState> {
    if q == [] then []
    else (if q[0].RunStateChange? then [q[0].state] else []) + RunStates(q[1..])
  }

  lemma {:induction false} RunStatesSnoc(q: seq<Message>, m: Message)
    ensures RunStates(q + [m]) == RunStates(q) + if m.RunStateChange? then [m.state] else []
  {
    if q == [] {
      assert q + [m] == [m] && [m][1..] == [];
    } else {
      assert (q + [m])[0] == q[0] && (q + [m])[1..] == q[1..] + [m];
      RunStatesSnoc(q[1..], m);
    }
  }

  /** The UI thread is past its wait and has not yet written the message to resume. */
  predicate Held(u: Ui) {
    ((InRestore(u) || u.Requesting?) && u.held) || u.Resuming?
  }

  predicate Free(u: Ui) {
    u.Idle? || ((InRestore(u) || u.Requesting?) && !u.held)
  }

  /** What the pending messages, the run state and the semaphore can be, for each state of the UI thread. */
  predicate UiInv(s: System) {
    var q, states := Pending(s), RunStates(Pending(s));
    if Free(s.ui) then
      && s.paused == 0 && !s.audio.Posting?
      && ((states == [] && s.runState == if s.active then Running else Paused)
          || (states == [Running] && s.runState == Paused && s.active && !s.safeRestore))
    else
      && s.active && !s.safeRestore
      && match s.ui
         case Pausing => s.paused == 0 && !s.audio.Posting? && states == [] && s.runState == Running
         case Waiting(written) =>
           if !written then s.paused == 0 && !s.audio.Posting? && states == [] && s.runState == Running
           else
             || (s.paused == 0 && !s.audio.Posting? && s.runState == Running && states == [Paused]
                 && q != [] && q[|q| - 1] == PAUSE)
             || (s.paused == 0 && s.audio.Posting? && s.runState == Paused && q == [])
             || (s.paused == 1 && !s.audio.Posting? && s.runState == Paused && q == [])
         case _ =>
           && s.paused == 0 && !s.audio.Posting? && s.runState == Paused
           && (q == [] || (s.ui.Resuming? && q == [StateRequest]))
  }

  /** A cycle that runs the plugin, and has not paused it itself, began and goes on in the running state. */
  predicate AudioInv(s: System) {
    match s.audio
    case Between => true
    case Entered(bypass) => !bypass ==> s.runState == Running
    case Draining(bypass, left, tookPause) =>
      left <= |s.queue| && (!bypass && !tookPause ==> s.runState == Running)
    case InBody(bypass, left, tookPause) =>
      0 < left <= |s.queue| && (!bypass && !tookPause ==> s.runState == Running)
    case Holding(bypass, left, tookPause, _) =>
      left <= |s.queue| && (!bypass && !tookPause ==> s.runState == Running)
    case Posting(bypass, left) => left <= |s.queue| && s.runState == Paused
    case PluginRuns(tookPause) => !tookPause ==> s.runState == Running
  }

  /** Control messages are for existing ports, and the ring is big enough for a request and a resume. */
  predicate DataInv(s: System) {
    && |s.controls| == |s.issued|
    && s.capacity >= 20
    && (forall m | m in Pending(s) && m.ControlChange? :: m.port < |s.controls|)
    && (s.ui.SettingPort? ==> HasPort(s, s.ui.port) && (s.ui.held ==> s.ui.direct))
  }

  predicate Inv(s: System) {
    UiInv(s) && AudioInv(s) && DataInv(s)
  }

  lemma InvInit(s: System)
    requires Init(s)
    ensures Inv(s)
  {
  }

  lemma ResumeFits(s: System)
    requires Inv(s) && s.ui.Resuming?
    ensures Fits(s, RESUME)
  {
    hide RunStates;
    assert EncodeAll([]) == [];
    if s.audio.Holding? {
      assert |Pending(s)| == 1 + |s.queue|;
    }
    if s.queue != [] {
      assert s.queue[1..] == [] && EncodeAll(s.queue) == Encode(StateRequest) + EncodeAll([]);
    }
  }

  /** A message that is written is pending after all others. */
  lemma WritePends(s: System, m: Message)
    ensures Write(s, m).(queue := s.queue) == s
    ensures Pending(Write(s, m)) == if Fits(s, m) then Pending(s) + [m] else Pending(s)
    ensures s.queue <= Write(s, m).queue
  {
    hide Fits;
    if s.audio.Holding? {
      assert [s.audio.m] + (s.queue + [m]) == [s.audio.m] + s.queue + [m];
    }
  }

  /** Writing a message that is not a run state changes the queue only. */
  lemma WriteKeeps(s: System, m: Message)
    ensures Write(s, m).(queue := s.queue) == s && s.queue <= Write(s, m).queue
    ensures !m.RunStateChange? ==> RunStates(Pending(Write(s, m))) == RunStates(Pending(s))
    ensures forall n | n in Pending(Write(s, m)) :: n in Pending(s) || n == m
  {
    hide Fits, Write, Pending;
    WritePends(s, m);
    RunStatesSnoc(Pending(s), m);
  }

  lemma MessagesKeepInv(s: System, a: Action)
    requires Inv(s) && (a.SendControl? || a.SendEvent? || a.SetPort? || a.Request?)
    ensures Inv(Next(s, a))
  {
    hide NextAudio, Write, RunStates, Fits;
    match a
    case SendControl(port, value) =>
      if s.ui.Idle? && HasPort(s, port) {
        IssueKeepsInv(s, port, value);
      }
    case SendEvent(m) =>
      WriteKeeps(s, m);
    case SetPort =>
      SetPortKeepsInv(s);
    case Request =>
      RequestKeepsInv(s);
  }

  lemma SetPortKeepsInv(s: System)
    requires Inv(s)
    ensures Inv(Next(s, SetPort))
  {
    hide NextAudio, Inv, Issue, Fits;
    if s.ui.SettingPort? && HasPort(s, s.ui.port) {
      if s.ui.direct {
        DirectKeepsInv(s);
      } else {
        SettingFree(s);
        IssueKeepsInv(s, s.ui.port, s.ui.value);
        RestoringKeepsInv(Issue(s, s.ui.port, s.ui.value));
      }
    }
  }

  lemma DirectKeepsInv(s: System)
    requires Inv(s) && s.ui.SettingPort? && HasPort(s, s.ui.port)
    ensures Inv(s.(controls := s.controls[s.ui.port := s.ui.value], issued := s.issued[s.ui.port := s.ui.value],
                   ui := Echoing(s.ui.held)))
  {
    hide RunStates;
  }

  lemma SettingFree(s: System)
    requires Inv(s) && s.ui.SettingPort? && !s.ui.direct
    ensures Free(s.ui)
  {
  }

  lemma RestoringKeepsInv(s: System)
    requires Inv(s) && s.ui.SettingPort?
    ensures Inv(s.(ui := Echoing(s.ui.held))) && Inv(s.(ui := Restoring(s.ui.held)))
  {
    hide RunStates;
  }

  lemma IssueKeepsInv(s: System, port: nat, value: U32)
    requires Inv(s) && HasPort(s, port) && Free(s.ui)
    ensures Inv(Issue(s, port, value))
    ensures Issue(s, port, value).(queue := s.queue, issued := s.issued) == s
    ensures |Issue(s, port, value).issued| == |s.issued|
  {
    hide Fits, Write, RunStates;
    WriteKeeps(s, ControlChange(port, value));
  }

  lemma RequestKeepsInv(s: System)
    requires Inv(s)
    ensures Inv(Next(s, Request))
  {
    hide NextAudio, Fits, Write, RunStates;
    WriteKeeps(s, StateRequest);
    if s.ui.Requesting? && s.ui.held {
      WriteToEmpty(s, StateRequest);
    }
  }

  lemma WriteToEmpty(s: System, m: Message)
    requires Pending(s) == []
    ensures Pending(Write(s, m)) == [] || Pending(Write(s, m)) == [m]
  {
    hide Fits, Write, Pending;
    WritePends(s, m);
    assert [] + [m] == [m];
  }

  lemma WriteRunStatePends(s: System, r: RunState)
    ensures var t := WriteRunState(s, r);
      && t.(queue := s.queue, written := s.written) == s
      && s.queue <= t.queue
      && Pending(t) == (if Fits(s, RunStateChange(r)) then Pending(s) + [RunStateChange(r)] else Pending(s))
      && RunStates(Pending(t)) == RunStates(Pending(s)) + (if Fits(s, RunStateChange(r)) then [r] else [])
  {
    hide Fits;
    WritePends(s, RunStateChange(r));
    RunStatesSnoc(Pending(s), RunStateChange(r));
    assert RunStates(Pending(s)) + [] == RunStates(Pending(s));
  }

  lemma PauseKeepsInv(s: System)
    requires Inv(s)
    ensures Inv(Next(s, WritePause))
  {
    hide NextAudio, Fits, RunStates, WriteRunState;
    if s.ui.Pausing? {
      WriteRunStatePends(s, Paused);
      assert [] + [Paused] == [Paused];
    }
  }

  lemma ResumeKeepsInv(s: System)
    requires Inv(s)
    ensures Inv(Next(s, WriteResume))
  {
    hide NextAudio, Fits, RunStates, WriteRunState;
    if s.ui.Resuming? {
      ResumeFits(s);
      WriteRunStatePends(s, Running);
      NoRunStates();
      assert [] + [Running] == [Running];
    }
  }

  lemma NoRunStates()
    ensures RunStates([]) == [] && RunStates([StateRequest]) == []
  {
    assert RunStates([StateRequest]) == RunStates([StateRequest][1..]);
  }

  lemma UiKeepsInv(s: System, a: Action)
    requires Inv(s) && !ByAudio(a)
    ensures Inv(Next(s, a))
  {
    hide Inv, Next;
    if a.SendControl? || a.SendEvent? || a.SetPort? || a.Request? {
      MessagesKeepInv(s, a);
    } else if a.WritePause? {
      PauseKeepsInv(s);
    } else if a.WriteResume? {
      ResumeKeepsInv(s);
    } else {
      StatesKeepInv(s, a);
    }
  }

  lemma StatesKeepInv(s: System, a: Action)
    requires Inv(s) && !ByAudio(a)
    requires !a.SendControl? && !a.SendEvent? && !a.SetPort? && !a.Request? && !a.WritePause? && !a.WriteResume?
    ensures Inv(Next(s, a))
  {
    hide NextAudio, RunStates;
  }

  /** What taking the first message leaves of at most one run state. */
  lemma RunStatesTail(q: seq<Message>)
    requires q != []
    ensures RunStates(q) == [] ==> !q[0].RunStateChange? && RunStates(q[1..]) == []
    ensures RunStates(q) == [Running] ==> OneAtMost(q, Running)
    ensures RunStates(q) == [Paused] ==> OneAtMost(q, Paused)
  {
    var rest := RunStates(q[1..]);
    if q[0].RunStateChange? {
      assert RunStates(q) == [q[0].state] + rest && RunStates(q)[0] == q[0].state;
    } else {
      assert RunStates(q) == [] + rest == rest;
    }
  }

  /** The first message is the one with the run state, or leaves it. */
  predicate OneAtMost(q: seq<Message>, r: RunState)
    requires q != []
  {
    if q[0].RunStateChange? then q[0].state == r && RunStates(q[1..]) == [] else RunStates(q[1..]) == [r]
  }

  lemma RunStatesLast(q: seq<Message>)
    requires |q| > 1 && q[|q| - 1].RunStateChange?
    ensures RunStates(q[1..]) != []
  {
    hide RunStates;
    RunStatesSnoc(q[1..|q| - 1], q[|q| - 1]);
    assert q[1..] == q[1..|q| - 1] + [q[|q| - 1]];
  }

  lemma ReadBodyKeepsPending(s: System)
    ensures Pending(Next(s, ReadBody)) == Pending(s)
  {
    if s.audio.InBody? && s.queue != [] {
      assert [s.queue[0]] + s.queue[1..] == s.queue;
    }
  }

  lemma ReadBodyKeepsInv(s: System)
    requires Inv(s)
    ensures Inv(Next(s, ReadBody))
  {
    hide NextUi, RunStates, Fits, Pending;
    ReadBodyKeepsPending(s);
  }

  lemma ApplyKeepsUiInv(s: System)
    requires UiInv(s)
    ensures UiInv(Next(s, Apply))
  {
    hide Next, UiInv;
    if s.audio.Holding? {
      if s.ui == Waiting(true) {
        ApplyWhileWaiting(s);
      } else if Free(s.ui) {
        ApplyWhileFree(s);
      } else {
        ApplyOtherwise(s);
      }
    } else {
      ApplyNothing(s);
    }
  }

  lemma ApplyNothing(s: System)
    requires !s.audio.Holding?
    ensures Next(s, Apply) == s
  {
  }

  /** The last message is the pause, so that everything has been applied when it has. */
  lemma ApplyWhileWaiting(s: System)
    requires UiInv(s) && s.audio.Holding? && s.ui == Waiting(true)
    ensures UiInv(Next(s, Apply))
  {
    hide NextUi, RunStates, P.ApplyControl;
    var q := Pending(s);
    assert q[1..] == s.queue;
    RunStatesTail(q);
    if |q| > 1 {
      RunStatesLast(q);
      assert s.queue[|q| - 2] == PAUSE;
    }
  }

  lemma ApplyWhileFree(s: System)
    requires UiInv(s) && s.audio.Holding? && Free(s.ui)
    ensures UiInv(Next(s, Apply))
  {
    hide NextUi, RunStates, P.ApplyControl;
    var q, t := Pending(s), Next(s, Apply);
    assert q[1..] == s.queue == Pending(t) && q[0] == s.audio.m;
    RunStatesTail(q);
    if RunStates(q) == [] {
      assert t.runState == s.runState && RunStates(Pending(t)) == [];
    } else {
      assert RunStates(q) == [Running] && OneAtMost(q, Running);
    }
  }

  lemma ApplyOtherwise(s: System)
    requires UiInv(s) && s.audio.Holding? && s.ui != Waiting(true) && !Free(s.ui)
    ensures UiInv(Next(s, Apply))
  {
    hide NextUi, RunStates, P.ApplyControl;
    var q, t := Pending(s), Next(s, Apply);
    assert q[1..] == s.queue == Pending(t) && q[0] == s.audio.m;
    RunStatesTail(q);
  }

  lemma ApplyKeepsInv(s: System)
    requires Inv(s)
    ensures Inv(Next(s, Apply))
  {
    hide NextUi, RunStates, UiInv;
    ApplyKeepsUiInv(s);
    if s.audio.Holding? {
      assert Pending(s)[1..] == s.queue && s.audio.m in Pending(s);
      if !s.audio.bypass && !s.audio.tookPause {
        RunningStays(s);
      }
    }
  }

  /** In the running state only a message to pause can be pending. */
  lemma RunningStays(s: System)
    requires UiInv(s) && s.runState == Running && s.audio.Holding?
    ensures P.IsPause(s.audio.m) || P.ApplyRunState(s.runState, s.audio.m) == Running
  {
    hide RunStates;
    RunStatesTail(Pending(s));
  }

  lemma AudioKeepsInv(s: System, a: Action)
    requires Inv(s) && ByAudio(a)
    ensures Inv(Next(s, a))
  {
    hide NextUi, RunStates, P.ApplyControl;
    if a.ReadBody? {
      ReadBodyKeepsInv(s);
    } else if a.Apply? {
      ApplyKeepsInv(s);
    }
  }

  lemma AudioKeepsUi(s: System, a: Action)
    requires ByAudio(a)
    ensures Next(s, a).ui == s.ui
  {
  }

  lemma KeepsInv(s: System, a: Action)
    requires Inv(s)
    ensures Inv(Next(s, a))
  {
    hide *;
    if ByAudio(a) {
      AudioKeepsInv(s, a);
    } else {
      UiKeepsInv(s, a);
    }
  }

  lemma {:induction false} RunKeepsInv(s: System, actions: seq<Action>)
    requires Inv(s)
    ensures Inv(Exec(s, actions))
  {
    hide Inv, Next;
    if actions != [] {
      RunKeepsInv(s, actions[..|actions| - 1]);
      KeepsInv(Exec(s, actions[..|actions| - 1]), actions[|actions| - 1]);
    }
  }

  // ------------------------------------------------------ the pause window

  /** From the return of the wait until the message to resume has been applied. */
  predicate InWindow(s: System) {
    Held(s.ui) || Running in RunStates(Pending(s))
  }

  predicate InDrain(a: Audio) {
    a.Draining? || a.InBody? || a.Holding? || a.Posting?
  }

  /** The audio thread is in a cycle that runs the plugin. */
  predicate InPluginCycle(s: System) {
    s.audio == Entered(false) || s.audio.PluginRuns? || (InDrain(s.audio) && !s.audio.bypass)
  }

  /** ... and it has applied the message to pause in this cycle. */
  predicate TookPause(s: System) {
    s.audio.Posting? || ((InDrain(s.audio) || s.audio.PluginRuns?) && s.audio.tookPause)
  }

  /**
   In every run: throughout the window the process is paused, so that each cycle that starts bypasses the
   plugin, and a cycle that still runs the plugin is the one that took the message to pause.
   */
  lemma PauseWindow(s: System, actions: seq<Action>)
    requires Init(s)
    ensures var t := Exec(s, actions);
      InWindow(t) ==>
        && t.runState == Paused
        && (InPluginCycle(t) ==> TookPause(t))
        && (t.audio.Between? ==> Next(t, StartCycle).audio == Entered(true))
  {
    hide RunStates, Exec;
    InvInit(s);
    RunKeepsInv(s, actions);
  }

  // ------------------------------------------------------ whole cycles

  predicate BeginsCycle(s: System, actions: seq<Action>, k: nat) {
    k < |actions| && actions[k] == StartCycle && Exec(s, actions[..k]).audio.Between?
  }

  /** The `k`-th action begins a cycle, and no other begins one after it. */
  predicate LastCycleAt(s: System, actions: seq<Action>, k: nat) {
    BeginsCycle(s, actions, k) && forall j | k < j < |actions| :: !BeginsCycle(s, actions, j)
  }

  /** Before the last action the last cycle is the same, unless it begins with that action. */
  lemma LastCycleBefore(s: System, actions: seq<Action>, k: nat)
    requires LastCycleAt(s, actions, k) && k + 1 < |actions|
    ensures var before, a := actions[..|actions| - 1], actions[|actions| - 1];
      && LastCycleAt(s, before, k) && before[..k] == actions[..k]
      && Exec(s, actions) == Next(Exec(s, before), a)
      && !(a == StartCycle && Exec(s, before).audio.Between?)
  {
    hide Next;
    var before := actions[..|actions| - 1];
    assert before[..k] == actions[..k];
    forall j | k < j < |before| ensures !BeginsCycle(s, before, j) {
      assert before[..j] == actions[..j] && !BeginsCycle(s, actions, j);
    }
    assert !BeginsCycle(s, actions, |actions| - 1);
  }

  /** A cycle that goes on has begun. */
  lemma {:induction false} LastCycleExists(s: System, actions: seq<Action>) returns (k: nat)
    requires s.audio.Between? && !Exec(s, actions).audio.Between?
    ensures LastCycleAt(s, actions, k)
  {
    hide Next;
    var before, a := actions[..|actions| - 1], actions[|actions| - 1];
    if a == StartCycle && Exec(s, before).audio.Between? {
      k := |before|;
    } else {
      if Exec(s, before).audio.Between? {
        StaysBetween(Exec(s, before), a);
      }
      k := LastCycleExists(s, before);
      assert before[..k] == actions[..k];
      forall j | k < j < |actions| ensures !BeginsCycle(s, actions, j) {
        if j < |before| {
          assert before[..j] == actions[..j] && !BeginsCycle(s, before, j);
        }
      }
    }
  }

  lemma StaysBetween(s: System, a: Action)
    requires a != StartCycle && s.audio.Between?
    ensures Next(s, a).audio.Between?
  {
    hide NextUi;
    if !ByAudio(a) {
      UiKeepsAudio(s, a);
    }
  }

  lemma LastCycleBegins(s: System, actions: seq<Action>, k: nat)
    requires LastCycleAt(s, actions, k) && k + 1 == |actions|
    ensures Exec(s, actions) == Next(Exec(s, actions[..k]), StartCycle)
  {
    hide Next;
  }

  /** The audio thread is in no cycle, or in one that bypasses the plugin. */
  predicate Bypassing(a: Audio) {
    a.Between? || a == Entered(true) || (InDrain(a) && a.bypass)
  }

  lemma UiKeepsAudio(s: System, a: Action)
    requires !ByAudio(a)
    ensures Next(s, a).audio == s.audio
  {
    hide NextAudio, Fits;
  }

  lemma BypassingStays(s: System, a: Action)
    requires Bypassing(s.audio) && !(a == StartCycle && s.audio.Between?)
    ensures Bypassing(Next(s, a).audio)
  {
    hide NextUi, P.ApplyControl, P.ApplyRunState;
    if !ByAudio(a) {
      UiKeepsAudio(s, a);
    }
  }

  /** A cycle that begins in the paused state does not run the plugin, whatever happens in it. */
  lemma {:induction false} PausedCycleBypasses(s: System, actions: seq<Action>, k: nat)
    requires LastCycleAt(s, actions, k) && Exec(s, actions[..k]).runState == Paused
    ensures Bypassing(Exec(s, actions).audio)
    ensures !Exec(s, actions).audio.PluginRuns?
  {
    hide Next, Exec, LastCycleAt, BeginsCycle;
    if k + 1 < |actions| {
      LastCycleBefore(s, actions, k);
      PausedCycleBypasses(s, actions[..|actions| - 1], k);
      BypassingStays(Exec(s, actions[..|actions| - 1]), actions[|actions| - 1]);
    } else {
      LastCycleInRange(s, actions, k);
      LastCycleBegins(s, actions, k);
      BeginsBypassing(Exec(s, actions[..k]));
    }
  }

  lemma LastCycleInRange(s: System, actions: seq<Action>, k: nat)
    requires LastCycleAt(s, actions, k)
    ensures k < |actions| && Exec(s, actions[..k]).audio.Between?
  {
  }

  lemma BeginsBypassing(s: System)
    requires s.audio.Between?
    ensures Next(s, StartCycle).audio == Entered(s.runState == Paused)
  {
  }

  lemma RunningStaysInCycle(s: System, a: Action)
    requires !Bypassing(s.audio) && !(a.FinishRun? && s.audio.PluginRuns?)
    ensures !Bypassing(Next(s, a).audio)
  {
    hide NextUi, P.ApplyControl, P.ApplyRunState;
    if !ByAudio(a) {
      UiKeepsAudio(s, a);
    }
  }

  /** A cycle that begins otherwise does not end before it has run the plugin. */
  lemma {:induction false} RunningCycleRuns(s: System, actions: seq<Action>, k: nat) returns (j: nat)
    requires LastCycleAt(s, actions, k) && Exec(s, actions[..k]).runState != Paused
    ensures !Bypassing(Exec(s, actions).audio)
            || (k < j < |actions| && actions[j] == FinishRun && Exec(s, actions[..j]).audio.PluginRuns?)
  {
    hide Next, Exec, LastCycleAt, Bypassing;
    LastCycleInRange(s, actions, k);
    j := 0;
    if k + 1 < |actions| {
      var before, a := actions[..|actions| - 1], actions[|actions| - 1];
      LastCycleBefore(s, actions, k);
      j := RunningCycleRuns(s, before, k);
      if !Bypassing(Exec(s, before).audio) {
        if a.FinishRun? && Exec(s, before).audio.PluginRuns? {
          j := |actions| - 1;
        } else {
          RunningStaysInCycle(Exec(s, before), a);
        }
      } else {
        assert before[..j] == actions[..j];
      }
    } else {
      LastCycleBegins(s, actions, k);
      BeginsBypassing(Exec(s, actions[..k]));
      assert !Bypassing(Entered(false)) by {
        EnteredRunning();
      }
    }
  }

  lemma EnteredRunning()
    ensures !Bypassing(Entered(false))
  {
  }

  /** The action applies the message to pause. */
  predicate AppliesPauseAt(s: System, actions: seq<Action>, j: nat) {
    && j < |actions| && actions[j] == Apply
    && Exec(s, actions[..j]).audio.Holding? && Exec(s, actions[..j]).audio.m == PAUSE
  }

  lemma TookPauseBefore(s: System, a: Action)
    requires !(a == StartCycle && s.audio.Between?) && TookPause(Next(s, a))
    requires !(a.Apply? && s.audio.Holding? && s.audio.m == PAUSE)
    ensures TookPause(s)
  {
    hide NextUi, P.ApplyControl, P.ApplyRunState;
    if !ByAudio(a) {
      UiKeepsAudio(s, a);
    }
  }

  /** What the audio thread notes of a pause is that it applied the message to pause in this cycle. */
  lemma {:induction false} TookPauseMeans(s: System, actions: seq<Action>, k: nat) returns (j: nat)
    requires LastCycleAt(s, actions, k) && TookPause(Exec(s, actions))
    ensures k < j && AppliesPauseAt(s, actions, j)
  {
    hide Next, Exec, LastCycleAt, TookPause;
    LastCycleInRange(s, actions, k);
    if k + 1 < |actions| {
      var before, a := actions[..|actions| - 1], actions[|actions| - 1];
      LastCycleBefore(s, actions, k);
      var u := Exec(s, before);
      if a.Apply? && u.audio.Holding? && u.audio.m == PAUSE {
        j := |actions| - 1;
      } else {
        TookPauseBefore(u, a);
        j := TookPauseMeans(s, before, k);
        assert before[..j] == actions[..j];
      }
    } else {
      LastCycleBegins(s, actions, k);
      BeginsBypassing(Exec(s, actions[..k]));
      NotTookPause(Next(Exec(s, actions[..k]), StartCycle));
      assert false;
    }
  }

  lemma NotTookPause(s: System)
    requires s.audio.Entered?
    ensures !TookPause(s)
  {
  }

  /**
   In every run: a cycle that runs the plugin in the window began in the running state, and has applied the
   message to pause since.
   */
  lemma RunInWindowTookPause(s: System, actions: seq<Action>) returns (k: nat, j: nat)
    requires Init(s) && InWindow(Exec(s, actions)) && InPluginCycle(Exec(s, actions))
    ensures LastCycleAt(s, actions, k) && Exec(s, actions[..k]).runState == Running
    ensures k < j && AppliesPauseAt(s, actions, j)
  {
    hide Exec, LastCycleAt, InWindow, AppliesPauseAt, Init, InPluginCycle, Bypassing, TookPause;
    PauseWindow(s, actions);
    InCycle(s, Exec(s, actions));
    k := LastCycleExists(s, actions);
    LastCycleInRange(s, actions, k);
    if Exec(s, actions[..k]).runState == Paused {
      PausedCycleBypasses(s, actions, k);
    }
    j := TookPauseMeans(s, actions, k);
  }

  lemma InCycle(s: System, t: System)
    ensures Init(s) ==> s.audio.Between?
    ensures InPluginCycle(t) ==> !t.audio.Between? && !Bypassing(t.audio)
  {
  }

  // ------------------------------------------------------ the semaphore

  function CountPaused(rs: seq<RunState>): nat {
    if rs == [] then 0 else CountPaused(rs[..|rs| - 1]) + if rs[|rs| - 1] == Paused then 1 else 0
  }

  lemma {:induction false} PausesSnoc(q: seq<Message>, m: Message)
    ensures P.Pauses(q + [m]) == P.Pauses(q) + if P.IsPause(m) then 1 else 0
  {
    if q == [] {
      assert q + [m] == [m] && [m][1..] == [];
    } else {
      assert (q + [m])[0] == q[0] && (q + [m])[1..] == q[1..] + [m];
      PausesSnoc(q[1..], m);
    }
  }

  /** A pause first, and then a resume after each pause and a pause after each resume. */
  predicate Alternating(rs: seq<RunState>) {
    rs == [] ||
    (var before := rs[..|rs| - 1];
     Alternating(before) && rs[|rs| - 1] == if LastIsPause(before) then Running else Paused)
  }

  predicate LastIsPause(rs: seq<RunState>) {
    rs != [] && rs[|rs| - 1] == Paused
  }

  /**
   The run states that have been written alternate, beginning with a pause, and each pause is
   pending, about to be posted, in the semaphore, or waited for.
   */
  predicate HistoryInv(s: System) {
    && Alternating(s.written)
    && (LastIsPause(s.written) <==> (s.ui == Waiting(true) || Held(s.ui)))
    && CountPaused(s.written) == P.Pauses(Pending(s)) + (if s.audio.Posting? then 1 else 0) + s.paused + s.waits
  }

  lemma WrittenSnoc(rs: seq<RunState>, r: RunState)
    requires Alternating(rs) && (r == Paused <==> !LastIsPause(rs))
    ensures Alternating(rs + [r]) && (LastIsPause(rs + [r]) <==> r == Paused)
    ensures CountPaused(rs + [r]) == CountPaused(rs) + if r == Paused then 1 else 0
  {
    assert (rs + [r])[..|rs|] == rs;
  }

  lemma WritesKeepHistoryInv(s: System, a: Action)
    requires Inv(s) && HistoryInv(s) && (a.WritePause? || a.WriteResume?)
    ensures HistoryInv(Next(s, a))
  {
    hide Inv, HistoryInv, Fits, WriteRunState;
    if a.WriteResume? {
      ResumeKeepsHistoryInv(s);
    } else {
      PauseKeepsHistoryInv(s);
    }
  }

  lemma ResumeKeepsHistoryInv(s: System)
    requires Inv(s) && HistoryInv(s)
    ensures HistoryInv(Next(s, WriteResume))
  {
    hide NextAudio, RunStates, Fits, WriteRunState, Inv, P.Pauses, Alternating, LastIsPause, CountPaused, Pending;
    if s.ui.Resuming? {
      ResumeFits(s);
      RunStateCounts(s, Running);
      WrittenSnoc(s.written, Running);
      SamePending(WriteRunState(s, Running), Idle);
    }
  }

  lemma PauseKeepsHistoryInv(s: System)
    requires Inv(s) && HistoryInv(s)
    ensures HistoryInv(Next(s, WritePause))
  {
    hide NextAudio, RunStates, Fits, WriteRunState, Inv, P.Pauses, Alternating, LastIsPause, CountPaused, Pending;
    if s.ui.Pausing? {
      RunStateCounts(s, Paused);
      WrittenSnoc(s.written, Paused);
      SamePending(WriteRunState(s, Paused), Waiting(Fits(s, PAUSE)));
    }
  }

  lemma SamePending(s: System, ui: Ui)
    ensures Pending(s.(ui := ui)) == Pending(s)
  {
  }

  lemma RunStateCounts(s: System, r: RunState)
    ensures var t := WriteRunState(s, r);
      && t.(queue := s.queue, written := s.written) == s
      && t.written == (if Fits(s, RunStateChange(r)) then s.written + [r] else s.written)
      && P.Pauses(Pending(t)) == P.Pauses(Pending(s)) + if Fits(s, RunStateChange(r)) && r == Paused then 1 else 0
  {
    hide Fits, P.Pauses;
    WritePends(s, RunStateChange(r));
    PausesSnoc(Pending(s), RunStateChange(r));
  }

  lemma MessagesKeepHistoryInv(s: System, a: Action)
    requires HistoryInv(s) && !ByAudio(a) && !a.WritePause? && !a.WriteResume? && !a.SetPort?
    requires s.ui.Waiting? && s.paused > 0 ==> s.ui.written
    ensures HistoryInv(Next(s, a))
  {
    hide NextAudio, RunStates, Fits, Write, CountPaused, Alternating, LastIsPause, P.Pauses;
    match a
    case SendControl(port, value) =>
      if HasPort(s, port) {
        WriteKeepsPauses(s, ControlChange(port, value));
      }
    case SendEvent(m) =>
      WriteKeepsPauses(s, m);
    case Request =>
      WriteKeepsPauses(s, StateRequest);
    case _ =>
  }

  lemma SetPortKeepsHistoryInv(s: System)
    requires HistoryInv(s)
    ensures HistoryInv(Next(s, SetPort))
  {
    hide NextAudio, HistoryInv, Fits, Issue;
    if s.ui.SettingPort? && HasPort(s, s.ui.port) {
      IssueKeepsHistoryInv(s, s.ui.port, s.ui.value);
      DirectKeepsHistoryInv(s, s.ui.port, s.ui.value);
      EchoingKeepsHistoryInv(s);
      EchoingKeepsHistoryInv(Issue(s, s.ui.port, s.ui.value));
      EchoingKeepsHistoryInv(s.(controls := s.controls[s.ui.port := s.ui.value],
                                issued := s.issued[s.ui.port := s.ui.value]));
    }
  }

  lemma IssueKeepsHistoryInv(s: System, port: nat, value: U32)
    requires HistoryInv(s) && HasPort(s, port)
    ensures HistoryInv(Issue(s, port, value))
    ensures Issue(s, port, value).(queue := s.queue, issued := s.issued) == s
  {
    hide Fits, Write, CountPaused, Alternating, LastIsPause, P.Pauses;
    WriteKeepsPauses(s, ControlChange(port, value));
  }

  lemma DirectKeepsHistoryInv(s: System, port: nat, value: U32)
    requires HistoryInv(s) && HasPort(s, port)
    ensures HistoryInv(s.(controls := s.controls[port := value], issued := s.issued[port := value]))
  {
    hide CountPaused, Alternating, LastIsPause, P.Pauses;
  }

  lemma EchoingKeepsHistoryInv(s: System)
    requires HistoryInv(s) && s.ui.SettingPort?
    ensures HistoryInv(s.(ui := Echoing(s.ui.held))) && HistoryInv(s.(ui := Restoring(s.ui.held)))
  {
    hide CountPaused, Alternating, LastIsPause, P.Pauses;
  }

  lemma WriteKeepsPauses(s: System, m: Message)
    ensures Write(s, m).(queue := s.queue) == s
    ensures !m.RunStateChange? ==> P.Pauses(Pending(Write(s, m))) == P.Pauses(Pending(s))
  {
    hide Fits, P.Pauses, Write, Pending;
    WritePends(s, m);
    PausesSnoc(Pending(s), m);
  }

  lemma AudioKeepsHistoryInv(s: System, a: Action)
    requires HistoryInv(s) && ByAudio(a)
    ensures HistoryInv(Next(s, a))
  {
    hide NextUi, RunStates, CountPaused, Alternating, LastIsPause;
    if a.ReadBody? {
      ReadBodyKeepsPending(s);
    } else if a.Apply? && s.audio.Holding? {
      assert Pending(s)[1..] == s.queue;
    }
  }

  lemma KeepsHistoryInv(s: System, a: Action)
    requires Inv(s) && HistoryInv(s)
    ensures HistoryInv(Next(s, a))
  {
    hide RunStates, HistoryInv, Next;
    if a.WritePause? || a.WriteResume? {
      WritesKeepHistoryInv(s, a);
    } else if ByAudio(a) {
      AudioKeepsHistoryInv(s, a);
    } else if a.SetPort? {
      SetPortKeepsHistoryInv(s);
    } else {
      MessagesKeepHistoryInv(s, a);
    }
  }

  /**
   In every run pauses are conserved, the semaphore is never above one, and it is back at zero whenever
   the UI thread is outside of a state application that paused.
   */
  lemma {:induction false} PausesConserved(s: System, actions: seq<Action>)
    requires Init(s)
    ensures var t := Exec(s, actions);
      && HistoryInv(t)
      && t.paused <= 1
      && (t.ui.Idle? ==> t.paused == 0)
  {
    hide RunStates, Next, HistoryInv;
    InvInit(s);
    RunKeepsInv(s, actions);
    if actions == [] {
      HistoryInit(s);
    } else {
      var before := actions[..|actions| - 1];
      PausesConserved(s, before);
      RunKeepsInv(s, before);
      KeepsHistoryInv(Exec(s, before), actions[|actions| - 1]);
    }
  }

  lemma HistoryInit(s: System)
    requires Init(s)
    ensures HistoryInv(s)
  {
  }

  // ------------------------------------------------------ the order of control values

  /** What the control values will be once the queue has been drained. */
  function Drained(controls: seq<U32>, q: seq<Message>): (r: seq<U32>)
    ensures |r| == |controls|
    decreases |q|
  {
    if q == [] then controls else Drained(P.ApplyControl(controls, q[0]), q[1..])
  }

  lemma {:induction false} DrainedSnoc(controls: seq<U32>, q: seq<Message>, m: Message)
    ensures |Drained(controls, q)| == |controls|
    ensures Drained(controls, q + [m]) == P.ApplyControl(Drained(controls, q), m)
    decreases |q|
  {
    if q == [] {
      assert q + [m] == [m] && [m][1..] == [];
    } else {
      assert (q + [m])[0] == q[0] && (q + [m])[1..] == q[1..] + [m];
      DrainedSnoc(P.ApplyControl(controls, q[0]), q[1..], m);
    }
  }

  /** The queue has no control values but for the given ports. */
  predicate NoControls(q: seq<Message>, except: set<nat>) {
    forall m | m in q && m.ControlChange? :: m.port as nat in except
  }

  lemma {:induction false} DrainedWithout(controls: seq<U32>, q: seq<Message>, p: nat)
    requires p < |controls| && forall m | m in q && m.ControlChange? :: m.port != p
    ensures Drained(controls, q)[p] == controls[p]
    decreases |q|
  {
    if q != [] {
      assert q[0] in q && forall m | m in q[1..] :: m in q;
      DrainedWithout(P.ApplyControl(controls, q[0]), q[1..], p);
    }
  }

  /** A queued value for a port hides whatever the port had. */
  lemma {:induction false} DrainedHides(c: seq<U32>, d: seq<U32>, q: seq<Message>, k: nat)
    requires |c| == |d| && k < |q| && q[k].ControlChange? && q[k].port < |c|
    ensures Drained(c, q)[q[k].port] == Drained(d, q)[q[k].port]
    decreases |q|
  {
    if k > 0 {
      DrainedHides(P.ApplyControl(c, q[0]), P.ApplyControl(d, q[0]), q[1..], k - 1);
    } else {
      DrainedSame(P.ApplyControl(c, q[0]), P.ApplyControl(d, q[0]), q[1..], q[0].port);
    }
  }

  lemma {:induction false} DrainedSame(c: seq<U32>, d: seq<U32>, q: seq<Message>, port: nat)
    requires port < |c| == |d| && c[port] == d[port]
    ensures Drained(c, q)[port] == Drained(d, q)[port]
    decreases |q|
  {
    if q != [] {
      DrainedSame(P.ApplyControl(c, q[0]), P.ApplyControl(d, q[0]), q[1..], port);
    }
  }

  /** The controls that only the UI sets. */
  predicate Owned(s: System, p: nat) {
    p < |s.issued| && p !in s.tempoPorts
  }

  /** Once the pending messages have been applied, each of these has the last value that the UI issued for it. */
  predicate Synced(s: System) {
    && |s.controls| == |s.issued|
    && forall p | 0 <= p < |s.issued| && Owned(s, p) :: Drained(s.controls, Pending(s))[p] == s.issued[p]
  }

  /** The condition at the beginning of a state application. */
  predicate OrderSafe(s: System) {
    s.runState == Running || NoControls(Pending(s), s.tempoPorts)
  }

  /** A value that is about to be set directly, or may be, has no control values pending before it. */
  predicate OrderInv(s: System) {
    && Synced(s)
    && (InRestore(s.ui) && !s.ui.held && s.runState == Paused ==> NoControls(Pending(s), s.tempoPorts))
    && (s.ui.SettingPort? && s.ui.direct ==> NoControls(Pending(s), s.tempoPorts))
    && (s.ui.SettingPort? && !s.ui.direct ==> s.runState == Running)
  }

  lemma IssueKeepsSync(s: System, port: U32, value: U32)
    requires Synced(s) && port < |s.issued|
    ensures Synced(Issue(s, port, value))
  {
    hide Fits, Drained;
    var m, t := ControlChange(port, value), Issue(s, port, value);
    WritePends(s, m);
    DrainedSnoc(s.controls, Pending(s), m);
    if t != s {
      assert Pending(t) == Pending(s) + [m] && t.controls == s.controls && t.issued == s.issued[port := value];
      forall p | 0 <= p < |t.issued| && Owned(t, p) ensures Drained(t.controls, Pending(t))[p] == t.issued[p] {
        assert Owned(s, p);
      }
    }
  }

  lemma WriteKeepsSync(s: System, m: Message)
    requires Synced(s) && !m.ControlChange?
    ensures Synced(Write(s, m)) && Write(s, m).(queue := s.queue) == s
    ensures NoControls(Pending(s), s.tempoPorts) ==> NoControls(Pending(Write(s, m)), s.tempoPorts)
  {
    hide Fits, Drained;
    WritePends(s, m);
    DrainedSnoc(s.controls, Pending(s), m);
    var t := Write(s, m);
    if t != s {
      assert Pending(t) == Pending(s) + [m] && t.controls == s.controls && t.issued == s.issued;
      forall p | 0 <= p < |t.issued| && Owned(t, p) ensures Drained(t.controls, Pending(t))[p] == t.issued[p] {
        assert Owned(s, p);
      }
    }
  }

  lemma DirectKeepsSync(s: System, port: nat, value: U32)
    requires Synced(s) && port < |s.issued| && NoControls(Pending(s), s.tempoPorts)
    ensures Synced(s.(controls := s.controls[port := value], issued := s.issued[port := value]))
  {
    hide Drained;
    var t := s.(controls := s.controls[port := value], issued := s.issued[port := value]);
    forall p | 0 <= p < |t.issued| && Owned(t, p) ensures Drained(t.controls, Pending(t))[p] == t.issued[p] {
      assert Owned(s, p);
      DrainedWithout(s.controls, Pending(s), p);
      DrainedWithout(t.controls, Pending(t), p);
    }
  }

  lemma TempoKeepsSync(s: System, port: nat, value: U32)
    requires Synced(s) && port < |s.issued| && port in s.tempoPorts
    ensures Synced(s.(controls := s.controls[port := value]))
  {
    hide Drained;
    var t := s.(controls := s.controls[port := value]);
    forall p | 0 <= p < |t.issued| && Owned(t, p) ensures Drained(t.controls, Pending(t))[p] == t.issued[p] {
      assert Owned(s, p);
      DrainedSame(s.controls, t.controls, Pending(s), p);
    }
  }

  lemma SetPortKeepsOrder(s: System)
    requires Inv(s) && OrderInv(s)
    ensures OrderInv(Next(s, SetPort))
  {
    hide NextAudio, Fits, Drained, RunStates, UiInv, AudioInv;
    if s.ui.SettingPort? && s.ui.direct {
      DirectKeepsSync(s, s.ui.port, s.ui.value);
    } else if s.ui.SettingPort? {
      IssueKeepsSync(s, s.ui.port, s.ui.value);
    }
  }

  lemma MessagesKeepOrder(s: System, a: Action)
    requires Inv(s) && OrderInv(s) && (a.SendEvent? || a.Request? || a.WritePause? || a.WriteResume?)
    ensures OrderInv(Next(s, a))
  {
    hide NextAudio, Fits, Drained, RunStates, UiInv, AudioInv, Write, NoControls;
    match a
    case SendEvent(m) =>
      if m.EventTransfer? {
        WriteKeepsSync(s, m);
      }
    case Request =>
      WriteKeepsSync(s, StateRequest);
    case WritePause =>
      WriteKeepsSync(s, PAUSE);
      WrittenSync(s, Paused);
    case WriteResume =>
      WriteKeepsSync(s, RESUME);
      WrittenSync(s, Running);
  }

  lemma WrittenSync(s: System, r: RunState)
    ensures Synced(Write(s, RunStateChange(r))) ==> Synced(WriteRunState(s, r))
    ensures Pending(WriteRunState(s, r)) == Pending(Write(s, RunStateChange(r)))
    ensures WriteRunState(s, r).(queue := s.queue, written := s.written) == s
  {
    hide Fits, Drained;
    var t, u := Write(s, RunStateChange(r)), WriteRunState(s, r);
    assert forall p | Owned(u, p) :: Owned(t, p);
  }

  lemma UiKeepsOrder(s: System, a: Action)
    requires Inv(s) && OrderInv(s) && !ByAudio(a)
    requires a.BeginApply? && s.ui.Idle? ==> OrderSafe(s)
    ensures OrderInv(Next(s, a))
  {
    hide NextAudio, Fits, Drained, RunStates, AudioInv;
    if a.SendEvent? || a.Request? || a.WritePause? || a.WriteResume? {
      MessagesKeepOrder(s, a);
    } else if a.SendControl? {
      if HasPort(s, a.port) {
        IssueKeepsSync(s, a.port, a.value);
      }
    } else if a.SetPort? {
      SetPortKeepsOrder(s);
    }
  }

  lemma ApplyKeepsOrder(s: System)
    requires Inv(s) && OrderInv(s)
    ensures OrderInv(Next(s, Apply))
  {
    hide NextUi, RunStates, P.ApplyControl;
    if s.audio.Holding? {
      var q, t := Pending(s), Next(s, Apply);
      assert q[1..] == s.queue == Pending(t);
      RunStatesTail(q);
      assert forall m | m in s.queue :: m in q;
      assert Drained(t.controls, Pending(t)) == Drained(s.controls, q);
      assert forall p | Owned(t, p) :: Owned(s, p);
    }
  }

  lemma ReadBodyKeepsOrder(s: System)
    requires Inv(s) && OrderInv(s)
    ensures OrderInv(Next(s, ReadBody))
  {
    hide NextUi, Inv, Drained, Pending, NoControls;
    ReadBodyKeepsPending(s);
    assert forall p | Owned(Next(s, ReadBody), p) :: Owned(s, p);
  }

  lemma AudioKeepsOrder(s: System, a: Action)
    requires Inv(s) && OrderInv(s) && ByAudio(a)
    ensures OrderInv(Next(s, a))
  {
    hide NextUi, RunStates, UiInv, AudioInv, Drained, P.ApplyControl;
    if a.ReadBody? {
      ReadBodyKeepsOrder(s);
    } else if a.Apply? {
      ApplyKeepsOrder(s);
    } else if a.StoreTempo? && HasPort(s, a.tempoPort) && a.tempoPort in s.tempoPorts {
      TempoKeepsSync(s, a.tempoPort, a.tempo);
    }
  }

  /** Every state application of the run begins when that is safe for the order of control values. */
  predicate OrderedRun(s: System, actions: seq<Action>) {
    actions == [] ||
    (var before := actions[..|actions| - 1];
     && OrderedRun(s, before)
     && (actions[|actions| - 1].BeginApply? && Exec(s, before).ui.Idle? ==> OrderSafe(Exec(s, before))))
  }

  lemma {:induction false} RunKeepsOrder(s: System, actions: seq<Action>)
    requires Inv(s) && OrderInv(s) && OrderedRun(s, actions)
    ensures OrderInv(Exec(s, actions))
  {
    hide Next, OrderInv, Inv, OrderSafe;
    if actions != [] {
      var before, a := actions[..|actions| - 1], actions[|actions| - 1];
      RunKeepsOrder(s, before);
      RunKeepsInv(s, before);
      if ByAudio(a) {
        AudioKeepsOrder(Exec(s, before), a);
      } else {
        UiKeepsOrder(Exec(s, before), a);
      }
    }
  }

  /**
   In every ordered run, mixing queued and direct writes, a drained ring leaves the last value issued for
   each port, but for those that the audio thread sets to the tempo.
   */
  lemma ControlsKeepOrder(s: System, actions: seq<Action>)
    requires Init(s) && OrderedRun(s, actions)
    ensures var t := Exec(s, actions);
      && Synced(t)
      && (Pending(t) == [] ==> forall p | 0 <= p < |t.issued| && Owned(t, p) :: t.controls[p] == t.issued[p])
  {
    hide Exec, OrderedRun;
    InvInit(s);
    RunKeepsOrder(s, actions);
  }

  // ------------------------------------------------------ exactly when

  lemma {:induction false} ExecAppend(s: System, first: seq<Action>, then_: seq<Action>)
    ensures Exec(s, first + then_) == Exec(Exec(s, first), then_)
  {
    hide Next;
    if then_ == [] {
      assert first + then_ == first;
    } else {
      var n := |then_| - 1;
      ExecAppend(s, first, then_[..n]);
      assert (first + then_)[..|first| + n] == first + then_[..n];
    }
  }

  lemma ExecTwo(s: System, a: Action, b: Action)
    ensures Exec(s, [a, b]) == Next(Next(s, a), b)
  {
    hide Next;
    assert [a, b][..1] == [a] && [a][..0] == [] && Exec(s, []) == s;
    assert Exec(s, [a]) == Next(Exec(s, []), a);
  }

  /** Setting a port to `value` right after the beginning of a state application that does not pause. */
  lemma OrderViolated(s: System, k: nat, value: U32)
    requires Inv(s) && Synced(s) && s.ui.Idle? && s.runState == Paused
    requires k < |Pending(s)| && Pending(s)[k].ControlChange? && Owned(s, Pending(s)[k].port)
    requires value != s.issued[Pending(s)[k].port]
    ensures !Synced(Exec(Next(s, BeginApply), [ReadRunState(Pending(s)[k].port, value), SetPort]))
  {
    hide Drained, Encode, EncodeAll, RunStates, Next;
    var port := Pending(s)[k].port;
    assert Pending(s)[k] in Pending(s);
    ExecTwo(Next(s, BeginApply), ReadRunState(port, value), SetPort);
    SetsDirectly(s, port, value);
    var t := s.(controls := s.controls[port := value], issued := s.issued[port := value], ui := Echoing(false));
    DrainedHides(s.controls, t.controls, Pending(s), k);
    assert Owned(t, port) && Drained(s.controls, Pending(s))[port] == s.issued[port];
  }

  lemma SetsDirectly(s: System, port: nat, value: U32)
    requires s.ui.Idle? && s.runState == Paused && HasPort(s, port)
    ensures Next(Next(Next(s, BeginApply), ReadRunState(port, value)), SetPort) ==
      s.(controls := s.controls[port := value], issued := s.issued[port := value], ui := Echoing(false))
  {
    hide NextAudio, Fits, Issue;
  }

  lemma {:induction false} NoApplyIsOrdered(s: System, actions: seq<Action>)
    requires BeginApply !in actions
    ensures OrderedRun(s, actions)
  {
    if actions != [] {
      NoApplyIsOrdered(s, actions[..|actions| - 1]);
    }
  }

  /**
   A state application keeps the order of control values, whatever happens until the next, exactly if
   it finds the process running or no control values pending for the ports that only the UI sets.
   */
  lemma OrderKeptExactlyIf(s: System)
    requires Inv(s) && Synced(s) && s.ui.Idle?
    ensures (forall actions | BeginApply !in actions :: Synced(Exec(Next(s, BeginApply), actions))) <==> OrderSafe(s)
  {
    hide Drained, RunStates, Exec, OrderedRun;
    var t := Next(s, BeginApply);
    KeepsInv(s, BeginApply);
    if OrderSafe(s) {
      UiKeepsOrder(s, BeginApply);
      forall actions | BeginApply !in actions ensures Synced(Exec(t, actions)) {
        NoApplyIsOrdered(t, actions);
        RunKeepsOrder(t, actions);
      }
    } else {
      var m :| m in Pending(s) && m.ControlChange? && m.port as nat !in s.tempoPorts;
      var k :| 0 <= k < |Pending(s)| && Pending(s)[k] == m;
      var value: U32 := if s.issued[m.port] == 0 then 1 else 0;
      OrderViolated(s, k, value);
      var actions := [ReadRunState(Pending(s)[k].port, value), SetPort];
      assert BeginApply !in actions && !Synced(Exec(t, actions));
    }
  }

  /** A cycle that runs the plugin begins during a restore. */
  predicate OverlapsAt(s: System, actions: seq<Action>, k: nat) {
    && BeginsCycle(s, actions, k)
    && InRestore(Exec(s, actions[..k]).ui) && Exec(s, actions[..k]).runState != Paused
  }

  /** What is noted of an overlap is that such a cycle has begun. */
  lemma {:induction false} OverlapMeans(s: System, actions: seq<Action>)
    requires Init(s)
    ensures Exec(s, actions).overlap <==> exists k: nat :: OverlapsAt(s, actions, k)
  {
    hide Next;
    if actions != [] {
      var before, a := actions[..|actions| - 1], actions[|actions| - 1];
      OverlapMeans(s, before);
      OverlapStep(Exec(s, before), a);
      if Exec(s, before).overlap {
        var k: nat :| OverlapsAt(s, before, k);
        assert before[..k] == actions[..k] && OverlapsAt(s, actions, k);
      } else if Exec(s, actions).overlap {
        assert OverlapsAt(s, actions, |before|);
      } else {
        forall k: nat ensures !OverlapsAt(s, actions, k) {
          if k < |before| {
            assert before[..k] == actions[..k] && !OverlapsAt(s, before, k);
          }
        }
      }
    }
  }

  lemma OverlapStep(s: System, a: Action)
    ensures Next(s, a).overlap <==>
      s.overlap || (a == StartCycle && s.audio.Between? && InRestore(s.ui) && s.runState != Paused)
  {
    hide NextUi, P.ApplyControl, P.ApplyRunState;
    if !ByAudio(a) {
      UiKeepsOverlap(s, a);
    }
  }

  lemma UiKeepsOverlap(s: System, a: Action)
    requires !ByAudio(a)
    ensures Next(s, a).overlap == s.overlap
  {
    hide NextAudio, Fits;
  }

  /** Ranks the audio thread between two messages taken from the ring. */
  function Rank(s: System): nat {
    match s.audio
    case Entered(_) => if s.queue == [] then 8 else 3
    case Holding(_, _, _, _) => 9
    case Posting(_, _) => 7
    case Draining(_, left, _) => if left == 0 then 6 else 2
    case InBody(_, _, _) => 1
    case PluginRuns(_) => 5
    case Between => 4
  }

  function AudioStep(s: System): Action {
    match s.audio
    case Between => StartCycle
    case Entered(_) => CountSpace
    case Draining(_, left, _) => if left == 0 then FinishDrain else ReadHeader
    case InBody(_, _, _) => ReadBody
    case Holding(_, _, _, _) => Apply
    case Posting(_, _) => Post
    case PluginRuns(_) => FinishRun
  }

  predicate Progresses(s: System, t: System) {
    |t.queue| < |s.queue| || (|t.queue| == |s.queue| && Rank(t) < Rank(s))
  }

  lemma AudioProgress(s: System)
    requires Inv(s) && !(s.queue == [] && s.audio.Between?)
    ensures Progresses(s, Next(s, AudioStep(s)))
  {
    hide Next, UiInv, DataInv;
    if InDrain(s.audio) {
      DrainProgress(s);
    } else {
      CycleProgress(s);
    }
  }

  lemma DrainProgress(s: System)
    requires AudioInv(s) && InDrain(s.audio)
    ensures Progresses(s, Next(s, AudioStep(s)))
  {
    hide NextUi, P.ApplyControl, P.ApplyRunState, P.IsPause;
  }

  lemma CycleProgress(s: System)
    requires !InDrain(s.audio) && !(s.queue == [] && s.audio.Between?)
    ensures Progresses(s, Next(s, AudioStep(s)))
  {
    hide NextUi;
  }

  /** The audio thread on its own drains the ring and comes to rest between cycles. */
  lemma {:induction false} AudioDrains(s: System) returns (actions: seq<Action>)
    requires Inv(s)
    ensures BeginApply !in actions
    ensures var t := Exec(s, actions);
      && Inv(t) && t.queue == [] && t.audio.Between?
      && t.ui == s.ui && t.active == s.active && t.safeRestore == s.safeRestore
    decreases |s.queue|, Rank(s)
  {
    hide Inv, Next;
    if s.queue == [] && s.audio.Between? {
      actions := [];
    } else {
      var a := AudioStep(s);
      AudioProgress(s);
      AudioKeepsInv(s, a);
      AudioKeepsUi(s, a);
      AudioKeepsSettings(s, a);
      var rest := AudioDrains(Next(s, a));
      ExecCons(s, a, rest);
      actions := [a] + rest;
    }
  }

  lemma AudioKeepsSettings(s: System, a: Action)
    requires ByAudio(a)
    ensures Next(s, a).safeRestore == s.safeRestore && Next(s, a).active == s.active
  {
  }

  /** Without its message the UI thread waits forever; nothing else posts the semaphore. */
  lemma {:induction false} WaitsForever(s: System, actions: seq<Action>)
    requires Inv(s) && s.ui == Waiting(false)
    ensures Exec(s, actions).ui == Waiting(false)
  {
    hide Inv, Next;
    if actions != [] {
      var before := actions[..|actions| - 1];
      WaitsForever(s, before);
      RunKeepsInv(s, before);
      StaysWaiting(Exec(s, before), actions[|actions| - 1]);
    }
  }

  lemma StaysWaiting(s: System, a: Action)
    requires Inv(s) && s.ui == Waiting(false)
    ensures Next(s, a).ui == Waiting(false)
  {
    hide RunStates;
  }

  /** The wait can return exactly if the message to pause fits the ring when it is written. */
  lemma WaitReturnsExactlyIf(s: System)
    requires Inv(s) && s.ui.Pausing?
    ensures (exists actions :: Exec(Next(s, WritePause), actions).ui.Restoring?) <==> Fits(s, PAUSE)
  {
    hide RunStates, Fits, Exec;
    var t := Next(s, WritePause);
    KeepsInv(s, WritePause);
    if Fits(s, PAUSE) {
      var actions := AudioDrains(t);
      ExecAppend(t, actions, [FinishWait]);
      WaitFinishes(Exec(t, actions));
      assert Exec(t, actions + [FinishWait]).ui.Restoring?;
    } else {
      forall actions ensures !Exec(t, actions).ui.Restoring? {
        WaitsForever(t, actions);
      }
    }
  }

  lemma WaitFinishes(s: System)
    requires Inv(s) && s.ui == Waiting(true) && s.queue == [] && s.audio.Between?
    ensures Exec(s, [FinishWait]).ui.Restoring?
  {
    assert [FinishWait][..0] == [];
  }

  /** A state application that does not pause leaves the plugin paused until it is activated, or the restore is over. */
  predicate ExclusiveInv(s: System) {
    && !s.overlap
    && (InRestore(s.ui) ==> s.ui.held || !s.active)
  }

  lemma KeepsExclusiveInv(s: System, a: Action)
    requires Inv(s) && ExclusiveInv(s) && a != BeginApply
    ensures ExclusiveInv(Next(s, a))
  {
    hide RunStates, Encode, EncodeAll;
  }

  lemma {:induction false} RunKeepsExclusiveInv(s: System, actions: seq<Action>)
    requires Inv(s) && ExclusiveInv(s) && BeginApply !in actions
    ensures ExclusiveInv(Exec(s, actions))
  {
    hide Inv, Next, ExclusiveInv;
    if actions != [] {
      var before := actions[..|actions| - 1];
      RunKeepsExclusiveInv(s, before);
      RunKeepsInv(s, before);
      KeepsExclusiveInv(Exec(s, before), actions[|actions| - 1]);
    }
  }

  /**
   For a plugin whose restore is not thread-safe: no cycle that runs the plugin begins during the restore,
   whatever happens until the next, exactly if the process is running at the beginning, so that it is paused,
   or the plugin has not been activated.
   */
  lemma ExclusiveExactlyIf(s: System)
    requires Inv(s) && s.ui.Idle? && !s.safeRestore && !s.overlap
    ensures (forall actions | BeginApply !in actions :: !Exec(Next(s, BeginApply), actions).overlap)
       <==> (s.runState == Running || !s.active)
  {
    hide RunStates, Exec;
    var t := Next(s, BeginApply);
    KeepsInv(s, BeginApply);
    if s.runState == Running || !s.active {
      assert ExclusiveInv(t);
      forall actions | BeginApply !in actions ensures !Exec(t, actions).overlap {
        RunKeepsExclusiveInv(t, actions);
      }
    } else {
      var actions := AudioDrains(t);
      ExecAppend(t, actions, [StartCycle]);
      OverlapBegins(Exec(t, actions));
      assert BeginApply !in actions + [StartCycle] && Exec(t, actions + [StartCycle]).overlap;
    }
  }

  lemma OverlapBegins(s: System)
    requires Inv(s) && s.ui == Restoring(false) && s.active && s.queue == [] && s.audio.Between?
    ensures Exec(s, [StartCycle]).overlap
  {
    assert [StartCycle][..0] == [];
  }

  // ------------------------------------------------------ runs that reach the exceptions

  lemma Then(s: System, actions: seq<Action>, a: Action) returns (more: seq<Action>)
    ensures more == actions + [a] && Exec(s, more) == Next(Exec(s, actions), a)
  {
    hide Next;
    more := actions + [a];
    assert more[..|actions|] == actions;
  }

  lemma QueueOfOne(m: Message)
    ensures EncodeAll([]) == [] && EncodeAll([m]) == Encode(m)
    ensures [m][1..] == []
  {
    assert [m][1..] == [];
  }

  /** A plugin is activated, and a state application pauses it in the middle of a cycle. */
  lemma PausesInCycle(s: System) returns (actions: seq<Action>)
    requires Init(s) && !s.safeRestore
    ensures Exec(s, actions) ==
      s.(active := true, runState := Paused, ui := Restoring(true), audio := Draining(false, 0, true),
         written := [Paused], waits := 1)
  {
    hide EncodeAll, Encode, P.ApplyControl;
    PauseWritten(s);
    actions := Then(s, [], Activate);
    actions := Then(s, actions, BeginApply);
    actions := Then(s, actions, StartCycle);
    actions := Then(s, actions, WritePause);
    var t := s.(active := true, runState := Running, audio := Entered(false), queue := [PAUSE], written := [Paused],
                ui := Waiting(true));
    assert Exec(s, actions) == t;
    PauseTaken(t);
    actions := Then(s, actions, CountSpace);
    actions := Then(s, actions, ReadHeader);
    actions := Then(s, actions, ReadBody);
    actions := Then(s, actions, Apply);
    actions := Then(s, actions, Post);
    actions := Then(s, actions, FinishWait);
  }

  lemma PauseWritten(s: System)
    requires Init(s) && !s.safeRestore
    ensures Next(Next(Next(Next(s, Activate), BeginApply), StartCycle), WritePause) ==
      s.(active := true, runState := Running, audio := Entered(false), queue := [PAUSE], written := [Paused],
         ui := Waiting(true))
    ensures Exec(s, []) == s
  {
    hide Encode, EncodeAll, Next;
    var t := s.(active := true, runState := Running, audio := Entered(false), ui := Pausing);
    CycleBegins(s);
    FirstPause(t);
  }

  lemma CycleBegins(s: System)
    requires Init(s) && !s.safeRestore
    ensures Next(Next(Next(s, Activate), BeginApply), StartCycle) ==
      s.(active := true, runState := Running, audio := Entered(false), ui := Pausing)
  {
    hide Encode, EncodeAll;
  }

  lemma FirstPause(t: System)
    requires t.ui.Pausing? && t.queue == [] && t.written == [] && t.capacity >= 20 && !t.audio.InBody?
    ensures Next(t, WritePause) == t.(queue := [PAUSE], written := [Paused], ui := Waiting(true))
  {
    hide Encode;
    QueueOfOne(PAUSE);
    assert [] + [PAUSE] == [PAUSE] && [] + [Paused] == [Paused];
  }

  lemma PauseTaken(t: System)
    requires t.queue == [PAUSE] && t.audio == Entered(false) && t.ui == Waiting(true) && t.paused == 0 && t.waits == 0
    ensures Next(Next(Next(Next(Next(Next(t, CountSpace), ReadHeader), ReadBody), Apply), Post), FinishWait) ==
      t.(queue := [], runState := Paused, ui := Restoring(true), audio := Draining(false, 0, true), waits := 1)
  {
    hide EncodeAll, Encode, Next;
    PauseConsumed(t);
    PausePosted(t.(queue := [], runState := Paused, audio := Posting(false, 0)));
  }

  lemma PauseConsumed(t: System)
    requires t.queue == [PAUSE] && t.audio == Entered(false)
    ensures Next(Next(Next(Next(t, CountSpace), ReadHeader), ReadBody), Apply) ==
      t.(queue := [], runState := Paused, audio := Posting(false, 0))
  {
    hide Next;
    ReadsOne(t, PAUSE);
    AppliesPause(t.(queue := [], audio := Holding(false, 0, false, PAUSE)));
  }

  lemma AppliesPause(t: System)
    requires t.audio == Holding(false, 0, false, PAUSE)
    ensures Next(t, Apply) == t.(runState := Paused, audio := Posting(false, 0))
  {
  }

  lemma ReadsOne(t: System, m: Message)
    requires t.queue == [m] && t.audio.Entered?
    ensures Next(Next(Next(t, CountSpace), ReadHeader), ReadBody) ==
      t.(queue := [], audio := Holding(t.audio.bypass, 0, false, m))
  {
    hide NextUi;
  }

  lemma PausePosted(t: System)
    requires t.audio == Posting(false, 0) && t.ui == Waiting(true) && t.paused == 0 && t.waits == 0
    ensures Next(Next(t, Post), FinishWait) == t.(ui := Restoring(true), audio := Draining(false, 0, true), waits := 1)
  {
    hide EncodeAll, Encode;
  }

  /** The rest of a state application that paused in the middle of a cycle. */
  lemma Resumes(t: System)
    requires t.ui == Restoring(true) && t.queue == [] && t.audio == Draining(false, 0, true) && t.capacity >= 20
    ensures Next(Next(Next(t, FinishRestore), Request), WriteResume) ==
      t.(queue := if t.hasControlIn then [StateRequest, RESUME] else [RESUME],
         written := t.written + [Running], ui := Idle)
  {
    hide Encode, EncodeAll, Next;
    Requests(t);
    WritesResume(t.(queue := if t.hasControlIn then [StateRequest] else [], ui := Resuming));
  }

  lemma Requests(t: System)
    requires t.ui == Restoring(true) && t.queue == [] && t.audio == Draining(false, 0, true) && t.capacity >= 20
    ensures Next(Next(t, FinishRestore), Request) ==
      t.(queue := if t.hasControlIn then [StateRequest] else [], ui := Resuming)
  {
    hide Encode, NextAudio;
    QueueOfOne(StateRequest);
    assert [] + [StateRequest] == [StateRequest];
  }

  lemma WritesResume(t: System)
    requires t.ui.Resuming? && t.audio == Draining(false, 0, true) && t.capacity >= 20
    requires t.queue == if t.hasControlIn then [StateRequest] else []
    ensures Next(t, WriteResume) ==
      t.(queue := if t.hasControlIn then [StateRequest, RESUME] else [RESUME],
         written := t.written + [Running], ui := Idle)
  {
    hide Encode, EncodeAll, NextAudio;
    QueueOfOne(StateRequest);
    assert [] + [RESUME] == [RESUME] && [StateRequest] + [RESUME] == [StateRequest, RESUME];
  }

  lemma QueueOfResume(hasControlIn: bool)
    ensures |EncodeAll(if hasControlIn then [StateRequest, RESUME] else [RESUME])| <= 20
  {
    hide Encode;
    QueueOfOne(RESUME);
    assert [StateRequest, RESUME][1..] == [RESUME];
  }

  /** Up to the end of a state application whose message to resume is still in the ring. */
  lemma ResumesInCycle(s: System) returns (actions: seq<Action>)
    requires Init(s) && !s.safeRestore
    ensures Exec(s, actions) ==
      s.(active := true, audio := Draining(false, 0, true), written := [Paused, Running], waits := 1,
         queue := if s.hasControlIn then [StateRequest, RESUME] else [RESUME])
  {
    hide EncodeAll, Encode, Next, Exec;
    actions := PausesInCycle(s);
    Resumes(Exec(s, actions));
    assert [Paused] + [Running] == [Paused, Running];
    actions := Then(s, actions, FinishRestore);
    actions := Then(s, actions, Request);
    actions := Then(s, actions, WriteResume);
  }

  /**
   A state application can begin with a control value pending, and leave an older value in the end: the UI
   sends the value after one state application, and begins another before a cycle has resumed.
   */
  lemma OrderViolationReached(s: System, port: nat) returns (actions: seq<Action>)
    requires Init(s) && !s.safeRestore && s.capacity >= 36 && HasPort(s, port) && Owned(s, port)
    ensures !Synced(Exec(s, actions))
  {
    hide Inv, Synced, Next, Exec, EncodeAll, Encode, Pending;
    actions := ResumesInCycle(s);
    var t := Exec(s, actions);
    InvInit(s);
    RunKeepsInv(s, actions);
    ResumedSynced(s, t);
    actions := Then(s, actions, SendControl(port, 7));
    var k := SendsAfterResume(t, port);
    var u := Next(t, SendControl(port, 7));
    RunKeepsInv(s, actions);
    OrderViolated(u, k, 8);
    actions := Then(s, actions, BeginApply);
    var begun := actions;
    actions := actions + [ReadRunState(port, 8), SetPort];
    ExecAppend(s, begun, [ReadRunState(port, 8), SetPort]);
  }

  lemma ResumedSynced(s: System, t: System)
    requires Init(s)
    requires t == s.(active := true, audio := Draining(false, 0, true), written := [Paused, Running], waits := 1,
                     queue := if s.hasControlIn then [StateRequest, RESUME] else [RESUME])
    ensures Synced(t)
  {
    hide Drained;
    forall p | 0 <= p < |t.issued| && Owned(t, p) ensures Drained(t.controls, Pending(t))[p] == t.issued[p] {
      DrainedWithout(t.controls, Pending(t), p);
    }
  }

  lemma SendsAfterResume(t: System, port: nat) returns (k: nat)
    requires t.queue == if t.hasControlIn then [StateRequest, RESUME] else [RESUME]
    requires t.ui.Idle? && t.audio == Draining(false, 0, true) && HasPort(t, port) && t.capacity >= 36 && Synced(t)
    ensures var u := Next(t, SendControl(port, 7));
      && Synced(u) && u.ui.Idle? && u.runState == t.runState && u.tempoPorts == t.tempoPorts
      && |u.issued| == |t.issued| && u.issued[port] == 7
      && k < |Pending(u)| && Pending(u)[k] == ControlChange(port, 7)
  {
    hide Synced, NextAudio, Encode, EncodeAll;
    QueueOfResume(t.hasControlIn);
    IssueKeepsSync(t, port, 7);
    k := |t.queue|;
  }

  /** A second state application can begin with a message to resume in the ring, and a cycle overlap its restore. */
  lemma OverlapReached(s: System) returns (actions: seq<Action>)
    requires Init(s) && !s.safeRestore
    ensures Exec(s, actions).overlap
  {
    hide Inv, EncodeAll, Encode, RunStates, Exec, Next;
    InvInit(s);
    actions := ResumesInCycle(s);
    BeginsAgain(Exec(s, actions));
    actions := Then(s, actions, BeginApply);
    RunKeepsInv(s, actions);
    var rest := AudioDrains(Exec(s, actions));
    ExecAppend(s, actions, rest);
    OverlapBegins(Exec(s, actions + rest));
    ExecAppend(s, actions + rest, [StartCycle]);
    actions := actions + rest + [StartCycle];
  }

  lemma BeginsAgain(t: System)
    requires t.ui.Idle? && t.runState == Paused
    ensures Next(t, BeginApply) == t.(ui := Restoring(false))
  {
  }

  /**
   That the ring is empty is not enough: the audio thread may hold the message to resume that it has taken
   from the ring, when the second state application begins.
   */
  lemma OverlapReachedWithEmptyRing(s: System) returns (before: seq<Action>, after: seq<Action>)
    requires Init(s) && !s.safeRestore && !s.hasControlIn
    ensures Exec(s, before).ui.Idle? && Exec(s, before).queue == []
    ensures Exec(s, before + [BeginApply] + after).overlap
  {
    hide EncodeAll, Encode, Exec, Next;
    before := ResumesInCycle(s);
    TakesResume(Exec(s, before));
    before := Then(s, before, FinishDrain);
    before := Then(s, before, FinishRun);
    before := Then(s, before, StartCycle);
    before := Then(s, before, CountSpace);
    before := Then(s, before, ReadHeader);
    before := Then(s, before, ReadBody);
    var actions := Then(s, before, BeginApply);
    BeginsAgain(Exec(s, before));
    AppliesResume(Exec(s, actions));
    actions := Then(s, actions, Apply);
    actions := Then(s, actions, FinishDrain);
    actions := Then(s, actions, StartCycle);
    after := [Apply, FinishDrain, StartCycle];
    assert actions == before + [BeginApply] + after;
  }

  lemma TakesResume(t: System)
    requires t.queue == [RESUME] && t.audio == Draining(false, 0, true) && t.runState == Paused && t.ui.Idle?
    ensures
      Next(Next(Next(Next(Next(Next(t, FinishDrain), FinishRun), StartCycle), CountSpace), ReadHeader), ReadBody) ==
      t.(queue := [], audio := Holding(true, 0, false, RESUME))
  {
    hide Next;
    NextCycleBypasses(t);
    ReadsOne(t.(audio := Entered(true)), RESUME);
  }

  lemma NextCycleBypasses(t: System)
    requires t.audio == Draining(false, 0, true) && t.runState == Paused
    ensures Next(Next(Next(t, FinishDrain), FinishRun), StartCycle) == t.(audio := Entered(true))
  {
    hide NextUi;
  }

  lemma AppliesResume(t: System)
    requires t.ui == Restoring(false) && t.audio == Holding(true, 0, false, RESUME)
    ensures Next(Next(Next(t, Apply), FinishDrain), StartCycle).overlap
  {
    hide NextUi, P.ApplyControl;
  }

  /** The UI sends control values. */
  lemma {:induction false} SendsControls(s: System, before: seq<Action>, port: nat, n: nat)
    returns (actions: seq<Action>)
    requires var t := Exec(s, before);
      t.ui.Idle? && t.audio.Between? && HasPort(t, port) && |EncodeAll(t.queue)| + 16 * n <= t.capacity
    ensures var t, u := Exec(s, before), Exec(s, actions);
      && u == t.(queue := u.queue, issued := u.issued) && |u.issued| == |t.issued|
      && |EncodeAll(u.queue)| == |EncodeAll(t.queue)| + 16 * n
    ensures forall a | a in actions :: a in before || a == SendControl(port, 7)
  {
    hide Exec, EncodeAll, Encode, Next;
    if n == 0 {
      actions := before;
    } else {
      actions := SendsControls(s, before, port, n - 1);
      SendsControl(Exec(s, actions), port);
      actions := Then(s, actions, SendControl(port, 7));
    }
  }

  lemma SendsControl(t: System, port: nat)
    requires t.ui.Idle? && t.audio.Between? && HasPort(t, port) && |EncodeAll(t.queue)| + 16 <= t.capacity
    ensures var u := Next(t, SendControl(port, 7));
      && u == t.(queue := u.queue, issued := u.issued) && |u.issued| == |t.issued|
      && |EncodeAll(u.queue)| == |EncodeAll(t.queue)| + 16
  {
    hide NextAudio, EncodeAll, Encode;
    EncodeAllSnoc(t.queue, ControlChange(port, 7));
  }

  /**
   The message to pause can find the ring full, and the UI thread then waits forever.  Control values and
   one small event, all of which can be received, are enough to fill it.
   */
  lemma EndlessWaitReached(s: System, port: nat, eventPort: U32) returns (actions: seq<Action>)
    requires Init(s) && !s.safeRestore && HasPort(s, port)
    ensures forall a | a in actions && a.SendEvent? :: PayloadSize(a.event) <= P.MIN_MESSAGE_SIZE
    ensures forall more :: Exec(s, actions + more).ui == Waiting(false)
  {
    hide Inv, EncodeAll, Encode, Exec, Next;
    var n := (s.capacity - 20) / 16;
    var m := EventTransfer(eventPort, 0, seq(s.capacity - 20 - 16 * n, _ => 0 as Byte));
    InvInit(s);
    Activates(s);
    actions := Then(s, [], Activate);
    actions := SendsControls(s, actions, port, n);
    FillsRing(Exec(s, actions), m);
    actions := Then(s, actions, SendEvent(m));
    actions := Then(s, actions, BeginApply);
    actions := Then(s, actions, WritePause);
    RunKeepsInv(s, actions);
    forall more ensures Exec(s, actions + more).ui == Waiting(false) {
      ExecAppend(s, actions, more);
      WaitsForever(Exec(s, actions), more);
    }
  }

  lemma Activates(s: System)
    requires Init(s)
    ensures Exec(s, []) == s && Next(s, Activate) == s.(active := true, runState := Running)
    ensures EncodeAll(s.queue) == []
  {
  }

  lemma FillsRing(t: System, m: Message)
    requires t.ui.Idle? && t.audio.Between? && !t.safeRestore && t.runState == Running
    requires m.EventTransfer? && |EncodeAll(t.queue)| + |Encode(m)| == t.capacity
    ensures Next(Next(Next(t, SendEvent(m)), BeginApply), WritePause).ui == Waiting(false)
  {
    hide Encode, EncodeAll, NextAudio;
    EncodeAllSnoc(t.queue, m);
  }

  // ------------------------------------------------------ the echo of restored values

  /**
   The ring to the UI has two writers while a restored value is echoed to it: the UI thread, and a cycle
   that runs the plugin.  If the plugin was paused for the restore, that can only be the cycle that took
   the message to pause.
   */
  lemma EchoMeetsOnlyPausingCycle(s: System, actions: seq<Action>) returns (k: nat, j: nat)
    requires Init(s) && Exec(s, actions).ui == Echoing(true) && InPluginCycle(Exec(s, actions))
    ensures LastCycleAt(s, actions, k) && Exec(s, actions[..k]).runState == Running
    ensures k < j && AppliesPauseAt(s, actions, j)
  {
    hide RunStates, Exec, LastCycleAt, AppliesPauseAt, Init, InPluginCycle;
    k, j := RunInWindowTookPause(s, actions);
  }

  /** It can be that cycle, which goes on to run the plugin. */
  lemma EchoMeetsPausingCycle(s: System, port: nat) returns (actions: seq<Action>)
    requires Init(s) && !s.safeRestore && HasPort(s, port)
    ensures Exec(s, actions).ui == Echoing(true) && Exec(s, actions).audio == PluginRuns(true)
  {
    hide EncodeAll, Encode, Next, Exec;
    actions := PausesInCycle(s);
    DirectEcho(Exec(s, actions), port);
    actions := Then(s, actions, ReadRunState(port, 7));
    actions := Then(s, actions, SetPort);
    actions := Then(s, actions, FinishDrain);
  }

  lemma DirectEcho(t: System, port: nat)
    requires t.ui == Restoring(true) && t.runState == Paused && t.audio == Draining(false, 0, true) && HasPort(t, port)
    ensures var u := Next(Next(Next(t, ReadRunState(port, 7)), SetPort), FinishDrain);
      u.ui == Echoing(true) && u.audio == PluginRuns(true)
  {
    hide Next;
    EchoesDirectly(t, port);
    GoesOnToRun(Next(Next(t, ReadRunState(port, 7)), SetPort));
  }

  lemma EchoesDirectly(t: System, port: nat)
    requires t.ui == Restoring(true) && t.runState == Paused && HasPort(t, port)
    ensures var u := Next(Next(t, ReadRunState(port, 7)), SetPort);
      u.ui == Echoing(true) && u.audio == t.audio
  {
    hide NextAudio, Fits, Issue;
  }

  lemma GoesOnToRun(t: System)
    requires t.audio == Draining(false, 0, true)
    ensures Next(t, FinishDrain) == t.(audio := PluginRuns(true))
  {
    hide NextUi;
  }

  /** If the plugin was not paused, it can be a cycle like any other. */
  lemma EchoMeetsAnyCycle(s: System, port: nat) returns (actions: seq<Action>)
    requires Init(s) && s.safeRestore && HasPort(s, port)
    ensures Exec(s, actions).ui == Echoing(false) && Exec(s, actions).audio == PluginRuns(false)
  {
    hide EncodeAll, Encode, Next, Exec;
    EchoBegins(s, port);
    actions := Then(s, [], Activate);
    actions := Then(s, actions, BeginApply);
    actions := Then(s, actions, StartCycle);
    actions := Then(s, actions, CountSpace);
    actions := Then(s, actions, FinishDrain);
    actions := Then(s, actions, ReadRunState(port, 7));
    actions := Then(s, actions, SetPort);
  }

  lemma EchoBegins(s: System, port: nat)
    requires Init(s) && s.safeRestore && HasPort(s, port)
    ensures Exec(s, []) == s
    ensures var t := Next(Next(Next(Next(Next(s, Activate), BeginApply), StartCycle), CountSpace), FinishDrain);
      var u := Next(Next(t, ReadRunState(port, 7)), SetPort);
      u.ui == Echoing(false) && u.audio == PluginRuns(false)
  {
    hide Encode, EncodeAll, Next;
    var t := s.(active := true, runState := Running, ui := Restoring(false), audio := PluginRuns(false),
                overlap := true);
    OverlapBeginsAtOnce(s);
    EchoFollows(t, port);
  }

  lemma OverlapBeginsAtOnce(s: System)
    requires Init(s) && s.safeRestore
    ensures Next(Next(Next(Next(Next(s, Activate), BeginApply), StartCycle), CountSpace), FinishDrain) ==
      s.(active := true, runState := Running, ui := Restoring(false), audio := PluginRuns(false), overlap := true)
  {
    hide Encode, EncodeAll;
  }

  lemma EchoFollows(t: System, port: nat)
    requires t.ui == Restoring(false) && t.runState == Running && t.queue == [] && t.audio == PluginRuns(false)
    requires HasPort(t, port) && t.capacity >= 20
    ensures var u := Next(Next(t, ReadRunState(port, 7)), SetPort);
      u.ui == Echoing(false) && u.audio == PluginRuns(false)
  {
    hide Encode, EncodeAll;
    QueueOfOne(ControlChange(port, 7));
  }

  // ------------------------------------------------------ the rest of a state application

  function UiRank(u: Ui): nat {
    match u
    case SettingPort(_, _, _, _) => 5
    case Echoing(_) => 4
    case Restoring(_) => 3
    case Requesting(_) => 2
    case Resuming => 1
    case _ => 0
  }

  function UiStep(u: Ui): Action {
    match u
    case SettingPort(_, _, _, _) => SetPort
    case Echoing(_) => Echo
    case Restoring(_) => FinishRestore
    case Requesting(_) => Request
    case _ => WriteResume
  }

  lemma UiStepGoesOn(s: System)
    requires Inv(s) && (InRestore(s.ui) || s.ui.Requesting? || s.ui.Resuming?)
    ensures var u := Next(s, UiStep(s.ui)).ui;
      UiRank(u) < UiRank(s.ui) && (InRestore(u) || u.Requesting? || u.Resuming? || u.Idle?)
  {
    hide NextAudio, UiInv, AudioInv, Fits;
  }

  /** After its wait nothing keeps the UI thread from the end of a state application. */
  lemma {:induction false} ApplicationEnds(s: System) returns (actions: seq<Action>)
    requires Inv(s) && (InRestore(s.ui) || s.ui.Requesting? || s.ui.Resuming?)
    ensures Exec(s, actions).ui.Idle? && forall a | a in actions :: !ByAudio(a)
    decreases UiRank(s.ui)
  {
    hide Inv, Next;
    var a := UiStep(s.ui);
    var t := Next(s, a);
    UiStepGoesOn(s);
    KeepsInv(s, a);
    var rest: seq<Action> := [];
    if t.ui.Idle? {
      assert Exec(t, []) == t;
    } else {
      rest := ApplicationEnds(t);
    }
    ExecCons(s, a, rest);
    actions := [a] + rest;
  }

  /** A control for the tempo does not keep the value that the UI issued: a cycle stores the tempo over it. */
  lemma TempoOverrides(s: System, port: nat, tempo: U32)
    requires Init(s) && port in s.tempoPorts && HasPort(s, port)
    ensures var t := Exec(s, [Activate, StartCycle, StoreTempo(port, tempo)]);
      t.queue == [] && t.issued == s.issued && t.controls == s.controls[port := tempo]
  {
    hide Encode, EncodeAll, Next;
    var a := Then(s, [], Activate);
    a := Then(s, a, StartCycle);
    a := Then(s, a, StoreTempo(port, tempo));
    assert a == [Activate, StartCycle, StoreTempo(port, tempo)] && Exec(s, []) == s;
    TempoStored(s, port, tempo);
  }

  lemma TempoStored(s: System, port: nat, tempo: U32)
    requires Init(s) && port in s.tempoPorts && HasPort(s, port)
    ensures Next(Next(Next(s, Activate), StartCycle), StoreTempo(port, tempo)) ==
      s.(active := true, runState := Running, audio := Entered(false), controls := s.controls[port := tempo])
  {
    hide Encode, EncodeAll, Fits;
  }
}

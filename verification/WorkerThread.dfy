/**
 A threaded worker as an interleaving of its thread, the audio thread that schedules work, the main
 thread that launches and stops it, and the state worker that shares its lock.
 */
module WorkerProtocol {
  import opened Bytes
  import opened Workers

  /** The worker thread, between the operations of its loop. */
  datatype Thread =
    | NoThread
    | Waiting
    | Woken
    | Reading
    | Sized(size: U32)
    | Loaded(request: Data)
    | Working(job: Data)
    | Exiting
    | Finished

  /** The audio thread, in `jalv_worker_schedule`. */
  datatype Audio = AudioIdle | Checked(data: Data) | Enqueued

  /** The main thread, in `jalv_worker_launch` and `jalv_worker_exit`. */
  datatype Main = MainIdle | Creating | Created | Flagged | Joining

  datatype Lock = Unlocked | HeldByWorker | HeldByState

  datatype Outcome = Executed(done: Data) | Skipped(dropped: Data)

  /**
   The last fields record the past: the requests accepted, what became of them, the number of work() calls
   that were finished since the last request to exit, and whether a read of the ring came up short.
   */
  datatype System = System(
    capacity: nat, requests: seq<Byte>, sem: nat, state: WorkerState, lock: Lock,
    thread: Thread, audio: Audio, main: Main,
    accepted: seq<Data>, outcomes: seq<Outcome>, worksSinceExit: nat, failed: bool)

  datatype Action =
    // audio thread
    | Schedule(request: Data)
    | WriteRequest
    | PostRequest
    // worker thread
    | Wait
    | Check
    | ReadSize
    | ReadRequest(hasMemory: bool)
    | TakeLock
    | FinishWork
    | Stop
    // main thread
    | InitSemaphore
    | CreateThread
    | FailToCreate
    | SetLaunched
    | SetMustExit
    | PostExit
    | Join
    // state worker
    | StateLocks
    | StateUnlocks

  function NextAudio(s: System, a: Action): System {
    match a
    case Schedule(data) =>
      if s.audio.AudioIdle? && |data| > 0 && s.state == Launched then s.(audio := Checked(data)) else s
    case WriteRequest =>
      if !s.audio.Checked? then s
      else if |s.requests| + SIZE_SIZE + |s.audio.data| <= s.capacity then
        s.(requests := s.requests + Packet(s.audio.data), accepted := s.accepted + [s.audio.data], audio := Enqueued)
      else s.(audio := AudioIdle)
    case PostRequest =>
      if s.audio.Enqueued? then s.(sem := s.sem + 1, audio := AudioIdle) else s
    case _ => s
  }

  function NextThread(s: System, a: Action): System {
    match a
    case Wait =>
      if s.thread.Waiting? && s.sem > 0 then s.(sem := s.sem - 1, thread := Woken) else s
    case Check =>
      if s.thread.Woken? then s.(thread := if s.state == MustExit then Exiting else Reading) else s
    case ReadSize =>
      if !s.thread.Reading? then s
      else if |s.requests| < SIZE_SIZE then s.(thread := Sized(0), failed := true)
      else s.(requests := s.requests[SIZE_SIZE..], thread := Sized(DecodeU32(s.requests[..SIZE_SIZE])))
    case ReadRequest(hasMemory) =>
      if !s.thread.Sized? then s
      else if |s.requests| < s.thread.size then s.(thread := Waiting, failed := true)
      else
        var data, rest := s.requests[..s.thread.size], s.requests[s.thread.size..];
        if hasMemory then s.(requests := rest, thread := Loaded(data))
        else s.(requests := rest, thread := Waiting, outcomes := s.outcomes + [Skipped(data)])
    case TakeLock =>
      if s.thread.Loaded? && s.lock.Unlocked? then s.(thread := Working(s.thread.request), lock := HeldByWorker) else s
    case FinishWork =>
      if s.thread.Working? then
        s.(thread := Waiting, lock := Unlocked, outcomes := s.outcomes + [Executed(s.thread.job)],
           worksSinceExit := s.worksSinceExit + 1)
      else s
    case Stop =>
      if s.thread.Exiting? then s.(thread := Finished, state := Stopped) else s
    case _ => s
  }

  function NextMain(s: System, a: Action): System {
    match a
    case InitSemaphore =>
      if s.main.MainIdle? && s.state == Stopped then s.(sem := 0, main := Creating) else s
    case CreateThread =>
      if s.main.Creating? then s.(thread := Waiting, main := Created) else s
    case FailToCreate =>
      if s.main.Creating? then s.(main := MainIdle) else s
    case SetLaunched =>
      if s.main.Created? then s.(state := Launched, main := MainIdle) else s
    case SetMustExit =>
      if s.main.MainIdle? && s.state == Launched then s.(state := MustExit, main := Flagged, worksSinceExit := 0) else s
    case PostExit =>
      if s.main.Flagged? then s.(sem := s.sem + 1, main := Joining) else s
    case Join =>
      if s.main.Joining? && s.thread.Finished? then s.(thread := NoThread, main := MainIdle) else s
    case _ => s
  }

  function NextState(s: System, a: Action): System {
    match a
    case StateLocks => if s.lock.Unlocked? then s.(lock := HeldByState) else s
    case StateUnlocks => if s.lock.HeldByState? then s.(lock := Unlocked) else s
    case _ => s
  }

  predicate ByAudio(a: Action) { a.Schedule? || a.WriteRequest? || a.PostRequest? }

  predicate ByThread(a: Action) {
    a.Wait? || a.Check? || a.ReadSize? || a.ReadRequest? || a.TakeLock? || a.FinishWork? || a.Stop?
  }

  predicate ByState(a: Action) { a.StateLocks? || a.StateUnlocks? }

  /** One step; a step that is not possible changes nothing. */
  function Next(s: System, a: Action): System {
    if ByAudio(a) then NextAudio(s, a)
    else if ByThread(a) then NextThread(s, a)
    else if ByState(a) then NextState(s, a)
    else NextMain(s, a)
  }

  function Exec(s: System, actions: seq<Action>): System {
    if actions == [] then s else Next(Exec(s, actions[..|actions| - 1]), actions[|actions| - 1])
  }

  function Init(capacity: nat): System {
    System(capacity, [], 0, Stopped, Unlocked, NoThread, AudioIdle, MainIdle, [], [], 0, false)
  }

  // ---------------------------------------------------------- the requests

  function Request(o: Outcome): Data {
    if o.Executed? then o.done else o.dropped
  }

  function Requests(os: seq<Outcome>): (r: seq<Data>)
    ensures |r| == |os|
  {
    if os == [] then [] else Requests(os[..|os| - 1]) + [Request(os[|os| - 1])]
  }

  /** The request that the thread has taken from the ring, in part or whole. */
  predicate InFlight(t: Thread) {
    t.Sized? || t.Loaded? || t.Working?
  }

  /** The number of accepted requests that are no longer in the ring. */
  function Taken(s: System): nat {
    |s.outcomes| + if InFlight(s.thread) then 1 else 0
  }

  /**
   The accepted requests, in order: those that were executed or skipped, then the one in flight, and
   then those in the ring, which holds their packets, after the data of a request of known size.
   */
  ghost predicate FifoInv(s: System) {
    var n := |s.outcomes|;
    && Taken(s) <= |s.accepted|
    && Requests(s.outcomes) == s.accepted[..n]
    && match s.thread
       case Sized(size) => size == |s.accepted[n]| && s.requests == s.accepted[n] + Packets(s.accepted[n + 1..])
       case Loaded(d) => d == s.accepted[n] && s.requests == Packets(s.accepted[n + 1..])
       case Working(d) => d == s.accepted[n] && s.requests == Packets(s.accepted[n + 1..])
       case _ => s.requests == Packets(s.accepted[n..])
  }

  // ---------------------------------------------------------- the tokens

  /** The packets in the ring. */
  function Queued(s: System): int {
    |s.accepted| - Taken(s)
  }

  /** Tokens that stand for requests: posted, about to be posted, or taken but not yet spent on a packet. */
  function Tokens(s: System): nat {
    s.sem + (if s.audio.Enqueued? then 1 else 0) + (if s.thread.Woken? || s.thread.Reading? then 1 else 0)
  }

  /** The token that was posted to wake the thread for its exit, and not yet used for that. */
  function ExitToken(s: System): int {
    if s.thread.Exiting? || s.thread.Finished? then (if s.main.Joining? then 0 else -1)
    else if s.main.Joining? then 1 else 0
  }

  /** Which states of the main thread, the worker thread and the worker go together. */
  predicate LifeInv(s: System) {
    match s.main
    case MainIdle => (s.state == Stopped && s.thread.NoThread?) || (s.state == Launched && Serving(s.thread))
    case Creating => s.state == Stopped && s.thread.NoThread?
    case Created => s.state == Stopped && Serving(s.thread)
    case Flagged => Ending(s)
    case Joining => Ending(s)
  }

  /** The thread has been told to exit, and has not yet been joined. */
  predicate Ending(s: System) {
    || (s.state == MustExit && (Serving(s.thread) || s.thread.Exiting?))
    || (s.state == Stopped && s.thread.Finished?)
  }

  predicate Serving(t: Thread) {
    !t.NoThread? && !t.Exiting? && !t.Finished?
  }

  predicate TokenInv(s: System) {
    && Tokens(s) <= Queued(s) + ExitToken(s)
    && (s.main.Joining? && Serving(s.thread) && !s.thread.Woken? ==> s.sem >= 1)
  }

  /** Work is done under the lock, and at most once more after a request to exit. */
  predicate WorkInv(s: System) {
    && (s.lock.HeldByWorker? <==> s.thread.Working?)
    && (s.main.Flagged? || s.main.Joining? ==>
          s.worksSinceExit + (if s.thread.Reading? || InFlight(s.thread) then 1 else 0) <= 1)
  }

  ghost predicate Inv(s: System) {
    !s.failed && LifeInv(s) && FifoInv(s) && TokenInv(s) && WorkInv(s)
  }

  lemma AudioKeepsInv(s: System, a: Action)
    requires Inv(s) && ByAudio(a)
    ensures Inv(Next(s, a))
  {
    hide NextThread, NextMain, NextState, Packet, Packets, Requests;
    var n := |s.outcomes|;
    if a.WriteRequest? && s.audio.Checked? {
      var d := s.audio.data;
      PacketsSnoc(s.accepted[Taken(s)..], d);
      assert (s.accepted + [d])[..n] == s.accepted[..n];
      assert (s.accepted + [d])[Taken(s)..] == s.accepted[Taken(s)..] + [d];
      if s.thread.Sized? {
        assert s.accepted[n] + (Packets(s.accepted[n + 1..]) + Packet(d)) == s.requests + Packet(d);
      }
    }
  }

  lemma ReadSizeKeepsInv(s: System)
    requires Inv(s)
    ensures Inv(Next(s, ReadSize))
  {
    hide NextAudio, NextMain, NextState, Packet, EncodeU32, DecodeU32, Requests;
    var n := |s.outcomes|;
    if s.thread.Reading? {
      assert Queued(s) >= 1;
      assert s.accepted[n..][1..] == s.accepted[n + 1..];
      PacketRoundTrip(s.accepted[n], Packets(s.accepted[n + 1..]));
    }
  }

  lemma ReadRequestKeepsInv(s: System, hasMemory: bool)
    requires Inv(s)
    ensures Inv(Next(s, ReadRequest(hasMemory)))
  {
    hide NextAudio, NextMain, NextState, Packet, Packets, EncodeU32, DecodeU32, Requests;
    var n := |s.outcomes|;
    if s.thread.Sized? {
      PacketRoundTrip(s.accepted[n], Packets(s.accepted[n + 1..]));
      OutcomeKeepsOrder(s, Skipped(s.accepted[n]));
    }
  }

  lemma OutcomeKeepsOrder(s: System, o: Outcome)
    requires |s.outcomes| < |s.accepted| && Requests(s.outcomes) == s.accepted[..|s.outcomes|]
    requires Request(o) == s.accepted[|s.outcomes|]
    ensures Requests(s.outcomes + [o]) == s.accepted[..|s.outcomes| + 1]
  {
    assert (s.outcomes + [o])[..|s.outcomes|] == s.outcomes;
  }

  lemma ThreadKeepsInv(s: System, a: Action)
    requires Inv(s) && ByThread(a)
    ensures Inv(Next(s, a))
  {
    hide NextAudio, NextMain, NextState, Packet, Packets, DecodeU32, Requests;
    if a.ReadSize? {
      ReadSizeKeepsInv(s);
    } else if a.ReadRequest? {
      ReadRequestKeepsInv(s, a.hasMemory);
    } else if s.thread.Working? {
      OutcomeKeepsOrder(s, Executed(s.thread.job));
    }
  }

  lemma OthersKeepInv(s: System, a: Action)
    requires Inv(s) && !ByThread(a) && !ByAudio(a)
    ensures Inv(Next(s, a))
  {
    hide NextAudio, NextThread, Packet, Packets, Requests;
  }

  lemma {:induction false} RunKeepsInv(s: System, actions: seq<Action>)
    requires Inv(s)
    ensures Inv(Exec(s, actions))
  {
    hide Inv, Next;
    if actions != [] {
      var t, a := Exec(s, actions[..|actions| - 1]), actions[|actions| - 1];
      RunKeepsInv(s, actions[..|actions| - 1]);
      if ByAudio(a) {
        AudioKeepsInv(t, a);
      } else if ByThread(a) {
        ThreadKeepsInv(t, a);
      } else {
        OthersKeepInv(t, a);
      }
    }
  }

  lemma InitInv(capacity: nat)
    ensures Inv(Init(capacity))
  {
  }

  // ---------------------------------------------------------- what follows

  /** What the thread has taken from the ring and not finished. */
  function Current(s: System): seq<Data> {
    if InFlight(s.thread) && |s.outcomes| < |s.accepted| then [s.accepted[|s.outcomes|]] else []
  }

  /** The data of a request of which the thread has read only the size. */
  function Partial(s: System): seq<Byte> {
    if s.thread.Sized? && Current(s) != [] then Current(s)[0] else []
  }

  /**
   Exactly once and in order, through any number of exits and relaunches: the accepted requests are those
   executed or skipped, then the one in flight, and then those whose packets are in the ring.
   */
  lemma ExactlyOnceInOrder(capacity: nat, actions: seq<Action>)
    ensures var s := Exec(Init(capacity), actions);
      && !s.failed
      && exists queue: seq<Data> ::
           && s.accepted == Requests(s.outcomes) + Current(s) + queue
           && s.requests == Partial(s) + Packets(queue)
  {
    hide Exec, Packets, Requests;
    InitInv(capacity);
    RunKeepsInv(Init(capacity), actions);
    var s := Exec(Init(capacity), actions);
    var queue := s.accepted[Taken(s)..];
    assert s.accepted == Requests(s.outcomes) + Current(s) + queue;
    assert s.requests == Partial(s) + Packets(queue);
  }

  /**
   The semaphore never exceeds the requests in the ring, but for the token that wakes the thread to exit; so
   a thread that has taken a token and found no request to exit has a whole packet in front of it.
   */
  lemma TokensHavePackets(capacity: nat, actions: seq<Action>)
    ensures var s := Exec(Init(capacity), actions);
      && s.sem <= Queued(s) + (if s.main.Joining? then 1 else 0)
      && (s.thread.Reading? ==>
            var n := |s.outcomes|;
            && n < |s.accepted|
            && s.requests == Packet(s.accepted[n]) + Packets(s.accepted[n + 1..]))
  {
    hide Exec, Packet, Requests;
    InitInv(capacity);
    RunKeepsInv(Init(capacity), actions);
    var s := Exec(Init(capacity), actions);
    if s.thread.Reading? {
      assert s.accepted[|s.outcomes|..][1..] == s.accepted[|s.outcomes| + 1..];
    }
  }

  /** Work is never done while the state worker has the lock, and at most once after a request to exit. */
  lemma WorkIsExclusive(capacity: nat, actions: seq<Action>)
    ensures var s := Exec(Init(capacity), actions);
      && (s.thread.Working? ==> s.lock == HeldByWorker)
      && (s.main.Flagged? || s.main.Joining? ==> s.worksSinceExit <= 1)
      && (s.state == Stopped && s.main.MainIdle? ==> s.thread.NoThread?)
  {
    hide Exec, FifoInv;
    InitInv(capacity);
    RunKeepsInv(Init(capacity), actions);
  }

  /** How far the thread is from its end, once it must exit. */
  function Distance(t: Thread): nat {
    match t
    case Reading => 7
    case Sized(_) => 6
    case Loaded(_) => 5
    case Working(_) => 4
    case Waiting => 3
    case Woken => 2
    case Exiting => 1
    case _ => 0
  }

  /** No step takes the thread away from its end, and each possible step of the thread itself takes it nearer. */
  lemma ExitApproaches(s: System, a: Action)
    requires Inv(s) && s.main.Joining? && !Next(s, a).main.MainIdle?
    ensures Next(s, a).main.Joining? && Distance(Next(s, a).thread) <= Distance(s.thread)
    ensures ByThread(a) && Next(s, a) != s ==> Distance(Next(s, a).thread) < Distance(s.thread)
  {
    hide FifoInv, Packet, DecodeU32;
  }

  /** The step that the thread can always make next; the state worker may have to unlock first. */
  function ExitStep(s: System): Action {
    match s.thread
    case Reading => ReadSize
    case Sized(_) => ReadRequest(true)
    case Loaded(_) => if s.lock.HeldByState? then StateUnlocks else TakeLock
    case Working(_) => FinishWork
    case Waiting => Wait
    case Woken => Check
    case Exiting => Stop
    case _ => Join
  }

  lemma ExitStepProceeds(s: System)
    requires Inv(s) && s.main.Joining?
    ensures var t := Next(s, ExitStep(s));
      if s.thread.Finished? then t.main.MainIdle? && t.state == Stopped
      else t.main.Joining? &&
           (Distance(t.thread) < Distance(s.thread)
            || (t.thread == s.thread && s.lock.HeldByState? && t.lock.Unlocked?))
  {
    hide Packet, Packets, DecodeU32, Requests;
  }

  /** Nothing keeps the thread from its end: from any state of a run with an exit posted, it can stop and be joined. */
  lemma {:induction false} ExitCompletes(s: System) returns (actions: seq<Action>)
    requires Inv(s) && s.main.Joining?
    ensures forall a | a in actions :: ByThread(a) || a == StateUnlocks || a == Join
    ensures var t := Exec(s, actions); t.main.MainIdle? && t.state == Stopped && t.thread.NoThread?
    decreases Distance(s.thread), if s.lock.HeldByState? then 1 else 0
  {
    hide Next, FifoInv, TokenInv, WorkInv;
    var a := ExitStep(s);
    ExitStepProceeds(s);
    StepKeepsInv(s, a);
    if s.thread.Finished? {
      actions := [a];
      assert [a][..0] == [];
    } else {
      var rest := ExitCompletes(Next(s, a));
      ExecCons(s, a, rest);
      actions := [a] + rest;
    }
  }

  lemma StepKeepsInv(s: System, a: Action)
    requires Inv(s)
    ensures Inv(Next(s, a))
  {
    hide Next;
    RunKeepsInv(s, [a]);
    assert [a][..0] == [];
  }

  lemma {:induction false} ExecCons(s: System, a: Action, actions: seq<Action>)
    ensures Exec(s, [a] + actions) == Exec(Next(s, a), actions)
  {
    hide Next;
    if actions == [] {
      assert ([a] + actions)[..0] == [] && Exec(s, []) == s;
    } else {
      var n := |actions| - 1;
      ExecCons(s, a, actions[..n]);
      assert ([a] + actions)[..n + 1] == [a] + actions[..n];
    }
  }

  /** What can have changed from `s`, when the thread had been joined, to `t`. */
  ghost predicate OnlyAdded(s: System, t: System) {
    && t.outcomes == s.outcomes && t.thread.NoThread? && t.main.MainIdle? && t.state == Stopped
    && s.accepted <= t.accepted && |t.accepted| <= |s.accepted| + (if s.audio.Checked? then 1 else 0)
    && (t.audio.Checked? ==> s.audio.Checked? && t.accepted == s.accepted)
    && t.requests == s.requests + Packets(t.accepted[|s.accepted|..])
  }

  lemma OnlyAddedNone(s: System)
    requires s.thread.NoThread? && s.main.MainIdle? && s.state == Stopped
    ensures OnlyAdded(s, s)
  {
    assert s.accepted[|s.accepted|..] == [] && s.requests + [] == s.requests;
  }

  lemma PacketAdded(requests: seq<Byte>, accepted: seq<Data>, d: Data)
    ensures requests + Packets(accepted[|accepted|..]) + Packet(d) == requests + Packets((accepted + [d])[|accepted|..])
  {
    hide Packet;
    assert accepted[|accepted|..] == [] && (accepted + [d])[|accepted|..] == [d] && [d][1..] == [];
    assert Packets([d]) == Packet(d) + [];
  }

  lemma OnlyAddedWrite(s: System, t: System)
    requires OnlyAdded(s, t)
    ensures OnlyAdded(s, Next(t, WriteRequest))
  {
    hide NextThread, NextMain, NextState, Packet, Packets;
    if t.audio.Checked? {
      PacketAdded(s.requests, s.accepted, t.audio.data);
    }
  }

  lemma OnlyAddedNext(s: System, t: System, a: Action)
    requires OnlyAdded(s, t) && a != InitSemaphore && !a.WriteRequest?
    ensures OnlyAdded(s, Next(t, a))
  {
    hide Packet, Packets, DecodeU32;
  }

  /**
   After the join no work starts, and nothing is taken from the ring, until the next launch: the ring keeps
   its packets, and that of a request that passed its check before the exit may still be added.
   */
  lemma {:induction false} NoWorkUntilRelaunch(s: System, actions: seq<Action>)
    requires Inv(s) && s.main.MainIdle? && s.state == Stopped
    requires InitSemaphore !in actions
    ensures var t := Exec(s, actions);
      && t.outcomes == s.outcomes && t.thread.NoThread? && t.main.MainIdle? && t.state == Stopped
      && s.accepted <= t.accepted && |t.accepted| <= |s.accepted| + (if s.audio.Checked? then 1 else 0)
      && t.requests == s.requests + Packets(t.accepted[|s.accepted|..])
  {
    hide FifoInv, TokenInv, WorkInv, Exec, Packets;
    NoWorkRun(s, actions);
  }

  lemma {:induction false} NoWorkRun(s: System, actions: seq<Action>)
    requires s.thread.NoThread? && s.main.MainIdle? && s.state == Stopped && InitSemaphore !in actions
    ensures OnlyAdded(s, Exec(s, actions))
  {
    hide OnlyAdded, Next;
    if actions == [] {
      OnlyAddedNone(s);
    } else {
      var before, a := actions[..|actions| - 1], actions[|actions| - 1];
      assert a in actions;
      NoWorkRun(s, before);
      if a.WriteRequest? {
        OnlyAddedWrite(s, Exec(s, before));
      } else {
        OnlyAddedNext(s, Exec(s, before), a);
      }
    }
  }

  // ---------------------------------------------------------- what the outcomes mean

  /** Whether there was memory, for each request that was taken from the ring in a run. */
  function Reads(s: System, actions: seq<Action>): seq<bool> {
    if actions == [] then []
    else
      var before, a := actions[..|actions| - 1], actions[|actions| - 1];
      if a.ReadRequest? && Exec(s, before).thread.Sized? then Reads(s, before) + [a.hasMemory] else Reads(s, before)
  }

  /** The work() calls that a run has finished. */
  function Works(s: System, actions: seq<Action>): seq<Data> {
    if actions == [] then []
    else
      var before, a := actions[..|actions| - 1], actions[|actions| - 1];
      var t := Exec(s, before);
      if a.FinishWork? && t.thread.Working? then Works(s, before) + [t.thread.job] else Works(s, before)
  }

  /** The requests that were executed. */
  function Jobs(os: seq<Outcome>): seq<Data> {
    if os == [] then []
    else
      var before, o := Jobs(os[..|os| - 1]), os[|os| - 1];
      if o.Executed? then before + [o.done] else before
  }

  /** Whether the thread has the whole of a request. */
  predicate Has(t: Thread) {
    t.Loaded? || t.Working?
  }

  predicate OutcomesAre(s: System, memory: seq<bool>) {
    && |memory| == |s.outcomes| + (if Has(s.thread) then 1 else 0)
    && (forall k | 0 <= k < |s.outcomes| :: s.outcomes[k].Executed? <==> memory[k])
    && (Has(s.thread) ==> memory[|memory| - 1])
  }

  lemma OthersKeepOutcomes(s: System, a: Action)
    requires Inv(s) && !ByThread(a)
    ensures Next(s, a).outcomes == s.outcomes
    ensures Next(s, a).thread == s.thread || (!Has(s.thread) && !Has(Next(s, a).thread))
  {
    hide NextThread, FifoInv, TokenInv, WorkInv, Packet;
  }

  lemma OutcomesStep(s: System, a: Action, memory: seq<bool>)
    requires Inv(s) && OutcomesAre(s, memory)
    ensures OutcomesAre(Next(s, a), if a.ReadRequest? && s.thread.Sized? then memory + [a.hasMemory] else memory)
  {
    hide NextAudio, NextMain, NextState, Requests, Packets, Packet, DecodeU32;
    if !ByThread(a) {
      OthersKeepOutcomes(s, a);
    }
  }

  /**
   In every run: a request that was taken from the ring is executed if there was memory for it, and skipped
   if there was not; each but the one that the thread has in its hands.
   */
  lemma {:induction false} SkippedExactlyWithoutMemory(capacity: nat, actions: seq<Action>)
    ensures OutcomesAre(Exec(Init(capacity), actions), Reads(Init(capacity), actions))
  {
    hide Next, Inv, OutcomesAre;
    var s := Init(capacity);
    if actions == [] {
      OutcomesNone(capacity);
    } else {
      var before, a := actions[..|actions| - 1], actions[|actions| - 1];
      SkippedExactlyWithoutMemory(capacity, before);
      InitInv(capacity);
      RunKeepsInv(s, before);
      OutcomesStep(Exec(s, before), a, Reads(s, before));
    }
  }

  lemma OutcomesNone(capacity: nat)
    ensures OutcomesAre(Init(capacity), [])
  {
  }

  lemma JobsSnoc(os: seq<Outcome>, o: Outcome)
    ensures Jobs(os + [o]) == if o.Executed? then Jobs(os) + [o.done] else Jobs(os)
  {
    assert (os + [o])[..|os|] == os;
  }

  lemma JobsStep(s: System, a: Action)
    requires Inv(s)
    ensures Jobs(Next(s, a).outcomes) ==
      if a.FinishWork? && s.thread.Working? then Jobs(s.outcomes) + [s.thread.job] else Jobs(s.outcomes)
  {
    hide NextAudio, NextMain, NextState, Jobs, DecodeU32, Packets, Requests;
    if !ByThread(a) {
      OthersKeepOutcomes(s, a);
    } else if a.FinishWork? && s.thread.Working? {
      JobsSnoc(s.outcomes, Executed(s.thread.job));
    } else if a.ReadRequest? && s.thread.Sized? && s.thread.size <= |s.requests| {
      JobsSnoc(s.outcomes, Skipped(s.requests[..s.thread.size]));
    }
  }

  /** A request is noted as executed exactly when a work() call for it has finished, under the lock. */
  lemma {:induction false} ExecutedMeansWorked(capacity: nat, actions: seq<Action>)
    ensures Jobs(Exec(Init(capacity), actions).outcomes) == Works(Init(capacity), actions)
    ensures Exec(Init(capacity), actions).thread.Working? ==> Exec(Init(capacity), actions).lock.HeldByWorker?
  {
    hide Next, FifoInv, TokenInv, LifeInv;
    var s := Init(capacity);
    InitInv(capacity);
    RunKeepsInv(s, actions);
    if actions != [] {
      var before := actions[..|actions| - 1];
      ExecutedMeansWorked(capacity, before);
      RunKeepsInv(s, before);
      JobsStep(Exec(s, before), actions[|actions| - 1]);
    }
  }

  /** The worker must exit, or has been joined. */
  predicate Ended(s: System) {
    s.main.Flagged? || s.main.Joining? || (s.main.MainIdle? && s.state == Stopped && s.thread.NoThread?)
  }

  lemma EndedStep(s: System, a: Action)
    requires Inv(s) && Ended(s) && a != InitSemaphore
    ensures Ended(Next(s, a))
    ensures Next(s, a).worksSinceExit == s.worksSinceExit + if a.FinishWork? && s.thread.Working? then 1 else 0
  {
    hide FifoInv, TokenInv, WorkInv, DecodeU32;
  }

  lemma ExitRequested(s: System)
    requires Inv(s) && s.main.MainIdle? && s.state == Launched
    ensures Ended(Next(s, SetMustExit)) && Next(s, SetMustExit).worksSinceExit == 0
  {
  }

  /** After each request to exit, and before a relaunch, at most one more work() call finishes. */
  lemma {:induction false} WorksAfterExit(capacity: nat, actions: seq<Action>, k: nat)
    requires k < |actions| && actions[k] == SetMustExit && InitSemaphore !in actions[k + 1..]
    requires var u := Exec(Init(capacity), actions[..k]); u.main.MainIdle? && u.state == Launched
    ensures var t := Exec(Init(capacity), actions);
      && Ended(t) && t.worksSinceExit <= 1
      && |Works(Init(capacity), actions)| == |Works(Init(capacity), actions[..k])| + t.worksSinceExit
  {
    hide Next, Inv, Ended;
    var s := Init(capacity);
    InitInv(capacity);
    RunKeepsInv(s, actions);
    var before, a := actions[..|actions| - 1], actions[|actions| - 1];
    RunKeepsInv(s, before);
    assert before[..k] == actions[..k] || k == |before|;
    if k < |before| {
      assert actions[k + 1..][|actions| - k - 2] == a && before[k + 1..] == actions[k + 1..][..|before| - k - 1];
      WorksAfterExit(capacity, before, k);
      EndedStep(Exec(s, before), a);
      EndedWorks(s, before, actions);
    } else {
      assert actions[..k] == before;
      ExitRequested(Exec(s, before));
    }
  }

  /** The last step may finish work only if none was finished since the request. */
  lemma EndedWorks(s: System, before: seq<Action>, actions: seq<Action>)
    requires actions != [] && before == actions[..|actions| - 1]
    requires Inv(Exec(s, before)) && Ended(Exec(s, before)) && Exec(s, before).worksSinceExit <= 1
    requires Inv(Exec(s, actions)) && actions[|actions| - 1] != InitSemaphore
    ensures Exec(s, actions).worksSinceExit <= 1
  {
    hide Exec, FifoInv, TokenInv;
    var u, a := Exec(s, before), actions[|actions| - 1];
    EndedStep(u, a);
    assert Exec(s, actions) == Next(u, a) by {
      ExecLast(s, actions);
    }
  }

  lemma ExecLast(s: System, actions: seq<Action>)
    requires actions != []
    ensures Exec(s, actions) == Next(Exec(s, actions[..|actions| - 1]), actions[|actions| - 1])
  {
  }

  // ---------------------------------------------------------- calls without interruption

  /** A request is scheduled: what the audio thread does when no other thread steps in. */
  lemma ScheduleSteps(s: System, d: Data)
    requires s.audio.AudioIdle?
    ensures Next(Next(Next(s, Schedule(d)), WriteRequest), PostRequest) ==
      if s.state == Launched && |d| > 0 && |s.requests| + SIZE_SIZE + |d| <= s.capacity
      then s.(requests := s.requests + Packet(d), accepted := s.accepted + [d], sem := s.sem + 1)
      else s
  {
    hide NextThread, NextMain, NextState, Packet;
  }

  /** A round of the worker thread for the first request in the ring. */
  lemma ServeSteps(s: System, hasMemory: bool)
    requires Inv(s) && s.thread.Waiting? && s.sem > 0 && s.state != MustExit && s.lock.Unlocked?
    ensures |s.outcomes| < |s.accepted|
    ensures var d := s.accepted[|s.outcomes|];
      var t := Next(Next(Next(Next(s, Wait), Check), ReadSize), ReadRequest(hasMemory));
      var u := s.(sem := s.sem - 1, requests := Packets(s.accepted[|s.outcomes| + 1..]));
      if hasMemory
      then Next(Next(t, TakeLock), FinishWork) ==
             u.(outcomes := s.outcomes + [Executed(d)], worksSinceExit := s.worksSinceExit + 1)
      else t == u.(outcomes := s.outcomes + [Skipped(d)])
  {
    hide NextAudio, NextMain, NextState, Packet, Packets, DecodeU32, Next, Requests;
    HasRequest(s);
    var n := |s.outcomes|;
    var d, rest := s.accepted[n], Packets(s.accepted[n + 1..]);
    PacketRoundTrip(d, rest);
    WakesUp(s);
    TakesRequest(s.(sem := s.sem - 1, thread := Reading), d, rest, hasMemory);
    if hasMemory {
      DoesWork(s.(sem := s.sem - 1, requests := rest, thread := Loaded(d)), d);
    }
  }

  lemma HasRequest(s: System)
    requires Inv(s) && s.thread.Waiting? && s.sem > 0 && s.state != MustExit
    ensures |s.outcomes| < |s.accepted|
    ensures s.requests == Packet(s.accepted[|s.outcomes|]) + Packets(s.accepted[|s.outcomes| + 1..])
  {
    hide Packet, Requests;
    assert Queued(s) >= 1;
    assert s.accepted[|s.outcomes|..][1..] == s.accepted[|s.outcomes| + 1..];
  }

  lemma WakesUp(s: System)
    requires s.thread.Waiting? && s.sem > 0 && s.state != MustExit
    ensures Next(Next(s, Wait), Check) == s.(sem := s.sem - 1, thread := Reading)
  {
    hide NextAudio, NextMain, NextState, DecodeU32;
  }

  lemma TakesRequest(s: System, d: Data, rest: seq<Byte>, hasMemory: bool)
    requires s.thread.Reading? && s.requests == Packet(d) + rest
    ensures Next(Next(s, ReadSize), ReadRequest(hasMemory)) ==
      if hasMemory then s.(requests := rest, thread := Loaded(d))
      else s.(requests := rest, thread := Waiting, outcomes := s.outcomes + [Skipped(d)])
  {
    hide NextAudio, NextMain, NextState, DecodeU32, EncodeU32, Packet;
    PacketRoundTrip(d, rest);
  }

  lemma DoesWork(s: System, d: Data)
    requires s.thread == Loaded(d) && s.lock.Unlocked?
    ensures Next(Next(s, TakeLock), FinishWork) ==
      s.(thread := Waiting, outcomes := s.outcomes + [Executed(d)], worksSinceExit := s.worksSinceExit + 1)
  {
    hide NextAudio, NextMain, NextState, DecodeU32;
  }

  /** Launching: with a new semaphore, a thread if one can be created, and the new state after that. */
  lemma LaunchSteps(s: System)
    requires s.main.MainIdle? && s.state == Stopped
    ensures Next(Next(Next(s, InitSemaphore), CreateThread), SetLaunched) ==
      s.(sem := 0, thread := Waiting, state := Launched)
    ensures Next(Next(s, InitSemaphore), FailToCreate) == s.(sem := 0)
  {
    hide NextAudio, NextThread, NextState;
  }

  /** Exit begins with the new state and a token, and then waits for the thread. */
  lemma ExitSteps(s: System)
    requires s.main.MainIdle? && s.state == Launched
    ensures var t := Next(Next(s, SetMustExit), PostExit);
      && t == s.(state := MustExit, sem := s.sem + 1, main := Joining, worksSinceExit := 0)
      && (!s.thread.Finished? ==> Next(t, Join) == t)
  {
    hide NextAudio, NextThread, NextState;
  }

  /** While the state worker has the lock, the thread waits for it. */
  lemma LockSteps(s: System)
    requires s.lock.Unlocked?
    ensures var t := Next(s, StateLocks);
      && t == s.(lock := HeldByState) && Next(t, TakeLock) == t && Next(t, StateUnlocks) == s
  {
    hide NextAudio, NextMain, DecodeU32;
  }
}

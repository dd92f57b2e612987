/** Packets in the request and response rings of a worker, and the worker's operations in place. */
module Workers {
  import opened Bytes
  import opened Rings

  // sizeof(uint32_t)
  const SIZE_SIZE := 4

  /** A packet: its size, and then its data. */
  function Packet(data: Data): (s: seq<Byte>)
    ensures |s| == SIZE_SIZE + |data|
  {
    EncodeU32(|data|) + data
  }

  /** What a packet looks like in the ring. */
  lemma PacketFormat()
    ensures Packet([7, 8, 9]) == [3, 0, 0, 0, 7, 8, 9]
  {
  }

  function Packets(ds: seq<Data>): seq<Byte> {
    if ds == [] then [] else Packet(ds[0]) + Packets(ds[1..])
  }

  lemma {:induction false} PacketsSnoc(ds: seq<Data>, d: Data)
    ensures Packets(ds + [d]) == Packets(ds) + Packet(d)
  {
    hide Packet;
    if ds == [] {
      assert ds + [d] == [d] && [d][1..] == [];
    } else {
      assert (ds + [d])[0] == ds[0] && (ds + [d])[1..] == ds[1..] + [d];
      PacketsSnoc(ds[1..], d);
    }
  }

  lemma {:induction false} PacketsAppend(ds: seq<Data>, es: seq<Data>)
    ensures Packets(ds + es) == Packets(ds) + Packets(es)
  {
    hide Packet;
    if ds == [] {
      assert ds + es == es;
    } else {
      assert (ds + es)[0] == ds[0] && (ds + es)[1..] == ds[1..] + es;
      PacketsAppend(ds[1..], es);
    }
  }

  lemma PacketsFront(ds: seq<Data>)
    ensures ds == [] <==> |Packets(ds)| < SIZE_SIZE
    ensures ds == [] ==> Packets(ds) == []
    ensures ds != [] ==> Packets(ds) == Packet(ds[0]) + Packets(ds[1..])
  {
  }

  /** The transactions that write the packets. */
  function Chunks(ds: seq<Data>): (r: seq<seq<Byte>>)
    ensures |r| == |ds| && forall i | 0 <= i < |r| :: r[i] == Packet(ds[i])
  {
    if ds == [] then [] else [Packet(ds[0])] + Chunks(ds[1..])
  }

  lemma {:induction false} FlattenChunks(ds: seq<Data>, k: nat, n: nat)
    requires k <= n <= |ds|
    ensures Flatten(Chunks(ds)[k..n]) == Packets(ds[k..n])
    decreases n - k
  {
    hide Packet;
    if k < n {
      FlattenChunks(ds, k + 1, n);
      assert Chunks(ds)[k..n][1..] == Chunks(ds)[k + 1..n] && ds[k..n][1..] == ds[k + 1..n];
    }
  }

  /** More of the late packets may join the queue. */
  lemma Conserved(before: seq<Data>, queue: seq<Data>, base: seq<Data>, late: seq<Data>, k: nat, n: nat)
    requires k <= n <= |late| && before + queue == base + late[..k]
    ensures before + (queue + late[k..n]) == base + late[..n]
  {
    assert before + (queue + late[k..n]) == before + queue + late[k..n];
    assert late[..k] + late[k..n] == late[..n];
  }

  /** The first of the queue may leave it. */
  lemma Moved(before: seq<Data>, queue: seq<Data>, d: Data)
    requires queue != [] && queue[0] == d
    ensures before + [d] + queue[1..] == before + queue
  {
  }

  /** The size header at the front of a packet says how much of what follows is its data. */
  lemma PacketRoundTrip(d: Data, rest: seq<Byte>)
    ensures var s := Packet(d) + rest;
      && DecodeU32(s[..SIZE_SIZE]) == |d|
      && s[SIZE_SIZE..] == d + rest
      && (d + rest)[..|d|] == d && (d + rest)[|d|..] == rest
  {
    hide EncodeU32, DecodeU32;
    assert (Packet(d) + rest)[..SIZE_SIZE] == EncodeU32(|d|);
  }

  datatype WorkerStatus = WorkSuccess | ErrUnknown | ErrNoSpace

  datatype WorkerState = SingleThreaded | Stopped | Launched | MustExit

  /** The lock that the workers of a plugin share: a semaphore that is 1 while no work is done. */
  class Lock {
    var free: bool

    constructor ()
      ensures free
    {
      free := true;
    }

    /** Wait until it is free, and take it. */
    method Take()
      modifies this
      ensures !free
    {
      free := false;
    }

    method Release()
      requires !free
      modifies this
      ensures free
    {
      free := true;
    }
  }

  /** The responses in the ring of a worker, and those that its thread may add. */
  datatype Responses = Responses(queued: seq<Data>, late: seq<Data>)

  class Worker {
    const requests: Ring
    const responses: Ring
    const lock: Lock
    // Whether the plugin has an end_run() method
    const hasEndRun: bool
    var state: WorkerState
    var sem: nat
    // The calls to the plugin's work(), work_response() and end_run() methods
    var worked: seq<Data>
    var responded: seq<Data>
    var ended: nat

    constructor (threaded: bool, lock: Lock, hasEndRun: bool, requests: Ring, responses: Ring)
      ensures this.requests == requests && this.responses == responses
      ensures this.lock == lock && this.hasEndRun == hasEndRun
      ensures state == (if threaded then Stopped else SingleThreaded) && sem == 0
      ensures worked == [] && responded == [] && ended == 0
    {
      this.requests, this.responses := requests, responses;
      this.lock, this.hasEndRun := lock, hasEndRun;
      state, sem := if threaded then Stopped else SingleThreaded, 0;
      worked, responded, ended := [], [], 0;
    }

    /** Call the plugin's work() method, with the lock held. */
    method Work(data: Data)
      requires !lock.free
      modifies this`worked
      ensures worked == old(worked) + [data]
    {
      worked := worked + [data];
    }

    /** A packet in one transaction: the reader sees its size and data, or nothing. */
    static method WritePacket(target: Ring, data: Data) returns (st: WorkerStatus)
      requires target.Valid()
      modifies target
      ensures target.Valid()
      ensures st == if |old(target.data)| + SIZE_SIZE + |data| <= target.capacity then WorkSuccess else ErrNoSpace
      ensures target.data == if st.WorkSuccess? then old(target.data) + Packet(data) else old(target.data)
    {
      var tx := target.BeginWrite();
      var r;
      r, tx := target.AmendWrite(tx, EncodeU32(|data|));
      if r.Success? {
        r, tx := target.AmendWrite(tx, data);
      }
      if !r.Success? {
        return ErrNoSpace;
      }
      r := target.CommitWrite(tx);
      assert old(target.data) + (EncodeU32(|data|) + data) == old(target.data) + Packet(data);
      return WorkSuccess;
    }

    /**
     Schedule work, which fails without a worker.  `result` is what work() returns if it is called at once,
     in a single-threaded worker.  In a worker that must exit nothing is done, and the answer is success all
     the same.
     */
    static method Schedule(worker: Worker?, data: Data, result: WorkerStatus) returns (st: WorkerStatus)
      requires worker != null ==> worker.requests.Valid()
      modifies if worker == null then {} else {worker, worker.requests, worker.lock}
      ensures worker == null ==> st == ErrUnknown
      ensures worker != null ==>
                var (w, queued) := (worker, old(worker.requests.data));
                var accepted := w.state == Launched && |data| > 0 && w.Enqueues(queued, data);
                var executed := w.state == SingleThreaded && |data| > 0;
                && w.requests.Valid() && w.state == old(w.state)
                && w.responded == old(w.responded) && w.ended == old(w.ended)
                && w.lock.free == (executed || old(w.lock.free))
                && w.requests.data == queued + (if accepted then Packet(data) else [])
                && w.sem == old(w.sem) + (if accepted then 1 else 0)
                && w.worked == old(w.worked) + (if executed then [data] else [])
                && st == (if |data| == 0 || w.state == Stopped then ErrUnknown
                          else if executed then result
                          else if w.state == MustExit || accepted then WorkSuccess
                          else ErrNoSpace)
                // Success means that the request was queued or executed exactly if the worker need not exit
                && (st.WorkSuccess? ==> (accepted || executed <==> w.state != MustExit))
    {
      st := WorkSuccess;
      if worker == null || |data| == 0 || worker.state == Stopped {
        st := ErrUnknown;
      } else if worker.state == Launched {
        st := WritePacket(worker.requests, data);
        if st.WorkSuccess? {
          worker.sem := worker.sem + 1;
        }
      } else if worker.state == SingleThreaded {
        worker.lock.Take();
        worker.Work(data);
        st := result;
        worker.lock.Release();
      }
    }

    predicate Enqueues(queued: seq<Byte>, data: Data) {
      |queued| + SIZE_SIZE + |data| <= requests.capacity
    }

    /** The thread at the other end commits any number more of the packets `late`, of which it has committed `k`. */
    static method WriterRuns(ring: Ring, late: seq<Data>, k: nat) returns (n: nat)
      requires ring.Valid() && k <= |late|
      modifies ring
      ensures ring.Valid() && k <= n <= |late| && ring.data == old(ring.data) + Packets(late[k..n])
    {
      n := ring.WriterRuns(Chunks(late), k);
      FlattenChunks(late, k, n);
    }

    /**
     A round of the worker thread for a request: `ds` are the requests in the ring, and more of `late` may be
     scheduled meanwhile.  `hasMemory` says whether there is memory for the request; if not, it is skipped.
     */
    method ServeRequest(hasMemory: bool, ghost ds: seq<Data>, late: seq<Data>) returns (committed: nat)
      requires requests.Valid() && ds != [] && requests.data == Packets(ds)
      modifies this`worked, requests, lock
      ensures requests.Valid() && committed <= |late|
      ensures requests.data == Packets(ds[1..] + late[..committed])
      ensures lock.free == (hasMemory || old(lock.free))
      ensures worked == old(worked) + if hasMemory then [ds[0]] else []
    {
      hide Packet, EncodeU32, DecodeU32, Packets;
      PacketsFront(ds);
      PacketRoundTrip(ds[0], Packets(ds[1..]));
      var count, header := requests.Read(SIZE_SIZE);
      var size := DecodeU32(header);
      committed := WriterRuns(requests, late, 0);
      assert requests.data == ds[0] + (Packets(ds[1..]) + Packets(late[..committed]));
      PacketsAppend(ds[1..], late[..committed]);
      if hasMemory {
        var body;
        count, body := requests.Read(size);
        lock.Take();
        Work(body);
        lock.Release();
      } else {
        count := requests.Skip(size);
      }
    }

    /**
     Emit the responses that are in the ring, here `ds`, and those that the worker thread commits before it
     is found empty: of the responses `late` the first `committed`, which are all emitted as well.
     */
    method EmitResponses(ghost ds: seq<Data>, late: seq<Data>) returns (committed: nat)
      requires responses.Valid() && responses.data == Packets(ds)
      modifies this`responded, responses
      ensures responses.Valid() && committed <= |late|
      ensures responded == old(responded) + ds + late[..committed]
      ensures responses.data == []
    {
      hide Packet, EncodeU32, DecodeU32, Packets;
      committed := 0;
      ghost var queue, base := ds, old(responded) + ds;
      while true
        invariant responses.Valid() && committed <= |late|
        invariant responses.data == Packets(queue)
        invariant responded + queue == base + late[..committed]
        decreases |late| - committed + |queue|
      {
        var more := WriterRuns(responses, late, committed);
        PacketsAppend(queue, late[committed..more]);
        Conserved(responded, queue, base, late, committed, more);
        queue, committed := queue + late[committed..more], more;
        PacketsFront(queue);
        var count, header := responses.Read(SIZE_SIZE);
        if count != SIZE_SIZE {
          break;
        }
        ghost var d := queue[0];
        PacketRoundTrip(d, Packets(queue[1..]));
        var size := DecodeU32(header);
        more := WriterRuns(responses, late, committed);
        PacketsAppend(queue[1..], late[committed..more]);
        assert responses.data == d + Packets(queue[1..] + late[committed..more]);
        var body;
        count, body := responses.Read(size);
        if count == size {
          responded := responded + [body];
        }
        Moved(responded[..|responded| - 1], queue, d);
        Conserved(responded, queue[1..], base, late, committed, more);
        queue, committed := queue[1..] + late[committed..more], more;
      }
    }

    /** The same, where there is a worker. */
    static method Emit(worker: Worker?, r: Responses) returns (committed: nat)
      requires worker != null ==> worker.responses.Valid() && worker.responses.data == Packets(r.queued)
      modifies if worker == null then {} else {worker, worker.responses}
      ensures committed <= |r.late|
      ensures worker != null ==>
                && worker.responses.Valid() && worker.responses.data == []
                && worker.responded == old(worker.responded) + r.queued + r.late[..committed]
                && worker.ended == old(worker.ended) && worker.worked == old(worker.worked)
                && worker.state == old(worker.state) && worker.sem == old(worker.sem)
    {
      committed := 0;
      if worker != null {
        committed := worker.EmitResponses(r.queued, r.late);
      }
    }

    /** What follows a run of the plugin: the responses of both workers, and the end of the cycle. */
    static method FinishRun(stateWorker: Worker?, worker: Worker?, fromState: Responses, fromWorker: Responses)
      returns (k: nat, n: nat)
      requires stateWorker != null && worker != null ==>
        stateWorker != worker && stateWorker.responses != worker.responses
      requires stateWorker != null ==>
        stateWorker.responses.Valid() && stateWorker.responses.data == Packets(fromState.queued)
      requires worker != null ==> worker.responses.Valid() && worker.responses.data == Packets(fromWorker.queued)
      modifies if stateWorker == null then {} else {stateWorker, stateWorker.responses}
      modifies if worker == null then {} else {worker, worker.responses}
      ensures k <= |fromState.late| && n <= |fromWorker.late|
      ensures stateWorker != null ==>
        && stateWorker.responses.data == []
        && stateWorker.responded == old(stateWorker.responded) + fromState.queued + fromState.late[..k]
        && stateWorker.ended == old(stateWorker.ended)
      ensures worker != null ==>
        && worker.responses.data == []
        && worker.responded == old(worker.responded) + fromWorker.queued + fromWorker.late[..n]
        && worker.ended == old(worker.ended) + (if worker.hasEndRun then 1 else 0)
    {
      k := Emit(stateWorker, fromState);
      n := Emit(worker, fromWorker);
      EndRun(worker);
    }

    /** The end of a cycle, for a worker whose plugin wants to know. */
    static method EndRun(worker: Worker?)
      modifies if worker == null then {} else {worker}
      ensures worker != null ==>
                && worker.ended == old(worker.ended) + (if worker.hasEndRun then 1 else 0)
                && worker.responded == old(worker.responded) && worker.worked == old(worker.worked)
                && worker.state == old(worker.state) && worker.sem == old(worker.sem)
    {
      if worker != null && worker.hasEndRun {
        worker.ended := worker.ended + 1;
      }
    }
  }
}

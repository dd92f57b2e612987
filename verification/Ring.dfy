/**
 The single-writer, single-reader byte ring that two threads share, by its contract: a bounded FIFO
 of bytes whose reads return everything asked for or nothing, and whose writes are transactions that
 the reader sees as a whole or not at all.
 */
module Rings {
  import opened Bytes

  datatype Status = Success | NoMem | Error

  /** The space seen when the transaction began, and what has been written but not committed. */
  datatype Transaction = Transaction(space: nat, pending: seq<Byte>)

  function Flatten(chunks: seq<seq<Byte>>): seq<Byte> {
    if chunks == [] then [] else chunks[0] + Flatten(chunks[1..])
  }

  lemma {:induction false} FlattenAppend(a: seq<seq<Byte>>, b: seq<seq<Byte>>)
    ensures Flatten(a + b) == Flatten(a) + Flatten(b)
  {
    if a == [] {
      assert a + b == b;
    } else {
      assert (a + b)[0] == a[0] && (a + b)[1..] == a[1..] + b;
      FlattenAppend(a[1..], b);
    }
  }

  class Ring {
    const capacity: U32
    var data: seq<Byte>

    ghost predicate Valid()
      reads this
    {
      |data| <= capacity
    }

    constructor (capacity: U32)
      ensures Valid() && data == [] && this.capacity == capacity
    {
      this.capacity := capacity;
      data := [];
    }

    method Read(n: nat) returns (count: nat, bytes: seq<Byte>)
      requires Valid()
      modifies this
      ensures Valid()
      ensures n <= |old(data)| ==> count == n && bytes == old(data)[..n] && data == old(data)[n..]
      ensures n > |old(data)| ==> count == 0 && bytes == [] && data == old(data)
    {
      if n <= |data| {
        count, bytes, data := n, data[..n], data[n..];
      } else {
        count, bytes := 0, [];
      }
    }

    method Skip(n: nat) returns (count: nat)
      requires Valid()
      modifies this
      ensures Valid()
      ensures n <= |old(data)| ==> count == n && data == old(data)[n..]
      ensures n > |old(data)| ==> count == 0 && data == old(data)
    {
      if n <= |data| {
        count, data := n, data[n..];
      } else {
        count := 0;
      }
    }

    method Write(bytes: seq<Byte>) returns (count: nat)
      requires Valid()
      modifies this
      ensures Valid()
      ensures data == if |old(data)| + |bytes| <= capacity then old(data) + bytes else old(data)
      ensures count == if |old(data)| + |bytes| <= capacity then |bytes| else 0
    {
      if |data| + |bytes| <= capacity {
        count, data := |bytes|, data + bytes;
      } else {
        count := 0;
      }
    }

    method BeginWrite() returns (tx: Transaction)
      requires Valid()
      ensures tx == Transaction(capacity - |data|, [])
    {
      tx := Transaction(capacity - |data|, []);
    }

    method AmendWrite(tx: Transaction, bytes: seq<Byte>) returns (st: Status, amended: Transaction)
      ensures st == if |tx.pending| + |bytes| <= tx.space then Success else NoMem
      ensures amended == if st.Success? then tx.(pending := tx.pending + bytes) else tx
    {
      if |tx.pending| + |bytes| <= tx.space {
        return Success, tx.(pending := tx.pending + bytes);
      }
      return NoMem, tx;
    }

    /** The reader may have made more room since the transaction began, never less. */
    method CommitWrite(tx: Transaction) returns (st: Status)
      requires Valid() && |tx.pending| <= tx.space <= capacity - |data|
      modifies this
      ensures Valid() && st.Success? && data == old(data) + tx.pending
    {
      data := data + tx.pending;
      return Success;
    }

    /**
     The other thread, as the writer: of the chunks `late` it has committed `k`, and commits any
     number more, in order.  `n` says how many it then has, and a caller knows nothing else about it.
     */
    method WriterRuns(late: seq<seq<Byte>>, k: nat) returns (n: nat)
      requires Valid() && k <= |late|
      modifies this
      ensures Valid() && k <= n <= |late|
      ensures data == old(data) + Flatten(late[k..n])
      ensures Flatten(late[..n]) == Flatten(late[..k]) + Flatten(late[k..n])
    {
      assert Flatten(late[k..k]) == [];
      n :| k <= n <= |late| && |data| + |Flatten(late[k..n])| <= capacity;
      data := data + Flatten(late[k..n]);
      FlattenAppend(late[..k], late[k..n]);
      assert late[..n] == late[..k] + late[k..n];
    }

    /** The other thread, as the reader: it takes any number of bytes, `taken`. */
    method ReaderRuns() returns (taken: seq<Byte>)
      requires Valid()
      modifies this
      ensures Valid() && old(data) == taken + data
    {
      var n :| 0 <= n <= |data|;
      taken, data := data[..n], data[n..];
    }
  }
}

/**
 A ring between two threads, step by step and byte by byte: the writer commits whole messages, and
 the reader drains it with separate reads of headers and bodies, up to the space that it counted
 when it began.  The steps of the two interleave in any way.
 */
module Delivery {
  import opened Bytes
  import opened Comm

  /** Where the reader is in its loop: at the test, or between the reads of a header and its body. */
  datatype Reader =
    | AtRest
    | Scanning(i: nat, space: nat)
    | InBody(i: nat, space: nat, kind: U32, size: U32)

  /**
   `sent` and `received` record what went in and came out, and `until` what had gone in when the reader last
   began.
   */
  datatype Link = Link(capacity: nat, ring: seq<Byte>, reader: Reader,
                       sent: seq<Message>, received: seq<Message>, until: nat, failed: bool)

  datatype Action = Send(m: Message) | Begin | ReadHeader | ReadBody | End

  /** One step; a step that is not possible changes nothing. */
  function Next(s: Link, a: Action): Link {
    match a
    case Send(m) =>
      if |s.ring| + |Encode(m)| <= s.capacity then s.(ring := s.ring + Encode(m), sent := s.sent + [m]) else s
    case Begin =>
      if s.reader.AtRest? then s.(reader := Scanning(0, |s.ring|), until := |s.sent|) else s
    case ReadHeader =>
      if s.reader.Scanning? && s.reader.i < s.reader.space then
        if |s.ring| < HEADER_SIZE then s.(reader := AtRest, failed := true)
        else
          var header := s.ring[..HEADER_SIZE];
          s.(ring := s.ring[HEADER_SIZE..],
             reader := InBody(s.reader.i, s.reader.space, HeaderType(header), HeaderBodySize(header)))
      else s
    case ReadBody =>
      if s.reader.InBody? then
        if |s.ring| < s.reader.size then s.(reader := AtRest, failed := true)
        else
          var m := DecodeBody(s.reader.kind, s.ring[..s.reader.size]);
          s.(ring := s.ring[s.reader.size..],
             reader := Scanning(s.reader.i + HEADER_SIZE + s.reader.size, s.reader.space),
             received := s.received + m,
             failed := s.failed || m == [])
      else s
    case End =>
      if s.reader.Scanning? && s.reader.i >= s.reader.space then s.(reader := AtRest) else s
  }

  function Exec(s: Link, actions: seq<Action>): Link {
    if actions == [] then s else Next(Exec(s, actions[..|actions| - 1]), actions[|actions| - 1])
  }

  function Init(capacity: nat): Link {
    Link(capacity, [], AtRest, [], [], 0, false)
  }

  /** The number of bytes of the messages from the `n`-th up to the `k`-th. */
  function Span(ms: seq<Message>, n: nat, k: nat): nat
    requires n <= k <= |ms|
  {
    |EncodeAll(ms[n..k])|
  }

  ghost predicate Inv(s: Link) {
    var n := |s.received|;
    && !s.failed
    && n <= |s.sent| && s.received == s.sent[..n]
    && |s.ring| <= s.capacity
    && match s.reader
       case AtRest => s.ring == EncodeAll(s.sent[n..])
       case Scanning(i, space) =>
         && s.ring == EncodeAll(s.sent[n..])
         && n <= s.until <= |s.sent| && i + Span(s.sent, n, s.until) == space
       case InBody(i, space, kind, size) =>
         && n < s.until <= |s.sent| && i + Span(s.sent, n, s.until) == space
         && kind == Type(s.sent[n]) && size == PayloadSize(s.sent[n])
         && s.ring == Payload(s.sent[n]) + EncodeAll(s.sent[n + 1..])
  }

  lemma SendKeeps(s: Link, m: Message)
    requires Inv(s)
    ensures Inv(Next(s, Send(m)))
  {
    hide Encode, Payload;
    if s.reader.InBody? {
      SendKeepsBody(s, m);
    } else {
      var n, t := |s.received|, Next(s, Send(m));
      if t != s {
        assert t.sent[..n] == s.sent[..n] && t.sent[n..] == s.sent[n..] + [m];
        EncodeAllSnoc(s.sent[n..], m);
        if s.reader.Scanning? {
          assert t.sent[n..s.until] == s.sent[n..s.until];
        }
      }
    }
  }

  lemma SendKeepsBody(s: Link, m: Message)
    requires Inv(s) && s.reader.InBody?
    ensures Inv(Next(s, Send(m)))
  {
    hide Encode, Payload, EncodeAll;
    var n, t := |s.received|, Next(s, Send(m));
    if t != s {
      assert t.sent[..n] == s.sent[..n] && t.sent[n..s.until] == s.sent[n..s.until];
      assert t.sent[n + 1..] == s.sent[n + 1..] + [m];
      EncodeAllSnoc(s.sent[n + 1..], m);
      assert Payload(s.sent[n]) + (EncodeAll(s.sent[n + 1..]) + Encode(m)) == s.ring + Encode(m);
    }
  }

  lemma HeaderKeeps(s: Link)
    requires Inv(s)
    ensures Inv(Next(s, ReadHeader))
  {
    hide Encode, Payload, DecodeU32, EncodeU32, HeaderType, HeaderBodySize, DecodeBody;
    var n := |s.received|;
    if s.reader.Scanning? && s.reader.i < s.reader.space {
      assert n < s.until;
      assert s.sent[n..][1..] == s.sent[n + 1..];
      HeaderRoundTrip(s.sent[n], EncodeAll(s.sent[n + 1..]));
    }
  }

  lemma BodyKeeps(s: Link)
    requires Inv(s)
    ensures Inv(Next(s, ReadBody))
  {
    hide Encode, Payload, DecodeU32, EncodeU32, DecodeBody;
    var n := |s.received|;
    if s.reader.InBody? {
      BodyRoundTrip(s.sent[n], EncodeAll(s.sent[n + 1..]));
      assert s.sent[..n + 1] == s.sent[..n] + [s.sent[n]];
      assert s.sent[n..s.until][1..] == s.sent[n + 1..s.until];
    }
  }

  lemma BeginKeeps(s: Link)
    requires Inv(s)
    ensures Inv(Next(s, Begin)) && Inv(Next(s, End))
  {
    hide Encode, Payload;
    assert s.sent[|s.received|..|s.sent|] == s.sent[|s.received|..];
  }

  /**
   Delivery under every interleaving: no read fails, no byte is misread, and the messages that have
   come out are those that went in, in order; what is left is the one being read, if the reader is
   between its reads, and then the encodings of the rest.
   */
  lemma {:induction false} EveryInterleavingDelivers(capacity: nat, actions: seq<Action>)
    ensures Inv(Exec(Init(capacity), actions))
  {
    if actions != [] {
      EveryInterleavingDelivers(capacity, actions[..|actions| - 1]);
      var s := Exec(Init(capacity), actions[..|actions| - 1]);
      match actions[|actions| - 1]
      case Send(m) => SendKeeps(s, m);
      case ReadHeader => HeaderKeeps(s);
      case ReadBody => BodyKeeps(s);
      case _ => BeginKeeps(s);
    }
  }

  /**
   A drain ends, on a message boundary, exactly when what was counted on entry has been received, whatever
   arrived since.
   */
  lemma DrainsWhatItCounted(capacity: nat, actions: seq<Action>)
    ensures var s := Exec(Init(capacity), actions);
      s.reader.Scanning? ==>
        && s.received <= s.sent
        && |s.received| <= s.until <= |s.sent|
        && (s.reader.i >= s.reader.space <==> |s.received| == s.until)
        && (s.reader.i >= s.reader.space ==> s.reader.i == s.reader.space)
        && s.ring == EncodeAll(s.sent[|s.received|..])
  {
    hide Encode;
    EveryInterleavingDelivers(capacity, actions);
  }

  /** When the ring is empty between messages, everything that was sent has been received. */
  lemma EmptyMeansAllReceived(capacity: nat, actions: seq<Action>)
    ensures var s := Exec(Init(capacity), actions);
      !s.reader.InBody? ==> (s.ring == [] <==> s.received == s.sent)
  {
    hide Encode;
    EveryInterleavingDelivers(capacity, actions);
    var s := Exec(Init(capacity), actions);
    assert s.sent[|s.sent|..] == [];
  }

  /** No read comes up short: a header is there whenever the loop goes on, and then the whole of its body. */
  lemma ReadsAreWhole(capacity: nat, actions: seq<Action>)
    ensures var s := Exec(Init(capacity), actions);
      && (s.reader.Scanning? && s.reader.i < s.reader.space ==> |s.ring| >= HEADER_SIZE)
      && (s.reader.InBody? ==> |s.ring| >= s.reader.size)
  {
    hide Exec, Inv;
    EveryInterleavingDelivers(capacity, actions);
    WholeReads(Exec(Init(capacity), actions));
  }

  lemma WholeReads(s: Link)
    requires Inv(s)
    ensures s.reader.Scanning? ==> (s.reader.i < s.reader.space <==> |s.received| < s.until)
    ensures s.reader.Scanning? && s.reader.i < s.reader.space ==> |s.ring| >= HEADER_SIZE
    ensures s.reader.InBody? ==> |s.ring| >= s.reader.size
    ensures s.reader.AtRest? ==> (s.ring == [] <==> |s.received| == |s.sent|)
    ensures |s.received| <= |s.sent|
  {
    hide Encode, Payload;
    var n := |s.received|;
    if s.reader.Scanning? {
      assert s.sent[n..s.until] == [] <==> n == s.until;
      assert s.reader.i < s.reader.space ==> s.sent[n..] != [];
    } else if s.reader.AtRest? {
      assert s.sent[n..] == [] <==> n == |s.sent|;
    }
  }

  /** The step that the reader can make next. */
  function ReaderStep(s: Link): Action {
    match s.reader
    case AtRest => Begin
    case Scanning(i, space) => if i < space then ReadHeader else End
    case InBody(_, _, _, _) => ReadBody
  }

  function ReaderRank(s: Link): nat {
    match s.reader
    case AtRest => 3
    case Scanning(i, space) => if i < space then 2 else 4
    case InBody(_, _, _, _) => 1
  }

  lemma ReaderProgress(s: Link)
    requires Inv(s) && !(s.reader.AtRest? && s.ring == [])
    ensures var t := Next(s, ReaderStep(s));
      && Inv(t) && t.sent == s.sent && t.capacity == s.capacity
      && (|t.received| == |s.received| + 1 || (|t.received| == |s.received| && ReaderRank(t) < ReaderRank(s)))
      && |t.received| <= |s.sent|
  {
    hide Inv, Encode, Payload, EncodeAll, DecodeBody, HeaderType, HeaderBodySize;
    WholeReads(s);
    match s.reader
    case AtRest =>
      BeginKeeps(s);
      WholeReads(Next(s, Begin));
    case Scanning(i, space) =>
      HeaderKeeps(s);
      BeginKeeps(s);
    case InBody(_, _, _, _) =>
      BodyKeeps(s);
      BodyCounts(s);
      WholeReads(Next(s, ReadBody));
  }

  lemma BodyCounts(s: Link)
    requires Inv(s) && s.reader.InBody?
    ensures |Next(s, ReadBody).received| == |s.received| + 1
  {
    hide Encode, Payload, DecodeBody, EncodeAll;
    var n := |s.received|;
    BodyRoundTrip(s.sent[n], EncodeAll(s.sent[n + 1..]));
  }

  lemma {:induction false} ExecCons(s: Link, a: Action, actions: seq<Action>)
    ensures Exec(s, [a] + actions) == Exec(Next(s, a), actions)
  {
    hide Next;
    if actions == [] {
      assert ([a] + actions)[..0] == [] && Exec(s, []) == s;
    } else {
      var n := |actions| - 1;
      ExecCons(s, a, actions[..n]);
      assert ([a] + actions)[..n + 1] == [a] + actions[..n];
    }
  }

  /** The reader on its own receives everything that has been sent, and comes to rest with an empty ring. */
  lemma {:induction false} ReaderDrains(s: Link) returns (actions: seq<Action>)
    requires Inv(s)
    ensures forall a | a in actions :: !a.Send?
    ensures var t := Exec(s, actions); t.reader.AtRest? && t.ring == [] && t.sent == s.sent && t.received == s.sent
    decreases |s.sent| - |s.received|, ReaderRank(s)
  {
    hide Next, Inv;
    WholeReads(s);
    if s.reader.AtRest? && s.ring == [] {
      actions := [];
      AllReceived(s);
    } else {
      var a := ReaderStep(s);
      ReaderProgress(s);
      var rest := ReaderDrains(Next(s, a));
      ExecCons(s, a, rest);
      actions := [a] + rest;
    }
  }

  lemma AllReceived(s: Link)
    requires Inv(s) && |s.received| == |s.sent|
    ensures s.received == s.sent
  {
  }
}

/**
 An event buffer: an `atom:Sequence` of the LV2 Atom specification laid out in a byte array,
 with a capacity guard in unsigned arithmetic and an iterator that is an offset.

 `size_t` has 64 bits, `uint32_t` has 32, and words are stored least significant byte first.
 */
module Evbuf {
  import opened Bytes

  // sizeof(LV2_Atom), and also sizeof(LV2_Atom_Sequence_Body)
  const ATOM_SIZE := 8
  // sizeof(LV2_Atom_Event)
  const EVENT_SIZE := 16
  // sizeof(LV2_Atom_Sequence), allocated once more after the struct
  const SEQUENCE_SIZE := 16

  /** `frames` is the image of a signed 64-bit time. */
  datatype Event = Event(frames: U64, kind: U32, body: Data)

  // ---------------------------------------------------------------- sizes

  /** The next multiple of 8, as mathematics. */
  function RoundUp(n: nat): (r: nat)
    ensures n <= r < n + 8
  {
    (n + 7) / 8 * 8
  }

  lemma RoundUpAligned(n: nat)
    ensures RoundUp(n) % 8 == 0 && (RoundUp(n) == n <==> n % 8 == 0)
  {
  }

  /** Rounding up does not matter in an aligned room. */
  lemma RoundUpFits(n: nat, room: nat)
    requires room % 8 == 0
    ensures n <= room <==> RoundUp(n) <= room
  {
  }

  /** `lv2_atom_pad_size`: the same in 32 bits, which wraps to 0 for the last seven words. */
  function PadSize(n: U32): (r: U32)
    ensures r == if n <= TWO_TO_THE_32 - 8 then RoundUp(n) else 0
  {
    Wrap32(n + 7) / 8 * 8
  }

  function PaddedSize(e: Event): (n: nat)
    ensures n >= EVENT_SIZE + |e.body|
  {
    RoundUp(EVENT_SIZE + |e.body|)
  }

  /** The space a sequence of events takes, each padded to 8 bytes. */
  function TotalSize(es: seq<Event>): nat {
    if es == [] then 0 else TotalSize(es[..|es| - 1]) + PaddedSize(es[|es| - 1])
  }

  /** Where the event after the first `k` starts. */
  function Offset(es: seq<Event>, k: nat): nat
    requires k <= |es|
  {
    TotalSize(es[..k])
  }

  lemma OffsetStep(es: seq<Event>, k: nat)
    requires k < |es|
    ensures Offset(es, k + 1) == Offset(es, k) + PaddedSize(es[k])
  {
    assert es[..k + 1][..k] == es[..k];
  }

  lemma {:induction false} OffsetMonotone(es: seq<Event>, j: nat, k: nat)
    requires j < k <= |es|
    ensures Offset(es, j) + PaddedSize(es[j]) <= Offset(es, k)
    decreases k
  {
    OffsetStep(es, k - 1);
    if j < k - 1 {
      OffsetMonotone(es, j, k - 1);
    }
  }

  // ------------------------------------------------- the capacity guard

  /** `capacity - sizeof(LV2_Atom) - atom.size` in 64-bit unsigned arithmetic. */
  function FreeSpace(capacity: U32, size: U32): U64 {
    Wrap64(capacity - ATOM_SIZE - size)
  }

  /** The guard: it tests the size of the event before padding. */
  predicate Refuses(capacity: U32, size: U32, n: U32) {
    FreeSpace(capacity, size) < EVENT_SIZE + n
  }

  /** `atom.size` after an attempt to write an event with an `n`-byte body. */
  function SizeAfter(capacity: U32, size: U32, n: U32): U32 {
    if Refuses(capacity, size, n) then size
    else Wrap32(size + PadSize(Wrap32(EVENT_SIZE + n)))
  }

  /** `atom.size` after a reset as input and attempts to write bodies of the sizes `ns`. */
  function SizeRun(capacity: U32, ns: seq<U32>): U32 {
    if ns == [] then ATOM_SIZE
    else SizeAfter(capacity, SizeRun(capacity, ns[..|ns| - 1]), ns[|ns| - 1])
  }

  /** The subtraction does not wrap, and a write is refused exactly when its padded event does not fit. */
  ghost predicate GuardExactAt(capacity: U32, size: U32) {
    && size + ATOM_SIZE <= capacity
    && forall n: U32 :: Refuses(capacity, size, n) <==> capacity < size + ATOM_SIZE + RoundUp(EVENT_SIZE + n)
  }

  predicate SafeCapacity(capacity: U32) {
    capacity >= 16 && (capacity % 8 == 0 || capacity < 32)
  }

  /** What every run keeps: aligned, and within the capacity. */
  predicate SafeSize(capacity: U32, size: U32) {
    ATOM_SIZE <= size <= capacity - ATOM_SIZE && size % 8 == 0
  }

  lemma SafeGuard(capacity: U32, size: U32, n: U32)
    requires SafeCapacity(capacity) && SafeSize(capacity, size)
    ensures Refuses(capacity, size, n) <==> capacity < size + ATOM_SIZE + RoundUp(EVENT_SIZE + n)
    ensures !Refuses(capacity, size, n) ==> SizeAfter(capacity, size, n) == size + RoundUp(EVENT_SIZE + n)
    ensures SafeSize(capacity, SizeAfter(capacity, size, n))
  {
    hide RoundUp;
    RoundUpAligned(EVENT_SIZE + n);
    if capacity % 8 == 0 {
      RoundUpFits(EVENT_SIZE + n, capacity - ATOM_SIZE - size);
    }
  }

  lemma {:induction false} SafeRun(capacity: U32, ns: seq<U32>)
    requires SafeCapacity(capacity)
    ensures SafeSize(capacity, SizeRun(capacity, ns))
  {
    if ns != [] {
      SafeRun(capacity, ns[..|ns| - 1]);
      SafeGuard(capacity, SizeRun(capacity, ns[..|ns| - 1]), ns[|ns| - 1]);
    }
  }

  /**
   The guard is exact throughout every run exactly for the capacities that are aligned or too small
   to hold an unaligned event.  For the others one write that just passes the guard is enough to
   make the next subtraction wrap.
   */
  lemma GuardExactness(capacity: U32)
    ensures (forall ns: seq<U32> :: GuardExactAt(capacity, SizeRun(capacity, ns))) <==> SafeCapacity(capacity)
  {
    if SafeCapacity(capacity) {
      forall ns: seq<U32> ensures GuardExactAt(capacity, SizeRun(capacity, ns)) {
        SafeRun(capacity, ns);
        forall n: U32
          ensures Refuses(capacity, SizeRun(capacity, ns), n)
             <==> capacity < SizeRun(capacity, ns) + ATOM_SIZE + RoundUp(EVENT_SIZE + n)
        {
          SafeGuard(capacity, SizeRun(capacity, ns), n);
        }
      }
    } else if capacity < 16 {
      assert !GuardExactAt(capacity, SizeRun(capacity, []));
    } else {
      var n: U32 := capacity - 32;
      var ns: seq<U32> := [n];
      assert ns[..0] == [];
      RoundUpAligned(EVENT_SIZE + n);
      assert SizeRun(capacity, ns) == SizeAfter(capacity, SizeRun(capacity, []), n);
      assert !GuardExactAt(capacity, SizeRun(capacity, ns));
    }
  }

  // ------------------------------------------------- the buffer as a value

  /** The buffer: `size` is `atom.size`, `bytes` is what follows the sequence header. */
  datatype Image = Image(capacity: U32, isSequence: bool, size: U32, bytes: seq<Byte>)

  /** The bytes at `off` are the event `e`; padding is arbitrary. */
  predicate EventAt(bytes: seq<Byte>, off: nat, e: Event) {
    && off + EVENT_SIZE + |e.body| <= |bytes|
    && DecodeU64(bytes[off..off + 8]) == e.frames
    && DecodeU32(bytes[off + 8..off + 12]) == |e.body|
    && DecodeU32(bytes[off + 12..off + 16]) == e.kind
    && bytes[off + EVENT_SIZE..off + EVENT_SIZE + |e.body|] == e.body
  }

  /** The bytes begin with the events `es`, one after the other. */
  ghost predicate EventsAt(bytes: seq<Byte>, es: seq<Event>) {
    es == [] ||
    (var before, last := es[..|es| - 1], es[|es| - 1];
     EventsAt(bytes, before) && EventAt(bytes, TotalSize(before), last))
  }

  lemma {:induction false} EventsAtIndex(bytes: seq<Byte>, es: seq<Event>, k: nat)
    requires EventsAt(bytes, es) && k < |es|
    ensures EventAt(bytes, Offset(es, k), es[k])
  {
    hide EventAt;
    var n := |es| - 1;
    if k < n {
      EventsAtIndex(bytes, es[..n], k);
      assert es[..n][..k] == es[..k];
    }
  }

  /** The buffer is a well-formed sequence of the events `es`.  The last may lack its padding. */
  ghost predicate Represents(img: Image, es: seq<Event>) {
    && img.isSequence
    && img.size >= ATOM_SIZE
    && RoundUp(img.size - ATOM_SIZE) == TotalSize(es)
    && EventsAt(img.bytes, es)
  }

  predicate WellTyped(img: Image) {
    img.isSequence ==> img.size >= ATOM_SIZE
  }

  function GetSize(img: Image): (n: U32)
    requires WellTyped(img)
  {
    if img.isSequence then img.size - ATOM_SIZE else 0
  }

  function End(img: Image): U32
    requires WellTyped(img)
  {
    PadSize(GetSize(img))
  }

  predicate IsValid(img: Image, offset: U32)
    requires WellTyped(img)
  {
    offset < GetSize(img)
  }

  /** There is room for an event header at a valid offset, and for the body that it announces. */
  predicate Readable(img: Image, offset: U32) {
    && WellTyped(img)
    && (IsValid(img, offset) ==>
          && offset + EVENT_SIZE <= |img.bytes|
          && offset + EVENT_SIZE + DecodeU32(img.bytes[offset + 8..offset + 12]) <= |img.bytes|)
  }

  function Next(img: Image, offset: U32): U32
    requires Readable(img, offset)
  {
    if !IsValid(img, offset) then offset
    else Wrap32(offset + PadSize(Wrap32(EVENT_SIZE + DecodeU32(img.bytes[offset + 8..offset + 12]))))
  }

  /** A 64-bit word truncated to 32 bits. */
  function Low32(x: U64): (r: U32)
    ensures x < TWO_TO_THE_32 ==> r == x
  {
    x % TWO_TO_THE_32
  }

  /** What is dropped of the time is a multiple of 2^32. */
  lemma LowIsCongruent(x: U64)
    ensures (x - Low32(x)) % TWO_TO_THE_32 == 0
  {
  }

  /** The event read at `offset`.  Its time is truncated to 32 bits. */
  function Get(img: Image, offset: U32): Event
    requires Readable(img, offset)
  {
    if !IsValid(img, offset) then Event(0, 0, [])
    else
      var n := DecodeU32(img.bytes[offset + 8..offset + 12]);
      Event(Low32(DecodeU64(img.bytes[offset..offset + 8])),
                  DecodeU32(img.bytes[offset + 12..offset + 16]),
                  img.bytes[offset + EVENT_SIZE..offset + EVENT_SIZE + n])
  }

  /** What a reader sees of an event. */
  function Seen(e: Event): Event {
    Event(Low32(e.frames), e.kind, e.body)
  }

  /** The iteration is inside the buffer until it has passed the last event. */
  lemma InRange(img: Image, es: seq<Event>, k: nat)
    requires Represents(img, es) && k <= |es|
    ensures Offset(es, k) < TWO_TO_THE_32
    ensures IsValid(img, Offset(es, k)) <==> k < |es|
    ensures k == |es| ==> Offset(es, k) == End(img)
    ensures k < |es| ==> Offset(es, k + 1) == Offset(es, k) + PaddedSize(es[k]) <= TWO_TO_THE_32 - 8
  {
    hide RoundUp, EventsAt;
    assert es[..|es|] == es;
    RoundUpAligned(img.size - ATOM_SIZE);
    if k < |es| {
      OffsetStep(es, k);
      OffsetMonotone(es, k, |es|);
    }
  }

  /** One round of the iteration: at the k-th event it reads that event and moves to the next. */
  lemma Visit(img: Image, es: seq<Event>, k: nat)
    requires Represents(img, es) && k <= |es|
    ensures Offset(es, k) < TWO_TO_THE_32 && Readable(img, Offset(es, k))
    ensures IsValid(img, Offset(es, k)) <==> k < |es|
    ensures k < |es| ==> Get(img, Offset(es, k)) == Seen(es[k])
    ensures k < |es| ==> Next(img, Offset(es, k)) == Offset(es, k + 1)
    ensures k == |es| ==> Offset(es, k) == End(img)
  {
    hide DecodeU32, DecodeU64, RoundUp, TotalSize, Low32, EventsAt;
    InRange(img, es, k);
    if k < |es| {
      EventsAtIndex(img.bytes, es, k);
    }
  }

  /** What an iteration reads: the events of a sequence, or none if the plugin has left the chunk that it was given. */
  ghost predicate Iterates(img: Image, es: seq<Event>) {
    Represents(img, es) || (!img.isSequence && es == [])
  }

  /** An iteration over `es` that has visited the first `k` events is at `offset`. */
  ghost predicate Visited(img: Image, es: seq<Event>, k: nat, offset: U32) {
    Iterates(img, es) && k <= |es| && offset == Offset(es, k)
  }

  lemma VisitFirst(img: Image, es: seq<Event>)
    requires Iterates(img, es)
    ensures WellTyped(img) && Visited(img, es, 0, 0)
  {
  }

  lemma VisitNext(img: Image, es: seq<Event>, k: nat, offset: U32)
    requires Visited(img, es, k, offset)
    ensures Readable(img, offset) && (IsValid(img, offset) <==> k < |es|)
    ensures k < |es| ==> Get(img, offset) == Seen(es[k]) && Visited(img, es, k + 1, Next(img, offset))
  {
    hide Get, Next, Represents;
    if Represents(img, es) {
      Visit(img, es, k);
    }
  }

  lemma {:induction false} SamePrefix(bytes: seq<Byte>, es: seq<Event>, fs: seq<Event>, k: nat)
    requires EventsAt(bytes, es) && EventsAt(bytes, fs) && TotalSize(es) == TotalSize(fs) && k <= |es|
    ensures k <= |fs| && es[..k] == fs[..k]
  {
    hide TotalSize, EventAt, EventsAt;
    if k > 0 {
      SamePrefix(bytes, es, fs, k - 1);
      assert es[..|es|] == es && fs[..|fs|] == fs;
      OffsetMonotone(es, k - 1, |es|);
      EventsAtIndex(bytes, es, k - 1);
      EventsAtIndex(bytes, fs, k - 1);
      SameEvent(bytes, Offset(es, k - 1), es[k - 1], fs[k - 1]);
      assert es[..k] == es[..k - 1] + [es[k - 1]] && fs[..k] == fs[..k - 1] + [fs[k - 1]];
    }
  }

  /** Bytes of a given size are the image of at most one sequence of events. */
  lemma EventsUnique(bytes: seq<Byte>, es: seq<Event>, fs: seq<Event>)
    requires EventsAt(bytes, es) && EventsAt(bytes, fs) && TotalSize(es) == TotalSize(fs)
    ensures es == fs
  {
    hide TotalSize, EventAt, EventsAt;
    SamePrefix(bytes, es, fs, |es|);
    SamePrefix(bytes, fs, es, |fs|);
    assert es[..|es|] == es && fs[..|fs|] == fs;
  }

  lemma SameEvent(bytes: seq<Byte>, off: nat, e: Event, f: Event)
    requires EventAt(bytes, off, e) && EventAt(bytes, off, f)
    ensures e == f
  {
  }

  // ------------------------------------------------------------- writing

  function Header(e: Event): (s: seq<Byte>)
    ensures |s| == EVENT_SIZE
  {
    EncodeU64(e.frames) + EncodeU32(|e.body|) + EncodeU32(e.kind)
  }

  /** What an event looks like in the buffer: its time, the size of its body, its type and its body. */
  lemma EventFormat()
    ensures Header(Event(0x102, 0x304, [5, 6])) + [5, 6] ==
      [2, 1, 0, 0, 0, 0, 0, 0, 2, 0, 0, 0, 4, 3, 0, 0, 5, 6]
  {
  }

  function Overwrite(bytes: seq<Byte>, off: nat, data: seq<Byte>): (r: seq<Byte>)
    requires off + |data| <= |bytes|
    ensures |r| == |bytes|
  {
    bytes[..off] + data + bytes[off + |data|..]
  }

  /** There is room for the event at the offset: what the guard is for. */
  predicate Writable(img: Image, offset: U32, e: Event) {
    !Refuses(img.capacity, img.size, |e.body|) ==> offset + EVENT_SIZE + |e.body| <= |img.bytes|
  }

  /** The buffer after an attempt to write `e` at `offset`. */
  function WriteAt(img: Image, offset: U32, e: Event): (r: Image)
    requires Writable(img, offset, e)
  {
    if Refuses(img.capacity, img.size, |e.body|) then img
    else img.(size := SizeAfter(img.capacity, img.size, |e.body|),
              bytes := Overwrite(img.bytes, offset, Header(e) + e.body))
  }

  lemma OverwriteAdjacent(bytes: seq<Byte>, off: nat, x: seq<Byte>, y: seq<Byte>)
    requires off + |x| + |y| <= |bytes|
    ensures Overwrite(Overwrite(bytes, off, x), off + |x|, y) == Overwrite(bytes, off, x + y)
  {
    assert Overwrite(bytes, off, x)[..off + |x|] == bytes[..off] + x;
    assert Overwrite(bytes, off, x)[off + |x| + |y|..] == bytes[off + |x| + |y|..];
  }

  lemma OverwriteSwapped(bytes: seq<Byte>, i: nat, x: seq<Byte>, j: nat, y: seq<Byte>)
    requires i + |x| <= j && j + |y| <= |bytes|
    ensures Overwrite(Overwrite(bytes, i, x), j, y) == Overwrite(Overwrite(bytes, j, y), i, x)
  {
  }

  /** Where the iterator is after an attempt to write `e` at `offset`. */
  function After(offset: U32, e: Event, ok: bool): U32 {
    if ok then Wrap32(offset + PadSize(Wrap32(EVENT_SIZE + |e.body|))) else offset
  }

  /** The fields may be stored one at a time and in any order. */
  lemma StoredEvent(bytes: seq<Byte>, off: nat, e: Event)
    requires off + EVENT_SIZE + |e.body| <= |bytes|
    ensures var s := Overwrite(Overwrite(bytes, off, EncodeU64(e.frames)), off + 12, EncodeU32(e.kind));
      Overwrite(Overwrite(s, off + 8, EncodeU32(|e.body|)), off + EVENT_SIZE, e.body)
      == Overwrite(bytes, off, Header(e) + e.body)
  {
    hide EncodeU32, EncodeU64, Overwrite;
    var time, size, kind := EncodeU64(e.frames), EncodeU32(|e.body|), EncodeU32(e.kind);
    OverwriteSwapped(Overwrite(bytes, off, time), off + 8, size, off + 12, kind);
    OverwriteAdjacent(bytes, off, time, size);
    OverwriteAdjacent(bytes, off, time + size, kind);
    OverwriteAdjacent(bytes, off, Header(e), e.body);
  }

  lemma WrittenEvent(bytes: seq<Byte>, off: nat, e: Event)
    requires off + EVENT_SIZE + |e.body| <= |bytes|
    ensures EventAt(Overwrite(bytes, off, Header(e) + e.body), off, e)
  {
    var r := Overwrite(bytes, off, Header(e) + e.body);
    assert r[off..off + 8] == EncodeU64(e.frames);
    assert r[off + 8..off + 12] == EncodeU32(|e.body|);
    assert r[off + 12..off + 16] == EncodeU32(e.kind);
    assert r[off + EVENT_SIZE..off + EVENT_SIZE + |e.body|] == e.body;
  }

  lemma OverwriteKeepsBefore(bytes: seq<Byte>, at: nat, data: seq<Byte>, off: nat, e: Event)
    requires at + |data| <= |bytes| && off + PaddedSize(e) <= at && EventAt(bytes, off, e)
    ensures EventAt(Overwrite(bytes, at, data), off, e)
  {
    var r := Overwrite(bytes, at, data);
    assert r[off..off + 8] == bytes[off..off + 8];
    assert r[off + 8..off + 12] == bytes[off + 8..off + 12];
    assert r[off + 12..off + 16] == bytes[off + 12..off + 16];
    assert r[off + EVENT_SIZE..off + EVENT_SIZE + |e.body|] == bytes[off + EVENT_SIZE..off + EVENT_SIZE + |e.body|];
  }

  lemma {:induction false} OverwriteKeepsEvents(bytes: seq<Byte>, at: nat, data: seq<Byte>, es: seq<Event>)
    requires at + |data| <= |bytes| && TotalSize(es) <= at && EventsAt(bytes, es)
    ensures EventsAt(Overwrite(bytes, at, data), es)
  {
    hide EventAt, Overwrite, PaddedSize;
    if es != [] {
      var before := es[..|es| - 1];
      OverwriteKeepsEvents(bytes, at, data, before);
      OverwriteKeepsBefore(bytes, at, data, TotalSize(before), es[|es| - 1]);
    }
  }

  /** An event is appended if its padded size fits, and dropped otherwise. */
  function Append(capacity: U32, es: seq<Event>, e: Event): (r: seq<Event>)
    ensures r == es || r == es + [e]
  {
    if ATOM_SIZE + TotalSize(es) + PaddedSize(e) <= capacity - ATOM_SIZE then es + [e] else es
  }

  /** The same for several events, in order. */
  function AppendAll(capacity: U32, es: seq<Event>, more: seq<Event>): seq<Event> {
    if more == [] then es
    else Append(capacity, AppendAll(capacity, es, more[..|more| - 1]), more[|more| - 1])
  }

  /** The buffer has a safe capacity and size, and is allocated. */
  predicate Sound(img: Image) {
    SafeCapacity(img.capacity) && SafeSize(img.capacity, img.size) && |img.bytes| == SEQUENCE_SIZE + img.capacity
  }

  /** The buffer of an input port, written at its end only. */
  ghost predicate InputBuffer(img: Image, es: seq<Event>) {
    Sound(img) && Represents(img, es)
  }

  lemma InputEnd(img: Image, es: seq<Event>)
    requires InputBuffer(img, es)
    ensures End(img) == GetSize(img) == TotalSize(es) == img.size - ATOM_SIZE
  {
    hide RoundUp, TotalSize, EventsAt;
    RoundUpAligned(img.size - ATOM_SIZE);
  }

  lemma WritableInside(img: Image, offset: U32, e: Event)
    requires Sound(img) && offset <= img.size - ATOM_SIZE
    ensures Writable(img, offset, e)
  {
    SafeGuard(img.capacity, img.size, |e.body|);
  }

  /** A write keeps the buffer sound if it is not past the end, and the end is there. */
  lemma WriteInside(img: Image, offset: U32, e: Event)
    requires Sound(img) && offset <= img.size - ATOM_SIZE
    ensures Writable(img, offset, e) && Sound(WriteAt(img, offset, e))
    ensures After(offset, e, !Refuses(img.capacity, img.size, |e.body|)) <= WriteAt(img, offset, e).size - ATOM_SIZE
  {
    hide RoundUp, Overwrite, Header;
    WritableInside(img, offset, e);
    SafeGuard(img.capacity, img.size, |e.body|);
  }

  lemma EndInside(img: Image, e: Event)
    requires Sound(img) && img.isSequence
    ensures End(img) <= img.size - ATOM_SIZE && Writable(img, End(img), e) && Sound(WriteAt(img, End(img), e))
  {
    hide RoundUp, Overwrite, Header;
    RoundUpAligned(img.size - ATOM_SIZE);
    WriteInside(img, End(img), e);
  }

  /** A write at the end appends the event, or refuses it and changes nothing, by its padded size alone. */
  lemma WriteAppends(img: Image, es: seq<Event>, e: Event)
    requires InputBuffer(img, es)
    ensures Writable(img, End(img), e)
    ensures InputBuffer(WriteAt(img, End(img), e), Append(img.capacity, es, e))
    ensures !Refuses(img.capacity, img.size, |e.body|) <==> Append(img.capacity, es, e) == es + [e]
  {
    hide RoundUp, TotalSize, EventsAt, EventAt, Overwrite, Header;
    InputEnd(img, es);
    WritableInside(img, End(img), e);
    SafeGuard(img.capacity, img.size, |e.body|);
    if !Refuses(img.capacity, img.size, |e.body|) {
      AppendedImage(img, es, e);
    }
  }

  lemma AppendedImage(img: Image, es: seq<Event>, e: Event)
    requires InputBuffer(img, es) && !Refuses(img.capacity, img.size, |e.body|)
    ensures Writable(img, End(img), e)
    ensures Represents(WriteAt(img, End(img), e), es + [e])
  {
    hide EventAt, Overwrite, Header, RoundUp, End, GetSize, PadSize, SizeAfter, Refuses;
    SafeGuard(img.capacity, img.size, |e.body|);
    InputEnd(img, es);
    WritableInside(img, End(img), e);
    var r, fs := WriteAt(img, End(img), e), es + [e];
    assert fs[..|es|] == es;
    RoundUpAligned(r.size - ATOM_SIZE);
    assert RoundUp(r.size - ATOM_SIZE) == TotalSize(fs);
    OverwriteKeepsEvents(img.bytes, End(img), Header(e) + e.body, es);
    WrittenEvent(img.bytes, End(img), e);
  }

  // ------------------------------------------------- whole runs

  /** A buffer as allocated, and as reset for a plugin to read. */
  function Empty(capacity: U32, bytes: seq<Byte>): Image {
    Image(capacity, true, ATOM_SIZE, bytes)
  }

  /** The buffer after a reset as input and attempts to write `attempts`, each at the end. */
  ghost function WriteRun(capacity: U32, bytes: seq<Byte>, attempts: seq<Event>): (r: Image)
    requires SafeCapacity(capacity) && |bytes| == SEQUENCE_SIZE + capacity
    ensures InputBuffer(r, AppendAll(capacity, [], attempts)) && r.capacity == capacity
  {
    if attempts == [] then
      Empty(capacity, bytes)
    else
      var img := WriteRun(capacity, bytes, attempts[..|attempts| - 1]);
      WriteAppends(img, AppendAll(capacity, [], attempts[..|attempts| - 1]), attempts[|attempts| - 1]);
      WriteAt(img, End(img), attempts[|attempts| - 1])
  }

  /** The k-th round of an iteration over `es`: it reads `es[k]` and steps to the next, or stops after the last. */
  ghost predicate AtEvent(img: Image, es: seq<Event>, k: nat)
    requires k <= |es|
  {
    && Offset(es, 0) == 0
    && Offset(es, k) < TWO_TO_THE_32
    && Readable(img, Offset(es, k))
    && (IsValid(img, Offset(es, k)) <==> k < |es|)
    && (k < |es| ==> Get(img, Offset(es, k)) == es[k] && Next(img, Offset(es, k)) == Offset(es, k + 1))
    && (k == |es| ==> Offset(es, k) == GetSize(img) == End(img))
  }

  lemma VisitExact(img: Image, es: seq<Event>, k: nat)
    requires InputBuffer(img, es) && k <= |es|
    requires k < |es| ==> es[k].frames < TWO_TO_THE_32
    ensures AtEvent(img, es, k)
  {
    hide Get, Next, Readable, IsValid, Low32, RoundUp, EventsAt;
    assert es[..|es|] == es;
    InputEnd(img, es);
    Visit(img, es, k);
  }

  /**
   The round trip: after a reset as input and any attempts to write at the end, the iteration
   reads the accepted events unchanged and in order, and ends at the size of the buffer.
   */
  lemma RoundTrip(capacity: U32, bytes: seq<Byte>, attempts: seq<Event>, k: nat)
    requires SafeCapacity(capacity) && |bytes| == SEQUENCE_SIZE + capacity
    requires forall e | e in attempts :: e.frames < TWO_TO_THE_32
    requires k <= |AppendAll(capacity, [], attempts)|
    ensures AtEvent(WriteRun(capacity, bytes, attempts), AppendAll(capacity, [], attempts), k)
  {
    hide WriteRun, AppendAll, InputBuffer, TotalSize, AtEvent, SafeCapacity;
    AppendAllFrom(capacity, [], attempts);
    VisitExact(WriteRun(capacity, bytes, attempts), AppendAll(capacity, [], attempts), k);
  }

  lemma {:induction false} AppendAllFrom(capacity: U32, es: seq<Event>, more: seq<Event>)
    ensures forall e | e in AppendAll(capacity, es, more) :: e in es || e in more
  {
    if more != [] {
      AppendAllFrom(capacity, es, more[..|more| - 1]);
    }
  }

  predicate TimeOrdered(es: seq<Event>) {
    forall i, j | 0 <= i < j < |es| :: es[i].frames <= es[j].frames
  }

  /** Whichever events are dropped, those accepted from a time-ordered series are time-ordered. */
  lemma {:induction false} AppendAllOrdered(capacity: U32, es: seq<Event>, more: seq<Event>)
    requires TimeOrdered(es + more)
    ensures TimeOrdered(AppendAll(capacity, es, more))
  {
    if more == [] {
      assert es + more == es;
    } else {
      var before, last, all := more[..|more| - 1], more[|more| - 1], es + more;
      assert all[..|all| - 1] == es + before && all[|all| - 1] == last;
      assert forall i, j | 0 <= i < j < |all| :: all[i].frames <= all[j].frames;
      AppendAllOrdered(capacity, es, before);
      AppendAllFrom(capacity, es, before);
      forall e | e in AppendAll(capacity, es, before) ensures e.frames <= last.frames {
        assert e in all[..|all| - 1];
      }
    }
  }

  // ------------------------------------------------- writing elsewhere

  lemma {:induction false} TotalSizeUpdate(es: seq<Event>, k: nat, e: Event)
    requires k < |es|
    ensures TotalSize(es[k := e]) == TotalSize(es) - PaddedSize(es[k]) + PaddedSize(e)
  {
    hide PaddedSize;
    var n := |es| - 1;
    if k < n {
      assert es[k := e][..n] == es[..n][k := e];
      TotalSizeUpdate(es[..n], k, e);
    } else {
      assert es[k := e][..n] == es[..n];
    }
  }

  /** The events `es` with the one at `k`, if there is one, replaced by `e`. */
  function Overwritten(es: seq<Event>, k: nat, e: Event): seq<Event>
    requires k <= |es|
  {
    if k < |es| then es[k := e] else es + [e]
  }

  /**
   An accepted write leaves the sequence in which the event at the iterator is replaced exactly if
   the iterator was at the end: the size grows by the whole new event in every case.
   */
  lemma OverwritesOnlyAtEnd(img: Image, es: seq<Event>, k: nat, e: Event)
    requires InputBuffer(img, es) && k <= |es|
    requires !Refuses(img.capacity, img.size, |e.body|)
    ensures Offset(es, k) <= GetSize(img) && Writable(img, Offset(es, k), e)
    ensures Represents(WriteAt(img, Offset(es, k), e), Overwritten(es, k, e)) <==> k == |es|
  {
    hide RoundUp, EventsAt, EventAt, Overwrite, Header, TotalSize;
    assert es[..|es|] == es;
    InputEnd(img, es);
    SafeGuard(img.capacity, img.size, |e.body|);
    if k == |es| {
      AppendedImage(img, es, e);
    } else {
      OffsetMonotone(es, k, |es|);
      TotalSizeUpdate(es, k, e);
    }
    WritableInside(img, Offset(es, k), e);
    RoundUpAligned(SizeAfter(img.capacity, img.size, |e.body|) - ATOM_SIZE);
  }

  // ------------------------------------------------- the buffer in place

  class EventBuffer {
    const capacity: U32
    const chunk: U32
    const sequence: U32
    const buf: array<Byte>
    var atomSize: U32
    var atomType: U32

    function Img(): Image
      reads this, buf
    {
      Image(capacity, atomType == sequence, atomSize, buf[..])
    }

    ghost predicate Allocated() {
      buf.Length == SEQUENCE_SIZE + capacity && sequence != chunk
    }

    constructor (capacity: U32, chunk: U32, sequence: U32)
      requires sequence != 0 && sequence != chunk
      ensures Allocated() && fresh(buf)
      ensures this.capacity == capacity && this.chunk == chunk && this.sequence == sequence
      ensures atomSize == 0 && !Img().isSequence
    {
      this.capacity, this.chunk, this.sequence := capacity, chunk, sequence;
      buf := new Byte[SEQUENCE_SIZE + capacity];
      atomSize, atomType := 0, 0;
    }

    /** Prepare for reading by the plugin (input) or for writing by it. */
    method Reset(input: bool)
      requires Allocated()
      modifies this
      ensures input ==> Img() == Empty(capacity, buf[..])
      ensures input && SafeCapacity(capacity) ==> InputBuffer(Img(), [])
      ensures !input ==> !Img().isSequence && Img().size == capacity && GetSize(Img()) == End(Img()) == 0
    {
      if input {
        atomSize, atomType := ATOM_SIZE, sequence;
      } else {
        atomSize, atomType := capacity, chunk;
      }
    }

    method Store(offset: nat, data: seq<Byte>)
      requires offset + |data| <= buf.Length
      modifies buf
      ensures buf[..] == Overwrite(old(buf[..]), offset, data)
    {
      forall i | 0 <= i < |data| {
        buf[offset + i] := data[i];
      }
    }

    /** Write an event at `offset`; the offset that comes back is past it if it was written. */
    method Write(offset: U32, frames: U32, kind: U32, data: seq<Byte>) returns (ok: bool, next: U32)
      requires |data| < TWO_TO_THE_32 && Writable(Img(), offset, Event(frames, kind, data))
      modifies this, buf
      ensures Img() == WriteAt(old(Img()), offset, Event(frames, kind, data))
      ensures ok <==> !Refuses(capacity, old(atomSize), |data|)
      ensures next == After(offset, Event(frames, kind, data), ok)
      ensures atomType == old(atomType)
    {
      hide Header, Overwrite, RoundUp;
      if Refuses(capacity, atomSize, |data|) {
        return false, offset;
      }
      ghost var before, e := buf[..], Event(frames, kind, data);
      Store(offset, EncodeU64(frames));
      Store(offset + 12, EncodeU32(kind));
      Store(offset + 8, EncodeU32(|data|));
      Store(offset + EVENT_SIZE, data);
      StoredEvent(before, offset, e);
      var padded := PadSize(Wrap32(EVENT_SIZE + |data|));
      atomSize := Wrap32(atomSize + padded);
      return true, Wrap32(offset + padded);
    }

    /** `lv2_evbuf_write` at `lv2_evbuf_end`: the event is appended to `es`, if they are in the buffer and it fits. */
    method WriteAtEnd(e: Event, ghost es: seq<Event>) returns (ok: bool)
      requires Allocated() && Sound(Img()) && Img().isSequence && e.frames < TWO_TO_THE_32
      modifies this, buf
      ensures Sound(Img()) && Img().isSequence && Img() == WriteAt(old(Img()), End(old(Img())), e)
      ensures InputBuffer(old(Img()), es) ==>
                InputBuffer(Img(), Append(capacity, es, e)) && (ok <==> Append(capacity, es, e) == es + [e])
    {
      hide RoundUp, Represents, Overwrite, Header, Append;
      ghost var img := Img();
      EndInside(img, e);
      if InputBuffer(img, es) {
        WriteAppends(img, es, e);
      }
      var next;
      ok, next := Write(End(Img()), e.frames, e.kind, e.body);
      assert Img() == WriteAt(img, End(img), e);
    }
  }
}

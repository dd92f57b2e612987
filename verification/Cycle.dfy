/** How often the process thread sends updates to the UI. */
module Updates {
  import opened Bytes

  /** One cycle of `n` frames: the new count of pending frames, and whether it is time to send updates. */
  function Tick(pending: U32, period: U32, n: U32): (r: (U32, bool)) {
    if period == 0 then (pending, false)
    else
      var sum := Wrap32(pending + n);
      if sum > period then (0, true) else (sum, false)
  }

  /** The count of pending frames and the number of updates after cycles of the lengths `blocks`. */
  function Run(pending: U32, period: U32, blocks: seq<U32>): (r: (U32, nat)) {
    if blocks == [] then (pending, 0)
    else
      var before := Run(pending, period, blocks[..|blocks| - 1]);
      var (after, due) := Tick(before.0, period, blocks[|blocks| - 1]);
      (after, if due then before.1 + 1 else before.1)
  }

  function Sum(blocks: seq<U32>): nat {
    if blocks == [] then 0 else Sum(blocks[..|blocks| - 1]) + blocks[|blocks| - 1]
  }

  /**
   Over any run of cycles of at most `longest` frames, the frames processed decide the number of
   updates up to the overshoot of the last block of each period.
   */
  lemma {:induction false} UpdateRate(pending: U32, period: U32, blocks: seq<U32>, longest: U32)
    requires pending <= period && period > 0 && period + longest < TWO_TO_THE_32
    requires forall n | n in blocks :: n <= longest
    ensures var (left, k) := Run(pending, period, blocks);
      && left <= period
      && k * (period + 1) + left <= pending + Sum(blocks) <= k * (period + longest) + left
  {
    if blocks != [] {
      var before := blocks[..|blocks| - 1];
      assert forall n | n in before :: n in blocks;
      UpdateRate(pending, period, before, longest);
      var (left, k) := Run(pending, period, before);
      assert (k + 1) * (period + 1) == k * (period + 1) + period + 1;
      assert (k + 1) * (period + longest) == k * (period + longest) + period + longest;
      assert blocks[|blocks| - 1] in blocks;
    }
  }

  /** The number of cycles up to and including the last in which an update was due, or 0. */
  function LastUpdate(period: U32, blocks: seq<U32>): (u: nat)
    ensures u <= |blocks|
  {
    if blocks == [] then 0
    else
      var before := blocks[..|blocks| - 1];
      if Run(0, period, blocks).1 > Run(0, period, before).1 then |blocks| else LastUpdate(period, before)
  }

  lemma SumFrom(blocks: seq<U32>, u: nat)
    requires u < |blocks|
    ensures Sum(blocks[u..]) == Sum(blocks[..|blocks| - 1][u..]) + blocks[|blocks| - 1]
    ensures Sum(blocks[|blocks|..]) == 0
  {
    assert blocks[u..][..|blocks| - 1 - u] == blocks[..|blocks| - 1][u..];
  }

  lemma RunNone(period: U32)
    ensures Run(0, period, []) == (0, 0) && LastUpdate(period, []) == 0 && Sum([]) == 0
  {
  }

  lemma LastUpdateNext(period: U32, blocks: seq<U32>)
    requires blocks != []
    ensures var before := blocks[..|blocks| - 1];
      var (after, due) := Tick(Run(0, period, before).0, period, blocks[|blocks| - 1]);
      && Run(0, period, blocks).0 == after
      && LastUpdate(period, blocks) == if due then |blocks| else LastUpdate(period, before)
  {
    hide Tick;
  }

  /** The pending frames are those of the cycles since the last update. */
  lemma {:induction false} PendingSinceUpdate(period: U32, blocks: seq<U32>, longest: U32)
    requires period > 0 && period + longest < TWO_TO_THE_32
    requires forall n | n in blocks :: n <= longest
    ensures Run(0, period, blocks).0 == Sum(blocks[LastUpdate(period, blocks)..])
  {
    hide Run, LastUpdate, Sum;
    RunNone(period);
    if blocks != [] {
      var before, n := blocks[..|blocks| - 1], blocks[|blocks| - 1];
      assert n in blocks && forall m | m in before :: m in blocks;
      PendingSinceUpdate(period, before, longest);
      UpdateRate(0, period, before, longest);
      LastUpdateNext(period, blocks);
      SumFrom(blocks, LastUpdate(period, before));
    }
  }

  /** An update is due in the first cycle in which more frames than the period have passed since the last. */
  lemma DueExactlyIf(period: U32, blocks: seq<U32>, n: U32, longest: U32)
    requires period > 0 && period + longest < TWO_TO_THE_32 && n <= longest
    requires forall m | m in blocks :: m <= longest
    ensures var due := Tick(Run(0, period, blocks).0, period, n).1;
      due <==> Sum(blocks[LastUpdate(period, blocks)..]) + n > period
  {
    PendingSinceUpdate(period, blocks, longest);
    UpdateRate(0, period, blocks, longest);
  }

  /** Without a period there are no updates, and no frames are counted. */
  lemma {:induction false} NoPeriodNoUpdates(pending: U32, blocks: seq<U32>)
    ensures Run(pending, 0, blocks) == (pending, 0)
  {
    if blocks != [] {
      NoPeriodNoUpdates(pending, blocks[..|blocks| - 1]);
    }
  }

  /** From the initial count of zero: the bounds on the number of updates over the frames of a run. */
  lemma UpdateRateBounds(period: U32, blocks: seq<U32>, longest: U32)
    requires period > 0 && period + longest < TWO_TO_THE_32
    requires forall n | n in blocks :: n <= longest
    ensures var (left, k) := Run(0, period, blocks);
      left <= period && k * (period + 1) <= Sum(blocks) <= k * (period + longest) + period
  {
    UpdateRate(0, period, blocks, longest);
  }
}

/** The prediction of the JACK transport, by which a change is noticed and reported to the plugin. */
module Transports {
  import opened Bytes

  // ------------------------------------------------------------ tempi

  /**
   A double: `significand * 2^exponent`, with a significand of 53 bits.  Exponents are unbounded, and
   zero has no sign, so that two numbers are equal exactly if they are the same.
   */
  datatype Tempo = NotANumber | Number(negative: bool, significand: nat, exponent: int)

  // The bits that a float keeps of a significand are 24, and those that it drops are 29
  const FLOAT_LIMIT := 0x100_0000
  const ULP := 0x2000_0000

  /** Zero, or a significand of exactly 53 bits. */
  predicate Normal(t: Tempo) {
    t.Number? ==>
      ULP * FLOAT_LIMIT / 2 <= t.significand < ULP * FLOAT_LIMIT || t == Number(false, 0, 0)
  }

  /** The nearest number of floats, and the even one of two. */
  function RoundHalfEven(significand: nat): nat {
    var q, r := significand / ULP, significand % ULP;
    if r > ULP / 2 || (r == ULP / 2 && q % 2 == 1) then q + 1 else q
  }

  /** A double converted to a float, and back. */
  function Narrow(t: Tempo): Tempo {
    if t.NotANumber? then t
    else
      var q := RoundHalfEven(t.significand);
      if q == FLOAT_LIMIT then Number(t.negative, ULP * FLOAT_LIMIT / 2, t.exponent + 1)
      else Number(t.negative, q * ULP, t.exponent)
  }

  /** Equality of numbers, by which nothing is equal to what is not a number. */
  predicate Equal(a: Tempo, b: Tempo) {
    a.Number? && a == b
  }

  function Distance(a: int, b: int): nat {
    if a < b then b - a else a - b
  }

  /** No multiple is nearer, and of two as near the even one is taken. */
  lemma RoundNearest(significand: nat, m: nat)
    ensures var q := RoundHalfEven(significand);
      && 2 * Distance(q * ULP, significand) <= ULP
      && Distance(q * ULP, significand) <= Distance(m * ULP, significand)
      && (m != q && Distance(m * ULP, significand) == Distance(q * ULP, significand) ==> q % 2 == 0)
  {
    var q, r := significand / ULP, significand % ULP;
    assert significand == q * ULP + r;
    if m <= q {
      assert m * ULP <= q * ULP;
      if m < q {
        assert (m + 1) * ULP <= q * ULP;
      }
    } else {
      assert (q + 1) * ULP <= m * ULP;
      if m > q + 1 {
        assert (q + 2) * ULP <= m * ULP;
      }
    }
  }

  /** A double becomes the nearest number with 24 bits, whose value is a multiple of what is dropped. */
  lemma NarrowNearest(t: Tempo)
    requires t.Number?
    ensures var n := Narrow(t);
      && n.Number? && n.negative == t.negative && t.exponent <= n.exponent <= t.exponent + 1
      && (if n.exponent == t.exponent then n.significand else 2 * n.significand) == RoundHalfEven(t.significand) * ULP
  {
  }

  lemma RoundExact(q: nat)
    ensures RoundHalfEven(q * ULP) == q
  {
  }

  /** A float is not changed by another conversion. */
  lemma NarrowTwice(t: Tempo)
    ensures Narrow(Narrow(t)) == Narrow(t)
    ensures Normal(t) ==> Normal(Narrow(t))
  {
    if t.Number? {
      var q := RoundHalfEven(t.significand);
      RoundExact(q);
      RoundExact(FLOAT_LIMIT / 2);
    }
  }

  // ------------------------------------------------------------ one cycle

  /** What JACK answers: the tempo is there only if the position has bar, beat and tick. */
  datatype Query = Query(rolling: bool, frame: U32, hasBbt: bool, tempo: Tempo)

  /** The expectation for the next cycle, with the tempo as a float. */
  datatype Expectation = Expectation(position: U32, bpm: Tempo, rolling: bool)

  // 120 is 0x1e and 48 zero bits, times 2^-46
  const INITIAL := Expectation(0, Number(false, 0x1e_0000_0000_0000, -46), false)

  /** The comparison of tempi is one of doubles. */
  predicate Changed(e: Expectation, q: Query) {
    q.rolling != e.rolling || q.frame != e.position || (q.hasBbt && !Equal(q.tempo, e.bpm))
  }

  function Expect(e: Expectation, q: Query, nframes: U32): Expectation {
    Expectation(if q.rolling then Wrap32(q.frame + nframes) else q.frame,
                if q.hasBbt then Narrow(q.tempo) else e.bpm,
                q.rolling)
  }

  // ------------------------------------------------- a plugin that counts frames

  datatype Cycle = Cycle(query: Query, nframes: U32)

  /** The expectation after active cycles `cs`. */
  function After(cs: seq<Cycle>): Expectation {
    if cs == [] then INITIAL
    else Expect(After(cs[..|cs| - 1]), cs[|cs| - 1].query, cs[|cs| - 1].nframes)
  }

  lemma AfterNext(cs: seq<Cycle>, c: Cycle)
    ensures After(cs + [c]) == Expect(After(cs), c.query, c.nframes)
  {
    assert (cs + [c])[..|cs|] == cs;
  }

  predicate Reported(cs: seq<Cycle>, k: nat)
    requires k < |cs|
  {
    Changed(After(cs[..k]), cs[k].query)
  }

  function Frames(cs: seq<Cycle>): nat {
    if cs == [] then 0 else Frames(cs[..|cs| - 1]) + cs[|cs| - 1].nframes
  }

  /** The number of cycles up to and including the last that was reported, or 0. */
  function LastReport(cs: seq<Cycle>): (n: nat)
    ensures n <= |cs|
    ensures n > 0 ==> Reported(cs, n - 1)
  {
    if cs == [] then 0
    else if Reported(cs, |cs| - 1) then |cs|
    else
      var before := cs[..|cs| - 1];
      var n := LastReport(before);
      assert n > 0 ==> Reported(before, n - 1) && before[..n - 1] == cs[..n - 1] && before[n - 1] == cs[n - 1];
      n
  }

  function Modulo32(x: nat): U32 {
    x % TWO_TO_THE_32
  }

  /** What a plugin that sees only the reports believes at the start of the next cycle. */
  function Extrapolated(cs: seq<Cycle>): (int, bool) {
    var n := LastReport(cs);
    if n == 0 then (0, false)
    else Counted(cs[n - 1].query, Frames(cs[n - 1..]))
  }

  /** Position and speed, some frames after a report of `q`. */
  function Counted(q: Query, frames: nat): (int, bool) {
    (if q.rolling then Modulo32(q.frame + frames) else q.frame, q.rolling)
  }

  /** The tempo in the last report that had one, which reports it as a float. */
  function ReportedTempo(cs: seq<Cycle>): Tempo {
    if cs == [] then INITIAL.bpm
    else if Reported(cs, |cs| - 1) && cs[|cs| - 1].query.hasBbt then Narrow(cs[|cs| - 1].query.tempo)
    else ReportedTempo(cs[..|cs| - 1])
  }

  /** What JACK answers is what a plugin that sees only the reports, and counts frames while rolling, believes. */
  predicate Predicted(cs: seq<Cycle>, q: Query) {
    Extrapolated(cs) == (q.frame, q.rolling) && (q.hasBbt ==> Equal(q.tempo, ReportedTempo(cs)))
  }

  lemma AdvanceModulo(x: nat, n: U32)
    ensures Wrap32(Modulo32(x) + n) == Modulo32(x + n)
    ensures x < TWO_TO_THE_32 ==> Modulo32(x) == x
  {
  }

  /** The initial tempo is 120, which is a float. */
  lemma InitialTempo()
    ensures INITIAL.bpm == Number(false, 120 * 0x4000_0000_0000, -46)
    ensures Normal(INITIAL.bpm) && Narrow(INITIAL.bpm) == INITIAL.bpm
  {
    RoundExact(0xf0_0000);
  }

  lemma FramesNext(cs: seq<Cycle>, c: Cycle, k: nat)
    requires k <= |cs|
    ensures Frames((cs + [c])[k..]) == Frames(cs[k..]) + c.nframes
  {
    assert (cs + [c])[k..][..|cs| - k] == cs[k..];
  }

  lemma CountedNext(q: Query, frames: nat, n: U32)
    ensures Counted(q, frames + n) == (if q.rolling then Wrap32(Counted(q, frames).0 + n) else q.frame, q.rolling)
    ensures Counted(q, n) == (if q.rolling then Wrap32(q.frame + n) else q.frame, q.rolling)
  {
    hide Modulo32, Wrap32;
    AdvanceModulo(q.frame + frames, n);
    AdvanceModulo(q.frame, n);
  }

  /** The last report is extrapolated over one more cycle, which was not reported. */
  lemma ExtrapolatedNext(cs: seq<Cycle>, c: Cycle)
    requires LastReport(cs + [c]) == LastReport(cs) > 0
    ensures var q := cs[LastReport(cs) - 1].query;
      Extrapolated(cs + [c]) == (if q.rolling then Wrap32(Extrapolated(cs).0 + c.nframes) else q.frame, q.rolling)
  {
    hide LastReport, Frames, Wrap32, Modulo32, Reported, After;
    var n := LastReport(cs);
    assert (cs + [c])[n - 1] == cs[n - 1];
    FramesNext(cs, c, n - 1);
    CountedNext(cs[n - 1].query, Frames(cs[n - 1..]), c.nframes);
  }

  lemma FramesOfLast(cs: seq<Cycle>)
    requires cs != []
    ensures Frames(cs[|cs| - 1..]) == cs[|cs| - 1].nframes
  {
    var c := cs[|cs| - 1];
    assert cs[|cs| - 1..] == [c] && [c][..0] == [];
  }

  /** A report is extrapolated over its own cycle. */
  lemma ExtrapolatedReport(cs: seq<Cycle>)
    requires cs != [] && LastReport(cs) == |cs|
    ensures var c := cs[|cs| - 1];
      Extrapolated(cs) ==
        (if c.query.rolling then Wrap32(c.query.frame + c.nframes) else c.query.frame, c.query.rolling)
  {
    hide LastReport, Frames, Wrap32, Reported, After, Counted;
    FramesOfLast(cs);
    CountedNext(cs[|cs| - 1].query, 0, cs[|cs| - 1].nframes);
  }

  lemma LastReportNext(cs: seq<Cycle>, c: Cycle)
    ensures LastReport(cs + [c]) == if Changed(After(cs), c.query) then |cs| + 1 else LastReport(cs)
    ensures ReportedTempo(cs + [c]) ==
      if Changed(After(cs), c.query) && c.query.hasBbt then Narrow(c.query.tempo) else ReportedTempo(cs)
  {
    hide Changed, Narrow, After;
    assert (cs + [c])[..|cs|] == cs;
  }

  /** Between reports the expectation is the extrapolation of the last report. */
  lemma {:induction false} DeadReckoning(cs: seq<Cycle>)
    ensures Extrapolated(cs) == (After(cs).position, After(cs).rolling)
    ensures ReportedTempo(cs) == After(cs).bpm == Narrow(After(cs).bpm)
  {
    hide Narrow, Frames;
    if cs == [] {
      InitialTempo();
    } else {
      var before, c := cs[..|cs| - 1], cs[|cs| - 1];
      assert cs == before + [c];
      DeadReckoning(before);
      ReckonNext(before, c);
    }
  }

  lemma ReckonNext(cs: seq<Cycle>, c: Cycle)
    requires Extrapolated(cs) == (After(cs).position, After(cs).rolling)
    requires ReportedTempo(cs) == After(cs).bpm == Narrow(After(cs).bpm)
    ensures Extrapolated(cs + [c]) == (After(cs + [c]).position, After(cs + [c]).rolling)
    ensures ReportedTempo(cs + [c]) == After(cs + [c]).bpm == Narrow(After(cs + [c]).bpm)
  {
    hide Narrow, Frames, After, LastReport, ReportedTempo, Wrap32, Extrapolated;
    AfterNext(cs, c);
    LastReportNext(cs, c);
    NarrowTwice(c.query.tempo);
    if Changed(After(cs), c.query) {
      ExtrapolatedReport(cs + [c]);
    } else if LastReport(cs) > 0 {
      ExtrapolatedNext(cs, c);
      ExtrapolatedSpeed(cs);
    } else {
      ExtrapolatedNone(cs);
      ExtrapolatedNone(cs + [c]);
    }
  }

  lemma ExtrapolatedSpeed(cs: seq<Cycle>)
    requires LastReport(cs) > 0
    ensures var q := cs[LastReport(cs) - 1].query;
      Extrapolated(cs).1 == q.rolling && (!q.rolling ==> Extrapolated(cs).0 == q.frame)
  {
    hide LastReport, Frames;
  }

  lemma ExtrapolatedNone(cs: seq<Cycle>)
    requires LastReport(cs) == 0
    ensures Extrapolated(cs) == (0, false)
  {
    hide LastReport;
  }

  /**
   A cycle is silent exactly if the belief of the plugin is right: whatever JACK does, a plugin that is
   told only of changes, and counts frames while rolling, knows position, speed and tempo in every
   active cycle.
   */
  lemma SilentMeansPredicted(cs: seq<Cycle>, q: Query)
    ensures !Changed(After(cs), q) <==> Predicted(cs, q)
  {
    DeadReckoning(cs);
  }

  /**
   A tempo that JACK repeats, in a cycle whose position and speed are as expected, is taken for a
   change exactly if it is not a float: it is compared as a double with what was stored as a float.
   */
  lemma RepeatedTempoSilentExactlyIf(cs: seq<Cycle>, c: Cycle, q: Query)
    requires c.query.hasBbt && q.hasBbt && q.tempo == c.query.tempo
    requires Extrapolated(cs + [c]) == (q.frame, q.rolling)
    ensures !Changed(After(cs + [c]), q) <==> Equal(q.tempo, Narrow(q.tempo))
  {
    hide Narrow;
    DeadReckoning(cs + [c]);
    assert (cs + [c])[..|cs|] == cs;
  }

  /** 120.1 as a double. */
  const UNEVEN := Number(false, 0x1e_0666_6666_6666, -46)

  /** A transport that stands still at such a tempo is reported as changed in every cycle. */
  lemma {:induction false} UnevenTempoNeverSilent(cs: seq<Cycle>, k: nat)
    requires k < |cs| && forall c | c in cs :: c.query == Query(false, 0, true, UNEVEN)
    ensures Normal(UNEVEN) && Narrow(UNEVEN) != UNEVEN
    ensures Reported(cs, k)
  {
    assert UNEVEN.significand / ULP == 0xf0_3333 && UNEVEN.significand % ULP == 0x666_6666;
    assert After(cs[..k]).bpm != UNEVEN by {
      if k > 0 {
        assert cs[..k][..k - 1] == cs[..k - 1] && cs[k - 1] in cs;
      }
    }
    assert cs[k] in cs;
  }

  // ------------------------------------------------------------ in place

  class Transport {
    var position: U32
    var bpm: Tempo
    var rolling: bool
    /** The active cycles so far. */
    ghost var cycles: seq<Cycle>

    ghost predicate Valid()
      reads this
    {
      Expectation(position, bpm, rolling) == After(cycles)
    }

    constructor ()
      ensures Valid() && cycles == []
      ensures position == 0 && bpm == INITIAL.bpm && !rolling
    {
      position, bpm, rolling := 0, INITIAL.bpm, false;
      cycles := [];
    }

    /**
     The transport part of a cycle: a position is reported to the plugin if `changed`, which is exactly
     if what the plugin believes from the earlier reports is not what JACK answers.
     */
    method Process(q: Query, nframes: U32) returns (changed: bool)
      requires Valid()
      modifies this
      ensures Valid() && cycles == old(cycles) + [Cycle(q, nframes)]
      ensures !changed <==> Predicted(old(cycles), q)
      ensures (position, rolling) == Extrapolated(cycles) && bpm == ReportedTempo(cycles)
    {
      hide Narrow, Extrapolated, ReportedTempo, Predicted, After, Equal;
      SilentMeansPredicted(cycles, q);
      AfterNext(cycles, Cycle(q, nframes));
      changed := q.rolling != rolling || q.frame != position || (q.hasBbt && !Equal(q.tempo, bpm));
      position := if q.rolling then Wrap32(q.frame + nframes) else q.frame;
      bpm := if q.hasBbt then Narrow(q.tempo) else bpm;
      rolling := q.rolling;
      cycles := cycles + [Cycle(q, nframes)];
      DeadReckoning(cycles);
    }
  }
}

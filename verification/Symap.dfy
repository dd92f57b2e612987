/** The string interner behind URIDs: symbols in the order of their IDs, and a sorted index of the IDs. */
module Symaps {
  // ------------------------------------------------------------ strcmp

  /** Negative, zero or positive, as the first string sorts before, with or after the second. */
  function Strcmp(a: string, b: string): int {
    if a == [] then (if b == [] then 0 else -1)
    else if b == [] then 1
    else if a[0] != b[0] then a[0] as int - b[0] as int
    else Strcmp(a[1..], b[1..])
  }

  lemma {:induction false} StrcmpEqual(a: string, b: string)
    ensures Strcmp(a, b) == 0 <==> a == b
  {
    if a != [] && b != [] && a[0] == b[0] {
      StrcmpEqual(a[1..], b[1..]);
      assert a == [a[0]] + a[1..] && b == [b[0]] + b[1..];
    }
  }

  /** The strings agree up to `k`, where the first ends or has the smaller character. */
  predicate LessAt(a: string, b: string, k: nat) {
    k <= |a| && k < |b| && a[..k] == b[..k] && (k == |a| || a[k] < b[k])
  }

  lemma LessFront(a: string, b: string, k: nat)
    requires k > 0 && LessAt(a, b, k)
    ensures a != [] && b != [] && a[0] == b[0]
  {
    assert a[..k][0] == b[..k][0];
  }

  /** The order is that of dictionaries. */
  lemma {:induction false} StrcmpLess(a: string, b: string)
    ensures Strcmp(a, b) < 0 <==> exists k: nat :: LessAt(a, b, k)
  {
    forall k: nat | k > 0 && LessAt(a, b, k) ensures a != [] && b != [] && a[0] == b[0] {
      LessFront(a, b, k);
    }
    if a != [] && b != [] && a[0] == b[0] {
      StrcmpLess(a[1..], b[1..]);
      assert a == [a[0]] + a[1..] && b == [b[0]] + b[1..];
      forall k: nat ensures LessAt(a[1..], b[1..], k) ==> LessAt(a, b, k + 1) {
        if LessAt(a[1..], b[1..], k) {
          assert a[..k + 1] == [a[0]] + a[1..][..k] && b[..k + 1] == [b[0]] + b[1..][..k];
        }
      }
      forall k: nat ensures LessAt(a, b, k) ==> k > 0 && LessAt(a[1..], b[1..], k - 1) {
        if LessAt(a, b, k) {
          assert k > 0 ==> a[1..][..k - 1] == a[..k][1..] && b[1..][..k - 1] == b[..k][1..];
        }
      }
    } else {
      assert LessAt(a, b, 0) <==> b != [] && (a == [] || a[0] < b[0]);
    }
  }

  lemma {:induction false} StrcmpOpposite(a: string, b: string)
    ensures Strcmp(a, b) == -Strcmp(b, a)
  {
    if a != [] && b != [] && a[0] == b[0] {
      StrcmpOpposite(a[1..], b[1..]);
    }
  }

  lemma {:induction false} StrcmpTransitive(a: string, b: string, c: string)
    requires Strcmp(a, b) < 0 && Strcmp(b, c) < 0
    ensures Strcmp(a, c) < 0
  {
    if a != [] && b != [] && c != [] && a[0] == b[0] && b[0] == c[0] {
      StrcmpTransitive(a[1..], b[1..], c[1..]);
    }
  }

  // ------------------------------------------------------------ the index

  predicate HasAll(ix: seq<nat>, n: nat) {
    forall id | 1 <= id <= n :: id in ix
  }

  predicate Ids(ix: seq<nat>, n: nat) {
    |ix| == n && forall i | 0 <= i < |ix| :: 1 <= ix[i] <= n
  }

  /** `ix` lists the IDs of `syms`, all of them, in the strict order of the symbols that they name. */
  ghost predicate IndexOf(syms: seq<string>, ix: seq<nat>) {
    && Ids(ix, |syms|)
    && HasAll(ix, |syms|)
    && (forall i, j | 0 <= i < j < |ix| :: Strcmp(syms[ix[i] - 1], syms[ix[j] - 1]) < 0)
  }

  /** Everything before `lower` sorts before `sym`, and everything from `above` after it. */
  predicate Bracket(syms: seq<string>, ix: seq<nat>, sym: string, lower: nat, above: nat)
    requires Ids(ix, |syms|)
  {
    && lower <= above <= |ix|
    && (forall i | 0 <= i < lower :: Strcmp(syms[ix[i] - 1], sym) < 0)
    && (forall i | above <= i < |ix| :: Strcmp(syms[ix[i] - 1], sym) > 0)
  }

  predicate InsertionPoint(syms: seq<string>, ix: seq<nat>, sym: string, pos: nat)
    requires Ids(ix, |syms|)
  {
    Bracket(syms, ix, sym, pos, pos)
  }

  lemma AbsentAtInsertionPoint(syms: seq<string>, ix: seq<nat>, sym: string, pos: nat)
    requires IndexOf(syms, ix) && InsertionPoint(syms, ix, sym, pos)
    ensures sym !in syms
  {
    hide Strcmp;
    StrcmpEqual(sym, sym);
    forall k | 0 <= k < |syms| ensures syms[k] != sym {
      assert k + 1 in ix;
    }
  }

  /** There is one place at most to insert a symbol. */
  lemma InsertionPointUnique(syms: seq<string>, ix: seq<nat>, sym: string, p: nat, q: nat)
    requires Ids(ix, |syms|) && InsertionPoint(syms, ix, sym, p) && InsertionPoint(syms, ix, sym, q)
    ensures p == q
  {
    var first := if p <= q then p else q;
    if first < |ix| {
      var order := Strcmp(syms[ix[first] - 1], sym);
    }
  }

  function Inserted(ix: seq<nat>, pos: nat, id: nat): (r: seq<nat>)
    requires pos <= |ix|
    ensures |r| == |ix| + 1
    ensures forall i | 0 <= i < |r| :: r[i] == if i < pos then ix[i] else if i == pos then id else ix[i - 1]
  {
    ix[..pos] + [id] + ix[pos..]
  }

  lemma InsertKeepsAll(ix: seq<nat>, n: nat, pos: nat)
    requires |ix| == n && pos <= n && HasAll(ix, n)
    ensures HasAll(Inserted(ix, pos, n + 1), n + 1)
  {
    var xs := Inserted(ix, pos, n + 1);
    forall id | 1 <= id <= n + 1 ensures id in xs {
      if id == n + 1 {
        assert xs[pos] == id;
      } else {
        assert id in ix;
        var i :| 0 <= i < n && ix[i] == id;
        assert xs[if i < pos then i else i + 1] == id;
      }
    }
  }

  lemma InsertKeepsOrder(syms: seq<string>, ix: seq<nat>, sym: string, pos: nat, i: nat, j: nat)
    requires IndexOf(syms, ix) && InsertionPoint(syms, ix, sym, pos) && i < j <= |ix|
    ensures var ss, xs := syms + [sym], Inserted(ix, pos, |syms| + 1);
      1 <= xs[i] <= |ss| && 1 <= xs[j] <= |ss| && Strcmp(ss[xs[i] - 1], ss[xs[j] - 1]) < 0
  {
    hide Strcmp;
    if j == pos {
      assert Strcmp(syms[ix[i] - 1], sym) < 0;
    } else if i == pos {
      assert Strcmp(syms[ix[j - 1] - 1], sym) > 0;
      StrcmpOpposite(sym, syms[ix[j - 1] - 1]);
    } else {
      var a, b := if i < pos then i else i - 1, if j < pos then j else j - 1;
      assert Strcmp(syms[ix[a] - 1], syms[ix[b] - 1]) < 0;
    }
  }

  /** Inserting a new ID at its place, and a new symbol at the end, leaves an index of all of them. */
  lemma InsertKeepsIndex(syms: seq<string>, ix: seq<nat>, sym: string, pos: nat)
    requires IndexOf(syms, ix) && InsertionPoint(syms, ix, sym, pos)
    ensures IndexOf(syms + [sym], Inserted(ix, pos, |syms| + 1))
  {
    hide Strcmp, HasAll;
    var ss, xs := syms + [sym], Inserted(ix, pos, |syms| + 1);
    InsertKeepsAll(ix, |syms|, pos);
    forall i | 0 <= i < |xs| ensures 1 <= xs[i] <= |ss| {
      assert xs[i] == if i < pos then ix[i] else if i == pos then |syms| + 1 else ix[i - 1];
    }
    forall i, j | 0 <= i < j < |xs| ensures Strcmp(ss[xs[i] - 1], ss[xs[j] - 1]) < 0 {
      InsertKeepsOrder(syms, ix, sym, pos, i, j);
    }
  }

  // ------------------------------------------------------------ the list

  /** The ID of a symbol: its place in the list, from 1, or 0. */
  function IdOf(syms: seq<string>, sym: string): (id: nat)
    ensures id <= |syms|
    ensures id > 0 ==> syms[id - 1] == sym
    ensures id == 0 <==> sym !in syms
  {
    if syms == [] then 0
    else if IdOf(syms[..|syms| - 1], sym) > 0 then IdOf(syms[..|syms| - 1], sym)
    else if syms[|syms| - 1] == sym then |syms| else 0
  }

  ghost predicate Distinct(syms: seq<string>) {
    forall i, j | 0 <= i < j < |syms| :: syms[i] != syms[j]
  }

  /** A list with an index has no symbol twice. */
  lemma IndexedDistinct(syms: seq<string>, ix: seq<nat>)
    requires IndexOf(syms, ix)
    ensures Distinct(syms)
  {
    forall i, j | 0 <= i < j < |syms| ensures syms[i] != syms[j] {
      assert i + 1 in ix && j + 1 in ix;
      var a :| 0 <= a < |ix| && ix[a] == i + 1;
      var b :| 0 <= b < |ix| && ix[b] == j + 1;
      StrcmpEqual(syms[i], syms[j]);
      StrcmpEqual(syms[j], syms[i]);
      assert a < b ==> Strcmp(syms[ix[a] - 1], syms[ix[b] - 1]) < 0;
      assert b < a ==> Strcmp(syms[ix[b] - 1], syms[ix[a] - 1]) < 0;
    }
  }

  /** Mapping a symbol, with or without memory for a new one: the list afterwards, and the ID. */
  function Intern(syms: seq<string>, sym: string, hasMemory: bool): (seq<string>, nat) {
    if sym in syms then (syms, IdOf(syms, sym))
    else if hasMemory then (syms + [sym], |syms| + 1)
    else (syms, 0)
  }

  // ------------------------------------------------------------ in place

  class Symap {
    var symbols: array<string>
    var index: array<nat>
    var size: nat

    constructor ()
      ensures Valid() && Symbols() == []
      ensures fresh(symbols) && fresh(index)
    {
      symbols, index, size := new string[0], new nat[0], 0;
    }

    function Symbols(): seq<string>
      requires size <= symbols.Length
      reads this, symbols
    {
      symbols[..size]
    }

    ghost predicate Valid()
      reads this, symbols, index
    {
      && size <= symbols.Length && size <= index.Length && symbols as object != index
      && IndexOf(symbols[..size], index[..size])
    }

    /** The place of a symbol in the index, or the place where it would be inserted. */
    method Search(sym: string) returns (pos: nat, exact: bool)
      requires Valid()
      ensures exact <==> sym in Symbols()
      ensures exact ==> pos < size && 1 <= index[pos] <= size && symbols[index[pos] - 1] == sym
      ensures !exact ==> InsertionPoint(symbols[..size], index[..size], sym, pos)
    {
      if size == 0 {
        return 0, false;
      }
      ghost var syms, ix := symbols[..size], index[..size];
      assert Ids(ix, |syms|) && Bracket(syms, ix, sym, 0, size);
      hide Strcmp, Bracket, IndexOf;
      if Strcmp(symbols[index[size - 1] - 1], sym) < 0 {
        RaiseLower(syms, ix, sym, size - 1, 0, size);
        AbsentAtInsertionPoint(syms, ix, sym, size);
        return size, false;
      }
      var lower: nat, upper: nat, i: nat := 0, size - 1, size - 1;
      while upper >= lower
        invariant lower <= upper + 1 <= size && i <= size
        invariant Bracket(syms, ix, sym, lower, upper + 1)
        invariant upper < lower ==> i == lower
        decreases upper + 1 - lower
      {
        i := lower + (upper - lower) / 2;
        assert ix[i] == index[i] && syms[ix[i] - 1] == symbols[index[i] - 1];
        var cmp := Strcmp(symbols[index[i] - 1], sym);
        StrcmpEqual(symbols[index[i] - 1], sym);
        if cmp == 0 {
          return i, true;
        }
        if cmp > 0 {
          LowerUpper(syms, ix, sym, i, lower, upper + 1);
          if i == 0 {
            break;
          }
          upper := i - 1;
        } else {
          RaiseLower(syms, ix, sym, i, lower, upper + 1);
          i := i + 1;
          lower := i;
        }
      }
      AbsentAtInsertionPoint(syms, ix, sym, i);
      return i, false;
    }

    /** The ID of a symbol that is mapped already, or 0. */
    method TryMap(sym: string) returns (id: nat)
      requires Valid()
      ensures id == IdOf(Symbols(), sym)
    {
      var pos, exact := Search(sym);
      if exact {
        IndexedDistinct(symbols[..size], index[..size]);
        return index[pos];
      }
      return 0;
    }

    method Unmap(id: nat) returns (found: bool, sym: string)
      requires Valid()
      ensures found <==> 1 <= id <= |Symbols()|
      ensures found ==> sym == Symbols()[id - 1]
    {
      if id == 0 {
        return false, "";
      }
      if id <= size {
        return true, symbols[id - 1];
      }
      return false, "";
    }

    static method Realloc<T(0)>(a: array<T>, n: nat) returns (b: array<T>)
      requires n >= a.Length
      ensures fresh(b) && b.Length == n && b[..a.Length] == a[..]
    {
      b := new T[n];
      forall i | 0 <= i < a.Length {
        b[i] := a[i];
      }
    }

    /**
     The ID of a symbol, which is mapped to a new one if it has none yet.  `symbolsGrow` and `indexGrow` say
     whether there is memory to grow the arrays.
     */
    method Map(sym: string, symbolsGrow: bool, indexGrow: bool) returns (id: nat)
      requires Valid()
      modifies this, symbols, index
      ensures Valid()
      ensures (Symbols(), id) == Intern(old(Symbols()), sym, symbolsGrow && indexGrow)
      ensures symbols == old(symbols) || fresh(symbols)
      ensures index == old(index) || fresh(index)
    {
      hide InsertionPoint, Strcmp;
      var pos, exact := Search(sym);
      if exact {
        IndexedDistinct(symbols[..size], index[..size]);
        return index[pos];
      }
      hide IndexOf;
      id := Add(sym, pos, symbolsGrow, indexGrow);
    }

    /** Add a new symbol, for which there is a place in the index. */
    method Add(sym: string, pos: nat, symbolsGrow: bool, indexGrow: bool) returns (id: nat)
      requires Valid() && InsertionPoint(symbols[..size], index[..size], sym, pos)
      modifies this, symbols, index
      ensures Valid()
      ensures Symbols() == if symbolsGrow && indexGrow then old(Symbols()) + [sym] else old(Symbols())
      ensures id == if symbolsGrow && indexGrow then |old(Symbols())| + 1 else 0
      ensures symbols == old(symbols) || fresh(symbols)
      ensures index == old(index) || fresh(index)
    {
      hide IndexOf, InsertionPoint, Strcmp;
      id := size + 1;
      if !symbolsGrow {
        return 0;
      }
      if symbols.Length < id {
        symbols := Realloc(symbols, id);
        assert symbols[..size] == old(symbols[..size]);
      }
      if !indexGrow {
        return 0;
      }
      if index.Length < id {
        index := Realloc(index, id);
        assert index[..size] == old(index[..size]);
      }
      Store(sym, pos);
    }

    /** Store a new symbol in arrays that have grown. */
    method Store(sym: string, pos: nat)
      requires Valid() && InsertionPoint(symbols[..size], index[..size], sym, pos)
      requires size < symbols.Length && size < index.Length
      modifies this`size, symbols, index
      ensures Valid() && Symbols() == old(Symbols()) + [sym] && size == old(size) + 1
    {
      hide IndexOf, InsertionPoint, Strcmp, Inserted;
      ghost var syms, ix := symbols[..size], index[..size];
      InsertionInRange(syms, ix, sym, pos);
      InsertKeepsIndex(syms, ix, sym, pos);
      size := size + 1;
      StoreSymbol(sym);
      assert index[..size - 1] == ix;
      InsertAt(pos, size);
      assert symbols[..size] == syms + [sym];
    }

    method StoreSymbol(sym: string)
      requires 0 < size <= symbols.Length
      modifies symbols
      ensures symbols[..size] == old(symbols[..size - 1]) + [sym]
    {
      symbols[size - 1] := sym;
    }

    /** Make room at `pos` by moving what follows, and store `id` there. */
    method InsertAt(pos: nat, id: nat)
      requires pos < size <= index.Length
      modifies index
      ensures index[..size] == Inserted(old(index[..size - 1]), pos, id)
    {
      if pos < size - 1 {
        forall k | pos <= k < size - 1 {
          index[k + 1] := index[k];
        }
      }
      index[pos] := id;
    }
  }

  lemma InsertionInRange(syms: seq<string>, ix: seq<nat>, sym: string, pos: nat)
    requires IndexOf(syms, ix) && InsertionPoint(syms, ix, sym, pos)
    ensures pos <= |ix|
  {
  }

  lemma RaiseLower(syms: seq<string>, ix: seq<nat>, sym: string, i: nat, lower: nat, above: nat)
    requires IndexOf(syms, ix) && i < above && Bracket(syms, ix, sym, lower, above)
    requires Strcmp(syms[ix[i] - 1], sym) < 0
    ensures Bracket(syms, ix, sym, i + 1, above)
  {
    hide Strcmp;
    forall k | 0 <= k < i ensures Strcmp(syms[ix[k] - 1], sym) < 0 {
      StrcmpTransitive(syms[ix[k] - 1], syms[ix[i] - 1], sym);
    }
  }

  lemma LowerUpper(syms: seq<string>, ix: seq<nat>, sym: string, i: nat, lower: nat, above: nat)
    requires IndexOf(syms, ix) && lower <= i < |ix| && Bracket(syms, ix, sym, lower, above)
    requires Strcmp(syms[ix[i] - 1], sym) > 0
    ensures Bracket(syms, ix, sym, lower, i)
  {
    hide Strcmp;
    StrcmpOpposite(syms[ix[i] - 1], sym);
    forall k | i < k < |ix| ensures Strcmp(syms[ix[k] - 1], sym) > 0 {
      StrcmpTransitive(sym, syms[ix[i] - 1], syms[ix[k] - 1]);
      StrcmpOpposite(sym, syms[ix[k] - 1]);
    }
  }

  // ------------------------------------------------------------ series of calls

  datatype Call = Call(sym: string, hasMemory: bool)

  /** The list after the calls. */
  function After(calls: seq<Call>): seq<string> {
    if calls == [] then []
    else Intern(After(calls[..|calls| - 1]), calls[|calls| - 1].sym, calls[|calls| - 1].hasMemory).0
  }

  /** What the call with number `k` returns. */
  function Answer(calls: seq<Call>, k: nat): nat
    requires k < |calls|
  {
    Intern(After(calls[..k]), calls[k].sym, calls[k].hasMemory).1
  }

  lemma {:induction false} IdOfPosition(syms: seq<string>, i: nat)
    requires Distinct(syms) && i < |syms|
    ensures IdOf(syms, syms[i]) == i + 1
  {
    var id := IdOf(syms, syms[i]);
    assert syms[id - 1] == syms[i];
  }

  lemma {:induction false} AfterDistinct(calls: seq<Call>)
    ensures Distinct(After(calls))
  {
    if calls != [] {
      AfterDistinct(calls[..|calls| - 1]);
    }
  }

  /** The list only grows, at its end. */
  lemma {:induction false} AfterGrows(calls: seq<Call>, k: nat)
    requires k <= |calls|
    ensures After(calls[..k]) <= After(calls)
    decreases |calls| - k
  {
    if k == |calls| {
      assert calls[..k] == calls;
    } else {
      AfterGrows(calls, k + 1);
      assert calls[..k + 1][..k] == calls[..k];
    }
  }

  /**
   What a call returns is the place of its symbol in the list after it, from 1, or 0 if it is not there:
   when the symbol is new and there was no memory.
   */
  lemma AnswerIsId(calls: seq<Call>, k: nat)
    requires k < |calls|
    ensures Answer(calls, k) == IdOf(After(calls[..k + 1]), calls[k].sym)
  {
    var syms, c := After(calls[..k]), calls[k];
    assert calls[..k + 1][..k] == calls[..k];
    AfterDistinct(calls[..k + 1]);
    if c.sym !in syms && c.hasMemory {
      assert (syms + [c.sym])[|syms|] == c.sym;
      IdOfPosition(syms + [c.sym], |syms|);
    }
  }

  /** A call succeeds exactly if there was memory for its symbol then or in an earlier call. */
  lemma AnswersExactlyIf(calls: seq<Call>, k: nat)
    requires k < |calls|
    ensures Answer(calls, k) > 0 <==> exists j | 0 <= j <= k :: calls[j] == Call(calls[k].sym, true)
  {
    hide After, Answer, First;
    var upTo := calls[..k + 1];
    AnswerIsId(calls, k);
    FirstSeenOrder(upTo);
    var sym := calls[k].sym;
    assert sym in After(upTo) <==> First(upTo, sym) < |upTo|;
    if First(upTo, sym) < |upTo| {
      assert upTo[First(upTo, sym)] == Call(sym, true);
    } else {
      forall j | 0 <= j <= k ensures calls[j] != Call(sym, true) {
        assert upTo[j] == calls[j];
      }
    }
  }

  /** A symbol keeps the ID of its first call that succeeded, and new IDs follow each other from 1. */
  lemma NewIdsFollow(calls: seq<Call>, k: nat)
    requires k < |calls|
    ensures calls[k].sym !in After(calls[..k]) && calls[k].hasMemory ==> Answer(calls, k) == |After(calls[..k])| + 1
    ensures calls[k].sym in After(calls[..k]) ==> Answer(calls, k) == IdOf(After(calls[..k]), calls[k].sym) > 0
  {
  }

  lemma AnswerNamesSymbol(calls: seq<Call>, k: nat)
    requires k < |calls| && Answer(calls, k) > 0
    ensures var id, syms := Answer(calls, k), After(calls[..k + 1]);
      id <= |syms| && syms[id - 1] == calls[k].sym
  {
    assert calls[..k + 1][..k] == calls[..k];
  }

  /** An ID, once it has been returned for a symbol, is and stays the place of the symbol in the list. */
  lemma IdsAreStable(calls: seq<Call>, k: nat)
    requires k < |calls| && Answer(calls, k) > 0
    ensures var id, syms := Answer(calls, k), After(calls);
      id <= |syms| && syms[id - 1] == calls[k].sym && IdOf(syms, calls[k].sym) == id
  {
    hide After, Answer, IdOf;
    AnswerNamesSymbol(calls, k);
    AfterGrows(calls, k + 1);
    AfterDistinct(calls);
    IdOfPosition(After(calls), Answer(calls, k) - 1);
  }

  /** Two calls that succeed return the same ID exactly if their symbols are equal. */
  lemma SameIdExactlyIf(calls: seq<Call>, j: nat, k: nat)
    requires j < |calls| && k < |calls| && Answer(calls, j) > 0 && Answer(calls, k) > 0
    ensures Answer(calls, j) == Answer(calls, k) <==> calls[j].sym == calls[k].sym
  {
    IdsAreStable(calls, j);
    IdsAreStable(calls, k);
  }

  /** The first call that had memory for the symbol, or the number of calls. */
  function First(calls: seq<Call>, sym: string): (k: nat)
    ensures k <= |calls|
    ensures k < |calls| ==> calls[k].sym == sym && calls[k].hasMemory
    ensures forall i | 0 <= i < k :: calls[i].sym == sym ==> !calls[i].hasMemory
  {
    if calls == [] then 0
    else if First(calls[..|calls| - 1], sym) < |calls| - 1 then First(calls[..|calls| - 1], sym)
    else if calls[|calls| - 1] == Call(sym, true) then |calls| - 1 else |calls|
  }

  /** The list holds the symbols for which there was memory once, in the order in which that first was so. */
  lemma {:induction false} FirstSeenOrder(calls: seq<Call>)
    ensures forall sym :: sym in After(calls) <==> First(calls, sym) < |calls|
    ensures forall i, j | 0 <= i < j < |After(calls)| ::
      First(calls, After(calls)[i]) < First(calls, After(calls)[j])
  {
    if calls != [] {
      var before, last := calls[..|calls| - 1], calls[|calls| - 1];
      FirstSeenOrder(before);
      forall sym ensures sym in After(calls) <==> First(calls, sym) < |calls| {
        assert sym in After(before) <==> First(before, sym) < |before|;
      }
      var syms := After(calls);
      forall i, j | 0 <= i < j < |syms|
        ensures First(calls, syms[i]) < First(calls, syms[j])
      {
        assert i < |After(before)| && syms[i] == After(before)[i];
        assert syms[i] in After(before);
        if j < |After(before)| {
          assert syms[j] == After(before)[j] && syms[j] in After(before);
        }
      }
    }
  }
}

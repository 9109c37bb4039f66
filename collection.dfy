/** The Collection widget of collection.js: a row-major slot list of `rows*columns`
    slots, an overflow buffer shared by every collection, and the `add`, `outOfBounds`
    and `overflow` events.  Every stored item is truthy, so `_.compact` drops exactly
    the empty (undefined) slots. */
module Grid {
  import opened Wrappers

  // ---------------------------------------------------------------- getPosition

  /** A 1-based cell, or the non-finite result of dividing by zero columns. */
  datatype Position = RowCol(row: int, column: int) | NotFinite

  /** `getPosition(i)`: row `floor(i/columns)+1`, column `i-(row-1)*columns+1`.  With a
      positive divisor Dafny's `/` is the floor division of the source. */
  function PositionOf(index: int, columns: nat): Position {
    if columns == 0 then NotFinite
    else
      var row := index / columns + 1;
      RowCol(row, index - (row - 1) * columns + 1)
  }

  /** `getPosition({row, column})`. */
  function IndexOf(row: int, column: int, columns: nat): int {
    (row - 1) * columns + column - 1
  }

  /** The numeric direction always yields a column in [1, columns], and the object
      direction takes it back to the index it came from. */
  lemma PositionRoundTrip(index: int, columns: nat)
    requires columns > 0
    ensures PositionOf(index, columns).RowCol?
    ensures 1 <= PositionOf(index, columns).column <= columns
    ensures IndexOf(PositionOf(index, columns).row, PositionOf(index, columns).column, columns) == index
    ensures index >= 0 ==> PositionOf(index, columns).row >= 1
  {
    var q := index / columns;
    assert index == q * columns + index % columns;
    assert (q + 1 - 1) * columns == q * columns;
  }

  /** Conversely every cell whose column is in [1, columns] is the position of its
      index, so the two directions are inverse bijections between indexes and cells. */
  lemma IndexRoundTrip(row: int, column: int, columns: nat)
    requires 1 <= column <= columns
    ensures PositionOf(IndexOf(row, column, columns), columns) == RowCol(row, column)
  {
    var i := IndexOf(row, column, columns);
    assert i == (row - 1) * columns + (column - 1);
    LemmaDivUnique(i, columns, row - 1, column - 1);
  }

  lemma LemmaDivUnique(i: int, d: nat, q: int, r: int)
    requires d > 0 && 0 <= r < d && i == q * d + r
    ensures i / d == q
  {
    var q', r' := i / d, i % d;
    assert (q - q') * d == r' - r;
    MulBounds(q - q', d);
  }

  lemma MulBounds(x: int, d: int)
    requires d >= 0
    ensures x >= 1 ==> x * d >= d
    ensures x <= -1 ==> x * d <= -d
  {
    if x >= 1 {
      MulAtLeast(x, d);
    } else if x <= -1 {
      MulAtLeast(-x, d);
      assert x * d == -((-x) * d);
    }
  }

  lemma {:induction false} MulAtLeast(a: int, d: nat)
    requires a >= 1
    ensures a * d >= d
    decreases a
  {
    if a > 1 {
      MulAtLeast(a - 1, d);
      assert a * d == (a - 1) * d + d;
    }
  }

  /** The positions named in the unit tests: index 63 of a 14-column grid is row 5,
      column 8, and row 5, column 3 is index 58. */
  lemma PositionExamples()
    ensures PositionOf(63, 14) == RowCol(5, 8)
    ensures IndexOf(5, 3, 14) == 58
    ensures PositionOf(3, 4) == RowCol(1, 4)
  {
  }

  // ---------------------------------------------------------------- slots

  function Somes<T>(xs: seq<T>): (r: seq<Option<T>>)
    ensures |r| == |xs| && forall i :: 0 <= i < |xs| ==> r[i] == Some(xs[i])
  {
    if xs == [] then [] else Somes(xs[..|xs| - 1]) + [Some(xs[|xs| - 1])]
  }

  function Holes<T>(n: nat): (r: seq<Option<T>>)
    ensures |r| == n && forall i :: 0 <= i < n ==> r[i].None?
  {
    if n == 0 then [] else Holes(n - 1) + [None]
  }

  /** `_.compact`: the stored items in slot order. */
  function Compact<T>(list: seq<Option<T>>): seq<T> {
    if list == [] then []
    else (if list[0].Some? then [list[0].value] else []) + Compact(list[1..])
  }

  lemma {:induction false} CompactAppend<T>(a: seq<Option<T>>, b: seq<Option<T>>)
    ensures Compact(a + b) == Compact(a) + Compact(b)
  {
    if a != [] {
      CompactAppend(a[1..], b);
      assert (a + b)[0] == a[0] && (a + b)[1..] == a[1..] + b;
    } else {
      assert a + b == b;
    }
  }

  lemma {:induction false} CompactSomes<T>(xs: seq<T>)
    ensures Compact(Somes(xs)) == xs
  {
    if xs != [] {
      var init := xs[..|xs| - 1];
      CompactSomes(init);
      CompactAppend(Somes(init), [Some(xs[|xs| - 1])]);
      assert [Some(xs[|xs| - 1])][1..] == [];
      assert xs == init + [xs[|xs| - 1]];
    }
  }

  lemma {:induction false} CompactHoles<T>(n: nat)
    ensures Compact(Holes<T>(n)) == []
  {
    if n > 0 {
      CompactHoles<T>(n - 1);
      var one: seq<Option<T>> := [None];
      CompactAppend(Holes<T>(n - 1), one);
      assert one[1..] == [];
    }
  }

  /** `Array.prototype.splice`'s normalisation of its start argument. */
  function SpliceStart(start: int, len: nat): (s: nat)
    ensures s <= len
  {
    if start < 0 then (if len + start < 0 then 0 else len + start)
    else if start < len then start else len
  }

  /** The new slot list, and the batch handed to `addToOverflow` (if any). */
  datatype Resized<T> = Resized(slots: seq<Option<T>>, overflowed: Option<seq<T>>)

  /** `setDimensions` as written: the survivors are overflowed from index `lastIndex`
      as soon as there are more of them than `lastIndex`. */
  function ResizeAsWritten<T>(list: seq<Option<T>>, rows: nat, columns: nat): Resized<T> {
    var lastIndex := rows * columns - 1;
    var c := Compact(list);
    if |c| > lastIndex then
      var s := SpliceStart(lastIndex, |c|);
      Resized(Somes(c[..s]), Some(c[s..]))
    else Resized(Somes(c) + Holes(lastIndex + 1 - |c|), None)
  }

  /** `setDimensions` as intended: survivors overflow only when there are more of them
      than slots. */
  function Resize<T>(list: seq<Option<T>>, rows: nat, columns: nat): Resized<T> {
    Distribute(Compact(list), rows * columns)
  }

  /** The survivors `c` spread over `n` slots, the excess overflowed. */
  function Distribute<T>(c: seq<T>, n: nat): Resized<T> {
    if |c| > n then Resized(Somes(c[..n]), Some(c[n..]))
    else Resized(Somes(c) + Holes(n - |c|), None)
  }

  /** As written, survivors that fit are moved to the front in order and the list is
      padded to exactly `rows*columns` slots. */
  lemma ResizeAsWrittenFits<T>(list: seq<Option<T>>, rows: nat, columns: nat)
    requires |Compact(list)| < rows * columns
    ensures var r := ResizeAsWritten(list, rows, columns);
      && r.overflowed.None?
      && |r.slots| == rows * columns
      && Compact(r.slots) == Compact(list)
      && forall i :: 0 <= i < |r.slots| ==>
           r.slots[i] == if i < |Compact(list)| then Some(Compact(list)[i]) else None
  {
    var c := Compact(list);
    CompactAppend(Somes(c), Holes<T>(rows * columns - |c|));
    CompactSomes(c);
    CompactHoles<T>(rows * columns - |c|);
  }

  /** As written, a grid with at least as many survivors as slots keeps only the first
      `rows*columns-1` of them and overflows the rest, in order. */
  lemma ResizeAsWrittenFull<T>(list: seq<Option<T>>, rows: nat, columns: nat)
    requires 1 <= rows * columns <= |Compact(list)|
    ensures var r := ResizeAsWritten(list, rows, columns);
      var c := Compact(list);
      && |r.slots| == rows * columns - 1
      && r.slots == Somes(c[..rows * columns - 1])
      && r.overflowed == Some(c[rows * columns - 1..])
  {
  }

  /** As written, a grid of zero slots keeps every survivor but the last. */
  lemma ResizeAsWrittenNoSlots<T>(list: seq<Option<T>>, rows: nat, columns: nat)
    requires rows * columns == 0 && Compact(list) != []
    ensures var r := ResizeAsWritten(list, rows, columns);
      var c := Compact(list);
      r.slots == Somes(c[..|c| - 1]) && r.overflowed == Some([c[|c| - 1]])
  {
    var c := Compact(list);
    assert c[|c| - 1..] == [c[|c| - 1]];
  }

  /** The one-slot counterexample: a full 1x1 grid re-dimensioned to 1x1 loses its only
      item to the overflow buffer although it fits. */
  lemma ResizeAsWrittenLosesFullSlot<T>(x: T)
    ensures ResizeAsWritten([Some(x)], 1, 1) == Resized([], Some([x]))
    ensures Resize([Some(x)], 1, 1) == Resized([Some(x)], None)
  {
    assert [Some(x)][1..] == [];
    assert Compact([Some(x)]) == [x];
    assert Somes([x]) == [Some(x)];
  }

  /** The intended resize loses nothing and keeps the order: the slots hold the first
      `rows*columns` survivors, the overflow the rest, and together they are the
      survivors; the list has exactly `rows*columns` slots. */
  lemma ResizeKeepsEverything<T>(list: seq<Option<T>>, rows: nat, columns: nat)
    ensures var r := Resize(list, rows, columns);
      && |r.slots| == rows * columns
      && Compact(r.slots) + r.overflowed.GetOr([]) == Compact(list)
      && (r.overflowed.Some? <==> |Compact(list)| > rows * columns)
      && (forall i :: 0 <= i < |r.slots| ==>
            r.slots[i] == if i < |Compact(list)| then Some(Compact(list)[i]) else None)
  {
    DistributeKeeps(Compact(list), rows * columns);
  }

  lemma DistributeKeeps<T>(c: seq<T>, n: nat)
    ensures var r := Distribute(c, n);
      && |r.slots| == n
      && Compact(r.slots) + r.overflowed.GetOr([]) == c
      && (r.overflowed.Some? <==> |c| > n)
      && (forall i :: 0 <= i < |r.slots| ==> r.slots[i] == if i < |c| then Some(c[i]) else None)
  {
    if |c| > n {
      DistributeOver(c, n);
    } else {
      DistributeUnder(c, n);
    }
  }

  /** More survivors than slots: the first `n` fill the slots and the rest overflow. */
  lemma DistributeOver<T>(c: seq<T>, n: nat)
    requires |c| > n
    ensures Compact(Somes(c[..n])) + c[n..] == c
  {
    CompactSomes(c[..n]);
    assert c[..n] + c[n..] == c;
  }

  /** No more survivors than slots: they sit in front and holes pad the rest. */
  lemma DistributeUnder<T>(c: seq<T>, n: nat)
    requires |c| <= n
    ensures Compact(Somes(c) + Holes<T>(n - |c|)) == c
    ensures forall i :: 0 <= i < n ==> (Somes(c) + Holes<T>(n - |c|))[i] == if i < |c| then Some(c[i]) else None
  {
    CompactAppend(Somes(c), Holes<T>(n - |c|));
    CompactSomes(c);
    CompactHoles<T>(n - |c|);
  }

  // ---------------------------------------------------------------- overflow

  /** The argument of `addToOverflow`: an array of items or a single item. */
  datatype OverflowArg<T> = Batch(items: seq<T>) | Item(item: T)

  /** `addToOverflow` as written: the `concat` result is discarded, so a batch leaves
      the buffer as it was. */
  function OverflowAsWritten<T>(buffer: seq<T>, arg: OverflowArg<T>): seq<T> {
    match arg
    case Batch(_) => buffer
    case Item(x) => buffer + [x]
  }

  /** `addToOverflow` as intended: every item lands at the end of the buffer. */
  function OverflowInto<T>(buffer: seq<T>, arg: OverflowArg<T>): seq<T> {
    match arg
    case Batch(xs) => buffer + xs
    case Item(x) => buffer + [x]
  }

  lemma OverflowAsWrittenDropsBatch<T>(buffer: seq<T>, xs: seq<T>)
    requires xs != []
    ensures OverflowAsWritten(buffer, Batch(xs)) == buffer
    ensures OverflowInto(buffer, Batch(xs)) != OverflowAsWritten(buffer, Batch(xs))
  {
    assert |OverflowInto(buffer, Batch(xs))| > |buffer|;
  }

  /** The intended buffer only grows: the old contents stay in front and the new items
      follow in their order. */
  lemma OverflowIntoAppends<T>(buffer: seq<T>, arg: OverflowArg<T>)
    ensures var b := OverflowInto(buffer, arg);
      && b[..|buffer|] == buffer
      && (arg.Batch? ==> b[|buffer|..] == arg.items)
      && (arg.Item? ==> b[|buffer|..] == [arg.item])
  {
  }

  // ---------------------------------------------------------------- add and get

  /** The index argument: omitted, a number, or a `{row, column}` object. */
  datatype IndexArg = Unspecified | At(k: int) | Cell(row: int, column: int)

  /** The slots, the non-element properties that negative indexes create on the array,
      the dimensions and `lastIndex`. */
  datatype GridState<T> = GridState(list: seq<Option<T>>, strays: map<int, T>, rows: nat, columns: nat, lastIndex: int)

  datatype GridEvent<T> =
    | Added(item: T, index: int, lastIndex: int, replaced: Option<T>)
    | OutOfBounds(item: T, index: int, lastIndex: int)
    | Overflowed(items: OverflowArg<T>, buffer: seq<T>)

  /** The lowest empty slot, or the list length when there is none. */
  function LowestHole<T>(list: seq<Option<T>>): (i: nat)
    ensures i <= |list|
    ensures i < |list| ==> list[i].None?
    ensures forall j :: 0 <= j < i ==> list[j].Some?
  {
    if list == [] || list[0].None? then 0 else 1 + LowestHole(list[1..])
  }

  /** `list[k]` read from the array. */
  function Lookup<T>(g: GridState<T>, k: int): Option<T> {
    if k < 0 then (if k in g.strays then Some(g.strays[k]) else None)
    else if k < |g.list| then g.list[k]
    else None
  }

  /** `list[k] = item`: a write past the end grows the array with empty slots. */
  function Store<T>(g: GridState<T>, k: int, item: T): GridState<T> {
    if k < 0 then g.(strays := g.strays[k := item])
    else if k < |g.list| then g.(list := g.list[k := Some(item)])
    else g.(list := g.list + Holes(k - |g.list|) + [Some(item)])
  }

  lemma StoreEffect<T>(g: GridState<T>, k: int, item: T, j: int)
    ensures Lookup(Store(g, k, item), j) == if j == k then Some(item) else Lookup(g, j)
    ensures k >= 0 ==> |Store(g, k, item).list| == if k < |g.list| then |g.list| else k + 1
    ensures k < 0 ==> Store(g, k, item).list == g.list
  {
  }

  /** The index `add` writes to. */
  function Target<T>(g: GridState<T>, index: IndexArg): int {
    match index
    case Unspecified => LowestHole(g.list)
    case At(k) => k
    case Cell(r, c) => IndexOf(r, c, g.columns)
  }

  datatype AddResult<T> = AddResult(grid: GridState<T>, event: GridEvent<T>)

  function AddSpec<T>(g: GridState<T>, item: T, index: IndexArg): AddResult<T> {
    var k := Target(g, index);
    if k <= g.lastIndex then AddResult(Store(g, k, item), Added(item, k, g.lastIndex, Lookup(g, k)))
    else AddResult(g, OutOfBounds(item, k, g.lastIndex))
  }

  /** `get`: an omitted index reads `list[undefined]`, which is undefined. */
  function GetSpec<T>(g: GridState<T>, index: IndexArg): Option<T> {
    match index
    case Unspecified => None
    case At(k) => Lookup(g, k)
    case Cell(r, c) => Lookup(g, IndexOf(r, c, g.columns))
  }

  /** `add` at a resolved index no greater than `lastIndex` overwrites that slot only
      and reports the previous occupant; a larger index changes nothing and reports
      `outOfBounds` with the item, index and `lastIndex`. */
  lemma AddEffect<T>(g: GridState<T>, item: T, index: IndexArg, j: int)
    ensures var r := AddSpec(g, item, index);
      var k := Target(g, index);
      && (k <= g.lastIndex ==>
            && r.event == Added(item, k, g.lastIndex, Lookup(g, k))
            && Lookup(r.grid, j) == (if j == k then Some(item) else Lookup(g, j))
            && r.grid.rows == g.rows && r.grid.columns == g.columns && r.grid.lastIndex == g.lastIndex)
      && (k > g.lastIndex ==> r.grid == g && r.event == OutOfBounds(item, k, g.lastIndex))
  {
    StoreEffect(g, Target(g, index), item, j);
  }

  /** Without an index `add` targets the lowest empty slot; when every slot is full
      the target is the list length, out of bounds for a list of `lastIndex+1` slots. */
  lemma AddUnspecifiedTarget<T>(g: GridState<T>, item: T)
    ensures var k := Target(g, Unspecified);
      && 0 <= k <= |g.list|
      && (k < |g.list| ==> g.list[k].None?)
      && (forall j :: 0 <= j < k ==> g.list[j].Some?)
    ensures (forall j :: 0 <= j < |g.list| ==> g.list[j].Some?) && |g.list| == g.lastIndex + 1 ==>
      AddSpec(g, item, Unspecified) == AddResult(g, OutOfBounds(item, |g.list|, g.lastIndex))
  {
  }

  /** What `add` stores at an explicit index or cell, `get` returns from it. */
  lemma AddThenGet<T>(g: GridState<T>, item: T, index: IndexArg)
    requires !index.Unspecified? && Target(g, index) <= g.lastIndex
    ensures GetSpec(AddSpec(g, item, index).grid, index) == Some(item)
  {
    StoreEffect(g, Target(g, index), item, Target(g, index));
  }

  // ---------------------------------------------------------------- the widget

  /** `Collection.prototype.overflow`: one array shared by every collection. */
  class OverflowBuffer<T> {
    var items: seq<T>

    constructor()
      ensures items == []
    {
      items := [];
    }
  }

  class Collection<T> {
    var list: seq<Option<T>>
    var strays: map<int, T>
    var rows: nat
    var columns: nat
    var lastIndex: int
    const overflow: OverflowBuffer<T>

    function View(): GridState<T>
      reads this
    {
      GridState(list, strays, rows, columns, lastIndex)
    }

    /** `new Collection()` over the prototype's empty list: `setDimensions(1, 4)`. */
    constructor(shared: OverflowBuffer<T>)
      ensures overflow == shared
      ensures View() == GridState([None, None, None, None], map[], 1, 4, 3)
    {
      overflow := shared;
      list := Holes(4);
      strays := map[];
      rows, columns, lastIndex := 1, 4, 3;
      assert Holes<T>(4) == [None, None, None, None];
    }

    /** Re-dimensions the grid; the batch that no longer fits goes to the shared
        overflow buffer and is reported. */
    method SetDimensions(r: nat, c: nat) returns (event: Option<GridEvent<T>>)
      modifies this, overflow
      ensures var res := Resize(old(list), r, c);
        && View() == GridState(res.slots, map[], r, c, r * c - 1)
        && (res.overflowed.None? ==> event.None? && overflow.items == old(overflow.items))
        && (res.overflowed.Some? ==>
              && overflow.items == OverflowInto(old(overflow.items), Batch(res.overflowed.value))
              && event == Some(Overflowed(Batch(res.overflowed.value), overflow.items)))
    {
      var res := Resize(list, r, c);
      lastIndex := r * c - 1;
      rows, columns := r, c;
      event := None;
      if res.overflowed.Some? {
        var e := AddToOverflow(Batch(res.overflowed.value));
        event := Some(e);
      }
      list := res.slots;
      strays := map[];
    }

    method AddToOverflow(items: OverflowArg<T>) returns (event: GridEvent<T>)
      modifies overflow
      ensures overflow.items == OverflowInto(old(overflow.items), items)
      ensures event == Overflowed(items, overflow.items)
    {
      match items {
        case Batch(xs) => overflow.items := overflow.items + xs;
        case Item(x) => overflow.items := overflow.items + [x];
      }
      event := Overflowed(items, overflow.items);
    }

    /** The scan `for (i = 0; i <= length; ++i)` for the first undefined slot. */
    method FirstFree() returns (index: nat)
      ensures index == LowestHole(list)
    {
      index := 0;
      while index < |list| && list[index].Some?
        invariant index <= |list|
        invariant LowestHole(list) == index + LowestHole(list[index..])
      {
        assert list[index..][1..] == list[index + 1..];
        index := index + 1;
      }
      assert index < |list| ==> list[index..][0] == list[index];
    }

    method Add(item: T, index: IndexArg) returns (event: GridEvent<T>)
      modifies this
      ensures View() == AddSpec(old(View()), item, index).grid
      ensures event == AddSpec(old(View()), item, index).event
    {
      var k: int;
      match index {
        case Cell(r, c) => k := GetPosition(r, c);
        case At(i) => k := i;
        case Unspecified => k := FirstFree();
      }
      if k <= lastIndex {
        var oldItem := Get(At(k));
        if k < 0 {
          strays := strays[k := item];
        } else if k < |list| {
          list := list[k := Some(item)];
        } else {
          list := list + Holes(k - |list|) + [Some(item)];
        }
        event := Added(item, k, lastIndex, oldItem);
      } else {
        event := OutOfBounds(item, k, lastIndex);
      }
    }

    /** `get`: no index reads `list[undefined]`; a cell is read at its index. */
    function Get(index: IndexArg): (r: Option<T>)
      reads this
      ensures index.Unspecified? ==> r == None
      ensures index.At? && 0 <= index.k < |list| ==> r == list[index.k]
      ensures index.At? && index.k >= |list| ==> r == None
      ensures index.At? && index.k < 0 ==> r == (if index.k in strays then Some(strays[index.k]) else None)
      ensures index.Cell? ==> r == Lookup(View(), (index.row - 1) * columns + index.column - 1)
    {
      GetSpec(View(), index)
    }

    /** The `{row, column}` direction of `getPosition`: an in-range cell's index is
        one whose numeric position is that cell again. */
    function GetPosition(row: int, column: int): (i: int)
      reads this
      ensures i == (row - 1) * columns + column - 1
      ensures 1 <= column <= columns ==> PositionOf(i, columns) == RowCol(row, column)
    {
      if 1 <= column <= columns then
        IndexRoundTrip(row, column, columns);
        IndexOf(row, column, columns)
      else
        IndexOf(row, column, columns)
    }
  }

  /** The unit tests of the widget: a new collection has four slots, and a 2x5 one
      ten. */
  method DimensionsScenario<T>() returns (c: Collection<T>)
    ensures |c.list| == 10
  {
    var shared := new OverflowBuffer<T>();
    c := new Collection<T>(shared);
    ghost var l0 := c.list;
    var e1 := c.SetDimensions(1, 4);
    ResizeKeepsEverything(l0, 1, 4);
    assert |c.list| == 4;
    ghost var l1 := c.list;
    var e2 := c.SetDimensions(2, 5);
    ResizeKeepsEverything(l1, 2, 5);
  }

  /** Two items added without an index survive a resize to 1x3, in order. */
  method CollectionScenario<T>(a: T, b: T) returns (c: Collection<T>)
    ensures c.list == [Some(a), Some(b), None]
  {
    var shared := new OverflowBuffer<T>();
    c := new Collection<T>(shared);
    var e1 := c.Add(a, Unspecified);
    var e2 := c.Add(b, Unspecified);
    TwoAdds(a, b);
    var e3 := c.SetDimensions(1, 3);
    TwoItemsToThree(a, b);
  }

  lemma TwoAdds<T>(a: T, b: T)
    ensures var g := GridState([None, None, None, None], map[], 1, 4, 3);
      AddSpec(AddSpec(g, a, Unspecified).grid, b, Unspecified).grid
        == g.(list := [Some(a), Some(b), None, None])
  {
    var l0: seq<Option<T>> := [None, None, None, None];
    assert LowestHole(l0) == 0;
    var l1: seq<Option<T>> := [Some(a), None, None, None];
    assert l1[1..] == [None, None, None];
    assert LowestHole(l1) == 1;
  }

  lemma TwoItemsToThree<T>(a: T, b: T)
    ensures Resize([Some(a), Some(b), None, None], 1, 3).slots == [Some(a), Some(b), None]
  {
    var l: seq<Option<T>> := [Some(a), Some(b), None, None];
    assert Compact(l) == [a, b] by {
      assert l[1..] == [Some(b), None, None];
      assert l[1..][1..] == [None, None];
      var two: seq<Option<T>> := [None, None];
      assert Compact(two) == [] by {
        assert two[1..][1..] == [];
      }
    }
    assert Somes([a, b]) == [Some(a), Some(b)];
    assert Holes<T>(1) == [None];
  }
}

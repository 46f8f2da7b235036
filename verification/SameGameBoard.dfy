/** What a move of SameGame means: boards as columns of kinds, groups of connected cells,
    falling cells and closing columns. */
module SameGameBoard {
  import opened Prelude

  const EMPTY: char := '.'

  datatype Cell = Cell(row: int, col: int)

  /** A column from top to bottom, and a board as its columns from left to right. */
  type Column = seq<char>
  type Board = seq<Column>

  predicate Rectangular(b: Board, rows: nat) {
    forall c :: c in b ==> |c| == rows
  }

  predicate Inside(b: Board, rows: nat, q: Cell) {
    0 <= q.row < rows && 0 <= q.col < |b|
  }

  // ----- groups

  /** The cells of one kind. */
  function Kind(b: Board, rows: nat, kind: char): (r: set<Cell>)
    requires Rectangular(b, rows)
    ensures forall q :: q in r <==> Inside(b, rows, q) && b[q.col][q.row] == kind
  {
    set i: int, j: int | 0 <= j < |b| && 0 <= i < rows && b[j][i] == kind :: Cell(i, j)
  }

  predicate Adjacent(p: Cell, q: Cell) {
    || (p.row == q.row && (p.col == q.col + 1 || q.col == p.col + 1))
    || (p.col == q.col && (p.row == q.row + 1 || q.row == p.row + 1))
  }

  ghost predicate IsPath(cells: set<Cell>, path: seq<Cell>, p: Cell, q: Cell) {
    && path != [] && path[0] == p && path[|path| - 1] == q
    && (forall i :: 0 <= i < |path| ==> path[i] in cells)
    && (forall i, j :: 0 <= i && j == i + 1 && j < |path| ==> Adjacent(path[i], path[j]))
  }

  ghost predicate Linked(cells: set<Cell>, p: Cell, q: Cell) {
    exists path: seq<Cell> :: IsPath(cells, path, p, q)
  }

  /** The cells that can be reached from p without leaving the given cells. */
  ghost function Group(cells: set<Cell>, p: Cell): set<Cell> {
    set q | q in cells && Linked(cells, p, q)
  }

  lemma LinkedSelf(cells: set<Cell>, p: Cell)
    requires p in cells
    ensures Linked(cells, p, p)
  {
    assert IsPath(cells, [p], p, p);
  }

  lemma LinkedAfter(cells: set<Cell>, p: Cell, q: Cell, r: Cell)
    requires Linked(cells, p, q) && Adjacent(q, r) && r in cells
    ensures Linked(cells, p, r)
  {
    var path :| IsPath(cells, path, p, q);
    assert IsPath(cells, path + [r], p, r);
  }

  lemma LinkedBefore(cells: set<Cell>, larger: set<Cell>, p: Cell, q: Cell, r: Cell)
    requires Linked(cells, q, r) && Adjacent(p, q) && cells <= larger && p in larger
    ensures Linked(larger, p, r)
  {
    var path :| IsPath(cells, path, q, r);
    assert IsPath(larger, [p] + path, p, r);
  }

  ghost predicate Closed(cells: set<Cell>, group: set<Cell>) {
    forall d, e :: d in group && e in cells && Adjacent(d, e) ==> e in group
  }

  lemma {:induction false} PathStays(cells: set<Cell>, group: set<Cell>, path: seq<Cell>, p: Cell, q: Cell)
    requires IsPath(cells, path, p, q) && p in group && Closed(cells, group)
    ensures q in group
    decreases |path|
  {
    if |path| > 1 {
      assert Adjacent(path[0], path[1]);
      PathStays(cells, group, path[1..], path[1], q);
    }
  }

  /** A closed set of linked cells is the group. */
  lemma ClosedIsGroup(cells: set<Cell>, group: set<Cell>, p: Cell)
    requires p in group && group <= cells && Closed(cells, group)
    requires forall q :: q in group ==> Linked(cells, p, q)
    ensures group == Group(cells, p)
  {
    forall q | q in cells && Linked(cells, p, q) ensures q in group {
      var path :| IsPath(cells, path, p, q);
      PathStays(cells, group, path, p, q);
    }
  }

  lemma GroupClosed(cells: set<Cell>, p: Cell)
    requires p in cells
    ensures p in Group(cells, p) && Closed(cells, Group(cells, p))
  {
    LinkedSelf(cells, p);
    forall d, e | d in Group(cells, p) && e in cells && Adjacent(d, e) ensures e in Group(cells, p) {
      LinkedAfter(cells, p, d, e);
    }
  }

  /** A group has a second cell exactly when a neighbour has the same kind. */
  lemma GroupOfTwo(cells: set<Cell>, p: Cell)
    requires p in cells
    ensures Group(cells, p) != {p} <==> exists q :: q in cells && Adjacent(p, q)
  {
    GroupClosed(cells, p);
    if q :| q in cells && Adjacent(p, q) {
      assert q in Group(cells, p) && q != p;
    } else {
      ClosedIsGroup(cells, {p}, p);
    }
  }

  // ----- one neighbour after another

  function Neighbour(p: Cell, i: nat): Cell
    requires i < 4
  {
    Cell(p.row + [0, 0, 1, -1][i], p.col + [1, -1, 0, 0][i])
  }

  lemma Neighbours(p: Cell, q: Cell)
    ensures Adjacent(p, q) <==> exists i: nat :: i < 4 && q == Neighbour(p, i)
  {
    if Adjacent(p, q) {
      var i := if q.col == p.col + 1 then 0 else if q.col == p.col - 1 then 1 else if q.row == p.row + 1 then 2 else 3;
      assert q == Neighbour(p, i);
    }
  }

  /** What is gone after the first n neighbours of p have been looked at. */
  ghost predicate FloodedTo(cells: set<Cell>, p: Cell, n: nat, gone: set<Cell>) {
    && p in gone && gone <= cells && n <= 4
    && (forall q :: q in gone ==> Linked(cells, p, q))
    && (forall d, e :: d in gone && d != p && e in cells && Adjacent(d, e) ==> e in gone)
    && (forall i: nat :: i < n && Neighbour(p, i) in cells ==> Neighbour(p, i) in gone)
  }

  lemma FloodStart(cells: set<Cell>, p: Cell)
    requires p in cells
    ensures FloodedTo(cells, p, 0, {p})
  {
    LinkedSelf(cells, p);
  }

  /** The next neighbour takes away its own group among what is left. */
  lemma FloodNext(cells: set<Cell>, p: Cell, n: nat, gone: set<Cell>)
    requires FloodedTo(cells, p, n, gone) && n < 4
    ensures var q := Neighbour(p, n);
      FloodedTo(cells, p, n + 1, if q in cells - gone then gone + Group(cells - gone, q) else gone)
  {
    var q := Neighbour(p, n);
    if q in cells - gone {
      var left := cells - gone;
      var more := Group(left, q);
      GroupClosed(left, q);
      assert Adjacent(p, q);
      forall d | d in more ensures Linked(cells, p, d) { LinkedBefore(left, cells, p, q, d); }
      forall d, e | d in gone + more && d != p && e in cells && Adjacent(d, e) ensures e in gone + more {
        if d in more && e !in gone { assert e in left; }
      }
    }
  }

  lemma FloodEnd(cells: set<Cell>, p: Cell, gone: set<Cell>)
    requires FloodedTo(cells, p, 4, gone)
    ensures gone == Group(cells, p)
  {
    forall d, e | d in gone && e in cells && Adjacent(d, e) ensures e in gone {
      if d == p {
        Neighbours(p, e);
        var i: nat :| i < 4 && e == Neighbour(p, i);
      }
    }
    ClosedIsGroup(cells, gone, p);
  }

  // ----- cleared cells, falling cells, closing columns

  function ClearColumn(c: Column, j: int, gone: set<Cell>): (r: Column)
    ensures |r| == |c|
    ensures forall i :: 0 <= i < |c| ==> r[i] == if Cell(i, j) in gone then EMPTY else c[i]
  {
    seq(|c|, i requires 0 <= i < |c| => if Cell(i, j) in gone then EMPTY else c[i])
  }

  /** The board with some cells made empty. */
  function Clear(b: Board, gone: set<Cell>): (r: Board)
    ensures |r| == |b| && forall j :: 0 <= j < |b| ==> r[j] == ClearColumn(b[j], j, gone)
  {
    seq(|b|, j requires 0 <= j < |b| => ClearColumn(b[j], j, gone))
  }

  function Blanks(n: nat): (r: Column)
    ensures |r| == n && forall i :: 0 <= i < n ==> r[i] == EMPTY
  {
    seq(n, _ => EMPTY)
  }

  /** The kinds that are left in a column, in their order. */
  function Blocks(c: Column): (r: Column)
    ensures |r| <= |c| && forall x :: x in r ==> x != EMPTY
  {
    if c == [] then []
    else if c[0] == EMPTY then Blocks(c[1..])
    else [c[0]] + Blocks(c[1..])
  }

  /** The column after everything has fallen. */
  function Fall(c: Column): (r: Column)
    ensures |r| == |c|
  {
    Blanks(|c| - |Blocks(c)|) + Blocks(c)
  }

  function FallAll(b: Board): (r: Board)
    ensures |r| == |b| && forall j :: 0 <= j < |b| ==> r[j] == Fall(b[j])
  {
    seq(|b|, j requires 0 <= j < |b| => Fall(b[j]))
  }

  predicate Settled(c: Column) {
    forall i, j :: 0 <= i < j < |c| && c[j] == EMPTY ==> c[i] == EMPTY
  }

  predicate AllSettled(b: Board) {
    forall c :: c in b ==> Settled(c)
  }

  predicate Vacant(c: Column) {
    forall x :: x in c ==> x == EMPTY
  }

  /** The columns that still hold something, in their order. */
  function Occupied(b: Board): (r: Board)
    ensures |r| <= |b| && forall c :: c in r ==> c in b && !Vacant(c)
  {
    if b == [] then []
    else if Vacant(b[0]) then Occupied(b[1..])
    else [b[0]] + Occupied(b[1..])
  }

  function VacantColumns(rows: nat, n: nat): (r: Board)
    ensures |r| == n && forall c :: c in r ==> c == Blanks(rows)
  {
    seq(n, _ => Blanks(rows))
  }

  /** The board after the columns have been closed up to the left. */
  function CloseUp(b: Board, rows: nat): (r: Board)
    ensures |r| == |b|
  {
    Occupied(b) + VacantColumns(rows, |b| - |Occupied(b)|)
  }

  /** No empty column is left of one that is not. */
  predicate ClosedUp(b: Board) {
    forall i, j :: 0 <= i < j < |b| && Vacant(b[i]) ==> Vacant(b[j])
  }

  /** A board of the game: cells have fallen, columns are closed up. */
  predicate GameBoard(b: Board, rows: nat) {
    Rectangular(b, rows) && AllSettled(b) && ClosedUp(b)
  }

  // ----- what falling and closing up mean

  lemma {:induction false} BlocksConcat(a: Column, b: Column)
    ensures Blocks(a + b) == Blocks(a) + Blocks(b)
  {
    if a == [] {
      assert a + b == b;
    } else {
      assert (a + b)[1..] == a[1..] + b;
      BlocksConcat(a[1..], b);
      assert [a[0]] + (Blocks(a[1..]) + Blocks(b)) == ([a[0]] + Blocks(a[1..])) + Blocks(b);
    }
  }

  lemma {:induction false} BlocksOfVacant(c: Column)
    requires Vacant(c)
    ensures Blocks(c) == []
  {
    if c != [] {
      assert c[0] in c && c[0] == EMPTY;
      assert forall x :: x in c[1..] ==> x in c;
      BlocksOfVacant(c[1..]);
    }
  }

  lemma {:induction false} BlocksOfFull(c: Column)
    requires EMPTY !in c
    ensures Blocks(c) == c
  {
    if c != [] { BlocksOfFull(c[1..]); }
  }

  /** A settled column is determined by its length and what it holds. */
  lemma {:induction false} SettledIsFallen(c: Column)
    requires Settled(c)
    ensures Fall(c) == c
  {
    if c != [] {
      if c[0] == EMPTY {
        assert Settled(c[1..]) by {
          forall i, j | 0 <= i < j < |c[1..]| && c[1..][j] == EMPTY ensures c[1..][i] == EMPTY {
            assert c[i + 1] == EMPTY;
          }
        }
        SettledIsFallen(c[1..]);
        assert c == [EMPTY] + c[1..];
        assert Blanks(|c| - |Blocks(c)|) == [EMPTY] + Blanks(|c| - 1 - |Blocks(c)|);
      } else {
        assert EMPTY !in c;
        BlocksOfFull(c);
      }
    }
  }

  lemma FallSettles(c: Column)
    ensures Settled(Fall(c)) && |Fall(c)| == |c| && Blocks(Fall(c)) == Blocks(c)
  {
    hide Blocks;
    var n := |c| - |Blocks(c)|;
    BlocksConcat(Blanks(n), Blocks(c));
    BlocksOfVacant(Blanks(n));
    BlocksOfFull(Blocks(c));
    assert [] + Blocks(c) == Blocks(c);
  }

  /** Falling settles a column and keeps what it holds in order; nothing else does. */
  lemma FallMeans(c: Column, d: Column)
    ensures d == Fall(c) <==> Settled(d) && |d| == |c| && Blocks(d) == Blocks(c)
  {
    hide Settled, Blocks;
    FallSettles(c);
    if Settled(d) && |d| == |c| && Blocks(d) == Blocks(c) { SettledIsFallen(d); }
  }

  lemma {:induction false} OccupiedConcat(a: Board, b: Board)
    ensures Occupied(a + b) == Occupied(a) + Occupied(b)
  {
    if a == [] {
      assert a + b == b;
    } else {
      assert (a + b)[1..] == a[1..] + b;
      OccupiedConcat(a[1..], b);
      assert [a[0]] + (Occupied(a[1..]) + Occupied(b)) == ([a[0]] + Occupied(a[1..])) + Occupied(b);
    }
  }

  lemma {:induction false} OccupiedAll(b: Board)
    requires forall c :: c in b ==> !Vacant(c)
    ensures Occupied(b) == b
  {
    if b != [] { OccupiedAll(b[1..]); }
  }

  lemma {:induction false} OccupiedNone(b: Board)
    requires forall c :: c in b ==> Vacant(c)
    ensures Occupied(b) == []
  {
    if b != [] { OccupiedNone(b[1..]); }
  }

  lemma {:induction false} ClosedIsClosedUp(b: Board, rows: nat)
    requires Rectangular(b, rows) && ClosedUp(b)
    ensures CloseUp(b, rows) == b
  {
    if b != [] {
      if Vacant(b[0]) {
        OccupiedNone(b);
        forall j | 0 <= j < |b| ensures b[j] == Blanks(rows) {
          assert b[j] in b && Vacant(b[j]);
          assert forall i :: 0 <= i < rows ==> b[j][i] in b[j];
        }
      } else {
        forall i, j | 0 <= i < j < |b[1..]| && Vacant(b[1..][i]) ensures Vacant(b[1..][j]) {
          assert Vacant(b[i + 1]);
        }
        ClosedIsClosedUp(b[1..], rows);
        assert b == [b[0]] + b[1..];
      }
    }
  }

  lemma CloseUpCloses(b: Board, rows: nat)
    requires Rectangular(b, rows)
    ensures Rectangular(CloseUp(b, rows), rows) && ClosedUp(CloseUp(b, rows))
    ensures Occupied(CloseUp(b, rows)) == Occupied(b)
  {
    hide Vacant, Occupied;
    var o := Occupied(b);
    var v := VacantColumns(rows, |b| - |o|);
    var f := CloseUp(b, rows);
    OccupiedConcat(o, v);
    OccupiedAll(o);
    VacantAre(v, rows);
    OccupiedNone(v);
    forall j | 0 <= j < |f| ensures |f[j]| == rows && (Vacant(f[j]) <==> |o| <= j) {
      if j < |o| { assert f[j] == o[j]; } else { BlankIsVacant(v, rows, j - |o|); }
    }
  }

  lemma VacantAre(v: Board, rows: nat)
    requires v == VacantColumns(rows, |v|)
    ensures forall c :: c in v ==> Vacant(c)
  {
  }

  lemma BlankIsVacant(v: Board, rows: nat, j: nat)
    requires j < |v| && v == VacantColumns(rows, |v|)
    ensures |v[j]| == rows && Vacant(v[j])
  {
  }

  /** Closing up keeps the occupied columns in order and leaves no gap; nothing else does. */
  lemma CloseUpMeans(b: Board, d: Board, rows: nat)
    requires Rectangular(b, rows)
    ensures d == CloseUp(b, rows) <==> Rectangular(d, rows) && ClosedUp(d) && |d| == |b| && Occupied(d) == Occupied(b)
  {
    CloseUpCloses(b, rows);
    if Rectangular(d, rows) && ClosedUp(d) && |d| == |b| && Occupied(d) == Occupied(b) { ClosedIsClosedUp(d, rows); }
  }

  // ----- a move

  /** The first n cells of the column fall. */
  function FallTo(c: Column, n: nat): (r: Column)
    requires n <= |c|
    ensures |r| == |c|
  {
    Fall(c[..n]) + c[n..]
  }

  /** The columns from `lo` to `hi` fall, down to row n - 1. */
  function FallRange(b: Board, rows: nat, lo: int, hi: int, n: nat): (r: Board)
    requires Rectangular(b, rows) && n <= rows
    ensures |r| == |b|
    ensures forall j :: 0 <= j < |b| ==> r[j] == if lo <= j <= hi then FallTo(b[j], n) else b[j]
  {
    seq(|b|, j requires 0 <= j < |b| => if lo <= j <= hi then FallTo(b[j], n) else b[j])
  }

  ghost function GroupAt(b: Board, rows: nat, p: Cell): set<Cell>
    requires Rectangular(b, rows) && Inside(b, rows, p)
  {
    Group(Kind(b, rows, b[p.col][p.row]), p)
  }

  ghost predicate CanMove(b: Board, rows: nat, p: Cell)
    requires Rectangular(b, rows) && Inside(b, rows, p)
  {
    b[p.col][p.row] != EMPTY && GroupAt(b, rows, p) != {p}
  }

  /** A move on a group takes it away, lets everything fall, and closes the columns up. */
  ghost function Move(b: Board, rows: nat, p: Cell): Board
    requires Rectangular(b, rows) && Inside(b, rows, p)
  {
    if CanMove(b, rows, p) then CloseUp(FallAll(Clear(b, GroupAt(b, rows, p))), rows) else b
  }

  // ----- falling and closing up only where the group was is enough

  lemma ClearNothing(c: Column, j: int, gone: set<Cell>)
    requires forall q :: q in gone ==> q.col != j
    ensures ClearColumn(c, j, gone) == c
  {
    forall i | 0 <= i < |c| ensures ClearColumn(c, j, gone)[i] == c[i] {
      assert Cell(i, j).col == j;
    }
  }

  lemma SettledPrefix(c: Column, n: nat)
    requires Settled(c) && n <= |c|
    ensures FallTo(c, n) == c == Fall(c)
  {
    assert Settled(c[..n]);
    SettledIsFallen(c);
    SettledIsFallen(c[..n]);
  }

  lemma FullTailStays(c: Column, n: nat)
    requires n <= |c| && EMPTY !in c[n..]
    ensures FallTo(c, n) == Fall(c)
  {
    var a, t := c[..n], c[n..];
    assert c == a + t;
    BlocksConcat(a, t);
    BlocksOfFull(t);
    assert Blanks(|c| - |Blocks(c)|) == Blanks(n - |Blocks(a)|);
    assert Blanks(n - |Blocks(a)|) + (Blocks(a) + t) == (Blanks(n - |Blocks(a)|) + Blocks(a)) + t;
  }

  ghost predicate Fits(gone: set<Cell>, lo: int, hi: int, maxRow: int) {
    && (forall q :: q in gone ==> lo <= q.col <= hi && q.row <= maxRow)
    && exists q :: q in gone && q.col == lo
  }

  /** Taken cells held a block in the settled column, so below them everything is full. */
  lemma ColumnFalls(b: Board, rows: nat, gone: set<Cell>, kind: char, j: nat, n: nat)
    requires Rectangular(b, rows) && AllSettled(b) && j < |b| && n <= rows && kind != EMPTY
    requires gone <= Kind(b, rows, kind) && forall q :: q in gone ==> q.row < n
    ensures FallTo(ClearColumn(b[j], j, gone), n) == Fall(ClearColumn(b[j], j, gone))
  {
    hide Fall, FallTo;
    var c := ClearColumn(b[j], j, gone);
    assert b[j] in b && Settled(b[j]);
    if q :| q in gone && q.col == j {
      assert b[q.col][q.row] == kind;
      forall i | n <= i < |c| ensures c[i] != EMPTY { assert b[j][i] != EMPTY; }
      FullTailStays(c, n);
    } else {
      ClearNothing(b[j], j, gone);
      SettledPrefix(b[j], n);
    }
  }

  lemma RangeSuffices(b: Board, rows: nat, gone: set<Cell>, kind: char, lo: int, hi: int, maxRow: nat)
    requires GameBoard(b, rows) && kind != EMPTY && gone <= Kind(b, rows, kind)
    requires Fits(gone, lo, hi, maxRow) && maxRow < rows && Rectangular(Clear(b, gone), rows)
    ensures FallRange(Clear(b, gone), rows, lo, hi, maxRow + 1) == FallAll(Clear(b, gone))
  {
    hide Fall, FallTo, Settled, Clear, ClearColumn, Kind, GameBoard, Fits, FallRange, FallAll, Rectangular;
    forall j | 0 <= j < |b|
      ensures FallRange(Clear(b, gone), rows, lo, hi, maxRow + 1)[j] == FallAll(Clear(b, gone))[j]
    {
      ColumnInRange(b, rows, gone, kind, lo, hi, maxRow, j);
    }
  }

  lemma ColumnInRange(b: Board, rows: nat, gone: set<Cell>, kind: char, lo: int, hi: int, maxRow: nat, j: nat)
    requires GameBoard(b, rows) && kind != EMPTY && gone <= Kind(b, rows, kind)
    requires Fits(gone, lo, hi, maxRow) && maxRow < rows && j < |b|
    ensures var c := ClearColumn(b[j], j, gone); Fall(c) == if lo <= j <= hi then FallTo(c, maxRow + 1) else c
  {
    hide Fall, FallTo, Settled, ClearColumn, Kind;
    assert b[j] in b && Settled(b[j]);
    if lo <= j <= hi {
      ColumnFalls(b, rows, gone, kind, j, maxRow + 1);
    } else {
      ClearNothing(b[j], j, gone);
      SettledIsFallen(b[j]);
    }
  }

  lemma LeftSuffices(b: Board, rows: nat, gone: set<Cell>, kind: char, lo: nat, hi: int, maxRow: int)
    requires GameBoard(b, rows) && kind != EMPTY && gone <= Kind(b, rows, kind)
    requires Fits(gone, lo, hi, maxRow) && lo <= |b|
    ensures var d := FallAll(Clear(b, gone)); d[..lo] + CloseUp(d[lo..], rows) == CloseUp(d, rows)
  {
    hide Fall, Vacant, FallAll, Clear, Occupied, GameBoard;
    var d := FallAll(Clear(b, gone));
    forall c | c in d[..lo] ensures !Vacant(c) {
      var j :| 0 <= j < lo && d[j] == c;
      LeftOfGroup(b, rows, gone, kind, lo, hi, maxRow, j);
    }
    OccupiedAll(d[..lo]);
    OccupiedConcat(d[..lo], d[lo..]);
    assert d[..lo] + d[lo..] == d;
    assert VacantColumns(rows, |d| - |Occupied(d)|) == VacantColumns(rows, |d[lo..]| - |Occupied(d[lo..])|);
  }

  /** Columns left of the group are occupied and stay as they are. */
  lemma LeftOfGroup(b: Board, rows: nat, gone: set<Cell>, kind: char, lo: nat, hi: int, maxRow: int, j: nat)
    requires GameBoard(b, rows) && kind != EMPTY && gone <= Kind(b, rows, kind)
    requires Fits(gone, lo, hi, maxRow) && lo <= |b| && j < lo
    ensures FallAll(Clear(b, gone))[j] == b[j] && !Vacant(b[j])
  {
    hide Fall, Vacant, Settled;
    var q :| q in gone && q.col == lo;
    assert b[lo][q.row] == kind;
    HoldsBlock(b[lo], q.row);
    assert b[j] in b && Settled(b[j]);
    ClearNothing(b[j], j, gone);
    SettledIsFallen(b[j]);
  }

  lemma HoldsBlock(c: Column, i: nat)
    requires i < |c| && c[i] != EMPTY
    ensures !Vacant(c)
  {
    assert c[i] in c;
  }

  // ----- every move keeps a game board and loses exactly the group

  /** The kinds on the board, with how often each is there. */
  function Bag(b: Board): multiset<char> {
    if b == [] then multiset{} else multiset(Blocks(b[0])) + Bag(b[1..])
  }

  lemma {:induction false} BagFalls(b: Board)
    ensures Bag(FallAll(b)) == Bag(b)
  {
    if b != [] {
      FallMeans(b[0], Fall(b[0]));
      BagFalls(b[1..]);
      assert FallAll(b)[1..] == FallAll(b[1..]);
    }
  }

  lemma {:induction false} BagOfVacant(b: Board)
    requires forall c :: c in b ==> Vacant(c)
    ensures Bag(b) == multiset{}
  {
    if b != [] {
      BlocksOfVacant(b[0]);
      BagOfVacant(b[1..]);
    }
  }

  lemma {:induction false} BagConcat(a: Board, b: Board)
    ensures Bag(a + b) == Bag(a) + Bag(b)
  {
    if a == [] {
      assert a + b == b;
    } else {
      assert (a + b)[1..] == a[1..] + b;
      BagConcat(a[1..], b);
    }
  }

  lemma {:induction false} BagOfOccupied(b: Board)
    ensures Bag(Occupied(b)) == Bag(b)
  {
    if b != [] {
      BagOfOccupied(b[1..]);
      if Vacant(b[0]) {
        BlocksOfVacant(b[0]);
      } else {
        assert Occupied(b)[1..] == Occupied(b[1..]);
      }
    }
  }

  lemma BagClosesUp(b: Board, rows: nat)
    ensures Bag(CloseUp(b, rows)) == Bag(b)
  {
    var v := VacantColumns(rows, |b| - |Occupied(b)|);
    BagConcat(Occupied(b), v);
    VacantAre(v, rows);
    BagOfVacant(v);
    BagOfOccupied(b);
  }

  lemma BlocksWithout(c: Column, i: nat)
    requires i < |c| && c[i] != EMPTY
    ensures multiset(Blocks(c[i := EMPTY])) == multiset(Blocks(c)) - multiset{c[i]}
    ensures c[i] in multiset(Blocks(c))
  {
    hide Blocks;
    var a, t := c[..i], c[i + 1..];
    assert c == a + ([c[i]] + t) && c[i := EMPTY] == a + ([EMPTY] + t);
    BlocksConcat(a, [c[i]] + t);
    BlocksConcat(a, [EMPTY] + t);
    BlocksConcat([c[i]], t);
    BlocksConcat([EMPTY], t);
    BlocksOfOne(c[i]);
    BlocksOfOne(EMPTY);
    assert [] + Blocks(t) == Blocks(t);
  }

  lemma BlocksOfOne(x: char)
    ensures Blocks([x]) == if x == EMPTY then [] else [x]
  {
    assert [x][1..] == [];
  }

  lemma ClearOne(b: Board, q: Cell)
    requires 0 <= q.col < |b| && 0 <= q.row < |b[q.col]|
    ensures Clear(b, {q}) == b[..q.col] + ([b[q.col][q.row := EMPTY]] + b[q.col + 1..])
  {
    var d := Clear(b, {q});
    forall j | 0 <= j < |b| && j != q.col ensures d[j] == b[j] { ClearNothing(b[j], j, {q}); }
    assert d[q.col] == b[q.col][q.row := EMPTY] by {
      assert forall i :: Cell(i, q.col) == q <==> i == q.row;
    }
  }

  lemma BagWithout(b: Board, rows: nat, q: Cell)
    requires Rectangular(b, rows) && Inside(b, rows, q) && b[q.col][q.row] != EMPTY
    ensures Bag(Clear(b, {q})) == Bag(b) - multiset{b[q.col][q.row]}
    ensures b[q.col][q.row] in Bag(b)
  {
    hide Bag, Blocks;
    var a, t := b[..q.col], b[q.col + 1..];
    assert b[q.col] in b;
    var c := b[q.col][q.row := EMPTY];
    assert b == a + ([b[q.col]] + t);
    ClearOne(b, q);
    BagConcat(a, [b[q.col]] + t);
    BagConcat(a, [c] + t);
    BagConcat([b[q.col]], t);
    BagConcat([c], t);
    BagOne(b[q.col]);
    BagOne(c);
    BlocksWithout(b[q.col], q.row);
  }

  lemma BagOne(c: Column)
    ensures Bag([c]) == multiset(Blocks(c))
  {
    assert [c][1..] == [];
  }

  lemma ClearTwice(b: Board, gone: set<Cell>, more: set<Cell>)
    ensures Clear(Clear(b, gone), more) == Clear(b, gone + more)
  {
    forall j | 0 <= j < |b| ensures Clear(Clear(b, gone), more)[j] == Clear(b, gone + more)[j] {
    }
  }

  lemma KindCleared(b: Board, rows: nat, kind: char, gone: set<Cell>)
    requires Rectangular(b, rows) && kind != EMPTY
    ensures Rectangular(Clear(b, gone), rows)
    ensures Kind(Clear(b, gone), rows, kind) == Kind(b, rows, kind) - gone
  {
    forall c | c in Clear(b, gone) ensures |c| == rows {
      var j :| 0 <= j < |b| && Clear(b, gone)[j] == c;
      assert b[j] in b;
    }
    forall q ensures q in Kind(Clear(b, gone), rows, kind) <==> q in Kind(b, rows, kind) - gone {
      if Inside(b, rows, q) { assert b[q.col] in b && Cell(q.row, q.col) == q; }
    }
  }

  lemma OneLess(m: multiset<char>, kind: char, n: nat)
    requires n <= m[kind] && kind in m[kind := m[kind] - n]
    ensures n + 1 <= m[kind] && m[kind := m[kind] - n] - multiset{kind} == m[kind := m[kind] - (n + 1)]
  {
  }

  lemma OneCleared(b: Board, rows: nat, kind: char, rest: set<Cell>, q: Cell)
    requires Rectangular(b, rows) && kind != EMPTY && q in Kind(b, rows, kind) && q !in rest
    ensures Bag(Clear(b, rest + {q})) == Bag(Clear(b, rest)) - multiset{kind} && kind in Bag(Clear(b, rest))
  {
    hide Bag, Clear, ClearColumn, Rectangular;
    KindCleared(b, rows, kind, rest);
    assert q in Kind(Clear(b, rest), rows, kind);
    BagWithout(Clear(b, rest), rows, q);
    ClearTwice(b, rest, {q});
  }

  /** Clearing cells of one kind takes that many blocks of it and no other. */
  lemma {:induction false} BagCleared(b: Board, rows: nat, kind: char, gone: set<Cell>)
    requires Rectangular(b, rows) && kind != EMPTY && gone <= Kind(b, rows, kind)
    ensures |gone| <= Bag(b)[kind]
    ensures Bag(Clear(b, gone)) == Bag(b)[kind := Bag(b)[kind] - |gone|]
    decreases |gone|
  {
    hide Bag, Clear, ClearColumn, Kind, Rectangular;
    if gone == {} {
      forall j | 0 <= j < |b| ensures Clear(b, gone)[j] == b[j] { ClearNothing(b[j], j, gone); }
      assert Clear(b, gone) == b;
    } else {
      var q :| q in gone;
      var rest := gone - {q};
      BagCleared(b, rows, kind, rest);
      OneCleared(b, rows, kind, rest, q);
      assert rest + {q} == gone;
      OneLess(Bag(b), kind, |rest|);
    }
  }

  lemma FallenBoard(b: Board, rows: nat)
    requires Rectangular(b, rows)
    ensures Rectangular(FallAll(b), rows) && AllSettled(FallAll(b))
  {
    forall c | c in FallAll(b) ensures |c| == rows && Settled(c) {
      var j :| 0 <= j < |b| && FallAll(b)[j] == c;
      assert b[j] in b;
      FallMeans(b[j], c);
    }
  }

  /** A move on a game board leaves a game board; it takes exactly the blocks of the group, at
      least two of them, or nothing at all. */
  lemma MoveKeeps(b: Board, rows: nat, p: Cell)
    requires GameBoard(b, rows) && Inside(b, rows, p)
    ensures GameBoard(Move(b, rows, p), rows) && |Move(b, rows, p)| == |b|
    ensures var kind := b[p.col][p.row]; var n := |GroupAt(b, rows, p)|;
      if CanMove(b, rows, p) then
        2 <= n <= Bag(b)[kind] && Bag(Move(b, rows, p)) == Bag(b)[kind := Bag(b)[kind] - n]
      else Move(b, rows, p) == b
  {
    hide Fall, Group, Clear, Bag, CloseUp, Settled, Vacant;
    if CanMove(b, rows, p) {
      var kind := b[p.col][p.row];
      var cells := Kind(b, rows, kind);
      var gone := GroupAt(b, rows, p);
      GroupFacts(cells, p);
      KindCleared(b, rows, kind, gone);
      BagCleared(b, rows, kind, gone);
      var c := Clear(b, gone);
      FallenBoard(c, rows);
      BagFalls(c);
      var d := FallAll(c);
      CloseUpCloses(d, rows);
      BagClosesUp(d, rows);
      ClosedUpSettled(d, rows);
    }
  }

  lemma GroupFacts(cells: set<Cell>, p: Cell)
    requires p in cells
    ensures p in Group(cells, p) && Group(cells, p) <= cells
    ensures Group(cells, p) != {p} ==> |Group(cells, p)| >= 2
  {
    GroupClosed(cells, p);
    if Group(cells, p) != {p} {
      var q :| q in Group(cells, p) && q != p;
      assert {p, q} <= Group(cells, p);
      SubsetSize({p, q}, Group(cells, p));
    }
  }

  lemma ClosedUpSettled(b: Board, rows: nat)
    requires AllSettled(b)
    ensures AllSettled(CloseUp(b, rows))
  {
    forall c | c in CloseUp(b, rows) ensures Settled(c) {
      if c !in Occupied(b) { assert c == Blanks(rows); }
    }
  }

  /** The board after some moves, all of them inside it. */
  ghost function AfterMoves(b: Board, rows: nat, moves: seq<Cell>): (r: Board)
    requires GameBoard(b, rows) && forall p :: p in moves ==> Inside(b, rows, p)
    ensures GameBoard(r, rows) && |r| == |b|
  {
    if moves == [] then b
    else
      var n := |moves| - 1;
      var before := AfterMoves(b, rows, moves[..n]);
      assert moves[n] in moves && Inside(b, rows, moves[n]);
      MoveKeeps(before, rows, moves[n]);
      Move(before, rows, moves[n])
  }

  /** How many of the moves took a group away. */
  ghost function Effective(b: Board, rows: nat, moves: seq<Cell>): nat
    requires GameBoard(b, rows) && forall p :: p in moves ==> Inside(b, rows, p)
  {
    if moves == [] then 0
    else
      var n := |moves| - 1;
      assert moves[n] in moves && Inside(b, rows, moves[n]);
      Effective(b, rows, moves[..n]) + if CanMove(AfterMoves(b, rows, moves[..n]), rows, moves[n]) then 1 else 0
  }

  /** Every move that does something takes at least two blocks, so a game runs out of them. */
  lemma {:induction false} MovesRunOut(b: Board, rows: nat, moves: seq<Cell>)
    requires GameBoard(b, rows) && forall p :: p in moves ==> Inside(b, rows, p)
    ensures 2 * Effective(b, rows, moves) + |Bag(AfterMoves(b, rows, moves))| <= |Bag(b)|
    decreases |moves|
  {
    hide GameBoard, Move, CanMove, GroupAt, Bag;
    if moves != [] {
      var n := |moves| - 1;
      assert moves[n] in moves && Inside(b, rows, moves[n]);
      MovesRunOut(b, rows, moves[..n]);
      MoveKeeps(AfterMoves(b, rows, moves[..n]), rows, moves[n]);
    }
  }
}

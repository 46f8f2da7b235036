/** One move of SameGame, made in place on the board. */
module SameGame {
  import opened SameGameBoard

  // ----- the array as a board value

  function ColumnOf(plansza: array2<char>, j: nat, n: nat): (r: Column)
    requires j < plansza.Length1 && n <= plansza.Length0
    reads plansza
    ensures |r| == n && forall i :: 0 <= i < n ==> r[i] == plansza[i, j]
  {
    if n == 0 then [] else ColumnOf(plansza, j, n - 1) + [plansza[n - 1, j]]
  }

  function Columns(plansza: array2<char>, n: nat): (r: Board)
    requires n <= plansza.Length1
    reads plansza
    ensures |r| == n && forall j :: 0 <= j < n ==> r[j] == ColumnOf(plansza, j, plansza.Length0)
  {
    if n == 0 then [] else Columns(plansza, n - 1) + [ColumnOf(plansza, n - 1, plansza.Length0)]
  }

  function BoardOf(plansza: array2<char>): (r: Board)
    reads plansza
    ensures |r| == plansza.Length1 && Rectangular(r, plansza.Length0)
    ensures forall j, i :: 0 <= j < plansza.Length1 && 0 <= i < plansza.Length0 ==> r[j][i] == plansza[i, j]
  {
    Columns(plansza, plansza.Length1)
  }

  lemma SameBoard(plansza: array2<char>, b: Board)
    requires |b| == plansza.Length1 && Rectangular(b, plansza.Length0)
    requires forall j, i :: 0 <= j < plansza.Length1 && 0 <= i < plansza.Length0 ==> b[j][i] == plansza[i, j]
    ensures BoardOf(plansza) == b
  {
    hide ColumnOf, Columns;
    var r := BoardOf(plansza);
    forall j | 0 <= j < |b| ensures r[j] == b[j] {
      assert r[j] in r && b[j] in b;
    }
  }

  // ----- the group

  function KindOf(plansza: array2<char>, kind: char): set<Cell>
    reads plansza
  {
    Kind(BoardOf(plansza), plansza.Length0, kind)
  }

  predicate Within(plansza: array2<char>, p: Cell) {
    0 <= p.row < plansza.Length0 && 0 <= p.col < plansza.Length1
  }

  /** Whether the chosen cell belongs to a group of at least two. */
  method CzyGrupa(plansza: array2<char>, p: Cell) returns (r: bool)
    requires Within(plansza, p)
    ensures r <==> plansza[p.row, p.col] != EMPTY && Group(KindOf(plansza, plansza[p.row, p.col]), p) != {p}
  {
    hide BoardOf, Group, Adjacent;
    var kind := plansza[p.row, p.col];
    ghost var cells := KindOf(plansza, kind);
    assert Inside(BoardOf(plansza), plansza.Length0, p);
    GroupOfTwo(cells, p);
    r := false;
    if kind != EMPTY {
      for i := 0 to 4
        invariant forall j: nat :: j < i ==> Neighbour(p, j) !in cells
      {
        var q := Neighbour(p, i);
        assert q in cells <==> Within(plansza, q) && plansza[q.row, q.col] == kind;
        Neighbours(p, q);
        if Within(plansza, q) && plansza[q.row, q.col] == kind { return true; }
      }
      forall q | Adjacent(p, q) ensures q !in cells { Neighbours(p, q); }
    }
  }

  /** The least and greatest column and the greatest row of the cells seen so far. */
  datatype Bounds = Bounds(minX: int, maxX: int, maxY: int)

  ghost predicate Covers(b: Bounds, gone: set<Cell>) {
    forall q :: q in gone ==> b.minX <= q.col <= b.maxX && q.row <= b.maxY
  }

  ghost predicate Reaches(b: Bounds, gone: set<Cell>) {
    && (exists q :: q in gone && q.col == b.minX)
    && (exists q :: q in gone && q.col == b.maxX)
    && (exists q :: q in gone && q.row == b.maxY)
  }

  /** The bounds fit the cells, up to the bounds that were there before. */
  ghost predicate Grown(before: Bounds, b: Bounds, gone: set<Cell>) {
    && b.minX <= before.minX && before.maxX <= b.maxX && before.maxY <= b.maxY
    && (b.minX == before.minX || exists q :: q in gone && q.col == b.minX)
    && (b.maxX == before.maxX || exists q :: q in gone && q.col == b.maxX)
    && (b.maxY == before.maxY || exists q :: q in gone && q.row == b.maxY)
  }

  function Stretched(b: Bounds, q: Cell): Bounds {
    Bounds(if b.minX < q.col then b.minX else q.col, if b.maxX > q.col then b.maxX else q.col,
           if b.maxY > q.row then b.maxY else q.row)
  }

  lemma BoundsAtFirst(before: Bounds, p: Cell)
    requires before.minX <= p.col <= before.maxX && p.row <= before.maxY
    ensures Covers(before, {p}) && Grown(before, before, {p})
  {
  }

  lemma BoundsOn(before: Bounds, b0: Bounds, b: Bounds, gone: set<Cell>, more: set<Cell>, q: Cell)
    requires Covers(b0, gone) && Grown(before, b0, gone) && q in more
    requires Covers(b, more) && Grown(Stretched(b0, q), b, more)
    ensures Covers(b, gone + more) && Grown(before, b, gone + more)
  {
    assert q in gone + more;
    forall x | x in more ensures x in gone + more {}
    forall x | x in gone ensures x in gone + more {}
  }

  lemma FloodWithin(cells: set<Cell>, p: Cell, n: nat, gone: set<Cell>)
    requires FloodedTo(cells, p, n, gone)
    ensures p in gone && gone <= cells
  {
  }

  lemma GroupHasStart(cells: set<Cell>, p: Cell)
    requires p in cells
    ensures p in Group(cells, p)
  {
    GroupClosed(cells, p);
  }

  method ClearCell(plansza: array2<char>, p: Cell)
    requires Within(plansza, p)
    modifies plansza
    ensures BoardOf(plansza) == Clear(old(BoardOf(plansza)), {p})
  {
    hide ColumnOf, Columns;
    ghost var b := BoardOf(plansza);
    plansza[p.row, p.col] := EMPTY;
    KindCleared(b, plansza.Length0, 'x', {p});
    forall j, i | 0 <= j < plansza.Length1 && 0 <= i < plansza.Length0
      ensures Clear(b, {p})[j][i] == plansza[i, j]
    {
      assert b[j] in b;
      assert Cell(i, j) == p <==> i == p.row && j == p.col;
    }
    SameBoard(plansza, Clear(b, {p}));
  }

  /** Takes the group of p away, cell by cell, and stretches the bounds over it. */
  method UsunGrupe(plansza: array2<char>, p: Cell, kind: char, before: Bounds)
    returns (b: Bounds, ghost gone: set<Cell>)
    requires Within(plansza, p) && plansza[p.row, p.col] == kind != EMPTY
    requires before.minX <= p.col <= before.maxX && p.row <= before.maxY
    modifies plansza
    ensures gone == Group(old(KindOf(plansza, kind)), p)
    ensures BoardOf(plansza) == Clear(old(BoardOf(plansza)), gone)
    ensures Covers(b, gone) && Grown(before, b, gone)
    decreases KindOf(plansza, kind)
  {
    hide Group, FloodedTo, Clear, BoardOf, Neighbour, Kind, Grown;
    ghost var start := BoardOf(plansza);
    ghost var cells := KindOf(plansza, kind);
    assert Inside(start, plansza.Length0, p);
    b, gone := before, {p};
    ClearCell(plansza, p);
    FloodStart(cells, p);
    BoundsAtFirst(before, p);
    for i := 0 to 4
      invariant FloodedTo(cells, p, i, gone)
      invariant BoardOf(plansza) == Clear(start, gone)
      invariant Covers(b, gone) && Grown(before, b, gone)
    {
      var q := Neighbour(p, i);
      FloodNext(cells, p, i, gone);
      KindCleared(start, plansza.Length0, kind, gone);
      FloodWithin(cells, p, i, gone);
      assert q in cells - gone <==> Inside(BoardOf(plansza), plansza.Length0, q) && BoardOf(plansza)[q.col][q.row] == kind;
      if Within(plansza, q) && plansza[q.row, q.col] == kind {
        ghost var b0 := b;
        b := Stretched(b, q);
        ghost var more;
        b, more := UsunGrupe(plansza, q, kind, b);
        ClearTwice(start, gone, more);
        GroupHasStart(cells - gone, q);
        BoundsOn(before, b0, b, gone, more, q);
        gone := gone + more;
      }
    }
    FloodEnd(cells, p, gone);
  }

  // ----- falling

  lemma BlocksStep(c: Column, j: nat, n: nat)
    requires j < n <= |c|
    ensures Blocks(c[j..n]) == (if c[j] == EMPTY then [] else [c[j]]) + Blocks(c[j + 1..n])
  {
    assert c[j..n][1..] == c[j + 1..n];
  }

  /** Everything in one column, down to row maxY, falls. */
  method OpadnijKolumna(plansza: array2<char>, i: nat, maxY: nat)
    requires i < plansza.Length1 && maxY < plansza.Length0
    modifies plansza
    ensures BoardOf(plansza) == old(BoardOf(plansza))[i := FallTo(old(BoardOf(plansza))[i], maxY + 1)]
  {
    hide ColumnOf, Columns, BoardOf, Blocks;
    ghost var b := BoardOf(plansza);
    ghost var c := b[i];
    CellsOf(plansza);
    assert c in b;
    var puste := 0;
    for j := maxY + 1 downto 0
      invariant puste == (maxY + 1 - j) - |Blocks(c[j..maxY + 1])|
      invariant forall r :: 0 <= r < j ==> plansza[r, i] == c[r]
      invariant forall r :: j <= r < j + puste ==> plansza[r, i] == EMPTY
      invariant forall r :: j + puste <= r <= maxY ==> plansza[r, i] == Blocks(c[j..maxY + 1])[r - j - puste]
      invariant forall r :: maxY < r < |c| ==> plansza[r, i] == c[r]
      invariant forall k, r :: 0 <= k < |b| && k != i && 0 <= r < |c| ==> plansza[r, k] == b[k][r]
    {
      BlocksStep(c, j, maxY + 1);
      if plansza[j, i] == EMPTY {
        puste := puste + 1;
      } else if puste != 0 {
        plansza[j + puste, i] := plansza[j, i];
        plansza[j, i] := EMPTY;
      }
    }
    assert c[0..maxY + 1] == c[..maxY + 1];
    FallenColumn(plansza, b, i, maxY + 1, puste);
  }

  lemma CellsOf(plansza: array2<char>)
    ensures forall j, i :: 0 <= j < plansza.Length1 && 0 <= i < plansza.Length0 ==>
      |BoardOf(plansza)[j]| == plansza.Length0 && BoardOf(plansza)[j][i] == plansza[i, j]
  {
    hide ColumnOf, Columns, BoardOf;
    var b := BoardOf(plansza);
    forall j | 0 <= j < plansza.Length1 ensures |b[j]| == plansza.Length0 { assert b[j] in b; }
  }

  lemma FallenColumn(plansza: array2<char>, b: Board, i: nat, n: nat, puste: nat)
    requires |b| == plansza.Length1 && Rectangular(b, plansza.Length0) && i < |b| && n <= plansza.Length0
    requires |b[i]| == plansza.Length0 && puste == n - |Blocks(b[i][..n])|
    requires forall r :: 0 <= r < puste ==> plansza[r, i] == EMPTY
    requires forall r :: puste <= r < n ==> plansza[r, i] == Blocks(b[i][..n])[r - puste]
    requires forall r :: n <= r < |b[i]| ==> plansza[r, i] == b[i][r]
    requires forall k, r :: 0 <= k < |b| && k != i && 0 <= r < |b[i]| ==> |b[k]| == |b[i]| && plansza[r, k] == b[k][r]
    ensures BoardOf(plansza) == b[i := FallTo(b[i], n)]
  {
    hide ColumnOf, Columns, BoardOf, Blocks;
    var d := b[i := FallTo(b[i], n)];
    SameBoard(plansza, d);
  }

  /** Columns minX to maxX fall, down to row maxY. */
  method PrzesunWDol(plansza: array2<char>, minX: nat, maxX: int, maxY: nat)
    requires minX <= maxX < plansza.Length1 && maxY < plansza.Length0
    modifies plansza
    ensures BoardOf(plansza) == FallRange(old(BoardOf(plansza)), plansza.Length0, minX, maxX, maxY + 1)
  {
    hide ColumnOf, Columns, BoardOf, FallTo;
    ghost var b := BoardOf(plansza);
    for i := minX to maxX + 1
      invariant BoardOf(plansza) == FallRange(b, plansza.Length0, minX, i - 1, maxY + 1)
    {
      OpadnijKolumna(plansza, i, maxY);
    }
  }

  // ----- closing up

  /** The blocks of column i move to the empty column k. */
  method PrzeniesKolumne(plansza: array2<char>, i: nat, k: nat)
    requires k < i < plansza.Length1 && Vacant(BoardOf(plansza)[k])
    modifies plansza
    ensures BoardOf(plansza) == old(BoardOf(plansza))[k := old(BoardOf(plansza))[i]][i := Blanks(plansza.Length0)]
  {
    hide ColumnOf, Columns, BoardOf;
    ghost var b := BoardOf(plansza);
    CellsOf(plansza);
    forall r | 0 <= r < plansza.Length0 ensures plansza[r, k] == EMPTY { assert b[k][r] in b[k]; }
    for j := plansza.Length0 downto 0
      invariant forall r :: 0 <= r < j ==> plansza[r, i] == b[i][r] && plansza[r, k] == EMPTY
      invariant forall r :: j <= r < plansza.Length0 ==> plansza[r, k] == b[i][r] && plansza[r, i] == EMPTY
      invariant forall l, r :: 0 <= l < |b| && l != i && l != k && 0 <= r < plansza.Length0 ==> plansza[r, l] == b[l][r]
    {
      if plansza[j, i] != EMPTY {
        plansza[j, k] := plansza[j, i];
        plansza[j, i] := EMPTY;
      }
    }
    SameBoard(plansza, b[k := b[i]][i := Blanks(plansza.Length0)]);
  }

  /** A column counts as empty when its lowest cell is. */
  ghost predicate GroundTells(b: Board, rows: nat, minX: nat)
    requires Rectangular(b, rows) && rows > 0
  {
    forall j :: minX <= j < |b| && |b[j]| == rows && b[j][rows - 1] == EMPTY ==> Vacant(b[j])
  }

  /** The board after the columns from minX to i - 1 have been closed up. */
  ghost function ClosedTo(b: Board, rows: nat, minX: nat, i: nat): Board
    requires minX <= i <= |b|
  {
    b[..minX] + CloseUp(b[minX..i], rows) + b[i..]
  }

  lemma OccupiedNext(b: Board, minX: nat, i: nat)
    requires minX <= i < |b|
    ensures Occupied(b[minX..i + 1]) == Occupied(b[minX..i]) + if Vacant(b[i]) then [] else [b[i]]
  {
    hide Vacant;
    assert b[minX..i + 1] == b[minX..i] + [b[i]];
    OccupiedConcat(b[minX..i], [b[i]]);
    assert [b[i]][1..] == [];
  }

  lemma ClosedShape(b: Board, rows: nat, minX: nat, i: nat)
    requires Rectangular(b, rows) && minX <= i < |b|
    ensures var o := |Occupied(b[minX..i])|; var d := ClosedTo(b, rows, minX, i);
      |d| == |b| && d[i] == b[i] && minX + o <= i && (minX + o < i ==> Vacant(d[minX + o]))
  {
    hide Vacant, Occupied;
    var o := Occupied(b[minX..i]);
    var v := VacantColumns(rows, i - minX - |o|);
    if minX + |o| < i { BlankIsVacant(v, rows, 0); }
  }

  lemma ClosedVacant(b: Board, rows: nat, minX: nat, i: nat)
    requires Rectangular(b, rows) && minX <= i < |b| && Vacant(b[i])
    ensures ClosedTo(b, rows, minX, i + 1) == ClosedTo(b, rows, minX, i)
  {
    hide Vacant, Occupied;
    OccupiedNext(b, minX, i);
    var o := Occupied(b[minX..i]);
    var v := VacantColumns(rows, i - minX - |o|);
    assert b[i] in b;
    VacantIsBlank(b[i], rows);
    assert VacantColumns(rows, i + 1 - minX - |o|) == v + [b[i]];
  }

  lemma ClosedMoved(b: Board, rows: nat, minX: nat, i: nat)
    requires Rectangular(b, rows) && minX <= i < |b| && !Vacant(b[i])
    ensures var o := |Occupied(b[minX..i])|; var d := ClosedTo(b, rows, minX, i);
      && |d| == |b| && minX + o <= i
      && ClosedTo(b, rows, minX, i + 1) == if minX + o == i then d else d[minX + o := b[i]][i := Blanks(rows)]
  {
    hide Vacant, Occupied;
    OccupiedNext(b, minX, i);
    var o := Occupied(b[minX..i]);
    var v := VacantColumns(rows, i - minX - |o|);
    var d, e := ClosedTo(b, rows, minX, i), ClosedTo(b, rows, minX, i + 1);
    var w := VacantColumns(rows, i + 1 - minX - (|o| + 1));
    assert |v| == |w| && forall k :: 0 <= k < |v| ==> v[k] == w[k] == Blanks(rows);
    var p := b[..minX] + o;
    assert d == p + v + b[i..];
    assert e == p + [b[i]] + w + b[i + 1..];
    assert b[i..] == [b[i]] + b[i + 1..];
    Swapped(p, v, w, b[i], b[i + 1..], Blanks(rows));
  }

  lemma Swapped<T>(p: seq<T>, v: seq<T>, w: seq<T>, x: T, t: seq<T>, blank: T)
    requires |v| == |w| && forall k :: 0 <= k < |v| ==> v[k] == w[k] == blank
    ensures var d := p + v + ([x] + t);
      p + [x] + w + t == if |v| == 0 then d else d[|p| := x][|p| + |v| := blank]
  {
  }

  lemma VacantIsBlank(c: Column, rows: nat)
    requires Vacant(c) && |c| == rows
    ensures c == Blanks(rows)
  {
    forall i | 0 <= i < rows ensures c[i] == EMPTY { assert c[i] in c; }
  }

  /** The occupied columns from minX on move left over the empty ones. */
  method PrzesunWLewo(plansza: array2<char>, minX: nat)
    requires minX <= plansza.Length1 && plansza.Length0 > 0
    requires GroundTells(BoardOf(plansza), plansza.Length0, minX)
    modifies plansza
    ensures BoardOf(plansza) == ClosedTo(old(BoardOf(plansza)), plansza.Length0, minX, plansza.Length1)
  {
    hide ColumnOf, Columns, BoardOf, Vacant, ClosedTo, Occupied, GroundTells;
    ghost var b := BoardOf(plansza);
    var rows := plansza.Length0;
    NothingClosed(b, rows, minX);
    var pusta := 0;
    for i := minX to plansza.Length1
      invariant pusta == i - minX - |Occupied(b[minX..i])|
      invariant BoardOf(plansza) == ClosedTo(b, rows, minX, i)
    {
      OccupiedNext(b, minX, i);
      ClosedShape(b, rows, minX, i);
      if Vacant(b[i]) { ClosedVacant(b, rows, minX, i); } else { ClosedMoved(b, rows, minX, i); }
      CellsOf(plansza);
      Ground(b, rows, minX, i);
      if plansza[rows - 1, i] == EMPTY {
        pusta := pusta + 1;
      } else if pusta != 0 {
        PrzeniesKolumne(plansza, i, i - pusta);
      }
    }
  }

  lemma NothingClosed(b: Board, rows: nat, minX: nat)
    requires minX <= |b|
    ensures b[minX..minX] == [] && ClosedTo(b, rows, minX, minX) == b
  {
  }

  lemma Ground(b: Board, rows: nat, minX: nat, i: nat)
    requires Rectangular(b, rows) && rows > 0 && GroundTells(b, rows, minX) && minX <= i < |b|
    ensures |b[i]| == rows && (b[i][rows - 1] == EMPTY <==> Vacant(b[i]))
  {
    assert b[i] in b && b[i][rows - 1] in b[i];
  }

  // ----- the move

  /** The whole move, in place. */
  method Gra(plansza: array2<char>, p: Cell)
    requires Within(plansza, p) && GameBoard(BoardOf(plansza), plansza.Length0)
    modifies plansza
    ensures old(Inside(BoardOf(plansza), plansza.Length0, p))
    ensures BoardOf(plansza) == Move(old(BoardOf(plansza)), plansza.Length0, p)
    ensures GameBoard(BoardOf(plansza), plansza.Length0)
  {
    hide *;
    ghost var b := BoardOf(plansza);
    var rows := plansza.Length0;
    ChosenCell(plansza, p);
    MoveStays(b, rows, p);
    var kind := plansza[p.row, p.col];
    MoveParts(b, rows, p, kind);
    var grupa := CzyGrupa(plansza, p);
    if grupa {
      var bounds, gone := UsunGrupe(plansza, p, kind, Bounds(p.col, p.col, p.row));
      MoveInParts(b, rows, p, kind, bounds, gone);
      PrzesunWDol(plansza, bounds.minX, bounds.maxX, bounds.maxY);
      PrzesunWLewo(plansza, bounds.minX);
    }
  }

  lemma ChosenCell(plansza: array2<char>, p: Cell)
    requires Within(plansza, p)
    ensures 0 <= p.row < plansza.Length0 && 0 <= p.col < plansza.Length1
    ensures var b := BoardOf(plansza);
      && |b| == plansza.Length1 && Inside(b, plansza.Length0, p)
      && |b[p.col]| == plansza.Length0 && b[p.col][p.row] == plansza[p.row, p.col]
      && KindOf(plansza, plansza[p.row, p.col]) == Kind(b, plansza.Length0, plansza[p.row, p.col])
  {
    CellsOf(plansza);
  }

  lemma MoveStays(b: Board, rows: nat, p: Cell)
    requires GameBoard(b, rows) && Inside(b, rows, p)
    ensures Rectangular(b, rows) && GameBoard(Move(b, rows, p), rows)
  {
    hide Move;
    MoveKeeps(b, rows, p);
  }

  lemma MoveParts(b: Board, rows: nat, p: Cell, kind: char)
    requires Rectangular(b, rows) && Inside(b, rows, p) && kind == b[p.col][p.row]
    ensures var gone := Group(Kind(b, rows, kind), p);
      && (CanMove(b, rows, p) <==> kind != EMPTY && gone != {p})
      && Move(b, rows, p) == if CanMove(b, rows, p) then CloseUp(FallAll(Clear(b, gone)), rows) else b
  {
  }

  /** The bounds of the group are exact, so working inside them makes the whole move. */
  lemma MoveInParts(b: Board, rows: nat, p: Cell, kind: char, bounds: Bounds, gone: set<Cell>)
    requires GameBoard(b, rows) && Inside(b, rows, p) && kind == b[p.col][p.row] != EMPTY
    requires gone == Group(Kind(b, rows, kind), p)
    requires Covers(bounds, gone) && Grown(Bounds(p.col, p.col, p.row), bounds, gone)
    ensures Reaches(bounds, gone)
    ensures 0 <= bounds.minX <= bounds.maxX < |b| && 0 <= bounds.maxY < rows
    ensures Rectangular(Clear(b, gone), rows)
    ensures FallRange(Clear(b, gone), rows, bounds.minX, bounds.maxX, bounds.maxY + 1) == FallAll(Clear(b, gone))
    ensures var d := FallAll(Clear(b, gone));
      && |d| == |b| && Rectangular(d, rows) && GroundTells(d, rows, bounds.minX)
      && ClosedTo(d, rows, bounds.minX, |b|) == CloseUp(d, rows)
  {
    hide Group, Clear, CloseUp, FallAll, FallRange, GroundTells, ClosedTo, Covers, Grown, Fits, Reaches;
    GroupFacts(Kind(b, rows, kind), p);
    ExactBounds(b, rows, kind, bounds, gone, p);
    MovesSuffice(b, rows, gone, kind, bounds);
  }

  lemma ExactBounds(b: Board, rows: nat, kind: char, bounds: Bounds, gone: set<Cell>, p: Cell)
    requires Rectangular(b, rows) && gone <= Kind(b, rows, kind) && p in gone
    requires Covers(bounds, gone) && Grown(Bounds(p.col, p.col, p.row), bounds, gone)
    ensures Fits(gone, bounds.minX, bounds.maxX, bounds.maxY) && Reaches(bounds, gone)
    ensures 0 <= bounds.minX <= bounds.maxX < |b| && 0 <= bounds.maxY < rows
  {
  }

  lemma BoardCleared(b: Board, rows: nat, gone: set<Cell>, kind: char)
    requires GameBoard(b, rows) && kind != EMPTY
    ensures Rectangular(Clear(b, gone), rows)
  {
    KindCleared(b, rows, kind, gone);
  }

  lemma MovesSuffice(b: Board, rows: nat, gone: set<Cell>, kind: char, bounds: Bounds)
    requires GameBoard(b, rows) && kind != EMPTY && gone <= Kind(b, rows, kind)
    requires Fits(gone, bounds.minX, bounds.maxX, bounds.maxY)
    requires 0 <= bounds.minX <= bounds.maxX < |b| && 0 <= bounds.maxY < rows
    ensures Rectangular(Clear(b, gone), rows)
    ensures FallRange(Clear(b, gone), rows, bounds.minX, bounds.maxX, bounds.maxY + 1) == FallAll(Clear(b, gone))
    ensures var d := FallAll(Clear(b, gone));
      && |d| == |b| && Rectangular(d, rows) && GroundTells(d, rows, bounds.minX)
      && ClosedTo(d, rows, bounds.minX, |b|) == CloseUp(d, rows)
  {
    hide *;
    BoardCleared(b, rows, gone, kind);
    RangeSuffices(b, rows, gone, kind, bounds.minX, bounds.maxX, bounds.maxY);
    ClosingSuffices(b, rows, gone, kind, bounds);
  }

  lemma ClosingSuffices(b: Board, rows: nat, gone: set<Cell>, kind: char, bounds: Bounds)
    requires GameBoard(b, rows) && kind != EMPTY && gone <= Kind(b, rows, kind)
    requires Fits(gone, bounds.minX, bounds.maxX, bounds.maxY)
    requires 0 <= bounds.minX <= bounds.maxX < |b| && 0 <= bounds.maxY < rows
    requires Rectangular(Clear(b, gone), rows)
    ensures var d := FallAll(Clear(b, gone));
      && |d| == |b| && Rectangular(d, rows) && GroundTells(d, rows, bounds.minX)
      && ClosedTo(d, rows, bounds.minX, |b|) == CloseUp(d, rows)
  {
    hide *;
    LeftSuffices(b, rows, gone, kind, bounds.minX, bounds.maxX, bounds.maxY);
    FallenEnd(Clear(b, gone), rows, bounds.minX);
  }

  lemma FallenEnd(c: Board, rows: nat, minX: nat)
    requires Rectangular(c, rows) && rows > 0 && minX <= |c|
    ensures var d := FallAll(c);
      && Rectangular(d, rows) && GroundTells(d, rows, minX)
      && ClosedTo(d, rows, minX, |c|) == d[..minX] + CloseUp(d[minX..], rows)
  {
    hide CloseUp, FallAll, GroundTells, ClosedTo, AllSettled, Rectangular;
    FallenBoard(c, rows);
    SettledGround(FallAll(c), rows, minX);
    ClosedToEnd(FallAll(c), rows, minX);
  }

  lemma ClosedToEnd(d: Board, rows: nat, minX: nat)
    requires minX <= |d|
    ensures ClosedTo(d, rows, minX, |d|) == d[..minX] + CloseUp(d[minX..], rows)
  {
    hide CloseUp;
    assert d[minX..|d|] == d[minX..] && d[|d|..] == [];
  }

  lemma SettledGround(d: Board, rows: nat, minX: nat)
    requires Rectangular(d, rows) && AllSettled(d) && rows > 0
    ensures GroundTells(d, rows, minX)
  {
    forall j | minX <= j < |d| && |d[j]| == rows && d[j][rows - 1] == EMPTY ensures Vacant(d[j]) {
      assert d[j] in d && Settled(d[j]);
    }
  }
}

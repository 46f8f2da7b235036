/** What a reduce computes: the operators on bytes and their fold over the data of some ranks. */
module Collectives {
  import opened Prelude

  datatype Op = Max | Min | Sum | Prod

  function Combine(op: Op, a: Byte, b: Byte): Byte {
    match op
    case Max => if a >= b then a else b
    case Min => if a <= b then a else b
    case Sum => (a + b) % 256
    case Prod => (a * b) % 256
  }

  function Unit(op: Op): Byte {
    match op
    case Max => 0
    case Min => 255
    case Sum => 0
    case Prod => 1
  }

  lemma Distributes(q: int, m: int, y: int)
    ensures (256 * q + m) * y == 256 * (q * y) + m * y
  {
  }

  lemma ModShift(z: int, w: int)
    ensures (256 * w + z) % 256 == z % 256
  {
  }

  lemma ModMul(x: int, y: int)
    ensures (x % 256 * y) % 256 == (x * y) % 256
  {
    var q, m := x / 256, x % 256;
    Distributes(q, m, y);
    ModShift(m * y, q * y);
    assert x == 256 * q + m;
  }

  lemma MulTurn(a: int, b: int, c: int)
    ensures (a * b) * c == (b * c) * a
  {
  }

  lemma ProdAssociates(a: Byte, b: Byte, c: Byte)
    ensures Combine(Prod, Combine(Prod, a, b), c) == Combine(Prod, a, Combine(Prod, b, c))
  {
    var ab, bc := a * b, b * c;
    calc {
      (ab % 256 * c) % 256;
      { ModMul(ab, c); }
      (ab * c) % 256;
      { MulTurn(a, b, c); }
      (bc * a) % 256;
      { ModMul(bc, a); }
      (bc % 256 * a) % 256;
    }
    assert bc % 256 * a == a * (bc % 256);
  }

  lemma ProdLaws(a: Byte, b: Byte, c: Byte)
    ensures Combine(Prod, a, b) == Combine(Prod, b, a)
    ensures Combine(Prod, a, Unit(Prod)) == a
    ensures Combine(Prod, Combine(Prod, a, b), c) == Combine(Prod, a, Combine(Prod, b, c))
  {
    assert Combine(Prod, a, b) == Combine(Prod, b, a) by { assert a * b == b * a; }
    assert Combine(Prod, a, Unit(Prod)) == a by { assert a * 1 == a; }
    ProdAssociates(a, b, c);
  }

  lemma OtherLaws(op: Op, a: Byte, b: Byte, c: Byte)
    requires op != Prod
    ensures Combine(op, a, b) == Combine(op, b, a)
    ensures Combine(op, a, Unit(op)) == a
    ensures Combine(op, Combine(op, a, b), c) == Combine(op, a, Combine(op, b, c))
  {
    if op == Sum {
      WrapOnce(a + b);
      WrapOnce(b + c);
      WrapOnce((a + b) % 256 + c);
      WrapOnce(a + (b + c) % 256);
    }
  }

  lemma WrapOnce(x: int)
    requires 0 <= x < 512
    ensures x % 256 == if x < 256 then x else x - 256
  {
  }

  lemma CombineLaws(op: Op, a: Byte, b: Byte, c: Byte)
    ensures Combine(op, a, b) == Combine(op, b, a)
    ensures Combine(op, a, Unit(op)) == a
    ensures Combine(op, Combine(op, a, b), c) == Combine(op, a, Combine(op, b, c))
  {
    hide Combine;
    match op
    case Prod => ProdLaws(a, b, c);
    case _ => OtherLaws(op, a, b, c);
  }

  // ----- the fold of the data of some of the ranks

  /** The values of the ranks of p below n, combined in rank order. */
  function Fold(op: Op, d: seq<Byte>, n: nat, p: set<nat>): Byte
    requires n <= |d|
  {
    if n == 0 then Unit(op)
    else if n - 1 in p then Combine(op, Fold(op, d, n - 1, p), d[n - 1])
    else Fold(op, d, n - 1, p)
  }

  lemma {:induction false} FoldUnion(op: Op, d: seq<Byte>, n: nat, p: set<nat>, q: set<nat>)
    requires n <= |d| && p !! q
    ensures Fold(op, d, n, p + q) == Combine(op, Fold(op, d, n, p), Fold(op, d, n, q))
  {
    if n == 0 {
      CombineLaws(op, Unit(op), Unit(op), Unit(op));
    } else {
      FoldUnion(op, d, n - 1, p, q);
      var a, b, c := Fold(op, d, n - 1, p), Fold(op, d, n - 1, q), d[n - 1];
      CombineLaws(op, a, b, c);
      CombineLaws(op, a, c, b);
      CombineLaws(op, b, c, a);
    }
  }

  lemma {:induction false} FoldSingle(op: Op, d: seq<Byte>, n: nat, r: nat)
    requires n <= |d|
    ensures Fold(op, d, n, {r}) == if r < n then d[r] else Unit(op)
  {
    if n > 0 {
      FoldSingle(op, d, n - 1, r);
      CombineLaws(op, Unit(op), d[n - 1], Unit(op));
      CombineLaws(op, d[n - 1], Unit(op), Unit(op));
    }
  }

  type Rows = seq<seq<Byte>>

  predicate Rectangular(rows: Rows, size: nat) {
    |rows| == size > 0 && forall r :: 0 <= r < size ==> |rows[r]| == |rows[0]|
  }

  function Column(rows: Rows, size: nat, j: nat): seq<Byte>
    requires Rectangular(rows, size) && j < |rows[0]|
  {
    seq(size, r requires 0 <= r < size => rows[r][j])
  }

  /** Byte by byte, the fold of the rows of the ranks of p. */
  function FoldRows(op: Op, rows: Rows, size: nat, p: set<nat>): seq<Byte>
    requires Rectangular(rows, size)
  {
    seq(|rows[0]|, j requires 0 <= j < |rows[0]| => Fold(op, Column(rows, size, j), size, p))
  }

  function CombineRows(op: Op, a: seq<Byte>, b: seq<Byte>): seq<Byte> {
    seq(|a|, j requires 0 <= j < |a| => if j < |b| then Combine(op, a[j], b[j]) else a[j])
  }

  lemma FoldRowsUnion(op: Op, rows: Rows, size: nat, p: set<nat>, q: set<nat>)
    requires Rectangular(rows, size) && p !! q
    ensures FoldRows(op, rows, size, p + q)
         == CombineRows(op, FoldRows(op, rows, size, p), FoldRows(op, rows, size, q))
  {
    forall j | 0 <= j < |rows[0]|
      ensures FoldRows(op, rows, size, p + q)[j]
           == Combine(op, FoldRows(op, rows, size, p)[j], FoldRows(op, rows, size, q)[j])
    {
      FoldUnion(op, Column(rows, size, j), size, p, q);
    }
  }

  lemma FoldRowsSingle(op: Op, rows: Rows, size: nat, r: nat)
    requires Rectangular(rows, size) && r < size
    ensures FoldRows(op, rows, size, {r}) == rows[r]
  {
    forall j | 0 <= j < |rows[0]| ensures FoldRows(op, rows, size, {r})[j] == rows[r][j] {
      FoldSingle(op, Column(rows, size, j), size, r);
    }
  }

  /** The loop of reduce over the bytes of a received packet. */
  method CombineInto(op: Op, newSendData: array<Byte>, received: seq<Byte>)
    requires newSendData.Length == |received|
    modifies newSendData
    ensures newSendData[..] == CombineRows(op, old(newSendData[..]), received)
  {
    ghost var before := newSendData[..];
    for j := 0 to newSendData.Length
      invariant forall i :: 0 <= i < newSendData.Length ==>
        newSendData[i] == if i < j then Combine(op, before[i], received[i]) else before[i]
    {
      if op == Sum {
        var wide: int := newSendData[j] + received[j] as int;
        newSendData[j] := wide % 256;
      } else if op == Prod {
        var wide: int := newSendData[j] * received[j] as int;
        newSendData[j] := wide % 256;
      } else if op == Max {
        newSendData[j] := if newSendData[j] >= received[j] then newSendData[j] else received[j];
      } else {
        newSendData[j] := if newSendData[j] <= received[j] then newSendData[j] else received[j];
      }
    }
  }

  // ----- what the fold of all the ranks' values is, without the operators on bytes

  function SumOf(d: seq<Byte>): nat {
    if d == [] then 0 else SumOf(d[..|d| - 1]) + d[|d| - 1]
  }

  function ProductOf(d: seq<Byte>): nat {
    if d == [] then 1 else ProductOf(d[..|d| - 1]) * d[|d| - 1]
  }

  /** The greatest or the smallest of the values, or their sum or product in one byte. */
  predicate IsResult(op: Op, d: seq<Byte>, v: Byte) {
    match op
    case Max => v in d && forall i :: 0 <= i < |d| ==> v >= d[i]
    case Min => v in d && forall i :: 0 <= i < |d| ==> v <= d[i]
    case Sum => v == SumOf(d) % 256
    case Prod => v == ProductOf(d) % 256
  }

  lemma ModAdd(x: int, y: int)
    ensures (x % 256 + y) % 256 == (x + y) % 256
  {
    ModShift(x % 256 + y, x / 256);
  }

  lemma ResultOfOne(op: Op, x: Byte)
    ensures IsResult(op, [x], x)
  {
    assert [x][..0] == [];
  }

  /** Combining with one more value. */
  lemma ResultOfMore(op: Op, d: seq<Byte>, v: Byte, x: Byte)
    requires IsResult(op, d, v)
    ensures IsResult(op, d + [x], Combine(op, v, x))
  {
    var e := d + [x];
    assert e[..|d|] == d && e[|d|] == x;
    ModAdd(SumOf(d), x);
    ModMul(ProductOf(d), x);
  }

  lemma {:induction false} FoldAll(op: Op, d: seq<Byte>, n: nat, p: set<nat>)
    requires 0 < n <= |d| && forall q: nat :: q < n ==> q in p
    ensures IsResult(op, d[..n], Fold(op, d, n, p))
  {
    hide IsResult, Combine, Unit;
    var x := d[n - 1];
    if n == 1 {
      assert d[..1] == [x];
      assert Fold(op, d, 1, p) == Combine(op, Unit(op), x);
      CombineLaws(op, Unit(op), x, x);
      CombineLaws(op, x, x, x);
      ResultOfOne(op, x);
    } else {
      FoldAll(op, d, n - 1, p);
      assert d[..n] == d[..n - 1] + [x];
      ResultOfMore(op, d[..n - 1], Fold(op, d, n - 1, p), x);
    }
  }
}

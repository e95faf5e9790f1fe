/** The chunk arithmetic of the storage format: quotients, and quotients rounded up. */
module Arith {

  lemma DivBounds(a: nat, b: nat)
    requires b > 0
    ensures (a / b) * b <= a < (a / b) * b + b
    ensures a == (a / b) * b + a % b
  {
  }

  lemma MulMonotone(x: nat, y: nat, b: nat)
    requires x <= y
    ensures x * b <= y * b
  {
  }

  lemma Successor(x: int, y: int, b: int)
    requires x < y && b > 0
    ensures x * b + b <= y * b
  {
    assert (y - x - 1) * b >= 0;
    assert (y - x - 1) * b == y * b - x * b - b;
  }

  /** a / b is the only q with q*b <= a < q*b + b. */
  lemma DivUnique(a: nat, b: nat, q: nat)
    requires b > 0 && q * b <= a < q * b + b
    ensures a / b == q && a % b == a - q * b
  {
    var d := a / b;
    DivBounds(a, b);
    if d < q {
      Successor(d, q, b);
    } else if q < d {
      Successor(q, d, b);
    }
  }

  /** The (a + b - 1) / b the sources use for "number of chunks of size b". */
  function CeilDiv(a: nat, b: nat): nat
    requires b > 0
  {
    (a + b - 1) / b
  }

  /** Chunk i exists exactly when its first row does. */
  lemma CeilDivExists(a: nat, b: nat, i: nat)
    requires b > 0
    ensures i < CeilDiv(a, b) <==> i * b < a
  {
    var c := CeilDiv(a, b);
    DivBounds(a + b - 1, b);
    if i < c {
      Successor(i, c, b);
    } else {
      MulMonotone(c, i, b);
    }
  }

  /** Row r lies in an existing chunk. */
  lemma RowInChunk(a: nat, b: nat, r: nat)
    requires b > 0
    ensures r < a ==> r / b < CeilDiv(a, b)
  {
    DivBounds(r, b);
    CeilDivExists(a, b, r / b);
  }

  lemma DivMonotone(x: nat, y: nat, b: nat)
    requires b > 0 && x <= y
    ensures x / b <= y / b
  {
    DivBounds(x, b);
    DivBounds(y, b);
    if y / b < x / b {
      Successor(y / b, x / b, b);
    }
  }
}

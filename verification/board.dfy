/** The board of an N-in-a-row game: an N×N grid whose cells are either EMPTY or
    the id of the player who owns them. This module holds the position predicates
    (`valid`, `available`), the single-cell update a move performs, and the counting
    and flattening views of a board that the game state relies on. */
module Board {

  /** The marker of a cell that no player owns. */
  const EMPTY: int := -1

  /** Rows indexed by x, cells of a row indexed by y. */
  type Grid = seq<seq<int>>

  /** Every row is as long as the board has rows; the side of the board is |b|. */
  predicate Square(b: Grid) {
    forall i :: 0 <= i < |b| ==> |b[i]| == |b|
  }

  /** Both coordinates lie in [0, side), where the side is read off the board itself. */
  predicate Valid(b: Grid, x: int, y: int) {
    0 <= x < |b| && 0 <= y < |b|
  }

  /** A cell a move may be played on: in range and not owned by anyone. */
  function Available(b: Grid, x: int, y: int): (r: bool)
    requires Square(b)
    ensures r <==> 0 <= x < |b| && 0 <= y < |b| && b[x][y] == EMPTY
  {
    Valid(b, x, y) && b[x][y] == EMPTY
  }

  /** Every cell is EMPTY or the id of one of `players` players. */
  predicate CellsOwnedBy(b: Grid, players: int) {
    forall i, j :: 0 <= i < |b| && 0 <= j < |b[i]| ==> b[i][j] == EMPTY || 0 <= b[i][j] < players
  }

  /** No cell of the board is EMPTY. */
  predicate Full(b: Grid) {
    forall i, j :: 0 <= i < |b| && 0 <= j < |b[i]| ==> b[i][j] != EMPTY
  }

  /** The n×n board with every cell EMPTY. */
  function EmptyBoard(n: nat): (b: Grid)
    ensures |b| == n && Square(b)
    ensures forall i, j :: 0 <= i < n && 0 <= j < n ==> b[i][j] == EMPTY
  {
    seq(n, _ => seq(n, _ => EMPTY))
  }

  /** The board with cell (x, y) set to v. */
  function Place(b: Grid, x: int, y: int, v: int): (b': Grid)
    requires Square(b) && Valid(b, x, y)
    ensures |b'| == |b| && Square(b')
    ensures b'[x][y] == v
    ensures forall i, j :: 0 <= i < |b| && 0 <= j < |b| && (i != x || j != y) ==> b'[i][j] == b[i][j]
  {
    b[x := b[x][y := v]]
  }

  /** Number of non-EMPTY cells in one row. */
  function RowFilled(r: seq<int>): nat {
    if |r| == 0 then 0 else (if r[0] != EMPTY then 1 else 0) + RowFilled(r[1..])
  }

  /** Number of non-EMPTY cells on the board. */
  function Filled(b: Grid): nat {
    if |b| == 0 then 0 else RowFilled(b[0]) + Filled(b[1..])
  }

  /** The board read row after row, as numpy's `flatten` lays it out. */
  function Flatten(b: Grid): seq<int> {
    if |b| == 0 then [] else b[0] + Flatten(b[1..])
  }

  /** Indices k.. of f that hold EMPTY, in ascending order. */
  function EmptyIndices(f: seq<int>, k: nat): (r: seq<int>)
    requires k <= |f|
    ensures forall i, j :: 0 <= i < j < |r| ==> r[i] < r[j]
    ensures forall i :: i in r <==> k <= i < |f| && f[i] == EMPTY
    decreases |f| - k
  {
    if k == |f| then []
    else if f[k] == EMPTY then
      var rest := EmptyIndices(f, k + 1);
      assert forall j :: 0 <= j < |rest| ==> k < rest[j] by {
        forall j | 0 <= j < |rest|
          ensures k < rest[j]
        {
          assert rest[j] in rest;
        }
      }
      [k] + rest
    else EmptyIndices(f, k + 1)
  }

  /** Two square boards of the same side with the same cells are the same board. */
  lemma SameCells(b: Grid, c: Grid)
    requires Square(b) && Square(c) && |b| == |c|
    requires forall i, j :: 0 <= i < |b| && 0 <= j < |b| ==> b[i][j] == c[i][j]
    ensures b == c
  {
    forall i | 0 <= i < |b|
      ensures b[i] == c[i]
    {
      assert |b[i]| == |c[i]|;
    }
  }

  lemma {:induction false} RowFilledBound(r: seq<int>)
    ensures RowFilled(r) <= |r|
    ensures RowFilled(r) == |r| <==> forall j :: 0 <= j < |r| ==> r[j] != EMPTY
  {
    if |r| > 0 {
      RowFilledBound(r[1..]);
      assert forall j :: 1 <= j < |r| ==> r[j] == r[1..][j - 1];
    }
  }

  /** At most side² cells are filled, and exactly side² only when the board is full. */
  lemma {:induction false} FilledBound(b: Grid, n: nat)
    requires forall i :: 0 <= i < |b| ==> |b[i]| == n
    ensures Filled(b) <= |b| * n
    ensures Filled(b) == |b| * n <==> Full(b)
  {
    if |b| > 0 {
      RowFilledBound(b[0]);
      FilledBound(b[1..], n);
      MulSucc(|b| - 1, n);
      FullCons(b);
    }
  }

  /** A board is full when its first row is and the remaining rows are. */
  lemma FullCons(b: Grid)
    requires |b| > 0
    ensures Full(b) <==> (forall j :: 0 <= j < |b[0]| ==> b[0][j] != EMPTY) && Full(b[1..])
  {
    assert forall i :: 1 <= i < |b| ==> b[i] == b[1..][i - 1];
  }

  lemma MulSucc(m: int, n: int)
    ensures (m + 1) * n == n + m * n
  {
  }

  lemma {:induction false} RowFilledNone(r: seq<int>)
    requires forall j :: 0 <= j < |r| ==> r[j] == EMPTY
    ensures RowFilled(r) == 0
  {
    if |r| > 0 {
      RowFilledNone(r[1..]);
    }
  }

  /** A board with every cell EMPTY has no filled cell. */
  lemma {:induction false} FilledNone(b: Grid)
    requires forall i, j :: 0 <= i < |b| && 0 <= j < |b[i]| ==> b[i][j] == EMPTY
    ensures Filled(b) == 0
  {
    if |b| > 0 {
      RowFilledNone(b[0]);
      assert forall i :: 1 <= i < |b| ==> b[1..][i - 1] == b[i];
      FilledNone(b[1..]);
    }
  }

  lemma {:induction false} RowFilledUpdate(r: seq<int>, j: nat, v: int)
    requires j < |r| && r[j] == EMPTY && v != EMPTY
    ensures RowFilled(r[j := v]) == RowFilled(r) + 1
  {
    if j > 0 {
      assert r[j := v][1..] == r[1..][j - 1 := v];
      RowFilledUpdate(r[1..], j - 1, v);
    } else {
      assert r[j := v][1..] == r[1..];
    }
  }

  /** Claiming one EMPTY cell raises the filled count by exactly one. */
  lemma {:induction false} FilledPlace(b: Grid, x: int, y: int, v: int)
    requires Square(b) && Valid(b, x, y) && b[x][y] == EMPTY && v != EMPTY
    ensures Filled(Place(b, x, y, v)) == Filled(b) + 1
  {
    FilledUpdate(b, x, y, v);
  }

  lemma {:induction false} FilledUpdate(b: Grid, x: nat, y: nat, v: int)
    requires x < |b| && y < |b[x]| && b[x][y] == EMPTY && v != EMPTY
    ensures Filled(b[x := b[x][y := v]]) == Filled(b) + 1
  {
    if x > 0 {
      assert b[x := b[x][y := v]][1..] == b[1..][x - 1 := b[1..][x - 1][y := v]];
      FilledUpdate(b[1..], x - 1, y, v);
    } else {
      RowFilledUpdate(b[0], y, v);
      assert b[x := b[x][y := v]][1..] == b[1..];
    }
  }

  /** Placing a player's id keeps every cell EMPTY or a player id. */
  lemma PlaceKeepsOwners(b: Grid, x: int, y: int, v: int, players: int)
    requires Square(b) && Valid(b, x, y) && CellsOwnedBy(b, players) && 0 <= v < players
    ensures CellsOwnedBy(Place(b, x, y, v), players)
  {
  }

  /** Flattened index i holds cell (i / n, i % n): the row-major layout. */
  lemma {:induction false} FlattenIndex(b: Grid, n: nat, i: int)
    requires n > 0 && forall r :: 0 <= r < |b| ==> |b[r]| == n
    requires 0 <= i < |b| * n
    ensures |Flatten(b)| == |b| * n
    ensures 0 <= i / n < |b| && Flatten(b)[i] == b[i / n][i % n]
  {
    FlattenLength(b, n);
    MulSucc(|b| - 1, n);
    if i < n {
      DivUnique(n, 0, i);
    } else {
      FlattenIndex(b[1..], n, i - n);
      DivModShift(i, n);
      FlattenCons(b, i);
    }
  }

  /** Past the first row, the flattened board continues with the flattened remaining rows. */
  lemma FlattenCons(b: Grid, i: int)
    requires |b| > 0 && |b[0]| <= i < |Flatten(b)|
    ensures Flatten(b)[i] == Flatten(b[1..])[i - |b[0]|]
  {
  }

  /** Cell (x, y) of a square board sits at index |b| * x + y of the flattened board. */
  lemma FlatCell(b: Grid, x: int, y: int)
    requires Square(b) && Valid(b, x, y)
    ensures 0 <= |b| * x + y < |Flatten(b)| && Flatten(b)[|b| * x + y] == b[x][y]
  {
    var n := |b|;
    DivUnique(n, x, y);
    DecodeRange(n * x + y, n);
    FlattenIndex(b, n, n * x + y);
  }

  /** Read through the row-major layout, the cells a move may go on are exactly the on-board
      cells whose flattened index is listed among the EMPTY positions of the board. */
  lemma AvailableIffListed(b: Grid, x: int, y: int)
    requires Square(b)
    ensures Available(b, x, y) <==> Valid(b, x, y) && |b| * x + y in EmptyIndices(Flatten(b), 0)
  {
    if Valid(b, x, y) {
      FlatCell(b, x, y);
    }
  }

  lemma {:induction false} FlattenLength(b: Grid, n: nat)
    requires forall r :: 0 <= r < |b| ==> |b[r]| == n
    ensures |Flatten(b)| == |b| * n
  {
    if |b| > 0 {
      FlattenLength(b[1..], n);
    }
  }

  lemma {:induction false} MulAtLeast(n: int, k: int)
    requires n > 0 && k >= 1
    ensures n * k >= n
  {
    if k > 1 {
      MulAtLeast(n, k - 1);
      assert n * k == n * (k - 1) + n;
    }
  }

  /** Division by a positive n has a unique quotient and remainder. */
  lemma DivUnique(n: int, a: int, r: int)
    requires n > 0 && 0 <= r < n
    ensures (n * a + r) / n == a && (n * a + r) % n == r
  {
    var i := n * a + r;
    var q, m := i / n, i % n;
    assert n * (q - a) == r - m;
    if q > a {
      MulAtLeast(n, q - a);
    } else if q < a {
      MulAtLeast(n, a - q);
    }
  }

  lemma DivModShift(i: int, n: int)
    requires n > 0 && i >= n
    ensures (i - n) / n + 1 == i / n && (i - n) % n == i % n
  {
    var q, m := i / n, i % n;
    assert i - n == n * (q - 1) + m;
    DivUnique(n, q - 1, m);
  }

  lemma {:induction false} MulNonneg(n: nat, k: nat)
    ensures n * k >= 0
  {
    if k > 0 {
      MulNonneg(n, k - 1);
      assert n * k == n * (k - 1) + n;
    }
  }

  lemma MulLe(n: nat, a: int, b: int)
    requires a <= b
    ensures n * a <= n * b
  {
    MulNonneg(n, b - a);
    assert n * b == n * a + n * (b - a);
  }

  lemma DecodeInside(i: int, n: int)
    requires n > 0 && 0 <= i / n < n
    ensures 0 <= i < n * n
  {
    var q, m := i / n, i % n;
    assert i == n * q + m && 0 <= m < n;
    MulLe(n, 0, q);
    MulLe(n, q, n - 1);
    assert n * (n - 1) == n * n - n;
  }

  lemma EncodeInside(i: int, n: int)
    requires n > 0 && 0 <= i < n * n
    ensures 0 <= i / n < n
  {
    var q, m := i / n, i % n;
    assert i == n * q + m && 0 <= m < n;
    if q < 0 {
      MulLe(n, q, -1);
    } else if q >= n {
      MulLe(n, n, q);
    }
  }

  /** An index decodes into the n×n grid exactly when it lies in [0, n²);
      in particular every negative index and every index from n² on decodes out of range. */
  lemma DecodeRange(i: int, n: int)
    requires n > 0
    ensures (0 <= i / n < n) <==> 0 <= i < n * n
    ensures 0 <= i % n < n
  {
    if 0 <= i / n < n {
      DecodeInside(i, n);
    }
    if 0 <= i < n * n {
      EncodeInside(i, n);
    }
  }
}

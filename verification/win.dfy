/** Win detection: does the stone at a position complete a line of `numWin`
    same-owner cells along one of the four axes through it?

    `Run` is the reference definition of a one-sided run; `CheckLines` and
    `CheckWin` are the walking loops of the original, proved to agree with it. */
module Win {
  import opened Board

  /** A step on the grid: x moves along rows, y along columns. */
  datatype Dir = Dir(dx: int, dy: int) {
    /** One of the eight steps to a neighbouring cell. */
    predicate Unit() {
      -1 <= dx <= 1 && -1 <= dy <= 1 && (dx != 0 || dy != 0)
    }

    function Neg(): Dir {
      Dir(-dx, -dy)
    }
  }

  /** The four axes, in the order the original checks them. */
  const Axes: seq<Dir> := [Dir(1, 0), Dir(0, 1), Dir(1, 1), Dir(1, -1)]

  /** Cells from (x, y) inclusive to the edge of an n-board along the moving component of d. */
  function ToEdge(n: int, x: int, y: int, d: Dir): int {
    if d.dx == 1 then n - x
    else if d.dx == -1 then x + 1
    else if d.dy == 1 then n - y
    else y + 1
  }

  /** The coordinate k steps of size dx away from x. */
  function Along(x: int, dx: int, k: int): int {
    x + k * dx
  }

  /** The k-th cell from (x, y) along d is on the board and owned by p. */
  predicate Owned(b: Grid, p: int, x: int, y: int, d: Dir, k: int)
    requires Square(b)
  {
    Valid(b, Along(x, d.dx, k), Along(y, d.dy, k)) && b[Along(x, d.dx, k)][Along(y, d.dy, k)] == p
  }

  /** Number of consecutive cells owned by p, starting at (x, y) inclusive and stepping along d. */
  function Run(b: Grid, x: int, y: int, d: Dir, p: int): (r: nat)
    requires Square(b) && d.Unit()
    ensures Valid(b, x, y) ==> r <= ToEdge(|b|, x, y, d)
    ensures !Valid(b, x, y) ==> r == 0
    ensures r <= |b|
    decreases if Valid(b, x, y) then ToEdge(|b|, x, y, d) else 0
  {
    if Valid(b, x, y) && b[x][y] == p then 1 + Run(b, x + d.dx, y + d.dy, d, p) else 0
  }

  /** Run is exactly the length of the maximal owned prefix of the ray from (x, y) along d. */
  lemma {:induction false} RunIsMaximalPrefix(b: Grid, x: int, y: int, d: Dir, p: int, r: int)
    requires Square(b) && d.Unit()
    ensures Run(b, x, y, d, p) == r <==>
              r >= 0 && (forall k :: 0 <= k < r ==> Owned(b, p, x, y, d, k)) && !Owned(b, p, x, y, d, r)
  {
    var run := Run(b, x, y, d, p);
    RunPrefix(b, x, y, d, p);
    if r >= 0 && (forall k :: 0 <= k < r ==> Owned(b, p, x, y, d, k)) && !Owned(b, p, x, y, d, r) {
      assert !(r < run);
      assert !(r > run);
    }
  }

  /** The cells counted by Run are owned, and the first cell past them is not. */
  lemma RunPrefix(b: Grid, x: int, y: int, d: Dir, p: int)
    requires Square(b) && d.Unit()
    ensures forall k :: 0 <= k < Run(b, x, y, d, p) ==> Owned(b, p, x, y, d, k)
    ensures !Owned(b, p, x, y, d, Run(b, x, y, d, p))
  {
    forall k | 0 <= k < Run(b, x, y, d, p)
      ensures Owned(b, p, x, y, d, k)
    {
      RunOwnedAt(b, x, y, d, p, k);
    }
    RunStops(b, x, y, d, p);
  }

  /** The k-th cell of the ray is owned when the run is longer than k. */
  lemma {:induction false} RunOwnedAt(b: Grid, x: int, y: int, d: Dir, p: int, k: int)
    requires Square(b) && d.Unit() && 0 <= k < Run(b, x, y, d, p)
    ensures Owned(b, p, x, y, d, k)
    decreases k
  {
    var x', y' := x + d.dx, y + d.dy;
    RunHead(b, x, y, d, p);
    if k == 0 {
      AlongZero(x, y, d);
    } else {
      RunOwnedAt(b, x', y', d, p, k - 1);
      Shift(b, p, x, y, d, k - 1);
    }
  }

  /** The cell just past the run is off the board or not owned. */
  lemma {:induction false} RunStops(b: Grid, x: int, y: int, d: Dir, p: int)
    requires Square(b) && d.Unit()
    ensures !Owned(b, p, x, y, d, Run(b, x, y, d, p))
    decreases if Valid(b, x, y) then ToEdge(|b|, x, y, d) else 0
  {
    if Valid(b, x, y) && b[x][y] == p {
      RunHead(b, x, y, d, p);
      RunStops(b, x + d.dx, y + d.dy, d, p);
      Shift(b, p, x, y, d, Run(b, x + d.dx, y + d.dy, d, p));
    } else {
      AlongZero(x, y, d);
    }
  }

  /** A non-empty run starts with an owned cell and continues from the next one. */
  lemma RunHead(b: Grid, x: int, y: int, d: Dir, p: int)
    requires Square(b) && d.Unit() && Run(b, x, y, d, p) > 0
    ensures Valid(b, x, y) && b[x][y] == p
    ensures Run(b, x, y, d, p) == 1 + Run(b, x + d.dx, y + d.dy, d, p)
  {
  }

  lemma AlongZero(x: int, y: int, d: Dir)
    ensures Along(x, d.dx, 0) == x && Along(y, d.dy, 0) == y
  {
  }

  /** Stepping the start once along d shifts the ray by one cell. */
  lemma Shift(b: Grid, p: int, x: int, y: int, d: Dir, k: int)
    requires Square(b)
    ensures Owned(b, p, x + d.dx, y + d.dy, d, k) == Owned(b, p, x, y, d, k + 1)
  {
    assert Along(x + d.dx, d.dx, k) == Along(x, d.dx, k + 1);
    assert Along(y + d.dy, d.dy, k) == Along(y, d.dy, k + 1);
  }

  /** Length of the line through (x, y) along the axis d, counted in both senses;
      the start cell is counted by both runs, hence the minus one. */
  function LineLength(b: Grid, x: int, y: int, d: Dir): int
    requires Square(b) && Valid(b, x, y) && d.Unit()
  {
    Run(b, x, y, d, b[x][y]) + Run(b, x, y, d.Neg(), b[x][y]) - 1
  }

  /** A line holds at least the start stone and fits on the board. */
  lemma LineLengthBounds(b: Grid, x: int, y: int, d: Dir)
    requires Square(b) && Valid(b, x, y) && d.Unit()
    ensures 1 <= LineLength(b, x, y, d) <= |b|
  {
  }

  /** Some axis among `dirs` holds a line of at least k stones through (x, y). */
  predicate WinsAlong(b: Grid, x: int, y: int, k: int, dirs: seq<Dir>)
    requires Square(b) && Valid(b, x, y)
    requires forall i :: 0 <= i < |dirs| ==> dirs[i].Unit()
  {
    exists i :: 0 <= i < |dirs| && LineLength(b, x, y, dirs[i]) >= k
  }

  /** The win condition: some one of the four axes holds at least k stones in a row through (x, y). */
  predicate Wins(b: Grid, x: int, y: int, k: int)
    requires Square(b) && Valid(b, x, y)
  {
    WinsAlong(b, x, y, k, Axes)
  }

  /** A win along some axes is a win along any list that contains those axes. */
  lemma WinsAlongMore(b: Grid, x: int, y: int, k: int, dirs: seq<Dir>, more: seq<Dir>)
    requires Square(b) && Valid(b, x, y)
    requires forall i :: 0 <= i < |dirs| ==> dirs[i].Unit()
    requires forall i :: 0 <= i < |more| ==> more[i].Unit()
    requires forall d :: d in dirs ==> d in more
    requires WinsAlong(b, x, y, k, dirs)
    ensures WinsAlong(b, x, y, k, more)
  {
    var i :| 0 <= i < |dirs| && LineLength(b, x, y, dirs[i]) >= k;
    assert dirs[i] in more;
    var j :| 0 <= j < |more| && more[j] == dirs[i];
    assert LineLength(b, x, y, more[j]) >= k;
  }

  /** The win condition depends only on which axes are checked, not on their order. */
  lemma WinsOrderFree(b: Grid, x: int, y: int, k: int, dirs: seq<Dir>)
    requires Square(b) && Valid(b, x, y)
    requires forall d :: d in dirs <==> d in Axes
    ensures forall i :: 0 <= i < |dirs| ==> dirs[i].Unit()
    ensures WinsAlong(b, x, y, k, dirs) <==> Wins(b, x, y, k)
  {
    forall i | 0 <= i < |dirs|
      ensures dirs[i].Unit()
    {
      assert dirs[i] in Axes;
    }
    if WinsAlong(b, x, y, k, dirs) {
      WinsAlongMore(b, x, y, k, dirs, Axes);
    }
    if Wins(b, x, y, k) {
      WinsAlongMore(b, x, y, k, Axes, dirs);
    }
  }

  /** Every stone is a line of one, so a threshold of at most one is met by any move. */
  lemma WinsBelowOne(b: Grid, x: int, y: int, k: int)
    requires Square(b) && Valid(b, x, y) && k <= 1
    ensures Wins(b, x, y, k)
  {
    LineLengthBounds(b, x, y, Axes[0]);
  }

  /** No line is longer than the board side, so a threshold above it is never met. */
  lemma NoWinAboveSide(b: Grid, x: int, y: int, k: int)
    requires Square(b) && Valid(b, x, y) && k > |b|
    ensures !Wins(b, x, y, k)
  {
    forall i | 0 <= i < |Axes|
      ensures LineLength(b, x, y, Axes[i]) < k
    {
      LineLengthBounds(b, x, y, Axes[i]);
    }
  }

  /** The walk of `_check_lines`: count owned cells from (x, y) along d, minus one. */
  method CheckLines(b: Grid, x: int, y: int, d: Dir, p: int) returns (c: int)
    requires Square(b) && d.Unit()
    ensures c == Run(b, x, y, d, p) - 1
  {
    var cx, cy := x, y;
    var count := 0;
    while Valid(b, cx, cy)
      invariant count + Run(b, cx, cy, d, p) == Run(b, x, y, d, p)
      decreases if Valid(b, cx, cy) then ToEdge(|b|, cx, cy, d) else 0
    {
      if b[cx][cy] == p {
        cx, cy := cx + d.dx, cy + d.dy;
        count := count + 1;
      } else {
        break;
      }
    }
    c := count - 1;
  }

  /** Check the axes of `dirs` in order and report a win at the first one long enough. */
  method ScanAxes(b: Grid, x: int, y: int, k: int, dirs: seq<Dir>) returns (w: bool)
    requires Square(b) && Valid(b, x, y)
    requires forall i :: 0 <= i < |dirs| ==> dirs[i].Unit()
    ensures w <==> WinsAlong(b, x, y, k, dirs)
  {
    var p := b[x][y];
    for i := 0 to |dirs|
      invariant forall j :: 0 <= j < i ==> LineLength(b, x, y, dirs[j]) < k
    {
      var sum1 := CheckLines(b, x, y, dirs[i], p);
      var sum2 := CheckLines(b, x, y, dirs[i].Neg(), p);
      assert sum1 + sum2 + 1 == LineLength(b, x, y, dirs[i]);
      if sum1 + sum2 >= k - 1 {
        return true;
      }
    }
    return false;
  }

  /** `check_win`: the four axes scanned in the original's order decide the win condition. */
  method CheckWin(b: Grid, pos: (int, int), k: int) returns (w: bool)
    requires Square(b) && Valid(b, pos.0, pos.1)
    ensures w <==> Wins(b, pos.0, pos.1, k)
  {
    w := ScanAxes(b, pos.0, pos.1, k, Axes);
  }
}

/**
 * `MoveVehicle.h`: a Rush-hour board and the move of one vehicle on it.
 * The original computes at compile time with templates over type lists;
 * here the board is a grid of cells, `GetAtIndex`/`SetAtIndex` are sequence
 * index and update, `Transpose` swaps rows and columns, and every
 * compile-time error (a failed `static_assert`, an index the list does not
 * have) is an `Err` naming the reason.
 */
module RushHour {
  import opened Wrappers

  datatype Direction = UP | DOWN | LEFT | RIGHT

  /** A cell's type: `EMPTY` or one of the vehicles (their colour names are not part of this model). */
  datatype CellType = EMPTY | Vehicle(id: nat)

  /** `BoardCell<type, direction, length>`. */
  datatype BoardCell = BoardCell(kind: CellType, direction: Direction, length: int)

  /** A board is its list of rows. */
  type Board = seq<seq<BoardCell>>

  /** Why a move does not compile. */
  datatype MoveError =
    | NegativeAmount     // "amount of steps must be non negative", or a recursion that never reaches 0
    | EmptyMove          // "EMPTY CellType cannot be moved"
    | RowOutOfRange      // "Error Row, Move"
    | ColumnOutOfRange   // "Error column, Move"
    | EmptyStart         // "Error, empty cell MoveVehicle"
    | WrongAxis          // "Error, direction cell MoveVehicle"
    | NotFound           // "Type was not found!"
    | Collision          // "Error, Collision cell MoveVehicle"
    | OffBoard           // an index past the end of a row or of the board

  /** `GameBoard<B>::width`: the length of the first row. */
  function Width(b: Board): nat
  {
    if b == [] then 0 else |b[0]|
  }

  /** Every row is as long as the first one. */
  predicate Rect(b: Board)
  {
    forall i :: 0 <= i < |b| ==> |b[i]| == Width(b)
  }

  predicate Horizontal(d: Direction)
  {
    d == LEFT || d == RIGHT
  }

  /** The empty cell a step leaves behind. */
  function Blank(d: Direction): BoardCell
  {
    BoardCell(EMPTY, d, 1)
  }

  // ---------------------------------------------------------------------
  // Move
  // ---------------------------------------------------------------------

  datatype Move = Move(kind: CellType, direction: Direction, amount: int)

  /** `Move<t, d, a>`: compiles only for a non-negative amount and a non-EMPTY type. */
  function MakeMove(kind: CellType, d: Direction, amount: int): (r: Result<Move, MoveError>)
    ensures r.Ok? <==> amount >= 0 && kind != EMPTY
    ensures r.Ok? ==> r.value.kind == kind && r.value.direction == d && r.value.amount == amount
    ensures amount < 0 ==> r == Err(NegativeAmount)
    ensures amount >= 0 && kind == EMPTY ==> r == Err(EmptyMove)
  {
    if amount < 0 then Err(NegativeAmount)
    else if kind == EMPTY then Err(EmptyMove)
    else Ok(Move(kind, d, amount))
  }

  // ---------------------------------------------------------------------
  // FindCar
  // ---------------------------------------------------------------------

  /** Cell `(i, j)` comes before cell `(r, c)` in row-major order. */
  predicate Before(i: int, j: int, r: int, c: int)
  {
    i < r || (i == r && j < c)
  }

  /**
   * `Find_Car_Helper<type, _, row, col, ...>`: the scan from `(row, col)`
   * to the last cell, row by row; `None` is the "Type was not found!" error.
   */
  function FindFrom(b: Board, t: CellType, row: nat, col: nat): (r: Option<(nat, nat)>)
    requires Rect(b) && row < |b| && col < Width(b)
    ensures r.Some? ==>
      && r.value.0 < |b| && r.value.1 < Width(b)
      && !Before(r.value.0, r.value.1, row, col)
      && b[r.value.0][r.value.1].kind == t
      && forall i, j :: 0 <= i < |b| && 0 <= j < Width(b) && !Before(i, j, row, col) && Before(i, j, r.value.0, r.value.1)
           ==> b[i][j].kind != t
    ensures r.None? ==>
      forall i, j :: 0 <= i < |b| && 0 <= j < Width(b) && !Before(i, j, row, col) ==> b[i][j].kind != t
    decreases |b| - row, Width(b) - col
  {
    if b[row][col].kind == t then Some((row, col))
    else if row + 1 == |b| && col + 1 == Width(b) then None
    else if col + 1 == Width(b) then FindFrom(b, t, row + 1, 0)
    else FindFrom(b, t, row, col + 1)
  }

  /**
   * `FindCar<type, B>`: the first cell in row-major order holding `t`. A
   * board without cells has no first cell to start from.
   */
  function FindCar(b: Board, t: CellType): (r: Option<(nat, nat)>)
    requires Rect(b)
    ensures r.Some? ==>
      && r.value.0 < |b| && r.value.1 < Width(b)
      && b[r.value.0][r.value.1].kind == t
      && forall i, j :: 0 <= i < |b| && 0 <= j < Width(b) && Before(i, j, r.value.0, r.value.1) ==> b[i][j].kind != t
    ensures r.None? <==> forall i, j :: 0 <= i < |b| && 0 <= j < Width(b) ==> b[i][j].kind != t
  {
    if b == [] || Width(b) == 0 then None else FindFrom(b, t, 0, 0)
  }

  // ---------------------------------------------------------------------
  // Dir
  // ---------------------------------------------------------------------

  /**
   * `Dir<d, row, col, len>`: the cell at the other end of a car whose first
   * cell is `(row, col)`. Both horizontal directions give `col + len - 1`
   * and both vertical ones `row + len - 1`: the end furthest from the
   * first cell, whichever way the car moves.
   */
  function FarEnd(d: Direction, row: int, col: int, len: int): (e: (int, int))
    ensures Horizontal(d) ==> e.0 == row && e.1 - col == len - 1
    ensures !Horizontal(d) ==> e.1 == col && e.0 - row == len - 1
  {
    match d
    case RIGHT => (row, col + (len - 1))
    case LEFT => (row, col + len - 1)
    case UP => (row + len - 1, col)
    case DOWN => (row + len - 1, col)
  }

  // ---------------------------------------------------------------------
  // Transpose
  // ---------------------------------------------------------------------

  /** `Transpose<L>::matrix`: row `j` of the result is column `j` of `b`. */
  function Transpose(b: Board): (t: Board)
    requires Rect(b)
    ensures Rect(t) && |t| == Width(b)
    ensures |t| > 0 ==> Width(t) == |b|
    ensures forall i, j :: 0 <= i < |b| && 0 <= j < Width(b) ==> t[j][i] == b[i][j]
  {
    seq(Width(b), j requires 0 <= j < Width(b) => seq(|b|, i requires 0 <= i < |b| => b[i][j]))
  }

  /** Transposing twice gives the board back, unless its rows are empty (then nothing is left to turn back). */
  lemma TransposeTwice(b: Board)
    requires Rect(b) && (b == [] || Width(b) > 0)
    ensures Transpose(Transpose(b)) == b
  {
    var t := Transpose(b);
    var tt := Transpose(t);
    if b != [] {
      assert |tt| == |b|;
      forall i | 0 <= i < |b|
        ensures tt[i] == b[i]
      {
        assert |tt[i]| == |b[i]|;
        forall j | 0 <= j < |b[i]|
          ensures tt[i][j] == b[i][j]
        {
          assert tt[i][j] == t[j][i];
        }
      }
    }
  }

  // ---------------------------------------------------------------------
  // direct<RIGHT> and direct<LEFT>
  // ---------------------------------------------------------------------

  /**
   * Step `k` of `direct<RIGHT, ...>` on the board `m` the earlier steps
   * produced: the cell `co2 + k` of row `ro1` must be EMPTY; it takes the
   * car cell and the cell `co1 + k - 1` becomes an EMPTY cell.
   */
  function StepRight(m: Board, car: BoardCell, co1: int, ro1: int, co2: int, k: int): (r: Result<Board, MoveError>)
    requires Rect(m)
    ensures r.Ok? ==> Rect(r.value) && |r.value| == |m| && Width(r.value) == Width(m)
    ensures r.Ok? <==> 0 <= ro1 < |m| && 0 <= co2 + k < Width(m) && m[ro1][co2 + k].kind == EMPTY
                       && 0 <= co1 + k - 1 < Width(m)
  {
    var target := co2 + k;
    var vacated := co1 + k - 1;
    if !(0 <= ro1 < |m|) || !(0 <= target < Width(m)) then Err(OffBoard)
    else if m[ro1][target].kind != EMPTY then Err(Collision)
    else if !(0 <= vacated < Width(m)) then Err(OffBoard)
    else Ok(m[ro1 := m[ro1][target := car][vacated := Blank(RIGHT)]])
  }

  /** `direct<RIGHT, counter, ...>::moved`: steps `1..counter` in order; zero steps leave the board as it is. */
  function SlideRight(b: Board, car: BoardCell, co1: int, ro1: int, co2: int, counter: nat): (r: Result<Board, MoveError>)
    requires Rect(b)
    ensures r.Ok? ==> Rect(r.value) && |r.value| == |b| && Width(r.value) == Width(b)
    ensures counter == 0 ==> r == Ok(b)
  {
    if counter == 0 then Ok(b)
    else
      match SlideRight(b, car, co1, ro1, co2, counter - 1)
      case Err(e) => Err(e)
      case Ok(m) => StepRight(m, car, co1, ro1, co2, counter)
  }

  /** Step `k` of `direct<LEFT, ...>`: the target is `co1 - k` and the cell `co2 - k + 1` is cleared. */
  function StepLeft(m: Board, car: BoardCell, co1: int, ro1: int, co2: int, k: int): (r: Result<Board, MoveError>)
    requires Rect(m)
    ensures r.Ok? ==> Rect(r.value) && |r.value| == |m| && Width(r.value) == Width(m)
    ensures r.Ok? <==> 0 <= ro1 < |m| && 0 <= co1 - k < Width(m) && m[ro1][co1 - k].kind == EMPTY
                       && 0 <= co2 - k + 1 < Width(m)
  {
    var target := co1 - k;
    var vacated := co2 - k + 1;
    if !(0 <= ro1 < |m|) || !(0 <= target < Width(m)) then Err(OffBoard)
    else if m[ro1][target].kind != EMPTY then Err(Collision)
    else if !(0 <= vacated < Width(m)) then Err(OffBoard)
    else Ok(m[ro1 := m[ro1][target := car][vacated := Blank(LEFT)]])
  }

  /** `direct<LEFT, counter, ...>::moved`. */
  function SlideLeft(b: Board, car: BoardCell, co1: int, ro1: int, co2: int, counter: nat): (r: Result<Board, MoveError>)
    requires Rect(b)
    ensures r.Ok? ==> Rect(r.value) && |r.value| == |b| && Width(r.value) == Width(b)
    ensures counter == 0 ==> r == Ok(b)
  {
    if counter == 0 then Ok(b)
    else
      match SlideLeft(b, car, co1, ro1, co2, counter - 1)
      case Err(e) => Err(e)
      case Ok(m) => StepLeft(m, car, co1, ro1, co2, counter)
  }

  // ---------------------------------------------------------------------
  // direct and MoveVehicle
  // ---------------------------------------------------------------------

  /**
   * `direct<d, counter, B, car, co1, ro1, co2, ro2>::moved`. DOWN and UP
   * move RIGHT and LEFT on the transposed board, with rows and columns
   * swapped, and transpose back; their zero-step cases return the board
   * without transposing it.
   */
  function Direct(d: Direction, counter: nat, b: Board, car: BoardCell, co1: int, ro1: int, co2: int, ro2: int)
    : (r: Result<Board, MoveError>)
    requires Rect(b)
    ensures r.Ok? ==> Rect(r.value)
    ensures r.Ok? && Width(b) > 0 ==> |r.value| == |b| && Width(r.value) == Width(b)
    ensures counter == 0 ==> r == Ok(b)
  {
    match d
    case RIGHT => SlideRight(b, car, co1, ro1, co2, counter)
    case LEFT => SlideLeft(b, car, co1, ro1, co2, counter)
    case DOWN =>
      if counter == 0 then Ok(b)
      else
        (match SlideRight(Transpose(b), car, ro1, co1, ro2, counter)
         case Err(e) => Err(e)
         case Ok(m) => Ok(Transpose(m)))
    case UP =>
      if counter == 0 then Ok(b)
      else
        (match SlideLeft(Transpose(b), car, ro1, co1, ro2, counter)
         case Err(e) => Err(e)
         case Ok(m) => Ok(Transpose(m)))
  }

  /**
   * `MoveVehicle<GameBoard<B>, r1, c1, d, a>::board`: the vehicle whose cell
   * is `(r1, c1)` moves `a` cells towards `d`. The start cell must be on
   * the board and hold a vehicle whose axis is the axis of `d`; the car is
   * then located from its first cell in row-major order. A negative amount
   * makes the step recursion run away, which does not compile either.
   */
  function MoveVehicle(b: Board, r1: int, c1: int, d: Direction, a: int): (r: Result<Board, MoveError>)
    requires Rect(b)
    ensures !(0 <= r1 < |b|) ==> r == Err(RowOutOfRange)
    ensures 0 <= r1 < |b| && !(0 <= c1 < Width(b)) ==> r == Err(ColumnOutOfRange)
    ensures 0 <= r1 < |b| && 0 <= c1 < Width(b) && b[r1][c1].kind == EMPTY ==> r == Err(EmptyStart)
    ensures (0 <= r1 < |b| && 0 <= c1 < Width(b) && b[r1][c1].kind != EMPTY &&
             Horizontal(d) != Horizontal(b[r1][c1].direction)) ==> r == Err(WrongAxis)
    ensures r.Ok? ==> Rect(r.value) && |r.value| == |b| && Width(r.value) == Width(b)
  {
    if !(0 <= r1 < |b|) then Err(RowOutOfRange)
    else if !(0 <= c1 < Width(b)) then Err(ColumnOutOfRange)
    else
      var car := b[r1][c1];
      if car.kind == EMPTY then Err(EmptyStart)
      else if Horizontal(d) != Horizontal(car.direction) then Err(WrongAxis)
      else if a < 0 then Err(NegativeAmount)
      else
        match FindCar(b, car.kind)
        case None => Err(NotFound)
        case Some(first) =>
          var (r2, c2) := first;
          var (r3, c3) := FarEnd(d, r2, c2, car.length);
          Direct(d, a, b, car, c2, r2, c3, r3)
  }

  // ---------------------------------------------------------------------
  // What a slide does, in closed form
  // ---------------------------------------------------------------------

  /**
   * A row after the car in its cells `c .. c + len - 1` went `a` cells
   * right: the `a` cells it left are EMPTY (when `a >= len` that includes
   * cells it passed through, since each is cleared after it was entered),
   * the `a` cells past its old end hold the car cell, the rest is unchanged.
   */
  function RightShifted(row: seq<BoardCell>, car: BoardCell, c: int, len: int, a: int): (s: seq<BoardCell>)
    ensures |s| == |row|
  {
    seq(|row|, j requires 0 <= j < |row| =>
      if c <= j < c + a then Blank(RIGHT)
      else if c + len <= j < c + len + a then car
      else row[j])
  }

  /** The `a` cells past the car's end exist and are EMPTY. */
  predicate ClearRight(b: Board, row: int, c: int, len: int, a: int)
    requires Rect(b) && 0 <= row < |b|
  {
    c + len + a <= Width(b) && forall j :: 0 <= j && c + len <= j < c + len + a ==> b[row][j].kind == EMPTY
  }

  /** One more step right, from the closed form for `a - 1` steps to the one for `a`. */
  lemma StepRightShifted(b: Board, car: BoardCell, row: int, c: int, len: int, a: int)
    requires Rect(b) && 0 <= row < |b| && 0 <= c && 1 <= len && c + len <= Width(b) && 1 <= a
    ensures var m := b[row := RightShifted(b[row], car, c, len, a - 1)];
      Rect(m) &&
      (StepRight(m, car, c, row, c + len - 1, a).Ok? <==>
         c + len + a <= Width(b) && b[row][c + len + a - 1].kind == EMPTY) &&
      (StepRight(m, car, c, row, c + len - 1, a).Ok? ==>
         StepRight(m, car, c, row, c + len - 1, a).value == b[row := RightShifted(b[row], car, c, len, a)])
  {
    var m := b[row := RightShifted(b[row], car, c, len, a - 1)];
    assert |m[row]| == Width(b);
    if c + len + a <= Width(b) {
      assert m[row][c + len + a - 1] == b[row][c + len + a - 1];
      var stepped := m[row][c + len + a - 1 := car][c + a - 1 := Blank(RIGHT)];
      assert stepped == RightShifted(b[row], car, c, len, a);
    }
  }

  /**
   * `direct<RIGHT, a, ...>` on a car whose cells are `c .. c + len - 1` of
   * row `row` succeeds exactly when the `a` cells past its end are on the
   * board and EMPTY, and then leaves every other row unchanged.
   */
  lemma {:induction false} SlideRightClosed(b: Board, car: BoardCell, row: int, c: int, len: int, a: nat)
    requires Rect(b) && 0 <= row < |b| && 0 <= c && 1 <= len && c + len <= Width(b)
    ensures var r := SlideRight(b, car, c, row, c + len - 1, a);
      && (r.Ok? <==> ClearRight(b, row, c, len, a))
      && (r.Ok? ==> r.value == b[row := RightShifted(b[row], car, c, len, a)])
  {
    if a == 0 {
      assert RightShifted(b[row], car, c, len, 0) == b[row];
    } else {
      SlideRightClosed(b, car, row, c, len, a - 1);
      StepRightShifted(b, car, row, c, len, a);
    }
  }

  /** A row after the car in its cells `c .. c + len - 1` went `a` cells left. */
  function LeftShifted(row: seq<BoardCell>, car: BoardCell, c: int, len: int, a: int): (s: seq<BoardCell>)
    ensures |s| == |row|
  {
    seq(|row|, j requires 0 <= j < |row| =>
      if c + len - a <= j < c + len then Blank(LEFT)
      else if c - a <= j < c then car
      else row[j])
  }

  /** The `a` cells before the car's first cell exist and are EMPTY. */
  predicate ClearLeft(b: Board, row: int, c: int, a: int)
    requires Rect(b) && 0 <= row < |b| && c <= Width(b)
  {
    0 <= c - a && forall j :: c - a <= j < c ==> 0 <= j && b[row][j].kind == EMPTY
  }

  lemma StepLeftShifted(b: Board, car: BoardCell, row: int, c: int, len: int, a: int)
    requires Rect(b) && 0 <= row < |b| && 0 <= c && 1 <= len && c + len <= Width(b) && 1 <= a
    ensures var m := b[row := LeftShifted(b[row], car, c, len, a - 1)];
      Rect(m) &&
      (StepLeft(m, car, c, row, c + len - 1, a).Ok? <==> 0 <= c - a && b[row][c - a].kind == EMPTY) &&
      (StepLeft(m, car, c, row, c + len - 1, a).Ok? ==>
         StepLeft(m, car, c, row, c + len - 1, a).value == b[row := LeftShifted(b[row], car, c, len, a)])
  {
    var m := b[row := LeftShifted(b[row], car, c, len, a - 1)];
    assert |m[row]| == Width(b);
    if 0 <= c - a {
      assert m[row][c - a] == b[row][c - a];
      var stepped := m[row][c - a := car][c + len - a := Blank(LEFT)];
      assert stepped == LeftShifted(b[row], car, c, len, a);
    }
  }

  /** `direct<LEFT, a, ...>` succeeds exactly when the `a` cells before the car are on the board and EMPTY. */
  lemma {:induction false} SlideLeftClosed(b: Board, car: BoardCell, row: int, c: int, len: int, a: nat)
    requires Rect(b) && 0 <= row < |b| && 0 <= c && 1 <= len && c + len <= Width(b)
    ensures var r := SlideLeft(b, car, c, row, c + len - 1, a);
      && (r.Ok? <==> ClearLeft(b, row, c, a))
      && (r.Ok? ==> r.value == b[row := LeftShifted(b[row], car, c, len, a)])
  {
    if a == 0 {
      assert LeftShifted(b[row], car, c, len, 0) == b[row];
    } else {
      SlideLeftClosed(b, car, row, c, len, a - 1);
      StepLeftShifted(b, car, row, c, len, a);
    }
  }

  // ---------------------------------------------------------------------
  // A car on the board, and where a move takes it
  // ---------------------------------------------------------------------

  /** Cell `(i, j)` is one of the `len` cells of the car whose first cell is `(row, col)`. */
  predicate InCar(i: int, j: int, row: int, col: int, len: int, horizontal: bool)
  {
    if horizontal then i == row && col <= j < col + len else j == col && row <= i < row + len
  }

  /** The cells of type `t` are exactly the `len` cells from `(row, col)` along the car's axis. */
  predicate CarAt(b: Board, t: CellType, row: int, col: int, len: int, horizontal: bool)
    requires Rect(b)
  {
    && 1 <= len && 0 <= row && 0 <= col
    && (if horizontal then row < |b| && col + len <= Width(b) else row + len <= |b| && col < Width(b))
    && forall i, j :: 0 <= i < |b| && 0 <= j < Width(b) ==>
         (b[i][j].kind == t <==> InCar(i, j, row, col, len, horizontal))
  }

  /** `FindCar` locates a car at its first cell: the left end of a horizontal car, the top of a vertical one. */
  lemma FindCarAt(b: Board, t: CellType, row: int, col: int, len: int, horizontal: bool)
    requires Rect(b) && CarAt(b, t, row, col, len, horizontal)
    ensures FindCar(b, t) == Some((row, col))
  {
    assert b[row][col].kind == t;
    var r := FindCar(b, t);
    assert r.Some?;
    var (fr, fc) := r.value;
    assert InCar(fr, fc, row, col, len, horizontal);
    assert !Before(row, col, fr, fc);
  }

  /** The far end `Dir` computes for a car is its last cell. */
  lemma FarEndIsLastCell(b: Board, t: CellType, row: int, col: int, len: int, d: Direction)
    requires Rect(b) && CarAt(b, t, row, col, len, Horizontal(d))
    ensures var e := FarEnd(d, row, col, len);
      && 0 <= e.0 < |b| && 0 <= e.1 < Width(b) && b[e.0][e.1].kind == t
      && (Horizontal(d) ==> e.1 + 1 == Width(b) || b[e.0][e.1 + 1].kind != t)
      && (!Horizontal(d) ==> e.0 + 1 == |b| || b[e.0 + 1][e.1].kind != t)
  {
    var e := FarEnd(d, row, col, len);
    assert InCar(e.0, e.1, row, col, len, Horizontal(d));
    if Horizontal(d) && e.1 + 1 < Width(b) {
      assert !InCar(e.0, e.1 + 1, row, col, len, true);
    }
    if !Horizontal(d) && e.0 + 1 < |b| {
      assert !InCar(e.0 + 1, e.1, row, col, len, false);
    }
  }

  /** A horizontal car slid right by `a` is the same car, `a` cells further right. */
  lemma SlideRightMovesCar(b: Board, t: CellType, car: BoardCell, row: int, col: int, len: int, a: nat)
    requires Rect(b) && CarAt(b, t, row, col, len, true) && car.kind == t && t != EMPTY
    requires ClearRight(b, row, col, len, a)
    ensures SlideRight(b, car, col, row, col + len - 1, a).Ok?
    ensures CarAt(SlideRight(b, car, col, row, col + len - 1, a).value, t, row, col + a, len, true)
  {
    SlideRightClosed(b, car, row, col, len, a);
    var m := b[row := RightShifted(b[row], car, col, len, a)];
    forall i, j | 0 <= i < |m| && 0 <= j < Width(m)
      ensures m[i][j].kind == t <==> InCar(i, j, row, col + a, len, true)
    {
      if i == row && col + len <= j < col + len + a {
        assert b[row][j].kind == EMPTY;
      }
    }
  }

  /** A horizontal car slid left by `a` is the same car, `a` cells further left. */
  lemma SlideLeftMovesCar(b: Board, t: CellType, car: BoardCell, row: int, col: int, len: int, a: nat)
    requires Rect(b) && CarAt(b, t, row, col, len, true) && car.kind == t && t != EMPTY
    requires ClearLeft(b, row, col, a)
    ensures SlideLeft(b, car, col, row, col + len - 1, a).Ok?
    ensures CarAt(SlideLeft(b, car, col, row, col + len - 1, a).value, t, row, col - a, len, true)
  {
    SlideLeftClosed(b, car, row, col, len, a);
    var m := b[row := LeftShifted(b[row], car, col, len, a)];
    forall i, j | 0 <= i < |m| && 0 <= j < Width(m)
      ensures m[i][j].kind == t <==> InCar(i, j, row, col - a, len, true)
    {
      if i == row && col - a <= j < col {
        assert b[row][j].kind == EMPTY;
      }
    }
  }

  /** A vertical car is a horizontal car of the transposed board. */
  lemma CarAtTranspose(b: Board, t: CellType, row: int, col: int, len: int)
    requires Rect(b)
    ensures CarAt(b, t, row, col, len, false) <==> CarAt(Transpose(b), t, col, row, len, true)
  {
    var tb := Transpose(b);
    if Width(b) > 0 {
      if CarAt(b, t, row, col, len, false) {
        forall j, i | 0 <= j < |tb| && 0 <= i < Width(tb)
          ensures tb[j][i].kind == t <==> InCar(j, i, col, row, len, true)
        {
          assert tb[j][i] == b[i][j];
        }
      }
      if CarAt(tb, t, col, row, len, true) {
        forall i, j | 0 <= i < |b| && 0 <= j < Width(b)
          ensures b[i][j].kind == t <==> InCar(i, j, row, col, len, false)
        {
          assert tb[j][i] == b[i][j];
        }
      }
    }
  }

  /** Column `col` of the board, top to bottom. */
  function Column(b: Board, col: int): (c: seq<BoardCell>)
    requires Rect(b) && 0 <= col < Width(b)
    ensures |c| == |b| && forall i :: 0 <= i < |b| ==> c[i] == b[i][col]
  {
    seq(|b|, i requires 0 <= i < |b| => b[i][col])
  }

  /** The board with column `col` replaced by `c`. */
  function WithColumn(b: Board, col: int, c: seq<BoardCell>): (r: Board)
    requires Rect(b) && 0 <= col < Width(b) && |c| == |b|
    ensures Rect(r) && |r| == |b| && Width(r) == Width(b)
    ensures forall i, j :: 0 <= i < |b| && 0 <= j < Width(b) ==> r[i][j] == if j == col then c[i] else b[i][j]
  {
    seq(|b|, i requires 0 <= i < |b| => b[i][col := c[i]])
  }

  /** Putting a column back where it was changes nothing. */
  lemma WithOwnColumn(b: Board, col: int)
    requires Rect(b) && 0 <= col < Width(b)
    ensures WithColumn(b, col, Column(b, col)) == b
  {
    var w := WithColumn(b, col, Column(b, col));
    forall i | 0 <= i < |b|
      ensures w[i] == b[i]
    {
      assert |w[i]| == |b[i]|;
    }
  }

  /** The `a` cells below a vertical car's last cell exist and are EMPTY. */
  predicate ClearDown(b: Board, row: int, col: int, len: int, a: int)
    requires Rect(b) && 0 <= col < Width(b)
  {
    row + len + a <= |b| && forall i :: 0 <= i && row + len <= i < row + len + a ==> b[i][col].kind == EMPTY
  }

  /** The `a` cells above a vertical car's first cell exist and are EMPTY. */
  predicate ClearUp(b: Board, row: int, col: int, a: int)
    requires Rect(b) && 0 <= col < Width(b) && row <= |b|
  {
    0 <= row - a && forall i :: row - a <= i < row ==> 0 <= i && b[i][col].kind == EMPTY
  }

  /** Replacing row `col` of the transposed board is replacing column `col` of the board. */
  lemma TransposeBack(b: Board, col: int, c: seq<BoardCell>)
    requires Rect(b) && 0 <= col < Width(b) && |c| == |b|
    ensures Transpose(b)[col] == Column(b, col)
    ensures Transpose(Transpose(b)[col := c]) == WithColumn(b, col, c)
  {
    var tb := Transpose(b);
    var m := tb[col := c];
    var r := Transpose(m);
    var w := WithColumn(b, col, c);
    assert |r| == |w|;
    forall i | 0 <= i < |b|
      ensures r[i] == w[i]
    {
      forall j | 0 <= j < Width(b)
        ensures r[i][j] == w[i][j]
      {
        assert r[i][j] == m[j][i];
      }
    }
  }

  /**
   * Moving a horizontal car right: it compiles exactly when the amount is
   * non-negative and the cells past the car are on the board and EMPTY;
   * the car is then the same car `a` cells to the right and only its row
   * changed.
   */
  lemma MoveRight(b: Board, r1: int, c1: int, a: int, row: int, col: int)
    requires Rect(b) && 0 <= r1 < |b| && 0 <= c1 < Width(b)
    requires b[r1][c1].kind != EMPTY && Horizontal(b[r1][c1].direction)
    requires CarAt(b, b[r1][c1].kind, row, col, b[r1][c1].length, true)
    ensures var car := b[r1][c1];
      var r := MoveVehicle(b, r1, c1, RIGHT, a);
      && (r.Ok? <==> a >= 0 && ClearRight(b, row, col, car.length, a))
      && (r.Ok? ==> r.value == b[row := RightShifted(b[row], car, col, car.length, a)]
                    && CarAt(r.value, car.kind, row, col + a, car.length, true))
  {
    var car := b[r1][c1];
    FindCarAt(b, car.kind, row, col, car.length, true);
    if a >= 0 {
      SlideRightClosed(b, car, row, col, car.length, a);
      if ClearRight(b, row, col, car.length, a) {
        SlideRightMovesCar(b, car.kind, car, row, col, car.length, a);
      }
    }
  }

  /** Moving a horizontal car left, the mirror image of `MoveRight`. */
  lemma MoveLeft(b: Board, r1: int, c1: int, a: int, row: int, col: int)
    requires Rect(b) && 0 <= r1 < |b| && 0 <= c1 < Width(b)
    requires b[r1][c1].kind != EMPTY && Horizontal(b[r1][c1].direction)
    requires CarAt(b, b[r1][c1].kind, row, col, b[r1][c1].length, true)
    ensures var car := b[r1][c1];
      var r := MoveVehicle(b, r1, c1, LEFT, a);
      && (r.Ok? <==> a >= 0 && ClearLeft(b, row, col, a))
      && (r.Ok? ==> r.value == b[row := LeftShifted(b[row], car, col, car.length, a)]
                    && CarAt(r.value, car.kind, row, col - a, car.length, true))
  {
    var car := b[r1][c1];
    FindCarAt(b, car.kind, row, col, car.length, true);
    if a >= 0 {
      SlideLeftClosed(b, car, row, col, car.length, a);
      if ClearLeft(b, row, col, a) {
        SlideLeftMovesCar(b, car.kind, car, row, col, car.length, a);
      }
    }
  }

  /**
   * Moving a vertical car down: the transposed slide right comes back as
   * the car's column shifted down (the cells it leaves are the EMPTY cells
   * `direct<RIGHT>` writes), and the car is the same car `a` rows lower.
   */
  lemma MoveDown(b: Board, r1: int, c1: int, a: int, row: int, col: int)
    requires Rect(b) && 0 <= r1 < |b| && 0 <= c1 < Width(b)
    requires b[r1][c1].kind != EMPTY && !Horizontal(b[r1][c1].direction)
    requires CarAt(b, b[r1][c1].kind, row, col, b[r1][c1].length, false)
    ensures var car := b[r1][c1];
      var r := MoveVehicle(b, r1, c1, DOWN, a);
      && (r.Ok? <==> a >= 0 && ClearDown(b, row, col, car.length, a))
      && (r.Ok? ==> r.value == WithColumn(b, col, RightShifted(Column(b, col), car, row, car.length, a))
                    && CarAt(r.value, car.kind, row + a, col, car.length, false))
  {
    var car := b[r1][c1];
    var t, len := car.kind, car.length;
    FindCarAt(b, t, row, col, len, false);
    var tb := Transpose(b);
    var shifted := RightShifted(Column(b, col), car, row, len, a);
    TransposeBack(b, col, shifted);
    if a == 0 {
      assert shifted == Column(b, col);
      WithOwnColumn(b, col);
    } else if a > 0 {
      CarAtTranspose(b, t, row, col, len);
      SlideRightClosed(tb, car, col, row, len, a);
      assert ClearDown(b, row, col, len, a) <==> ClearRight(tb, col, row, len, a) by {
        assert forall i :: 0 <= i < |b| ==> tb[col][i] == b[i][col];
      }
      if ClearRight(tb, col, row, len, a) {
        SlideRightMovesCar(tb, t, car, col, row, len, a);
        var m := SlideRight(tb, car, row, col, row + len - 1, a).value;
        CarAtTranspose(Transpose(m), t, row + a, col, len);
        TransposeTwice(m);
      }
    }
  }

  /** Moving a vertical car up, the mirror image of `MoveDown`. */
  lemma MoveUp(b: Board, r1: int, c1: int, a: int, row: int, col: int)
    requires Rect(b) && 0 <= r1 < |b| && 0 <= c1 < Width(b)
    requires b[r1][c1].kind != EMPTY && !Horizontal(b[r1][c1].direction)
    requires CarAt(b, b[r1][c1].kind, row, col, b[r1][c1].length, false)
    ensures var car := b[r1][c1];
      var r := MoveVehicle(b, r1, c1, UP, a);
      && (r.Ok? <==> a >= 0 && ClearUp(b, row, col, a))
      && (r.Ok? ==> r.value == WithColumn(b, col, LeftShifted(Column(b, col), car, row, car.length, a))
                    && CarAt(r.value, car.kind, row - a, col, car.length, false))
  {
    var car := b[r1][c1];
    var t, len := car.kind, car.length;
    FindCarAt(b, t, row, col, len, false);
    var tb := Transpose(b);
    var shifted := LeftShifted(Column(b, col), car, row, len, a);
    TransposeBack(b, col, shifted);
    if a == 0 {
      assert shifted == Column(b, col);
      WithOwnColumn(b, col);
    } else if a > 0 {
      CarAtTranspose(b, t, row, col, len);
      SlideLeftClosed(tb, car, col, row, len, a);
      assert ClearUp(b, row, col, a) <==> ClearLeft(tb, col, row, a) by {
        assert forall i :: 0 <= i < |b| ==> tb[col][i] == b[i][col];
      }
      if ClearLeft(tb, col, row, a) {
        SlideLeftMovesCar(tb, t, car, col, row, len, a);
        var m := SlideLeft(tb, car, row, col, row + len - 1, a).value;
        CarAtTranspose(Transpose(m), t, row - a, col, len);
        TransposeTwice(m);
      }
    }
  }

  /** A move of zero steps that passes the checks returns the board unchanged, whatever the direction. */
  lemma ZeroStepMove(b: Board, r1: int, c1: int, d: Direction)
    requires Rect(b) && 0 <= r1 < |b| && 0 <= c1 < Width(b)
    requires b[r1][c1].kind != EMPTY && Horizontal(d) == Horizontal(b[r1][c1].direction)
    ensures MoveVehicle(b, r1, c1, d, 0) == Ok(b)
  {
  }

  /**
   * The zero-step cases of DOWN and UP skip the transposition; on a board
   * with cells, transposing there and back would give the same board.
   */
  lemma ZeroStepTransposes(b: Board, car: BoardCell, co1: int, ro1: int, co2: int)
    requires Rect(b) && Width(b) > 0
    ensures Direct(DOWN, 0, b, car, co1, ro1, co2, 0) == Ok(Transpose(Transpose(b)))
    ensures Direct(UP, 0, b, car, co1, ro1, co2, 0) == Ok(Transpose(Transpose(b)))
  {
    TransposeTwice(b);
  }
}

/**
 * The server's terminal-state test (server.js, isGameOver).
 *
 * The source joins each line of cells with commas and searches the string
 * for "red,red,red,red" or "blue,blue,blue,blue". That string search is
 * modelled as written (Name, Join, Matches) and proved equivalent to "four
 * consecutive equal red or blue cells" (JoinedFourIff); the verdict is
 * specified on cells by Terminal.
 */
module WinCheck {
  import opened Grid

  // ---------------------------------------------------------------------
  // The cell-level specification
  // ---------------------------------------------------------------------

  /** Four equal red or blue cells start at index i of cs. */
  predicate FourAt(cs: seq<Cell>, i: int) {
    0 <= i && i + 4 <= |cs| &&
    cs[i] != Blank && cs[i + 1] == cs[i] && cs[i + 2] == cs[i] && cs[i + 3] == cs[i]
  }

  predicate HasFour(cs: seq<Cell>) {
    exists i :: 0 <= i < |cs| && FourAt(cs, i)
  }

  /** Column c of g, top to bottom. */
  function Column(g: seq<seq<Cell>>, c: int): (col: seq<Cell>)
    requires IsGrid(g) && 0 <= c < |g[0]|
    ensures |col| == |g|
    ensures forall r :: 0 <= r < |g| ==> col[r] == g[r][c]
  {
    seq(|g|, r requires 0 <= r < |g| => g[r][c])
  }

  /** Four equal red or blue cells on the cells (r + k, c + k), k = 0..3. */
  predicate DownRightFourAt(g: seq<seq<Cell>>, r: int, c: int)
    requires IsGrid(g)
  {
    0 <= r && r + 3 < |g| && 0 <= c && c + 3 < |g[0]| &&
    g[r][c] != Blank && g[r + 1][c + 1] == g[r][c] && g[r + 2][c + 2] == g[r][c] && g[r + 3][c + 3] == g[r][c]
  }

  /** Four equal red or blue cells on the cells (r + k, c - k), k = 0..3: the other diagonal slope. */
  predicate DownLeftFourAt(g: seq<seq<Cell>>, r: int, c: int)
    requires IsGrid(g)
  {
    0 <= r && r + 3 < |g| && 3 <= c < |g[0]| &&
    g[r][c] != Blank && g[r + 1][c - 1] == g[r][c] && g[r + 2][c - 2] == g[r][c] && g[r + 3][c - 3] == g[r][c]
  }

  /** The top row has no blank cell left. */
  predicate TopRowFull(g: seq<seq<Cell>>)
    requires IsGrid(g)
  {
    Blank !in g[0]
  }

  predicate RowWin(g: seq<seq<Cell>>)
    requires IsGrid(g)
  {
    exists r :: 0 <= r < |g| && HasFour(g[r])
  }

  predicate ColumnWin(g: seq<seq<Cell>>)
    requires IsGrid(g)
  {
    exists c :: 0 <= c < |g[0]| && HasFour(Column(g, c))
  }

  predicate DiagonalWin(g: seq<seq<Cell>>)
    requires IsGrid(g)
  {
    exists r, c :: 0 <= r < |g| && 0 <= c < |g[0]| && DownRightFourAt(g, r, c)
  }

  predicate AntiDiagonalWin(g: seq<seq<Cell>>)
    requires IsGrid(g)
  {
    exists r, c :: 0 <= r < |g| && 0 <= c < |g[0]| && DownLeftFourAt(g, r, c)
  }

  /**
   * What isGameOver decides: a full top row, or four in a row along a row,
   * a column or a down-right diagonal. The down-left diagonals are not part
   * of it (see AntiDiagonalIgnored).
   */
  predicate Terminal(g: seq<seq<Cell>>)
    requires IsGrid(g)
  {
    TopRowFull(g) || RowWin(g) || ColumnWin(g) || DiagonalWin(g)
  }

  // ---------------------------------------------------------------------
  // The string search, as written
  // ---------------------------------------------------------------------

  /** The string stored in a cell. */
  function Name(c: Cell): string {
    match c
    case Blank => "blank"
    case Red => "red"
    case Blue => "blue"
  }

  /** Array.prototype.join with its default separator ",". */
  function Join(cs: seq<Cell>): string {
    if |cs| == 0 then ""
    else if |cs| == 1 then Name(cs[0])
    else Name(cs[0]) + "," + Join(cs[1..])
  }

  /** The pattern p occurs in s at index k. */
  predicate OccursAt(p: string, s: string, k: int) {
    0 <= k && k + |p| <= |s| && s[k..k + |p|] == p
  }

  /** String.prototype.match with a regular expression made of plain characters only. */
  predicate Matches(s: string, p: string) {
    exists k :: 0 <= k <= |s| && OccursAt(p, s, k)
  }

  const RedFour: string := "red,red,red,red"
  const BlueFour: string := "blue,blue,blue,blue"

  /** The test applied to every joined row, column and diagonal. */
  predicate JoinedFour(cs: seq<Cell>) {
    Matches(Join(cs), RedFour) || Matches(Join(cs), BlueFour)
  }

  // ---------------------------------------------------------------------
  // The string search finds exactly the runs of four
  // ---------------------------------------------------------------------

  function Run(m: Cell, n: nat): (run: seq<Cell>)
    ensures |run| == n && forall j :: 0 <= j < n ==> run[j] == m
  {
    seq(n, _ => m)
  }

  lemma JoinRunStep(m: Cell, n: nat)
    requires n >= 1
    ensures Join(Run(m, n + 1)) == Name(m) + "," + Join(Run(m, n))
  {
    assert Run(m, n + 1)[1..] == Run(m, n);
  }

  lemma JoinRunFour(m: Cell)
    ensures Join(Run(m, 4)) == Name(m) + "," + Name(m) + "," + Name(m) + "," + Name(m)
  {
    assert Run(m, 1) == [m];
    JoinRunStep(m, 1);
    JoinRunStep(m, 2);
    JoinRunStep(m, 3);
  }

  /** The two patterns of the source are the joined runs of four red and four blue cells. */
  lemma RunLiterals()
    ensures Join(Run(Red, 4)) == RedFour
    ensures Join(Run(Blue, 4)) == BlueFour
  {
    JoinRunFour(Red);
    JoinRunFour(Blue);
  }

  /** A line of fewer than two cells joins to at most five characters. */
  lemma JoinShort(cs: seq<Cell>)
    requires |cs| < 2
    ensures |Join(cs)| <= 5
  {
  }

  /** Join(a + b) puts one separator between the two joined halves. */
  lemma {:induction false} JoinAppend(a: seq<Cell>, b: seq<Cell>)
    requires |a| > 0 && |b| > 0
    ensures Join(a + b) == Join(a) + "," + Join(b)
  {
    if |a| == 1 {
      assert (a + b)[1..] == b;
    } else {
      assert (a + b)[1..] == a[1..] + b;
      JoinAppend(a[1..], b);
    }
  }

  /** The first cell's string, then the rest of the line behind a separator. */
  lemma JoinUnfold(cs: seq<Cell>)
    requires |cs| > 0
    ensures Join(cs) == Name(cs[0]) + (if |cs| == 1 then "" else "," + Join(cs[1..]))
  {
  }

  lemma RunFourLength(m: Cell)
    requires m != Blank
    ensures |Join(Run(m, 4))| >= 15
  {
    RunLiterals();
  }

  lemma PrefixOfPrefix(s: string, p: string, k: int)
    requires |p| <= |s| && s[..|p|] == p && 0 <= k <= |p|
    ensures s[..k] == p[..k]
  {
  }

  lemma DropCommonPrefix(a: string, x: string, y: string)
    requires |a + y| <= |a + x| && (a + x)[..|a + y|] == a + y
    ensures |y| <= |x| && x[..|y|] == y
  {
    forall j | 0 <= j < |y|
      ensures x[j] == y[j]
    {
      assert x[j] == (a + x)[|a| + j] == (a + y)[|a| + j] == y[j];
    }
  }

  lemma SliceOfConcat(a: string, b: string, k: int, len: nat)
    requires |a| <= k && k + len <= |a + b|
    ensures (a + b)[k..k + len] == b[k - |a|..k - |a| + len]
  {
  }

  /** A colour's name is never a prefix of another cell's string. */
  lemma NameDetermines(m: Cell, c: Cell, t: string)
    requires m != Blank
    requires |Name(m)| <= |Name(c) + t| && (Name(c) + t)[..|Name(m)|] == Name(m)
    ensures c == m
  {
    assert (Name(c) + t)[0] == Name(m)[0];
    assert (Name(c) + t)[2] == Name(m)[2];
  }

  /** The first letter of a colour's name occurs in "<cell>," only at index 0. */
  lemma PatternStartsAtCell(c: Cell, m: Cell, k: int)
    requires m != Blank && 0 <= k <= |Name(c)|
    requires (Name(c) + ",")[k] == Name(m)[0]
    ensures k == 0
  {
  }

  /** If the joined run of n cells m starts the joined cs, then cs starts with n cells m. */
  lemma {:induction false} RunPrefix(cs: seq<Cell>, m: Cell, n: nat)
    requires m != Blank && n >= 1
    requires |Join(Run(m, n))| <= |Join(cs)| && Join(cs)[..|Join(Run(m, n))|] == Join(Run(m, n))
    ensures n <= |cs| && forall j :: 0 <= j < n ==> cs[j] == m
    decreases n
  {
    var p, s := Join(Run(m, n)), Join(cs);
    var name := Name(m);
    JoinUnfold(Run(m, n));
    assert Run(m, n)[0] == m;
    var ptail := if n == 1 then "" else "," + Join(Run(m, n)[1..]);
    assert p == name + ptail;
    assert |cs| > 0;
    JoinUnfold(cs);
    var tail := if |cs| == 1 then "" else "," + Join(cs[1..]);
    assert s == Name(cs[0]) + tail;
    PrefixOfPrefix(s, p, |name|);
    NameDetermines(m, cs[0], tail);
    if n > 1 {
      DropCommonPrefix(name, tail, ptail);
      assert |cs| > 1;
      assert Run(m, n)[1..] == Run(m, n - 1);
      DropCommonPrefix(",", Join(cs[1..]), Join(Run(m, n - 1)));
      RunPrefix(cs[1..], m, n - 1);
    }
  }

  /** An occurrence of the joined run of four cells m marks four cells m. */
  lemma {:induction false} OccurrenceIsFour(cs: seq<Cell>, m: Cell, k: int)
    requires m != Blank
    requires OccursAt(Join(Run(m, 4)), Join(cs), k)
    ensures exists i :: FourAt(cs, i) && cs[i] == m
    decreases |cs|
  {
    var p, s := Join(Run(m, 4)), Join(cs);
    RunFourLength(m);
    if |cs| < 2 {
      JoinShort(cs);
    }
    assert |cs| >= 2;
    var name, rest := Name(cs[0]), Join(cs[1..]);
    JoinUnfold(cs);
    assert s == (name + ",") + rest;
    if k <= |name| {
      JoinUnfold(Run(m, 4));
      assert Run(m, 4)[0] == m;
      assert p[0] == Name(m)[0];
      assert s[k] == p[0];
      assert s[k] == (name + ",")[k];
      PatternStartsAtCell(cs[0], m, k);
      RunPrefix(cs, m, 4);
      assert FourAt(cs, 0);
    } else {
      SliceOfConcat(name + ",", rest, k, |p|);
      OccurrenceIsFour(cs[1..], m, k - |name| - 1);
      var i :| FourAt(cs[1..], i) && cs[1..][i] == m;
      assert FourAt(cs, i + 1);
    }
  }

  /** Four cells m at index i make the joined run of four cells m occur in the joined cs. */
  lemma {:induction false} FourOccurs(cs: seq<Cell>, i: int)
    requires FourAt(cs, i)
    ensures Matches(Join(cs), Join(Run(cs[i], 4)))
    decreases i
  {
    var m := cs[i];
    var p := Join(Run(m, 4));
    if i == 0 {
      assert cs[..4] == Run(m, 4);
      if |cs| == 4 {
        assert cs == Run(m, 4);
        assert OccursAt(p, Join(cs), 0);
      } else {
        assert cs == cs[..4] + cs[4..];
        JoinAppend(cs[..4], cs[4..]);
        assert OccursAt(p, Join(cs), 0);
      }
    } else {
      assert FourAt(cs[1..], i - 1) && cs[1..][i - 1] == m;
      FourOccurs(cs[1..], i - 1);
      var t := Join(cs[1..]);
      var k :| 0 <= k <= |t| && OccursAt(p, t, k);
      var name, s := Name(cs[0]), Join(cs);
      assert s == name + "," + t;
      assert |s| == |name| + 1 + |t|;
      assert s[k + |name| + 1..k + |name| + 1 + |p|] == t[k..k + |p|];
      assert OccursAt(p, s, k + |name| + 1);
    }
  }

  /** The regular-expression test on a joined line holds exactly when the line has four equal red or blue cells. */
  lemma JoinedFourIff(cs: seq<Cell>)
    ensures JoinedFour(cs) <==> HasFour(cs)
  {
    RunLiterals();
    if Matches(Join(cs), RedFour) {
      var k :| OccursAt(RedFour, Join(cs), k);
      OccurrenceIsFour(cs, Red, k);
    }
    if Matches(Join(cs), BlueFour) {
      var k :| OccursAt(BlueFour, Join(cs), k);
      OccurrenceIsFour(cs, Blue, k);
    }
    if HasFour(cs) {
      var i :| FourAt(cs, i);
      FourOccurs(cs, i);
    }
  }

  // ---------------------------------------------------------------------
  // isGameOver
  // ---------------------------------------------------------------------

  /**
   * The second diagonal test looks at (r - k, c - k), k = 0..3: the same
   * cells as the down-right test started at (r - 3, c - 3).
   */
  lemma UpLeftIsDownRight(g: seq<seq<Cell>>, r: int, c: int)
    requires IsGrid(g) && 3 <= r < |g| && 3 <= c < |g[0]|
    ensures HasFour([g[r][c], g[r - 1][c - 1], g[r - 2][c - 2], g[r - 3][c - 3]]) <==> DownRightFourAt(g, r - 3, c - 3)
  {
    var line := [g[r][c], g[r - 1][c - 1], g[r - 2][c - 2], g[r - 3][c - 3]];
    if HasFour(line) {
      var i :| 0 <= i < |line| && FourAt(line, i);
      assert i == 0;
    }
    if DownRightFourAt(g, r - 3, c - 3) {
      assert FourAt(line, 0);
    }
  }

  /**
   * isGameOver, loop for loop: the top-row test, the joined rows, the joined
   * columns, then at every cell the down-right window and the up-left window
   * (each guarded by the bounds checks of the source). It reads gameState and
   * changes nothing.
   */
  method IsGameOver(gameState: seq<seq<Cell>>) returns (over: bool)
    requires IsGrid(gameState)
    ensures over == Terminal(gameState)
  {
    var g := gameState;
    if Blank !in g[0] {
      return true;
    }
    for row := 0 to |g|
      invariant forall r :: 0 <= r < row ==> !HasFour(g[r])
    {
      JoinedFourIff(g[row]);
      var rowString := Join(g[row]);
      if Matches(rowString, RedFour) || Matches(rowString, BlueFour) {
        return true;
      }
    }
    assert !RowWin(g);
    for col := 0 to |g[0]|
      invariant forall c :: 0 <= c < col ==> !HasFour(Column(g, c))
    {
      var currentColumnArray: seq<Cell> := [];
      for row := 0 to |g|
        invariant |currentColumnArray| == row
        invariant forall r :: 0 <= r < row ==> currentColumnArray[r] == g[r][col]
      {
        currentColumnArray := currentColumnArray + [g[row][col]];
      }
      assert currentColumnArray == Column(g, col);
      JoinedFourIff(currentColumnArray);
      var currentColumnString := Join(currentColumnArray);
      if Matches(currentColumnString, RedFour) || Matches(currentColumnString, BlueFour) {
        return true;
      }
    }
    assert !ColumnWin(g);
    for row := 0 to |g|
      invariant forall r, c :: 0 <= r < row && 0 <= c < |g[0]| ==> !DownRightFourAt(g, r, c)
    {
      for col := 0 to |g[row]|
        invariant forall r, c :: 0 <= r < row && 0 <= c < |g[0]| ==> !DownRightFourAt(g, r, c)
        invariant forall c :: 0 <= c < col ==> !DownRightFourAt(g, row, c)
      {
        // gameState[row+3] && gameState[row+3][col+3]: both exist
        if row + 3 < |g| && col + 3 < |g[row + 3]| {
          var diagRight := [g[row][col], g[row + 1][col + 1], g[row + 2][col + 2], g[row + 3][col + 3]];
          JoinedFourIff(diagRight);
          var diagRightString := Join(diagRight);
          if Matches(diagRightString, RedFour) || Matches(diagRightString, BlueFour) {
            var i :| 0 <= i < |diagRight| && FourAt(diagRight, i);
            assert i == 0 && DownRightFourAt(g, row, col);
            return true;
          }
          assert !FourAt(diagRight, 0);
        }
        // gameState[row-3] && gameState[row-3][col-3]: negative indices read undefined
        if row - 3 >= 0 && col - 3 >= 0 {
          var diagLeft := [g[row][col], g[row - 1][col - 1], g[row - 2][col - 2], g[row - 3][col - 3]];
          JoinedFourIff(diagLeft);
          var diagLeftString := Join(diagLeft);
          if Matches(diagLeftString, RedFour) || Matches(diagLeftString, BlueFour) {
            UpLeftIsDownRight(g, row, col);
            return true;
          }
        }
      }
    }
    return false;
  }

  // ---------------------------------------------------------------------
  // Properties of the verdict
  // ---------------------------------------------------------------------

  /** A board with nothing on it is not over (as long as it has a column). */
  lemma AllBlankNotTerminal(g: seq<seq<Cell>>)
    requires IsGrid(g) && |g[0]| > 0
    requires forall r, c :: 0 <= r < |g| && 0 <= c < |g[0]| ==> g[r][c] == Blank
    ensures !Terminal(g)
  {
    assert g[0][0] == Blank;
  }

  /** Blank cells never make a line: a line of blanks neither matches a pattern nor has four. */
  lemma BlankLineNeverCounts(cs: seq<Cell>)
    requires forall i :: 0 <= i < |cs| ==> cs[i] == Blank
    ensures !JoinedFour(cs) && !HasFour(cs)
  {
    JoinedFourIff(cs);
  }

  /** Four equal red or blue cells in a row, a column or a down-right diagonal end the game. */
  lemma LinesAreTerminal(g: seq<seq<Cell>>, r: int, c: int)
    requires IsGrid(g) && 0 <= r < |g| && 0 <= c < |g[0]|
    ensures c + 3 < |g[0]| && FourAt(g[r], c) ==> Terminal(g)
    ensures r + 3 < |g| && FourAt(Column(g, c), r) ==> Terminal(g)
    ensures DownRightFourAt(g, r, c) ==> Terminal(g)
  {
  }

  /**
   * With gravity, a full top row means a full column: the top-row test is a
   * full-board test on boards built by drops.
   */
  lemma {:induction false} FullColumnBelowTop(g: seq<seq<Cell>>, r: int, c: int)
    requires IsGrid(g) && Settled(g) && 0 <= r < |g| && 0 <= c < |g[0]|
    requires g[0][c] != Blank
    ensures g[r][c] != Blank
    decreases r
  {
    if r > 0 {
      FullColumnBelowTop(g, r - 1, c);
      assert Supported(g, r - 1, c);
    }
  }

  lemma FullTopRowMeansFullBoard(g: seq<seq<Cell>>)
    requires IsGrid(g) && Settled(g) && TopRowFull(g)
    ensures forall r, c :: 0 <= r < |g| && 0 <= c < |g[0]| ==> g[r][c] != Blank
  {
    forall r, c | 0 <= r < |g| && 0 <= c < |g[0]|
      ensures g[r][c] != Blank
    {
      assert g[0][c] in g[0];
      FullColumnBelowTop(g, r, c);
    }
  }

  /**
   * A 6 by 7 board holding only four red pieces on the cells (5, 0), (4, 1),
   * (3, 2) and (2, 3): four in a row along the other diagonal slope.
   */
  function AntiDiagonalBoard(): (g: seq<seq<Cell>>)
    ensures IsGrid(g) && |g| == 6 && |g[0]| == 7
  {
    seq(6, r => seq(7, c => if r + c == 5 && 2 <= r then Red else Blank))
  }

  /** Four in a row along (r + k, c - k) alone does not end the game. */
  lemma AntiDiagonalIgnored()
    ensures AntiDiagonalWin(AntiDiagonalBoard())
    ensures !Terminal(AntiDiagonalBoard())
  {
    var g := AntiDiagonalBoard();
    assert DownLeftFourAt(g, 2, 3);
    assert g[0][0] == Blank;
    forall r | 0 <= r < |g|
      ensures !HasFour(g[r])
    {
      forall i | 0 <= i < |g[r]|
        ensures !FourAt(g[r], i)
      {
        assert g[r][i] != Blank ==> g[r][i + 1] == Blank || i + 1 >= 7;
      }
    }
    forall c | 0 <= c < |g[0]|
      ensures !HasFour(Column(g, c))
    {
      var col := Column(g, c);
      forall i | 0 <= i < |col|
        ensures !FourAt(col, i)
      {
        assert col[i] != Blank ==> i + 1 >= 6 || col[i + 1] == Blank;
      }
    }
  }
}

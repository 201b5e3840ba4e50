/** The text rendering of one board (Game.go, getPlayerDisplay and getDisplay). */
module Display {
  import opened Ships
  import opened Cells

  /** The text emitted for the first `j` states of a row: each state, followed by a space
      unless it is the last state of the row. */
  function RowPrefix(row: seq<char>, j: nat): (r: string)
    requires j <= |row|
    ensures |r| == if j == |row| && j > 0 then 2 * j - 1 else 2 * j
  {
    if j == 0 then []
    else RowPrefix(row, j - 1) + [row[j - 1]] + (if j - 1 != |row| - 1 then " " else "")
  }

  /** One rendered row, newline-terminated. */
  function RowText(row: seq<char>): (r: string)
    ensures |row| > 0 ==> |r| == 2 * |row|
    ensures |r| > 0 && r[|r| - 1] == '\n'
  {
    RowPrefix(row, |row|) + "\n"
  }

  /** The text emitted for the first `i` rows. */
  function GridPrefix(rows: seq<seq<char>>, i: nat): string
    requires i <= |rows|
  {
    if i == 0 then [] else GridPrefix(rows, i - 1) + RowText(rows[i - 1])
  }

  function GridText(rows: seq<seq<char>>): string
  {
    GridPrefix(rows, |rows|)
  }

  /** The state character of every cell of a board. */
  function StateRows(board: seq<seq<Cell>>, ships: seq<Ship>, hidden: bool): (r: seq<seq<char>>)
    requires forall i, j :: 0 <= i < |board| && 0 <= j < |board[i]| ==> Linked(board[i][j], ships)
    ensures |r| == |board|
    ensures forall i :: 0 <= i < |board| ==> |r[i]| == |board[i]|
    ensures forall i, j :: 0 <= i < |board| && 0 <= j < |board[i]| ==>
              r[i][j] == GetState(board[i][j], ships, hidden)
  {
    seq(|board|, i requires 0 <= i < |board| =>
      seq(|board[i]|, j requires 0 <= j < |board[i]| => GetState(board[i][j], ships, hidden)))
  }

  /** `n` copies of `s`. */
  function Repeat(s: string, n: nat): string
  {
    if n == 0 then [] else Repeat(s, n - 1) + s
  }

  /** The line between the two boards of a view: twice as many dashes as the board is wide. */
  function Midline(width: nat): (r: string)
    ensures |r| == 2 * width + 1 && r[2 * width] == '\n'
    ensures forall k :: 0 <= k < 2 * width ==> r[k] == '-'
  {
    seq(2 * width, _ => '-') + "\n"
  }

  /** The row of an untouched ten-cell row. */
  const BlankRow: string := ". . . . . . . . . .\n"

  /** No upper-case letter except the miss marker 'X'. */
  predicate Masked(s: string)
  {
    forall k :: 0 <= k < |s| ==> s[k] == 'X' || !IsUpper(s[k])
  }

  /** After `j` states, the prefix holds each state at an even position and a space after
      every state but the last one of the row. */
  lemma {:induction false} RowPrefixShape(row: seq<char>, j: nat)
    requires j <= |row|
    ensures forall k :: 0 <= k < j ==> RowPrefix(row, j)[2 * k] == row[k]
    ensures forall k :: 0 <= k < j && k < |row| - 1 ==> RowPrefix(row, j)[2 * k + 1] == ' '
  {
    if j > 0 {
      RowPrefixShape(row, j - 1);
    }
  }

  /** A row of `w > 0` states renders as `2w` characters: the states separated by single
      spaces, then a newline. */
  lemma RowTextShape(row: seq<char>)
    requires |row| > 0
    ensures |RowText(row)| == 2 * |row|
    ensures forall k :: 0 <= k < |row| ==> RowText(row)[2 * k] == row[k]
    ensures forall k :: 0 <= k < |row| - 1 ==> RowText(row)[2 * k + 1] == ' '
    ensures RowText(row)[2 * |row| - 1] == '\n'
  {
    RowPrefixShape(row, |row|);
  }

  /** Rendering more rows only extends the text. */
  lemma {:induction false} GridPrefixExtends(rows: seq<seq<char>>, i: nat, n: nat)
    requires i <= n <= |rows|
    ensures |GridPrefix(rows, i)| <= |GridPrefix(rows, n)|
    ensures GridPrefix(rows, n)[..|GridPrefix(rows, i)|] == GridPrefix(rows, i)
  {
    if i < n {
      GridPrefixExtends(rows, i, n - 1);
      var p := GridPrefix(rows, n - 1);
      assert GridPrefix(rows, n) == p + RowText(rows[n - 1]);
      assert (p + RowText(rows[n - 1]))[..|p|] == p;
    }
  }

  /** Each row of `w > 0` states adds `2w` characters. */
  lemma {:induction false} GridPrefixLength(rows: seq<seq<char>>, n: nat, w: nat)
    requires n <= |rows| && w > 0
    requires forall i :: 0 <= i < |rows| ==> |rows[i]| == w
    ensures |GridPrefix(rows, n)| == n * (2 * w)
  {
    if n > 0 {
      GridPrefixLength(rows, n - 1, w);
      assert n * (2 * w) == (n - 1) * (2 * w) + 2 * w;
    }
  }

  /** Row `i` occupies the `i`-th block of `2w` characters of the text. */
  lemma GridPrefixBlock(rows: seq<seq<char>>, n: nat, w: nat, i: nat, m: nat)
    requires n <= |rows| && w > 0
    requires forall k :: 0 <= k < |rows| ==> |rows[k]| == w
    requires i < n && m < 2 * w
    ensures i * (2 * w) + m < |GridPrefix(rows, n)|
    ensures GridPrefix(rows, n)[i * (2 * w) + m] == RowText(rows[i])[m]
  {
    var off := i * (2 * w);
    GridPrefixLength(rows, i, w);
    GridPrefixLength(rows, i + 1, w);
    assert (i + 1) * (2 * w) == off + 2 * w;
    GridPrefixExtends(rows, i + 1, n);
    var whole := GridPrefix(rows, n);
    var upto := GridPrefix(rows, i + 1);
    assert upto == GridPrefix(rows, i) + RowText(rows[i]);
    assert upto[off + m] == RowText(rows[i])[m];
    assert whole[..|upto|][off + m] == upto[off + m];
  }

  /** A rendered board of `h` rows of `w > 0` states has `h * 2w` characters. */
  lemma GridTextLength(rows: seq<seq<char>>, w: nat)
    requires w > 0 && forall k :: 0 <= k < |rows| ==> |rows[k]| == w
    ensures |GridText(rows)| == |rows| * (2 * w)
  {
    GridPrefixLength(rows, |rows|, w);
  }

  /** The state of row i, column j sits at position `i * 2w + 2j` of the text ... */
  lemma StateAt(rows: seq<seq<char>>, w: nat, i: nat, j: nat)
    requires w > 0 && forall k :: 0 <= k < |rows| ==> |rows[k]| == w
    requires i < |rows| && j < w
    ensures i * (2 * w) + 2 * j < |GridText(rows)|
    ensures GridText(rows)[i * (2 * w) + 2 * j] == rows[i][j]
  {
    RowTextShape(rows[i]);
    GridPrefixBlock(rows, |rows|, w, i, 2 * j);
  }

  /** ... followed by a space when it is not the last state of its row ... */
  lemma SpaceAt(rows: seq<seq<char>>, w: nat, i: nat, j: nat)
    requires w > 0 && forall k :: 0 <= k < |rows| ==> |rows[k]| == w
    requires i < |rows| && j < w - 1
    ensures i * (2 * w) + 2 * j + 1 < |GridText(rows)|
    ensures GridText(rows)[i * (2 * w) + 2 * j + 1] == ' '
  {
    RowTextShape(rows[i]);
    GridPrefixBlock(rows, |rows|, w, i, 2 * j + 1);
  }

  /** ... and every row ends in a newline. */
  lemma NewlineAt(rows: seq<seq<char>>, w: nat, i: nat)
    requires w > 0 && forall k :: 0 <= k < |rows| ==> |rows[k]| == w
    requires i < |rows|
    ensures i * (2 * w) + (2 * w - 1) < |GridText(rows)|
    ensures GridText(rows)[i * (2 * w) + (2 * w - 1)] == '\n'
  {
    RowTextShape(rows[i]);
    GridPrefixBlock(rows, |rows|, w, i, 2 * w - 1);
  }

  /** Two masked texts joined are masked. */
  lemma MaskedConcat(a: string, b: string)
    requires Masked(a) && Masked(b)
    ensures Masked(a + b)
  {
    forall k | 0 <= k < |a + b|
      ensures (a + b)[k] == 'X' || !IsUpper((a + b)[k])
    {
      if k >= |a| {
        assert (a + b)[k] == b[k - |a|];
      }
    }
  }

  lemma {:induction false} MaskedRowPrefix(row: seq<char>, j: nat)
    requires j <= |row| && Masked(row)
    ensures Masked(RowPrefix(row, j))
  {
    if j > 0 {
      MaskedRowPrefix(row, j - 1);
      MaskedConcat(RowPrefix(row, j - 1), [row[j - 1]]);
      MaskedConcat(RowPrefix(row, j - 1) + [row[j - 1]], if j - 1 != |row| - 1 then " " else "");
    }
  }

  lemma {:induction false} MaskedGridPrefix(rows: seq<seq<char>>, n: nat)
    requires n <= |rows|
    requires forall i :: 0 <= i < |rows| ==> Masked(rows[i])
    ensures Masked(GridPrefix(rows, n))
  {
    if n > 0 {
      MaskedGridPrefix(rows, n - 1);
      MaskedRowPrefix(rows[n - 1], |rows[n - 1]|);
      MaskedConcat(RowPrefix(rows[n - 1], |rows[n - 1]|), "\n");
      MaskedConcat(GridPrefix(rows, n - 1), RowText(rows[n - 1]));
    }
  }

  /** A hidden board renders without any upper-case letter but 'X': no unstruck ship is
      revealed, and struck ships show in lower case. */
  lemma HiddenBoardIsMasked(board: seq<seq<Cell>>, ships: seq<Ship>)
    requires forall i, j :: 0 <= i < |board| && 0 <= j < |board[i]| ==> Linked(board[i][j], ships)
    ensures Masked(GridText(StateRows(board, ships, true)))
  {
    var rows := StateRows(board, ships, true);
    forall i | 0 <= i < |rows|
      ensures Masked(rows[i])
    {
      forall j | 0 <= j < |rows[i]|
        ensures rows[i][j] == 'X' || !IsUpper(rows[i][j])
      {
        HiddenStateIsMasked(board[i][j], ships);
      }
    }
    MaskedGridPrefix(rows, |rows|);
  }

  /** A row of ten '.' states renders as ". . . . . . . . . .\n". */
  lemma BlankRowText(row: seq<char>)
    requires |row| == 10 && forall j :: 0 <= j < 10 ==> row[j] == '.'
    ensures RowText(row) == BlankRow
  {
    RowTextShape(row);
    var t := RowText(row);
    forall m | 0 <= m < 20
      ensures t[m] == BlankRow[m]
    {
      if m % 2 == 0 {
        assert t[2 * (m / 2)] == row[m / 2];
      } else if m < 19 {
        assert t[2 * (m / 2) + 1] == ' ';
      }
    }
  }

  lemma {:induction false} BlankGridPrefix(rows: seq<seq<char>>, n: nat)
    requires n <= |rows|
    requires forall i :: 0 <= i < |rows| ==> RowText(rows[i]) == BlankRow
    ensures GridPrefix(rows, n) == Repeat(BlankRow, n)
  {
    if n > 0 {
      BlankGridPrefix(rows, n - 1);
    }
  }

  /** A ten-by-ten board of untouched, empty cells renders as ten copies of
      ". . . . . . . . . .\n", revealed or hidden. */
  lemma BlankBoardText(board: seq<seq<Cell>>, ships: seq<Ship>, hidden: bool)
    requires |board| == 10
    requires forall i :: 0 <= i < 10 ==> |board[i]| == 10
    requires forall i, j :: 0 <= i < 10 && 0 <= j < 10 ==> !board[i][j].hit && board[i][j].ship.None?
    ensures GridText(StateRows(board, ships, hidden)) == Repeat(BlankRow, 10)
  {
    var rows := StateRows(board, ships, hidden);
    forall i | 0 <= i < 10
      ensures RowText(rows[i]) == BlankRow
    {
      BlankRowText(rows[i]);
    }
    BlankGridPrefix(rows, 10);
  }
}

/** The game (Game.go): a grid per player, the two players and whose turn it is. */
module Games {
  import opened Wrappers
  import opened Points
  import opened Ships
  import opened Cells
  import opened Players
  import Display

  /** `(turn + 1) % playerNum`: the other player's turn. */
  function NextTurn(turn: int): (r: int)
    requires 0 <= turn < PlayerNum
    ensures 0 <= r < PlayerNum && r != turn
  {
    (turn + 1) % PlayerNum
  }

  /** Two turn changes give the turn back. */
  lemma NextTurnTwice(turn: int)
    requires 0 <= turn < PlayerNum
    ensures NextTurn(NextTurn(turn)) == turn
  {
  }

  /** A game as a value: whose turn it is, each player's board as rows of cells, and each
      player's fleet. */
  datatype Position = Position(turn: int, boards: seq<seq<seq<Cell>>>, fleets: seq<seq<Ship>>)

  /** The shape `Game.Valid` keeps, on a value. */
  predicate WellFormed(s: Position)
  {
    0 <= s.turn < PlayerNum && |s.boards| == PlayerNum && |s.fleets| == PlayerNum &&
    (forall i :: 0 <= i < PlayerNum ==> |s.boards[i]| == GridSize) &&
    (forall i, j :: 0 <= i < PlayerNum && 0 <= j < GridSize ==> |s.boards[i][j]| == GridSize) &&
    (forall i, j, k :: 0 <= i < PlayerNum && 0 <= j < GridSize && 0 <= k < GridSize ==>
       Linked(s.boards[i][j][k], s.fleets[i]))
  }

  /** Player i's board has a cell at (x, y), and player i has a fleet. */
  predicate HasCell(s: Position, i: int, x: int, y: int)
  {
    0 <= i < |s.boards| && i < |s.fleets| && 0 <= x < |s.boards[i]| && 0 <= y < |s.boards[i][x]|
  }

  /** `Hit(x, y)` on a value: cell (x, y) of the defender's board is struck and the defender's
      fleet takes the damage. A position without that cell, or whose cell refers past the
      fleet, is left as it is; `StrikeEffect` states the effect on a well-formed position. */
  function Strike(s: Position, x: int, y: int): (r: Position)
    ensures r.turn == s.turn && |r.boards| == |s.boards| && |r.fleets| == |s.fleets|
  {
    var d := 1 - s.turn;
    if HasCell(s, d, x, y) && Linked(s.boards[d][x][y], s.fleets[d]) then
      var c := s.boards[d][x][y];
      s.(boards := s.boards[d := s.boards[d][x := s.boards[d][x][y := Struck(c)]]],
         fleets := s.fleets[d := Damaged(c, s.fleets[d])])
    else s
  }

  /** On a well-formed position, exactly cell (x, y) of the defender's board is struck, the
      defender's fleet is damaged as `Damaged` says, and the mover's fleet and the turn stay;
      the result is well-formed again. */
  lemma StrikeEffect(s: Position, x: int, y: int)
    requires WellFormed(s) && 0 <= x < GridSize && 0 <= y < GridSize
    ensures WellFormed(Strike(s, x, y)) && Strike(s, x, y).turn == s.turn
    ensures Strike(s, x, y).boards[1 - s.turn][x][y] == Struck(s.boards[1 - s.turn][x][y])
    ensures forall i, j, k ::
              0 <= i < PlayerNum && 0 <= j < GridSize && 0 <= k < GridSize && (i != 1 - s.turn || j != x || k != y)
              ==> Strike(s, x, y).boards[i][j][k] == s.boards[i][j][k]
    ensures Strike(s, x, y).fleets[1 - s.turn] == Damaged(s.boards[1 - s.turn][x][y], s.fleets[1 - s.turn])
    ensures Strike(s, x, y).fleets[s.turn] == s.fleets[s.turn]
  {
    assert HasCell(s, 1 - s.turn, x, y);
  }

  /** The game is over on a value: the defender's fleet is destroyed. */
  predicate Finished(s: Position)
  {
    0 <= 1 - s.turn < |s.fleets| && AllDestroyed(s.fleets[1 - s.turn])
  }

  class Game {
    /** The player whose move is next; the other one defends. */
    var turn: int
    /** `grids[i, x, y]` is the cell (x, y) of player i's board. */
    const grids: array3<Cell>
    const players: array<Player>

    /** The shape of the game, and every cell's ship reference points into the ship array of
        the player owning the grid. */
    ghost predicate Valid()
      reads this, players, grids
    {
      0 <= turn < PlayerNum &&
      players.Length == PlayerNum &&
      grids.Length0 == PlayerNum && grids.Length1 == GridSize && grids.Length2 == GridSize &&
      players[0].ships != players[1].ships &&
      (forall i :: 0 <= i < PlayerNum ==> players[i].Valid()) &&
      (forall i, j, k :: 0 <= i < PlayerNum && 0 <= j < GridSize && 0 <= k < GridSize ==>
         (grids[i, j, k].ship.Some? ==> grids[i, j, k].ship.value < players[i].ships.Length))
    }

    /** The zero value `var game Game`: turn 0, zero-valued cells and players with `shipCount`
        zero-valued ships. */
    constructor Zero(shipCount: nat)
      requires shipCount <= MaxShips
      ensures Valid() && turn == 0
      ensures fresh(grids) && fresh(players)
      ensures forall i :: 0 <= i < PlayerNum ==>
                fresh(players[i]) && fresh(players[i].ships) && players[i].ships.Length == shipCount &&
                forall s :: 0 <= s < shipCount ==> players[i].ships[s] == Unnamed
      ensures forall i, j, k :: 0 <= i < PlayerNum && 0 <= j < GridSize && 0 <= k < GridSize ==>
                grids[i, j, k] == Cells.Blank
    {
      turn := 0;
      grids := new Cell[PlayerNum, GridSize, GridSize]((_, _, _) => Cells.Blank);
      var first := new Player.Zero(shipCount);
      var second := new Player.Zero(shipCount);
      players := new Player[] [first, second];
    }

    /** Player p's grid as a value. */
    ghost function Board(p: nat): (b: seq<seq<Cell>>)
      reads grids
      requires p < grids.Length0 && grids.Length1 == GridSize && grids.Length2 == GridSize
      ensures |b| == GridSize && forall i :: 0 <= i < GridSize ==> |b[i]| == GridSize
      ensures forall i, j :: 0 <= i < GridSize && 0 <= j < GridSize ==> b[i][j] == grids[p, i, j]
    {
      seq(GridSize, i requires 0 <= i < GridSize reads grids =>
        seq(GridSize, j requires 0 <= j < GridSize reads grids => grids[p, i, j]))
    }

    /** The whole game as a value. */
    ghost function State(): (r: Position)
      reads this, players, grids, players[0].ships, players[1].ships
      requires Valid()
      ensures WellFormed(r) && r.turn == turn
      ensures forall i :: 0 <= i < PlayerNum ==> r.fleets[i] == players[i].ships[..]
      ensures forall i, j, k :: 0 <= i < PlayerNum && 0 <= j < GridSize && 0 <= k < GridSize ==>
                r.boards[i][j][k] == grids[i, j, k]
    {
      Position(turn, [Board(0), Board(1)], [players[0].ships[..], players[1].ships[..]])
    }

    /** The text that shows player p's board. */
    ghost function View(p: nat, hidden: bool): string
      reads this, players, grids, players[p].ships
      requires Valid() && p < PlayerNum
    {
      Display.GridText(Display.StateRows(Board(p), players[p].ships[..], hidden))
    }

    /** `getPlayerDisplay(p, hidden)`: `GridSize` newline-terminated rows of the cells' state
        characters separated by single spaces. */
    method GetPlayerDisplay(p: nat, hidden: bool) returns (display: string)
      requires Valid() && p < PlayerNum
      ensures display == View(p, hidden)
      ensures |display| == GridSize * (2 * GridSize)
    {
      ghost var rows := Display.StateRows(Board(p), players[p].ships[..], hidden);
      display := "";
      for i := 0 to GridSize
        invariant display == Display.GridPrefix(rows, i)
      {
        ghost var done := display;
        assert |rows[i]| == GridSize;
        for j := 0 to GridSize
          invariant display == done + Display.RowPrefix(rows[i], j)
        {
          ghost var before := Display.RowPrefix(rows[i], j);
          var state := GetState(grids[p, i, j], players[p].ships[..], hidden);
          assert state == rows[i][j];
          display := display + [state];
          if j != GridSize - 1 {
            display := display + " ";
          }
          assert display == done + (before + [state] + if j != GridSize - 1 then " " else "");
        }
        display := display + "\n";
        assert display == done + Display.RowText(rows[i]);
      }
      assert display == Display.GridText(rows);
      Display.GridTextLength(rows, GridSize);
    }

    /** In the view of player p's board, the state of cell (i, j) sits at position 20i + 2j,
        followed by a space, or by the newline that ends the row. */
    lemma ViewLayout(p: nat, hidden: bool, i: nat, j: nat)
      requires Valid() && p < PlayerNum && i < GridSize && j < GridSize
      ensures |View(p, hidden)| == 200
      ensures View(p, hidden)[20 * i + 2 * j] == GetState(grids[p, i, j], players[p].ships[..], hidden)
      ensures View(p, hidden)[20 * i + 2 * j + 1] == if j < GridSize - 1 then ' ' else '\n'
    {
      var rows := Display.StateRows(Board(p), players[p].ships[..], hidden);
      Display.GridTextLength(rows, GridSize);
      Display.StateAt(rows, GridSize, i, j);
      if j < GridSize - 1 {
        Display.SpaceAt(rows, GridSize, i, j);
      } else {
        Display.NewlineAt(rows, GridSize, i);
      }
    }

    /** `changeTurn()` */
    method ChangeTurn()
      requires Valid()
      modifies this
      ensures Valid() && turn == NextTurn(old(turn))
      ensures State() == old(State()).(turn := turn)
    {
      turn := (turn + 1) % PlayerNum;
    }

    /** `Hit(x, y)`: strikes cell (x, y) of the defender's grid, the grid of player 1 - turn.
        No other cell changes, and only the struck cell's ship, if any, takes damage. */
    method Hit(x: int, y: int)
      requires Valid() && 0 <= x < GridSize && 0 <= y < GridSize
      modifies grids, players[1 - turn].ships
      ensures Valid() && turn == old(turn)
      ensures grids[1 - turn, x, y] == Struck(old(grids[1 - turn, x, y]))
      ensures forall i, j, k ::
                0 <= i < PlayerNum && 0 <= j < GridSize && 0 <= k < GridSize && (i != 1 - turn || j != x || k != y)
                ==> grids[i, j, k] == old(grids[i, j, k])
      ensures players[1 - turn].ships[..] == Damaged(old(grids[1 - turn, x, y]), old(players[1 - turn].ships[..]))
      ensures players[turn].ships[..] == old(players[turn].ships[..])
      ensures State() == Strike(old(State()), x, y)
    {
      var defender := 1 - turn;
      var cell := Cells.Hit(grids[defender, x, y], players[defender].ships);
      grids[defender, x, y] := cell;
      StrikeEffect(old(State()), x, y);
      SameState(Strike(old(State()), x, y), State());
    }

    /** `getDisplay(p)`: p's own board revealed, a line of dashes, the opponent's board hidden. */
    method GetDisplay(p: nat) returns (display: string)
      requires Valid() && p < PlayerNum
      ensures display == View(p, false) + Display.Midline(GridSize) + View(1 - p, true)
      ensures |display| == 2 * (GridSize * (2 * GridSize)) + 2 * GridSize + 1
      ensures Display.Masked(display[|View(p, false)| + |Display.Midline(GridSize)|..])
    {
      var midline := "";
      for i := 0 to 2 * GridSize
        invariant midline == seq(i, _ => '-')
      {
        midline := midline + "-";
      }
      midline := midline + "\n";
      var own := GetPlayerDisplay(p, false);
      var opponent := GetPlayerDisplay(1 - p, true);
      display := own + midline + opponent;
      Display.HiddenBoardIsMasked(Board(1 - p), players[1 - p].ships[..]);
      assert display[|own| + |midline|..] == opponent;
    }

    /** The defender, the player who is not about to move, has lost every ship. */
    ghost predicate Over()
      reads this, players, grids, players[1 - turn].ships
      requires Valid()
    {
      players[1 - turn].Defeated()
    }

    /** `isOver()` */
    method IsOver() returns (over: bool)
      requires Valid()
      ensures over <==> Over()
    {
      over := players[1 - turn].IsDefeated();
    }
  }

  /** Two positions that agree on the turn, on every cell and on both fleets are equal. */
  lemma SameState(t: Position, u: Position)
    requires WellFormed(t) && WellFormed(u) && t.turn == u.turn
    requires forall i :: 0 <= i < PlayerNum ==> t.fleets[i] == u.fleets[i]
    requires forall i, j, k :: 0 <= i < PlayerNum && 0 <= j < GridSize && 0 <= k < GridSize ==>
               t.boards[i][j][k] == u.boards[i][j][k]
    ensures t == u
  {
    forall i | 0 <= i < PlayerNum
      ensures t.boards[i] == u.boards[i]
    {
      forall j | 0 <= j < GridSize
        ensures t.boards[i][j] == u.boards[i][j]
      {
        assert forall k :: 0 <= k < GridSize ==> t.boards[i][j][k] == u.boards[i][j][k];
      }
    }
    assert t.boards == u.boards;
    assert t.fleets == u.fleets;
  }

  /** The grid loop of `NewGame`: gives every cell its own coordinates, unstruck and empty. */
  method FillGrids(g: Game)
    requires g.Valid()
    modifies g.grids
    ensures g.Valid()
    ensures forall i, j, k :: 0 <= i < PlayerNum && 0 <= j < GridSize && 0 <= k < GridSize ==>
              g.grids[i, j, k] == Cell(Point(j, k), None, false)
  {
    for i := 0 to PlayerNum
      invariant g.Valid()
      invariant forall a, b, c :: 0 <= a < PlayerNum && 0 <= b < GridSize && 0 <= c < GridSize ==>
                  g.grids[a, b, c] == if a < i then Cell(Point(b, c), None, false) else old(g.grids[a, b, c])
    {
      for j := 0 to GridSize
        invariant g.Valid()
        invariant forall a, b, c :: 0 <= a < PlayerNum && 0 <= b < GridSize && 0 <= c < GridSize ==>
                    g.grids[a, b, c] == if a < i || (a == i && b < j) then Cell(Point(b, c), None, false)
                                        else old(g.grids[a, b, c])
      {
        for k := 0 to GridSize
          invariant g.Valid()
          invariant forall a, b, c :: 0 <= a < PlayerNum && 0 <= b < GridSize && 0 <= c < GridSize ==>
                      g.grids[a, b, c] == if a < i || (a == i && (b < j || (b == j && c < k)))
                                          then Cell(Point(b, c), None, false)
                                          else old(g.grids[a, b, c])
        {
          g.grids[i, j, k] := Cell(Point(j, k), None, false);
        }
      }
    }
  }

  /** `NewGame()`: turn 0, players without placed ships, every cell at its own coordinates,
      unstruck and without a ship. Ships are not linked into the cells. */
  method NewGame() returns (g: Game)
    ensures fresh(g) && fresh(g.grids) && fresh(g.players)
    ensures g.Valid() && g.turn == 0
    ensures forall i :: 0 <= i < PlayerNum ==>
              g.players[i].ships.Length == ShipNum &&
              forall s :: 0 <= s < ShipNum ==> g.players[i].ships[s] == Unnamed
    ensures forall i, j, k :: 0 <= i < PlayerNum && 0 <= j < GridSize && 0 <= k < GridSize ==>
              g.grids[i, j, k] == Cell(Point(j, k), None, false)
    ensures forall p, hidden :: 0 <= p < PlayerNum ==>
              g.View(p, hidden) == Display.Repeat(Display.BlankRow, GridSize)
  {
    g := new Game.Zero(ShipNum);
    for i := 0 to PlayerNum
      invariant g.Valid() && g.turn == 0 && fresh(g.grids) && fresh(g.players)
      invariant forall a :: 0 <= a < PlayerNum ==> fresh(g.players[a].ships) && g.players[a].ships.Length == ShipNum
      invariant forall a :: 0 <= a < i ==> forall s :: 0 <= s < ShipNum ==> g.players[a].ships[s] == Unnamed
    {
      g.players[i] := new Player.Zero(ShipNum);
    }
    FillGrids(g);
    forall p, hidden | 0 <= p < PlayerNum
      ensures g.View(p, hidden) == Display.Repeat(Display.BlankRow, GridSize)
    {
      Display.BlankBoardText(g.Board(p), g.players[p].ships[..], hidden);
    }
  }

  /** Before any placement every ship is the zero ship, which counts as destroyed, so a fresh
      game already reports that it is over. */
  method NewGameIsAlreadyOver() returns (over: bool)
    ensures over
  {
    var g := NewGame();
    over := g.IsOver();
  }
}

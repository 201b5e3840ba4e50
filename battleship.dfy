/** The monolithic server file (Battleship.go): its own fleet, the `NewGame` that links ships
    into cells, and the game-state step of the session's turn loop. */
module Battleship {
  import opened Wrappers
  import opened Points
  import Ships
  import opened Cells
  import opened Players
  import opened Games

  /** This file gives every player a single ship. */
  const ShipNum: nat := 1

  /** The ship every `NewPlayer` ship starts as: named 'A' + i, covering (0, 0) and (0, 1). */
  function Placed(i: nat): (s: Ships.Ship)
    requires i < MaxShips
    ensures s.name == ('A' as int + i) as char && s.parts == [Point(0, 0), Point(0, 1)] && s.timesHit == 0
  {
    Ships.Ship(('A' as int + i) as char, [Point(0, 0), Point(0, 1)], 0)
  }

  /** `NewPlayer()`: ship i is named 'A' + i and covers (0, 0) and (0, 1). */
  method NewPlayer() returns (p: Player)
    ensures fresh(p) && fresh(p.ships) && p.Valid() && p.ships.Length == ShipNum
    ensures forall i :: 0 <= i < ShipNum ==> p.ships[i] == Placed(i)
  {
    p := new Player.Zero(ShipNum);
    for i := 0 to ShipNum
      invariant forall a :: 0 <= a < i ==> p.ships[a] == Placed(a)
      invariant forall a :: i <= a < ShipNum ==> p.ships[a] == Ships.Unnamed
    {
      p.ships[i] := Ships.SetName(p.ships[i], ('A' as int + i) as char);
      p.ships[i] := Ships.AppendPoint(p.ships[i], [Point(0, 0), Point(0, 1)]);
    }
  }

  /** The cell reference the linking loop leaves at `pt` after the first `n` ships: the last
      of them that covers `pt`, or none. */
  function Owner(ships: seq<Ships.Ship>, n: nat, pt: Point): (r: Option<nat>)
    requires n <= |ships|
    ensures r.Some? ==> r.value < n && pt in ships[r.value].parts &&
                        forall j :: r.value < j < n ==> pt !in ships[j].parts
    ensures r.None? <==> forall j :: 0 <= j < n ==> pt !in ships[j].parts
  {
    if n == 0 then None
    else if pt in ships[n - 1].parts then Some(n - 1)
    else Owner(ships, n - 1, pt)
  }

  /** When no two ships share a point, each part of ship j refers to ship j. */
  lemma OwnerOfDisjointFleet(ships: seq<Ships.Ship>, j: nat, pt: Point)
    requires forall a, b :: 0 <= a < b < |ships| ==>
               forall q :: q in ships[a].parts ==> q !in ships[b].parts
    requires j < |ships| && pt in ships[j].parts
    ensures Owner(ships, |ships|, pt) == Some(j)
  {
  }

  /** The linking loop of `NewGame`: for each player i and each part p of each of i's ships j,
      cell p of grid i refers to ship j. */
  method LinkShips(g: Game)
    requires g.Valid()
    requires forall i, j, k :: 0 <= i < PlayerNum && 0 <= j < GridSize && 0 <= k < GridSize ==>
               g.grids[i, j, k].ship.None?
    requires forall i, s, m ::
               0 <= i < PlayerNum && 0 <= s < g.players[i].ships.Length && 0 <= m < |g.players[i].ships[s].parts|
               ==> 0 <= g.players[i].ships[s].parts[m].x < GridSize && 0 <= g.players[i].ships[s].parts[m].y < GridSize
    modifies g.grids
    ensures g.Valid()
    ensures forall i, j, k :: 0 <= i < PlayerNum && 0 <= j < GridSize && 0 <= k < GridSize ==>
              g.grids[i, j, k] == old(g.grids[i, j, k]).(ship := Owner(g.players[i].ships[..], g.players[i].ships.Length, Point(j, k)))
  {
    for i := 0 to PlayerNum
      invariant g.Valid()
      invariant forall a, b, c :: 0 <= a < PlayerNum && 0 <= b < GridSize && 0 <= c < GridSize ==>
                  g.grids[a, b, c] == if a < i
                    then old(g.grids[a, b, c]).(ship := Owner(g.players[a].ships[..], g.players[a].ships.Length, Point(b, c)))
                    else old(g.grids[a, b, c])
    {
      var ships := g.players[i].ships;
      for j := 0 to ships.Length
        invariant g.Valid()
        invariant forall a, b, c :: 0 <= a < PlayerNum && 0 <= b < GridSize && 0 <= c < GridSize ==>
                    g.grids[a, b, c] == if a < i
                      then old(g.grids[a, b, c]).(ship := Owner(g.players[a].ships[..], g.players[a].ships.Length, Point(b, c)))
                      else if a == i then old(g.grids[a, b, c]).(ship := Owner(ships[..], j, Point(b, c)))
                      else old(g.grids[a, b, c])
      {
        var ship := ships[j];
        for k := 0 to |ship.parts|
          invariant g.Valid()
          invariant forall a, b, c :: 0 <= a < PlayerNum && 0 <= b < GridSize && 0 <= c < GridSize ==>
                      g.grids[a, b, c] == if a < i
                        then old(g.grids[a, b, c]).(ship := Owner(g.players[a].ships[..], g.players[a].ships.Length, Point(b, c)))
                        else if a == i then old(g.grids[a, b, c]).(ship :=
                          if Point(b, c) in ship.parts[..k] then Some(j) else Owner(ships[..], j, Point(b, c)))
                        else old(g.grids[a, b, c])
        {
          var p := ship.parts[k];
          assert ship.parts[..k + 1] == ship.parts[..k] + [p];
          g.grids[i, p.x, p.y] := g.grids[i, p.x, p.y].(ship := Some(j));
        }
        assert ship.parts[..|ship.parts|] == ship.parts;
      }
    }
  }

  /** `NewGame()`: both players get the `NewPlayer` fleet, every cell is at its coordinates and
      unstruck, and each cell covered by a ship refers to the last ship covering it. */
  method NewGame() returns (g: Game)
    ensures fresh(g) && fresh(g.grids) && fresh(g.players)
    ensures g.Valid() && g.turn == 0
    ensures forall i :: 0 <= i < PlayerNum ==> fresh(g.players[i].ships) && g.players[i].ships[..] == [Placed(0)]
    ensures forall i, j, k :: 0 <= i < PlayerNum && 0 <= j < GridSize && 0 <= k < GridSize ==>
              g.grids[i, j, k] == Cell(Point(j, k), Owner(g.players[i].ships[..], ShipNum, Point(j, k)), false)
    ensures forall i, j, k :: 0 <= i < PlayerNum && 0 <= j < GridSize && 0 <= k < GridSize ==>
              g.grids[i, j, k].ship == if Point(j, k) in Placed(0).parts then Some(0) else None
    ensures !g.Over()
  {
    g := new Game.Zero(ShipNum);
    for i := 0 to PlayerNum
      invariant g.Valid() && g.turn == 0 && fresh(g.grids) && fresh(g.players)
      invariant forall a :: 0 <= a < PlayerNum ==> fresh(g.players[a].ships) && g.players[a].ships.Length == ShipNum
      invariant forall a :: 0 <= a < i ==> g.players[a].ships[..] == [Placed(0)]
    {
      g.players[i] := NewPlayer();
      assert g.players[i].ships[..] == [Placed(0)];
    }
    FillGrids(g);
    LinkShips(g);
    assert !Ships.IsDestroyed(g.players[1 - g.turn].ships[0]);
  }

  /** A move that lies on the board. */
  predicate OnGrid(m: Point)
  {
    0 <= m.x < GridSize && 0 <= m.y < GridSize
  }

  /** The position after one pass of the session loop, and the winner it declares, if any. */
  datatype Outcome = Outcome(after: Position, winner: Option<nat>)

  /** One pass of the session loop on a value: the move strikes the defender's board; if the
      defender's fleet is then destroyed, the mover wins and the turn stays, otherwise there
      is no winner and the turn passes. */
  function Move(s: Position, m: Point): (r: Outcome)
    requires 0 <= s.turn < PlayerNum && OnGrid(m)
    ensures 0 <= r.after.turn < PlayerNum
    ensures r.winner.Some? ==> r.winner == Some(s.turn) && r.after.turn == s.turn
    ensures r.winner.None? ==> r.after.turn == NextTurn(s.turn)
  {
    var t := Strike(s, m.x, m.y);
    if Finished(t) then Outcome(t, Some(s.turn)) else Outcome(t.(turn := NextTurn(s.turn)), None)
  }

  /** On a well-formed position, a move strikes as `Strike` does and leaves a well-formed
      position; it wins exactly when the defender's fleet is then destroyed, and the winner's
      defender has indeed lost. */
  lemma MoveEffect(s: Position, m: Point)
    requires WellFormed(s) && OnGrid(m)
    ensures WellFormed(Move(s, m).after)
    ensures Move(s, m).after.boards == Strike(s, m.x, m.y).boards
    ensures Move(s, m).after.fleets == Strike(s, m.x, m.y).fleets
    ensures Move(s, m).winner.Some? <==> AllDestroyed(Move(s, m).after.fleets[1 - s.turn])
    ensures Move(s, m).winner.Some? ==> Finished(Move(s, m).after)
  {
    StrikeEffect(s, m.x, m.y);
  }

  /** Where the session loop stands: the position, the winner if one was declared, and how
      many moves were read. */
  datatype Session = Session(after: Position, winner: Option<nat>, used: nat)

  /** The session loop on a value: it applies the moves in order and stops right after the
      first winning move. Without a winner every move is used and the turn has passed once per
      move; with one, the winner is the player whose turn it still is. */
  function Run(s: Position, moves: seq<Point>): (r: Session)
    requires 0 <= s.turn < PlayerNum
    requires forall m :: 0 <= m < |moves| ==> OnGrid(moves[m])
    ensures 0 <= r.after.turn < PlayerNum && r.used <= |moves|
    ensures r.winner.None? ==> r.used == |moves| && r.after.turn == (s.turn + |moves|) % PlayerNum
    ensures r.winner.Some? ==> 0 < r.used && r.winner.value == r.after.turn
    decreases |moves|
  {
    if |moves| == 0 then Session(s, None, 0)
    else
      var o := Move(s, moves[0]);
      if o.winner.Some? then Session(o.after, o.winner, 1)
      else var r := Run(o.after, moves[1..]); Session(r.after, r.winner, r.used + 1)
  }

  /** The loop keeps a well-formed position, and a declared winner has destroyed the other
      player's fleet. */
  lemma {:induction false} RunWellFormed(s: Position, moves: seq<Point>)
    requires WellFormed(s)
    requires forall m :: 0 <= m < |moves| ==> OnGrid(moves[m])
    ensures WellFormed(Run(s, moves).after)
    ensures Run(s, moves).winner.Some? ==> Finished(Run(s, moves).after)
    decreases |moves|
  {
    if |moves| > 0 {
      MoveEffect(s, moves[0]);
      if Move(s, moves[0]).winner.None? {
        RunWellFormed(Move(s, moves[0]).after, moves[1..]);
      }
    }
  }

  /** Once a winner is declared, the moves sent afterwards are never read. */
  lemma {:induction false} RunIgnoresLaterMoves(s: Position, moves: seq<Point>, more: seq<Point>)
    requires 0 <= s.turn < PlayerNum
    requires forall m :: 0 <= m < |moves| ==> OnGrid(moves[m])
    requires forall m :: 0 <= m < |more| ==> OnGrid(more[m])
    requires Run(s, moves).winner.Some?
    ensures Run(s, moves + more) == Run(s, moves)
    decreases |moves|
  {
    assert (moves + more)[0] == moves[0];
    if Move(s, moves[0]).winner.None? {
      assert (moves + more)[1..] == moves[1..] + more;
      RunIgnoresLaterMoves(Move(s, moves[0]).after, moves[1..], more);
    }
  }

  /** A position u and winner w that differ from s exactly as one pass of the session loop
      prescribes are the outcome of `Move`. */
  lemma MoveMatches(s: Position, m: Point, u: Position, w: Option<nat>)
    requires WellFormed(s) && OnGrid(m) && WellFormed(u)
    requires u.boards[1 - s.turn][m.x][m.y] == Struck(s.boards[1 - s.turn][m.x][m.y])
    requires forall i, j, k ::
               0 <= i < PlayerNum && 0 <= j < GridSize && 0 <= k < GridSize && (i != 1 - s.turn || j != m.x || k != m.y)
               ==> u.boards[i][j][k] == s.boards[i][j][k]
    requires u.fleets[1 - s.turn] == Damaged(s.boards[1 - s.turn][m.x][m.y], s.fleets[1 - s.turn])
    requires u.fleets[s.turn] == s.fleets[s.turn]
    requires AllDestroyed(u.fleets[1 - s.turn]) ==> w == Some(s.turn) && u.turn == s.turn
    requires !AllDestroyed(u.fleets[1 - s.turn]) ==> w == None && u.turn == NextTurn(s.turn)
    ensures Outcome(u, w) == Move(s, m)
  {
    MoveEffect(s, m);
    StrikeEffect(s, m.x, m.y);
    var r := Move(s, m).after;
    forall i | 0 <= i < PlayerNum
      ensures u.fleets[i] == r.fleets[i]
    {
    }
    SameState(u, r);
  }

  /** One pass of the session loop after the move (x, y) has been read: the move strikes the
      defender's grid; if the defender is now defeated, the mover wins and the turn stays,
      otherwise the turn passes. Sending the boards and messages is not modelled. */
  method Step(g: Game, x: int, y: int) returns (winner: Option<nat>)
    requires g.Valid() && 0 <= x < GridSize && 0 <= y < GridSize
    modifies g, g.grids, g.players[0].ships, g.players[1].ships
    ensures g.Valid()
    ensures g.grids[1 - old(g.turn), x, y] == Struck(old(g.grids[1 - g.turn, x, y]))
    ensures forall i, j, k ::
              0 <= i < PlayerNum && 0 <= j < GridSize && 0 <= k < GridSize && (i != 1 - old(g.turn) || j != x || k != y)
              ==> g.grids[i, j, k] == old(g.grids[i, j, k])
    ensures g.players[1 - old(g.turn)].ships[..]
            == Damaged(old(g.grids[1 - g.turn, x, y]), old(g.players[1 - g.turn].ships[..]))
    ensures g.players[old(g.turn)].ships[..] == old(g.players[g.turn].ships[..])
    ensures g.players[1 - old(g.turn)].Defeated() ==> winner == Some(old(g.turn)) && g.turn == old(g.turn)
    ensures !g.players[1 - old(g.turn)].Defeated() ==> winner == None && g.turn == NextTurn(old(g.turn))
  {
    g.Hit(x, y);
    var over := g.IsOver();
    if over {
      winner := Some(g.turn);
    } else {
      winner := None;
      g.ChangeTurn();
    }
  }

  /** `Step` on the game is `Move` on its position. */
  method Turn(g: Game, m: Point) returns (winner: Option<nat>)
    requires g.Valid() && OnGrid(m)
    modifies g, g.grids, g.players[0].ships, g.players[1].ships
    ensures g.Valid()
    ensures Outcome(g.State(), winner) == Move(old(g.State()), m)
    ensures winner.Some? ==> g.Over() && winner.value == g.turn
  {
    ghost var before := g.State();
    winner := Step(g, m.x, m.y);
    MoveMatches(before, m, g.State(), winner);
  }

  /** The session loop over the moves the players send in turn. It applies the moves in order
      and stops right after the first winning move; without one it uses every move and would
      wait for the next. */
  method Play(g: Game, moves: seq<Point>) returns (winner: Option<nat>, used: nat)
    requires g.Valid()
    requires forall m :: 0 <= m < |moves| ==> OnGrid(moves[m])
    modifies g, g.grids, g.players[0].ships, g.players[1].ships
    ensures g.Valid()
    ensures Session(g.State(), winner, used) == Run(old(g.State()), moves)
    ensures winner.Some? ==> g.Over() && winner.value == g.turn
  {
    ghost var start := g.State();
    winner, used := None, 0;
    while used < |moves| && winner.None?
      invariant g.Valid() && used <= |moves|
      invariant winner.None? ==> var r := Run(g.State(), moves[used..]);
                                 Run(start, moves) == Session(r.after, r.winner, r.used + used)
      invariant winner.Some? ==> Run(start, moves) == Session(g.State(), winner, used)
      invariant winner.Some? ==> g.Over() && winner.value == g.turn
    {
      winner := Turn(g, moves[used]);
      assert moves[used..][1..] == moves[used + 1..];
      used := used + 1;
    }
  }

  /** In a fresh game, striking both cells of the defender's only ship makes the game over. */
  method SinkingTheOnlyShipEndsTheGame() returns (over: bool)
    ensures over
  {
    var g := NewGame();
    g.Hit(0, 0);
    g.Hit(0, 1);
    over := g.IsOver();
  }

  /** Player 0 strikes (0, 0), player 1 misses at (5, 5), player 0 strikes (0, 1): player 0
      has sunk player 1's fleet and wins on the third move. */
  method FirstPlayerWinsInThreeMoves() returns (first: Option<nat>, second: Option<nat>, third: Option<nat>)
    ensures first == None && second == None && third == Some(0)
  {
    var g := NewGame();
    first := Step(g, 0, 0);
    second := Step(g, 5, 5);
    third := Step(g, 0, 1);
  }
}

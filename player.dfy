/** Players (Player.go). */
module Players {
  import opened Points
  import opened Ships

  /** Board dimension and number of players. */
  const GridSize: nat := 10
  const PlayerNum: nat := 2

  /** Ship names are 'A' + index, which stays an upper-case letter for at most 26 ships. */
  const MaxShips: nat := 26

  /** The `ShipSize` points a ship placed at (x, y) covers: along y when `dir` is
      "horizontal", along x for any other direction. */
  function Run(x: int, y: int, dir: string): (r: seq<Point>)
    ensures |r| == ShipSize
  {
    seq(ShipSize, j => if dir == "horizontal" then Point(x, y + j) else Point(x + j, y))
  }

  /** The run is contiguous: its j-th point is j steps from (x, y) along one axis. */
  lemma RunIsContiguous(x: int, y: int, dir: string, j: nat)
    requires j < ShipSize
    ensures dir == "horizontal" ==> Run(x, y, dir)[j] == Point(x, y + j)
    ensures dir != "horizontal" ==> Run(x, y, dir)[j] == Point(x + j, y)
  {
  }

  /** Every ship of a fleet is destroyed. */
  predicate AllDestroyed(fleet: seq<Ship>)
  {
    forall i :: 0 <= i < |fleet| ==> IsDestroyed(fleet[i])
  }

  /** A player owns a fixed-size array of ships. */
  class Player {
    const ships: array<Ship>

    ghost predicate Valid()
    {
      ships.Length <= MaxShips
    }

    /** The zero value `Player{}`: `count` zero-valued ships. */
    constructor Zero(count: nat)
      requires count <= MaxShips
      ensures Valid() && fresh(ships) && ships.Length == count
      ensures forall i :: 0 <= i < count ==> ships[i] == Unnamed
    {
      ships := new Ship[count](_ => Unnamed);
    }

    /** `initShip(index, x, y, dir)`: names ship `index` 'A' + index and appends the
        `ShipSize` points of `Run(x, y, dir)` to its parts; no other ship changes. */
    method InitShip(index: nat, x: int, y: int, dir: string)
      requires Valid() && index < ships.Length
      modifies ships
      ensures ships[index].name == ('A' as int + index) as char
      ensures ships[index].timesHit == old(ships[index].timesHit)
      ensures ships[index].parts == old(ships[index].parts) + Run(x, y, dir)
      ensures forall i :: 0 <= i < ships.Length && i != index ==> ships[i] == old(ships[i])
    {
      ghost var before := ships[index];
      ghost var run := Run(x, y, dir);
      var name := ('A' as int + index) as char;
      if dir == "horizontal" {
        ships[index] := SetName(ships[index], name);
        for j := 0 to ShipSize
          invariant ships[index].name == name && ships[index].timesHit == before.timesHit
          invariant ships[index].parts == before.parts + run[..j]
          invariant forall i :: 0 <= i < ships.Length && i != index ==> ships[i] == old(ships[i])
        {
          assert run[..j + 1] == run[..j] + [Point(x, y + j)];
          ships[index] := AppendPoint(ships[index], [Point(x, y + j)]);
        }
      } else {
        ships[index] := SetName(ships[index], name);
        for j := 0 to ShipSize
          invariant ships[index].name == name && ships[index].timesHit == before.timesHit
          invariant ships[index].parts == before.parts + run[..j]
          invariant forall i :: 0 <= i < ships.Length && i != index ==> ships[i] == old(ships[i])
        {
          assert run[..j + 1] == run[..j] + [Point(x + j, y)];
          ships[index] := AppendPoint(ships[index], [Point(x + j, y)]);
        }
      }
      assert run[..ShipSize] == run;
    }

    /** Every ship of the player is destroyed. */
    ghost predicate Defeated()
      reads ships
    {
      AllDestroyed(ships[..])
    }

    /** `isDefeated()`: scans the ships and stops at the first one still afloat. */
    method IsDefeated() returns (defeated: bool)
      ensures defeated <==> Defeated()
    {
      var i := 0;
      while i < ships.Length
        invariant 0 <= i <= ships.Length
        invariant forall k :: 0 <= k < i ==> IsDestroyed(ships[k])
      {
        if !IsDestroyed(ships[i]) {
          return false;
        }
        i := i + 1;
      }
      return true;
    }
  }
}

/** Points and board cells (Cell.go). */
module Points {
  /** A pair of board coordinates. */
  datatype Point = Point(x: int, y: int)
}

module Cells {
  import opened Wrappers
  import opened Points
  import opened Ships

  /** A cell: its coordinates, the index of the occupying ship in the owning player's ship
      array (Go's `*Ship`, nil being None), and whether it has been struck. */
  datatype Cell = Cell(coordinates: Point, ship: Option<nat>, hit: bool)

  /** The zero value `Cell{}`. */
  const Blank: Cell := Cell(Point(0, 0), None, false)

  /** The cell's ship reference, if any, points into `ships`. */
  predicate Linked(c: Cell, ships: seq<Ship>)
  {
    c.ship.Some? ==> c.ship.value < |ships|
  }

  predicate IsHit(c: Cell)
  {
    c.hit
  }

  predicate HasShip(c: Cell)
  {
    c.ship.Some?
  }

  /** The cell after `hit()`: struck, at the same place, referring to the same ship. */
  function Struck(c: Cell): (r: Cell)
    ensures IsHit(r)
    ensures r.coordinates == c.coordinates && r.ship == c.ship
  {
    c.(hit := true)
  }

  /** The owner's ships after `hit()` on `c`: the referenced ship takes one strike, no other
      ship changes, and striking an empty cell changes no ship at all. */
  function Damaged(c: Cell, ships: seq<Ship>): (r: seq<Ship>)
    requires Linked(c, ships)
    ensures |r| == |ships|
    ensures c.ship.Some? ==> r[c.ship.value] == Ships.Hit(ships[c.ship.value])
    ensures forall j :: 0 <= j < |ships| && c.ship != Some(j) ==> r[j] == ships[j]
  {
    if HasShip(c) then ships[c.ship.value := Ships.Hit(ships[c.ship.value])] else ships
  }

  /** `hit()`: strikes the ship through the cell's reference, then marks the cell. */
  method Hit(c: Cell, ships: array<Ship>) returns (r: Cell)
    requires Linked(c, ships[..])
    modifies ships
    ensures r == Struck(c)
    ensures ships[..] == Damaged(c, old(ships[..]))
  {
    if HasShip(c) {
      ships[c.ship.value] := Ships.Hit(ships[c.ship.value]);
    }
    r := Struck(c);
  }

  predicate IsUpper(ch: char)
  {
    'A' <= ch <= 'Z'
  }

  /** `unicode.ToLower` restricted to ASCII: upper-case letters move to lower case, every other
      character is kept. */
  function ToLower(ch: char): (r: char)
    ensures !IsUpper(r)
    ensures IsUpper(ch) ==> 'a' <= r <= 'z' && r as int - ch as int == 'a' as int - 'A' as int
    ensures !IsUpper(ch) ==> r == ch
  {
    if IsUpper(ch) then (ch as int - 'A' as int + 'a' as int) as char else ch
  }

  /** `getState(hidden)`: the character that shows this cell on a board. A struck cell shows
      its ship's name lower-cased, or 'X' for a miss, whatever `hidden` is; an unstruck cell
      shows '.' when hidden, and otherwise its ship's name, or '.' when empty. */
  function GetState(c: Cell, ships: seq<Ship>, hidden: bool): (r: char)
    requires Linked(c, ships)
    ensures IsHit(c) && HasShip(c) ==> r == ToLower(ships[c.ship.value].name)
    ensures IsHit(c) && !HasShip(c) ==> r == 'X'
    ensures !IsHit(c) && hidden ==> r == '.'
    ensures !IsHit(c) && !hidden && HasShip(c) ==> r == ships[c.ship.value].name
    ensures !IsHit(c) && !hidden && !HasShip(c) ==> r == '.'
  {
    if IsHit(c) then
      if HasShip(c) then ToLower(ships[c.ship.value].name) else 'X'
    else if hidden then '.'
    else if HasShip(c) then ships[c.ship.value].name
    else '.'
  }

  /** A hidden cell never shows an upper-case letter other than the miss marker 'X'. */
  lemma HiddenStateIsMasked(c: Cell, ships: seq<Ship>)
    requires Linked(c, ships)
    ensures GetState(c, ships, true) == 'X' || !IsUpper(GetState(c, ships, true))
  {
  }

  /** Striking the same occupied cell twice costs its ship two hits: `hit()` is not idempotent. */
  lemma StrikingTwiceDamagesTwice(c: Cell, ships: seq<Ship>)
    requires Linked(c, ships) && HasShip(c)
    ensures Damaged(Struck(c), Damaged(c, ships))[c.ship.value].timesHit
            == ships[c.ship.value].timesHit + 2
    ensures IsHit(Struck(Struck(c)))
  {
  }

  /** A miss shows 'X' afterwards and leaves every ship as it was. */
  lemma MissLeavesFleet(c: Cell, ships: seq<Ship>, hidden: bool)
    requires !HasShip(c)
    ensures Damaged(c, ships) == ships
    ensures GetState(Struck(c), ships, hidden) == 'X'
  {
  }
}

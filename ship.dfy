/** Ships (Ship.go). */
module Ships {
  import opened Points

  /** Ships per player and cells per ship in the split source files. */
  const ShipNum: nat := 5
  const ShipSize: nat := 4

  /** A ship: its one-letter name, the points it covers and how often it has been struck.
      Go keeps ships by value inside a player's array, so each pointer-receiver method below
      is a function returning the updated ship, which the caller stores back in its slot. */
  datatype Ship = Ship(name: char, parts: seq<Point>, timesHit: int)

  /** The zero value `Ship{}`: rune 0, no parts, no hits. */
  const Unnamed: Ship := Ship('\0', [], 0)

  /** `appendPoint(p...)`: the old parts stay a prefix, the new points follow in order. */
  function AppendPoint(s: Ship, ps: seq<Point>): (r: Ship)
    ensures |r.parts| == |s.parts| + |ps|
    ensures r.parts[..|s.parts|] == s.parts && r.parts[|s.parts|..] == ps
    ensures r.name == s.name && r.timesHit == s.timesHit
  {
    s.(parts := s.parts + ps)
  }

  function GetName(s: Ship): char
  {
    s.name
  }

  /** `setName(n)`: only the name changes. */
  function SetName(s: Ship, name: char): (r: Ship)
    ensures r.name == name && r.parts == s.parts && r.timesHit == s.timesHit
  {
    s.(name := name)
  }

  /** A ship is destroyed when it has been struck exactly as often as it has parts. */
  predicate IsDestroyed(s: Ship)
  {
    s.timesHit == |s.parts|
  }

  /** `hit()`: one more strike, with no upper bound. */
  function Hit(s: Ship): (r: Ship)
    ensures r.timesHit == s.timesHit + 1
    ensures r.name == s.name && r.parts == s.parts
  {
    s.(timesHit := s.timesHit + 1)
  }

  /** The ship after `k` calls of `hit()`. */
  function HitTimes(s: Ship, k: nat): (r: Ship)
    ensures r.timesHit == s.timesHit + k
    ensures r.name == s.name && r.parts == s.parts
  {
    if k == 0 then s else Hit(HitTimes(s, k - 1))
  }

  lemma SetNameThenGetName(s: Ship, name: char)
    ensures GetName(SetName(s, name)) == name
    ensures SetName(s, name).parts == s.parts && SetName(s, name).timesHit == s.timesHit
  {
  }

  /** A ship with no parts and no hits, such as the zero value, already counts as destroyed. */
  lemma EmptyShipIsDestroyed(s: Ship)
    requires s.parts == [] && s.timesHit == 0
    ensures IsDestroyed(s)
    ensures IsDestroyed(Unnamed)
  {
  }

  /** From an unstruck ship, the ship is destroyed after exactly `|parts|` hits and no other
      number of hits; in particular one hit too many makes it intact again. */
  lemma {:induction false} DestroyedExactlyAfterAllHits(s: Ship, k: nat)
    requires s.timesHit == 0
    ensures IsDestroyed(HitTimes(s, k)) <==> k == |s.parts|
    ensures IsDestroyed(HitTimes(s, |s.parts|))
    ensures !IsDestroyed(HitTimes(s, |s.parts| + 1))
  {
  }
}

/** The unit kinds a tile can hold, their space and which kinds they beat. */
module Units {

  datatype Unit = Citizen | Soldier | Cavalry | Ranger | Knight | Scout

  datatype UnitData = UnitData(name: string, description: string, space: int, beats: seq<Unit>)

  /** Every unit kind, each once (the order of the enum). */
  const AllUnits: seq<Unit> := [Citizen, Soldier, Cavalry, Ranger, Knight, Scout]

  /** The rule table `Unit::data`: every unit takes one unit of space and
      none beats its own kind. */
  function Data(u: Unit): (d: UnitData)
    ensures d.space == 1
    ensures u !in d.beats
  {
    match u
    case Citizen => UnitData("Citizen", "A normal citizen of the faction", 1, [])
    case Soldier => UnitData("Soldier", "A regular soldier", 1, [Citizen])
    case Cavalry => UnitData("Cavalry", "A fast moving cavalry unit", 1, [Soldier])
    case Ranger => UnitData("Ranger", "A long range unit", 1, [Soldier, Cavalry])
    case Knight => UnitData("Knight", "A heavy hitting knight", 1, [Cavalry, Soldier])
    case Scout => UnitData("Scout", "A fast moving scout", 1, [Citizen])
  }

  /** Whether `a` beats `b` according to the table. */
  predicate Beats(a: Unit, b: Unit)
  {
    b in Data(a).beats
  }

  /** A strength ordering that every win goes down: Citizen 0, Soldier and
      Scout 1, Cavalry 2, Ranger and Knight 3. */
  function Tier(u: Unit): nat
  {
    match u
    case Citizen => 0
    case Soldier => 1
    case Scout => 1
    case Cavalry => 2
    case Ranger => 3
    case Knight => 3
  }

  /** The winner of every win is on a strictly higher tier. */
  lemma BeatsDescends(a: Unit, b: Unit)
    requires Beats(a, b)
    ensures Tier(b) < Tier(a)
  {
  }

  /** The wins the table lists. */
  lemma ListedWins()
    ensures Beats(Soldier, Citizen)
    ensures Beats(Cavalry, Soldier)
    ensures Beats(Ranger, Soldier) && Beats(Ranger, Cavalry)
    ensures Beats(Knight, Cavalry) && Beats(Knight, Soldier)
    ensures Beats(Scout, Citizen)
  {
  }

  /** Citizens beat nothing, and nothing beats a Ranger, a Knight or a Scout. */
  lemma Unbeaten(u: Unit)
    ensures !Beats(Citizen, u)
    ensures !Beats(u, Ranger) && !Beats(u, Knight) && !Beats(u, Scout)
  {
  }

  /** Each unit in `path` beats the next one. */
  predicate BeatsChain(path: seq<Unit>)
  {
    forall i :: 0 <= i < |path| - 1 ==> Beats(path[i], path[i + 1])
  }

  /** Along a chain of wins the tier strictly drops. */
  lemma {:induction false} ChainDescends(path: seq<Unit>)
    requires |path| >= 2 && BeatsChain(path)
    ensures Tier(path[|path| - 1]) < Tier(path[0])
  {
    BeatsDescends(path[0], path[1]);
    if |path| > 2 {
      assert BeatsChain(path[1..]) by {
        forall i | 0 <= i < |path[1..]| - 1 ensures Beats(path[1..][i], path[1..][i + 1]) {
          assert Beats(path[i + 1], path[i + 2]);
        }
      }
      ChainDescends(path[1..]);
    }
  }

  /** The beats relation has no cycle: a chain of one or more wins never
      comes back to the unit it started from. */
  lemma NoBeatsCycle(path: seq<Unit>)
    requires |path| >= 2 && BeatsChain(path)
    ensures path[0] != path[|path| - 1]
  {
    ChainDescends(path);
  }

  /** `AllUnits` lists every kind once. */
  lemma AllUnitsComplete(u: Unit)
    ensures u in AllUnits
    ensures forall i, j :: 0 <= i < j < |AllUnits| ==> AllUnits[i] != AllUnits[j]
  {
  }
}

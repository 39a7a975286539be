/** The building kinds a tile can hold and their fixed cost and space. */
module Buildings {

  datatype Building = Farm | Mine | Capital | House | Hut

  datatype BuildingData = BuildingData(name: string, description: string, cost: int, space: int)

  /** Every building kind, each once (the order of the enum). */
  const AllBuildings: seq<Building> := [Farm, Mine, Capital, House, Hut]

  /** The rule table `Building::data`. Every kind takes between 1 and 100
      units of a tile's space of 100, costs nothing negative, and only the
      Capital fills a whole tile. */
  function Data(b: Building): (d: BuildingData)
    ensures 1 <= d.space <= 100 && 0 <= d.cost
    ensures d.space == 100 <==> b == Capital
    ensures d.cost == 0 <==> b == Capital
  {
    match b
    case Farm => BuildingData("Farm", "A farm that produces food", 100, 1)
    case Mine => BuildingData("Mine", "A mine that produces ore", 100, 4)
    case Capital => BuildingData("Capital", "The capital of the faction", 0, 100)
    case House => BuildingData("House", "A house that people can live in", 100, 10)
    case Hut => BuildingData("Hut", "A hut that people can live in", 50, 5)
  }

  /** The cost and space of each kind, as the table fixes them. */
  lemma CostAndSpace()
    ensures Data(Farm).cost == 100 && Data(Farm).space == 1
    ensures Data(Mine).cost == 100 && Data(Mine).space == 4
    ensures Data(Capital).cost == 0 && Data(Capital).space == 100
    ensures Data(House).cost == 100 && Data(House).space == 10
    ensures Data(Hut).cost == 50 && Data(Hut).space == 5
  {
  }

  /** `AllBuildings` lists every kind once. */
  lemma AllBuildingsComplete(b: Building)
    ensures b in AllBuildings
    ensures forall i, j :: 0 <= i < j < |AllBuildings| ==> AllBuildings[i] != AllBuildings[j]
  {
  }
}

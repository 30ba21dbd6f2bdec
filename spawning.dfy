/**
 * How the model creates agents: the parameters it reads from its
 * properties, the values its random generators give one initialise call,
 * the new agent records, where they are placed, and the batches of agents
 * the release and recruitment checks add with consecutive ids.
 */
module Spawning {
  import opened Common
  import opened Agents
  import E = EpithelialCells
  import V = Virions
  import I = InnateCells
  import S = SpecialisedCells

  /** The part of the grid one rank handles: its origin and its extents (a rank handles at least one grid point). */
  datatype Bounds = Region(originX: int, originY: int, extentX: int, extentY: int)

  type Region = r: Bounds | r.extentX >= 1 && r.extentY >= 1 witness Region(0, 0, 1, 1)

  predicate InRegion(region: Region, p: Point)
  {
    region.originX <= p.x < region.originX + region.extentX &&
    region.originY <= p.y < region.originY + region.extentY
  }

  /** The properties the agents are created with (population sizes and per-kind parameters). */
  datatype Config = Config(
    countOfVirionAgents: int,
    countOfInnateImmuneCellAgents: int,
    countOfSpecialisedImmuneCellAgents: int,
    extracellularVirusReleaseProb: real,
    cellToCellTransmissionProb: real,
    virionPenetrationProbability: real,
    virionClearanceProbability: real,
    virionClearanceProbabilityScaler: real,
    innateImmuneCellInfectedCellRecognitionProb: real,
    innateImmuneCellInfectedCellEliminationProb: real,
    innateImmuneCellRecruitSpecImmuneCellProb: real,
    innateImmuneCellRecruitRateOfInnateCell: real,
    specialisedImmuneCellRecruitRateOfInnateCell: real,
    specialisedImmuneCellInfectedCellRecognitionProb: real,
    specialisedImmuneCellInfectedCellEliminationProb: real,
    specialisedImmuneCellRecruitRateOfSpecCell: real)

  /**
   * What the random generators give one initialise call: the normal draws
   * as the values their rejection loops accept, and each uniform integer
   * draw as a uniform draw on [0, 1) that UniformInt maps onto its range.
   */
  datatype Generated = Generated(
    lifespan: int,
    ageDraw: Draw,
    infectedLifespan: int,
    divisionRate: int,
    divisionDraw: Draw,
    displayDelay: real,
    releaseDelay: real,
    releaseRate: real,
    xDraw: Draw,
    yDraw: Draw)

  /**
   * The exit test of the release-delay loop as written: the loop stops once
   * the delay is at least 1 or exceeds the display delay.
   */
  predicate ReleaseDelayAcceptedAsWritten(releaseDelay: real, displayDelay: real)
  {
    !(releaseDelay < 1.0 && releaseDelay <= displayDelay)
  }

  /**
   * The exit test the loop is meant to have: a release delay is kept only
   * when it is at least 1 and larger than the display delay.
   */
  predicate ReleaseDelayAccepted(releaseDelay: real, displayDelay: real)
  {
    !(releaseDelay < 1.0 || releaseDelay <= displayDelay)
  }

  /**
   * The values the rejection loops let through (each `while (x < bound)`
   * redraws until the bound is met), the release delay by its loop as written.
   */
  predicate Accepted(g: Generated)
  {
    g.lifespan >= 1 && g.infectedLifespan >= 1 && g.divisionRate >= 1 && g.displayDelay >= 1.0 &&
    ReleaseDelayAcceptedAsWritten(g.releaseDelay, g.displayDelay) && g.releaseRate >= 0.1
  }

  type SpawnDraw = g: Generated | Accepted(g) witness Generated(1, 0.0, 1, 1, 0.0, 1.0, 2.0, 0.1, 0.0, 0.0)

  /** The values the generators give the initialise call with draw index i. */
  function Drawn(random: nat -> SpawnDraw, i: nat): SpawnDraw
  {
    random(i)
  }

  /** An integer uniform generator on [lo, hi], both ends included, driven by a draw on [0, 1). */
  function UniformInt(u: Draw, lo: int, hi: int): (r: int)
    requires lo <= hi
    ensures lo <= r <= hi
  {
    var n := (hi - lo + 1) as real;
    assert u * n < n by {
      assert n - u * n == (1.0 - u) * n;
    }
    lo + (u * n).Floor
  }

  /** A place drawn uniformly in the rank's part of the grid, one coordinate per extent. */
  function RandomPlacement(region: Region, g: SpawnDraw): (p: Point)
    ensures InRegion(region, p)
  {
    Point(region.originX + UniformInt(g.xDraw, 0, region.extentX - 1),
          region.originY + UniformInt(g.yDraw, 0, region.extentY - 1))
  }

  /**
   * Where init puts the epithelial cell with index i: it lays the region
   * out column by column, extentY cells to a column, so index i sits at
   * column i / extentY and row i % extentY.
   */
  function GridPoint(region: Region, i: int): Point
  {
    Point(region.originX + i / region.extentY, region.originY + i % region.extentY)
  }

  /** The index init gives the cell at column x and row y of the region is placed there. */
  lemma GridPointOfIndex(region: Region, x: int, y: int)
    requires 0 <= x && 0 <= y < region.extentY
    ensures GridPoint(region, x * region.extentY + y) == Point(region.originX + x, region.originY + y)
  {
    var h := region.extentY;
    var q, r := (x * h + y) / h, (x * h + y) % h;
    assert q * h + r == x * h + y && 0 <= r < h;
    if q < x {
      assert (x - q) * h == x * h - q * h;
      ColumnsApart(x - q, h);
    } else if q > x {
      assert (q - x) * h == q * h - x * h;
      ColumnsApart(q - x, h);
    }
  }

  /** Indices a whole number of columns apart are at least a column apart. */
  lemma {:induction false} ColumnsApart(a: int, h: int)
    requires 1 <= a && 1 <= h
    ensures a * h >= h
  {
    if a > 1 {
      ColumnsApart(a - 1, h);
      assert a * h == (a - 1) * h + h;
    }
  }

  /**
   * The keys init has issued once it has laid cells epithelial cells and
   * seeded the given numbers of virions, innate cells and specialised
   * cells: ids from 0 upwards, per agent type, all started on this rank.
   */
  predicate Seeded(k: Key, rank: int, cells: int, virions: int, innate: int, specialised: int)
  {
    k.startRank == rank && 0 <= k.id &&
    if k.agentType == 0 then k.id < cells
    else if k.agentType == 1 then k.id < virions
    else if k.agentType == 2 then k.id < innate
    else if k.agentType == 3 then k.id < specialised
    else false
  }

  /** An agent as init and recruitment make it: an unharmed epithelial cell, a free virion, a healthy immune cell. */
  predicate Pristine(a: Agent)
  {
    match a
    case Epithelial(c) => c.internal == E.Healthy && c.external == E.SeeminglyHealthy
    case Virion(v) => v.state == V.FreeVirion
    case Innate(c) => c.state == I.Healthy
    case Specialised(c) => c.state == S.Healthy
  }

  /**
   * The placement of a specialised immune cell as written: the x offset is
   * drawn over the x extent, and so is the y offset.
   */
  function SpecialisedPlacementAsWritten(region: Region, g: SpawnDraw): (p: Point)
    ensures region.originX <= p.x < region.originX + region.extentX
    ensures region.originY <= p.y < region.originY + region.extentX
  {
    Point(region.originX + UniformInt(g.xDraw, 0, region.extentX - 1),
          region.originY + UniformInt(g.yDraw, 0, region.extentX - 1))
  }

  /**
   * A cell of the initial tissue (initialiseEpithelialCellAgent with no
   * existing object): owned by this rank, healthy, with an age up to its
   * lifespan and a division timer up to its division rate, nothing pending.
   */
  function NewEpithelialCell(rank: int, index: int, config: Config, g: SpawnDraw): (c: E.EpithelialCell)
    ensures c.id == AgentId(index, rank, 0, rank)
    ensures c.internal == E.Healthy && c.external == E.SeeminglyHealthy && c.timeInfected == 0
    ensures 1 <= c.lifespan && 0 <= c.age <= c.lifespan
    ensures 1 <= c.divisionRate && 0 <= c.timeSinceLastDivision <= c.divisionRate
    ensures 1 <= c.infectedLifespan && 1.0 <= c.displayDelay && 1.0 <= c.releaseDelay && 0.1 <= c.releaseRate
    ensures c.modification == E.NoModification && c.target == NoTarget && c.countToRelease == 0 && !c.toRelease
  {
    E.NewCell(AgentId(index, rank, 0, rank), g.lifespan, UniformInt(g.ageDraw, 0, g.lifespan),
              g.infectedLifespan, g.divisionRate, UniformInt(g.divisionDraw, 0, g.divisionRate),
              g.releaseDelay, g.displayDelay, config.extracellularVirusReleaseProb,
              config.cellToCellTransmissionProb, g.releaseRate)
  }

  /**
   * Division into a dead cell (initialiseEpithelialCellAgent with an
   * existing object): the cell object is reset to a fresh healthy cell of
   * age 0 with new parameters, keeping its identity and owning rank.
   */
  function Revived(c: E.EpithelialCell, config: Config, g: SpawnDraw): (r: E.EpithelialCell)
    ensures r.id == c.id
    ensures r.internal == E.Healthy && r.external == E.SeeminglyHealthy
    ensures r.age == 0 && r.timeInfected == 0 && r.timeSinceLastDivision == 0
    ensures r.countToRelease == 0 && r.remainder == 0.0
    ensures r.modification == E.NoModification && r.target == NoTarget
    ensures 1 <= r.lifespan && 1 <= r.infectedLifespan && 1 <= r.divisionRate
    ensures 1.0 <= r.displayDelay && 1.0 <= r.releaseDelay && 0.1 <= r.releaseRate
  {
    TruncOfInt(g.lifespan);
    TruncOfInt(0);
    E.SetFields(c, c.id.currentRank, g.lifespan as real, 0 as real, E.Healthy, E.SeeminglyHealthy,
                g.infectedLifespan, 0, g.divisionRate, 0, g.releaseDelay, g.displayDelay,
                E.NoModification, NoTarget, config.extracellularVirusReleaseProb,
                config.cellToCellTransmissionProb, g.releaseRate, 0, 0.0)
  }

  /** initialiseVirionAgent: a free virion of this rank; a released one starts at age 0, an initial one at an age up to its lifespan. */
  function NewVirion(rank: int, index: int, isAReleasedVirus: bool, config: Config, g: SpawnDraw): (v: V.Virion)
    ensures v.id == AgentId(index, rank, 1, rank) && v.state == V.FreeVirion
    ensures 1 <= v.lifespan && 0 <= v.age <= v.lifespan
    ensures isAReleasedVirus ==> v.age == 0
  {
    V.Virion(AgentId(index, rank, 1, rank), g.lifespan,
             if isAReleasedVirus then 0 else UniformInt(g.ageDraw, 0, g.lifespan),
             V.FreeVirion, config.virionPenetrationProbability, config.virionClearanceProbability,
             config.virionClearanceProbabilityScaler)
  }

  /** initialiseInnateImmuneCellAgent: a healthy cell of this rank with nothing to recruit; a recruited one starts at age 0. */
  function NewInnateCell(rank: int, id: int, isRecruitedCell: bool, config: Config, g: SpawnDraw): (c: I.InnateCell)
    ensures c.id == AgentId(id, rank, 2, rank) && c.state == I.Healthy
    ensures 1 <= c.lifespan && 0 <= c.age <= c.lifespan
    ensures isRecruitedCell ==> c.age == 0
    ensures c.innateToRecruit == 0 && c.specToRecruit == 0 && !c.toRecruitSpec && !c.toRecruitInnate
  {
    I.InnateCell(AgentId(id, rank, 2, rank), g.lifespan,
                 if isRecruitedCell then 0 else UniformInt(g.ageDraw, 0, g.lifespan), I.Healthy,
                 config.innateImmuneCellInfectedCellRecognitionProb,
                 config.innateImmuneCellInfectedCellEliminationProb,
                 config.innateImmuneCellRecruitSpecImmuneCellProb,
                 config.innateImmuneCellRecruitRateOfInnateCell,
                 config.specialisedImmuneCellRecruitRateOfInnateCell, 0, 0.0, 0, 0.0, false, false)
  }

  /**
   * initialiseSpecialisedImmuneCellAgent: a healthy cell of this rank. The
   * age drawn for an initial cell is never stored, so every specialised
   * cell starts at age 0.
   */
  function NewSpecialisedCell(rank: int, id: int, config: Config, g: SpawnDraw): (c: S.SpecialisedCell)
    ensures c.id == AgentId(id, rank, 3, rank) && c.state == S.Healthy
    ensures 1 <= c.lifespan && c.age == 0
    ensures c.specToRecruit == 0 && !c.toRecruitSpec
  {
    S.SpecialisedCell(AgentId(id, rank, 3, rank), g.lifespan, 0, S.Healthy,
                      config.specialisedImmuneCellInfectedCellRecognitionProb,
                      config.specialisedImmuneCellInfectedCellEliminationProb,
                      config.specialisedImmuneCellRecruitRateOfSpecCell, 0, 0.0, false)
  }

  /** The three ways the model adds agents in batches. */
  datatype Spawn = ReleasedVirion | RecruitedInnate | RecruitedSpecialised

  function TypeOf(spawn: Spawn): int
  {
    match spawn
    case ReleasedVirion => 1
    case RecruitedInnate => 2
    case RecruitedSpecialised => 3
  }

  /** One agent of a batch, made with its own generated values. */
  function Made(spawn: Spawn, rank: int, id: int, config: Config, g: SpawnDraw): (a: Agent)
    ensures IdOf(a) == AgentId(id, rank, TypeOf(spawn), rank) && WellKinded(a)
  {
    match spawn
    case ReleasedVirion => Virion(NewVirion(rank, id, true, config, g))
    case RecruitedInnate => Innate(NewInnateCell(rank, id, true, config, g))
    case RecruitedSpecialised => Specialised(NewSpecialisedCell(rank, id, config, g))
  }

  /**
   * A batch of new agents created by this rank under consecutive ids
   * first .. first + n - 1, the j-th made with the generated values at
   * index + j.
   */
  function Batch(spawn: Spawn, rank: int, config: Config, random: nat -> SpawnDraw, first: int, n: nat, index: nat): map<Key, Agent>
  {
    if n == 0 then map[]
    else Batch(spawn, rank, config, random, first, n - 1, index)[
      Key(first + n - 1, rank, TypeOf(spawn)) := Made(spawn, rank, first + n - 1, config, Drawn(random, index + n - 1))]
  }

  /** Where the initialise call of agent type t puts a cell it places at a drawn point. */
  function PlacementOf(t: int, region: Region, g: SpawnDraw): Point
  {
    if t == 3 then SpecialisedPlacementAsWritten(region, g) else RandomPlacement(region, g)
  }

  /** Where recruited cells of agent type t with ids first .. first + n - 1 are placed: each at its own drawn place. */
  function RecruitPlaces(rank: int, t: int, region: Region, random: nat -> SpawnDraw, first: int, n: nat, index: nat): map<Key, Point>
  {
    if n == 0 then map[]
    else RecruitPlaces(rank, t, region, random, first, n - 1, index)[
      Key(first + n - 1, rank, t) := PlacementOf(t, region, Drawn(random, index + n - 1))]
  }

  /** A batch holds exactly the keys of its ids. */
  lemma {:induction false} BatchKeys(spawn: Spawn, rank: int, config: Config, random: nat -> SpawnDraw, first: int, n: nat, index: nat)
    ensures forall k :: k in Batch(spawn, rank, config, random, first, n, index) <==>
              k.startRank == rank && k.agentType == TypeOf(spawn) && first <= k.id < first + n
  {
    if n > 0 {
      BatchKeys(spawn, rank, config, random, first, n - 1, index);
    }
  }

  /** The agent with id first + j in a batch is the one made with the values generated at index + j. */
  lemma {:induction false} BatchValues(spawn: Spawn, rank: int, config: Config, random: nat -> SpawnDraw, first: int, n: nat, index: nat)
    ensures var m := Batch(spawn, rank, config, random, first, n, index);
      forall id :: first <= id < first + n ==>
        Key(id, rank, TypeOf(spawn)) in m &&
        m[Key(id, rank, TypeOf(spawn))] == Made(spawn, rank, id, config, Drawn(random, index + (id - first)))
  {
    if n > 0 {
      BatchValues(spawn, rank, config, random, first, n - 1, index);
    }
  }

  /**
   * A batch holds exactly the keys of its ids, each mapped to the agent made
   * for it.
   */
  lemma BatchIs(spawn: Spawn, rank: int, config: Config, random: nat -> SpawnDraw, first: int, n: nat, index: nat)
    ensures var m := Batch(spawn, rank, config, random, first, n, index);
      && (forall k :: k in m <==> k.startRank == rank && k.agentType == TypeOf(spawn) && first <= k.id < first + n)
      && (forall k :: k in m ==> m[k] == Made(spawn, rank, k.id, config, Drawn(random, index + (k.id - first))))
  {
    BatchKeys(spawn, rank, config, random, first, n, index);
    BatchValues(spawn, rank, config, random, first, n, index);
    var m := Batch(spawn, rank, config, random, first, n, index);
    forall k | k in m
      ensures m[k] == Made(spawn, rank, k.id, config, Drawn(random, index + (k.id - first)))
    {
      assert k == Key(k.id, rank, TypeOf(spawn));
    }
  }

  /** One more agent in a batch is one more entry, under the next id, made with the next generated values. */
  lemma BatchOneMore(spawn: Spawn, rank: int, config: Config, random: nat -> SpawnDraw, first: int, n: nat, index: nat)
    ensures Batch(spawn, rank, config, random, first, n + 1, index) ==
      Batch(spawn, rank, config, random, first, n, index)[Key(first + n, rank, TypeOf(spawn)) :=
        Made(spawn, rank, first + n, config, Drawn(random, index + n))]
  {
  }

  /** One more recruited cell's place, under the next id, drawn with the next generated values. */
  lemma RecruitPlacesOneMore(rank: int, t: int, region: Region, random: nat -> SpawnDraw, first: int, n: nat, index: nat)
    ensures RecruitPlaces(rank, t, region, random, first, n + 1, index) ==
      RecruitPlaces(rank, t, region, random, first, n, index)[Key(first + n, rank, t) := PlacementOf(t, region, Drawn(random, index + n))]
  {
  }

  /**
   * The places of n recruited cells: one per new key, each drawn in the
   * rank's columns; an innate cell's also in its rows, a specialised cell's
   * among as many rows as the region has columns.
   */
  lemma {:induction false} RecruitPlacesAre(rank: int, t: int, region: Region, random: nat -> SpawnDraw, first: int, n: nat, index: nat)
    ensures var m := RecruitPlaces(rank, t, region, random, first, n, index);
      && (forall k :: k in m <==> k.startRank == rank && k.agentType == t && first <= k.id < first + n)
      && (forall k :: k in m ==> region.originX <= m[k].x < region.originX + region.extentX)
      && (t != 3 ==> forall k :: k in m ==> InRegion(region, m[k]))
      && (t == 3 ==> forall k :: k in m ==> region.originY <= m[k].y < region.originY + region.extentX)
  {
    if n > 0 {
      RecruitPlacesAre(rank, t, region, random, first, n - 1, index);
    }
  }

  /** Every agent a batch adds is new-born: free or healthy, at age 0, with nothing pending. */
  lemma BatchAgentsAreNew(spawn: Spawn, rank: int, config: Config, random: nat -> SpawnDraw, first: int, n: nat, index: nat)
    ensures var m := Batch(spawn, rank, config, random, first, n, index);
      forall k :: k in m ==>
        match m[k]
        case Epithelial(_) => false
        case Virion(v) => spawn == ReleasedVirion && v.age == 0 && v.state == V.FreeVirion
        case Innate(c) => spawn == RecruitedInnate && c.age == 0 && c.state == I.Healthy && c.innateToRecruit == 0
        case Specialised(c) => spawn == RecruitedSpecialised && c.age == 0 && c.state == S.Healthy && c.specToRecruit == 0
  {
    BatchIs(spawn, rank, config, random, first, n, index);
  }

  /** Every given key placed at one point (released virions start where their cell is). */
  function AllAt(keys: set<Key>, p: Point): (m: map<Key, Point>)
    ensures m.Keys == keys && forall k :: k in m ==> m[k] == p
  {
    map k | k in keys :: p
  }

  /**
   * The release-delay loop as written lets through a delay that does not
   * exceed the display delay: a cell then starts displaying and releasing
   * at the release delay, before its display delay is reached.
   */
  lemma ReleaseDelayGuardAsWrittenAcceptsEarlyRelease()
    ensures ReleaseDelayAcceptedAsWritten(1.5, 3.0) && !(1.5 > 3.0)
    ensures !ReleaseDelayAccepted(1.5, 3.0)
  {
  }

  /**
   * What the early delay does to a cell: infected for two ticks, past the
   * release delay of 1.5 but not the display delay of 3, it already displays
   * viral proteins, because production starts the display at the release
   * delay.
   */
  lemma EarlyReleaseDisplaysBeforeDisplayDelay(config: Config, near: seq<E.Neighbour>, d: Draws)
    ensures var g := Generated(5, 0.0, 5, 1, 0.0, 3.0, 1.5, 0.1, 0.0, 0.0);
      var c := NewEpithelialCell(0, 0, config, g).(internal := E.Infected, timeInfected := 1);
      var r := E.InfectedStep(c, near, d);
      && Accepted(g)
      && r.timeInfected == 2 && (r.timeInfected as real) <= c.displayDelay
      && r.external == E.DisplayingViralProtein
  {
  }

  /**
   * The intended exit test keeps the order the delays are meant to have: a
   * cell made from a release delay it accepts starts releasing only after it
   * has started displaying viral proteins.
   */
  lemma IntendedReleaseFollowsDisplay(rank: int, index: int, config: Config, g: SpawnDraw)
    requires ReleaseDelayAccepted(g.releaseDelay, g.displayDelay)
    ensures var c := NewEpithelialCell(rank, index, config, g);
      1.0 <= c.displayDelay < c.releaseDelay
  {
  }

  /** What each exit test guarantees, in both directions. */
  lemma ReleaseDelayGuards(releaseDelay: real, displayDelay: real)
    ensures ReleaseDelayAcceptedAsWritten(releaseDelay, displayDelay) <==> releaseDelay >= 1.0 || releaseDelay > displayDelay
    ensures ReleaseDelayAccepted(releaseDelay, displayDelay) <==> releaseDelay >= 1.0 && releaseDelay > displayDelay
  {
  }

  /**
   * The specialised placement as written can leave the rank's region: on a
   * region twice as wide as it is high, a y draw of 0.9 lands three rows up
   * in a region two rows high.
   */
  lemma SpecialisedPlacementAsWrittenLeavesRegion()
    ensures var g := Generated(1, 0.0, 1, 1, 0.0, 1.0, 2.0, 0.1, 0.0, 0.9);
      && Accepted(g)
      && !InRegion(Region(0, 0, 4, 2), SpecialisedPlacementAsWritten(Region(0, 0, 4, 2), g))
      && InRegion(Region(0, 0, 4, 2), RandomPlacement(Region(0, 0, 4, 2), g))
  {
    var g: SpawnDraw := Generated(1, 0.0, 1, 1, 0.0, 1.0, 2.0, 0.1, 0.0, 0.9);
    assert (0.9 * 4.0).Floor == 3;
  }

  /** On a region that is at least as high as it is wide, the placement as written stays in the region. */
  lemma SpecialisedPlacementAsWrittenOnTallRegions(region: Region, g: SpawnDraw)
    requires 1 <= region.extentX <= region.extentY
    ensures InRegion(region, SpecialisedPlacementAsWritten(region, g))
  {
  }
}

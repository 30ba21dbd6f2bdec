/**
 * The model object of one rank: its store of agents (local ones and the
 * replicas of its neighbours' agents), their grid points, the id counters
 * of the kinds it creates, and the operations that create, revive, infect
 * and remove agents around the agents' own steps.
 */
module VirusCellModels {
  import opened Common
  import opened Agents
  import opened Spawning
  import opened Reconciliation
  import opened Packages
  import opened PackagePattern
  import E = EpithelialCells
  import V = Virions
  import I = InnateCells
  import S = SpecialisedCells

  /** What one local agent's step reads: the keys its grid queries report and its draws. */
  datatype StepInput = StepInput(near: seq<Key>, here: seq<Key>, draws: Draws)

  /** Everything a tick changes: the store, the owned keys, the grid points, the three id counters and the draw index. */
  datatype Snapshot = Snapshot(agents: map<Key, Agent>, local: set<Key>, location: map<Key, Point>,
                               virionId: int, innateId: int, specialisedId: int, drawIndex: nat)

  class VirusCellModel {
    const rank: int
    const config: Config
    /** The part of the grid this rank handles. */
    const region: Region
    /** The values the random generators give the successive initialise calls. */
    const random: nat -> SpawnDraw
    /** How many initialise calls have drawn from the generators so far. */
    var drawIndex: nat

    /** The shared context: every agent this rank holds, local or a replica, by key. */
    var agents: map<Key, Agent>
    /** The keys of the agents this rank owns. */
    var local: set<Key>
    /** Each agent's grid point. */
    var location: map<Key, Point>

    var currVirionAgentId: int
    var currInnateImmuneCellAgendId: int
    var currSpecialisedImmuneCellAgentId: int

    /**
     * The store is consistent: each agent under its own key and of the kind
     * its type names, owned agents are stored, every stored agent has a grid
     * point, and owned epithelial cells lie in this rank's region.
     */
    ghost predicate Stored()
      reads this
    {
      Keyed(agents) && local <= agents.Keys && location.Keys == agents.Keys &&
      (forall k {:trigger location[k], k in local} :: k in local && k.agentType == 0 ==> InRegion(region, location[k]))
    }

    /**
     * Stored, and the ids this rank has issued lie below its counters, so
     * the next ids are new; the innate floor is not negative (the loop
     * compares it with a vector size, and a negative floor would never
     * stop it).
     */
    ghost predicate Valid()
      reads this
    {
      Stored() &&
      IdsBelow(agents.Keys, rank, currVirionAgentId, currInnateImmuneCellAgendId, currSpecialisedImmuneCellAgentId) &&
      0 <= config.countOfInnateImmuneCellAgents
    }

    /** The constructor's state: no agents yet and every counter at 0. */
    constructor(rank: int, config: Config, region: Region, random: nat -> SpawnDraw)
      requires 0 <= config.countOfInnateImmuneCellAgents
      ensures Valid()
      ensures this.rank == rank && this.config == config && this.region == region && this.random == random
      ensures agents == map[] && local == {} && location == map[] && drawIndex == 0
      ensures currVirionAgentId == 0 && currInnateImmuneCellAgendId == 0 && currSpecialisedImmuneCellAgentId == 0
    {
      this.rank := rank;
      this.config := config;
      this.region := region;
      this.random := random;
      drawIndex := 0;
      agents := map[];
      local := {};
      location := map[];
      currVirionAgentId := 0;
      currInnateImmuneCellAgendId := 0;
      currSpecialisedImmuneCellAgentId := 0;
    }

    /** Adds one owned agent at a grid point. */
    method Add(k: Key, a: Agent, p: Point)
      requires Stored() && k !in agents
      requires KeyOfAgent(a) == k && WellKinded(a)
      requires k.agentType == 0 ==> InRegion(region, p)
      modifies this`agents, this`local, this`location
      ensures Stored()
      ensures agents == old(agents)[k := a] && local == old(local) + {k} && location == old(location)[k := p]
    {
      agents := agents[k := a];
      local := local + {k};
      location := location[k := p];
    }

    /**
     * initialiseEpithelialCellAgent. With no existing object: a new cell
     * with id index, owned by this rank, at (x, y) of its region. With an
     * existing object (division): that cell is revived in place. Either way
     * one set of values is drawn.
     */
    method InitialiseEpithelialCellAgent(index: int, x: int, y: int, existing: Option<Key>)
      requires Stored()
      requires existing.None? ==> 0 <= x < region.extentX && 0 <= y < region.extentY && Key(index, rank, 0) !in agents
      requires existing.Some? ==> existing.value in agents && agents[existing.value].Epithelial?
      modifies this`agents, this`local, this`location, this`drawIndex
      ensures Stored()
      ensures drawIndex == old(drawIndex) + 1
      ensures existing.None? ==>
        && agents == old(agents)[Key(index, rank, 0) := Epithelial(NewEpithelialCell(rank, index, config, Drawn(random, old(drawIndex))))]
        && local == old(local) + {Key(index, rank, 0)}
        && location == old(location)[Key(index, rank, 0) := Point(region.originX + x, region.originY + y)]
      ensures existing.Some? ==>
        && agents == old(agents)[existing.value := Epithelial(Revived(old(agents)[existing.value].cell, config, Drawn(random, old(drawIndex))))]
        && local == old(local) && location == old(location)
    {
      var g := Drawn(random, drawIndex);
      drawIndex := drawIndex + 1;
      if existing.None? {
        Add(Key(index, rank, 0), Epithelial(NewEpithelialCell(rank, index, config, g)),
            Point(region.originX + x, region.originY + y));
      } else {
        var k := existing.value;
        agents := agents[k := Epithelial(Revived(agents[k].cell, config, g))];
      }
    }

    /**
     * initialiseVirionAgent: a free virion with id index owned by this rank;
     * a released one is placed at (x, y), an initial one at a drawn point
     * of the region.
     */
    method InitialiseVirionAgent(index: int, isAReleasedVirus: bool, x: int, y: int)
      requires Stored() && Key(index, rank, 1) !in agents
      modifies this`agents, this`local, this`location, this`drawIndex
      ensures Stored()
      ensures drawIndex == old(drawIndex) + 1
      ensures agents == old(agents)[Key(index, rank, 1) := Virion(NewVirion(rank, index, isAReleasedVirus, config, Drawn(random, old(drawIndex))))]
      ensures local == old(local) + {Key(index, rank, 1)}
      ensures location == old(location)[Key(index, rank, 1) :=
        if isAReleasedVirus then Point(x, y) else RandomPlacement(region, Drawn(random, old(drawIndex)))]
    {
      var g := Drawn(random, drawIndex);
      drawIndex := drawIndex + 1;
      var p := if isAReleasedVirus then Point(x, y) else RandomPlacement(region, g);
      Add(Key(index, rank, 1), Virion(NewVirion(rank, index, isAReleasedVirus, config, g)), p);
    }

    /** initialiseInnateImmuneCellAgent: a healthy innate cell with id immuneCellId owned by this rank, at a drawn point of the region. */
    method InitialiseInnateImmuneCellAgent(immuneCellId: int, isRecruitedCell: bool)
      requires Stored() && Key(immuneCellId, rank, 2) !in agents
      modifies this`agents, this`local, this`location, this`drawIndex
      ensures Stored()
      ensures drawIndex == old(drawIndex) + 1
      ensures agents == old(agents)[Key(immuneCellId, rank, 2) :=
        Innate(NewInnateCell(rank, immuneCellId, isRecruitedCell, config, Drawn(random, old(drawIndex))))]
      ensures local == old(local) + {Key(immuneCellId, rank, 2)}
      ensures location == old(location)[Key(immuneCellId, rank, 2) := RandomPlacement(region, Drawn(random, old(drawIndex)))]
    {
      var g := Drawn(random, drawIndex);
      drawIndex := drawIndex + 1;
      Add(Key(immuneCellId, rank, 2), Innate(NewInnateCell(rank, immuneCellId, isRecruitedCell, config, g)),
          RandomPlacement(region, g));
    }

    /**
     * initialiseSpecialisedImmuneCellAgent: a healthy specialised cell with
     * id immuneCellId owned by this rank, of age 0, at a drawn point whose
     * y offset, as written, is drawn over the x extent.
     */
    method InitialiseSpecialisedImmuneCellAgent(immuneCellId: int, isRecruitedCell: bool)
      requires Stored() && Key(immuneCellId, rank, 3) !in agents
      modifies this`agents, this`local, this`location, this`drawIndex
      ensures Stored()
      ensures drawIndex == old(drawIndex) + 1
      ensures agents == old(agents)[Key(immuneCellId, rank, 3) :=
        Specialised(NewSpecialisedCell(rank, immuneCellId, config, Drawn(random, old(drawIndex))))]
      ensures local == old(local) + {Key(immuneCellId, rank, 3)}
      ensures location == old(location)[Key(immuneCellId, rank, 3) := SpecialisedPlacementAsWritten(region, Drawn(random, old(drawIndex)))]
    {
      var g := Drawn(random, drawIndex);
      drawIndex := drawIndex + 1;
      Add(Key(immuneCellId, rank, 3), Specialised(NewSpecialisedCell(rank, immuneCellId, config, g)),
          SpecialisedPlacementAsWritten(region, g));
    }

    /**
     * checkForCellDivision: the requester's pending division is carried out
     * on its target exactly when the guard holds; then one set of values is
     * drawn for the revived cell.
     */
    method CheckForCellDivision(k: Key)
      requires Valid() && k in agents && k.agentType == 0
      modifies this`agents, this`local, this`location, this`drawIndex
      ensures Valid()
      ensures local == old(local) && location == old(location)
      ensures agents[k].Epithelial? && old(agents)[k].Epithelial?
      ensures agents == Divided(old(agents), rank, config, old(agents)[k].cell, Drawn(random, old(drawIndex)))
      ensures drawIndex == old(drawIndex) + (if DivisionApplies(old(agents), rank, old(agents)[k].cell) then 1 else 0)
      ensures Now() == AfterDivision(old(Now()), k)
    {
      assert KindOf(0) == EpithelialKind;
      var cell := agents[k].cell;
      if cell.modification == E.ToDivideInto {
        var target := cell.target;
        if target.id != -1 && target.agentType == 0 && rank == target.currentRank {
          var t := KeyOf(target);
          // A target the store does not hold is a null pointer in the source; the model leaves everything as it is.
          if t in agents {
            assert agents[t].Epithelial?;
            if agents[t].cell.internal == E.Dead {
              InitialiseEpithelialCellAgent(-1, -1, -1, Some(t));
            }
          }
        }
      }
    }

    /** checkForCellToCellInfection: the requester's pending infection is carried out on its target exactly when the guard holds. */
    method CheckForCellToCellInfection(k: Key)
      requires Valid() && k in agents && k.agentType == 0
      modifies this`agents
      ensures Valid()
      ensures agents[k].Epithelial? && old(agents)[k].Epithelial?
      ensures agents == Infected(old(agents), rank, old(agents)[k].cell)
      ensures Now() == AfterInfection(old(Now()), k)
    {
      assert KindOf(0) == EpithelialKind;
      var cell := agents[k].cell;
      if cell.modification == E.ToInfect && cell.internal == E.Infected {
        var target := cell.target;
        if target.id != -1 && target.agentType == 0 && rank == target.currentRank {
          var t := KeyOf(target);
          if t in agents {
            assert agents[t].Epithelial?;
            if agents[t].cell.internal == E.Healthy {
              agents := agents[t := Epithelial(E.InfectedCell(agents[t].cell))];
            }
          }
        }
      }
    }

    /**
     * checkForCellVirionRelease: as many new virions as the cell's count to
     * release, with ids issued by pre-incrementing the virion counter, each
     * free, of age 0 and placed at the releasing cell's grid point.
     */
    method CheckForCellVirionRelease(k: Key)
      requires Valid() && k in agents && k.agentType == 0
      modifies this`agents, this`local, this`location, this`drawIndex, this`currVirionAgentId
      ensures Valid()
      ensures old(agents)[k].Epithelial?
      ensures var n := Times(old(agents)[k].cell.countToRelease);
        var made := Batch(ReleasedVirion, rank, config, random, old(currVirionAgentId) + 1, n, old(drawIndex));
        && made.Keys !! old(agents).Keys
        && agents == old(agents) + made
        && local == old(local) + made.Keys
        && location == old(location) + AllAt(made.Keys, old(location)[k])
        && currVirionAgentId == old(currVirionAgentId) + n
        && drawIndex == old(drawIndex) + n
      ensures Now() == AfterRelease(old(Now()), k)
    {
      assert KindOf(0) == EpithelialKind;
      ghost var agents0, local0, location0, virionId0, drawIndex0 := agents, local, location, currVirionAgentId, drawIndex;
      ReleaseFromCell(k);
      ReleaseSnapshot(agents0, local0, location0, virionId0, currInnateImmuneCellAgendId, currSpecialisedImmuneCellAgentId,
                      drawIndex0, agents, local, location, currVirionAgentId, drawIndex, k);
    }

    /** The release itself, field by field. */
    method ReleaseFromCell(k: Key)
      requires Valid() && k in agents && k.agentType == 0
      modifies this`agents, this`local, this`location, this`drawIndex, this`currVirionAgentId
      ensures Valid()
      ensures old(agents)[k].Epithelial?
      ensures var n := Times(old(agents)[k].cell.countToRelease);
        var made := Batch(ReleasedVirion, rank, config, random, old(currVirionAgentId) + 1, n, old(drawIndex));
        && made.Keys !! old(agents).Keys
        && agents == old(agents) + made
        && local == old(local) + made.Keys
        && location == old(location) + AllAt(made.Keys, old(location)[k])
        && currVirionAgentId == old(currVirionAgentId) + n
        && drawIndex == old(drawIndex) + n
    {
      assert KindOf(0) == EpithelialKind;
      var n := agents[k].cell.countToRelease;
      var p := location[k];
      BatchIsFresh(ReleasedVirion, rank, config, random, currVirionAgentId + 1, Times(n), drawIndex, agents.Keys,
                   currVirionAgentId, currInnateImmuneCellAgendId, currSpecialisedImmuneCellAgentId);
      ghost var keys0 := agents.Keys;
      ReleaseVirions(n, p, currVirionAgentId + 1, drawIndex, agents, local, location);
      BatchKeepsIdsBelow(ReleasedVirion, rank, config, random, old(currVirionAgentId) + 1, Times(n), old(drawIndex), keys0,
                         currVirionAgentId, currInnateImmuneCellAgendId, currSpecialisedImmuneCellAgentId);
    }

    /** The release's new fields, gathered into the snapshot that AfterRelease describes. */
    lemma ReleaseSnapshot(agents0: map<Key, Agent>, local0: set<Key>, location0: map<Key, Point>, virionId0: int,
                          innateId0: int, specialisedId0: int, drawIndex0: nat,
                          agents1: map<Key, Agent>, local1: set<Key>, location1: map<Key, Point>, virionId1: int,
                          drawIndex1: nat, k: Key)
      requires k in agents0 && agents0[k].Epithelial? && k in location0
      requires var n := Times(agents0[k].cell.countToRelease);
        var made := Batch(ReleasedVirion, rank, config, random, virionId0 + 1, n, drawIndex0);
        && agents1 == agents0 + made
        && local1 == local0 + made.Keys
        && location1 == location0 + AllAt(made.Keys, location0[k])
        && virionId1 == virionId0 + n
        && drawIndex1 == drawIndex0 + n
      ensures Snapshot(agents1, local1, location1, virionId1, innateId0, specialisedId0, drawIndex1)
              == AfterRelease(Snapshot(agents0, local0, location0, virionId0, innateId0, specialisedId0, drawIndex0), k)
    {
    }

    /**
     * The release loop: n released virions at p, under the ids that
     * pre-incrementing the virion counter issues, from the state given by
     * the ghost arguments.
     */
    method ReleaseVirions(n: int, p: Point, ghost first: int, ghost d0: nat,
                          ghost agents0: map<Key, Agent>, ghost local0: set<Key>, ghost location0: map<Key, Point>)
      requires Released(p, first, d0, 0, agents0, local0, location0)
      requires Batch(ReleasedVirion, rank, config, random, first, Times(n), d0).Keys !! agents0.Keys
      modifies this`agents, this`local, this`location, this`drawIndex, this`currVirionAgentId
      ensures Released(p, first, d0, Times(n), agents0, local0, location0)
    {
      var i: nat := 0;
      while i < n
        invariant i <= Times(n)
        invariant Released(p, first, d0, i, agents0, local0, location0)
      {
        ReleaseNextVirion(p, first, d0, i, Times(n), agents0, local0, location0);
        i := i + 1;
      }
      assert i == Times(n);
    }

    /** The state after the release loop's first i passes. */
    ghost predicate Released(p: Point, first: int, d0: nat, i: nat, agents0: map<Key, Agent>, local0: set<Key>, location0: map<Key, Point>)
      reads this
    {
      var made := Batch(ReleasedVirion, rank, config, random, first, i, d0);
      Stored() && currVirionAgentId + 1 == first + i && drawIndex == d0 + i &&
      agents == agents0 + made && local == local0 + made.Keys && location == location0 + AllAt(made.Keys, p)
    }

    /** One pass of the release loop: the counter's next id and one released virion at p. */
    method ReleaseNextVirion(p: Point, ghost first: int, ghost d0: nat, ghost i: nat, ghost n: nat,
                             ghost agents0: map<Key, Agent>, ghost local0: set<Key>, ghost location0: map<Key, Point>)
      requires i < n && Batch(ReleasedVirion, rank, config, random, first, n, d0).Keys !! agents0.Keys
      requires Released(p, first, d0, i, agents0, local0, location0)
      modifies this`agents, this`local, this`location, this`drawIndex, this`currVirionAgentId
      ensures Released(p, first, d0, i + 1, agents0, local0, location0)
    {
      currVirionAgentId := currVirionAgentId + 1;
      NextKeyIsNew(ReleasedVirion, 1, rank, config, random, first, i, n, d0, currVirionAgentId, agents0);
      NextAgentExtendsBatch(ReleasedVirion, 1, rank, config, random, first, i, d0, currVirionAgentId, drawIndex,
                            Virion(NewVirion(rank, currVirionAgentId, true, config, Drawn(random, drawIndex))), agents0, local0);
      NextAgentAtSamePoint(ReleasedVirion, 1, rank, config, random, first, i, d0, currVirionAgentId, location0, p);
      InitialiseVirionAgent(currVirionAgentId, true, p.x, p.y);
    }

    /**
     * checkForSpecialisedImmuneCellRecruitement: as many new specialised
     * cells as the recruiter's count (an innate or a specialised cell's; none
     * for other types), with ids issued by post-incrementing the specialised
     * counter, each placed at its own drawn point of the region.
     */
    method CheckForSpecialisedImmuneCellRecruitement(k: Key)
      requires Valid() && k in agents
      modifies this`agents, this`local, this`location, this`drawIndex, this`currSpecialisedImmuneCellAgentId
      ensures Valid()
      ensures var n := Times(SpecialisedToRecruit(old(agents)[k]));
        var made := Batch(RecruitedSpecialised, rank, config, random, old(currSpecialisedImmuneCellAgentId), n, old(drawIndex));
        && made.Keys !! old(agents).Keys
        && agents == old(agents) + made
        && local == old(local) + made.Keys
        && location == old(location) + RecruitPlaces(rank, 3, region, random, old(currSpecialisedImmuneCellAgentId), n, old(drawIndex))
        && currSpecialisedImmuneCellAgentId == old(currSpecialisedImmuneCellAgentId) + n
        && drawIndex == old(drawIndex) + n
    {
      var n := SpecialisedToRecruit(agents[k]);
      BatchIsFresh(RecruitedSpecialised, rank, config, random, currSpecialisedImmuneCellAgentId, Times(n), drawIndex, agents.Keys,
                   currVirionAgentId, currInnateImmuneCellAgendId, currSpecialisedImmuneCellAgentId);
      ghost var keys0 := agents.Keys;
      RecruitSpecialisedCells(n, currSpecialisedImmuneCellAgentId, drawIndex, agents, local, location);
      BatchKeepsIdsBelow(RecruitedSpecialised, rank, config, random, old(currSpecialisedImmuneCellAgentId), Times(n), old(drawIndex), keys0,
                         currVirionAgentId, currInnateImmuneCellAgendId, currSpecialisedImmuneCellAgentId);
    }

    /**
     * checkForInnateImmuneCellRecruitment: as many new innate cells as the
     * innate recruiter's count, with ids issued by post-incrementing the
     * innate counter, each placed at its own drawn point of the region.
     */
    method CheckForInnateImmuneCellRecruitment(k: Key)
      requires Valid() && k in agents && k.agentType == 2
      modifies this`agents, this`local, this`location, this`drawIndex, this`currInnateImmuneCellAgendId
      ensures Valid()
      ensures old(agents)[k].Innate?
      ensures var n := Times(old(agents)[k].innate.innateToRecruit);
        var made := Batch(RecruitedInnate, rank, config, random, old(currInnateImmuneCellAgendId), n, old(drawIndex));
        && made.Keys !! old(agents).Keys
        && agents == old(agents) + made
        && local == old(local) + made.Keys
        && location == old(location) + RecruitPlaces(rank, 2, region, random, old(currInnateImmuneCellAgendId), n, old(drawIndex))
        && currInnateImmuneCellAgendId == old(currInnateImmuneCellAgendId) + n
        && drawIndex == old(drawIndex) + n
    {
      assert KindOf(2) == InnateKind;
      var n := agents[k].innate.innateToRecruit;
      BatchIsFresh(RecruitedInnate, rank, config, random, currInnateImmuneCellAgendId, Times(n), drawIndex, agents.Keys,
                   currVirionAgentId, currInnateImmuneCellAgendId, currSpecialisedImmuneCellAgentId);
      ghost var keys0 := agents.Keys;
      RecruitInnateCells(n, currInnateImmuneCellAgendId, drawIndex, agents, local, location);
      BatchKeepsIdsBelow(RecruitedInnate, rank, config, random, old(currInnateImmuneCellAgendId), Times(n), old(drawIndex), keys0,
                         currVirionAgentId, currInnateImmuneCellAgendId, currSpecialisedImmuneCellAgentId);
    }

    /**
     * The state after the first i passes of a recruitment loop that started
     * from the state given by the other arguments: the counter of the
     * recruited kind and the draw index have advanced by i, and the batch's
     * cells are stored, owned and placed at their drawn points.
     */
    ghost predicate Recruited(spawn: Spawn, first: int, d0: nat, i: nat,
                              agents0: map<Key, Agent>, local0: set<Key>, location0: map<Key, Point>)
      reads this
    {
      var made := Batch(spawn, rank, config, random, first, i, d0);
      Stored() &&
      (if spawn == RecruitedInnate then currInnateImmuneCellAgendId else currSpecialisedImmuneCellAgentId) == first + i &&
      drawIndex == d0 + i &&
      agents == agents0 + made && local == local0 + made.Keys &&
      location == location0 + RecruitPlaces(rank, TypeOf(spawn), region, random, first, i, d0)
    }

    /** The specialised recruitment loop: n recruited specialised cells. */
    method RecruitSpecialisedCells(n: int, ghost first: int, ghost d0: nat,
                                   ghost agents0: map<Key, Agent>, ghost local0: set<Key>, ghost location0: map<Key, Point>)
      requires Recruited(RecruitedSpecialised, first, d0, 0, agents0, local0, location0)
      requires Batch(RecruitedSpecialised, rank, config, random, first, Times(n), d0).Keys !! agents0.Keys
      modifies this`agents, this`local, this`location, this`drawIndex, this`currSpecialisedImmuneCellAgentId
      ensures Recruited(RecruitedSpecialised, first, d0, Times(n), agents0, local0, location0)
    {
      var i: nat := 0;
      while i < n
        invariant i <= Times(n)
        invariant Recruited(RecruitedSpecialised, first, d0, i, agents0, local0, location0)
      {
        RecruitNextSpecialisedCell(first, d0, i, Times(n), agents0, local0, location0);
        i := i + 1;
      }
      assert i == Times(n);
    }

    /** One pass of the specialised recruitment loop: the counter's current id and one recruited specialised cell. */
    method RecruitNextSpecialisedCell(ghost first: int, ghost d0: nat, ghost i: nat, ghost n: nat,
                                      ghost agents0: map<Key, Agent>, ghost local0: set<Key>, ghost location0: map<Key, Point>)
      requires i < n && Batch(RecruitedSpecialised, rank, config, random, first, n, d0).Keys !! agents0.Keys
      requires Recruited(RecruitedSpecialised, first, d0, i, agents0, local0, location0)
      modifies this`agents, this`local, this`location, this`drawIndex, this`currSpecialisedImmuneCellAgentId
      ensures Recruited(RecruitedSpecialised, first, d0, i + 1, agents0, local0, location0)
    {
      var id := currSpecialisedImmuneCellAgentId;
      currSpecialisedImmuneCellAgentId := currSpecialisedImmuneCellAgentId + 1;
      NextKeyIsNew(RecruitedSpecialised, 3, rank, config, random, first, i, n, d0, id, agents0);
      NextAgentExtendsBatch(RecruitedSpecialised, 3, rank, config, random, first, i, d0, id, drawIndex,
                            Specialised(NewSpecialisedCell(rank, id, config, Drawn(random, drawIndex))), agents0, local0);
      NextPlaceExtends(rank, 3, region, random, first, i, d0, id, drawIndex, location0);
      InitialiseSpecialisedImmuneCellAgent(id, true);
    }

    /** The innate recruitment loop: n recruited innate cells. */
    method RecruitInnateCells(n: int, ghost first: int, ghost d0: nat,
                              ghost agents0: map<Key, Agent>, ghost local0: set<Key>, ghost location0: map<Key, Point>)
      requires Recruited(RecruitedInnate, first, d0, 0, agents0, local0, location0)
      requires Batch(RecruitedInnate, rank, config, random, first, Times(n), d0).Keys !! agents0.Keys
      modifies this`agents, this`local, this`location, this`drawIndex, this`currInnateImmuneCellAgendId
      ensures Recruited(RecruitedInnate, first, d0, Times(n), agents0, local0, location0)
    {
      var i: nat := 0;
      while i < n
        invariant i <= Times(n)
        invariant Recruited(RecruitedInnate, first, d0, i, agents0, local0, location0)
      {
        RecruitNextInnateCell(first, d0, i, Times(n), agents0, local0, location0);
        i := i + 1;
      }
      assert i == Times(n);
    }

    /** One pass of an innate recruitment loop: the counter's current id and one recruited innate cell. */
    method RecruitNextInnateCell(ghost first: int, ghost d0: nat, ghost i: nat, ghost n: nat,
                                 ghost agents0: map<Key, Agent>, ghost local0: set<Key>, ghost location0: map<Key, Point>)
      requires i < n && Batch(RecruitedInnate, rank, config, random, first, n, d0).Keys !! agents0.Keys
      requires Recruited(RecruitedInnate, first, d0, i, agents0, local0, location0)
      modifies this`agents, this`local, this`location, this`drawIndex, this`currInnateImmuneCellAgendId
      ensures Recruited(RecruitedInnate, first, d0, i + 1, agents0, local0, location0)
    {
      var id := currInnateImmuneCellAgendId;
      currInnateImmuneCellAgendId := currInnateImmuneCellAgendId + 1;
      NextKeyIsNew(RecruitedInnate, 2, rank, config, random, first, i, n, d0, id, agents0);
      NextAgentExtendsBatch(RecruitedInnate, 2, rank, config, random, first, i, d0, id, drawIndex,
                            Innate(NewInnateCell(rank, id, true, config, Drawn(random, drawIndex))), agents0, local0);
      NextPlaceExtends(rank, 2, region, random, first, i, d0, id, drawIndex, location0);
      InitialiseInnateImmuneCellAgent(id, true);
    }

    /**
     * removeLocalAgentIfDead: a dead virion (or one contained in a cell), a
     * dead innate cell and a dead specialised cell of type 3 leave the store,
     * and every other agent stays as it is. Before a dead innate cell goes,
     * new innate cells are recruited until the reselected local innate
     * population exceeds the floor; n counts the local innate cells, the
     * dying one among them, so afterwards there are floor + 1 of them, or
     * n - 1 when n was already above the floor.
     */
    method RemoveLocalAgentIfDead(k: Key)
      requires Valid() && k in local
      modifies this`agents, this`local, this`location, this`drawIndex, this`currInnateImmuneCellAgendId
      ensures Valid()
      ensures WellKinded(old(agents)[k])
      ensures !ToRemove(old(agents)[k]) ==>
        && agents == old(agents) && local == old(local) && location == old(location)
        && currInnateImmuneCellAgendId == old(currInnateImmuneCellAgendId) && drawIndex == old(drawIndex)
      ensures ToRemove(old(agents)[k]) && k.agentType != 2 ==>
        && agents == old(agents) - {k} && local == old(local) - {k} && location == old(location) - {k}
        && currInnateImmuneCellAgendId == old(currInnateImmuneCellAgendId) && drawIndex == old(drawIndex)
      ensures ToRemove(old(agents)[k]) && k.agentType == 2 ==>
        var n := |LocalOfType(old(local), 2)|;
        var m := FloorRecruits(n, config.countOfInnateImmuneCellAgents);
        var made := Batch(RecruitedInnate, rank, config, random, old(currInnateImmuneCellAgendId), m, old(drawIndex));
        && made.Keys !! old(agents).Keys
        && agents == (old(agents) + made) - {k}
        && local == (old(local) + made.Keys) - {k}
        && location == (old(location) + RecruitPlaces(rank, 2, region, random, old(currInnateImmuneCellAgendId), m, old(drawIndex))) - {k}
        && currInnateImmuneCellAgendId == old(currInnateImmuneCellAgendId) + m
        && drawIndex == old(drawIndex) + m
        && |LocalOfType(local, 2)| ==
             if n <= config.countOfInnateImmuneCellAgents then config.countOfInnateImmuneCellAgents + 1 else n - 1
    {
      var a := agents[k];
      var removeAgent := false;
      if k.agentType == 1 {
        assert KindOf(1) == VirionKind;
        removeAgent := a.virion.state == V.Dead || a.virion.state == V.Contained;
      } else if k.agentType == 2 {
        assert KindOf(2) == InnateKind;
        removeAgent := a.innate.state == I.Dead;
        if removeAgent {
          RecruitToInnateFloor();
          LocalOfTypeRemove(local, 2, k);
        }
      } else if k.agentType == 3 {
        assert KindOf(3) == SpecialisedKind;
        removeAgent := a.specialised.state == S.Dead;
      }
      if removeAgent {
        RemoveAgent(k);
      }
    }

    /** The removal itself: the agent leaves the store, the owned keys and the grid. */
    method RemoveAgent(k: Key)
      requires Valid() && k in agents
      modifies this`agents, this`local, this`location
      ensures Valid()
      ensures agents == old(agents) - {k} && local == old(local) - {k} && location == old(location) - {k}
    {
      agents := agents - {k};
      local := local - {k};
      location := location - {k};
    }

    /**
     * The recruiting half of removeLocalAgentIfDead for a dead innate cell:
     * with n local innate cells it recruits FloorRecruits(n, floor) new
     * ones, which brings the local innate count to floor + 2 when n is at
     * most the floor.
     */
    method RecruitToInnateFloor()
      requires Valid()
      modifies this`agents, this`local, this`location, this`drawIndex, this`currInnateImmuneCellAgendId
      ensures Valid()
      ensures var n := |LocalOfType(old(local), 2)|;
        var m := FloorRecruits(n, config.countOfInnateImmuneCellAgents);
        var made := Batch(RecruitedInnate, rank, config, random, old(currInnateImmuneCellAgendId), m, old(drawIndex));
        && made.Keys !! old(agents).Keys
        && agents == old(agents) + made
        && local == old(local) + made.Keys
        && location == old(location) + RecruitPlaces(rank, 2, region, random, old(currInnateImmuneCellAgendId), m, old(drawIndex))
        && currInnateImmuneCellAgendId == old(currInnateImmuneCellAgendId) + m
        && drawIndex == old(drawIndex) + m
        && |LocalOfType(local, 2)| == n + m
    {
      var selected := |LocalOfType(local, 2)|;
      ghost var m := FloorRecruits(selected, config.countOfInnateImmuneCellAgents);
      BatchIsFresh(RecruitedInnate, rank, config, random, currInnateImmuneCellAgendId, m, drawIndex, agents.Keys,
                   currVirionAgentId, currInnateImmuneCellAgendId, currSpecialisedImmuneCellAgentId);
      ghost var keys0 := agents.Keys;
      RefillInnateCells(selected, m, currInnateImmuneCellAgendId, drawIndex, agents, local, location);
      BatchKeepsIdsBelow(RecruitedInnate, rank, config, random, old(currInnateImmuneCellAgendId), m, old(drawIndex), keys0,
                         currVirionAgentId, currInnateImmuneCellAgendId, currSpecialisedImmuneCellAgentId);
      LocalOfTypeBatch(RecruitedInnate, rank, config, random, old(currInnateImmuneCellAgendId), m, m, old(drawIndex), old(local));
    }

    /**
     * The floor loop of removeLocalAgentIfDead: while the local innate cells
     * last selected number no more than the floor, select them again and
     * recruit one more. The selection lags one recruit behind, so from n
     * local innate cells it recruits FloorRecruits(n, floor) of them.
     */
    method RefillInnateCells(selectedFirst: nat, ghost m: nat, ghost first: int, ghost d0: nat,
                             ghost agents0: map<Key, Agent>, ghost local0: set<Key>, ghost location0: map<Key, Point>)
      requires 0 <= config.countOfInnateImmuneCellAgents && local0 <= agents0.Keys
      requires selectedFirst == |LocalOfType(local0, 2)| && m == FloorRecruits(selectedFirst, config.countOfInnateImmuneCellAgents)
      requires Recruited(RecruitedInnate, first, d0, 0, agents0, local0, location0)
      requires Batch(RecruitedInnate, rank, config, random, first, m, d0).Keys !! agents0.Keys
      modifies this`agents, this`local, this`location, this`drawIndex, this`currInnateImmuneCellAgendId
      ensures Recruited(RecruitedInnate, first, d0, m, agents0, local0, location0)
    {
      var selected := selectedFirst;
      ghost var n := selectedFirst;
      ghost var j: nat := 0;
      while selected <= config.countOfInnateImmuneCellAgents
        invariant j <= m
        invariant Recruited(RecruitedInnate, first, d0, j, agents0, local0, location0)
        invariant selected == if j == 0 then n else n + j - 1
        decreases m - j
      {
        selected := RefillPass(first, d0, j, m, agents0, local0, location0);
        j := j + 1;
      }
      assert j == m;
    }

    /** One pass of the floor loop: select the local innate cells again, then recruit one more. */
    method RefillPass(ghost first: int, ghost d0: nat, ghost j: nat, ghost m: nat,
                      ghost agents0: map<Key, Agent>, ghost local0: set<Key>, ghost location0: map<Key, Point>) returns (selected: nat)
      requires j < m && Batch(RecruitedInnate, rank, config, random, first, m, d0).Keys !! agents0.Keys
      requires local0 <= agents0.Keys
      requires Recruited(RecruitedInnate, first, d0, j, agents0, local0, location0)
      modifies this`agents, this`local, this`location, this`drawIndex, this`currInnateImmuneCellAgendId
      ensures Recruited(RecruitedInnate, first, d0, j + 1, agents0, local0, location0)
      ensures selected == |LocalOfType(local0, 2)| + j
    {
      selected := |LocalOfType(local, 2)|;
      LocalOfTypeBatch(RecruitedInnate, rank, config, random, first, j, m, d0, local0);
      RecruitNextInnateCell(first, d0, j, m, agents0, local0, location0);
    }

    /** doStep of an owned agent: the store and the grid become what the agent's step makes of them. */
    method StepAgent(k: Key, input: StepInput)
      requires Valid() && k in local
      modifies this`agents, this`location
      ensures Valid() && local == old(local)
      ensures World(agents, location) == AgentStep(World(old(agents), old(location)), k, input.near, input.here, input.draws)
      ensures Now() == AfterStep(old(Now()), k, input)
    {
      var w := AgentStep(World(agents, location), k, input.near, input.here, input.draws);
      AgentStepKeepsStore(World(agents, location), k, input.near, input.here, input.draws);
      assert k.agentType == 0 ==> agents[k].Epithelial?;
      agents := w.agents;
      location := w.location;
    }

    /** The model's state as a value. */
    ghost function Now(): Snapshot
      reads this
    {
      Snapshot(agents, local, location, currVirionAgentId, currInnateImmuneCellAgendId,
               currSpecialisedImmuneCellAgentId, drawIndex)
    }

    /** The state after checkForCellDivision on epithelial cell k: one draw exactly when the division applies. */
    ghost function AfterDivision(s: Snapshot, k: Key): Snapshot
    {
      if k in s.agents && s.agents[k].Epithelial? then
        s.(agents := Divided(s.agents, rank, config, s.agents[k].cell, Drawn(random, s.drawIndex)),
           drawIndex := s.drawIndex + if DivisionApplies(s.agents, rank, s.agents[k].cell) then 1 else 0)
      else s
    }

    /** The state after checkForCellVirionRelease on epithelial cell k: the cell's count of new virions at its point. */
    ghost function AfterRelease(s: Snapshot, k: Key): Snapshot
    {
      if k in s.agents && s.agents[k].Epithelial? && k in s.location then
        var n := Times(s.agents[k].cell.countToRelease);
        var made := Batch(ReleasedVirion, rank, config, random, s.virionId + 1, n, s.drawIndex);
        s.(agents := s.agents + made, local := s.local + made.Keys,
           location := s.location + AllAt(made.Keys, s.location[k]), virionId := s.virionId + n,
           drawIndex := s.drawIndex + n)
      else s
    }

    /** The state after checkForCellToCellInfection on epithelial cell k. */
    ghost function AfterInfection(s: Snapshot, k: Key): Snapshot
    {
      if k in s.agents && s.agents[k].Epithelial? then
        s.(agents := Infected(s.agents, rank, s.agents[k].cell))
      else s
    }

    /** The state after a replicated cell k's division, then its infection. */
    ghost function AfterServing(s: Snapshot, k: Key): Snapshot
    {
      AfterInfection(AfterDivision(s, k), k)
    }

    /** The state after serving the replicas of a buffer zone in order. */
    ghost function AfterBufferZone(s: Snapshot, zone: seq<Key>): Snapshot
    {
      if zone == [] then s
      else AfterServing(AfterBufferZone(s, zone[..|zone| - 1]), zone[|zone| - 1])
    }

    /** The state after owned agent k's doStep. */
    ghost function AfterStep(s: Snapshot, k: Key, input: StepInput): Snapshot
    {
      if k in s.agents && k in s.location then
        var w := AgentStep(World(s.agents, s.location), k, input.near, input.here, input.draws);
        s.(agents := w.agents, location := w.location)
      else s
    }

    /** The state after an epithelial cell k's requests: the division, then the release, then the infection. */
    ghost function AfterEpithelialRequests(s: Snapshot, k: Key): Snapshot
    {
      AfterInfection(AfterRelease(AfterDivision(s, k), k), k)
    }

    /** The state after innate cell k's innate recruitment. */
    ghost function AfterInnateRecruitment(s: Snapshot, k: Key): Snapshot
    {
      if k in s.agents && s.agents[k].Innate? then
        var n := Times(s.agents[k].innate.innateToRecruit);
        var made := Batch(RecruitedInnate, rank, config, random, s.innateId, n, s.drawIndex);
        s.(agents := s.agents + made, local := s.local + made.Keys,
           location := s.location + RecruitPlaces(rank, 2, region, random, s.innateId, n, s.drawIndex),
           innateId := s.innateId + n, drawIndex := s.drawIndex + n)
      else s
    }

    /** The state after the specialised recruitment agent k requests. */
    ghost function AfterSpecialisedRecruitment(s: Snapshot, k: Key): Snapshot
    {
      if k in s.agents && WellKinded(s.agents[k]) then
        var n := Times(SpecialisedToRecruit(s.agents[k]));
        var made := Batch(RecruitedSpecialised, rank, config, random, s.specialisedId, n, s.drawIndex);
        s.(agents := s.agents + made, local := s.local + made.Keys,
           location := s.location + RecruitPlaces(rank, 3, region, random, s.specialisedId, n, s.drawIndex),
           specialisedId := s.specialisedId + n, drawIndex := s.drawIndex + n)
      else s
    }

    /** The state after the requests owned agent k's type makes. */
    ghost function AfterRequests(s: Snapshot, k: Key): Snapshot
    {
      if k.agentType == 0 then AfterEpithelialRequests(s, k)
      else if k.agentType == 2 then AfterSpecialisedRecruitment(AfterInnateRecruitment(s, k), k)
      else if k.agentType == 3 then AfterSpecialisedRecruitment(s, k)
      else s
    }

    /**
     * The state after removeLocalAgentIfDead on k: an agent to remove leaves
     * the store, the owned keys and the grid, a dead innate cell after the
     * floor loop's recruits have joined.
     */
    ghost function AfterRemoval(s: Snapshot, k: Key): Snapshot
    {
      if k in s.agents && WellKinded(s.agents[k]) && ToRemove(s.agents[k]) && 0 <= config.countOfInnateImmuneCellAgents then
        if k.agentType != 2 then
          s.(agents := s.agents - {k}, local := s.local - {k}, location := s.location - {k})
        else
          var m := FloorRecruits(|LocalOfType(s.local, 2)|, config.countOfInnateImmuneCellAgents);
          var made := Batch(RecruitedInnate, rank, config, random, s.innateId, m, s.drawIndex);
          s.(agents := (s.agents + made) - {k}, local := (s.local + made.Keys) - {k},
             location := (s.location + RecruitPlaces(rank, 2, region, random, s.innateId, m, s.drawIndex)) - {k},
             innateId := s.innateId + m, drawIndex := s.drawIndex + m)
      else s
    }

    /** The state after owned agent k's turn: its step, its requests and, unless it is an epithelial cell, its removal if dead. */
    ghost function AfterTurn(s: Snapshot, k: Key, input: StepInput): Snapshot
    {
      var requested := AfterRequests(AfterStep(s, k, input), k);
      if k.agentType == 0 then requested else AfterRemoval(requested, k)
    }

    /** The state after the turns of the given agents, in order. */
    ghost function AfterTurns(s: Snapshot, order: seq<Key>, inputs: seq<StepInput>): Snapshot
      requires |inputs| == |order|
    {
      if order == [] then s
      else AfterTurn(AfterTurns(s, order[..|order| - 1], inputs[..|inputs| - 1]), order[|order| - 1], inputs[|inputs| - 1])
    }

    /**
     * The first pass of executeTimestep: for each replicated epithelial
     * cell, its pending division and then its pending infection are carried
     * out here, where the targets are owned. Only epithelial cells change.
     */
    method ServeBufferZone(bufferZone: seq<Key>)
      requires Valid() && forall k :: k in bufferZone ==> k in agents && k.agentType == 0
      modifies this`agents, this`local, this`location, this`drawIndex
      ensures Valid() && agents.Keys == old(agents).Keys && local == old(local) && location == old(location)
      ensures Now() == AfterBufferZone(old(Now()), bufferZone)
      ensures OnlyEpithelialChanged(old(agents), agents) && old(drawIndex) <= drawIndex
    {
      for i := 0 to |bufferZone|
        invariant Valid() && agents.Keys == old(agents).Keys && local == old(local) && location == old(location)
        invariant Now() == AfterBufferZone(old(Now()), bufferZone[..i])
        invariant OnlyEpithelialChanged(old(agents), agents) && old(drawIndex) <= drawIndex
      {
        ghost var agents1 := agents;
        assert bufferZone[..i + 1][..i] == bufferZone[..i];
        ServeReplica(bufferZone[i]);
        OnlyEpithelialChangedTwice(old(agents), agents1, agents);
      }
      assert bufferZone[..|bufferZone|] == bufferZone;
    }

    /** One pass of the buffer-zone loop: a replicated cell's division, then its infection. */
    method ServeReplica(k: Key)
      requires Valid() && k in agents && k.agentType == 0
      modifies this`agents, this`local, this`location, this`drawIndex
      ensures Valid() && agents.Keys == old(agents).Keys && local == old(local) && location == old(location)
      ensures old(agents)[k].Epithelial?
      ensures var divided := Divided(old(agents), rank, config, old(agents)[k].cell, Drawn(random, old(drawIndex)));
        && k in divided && divided[k].Epithelial?
        && agents == Infected(divided, rank, divided[k].cell)
      ensures drawIndex == old(drawIndex) + if DivisionApplies(old(agents), rank, old(agents)[k].cell) then 1 else 0
      ensures Now() == AfterServing(old(Now()), k)
      ensures OnlyEpithelialChanged(old(agents), agents)
    {
      CheckForCellDivision(k);
      CheckForCellToCellInfection(k);
    }

    /**
     * Since a state with store (agents0, local0), counters v0, i0, s0 and
     * draw index d0: the model is valid, its store grew as a tick may grow
     * it, and no counter and not the draw index went down.
     */
    ghost predicate Advanced(agents0: map<Key, Agent>, local0: set<Key>, removable: set<Key>, v0: int, i0: int, s0: int, d0: nat)
      reads this
    {
      Valid() && Grew(rank, agents0, local0, removable, agents, local) &&
      v0 <= currVirionAgentId && i0 <= currInnateImmuneCellAgendId && s0 <= currSpecialisedImmuneCellAgentId && d0 <= drawIndex
    }

    /**
     * The requests an owned agent's type lets it make, after its step: an
     * epithelial cell's division, virion release and infection, an innate
     * cell's innate and specialised recruitment, a specialised cell's
     * specialised recruitment. The store only grows, by agents this rank issues.
     */
    method CarryOutRequests(k: Key)
      requires Valid() && k in local
      modifies this
      ensures Now() == AfterRequests(old(Now()), k)
      ensures Advanced(old(agents), old(local), {}, old(currVirionAgentId), old(currInnateImmuneCellAgendId),
                       old(currSpecialisedImmuneCellAgentId), old(drawIndex))
    {
      if k.agentType == 0 {
        EpithelialRequests(k);
      } else if k.agentType == 2 {
        InnateRequests(k);
      } else if k.agentType == 3 {
        SpecialisedRequests(k);
      }
    }

    /** An epithelial cell's requests: division, virion release, infection. */
    method EpithelialRequests(k: Key)
      requires Valid() && k in local && k.agentType == 0
      modifies this
      ensures Now() == AfterEpithelialRequests(old(Now()), k)
      ensures Advanced(old(agents), old(local), {}, old(currVirionAgentId), old(currInnateImmuneCellAgendId),
                       old(currSpecialisedImmuneCellAgentId), old(drawIndex))
    {
      CheckForCellDivision(k);
      ghost var agents1, local1, first, d1 := agents, local, currVirionAgentId + 1, drawIndex;
      CheckForCellVirionRelease(k);
      GrewByBatch(ReleasedVirion, rank, config, random, first, Times(agents1[k].cell.countToRelease), d1, agents1, local1);
      CheckForCellToCellInfection(k);
    }

    /** An innate cell's requests: innate recruitment, then specialised recruitment. */
    method InnateRequests(k: Key)
      requires Valid() && k in local && k.agentType == 2
      modifies this
      ensures Now() == AfterSpecialisedRecruitment(AfterInnateRecruitment(old(Now()), k), k)
      ensures Advanced(old(agents), old(local), {}, old(currVirionAgentId), old(currInnateImmuneCellAgendId),
                       old(currSpecialisedImmuneCellAgentId), old(drawIndex))
    {
      CheckForInnateImmuneCellRecruitment(k);
      ghost var recruited := Now();
      assert recruited == AfterInnateRecruitment(old(Now()), k);
      GrewByBatch(RecruitedInnate, rank, config, random, old(currInnateImmuneCellAgendId),
                  Times(old(agents)[k].innate.innateToRecruit), old(drawIndex), old(agents), old(local));
      ghost var agents1, local1 := agents, local;
      SpecialisedRequests(k);
      assert Now() == AfterSpecialisedRecruitment(recruited, k);
      GrewTwice(rank, old(agents), old(local), {}, agents1, local1, {}, agents, local);
    }

    /** The specialised recruitment an innate or a specialised cell requests. */
    method SpecialisedRequests(k: Key)
      requires Valid() && k in local
      modifies this
      ensures Now() == AfterSpecialisedRecruitment(old(Now()), k)
      ensures Advanced(old(agents), old(local), {}, old(currVirionAgentId), old(currInnateImmuneCellAgendId),
                       old(currSpecialisedImmuneCellAgentId), old(drawIndex))
    {
      CheckForSpecialisedImmuneCellRecruitement(k);
      GrewByBatch(RecruitedSpecialised, rank, config, random, old(currSpecialisedImmuneCellAgentId),
                  Times(SpecialisedToRecruit(old(agents)[k])), old(drawIndex), old(agents), old(local));
    }

    /**
     * One owned agent's turn in executeTimestep: its step, the requests its
     * type makes, and, unless it is an epithelial cell, its removal if it died.
     */
    method ActLocalAgent(k: Key, input: StepInput)
      requires Valid() && k in local
      modifies this
      ensures Now() == AfterTurn(old(Now()), k, input)
      ensures Advanced(old(agents), old(local), if k.agentType == 0 then {} else {k}, old(currVirionAgentId),
                       old(currInnateImmuneCellAgendId), old(currSpecialisedImmuneCellAgentId), old(drawIndex))
    {
      StepAgent(k, input);
      ghost var agents0, local0 := agents, local;
      CarryOutRequests(k);
      if k.agentType != 0 {
        ghost var agents1, local1 := agents, local;
        RetireIfDead(k);
        GrewTwice(rank, agents0, local0, {}, agents1, local1, {k}, agents, local);
      }
    }

    /** removeLocalAgentIfDead within a turn: a change of the store that may remove k. */
    method RetireIfDead(k: Key)
      requires Valid() && k in local
      modifies this
      ensures Now() == AfterRemoval(old(Now()), k)
      ensures Advanced(old(agents), old(local), {k}, old(currVirionAgentId), old(currInnateImmuneCellAgendId),
                       old(currSpecialisedImmuneCellAgentId), old(drawIndex))
    {
      RemoveLocalAgentIfDead(k);
      RemovalGrew(k, old(agents), old(local), old(currInnateImmuneCellAgendId), old(drawIndex));
    }

    /** What removeLocalAgentIfDead did, read as a change of the store that may remove k. */
    lemma RemovalGrew(k: Key, agents1: map<Key, Agent>, local1: set<Key>, first: int, d1: nat)
      requires 0 <= config.countOfInnateImmuneCellAgents
      requires k in local1 && local1 <= agents1.Keys && WellKinded(agents1[k])
      requires !ToRemove(agents1[k]) ==> agents == agents1 && local == local1
      requires ToRemove(agents1[k]) && k.agentType != 2 ==> agents == agents1 - {k} && local == local1 - {k}
      requires ToRemove(agents1[k]) && k.agentType == 2 ==>
        var m := FloorRecruits(|LocalOfType(local1, 2)|, config.countOfInnateImmuneCellAgents);
        var made := Batch(RecruitedInnate, rank, config, random, first, m, d1);
        && made.Keys !! agents1.Keys && agents == (agents1 + made) - {k} && local == (local1 + made.Keys) - {k}
      ensures Grew(rank, agents1, local1, {k}, agents, local)
    {
      if ToRemove(agents1[k]) && k.agentType == 2 {
        var m := FloorRecruits(|LocalOfType(local1, 2)|, config.countOfInnateImmuneCellAgents);
        var made := Batch(RecruitedInnate, rank, config, random, first, m, d1);
        GrewByBatch(RecruitedInnate, rank, config, random, first, m, d1, agents1, local1);
        assert Grew(rank, agents1 + made, local1 + made.Keys, {k}, agents, local);
        GrewTwice(rank, agents1, local1, {}, agents1 + made, local1 + made.Keys, {k}, agents, local);
      }
    }

    /**
     * The second pass of executeTimestep: every owned agent, in the order
     * the selection gives, takes its turn once. Epithelial cells stay owned;
     * another agent stops being owned only by its own removal.
     */
    method ActLocalAgents(order: seq<Key>, inputs: seq<StepInput>)
      requires Valid() && |inputs| == |order| && (forall k :: k in order ==> k in local)
      requires forall i, j :: 0 <= i < j < |order| ==> order[i] != order[j]
      modifies this
      ensures Now() == AfterTurns(old(Now()), order, inputs)
      ensures Advanced(old(agents), old(local), (set k | k in order && k.agentType != 0), old(currVirionAgentId),
                       old(currInnateImmuneCellAgendId), old(currSpecialisedImmuneCellAgentId), old(drawIndex))
    {
      ghost var removed: set<Key> := {};
      for i := 0 to |order|
        invariant Now() == AfterTurns(old(Now()), order[..i], inputs[..i])
        invariant Advanced(old(agents), old(local), removed, old(currVirionAgentId),
                           old(currInnateImmuneCellAgendId), old(currSpecialisedImmuneCellAgentId), old(drawIndex))
        invariant removed <= set k | k in order && k.agentType != 0
        invariant forall j :: i <= j < |order| ==> order[j] !in removed
      {
        ghost var agents1, local1 := agents, local;
        ghost var mayGo: set<Key> := if order[i].agentType == 0 then {} else {order[i]};
        ghost var before := Now();
        ActLocalAgent(order[i], inputs[i]);
        assert Now() == AfterTurn(before, order[i], inputs[i]);
        TurnsOneMore(old(Now()), order, inputs, i);
        GrewTwice(rank, old(agents), old(local), removed, agents1, local1, mayGo, agents, local);
        removed := removed + mayGo;
      }
      assert order[..|order|] == order && inputs[..|inputs|] == inputs;
    }

    /** The turns of the first i + 1 agents are those of the first i, then agent i's. */
    lemma TurnsOneMore(s: Snapshot, order: seq<Key>, inputs: seq<StepInput>, i: nat)
      requires |inputs| == |order| && i < |order|
      ensures AfterTurns(s, order[..i + 1], inputs[..i + 1]) == AfterTurn(AfterTurns(s, order[..i], inputs[..i]), order[i], inputs[i])
    {
      assert order[..i + 1][..i] == order[..i] && inputs[..i + 1][..i] == inputs[..i];
    }

    /**
     * executeTimestep up to the grid's balancing: the buffer-zone pass over
     * the replicated epithelial cells, then every owned agent's turn. The
     * replicas keep their keys, no epithelial cell leaves, and every new
     * agent is owned here under a key this rank issued.
     */
    method ExecuteTimestep(bufferZone: seq<Key>, order: seq<Key>, inputs: seq<StepInput>)
      requires Valid()
      requires forall k :: k in bufferZone <==> k in agents && k !in local && k.agentType == 0
      requires |inputs| == |order| && (forall k :: k in order <==> k in local)
      requires forall i, j :: 0 <= i < j < |order| ==> order[i] != order[j]
      modifies this
      ensures Now() == AfterTurns(AfterBufferZone(old(Now()), bufferZone), order, inputs)
      ensures Advanced(old(agents), old(local), (set k | k in old(local) && k.agentType != 0), old(currVirionAgentId),
                       old(currInnateImmuneCellAgendId), old(currSpecialisedImmuneCellAgentId), old(drawIndex))
    {
      ServeBufferZone(bufferZone);
      ActLocalAgents(order, inputs);
    }

    /**
     * The state init builds up, from draw index d0: every agent is owned,
     * the keys are those of cells epithelial cells and of the given numbers
     * of virions, innate and specialised cells, each epithelial cell sits at
     * the grid point of its index, every agent is pristine, the counters
     * stand at the numbers seeded, and each agent took one set of draws.
     */
    ghost predicate Populated(d0: nat, cells: nat, virions: nat, innate: nat, specialised: nat)
      reads this
    {
      Stored() && local == agents.Keys &&
      (forall k :: k in agents <==> Seeded(k, rank, cells, virions, innate, specialised)) &&
      (forall k :: k in agents && k.agentType == 0 ==> location[k] == GridPoint(region, k.id)) &&
      (forall k :: k in agents ==> Pristine(agents[k])) &&
      currVirionAgentId == virions && currInnateImmuneCellAgendId == innate && currSpecialisedImmuneCellAgentId == specialised &&
      drawIndex == d0 + cells + virions + innate + specialised
    }

    /**
     * init: one epithelial cell per grid point of the region, laid column by
     * column with indices 0, 1, ...; then the initial virions, innate cells
     * and specialised cells, each kind under ids 0, 1, ... with its counter
     * advanced past them.
     */
    method Init()
      requires Valid() && agents == map[]
      requires currVirionAgentId == 0 && currInnateImmuneCellAgendId == 0 && currSpecialisedImmuneCellAgentId == 0
      modifies this
      ensures Valid()
      ensures Populated(old(drawIndex), region.extentX * region.extentY, Times(config.countOfVirionAgents),
                        Times(config.countOfInnateImmuneCellAgents), Times(config.countOfSpecialisedImmuneCellAgents))
    {
      ghost var d0 := drawIndex;
      var epithelialCellIndex := 0;
      for x := 0 to region.extentX
        invariant epithelialCellIndex == x * region.extentY && Populated(d0, epithelialCellIndex, 0, 0, 0)
      {
        epithelialCellIndex := LayColumn(x, epithelialCellIndex, d0);
      }
      ghost var cells := epithelialCellIndex;
      var i: nat := 0;
      while i < config.countOfVirionAgents
        invariant i <= Times(config.countOfVirionAgents) && Populated(d0, cells, i, 0, 0)
      {
        SeedVirion(i, d0, cells);
        i := i + 1;
      }
      assert i == Times(config.countOfVirionAgents);
      ghost var virions := Times(config.countOfVirionAgents);
      i := 0;
      while i < config.countOfInnateImmuneCellAgents
        invariant i <= Times(config.countOfInnateImmuneCellAgents) && Populated(d0, cells, virions, i, 0)
      {
        SeedInnateCell(i, d0, cells, virions);
        i := i + 1;
      }
      assert i == Times(config.countOfInnateImmuneCellAgents);
      ghost var innate := Times(config.countOfInnateImmuneCellAgents);
      i := 0;
      while i < config.countOfSpecialisedImmuneCellAgents
        invariant i <= Times(config.countOfSpecialisedImmuneCellAgents) && Populated(d0, cells, virions, innate, i)
      {
        SeedSpecialisedCell(i, d0, cells, virions, innate);
        i := i + 1;
      }
      assert i == Times(config.countOfSpecialisedImmuneCellAgents);
      PopulatedIsValid(d0, cells, virions, innate, Times(config.countOfSpecialisedImmuneCellAgents));
    }

    /** The inner loop of init: the cells of column x, from index epithelialCellIndex on. */
    method LayColumn(x: int, epithelialCellIndex: int, ghost d0: nat) returns (next: int)
      requires 0 <= x < region.extentX && epithelialCellIndex == x * region.extentY
      requires Populated(d0, epithelialCellIndex, 0, 0, 0)
      modifies this`agents, this`local, this`location, this`drawIndex
      ensures next == (x + 1) * region.extentY && Populated(d0, next, 0, 0, 0)
    {
      next := epithelialCellIndex;
      for y := 0 to region.extentY
        invariant next == x * region.extentY + y && Populated(d0, next, 0, 0, 0)
      {
        LayCell(next, x, y, d0);
        next := next + 1;
      }
    }

    /** One pass of the inner loop: the cell with the next index at column x, row y. */
    method LayCell(index: nat, x: int, y: int, ghost d0: nat)
      requires 0 <= x < region.extentX && 0 <= y < region.extentY && index == x * region.extentY + y
      requires Populated(d0, index, 0, 0, 0)
      modifies this`agents, this`local, this`location, this`drawIndex
      ensures Populated(d0, index + 1, 0, 0, 0)
    {
      GridPointOfIndex(region, x, y);
      InitialiseEpithelialCellAgent(index, x, y, None);
    }

    /** One pass of the virion loop of init: virion i, then the counter past it. */
    method SeedVirion(i: nat, ghost d0: nat, ghost cells: nat)
      requires Populated(d0, cells, i, 0, 0)
      modifies this`agents, this`local, this`location, this`drawIndex, this`currVirionAgentId
      ensures Populated(d0, cells, i + 1, 0, 0)
    {
      InitialiseVirionAgent(i, false, -1, -1);
      currVirionAgentId := currVirionAgentId + 1;
    }

    /** One pass of the innate loop of init: innate cell i, then the counter past it. */
    method SeedInnateCell(i: nat, ghost d0: nat, ghost cells: nat, ghost virions: nat)
      requires Populated(d0, cells, virions, i, 0)
      modifies this`agents, this`local, this`location, this`drawIndex, this`currInnateImmuneCellAgendId
      ensures Populated(d0, cells, virions, i + 1, 0)
    {
      InitialiseInnateImmuneCellAgent(i, false);
      currInnateImmuneCellAgendId := currInnateImmuneCellAgendId + 1;
    }

    /** One pass of the specialised loop of init: specialised cell i, then the counter past it. */
    method SeedSpecialisedCell(i: nat, ghost d0: nat, ghost cells: nat, ghost virions: nat, ghost innate: nat)
      requires Populated(d0, cells, virions, innate, i)
      modifies this`agents, this`local, this`location, this`drawIndex, this`currSpecialisedImmuneCellAgentId
      ensures Populated(d0, cells, virions, innate, i + 1)
    {
      InitialiseSpecialisedImmuneCellAgent(i, false);
      currSpecialisedImmuneCellAgentId := currSpecialisedImmuneCellAgentId + 1;
    }

    /** The state init builds is valid: its ids lie below the counters. */
    lemma PopulatedIsValid(d0: nat, cells: nat, virions: nat, innate: nat, specialised: nat)
      requires Populated(d0, cells, virions, innate, specialised) && 0 <= config.countOfInnateImmuneCellAgents
      ensures Valid()
    {
    }

    /**
     * updateAgent, as the state synchronisation applies it: the agent stored
     * under the package's (id, rank, type) takes the package's current rank
     * and packaged values; no other agent, key or grid point changes.
     */
    method UpdateAgent(p: Package)
      requires Valid() && CodesInRange(p) && PackageKey(p) in agents
      modifies this`agents
      ensures Valid()
      ensures agents == old(agents)[PackageKey(p) := Updated(old(agents)[PackageKey(p)], p)]
    {
      var k := PackageKey(p);
      UpdateKeepsIdentity(agents[k], p);
      agents := agents[k := Updated(agents[k], p)];
    }

    /**
     * createAgent, as the status and projection synchronisations apply it: a
     * new agent built from the package, stored under its key at the grid
     * point it arrives at, owned here when it moved to this rank and a
     * replica otherwise. An agent this rank issued comes back under an id
     * below its counter.
     */
    method ReceiveAgent(p: Package, at: Point, owned: bool)
      requires Valid() && CodesInRange(p) && PackageKey(p) !in agents
      requires IdsBelow({PackageKey(p)}, rank, currVirionAgentId, currInnateImmuneCellAgendId, currSpecialisedImmuneCellAgentId)
      requires owned && p.agentType == 0 ==> InRegion(region, at)
      modifies this`agents, this`local, this`location
      ensures Valid()
      ensures agents == old(agents)[PackageKey(p) := CreateAgent(p)]
      ensures location == old(location)[PackageKey(p) := at]
      ensures local == if owned then old(local) + {PackageKey(p)} else old(local)
    {
      var k := PackageKey(p);
      agents := agents[k := CreateAgent(p)];
      location := location[k := at];
      if owned {
        local := local + {k};
      }
    }
  }
}

/**
 * The rules the model object applies between agents: a cell's pending
 * division or infection request is carried out on its target only under
 * guards, a moving agent's effect reaches the cell it names, and one local
 * agent's step is read out of and written back into the rank's store.
 */
module Reconciliation {
  import opened Common
  import opened Agents
  import opened Spawning
  import E = EpithelialCells
  import V = Virions
  import I = InnateCells
  import S = SpecialisedCells

  /** Every stored agent sits under its own key and is the kind its agent type names. */
  predicate Keyed(agents: map<Key, Agent>)
  {
    forall k :: k in agents ==> KeyOfAgent(agents[k]) == k && WellKinded(agents[k])
  }

  /**
   * The ids this rank has issued stay below its counters: a virion id is at
   * most the virion counter (it is pre-incremented), an innate or
   * specialised id is below its counter (it is post-incremented).
   */
  predicate IdsBelow(keys: set<Key>, rank: int, virions: int, innate: int, specialised: int)
  {
    forall k :: k in keys && k.startRank == rank ==>
      (k.agentType == 1 ==> k.id <= virions) &&
      (k.agentType == 2 ==> k.id < innate) &&
      (k.agentType == 3 ==> k.id < specialised)
  }

  /** The local keys of one agent type (selectAgents over the local agents). */
  function LocalOfType(local: set<Key>, t: int): (r: set<Key>)
    ensures forall k {:trigger k in r} :: k in r <==> k in local && k.agentType == t
  {
    set k | k in local && k.agentType == t
  }

  /**
   * The count checkForSpecialisedImmuneCellRecruitement reads, by agent
   * type: an innate cell's count of specialised cells to recruit, a
   * specialised cell's own such count, and none for any other type.
   */
  function SpecialisedToRecruit(a: Agent): int
    requires WellKinded(a)
  {
    var t := IdOf(a).agentType;
    if t == 2 then a.innate.specToRecruit
    else if t == 3 then a.specialised.specToRecruit
    else 0
  }

  /** A C++ counting loop `for (i = 0; i < n; ++i)` runs max(n, 0) times. */
  function Times(n: int): nat
  {
    if n < 0 then 0 else n
  }

  /** The address test both checks apply to a request's target: a real id, an epithelial cell, owned by this rank. */
  predicate Addressable(rank: int, target: AgentId)
  {
    target.id != -1 && target.agentType == 0 && rank == target.currentRank
  }

  /** The stored epithelial cell a request names, when there is one. */
  predicate TargetIn(agents: map<Key, Agent>, target: AgentId)
  {
    KeyOf(target) in agents && agents[KeyOf(target)].Epithelial?
  }

  /**
   * checkForCellDivision's guard: the requester asks to divide, its target
   * is addressable on this rank and is a dead epithelial cell.
   */
  predicate DivisionApplies(agents: map<Key, Agent>, rank: int, requester: E.EpithelialCell)
  {
    requester.modification == E.ToDivideInto && Addressable(rank, requester.target) &&
    TargetIn(agents, requester.target) && agents[KeyOf(requester.target)].cell.internal == E.Dead
  }

  /**
   * checkForCellDivision: when the guard holds the dead target is revived in
   * place with new parameters (its identity, owning rank included, is
   * kept); otherwise no agent changes.
   */
  function Divided(agents: map<Key, Agent>, rank: int, config: Config, requester: E.EpithelialCell, g: SpawnDraw): (r: map<Key, Agent>)
    ensures r.Keys == agents.Keys
    ensures forall k :: k in agents && k != KeyOf(requester.target) ==> r[k] == agents[k]
    ensures !DivisionApplies(agents, rank, requester) ==> r == agents
    ensures DivisionApplies(agents, rank, requester) ==>
      var old_ := agents[KeyOf(requester.target)].cell;
      var c := r[KeyOf(requester.target)];
      && c.Epithelial? && c.cell.id == old_.id
      && c.cell.internal == E.Healthy && c.cell.external == E.SeeminglyHealthy
      && c.cell.age == 0 && c.cell.timeInfected == 0 && c.cell.timeSinceLastDivision == 0
      && c.cell.countToRelease == 0 && c.cell.remainder == 0.0
      && c.cell.modification == E.NoModification && c.cell.target == NoTarget
    ensures Keyed(agents) ==> Keyed(r)
  {
    if DivisionApplies(agents, rank, requester) then
      var k := KeyOf(requester.target);
      agents[k := Epithelial(Revived(agents[k].cell, config, g))]
    else agents
  }

  /**
   * checkForCellToCellInfection's guard: the requester asks to infect and
   * is itself infected, its target is addressable on this rank and is a
   * healthy epithelial cell.
   */
  predicate InfectionApplies(agents: map<Key, Agent>, rank: int, requester: E.EpithelialCell)
  {
    requester.modification == E.ToInfect && requester.internal == E.Infected &&
    Addressable(rank, requester.target) &&
    TargetIn(agents, requester.target) && agents[KeyOf(requester.target)].cell.internal == E.Healthy
  }

  /**
   * checkForCellToCellInfection: when the guard holds the only change is the
   * target's internal state becoming infected; otherwise no agent changes.
   */
  function Infected(agents: map<Key, Agent>, rank: int, requester: E.EpithelialCell): (r: map<Key, Agent>)
    ensures r.Keys == agents.Keys
    ensures forall k :: k in agents && k != KeyOf(requester.target) ==> r[k] == agents[k]
    ensures !InfectionApplies(agents, rank, requester) ==> r == agents
    ensures InfectionApplies(agents, rank, requester) ==>
      r[KeyOf(requester.target)] ==
        Epithelial(agents[KeyOf(requester.target)].cell.(internal := E.Infected))
    ensures Keyed(agents) ==> Keyed(r)
  {
    if InfectionApplies(agents, rank, requester) then
      var k := KeyOf(requester.target);
      agents[k := Epithelial(E.InfectedCell(agents[k].cell))]
    else agents
  }

  /**
   * A moving agent's effect on the cell it found on its grid point:
   * infect() or eliminate() on that cell. A cell the store does not hold is
   * left alone (the C++ pointer is always to a stored object).
   */
  function ApplyEffect(agents: map<Key, Agent>, e: Effect): (r: map<Key, Agent>)
    ensures r.Keys == agents.Keys
    ensures forall k :: k in agents && !agents[k].Epithelial? ==> r[k] == agents[k]
    ensures e.NoEffect? ==> r == agents
    ensures e.InfectCell? && TargetIn(agents, e.cell) ==>
      r == agents[KeyOf(e.cell) := Epithelial(agents[KeyOf(e.cell)].cell.(internal := E.Infected))]
    ensures e.EliminateCell? && TargetIn(agents, e.cell) ==>
      r == agents[KeyOf(e.cell) := Epithelial(agents[KeyOf(e.cell)].cell.(internal := E.Dead, external := E.DeadCell))]
    ensures Keyed(agents) ==> Keyed(r)
  {
    match e
    case NoEffect => agents
    case InfectCell(id) =>
      if TargetIn(agents, id) then agents[KeyOf(id) := Epithelial(E.InfectedCell(agents[KeyOf(id)].cell))]
      else agents
    case EliminateCell(id) =>
      if TargetIn(agents, id) then agents[KeyOf(id) := Epithelial(E.EliminatedCell(agents[KeyOf(id)].cell))]
      else agents
  }

  /** What a grid query reports for the given keys: each stored agent as a neighbour, in query order. */
  function Reported(agents: map<Key, Agent>, keys: seq<Key>): (r: seq<E.Neighbour>)
    ensures |r| <= |keys|
    ensures forall n :: n in r ==> exists k :: k in keys && k in agents && n == NeighbourOf(agents[k])
  {
    if keys == [] then []
    else
      var rest := Reported(agents, keys[1..]);
      if keys[0] in agents then [NeighbourOf(agents[keys[0]])] + rest else rest
  }

  /** The rank's store of agents and their grid points. */
  datatype World = World(agents: map<Key, Agent>, location: map<Key, Point>)

  /** One agent's move, applied to its grid point. */
  function MovedTo(location: map<Key, Point>, k: Key, m: Option<Move>): map<Key, Point>
    requires k in location
  {
    if m.Some? then location[k := Moved(location[k], m.value)] else location
  }

  /**
   * doStep of one agent, read through its kind: an epithelial cell looks at
   * the agents its Moore neighbourhood reports (near), has no effect on
   * another agent and never moves; a virion or an immune cell looks at the
   * agents on its grid point (here).
   */
  function OwnStep(a: Agent, near: seq<E.Neighbour>, here: seq<E.Neighbour>, d: Draws): (s: Stepped<Agent>)
    ensures KindOfAgent(s.agent) == KindOfAgent(a) && IdOf(s.agent) == IdOf(a)
    ensures a.Epithelial? ==> s.effect == NoEffect && s.move == None
  {
    match a
    case Epithelial(c) =>
      E.StepKeepsParameters(c, near, d);
      Stepped(Epithelial(E.Step(c, near, d)), NoEffect, None)
    case Virion(v) =>
      V.StepKeepsParameters(v, here, d);
      var s := V.Step(v, here, d);
      Stepped(Virion(s.agent), s.effect, s.move)
    case Innate(c) =>
      I.StepKeepsParameters(c, here, d);
      var s := I.Step(c, here, d);
      Stepped(Innate(s.agent), s.effect, s.move)
    case Specialised(c) =>
      S.StepKeepsParameters(c, here, d);
      var s := S.Step(c, here, d);
      Stepped(Specialised(s.agent), s.effect, s.move)
  }

  /**
   * One local agent's step in the rank's store: its new state is written
   * back, its effect reaches the cell it found, and its move changes its
   * own grid point and no other.
   */
  function AgentStep(w: World, k: Key, near: seq<Key>, here: seq<Key>, d: Draws): (r: World)
    requires k in w.agents && k in w.location
    ensures r.agents.Keys == w.agents.Keys && r.location.Keys == w.location.Keys
    ensures forall j :: j in w.location && j != k ==> r.location[j] == w.location[j]
    ensures w.agents[k].Epithelial? ==> r.location == w.location
  {
    var s := OwnStep(w.agents[k], Reported(w.agents, near), Reported(w.agents, here), d);
    World(ApplyEffect(w.agents[k := s.agent], s.effect), MovedTo(w.location, k, s.move))
  }

  /**
   * A step changes, besides the stepping agent, only epithelial cells, and
   * keeps every agent under its own key as the kind its type names.
   */
  lemma AgentStepKeepsStore(w: World, k: Key, near: seq<Key>, here: seq<Key>, d: Draws)
    requires k in w.agents && k in w.location
    ensures var r := AgentStep(w, k, near, here, d);
      && KindOfAgent(r.agents[k]) == KindOfAgent(w.agents[k]) && IdOf(r.agents[k]) == IdOf(w.agents[k])
      && (forall j :: j in w.agents && j != k && !w.agents[j].Epithelial? ==> r.agents[j] == w.agents[j])
      && (Keyed(w.agents) ==> Keyed(r.agents))
  {
    var s := OwnStep(w.agents[k], Reported(w.agents, near), Reported(w.agents, here), d);
    var written := w.agents[k := s.agent];
    assert Keyed(w.agents) ==> Keyed(written);
    assert written[k].Epithelial? == w.agents[k].Epithelial?;
  }

  /**
   * How many cells the innate floor loop creates when an innate cell dies
   * with n local innate cells (the dying one included) and a floor of
   * count: the loop re-selects before each creation, so the size it tests
   * lags one creation behind and it stops at count + 2 cells.
   */
  function FloorRecruits(n: int, count: int): (m: nat)
    requires 0 <= count
    ensures n <= count ==> n + m == count + 2
    ensures n > count ==> m == 0
  {
    if n <= count then count + 2 - n else 0
  }

  /** A batch of this rank's agents of one type issued above the counter is disjoint from the store. */
  lemma BatchIsFresh(spawn: Spawn, rank: int, config: Config, random: nat -> SpawnDraw, first: int, n: nat, index: nat,
                     keys: set<Key>, virions: int, innate: int, specialised: int)
    requires IdsBelow(keys, rank, virions, innate, specialised)
    requires first > (match spawn
                      case ReleasedVirion => virions
                      case RecruitedInnate => innate - 1
                      case RecruitedSpecialised => specialised - 1)
    ensures Batch(spawn, rank, config, random, first, n, index).Keys !! keys
  {
    BatchKeys(spawn, rank, config, random, first, n, index);
  }

  /** A batch issues n distinct keys, so it adds exactly n agents. */
  lemma {:induction false} BatchSize(spawn: Spawn, rank: int, config: Config, random: nat -> SpawnDraw, first: int, n: nat, index: nat)
    ensures |Batch(spawn, rank, config, random, first, n, index)| == n
  {
    if n > 0 {
      BatchSize(spawn, rank, config, random, first, n - 1, index);
      BatchKeys(spawn, rank, config, random, first, n - 1, index);
      assert Key(first + n - 1, rank, TypeOf(spawn)) !in Batch(spawn, rank, config, random, first, n - 1, index);
    }
  }

  /** The ids a batch issues lie in [first, first + n), so the counters move past every one of them. */
  lemma BatchKeepsIdsBelow(spawn: Spawn, rank: int, config: Config, random: nat -> SpawnDraw, first: int, n: nat, index: nat,
                           keys: set<Key>, virions: int, innate: int, specialised: int)
    requires IdsBelow(keys, rank, virions, innate, specialised)
    requires spawn == ReleasedVirion ==> virions == first + n - 1
    requires spawn == RecruitedInnate ==> innate == first + n
    requires spawn == RecruitedSpecialised ==> specialised == first + n
    ensures IdsBelow(keys + Batch(spawn, rank, config, random, first, n, index).Keys, rank, virions, innate, specialised)
  {
    BatchKeys(spawn, rank, config, random, first, n, index);
  }

  /** Adding a fresh key of type t to the local keys adds one to that type's count. */
  lemma LocalOfTypeAdd(local: set<Key>, t: int, k: Key)
    requires k !in local && k.agentType == t
    ensures |LocalOfType(local + {k}, t)| == |LocalOfType(local, t)| + 1
  {
    assert LocalOfType(local + {k}, t) == LocalOfType(local, t) + {k};
  }

  /** Removing a local key of type t takes one from that type's count. */
  lemma LocalOfTypeRemove(local: set<Key>, t: int, k: Key)
    requires k in local && k.agentType == t
    ensures |LocalOfType(local - {k}, t)| == |LocalOfType(local, t)| - 1
  {
    assert LocalOfType(local - {k}, t) == LocalOfType(local, t) - {k};
  }

  /** Writing one entry after a union is writing it into the right operand. */
  lemma UnionThenWrite<K, V>(a: map<K, V>, b: map<K, V>, k: K, v: V)
    ensures (a + b)[k := v] == a + b[k := v]
  {
  }

  /** Placing one more key at the same point extends the placement by that key. */
  lemma AllAtOneMore(keys: set<Key>, k: Key, p: Point)
    ensures AllAt(keys + {k}, p) == AllAt(keys, p)[k := p]
  {
  }

  /**
   * The key of a batch's next agent, id first + i, is not stored yet when
   * the whole batch of n is new.
   */
  lemma NextKeyIsNew(spawn: Spawn, t: int, rank: int, config: Config, random: nat -> SpawnDraw, first: int, i: nat, n: nat,
                     index: nat, id: int, agents: map<Key, Agent>)
    requires t == TypeOf(spawn) && i < n && id == first + i
    requires Batch(spawn, rank, config, random, first, n, index).Keys !! agents.Keys
    ensures Key(id, rank, t) !in agents + Batch(spawn, rank, config, random, first, i, index)
  {
    BatchKeys(spawn, rank, config, random, first, n, index);
    assert Key(id, rank, t) in Batch(spawn, rank, config, random, first, n, index);
    BatchKeys(spawn, rank, config, random, first, i, index);
  }

  /**
   * Storing a batch's next agent a, id first + i made with the values at
   * draw index + i, in a store that holds the batch so far gives the store
   * with the longer batch, and the same for its keys.
   */
  lemma NextAgentExtendsBatch(spawn: Spawn, t: int, rank: int, config: Config, random: nat -> SpawnDraw, first: int, i: nat,
                              index: nat, id: int, d: nat, a: Agent, agents: map<Key, Agent>, keys: set<Key>)
    requires t == TypeOf(spawn) && id == first + i && d == index + i
    requires a == Made(spawn, rank, id, config, Drawn(random, d))
    ensures var b := Batch(spawn, rank, config, random, first, i, index);
      var b1 := Batch(spawn, rank, config, random, first, i + 1, index);
      && (agents + b)[Key(id, rank, t) := a] == agents + b1
      && keys + b.Keys + {Key(id, rank, t)} == keys + b1.Keys
  {
    BatchOneMore(spawn, rank, config, random, first, i, index);
    var b := Batch(spawn, rank, config, random, first, i, index);
    UnionThenWrite(agents, b, Key(id, rank, t), a);
  }

  /** Placing a batch's next agent, id first + i, at the point all the batch so far shares. */
  lemma NextAgentAtSamePoint(spawn: Spawn, t: int, rank: int, config: Config, random: nat -> SpawnDraw, first: int, i: nat,
                             index: nat, id: int, location: map<Key, Point>, p: Point)
    requires t == TypeOf(spawn) && id == first + i
    ensures var b := Batch(spawn, rank, config, random, first, i, index);
      var b1 := Batch(spawn, rank, config, random, first, i + 1, index);
      (location + AllAt(b.Keys, p))[Key(id, rank, t) := p] == location + AllAt(b1.Keys, p)
  {
    BatchOneMore(spawn, rank, config, random, first, i, index);
    var b := Batch(spawn, rank, config, random, first, i, index);
    UnionThenWrite(location, AllAt(b.Keys, p), Key(id, rank, t), p);
    AllAtOneMore(b.Keys, Key(id, rank, t), p);
  }

  /** Placing a recruited cell, id first + i, at the place drawn with the values at draw index + i. */
  lemma NextPlaceExtends(rank: int, t: int, region: Region, random: nat -> SpawnDraw, first: int, i: nat, index: nat,
                         id: int, d: nat, location: map<Key, Point>)
    requires id == first + i && d == index + i
    ensures (location + RecruitPlaces(rank, t, region, random, first, i, index))[Key(id, rank, t) := PlacementOf(t, region, Drawn(random, d))]
            == location + RecruitPlaces(rank, t, region, random, first, i + 1, index)
  {
    RecruitPlacesOneMore(rank, t, region, random, first, i, index);
    UnionThenWrite(location, RecruitPlaces(rank, t, region, random, first, i, index), Key(id, rank, t), PlacementOf(t, region, Drawn(random, d)));
  }

  /** Owning keys of type t that were not owned adds their number to the local count of type t. */
  lemma LocalOfTypeUnion(local: set<Key>, keys: set<Key>, t: int)
    requires keys !! local && forall k :: k in keys ==> k.agentType == t
    ensures |LocalOfType(local + keys, t)| == |LocalOfType(local, t)| + |keys|
  {
    assert LocalOfType(local + keys, t) == LocalOfType(local, t) + keys;
  }

  /**
   * Owning the first j agents of a batch that is new to the local keys adds
   * j to the local count of the batch's type.
   */
  lemma LocalOfTypeBatch(spawn: Spawn, rank: int, config: Config, random: nat -> SpawnDraw, first: int,
                         j: nat, m: nat, index: nat, local: set<Key>)
    requires j <= m && Batch(spawn, rank, config, random, first, m, index).Keys !! local
    ensures |LocalOfType(local + Batch(spawn, rank, config, random, first, j, index).Keys, TypeOf(spawn))|
            == |LocalOfType(local, TypeOf(spawn))| + j
  {
    BatchKeys(spawn, rank, config, random, first, m, index);
    BatchKeys(spawn, rank, config, random, first, j, index);
    BatchSize(spawn, rank, config, random, first, j, index);
    LocalOfTypeUnion(local, Batch(spawn, rank, config, random, first, j, index).Keys, TypeOf(spawn));
  }

  /**
   * How a tick may change the store of one rank, from (agents0, local0) to
   * (agents1, local1): the replicas keep their keys, an owned agent leaves
   * only if it is among removable, and every newly owned key is new to the
   * store and issued by this rank.
   */
  ghost predicate Grew(rank: int, agents0: map<Key, Agent>, local0: set<Key>, removable: set<Key>,
                       agents1: map<Key, Agent>, local1: set<Key>)
  {
    agents1.Keys - local1 == agents0.Keys - local0 &&
    local0 - removable <= local1 &&
    forall k :: k in local1 && k !in local0 ==> k !in agents0 && k.startRank == rank
  }

  /** Two changes of the store in a row are one, whose removable agents are those of either. */
  lemma GrewTwice(rank: int, agents0: map<Key, Agent>, local0: set<Key>, r0: set<Key>,
                  agents1: map<Key, Agent>, local1: set<Key>, r1: set<Key>,
                  agents2: map<Key, Agent>, local2: set<Key>)
    requires Grew(rank, agents0, local0, r0, agents1, local1)
    requires Grew(rank, agents1, local1, r1, agents2, local2)
    ensures Grew(rank, agents0, local0, r0 + r1, agents2, local2)
  {
    forall k | k in local2 && k !in local0
      ensures k !in agents0 && k.startRank == rank
    {
      if k !in local1 {
        assert k !in agents1;
        assert k !in agents0.Keys - local0;
      }
    }
  }

  /** Owning a batch that is new to the store is such a change, with nothing removed. */
  lemma GrewByBatch(spawn: Spawn, rank: int, config: Config, random: nat -> SpawnDraw, first: int, n: nat, index: nat,
                    agents0: map<Key, Agent>, local0: set<Key>)
    requires Batch(spawn, rank, config, random, first, n, index).Keys !! agents0.Keys
    ensures var made := Batch(spawn, rank, config, random, first, n, index);
      Grew(rank, agents0, local0, {}, agents0 + made, local0 + made.Keys)
  {
    BatchKeys(spawn, rank, config, random, first, n, index);
  }

  /** Between two stores with the same keys, only epithelial cells differ, and they stay epithelial cells. */
  ghost predicate OnlyEpithelialChanged(agents0: map<Key, Agent>, agents1: map<Key, Agent>)
  {
    agents1.Keys == agents0.Keys &&
    forall k :: k in agents0 ==> agents1[k].Epithelial? == agents0[k].Epithelial? && (!agents0[k].Epithelial? ==> agents1[k] == agents0[k])
  }

  lemma OnlyEpithelialChangedTwice(agents0: map<Key, Agent>, agents1: map<Key, Agent>, agents2: map<Key, Agent>)
    requires OnlyEpithelialChanged(agents0, agents1) && OnlyEpithelialChanged(agents1, agents2)
    ensures OnlyEpithelialChanged(agents0, agents2)
  {
  }
}

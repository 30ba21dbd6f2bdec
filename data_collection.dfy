/**
 * The population counters a rank reports each tick: counts over the
 * rank's local agents, selected by agent type.
 */
module DataCollection {
  import opened Common
  import opened Agents
  import E = EpithelialCells

  /** selectAgents over the local agents: those of one agent type, in the order held. */
  function Selected(local: seq<Agent>, t: int): (r: seq<Agent>)
    ensures |r| <= |local|
    ensures forall a :: a in r <==> a in local && IdOf(a).agentType == t
  {
    if |local| == 0 then []
    else (if IdOf(local[0]).agentType == t then [local[0]] else []) + Selected(local[1..], t)
  }

  /** The three tests the epithelial counters apply to a cell's internal state. */
  datatype CellTest = NotDead | IsInfected | IsDead

  predicate Passes(a: Agent, test: CellTest)
  {
    a.Epithelial? &&
    match test
    case NotDead => a.cell.internal != E.Dead
    case IsInfected => a.cell.internal == E.Infected
    case IsDead => a.cell.internal == E.Dead
  }

  /** How many of the given agents pass a test. */
  function CountPassing(cells: seq<Agent>, test: CellTest): (n: nat)
    ensures n <= |cells|
  {
    if |cells| == 0 then 0
    else (if Passes(cells[0], test) then 1 else 0) + CountPassing(cells[1..], test)
  }

  /** Counting over two runs of agents adds up. */
  lemma {:induction false} CountPassingAppend(a: seq<Agent>, b: seq<Agent>, test: CellTest)
    ensures CountPassing(a + b, test) == CountPassing(a, test) + CountPassing(b, test)
  {
    if a != [] {
      assert (a + b)[0] == a[0] && (a + b)[1..] == a[1..] + b;
      CountPassingAppend(a[1..], b, test);
    } else {
      assert a + b == b;
    }
  }

  /** The local agents are the kind their agent type names (the counters cast by agent type). */
  predicate AllWellKinded(local: seq<Agent>)
  {
    forall a :: a in local ==> WellKinded(a)
  }

  /** DataSource_EpithelialCellsCount: the local epithelial cells that are not dead. */
  method EpithelialCellsCount(local: seq<Agent>) returns (aliveEpithCellsCount: int)
    ensures aliveEpithCellsCount == CountPassing(Selected(local, 0), NotDead)
  {
    aliveEpithCellsCount := 0;
    var cells := Selected(local, 0);
    var i := 0;
    while i < |cells|
      invariant 0 <= i <= |cells|
      invariant aliveEpithCellsCount + CountPassing(cells[i..], NotDead) == CountPassing(cells, NotDead)
    {
      assert cells[i..][1..] == cells[i + 1..];
      if Passes(cells[i], NotDead) {
        aliveEpithCellsCount := aliveEpithCellsCount + 1;
      }
      i := i + 1;
    }
  }

  /** DataSource_InfectedEpithelialCellsCount: the local epithelial cells that are infected. */
  method InfectedEpithelialCellsCount(local: seq<Agent>) returns (infectedEpithCells: int)
    ensures infectedEpithCells == CountPassing(Selected(local, 0), IsInfected)
  {
    infectedEpithCells := 0;
    var cells := Selected(local, 0);
    var i := 0;
    while i < |cells|
      invariant 0 <= i <= |cells|
      invariant infectedEpithCells + CountPassing(cells[i..], IsInfected) == CountPassing(cells, IsInfected)
    {
      assert cells[i..][1..] == cells[i + 1..];
      if Passes(cells[i], IsInfected) {
        infectedEpithCells := infectedEpithCells + 1;
      }
      i := i + 1;
    }
  }

  /** DataSource_DeadEpithelialCellsCount: the local epithelial cells that are dead. */
  method DeadEpithelialCellsCount(local: seq<Agent>) returns (deadEpithCells: int)
    ensures deadEpithCells == CountPassing(Selected(local, 0), IsDead)
  {
    deadEpithCells := 0;
    var cells := Selected(local, 0);
    var i := 0;
    while i < |cells|
      invariant 0 <= i <= |cells|
      invariant deadEpithCells + CountPassing(cells[i..], IsDead) == CountPassing(cells, IsDead)
    {
      assert cells[i..][1..] == cells[i + 1..];
      if Passes(cells[i], IsDead) {
        deadEpithCells := deadEpithCells + 1;
      }
      i := i + 1;
    }
  }

  /** DataSource_VirionsCount: every local type-1 agent, whatever its state. */
  function VirionsCount(local: seq<Agent>): (n: nat)
    ensures n <= |local|
    ensures n == 0 <==> forall a :: a in local ==> IdOf(a).agentType != 1
  {
    var r := Selected(local, 1);
    assert |r| > 0 ==> r[0] in r;
    |r|
  }

  /** DataSource_InnateImmuneCellsCount: every local type-2 agent. */
  function InnateImmuneCellsCount(local: seq<Agent>): (n: nat)
    ensures n <= |local|
    ensures n == 0 <==> forall a :: a in local ==> IdOf(a).agentType != 2
  {
    var r := Selected(local, 2);
    assert |r| > 0 ==> r[0] in r;
    |r|
  }

  /** DataSource_SpecialisedImmuneCellsCount: every local type-3 agent. */
  function SpecialisedImmuneCellsCount(local: seq<Agent>): (n: nat)
    ensures n <= |local|
    ensures n == 0 <==> forall a :: a in local ==> IdOf(a).agentType != 3
  {
    var r := Selected(local, 3);
    assert |r| > 0 ==> r[0] in r;
    |r|
  }

  /** DataSource_TotalAgentsCount: every local agent. */
  function TotalAgentsCount(local: seq<Agent>): nat
  {
    |local|
  }

  /** Every selected type-0 agent is an epithelial cell when the local agents are well kinded. */
  lemma SelectedCellsAreEpithelial(local: seq<Agent>)
    requires AllWellKinded(local)
    ensures forall a :: a in Selected(local, 0) ==> a.Epithelial?
  {
  }

  /** Among epithelial cells, every cell is counted alive or dead and never both. */
  lemma {:induction false} AliveAndDeadPartition(cells: seq<Agent>)
    requires forall a :: a in cells ==> a.Epithelial?
    ensures CountPassing(cells, NotDead) + CountPassing(cells, IsDead) == |cells|
  {
    if |cells| > 0 {
      assert forall a :: a in cells[1..] ==> a in cells;
      AliveAndDeadPartition(cells[1..]);
    }
  }

  /** An infected cell is not dead, so it is also counted alive. */
  lemma {:induction false} InfectedAmongAlive(cells: seq<Agent>)
    ensures CountPassing(cells, IsInfected) <= CountPassing(cells, NotDead)
  {
    if |cells| > 0 {
      InfectedAmongAlive(cells[1..]);
    }
  }

  /**
   * The relations between the counters of one rank: alive plus dead is the
   * number of local epithelial cells, and no more cells are infected than
   * alive.
   */
  lemma CountersAgree(local: seq<Agent>)
    requires AllWellKinded(local)
    ensures CountPassing(Selected(local, 0), NotDead) + CountPassing(Selected(local, 0), IsDead)
            == |Selected(local, 0)|
    ensures CountPassing(Selected(local, 0), IsInfected) <= CountPassing(Selected(local, 0), NotDead)
  {
    SelectedCellsAreEpithelial(local);
    AliveAndDeadPartition(Selected(local, 0));
    InfectedAmongAlive(Selected(local, 0));
  }

  /** One step of a selection: the first agent is kept exactly when it has the type. */
  lemma SelectedStep(local: seq<Agent>, t: int)
    requires |local| > 0
    ensures |Selected(local, t)| == (if IdOf(local[0]).agentType == t then 1 else 0) + |Selected(local[1..], t)|
  {
  }

  /**
   * The per-type selections never hold more agents than the rank has, and
   * when every local agent has one of the four agent types they add up to
   * the total.
   */
  lemma {:induction false} SelectionsWithinTotal(local: seq<Agent>)
    ensures |Selected(local, 0)| + |Selected(local, 1)| + |Selected(local, 2)| + |Selected(local, 3)| <= |local|
    ensures (forall a :: a in local ==> 0 <= IdOf(a).agentType <= 3) ==>
              |Selected(local, 0)| + |Selected(local, 1)| + |Selected(local, 2)| + |Selected(local, 3)| == |local|
  {
    if |local| > 0 {
      SelectionsWithinTotal(local[1..]);
      SelectedStep(local, 0);
      SelectedStep(local, 1);
      SelectedStep(local, 2);
      SelectedStep(local, 3);
      if forall a :: a in local ==> 0 <= IdOf(a).agentType <= 3 {
        assert local[0] in local;
        assert forall a :: a in local[1..] ==> a in local;
      }
    }
  }

  /** The counters in the same terms: the total bounds the per-kind counts and, over the four agent types, is their sum. */
  lemma KindCountsWithinTotal(local: seq<Agent>)
    ensures |Selected(local, 0)| + VirionsCount(local) + InnateImmuneCellsCount(local)
            + SpecialisedImmuneCellsCount(local) <= TotalAgentsCount(local)
    ensures (forall a :: a in local ==> 0 <= IdOf(a).agentType <= 3) ==>
              |Selected(local, 0)| + VirionsCount(local) + InnateImmuneCellsCount(local)
              + SpecialisedImmuneCellsCount(local) == TotalAgentsCount(local)
  {
    SelectionsWithinTotal(local);
  }
}

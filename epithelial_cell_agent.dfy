/**
 * Epithelial cells: the static tissue. A cell ages, divides into a dead
 * neighbour once its division timer runs out, and once infected it shows
 * viral proteins, releases virions and tries to infect a neighbour directly,
 * until its infected lifespan runs out.
 */
module EpithelialCells {
  import opened Common

  datatype ExternalState = DisplayingViralProtein | SeeminglyHealthy | DeadCell
  datatype InternalState = Dead | Healthy | Infected
  datatype Modification = NoModification | ToDivideInto | ToInfect

  /** The C++ enumerators' values, as they travel in packages. */
  function ExternalCode(s: ExternalState): int
  {
    match s
    case DisplayingViralProtein => 0
    case SeeminglyHealthy => 1
    case DeadCell => 2
  }

  function ExternalOf(code: int): ExternalState
    requires 0 <= code <= 2
  {
    if code == 0 then DisplayingViralProtein else if code == 1 then SeeminglyHealthy else DeadCell
  }

  function InternalCode(s: InternalState): int
  {
    match s
    case Dead => 0
    case Healthy => 1
    case Infected => 2
  }

  function InternalOf(code: int): InternalState
    requires 0 <= code <= 2
  {
    if code == 0 then Dead else if code == 1 then Healthy else Infected
  }

  function ModificationCode(m: Modification): int
  {
    match m
    case NoModification => 0
    case ToDivideInto => 1
    case ToInfect => 2
  }

  function ModificationOf(code: int): Modification
    requires 0 <= code <= 2
  {
    if code == 0 then NoModification else if code == 1 then ToDivideInto else ToInfect
  }

  /** The state of one epithelial cell agent, field for field. */
  datatype EpithelialCell = EpithelialCell(
    id: AgentId,
    lifespan: int,
    age: int,
    internal: InternalState,
    external: ExternalState,
    infectedLifespan: int,
    timeInfected: int,
    divisionRate: int,
    timeSinceLastDivision: int,
    releaseDelay: real,
    displayDelay: real,
    modification: Modification,
    target: AgentId,
    extracellularReleaseProb: real,
    cellToCellTransmissionProb: real,
    releaseRate: real,
    countToRelease: int,
    remainder: real,
    toRelease: bool)

  /**
   * What a grid query reports about one agent near a cell: its identity and,
   * when it is an epithelial cell (agent type 0), its external state. The
   * external state of any other agent is never read.
   */
  datatype Neighbour = Neighbour(id: AgentId, external: ExternalState)

  /** The last epithelial cell a grid query reported (agents on one grid point hold at most one). */
  function LastEpithelial(here: seq<Neighbour>): (r: Option<Neighbour>)
    ensures r.Some? ==> r.value in here && r.value.id.agentType == 0
  {
    if here == [] then None
    else if here[|here| - 1].id.agentType == 0 then Some(here[|here| - 1])
    else LastEpithelial(here[..|here| - 1])
  }

  /** The first epithelial cell a grid query reported. */
  function FirstEpithelial(here: seq<Neighbour>): (r: Option<Neighbour>)
    ensures r.Some? ==> r.value in here && r.value.id.agentType == 0
  {
    if here == [] then None
    else if here[0].id.agentType == 0 then Some(here[0])
    else FirstEpithelial(here[1..])
  }

  /** How many reported agents are of agent type t. */
  function CountOfType(here: seq<Neighbour>, t: int): (n: nat)
    ensures n <= |here|
  {
    if here == [] then 0
    else CountOfType(here[..|here| - 1], t) + (if here[|here| - 1].id.agentType == t then 1 else 0)
  }

  /** With no epithelial cell reported there is none to find, and one reported is always found. */
  lemma {:induction false} LastEpithelialFinds(here: seq<Neighbour>)
    ensures LastEpithelial(here).None? <==> forall n :: n in here ==> n.id.agentType != 0
  {
    if here != [] {
      LastEpithelialFinds(here[..|here| - 1]);
      assert here == here[..|here| - 1] + [here[|here| - 1]];
    }
  }

  /** The cell found is the last one reported: agents reported after it are of other types. */
  lemma {:induction false} LastEpithelialBeforeOthers(front: seq<Neighbour>, cell: Neighbour, rest: seq<Neighbour>)
    requires cell.id.agentType == 0
    requires forall n :: n in rest ==> n.id.agentType != 0
    ensures LastEpithelial(front + [cell] + rest) == Some(cell)
  {
    if rest != [] {
      var all := front + [cell] + rest;
      assert all[|all| - 1] == rest[|rest| - 1];
      assert all[..|all| - 1] == front + [cell] + rest[..|rest| - 1];
      LastEpithelialBeforeOthers(front, cell, rest[..|rest| - 1]);
    } else {
      assert (front + [cell] + rest)[|front|] == cell;
    }
  }

  /** Counting agents of a type over two runs of reports adds up. */
  lemma {:induction false} CountOfTypeAppend(a: seq<Neighbour>, b: seq<Neighbour>, t: int)
    ensures CountOfType(a + b, t) == CountOfType(a, t) + CountOfType(b, t)
  {
    if b != [] {
      assert (a + b)[..|a + b| - 1] == a + b[..|b| - 1];
      assert (a + b)[|a + b| - 1] == b[|b| - 1];
      CountOfTypeAppend(a, b[..|b| - 1], t);
    } else {
      assert a + b == a;
    }
  }

  /**
   * The scanning loop of the virion's and the innate cell's step: the last
   * epithelial cell reported, and how many agents of types t1 and t2 were
   * reported.
   */
  method ScanGridPoint(here: seq<Neighbour>, t1: int, t2: int) returns (cell: Option<Neighbour>, count: nat)
    ensures cell == LastEpithelial(here)
    ensures t1 != 0 && t2 != 0 && t1 != t2 ==> count == CountOfType(here, t1) + CountOfType(here, t2)
    ensures t1 != 0 && t1 == t2 ==> count == CountOfType(here, t1)
  {
    cell, count := None, 0;
    var i := 0;
    while i < |here|
      invariant 0 <= i <= |here|
      invariant cell == LastEpithelial(here[..i])
      invariant t1 != 0 && t2 != 0 && t1 != t2 ==> count == CountOfType(here[..i], t1) + CountOfType(here[..i], t2)
      invariant t1 != 0 && t1 == t2 ==> count == CountOfType(here[..i], t1)
    {
      assert here[..i + 1][..i] == here[..i];
      var t := here[i].id.agentType;
      if t == 0 {
        cell := Some(here[i]);
      } else if t == t1 || t == t2 {
        count := count + 1;
      }
      i := i + 1;
    }
    assert here[..|here|] == here;
  }

  /** A cell created by the 11-argument constructor: healthy, untouched, with nothing pending. */
  function NewCell(id: AgentId, lifespan: int, age: int, infectedLifespan: int, divisionRate: int,
                   timeSinceLastDivision: int, releaseDelay: real, displayDelay: real,
                   extracellularReleaseProb: real, cellToCellTransmissionProb: real, releaseRate: real): EpithelialCell
  {
    EpithelialCell(id, lifespan, age, Healthy, SeeminglyHealthy, infectedLifespan, 0, divisionRate,
                   timeSinceLastDivision, releaseDelay, displayDelay, NoModification, NoTarget,
                   extracellularReleaseProb, cellToCellTransmissionProb, releaseRate, 0, 0.0, false)
  }

  /**
   * The setter used to overwrite a replica with its owner's state: every
   * field except the release flag, which is not part of the shared state.
   */
  function SetFields(c: EpithelialCell, currentRank: int, newLifespan: real, newAge: real,
                     internal: InternalState, external: ExternalState, infectedLifespan: int,
                     timeInfected: int, divisionRate: int, timeSinceLastDivision: int,
                     releaseDelay: real, displayDelay: real, modification: Modification, target: AgentId,
                     extracellularReleaseProb: real, cellToCellTransmissionProb: real,
                     releaseRate: real, countToRelease: int, remainder: real): EpithelialCell
  {
    EpithelialCell(c.id.(currentRank := currentRank), Trunc(newLifespan), Trunc(newAge), internal, external,
                   infectedLifespan, timeInfected, divisionRate, timeSinceLastDivision, releaseDelay,
                   displayDelay, modification, target, extracellularReleaseProb, cellToCellTransmissionProb,
                   releaseRate, countToRelease, remainder, c.toRelease)
  }

  /** infect(): only the internal state changes; the cell keeps looking healthy until it displays. */
  function InfectedCell(c: EpithelialCell): EpithelialCell
  {
    c.(internal := Infected)
  }

  /** eliminate(): an immune cell kills the cell. */
  function EliminatedCell(c: EpithelialCell): EpithelialCell
  {
    c.(internal := Dead, external := DeadCell)
  }

  /**
   * The epithelial neighbours in a given external state, in query order
   * (the filtering loops of actHealthy and actInfected).
   */
  function Candidates(near: seq<Neighbour>, s: ExternalState): (r: seq<Neighbour>)
    ensures |r| <= |near|
  {
    if near == [] then []
    else
      var init := Candidates(near[..|near| - 1], s);
      var last := near[|near| - 1];
      if last.id.agentType == 0 && last.external == s then init + [last] else init
  }

  /** The candidates are exactly the epithelial neighbours in state s. */
  lemma {:induction false} CandidatesAreExactly(near: seq<Neighbour>, s: ExternalState)
    ensures forall n :: n in Candidates(near, s) <==> n in near && n.id.agentType == 0 && n.external == s
  {
    if near != [] {
      var last := near[|near| - 1];
      CandidatesAreExactly(near[..|near| - 1], s);
      assert near == near[..|near| - 1] + [last];
    }
  }

  /** The neighbour chosen by a uniform index over the candidates. */
  function Chosen(cands: seq<Neighbour>, pick: nat): (n: Neighbour)
    requires |cands| > 0
    ensures n in cands
  {
    cands[pick % |cands|]
  }

  /** The whole-virion part of the accumulated release, and what is carried to the next release. */
  datatype Release = Release(count: int, remainder: real)

  function SplitRelease(rate: real, remainder: real): (r: Release)
    ensures r.count as real + r.remainder == rate + remainder
    ensures rate + remainder >= 0.0 ==> 0.0 <= r.remainder < 1.0
  {
    var n := Trunc(rate + remainder);
    Release(n, (rate + remainder) - n as real)
  }

  function Released(c: EpithelialCell): EpithelialCell
  {
    var split := SplitRelease(c.releaseRate, c.remainder);
    c.(toRelease := true, countToRelease := split.count, remainder := split.remainder)
  }

  /**
   * Asks to modify one epithelial neighbour in external state s, chosen
   * uniformly; when there is none the cell asks for nothing.
   */
  function Request(c: EpithelialCell, near: seq<Neighbour>, s: ExternalState, m: Modification, pick: nat): EpithelialCell
  {
    var cands := Candidates(near, s);
    if |cands| > 0 then c.(modification := m, target := Chosen(cands, pick).id) else c
  }

  /** actHealthy: count towards division; when due, ask to divide into a dead neighbour if there is one. */
  function HealthyStep(c: EpithelialCell, near: seq<Neighbour>, d: Draws): EpithelialCell
  {
    if c.timeSinceLastDivision + 1 > c.divisionRate then
      Request(c.(timeSinceLastDivision := 0), near, DeadCell, ToDivideInto, d.pick)
    else
      c.(timeSinceLastDivision := c.timeSinceLastDivision + 1)
  }

  /**
   * actInfected: die when the infected lifespan is exceeded; otherwise
   * display after the display delay, and once past the release delay
   * produce virus.
   */
  function InfectedStep(c: EpithelialCell, near: seq<Neighbour>, d: Draws): EpithelialCell
  {
    var t := c.timeInfected + 1;
    if t > c.infectedLifespan then
      c.(timeInfected := t, internal := Dead, external := DeadCell)
    else
      var shown := c.(timeInfected := t,
                      external := if t as real > c.displayDelay then DisplayingViralProtein else c.external);
      if t as real > c.releaseDelay then ProducingStep(shown, near, d) else shown
  }

  /** Past the release delay: display, maybe release virions (draw u1), maybe ask to infect a seemingly healthy neighbour (draw u2). */
  function ProducingStep(c: EpithelialCell, near: seq<Neighbour>, d: Draws): EpithelialCell
  {
    var displaying := c.(external := DisplayingViralProtein);
    var released := if Fires(d.u1, c.extracellularReleaseProb) then Released(displaying) else displaying;
    if Fires(d.u2, c.cellToCellTransmissionProb) then Request(released, near, SeeminglyHealthy, ToInfect, d.pick)
    else released
  }

  /** The start of doStep: clear the pending requests, age, and die once the age passes the lifespan. */
  function Aged(c: EpithelialCell): EpithelialCell
  {
    var cleared := c.(toRelease := false, countToRelease := 0, modification := NoModification,
                      target := NoTarget, age := c.age + 1);
    if cleared.age > cleared.lifespan && cleared.internal != Dead
    then cleared.(internal := Dead, external := DeadCell) else cleared
  }

  /** doStep: age, then a live cell acts as an infected or a healthy cell. */
  function Step(c: EpithelialCell, near: seq<Neighbour>, d: Draws): EpithelialCell
  {
    var aged := Aged(c);
    if aged.internal == Dead then aged
    else if aged.internal == Infected then InfectedStep(aged, near, d)
    else HealthyStep(aged, near, d)
  }

  /** A step keeps the cell's identity and parameters and ages it by exactly one. */
  lemma StepKeepsParameters(c: EpithelialCell, near: seq<Neighbour>, d: Draws)
    ensures var r := Step(c, near, d);
      && r.id == c.id && r.age == c.age + 1 && r.lifespan == c.lifespan
      && r.infectedLifespan == c.infectedLifespan && r.divisionRate == c.divisionRate
      && r.releaseDelay == c.releaseDelay && r.displayDelay == c.displayDelay
      && r.extracellularReleaseProb == c.extracellularReleaseProb
      && r.cellToCellTransmissionProb == c.cellToCellTransmissionProb
      && r.releaseRate == c.releaseRate
  {
  }

  /** A cell's own step never heals it or infects it: healthy stays healthy or dies, infected stays infected or dies. */
  lemma StepStateProgression(c: EpithelialCell, near: seq<Neighbour>, d: Draws)
    ensures var r := Step(c, near, d);
      && (c.internal == Dead ==> r.internal == Dead)
      && (c.internal == Healthy ==> r.internal != Infected)
      && (c.internal == Infected ==> r.internal != Healthy)
      && (r.internal == Dead ==> r.external == DeadCell || c.internal == Dead)
  {
  }

  /** A live cell whose age passes its lifespan dies this step and asks for nothing. */
  lemma StepDiesOfAge(c: EpithelialCell, near: seq<Neighbour>, d: Draws)
    requires c.internal != Dead && c.age + 1 > c.lifespan
    ensures var r := Step(c, near, d);
      && r.internal == Dead && r.external == DeadCell
      && !r.toRelease && r.countToRelease == 0
      && r.modification == NoModification && r.target == NoTarget
  {
  }

  /** A dead cell's step only ages it and clears its requests. */
  lemma DeadCellIsInert(c: EpithelialCell, near: seq<Neighbour>, d: Draws)
    requires c.internal == Dead
    ensures Step(c, near, d) == c.(age := c.age + 1, toRelease := false, countToRelease := 0,
                                   modification := NoModification, target := NoTarget)
  {
  }

  /**
   * A healthy cell that survives the step advances its division timer, which
   * wraps to 0 once it passes the division rate; it asks to divide exactly
   * when the timer ran out and a dead epithelial neighbour exists.
   */
  lemma HealthyDivisionTimer(c: EpithelialCell, near: seq<Neighbour>, d: Draws)
    requires c.internal == Healthy && c.age + 1 <= c.lifespan
    ensures var r := Step(c, near, d);
      && r.internal == Healthy && r.external == c.external && !r.toRelease
      && r.timeSinceLastDivision == (if c.timeSinceLastDivision + 1 > c.divisionRate then 0
                                     else c.timeSinceLastDivision + 1)
      && (r.modification == ToDivideInto <==>
            c.timeSinceLastDivision + 1 > c.divisionRate
            && exists n :: n in near && n.id.agentType == 0 && n.external == DeadCell)
      && r.modification != ToInfect
  {
    var cands := Candidates(near, DeadCell);
    CandidatesAreExactly(near, DeadCell);
    if exists n :: n in near && n.id.agentType == 0 && n.external == DeadCell {
      var n :| n in near && n.id.agentType == 0 && n.external == DeadCell;
      assert n in cands;
    }
  }

  /**
   * Every request a step leaves names a neighbour that qualifies for it:
   * division targets are dead epithelial neighbours asked for by a healthy
   * cell; infection targets are seemingly healthy epithelial neighbours
   * asked for by an infected cell; no request means the sentinel target.
   */
  lemma StepRequestIsSound(c: EpithelialCell, near: seq<Neighbour>, d: Draws)
    ensures var r := Step(c, near, d);
      && (r.modification == NoModification ==> r.target == NoTarget)
      && (r.modification == ToDivideInto ==>
            c.internal == Healthy && r.internal == Healthy && r.timeSinceLastDivision == 0
            && exists n :: n in near && n.id == r.target && n.id.agentType == 0 && n.external == DeadCell)
      && (r.modification == ToInfect ==>
            c.internal == Infected && r.internal == Infected && r.external == DisplayingViralProtein
            && exists n :: n in near && n.id == r.target && n.id.agentType == 0 && n.external == SeeminglyHealthy)
  {
    var r := Step(c, near, d);
    CandidatesAreExactly(near, DeadCell);
    CandidatesAreExactly(near, SeeminglyHealthy);
    if r.modification == ToDivideInto {
      var cands := Candidates(near, DeadCell);
      assert |cands| > 0;
      var n := Chosen(cands, d.pick);
      assert n in near && n.id == r.target;
    } else if r.modification == ToInfect {
      var cands := Candidates(near, SeeminglyHealthy);
      assert |cands| > 0;
      var n := Chosen(cands, d.pick);
      assert n in near && n.id == r.target;
    }
  }

  /**
   * Virion release happens only in an infected, displaying cell past its
   * release delay, and conserves the accumulated amount: the whole virions
   * released plus the carried remainder equal the rate plus the old
   * remainder. Without a release the remainder is untouched.
   */
  lemma StepReleaseConserves(c: EpithelialCell, near: seq<Neighbour>, d: Draws)
    ensures var r := Step(c, near, d);
      && (r.toRelease ==>
            c.internal == Infected && r.internal == Infected && r.external == DisplayingViralProtein
            && (c.timeInfected + 1) as real > c.releaseDelay
            && r.countToRelease as real + r.remainder == c.releaseRate + c.remainder)
      && (r.toRelease && c.releaseRate + c.remainder >= 0.0 ==> 0.0 <= r.remainder < 1.0)
      && (!r.toRelease ==> r.countToRelease == 0 && r.remainder == c.remainder)
  {
  }

  /** An infected cell whose infected time passes its infected lifespan dies without releasing anything. */
  lemma InfectedCellDies(c: EpithelialCell, near: seq<Neighbour>, d: Draws)
    requires c.internal == Infected && c.age + 1 <= c.lifespan
    requires c.timeInfected + 1 > c.infectedLifespan
    ensures var r := Step(c, near, d);
      && r.internal == Dead && r.external == DeadCell && r.timeInfected == c.timeInfected + 1
      && !r.toRelease && r.modification == NoModification
  {
  }

  /** A surviving infected cell displays viral proteins once its infected time passes either delay. */
  lemma InfectedCellDisplays(c: EpithelialCell, near: seq<Neighbour>, d: Draws)
    requires c.internal == Infected && c.age + 1 <= c.lifespan
    requires c.timeInfected + 1 <= c.infectedLifespan
    ensures var r := Step(c, near, d);
      && r.internal == Infected && r.timeInfected == c.timeInfected + 1
      && ((c.timeInfected + 1) as real > c.displayDelay || (c.timeInfected + 1) as real > c.releaseDelay
          ==> r.external == DisplayingViralProtein)
      && (!((c.timeInfected + 1) as real > c.displayDelay || (c.timeInfected + 1) as real > c.releaseDelay)
          ==> r.external == c.external)
  {
  }

  /** The total released and the remainder left after n consecutive releases. */
  function ReleasedOver(rate: real, remainder: real, n: nat): Release
    decreases n
  {
    if n == 0 then Release(0, remainder)
    else
      var first := SplitRelease(rate, remainder);
      var rest := ReleasedOver(rate, first.remainder, n - 1);
      Release(first.count + rest.count, rest.remainder)
  }

  /**
   * Over n releases nothing is lost to truncation: the virions released
   * plus the remainder carried equal n times the rate plus the starting
   * remainder.
   */
  lemma {:induction false} ReleaseConservation(rate: real, remainder: real, n: nat)
    requires rate >= 0.0 && remainder >= 0.0
    decreases n
    ensures ReleasedOver(rate, remainder, n).count as real + ReleasedOver(rate, remainder, n).remainder
            == n as real * rate + remainder
    ensures 0.0 <= ReleasedOver(rate, remainder, n).remainder
    ensures remainder < 1.0 ==> ReleasedOver(rate, remainder, n).remainder < 1.0
  {
    if n > 0 {
      var first := SplitRelease(rate, remainder);
      ReleaseConservation(rate, first.remainder, n - 1);
    }
  }

  /** The total released over n releases is the whole part of n times the rate plus the starting remainder. */
  lemma ReleaseTotalIsFloor(rate: real, remainder: real, n: nat)
    requires rate >= 0.0 && 0.0 <= remainder < 1.0
    ensures ReleasedOver(rate, remainder, n).count == (n as real * rate + remainder).Floor
  {
    ReleaseConservation(rate, remainder, n);
  }

  /** A release rate of 1.5 releases 1 virion and carries 0.5, then releases 2 and carries nothing. */
  class EpithelialCellAgent {
    var agentId: AgentId
    var agentLifespan: int
    var agentAge: int
    var internalState: InternalState
    var externalState: ExternalState
    var infectedLifespan: int
    var timeInfected: int
    var divisionRate: int
    var timeSinceLastDivision: int
    var modificationToNeighbCell: Modification
    var neighbouringCellToModify: AgentId
    const idForNoNeighbourModification: AgentId := NoTarget
    var releaseDelay: real
    var toReleaseVirion: bool
    var displayVirProteinsDelay: real
    var extracellularReleaseProb: real
    var cellToCellTransmissionProb: real
    var virionReleaseRate: real
    var countOfVirionsToRelease: int
    var virionReleaseRemainder: real

    /** The agent's state as a value. */
    function Record(): EpithelialCell
      reads this
    {
      EpithelialCell(agentId, agentLifespan, agentAge, internalState, externalState, infectedLifespan,
                     timeInfected, divisionRate, timeSinceLastDivision, releaseDelay, displayVirProteinsDelay,
                     modificationToNeighbCell, neighbouringCellToModify, extracellularReleaseProb,
                     cellToCellTransmissionProb, virionReleaseRate, countOfVirionsToRelease,
                     virionReleaseRemainder, toReleaseVirion)
    }

    /** The basic constructor's defaults. */
    constructor Basic(theId: AgentId)
      ensures Record() == NewCell(theId, 30, 0, 6, 15, 0, 3.0, 2.0, 0.8, 0.2, 1.0)
    {
      agentId := theId;
      internalState := Healthy;
      externalState := SeeminglyHealthy;
      timeInfected := 0;
      infectedLifespan := 6;
      divisionRate := 15;
      timeSinceLastDivision := 0;
      modificationToNeighbCell := NoModification;
      neighbouringCellToModify := NoTarget;
      releaseDelay := 3.0;
      displayVirProteinsDelay := 2.0;
      toReleaseVirion := false;
      extracellularReleaseProb := 0.8;
      cellToCellTransmissionProb := 0.2;
      virionReleaseRate := 1.0;
      countOfVirionsToRelease := 0;
      virionReleaseRemainder := 0.0;
      agentLifespan := 30;
      agentAge := 0;
    }

    /** A new healthy cell with the given parameters (used when the tissue is created). */
    constructor (theId: AgentId, theLifespan: real, theAge: int, theInfectedLifespan: int, theDivisionRate: int,
                 theTimeSinceLastDivision: int, theReleaseDelay: real, theDisplayVirProtDelay: real,
                 theExtracellularReleaseProb: real, theCellToCellTransmissionProb: real, theVirionReleaseRate: real)
      ensures Record() == NewCell(theId, Trunc(theLifespan), theAge, theInfectedLifespan, theDivisionRate,
                                  theTimeSinceLastDivision, theReleaseDelay, theDisplayVirProtDelay,
                                  theExtracellularReleaseProb, theCellToCellTransmissionProb, theVirionReleaseRate)
    {
      agentId := theId;
      agentLifespan := Trunc(theLifespan);
      agentAge := theAge;
      internalState := Healthy;
      externalState := SeeminglyHealthy;
      timeInfected := 0;
      infectedLifespan := theInfectedLifespan;
      divisionRate := theDivisionRate;
      timeSinceLastDivision := theTimeSinceLastDivision;
      modificationToNeighbCell := NoModification;
      neighbouringCellToModify := NoTarget;
      releaseDelay := theReleaseDelay;
      toReleaseVirion := false;
      displayVirProteinsDelay := theDisplayVirProtDelay;
      extracellularReleaseProb := theExtracellularReleaseProb;
      cellToCellTransmissionProb := theCellToCellTransmissionProb;
      virionReleaseRate := theVirionReleaseRate;
      countOfVirionsToRelease := 0;
      virionReleaseRemainder := 0.0;
    }

    /** A cell rebuilt from every shared field (used when a package arrives); the release flag starts false. */
    constructor Full(theId: AgentId, theLifespan: real, theAge: int, theInternalState: InternalState,
                     theExternalState: ExternalState, theInfectedLifespan: int, theInfectedTime: int,
                     theDivisionRate: int, theTimeSinceLastDivision: int, theReleaseDelay: real,
                     theDisplayVirProtDelay: real, theModification: Modification, theNeighbouringCellToModify: AgentId,
                     theExtracellularReleaseProb: real, theCellToCellTransmissionProb: real,
                     theVirionReleaseRate: real, theCountOfVirionsToRelease: int, theVirionReleaseRemainder: real)
      ensures Record() == EpithelialCell(theId, Trunc(theLifespan), theAge, theInternalState, theExternalState,
                                         theInfectedLifespan, theInfectedTime, theDivisionRate,
                                         theTimeSinceLastDivision, theReleaseDelay, theDisplayVirProtDelay,
                                         theModification, theNeighbouringCellToModify, theExtracellularReleaseProb,
                                         theCellToCellTransmissionProb, theVirionReleaseRate,
                                         theCountOfVirionsToRelease, theVirionReleaseRemainder, false)
    {
      agentId := theId;
      agentLifespan := Trunc(theLifespan);
      agentAge := theAge;
      internalState := theInternalState;
      externalState := theExternalState;
      infectedLifespan := theInfectedLifespan;
      timeInfected := theInfectedTime;
      divisionRate := theDivisionRate;
      timeSinceLastDivision := theTimeSinceLastDivision;
      modificationToNeighbCell := theModification;
      neighbouringCellToModify := theNeighbouringCellToModify;
      releaseDelay := theReleaseDelay;
      toReleaseVirion := false;
      displayVirProteinsDelay := theDisplayVirProtDelay;
      extracellularReleaseProb := theExtracellularReleaseProb;
      cellToCellTransmissionProb := theCellToCellTransmissionProb;
      virionReleaseRate := theVirionReleaseRate;
      countOfVirionsToRelease := theCountOfVirionsToRelease;
      virionReleaseRemainder := theVirionReleaseRemainder;
    }

    /** Overwrites every shared field; the identity other than the owning rank and the release flag stay. */
    method Set(currentRank: int, newLifespan: real, newAge: real, newInternalState: InternalState,
               newExtState: ExternalState, newInfectedLifespan: int, newInfectedTime: int, newDivisionRate: int,
               newTimeSinceLastDivision: int, newReleaseDelay: real, newDisplayVirProteinsDelay: real,
               newModification: Modification, newNeighbouringCellToModify: AgentId,
               newExtracellularReleaseProb: real, newCellToCellTransmissionProb: real,
               newVirionReleaseRate: real, newCountOfVirionsToRelease: int, newVirionReleaseRemainder: real)
      modifies this
      ensures Record() == SetFields(old(Record()), currentRank, newLifespan, newAge, newInternalState, newExtState,
                                    newInfectedLifespan, newInfectedTime, newDivisionRate, newTimeSinceLastDivision,
                                    newReleaseDelay, newDisplayVirProteinsDelay, newModification,
                                    newNeighbouringCellToModify, newExtracellularReleaseProb,
                                    newCellToCellTransmissionProb, newVirionReleaseRate,
                                    newCountOfVirionsToRelease, newVirionReleaseRemainder)
    {
      SetLifeFields(currentRank, newLifespan, newAge, newInternalState, newExtState, newInfectedLifespan,
                    newInfectedTime, newDivisionRate, newTimeSinceLastDivision);
      SetReleaseFields(newReleaseDelay, newDisplayVirProteinsDelay, newModification, newNeighbouringCellToModify,
                       newExtracellularReleaseProb, newCellToCellTransmissionProb, newVirionReleaseRate,
                       newCountOfVirionsToRelease, newVirionReleaseRemainder);
    }

    /** The first half of set: identity, age, states and timers. */
    method SetLifeFields(currentRank: int, newLifespan: real, newAge: real, newInternalState: InternalState,
                         newExtState: ExternalState, newInfectedLifespan: int, newInfectedTime: int,
                         newDivisionRate: int, newTimeSinceLastDivision: int)
      modifies this`agentId, this`agentLifespan, this`agentAge, this`internalState, this`externalState,
               this`infectedLifespan, this`timeInfected, this`divisionRate, this`timeSinceLastDivision
      ensures agentId == old(agentId).(currentRank := currentRank)
      ensures agentLifespan == Trunc(newLifespan) && agentAge == Trunc(newAge)
      ensures internalState == newInternalState && externalState == newExtState
      ensures infectedLifespan == newInfectedLifespan && timeInfected == newInfectedTime
      ensures divisionRate == newDivisionRate && timeSinceLastDivision == newTimeSinceLastDivision
    {
      agentId := agentId.(currentRank := currentRank);
      agentLifespan := Trunc(newLifespan);
      agentAge := Trunc(newAge);
      internalState := newInternalState;
      externalState := newExtState;
      infectedLifespan := newInfectedLifespan;
      timeInfected := newInfectedTime;
      divisionRate := newDivisionRate;
      timeSinceLastDivision := newTimeSinceLastDivision;
    }

    /** The second half of set: delays, the pending request, probabilities and the release accounting. */
    method SetReleaseFields(newReleaseDelay: real, newDisplayVirProteinsDelay: real, newModification: Modification,
                            newNeighbouringCellToModify: AgentId, newExtracellularReleaseProb: real,
                            newCellToCellTransmissionProb: real, newVirionReleaseRate: real,
                            newCountOfVirionsToRelease: int, newVirionReleaseRemainder: real)
      modifies this`releaseDelay, this`displayVirProteinsDelay, this`modificationToNeighbCell,
               this`neighbouringCellToModify, this`extracellularReleaseProb, this`cellToCellTransmissionProb,
               this`virionReleaseRate, this`countOfVirionsToRelease, this`virionReleaseRemainder
      ensures releaseDelay == newReleaseDelay && displayVirProteinsDelay == newDisplayVirProteinsDelay
      ensures modificationToNeighbCell == newModification && neighbouringCellToModify == newNeighbouringCellToModify
      ensures extracellularReleaseProb == newExtracellularReleaseProb
      ensures cellToCellTransmissionProb == newCellToCellTransmissionProb
      ensures virionReleaseRate == newVirionReleaseRate && countOfVirionsToRelease == newCountOfVirionsToRelease
      ensures virionReleaseRemainder == newVirionReleaseRemainder
    {
      releaseDelay := newReleaseDelay;
      displayVirProteinsDelay := newDisplayVirProteinsDelay;
      modificationToNeighbCell := newModification;
      neighbouringCellToModify := newNeighbouringCellToModify;
      extracellularReleaseProb := newExtracellularReleaseProb;
      cellToCellTransmissionProb := newCellToCellTransmissionProb;
      virionReleaseRate := newVirionReleaseRate;
      countOfVirionsToRelease := newCountOfVirionsToRelease;
      virionReleaseRemainder := newVirionReleaseRemainder;
    }

    method Infect()
      modifies this
      ensures Record() == InfectedCell(old(Record()))
    {
      internalState := Infected;
    }

    method Eliminate()
      modifies this
      ensures Record() == EliminatedCell(old(Record()))
    {
      internalState := Dead;
      externalState := DeadCell;
    }

    /** One step of the cell, given the agents around it and the step's draws. */
    method DoStep(near: seq<Neighbour>, d: Draws)
      modifies this
      ensures Record() == Step(old(Record()), near, d)
    {
      AgeOneStep();
      if internalState != Dead {
        if internalState == Infected {
          ActInfected(near, d);
        } else {
          ActHealthy(near, d);
        }
      }
    }

    /** Resets the requests of the previous step, ages the cell and lets it die of age. */
    method AgeOneStep()
      modifies this`toReleaseVirion, this`countOfVirionsToRelease, this`modificationToNeighbCell,
               this`neighbouringCellToModify, this`agentAge, this`internalState, this`externalState
      ensures Record() == Aged(old(Record()))
    {
      ClearRequests();
      agentAge := agentAge + 1;
      if agentAge > agentLifespan && internalState != Dead {
        internalState := Dead;
        externalState := DeadCell;
      }
    }

    method ClearRequests()
      modifies this`toReleaseVirion, this`countOfVirionsToRelease, this`modificationToNeighbCell,
               this`neighbouringCellToModify
      ensures !toReleaseVirion && countOfVirionsToRelease == 0
      ensures modificationToNeighbCell == NoModification && neighbouringCellToModify == NoTarget
    {
      toReleaseVirion := false;
      countOfVirionsToRelease := 0;
      modificationToNeighbCell := NoModification;
      neighbouringCellToModify := idForNoNeighbourModification;
    }

    method ActHealthy(near: seq<Neighbour>, d: Draws)
      modifies this`timeSinceLastDivision, this`modificationToNeighbCell, this`neighbouringCellToModify
      ensures Record() == HealthyStep(old(Record()), near, d)
    {
      timeSinceLastDivision := timeSinceLastDivision + 1;
      if timeSinceLastDivision > divisionRate {
        timeSinceLastDivision := 0;
        RequestNeighbour(near, DeadCell, ToDivideInto, d.pick);
      }
    }

    method ActInfected(near: seq<Neighbour>, d: Draws)
      modifies this`timeInfected, this`internalState, this`externalState, this`toReleaseVirion,
               this`countOfVirionsToRelease, this`virionReleaseRemainder, this`modificationToNeighbCell,
               this`neighbouringCellToModify
      ensures Record() == InfectedStep(old(Record()), near, d)
    {
      timeInfected := timeInfected + 1;
      if timeInfected > infectedLifespan {
        internalState := Dead;
        externalState := DeadCell;
        return;
      }
      if timeInfected as real > displayVirProteinsDelay {
        externalState := DisplayingViralProtein;
      }
      assert Record() == old(Record()).(timeInfected := timeInfected, external := externalState);
      if timeInfected as real > releaseDelay {
        ActProducing(near, d);
      }
    }

    method ActProducing(near: seq<Neighbour>, d: Draws)
      modifies this`externalState, this`toReleaseVirion, this`countOfVirionsToRelease,
               this`virionReleaseRemainder, this`modificationToNeighbCell, this`neighbouringCellToModify
      ensures Record() == ProducingStep(old(Record()), near, d)
    {
      externalState := DisplayingViralProtein;
      if d.u1 > 1.0 - extracellularReleaseProb {
        ReleaseVirions();
      }
      if d.u2 > 1.0 - cellToCellTransmissionProb {
        RequestNeighbour(near, SeeminglyHealthy, ToInfect, d.pick);
      }
    }

    /** Collects the epithelial neighbours in state s and, if there is one, asks to modify one of them. */
    method RequestNeighbour(near: seq<Neighbour>, s: ExternalState, m: Modification, pick: nat)
      modifies this`modificationToNeighbCell, this`neighbouringCellToModify
      ensures Record() == Request(old(Record()), near, s, m, pick)
    {
      var cands := SelectNeighbours(near, s);
      if |cands| > 0 {
        modificationToNeighbCell := m;
        neighbouringCellToModify := cands[pick % |cands|].id;
      }
    }

    /** Marks the cell as releasing and splits the accumulated amount into whole virions and a remainder. */
    method ReleaseVirions()
      modifies this`toReleaseVirion, this`countOfVirionsToRelease, this`virionReleaseRemainder
      ensures toReleaseVirion
      ensures countOfVirionsToRelease == SplitRelease(virionReleaseRate, old(virionReleaseRemainder)).count
      ensures virionReleaseRemainder == SplitRelease(virionReleaseRate, old(virionReleaseRemainder)).remainder
    {
      toReleaseVirion := true;
      countOfVirionsToRelease := Trunc(virionReleaseRate + virionReleaseRemainder);
      virionReleaseRemainder := (virionReleaseRate + virionReleaseRemainder) - countOfVirionsToRelease as real;
    }

  }

  /** The filtering loop over a grid query's result: epithelial neighbours in external state s, in order. */
  method SelectNeighbours(near: seq<Neighbour>, s: ExternalState) returns (cands: seq<Neighbour>)
    ensures cands == Candidates(near, s)
  {
    cands := [];
    var i := 0;
    while i < |near|
      invariant 0 <= i <= |near|
      invariant cands == Candidates(near[..i], s)
    {
      assert near[..i + 1][..i] == near[..i];
      if near[i].id.agentType == 0 && near[i].external == s {
        cands := cands + [near[i]];
      }
      i := i + 1;
    }
    assert near[..|near|] == near;
  }
}

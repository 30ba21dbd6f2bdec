/**
 * Innate immune cells: the first line of defence. A live innate cell looks
 * at the last epithelial cell reported on its grid point; when that cell
 * displays viral proteins and the recognition draw succeeds, it asks for
 * more innate cells (only when no specialised cell is there), may ask for
 * specialised cells, and may eliminate the cell. A live cell always moves.
 */
module InnateCells {
  import opened Common
  import E = EpithelialCells

  datatype InnateState = Healthy | Dead

  function StateCode(s: InnateState): int
  {
    match s
    case Healthy => 0
    case Dead => 1
  }

  function StateOf(code: int): InnateState
    requires 0 <= code <= 1
  {
    if code == 0 then Healthy else Dead
  }

  /**
   * The state of one innate immune cell. The recruit rates, counts and
   * remainders travel in the synchronisation package; the two flags are
   * set by the detection attempt and are not packaged.
   */
  datatype InnateCell = InnateCell(
    id: AgentId,
    lifespan: int,
    age: int,
    state: InnateState,
    recognitionProb: real,
    eliminationProb: real,
    specRecruitProb: real,
    innateRecruitRate: real,
    specRecruitRate: real,
    innateToRecruit: int,
    innateRemainder: real,
    specToRecruit: int,
    specRemainder: real,
    toRecruitSpec: bool,
    toRecruitInnate: bool)

  /**
   * attemptToDetectInfectedCell: both flags are cleared; the last epithelial
   * cell on the grid point is examined; if it displays viral proteins and
   * the recognition draw (u1) succeeds, innate recruitment is asked for when
   * no specialised cell (type 3) is there, specialised recruitment when the
   * recruit draw (u2) succeeds, and the cell is eliminated when the
   * elimination draw (u3) succeeds.
   */
  function Detect(c: InnateCell, here: seq<E.Neighbour>, d: Draws): (InnateCell, Effect)
  {
    var reset := c.(toRecruitSpec := false, toRecruitInnate := false);
    var cell := E.LastEpithelial(here);
    if cell.Some? && cell.value.external == E.DisplayingViralProtein && Fires(d.u1, c.recognitionProb) then
      (reset.(toRecruitInnate := E.CountOfType(here, 3) == 0, toRecruitSpec := Fires(d.u2, c.specRecruitProb)),
       if Fires(d.u3, c.eliminationProb) then EliminateCell(cell.value.id) else NoEffect)
    else (reset, NoEffect)
  }

  /** doStep: age; a live cell past its lifespan dies; a cell that is still alive detects and then moves. */
  function Step(c: InnateCell, here: seq<E.Neighbour>, d: Draws): Stepped<InnateCell>
  {
    var aged := c.(age := c.age + 1);
    var checked := if aged.age > aged.lifespan && aged.state != Dead then aged.(state := Dead) else aged;
    if checked.state == Dead then Stepped(checked, NoEffect, None)
    else
      var (r, e) := Detect(checked, here, d);
      Stepped(r, e, Some(d.move))
  }

  /** A step keeps the cell's identity, parameters and recruit counts and ages it by one. */
  lemma StepKeepsParameters(c: InnateCell, here: seq<E.Neighbour>, d: Draws)
    ensures var r := Step(c, here, d).agent;
      && r.id == c.id && r.lifespan == c.lifespan && r.age == c.age + 1
      && r.recognitionProb == c.recognitionProb && r.eliminationProb == c.eliminationProb
      && r.specRecruitProb == c.specRecruitProb
      && r.innateRecruitRate == c.innateRecruitRate && r.specRecruitRate == c.specRecruitRate
      && r.innateToRecruit == c.innateToRecruit && r.innateRemainder == c.innateRemainder
      && r.specToRecruit == c.specToRecruit && r.specRemainder == c.specRemainder
  {
  }

  /** A live cell past its lifespan dies, neither detects nor moves, and its flags are left as they were. */
  lemma StepDiesOfAge(c: InnateCell, here: seq<E.Neighbour>, d: Draws)
    requires c.state != Dead && c.age + 1 > c.lifespan
    ensures Step(c, here, d) == Stepped(c.(age := c.age + 1, state := Dead), NoEffect, None)
  {
  }

  /** A dead cell only ages. */
  lemma DeadCellIsInert(c: InnateCell, here: seq<E.Neighbour>, d: Draws)
    requires c.state == Dead
    ensures Step(c, here, d) == Stepped(c.(age := c.age + 1), NoEffect, None)
  {
  }

  /**
   * What a step of an innate cell can do. It moves exactly when it is still
   * alive, by the drawn offsets. A live cell clears both flags unless it
   * recognises the last epithelial cell on its grid point displaying viral
   * proteins. Innate recruitment is asked for exactly when it recognises
   * such a cell and no specialised cell is present. Specialised recruitment
   * is asked for exactly when it recognises the cell and the recruit draw
   * succeeds. It never infects, and it eliminates only the cell it
   * recognised, and only when the elimination draw succeeds.
   */
  lemma StepOutcomes(c: InnateCell, here: seq<E.Neighbour>, d: Draws)
    ensures var r := Step(c, here, d);
      var cell := E.LastEpithelial(here);
      var recognised := cell.Some? && cell.value.external == E.DisplayingViralProtein
                        && Fires(d.u1, c.recognitionProb);
      && (r.move.Some? <==> r.agent.state == Healthy)
      && (r.move.Some? ==> r.move.value == d.move)
      && (r.agent.state == Healthy ==>
            && (r.agent.toRecruitInnate <==> recognised && E.CountOfType(here, 3) == 0)
            && (r.agent.toRecruitSpec <==> recognised && Fires(d.u2, c.specRecruitProb)))
      && !r.effect.InfectCell?
      && (r.effect.EliminateCell? <==>
            r.agent.state == Healthy && recognised && Fires(d.u3, c.eliminationProb))
      && (r.effect.EliminateCell? ==> r.effect.cell == cell.value.id)
  {
  }

  /** A specialised cell on the grid point keeps an innate cell from asking for more innate cells. */
  lemma SpecialisedCellSuppressesInnateRecruitment(c: InnateCell, here: seq<E.Neighbour>, d: Draws)
    requires c.state == Healthy && c.age + 1 <= c.lifespan
    requires exists i :: 0 <= i < |here| && here[i].id.agentType == 3
    ensures !Step(c, here, d).agent.toRecruitInnate
  {
    var i :| 0 <= i < |here| && here[i].id.agentType == 3;
    CountOfTypePositive(here, 3, i);
  }

  /** A reported agent of type t makes the count of type t positive. */
  lemma {:induction false} CountOfTypePositive(here: seq<E.Neighbour>, t: int, i: nat)
    requires i < |here| && here[i].id.agentType == t
    ensures E.CountOfType(here, t) > 0
    decreases |here|
  {
    if i < |here| - 1 {
      CountOfTypePositive(here[..|here| - 1], t, i);
    }
  }

  /** An innate cell whose grid point shows no displaying epithelial cell asks for nothing and harms nothing. */
  lemma NothingWithoutDisplayingCell(c: InnateCell, here: seq<E.Neighbour>, d: Draws)
    requires c.state == Healthy && c.age + 1 <= c.lifespan
    requires forall n :: n in here && n.id.agentType == 0 ==> n.external != E.DisplayingViralProtein
    ensures var r := Step(c, here, d);
      !r.agent.toRecruitInnate && !r.agent.toRecruitSpec && r.effect == NoEffect && r.move == Some(d.move)
  {
  }

  class InnateImmuneCellAgent {
    var agentId: AgentId
    var agentLifespan: int
    var agentAge: int
    var innateImmuneCellState: InnateState
    var infectedCellRecognitionProb: real
    var infectedCellEliminationProb: real
    var specialisedImmuneCellRecruitProb: real
    var innateImmuneCellRecruitRate: real
    var specialisedImmuneCellRecruitRate: real
    var countOfInnateCellsToRecruit: int
    var innateCellsRecruitRemainder: real
    var countOfSpecCellsToRecruit: int
    var specCellsRecruitRemainder: real
    var toRecruitNewSpecImmuneCell: bool
    var toRecruitNewInnateImmuneCell: bool

    function Record(): InnateCell
      reads this
    {
      InnateCell(agentId, agentLifespan, agentAge, innateImmuneCellState, infectedCellRecognitionProb,
                 infectedCellEliminationProb, specialisedImmuneCellRecruitProb, innateImmuneCellRecruitRate,
                 specialisedImmuneCellRecruitRate, countOfInnateCellsToRecruit, innateCellsRecruitRemainder,
                 countOfSpecCellsToRecruit, specCellsRecruitRemainder, toRecruitNewSpecImmuneCell,
                 toRecruitNewInnateImmuneCell)
    }

    /** The basic constructor's defaults; the recruit rates, counts and remainders are left unset. */
    constructor Basic(theId: AgentId)
      ensures agentId == theId && agentLifespan == 20 && agentAge == 0 && innateImmuneCellState == Healthy
      ensures infectedCellRecognitionProb == 0.5 && infectedCellEliminationProb == 0.3
      ensures specialisedImmuneCellRecruitProb == 0.5
      ensures !toRecruitNewSpecImmuneCell && !toRecruitNewInnateImmuneCell
    {
      agentId := theId;
      innateImmuneCellState := Healthy;
      toRecruitNewSpecImmuneCell := false;
      toRecruitNewInnateImmuneCell := false;
      specialisedImmuneCellRecruitProb := 0.5;
      agentLifespan := 20;
      agentAge := 0;
      infectedCellRecognitionProb := 0.5;
      infectedCellEliminationProb := 0.3;
    }

    /** A new healthy cell with its recruit rates; it has nothing to recruit yet. */
    constructor (theId: AgentId, theLifespan: real, theAge: int, theRecognitionProb: real,
                 theEliminationProb: real, theSpecRecruitProb: real, theInnateRecruitRate: real,
                 theSpecRecruitRate: real)
      ensures Record() == InnateCell(theId, Trunc(theLifespan), theAge, Healthy, theRecognitionProb,
                                     theEliminationProb, theSpecRecruitProb, theInnateRecruitRate,
                                     theSpecRecruitRate, 0, 0.0, 0, 0.0, false, false)
    {
      agentId := theId;
      agentLifespan := Trunc(theLifespan);
      agentAge := theAge;
      innateImmuneCellState := Healthy;
      infectedCellRecognitionProb := theRecognitionProb;
      infectedCellEliminationProb := theEliminationProb;
      specialisedImmuneCellRecruitProb := theSpecRecruitProb;
      innateImmuneCellRecruitRate := theInnateRecruitRate;
      specialisedImmuneCellRecruitRate := theSpecRecruitRate;
      countOfInnateCellsToRecruit := 0;
      innateCellsRecruitRemainder := 0.0;
      countOfSpecCellsToRecruit := 0;
      specCellsRecruitRemainder := 0.0;
      toRecruitNewSpecImmuneCell := false;
      toRecruitNewInnateImmuneCell := false;
    }

    /** A cell rebuilt from a package: every packaged field given, both flags false. */
    constructor Full(theId: AgentId, theLifespan: real, theAge: int, theState: InnateState,
                     theRecognitionProb: real, theEliminationProb: real, theSpecRecruitProb: real,
                     theInnateRecruitRate: real, theSpecRecruitRate: real, theInnateToRecruit: int,
                     theInnateRemainder: real, theSpecToRecruit: int, theSpecRemainder: real)
      ensures Record() == InnateCell(theId, Trunc(theLifespan), theAge, theState, theRecognitionProb,
                                     theEliminationProb, theSpecRecruitProb, theInnateRecruitRate,
                                     theSpecRecruitRate, theInnateToRecruit, theInnateRemainder,
                                     theSpecToRecruit, theSpecRemainder, false, false)
    {
      agentId := theId;
      agentLifespan := Trunc(theLifespan);
      agentAge := theAge;
      innateImmuneCellState := theState;
      infectedCellRecognitionProb := theRecognitionProb;
      infectedCellEliminationProb := theEliminationProb;
      specialisedImmuneCellRecruitProb := theSpecRecruitProb;
      innateImmuneCellRecruitRate := theInnateRecruitRate;
      specialisedImmuneCellRecruitRate := theSpecRecruitRate;
      countOfInnateCellsToRecruit := theInnateToRecruit;
      innateCellsRecruitRemainder := theInnateRemainder;
      countOfSpecCellsToRecruit := theSpecToRecruit;
      specCellsRecruitRemainder := theSpecRemainder;
      toRecruitNewSpecImmuneCell := false;
      toRecruitNewInnateImmuneCell := false;
    }

    /** set: the owning rank and every packaged field are overwritten; the identity and both flags are kept. */
    method Set(currentRank: int, newLifespan: real, newAge: real, newState: InnateState,
               newRecognitionProb: real, newEliminationProb: real, newSpecRecruitProb: real,
               newInnateRecruitRate: real, newSpecRecruitRate: real, newInnateToRecruit: int,
               newInnateRemainder: real, newSpecToRecruit: int, newSpecRemainder: real)
      modifies this
      ensures Record() == InnateCell(old(agentId).(currentRank := currentRank), Trunc(newLifespan),
                                     Trunc(newAge), newState, newRecognitionProb, newEliminationProb,
                                     newSpecRecruitProb, newInnateRecruitRate, newSpecRecruitRate,
                                     newInnateToRecruit, newInnateRemainder, newSpecToRecruit,
                                     newSpecRemainder, old(toRecruitNewSpecImmuneCell),
                                     old(toRecruitNewInnateImmuneCell))
    {
      SetLifeFields(currentRank, newLifespan, newAge, newState, newRecognitionProb, newEliminationProb,
                    newSpecRecruitProb);
      SetRecruitFields(newInnateRecruitRate, newSpecRecruitRate, newInnateToRecruit, newInnateRemainder,
                       newSpecToRecruit, newSpecRemainder);
    }

    method SetLifeFields(currentRank: int, newLifespan: real, newAge: real, newState: InnateState,
                         newRecognitionProb: real, newEliminationProb: real, newSpecRecruitProb: real)
      modifies this`agentId, this`agentLifespan, this`agentAge, this`innateImmuneCellState,
               this`infectedCellRecognitionProb, this`infectedCellEliminationProb,
               this`specialisedImmuneCellRecruitProb
      ensures agentId == old(agentId).(currentRank := currentRank)
      ensures agentLifespan == Trunc(newLifespan) && agentAge == Trunc(newAge)
      ensures innateImmuneCellState == newState
      ensures infectedCellRecognitionProb == newRecognitionProb
      ensures infectedCellEliminationProb == newEliminationProb
      ensures specialisedImmuneCellRecruitProb == newSpecRecruitProb
    {
      agentId := agentId.(currentRank := currentRank);
      agentLifespan := Trunc(newLifespan);
      agentAge := Trunc(newAge);
      innateImmuneCellState := newState;
      infectedCellRecognitionProb := newRecognitionProb;
      infectedCellEliminationProb := newEliminationProb;
      specialisedImmuneCellRecruitProb := newSpecRecruitProb;
    }

    method SetRecruitFields(newInnateRecruitRate: real, newSpecRecruitRate: real, newInnateToRecruit: int,
                            newInnateRemainder: real, newSpecToRecruit: int, newSpecRemainder: real)
      modifies this`innateImmuneCellRecruitRate, this`specialisedImmuneCellRecruitRate,
               this`countOfInnateCellsToRecruit, this`innateCellsRecruitRemainder,
               this`countOfSpecCellsToRecruit, this`specCellsRecruitRemainder
      ensures innateImmuneCellRecruitRate == newInnateRecruitRate
      ensures specialisedImmuneCellRecruitRate == newSpecRecruitRate
      ensures countOfInnateCellsToRecruit == newInnateToRecruit
      ensures innateCellsRecruitRemainder == newInnateRemainder
      ensures countOfSpecCellsToRecruit == newSpecToRecruit
      ensures specCellsRecruitRemainder == newSpecRemainder
    {
      innateImmuneCellRecruitRate := newInnateRecruitRate;
      specialisedImmuneCellRecruitRate := newSpecRecruitRate;
      countOfInnateCellsToRecruit := newInnateToRecruit;
      innateCellsRecruitRemainder := newInnateRemainder;
      countOfSpecCellsToRecruit := newSpecToRecruit;
      specCellsRecruitRemainder := newSpecRemainder;
    }

    /** One step, given the agents on the cell's grid point; returns the effect on the cell there and the move. */
    method DoStep(here: seq<E.Neighbour>, d: Draws) returns (effect: Effect, move: Option<Move>)
      modifies this
      ensures Stepped(Record(), effect, move) == Step(old(Record()), here, d)
    {
      effect, move := NoEffect, None;
      agentAge := agentAge + 1;
      if agentAge > agentLifespan && innateImmuneCellState != Dead {
        innateImmuneCellState := Dead;
      }
      if innateImmuneCellState != Dead {
        effect := AttemptToDetectInfectedCell(here, d);
        move := Some(d.move);
      }
    }

    method AttemptToDetectInfectedCell(here: seq<E.Neighbour>, d: Draws) returns (effect: Effect)
      modifies this`toRecruitNewSpecImmuneCell, this`toRecruitNewInnateImmuneCell
      ensures (Record(), effect) == Detect(old(Record()), here, d)
    {
      toRecruitNewSpecImmuneCell := false;
      toRecruitNewInnateImmuneCell := false;
      effect := NoEffect;
      var cell, specialisedHere := E.ScanGridPoint(here, 3, 3);
      if cell.Some? && cell.value.external == E.DisplayingViralProtein {
        if d.u1 > 1.0 - infectedCellRecognitionProb {
          if specialisedHere == 0 {
            toRecruitNewInnateImmuneCell := true;
          }
          if d.u2 > 1.0 - specialisedImmuneCellRecruitProb {
            toRecruitNewSpecImmuneCell := true;
          }
          if d.u3 > 1.0 - infectedCellEliminationProb {
            effect := EliminateCell(cell.value.id);
          }
        }
      }
    }
  }
}

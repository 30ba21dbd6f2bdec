/**
 * Specialised immune cells: recruited once an infection has been noticed.
 * A live specialised cell examines only the first epithelial cell reported
 * on its grid point; when that cell displays viral proteins and the
 * recognition draw succeeds, it asks for more specialised cells and may
 * eliminate the cell. A live cell always moves.
 */
module SpecialisedCells {
  import opened Common
  import E = EpithelialCells

  datatype SpecialisedState = Healthy | Dead

  function StateCode(s: SpecialisedState): int
  {
    match s
    case Healthy => 0
    case Dead => 1
  }

  function StateOf(code: int): SpecialisedState
    requires 0 <= code <= 1
  {
    if code == 0 then Healthy else Dead
  }

  /** The state of one specialised immune cell; the recruit flag is not packaged. */
  datatype SpecialisedCell = SpecialisedCell(
    id: AgentId,
    lifespan: int,
    age: int,
    state: SpecialisedState,
    recognitionProb: real,
    eliminationProb: real,
    specRecruitRate: real,
    specToRecruit: int,
    specRemainder: real,
    toRecruitSpec: bool)

  /**
   * attemptToDetectInfectedCell: the flag is cleared; the search stops at
   * the first epithelial cell reported; if it displays viral proteins and
   * the recognition draw (u1) succeeds, the flag is set and the cell is
   * eliminated when the elimination draw (u2) succeeds.
   */
  function Detect(c: SpecialisedCell, here: seq<E.Neighbour>, d: Draws): (SpecialisedCell, Effect)
  {
    var reset := c.(toRecruitSpec := false);
    var cell := E.FirstEpithelial(here);
    if cell.Some? && cell.value.external == E.DisplayingViralProtein && Fires(d.u1, c.recognitionProb) then
      (reset.(toRecruitSpec := true),
       if Fires(d.u2, c.eliminationProb) then EliminateCell(cell.value.id) else NoEffect)
    else (reset, NoEffect)
  }

  /** doStep: age; a live cell past its lifespan dies; a cell that is still alive detects and then moves. */
  function Step(c: SpecialisedCell, here: seq<E.Neighbour>, d: Draws): Stepped<SpecialisedCell>
  {
    var aged := c.(age := c.age + 1);
    var checked := if aged.age > aged.lifespan && aged.state != Dead then aged.(state := Dead) else aged;
    if checked.state == Dead then Stepped(checked, NoEffect, None)
    else
      var (r, e) := Detect(checked, here, d);
      Stepped(r, e, Some(d.move))
  }

  /** A step keeps the cell's identity, parameters and recruit count and ages it by one. */
  lemma StepKeepsParameters(c: SpecialisedCell, here: seq<E.Neighbour>, d: Draws)
    ensures var r := Step(c, here, d).agent;
      && r.id == c.id && r.lifespan == c.lifespan && r.age == c.age + 1
      && r.recognitionProb == c.recognitionProb && r.eliminationProb == c.eliminationProb
      && r.specRecruitRate == c.specRecruitRate && r.specToRecruit == c.specToRecruit
      && r.specRemainder == c.specRemainder
  {
  }

  /** A live cell past its lifespan dies, neither detects nor moves, and its flag is left as it was. */
  lemma StepDiesOfAge(c: SpecialisedCell, here: seq<E.Neighbour>, d: Draws)
    requires c.state != Dead && c.age + 1 > c.lifespan
    ensures Step(c, here, d) == Stepped(c.(age := c.age + 1, state := Dead), NoEffect, None)
  {
  }

  /** A dead cell only ages. */
  lemma DeadCellIsInert(c: SpecialisedCell, here: seq<E.Neighbour>, d: Draws)
    requires c.state == Dead
    ensures Step(c, here, d) == Stepped(c.(age := c.age + 1), NoEffect, None)
  {
  }

  /**
   * What a step of a specialised cell can do. It moves exactly when it is
   * still alive, by the drawn offsets. A live cell asks for recruitment
   * exactly when it recognises the first epithelial cell on its grid point
   * displaying viral proteins. It never infects, and it eliminates only
   * that cell, only after recognising it, and only when the elimination
   * draw succeeds.
   */
  lemma StepOutcomes(c: SpecialisedCell, here: seq<E.Neighbour>, d: Draws)
    ensures var r := Step(c, here, d);
      var cell := E.FirstEpithelial(here);
      var recognised := cell.Some? && cell.value.external == E.DisplayingViralProtein
                        && Fires(d.u1, c.recognitionProb);
      && (r.move.Some? <==> r.agent.state == Healthy)
      && (r.move.Some? ==> r.move.value == d.move)
      && (r.agent.state == Healthy ==> (r.agent.toRecruitSpec <==> recognised))
      && !r.effect.InfectCell?
      && (r.effect.EliminateCell? <==>
            r.agent.state == Healthy && recognised && Fires(d.u2, c.eliminationProb))
      && (r.effect.EliminateCell? ==> r.effect.cell == cell.value.id)
  {
  }

  /**
   * Only the first epithelial cell counts: agents reported after it make no
   * difference to the step, whatever they are.
   */
  lemma {:induction false} OnlyFirstEpithelialCellMatters(c: SpecialisedCell, front: seq<E.Neighbour>,
                                                         cell: E.Neighbour, rest1: seq<E.Neighbour>,
                                                         rest2: seq<E.Neighbour>, d: Draws)
    requires forall n :: n in front ==> n.id.agentType != 0
    requires cell.id.agentType == 0
    ensures Step(c, front + [cell] + rest1, d) == Step(c, front + [cell] + rest2, d)
  {
    FirstEpithelialAfterOthers(front, cell, rest1);
    FirstEpithelialAfterOthers(front, cell, rest2);
  }

  lemma {:induction false} FirstEpithelialAfterOthers(front: seq<E.Neighbour>, cell: E.Neighbour,
                                                     rest: seq<E.Neighbour>)
    requires forall n :: n in front ==> n.id.agentType != 0
    requires cell.id.agentType == 0
    ensures E.FirstEpithelial(front + [cell] + rest) == Some(cell)
  {
    if front != [] {
      assert (front + [cell] + rest)[1..] == front[1..] + [cell] + rest;
      FirstEpithelialAfterOthers(front[1..], cell, rest);
    }
  }

  class SpecialisedImmuneCellAgent {
    var agentId: AgentId
    var agentLifespan: int
    var agentAge: int
    var specialisedImmuneCellState: SpecialisedState
    var infectedCellRecognitionProb: real
    var infectedCellEliminationProb: real
    var specialisedImmuneCellRecruitRate: real
    var countOfSpecCellsToRecruit: int
    var specCellsRecruitRemainder: real
    var toRecruitNewSpecImmuneCell: bool

    function Record(): SpecialisedCell
      reads this
    {
      SpecialisedCell(agentId, agentLifespan, agentAge, specialisedImmuneCellState, infectedCellRecognitionProb,
                      infectedCellEliminationProb, specialisedImmuneCellRecruitRate, countOfSpecCellsToRecruit,
                      specCellsRecruitRemainder, toRecruitNewSpecImmuneCell)
    }

    /** The basic constructor's defaults; the recruit rate, count and remainder are left unset. */
    constructor Basic(theId: AgentId)
      ensures agentId == theId && agentLifespan == 25 && agentAge == 0
      ensures specialisedImmuneCellState == Healthy && !toRecruitNewSpecImmuneCell
      ensures infectedCellRecognitionProb == 0.7 && infectedCellEliminationProb == 0.8
    {
      agentId := theId;
      specialisedImmuneCellState := Healthy;
      toRecruitNewSpecImmuneCell := false;
      agentLifespan := 25;
      agentAge := 0;
      infectedCellRecognitionProb := 0.7;
      infectedCellEliminationProb := 0.8;
    }

    /** A new healthy cell with its recruit rate; it has nothing to recruit yet. */
    constructor (theId: AgentId, theLifespan: real, theAge: int, theRecognitionProb: real,
                 theEliminationProb: real, theSpecRecruitRate: real)
      ensures Record() == SpecialisedCell(theId, Trunc(theLifespan), theAge, Healthy, theRecognitionProb,
                                          theEliminationProb, theSpecRecruitRate, 0, 0.0, false)
    {
      agentId := theId;
      agentLifespan := Trunc(theLifespan);
      agentAge := theAge;
      specialisedImmuneCellState := Healthy;
      infectedCellRecognitionProb := theRecognitionProb;
      infectedCellEliminationProb := theEliminationProb;
      specialisedImmuneCellRecruitRate := theSpecRecruitRate;
      countOfSpecCellsToRecruit := 0;
      specCellsRecruitRemainder := 0.0;
      toRecruitNewSpecImmuneCell := false;
    }

    /** A cell rebuilt from a package: every packaged field given, the flag false. */
    constructor Full(theId: AgentId, theLifespan: real, theAge: int, theState: SpecialisedState,
                     theRecognitionProb: real, theEliminationProb: real, theSpecRecruitRate: real,
                     theSpecToRecruit: int, theSpecRemainder: real)
      ensures Record() == SpecialisedCell(theId, Trunc(theLifespan), theAge, theState, theRecognitionProb,
                                          theEliminationProb, theSpecRecruitRate, theSpecToRecruit,
                                          theSpecRemainder, false)
    {
      agentId := theId;
      agentLifespan := Trunc(theLifespan);
      agentAge := theAge;
      specialisedImmuneCellState := theState;
      infectedCellRecognitionProb := theRecognitionProb;
      infectedCellEliminationProb := theEliminationProb;
      specialisedImmuneCellRecruitRate := theSpecRecruitRate;
      countOfSpecCellsToRecruit := theSpecToRecruit;
      specCellsRecruitRemainder := theSpecRemainder;
      toRecruitNewSpecImmuneCell := false;
    }

    /** set: the owning rank and every packaged field are overwritten; the identity and the flag are kept. */
    method Set(currentRank: int, newLifespan: real, newAge: real, newState: SpecialisedState,
               newRecognitionProb: real, newEliminationProb: real, newSpecRecruitRate: real,
               newSpecToRecruit: int, newSpecRemainder: real)
      modifies this
      ensures Record() == SpecialisedCell(old(agentId).(currentRank := currentRank), Trunc(newLifespan),
                                          Trunc(newAge), newState, newRecognitionProb, newEliminationProb,
                                          newSpecRecruitRate, newSpecToRecruit, newSpecRemainder,
                                          old(toRecruitNewSpecImmuneCell))
    {
      agentId := agentId.(currentRank := currentRank);
      agentLifespan := Trunc(newLifespan);
      agentAge := Trunc(newAge);
      specialisedImmuneCellState := newState;
      infectedCellRecognitionProb := newRecognitionProb;
      infectedCellEliminationProb := newEliminationProb;
      specialisedImmuneCellRecruitRate := newSpecRecruitRate;
      countOfSpecCellsToRecruit := newSpecToRecruit;
      specCellsRecruitRemainder := newSpecRemainder;
    }

    /** One step, given the agents on the cell's grid point; returns the effect on the cell there and the move. */
    method DoStep(here: seq<E.Neighbour>, d: Draws) returns (effect: Effect, move: Option<Move>)
      modifies this
      ensures Stepped(Record(), effect, move) == Step(old(Record()), here, d)
    {
      effect, move := NoEffect, None;
      agentAge := agentAge + 1;
      if agentAge > agentLifespan && specialisedImmuneCellState != Dead {
        specialisedImmuneCellState := Dead;
      }
      if specialisedImmuneCellState != Dead {
        effect := AttemptToDetectInfectedCell(here, d);
        move := Some(d.move);
      }
    }

    /** The search loop: it stops at the first epithelial cell, whatever that cell shows. */
    method AttemptToDetectInfectedCell(here: seq<E.Neighbour>, d: Draws) returns (effect: Effect)
      modifies this`toRecruitNewSpecImmuneCell
      ensures (Record(), effect) == Detect(old(Record()), here, d)
    {
      toRecruitNewSpecImmuneCell := false;
      effect := NoEffect;
      var i := 0;
      while i < |here|
        invariant 0 <= i <= |here|
        invariant E.FirstEpithelial(here[i..]) == E.FirstEpithelial(here)
        invariant !toRecruitNewSpecImmuneCell && effect == NoEffect
      {
        if here[i].id.agentType == 0 {
          if here[i].external == E.DisplayingViralProtein {
            if d.u1 > 1.0 - infectedCellRecognitionProb {
              toRecruitNewSpecImmuneCell := true;
              if d.u2 > 1.0 - infectedCellEliminationProb {
                effect := EliminateCell(here[i].id);
              }
            }
            return;
          }
          break;
        }
        assert here[i..][1..] == here[i + 1..];
        i := i + 1;
      }
    }
  }
}

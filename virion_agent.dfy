/**
 * Virions: free virus particles. A virion ages, may be cleared by the
 * immune response (more likely the more immune cells share its grid point),
 * may infect the seemingly healthy epithelial cell under it, and otherwise
 * moves by one step in each coordinate.
 */
module Virions {
  import opened Common
  import E = EpithelialCells

  datatype VirionState = FreeVirion | Dead | Contained

  function StateCode(s: VirionState): int
  {
    match s
    case FreeVirion => 0
    case Dead => 1
    case Contained => 2
  }

  function StateOf(code: int): VirionState
    requires 0 <= code <= 2
  {
    if code == 0 then FreeVirion else if code == 1 then Dead else Contained
  }

  datatype Virion = Virion(
    id: AgentId,
    lifespan: int,
    age: int,
    state: VirionState,
    penetrationProb: real,
    clearanceProb: real,
    clearanceScaler: real)

  function Pow(x: real, n: nat): real
  {
    if n == 0 then 1.0 else x * Pow(x, n - 1)
  }

  /** The immune cells (agent types 2 and 3) a virion finds on its grid point. */
  function ImmuneCount(here: seq<E.Neighbour>): nat
  {
    E.CountOfType(here, 2) + E.CountOfType(here, 3)
  }

  /** The clearance value: the draw scaled once per immune cell present. */
  function Clearance(u: real, scaler: real, immune: nat): real
  {
    u * Pow(scaler, immune)
  }

  /** attemptToInfectCell, then the move if the virion is still free. */
  function Infection(v: Virion, cell: Option<E.Neighbour>, d: Draws): Stepped<Virion>
  {
    if cell.Some? && cell.value.external == E.SeeminglyHealthy && Fires(d.u2, v.penetrationProb)
    then Stepped(v.(state := Dead), InfectCell(cell.value.id), None)
    else Stepped(v, NoEffect, Some(d.move))
  }

  /**
   * doStep: age; a live virion past its lifespan dies and does nothing else;
   * otherwise it is cleared when the scaled clearance draw (u1) passes the
   * clearance threshold, and a virion that is not dead tries to infect the
   * epithelial cell under it (draw u2) and moves if it did not.
   */
  function Step(v: Virion, here: seq<E.Neighbour>, d: Draws): Stepped<Virion>
  {
    var aged := v.(age := v.age + 1);
    if aged.age > aged.lifespan && aged.state != Dead then Stepped(aged.(state := Dead), NoEffect, None)
    else
      var cleared := if Fires(Clearance(d.u1, v.clearanceScaler, ImmuneCount(here)), v.clearanceProb)
                     then aged.(state := Dead) else aged;
      if cleared.state == Dead then Stepped(cleared, NoEffect, None)
      else Infection(cleared, E.LastEpithelial(here), d)
  }

  /** A step keeps the virion's identity and parameters and ages it by one. */
  lemma StepKeepsParameters(v: Virion, here: seq<E.Neighbour>, d: Draws)
    ensures var r := Step(v, here, d).agent;
      && r.id == v.id && r.lifespan == v.lifespan && r.age == v.age + 1
      && r.penetrationProb == v.penetrationProb && r.clearanceProb == v.clearanceProb
      && r.clearanceScaler == v.clearanceScaler
  {
  }

  /** A live virion past its lifespan dies, infects nothing and stays put. */
  lemma StepDiesOfAge(v: Virion, here: seq<E.Neighbour>, d: Draws)
    requires v.state != Dead && v.age + 1 > v.lifespan
    ensures Step(v, here, d) == Stepped(v.(age := v.age + 1, state := Dead), NoEffect, None)
  {
  }

  /**
   * A virion moves exactly when it ends its step not dead, and a virion
   * that infects a cell names the last epithelial cell on its grid point,
   * which looked healthy, and dies doing so.
   */
  lemma StepOutcomes(v: Virion, here: seq<E.Neighbour>, d: Draws)
    ensures var r := Step(v, here, d);
      && (r.move.Some? <==> r.agent.state != Dead)
      && (r.move.Some? ==> r.move.value == d.move && r.effect == NoEffect)
      && !r.effect.EliminateCell?
      && (r.effect.InfectCell? ==>
            r.agent.state == Dead
            && E.LastEpithelial(here).Some?
            && E.LastEpithelial(here).value.id == r.effect.cell
            && E.LastEpithelial(here).value.external == E.SeeminglyHealthy)
  {
  }

  /** With no immune cell on its grid point and no clearance probability, a free virion is never cleared: it dies only by infecting or of age. */
  lemma NoClearanceWithoutImmuneCells(v: Virion, here: seq<E.Neighbour>, d: Draws)
    requires v.state == FreeVirion && v.age + 1 <= v.lifespan
    requires ImmuneCount(here) == 0 && v.clearanceProb <= 0.0
    ensures var r := Step(v, here, d);
      r.agent.state == Dead <==> r.effect.InfectCell?
  {
  }

  /** Immune cells raise the clearance value: with a scaler of at least 1 it never falls as immune cells arrive. */
  lemma {:induction false} ClearanceGrowsWithImmuneCells(u: real, scaler: real, m: nat, n: nat)
    requires 0.0 <= u && 1.0 <= scaler && m <= n
    ensures Clearance(u, scaler, m) <= Clearance(u, scaler, n)
    decreases n
  {
    if m < n {
      ClearanceGrowsWithImmuneCells(u, scaler, m, n - 1);
      PowAtLeastOne(scaler, n - 1);
      assert Pow(scaler, n) == scaler * Pow(scaler, n - 1);
      assert Pow(scaler, n - 1) <= Pow(scaler, n);
    }
  }

  lemma {:induction false} PowAtLeastOne(x: real, n: nat)
    requires 1.0 <= x
    ensures 1.0 <= Pow(x, n)
  {
    if n > 0 {
      PowAtLeastOne(x, n - 1);
    }
  }

  /**
   * Even with a clearance probability of 0 an immune cell can clear a
   * virion: one immune cell with scaler 2 turns the draw 0.75 into 1.5,
   * which passes the threshold 1.
   */
  lemma ImmuneCellClearsDespiteZeroProbability(v: Virion, here: seq<E.Neighbour>, d: Draws)
    requires v.state == FreeVirion && v.age + 1 <= v.lifespan
    requires v.clearanceProb == 0.0 && v.clearanceScaler == 2.0
    requires ImmuneCount(here) == 1 && d.u1 == 0.75
    ensures Step(v, here, d).agent.state == Dead
  {
  }

  class VirionAgent {
    var agentId: AgentId
    var agentLifespan: int
    var agentAge: int
    var virionState: VirionState
    var penetrationProbability: real
    var clearanceProbability: real
    var clearanceProbScaler: real

    function Record(): Virion
      reads this
    {
      Virion(agentId, agentLifespan, agentAge, virionState, penetrationProbability, clearanceProbability,
             clearanceProbScaler)
    }

    /** The basic constructor's defaults. */
    constructor Basic(theId: AgentId)
      ensures Record() == Virion(theId, 15, 0, FreeVirion, 0.4, 0.2, 1.2)
    {
      agentId := theId;
      virionState := FreeVirion;
      penetrationProbability := 0.4;
      clearanceProbability := 0.2;
      clearanceProbScaler := 1.2;
      agentLifespan := 15;
      agentAge := 0;
    }

    /** A new free virion. */
    constructor (theId: AgentId, theLifespan: real, theAge: int, thePenetrationProb: real,
                 theClearanceProbability: real, theClearanceProbScaler: real)
      ensures Record() == Virion(theId, Trunc(theLifespan), theAge, FreeVirion, thePenetrationProb,
                                 theClearanceProbability, theClearanceProbScaler)
    {
      agentId := theId;
      agentLifespan := Trunc(theLifespan);
      agentAge := theAge;
      virionState := FreeVirion;
      penetrationProbability := thePenetrationProb;
      clearanceProbability := theClearanceProbability;
      clearanceProbScaler := theClearanceProbScaler;
    }

    /** A virion rebuilt with a given state (used when a package arrives). */
    constructor Full(theId: AgentId, theLifespan: real, theAge: int, theState: VirionState,
                     thePenetrationProb: real, theClearanceProbability: real, theClearanceProbScaler: real)
      ensures Record() == Virion(theId, Trunc(theLifespan), theAge, theState, thePenetrationProb,
                                 theClearanceProbability, theClearanceProbScaler)
    {
      agentId := theId;
      agentLifespan := Trunc(theLifespan);
      agentAge := theAge;
      virionState := theState;
      penetrationProbability := thePenetrationProb;
      clearanceProbability := theClearanceProbability;
      clearanceProbScaler := theClearanceProbScaler;
    }

    method Set(currentRank: int, newLifespan: real, newAge: real, newVirState: VirionState,
               newPenetrationProb: real, newClearanceProb: real, newClearanceProbScaler: real)
      modifies this
      ensures Record() == Virion(old(agentId).(currentRank := currentRank), Trunc(newLifespan), Trunc(newAge),
                                 newVirState, newPenetrationProb, newClearanceProb, newClearanceProbScaler)
    {
      agentId := agentId.(currentRank := currentRank);
      agentLifespan := Trunc(newLifespan);
      agentAge := Trunc(newAge);
      virionState := newVirState;
      penetrationProbability := newPenetrationProb;
      clearanceProbability := newClearanceProb;
      clearanceProbScaler := newClearanceProbScaler;
    }

    /** One step, given the agents on the virion's grid point; returns the effect on the cell there and the move. */
    method DoStep(here: seq<E.Neighbour>, d: Draws) returns (effect: Effect, move: Option<Move>)
      modifies this
      ensures Stepped(Record(), effect, move) == Step(old(Record()), here, d)
    {
      effect, move := NoEffect, None;
      agentAge := agentAge + 1;
      if agentAge > agentLifespan && virionState != Dead {
        virionState := Dead;
      } else {
        var cell, immune := E.ScanGridPoint(here, 2, 3);
        var clearance := ScaledClearance(d.u1, clearanceProbScaler, immune);
        if clearance > 1.0 - clearanceProbability {
          virionState := Dead;
        }
        if virionState != Dead {
          effect := AttemptToInfectCell(cell, d.u2);
          if virionState != Dead {
            move := Some(d.move);
          }
        }
      }
    }

    method AttemptToInfectCell(cell: Option<E.Neighbour>, u: Draw) returns (effect: Effect)
      modifies this`virionState
      ensures var infects := cell.Some? && cell.value.external == E.SeeminglyHealthy
                             && Fires(u, penetrationProbability);
              && effect == (if infects then InfectCell(cell.value.id) else NoEffect)
              && virionState == (if infects then Dead else old(virionState))
    {
      effect := NoEffect;
      if cell.Some? {
        if cell.value.external == E.SeeminglyHealthy {
          if u > 1.0 - penetrationProbability {
            effect := InfectCell(cell.value.id);
            virionState := Dead;
          }
        }
      }
    }
  }

  /** The loop that scales the clearance draw once per immune cell. */
  method ScaledClearance(u: real, scaler: real, immune: nat) returns (clearance: real)
    ensures clearance == Clearance(u, scaler, immune)
  {
    clearance := u;
    var i := 0;
    while i < immune
      invariant 0 <= i <= immune
      invariant clearance == u * Pow(scaler, i)
    {
      clearance := clearance * scaler;
      i := i + 1;
    }
  }
}

/**
 * The base agent every kind of the simulation derives from: an identity,
 * an integer lifespan and an integer age.
 */
module BaseAgents {
  import opened Common

  class VirusCellInteractionAgent {
    var agentId: AgentId
    var agentLifespan: int
    var agentAge: int

    /** The basic constructor: a lifespan of 50 steps and age 0. */
    constructor Basic(theId: AgentId)
      ensures agentId == theId && agentLifespan == 50 && agentAge == 0
    {
      agentId := theId;
      agentLifespan := 50;
      agentAge := 0;
    }

    /** The full constructor: the lifespan arrives as a double and is stored in an int field. */
    constructor (theId: AgentId, theLifespan: real, theAge: int)
      ensures agentId == theId && agentLifespan == Trunc(theLifespan) && agentAge == theAge
    {
      agentId := theId;
      agentLifespan := Trunc(theLifespan);
      agentAge := theAge;
    }

    /** Moves the agent to another owning rank and overwrites lifespan and age (both truncated to int). */
    method Set(currentRank: int, newLifespan: real, newAge: real)
      modifies this
      ensures agentId == old(agentId).(currentRank := currentRank)
      ensures KeyOf(agentId) == KeyOf(old(agentId))
      ensures agentLifespan == Trunc(newLifespan) && agentAge == Trunc(newAge)
    {
      agentId := agentId.(currentRank := currentRank);
      agentLifespan := Trunc(newLifespan);
      agentAge := Trunc(newAge);
    }

    /** The base step only ages the agent by one. */
    method DoStep()
      modifies this
      ensures agentAge == old(agentAge) + 1
      ensures agentId == old(agentId) && agentLifespan == old(agentLifespan)
    {
      agentAge := agentAge + 1;
    }
  }
}

/**
 * The package provider and receiver: an agent is written into a package by
 * its agent type, a package is turned back into a new agent, or its values
 * are written over the existing agent with the same identity.
 */
module PackagePattern {
  import opened Common
  import opened Agents
  import opened Packages
  import E = EpithelialCells
  import V = Virions
  import I = InnateCells
  import S = SpecialisedCells

  /** providePackage: the package of one agent, chosen by its agent type (any type but 0, 1, 2 is read as a specialised cell). */
  function ProvidePackage(a: Agent): (p: Package)
    requires WellKinded(a)
    ensures p.id == IdOf(a).id && p.rank == IdOf(a).startRank
    ensures p.agentType == IdOf(a).agentType && p.currentRank == IdOf(a).currentRank
    ensures !a.Epithelial? ==> MutationFieldsUnset(p)
  {
    var id := IdOf(a);
    if id.agentType == 0 then
      var c := a.cell;
      EpithelialPackage(id.id, id.startRank, id.agentType, id.currentRank, c.lifespan as real, c.age,
                        E.InternalCode(c.internal), E.ExternalCode(c.external), c.infectedLifespan as real,
                        c.timeInfected, c.divisionRate as real, c.timeSinceLastDivision, c.releaseDelay,
                        c.displayDelay, c.extracellularReleaseProb, c.cellToCellTransmissionProb, c.releaseRate,
                        c.countToRelease, c.remainder, E.ModificationCode(c.modification), c.target.id,
                        c.target.startRank, c.target.agentType, c.target.currentRank)
    else if id.agentType == 1 then
      var v := a.virion;
      VirionPackage(id.id, id.startRank, id.agentType, id.currentRank, v.lifespan as real, v.age,
                    V.StateCode(v.state), v.penetrationProb, v.clearanceProb, v.clearanceScaler)
    else if id.agentType == 2 then
      var c := a.innate;
      InnatePackage(id.id, id.startRank, id.agentType, id.currentRank, c.lifespan as real, c.age,
                    I.StateCode(c.state), c.recognitionProb, c.eliminationProb, c.specRecruitProb,
                    c.specRecruitRate, c.specToRecruit, c.specRemainder, c.innateRecruitRate,
                    c.innateToRecruit as real, c.innateRemainder)
    else
      var c := a.specialised;
      SpecialisedPackage(id.id, id.startRank, id.agentType, id.currentRank, c.lifespan as real, c.age,
                         S.StateCode(c.state), c.recognitionProb, c.eliminationProb, c.specRecruitRate,
                         c.specToRecruit, c.specRemainder)
  }

  /** The state codes of a package name enumerators of its kind (the receiver casts them to enums). */
  predicate CodesInRange(p: Package)
  {
    if p.agentType == 0 then
      0 <= p.internalState <= 2 && 0 <= p.externalState <= 2 && 0 <= p.typeOfChangeToMakeToAgent <= 2
    else if p.agentType == 1 then 0 <= p.internalState <= 2
    else 0 <= p.internalState <= 1
  }

  /** The identity a package names; the owning rank is the one it carries. */
  function PackageId(p: Package): AgentId
  {
    AgentId(p.id, p.rank, p.agentType, p.currentRank)
  }

  /** The key the receiver looks an agent up by: the owning rank plays no part. */
  function PackageKey(p: Package): Key
  {
    Key(p.id, p.rank, p.agentType)
  }

  /**
   * createAgent: a new agent of the kind the package's agent type names,
   * with the package's identity and packaged values (each kind's full
   * constructor); flags that are not packaged start false.
   */
  function CreateAgent(p: Package): (a: Agent)
    requires CodesInRange(p)
    ensures IdOf(a) == PackageId(p) && WellKinded(a)
  {
    var id := PackageId(p);
    if p.agentType == 0 then
      Epithelial(E.EpithelialCell(
        id, Trunc(p.lifespan), p.age, E.InternalOf(p.internalState), E.ExternalOf(p.externalState),
        Trunc(p.infectedLifespan), p.timeInfected, Trunc(p.divisionRate), p.timeSinceLastDivision,
        p.releaseDelay, p.displayVirProteinsDelay, E.ModificationOf(p.typeOfChangeToMakeToAgent),
        AgentId(p.agentToEditID, p.agentToEditStartRank, p.agentToEditType, p.agentToEditCurrRank),
        p.extracellularReleaseProb, p.cellToCellTransmissionProb, p.virionReleaseRate,
        p.countOfVirionsToRelease, p.virionReleaseRemainder, false))
    else if p.agentType == 1 then
      Virion(V.Virion(id, Trunc(p.lifespan), p.age, V.StateOf(p.internalState), p.penetrationProbability,
                      p.clearanceProbability, p.clearanceProbScaler))
    else if p.agentType == 2 then
      Innate(I.InnateCell(id, Trunc(p.lifespan), p.age, I.StateOf(p.internalState),
                          p.infectedCellRecognitionProb, p.infectedCellEliminationProb,
                          p.specialisedImmuneCellRecruitProb, p.innateImmuneCellRecruitRate,
                          p.specialisedImmuneCellRecruitRate, p.countOfInnateCellsToRecruit,
                          p.innateCellsRecruitRemainder, p.countOfSpecCellsToRecruit,
                          p.specCellsRecruitRemainder, false, false))
    else
      Specialised(S.SpecialisedCell(id, Trunc(p.lifespan), p.age, S.StateOf(p.internalState),
                                    p.infectedCellRecognitionProb, p.infectedCellEliminationProb,
                                    p.specialisedImmuneCellRecruitRate, p.countOfSpecCellsToRecruit,
                                    p.specCellsRecruitRemainder, false))
  }

  /**
   * updateAgent on the agent found: each kind's set, which overwrites the
   * owning rank and every packaged value (age arrives as a double) and keeps
   * the identity and the flags that are not packaged.
   */
  function Updated(a: Agent, p: Package): Agent
    requires CodesInRange(p) && KindOfAgent(a) == KindOf(p.agentType)
  {
    if p.agentType == 0 then
      Epithelial(E.SetFields(
        a.cell, p.currentRank, p.lifespan, p.age as real, E.InternalOf(p.internalState),
        E.ExternalOf(p.externalState), Trunc(p.infectedLifespan), p.timeInfected, Trunc(p.divisionRate),
        p.timeSinceLastDivision, p.releaseDelay, p.displayVirProteinsDelay,
        E.ModificationOf(p.typeOfChangeToMakeToAgent),
        AgentId(p.agentToEditID, p.agentToEditStartRank, p.agentToEditType, p.agentToEditCurrRank),
        p.extracellularReleaseProb, p.cellToCellTransmissionProb, p.virionReleaseRate,
        p.countOfVirionsToRelease, p.virionReleaseRemainder))
    else if p.agentType == 1 then
      var v := a.virion;
      Virion(V.Virion(v.id.(currentRank := p.currentRank), Trunc(p.lifespan), Trunc(p.age as real),
                      V.StateOf(p.internalState), p.penetrationProbability, p.clearanceProbability,
                      p.clearanceProbScaler))
    else if p.agentType == 2 then
      var c := a.innate;
      Innate(I.InnateCell(c.id.(currentRank := p.currentRank), Trunc(p.lifespan), Trunc(p.age as real),
                          I.StateOf(p.internalState), p.infectedCellRecognitionProb,
                          p.infectedCellEliminationProb, p.specialisedImmuneCellRecruitProb,
                          p.innateImmuneCellRecruitRate, p.specialisedImmuneCellRecruitRate,
                          p.countOfInnateCellsToRecruit, p.innateCellsRecruitRemainder,
                          p.countOfSpecCellsToRecruit, p.specCellsRecruitRemainder, c.toRecruitSpec,
                          c.toRecruitInnate))
    else
      var c := a.specialised;
      Specialised(S.SpecialisedCell(c.id.(currentRank := p.currentRank), Trunc(p.lifespan), Trunc(p.age as real),
                                    S.StateOf(p.internalState), p.infectedCellRecognitionProb,
                                    p.infectedCellEliminationProb, p.specialisedImmuneCellRecruitRate,
                                    p.countOfSpecCellsToRecruit, p.specCellsRecruitRemainder, c.toRecruitSpec))
  }

  /** The agent with the flags that no package carries cleared: what a package can reproduce. */
  function Shared(a: Agent): Agent
  {
    match a
    case Epithelial(c) => Epithelial(c.(toRelease := false))
    case Virion(v) => a
    case Innate(c) => Innate(c.(toRecruitSpec := false, toRecruitInnate := false))
    case Specialised(c) => Specialised(c.(toRecruitSpec := false))
  }

  /** The agent `to` carrying the unpackaged flags of `from` (a replica keeps its own). */
  function WithFlagsOf(to: Agent, from: Agent): Agent
    requires KindOfAgent(to) == KindOfAgent(from)
  {
    match to
    case Epithelial(c) => Epithelial(c.(toRelease := from.cell.toRelease))
    case Virion(v) => to
    case Innate(c) => Innate(c.(toRecruitSpec := from.innate.toRecruitSpec,
                                toRecruitInnate := from.innate.toRecruitInnate))
    case Specialised(c) => Specialised(c.(toRecruitSpec := from.specialised.toRecruitSpec))
  }

  /** Every package the provider builds can be received: its state codes are in range. */
  lemma ProvidedCodesInRange(a: Agent)
    requires WellKinded(a)
    ensures CodesInRange(ProvidePackage(a))
  {
  }

  /**
   * Sending an agent and creating it from the package gives the same agent:
   * the same identity, including the owning rank, and every packaged value;
   * only the flags no package carries start afresh.
   */
  lemma CreateProvidedAgent(a: Agent)
    requires WellKinded(a)
    ensures CodesInRange(ProvidePackage(a))
    ensures CreateAgent(ProvidePackage(a)) == Shared(a)
  {
    match a
    case Epithelial(c) =>
      TruncOfInt(c.lifespan);
      TruncOfInt(c.infectedLifespan);
      TruncOfInt(c.divisionRate);
    case Virion(v) =>
      TruncOfInt(v.lifespan);
    case Innate(c) =>
      TruncOfInt(c.lifespan);
      TruncOfInt(c.innateToRecruit);
    case Specialised(c) =>
      TruncOfInt(c.lifespan);
  }

  /** An update keeps the agent's kind and the key it is found by. */
  lemma UpdateKeepsIdentity(a: Agent, p: Package)
    requires CodesInRange(p) && KindOfAgent(a) == KindOf(p.agentType)
    ensures KindOfAgent(Updated(a, p)) == KindOfAgent(a)
    ensures KeyOfAgent(Updated(a, p)) == KeyOfAgent(a)
    ensures IdOf(Updated(a, p)).currentRank == p.currentRank
  {
  }

  /** Applying the same package twice leaves what applying it once leaves. */
  lemma UpdateIdempotent(a: Agent, p: Package)
    requires CodesInRange(p) && KindOfAgent(a) == KindOf(p.agentType)
    ensures Updated(Updated(a, p), p) == Updated(a, p)
  {
  }

  /**
   * A replica updated with its owner's package becomes the owner, owning
   * rank included, except for the flags no package carries, which the
   * replica keeps.
   */
  lemma UpdateMirrorsOwner(replica: Agent, owner: Agent)
    requires WellKinded(replica) && WellKinded(owner) && KeyOfAgent(replica) == KeyOfAgent(owner)
    ensures CodesInRange(ProvidePackage(owner))
    ensures KindOfAgent(replica) == KindOf(ProvidePackage(owner).agentType)
    ensures Updated(replica, ProvidePackage(owner)) == WithFlagsOf(owner, replica)
  {
    match owner
    case Epithelial(c) =>
      TruncOfInt(c.lifespan);
      TruncOfInt(c.age);
      TruncOfInt(c.infectedLifespan);
      TruncOfInt(c.divisionRate);
    case Virion(v) =>
      TruncOfInt(v.lifespan);
      TruncOfInt(v.age);
    case Innate(c) =>
      TruncOfInt(c.lifespan);
      TruncOfInt(c.age);
      TruncOfInt(c.innateToRecruit);
    case Specialised(c) =>
      TruncOfInt(c.lifespan);
      TruncOfInt(c.age);
  }

  /**
   * provideContent: one package per requested agent, appended to the
   * output in request order; agents are found by key, so the requested
   * owning rank plays no part.
   */
  method ProvideContent(context: map<Key, Agent>, req: seq<AgentId>, out: seq<Package>) returns (result: seq<Package>)
    requires forall i :: 0 <= i < |req| ==> KeyOf(req[i]) in context && WellKinded(context[KeyOf(req[i])])
    ensures |result| == |out| + |req| && result[..|out|] == out
    ensures forall i :: 0 <= i < |req| ==> result[|out| + i] == ProvidePackage(context[KeyOf(req[i])])
  {
    result := out;
    var i := 0;
    while i < |req|
      invariant 0 <= i <= |req|
      invariant |result| == |out| + i && result[..|out|] == out
      invariant forall j :: 0 <= j < i ==> result[|out| + j] == ProvidePackage(context[KeyOf(req[j])])
    {
      result := result + [ProvidePackage(context[KeyOf(req[i])])];
      i := i + 1;
    }
  }
}

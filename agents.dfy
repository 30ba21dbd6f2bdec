/**
 * The four kinds of agent under one type, as the simulation's context holds
 * them, and the rules that read an agent through its agent type.
 */
module Agents {
  import opened Common
  import E = EpithelialCells
  import V = Virions
  import I = InnateCells
  import S = SpecialisedCells

  datatype Agent =
    | Epithelial(cell: E.EpithelialCell)
    | Virion(virion: V.Virion)
    | Innate(innate: I.InnateCell)
    | Specialised(specialised: S.SpecialisedCell)

  function IdOf(a: Agent): AgentId
  {
    match a
    case Epithelial(c) => c.id
    case Virion(v) => v.id
    case Innate(c) => c.id
    case Specialised(c) => c.id
  }

  function KeyOfAgent(a: Agent): Key
  {
    KeyOf(IdOf(a))
  }

  datatype Kind = EpithelialKind | VirionKind | InnateKind | SpecialisedKind

  /**
   * How the synchronisation code reads an agent type: 0, 1 and 2 name their
   * kinds and every other value is taken for a specialised immune cell.
   */
  function KindOf(agentType: int): (k: Kind)
    ensures agentType == 0 ==> k == EpithelialKind
    ensures agentType == 1 ==> k == VirionKind
    ensures agentType == 2 ==> k == InnateKind
    ensures k == SpecialisedKind <==> agentType !in {0, 1, 2}
  {
    if agentType == 0 then EpithelialKind
    else if agentType == 1 then VirionKind
    else if agentType == 2 then InnateKind
    else SpecialisedKind
  }

  function KindOfAgent(a: Agent): Kind
  {
    match a
    case Epithelial(_) => EpithelialKind
    case Virion(_) => VirionKind
    case Innate(_) => InnateKind
    case Specialised(_) => SpecialisedKind
  }

  /** The agent's object is of the kind its agent type names (the source casts by agent type). */
  predicate WellKinded(a: Agent)
  {
    KindOf(IdOf(a).agentType) == KindOfAgent(a)
  }

  /** What a grid query tells a neighbour about this agent: its identity and, for an epithelial cell, its external state. */
  function NeighbourOf(a: Agent): (n: E.Neighbour)
    ensures n.id == IdOf(a)
    ensures a.Epithelial? ==> n.external == a.cell.external
  {
    E.Neighbour(IdOf(a), if a.Epithelial? then a.cell.external else E.SeeminglyHealthy)
  }

  /**
   * removeLocalAgentIfDead's test, read by agent type: a virion goes when it
   * is dead or contained, an innate or specialised cell when it is dead; an
   * epithelial cell, and an agent of any other type, stays.
   */
  predicate ToRemove(a: Agent)
    requires WellKinded(a)
  {
    var t := IdOf(a).agentType;
    if t == 1 then a.virion.state == V.Dead || a.virion.state == V.Contained
    else if t == 2 then a.innate.state == I.Dead
    else if t == 3 then a.specialised.state == S.Dead
    else false
  }

  /**
   * The removal rules stated by kind: epithelial cells are never removed; a
   * virion is removed exactly when it is dead or contained; innate cells and
   * specialised cells of type 3 exactly when they are dead.
   */
  lemma RemovalRules(a: Agent)
    requires WellKinded(a)
    ensures a.Epithelial? ==> !ToRemove(a)
    ensures a.Virion? ==> (ToRemove(a) <==> a.virion.state != V.FreeVirion)
    ensures a.Innate? ==> (ToRemove(a) <==> a.innate.state == I.Dead)
    ensures a.Specialised? ==> (ToRemove(a) <==> IdOf(a).agentType == 3 && a.specialised.state == S.Dead)
  {
  }
}

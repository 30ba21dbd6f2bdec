/**
 * The flat record that carries an agent between processes: the fields every
 * agent has, then one group of fields per kind, each defaulting to -1, and
 * the fixed order in which the record is written to and read from the
 * archive.
 */
module Packages {
  import opened Common

  datatype Package = Package(
    // common to every agent
    id: int,
    rank: int,
    agentType: int,
    currentRank: int,
    lifespan: real,
    age: int,
    internalState: int,
    // epithelial cells
    externalState: int,
    infectedLifespan: real,
    timeInfected: int,
    divisionRate: real,
    timeSinceLastDivision: int,
    releaseDelay: real,
    displayVirProteinsDelay: real,
    extracellularReleaseProb: real,
    cellToCellTransmissionProb: real,
    virionReleaseRate: real,
    countOfVirionsToRelease: int,
    virionReleaseRemainder: real,
    // virions
    penetrationProbability: real,
    clearanceProbability: real,
    clearanceProbScaler: real,
    // both immune cell kinds
    infectedCellRecognitionProb: real,
    infectedCellEliminationProb: real,
    specialisedImmuneCellRecruitRate: real,
    countOfSpecCellsToRecruit: int,
    specCellsRecruitRemainder: real,
    // innate immune cells
    specialisedImmuneCellRecruitProb: real,
    innateImmuneCellRecruitRate: real,
    countOfInnateCellsToRecruit: int,
    innateCellsRecruitRemainder: real,
    // the neighbour an epithelial cell asks to modify
    typeOfChangeToMakeToAgent: int,
    agentToEditID: int,
    agentToEditStartRank: int,
    agentToEditType: int,
    agentToEditCurrRank: int)

  /** A package with the common fields given and every kind-specific field at its default of -1. */
  function Blank(id: int, rank: int, agentType: int, currentRank: int, lifespan: real, age: int,
                 internalState: int): Package
  {
    Package(id, rank, agentType, currentRank, lifespan, age, internalState,
            -1, -1.0, -1, -1.0, -1, -1.0, -1.0, -1.0, -1.0, -1.0, -1, -1.0,
            -1.0, -1.0, -1.0,
            -1.0, -1.0, -1.0, -1, -1.0,
            -1.0, -1.0, -1, -1.0,
            -1, -1, -1, -1, -1)
  }

  predicate EpithelialFieldsUnset(p: Package)
  {
    && p.externalState == -1 && p.infectedLifespan == -1.0 && p.timeInfected == -1
    && p.divisionRate == -1.0 && p.timeSinceLastDivision == -1 && p.releaseDelay == -1.0
    && p.displayVirProteinsDelay == -1.0 && p.extracellularReleaseProb == -1.0
    && p.cellToCellTransmissionProb == -1.0 && p.virionReleaseRate == -1.0
    && p.countOfVirionsToRelease == -1 && p.virionReleaseRemainder == -1.0
  }

  predicate VirionFieldsUnset(p: Package)
  {
    p.penetrationProbability == -1.0 && p.clearanceProbability == -1.0 && p.clearanceProbScaler == -1.0
  }

  predicate ImmuneFieldsUnset(p: Package)
  {
    && p.infectedCellRecognitionProb == -1.0 && p.infectedCellEliminationProb == -1.0
    && p.specialisedImmuneCellRecruitRate == -1.0 && p.countOfSpecCellsToRecruit == -1
    && p.specCellsRecruitRemainder == -1.0
  }

  predicate InnateFieldsUnset(p: Package)
  {
    && p.specialisedImmuneCellRecruitProb == -1.0 && p.innateImmuneCellRecruitRate == -1.0
    && p.countOfInnateCellsToRecruit == -1 && p.innateCellsRecruitRemainder == -1.0
  }

  /** The five fields that name a neighbour to modify; unset they name no agent, (-1, -1, -1, -1). */
  predicate MutationFieldsUnset(p: Package)
  {
    && p.typeOfChangeToMakeToAgent == -1
    && AgentId(p.agentToEditID, p.agentToEditStartRank, p.agentToEditType, p.agentToEditCurrRank) == NoTarget
  }

  /** The package of an epithelial cell: common, epithelial and modification fields. */
  function EpithelialPackage(id: int, rank: int, agentType: int, currentRank: int, lifespan: real, age: int,
                             internalState: int, externalState: int, infectedLifespan: real, timeInfected: int,
                             divisionRate: real, timeSinceLastDivision: int, releaseDelay: real,
                             displayVirProteinsDelay: real, extracellularReleaseProb: real,
                             cellToCellTransmissionProb: real, virionReleaseRate: real,
                             countOfVirionsToRelease: int, virionReleaseRemainder: real,
                             typeOfChangeToMakeToAgent: int, agentToEditID: int, agentToEditStartRank: int,
                             agentToEditType: int, agentToEditCurrRank: int): (p: Package)
    ensures VirionFieldsUnset(p) && ImmuneFieldsUnset(p) && InnateFieldsUnset(p)
  {
    Blank(id, rank, agentType, currentRank, lifespan, age, internalState).(
      externalState := externalState, infectedLifespan := infectedLifespan, timeInfected := timeInfected,
      divisionRate := divisionRate, timeSinceLastDivision := timeSinceLastDivision,
      releaseDelay := releaseDelay, displayVirProteinsDelay := displayVirProteinsDelay,
      extracellularReleaseProb := extracellularReleaseProb,
      cellToCellTransmissionProb := cellToCellTransmissionProb, virionReleaseRate := virionReleaseRate,
      countOfVirionsToRelease := countOfVirionsToRelease, virionReleaseRemainder := virionReleaseRemainder,
      typeOfChangeToMakeToAgent := typeOfChangeToMakeToAgent, agentToEditID := agentToEditID,
      agentToEditStartRank := agentToEditStartRank, agentToEditType := agentToEditType,
      agentToEditCurrRank := agentToEditCurrRank)
  }

  /** The package of a virion: the virion state travels in internalState. */
  function VirionPackage(id: int, rank: int, agentType: int, currentRank: int, lifespan: real, age: int,
                         internalState: int, penetrationProbability: real, clearanceProbability: real,
                         clearanceProbScaler: real): (p: Package)
    ensures EpithelialFieldsUnset(p) && ImmuneFieldsUnset(p) && InnateFieldsUnset(p) && MutationFieldsUnset(p)
  {
    Blank(id, rank, agentType, currentRank, lifespan, age, internalState).(
      penetrationProbability := penetrationProbability, clearanceProbability := clearanceProbability,
      clearanceProbScaler := clearanceProbScaler)
  }

  /**
   * The package of an innate immune cell. The count of innate cells to
   * recruit is passed as a double and stored in an int field, so it is
   * truncated.
   */
  function InnatePackage(id: int, rank: int, agentType: int, currentRank: int, lifespan: real, age: int,
                         internalState: int, infectedCellRecognitionProb: real, infectedCellEliminationProb: real,
                         specialisedImmuneCellRecruitProb: real, specialisedImmuneCellRecruitRate: real,
                         countOfSpecCellsToRecruit: int, specCellsRecruitRemainder: real,
                         innateImmuneCellRecruitRate: real, countOfInnateCellsToRecruit: real,
                         innateCellsRecruitRemainder: real): (p: Package)
    ensures EpithelialFieldsUnset(p) && VirionFieldsUnset(p) && MutationFieldsUnset(p)
    ensures p.countOfInnateCellsToRecruit == Trunc(countOfInnateCellsToRecruit)
  {
    Blank(id, rank, agentType, currentRank, lifespan, age, internalState).(
      infectedCellRecognitionProb := infectedCellRecognitionProb,
      infectedCellEliminationProb := infectedCellEliminationProb,
      specialisedImmuneCellRecruitProb := specialisedImmuneCellRecruitProb,
      specialisedImmuneCellRecruitRate := specialisedImmuneCellRecruitRate,
      countOfSpecCellsToRecruit := countOfSpecCellsToRecruit,
      specCellsRecruitRemainder := specCellsRecruitRemainder,
      innateImmuneCellRecruitRate := innateImmuneCellRecruitRate,
      countOfInnateCellsToRecruit := Trunc(countOfInnateCellsToRecruit),
      innateCellsRecruitRemainder := innateCellsRecruitRemainder)
  }

  /** The package of a specialised immune cell: the innate-only fields keep their defaults. */
  function SpecialisedPackage(id: int, rank: int, agentType: int, currentRank: int, lifespan: real, age: int,
                              internalState: int, infectedCellRecognitionProb: real,
                              infectedCellEliminationProb: real, specialisedImmuneCellRecruitRate: real,
                              countOfSpecCellsToRecruit: int, specCellsRecruitRemainder: real): (p: Package)
    ensures EpithelialFieldsUnset(p) && VirionFieldsUnset(p) && InnateFieldsUnset(p) && MutationFieldsUnset(p)
  {
    Blank(id, rank, agentType, currentRank, lifespan, age, internalState).(
      infectedCellRecognitionProb := infectedCellRecognitionProb,
      infectedCellEliminationProb := infectedCellEliminationProb,
      specialisedImmuneCellRecruitRate := specialisedImmuneCellRecruitRate,
      countOfSpecCellsToRecruit := countOfSpecCellsToRecruit,
      specCellsRecruitRemainder := specCellsRecruitRemainder)
  }

  /** One value written to or read from the archive. */
  datatype Field = IntField(i: int) | RealField(r: real)

  datatype FieldKind = IntKind | RealKind

  function KindOfField(f: Field): FieldKind
  {
    if f.IntField? then IntKind else RealKind
  }

  /** The kind of the k-th of the 36 values serialize transfers: the doubles sit at these positions, ints elsewhere. */
  function LayoutKind(k: nat): FieldKind
  {
    if k == 4 || k == 8 || k == 10 || 12 <= k <= 16 || 18 <= k <= 24 || 26 <= k <= 28 || k == 30
    then RealKind else IntKind
  }

  /** A stream that follows serialize's layout: 36 values, each of the kind its position calls for. */
  predicate Laid(fs: seq<Field>)
  {
    |fs| == 36 && forall k :: 0 <= k < 36 ==> KindOfField(fs[k]) == LayoutKind(k)
  }

  /** serialize writing a package: 7 common values, 12 epithelial, 3 virion, 5 immune, 4 innate, 5 modification. */
  function Encode(p: Package): seq<Field>
  {
    [IntField(p.id), IntField(p.rank), IntField(p.agentType), IntField(p.currentRank), RealField(p.lifespan),
     IntField(p.age), IntField(p.internalState)]
    + [IntField(p.externalState), RealField(p.infectedLifespan), IntField(p.timeInfected),
       RealField(p.divisionRate), IntField(p.timeSinceLastDivision), RealField(p.releaseDelay),
       RealField(p.displayVirProteinsDelay), RealField(p.extracellularReleaseProb),
       RealField(p.cellToCellTransmissionProb), RealField(p.virionReleaseRate),
       IntField(p.countOfVirionsToRelease), RealField(p.virionReleaseRemainder)]
    + [RealField(p.penetrationProbability), RealField(p.clearanceProbability), RealField(p.clearanceProbScaler)]
    + [RealField(p.infectedCellRecognitionProb), RealField(p.infectedCellEliminationProb),
       RealField(p.specialisedImmuneCellRecruitRate), IntField(p.countOfSpecCellsToRecruit),
       RealField(p.specCellsRecruitRemainder)]
    + [RealField(p.specialisedImmuneCellRecruitProb), RealField(p.innateImmuneCellRecruitRate),
       IntField(p.countOfInnateCellsToRecruit), RealField(p.innateCellsRecruitRemainder)]
    + [IntField(p.typeOfChangeToMakeToAgent), IntField(p.agentToEditID), IntField(p.agentToEditStartRank),
       IntField(p.agentToEditType), IntField(p.agentToEditCurrRank)]
  }

  /** The value at position k of a well-laid-out stream, read as an int. */
  function IntAt(fs: seq<Field>, k: nat): int
    requires Laid(fs) && k < 36 && LayoutKind(k) == IntKind
  {
    assert KindOfField(fs[k]) == LayoutKind(k);
    fs[k].i
  }

  /** The value at position k of a well-laid-out stream, read as a double. */
  function RealAt(fs: seq<Field>, k: nat): real
    requires Laid(fs) && k < 36 && LayoutKind(k) == RealKind
  {
    assert KindOfField(fs[k]) == LayoutKind(k);
    fs[k].r
  }

  /** serialize reading a package: the values must come in the layout's order and kinds. */
  function Decode(fs: seq<Field>): (r: Option<Package>)
    ensures r.Some? <==> Laid(fs)
  {
    if !Laid(fs) then None
    else
      Some(Package(
        IntAt(fs, 0), IntAt(fs, 1), IntAt(fs, 2), IntAt(fs, 3), RealAt(fs, 4), IntAt(fs, 5), IntAt(fs, 6),
        IntAt(fs, 7), RealAt(fs, 8), IntAt(fs, 9), RealAt(fs, 10), IntAt(fs, 11), RealAt(fs, 12),
        RealAt(fs, 13), RealAt(fs, 14), RealAt(fs, 15), RealAt(fs, 16), IntAt(fs, 17), RealAt(fs, 18),
        RealAt(fs, 19), RealAt(fs, 20), RealAt(fs, 21),
        RealAt(fs, 22), RealAt(fs, 23), RealAt(fs, 24), IntAt(fs, 25), RealAt(fs, 26),
        RealAt(fs, 27), RealAt(fs, 28), IntAt(fs, 29), RealAt(fs, 30),
        IntAt(fs, 31), IntAt(fs, 32), IntAt(fs, 33), IntAt(fs, 34), IntAt(fs, 35)))
  }

  /** Every encoded package has the layout: 36 values of the right kinds. */
  lemma EncodeFollowsLayout(p: Package)
    ensures Laid(Encode(p))
  {
  }

  /** Reading back what was written gives the same package. */
  lemma DecodeEncode(p: Package)
    ensures Decode(Encode(p)) == Some(p)
  {
    EncodeFollowsLayout(p);
  }

  /** Writing what was read gives back the same values: a well-laid-out stream is the encoding of its package. */
  lemma EncodeDecode(fs: seq<Field>)
    requires Laid(fs)
    ensures Decode(fs).Some? && Encode(Decode(fs).value) == fs
  {
    var e := Encode(Decode(fs).value);
    forall k | 0 <= k < 36
      ensures e[k] == fs[k]
    {
      assert KindOfField(fs[k]) == LayoutKind(k);
    }
  }

  /** The encoding is injective: two packages that write the same values are the same package. */
  lemma EncodeInjective(p: Package, q: Package)
    requires Encode(p) == Encode(q)
    ensures p == q
  {
    DecodeEncode(p);
    DecodeEncode(q);
  }
}

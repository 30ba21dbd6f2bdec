# Virus–cell interaction model, one rank

A model of the agent logic that one rank (one MPI process) of the Repast HPC
virus/immune-cell simulation runs. The model covers the rank's part of the
epithelium grid and the four kinds of agents in it:

- **epithelial cells** are healthy, infected, producing virions, or dead. They
  age, divide into dead neighbours, release virions and infect neighbouring
  cells;
- **virions** drift, are cleared (more easily when immune cells are near), and
  penetrate healthy cells;
- **innate immune cells** move, spot infected cells that display viral
  proteins, eliminate them and recruit more immune cells;
- **specialised immune cells** do the same.

Each kind is a value (`Agents.Agent`) with a pure step function that the
agent's own class is proved to compute (`DoStep`). The rank is the class
`VirusCellModels.VirusCellModel`. It keeps:

- a store of agents keyed by agent id: its own agents and the replicas of its
  neighbours' agents;
- the grid points of those agents;
- the id counters for virions, innate cells and specialised cells it creates;
- the stream of random draws its initialise calls consume.

The class's methods are the source's own procedures:

- `Init` lays the grid and seeds the initial agents;
- `ExecuteTimestep` serves the buffer zone, steps every local agent, carries
  out its requests (division, infection, release and recruitment) and retires
  dead agents, keeping the innate-cell floor.

The wire format that carries agents between ranks is also modelled. `Packages`
holds the record, its encoding and its decoding. `PackagePattern` holds the
provide, create and update steps. `DataCollection` holds the per-tick counts
that the rank reports.

Grid queries (the agents near a point, the agents at a point) are inputs to the
step. The generators' values are a stream of accepted draws.

## Model

| member | source | states |
|---|---|---|
| Common.Moved | src/Virion_Agent.cpp:166-172 | a move shifts each coordinate by at most one, and leaves the agent where it was exactly when both offsets are 0 |
| Common.Trunc | src/Virus_Cell_Agent.cpp:42-47 | storing a double in an int field rounds toward zero: for a non-negative value the result is its whole part, for a negative one the nearest integer at or above it |
| Common.TruncOfInt | src/Virus_Cell_Agent.cpp:42-47 | a whole number survives the conversion to a double and back unchanged |
| BaseAgents.VirusCellInteractionAgent.Basic | src/Virus_Cell_Agent.cpp:10-14 | the basic constructor stores the id with lifespan 50 and age 0 |
| BaseAgents.VirusCellInteractionAgent.constructor | src/Virus_Cell_Agent.cpp:21-25 | the full constructor stores the id, the truncated lifespan and the age |
| BaseAgents.VirusCellInteractionAgent.Set | src/Virus_Cell_Agent.cpp:42-47 | set changes the owning rank and no other part of the id, and overwrites lifespan and age with their truncated values |
| BaseAgents.VirusCellInteractionAgent.DoStep | src/Virus_Cell_Agent.cpp:55-58 | the base step raises the age by exactly 1 and keeps id and lifespan |
| EpithelialCells.Candidates | src/Epithelial_Cell_Agent.cpp:205-216 | the filtering loop keeps at most as many neighbours as the grid query reported |
| EpithelialCells.CandidatesAreExactly | src/Epithelial_Cell_Agent.cpp:205-216 | a neighbour is kept exactly when it is an epithelial cell in the external state looked for |
| EpithelialCells.SelectNeighbours | src/Epithelial_Cell_Agent.cpp:292-303 | the filtering loop returns the candidates in query order |
| EpithelialCells.Chosen | src/Epithelial_Cell_Agent.cpp:219-223 | the uniformly chosen target is one of the candidates |
| EpithelialCells.SplitRelease | src/Epithelial_Cell_Agent.cpp:272-273 | the virions released plus the new remainder equal the release rate plus the old remainder, and the new remainder lies in [0, 1) when that sum is not negative |
| EpithelialCells.ReleaseConservation | src/Epithelial_Cell_Agent.cpp:272-273 | over n releases nothing is lost: the virions released plus the remainder carried equal n times the rate plus the starting remainder, and the remainder stays in [0, 1) |
| EpithelialCells.ReleaseTotalIsFloor | src/Epithelial_Cell_Agent.cpp:272-273 | the virions released over n releases are the whole part of n times the rate plus the starting remainder |
| EpithelialCells.StepKeepsParameters | src/Epithelial_Cell_Agent.cpp:144-175 | a step keeps the cell's identity and parameters and raises its age by exactly 1 |
| EpithelialCells.StepStateProgression | src/Epithelial_Cell_Agent.cpp:153-174 | a cell's own step never heals it and never infects it: dead stays dead, healthy never becomes infected, infected never becomes healthy, and a cell that dies this step shows deadCell |
| EpithelialCells.StepDiesOfAge | src/Epithelial_Cell_Agent.cpp:146-159 | a live cell whose age passes its lifespan becomes dead/deadCell and leaves no release and no request |
| EpithelialCells.DeadCellIsInert | src/Epithelial_Cell_Agent.cpp:146-174 | a dead cell's step only ages it and clears its pending requests |
| EpithelialCells.HealthyDivisionTimer | src/Epithelial_Cell_Agent.cpp:183-236 | a surviving healthy cell stays healthy, its division timer goes up by one and drops to 0 once it passes the division rate, whether or not a target is found; it asks to divide exactly when the timer ran out and a dead epithelial neighbour exists, and never asks to infect |
| EpithelialCells.StepRequestIsSound | src/Epithelial_Cell_Agent.cpp:205-316 | no request means the (-1,-1,-1,-1) target; a division request comes from a healthy cell and names a neighbouring epithelial cell showing deadCell; an infection request comes from an infected, displaying cell and names a neighbouring seemingly healthy epithelial cell |
| EpithelialCells.StepReleaseConserves | src/Epithelial_Cell_Agent.cpp:262-274 | only an infected, displaying cell past its release delay releases, and then the count plus the new remainder equal the rate plus the old remainder; without a release the count is 0 and the remainder is unchanged |
| EpithelialCells.InfectedCellDies | src/Epithelial_Cell_Agent.cpp:245-254 | an infected cell whose infected time passes its infected lifespan becomes dead/deadCell in that step, with no release and no request |
| EpithelialCells.InfectedCellDisplays | src/Epithelial_Cell_Agent.cpp:256-265 | a surviving infected cell displays viral protein exactly when its infected time passes the display delay or the release delay, and otherwise keeps its external state |
| EpithelialCells.EpithelialCellAgent.Basic | src/Epithelial_Cell_Agent.cpp:12-34 | the basic constructor's defaults: lifespan 30, age 0, infected lifespan 6, division rate 15, delays 3 and 2, probabilities 0.8 and 0.2, rate 1.0, healthy and seemingly healthy, nothing pending |
| EpithelialCells.EpithelialCellAgent.constructor | src/Epithelial_Cell_Agent.cpp:41-63 | a new healthy cell with the given parameters and nothing pending |
| EpithelialCells.EpithelialCellAgent.Full | src/Epithelial_Cell_Agent.cpp:70-95 | a cell with every shared field as given and the release flag false |
| EpithelialCells.EpithelialCellAgent.Set | src/Epithelial_Cell_Agent.cpp:112-136 | set overwrites the owning rank and every shared field and keeps the rest of the id and the release flag |
| EpithelialCells.EpithelialCellAgent.SetLifeFields | src/Epithelial_Cell_Agent.cpp:118-126 | the first half of set: owning rank, truncated lifespan and age, both states and the timers |
| EpithelialCells.EpithelialCellAgent.SetReleaseFields | src/Epithelial_Cell_Agent.cpp:127-135 | the second half of set: the delays, the pending request, the probabilities and the release accounting |
| EpithelialCells.EpithelialCellAgent.Infect | include/Epithelial_Cell_Agent.h:67 | infect() makes the cell infected and leaves its external state |
| EpithelialCells.EpithelialCellAgent.Eliminate | include/Epithelial_Cell_Agent.h:68 | eliminate() makes the cell dead and deadCell |
| EpithelialCells.EpithelialCellAgent.DoStep | src/Epithelial_Cell_Agent.cpp:144-175 | the in-place step leaves exactly the state the step specification computes |
| EpithelialCells.EpithelialCellAgent.AgeOneStep | src/Epithelial_Cell_Agent.cpp:146-159 | the start of a step: requests cleared, age up by one, death once the age passes the lifespan |
| EpithelialCells.EpithelialCellAgent.ClearRequests | src/Epithelial_Cell_Agent.cpp:146-150 | no release, count 0, no modification, target (-1,-1,-1,-1) |
| EpithelialCells.EpithelialCellAgent.ActHealthy | src/Epithelial_Cell_Agent.cpp:183-236 | the in-place actHealthy leaves exactly the healthy step's state |
| EpithelialCells.EpithelialCellAgent.ActInfected | src/Epithelial_Cell_Agent.cpp:243-320 | the in-place actInfected leaves exactly the infected step's state |
| EpithelialCells.EpithelialCellAgent.ActProducing | src/Epithelial_Cell_Agent.cpp:262-318 | past the release delay: display, release on the first draw, request an infection on the second |
| EpithelialCells.EpithelialCellAgent.RequestNeighbour | src/Epithelial_Cell_Agent.cpp:219-231 | a request is recorded, naming the chosen candidate, exactly when there is a candidate |
| EpithelialCells.EpithelialCellAgent.ReleaseVirions | src/Epithelial_Cell_Agent.cpp:269-274 | the cell is marked as releasing, with the count and remainder of the release split |
| Virions.StepKeepsParameters | src/Virion_Agent.cpp:86-153 | a virion's step keeps its identity and parameters and raises its age by exactly 1 |
| Virions.StepDiesOfAge | src/Virion_Agent.cpp:88-92 | a live virion past its lifespan becomes dead, infects nothing and does not move |
| Virions.StepOutcomes | src/Virion_Agent.cpp:134-148 | a virion moves, by the drawn offsets and with no effect, exactly when it ends its step not dead; it never eliminates; when it infects, it names the last epithelial cell on its grid point, which looked seemingly healthy, and is dead itself |
| Virions.NoClearanceWithoutImmuneCells | src/Virion_Agent.cpp:126-137 | with no immune cell on its grid point and a clearance probability of at most 0, a live free virion ends its step dead exactly when it infected a cell |
| Virions.ClearanceGrowsWithImmuneCells | src/Virion_Agent.cpp:126-131 | for a non-negative draw and a scaler of at least 1, the clearance value never falls as more immune cells share the grid point |
| Virions.ImmuneCellClearsDespiteZeroProbability | src/Virion_Agent.cpp:126-137 | one immune cell with scaler 2 turns the draw 0.75 into 1.5, which clears a virion whose clearance probability is 0 |
| Virions.ScaledClearance | src/Virion_Agent.cpp:126-131 | the scaling loop multiplies the draw by the scaler once per immune cell |
| Virions.VirionAgent.Basic | src/Virion_Agent.cpp:15-24 | the basic constructor's defaults: lifespan 15, age 0, free virion, probabilities 0.4 and 0.2, scaler 1.2 |
| Virions.VirionAgent.constructor | src/Virion_Agent.cpp:31-38 | a new free virion with the given parameters and truncated lifespan |
| Virions.VirionAgent.Full | src/Virion_Agent.cpp:45-52 | a virion with the given state and parameters |
| Virions.VirionAgent.Set | src/Virion_Agent.cpp:69-78 | set changes the owning rank and no other part of the id, truncates lifespan and age, and overwrites the state and the three probabilities |
| Virions.VirionAgent.DoStep | src/Virion_Agent.cpp:86-153 | the in-place step leaves exactly the state, effect and move the step specification computes |
| Virions.VirionAgent.AttemptToInfectCell | src/Virion_Agent.cpp:180-201 | the cell under the virion is infected, and the virion marked dead, exactly when there is a cell, it shows seemingly healthy and the penetration draw succeeds |
| EpithelialCells.LastEpithelial | src/Virion_Agent.cpp:109-115 | the cell found is a reported agent of type 0 |
| EpithelialCells.LastEpithelialFinds | src/Virion_Agent.cpp:109-115 | no cell is found exactly when no reported agent is of type 0 |
| EpithelialCells.LastEpithelialBeforeOthers | src/Virion_Agent.cpp:109-115 | the loop overwrites what it found on every match, so the cell found is the last reported agent of type 0, whatever precedes it |
| EpithelialCells.FirstEpithelial | src/Specialised_Immune_Cell.cpp:144-175 | the cell found is a reported agent of type 0 |
| EpithelialCells.CountOfType | src/Virion_Agent.cpp:116-120 | the count never exceeds the number of agents reported |
| EpithelialCells.CountOfTypeAppend | src/Virion_Agent.cpp:116-120 | the count over two runs of reported agents one after the other is the sum of their counts |
| EpithelialCells.ScanGridPoint | src/Innate_Immune_Cell.cpp:156-168 | the scanning loop finds the last epithelial cell reported and counts the agents of the one or two immune types asked for |
| InnateCells.StepKeepsParameters | src/Innate_Immune_Cell.cpp:92-107 | an innate cell's step keeps its identity, parameters and recruit counts and raises its age by exactly 1 |
| InnateCells.StepDiesOfAge | src/Innate_Immune_Cell.cpp:94-98 | a live cell past its lifespan becomes dead, neither detects nor moves, and keeps its flags |
| InnateCells.DeadCellIsInert | src/Innate_Immune_Cell.cpp:94-106 | a dead cell's step only ages it |
| InnateCells.StepOutcomes | src/Innate_Immune_Cell.cpp:136-208 | a live cell moves, by the drawn offsets; it asks for innate cells exactly when it recognises the last epithelial cell displaying viral proteins and no specialised cell is there, and for specialised cells exactly when it recognises it and the recruit draw succeeds; it never infects, and eliminates exactly the recognised cell when the elimination draw succeeds |
| InnateCells.SpecialisedCellSuppressesInnateRecruitment | src/Innate_Immune_Cell.cpp:181-186 | a specialised cell on the grid point keeps a live innate cell from asking for more innate cells |
| InnateCells.NothingWithoutDisplayingCell | src/Innate_Immune_Cell.cpp:171-207 | with no epithelial cell displaying viral proteins on its grid point a live cell asks for nothing, eliminates nothing and moves |
| InnateCells.InnateImmuneCellAgent.Basic | src/Innate_Immune_Cell.cpp:15-26 | the basic constructor's defaults: lifespan 20, age 0, healthy, probabilities 0.5, 0.3 and 0.5, no recruitment asked |
| InnateCells.InnateImmuneCellAgent.constructor | src/Virus_Cell_Model.cpp:442-443 | a new healthy cell with the given probabilities and recruit rates, nothing to recruit and no remainders |
| InnateCells.InnateImmuneCellAgent.Full | src/Agent_Synchronisation_Package_Pattern.cpp:272-274 | a cell rebuilt from a package: every packaged field as given, both flags false |
| InnateCells.InnateImmuneCellAgent.Set | src/Agent_Synchronisation_Package_Pattern.cpp:311-313 | set changes the owning rank and every packaged field, and keeps the rest of the id and both flags |
| InnateCells.InnateImmuneCellAgent.SetLifeFields | src/Innate_Immune_Cell.cpp:75-84 | owning rank, truncated lifespan and age, state and the three probabilities |
| InnateCells.InnateImmuneCellAgent.SetRecruitFields | src/Agent_Synchronisation_Package_Pattern.cpp:312-313 | the recruit rates, counts and remainders |
| InnateCells.InnateImmuneCellAgent.DoStep | src/Innate_Immune_Cell.cpp:92-107 | the in-place step leaves exactly the state, effect and move the step specification computes |
| InnateCells.InnateImmuneCellAgent.AttemptToDetectInfectedCell | src/Innate_Immune_Cell.cpp:136-208 | the in-place detection leaves exactly the flags and effect the detection specification computes |
| SpecialisedCells.StepKeepsParameters | src/Specialised_Immune_Cell.cpp:85-100 | a specialised cell's step keeps its identity, parameters and recruit count and raises its age by exactly 1 |
| SpecialisedCells.StepDiesOfAge | src/Specialised_Immune_Cell.cpp:87-91 | a live cell past its lifespan becomes dead, neither detects nor moves, and keeps its flag |
| SpecialisedCells.DeadCellIsInert | src/Specialised_Immune_Cell.cpp:87-99 | a dead cell's step only ages it |
| SpecialisedCells.StepOutcomes | src/Specialised_Immune_Cell.cpp:128-177 | a live cell moves, by the drawn offsets; it asks for recruitment exactly when it recognises the first epithelial cell displaying viral proteins; it never infects, and eliminates exactly that cell when the elimination draw succeeds |
| SpecialisedCells.OnlyFirstEpithelialCellMatters | src/Specialised_Immune_Cell.cpp:144-175 | the search stops at the first epithelial cell: agents reported after it make no difference to the step |
| SpecialisedCells.FirstEpithelialAfterOthers | src/Specialised_Immune_Cell.cpp:144-149 | with no epithelial cell before it, the first epithelial cell reported is the one found |
| SpecialisedCells.SpecialisedImmuneCellAgent.Basic | src/Specialised_Immune_Cell.cpp:15-24 | the basic constructor's defaults: lifespan 25, age 0, healthy, probabilities 0.7 and 0.8, no recruitment asked |
| SpecialisedCells.SpecialisedImmuneCellAgent.constructor | src/Virus_Cell_Model.cpp:492 | a new healthy cell with the given probabilities and recruit rate, nothing to recruit and no remainder |
| SpecialisedCells.SpecialisedImmuneCellAgent.Full | src/Agent_Synchronisation_Package_Pattern.cpp:278-280 | a cell rebuilt from a package: every packaged field as given, flag false |
| SpecialisedCells.SpecialisedImmuneCellAgent.Set | src/Agent_Synchronisation_Package_Pattern.cpp:318-319 | set changes the owning rank and every packaged field, and keeps the rest of the id and the flag |
| SpecialisedCells.SpecialisedImmuneCellAgent.DoStep | src/Specialised_Immune_Cell.cpp:85-100 | the in-place step leaves exactly the state, effect and move the step specification computes |
| SpecialisedCells.SpecialisedImmuneCellAgent.AttemptToDetectInfectedCell | src/Specialised_Immune_Cell.cpp:128-177 | the in-place detection leaves exactly the flag and effect the detection specification computes |
| Agents.KindOf | src/Agent_Synchronisation_Package_Pattern.cpp:258-281 | type 0 is read as an epithelial cell, 1 as a virion, 2 as an innate cell, and exactly the other types as a specialised immune cell |
| Agents.NeighbourOf | src/Virion_Agent.cpp:109-121 | what a grid query reports about an agent: its identity and, for an epithelial cell, its external state |
| Agents.RemovalRules | src/Virus_Cell_Model.cpp:790-833 | epithelial cells are never removed; a virion is removed exactly when it is not free (dead or contained); an innate cell exactly when it is dead; a specialised cell exactly when its type is 3 and it is dead |
| Packages.EpithelialPackage | src/Agent_Synchronisation_Package_Pattern.cpp:24-59 | an epithelial cell's package leaves every virion, immune and innate field at its default of -1 |
| Packages.VirionPackage | src/Agent_Synchronisation_Package_Pattern.cpp:66-82 | a virion's package leaves every epithelial, immune, innate and modification field at its default |
| Packages.InnatePackage | src/Agent_Synchronisation_Package_Pattern.cpp:88-114 | an innate cell's package leaves the epithelial, virion and modification fields at their defaults, and the count of innate cells to recruit, passed as a double, is truncated |
| Packages.SpecialisedPackage | src/Agent_Synchronisation_Package_Pattern.cpp:121-140 | a specialised cell's package leaves the epithelial, virion, innate and modification fields at their defaults |
| Packages.Decode | include/Agent_Synchronisation_Package_Pattern.h:117-164 | reading succeeds exactly when the stream has the 36 values in the kinds serialize's order calls for |
| Packages.EncodeFollowsLayout | include/Agent_Synchronisation_Package_Pattern.h:117-164 | every package writes 36 values, each of the kind its position calls for |
| Packages.DecodeEncode | include/Agent_Synchronisation_Package_Pattern.h:117-164 | reading back what serialize wrote gives the same package |
| Packages.EncodeDecode | include/Agent_Synchronisation_Package_Pattern.h:117-164 | a well-laid-out stream is exactly the encoding of the package read from it |
| Packages.EncodeInjective | include/Agent_Synchronisation_Package_Pattern.h:117-164 | two packages that write the same values are the same package |
| PackagePattern.ProvidePackage | src/Agent_Synchronisation_Package_Pattern.cpp:164-218 | the package carries the agent's full identity, and only an epithelial cell's package names a neighbour to modify |
| PackagePattern.CreateAgent | src/Agent_Synchronisation_Package_Pattern.cpp:254-282 | the agent created has the identity the package names, owning rank included, and is of the kind its agent type names |
| PackagePattern.ProvidedCodesInRange | src/Agent_Synchronisation_Package_Pattern.cpp:164-218 | every package the provider builds holds state codes the receiver can read back |
| PackagePattern.CreateProvidedAgent | src/Agent_Synchronisation_Package_Pattern.cpp:254-282 | creating an agent from an agent's package gives back that agent, every packaged value included; only the flags no package carries start afresh |
| PackagePattern.UpdateKeepsIdentity | src/Agent_Synchronisation_Package_Pattern.cpp:289-321 | an update keeps the agent's kind and key and takes the package's owning rank |
| PackagePattern.UpdateIdempotent | src/Agent_Synchronisation_Package_Pattern.cpp:289-321 | applying the same package twice leaves what applying it once leaves |
| PackagePattern.UpdateMirrorsOwner | src/Agent_Synchronisation_Package_Pattern.cpp:289-321 | a replica updated with its owner's package becomes the owner, owning rank included, except for the unpackaged flags, which the replica keeps |
| PackagePattern.ProvideContent | src/Agent_Synchronisation_Package_Pattern.cpp:225-230 | the output keeps what it held and gains one package per requested agent, in request order, each the package of the agent with that key |
| DataCollection.Selected | src/Data_Collection.cpp:35 | the selection holds exactly the local agents of the type asked for, and no more agents than there are |
| DataCollection.CountPassing | src/Data_Collection.cpp:39-47 | a count never exceeds the number of cells counted |
| DataCollection.CountPassingAppend | src/Data_Collection.cpp:39-47 | the count over two lists of cells one after the other is the sum of their counts |
| DataCollection.EpithelialCellsCount | src/Data_Collection.cpp:28-51 | the counting loop returns the number of local epithelial cells that are not dead |
| DataCollection.InfectedEpithelialCellsCount | src/Data_Collection.cpp:160-182 | the counting loop returns the number of local epithelial cells that are infected |
| DataCollection.DeadEpithelialCellsCount | src/Data_Collection.cpp:204-226 | the counting loop returns the number of local epithelial cells that are dead |
| DataCollection.VirionsCount | src/Data_Collection.cpp:73-81 | the number of local type-1 agents, whatever their state: 0 exactly when there is none |
| DataCollection.InnateImmuneCellsCount | src/Data_Collection.cpp:102-110 | the number of local type-2 agents: 0 exactly when there is none |
| DataCollection.SpecialisedImmuneCellsCount | src/Data_Collection.cpp:131-139 | the number of local type-3 agents: 0 exactly when there is none |
| DataCollection.SelectedCellsAreEpithelial | src/Data_Collection.cpp:35-43 | every selected type-0 agent is an epithelial cell when every agent's object is of its type's kind |
| DataCollection.AliveAndDeadPartition | src/Data_Collection.cpp:28-51 | the alive and the dead epithelial counts add up to the number of epithelial cells |
| DataCollection.InfectedAmongAlive | src/Data_Collection.cpp:160-182 | the infected count never exceeds the alive count |
| DataCollection.CountersAgree | src/Data_Collection.cpp:28-226 | over the local agents, alive plus dead epithelial cells are all the epithelial cells, and the infected ones are among the alive |
| DataCollection.SelectedStep | src/Data_Collection.cpp:35 | the first agent is selected exactly when it has the type |
| DataCollection.SelectionsWithinTotal | src/Data_Collection.cpp:248-256 | the four per-type selections together never exceed the local agents, and are exactly them when every type is 0 to 3 |
| DataCollection.KindCountsWithinTotal | src/Data_Collection.cpp:248-256 | the epithelial, virion, innate and specialised counts together never exceed the total count, and equal it when every type is 0 to 3 |
| Spawning.UniformInt | src/Virus_Cell_Model.cpp:250-251 | an integer uniform generator on [lo, hi] gives a value in [lo, hi], both ends included |
| Spawning.RandomPlacement | src/Virus_Cell_Model.cpp:393-400 | a drawn placement lies in the rank's region: each coordinate is the origin plus an offset below its extent |
| Spawning.GridPointOfIndex | src/Virus_Cell_Model.cpp:194-201 | the cell init lays at column x and row y gets index x times the y extent plus y, and the grid point of that index is (origin x + x, origin y + y) |
| Spawning.NewEpithelialCell | src/Virus_Cell_Model.cpp:231-321 | an initial cell has id (index, rank, 0) owned by this rank, is healthy and seemingly healthy, has an age up to its lifespan and a division timer up to its division rate, lifespans and rates of at least 1, display and release delays of at least 1 (the exit test as written does not order them), a release rate of at least 0.1, and nothing pending |
| Spawning.Revived | src/Virus_Cell_Model.cpp:325-336 | division keeps the revived cell's identity and resets it to a healthy, seemingly healthy cell of age 0 with no infection time, division timer, release count or remainder, no pending request, and fresh delays of at least 1 and a release rate of at least 0.1 |
| Spawning.NewVirion | src/Virus_Cell_Model.cpp:345-379 | a new virion has id (index, rank, 1), is free, has a lifespan of at least 1 and an age up to it, and a released one is of age 0 |
| Spawning.NewInnateCell | src/Virus_Cell_Model.cpp:410-443 | a new innate cell has id (id, rank, 2), is healthy with a lifespan of at least 1 and an age up to it, a recruited one is of age 0, and it has nothing to recruit |
| Spawning.NewSpecialisedCell | src/Virus_Cell_Model.cpp:463-492 | a new specialised cell has id (id, rank, 3), is healthy with a lifespan of at least 1, is of age 0 even when initial because the drawn age is discarded, and has nothing to recruit |
| Spawning.Made | src/Virus_Cell_Model.cpp:712 | an agent made for a batch carries the id issued, is owned by this rank and is of the kind its type names |
| Spawning.BatchKeys | src/Virus_Cell_Model.cpp:751-754 | a batch holds exactly the keys of this rank's agents of its type with ids first to first + n - 1 |
| Spawning.BatchValues | src/Virus_Cell_Model.cpp:751-754 | the agent with id first + j is the one made with the j-th set of generated values |
| Spawning.BatchIs | src/Virus_Cell_Model.cpp:751-754 | a batch is exactly its keys, each mapped to the agent made for it |
| Spawning.BatchOneMore | src/Virus_Cell_Model.cpp:775-778 | one more pass adds one entry under the next id, made with the next generated values |
| Spawning.RecruitPlacesOneMore | src/Virus_Cell_Model.cpp:775-778 | one more pass places one more cell under the next id, at the next drawn place |
| Spawning.RecruitPlacesAre | src/Virus_Cell_Model.cpp:446-455 | recruited cells are placed exactly under the batch's keys, each inside the region's columns; innate cells (and any type but 3) inside the region, specialised cells within the first x-extent rows from the region's origin, as the placement as written draws them |
| Spawning.SpecialisedPlacementAsWritten | src/Virus_Cell_Model.cpp:497-504 | a specialised cell lands inside the region's columns, and in a row from the region's origin up to its x extent, not its y extent |
| Spawning.EarlyReleaseDisplaysBeforeDisplayDelay | src/Epithelial_Cell_Agent.cpp:255-264 | a cell accepted with release delay 1.5 under display delay 3 displays viral proteins after two ticks of infection, before its display delay is reached, because release sets the display state |
| Spawning.IntendedReleaseFollowsDisplay | src/Virus_Cell_Model.cpp:294-300 | with the intended exit test, every new cell's release delay exceeds its display delay, which is at least 1 |
| Spawning.BatchAgentsAreNew | src/Virus_Cell_Model.cpp:706-778 | every released virion or recruited cell is free or healthy, of age 0, with nothing to recruit, and of the spawn's kind |
| Spawning.AllAt | src/Virus_Cell_Model.cpp:706-713 | every released virion is placed at the releasing cell's grid point |
| Spawning.ReleaseDelayGuardAsWrittenAcceptsEarlyRelease | src/Virus_Cell_Model.cpp:294-300 | the exit test as written lets a release delay of 1.5 through under a display delay of 3, which the intended test refuses |
| Spawning.ReleaseDelayGuards | src/Virus_Cell_Model.cpp:294-300 | the test as written accepts exactly the delays that are at least 1 or exceed the display delay; the intended test exactly those that are both |
| Spawning.SpecialisedPlacementAsWrittenLeavesRegion | src/Virus_Cell_Model.cpp:497-504 | on a 4 by 2 region, a y draw of 0.9 puts a specialised cell at row 3, outside the region, where the corrected placement stays inside |
| Spawning.SpecialisedPlacementAsWrittenOnTallRegions | src/Virus_Cell_Model.cpp:497-504 | on a region at least as high as it is wide, the placement as written stays in the region |
| Reconciliation.LocalOfType | src/Virus_Cell_Model.cpp:808 | a key is selected exactly when it is owned and of the type asked for |
| Reconciliation.Divided | src/Virus_Cell_Model.cpp:611-644 | a division changes the requester's target only, and only when the requester asks to divide and its target is a real id of an epithelial cell owned by this rank and dead; then the target keeps its identity and becomes a healthy, seemingly healthy cell of age 0 with nothing pending; otherwise the store is unchanged |
| Reconciliation.Infected | src/Virus_Cell_Model.cpp:656-686 | an infection changes the requester's target only, and only when the requester asks to infect and is infected and its target is a real id of a healthy epithelial cell owned by this rank; then the target's only change is becoming infected; otherwise the store is unchanged |
| Reconciliation.ApplyEffect | src/Virion_Agent.cpp:190-197 | an infect or eliminate effect changes only the epithelial cell it names: infect() makes it infected, eliminate() dead and deadCell; no other agent changes |
| Reconciliation.Reported | src/Virion_Agent.cpp:100-102 | a grid query reports only stored agents among the keys asked for, as neighbours |
| Reconciliation.OwnStep | src/Virus_Cell_Model.cpp:553-555 | an agent's step keeps its kind and identity, and an epithelial cell's step affects no other agent and never moves |
| Reconciliation.AgentStep | src/Virus_Cell_Model.cpp:553-555 | a step keeps the store's keys and moves no agent but the stepping one, and an epithelial cell not at all |
| Reconciliation.AgentStepKeepsStore | src/Virus_Cell_Model.cpp:553-555 | besides the stepping agent, which keeps its kind and identity, a step changes only epithelial cells, and it keeps every agent under its own key |
| Reconciliation.FloorRecruits | src/Virus_Cell_Model.cpp:812-823 | from n local innate cells at or under the floor the loop creates exactly enough to reach the floor plus 2, and none above the floor |
| Reconciliation.BatchIsFresh | src/Virus_Cell_Model.cpp:706-778 | a batch issued above the counter holds no key the store already has |
| Reconciliation.BatchSize | src/Virus_Cell_Model.cpp:706-778 | a batch of n passes adds exactly n agents |
| Reconciliation.BatchKeepsIdsBelow | src/Virus_Cell_Model.cpp:712 | after a batch, every id the rank issued is still below its counter, the virion counter being pre-incremented and the others post-incremented |
| Reconciliation.LocalOfTypeAdd | src/Virus_Cell_Model.cpp:808-823 | owning one more key of a type adds one to that type's local count |
| Reconciliation.LocalOfTypeRemove | src/Virus_Cell_Model.cpp:835-839 | removing one owned key of a type takes one from that type's local count |
| Reconciliation.LocalOfTypeUnion | src/Virus_Cell_Model.cpp:808-823 | owning new keys of a type adds their number to that type's local count |
| Reconciliation.LocalOfTypeBatch | src/Virus_Cell_Model.cpp:808-823 | owning the first j agents of a new batch adds j to the local count of its type |
| Reconciliation.GrewTwice | src/Virus_Cell_Model.cpp:548-583 | two changes of the store that each keep the replicas, lose only removable owned agents and add only new keys of this rank compose into one such change |
| Reconciliation.GrewByBatch | src/Virus_Cell_Model.cpp:706-778 | owning a new batch is such a change, with nothing removed |
| Reconciliation.OnlyEpithelialChangedTwice | src/Virus_Cell_Model.cpp:538-545 | two passes that each change only epithelial cells, which stay epithelial cells, compose into one |
| VirusCellModels.VirusCellModel.constructor | src/Virus_Cell_Model.cpp:19-37 | a new model holds no agents, owns none, has drawn nothing and has every id counter at 0, and is consistent |
| VirusCellModels.VirusCellModel.Add | src/Virus_Cell_Model.cpp:316-321 | adding an agent stores it under its key, owns it and places it, keeping the store consistent |
| VirusCellModels.VirusCellModel.InitialiseEpithelialCellAgent | src/Virus_Cell_Model.cpp:231-338 | with no existing object, a new initial cell with id index is stored, owned and placed at (x, y) of the region; with an existing one, that cell is revived in place and nothing else changes; either way one set of values is drawn |
| VirusCellModels.VirusCellModel.InitialiseVirionAgent | src/Virus_Cell_Model.cpp:345-403 | a new free virion with id index is stored and owned, placed at (x, y) when released and at a drawn point of the region otherwise |
| VirusCellModels.VirusCellModel.InitialiseInnateImmuneCellAgent | src/Virus_Cell_Model.cpp:410-456 | a new healthy innate cell with the given id is stored and owned at a drawn point of the region |
| VirusCellModels.VirusCellModel.InitialiseSpecialisedImmuneCellAgent | src/Virus_Cell_Model.cpp:463-505 | a new healthy specialised cell of age 0 with the given id is stored and owned at the point the placement as written draws, one draw consumed |
| VirusCellModels.VirusCellModel.CheckForCellDivision | src/Virus_Cell_Model.cpp:611-644 | the store becomes the division of the requester's target, grid and owned keys unchanged, and values are drawn exactly when the division applies; the whole new state is the division snapshot of the old one |
| VirusCellModels.VirusCellModel.CheckForCellToCellInfection | src/Virus_Cell_Model.cpp:656-686 | the store becomes the infection of the requester's target, and nothing else changes |
| VirusCellModels.VirusCellModel.CheckForCellVirionRelease | src/Virus_Cell_Model.cpp:694-714 | as many new free virions of age 0 as the cell's count to release are stored, owned and placed at the cell's grid point, under the ids from the virion counter plus 1 on (pre-increment); the counter and the draw index advance by that count; nothing else changes, so the new state is the release snapshot of the old one |
| VirusCellModels.VirusCellModel.ReleaseFromCell | src/Virus_Cell_Model.cpp:694-714 | the release loop's effect field by field: the batch of released virions is new to the store, joins the store, the owned keys and the grid at the cell's point, and the virion counter and draw index advance by its size |
| VirusCellModels.VirusCellModel.ReleaseVirions | src/Virus_Cell_Model.cpp:706-713 | the release loop leaves the state of all its passes: the batch stored, owned and placed at the cell's point |
| VirusCellModels.VirusCellModel.ReleaseNextVirion | src/Virus_Cell_Model.cpp:712 | one pass adds the batch's next virion |
| VirusCellModels.VirusCellModel.CheckForSpecialisedImmuneCellRecruitement | src/Virus_Cell_Model.cpp:722-756 | as many new specialised cells as the recruiter's count (none for a type other than 2 or 3) are stored, owned and placed where the placement as written draws them, under the ids from the specialised counter on (post-increment); the counter and the draw index advance by that count; nothing else changes |
| VirusCellModels.VirusCellModel.CheckForInnateImmuneCellRecruitment | src/Virus_Cell_Model.cpp:764-779 | as many new innate cells as the recruiter's count are stored, owned and placed at their drawn points, under the ids from the innate counter on; the counter and the draw index advance by that count; nothing else changes |
| VirusCellModels.VirusCellModel.RecruitSpecialisedCells | src/Virus_Cell_Model.cpp:751-754 | the recruitment loop leaves the state of all its passes |
| VirusCellModels.VirusCellModel.RecruitNextSpecialisedCell | src/Virus_Cell_Model.cpp:753 | one pass adds the batch's next specialised cell |
| VirusCellModels.VirusCellModel.RecruitInnateCells | src/Virus_Cell_Model.cpp:775-778 | the recruitment loop leaves the state of all its passes |
| VirusCellModels.VirusCellModel.RecruitNextInnateCell | src/Virus_Cell_Model.cpp:777 | one pass adds the batch's next innate cell |
| VirusCellModels.VirusCellModel.RemoveLocalAgentIfDead | src/Virus_Cell_Model.cpp:790-839 | an agent that is not to be removed leaves everything unchanged; a dead virion or specialised cell leaves the store, the owned keys and the grid; before a dead innate cell leaves, FloorRecruits new innate cells are recruited, so afterwards the rank owns floor + 1 innate cells, or one fewer than before when it was above the floor |
| VirusCellModels.VirusCellModel.RemoveAgent | src/Virus_Cell_Model.cpp:835-839 | the agent leaves the store, the owned keys and the grid |
| VirusCellModels.VirusCellModel.RecruitToInnateFloor | src/Virus_Cell_Model.cpp:808-823 | from n owned innate cells the floor loop recruits FloorRecruits(n, floor) new ones, stored, owned and placed, and the owned innate count grows by exactly that |
| VirusCellModels.VirusCellModel.RefillInnateCells | src/Virus_Cell_Model.cpp:817-821 | the floor loop runs exactly FloorRecruits passes |
| VirusCellModels.VirusCellModel.RefillPass | src/Virus_Cell_Model.cpp:819-820 | one pass reselects, seeing the count before this pass's recruit, and adds one innate cell |
| VirusCellModels.VirusCellModel.StepAgent | src/Virus_Cell_Model.cpp:555 | the store and the grid become what the agent's step makes of them, and the owned keys, counters and draw index do not change |
| VirusCellModels.VirusCellModel.ServeBufferZone | src/Virus_Cell_Model.cpp:529-545 | the new state is that of serving the replicas in the zone's order, each by its division then its infection; every key, the owned keys and the grid are kept, and only epithelial cells change |
| VirusCellModels.VirusCellModel.ServeReplica | src/Virus_Cell_Model.cpp:540-544 | the store becomes the infection of the division of the replica's targets, one draw taken exactly when the division applies, and only epithelial cells change |
| VirusCellModels.VirusCellModel.CarryOutRequests | src/Virus_Cell_Model.cpp:558-575 | the new state is that of the requests the agent's type makes (none for a virion); they only add new agents this rank issues, never remove one, and never lower a counter |
| VirusCellModels.VirusCellModel.EpithelialRequests | src/Virus_Cell_Model.cpp:558-564 | the new state is the division, then the release, then the infection of the old one; they only add new agents this rank issues |
| VirusCellModels.VirusCellModel.InnateRequests | src/Virus_Cell_Model.cpp:565-570 | the new state is innate recruitment, then specialised recruitment, of the old one; they only add new agents this rank issues |
| VirusCellModels.VirusCellModel.SpecialisedRequests | src/Virus_Cell_Model.cpp:571-575 | the new state is specialised recruitment of the old one; it only adds new agents this rank issues |
| VirusCellModels.VirusCellModel.ActLocalAgent | src/Virus_Cell_Model.cpp:553-583 | the new state is the agent's step, then its requests, then (unless it is an epithelial cell) its removal if dead; the turn keeps the replicas, adds only new agents of this rank, and removes at most the agent itself |
| VirusCellModels.VirusCellModel.RetireIfDead | src/Virus_Cell_Model.cpp:578-582 | the new state is the removal of the agent when it is to be removed (after the floor loop's recruits for an innate cell), else the old one; it removes at most the agent itself and adds only new agents of this rank |
| VirusCellModels.VirusCellModel.RemovalGrew | src/Virus_Cell_Model.cpp:790-839 | each outcome of the removal check is a change of the store that removes at most the checked agent |
| VirusCellModels.VirusCellModel.ActLocalAgents | src/Virus_Cell_Model.cpp:548-583 | the new state is that of the agents' turns in the given order; the pass keeps the replicas, adds only new agents of this rank, and stops owning only agents of the order that are not epithelial cells |
| VirusCellModels.VirusCellModel.ExecuteTimestep | src/Virus_Cell_Model.cpp:527-583 | the new state is the buffer-zone pass followed by every owned agent's turn in the given order; a tick keeps the replicas' keys and every owned epithelial cell, adds only new agents under keys this rank issued, never lowers a counter, and leaves the model consistent |
| VirusCellModels.VirusCellModel.Init | src/Virus_Cell_Model.cpp:189-224 | init owns one epithelial cell per grid point of the region, the cell with index i at column i / extentY and row i % extentY, then the configured numbers of virions, innate and specialised cells under ids 0, 1, ...; every agent is unharmed and every counter stands at its number seeded |
| VirusCellModels.VirusCellModel.LayColumn | src/Virus_Cell_Model.cpp:197-201 | the inner loop lays the column's cells and advances the index by the y extent |
| VirusCellModels.VirusCellModel.LayCell | src/Virus_Cell_Model.cpp:199-200 | one pass lays the cell with the next index at its grid point |
| VirusCellModels.VirusCellModel.SeedVirion | src/Virus_Cell_Model.cpp:205-209 | one pass seeds virion i and moves the counter past it |
| VirusCellModels.VirusCellModel.SeedInnateCell | src/Virus_Cell_Model.cpp:212-216 | one pass seeds innate cell i and moves the counter past it |
| VirusCellModels.VirusCellModel.SeedSpecialisedCell | src/Virus_Cell_Model.cpp:219-223 | one pass seeds specialised cell i and moves the counter past it |
| VirusCellModels.VirusCellModel.PopulatedIsValid | src/Virus_Cell_Model.cpp:189-224 | the state init builds is consistent: every id lies below its counter |
| VirusCellModels.VirusCellModel.UpdateAgent | src/Agent_Synchronisation_Package_Pattern.cpp:289-321 | the agent stored under the package's key takes the package's values; nothing else changes |
| VirusCellModels.VirusCellModel.ReceiveAgent | src/Agent_Synchronisation_Package_Pattern.cpp:254-282 | the agent created from the package is stored under its key at the point it arrives at, owned exactly when it moved to this rank |

## Left out

- Repast HPC's balancing and synchronisation machinery: moving agents between ranks, projection and buffer-zone synchronisation, and the MPI traffic. Their effect on the rank appears only as `VirusCellModels.VirusCellModel.ReceiveAgent` and `VirusCellModels.VirusCellModel.UpdateAgent` applied to a package.
- Grid wrap-around and the grid's own bookkeeping. A move is applied to the agent's point as an offset. The grid queries are inputs.
- Floating point: probabilities, delays and rates are reals. Truncating casts are written out as `Common.Trunc`.
- The random generators' distributions (normal and uniform) and the rejection loops that redraw until a value is accepted. Each initialise call consumes one accepted draw from a given stream.
- The `getAgent` null-pointer guards and the failed-cast guards that only print a message. Where the source would dereference a missing agent, the model leaves the store unchanged.
- The Repast `selectAgents` call used by the innate-cell floor loop. That loop is modelled with each re-selection replacing the vector's contents.
- Getters that only read a field. Destructors, `printEndOfTimestep`, the data-set output files, the properties file and the scheduling of ticks.
- VirusCellModels.VirusCellModel.Init: states the ids, grid points, health and draw accounting of every seeded agent, not each drawn lifespan or delay.
- InnateCells.InnateImmuneCellAgent.constructor: the innate cell source file is older than its call sites. The signature comes from the call in src/Virus_Cell_Model.cpp, and the recruit counts and remainders start at 0.
- SpecialisedCells.SpecialisedImmuneCellAgent.constructor: the same holds as for the innate cell constructor.
- Recruit counts and remainders of the immune cells: no visible code computes them. A step leaves them unchanged, and the recruitment loops read them.
- VirusCellModels.VirusCellModel.UpdateAgent: requires the package's key to be stored. The source dereferences the lookup result as it is.
- VirusCellModels.VirusCellModel.ReceiveAgent: requires that an agent this rank issued carries an id below the matching counter, and that an owned epithelial cell arrives inside the region. Both are invariants of the whole simulation across ranks.
- Reconciliation.ApplyEffect: an infection or elimination whose target is not in the store leaves the store alone. In the source it would dereference a missing pointer.
- PackagePattern.CreateAgent: requires the package's state codes to be in range. The source casts any integer to its enums.
- VirusCellModels.VirusCellModel.Valid: also asks that the configured innate-cell floor is not negative. The source reads it from the properties file without validating it.

## Findings

| source | as written | input that shows it | evidently intended | confidence | as-written member | corrected member |
|---|---|---|---|---|---|---|
| src/Virus_Cell_Model.cpp:297 | the release-delay redraw loop runs while the delay is below 1 **and** not above the display delay, so it accepts a delay of at least 1 that does not exceed the display delay | display delay 3.0, release delay 1.5: accepted; once infected for more than 1.5 ticks the cell starts releasing and, since release also sets the display state (src/Epithelial_Cell_Agent.cpp:262-264), displays viral proteins before its display delay of 3 is reached | redraw while the delay is below 1 **or** not above the display delay; the comment at :294 asks for a release delay larger than the display delay | not executed | Spawning.ReleaseDelayGuardAsWrittenAcceptsEarlyRelease, Spawning.EarlyReleaseDisplaysBeforeDisplayDelay | Spawning.IntendedReleaseFollowsDisplay |
| src/Virus_Cell_Model.cpp:499-500 | the specialised cell's y coordinate is drawn from 0 to the x extent minus 1 | a region 4 wide and 2 high with a y draw of 0.9: row 3, outside the region | draw y from 0 to the y extent minus 1, as for the innate cell at :450 | not executed | Spawning.SpecialisedPlacementAsWrittenLeavesRegion | Spawning.RandomPlacement |

The model runs both pieces of code as written: `Spawning.Accepted` uses the
release-delay test as written, and specialised cells are placed by
`Spawning.SpecialisedPlacementAsWritten`. The corrected members state what the
intended code would guarantee.

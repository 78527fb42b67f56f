# Philosopher: FDR filtering and evidence synchronisation, in Dafny

This project models the two in-memory cores of Philosopher's post-search pipeline, and proves what they compute.

**Target/decoy filtering (`lib/fil/fil.go`)**
- The empirical FDR sweep `pepXMLFDRFilter` works at the PSM, peptide and ion levels.
- The grouping helpers that feed it group PSMs by spectrum, sequence and ion.
- The charge and protein profiles count targets and decoys.
- `pickedFDR` is target/decoy competition by protein name.
- `RazorFilter` assigns razor peptides and computes `TopPepProb`.
- `ProtXMLFilter` is the protein-level sweep, with its one-level extension and its non-convergence error.
- Two second-pass helpers are modelled: `extractPSMfromPepXML` and `mirrorProteinList`.
- So are the compositions that chain all of these: `processPeptideIdentifications`, `sequentialFDRControl`, `twoDFDRFilter` and `processProteinIdentifications`.

**Evidence updates (`lib/rep/updater.go`)**
- The `Evidence` report object holds four parallel lists: PSMs, ions, peptides and proteins.
- `SyncPSMToProteins` rebuilds protein statistics and compacts all four lists in place.
- `UpdateIonStatus` and `ApplyRazorAssignment` move entries onto their razor proteins and keep the `MappedProteins` bookkeeping.
- `SyncPSMToPeptides`, `SyncPSMToPeptideIons`, `UpdatePeptideModCount`, `UpdateIonModCount` and `UpdateNumberOfEnzymaticTermini` recount the evidence.

**Modelling conventions**
- Scores are `real`.
- The 4-digit rounding `utils.ToFixed(x, 4)` is a function parameter `round`. So are the decoy tests `clas.IsDecoyPSM` and `clas.IsDecoyProtein`; the protein test looks only at the protein name.
- Zero targets: when no target is left at a score level, the source divides by zero. That level's ratio is `None` here, and it never qualifies.
- Composite `#`-joined string keys become tuples. The one exception is the PSM ion key `%s#%d#%.4f`: its mass part is the four-decimal text of the mass, given by the parameter `massText`, so two masses that print alike fall into one ion.
- Go map iteration order is a nondeterministic choice. Results built by iterating over a map are stated as multisets (`Seqs.Pool`).
- `sort.Sort` on the identification lists uses a comparator that is not part of this model. The sweeps require the list to be sorted by descending score. `Seqs.SortByScore` (a stable insertion sort) stands in where the pipelines sort.

**Form of the model**
- The filters are methods with loop invariants, proved equal to specification functions.
- `pickedFDR` and `RazorFilter` update an `array<ProteinGroup>` in place, as the source updates `p.Groups`.
- `Updater.Evidence` is a class whose methods reassign its four list fields. Each method is proved equal to a specification function on `EvidenceState`, and the properties are proved about those functions.

**Several razor proteins per peptide.** The code can give one peptide several razor proteins: every reference with a better group weight, or an equal group weight and a better weight, is appended. `Razor.TwoRazorProteins` gives an input where two proteins get the same peptide. The model follows the code.

## Model

| member | source | states |
|---|---|---|
| Fdr.ScoreMap | lib/fil/fil.go:500-512 | The bottom-up walk records, for every distinct score of the sorted list, decoys/targets over the records scoring at least that score (`None` without targets); the keys are exactly the scores present |
| Fdr.SortedKeys | lib/fil/fil.go:514-519 | The score levels come out strictly descending, each key exactly once |
| Fdr.SelectLevels | lib/fil/fil.go:521-534 | `probList` is exactly the set of levels whose rounded ratio is at most `targetFDR` |
| Fdr.CleanList | lib/fil/fil.go:536-550 | The final pass keeps, in list order, exactly the records whose score is an admitted level |
| Fdr.SweepFilter | lib/fil/fil.go:498-550 | Walk, selection and final pass together return `Kept`: the sorted list restricted to admitted levels (not necessarily a prefix) |
| Fdr.SelectedAdmitted | lib/fil/fil.go:500-534 | Selecting over the sorted keys of the score map admits exactly the levels whose FDR over the records at or above them qualifies |
| Fdr.SweepPrefix | lib/fil/fil.go:502-506 | In a list sorted by descending score, the records scoring at least `list[j]` are the prefix up to the last record of that score |
| Fdr.NewLevel | lib/fil/fil.go:502-506 | When the walk first meets a score, the records not yet passed are exactly those at or above it, so the recorded ratio is that level's FDR |
| Fdr.ScoreMapStep | lib/fil/fil.go:502-511 | One step of the walk keeps the map equal to the ratios of the levels passed so far |
| Fdr.CountStep | lib/fil/fil.go:507-511 | Passing a record decrements the decoy count when it is a decoy and the target count otherwise |
| Fdr.KeepRule | lib/fil/fil.go:528-550 | A record is in the output iff the rounded FDR of its score level is at most the target; every copy of a qualifying record is kept and no copy of another |
| Fdr.SameScoreSameFate | lib/fil/fil.go:541-543 | Records sharing a score are kept or dropped together |
| Fdr.MonotoneInTarget | lib/fil/fil.go:528 | Raising `targetFDR` never removes a level or a record, whatever the rounding function |
| Fdr.PermutationInvariant | lib/fil/fil.go:498-550 | The admitted levels and the kept multiset depend only on the multiset of input records, not on map order or tie order |
| Fdr.KeptSorted | lib/fil/fil.go:540-550 | The output of a sorted list is sorted |
| Fdr.NothingQualifies | lib/fil/fil.go:536-559 | When no level qualifies the output is empty (and no error is raised) |
| Seqs.SortByScore | lib/fil/fil.go:498 | The stand-in sort returns a permutation of its input, sorted by descending score |
| Grouping.GroupInto | lib/fil/fil.go:386-388 | The `append` loop builds the grouping of the PSMs by key, each group in input order |
| Grouping.SortGroups | lib/fil/fil.go:412-414 | Sorting every group keeps the keys and orders each group by descending probability |
| Grouping.GroupByGroups | lib/fil/fil.go:382-391 | The grouping has one non-empty group per key that occurs, holding exactly the PSMs with that key |
| Grouping.GetUniquePSMs | lib/fil/fil.go:382-391 | The PSMs of each spectrum, in input order, each group being the input filtered by its spectrum |
| Grouping.SortedGroups | lib/fil/fil.go:429-431 | Sorting the groups keeps their meaning and puts each group's best PSM first |
| Grouping.GetUniquePeptides | lib/fil/fil.go:420-434 | The PSMs of each peptide sequence, best first |
| Grouping.ExtractIonsFromPSMs | lib/fil/fil.go:394-417 | The PSMs of each ion, keyed by sequence, charge and the mass printed with four decimals, best first |
| Grouping.GroupHeadIsBest | lib/fil/fil.go:402-417 | The first PSM of a sorted group scores at least as high as every PSM with that key |
| Grouping.ChargeProfile | lib/fil/fil.go:362-379 | Targets and decoys (protein containing the tag) among the PSMs of one charge; together all PSMs of that charge; error iff either count is below 1 |
| PepFilter.ParseLevel | lib/fil/fil.go:448-496 | The level is matched case-insensitively; PSM first; `None` exactly when it is none of PSM, Peptide, Ion |
| PepFilter.AppendCounting | lib/fil/fil.go:451-459 | Appending records one at a time keeps `targets` and `decoys` equal to the counts of the list |
| PepFilter.PoolAll | lib/fil/fil.go:448-460 | The PSM branch pools every entry of every group, with exact target and decoy counts |
| PepFilter.PoolHeads | lib/fil/fil.go:462-492 | The Peptide and Ion branches pool the first entry of every group, with exact counts |
| PepFilter.Heads | lib/fil/fil.go:465-467 | The first entry of each group is collected once per group, in whatever order the map loop visits them |
| PepFilter.PepXMLFDRFilter | lib/fil/fil.go:437-560 | An unknown level gives the error and an empty list; otherwise no error, the pool is the level's selection from the groups, and the output is the sweep of the sorted pool, itself sorted |
| PepFilter.LevelPool | lib/fil/fil.go:448-492 | At the PSM level a record is pooled iff it is in some group; at the other levels iff it is the first entry of some group |
| PepFilter.FilterOrderIndependent | lib/fil/fil.go:451-550 | The kept multiset does not depend on the order the map loop visited the groups in |
| Picked.NameScoresHas | lib/fil/fil.go:645-653 | A name is in the target (decoy) score map iff some protein of that class carries it |
| Picked.NameScoresLast | lib/fil/fil.go:645-653 | Each name maps to the first-ion probability of the last protein carrying it |
| Picked.ScoresDisjoint | lib/fil/fil.go:647-651 | No name is both in the target map and in the decoy map |
| Picked.CollectGroup | lib/fil/fil.go:646-652 | The inner loop over a group's proteins extends both score maps by that group's proteins |
| Picked.CollectScores | lib/fil/fil.go:645-653 | The score maps are those of all proteins of all groups in group order |
| Picked.RecordUnpairedTargets | lib/fil/fil.go:656-662 | Exactly the targets without a tag+name decoy get 1 |
| Picked.RecordUnpairedDecoys | lib/fil/fil.go:665-671 | Every decoy whose tag-stripped name is no target gets 1; other entries are kept |
| Picked.RecordUnpaired | lib/fil/fil.go:656-671 | The first two loops record exactly the unpaired entries |
| Picked.PairOne | lib/fil/fil.go:675-688 | One pass of the pairing loop records target `k` and its decoy as the competition says |
| Picked.RecordPaired | lib/fil/fil.go:674-689 | After the pairing loop the record holds the competition result for every target |
| Picked.BuildRecord | lib/fil/fil.go:640-689 | The record map has a name iff its specified value exists, and holds that value |
| Picked.ApplyRecord | lib/fil/fil.go:692-699 | Every protein named in the record map gets its `Picked` value in place; everything else is unchanged |
| Picked.PickedFDR | lib/fil/fil.go:637-702 | In place: each protein's `Picked` becomes the record value of its name when there is one, and nothing else changes |
| Picked.PairCompetition | lib/fil/fil.go:674-689 | Within a pair the higher score gets 1 and the other 0; an exact tie gives both 1; one of the two always gets 1 |
| Picked.UnpairedTargetPicked | lib/fil/fil.go:656-662 | A target without a decoy partner gets 1 |
| Picked.UnpairedDecoyPicked | lib/fil/fil.go:665-671 | An unpaired decoy gets 1 when its tag-stripped name is no target, and is left out of the record map otherwise |
| Picked.AbsentKeepsPicked | lib/fil/fil.go:692-699 | A protein whose name is in neither map keeps its previous `Picked` |
| Picked.RecordValues | lib/fil/fil.go:656-689 | Every recorded value is 0 or 1, and only names from the two maps are recorded |
| Strs.RemoveTagPrefix | lib/fil/fil.go:666 | Removing the tag from tag+name gives the name back when the name does not contain the tag |
| Razor.AddProteinRefs | lib/fil/fil.go:716-733 | The innermost loop appends the references of one protein's ions to their peptides' lists |
| Razor.AddGroupRefs | lib/fil/fil.go:715-734 | The middle loop appends the references of one group |
| Razor.BuildRefMap | lib/fil/fil.go:714-735 | `refMap` groups all references of all groups by peptide sequence, in loop order |
| Razor.AllRefsHas | lib/fil/fil.go:714-735 | Every ion of every protein has its reference in the list the map is built from |
| Razor.InRefMap | lib/fil/fil.go:730 | A reference is listed under its own peptide sequence |
| Razor.ScanPeptide | lib/fil/fil.go:749-815 | The scan of one peptide's references gives the winners and the checked keys of `ScanAll` |
| Razor.PeptideWinners | lib/fil/fil.go:738-818 | Whatever order the peptides are visited in, each gets the winners of its own scan |
| Razor.ScanGrows | lib/fil/fil.go:749-815 | The scan only appends winners and only checks more keys, each new key being a scanned reference's |
| Razor.ScanPrefix | lib/fil/fil.go:749-815 | The winners of a prefix of the references are a prefix of the winners |
| Razor.ScanIndependent | lib/fil/fil.go:738-818 | Keys checked for other peptides do not change a peptide's winners |
| Razor.HighWeightWins | lib/fil/fil.go:771-779 | Every reference with weight above 0.5 is a winner |
| Razor.LowWeightOnce | lib/fil/fil.go:780-811 | On the weight-at-most-0.5 path at most one reference per (sequence, charge, mass) is admitted |
| Razor.WinnersLowOnce | lib/fil/fil.go:780-811 | No two low-weight winners of a peptide share a (sequence, charge, mass) key |
| Razor.NonEmptyWinners | lib/fil/fil.go:782-790 | A peptide whose first reference has non-negative weights has a winner |
| Razor.TwoRazorProteins | lib/fil/fil.go:771-811 | A peptide in two groups (weights 0.3/0.7, group weights 0.6/0.4) gets both references as winners |
| Razor.FindRef | lib/fil/fil.go:838-844 | The search through the winners finds the reference iff it is one of them |
| Razor.MarkProtein | lib/fil/fil.go:821-847 | Ions whose reference won get `Razor = 1` and then the protein gets `HasRazor` |
| Razor.MarkGroup | lib/fil/fil.go:821-848 | Every protein of the group is marked |
| Razor.MarkRazor | lib/fil/fil.go:820-849 | In place, every group becomes its marked version |
| Razor.TopPepProbOf | lib/fil/fil.go:854-862 | The running maximum from 0 over razor-or-unique ions |
| Razor.TopGroup | lib/fil/fil.go:853-863 | Every protein of a group gets its `TopPepProb` |
| Razor.SetTopPepProb | lib/fil/fil.go:852-864 | In place, every protein gets its `TopPepProb` |
| Razor.TopProbIsMax | lib/fil/fil.go:852-864 | `TopPepProb` is at least 0, at least every razor-or-unique probability, and either 0 or one of them |
| Razor.RazorFilter | lib/fil/fil.go:705-867 | In place, every group is marked with the winners of the references of all groups, then gets its `TopPepProb` |
| Razor.HighWeightMarked | lib/fil/fil.go:771-849 | After the filter an ion with weight above 0.5 is razor, its protein has `HasRazor`, and its probability is at most `TopPepProb` |
| Razor.RazorGroupFacts | lib/fil/fil.go:820-864 | `HasRazor` is never cleared, and `TopPepProb` is the best razor-or-unique probability after marking, or 0 |
| ProtFilter.ProteinProfile | lib/fil/fil.go:621-634 | Decoys and targets of all proteins of all groups, adding up to the number of proteins |
| ProtFilter.ProteinProfileWithList | lib/fil/fil.go:1231-1242 | Decoys and targets of a protein list, adding up to its length |
| ProtFilter.EligibleOfGroup | lib/fil/fil.go:882-911 | One group's proteins are kept in order iff eligible under the razor/picked mode |
| ProtFilter.CollectEligible | lib/fil/fil.go:881-912 | The candidate list is the eligible proteins of all groups, in group order |
| ProtFilter.SelectProteinLevels | lib/fil/fil.go:948-974 | The qualifying levels, and `curProb`/`curScore` as the loop leaves them |
| ProtFilter.CurProbIsLowest | lib/fil/fil.go:948-974 | `curProb` is 10 or an admitted level, and no admitted level is lower |
| ProtFilter.CurScoreIsHighest | lib/fil/fil.go:949-974 | `curScore` is 0 or an admitted ratio, and no admitted ratio is higher |
| ProtFilter.FindLevel | lib/fil/fil.go:988-1003 | The search returns the first position of `curProb`, or runs past the end when it is absent |
| ProtFilter.ExtendLevels | lib/fil/fil.go:986-1005 | The extension adds the level after `curProb` when the best ratio is below the target and does not round to it, or indexes out of range |
| ProtFilter.ProtSweep | lib/fil/fil.go:914-1021 | Sweep, selection, extension and final pass over the sorted candidates give `SweepOutcome` |
| ProtFilter.ProtXMLFilter | lib/fil/fil.go:870-1031 | The filter returns the sweep outcome of the sorted eligible proteins: the kept list with the threshold error, or the out-of-range panic |
| ProtFilter.ProtSelection | lib/fil/fil.go:927-974 | Over the sorted levels the protein selection admits exactly the levels the peptide-style sweep admits |
| ProtFilter.ProtErrorIff | lib/fil/fil.go:976-979 | The "didn't reach the desired threshold" error is set iff no level below 10 is admitted |
| ProtFilter.LowestAdmitted | lib/fil/fil.go:962-968 | Once a level below 10 is admitted, `curProb` is the lowest admitted level |
| ProtFilter.ExtendShape | lib/fil/fil.go:986-1005 | When `curProb` is a level, the extension adds nothing or exactly the next lower level |
| ProtFilter.ExtendNextLevel | lib/fil/fil.go:986-1005 | The extension adds nothing or the highest level below every admitted level |
| ProtFilter.ProtExtension | lib/fil/fil.go:986-1021 | With some level admitted the filter does not panic, and keeps the sweep's output, possibly plus the proteins of the one level just below it |
| ProtFilter.ProtKeptWithoutExtension | lib/fil/fil.go:986-1021 | When the extension condition fails the filter keeps exactly what the peptide-style sweep keeps |
| ProtFilter.EmptyListPanics | lib/fil/fil.go:986-991 | With no candidate and a positive target that 0 does not round to, the guard of the extension indexes an empty list |
| ProtFilter.ProtKeptEligible | lib/fil/fil.go:881-922 | Every kept protein is an eligible protein of the groups, and the output is sorted by `TopPepProb` |
| Sequential.ProteinNames | lib/fil/fil.go:1135-1137 | `protmap` holds exactly the names of the protein list |
| Sequential.AddByAlternatives | lib/fil/fil.go:1146-1152 | A PSM is stored under its spectrum iff some alternative protein is in the list |
| Sequential.SpectrumFilter | lib/fil/fil.go:1139-1155 | `filterMap` maps each spectrum to its last PSM that maps into the list |
| Sequential.MapValues | lib/fil/fil.go:1175-1177 | The output holds the values of `filterMap`, once each, in map order |
| Sequential.ExtractPSMfromPepXML | lib/fil/fil.go:1128-1180 | The output is, as a multiset, one PSM per spectrum: the last one that maps into the protein list |
| Sequential.SpectrumMapLast | lib/fil/fil.go:1139-1155 | A spectrum is stored iff one of its PSMs maps into the list, and the stored PSM is the last such |
| Sequential.ExtractedPSMs | lib/fil/fil.go:1139-1177 | A PSM is output iff it is the last matching PSM of its spectrum, and no PSM is output twice |
| Sequential.TargetList | lib/fil/fil.go:1189-1194 | The target proteins of the input, in order |
| Sequential.NameIndex | lib/fil/fil.go:1206-1209 | `refMap` maps each name to a record of that name |
| Sequential.NameMapLast | lib/fil/fil.go:1206-1209 | A name is in `refMap` iff some record has it, and it maps to the last record of that name |
| Sequential.MirrorProteinList | lib/fil/fil.go:1183-1228 | The result is the targets followed by one partner per target; the appended partners are not visited again |
| Sequential.MirrorEntry | lib/fil/fil.go:1215-1225 | A target's partner is named tag+name; it is the listed record of that name when there is one, and a placeholder otherwise |
| Sequential.MirrorShape | lib/fil/fil.go:1189-1227 | The mirror is twice as long as the target list, starts with the targets, and its i-th partner is named tag + the i-th target's name |
| Sequential.MirrorPartners | lib/fil/fil.go:1215-1225 | Each partner is the protein of that name from the input when present, else a placeholder of that name |
| Sequential.MirrorDropsUnpaired | lib/fil/fil.go:1189-1227 | An input decoy that is no target's partner is not in the mirror |
| Pipelines.HeadPool | lib/fil/fil.go:462-491 | The first entries of the sorted groups are a best-scoring PSM of each key, one per key: no PSM is listed twice and no two share a key |
| Pipelines.BestOfEachPermutation | lib/fil/fil.go:1040-1044 | Whether a pool holds the best PSM of each key does not depend on the order of the PSMs |
| Pipelines.ProcessPeptideIdentifications | lib/fil/fil.go:287-359 | The PSM, peptide and ion lists are the sweeps of the whole input and of one best PSM per sequence and one per ion |
| Pipelines.LevelsFromInput | lib/fil/fil.go:330-356 | Every PSM in the three filtered lists comes from the input |
| Pipelines.SequentialFDRControl | lib/fil/fil.go:1035-1071 | The second pass filters, at three levels, the PSMs that map into the protein list, one per spectrum |
| Pipelines.LevelsPermutation | lib/fil/fil.go:1040-1044 | The three filtered lists depend only on which PSMs the input holds, not on their order |
| Pipelines.SecondPassMapped | lib/fil/fil.go:1037-1068 | Every PSM kept by the second pass is the last PSM of its spectrum that maps into the protein list |
| Pipelines.TwoDFDRFilter | lib/fil/fil.go:1075-1124 | The 2D pass runs the second pass against the target/decoy mirror of the protein list |
| Pipelines.MirrorNames | lib/fil/fil.go:1079-1090 | The mirror's names are exactly the targets' names and tag + each target's name |
| Pipelines.ProcessProteinIdentifications | lib/fil/fil.go:583-618 | The groups are picked and then razored in place as the mode asks, and the result is `ProtXMLFilter` on them |
| InPlace.KeptIndices | lib/rep/updater.go:333-338 | The index loop collects, increasing, the indices of the kept entries, each at least its own position |
| InPlace.KeptIndicesAndKeys | lib/rep/updater.go:319-326 | The index loop also collects the headers of the kept proteins (the protein index) |
| InPlace.MoveToFront | lib/rep/updater.go:327-330 | Copying `s[idx[j]]` to `s[j]` in turn and cutting gives the entries at `idx`, because no entry is overwritten before it is copied |
| InPlace.Compact | lib/rep/updater.go:332-343 | The compaction keeps exactly the entries that pass, in their original relative order |
| ProteinSync.FileUnder | lib/rep/updater.go:243-249 | A PSM's value is filed once under its primary protein and once under each mapped protein |
| ProteinSync.AddTotal | lib/rep/updater.go:243-249 | One PSM step keeps `totalSpc`/`totalPeptides` equal to the filings of the PSMs so far |
| ProteinSync.AddFlagged | lib/rep/updater.go:251-259 | One PSM step keeps the unique and razor lists equal to the flagged PSMs so far, under their primary protein |
| ProteinSync.BuildSupport | lib/rep/updater.go:240-260 | The PSM loop builds the six per-protein lists |
| ProteinSync.TotalListMember | lib/rep/updater.go:243-249 | A value is under `h` iff some PSM filed under `h` (primary or mapped) carries it |
| ProteinSync.TotalListCount | lib/rep/updater.go:284-289 | `TotalSpC` is one per PSM whose primary protein is `h` plus one per PSM mapping to `h` |
| ProteinSync.FlaggedListMember | lib/rep/updater.go:251-259 | The unique and razor lists hold the values of the flagged PSMs whose primary protein is `h` |
| ProteinSync.FlaggedListCount | lib/rep/updater.go:297-309 | `UniqueSpC` and `URazorSpC` count the flagged PSMs whose primary protein is `h` |
| ProteinSync.Tally | lib/rep/updater.go:286-288 | `SupportingSpectra` counts each spectrum as often as it is listed |
| ProteinSync.Distinct | lib/rep/updater.go:262-272 | A de-duplicated list becomes the set of its values |
| ProteinSync.RestatFrom | lib/rep/updater.go:274-316 | A protein's statistics are rebuilt from scratch from the six lists |
| ProteinSync.RestatProteins | lib/rep/updater.go:274-316 | Every protein is rebuilt |
| ProteinSync.KeepSupported | lib/rep/updater.go:318-331 | Proteins with a supporting spectrum are kept in order, and their headers are collected |
| ProteinSync.SupportedIff | lib/rep/updater.go:284-289 | A rebuilt protein has a supporting spectrum iff some PSM is filed under it |
| ProteinSync.RestatTwice | lib/rep/updater.go:274-316 | Rebuilding twice from the same PSMs equals rebuilding once |
| ProteinSync.SyncConsistent | lib/rep/updater.go:318-367 | Every surviving protein is supported with `TotalSpC` equal to its spectra count; every PSM, ion and peptide names a surviving header; a protein survives iff some PSM was filed under it |
| ProteinSync.NamedPSMsSurvive | lib/rep/updater.go:332-343 | When every PSM's protein is one of the listed proteins, the PSM compaction drops no PSM |
| ProteinSync.SyncIdempotent | lib/rep/updater.go:224-367 | A second sync changes nothing when every PSM's protein is one of the listed proteins |
| ProteinSync.SyncNotIdempotent | lib/rep/updater.go:240-367 | Without that condition a second sync can change the result: an evidence state where it does |
| ProteinSync.SyncSettles | lib/rep/updater.go:224-367 | From the second sync on nothing changes |
| RazorStatus.ScanProtein | lib/rep/updater.go:64-75 | One protein's ions add its unique entries and its razor entries, pointing at its header |
| RazorStatus.ScanProteins | lib/rep/updater.go:63-76 | The four tables are built over all proteins, a later razor protein overwriting an earlier one |
| RazorStatus.ProteinUniqueMember | lib/rep/updater.go:66-69 | An entry is unique for a protein iff one of its ions lists it as unique |
| RazorStatus.UniqueTableMember | lib/rep/updater.go:63-76 | An entry is unique iff some protein lists it as unique |
| RazorStatus.ProteinRazorMember | lib/rep/updater.go:71-74 | A protein's razor entries are those its ions mark razor, each pointing at its header |
| RazorStatus.RazorTableMember | lib/rep/updater.go:63-76 | A razor entry exists iff some protein lists it, and points at the last protein that does |
| RazorStatus.MoveAsWrittenLosesFlank | lib/rep/updater.go:94-104 | Moving a PSM onto its own primary protein as written turns `PrevAA` into `NextAA`, and a razor protein missing from `MappedProteins` panics |
| RazorStatus.MovePSM | lib/rep/updater.go:862-877 | The move: razor, `target` is primary and leaves `MappedProteins`, the old protein keeps the flanks, other keys stay, identification fields are unchanged |
| RazorStatus.MoveRecoversFlanks | lib/rep/updater.go:866-876 | Moving onto a mapped protein restores the flanks recorded for it |
| RazorStatus.MoveRoundTrip | lib/rep/updater.go:863-876 | Moving to a mapped protein and back gives the PSM back, marked razor |
| RazorStatus.PSMStatus | lib/rep/updater.go:78-141 | The PSM step only switches `IsURazor`, `IsUnique` and `IsDecoy` on, and leaves the identification fields alone |
| RazorStatus.NotRazorPeptidesMember | lib/rep/updater.go:107-140 | The PSM loop adds to `uniquePeptides` exactly the peptides of PSMs not razor after the ion step |
| RazorStatus.StatusPSMs | lib/rep/updater.go:78-142 | The PSM loop rewrites every PSM and collects the peptides it adds |
| RazorStatus.IonStatusPSMIon | lib/rep/updater.go:84-105 | A PSM of a razor ion form moves to the last protein listing that form as razor |
| RazorStatus.IonStatusPSMPeptide | lib/rep/updater.go:107-133 | A PSM with a razor sequence but not a razor ion form moves to the last protein listing the sequence, and becomes a decoy when that header holds the tag |
| RazorStatus.IonStatusIon | lib/rep/updater.go:144-165 | An ion is unique iff some protein lists its form as unique; a razor form moves it to the last listing protein, the old protein entering `MappedProteins` with 0; proteins are read only |
| RazorStatus.IonStatusPeptide | lib/rep/updater.go:167-188 | A peptide is unique iff some protein lists its sequence as unique or some non-razor PSM added it; a razor sequence moves it like an ion |
| RazorStatus.UpdateStatus | lib/rep/updater.go:56-189 | The scan and the three loops give `IonStatusSpec` |
| RazorAssignment.AssignPSM | lib/rep/updater.go:846-884 | For a peptide in the razor map, `IsURazor` iff a protein was chosen, and a chosen protein becomes primary and leaves `MappedProteins`; with no protein chosen the protein and mapped proteins stay; for a peptide absent from the map nothing but `IsDecoy` changes; `IsDecoy` iff it was or the final protein has the tag prefix |
| RazorAssignment.AssignIon | lib/rep/updater.go:887-914 | For ions: `IsURazor` iff a protein was chosen; a chosen protein becomes primary, leaves `MappedProteins`, and the old protein's count there goes up by one; ions absent from the map change only `IsDecoy`, which holds iff it did or the protein has the tag prefix |
| RazorAssignment.AssignPeptide | lib/rep/updater.go:917-944 | For peptides: `IsURazor` iff a protein was chosen; a chosen protein becomes primary, leaves `MappedProteins`, and the old protein's count there goes up by one; peptides absent from the map change only `IsDecoy`, which holds iff it did or the protein has the tag prefix |
| RazorAssignment.MoveKeepsClean | lib/rep/updater.go:863-877 | A move keeps the flanks free of the `#` separator |
| RazorAssignment.MoveInPlace | lib/rep/updater.go:861-877 | Moving a razor PSM onto the protein it already has changes nothing |
| RazorAssignment.AssignPSMTwice | lib/rep/updater.go:846-884 | Applying the assignment to a PSM twice equals applying it once |
| RazorAssignment.AssignIonTwice | lib/rep/updater.go:887-914 | Applying the assignment to an ion twice equals applying it once |
| RazorAssignment.AssignPeptideTwice | lib/rep/updater.go:917-944 | Applying the assignment to a peptide twice equals applying it once |
| RazorAssignment.RazorIdempotent | lib/rep/updater.go:841-946 | Applying the same razor assignment twice equals applying it once, when no flank holds `#` |
| Strs.SplitPair | lib/rep/updater.go:94-98 | Splitting `prev#next` gives `prev` and `next` back when neither holds `#` |
| EvidenceCounts.CollectTargetSpectra | lib/rep/updater.go:375-379 | The PSM loop lists, per key, the spectra of the target PSMs in order |
| EvidenceCounts.TargetSpectraCount | lib/rep/updater.go:390-392 | A spectrum's count is the number of target PSMs of that key and spectrum |
| EvidenceCounts.TargetSpectraNoDecoy | lib/rep/updater.go:376 | One spectrum is listed per target PSM of the key, and decoy PSMs list none |
| EvidenceCounts.PeptideSpectraCounts | lib/rep/updater.go:371-398 | `Spc` is the number of target PSMs of the sequence and `Spectra` their spectra with multiplicities (0 and empty without such PSMs) |
| EvidenceCounts.IonSpectraCounts | lib/rep/updater.go:402-428 | An ion's `Spectra` are those of the target PSMs of its ion form |
| EvidenceCounts.SyncPeptides | lib/rep/updater.go:381-396 | Every peptide is recounted |
| EvidenceCounts.SyncIons | lib/rep/updater.go:412-425 | Every ion is recounted |
| EvidenceCounts.ZeroCounts | lib/rep/updater.go:757-761 | Every listed key starts with zero counts |
| EvidenceCounts.CountModifications | lib/rep/updater.go:753-777 | For every listed key, the PSMs of that key inside and outside the ±0.99 mass window |
| EvidenceCounts.ModCountsSplit | lib/rep/updater.go:765-777 | Modified plus unmodified is the PSM count of the key |
| EvidenceCounts.PeptideMods | lib/rep/updater.go:779-791 | Both counts are set and sum to the sequence's PSM count |
| EvidenceCounts.PeptideModCounts | lib/rep/updater.go:750-792 | Every peptide gets its two counts |
| EvidenceCounts.AddProteinNtt | lib/rep/updater.go:41-45 | One protein's (peptide, protein) pairs are added unless its name contains the tag |
| EvidenceCounts.BuildNttTable | lib/rep/updater.go:40-46 | The pair table of all proteins |
| EvidenceCounts.ProteinNttMember | lib/rep/updater.go:41-45 | A pair is in a protein's table iff one of its ions lists it, with the NTT of the last such ion |
| EvidenceCounts.NttTableMember | lib/rep/updater.go:40-46 | A pair is in the table iff a protein without the tag lists it, with the NTT of the last such listing |
| EvidenceCounts.PSMNttFromTable | lib/rep/updater.go:48-52 | A PSM takes the NTT of the last listing of its pair, and keeps its own when there is none |
| Updater.Evidence.UpdateNumberOfEnzymaticTermini | lib/rep/updater.go:26-53 | Every PSM gets the NTT of its pair from the table; the other lists are unchanged |
| Updater.Evidence.UpdateIonStatus | lib/rep/updater.go:56-189 | The new evidence is `IonStatusSpec` of the old |
| Updater.Evidence.UpdateIonModCount | lib/rep/updater.go:192-221 | The counts are keyed by the ion forms of the ions, inside/outside the mass window; the evidence is not changed |
| Updater.Evidence.UpdatePeptideModCount | lib/rep/updater.go:750-792 | Every peptide gets its counts; the other lists are unchanged |
| Updater.Evidence.SyncPSMToProteins | lib/rep/updater.go:224-368 | The new evidence is `SyncSpec` of the old |
| Updater.Evidence.SyncPSMToPeptides | lib/rep/updater.go:371-399 | Every peptide is recounted in place; the other lists are unchanged |
| Updater.Evidence.SyncPSMToPeptideIons | lib/rep/updater.go:402-428 | Every ion is recounted in place; the other lists are unchanged |
| Updater.Evidence.ApplyRazorAssignment | lib/rep/updater.go:841-946 | The new evidence is `RazorSpec` of the old under the given razor map |

## Left out

- `Run`, `New`, `readPepXMLInput` and `readProtXMLInput` are left out. They glob and parse files, restore and serialise meta data, and start an untracked goroutine.
- All `logrus` summaries are left out.
- The `logrus.Fatal` exits in the pipelines are not modelled. The three filter calls there name known levels, so the error branch is never taken.
- The `Serialize` calls are left out. The lists they would store are returned instead.
- Pipelines.ProcessProteinIdentifications: when `ProtXMLFilter` sets its error, the source returns before `Serialize` (fil.go:609-612) and stores nothing. The list the model still returns in `Filtered(clean, err)` is then one the source would not store.
- The charge profiles in `processPeptideIdentifications` and the protein profiles in `processProteinIdentifications` and `twoDFDRFilter` only feed log lines. They are modelled as counters (`Grouping.ChargeProfile`, `ProtFilter.ProteinProfile`, `ProtFilter.ProteinProfileWithList`), but the pipelines do not call them.
- The `sort.Sort` comparator of the identification lists is not part of this model.
  - The sweeps require a list sorted by descending score.
  - The pipelines sort with `Seqs.SortByScore`.
  - Tie order does not matter for the kept multiset (`Fdr.PermutationInvariant`).
- Fdr.Qualifies: `utils.ToFixed` is an abstract `round` parameter, and the zero-target level never qualifies. That level's Go float division (Inf or NaN) is not modelled.
- Razor.RazorFilter: three details of the string references are not modelled:
  - the `strconv.ParseFloat` error returns;
  - the six- and four-decimal formatting of weights and masses;
  - the field misalignment a `#` inside a name would cause.
  
  References are tuples compared exactly, where the source uses `strings.EqualFold`.
- Pipelines.ProcessProteinIdentifications: the razor step's parse error is not modelled, since the references are tuples.
- Picked.PickedFDR requires every protein to have a peptide ion. The source reads `PeptideIons[0]` and panics on a protein without one.
- PepFilter.PepXMLFDRFilter requires non-empty groups at the Peptide and Ion levels. The source reads element 0 of each group there, and the grouping helpers never build an empty group.
- The `targets`/`decoys` maps of `mirrorProteinList` (fil.go:1185-1203) are left out. They are filled but never read.
- `UpdateLayerswithDatabase`, `CalculateProteinCoverage` and `UpdateSupportingSpectra` are left out. The first two restore the database and use regular expressions and `float32` percentages.
- The `Restore` calls that feed two updates are not modelled. The data they read become parameters:
  - the protein inference list for `UpdateNumberOfEnzymaticTermini`;
  - the razor map for `ApplyRazorAssignment`.
- lib/rep/gio.go, lib/rep/modification.go and the command files are not part of this model. They cover encoding and file I/O, floating-point binning, an external ontology and the CLI.
- EvidenceCounts.PeptideSpectraCounts: the `uint8` counts of peptide `Spectra` are unbounded here, so wrap-around past 255 copies of one spectrum is not modelled. The same holds for the `uint8` NTT (`EvidenceCounts.PSMNttFromTable`).
- ProteinSync.Distinct: `uti.RemoveDuplicateStrings` followed by the count loops gives every peptide a count of 1. The three peptide maps of a protein are therefore sets.
- ProteinSync.SyncConsistent: the `proteinIndex` filled before the PSM loop (updater.go:234-238) is not modelled, since it is never read before being rebuilt.
- Updater.Evidence.UpdateIonStatus: the writes into `MappedProteins` (updater.go:94, 118, 150, 173) panic in Go when that map is nil. The model's maps always exist, so this panic is not modelled.
- Updater.Evidence.ApplyRazorAssignment: the writes into `MappedProteins` (updater.go:863, 905, 935) panic in Go when that map is nil. The model's maps always exist, so this panic is not modelled.
- Updater.Evidence.UpdateIonStatus follows `RazorStatus.MovePSM`, the corrected move (see Findings). The as-written flank loss and panic are modelled only by `RazorStatus.MovePSMAsWritten`.
- RazorStatus.PSMStatus, RazorStatus.StatusPSMs and RazorStatus.UpdateStatus: these also use the corrected `RazorStatus.MovePSM`, not the as-written move of updater.go:103-104 and 127-128.
- PepFilter.ParseLevel: `strings.EqualFold` is modelled by ASCII case folding. Go also folds Unicode simple case pairs, but the names compared against ("PSM", "Peptide", "Ion") are ASCII.
- Updater.Evidence.UpdateIonModCount returns the two count maps. The source fills them into local maps and drops them.
- `SyncPSMToPeptides` and `SyncPSMToPeptideIons` take the evidence by value, but the copy shares its element arrays with the caller. They are modelled as in-place updates of the class. The returned copy is not modelled.
- `PSMEvidence.SpectrumFileName()` is the `spectrum` field.

## Findings

| source | as written | input that shows it | evidently intended | confidence | as-written member | corrected member |
|---|---|---|---|---|---|---|
| lib/rep/updater.go:103-104 | The razor move in `UpdateIonStatus` assigns `PrevAA` from the first field and then from the second field of the recovered `prev#next` record. `NextAA` is never restored, and nothing checks that there are two fields (the same happens at lines 127-128). | A PSM with protein "A", `PrevAA` "K" and `NextAA` "R", whose razor protein is "A" itself, ends with `PrevAA` "R". The same PSM moved to a razor protein "B" that is absent from its `MappedProteins` indexes out of range. | `PrevAA, NextAA = fields 0 and 1` when there are at least two fields, as `ApplyRazorAssignment` does at lines 874-877 | high, not executed | RazorStatus.MoveAsWrittenLosesFlank | RazorStatus.MoveRoundTrip |

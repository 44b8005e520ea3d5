# OPTKIT: verified models of its bookkeeping algorithms

OPTKIT measures and steers the energy use of programs. Most of it wraps drivers and files of the kernel; between
those wrappers are algorithms on texts, lists and numbers whose results everything else relies on. This project
models them in Dafny and proves what they promise, for every input and for every run.

`dafny verify dfyconfig.toml` checks all files. Every file is one module (`Strings.dfy` holds two), named after
what it models.

| part | modules |
|---|---|
| Result files that grow by one JSON array per save | `Json`, `JsonReader`, `JsonLog`, `JsonLogRuns`, `JsonLogBroken` |
| CoMD: processor grid, lattice set-up, centre of mass | `Arithmetic`, `Decomposition`, `Lattice`, `LatticeTiling`, `LatticeSites`, `Momentum` |
| Annotating result files and reading the numbers back | `Decimal`, `Literals`, `Annotate`, `AnnotateRuns`, `AnnotateNumbers`, `AnnotateDirectory`, `AnnotateOthers` |
| When annotated files are still JSON | `AnnotateJson`, `AnnotateFallback`, `AnnotateExact`, `AnnotateBroken`, `AnnotateLocate`, `AnnotateStays` |
| The daemon: model input, frequency control, counters | `DaemonWindow`, `FrequencyControl`, `EventCounts` |
| Metric events and CPU packages, free of duplicates | `Deduplication`, `MetricBuilder`, `CpuPackages` |
| Environment: LD_PRELOAD, memory sizes, cores, frequencies | `MallocPreload`, `CGroupMemory`, `OfflineCores`, `FrequencyRollback` |
| The stacks of running profilers | `ProfilerStacks` |
| String helpers | `Wrappers`, `Strings`, `StrSplit` |

Where the program changes state step by step, the model is a class or a loop over an array, and its methods are
proved equal to a function of the old state. What the program promises is then proved about that function, and what
it computes is also said without it: on coordinates, characters, slots and numbers. What the
outside world may do (a file that cannot be opened, a write that the kernel refuses, a profiler that cannot be made)
is a parameter of the call, so the theorems hold for every behaviour of it.

## Where the code does less than it says

Each of these is a theorem with the exact condition, and a lemma at an input where the code falls short.

- `append_json_array_file` says that repeated saves keep the file one valid array (src/utils/utils.hh:383-385). Its
  256-byte window makes that true exactly when fewer than 256 blanks follow the closing bracket and, for an empty
  array, when the opening bracket lies in the window as well. Otherwise the file is no JSON any more, as for `[]` with
  256 blanks behind it. Files that the function itself made always satisfy this; they stay JSON over a run of saves
  exactly as long as no save finds the file there but cannot read it, or truncates it and then cannot open it again.
  After one such save no later one mends the file.
- `inject_json_kv` says that it adds a top-level member to every JSON file (tools/optkit-cli/stat.cc:9-11). A member is
  gained exactly when the first `"duration"` opens the name of a member, or when there is none and the file is an
  object with members and without any `[`. In the first case the object that gains it is the one that holds the
  anchor, which need not be the outermost. `["duration"]`, `{"name": "duration", "duration": 5}` and `{}` are no JSON
  afterwards, and neither is any file with a `[` and no `"duration"`, whatever list of keys is injected. A file that
  gains no member stays JSON exactly when it stays as it is, for want of a place to insert at, or when the anchor
  starts at an escaped quote in a name: `{"a\"duration": 1}` becomes `{"a\"k": 1, "duration": 1}`.
- The numbers of other keys are read as before (tools/optkit-cli/report.cc:771 and 797-799 read three of them) exactly
  when the insertion point is not between such a key and the end of the number read for it, or that number is the same
  by chance. `duration` always keeps its number where it is a key; in `{"ai": null, "duration": 5}` the `ai` that was
  read as 5 becomes whatever is injected.
- `set_malloc_backend` twice is the same as the second call alone, unless the first call selects glibc and the
  surviving entries end with an empty one. For `a::` the first call gives `a:` and the second one `a`.
- `set_offline_cores` and `set_online_cores` take a write for done when the file could be opened
  (src/utils/utils.hh:454-462 does not look at the stream after writing). The list of offline cores agrees with the
  kernel exactly as long as the kernel refuses no change in silence.
- `set_core_freq` and `set_uncore_freq` keep the recorded frequency when they roll back. The sockets before the
  failing one are then at their defaults, so the record stays true only if the call has changed nothing, as when the
  very first socket fails and is left as it was.
- An event named `duration_microsec` loses its count to the duration (tools/optkit-daemon/main.cc:310), unless the
  duration is the sum of its values modulo 2^64.
- A memory size with a suffix that denotes 2^63 bytes or more wraps around or throws, so that `8388608T` becomes
  negative (tools/optkit-setenv/cgroup.cc:655-672). A size without a suffix is kept whatever it denotes.
- `optkit_energy_start` overwrites the status of the CPU profiler with that of the GPU profilers
  (src/optkit_c.cc:1162-1164). Of the starts that it reports as successful, exactly those are undone by their stop
  where no unselected CPU backend has profilers, and the selected one could be started or had none either.
- `add(const MetricBuilder &)` copies the calculation functions of another builder only if it has events
  (src/utils/metric_builder.hh:112-127): they are in force afterwards exactly if it was ever offered an event, or if
  they were before.

## Model

| member | source | states |
|---|---|---|
| `JsonLog.LogFile.WriteFile` | src/utils/utils.hh:364-381 | appends the text, creating the file; a file that does not open stays as it is |
| `JsonLog.LogFile.InspectTail` | src/utils/utils.hh:406-427 | the last 256 bytes give the position of the final `]` of the whole file, and whether only blanks and a `[` come before it, exactly when these lie in the window |
| `JsonLog.LogFile.AppendJsonArray` | src/utils/utils.hh:386-452 | the new content for every text and every answer of the file system: unchanged, created, cut at the bracket, or extended |
| `JsonLog.WindowShows` | src/utils/utils.hh:412-425 | what is found in the tail is what a search of the whole file would find |
| `Json.ReadBack` | src/utils/utils.hh:383-385 | for every well-formed JSON array text, cutting at the commas outside strings and brackets gives exactly the texts of the elements of its syntax tree |
| `JsonLogRuns.SaveCreates` | src/utils/utils.hh:429-433 | a save into a missing or blank file makes a well-formed array with the elements saved |
| `JsonLogRuns.SaveMerges` | src/utils/utils.hh:435-447 | a save into any well-formed array whose end lies in the window gives a well-formed array with the old elements followed by the new ones |
| `JsonLogRuns.SaveReadsBackIff` | src/utils/utils.hh:383-447 | after a save the file is JSON if and only if the window reaches the brackets that matter, and it reads as the old elements followed by the new ones in the same case |
| `JsonLogRuns.UnseenBracketMisread` | src/utils/utils.hh:412-433 | with 256 or more blanks behind it the bracket is missed, and with the second array behind the first the file is no JSON |
| `JsonLogRuns.UnseenBracketExample` | src/utils/utils.hh:412-433 | for example `[]` with 256 blanks behind it |
| `JsonLogRuns.UnseenOpeningMisread` | src/utils/utils.hh:422-447 | an empty array whose `[` lies beyond the window is taken for a full one, and with a comma in front of the first element the file is no JSON |
| `JsonLogRuns.UnseenOpeningExample` | src/utils/utils.hh:422-447 | for example 255 blanks between two brackets |
| `JsonLogRuns.SeenBracketExample` | src/utils/utils.hh:412-427 | up to 255 blanks behind `[1]` do not hide its bracket, and a second 1 is added |
| `JsonLogRuns.TwoSavesText` | src/utils/utils.hh:429-447 | the characters of the file after one and after two saves of `[1]` |
| `JsonLogRuns.OtherTextAppended` | src/utils/utils.hh:391-397 | a text without a `[` before a `]` is appended as it is |
| `JsonLogRuns.EmptyArrayIgnored` | src/utils/utils.hh:399-403 | saving an empty array changes nothing |
| `JsonLogRuns.SavesKeepOneArray` | src/utils/utils.hh:383-452 | for every run of saves of well-formed arrays into a missing or blank file, on any disk, as long as no save behind the first that landed was blind (could not read the file) or torn (could not open it after truncating): the file is `[`, the bodies joined by `\n,\n`, `]`, it is one well-formed array, and its elements are exactly those of the saves that reached it, in order |
| `JsonLogBroken.SpoiledRuns` | src/utils/utils.hh:386-452 | a blind or torn save leaves the file broken, whatever is saved afterwards |
| `JsonLogBroken.RunIsJsonIff` | src/utils/utils.hh:383-452 | after any run on any disk, the file is JSON if and only if something has reached it and no save behind that was blind or torn |
| `JsonLogBroken.EverySaveIsJsonIff` | src/utils/utils.hh:383-452 | it is JSON after every save from the first that landed on if and only if none of them was blind or torn |
| `JsonLogBroken.TornExample` | src/utils/utils.hh:435-447 | the second of two saves of `[1]` is torn, and the file is no JSON |
| `Decomposition.Domain.constructor` | examples/CoMD/src-mpi/decomposition.c:18-50 | the coordinates of the rank in the grid, and a brick that is its share of the box |
| `Decomposition.Domain.SetCoordinates` | examples/CoMD/src-mpi/decomposition.c:23-31 | the coordinates lie in the grid, and the rank is x + procGrid[0]·(y + procGrid[1]·z) |
| `Decomposition.Domain.SetGlobalBounds` | examples/CoMD/src-mpi/decomposition.c:33-39 | the box goes from zero to the extent |
| `Decomposition.Domain.SetLocalBounds` | examples/CoMD/src-mpi/decomposition.c:41-47 | the upper end of a brick is the lower end of the next one |
| `Decomposition.Domain.ProcessorNum` | examples/CoMD/src-mpi/decomposition.c:57-66 | the rank that is so many steps away on the torus, for offsets not below -procGrid: each coordinate of the rank, read off it by division, is that of this processor moved by its own offset, modulo the grid |
| `Decomposition.CoordOfRank` | examples/CoMD/src-mpi/decomposition.c:26-31 | the coordinates of the rank of given coordinates are these coordinates |
| `Decomposition.RankOfCoord` | examples/CoMD/src-mpi/decomposition.c:26-31 | every rank below the number of processors has coordinates in the grid, and is their rank |
| `Decomposition.NeighbourZero` | examples/CoMD/src-mpi/decomposition.c:57-66 | no steps lead to the rank itself |
| `Decomposition.NeighbourPlus` | examples/CoMD/src-mpi/decomposition.c:57-66 | stepping by d and then by e is stepping by d + e |
| `Decomposition.NeighbourUndo` | examples/CoMD/src-mpi/decomposition.c:57-66 | -d undoes d |
| `Decomposition.NeighbourPermutes` | examples/CoMD/src-mpi/decomposition.c:57-66 | every fixed offset permutes the ranks |
| `Decomposition.StepX` | examples/CoMD/src-mpi/decomposition.c:57-66 | a step up x leads to the next rank, and from the last place of a row back to its first |
| `Decomposition.StepY` | examples/CoMD/src-mpi/decomposition.c:57-66 | a step up y leads procGrid[0] ranks on, or back over the whole layer |
| `Decomposition.StepZ` | examples/CoMD/src-mpi/decomposition.c:57-66 | a step up z leads procGrid[0]·procGrid[1] ranks on, or back over the whole grid |
| `Decomposition.UnitSteps` | examples/CoMD/src-mpi/decomposition.c:57-66 | a unit step on an axis and then an offset is the offset with one more on that axis |
| `Decomposition.Domain.SharesEven` | examples/CoMD/src-mpi/decomposition.c:41-47 | the ends of a brick, times the number of processors, are multiples of the extent: all bricks of an axis are equally long |
| `Lattice.IdDigits` | examples/CoMD/src-mpi/initAtoms.c:99 | the id of a site determines its unit cell and its place in the basis, and lies below 4·nx·ny·nz |
| `Lattice.DigitsId` | examples/CoMD/src-mpi/initAtoms.c:99 | every id below 4·nx·ny·nz belongs to a site of the box |
| `Lattice.OutsideBounds` | examples/CoMD/src-mpi/initAtoms.c:80-84 | no site of a cell below the floor or from the ceiling on lies in the brick |
| `Lattice.BoundsInBox` | examples/CoMD/src-mpi/initAtoms.c:80-84 | the loop bounds stay within the box |
| `Lattice.SimFlat.CellBounds` | examples/CoMD/src-mpi/initAtoms.c:78-84 | the floor and the ceiling of the brick in unit cells, on each axis |
| `Lattice.SimFlat.PlaceCell` | examples/CoMD/src-mpi/initAtoms.c:91-101 | one unit cell adds exactly its owned atoms to those with smaller ids |
| `Lattice.SimFlat.CreateFccLattice` | examples/CoMD/src-mpi/initAtoms.c:66-101 | the loops place exactly the sites of the whole lattice that lie in the half-open brick, in order of id |
| `LatticeSites.SitesAreCentred` | examples/CoMD/src-mpi/initAtoms.c:72-95 | the point lat/4·(2a+1, 2b+1, 2c+1) of the box is a site if and only if a + b + c is even |
| `LatticeSites.SitesDiffer` | examples/CoMD/src-mpi/initAtoms.c:91-100 | different ids have different places |
| `LatticeSites.SitesInOrder` | examples/CoMD/src-mpi/initAtoms.c:72-99 | the place of every id: z fastest, the first atom of a cell at a quarter of it on each axis, the others half a cell further on two axes, level with it on the first, second and third in turn |
| `LatticeSites.PlacedSites` | examples/CoMD/src-mpi/initAtoms.c:88-101 | the loops place an atom if and only if its id is below 4·nx·ny·nz, it is at the place of its id, and that lies in the half-open brick |
| `LatticeTiling.CornersTile` | examples/CoMD/src-mpi/decomposition.c:41-47 | each point of the box lies in the brick of exactly one processor |
| `LatticeTiling.OneOwner` | examples/CoMD/src-mpi/initAtoms.c:96-98 | each site passes the tests of exactly one rank |
| `LatticeTiling.EachAtomOnce` | examples/CoMD/src-mpi/initAtoms.c:88-101 | over all ranks each id is placed exactly once: in one slot of its owner, and by no other rank |
| `LatticeTiling.CountAssertionHolds` | examples/CoMD/src-mpi/initAtoms.c:103-108 | the reduced number of atoms is nb·nx·ny·nz, so the assertion holds |
| `LatticeTiling.InitRank` | examples/CoMD/src-mpi/CoMD.c:184-196 | the set-up of one rank leaves it with its share of the lattice |
| `Momentum.Simulation.SumLocal` | examples/CoMD/src-mpi/initAtoms.c:206-221 | momentum and mass of exactly the live atoms of the local boxes |
| `Momentum.Simulation.ComputeVcm` | examples/CoMD/src-mpi/initAtoms.c:204-231 | total momentum over total mass of all ranks; it is v if all atoms move at v |
| `Momentum.Simulation.SetVcm` | examples/CoMD/src-mpi/initAtoms.c:113-135 | every live atom gets its mass times the missing velocity, and no other slot changes; from rest, every atom then moves at the new velocity |
| `Momentum.Simulation.ShiftMomenta` | examples/CoMD/src-mpi/initAtoms.c:123-134 | slot by slot, with the mass of the atom's species: the loops change the first nAtoms slots of each local box and nothing else |
| `Momentum.Simulation.ScaleMomenta` | examples/CoMD/src-mpi/initAtoms.c:172-180 | the same for the scaling of the momenta |
| `Momentum.CentreMovesAlong` | examples/CoMD/src-mpi/initAtoms.c:204-231 | if every atom has its mass times v, and so has the rest, the centre of mass moves at v |
| `Momentum.FromRest` | examples/CoMD/src-mpi/initAtoms.c:113-135 | from rest, the shift gives every atom its mass times the new velocity |
| `Momentum.TotalFollows` | examples/CoMD/src-mpi/initAtoms.c:206-221 | what one live atom gains the total gains; slots that are not in use do not count |
| `Momentum.ReductionIsGlobal` | examples/CoMD/src-mpi/initAtoms.c:223-225 | whichever rank adds its own part, the reduction is the same sum over all ranks |
| `Momentum.EachRankShifts` | examples/CoMD/src-mpi/initAtoms.c:113-135 | with the reduction, what `setVcm` does on each rank is its part of one shift of all ranks |
| `Momentum.SetVcmHitsTarget` | examples/CoMD/src-mpi/initAtoms.c:113-135 | over all ranks, `computeVcm` after `setVcm(v)` is exactly v |
| `Momentum.ScalingKeepsZero` | examples/CoMD/src-mpi/initAtoms.c:172-180 | any uniform scaling keeps a zero centre-of-mass velocity zero |
| `Momentum.TemperatureAtRest` | examples/CoMD/src-mpi/initAtoms.c:166-180 | from any momenta, shifting to rest and then scaling ends at rest |
| `Annotate.InjectInto` | tools/optkit-cli/stat.cc:43-64 | the text with the piece at the insertion point, and whether there is one |
| `Annotate.Directory.AnnotateFile` | tools/optkit-cli/stat.cc:26-72 | one file: annotated, or untouched if it is no JSON file, unreadable, annotated already, without a place to insert at, or unwritable |
| `Annotate.Directory.InjectJsonKv` | tools/optkit-cli/stat.cc:12-74 | every file of the directory independently, and no other file: the listed names that end in `.json` and can be read and written get the key, all others keep their text |
| `AnnotateDirectory.InjectKeys` | tools/optkit-cli/stat.cc:12-74 | after any run of keys through the directory, each of them reads back as its integer from every such file that had none of them |
| `AnnotateDirectory.AnnotateFrequencies` | tools/optkit-cli/stat.cc:326-327 | in particular the two frequencies of a run do |
| `Annotate.FindFirstNumberAfter` | tools/optkit-cli/report.cc:691-714 | the value of the first run of number characters, or failure with the out parameter left alone |
| `Annotate.ExtractScalarByKey` | tools/optkit-cli/report.cc:716-728 | the number behind the first `:` behind the first quoted key, or failure with zero |
| `Decimal.StodToString` | tools/optkit-cli/report.cc:707 | `std::stod` gives back the integer that `std::to_string` wrote |
| `Literals.StodDenotes` | tools/optkit-cli/report.cc:707 | a literal with sign, point and exponent, whatever follows it, denotes its digits times 10 to the exponent, divided by 10 to the number of digits behind the point |
| `Literals.StodExamples` | tools/optkit-cli/report.cc:707 | for example 1.5, -25e-1 and 1.5E+2 |
| `AnnotateNumbers.LiteralReadsAs` | tools/optkit-cli/report.cc:691-728 | a key that is followed by a colon and such a literal is read as what the literal denotes |
| `AnnotateNumbers.FractionRead` | tools/optkit-cli/report.cc:691-728 | in `{"duration": 1.5}` the duration is read as 1.5 |
| `AnnotateRuns.Straddle` | tools/optkit-cli/stat.cc:40-62 | an insertion creates no occurrence of a quoted identifier other than that of its own key |
| `AnnotateRuns.InjectedHas` | tools/optkit-cli/stat.cc:40-62 | injecting a new key puts its piece where the key then occurs first |
| `AnnotateRuns.InjectedBeforeAnchor` | tools/optkit-cli/stat.cc:40-49 | the text after an injection, character by character, when there is an anchor |
| `AnnotateRuns.InjectedBehindBracket` | tools/optkit-cli/stat.cc:50-64 | and when there is none |
| `AnnotateRuns.InjectedKeeps` | tools/optkit-cli/stat.cc:40-62 | injecting another key neither splits an earlier piece nor brings an earlier occurrence of its key |
| `AnnotateRuns.InjectedAddsOnly` | tools/optkit-cli/stat.cc:40-62 | no other quoted key appears |
| `AnnotateRuns.PieceReadsBack` | tools/optkit-cli/report.cc:716-728 | the reader of a key stops exactly at the literal of its piece |
| `AnnotateRuns.InjectedIsReadBack` | tools/optkit-cli/stat.cc:12-74 | for every text with a place to insert at and every list of new distinct identifiers: each key reads back as exactly its integer, injecting again changes nothing, and without the pieces the original text remains |
| `AnnotateOthers.OthersKeepValues` | tools/optkit-cli/report.cc:716-728 | for every list of new keys: the number of any other key is read as before, if the insertion point is not within what is read for it |
| `AnnotateOthers.DurationKept` | tools/optkit-cli/report.cc:771 | in particular that of the duration, in every text that holds the key |
| `AnnotateOthers.ReadsInjected` | tools/optkit-cli/report.cc:716-728 | otherwise the first number of the inserted piece is read for the other key, or the injected literal if the colon found is that of the piece |
| `AnnotateOthers.OtherKeptIff` | tools/optkit-cli/report.cc:716-728 | after one injection it is read as before if and only if that holds, or the number then read in the inserted piece is the same |
| `AnnotateOthers.NullMisread` | tools/optkit-cli/report.cc:797-799 | in `{"ai": null, "duration": 5}` the `ai` is read as 5, and after an injection as the number injected |
| `AnnotateRuns.AnchoredLayout` | tools/optkit-cli/stat.cc:44-49 | with an anchor, the pieces stand right before the first one in the order of injection |
| `AnnotateJson.PrintSplits` | tools/optkit-cli/stat.cc:44-49 | the text of a JSON value is what stands before a member, at any depth, and what stands from it on |
| `AnnotateJson.AddSplits` | tools/optkit-cli/stat.cc:44-49 | putting a member into an object of the syntax tree puts exactly its piece into the text |
| `AnnotateJson.InjectionStaysJson` | tools/optkit-cli/stat.cc:44-49 | when the first anchor is the name of a member at any depth, the text stays JSON whatever new identifiers are injected, and its object gains exactly these members, in order, right before the anchor's |
| `AnnotateFallback.FallbackLayout` | tools/optkit-cli/stat.cc:50-64 | without an anchor, keys other than `duration` stand behind the bracket and its blanks, the latest first |
| `AnnotateFallback.DurationLayout` | tools/optkit-cli/stat.cc:43-64 | once the key `duration` is injected it is the anchor: the keys after it stand before it in order, and those before it behind it, the latest first |
| `AnnotateExact.InjectionGainsIff` | tools/optkit-cli/stat.cc:9-64 | for every JSON text and new key: the result prints the old value with exactly one member gained if and only if the first anchor opens the name of a member, at any depth, or there is no anchor and the text is a non-empty object without any `[` |
| `AnnotateExact.InjectionGainsTopIff` | tools/optkit-cli/stat.cc:9-64 | the member is gained at the top level if and only if that name is one of the top level, or in the case without an anchor |
| `AnnotateExact.InjectAllGainsIff` | tools/optkit-cli/stat.cc:9-74 | the same for every list of new keys injected one after the other, `duration` included |
| `AnnotateBroken.InjectionNeedsName` | tools/optkit-cli/stat.cc:43-64 | a result that is JSON has its new key where the name of a member may start, or behind a backslash in a name |
| `AnnotateBroken.FallbackBreaks` | tools/optkit-cli/stat.cc:50-64 | a text with a `[` and without an anchor is no JSON once any keys have been injected |
| `AnnotateBroken.ScalarUnchanged` | tools/optkit-cli/stat.cc:50-67 | a text that is a number or a literal stays as it is |
| `AnnotateBroken.StringStaysIff` | tools/optkit-cli/stat.cc:43-67 | a text that is a string stays JSON under any list of new keys if and only if it holds nothing to insert at, and then it stays as it is |
| `AnnotateBroken.EmptyObjectBreaks` | tools/optkit-cli/stat.cc:50-64 | an empty object is no JSON afterwards, whatever blanks it holds and whatever keys are injected |
| `AnnotateBroken.EmptyExample` | tools/optkit-cli/stat.cc:50-64 | for example `{}` |
| `AnnotateBroken.AnchorElementBreaks` | tools/optkit-cli/stat.cc:44-49 | the array `["duration"]` is no JSON afterwards |
| `AnnotateBroken.AnchorValueBreaks` | tools/optkit-cli/stat.cc:44-49 | and no text that starts with `{"name": "duration"` is |
| `AnnotateStays.InjectAllStaysJsonIff` | tools/optkit-cli/stat.cc:9-74 | for every JSON text and every non-empty list of new keys: the result is JSON if and only if there is no place to insert at, or the members are gained, or the first anchor starts at an escaped quote in the name of a member |
| `AnnotateStays.InjectionStaysJsonIff` | tools/optkit-cli/stat.cc:9-67 | the same for one key |
| `AnnotateStays.EscapedExample` | tools/optkit-cli/stat.cc:44-49 | for `{"a\"duration": 1}` the result is JSON, and no member is gained |
| `DaemonWindow.Daemon.PushFrame` | tools/optkit-daemon/main.cc:476-478 | the history is the last frames of the run, at most a window of them |
| `DaemonWindow.Daemon.FlattenHistory` | tools/optkit-daemon/main.cc:480-489 | the history behind as many zero frames as are missing, with every copy in bounds |
| `DaemonWindow.Daemon.Tick` | tools/optkit-daemon/main.cc:476-489 | the model input is the last window of a run that starts with a window of zero frames |
| `DaemonWindow.InputLength` | tools/optkit-daemon/main.cc:481-482 | the input has window times elements values at every tick |
| `DaemonWindow.InputAt` | tools/optkit-daemon/main.cc:476-489 | every value of the input: that of its frame, the oldest first, or zero before the first frame |
| `DaemonWindow.CutRun` | tools/optkit-cli/train_model.py:297-300 | the chunks of one run, each with the target of the run |
| `DaemonWindow.BuildTrainingExamples` | tools/optkit-cli/train_model.py:284-307 | the chunks and the targets of all runs, in order; an error exactly when there are none |
| `DaemonWindow.ExampleAt` | tools/optkit-cli/train_model.py:294-300 | every window of every run is a chunk, in order, with the target of its run; a run that is too short gives none, and there are no others |
| `DaemonWindow.InputsAreChunks` | tools/optkit-daemon/main.cc:476-489 | from tick `window` on, the inputs of the daemon are in order exactly the training chunks of the same run; before that, zeros and then the frames so far |
| `FrequencyControl.Governor.Apply` | tools/optkit-daemon/main.cc:549-608 | the first prediction goes to the cores and the second to the uncore: each controller moves exactly on a valid one at least 180000 kHz away, then all sockets have been commanded its value |
| `FrequencyControl.Control` | tools/optkit-daemon/main.cc:549-608 | over any run, the two controllers are independent, and all sockets were last commanded what each last applied |
| `FrequencyControl.AppliedIsClose` | tools/optkit-daemon/main.cc:556-567 | after a valid prediction the applied value is less than the threshold away from it |
| `FrequencyControl.StepsAreLarge` | tools/optkit-daemon/main.cc:408-412 | consecutive applied values differ by at least the threshold |
| `FrequencyControl.ChangesAreBounded` | tools/optkit-daemon/main.cc:549-608 | on every run, threshold times (changes - 1) is at most the total variation of the valid targets |
| `EventCounts.EventCountsFromValues` | tools/optkit-daemon/main.cc:297-312 | each name gets the sum modulo 2^64 of the values at its positions, then the duration is stored |
| `EventCounts.CountsPerCpu` | tools/optkit-daemon/main.cc:304-308 | with distinct names and one value per event on every CPU, each event gets the sum of its own values modulo 2^64 |
| `EventCounts.CountsOneEach` | tools/optkit-daemon/main.cc:304-308 | with one CPU, each event gets its own value |
| `EventCounts.CountsAddUp` | tools/optkit-daemon/main.cc:304-308 | without overflow the counts of the events add up to the sum of all values, repeated names included |
| `EventCounts.DurationShadows` | tools/optkit-daemon/main.cc:297-312 | every event has the sum of its values if and only if no event with the name of the duration was seen, or the duration is the sum of its values modulo 2^64 |
| `EventCounts.DurationLost` | tools/optkit-daemon/main.cc:310 | an event with this name that counted 1 in 2 microseconds is reported as 2 |
| `MetricBuilder.KeyInjective` | src/utils/metric_builder.hh:87 | two pairs with the same printed key are the same pair, whatever underscores and digits their names hold |
| `MetricBuilder.Builder.Offer` | src/utils/metric_builder.hh:87-91 | the list stays the deduplication of all pairs offered, and the index exactly its keys |
| `MetricBuilder.Builder.AddCodes` | src/utils/metric_builder.hh:80-94 | offers the name with every code: the list then holds exactly these pairs and what it held before |
| `MetricBuilder.Builder.AddEvents` | src/utils/metric_builder.hh:96-110 | offers every pair: the list then holds exactly these and what it held before |
| `MetricBuilder.Builder.AddBuilder` | src/utils/metric_builder.hh:112-127 | the list then also holds what the other builder kept; its functions win, if it has any events |
| `MetricBuilder.MergeTakesFuncsIff` | src/utils/metric_builder.hh:112-127 | after a merge all functions of the other builder are in force if and only if it was ever offered an event, or all were in force before |
| `MetricBuilder.MergeLosesFunction` | src/utils/metric_builder.hh:114-115 | a builder with a function and no events leaves no trace |
| `MetricBuilder.Builder.Build` | src/utils/metric_builder.hh:129-133 | sets one function and leaves the events alone |
| `MetricBuilder.Builder.EventNames` | src/utils/metric_builder.hh:162-170 | the names of the events in order |
| `MetricBuilder.DeduplicationIsStable` | src/utils/metric_builder.hh:80-110 | the list holds exactly the pairs offered, each once, in the order of their first offers |
| `MetricBuilder.MergeKeepsAll` | src/utils/metric_builder.hh:112-117 | merging what another builder kept is as good as offering all it was offered |
| `CpuPackages.Query.DetectCpuPackages` | src/core/query.cc:28-59 | detects the packages once and keeps them |
| `CpuPackages.Query.ReadCores` | src/core/query.cc:34-56 | package p lists exactly the cores with the p-th physical id to appear |
| `CpuPackages.PackagesRenumber` | src/core/query.cc:34-56 | dense ids in order of first appearance, increasing lists, each core in one list, and two cores in one list if and only if their physical ids are the same |
| `CpuPackages.RenumberingIsUnique` | src/core/query.cc:34-56 | no other map has these properties |
| `Strings.TrimPadded` | src/utils/utils.cc:76-90 | trimming removes exactly the blanks around a text without blanks at its ends |
| `Strings.BlanksAre` | src/utils/utils.cc:76-90 | which characters are blanks |
| `Strings.Trim` | src/utils/utils.cc:76-90 | the result has no blank at either end, and is empty exactly for a blank text |
| `StrSplit.StrSplit` | src/utils/utils.cc:60-74 | the loop ends, with the tokens between the delimiters found from left to right |
| `StrSplit.JoinSplit` | src/utils/utils.cc:60-74 | joining the tokens with the delimiter gives the string back |
| `StrSplit.TokensAreFree` | src/utils/utils.cc:60-74 | no token contains the delimiter |
| `StrSplit.SplitJoin` | src/utils/utils.cc:60-74 | for a one-character delimiter, splitting a join of tokens without it gives the tokens |
| `MallocPreload.Memory.SetMallocBackend` | tools/optkit-setenv/memory.cc:12-102 | the new value, or none, from the old value and the backend |
| `MallocPreload.Memory.KeepLibraries` | tools/optkit-setenv/memory.cc:20-42 | the loop that erases entries keeps those that name no allocator, in order |
| `MallocPreload.Memory.Keep` | tools/optkit-setenv/memory.cc:28-33 | a library is kept exactly if it names neither allocator |
| `MallocPreload.Memory.JoinLibraries` | tools/optkit-setenv/memory.cc:44-52 | the libraries joined by `:` |
| `MallocPreload.Memory.GetMallocBackend` | tools/optkit-setenv/memory.cc:104-129 | the backend named in the value |
| `MallocPreload.GetAfterSet` | tools/optkit-setenv/memory.cc:12-129 | for every value, set or unset, getting after setting gives the backend that was set |
| `MallocPreload.EntriesSurvive` | tools/optkit-setenv/memory.cc:12-98 | the entries of the new value are the surviving ones in order and then the library of the backend; only a single empty entry is dropped |
| `MallocPreload.EntriesAre` | tools/optkit-setenv/memory.cc:12-98 | on the texts: the entries afterwards are those of before in which neither `jemalloc` nor `tcmalloc` stands, and the library of the new backend |
| `MallocPreload.BackendIs` | tools/optkit-setenv/memory.cc:104-129 | the backend reported is jemalloc exactly if that stands in the value, and glibc exactly if neither does |
| `MallocPreload.SetTwiceIff` | tools/optkit-setenv/memory.cc:12-98 | setting b1 and then b2 equals setting b2 alone if and only if b1 is not glibc or the surviving entries do not end with an empty one |
| `MallocPreload.SetTwice` | tools/optkit-setenv/memory.cc:12-98 | in particular it does when no entry is empty |
| `MallocPreload.EmptyEntryLost` | tools/optkit-setenv/memory.cc:36-42 | a value with two empty entries at its end changes again when it is set again |
| `MallocPreload.SetTwiceFails` | tools/optkit-setenv/memory.cc:36-42 | for example `a::` |
| `CGroupMemory.Memory.NormalizeMemoryValues` | tools/optkit-setenv/cgroup.cc:674-690 | the seven fields in turn, up to the first that throws |
| `CGroupMemory.Memory.Convert` | tools/optkit-setenv/cgroup.cc:678-684 | one assignment: one more field is converted, or the exception ends the normalisation |
| `CGroupMemory.Memory.ToBytes` | tools/optkit-setenv/cgroup.cc:628-673 | an exception leaves the fields as the whole normalisation does; otherwise one more field is converted |
| `CGroupMemory.NormalizedTwice` | tools/optkit-setenv/cgroup.cc:626-690 | normalising is idempotent on all fields, also when one throws part way or has overflowed |
| `CGroupMemory.Stopped` | tools/optkit-setenv/cgroup.cc:676-689 | the fields before the first that throws are converted, and all others stay |
| `CGroupMemory.UnitIff` | tools/optkit-setenv/cgroup.cc:658-670 | the suffixes that are understood are B and K, M, G, T with or without B, in any case, each with its power of 1024 |
| `CGroupMemory.UnitTexts` | tools/optkit-setenv/cgroup.cc:658-670 | the same, with all spellings listed |
| `CGroupMemory.ScaledIs` | tools/optkit-setenv/cgroup.cc:658-670 | the multipliers are 1024, 1048576, 1073741824 and 1099511627776 |
| `CGroupMemory.ConvertsIff` | tools/optkit-setenv/cgroup.cc:626-673 | nothing throws but what is neither `max`, blank, nor a size whose number fits |
| `CGroupMemory.WrappedIs` | tools/optkit-setenv/cgroup.cc:672 | the product is taken modulo 2^64 into the range of a signed integer |
| `CGroupMemory.SizeConverts` | tools/optkit-setenv/cgroup.cc:637-672 | what becomes of digits with or without a known suffix, with blanks around them and in any case |
| `CGroupMemory.SizeDenotesIff` | tools/optkit-setenv/cgroup.cc:637-672 | the text denotes number × 1024^k exactly if and only if there is no suffix, or that product is below 2^63 |
| `CGroupMemory.SizeWraps` | tools/optkit-setenv/cgroup.cc:655-672 | `8388608T` becomes -9223372036854775808 |
| `OfflineCores.Cpu.WriteOnline` | src/utils/utils.hh:454-462 | only a file that does not open throws; only a write that is done changes the flag |
| `OfflineCores.Cpu.SetOfflineCores` | tools/optkit-setenv/cpu.cc:57-83 | the list with the opened cores merged in, the flags that were written, and whether any file opened |
| `OfflineCores.Cpu.SetOnlineCores` | tools/optkit-setenv/cpu.cc:85-110 | the list without the opened cores, and the flags that were written |
| `OfflineCores.Cpu.Erase` | tools/optkit-setenv/cpu.cc:96-101 | removes the first occurrence of a core, if there is one |
| `OfflineCores.RunTidy` | tools/optkit-setenv/cpu.cc:57-110 | in every interleaving, whatever fails, the list has no core twice and never core 0 |
| `OfflineCores.StepAt` | tools/optkit-setenv/cpu.cc:57-110 | core by core, which are listed and which are offline after a call |
| `OfflineCores.StepOrder` | tools/optkit-setenv/cpu.cc:57-110 | the cores that stay listed keep their order, and new ones stand behind them |
| `OfflineCores.StepAgreesIff` | tools/optkit-setenv/cpu.cc:57-110 | a call keeps list and kernel in agreement if and only if the kernel refuses none of its changes in silence |
| `OfflineCores.RunAgreesIff` | tools/optkit-setenv/cpu.cc:57-110 | they agree after every call of any interleaving if and only if no call has a change refused in silence |
| `OfflineCores.RefusedWriteMisleads` | tools/optkit-setenv/cpu.cc:65-69 | a refused write to core 1 leaves it listed and online |
| `FrequencyRollback.Cpu.SetCoreFreq` | tools/optkit-setenv/cpu.cc:153-177 | success exactly if every socket can be set; every setting and the record after success or after the rollback |
| `FrequencyRollback.Cpu.SetUncoreFreq` | tools/optkit-setenv/cpu.cc:179-204 | the same for the uncore, and the core settings are untouched |
| `FrequencyRollback.Cpu.Rollback` | tools/optkit-setenv/cpu.cc:168-171 | resets precisely the sockets that were changed |
| `FrequencyRollback.AllOrReset` | tools/optkit-setenv/cpu.cc:153-204 | all sockets on success; otherwise those behind the failure are untouched, and none up to it has the new frequency if and only if the resets work and the failing call leaves it unset |
| `FrequencyRollback.RecordStaysTrueIff` | tools/optkit-setenv/cpu.cc:153-204 | the recorded frequency stays that of every socket if and only if the call succeeds or changes nothing |
| `FrequencyRollback.RollbackMisleads` | tools/optkit-setenv/cpu.cc:164-173 | a failure at the second socket leaves both at their defaults and the old frequency on record |
| `ProfilerStacks.Profilers.Push` | src/optkit_c.cc:216-219 | puts a profiler on its stack, if it can be made |
| `ProfilerStacks.Profilers.Pop` | src/optkit_c.cc:221-226 | takes the top of a stack off, or does nothing on an empty one |
| `ProfilerStacks.Profilers.EnergyCpuStart` | src/optkit_c.cc:1176-1209 | pushes to the selected backend's stack only |
| `ProfilerStacks.Profilers.EnergyGpuStart` | src/optkit_c.cc:1220-1260 | pushes the NVIDIA and then the AMD profiler, up to the first that cannot be made |
| `ProfilerStacks.Profilers.EnergyStart` | src/optkit_c.cc:1153-1166 | does both, and reports the GPU status only |
| `ProfilerStacks.Profilers.EnergyCpuStop` | src/optkit_c.cc:1211-1218 | pops the stacks of all three backends |
| `ProfilerStacks.Profilers.EnergyGpuStop` | src/optkit_c.cc:1262-1268 | pops the stacks of both vendors |
| `ProfilerStacks.Profilers.EnergyStop` | src/optkit_c.cc:1168-1174 | pops what both stops pop |
| `ProfilerStacks.Profilers.TemperatureStart` | src/optkit_c.cc:1328-1360 | pushes the hwmon and then the GPU profiler, up to the first that cannot be made |
| `ProfilerStacks.Profilers.TemperatureStop` | src/optkit_c.cc:1362-1368 | pops both |
| `ProfilerStacks.Profilers.PerfStart` | src/optkit_c.cc:1094-1144 | refuses arrays that are null with a count or both empty, and otherwise pushes the perf profiler if it can be made |
| `ProfilerStacks.Profilers.SingleStart` | src/optkit_c.cc:1270-1290 | callstack, disk and the two single temperature starts push one profiler |
| `ProfilerStacks.Profilers.SingleStop` | src/optkit_c.cc:1292-1297 | and their stops pop one |
| `ProfilerStacks.RunAt` | src/optkit_c.cc:212-244 | what a run of calls does to one stack depends on that stack alone |
| `ProfilerStacks.StartsOne` | src/optkit_c.cc:1094-1326 | each start of one profiler puts it on the stack of its kind |
| `ProfilerStacks.StartsMore` | src/optkit_c.cc:1153-1360 | NVIDIA before AMD and hwmon before the GPU, up to the first that cannot be made |
| `ProfilerStacks.StopsEach` | src/optkit_c.cc:1146-1426 | a stop takes the latest profiler off each of its stacks and leaves the others alone |
| `ProfilerStacks.OutcomeIs` | src/optkit_c.cc:1153-1166 | which of the errors a start reports |
| `ProfilerStacks.UnselectedStaysEmpty` | src/optkit_c.cc:1190-1218 | in every run the stacks of unselected energy backends stay empty, so their pops do nothing |
| `ProfilerStacks.WordsRestore` | src/optkit_c.cc:1146-1426 | every well-bracketed word of starts and stops of all kinds leaves every stack exactly as it was |
| `ProfilerStacks.BracketedRunsRestore` | src/optkit_c.cc:1146-1426 | so does every run that looks well-bracketed to each stack, with pairs on different stacks overlapping freely |
| `ProfilerStacks.StopDestroysItsStart` | src/optkit_c.cc:1146-1426 | each stop destroys precisely the profilers of its start |
| `ProfilerStacks.StartStopRestoresIff` | src/optkit_c.cc:1153-1218 | when profilers cannot be made or another backend was used before, a start and its stop restore the stacks if and only if every stack that is popped without having been pushed to was empty |
| `ProfilerStacks.ReportedStartRestoresIff` | src/optkit_c.cc:1153-1218 | a start of all energy profilers that reports success and its stop restore the stacks if and only if no unselected CPU backend has profilers, and the selected one could be started or had none |
| `ProfilerStacks.ReportedStartRobs` | src/optkit_c.cc:1153-1218 | with one RAPL profiler running, a start that cannot make another reports success, and its stop ends the first |

## Left out

- Drivers, sysfs, MSRs, /proc, processes, threads and the mutex of the result files: a file is a text, a write is an
  operation that may fail, an environment variable is an optional text.
- Floating point: lattice, momenta and frames are over the reals, frequencies are integers in kHz, and a prediction
  is invalid or a rounded target. Out-of-range numbers of `std::stod` are not modelled.
- `putAtomInBox`, `kineticEnergy`, the halo exchange and MPI are not part of this model: placing an atom appends it,
  and a reduction is a sum over the ranks. The random momenta of `setTemperature` are any momenta, and its scale factor
  is any number.
- The duration of `event_counts_from_values` is given in microseconds, already cast to an integer.
- `Annotate.Directory` has one name per file and a fixed set of files that cannot be read or written; a torn write is
  not modelled.
- Signed overflow of `value * multiplier` in cgroup.cc is undefined in C++; the model wraps around, as compilers do.
- The script that `set_malloc_backend` writes beside changing LD_PRELOAD.
- A builder that allows duplicates and is added to itself, which reads a vector while it grows.
- `set_all_cores_online` and `set_all_cores_offline`: the first does not update the list, the second clears it first.
- Frequencies are clamped to the limits of the hardware inside the driver; here a socket is set to what was asked for.
- The daemon ignores whether the driver obeys, so the sockets of `FrequencyControl` are what was commanded.
- The four starts of one profiler without arrays (callstack, disk, hwmon and GPU temperature) differ in how they
  configure it only, and so do the five stops; here they are one method each, with the kind as a parameter. What
  `optkit_perf_start` makes of its metrics and events decides only whether its profiler can be made.
- `apply_freq_window_in_place` cuts one slice out of a list, and the core-scaling schedule of stat.cc doubles a number
  of cores up to a limit; `calculate` and `metric_names` of the metric builder read a map without changing
  it. None of them has a state that another function depends on. `scale_y` and the training itself are numerical.
- The Python and C wrappers, help texts, plots and `to_string` printers.

# APM: a verified model

APM is a package manager daemon for Android (`apmd`) with a companion module daemon (`amsd`).
This project models the parts of both daemons that decide something, and proves what they are
for. Strings are sequences of bytes (a Dafny `char` stands for one byte). Storage, kernel and
crypto operations are steps that may fail at any time; where a guarantee needs some of them to
succeed, its contract names the failure. Failures the code reports are outcome values, and where
a contract says when an operation succeeds they are counted (`failed`); those nobody notices are
counted too (`unseen`, `unseenLeft`, `lost`, `faults`): a read that stops early
or is taken for an empty file, a listing or a stat that fails, a file whose last bytes are lost
when it is closed. Hash-map iteration is an arbitrary choice.

| module | subject |
|---|---|
| `PackageIndex`, `PackageText`, `RepoIndex`, `MergedIndex` | index files, linear package scan, the maps that replace it, upgrade candidates against the resolver's merged list |
| `Dependency` | depth-first resolver with cycle and missing-name detection |
| `VersionOrder` | version comparison by runs |
| `Lifecycle`, `InstallSpec`, `InstallManager`, `StatusStore`, `StatusDb` | install, remove and autoremove as a state machine over the text of the status file and the payloads |
| `StatusFile`, `StatusSettles`, `Depends`, `Text` | dpkg-style status file and its Depends fields, which databases survive a save |
| `Overlay`, `BindMounts` | overlay mounts emulated with bind mounts, rollback, the persisted mount list |
| `BootGuard` | boot counter and safe mode |
| `Sha256` | streaming SHA-256 |
| `ExportPath`, `Sorting` | command shim allocation and the shim directory |
| `ManualPackage` | package-info JSON |
| `Protocol`, `IpcClient` | response frames and the client's stream decoder |
| `DebExtractor` | the ar container of a .deb |
| `Session`, `Recovery` | rolling sessions shared by the daemons, lockout after wrong recovery answers |

Loops and recursions that change state are methods and classes proved against specification
functions; what the code is for is then proved of those functions. `dafny verify dfyconfig.toml`
checks everything.

## Findings

Places where the code does less than its documentation or a reader would expect. Each is a
lemma, with the exact condition where there is one.

- Installed names are dropped from every plan, so a reinstall, and with it an upgrade, never
  touches a record of its own domain (`InstallManager.InDomainUntouched`).
- The length field written by `finalHex` counts the padding; no message is padded as FIPS 180-4
  prescribes (`Sha256.LengthFieldDiffers`).
- With several indices the upgrade candidate can differ from the entry the resolver picks
  (`MergedIndex.SameChoiceIff`, example in `MergedIndex.ChoicesPart`).
- The bind backend shows the overlay of the staged tree exactly when every dot-name it passes
  over is already in the base (`Overlay.ShownIsMergeIff`, example in `Overlay.HiddenNameLost`).
- A staged top-level symlink overlays the whole mount point after the binds of the names before
  it; the mounts can then all be released exactly when none of those names was bound
  (`BindMounts.ApplyAndRelease`, example in `BindMounts.LeakExample`).
- A bind state file that cannot be read is taken for an empty one and overwritten; its mounts
  stay live off record (`BindMounts.MisreadExample`). An unreadable lockout file unlocks
  (`Recovery.MisreadUnlocks`).
- A database survives its status file exactly when every field is a single line without space at
  either end and entries are keyed by their names (`StatusSettles.LoadOfWrittenIff`). Of the
  entries an index file can hold, those survive whose version and architecture have no
  continuation line (`PackageIndex.ParsedStorableIff`). A continuation line in a Version field
  comes back as a dependency and leaves the database open (`PackageIndex.SplitEntryIsParsed`,
  `InstallManager.SplitFieldOpens`).
- A failed removal of a Debian package leaves record and payload in agreement exactly when the
  restoring save succeeded (`InstallManager.RemovePackage`). A Termux removal that fails on one
  file deletes the root all the same, and the restored record has no payload
  (`InstallManager.HalfRemoved`).
- A failed install leaves its root only if deleting it failed, with one exception: nothing deletes
  the fresh root of a Termux package without files whose mode could not be set
  (`StatusStore.Store.UnpackTermux`, `InstallManager.StrayRoot`).
- A record called commands without an install root has the directory of all commands as its
  payload; removing it deletes them (`Lifecycle.NestedRoot`). Roots as the installer chooses them
  never lie in one another (`Lifecycle.StandardApart`).
- Recording a package that takes over a name of the other domain opens the database exactly when
  something there depends on it (`Lifecycle.RecordingKeepsClosedIff`, example in
  `InstallManager.TakenNameOpens`).
- A shim is written to its name followed by `.tmp` and renamed. A shim of that very name written
  earlier is lost, although the rebuild reports success and lists it
  (`ExportPath.Rebuild`, example in `ExportPath.ClobberExample`).
- Two providers that differ only in the Termux flag are one to `std::unique`; which flag the shim
  gets is then open, and only then (`ExportPath.OutcomeFixedIff`, `ExportPath.FlagExample`).
- Each daemon locks the session file for single reads and writes only: a refresh of an old token
  may be written after a new one was issued, which is refused from then on
  (`Session.LateRefresh`). Every accepted token still goes back to an issue (`Session.Play`).
- An application whose state-file save failed part-way is undone, but may stay on record
  (`BindMounts.StaleRecordExample`); after any other that ended, the record is the live mounts.
- A field value survives the IPC frame exactly when it has no blank at either end
  (`Protocol.ReadBackIff`, example in `Protocol.EdgeBlankLost`).
- The extractor reports success for a member whose last bytes were lost when its file was closed
  (`DebExtractor.LostEnd`).

## Model

| member | source | states |
|---|---|---|
| RepoIndex.FindPackage | src/core/repo_index.cpp:619-648 | the scan returns the first exact-architecture entry, else the first "all" entry; without an architecture the first entry of the name |
| RepoIndex.BuildMaps | src/core/dependency.cpp:192-227 | for every list, architecture and name, the three-map lookup of the resolver equals that scan |
| RepoIndex.BuildTermuxMap | src/core/dependency.cpp:239-252 | the Termux map holds the first Termux entry of every non-empty name |
| RepoIndex.EmplaceIndexes | src/core/dependency.cpp:200-211 | emplacing one more entry keeps a map equal to "first selected entry so far" |
| RepoIndex.EmplaceAll | src/apmd/install_manager.cpp:2406-2411 | merging one index's hits into the candidate map gives the same map in every enumeration order; earlier hits win |
| RepoIndex.BuildCandidates | src/apmd/install_manager.cpp:2359-2411 | each candidate is what the first index of the right domain whose own scan succeeds returns |
| RepoIndex.BuildNameIndex | src/apmd/ipc_server.cpp:446-473 | the daemon's name index is the first index hit of an architecture-free scan |
| MergedIndex.ResolverSees | src/apmd/install_manager.cpp:1594-1664 | the list handed to the resolver in Debian mode is the concatenation of the non-Termux indices |
| MergedIndex.MergedScan | src/apmd/install_manager.cpp:1594-1612 | scanning the merged list is scanning index after index |
| MergedIndex.SameChoiceIff | src/apmd/install_manager.cpp:2366-2420 | upgrade candidate and resolver pick coincide if and only if not: the first index offering the name has it only as "all" and a later one has the exact architecture |
| MergedIndex.ChoicesPart | src/apmd/install_manager.cpp:2366-2420 | two indices for which they differ |
| Dependency.Visit | src/core/dependency.cpp:116-162 | the recursive visit terminates (measure: known names neither being visited nor finished) and keeps the three-colour invariant |
| Dependency.VisitDependency | src/core/dependency.cpp:136-150 | after one loop iteration the dependency is skipped, reported missing, on the stack or finished, and nothing found before is lost |
| Dependency.BackEdgeCloses | src/core/dependency.cpp:127-132 | meeting a name on the call stack exhibits a dependency cycle through it |
| Dependency.TopologicalIsAcyclic | src/core/dependency.cpp:152-161 | a duplicate-free completion order with dependencies first leaves no cycle among its elements |
| Dependency.ClosedHoldsReach | src/core/dependency.cpp:136-150 | a set closed under dependencies that holds the root holds everything reachable |
| Dependency.FinishedIsExact | src/core/dependency.cpp:164-166 | a finished walk is exact: missing names are exactly the unresolvable dependencies of reachable packages, cycles are reported iff one is reachable, the plan is duplicate-free, names exactly reachable minus installed, uninstalled dependencies first |
| Dependency.MinusOrdered | src/core/dependency.cpp:155-161 | dropping installed names keeps uninstalled dependencies before their dependants |
| Dependency.ResolveRecursive | src/core/dependency.cpp:80-180 | for every repository, root and installed set the outcome is exact in that sense; an unknown root is refused with an empty result |
| Dependency.ResolveDependencies | src/core/dependency.cpp:187-232 | the same over the three maps for every architecture |
| Dependency.ResolveTermuxDependencies | src/core/dependency.cpp:234-258 | the same over the Termux map |
| Dependency.SuccessIff | src/core/dependency.cpp:166-179 | resolution succeeds if and only if no unresolvable dependency and no cycle is reachable from the root |
| VersionOrder.CompareVersionSimple | src/apmd/install_manager.cpp:1500-1563 | the two-cursor loop computes the lexicographic order of maximal digit and non-digit runs; what that order is on strings is said by the rows below |
| VersionOrder.StrippedIsByValue | src/apmd/install_manager.cpp:1532-1551 | stripping zeros and comparing length then bytes is comparing the numbers, for digit runs of any length |
| VersionOrder.VersionsAntisymmetric | src/apmd/install_manager.cpp:1500-1563 | swapping the versions flips the sign |
| VersionOrder.VersionsTransitive | src/apmd/install_manager.cpp:1500-1563 | the order is transitive |
| VersionOrder.EqualVersionsIff | src/apmd/install_manager.cpp:1500-1563 | the result is 0 if and only if the runs agree up to leading zeros of numbers |
| VersionOrder.LongerIsLater | src/apmd/install_manager.cpp:1508-1512 | a version that goes on after a complete run of digits or of other characters is the later one: (a, a + c) gives -1 |
| VersionOrder.NextRunDecides | src/apmd/install_manager.cpp:1514-1560 | after a common beginning the next two runs decide: the smaller number first, the text that is earlier byte by byte first, text before a number |
| VersionOrder.PrefixCancels | src/apmd/install_manager.cpp:1514-1560 | a common beginning that ends with a run does not matter |
| VersionOrder.SmallerNumber | src/apmd/install_manager.cpp:1532-1551 | without leading zeros the shorter digit run is the smaller number, and of two equally long ones the one that is earlier byte by byte |
| VersionOrder.EarlierIff | src/apmd/install_manager.cpp:1553-1558 | the byte order is decided at the first difference, where one text ends or has the lower byte |
| Lifecycle.RemovalKeepsClosedIff | src/apmd/install_manager.cpp:2085-2126 | removing a package keeps the database dependency-closed if and only if the "required by" test lets it through |
| Lifecycle.RecordingKeepsClosedIff | src/apmd/install_manager.cpp:1946-1984 | recording a package keeps closure if and only if its dependencies are met and it steals no name another domain depends on |
| Lifecycle.ManualSurvives | src/apmd/install_manager.cpp:2216-2247 | no manually installed package is outside the largest supported set |
| Lifecycle.DependencySurvives | src/apmd/install_manager.cpp:2216-2247 | no dependency of a survivor is outside it |
| Lifecycle.LargestIsUnique | src/apmd/install_manager.cpp:2199-2295 | there is only one largest subset in which every auto-installed package is required by another member of its domain |
| Lifecycle.OrphanIsUnsupported | src/apmd/install_manager.cpp:2216-2247 | a candidate of a round belongs to no supported subset of what is left |
| Lifecycle.AgreeAfterRemoval | src/apmd/install_manager.cpp:2145-2174 | deleting the tree of a package takes exactly its own payload and keeps records and payloads in agreement |
| Lifecycle.AgreeAfterInstall | src/apmd/install_manager.cpp:1928-1984 | adding both keeps agreement |
| Lifecycle.StandardApart | src/apmd/install_manager.cpp:1917-1928 | install roots of different packages never lie in one another |
| Lifecycle.NestedRoot | src/apmd/install_manager.cpp:2131-2140 | a record whose default root is the directory of all commands: removing it takes their payloads |
| InstallManager.ResolutionIsGoodPlan | src/apmd/install_manager.cpp:1672-1702 | a successful resolution against the in-domain installed names yields a plan without installed names in which every dependency is installed or planned earlier |
| InstallManager.ValidNameIff | src/core/security.cpp:140-184 | a name is accepted if and only if it starts with a lower-case letter or digit, goes on with those, plus, minus and dot, and has no two dots in a row |
| InstallManager.OfferedIff | src/apmd/install_manager.cpp:1594-1648 | the merged list has the name in a domain if and only if an index lists it there; an entry is in the Termux domain if its index or its own mark says so |
| InstallManager.ModeIsDomain | src/apmd/install_manager.cpp:1636-1640 | an install works on Termux packages if asked to, or if the name is listed there and nowhere else |
| InstallManager.RecordForDescribes | src/apmd/install_manager.cpp:1917-1977 | the record of a planned entry, field by field: the root asked for goes below commands, every other Debian package below dependencies, Termux packages below the Termux directory; version, architecture, repository and dependencies are those of the entry; automatic unless it is the root or was manual before |
| InstallManager.RecordedRecords | src/apmd/install_manager.cpp:1946-1984 | after any part of a plan each of its entries has that record and every other record is unchanged |
| InstallSpec.RecordedPlace | src/apmd/install_manager.cpp:1161-1180 | where records and payloads agree, a recorded root is the place of a payload |
| InstallSpec.RootOfIs | src/apmd/install_manager.cpp:2131-2140 | where the payload of a record is: its install root, or for records without one the directory of its name below that of its domain |
| InstallManager.RecordedClosed | src/apmd/install_manager.cpp:1946-1988 | every intermediate database of such a plan is dependency-closed |
| InstallManager.InDomainUntouched | src/apmd/install_manager.cpp:1672-1678 | no part of any plan changes a record already in the domain |
| InstallManager.RecordedAgree | src/apmd/install_manager.cpp:1928-1988 | after any part of a plan the payload roots are exactly those of the recorded packages |
| InstallManager.RecordedStorable | src/apmd/install_manager.cpp:1946-1984 | recording entries with one-line values and bare dependencies keeps the database one that survives its text |
| InstallManager.TakenNameOpens | src/apmd/install_manager.cpp:1672-1678 | a good plan whose record takes over a name a package of the other domain depends on |
| InstallManager.SplitFieldOpens | src/core/repo_index.cpp:516-525 | an entry with a continuation line in its version: the recorded database is closed, what its save reads back as is not |
| InstallManager.InstallOne | src/apmd/install_manager.cpp:1796-2010 | one pass either installs payload and record, or leaves the status file as it was and names what failed: the package name, or a step that reported a failure, or a root in the way; it also reports what kept it from clearing the root, and from a free root the payloads change by the root exactly if the pass succeeded or that fault keeps the root |
| InstallManager.InstallNext | src/apmd/install_manager.cpp:1796-2010 | the same as one more step of a plan that started in agreement: agreement is kept, or lost exactly by a fault that keeps the root, and a failed step reported its failure |
| InstallManager.FaultBreaksAgreement | src/apmd/install_manager.cpp:1985-2003 | after a failed pass records and payloads agree if and only if no fault kept the root |
| InstallManager.InstallWithDeps | src/apmd/install_manager.cpp:1571-2039 | why it ends: an illegal name, if and only if it is one; not offered, if and only if no index lists the name in the domain; unresolvable, if and only if the root is unknown to the resolver or something reachable is missing or on a cycle; otherwise the package whose turn it was, because its name is illegal, a step reported a failure, or its root was in the way; under the conditions of the last clause below the latter cannot happen. The plan is exactly what is reachable and not installed, dependencies first. The status file is saved once per recorded package, in plan order; if nothing fails unseen and the entries are storable, each recorded package has the record its entry calls for and all others are unchanged; success means the whole plan is recorded and the root is installed in its domain. If they agreed before, no planned name is installed in the other domain and nothing fails unseen, records and payloads agree if and only if no fault kept a root from being cleared |
| InstallManager.Plan | src/apmd/install_manager.cpp:1672-1702 | a plan is found if and only if the root is known and nothing reachable is missing or on a cycle, and then it is the exact one |
| InstallManager.FindDependents | src/apmd/install_manager.cpp:2085-2107 | the dependents list is non-empty if and only if another package of the domain depends on the name |
| InstallManager.RemovePackage | src/apmd/install_manager.cpp:2047-2195 | every outcome with its exact effect on the text, the payloads and the saved databases; refusal only without force and only for required packages, and every other failure of an installed package is one a storage step reported; a Debian removal fails only on its tree, and then records and payloads agree if and only if the restoring save succeeded; a Termux removal also agrees if files stayed and the entry was not put back |
| InstallManager.DropPayload | src/apmd/install_manager.cpp:2145-2174 | the end of a removal: the payload goes, or the entry is put back and the outcome names the fault; only a Termux removal can lose its root while it fails |
| InstallManager.RemovalAgreesIff | src/apmd/install_manager.cpp:2145-2174 | after any removal that touched the disk, records and payloads agree if and only if it succeeded, or the entry was put back and the fault kept the root, or neither |
| InstallManager.HalfRemoved | src/apmd/install_manager.cpp:1161-1186 | a removal of a recorded Termux package that fails on single files: its entry is restored, its root is gone |
| InstallManager.StrayRoot | src/apmd/install_manager.cpp:1416-1424 | an install of a Termux package without files whose root cannot be given its mode: the root stays without a record |
| InstallManager.RemovalStep | src/apmd/install_manager.cpp:2145-2174 | both contents a removal may write, also the restored one, are closed |
| InstallManager.Autoremove | src/apmd/install_manager.cpp:2199-2295 | terminates; on a storable database with complete reads and saves no removal is refused, and on success the database is the largest subset in which every auto-installed package is required by another member of its domain, in every enumeration order |
| InstallManager.RemoveCandidate | src/apmd/install_manager.cpp:2250-2262 | one removal of a round keeps what the round relies on, whatever its outcome |
| InstallManager.ShrinkByOrphan | src/apmd/install_manager.cpp:2250-2262 | an orphan of the round is still no other package's dependency when its turn comes, and removing it loses no supported subset |
| InstallManager.NoOrphansIsLargest | src/apmd/install_manager.cpp:2239-2248 | when no orphan is left the largest supported set is reached |
| InstallManager.InstallKeeps | src/apmd/install_manager.cpp:1796-2010 | an install, complete or cut short, keeps closure of every written database |
| InstallManager.Run | src/apmd/install_manager.cpp:1571-2295 | over any sequence of installs of storable repositories, unforced removals and autoremoves with arbitrary reported faults, every status file ever written reads back as a dependency-closed database, and while no cleanup, restoring save or Termux file removal fails the recorded packages are exactly those with a payload |
| Depends.SplitAndTrim | src/core/status_db.cpp:67-81 | the getline loop yields the trimmed non-empty pieces |
| Depends.ParseDependsField | src/core/status_db.cpp:84-127 | the parser reads one bare name per comma group: first alternative, without version and architecture |
| Depends.ParsedIsClean | src/core/repo_index.cpp:406-453 | for every raw field, each parsed name is non-empty and free of spaces, commas, bars, parentheses and colons |
| Depends.ParsedJoined | src/core/status_db.cpp:337-345 | bare names survive being joined with ", " and parsed again |
| Depends.ReparseIsStable | src/core/status_db.cpp:84-127 | for every raw string, what was parsed is parsed again from its joined form |
| Depends.GroupNameIs | src/core/repo_index.cpp:412-449 | a group stands for its name, whatever follows it: white space, a version in parentheses, alternatives, an architecture |
| Depends.FieldIsParsed | src/core/repo_index.cpp:405-453 | a field of such groups joined by ", " is read as their names, in order |
| StatusFile.ParseStanzas | src/core/status_db.cpp:166-225 | the line loop computes the fold of one line step: carriage returns, continuation lines, lines without colon, blank lines |
| StatusFile.ReturnsIgnored | src/core/status_db.cpp:184-187 | lines with a carriage return at their end are read as those without |
| StatusFile.ReadPackage | src/core/status_db.cpp:249-287 | missing and empty fields read as empty, Depends through the parser, flags through 1/yes/true in any case |
| StatusFile.TruthyIff | src/core/status_db.cpp:129-134 | on are exactly 1, and yes and true in any mixture of cases |
| StatusFile.LoadStatusFile | src/core/status_db.cpp:230-298 | a missing file is an empty database, an unreadable one an error; later stanzas win, nameless ones are dropped |
| StatusFile.WriteStatusFile | src/core/status_db.cpp:301-352 | the text is the stanzas in some enumeration order with their blank lines |
| StatusFile.StanzaLayout | src/core/status_db.cpp:316-350 | a stanza as text: which keys, in which order, and what is left out |
| StatusFile.EntryIsRead | src/core/status_db.cpp:207-222 | one written line is read as its key and value, whatever the reader's state |
| StatusSettles.ValueSurvivesIff | src/core/status_db.cpp:207-222 | every value, of one line or more, read from any state: it comes back if and only if it is a single line without space at either end |
| StatusFile.PackageReadsBack | src/core/status_db.cpp:249-287 | the fields of a well-formed package give that package |
| StatusFile.LoadOfWritten | src/core/status_db.cpp:230-352 | for every storable database and every enumeration order, load of write is the same database |
| StatusFile.SaveAndLoad | src/core/status_db.cpp:230-352 | the same for writer and loader composed |
| PackageIndex.ParsePackagesString | src/core/repo_index.cpp:555-600 | the loop yields one entry per stanza that names a package; what an entry holds is said by the next row |
| PackageText.FileIsParsed | src/core/repo_index.cpp:474-600 | any list of printed stanzas, one after the other, is read as one entry each: the printed name, version and architecture, the names of the Depends field followed by those of the Pre-Depends field, and the Termux mark if and only if the file name holds the Termux prefix or a dependency one of the three Termux names, in any case |
| PackageText.MarkIs | src/core/repo_index.cpp:456-484 | when an entry is marked as a Termux package, on characters |
| PackageText.BareNamesFit | src/core/repo_index.cpp:405-453 | lists of bare names are fields of that kind |
| PackageIndex.ParsedStorableIff | src/core/repo_index.cpp:486-600 | of the entries any index file can hold, exactly those survive the status file whose version and architecture are one line |
| PackageIndex.SplitEntryIsParsed | src/core/repo_index.cpp:516-525 | the index text whose entry opens the database |
| StatusSettles.LoadOfWrittenIff | src/core/status_db.cpp:230-352 | for every database and every enumeration order, load of write is the same database if and only if it is storable |
| StatusSettles.LoadedIsTame | src/core/status_db.cpp:166-298 | whatever the file holds, no loaded value can open a new field or stanza when it is written |
| StatusSettles.SavedSettles | src/core/status_db.cpp:230-352 | so one save of a loaded database settles it: what it reads back as survives every later save |
| StatusSettles.HiddenDependency | src/core/status_db.cpp:317-345 | a version with a line that reads as a Depends field comes back as that dependency |
| StatusStore.PrintsReads | src/core/status_db.cpp:230-352 | a saved text means the database it was printed from if and only if that is storable |
| StatusStore.Store.LoadStatus | src/core/status_db.cpp:230-247 | a file that cannot be opened is an error; a failing stat or a read error part-way is taken for the end of the file |
| StatusStore.Store.WriteStatus | src/core/status_db.cpp:301-372 | the old text stays in place after a reported failure; lost last bytes go unnoticed |
| StatusStore.Store.RemovePayload | src/apmd/install_manager.cpp:1161-1221 | a Debian removal fails only while its tree is there; a Termux removal fails without manifest, with a stuck tree, or because of single files after the tree is gone; a removal of a payload that is there fails only on a step that reported a failure; a failing stat passes for success |
| StatusStore.Store.RemoveTree | src/util/fs.cpp:197-251 | deleting a tree takes what lies in it and fails only while the root is there; a failing stat passes for success |
| StatusStore.Store.CleanStaleRoot | src/apmd/install_manager.cpp:1224-1260 | a root that no Termux record claims is deleted |
| StatusStore.Store.UnpackTermux | src/apmd/install_manager.cpp:1411-1473 | a failed Termux install leaves a root only if deleting it failed or its mode could not be set |
| StatusStore.Store.InstallPayload | src/apmd/install_manager.cpp:1265-1495 | a failed install adds nothing but its root, and that only with such a fault; a Debian install never; it failed because a step reported a failure or the root was there and stays |
| Overlay.MergeAssociates | src/ams/module_manager.cpp:1365-1372 | merging layers first or onto the base first is the same when no directory meets a non-directory and no file meets a link |
| Overlay.MergeNeedsCompatible | src/ams/module_manager.cpp:1365-1372 | without that condition it is not |
| Overlay.MergedAt | src/ams/module_manager.cpp:1365-1378 | what is at a path of a merged tree: a file of the upper layer, a directory where the upper layer has one, nothing below a file of the upper layer, and what the lower layer has wherever the upper one has nothing |
| Overlay.CoveredIff | src/ams/module_manager.cpp:1244-1246 | a staged subtree may be passed over if and only if the base already has all of it |
| Overlay.ShownIsMergeIff | src/ams/module_manager.cpp:1229-1328 | the tree shown for a staged directory is its overlay on the base if and only if every dot-name passed over is harmless |
| Overlay.DescendedIsMergeIff | src/ams/module_manager.cpp:1294-1325 | the same for a directory handled entry by entry |
| Overlay.NoHiddenIsHarmless | src/ams/module_manager.cpp:1244-1246 | without dot-names the condition holds |
| Overlay.HiddenNameLost | src/ams/module_manager.cpp:1244-1246 | a staged dot-file that an overlay shows and the bind backend does not |
| BindMounts.Target.ApplyRecursively | src/ams/module_manager.cpp:1229-1328 | on any return the mounts made are those appended to the list, none nested in another; on success, with every listing read, the subtree shows exactly the merged tree, and a mount was made if and only if some entry calls for one |
| BindMounts.Target.ApplyTop | src/ams/module_manager.cpp:1387-1451 | the top-level loop; it succeeds if and only if no step reported a failure and no name listed before every special entry is neither a directory over a directory nor a file over a file; a special entry ends it with an overlay of the whole mount point over the binds made before, of which there are none if and only if no name before the first special one is bound |
| BindMounts.Target.Rollback | src/ams/module_manager.cpp:1380-1385 | unless the kernel refuses an unmount, exactly the mounts made by this call disappear |
| BindMounts.Target.UnmountTracked | src/ams/module_manager.cpp:1100-1154 | sorted, duplicate-free, from last to first; it succeeds if and only if no unmount was refused and no step reported a failure; the state file is emptied only after all unmounts, or after a read that showed nothing |
| BindMounts.Target.Apply | src/ams/module_manager.cpp:1330-1465 | unless something failed unseen, for layers that stage without a clash: it reports success if and only if no unmount was refused, no step reported a failure and no name stops the top-level loop; the visible tree is then Ln over ... over L1 over base whenever no name at any depth of any layer starts with a dot, and in general if and only if every such name is harmless; live mounts are non-nested if and only if the staged tree is tidy. The recorded paths are exactly the live mounts in order; when it fails without refused unmounts nothing is mounted, and nothing is on record unless the failing step was the save. Without layers, a state file that was not read leaves every mount live and none on record |
| BindMounts.StackedHasNoDotNames | src/util/fs.cpp:271-273 | layers without names that start with a dot stage to a tree without such names |
| BindMounts.ApplyMany | src/ams/module_manager.cpp:1330-1465 | over any number of applications of releasable stacks with arbitrary faults, while no unmount is refused and nothing fails unseen, live mounts are non-nested and every one is on record |
| BindMounts.ApplyAndRelease | src/ams/module_manager.cpp:1130-1465 | mounting a stack and releasing it again empties the mount point if and only if no name sorting before the first special entry of the staged tree makes a mount |
| BindMounts.ReleasedIff | src/ams/module_manager.cpp:1138-1147 | the same for the mounts of any application and any list order |
| BindMounts.LeakExample | src/ams/module_manager.cpp:1442-1450 | a layer with a file and a symlink for which it does not |
| BindMounts.PlainIsReleasable | src/ams/module_manager.cpp:1387-1451 | layers without links or special files can always be released |
| BindMounts.StaleRecordExample | src/ams/module_manager.cpp:1453-1458 | a save that fails after writing the list leaves an undone mount on record |
| BindMounts.MisreadExample | src/ams/module_manager.cpp:1104-1152 | one unread state file leaves a live mount off record |
| BindMounts.EarlyIsHandled | src/util/fs.cpp:254-282 | names are listed in byte order, so those handled before the first special entry are those sorting before every special entry |
| BindMounts.BindsIff | src/ams/module_manager.cpp:1245-1325 | a directory handled entry by entry makes a mount if and only if one of its listed entries does |
| BindMounts.StagedOverBase | src/ams/module_manager.cpp:1365-1378 | staging the layers and overlaying the result equals stacking the layers on the base |
| BindMounts.Stage | src/ams/module_manager.cpp:1365-1372 | copying the layers in turn gives their stack, wherever each layer replaces what it meets |
| BindMounts.DetachLast | src/ams/module_manager.cpp:1381-1384 | unmounting in reverse order undoes one mount at a time, nested or not |
| BindMounts.DetachTakesBelow | src/ams/module_manager.cpp:1138-1147 | unmounting takes along exactly what was mounted below the path since |
| BindMounts.DetachNonNested | src/ams/module_manager.cpp:1138-1147 | without nesting, unmounting a path removes exactly its mount |
| BindMounts.DetachAllNonNested | src/ams/module_manager.cpp:1138-1147 | so the order of the persisted list does not matter |
| BindMounts.RootOverlayLeaks | src/ams/module_manager.cpp:1442-1450 | after a root overlay over binds, unmounting in list order leaves all of the binds mounted |
| BootGuard.GuardFiles.IncrementBootCounter | src/ams/module_manager.cpp:2212-2227 | unless a read or write goes wrong, the stored number grows by one, from the largest value to 1 |
| BootGuard.GuardFiles.MarkBootSuccess | src/amsd/amsd.cpp:285-300 | counter reset and flag cleared as safe mode and overlays decide |
| BootGuard.GuardFiles.Start | src/amsd/amsd.cpp:230-267 | without such faults modules load iff counter and flag allow it, and the files hold the next state |
| BootGuard.NumberIsRead | src/ams/module_manager.cpp:2229-2240 | the counter text is read back as the number written |
| BootGuard.ThresholdIs | src/ams/module_manager.cpp:2248-2260 | the threshold is the positive number in its file, or 3 |
| Text.SignedIsRead | src/ams/module_manager.cpp:2229-2240 | numbers with white space or a sign in front and anything behind them, as strtoull reads them |
| Text.NoDigitsRefused | src/ams/module_manager.cpp:2229-2240 | without a digit in its place there is no number |
| BootGuard.GuardIs | src/amsd/amsd.cpp:230-300 | after any history the whole state is a function of the number of trailing failed boots |
| BootGuard.LoadsIff | src/amsd/amsd.cpp:230-267 | modules are loaded if and only if fewer than threshold boots in a row immediately before failed, also across counter wrap |
| BootGuard.SafeModeEndsWithSuccess | src/amsd/amsd.cpp:284-300 | safe mode persists until a boot succeeds; the next boot loads modules again |
| BootGuard.Play | src/amsd/amsd.cpp:230-300 | the daemon played over any history does so, as long as its reads and writes succeed |
| Sha256.SHA256.Update | src/util/crypto/sha256.cpp:69-84 | buffering any input yields the abstract state fed with it, all indices in bounds |
| Sha256.SHA256.ProcessBlock | src/util/crypto/sha256.cpp:91-141 | the schedule array and the eight-variable loop compute the compression of section 6.2.2 of FIPS 180-4 |
| Sha256.SHA256.FinalHex | src/util/crypto/sha256.cpp:144-170 | the result is the block fold over the coded padding of what was fed |
| Sha256.BlocksAppend | src/util/crypto/sha256.cpp:72-83 | folding a message in two parts is folding it at once |
| Sha256.FeedSplit | src/util/crypto/sha256.cpp:69-84 | two updates equal one update with the concatenation |
| Sha256.PaddedIsWholeBlocks | src/util/crypto/sha256.cpp:148-160 | the padded message is a whole number of 64-byte blocks |
| Sha256.LengthFieldInjective | src/util/crypto/sha256.cpp:156-159 | different bit counts give different length fields |
| Sha256.LengthFieldDiffers | src/util/crypto/sha256.cpp:154-160 | the coded padding equals that of section 5.1.1 up to the length field and differs there for every message |
| Sha256.FinalIsDigest | src/util/crypto/sha256.cpp:144-160 | the buffer position determines the padding of the whole message |
| Sha256.HashChunks | src/util/crypto/sha256.cpp:173-199 | any split of a message over update calls yields the digest of the message |
| Sha256.ConstantIs | src/util/crypto/sha256.cpp:34-50 | the round constants are the first 32 bits of the fractions of the cube roots of the first 64 primes |
| Sha256.InitialValueIs | src/util/crypto/sha256.cpp:57-66 | the initial hash value is that of the square roots of the first eight primes |
| Sha256.ChIs | src/util/crypto/sha256.cpp:117-121 | Ch chooses between its second and third argument by the bits of the first |
| Sha256.MajFirstTwo | src/util/crypto/sha256.cpp:120-121 | Maj follows two arguments that agree |
| Sha256.BigSigma0Moves | src/util/crypto/sha256.cpp:119-121 | where the first big sigma function moves the highest and the lowest bit; being a sum of rotations, it is fixed by that |
| Sha256.BigSigma1Moves | src/util/crypto/sha256.cpp:116-118 | the same for the second |
| Sha256.SmallSigma0Moves | src/util/crypto/sha256.cpp:101-103 | the same for the first one of the schedule, which also shifts |
| Sha256.SmallSigma1Moves | src/util/crypto/sha256.cpp:102-103 | and for the second |
| Sha256.SumsTakeAll | src/util/crypto/sha256.cpp:100-125 | the sums of a round take every operand |
| Sha256.HexPieces | src/util/crypto/sha256.cpp:162-169 | the digest is printed word by word, eight digits each, in the order of the state |
| Sha256.HexExamples | src/util/crypto/sha256.cpp:162-169 | each of the sixteen digits, highest first |
| ExportPath.GroupCandidates | src/apmd/export_path.cpp:1073-1099 | grouping, sorting and uniquing yields the providers of each command in increasing order without repeats |
| Sorting.IncreasingUnique | src/apmd/export_path.cpp:1085-1099 | a strictly increasing list is determined by its elements |
| Sorting.LessIff | src/apmd/export_path.cpp:1086-1092 | names are ordered by their first differing byte, a proper prefix first |
| ExportPath.GroupingUnique | src/apmd/export_path.cpp:1073-1099 | so grouping forgets the discovery order, where package, command and path determine the flag |
| ExportPath.DecideGroup | src/apmd/export_path.cpp:1101-1162 | the provider loop computes the decision state of its group |
| ExportPath.DecideShims | src/apmd/export_path.cpp:1078-1163 | the outer loop computes the allocation |
| ExportPath.AllocationIsSound | src/apmd/export_path.cpp:1103-1158 | active shims have distinct names and are named after their command or namespaced |
| ExportPath.AllStateFits | src/apmd/export_path.cpp:1101-1162 | there is one decision for each provider and each is the one its predecessors call for: nothing for a plain system command, the command itself for its best provider if no shim has the name, else package-command if that is a plain name, no system command and not used, else nothing |
| ExportPath.ShimsAvoidSystem | src/apmd/export_path.cpp:1102-1149 | where all commands have plain names, no active shim has the name of a system command |
| ExportPath.CanonicalIff | src/apmd/export_path.cpp:1079-1140 | a provider gets the plain command if and only if no earlier shim has it, it is no system command, and no provider of the command is less by package and then path |
| ExportPath.AllocationIgnoresOrder | src/apmd/export_path.cpp:1073-1163 | package, command, path, shim name and mode of every decision are the same for every permutation of the candidates; the whole decision is, where package, command and path determine the Termux flag |
| ExportPath.BareIsGrouping | src/apmd/export_path.cpp:1085-1099 | a grouping without the flags is the grouping of the candidates without them |
| ExportPath.OutcomeFixedIff | src/apmd/export_path.cpp:1085-1099 | the candidates fix the whole outcome, flag included, if and only if package, command and path determine the flag |
| ExportPath.FlagExample | src/apmd/export_path.cpp:312-324 | two candidates that differ only in the flag |
| ExportPath.CanonicalOwner | src/apmd/export_path.cpp:1120-1140 | a command outside the system path and not taken has exactly one canonical owner, least by package then path; any other command has none |
| ExportPath.BinDir.Install | src/apmd/export_path.cpp:1165-1206 | it succeeds if and only if no file operation reported a failure; then the manifest holds exactly the active shims; each of them is on disk if and only if its name was not the temporary file of a later one; if every managed shim could be found before, no other is left (kept true); foreign files stay, unless their name is such a temporary file |
| ExportPath.BinDir.WriteShims | src/apmd/export_path.cpp:1170-1187 | the writing loop; failed shims are skipped and only shim names and their temporary files change |
| ExportPath.WrittenIs | src/apmd/export_path.cpp:82-103 | after writing and renaming in turn, a shim is there if and only if no later one used its name as temporary file |
| ExportPath.NoTmpNoClobber | src/apmd/export_path.cpp:88-96 | nothing is clobbered where no command name ends in .tmp |
| ExportPath.ClobberExample | src/apmd/export_path.cpp:88-96 | three candidates for which a shim is lost |
| ExportPath.Rebuild | src/apmd/export_path.cpp:1039-1206 | the whole rebuild from discovered candidates: it succeeds if and only if no file operation reported a failure, the reported decisions are then those the rows above describe, and directory and manifest agree if and only if the allocation, which the candidates fix, has no shim that a later one clobbers |
| ManualPackage.JsonParser.ParseString | src/core/manual_package.cpp:142-197 | the scanning loop accepts the language of escaped strings and stops after the closing quote |
| ManualPackage.JsonParser.ParseUint64 | src/core/manual_package.cpp:199-220 | accepts exactly the digit runs with value below 2^64, without overflow on the way |
| ManualPackage.NumberIsRead | src/core/manual_package.cpp:199-220 | a digit run is accepted if and only if its value fits |
| ManualPackage.JsonParser.ParseStringArray | src/core/manual_package.cpp:222-253 | arrays of strings, in order |
| ManualPackage.JsonParser.TakeNumber | src/core/manual_package.cpp:264-290 | skips an optional sign and at least one number character |
| ManualPackage.JsonParser.TakeValue | src/core/manual_package.cpp:292-357 | the recursion over nested values terminates on every input |
| ManualPackage.JsonParser.ParsePackageInfo | src/core/manual_package.cpp:50-102 | the field loop, with its comma and brace rules |
| ManualPackage.ParsePackageInfo | src/core/manual_package.cpp:411-428 | records without name or prefix are refused |
| ManualPackage.EscapeJsonString | src/core/manual_package.cpp:360-392 | the printing loop escapes character by character |
| ManualPackage.SerializePackageInfo | src/core/manual_package.cpp:431-448 | the canonical text of a record |
| ManualPackage.EscapedIsRead | src/core/manual_package.cpp:142-197 | every string is read back from its escaped form |
| ManualPackage.EscapeIsRead | src/core/manual_package.cpp:157-187 | the eight escapes and what each stands for |
| ManualPackage.OtherEscapeRefused | src/core/manual_package.cpp:157-187 | any other escape, a Unicode one included, is refused |
| ManualPackage.MemberIsRead | src/core/manual_package.cpp:57-94 | reading one printed member of the object |
| ManualPackage.FilesAreRead | src/core/manual_package.cpp:222-253 | every file list is read back from its printed form |
| ManualPackage.SerializedIsRead | src/core/manual_package.cpp:411-448 | parse of serialise returns the same record for arbitrary strings, files and 64-bit times, if and only if name and prefix are not empty |
| ManualPackage.MissingFields | src/core/manual_package.cpp:410-427 | fields that are left out read as empty, and a record without name or prefix is refused |
| ManualPackage.SerializedLayout | src/core/manual_package.cpp:431-447 | the printed text, key by key |
| ManualPackage.PrintedIsSkipped | src/core/manual_package.cpp:292-357 | the parser steps over exactly one printed JSON value, however deeply nested |
| ManualPackage.UnknownFieldIgnored | src/core/manual_package.cpp:94-98 | an unknown field with any JSON value changes nothing |
| Protocol.EscapeFieldValue | src/apmd/protocol.cpp:84-104 | the escaping loop |
| Protocol.UnescapeFieldValue | src/apmd/protocol.cpp:107-138 | the unescaping loop, with unknown escapes and a final backslash kept |
| Protocol.UnescapeEscape | src/apmd/protocol.cpp:84-138 | unescaping undoes escaping for every string |
| Protocol.ReadBackIff | src/apmd/protocol.cpp:160-174 | a trimmed and unescaped value is the original if and only if it has no blank at either end; edge newlines are safe |
| Protocol.EdgeBlankLost | src/apmd/protocol.cpp:160-174 | a value that arrives without its last blank |
| Protocol.ParseKeyValueLines | src/apmd/protocol.cpp:141-182 | the line loop; a malformed line leaves no fields |
| Protocol.KeyValuesOfPairs | src/apmd/protocol.cpp:141-182 | legal pairs ended by a blank line are read back as written |
| Protocol.ParseResponse | src/apmd/protocol.cpp:501-539 | fields to response; unknown status is refused |
| Protocol.StatusIsRead | src/apmd/protocol.cpp:546-566 | the status word sent is read as the same status; a response without one is sent as ok or error by its success flag |
| Protocol.SerializeResponse | src/apmd/protocol.cpp:546-576 | one frame, raw fields in any enumeration order |
| Protocol.ResponseRoundTrip | src/apmd/protocol.cpp:501-576 | parse of serialise is the identity on well-formed responses for every enumeration order |
| IpcClient.ExtractFrames | src/apm/ipc_client.cpp:163-186 | one pass over the buffer delivers the progress frames up to the first other frame |
| IpcClient.DrainAppend | src/apm/ipc_client.cpp:142-190 | more input only continues where the loop was waiting |
| IpcClient.ReceiveResponse | src/apm/ipc_client.cpp:138-198 | the two nested loops compute the same as one pass over the concatenated chunks |
| IpcClient.RestIsIgnored | src/apm/ipc_client.cpp:181-185 | chunks after the final frame change nothing |
| IpcClient.BlankEndsFrame | src/apm/ipc_client.cpp:164-169 | the first empty line of a serialised frame is its end, whatever follows |
| IpcClient.FirstFrame | src/apm/ipc_client.cpp:168-172 | the first frame cut out of a stream is the first message |
| IpcClient.StreamIsDelivered | src/apm/ipc_client.cpp:163-186 | progress messages and one final message are delivered as sent |
| IpcClient.Receive | src/apm/ipc_client.cpp:138-190 | for every way of cutting the stream into chunks the client delivers exactly the messages sent, in order |
| DebExtractor.StreamMember | src/core/deb_extractor.cpp:210-240 | copying in 8192-byte chunks writes the slice of the member, except for an end lost in the unchecked flush |
| DebExtractor.ExtractDebArchive | src/core/deb_extractor.cpp:80-269 | without read errors the member loop succeeds if and only if the archive is well formed and no checked write failed; parts and files are then those of the decoded members, files possibly without their end, and in full if no flush failed, which is the only way if no file is stored twice |
| DebExtractor.HandledIsExact | src/core/deb_extractor.cpp:189-245 | where no file is stored twice, the files are right after a member if and only if they were before and the member is complete |
| DebExtractor.NextMember | src/core/deb_extractor.cpp:117-258 | one pass of the loop decodes one member, stores at least its start and moves on |
| DebExtractor.LostEnd | src/core/deb_extractor.cpp:242-245 | an extraction that succeeds with a file that lacks its end |
| DebExtractor.SizeIsRead | src/core/deb_extractor.cpp:172-186 | the padded decimal size field inverts its printing |
| DebExtractor.MemberIsRead | src/core/deb_extractor.cpp:134-256 | one encoded member is decoded to its name and content and consumes 60 + size + size mod 2 bytes |
| DebExtractor.ArchiveRoundTrip | src/core/deb_extractor.cpp:117-258 | decode inverts encode for every list of well-formed members, of total length 8 plus the sum of 60 + size + size mod 2; a short tail is dropped |
| DebExtractor.ArchiveBytes | src/core/deb_extractor.cpp:117-172 | the bytes of an archive: magic, padded fields, terminator and padding |
| DebExtractor.LastControlWins | src/core/deb_extractor.cpp:189-208 | the last control.tar* member decides the reported part and the file content |
| DebExtractor.LastDataWins | src/core/deb_extractor.cpp:189-208 | the same for data.tar* |
| DebExtractor.OthersUntouched | src/core/deb_extractor.cpp:189-208 | a part is reported if and only if there is such a member; other files are not touched |
| DebExtractor.ExtensionDecides | src/core/deb_extractor.cpp:63-76 | compression is told by the ending .gz, .xz or .bz2 |
| DebExtractor.StandardPackage | src/core/deb_extractor.cpp:185-208 | of the three members of a Debian package the control.tar and data.tar ones are stored under their names and reported with the compression of their endings |
| Session.ParseSession | src/core/security.cpp:201-246 | the line loop, incomplete sessions refused |
| Session.SessionRoundTrip | src/core/security.cpp:189-246 | a written session is read back; an expiry of zero reads as missing |
| Session.MissingLineRefused | src/core/security.cpp:240-244 | a session file that lacks one of its three lines is refused |
| Session.PayloadInjective | src/core/security.cpp:197-199 | no two token and expiry pairs share an authenticated payload |
| Session.AcceptanceIsLinked | src/apmd/security_manager.cpp:642-676 | an accepted state was sealed by an earlier issue or acceptance of the same token less than 180 seconds before |
| Session.RollingWindow | src/core/security.cpp:308-310 | a session sealed at t is accepted for its token if and only if now is before t + 180 (unless 64-bit time wraps) |
| Session.SessionFile.IssueSession | src/apmd/security_manager.cpp:584-602 | an issue with no other step in between seals and writes a state for the new token |
| Session.SessionFile.ValidateSessionToken | src/amsd/security_manager.cpp:96-151 | the same for a validation: accepted exactly for an authentic, unexpired state of the same token, if file and MAC can be read; identical in both daemons |
| Session.SessionFile.BeginIssue | src/apmd/security_manager.cpp:584-598 | an issue up to its write |
| Session.SessionFile.Load | src/core/security.cpp:248-271 | the read of a validation, on its own |
| Session.SessionFile.Decide | src/apmd/security_manager.cpp:657-690 | the tests on what was read, whatever happened to the file since; the acceptance is linked and its refresh is pending |
| Session.SessionFile.Open | src/core/security.cpp:273-283 | the file is truncated before its lock is taken |
| Session.SessionFile.Finish | src/core/security.cpp:285-300 | the pending write, any time later; what it writes is unforged |
| Session.LateWrite | src/apmd/security_manager.cpp:680-690 | a state sealed by any earlier event is unforged when it is written |
| Session.LateRefresh | src/apmd/security_manager.cpp:680-690 | a run in which a refresh overwrites a session issued meanwhile |
| Session.Play | src/apmd/security_manager.cpp:584-697 | over any interleaving of the single reads, decisions, truncations and writes of both daemons and of outsiders who cannot compute the MAC, every accepted token was asked about and goes back to an issue through acceptances each less than 180 seconds after the one before |
| Recovery.CompareIs | src/apmd/security_manager.cpp:527-544 | right iff every answer matches; wrong iff one does not after only matches |
| Recovery.Lockout.IsLockedOut | src/apmd/security_manager.cpp:373-396 | locked iff what the read shows is a later time; stale or malformed files go |
| Recovery.MisreadUnlocks | src/apmd/security_manager.cpp:373-380 | a lockout in force that a failed read does not see: right answers pass |
| Recovery.Lockout.ValidateSecurityAnswers | src/apmd/security_manager.cpp:504-548 | locked before anything is compared, by what the read shows; a wrong answer writes now + 300 |
| Recovery.WrittenLocksIff | src/apmd/security_manager.cpp:385-412 | a written lockout locks if and only if its time is not reached |
| Recovery.RequestKeeps | src/apmd/security_manager.cpp:504-548 | every request keeps "each wrong answer still locks or its time is over" |
| Recovery.Play | src/apmd/security_manager.cpp:476-548 | with a non-decreasing clock, and lockouts written and read in full, a wrong answer at t blocks every later request before t + 300 |
| Recovery.ResetForgottenSecret | src/apmd/security_manager.cpp:550-560 | a session is issued only when every answer matched, and nothing was locked unless the lockout file was misread |

## Left out

- Sockets, poll and accept loops, threads and locks, curl, zlib, running tar, pm, sh and getprop: only success or failure and the abstract effect appear.
- AES-GCM, PBKDF2, HMAC and random bytes are arbitrary functions or inputs; the MAC is assumed injective and to print without spaces. OpenPGP verification is not part of this model.
- Error texts, log output, timestamps, chmod, chown, SELinux labels, path constants, emulator switches and shell hook files.
- InstallManager.InstallOne: what is on disk of a package is only "payload present or absent"; a payload that is there in part counts as present. The removal of the old payload before a reinstall is not modelled: the resolver drops installed names of the domain, so no planned package reaches it.
- InstallManager.InstallWithDeps: a Debian-mode package with a Termux layout is installed as Termux but recorded as non-Termux (src/apmd/install_manager.cpp:1389-1390 and 1948); the model covers packages whose layout matches the flag. The repository architecture is an input.
- InstallManager.Run: asks that a name is not offered in both domains and that repository entries are storable: one-line version, architecture and repository fields, bare dependency names. The last holds of every parsed index (Depends.ParsedIsClean); the others have the exact conditions Lifecycle.RecordingKeepsClosedIff and StatusSettles.LoadOfWrittenIff.
- StatusStore.Store.LoadStatus: something goes wrong unseen any finite number of times, so that Autoremove can be shown to end; where that happened nothing is promised of the database or the payloads.
- Lifecycle.Placed: agreement is stated for records whose roots are those the installer chooses; NestedRoot shows why.
- The upgrade loop itself: it only compares versions and calls the install above, which cannot change a record of its domain.
- BindMounts.Target.UnmountTracked: the text of the state file is abstract, a list of paths; its byte order is represented by any order in which a directory precedes everything below it. Trailing blanks of a path, which the reader strips, are not modelled, nor is the half path a torn state file may end in.
- BindMounts.Stage: where a layer meets something `cp -a` does not simply replace, a directory against a non-directory or a file against a link it may be written through, the staged tree is arbitrary and nothing is promised of it.
- Overlay.Merge: overlayfs whiteouts and opaque directories in a layer are shown as plain entries.
- BindMounts.Target.Apply: whatever `cp -a` does beyond contents and kinds (modes, times, hard links), tmpfs set-up and relabelling. A failing lstat of a staged entry is a nondeterministic failure; one of a base entry, which reads as a missing entry, is not modelled. Symbolic links at the top level of the base partition, which isDirectory follows, are not modelled.
- Building the overlay stacks from the enabled modules, and the choice among several mount points: easy loops over directory listings.
- BootGuard.GuardFiles.Start: a boot is one step up to the overlay stage; a crash between counter and flag write is not a separate step.
- ExportPath.Rebuild: discovering executables, the text of shims and of the manifest (its reader searches for the word shim, so names with quotes, or a package or command of that name, could be misread), and path or environment files written afterwards.
- ManualPackage.JsonParser.ParsePackageInfo: says nothing of the partly filled record after a failure; callers discard it.
- DebExtractor.ExtractDebArchive: output files are named by member; that a member name with path separators may reach another file is not modelled. strtoul uses 64-bit longs.
- Session.SessionFile.Finish: a torn write is a later step of an outsider, who may leave anything that does not carry a MAC no daemon computed; so is the end of a longer text that two writers with the file open may leave behind a shorter one.
- Requests of the IPC protocol, request type names, progress bars and the command line: plumbing beside the response frames.
- Release files, tar path checks, module state files, process locks and APK staging: smaller than what is modelled.

# Models of the algorithms and protocols in tlpi-dist

The repository is a collection of example programs for system calls. A few of
them contain real algorithms or protocols. This project models those in Dafny and
proves what they are for:

* **The inotify directory cache** (`inotify_dtree.c`). An array of (watch
  descriptor, pathname) slots has to stay equal to the set of directories in live
  trees, driven by kernel events only. `Paths` relates pathname strings to places
  in a tree, `WatchSlots` holds the operations on the array, `DirEvents` the
  handling of one event and of a stream of events, `DirTree` the kernel's side
  (directories, watch table) and what agreement means. `QuietOps` has the filesystem
  operations with their events, `QuietSteps` the single changes, `QuietMoves` the
  operations that move two directories or a root, and `QuietRuns` sequences of
  them, each handled before the next. In `CreationRace` directories are made, removed
  and released while the program traverses, possibly ending early, and its events
  wait; `Overlooked` shows what then stays missed. `AskedEvents` shows that the watches
  ask for all the events these runs rest on. `InotifyDtree` is the program: the
  array and the root list updated in place, and the read loop over a byte buffer.
  `MissedArrival` has the least inputs on which the cache goes wrong, `RaceExample`
  three runs: the race the program's comments describe, a directory replaced while it
  is held, and a traversal that ends early.
* **The namespace forest** (`namespaces_of.go`): building it from parent queries
  (`NamespaceForest`), displaying it (`NamespaceDisplay`) and wrapping the list of
  member processes (`WrapText`). `NamespaceIds` is shared with `UsernsWalk`.
* **Small concurrent protocols**, as steps taken in any order: the seccomp
  supervisor (`SeccompNotify`), message notification by threads and by a signal
  (`Messages`, `MqNotifyThread`, `MqNotifySignal`), and reaping children under
  coalescing SIGCHLDs (`ChildReaper`).
* **List and string algorithms**: `unsetenv()` and `setenv()` on the terminated
  array (`Environment`), the walk up the user namespaces (`UsernsWalk`), and the
  PATH search of `execlp()` (`PathSearch`). `Splitting` is shared by the text
  modules.

`dafny verify dfyconfig.toml` checks the whole project.

## How to read the model

The inotify program is proved in two layers. Each method of the class
`InotifyDtree.Program` changes the array or the root list in place and is proved
equal to a function on values in `WatchSlots` or `DirEvents`; `DirEvents.Process`
is the handling of a whole stream in which every event sees its successor. The
lemmas are about those functions. `InotifyDtree.Program.HandleStream` shows that
the class, reading the stream in pieces cut anywhere between two events, does what
`Process` says. `DirTree.InSync` is agreement of cache and kernel: the live slots
are exactly the watches on the monitored directories, each with its current path,
every such directory is watched, and the root list is right. In `CreationRace` a
removed directory is *held* until the last reference to it goes (an open stream, a
working directory): only then is its IN_DELETE_SELF queued, and until then its slot
stays beside those of the directories there are. A directory is *overlooked* if it
was made under a held name, or if a traversal that ended early was still to meet it,
and no visit has reached it since.

`QuietOps.Op` covers every mkdir, rmdir and rename by what its two ends are: an inner
directory, an empty one, a root, a free name, or a place elsewhere. Exchanges are
covered in both argument orders, since the order decides the order of the events.

In the forest, `NamespaceForest.Built` says what a scan leaves: exactly the scanned
namespaces and everything above them, child lists that are exactly the kernel's
parent or owner relation, and the member lists.

### What is assumed about the system

* inotify: descriptors are never reused within one instance; reads return whole
  events; only a queue overflow has descriptor -1; an IN_IGNORED event reports
  nothing else, and each event reports one thing (`DirEvents.ReportsOne`); the read buffer option is not larger than the buffer, and at least
  one maximal event for a whole stream to be handled; the short second read behind
  an IN_MOVED_FROM at the end of the buffer times out only if no event is left.
* In the quiet runs (`QuietOps` to `QuietRuns`) the two halves of a rename are
  neighbours in the queue, and a directory that is removed or replaced is not held.
  `CreationRace` does without the second.
* No directory above a root is renamed or removed: no event tells the program.
* Pathnames are shorter than PATH_MAX (the program's own stated limit). The root
  directories are not inside each other, and their pathnames have no trailing slash:
  nftw drops it, so that "dir/" would be cached as "dir", `isRootDirPath()` would not
  take it for a root, IN_MOVE_SELF would not be asked for and its removal would not
  end the program.
* nftw lists a directory after the watch on it was added: an entry that is there
  when the watch is set, and is not removed, is met unless nftw ends the traversal
  with an error. It may do so at any time in `CreationRace`; in the quiet runs it
  does not. POSIX has it do so for any error but EACCES, such as an entry that is
  removed before nftw looks at it.
* Namespaces have no parent cycles; no namespace file has device and inode 0 (the
  program's own assumption for the special entry). What owns or, for user namespaces,
  is the parent of a namespace is a user namespace; in the PID hierarchy all are PID
  namespaces (`NamespaceDisplay.Typed`). The program sees what is at or below its own
  user or PID namespace, so at most one namespace has no visible parent
  (`NamespaceDisplay.OneTop`).
* seccomp: a cookie that became invalid never becomes valid again.
* Message queues: a notification fires when a message arrives on an empty queue for
  which there is a registration, and uses the registration up.
* /proc/PID/ns/user can be opened only by a program in the same user namespace as
  the process or with CAP_SYS_PTRACE there (ptrace(2), access mode checking).
* C strings contain no null byte.

### Where the code falls short of what it is for

* Four kinds of operation, each alone on a quiet filesystem, leave a directory of
  the trees out of the cache:
  a directory moved in from elsewhere over an existing empty directory (the name is
  still cached when IN_MOVED_TO arrives, so nothing is watched, and then the slot is
  cleared); an exchange with a directory elsewhere that the call names first (the
  same: IN_MOVED_TO comes while the name is cached, and IN_MOVED_FROM then gives it
  up); a root renamed into another root's tree (its descriptors are cached when
  IN_MOVED_TO arrives, so nothing is added, and IN_MOVE_SELF then gives them up); and
  an exchange of two directories of the trees of which at least one is not a root (the
  second rewrite maps both subtrees to one name, or what arrived is given up again).
  `QuietRuns.TurnSettles` shows that cache and kernel disagree after an operation if
  and only if it is one of these, `MissedArrival` has an input for each kind, and
  `QuietRuns.QuietRunStaysInSync` says the same of whole runs.
* With directories made and removed while the program traverses, two things make it
  miss one. A directory made under the name of a removed one that is still held is
  announced while the name is cached, and the old slot is cleared later
  (`RaceExample.ReplacedWhileHeldIsMissed`, `MissedArrival.ReplacedWhileHeldExample`).
  And when nftw ends a traversal with an error, which the program logs and passes
  over, entries that were there before the watch and have no event are not met
  (`RaceExample.GivenUpIsMissed`).
  `CreationRace.MissedIffOverlooked` shows that there is no third, and
  `Overlooked.MadeUnderHeldNameStaysMissed` and `Overlooked.GivenUpStaysMissed` that
  such a directory stays missed whatever follows, short of its removal or a rebuild.
* The display shows every recorded namespace exactly once if and only if exactly
  one topmost namespace was recorded (`NamespaceDisplay.DisplayIsComplete`); if no
  user namespace was met, the tree of the special entry is displayed twice
  (`NamespaceDisplay.SpecialEntryTwiceExample`).
* A `setenv()` that finds no memory has already removed the old definitions. POSIX
  wants the environment unchanged on failure; that holds if and only if the name
  was not defined (`Environment.FailureIsCleanOnlyForNewNames`, with an input in
  `Environment.FailureExample`).
* The loop of the signal variant counts on the notification signal coming from the
  queue only. One sent by somebody else is harmless, whatever follows, if and only
  if a notification is pending already; otherwise there is a continuation in which
  the next registration is refused (`MqNotifySignal.StraySignalHarmlessIff`).
* After a second read that timed out, -1 is added to the number of bytes read
  (the test at `inotify_dtree.c` line 1136 compares errno with -1). The model does
  the same; the last event is still handled and the loop ends.

## Model

| member | source | states |
|---|---|---|
| Paths.BelowIffPrefix | tlpi-dist/inotify/inotify_dtree.c:608-611 | the string comparison with its component-boundary test holds of two pathnames exactly if one directory is at or above the other |
| Paths.PathInjective | tlpi-dist/inotify/inotify_dtree.c:326-334 | equal pathnames are the same place, so looking a pathname up is looking a directory up |
| Paths.MovedMatchesRelocated | tlpi-dist/inotify/inotify_dtree.c:596-624 | the rewritten string is the pathname of the place the directory now has |
| WatchSlots.AddedMeans | tlpi-dist/inotify/inotify_dtree.c:286-321 | adding a new descriptor, growing the array if need be, adds that one live slot, loses none and keeps descriptors unique |
| WatchSlots.FreeSlotMeans | tlpi-dist/inotify/inotify_dtree.c:286-308 | the slot is the first free one; the array grows, by 200, only if there is none |
| WatchSlots.EmptiedMeans | tlpi-dist/inotify/inotify_dtree.c:273-282 | emptying a slot removes just its entry |
| WatchSlots.RewrittenMeans | tlpi-dist/inotify/inotify_dtree.c:596-624 | rewriting keeps every descriptor and changes just the paths at or below the old directory |
| WatchSlots.RewriteBackRestores | tlpi-dist/inotify/inotify_dtree.c:596-624 | rewriting back restores the cache if and only if nothing cached was already at or below the new name |
| WatchSlots.RewriteKeepsDistinct | tlpi-dist/inotify/inotify_dtree.c:596-624 | distinct paths stay distinct if nothing cached lies at or below the new name |
| WatchSlots.ZappedMeans | tlpi-dist/inotify/inotify_dtree.c:630-677 | a zap that succeeds removes exactly the live slots at or below the path; it fails exactly if the kernel refuses one of their descriptors; descriptors stay unique |
| WatchSlots.ZappedCount | tlpi-dist/inotify/inotify_dtree.c:630-677 | the count returned is the number of watches removed |
| WatchSlots.TraverseKeepsUnique | tlpi-dist/inotify/inotify_dtree.c:500-551 | a traversal, whatever is visited and answered, keeps descriptors unique |
| WatchSlots.TraverseMeans | tlpi-dist/inotify/inotify_dtree.c:500-551 | it ends the program exactly if a watch is refused other than for a directory that is gone; otherwise the cache holds what it held and, for each new descriptor, the path it was first granted for |
| DirEvents.StepRebuilds | tlpi-dist/inotify/inotify_dtree.c:753-763 | an event that rebuilds owes nothing to the cache it found |
| DirEvents.RebuildsIffNeeded | tlpi-dist/inotify/inotify_dtree.c:744-763 | the cache is rebuilt, or the program exits in trying, if and only if the queue overflowed, no live slot has the descriptor (or that of the IN_MOVED_TO that ends the rename), or a watch at or below what has left cannot be removed; a root that has just been moved is left out of the rebuild |
| DirEvents.RebuildExitsIff | tlpi-dist/inotify/inotify_dtree.c:687-725 | a rebuild ends the program exactly if a watch is refused under some remaining root |
| DirEvents.ExitsIff | tlpi-dist/inotify/inotify_dtree.c:807-1021 | an event ends the program exactly if a watch is refused in a traversal it needs, or the last root is gone |
| DirEvents.UnmountMeans | tlpi-dist/inotify/inotify_dtree.c:985-996 | an unmounted directory loses just its entry |
| DirEvents.RebuildDropsTheRest | tlpi-dist/inotify/inotify_dtree.c:753-763 | what is queued behind an event that rebuilds is not looked at |
| DirEvents.OnlyHangingLooksAhead | tlpi-dist/inotify/inotify_dtree.c:904-963 | the outcome of an event at the end of the buffer depends on the next event only if it is a hanging IN_MOVED_FROM |
| DirEvents.SeenSuccessorSettles | tlpi-dist/inotify/inotify_dtree.c:904-963 | once the next event is in the buffer, a second try gives what the first would |
| DirEvents.StepKeepsUnique | tlpi-dist/inotify/inotify_dtree.c:735-1032 | no event, stale or racing, makes two live slots share a descriptor |
| DirEvents.ProcessKeepsUnique | tlpi-dist/inotify/inotify_dtree.c:1081-1151 | the same over every stream of events |
| DirEvents.ReachableCachesAreUnique | tlpi-dist/inotify/inotify_dtree.c:229-240 | no cache reachable from the first build, over any streams with rebuilds in between, has two live slots with one descriptor |
| DirTree.TraverseKeepsCached | tlpi-dist/inotify/inotify_dtree.c:500-551 | visiting directories in any order leaves exactly the watched directories cached, each with its path |
| DirTree.PathCachedIff | tlpi-dist/inotify/inotify_dtree.c:781-808 | in a right cache a directory's path is found exactly if the directory is watched |
| DirTree.RebuildResyncs | tlpi-dist/inotify/inotify_dtree.c:687-725 | from any cache whatever, a rebuild on a quiet filesystem ends in agreement with the directories under the remaining roots |
| DirTree.RecoveryResyncs | tlpi-dist/inotify/inotify_dtree.c:744-763 | so an overflow, an event from an unknown watch, and one that cannot be followed, always lead back to agreement, from any cache |
| QuietSteps.RemoveSettles | tlpi-dist/inotify/inotify_dtree.c:810-822 | after an rmdir, of a root too, and its events cache and kernel agree again; the program exits exactly if it was the last root |
| QuietSteps.RewrittenInSync | tlpi-dist/inotify/inotify_dtree.c:904-932 | rewriting the cached paths turns agreement with the old trees into agreement with the renamed ones |
| QuietSteps.RenameSettles | tlpi-dist/inotify/inotify_dtree.c:904-932 | after a rename inside the trees and its events, cache and kernel agree again, also if an empty directory was replaced |
| QuietSteps.LeaveSettles | tlpi-dist/inotify/inotify_dtree.c:934-957 | after a rename out of the trees, or of a root, exactly the watches and entries of what left are gone |
| QuietSteps.ArriveSettles | tlpi-dist/inotify/inotify_dtree.c:768-808 | after a mkdir or a move into the trees the whole subtree is watched and cached |
| QuietSteps.MoveInOverEmptyIsMissed | tlpi-dist/inotify/inotify_dtree.c:807-822 | a move into the trees over an existing empty directory leaves the new one neither cached nor watched |
| MissedArrival.MoveInOverEmptyExample | tlpi-dist/inotify/inotify_dtree.c:807-822 | the least input for that: a root "r" with an empty directory "a" |
| QuietMoves.OverRootSettles | tlpi-dist/inotify/inotify_dtree.c:998-1022 | after a rename over an empty root, the renamed directory and the root are given up; exit exactly if no tree is left |
| QuietMoves.ReplaceSettles | tlpi-dist/inotify/inotify_dtree.c:934-957 | after an exchange with a directory from elsewhere that is named second, the old subtree is given up and the new one watched and cached |
| QuietMoves.ReplaceFirstIsMissed | tlpi-dist/inotify/inotify_dtree.c:807-808 | with the directory from elsewhere named first, the new one is not cached, for every state in agreement |
| QuietMoves.RootsExchanged | tlpi-dist/inotify/inotify_dtree.c:998-1022 | after an exchange of two roots both are given up; exit exactly if no tree is left |
| QuietMoves.RootInIsMissed | tlpi-dist/inotify/inotify_dtree.c:807-808 | a root renamed into another root's tree is not cached there, for every state in agreement and whether or not it replaced an empty directory |
| QuietMoves.InnerExchangeIsMissed | tlpi-dist/inotify/inotify_dtree.c:904-932 | after an exchange of two directories that are not roots, the second name is not cached |
| QuietMoves.RootFirstIsMissed | tlpi-dist/inotify/inotify_dtree.c:998-1013 | nor is the place a root has been exchanged to, the root moved first |
| QuietMoves.RootSecondIsMissed | tlpi-dist/inotify/inotify_dtree.c:998-1013 | nor with the root moved second |
| MissedArrival.RootInExample | tlpi-dist/inotify/inotify_dtree.c:998-1013 | the least input: empty roots "r" and "s", and "s" renamed to "r/s" |
| MissedArrival.ExchangeExample | tlpi-dist/inotify/inotify_dtree.c:904-932 | the least input: "r/a" and "r/b" exchanged |
| MissedArrival.ReplaceFirstExample | tlpi-dist/inotify/inotify_dtree.c:807-808 | the least input: a directory from elsewhere, named first, and "r/a" exchanged |
| QuietRuns.OtherSettles | tlpi-dist/inotify/inotify_dtree.c:768-823 | events about entries that are not directories change nothing |
| AskedEvents.EventsAreAskedFor | tlpi-dist/inotify/inotify_dtree.c:508-511 | every event of every one of these operations is one that the watch it comes from was asked for |
| QuietRuns.TurnSettles | tlpi-dist/inotify/inotify_dtree.c:735-1032 | after one operation and its events cache and kernel agree if and only if it was not a move in over an existing directory, an exchange with a directory elsewhere that is named first, a root renamed into another tree, or an exchange in the trees that involves an inner directory; after one of those a directory of the trees is not cached; the program has exited if and only if no tree is left |
| QuietRuns.QuietRunStaysInSync | tlpi-dist/inotify/inotify_dtree.c:735-1032 | over every sequence of mkdir, rmdir, rename, exchange, move in, move out and root removal, agreement is kept to the end, or to the exit with the last root, if and only if no operation is one of those four kinds |
| CreationRace.StepKeeps | tlpi-dist/inotify/inotify_dtree.c:781-808 | every step of the program, of nftw (which may give up) or of another process keeps the invariant: each directory is watched, or is still to be met by the traversal, or is announced by a queued event, or is overlooked |
| AskedEvents.NotesAreAskedFor | tlpi-dist/inotify/inotify_dtree.c:508-511 | so is every event queued in the interleavings |
| CreationRace.MissedIffOverlooked | tlpi-dist/inotify/inotify_dtree.c:553-588 | in every interleaving of mkdir, rmdir, late releases of removed directories, traversals that may end early, event handling and rebuilds: once all is handled, every directory is watched if and only if none was made under a held name, or abandoned by a traversal, without being visited since; the cache holds exactly one entry for each watch |
| CreationRace.NoneMissedNoneDoubled | tlpi-dist/inotify/inotify_dtree.c:781-822 | so in the runs in which no directory is made under a held name and no traversal is given up with entries still to meet, every directory has its watch and exactly one entry |
| Overlooked.MadeUnderHeldNameStaysMissed | tlpi-dist/inotify/inotify_dtree.c:807-822 | a directory made under a held name, with the directories above it watched and no traversal under way above it, is not watched in any later state, whatever the program and other processes do, unless it is removed or the cache rebuilt |
| Overlooked.GivenUpStaysMissed | tlpi-dist/inotify/inotify_dtree.c:570-573 | the same of a directory that a traversal ending early was still to meet, if no event about its name waits |
| CreationRace.CreationsAreNeverMissed | tlpi-dist/inotify/inotify_dtree.c:781-808 | in every interleaving of mkdir with the program, with nothing removed for nftw to stumble over: cache and kernel agree once all is handled |
| CreationRace.SettledMeans | tlpi-dist/inotify/inotify_dtree.c:781-822 | what the invariant comes to in any state with nothing left to handle |
| RaceExample.TheRaceIsRun | tlpi-dist/inotify/inotify_dtree.c:783-805 | the race the comment describes is one of those runs: a directory met by the listing and announced by an event, and at the end watched and cached once |
| RaceExample.ReplacedWhileHeldIsMissed | tlpi-dist/inotify/inotify_dtree.c:807-822 | a run in which a directory is replaced while nftw lists it, and the new one is missed |
| RaceExample.GivenUpIsMissed | tlpi-dist/inotify/inotify_dtree.c:256-262 | a run in which nftw gives up because an entry it found is gone, and the other entry is missed |
| MissedArrival.ReplacedWhileHeldExample | tlpi-dist/inotify/inotify_dtree.c:807-822 | the event handler on those events: the new directory's slot is the one that is cleared |
| CreationRace.NoRebuildNeeded | tlpi-dist/inotify/inotify_dtree.c:753-763 | in those runs no event ever names an unknown descriptor |
| CreationRace.HandlingDeletionIsStep | tlpi-dist/inotify/inotify_dtree.c:810-822 | the step of the interleaving model for a deletion is the event handler's |
| CreationRace.SlotsFollowVisits | tlpi-dist/inotify/inotify_dtree.c:500-551 | the cache after a stretch of a traversal, with anything in between, is what its visits make of it |
| CreationRace.HandlingMadeIsStep | tlpi-dist/inotify/inotify_dtree.c:768-808 | from the event to the end of the traversal it starts, the cache becomes what the event handler makes of it with the visits made in between |
| InotifyDtree.Program.FindWatchSlot | tlpi-dist/inotify/inotify_dtree.c:232-240 | the first slot with the descriptor, or -1 |
| InotifyDtree.Program.PathnameToCacheSlot | tlpi-dist/inotify/inotify_dtree.c:326-334 | the first live slot with the pathname, or -1 |
| InotifyDtree.Program.MarkCacheSlotEmpty | tlpi-dist/inotify/inotify_dtree.c:273-282 | the one slot is emptied in place |
| InotifyDtree.Program.FindEmptyCacheSlot | tlpi-dist/inotify/inotify_dtree.c:286-308 | the first free slot; without one the array is 200 slots longer, its contents kept, and the first new slot is returned |
| InotifyDtree.Program.AddWatchToCache | tlpi-dist/inotify/inotify_dtree.c:312-321 | the new array is the old one with the entry in the free slot |
| InotifyDtree.Program.FindRootDirPath | tlpi-dist/inotify/inotify_dtree.c:446-454 | the first root entry with the path, or none |
| InotifyDtree.Program.ZapRootDirPath | tlpi-dist/inotify/inotify_dtree.c:467-484 | the root is dropped and counted; exit exactly if none is left |
| InotifyDtree.Program.TraverseTree | tlpi-dist/inotify/inotify_dtree.c:490-551 | one visit: which events are asked for, and whether it is ignored, exits, or enters a new descriptor |
| DirTree.OwnMovesAskedForRoots | tlpi-dist/inotify/inotify_dtree.c:510-511 | the program asks for a directory's own moves exactly if it is a root |
| InotifyDtree.Program.WatchSubtree | tlpi-dist/inotify/inotify_dtree.c:558-588 | the visits of one traversal in order, up to an exit |
| InotifyDtree.Program.Reinitialize | tlpi-dist/inotify/inotify_dtree.c:687-725 | a fresh cache from the remaining roots, whatever the old one held |
| InotifyDtree.Program.RewriteCachedPaths | tlpi-dist/inotify/inotify_dtree.c:596-624 | all slots rewritten in place, as one function of the old array |
| InotifyDtree.Program.ZapSubtree | tlpi-dist/inotify/inotify_dtree.c:630-677 | the in-place scan does what the zap on values does, count or -1 included |
| InotifyDtree.Program.HandleEvent | tlpi-dist/inotify/inotify_dtree.c:735-1032 | the dispatch on the mask changes the state as the function of one event says |
| InotifyDtree.Program.ProcessNextInotifyEvent | tlpi-dist/inotify/inotify_dtree.c:735-1032 | reads the event and, if it is in the buffer, its successor from the bytes; returns the bytes consumed, the whole buffer length to discard it, or -1 |
| InotifyDtree.Program.ProcessInotifyEvents | tlpi-dist/inotify/inotify_dtree.c:1045-1152 | one call handles whole events from the front of the stream, at least one, as the stream semantics says; a hanging event is deferred once, and all reads and the shuffle stay inside the buffer |
| InotifyDtree.Program.HandleStream | tlpi-dist/inotify/inotify_dtree.c:1040-1152 | handling a stream call after call ends in one state, however the reads cut it, and terminates |
| InotifyDtree.ReadMore | tlpi-dist/inotify/inotify_dtree.c:1103-1149 | the shuffle keeps the hanging event and the second read puts its successor behind it, or leaves it alone when it times out |
| InotifyDtree.StreamAdvance | tlpi-dist/inotify/inotify_dtree.c:1081-1087 | handling the first event with what the buffer shows moves the stream one step on, or ends it |
| InotifyDtree.LookAheadSettles | tlpi-dist/inotify/inotify_dtree.c:1081-1151 | unless it hangs, an event is handled as if the whole stream had been read |
| NamespaceForest.NamespaceInfo.AddNamespace | tlpi-dist/namespaces/namespaces_of.go:249-269 | adds the namespace and all visible ancestors, nothing else, appends the PID to its list only, records children behind those recorded before, and keeps the forest right although entries above are half built |
| NamespaceForest.NamespaceInfo.AddNamespaceToList | tlpi-dist/namespaces/namespaces_of.go:274-378 | the same for a namespace not in the list; the invariant holds with the entries whose parents are still being added set apart |
| NamespaceForest.NamespaceInfo.LinkUpwards | tlpi-dist/namespaces/namespaces_of.go:310-378 | the entry gets its place: topmost, below the special entry, or below its parent or owner |
| NamespaceForest.NamespaceInfo.AddBelow | tlpi-dist/namespaces/namespaces_of.go:360-377 | the parent is added first, then the child is linked once |
| NamespaceForest.NamespaceInfo.AddInvisible | tlpi-dist/namespaces/namespaces_of.go:336-358 | a nonuser namespace with an invisible owner goes below the special entry, created if need be |
| NamespaceForest.NamespaceInfo.AddProcesses | tlpi-dist/namespaces/namespaces_of.go:460-481 | a scan of any processes in any order leaves exactly the scanned namespaces and their visible ancestors, the kernel's edges, and the processes of each |
| NamespaceForest.ChainRecorded | tlpi-dist/namespaces/namespaces_of.go:257-259 | an entry that is present already has its whole chain present |
| NamespaceForest.SameForest | tlpi-dist/namespaces/namespaces_of.go:249-378 | the recorded namespaces determine the edges |
| NamespaceForest.PidCount | tlpi-dist/namespaces/namespaces_of.go:263-265 | a member list holds each process as often as it was scanned in that namespace |
| NamespaceForest.PidsInOrder | tlpi-dist/namespaces/namespaces_of.go:263-265 | and in the order of the scan |
| NamespaceForest.ScanOrderDoesNotMatter | tlpi-dist/namespaces/namespaces_of.go:460-481 | the same processes in another order give the same forest and the same member lists |
| NamespaceDisplay.DisplayNamespaceTree | tlpi-dist/namespaces/namespaces_of.go:712-729 | terminates and prints the wanted entries of the walk, in its order: the namespace itself first, and the nearest less indented line before any other is that of its parent or owner, one level up |
| NamespaceDisplay.TreeReadsBack | tlpi-dist/namespaces/namespaces_of.go:715-728 | the same of what is to be printed: the indentation reads back as the recorded forest |
| NamespaceDisplay.WalkShowsChildren | tlpi-dist/namespaces/namespaces_of.go:724-728 | one level below a namespace come its children, in the order they were recorded |
| NamespaceDisplay.DisplayNamespaceHierarchies | tlpi-dist/namespaces/namespaces_of.go:781-812 | prints the root tree and behind it the tree of the special entry, or the one asked for, each with the indentation of the forest; fails exactly on a namespace not in the list |
| NamespaceDisplay.WalkVisitsOnce | tlpi-dist/namespaces/namespaces_of.go:724-728 | the walk visits each namespace at or below its start once, as much deeper as the kernel's relation says, and nothing else |
| NamespaceDisplay.PrintedCount | tlpi-dist/namespaces/namespaces_of.go:715-722 | what is printed is what is visited and is a user namespace or of a type asked for, as often |
| NamespaceDisplay.DisplayIsComplete | tlpi-dist/namespaces/namespaces_of.go:783-794 | every recorded namespace is reached exactly once, at its depth, if and only if a topmost namespace was recorded and no second one |
| NamespaceDisplay.SpecialEntryTwiceExample | tlpi-dist/namespaces/namespaces_of.go:783-794 | the least input without a user namespace: the special entry is displayed twice |
| NamespaceDisplay.ScanIsDisplayed | tlpi-dist/namespaces/namespaces_of.go:781-794 | after a scan that met a user namespace, every recorded namespace that is a user namespace or of a type asked for is printed exactly once at its depth, and nothing else |
| WrapText.WrapText | tlpi-dist/namespaces/namespaces_of.go:641-667 | the loop over the words produces the rows of the greedy lines; nothing for a text without words |
| WrapText.GreedyKeepsWords | tlpi-dist/namespaces/namespaces_of.go:656-664 | the lines hold all words, in order |
| WrapText.GreedyFits | tlpi-dist/namespaces/namespaces_of.go:657 | all lines are within the width exactly if every word is |
| WrapText.GreedyFewest | tlpi-dist/namespaces/namespaces_of.go:656-664 | no breaking in order into lines that fit has fewer lines |
| WrapText.GreedyStaysAhead | tlpi-dist/namespaces/namespaces_of.go:656-664 | nor, with as many lines, a shorter last one |
| WrapText.WrappedReadsTheSame | tlpi-dist/namespaces/namespaces_of.go:636-667 | the output reads as the same words; its rows are the greedy lines, each behind the indent, as few as any breaking within the width allows, and each is within the width beside the indent exactly if every word is |
| WrapText.DisplayPIDsAsList | tlpi-dist/namespaces/namespaces_of.go:675-707 | the output reads as a bracket, the numbers of the processes in order, and a bracket; each row is indented by eight more, none is wider than the terminal or the least width beside the indent, and no breaking within that width has fewer rows |
| WrapText.ItoaReadsBack | tlpi-dist/namespaces/namespaces_of.go:690-693 | a number as it is written reads back as the number, without a leading zero |
| SeccompNotify.ValidMeansValidBefore | tlpi-dist/seccomp/seccomp_functions.c:40-54 | a cookie that is valid has been valid throughout, for the same process under the same PID |
| SeccompNotify.WhatTheChecksShow | tlpi-dist/seccomp/seccomp_functions.c:77-105 | the second check shows that the target was blocked at the read, the first that the PID still was the target's when the file was opened |
| SeccompNotify.GetTargetPathname | tlpi-dist/seccomp/seccomp_functions.c:65-118 | success or a badly formed path exactly if the target stays blocked until after the read and something is read; then the buffer holds the bytes of the process that raised the notification, read while it was blocked; success exactly if they contain a terminator; each of the other two errors by an if-and-only-if; the buffer is not touched unless the first check succeeded and something was read |
| SeccompNotify.PidAloneIsNotEnough | tlpi-dist/seccomp/seccomp_functions.c:77-85 | without the first check the file may be that of another process with the same PID |
| SeccompNotify.FirstCheckIsNotEnough | tlpi-dist/seccomp/seccomp_functions.c:96-105 | after the first check alone the call may have ended before the read |
| Messages.QueuedMeans | tlpi-dist/pmsg/mq_notify_via_thread.c:44 | sending adds the one message and keeps the queue ordered by priority |
| Messages.QueuedKeepsOrder | tlpi-dist/pmsg/mq_notify_via_thread.c:44 | it comes behind those of its priority, and the others keep their order |
| Messages.HeadIsNext | tlpi-dist/pmsg/mq_notify_via_thread.c:44 | the head of the queue is the oldest message of the highest priority |
| MqNotifyThread.StepKeeps | tlpi-dist/pmsg/mq_notify_via_thread.c:57-81 | every step keeps: the registration or one thread due to register, never both; a registered queue that is not empty has a drainer |
| MqNotifyThread.NoMessageIsForgotten | tlpi-dist/pmsg/mq_notify_via_thread.c:57-98 | in every run with any number of threads no registration is refused, each message is queued or was received once, those of one priority in the order sent, and a queue that is not empty has a thread due to empty it |
| MqNotifyThread.ReceivesTheNext | tlpi-dist/pmsg/mq_notify_via_thread.c:44-46 | whichever thread receives, it gets the oldest message of the highest priority |
| MqNotifyThread.RestMeansAllReceived | tlpi-dist/pmsg/mq_notify_via_thread.c:30-66 | when no thread can go on, all messages have been received and the registration is in place |
| MqNotifyThread.ThreadsComeToRest | tlpi-dist/pmsg/mq_notify_via_thread.c:44-51 | without further messages the threads come to rest after a bounded number of steps, in any order |
| MqNotifySignal.StepKeeps | tlpi-dist/pmsg/mq_notify_via_signal.c:77-104 | exactly one of registration, pending signal, flag and registration due, in every step |
| MqNotifySignal.IdleMeansNoted | tlpi-dist/pmsg/mq_notify_via_signal.c:72-100 | in every run no registration is refused, no message is lost or received twice, those of one priority are received in the order sent, and an idle loop with messages queued has a signal pending or noted |
| MqNotifySignal.ReceivesTheNext | tlpi-dist/pmsg/mq_notify_via_signal.c:91-92 | the loop receives the oldest message of the highest priority |
| MqNotifySignal.NotedMeansDrained | tlpi-dist/pmsg/mq_notify_via_signal.c:78-99 | a noted signal makes the next round register and receive all that is queued, in order |
| MqNotifySignal.StraySignalHarmlessIff | tlpi-dist/pmsg/mq_notify_via_signal.c:78-87 | a signal from elsewhere is harmless in every continuation if and only if one was pending already |
| ChildReaper.StepKeeps | tlpi-dist/procexec/multi_SIGCHLD.c:43-48 | every step keeps the invariant, with children dying at any point |
| ChildReaper.NeverWaitsInVain | tlpi-dist/procexec/multi_SIGCHLD.c:106-113 | the counter is the number of children not reaped, and the parent waits only if a child runs or SIGCHLD is pending |
| ChildReaper.SignalsCaught | tlpi-dist/procexec/multi_SIGCHLD.c:109-116 | SIGCHLD is caught at least once and at most once for each death or stop |
| ChildReaper.RunsEnd | tlpi-dist/procexec/multi_SIGCHLD.c:106-118 | every run is bounded, and one that can go no further has reaped all children |
| Environment.MatchesMeansDefines | tlpi-dist/proc/setenv.c:36 | the comparison holds exactly if the text before the entry's first '=' is the name |
| Environment.Process.ShiftBack | tlpi-dist/proc/setenv.c:38-42 | the inner loop removes the one entry, in place, terminator included |
| Environment.Process.UnsetEnv | tlpi-dist/proc/setenv.c:24-51 | the list without every entry that defines the name, in order; EINVAL and no change for a bad name |
| Environment.Process.GetEnv | tlpi-dist/proc/setenv.c:62 | the value of the first entry that defines the name |
| Environment.Process.PutEnv | tlpi-dist/proc/setenv.c:76 | the entry appended before the terminator of a larger array, or no change |
| Environment.Process.SetEnv | tlpi-dist/proc/setenv.c:54-77 | outcome and new list in every case: EINVAL for a bad argument, ENOMEM exactly if memory is needed and missing, else success with the new value, or the old ones if they are kept; other names keep their values |
| Environment.WithoutMeans | tlpi-dist/proc/setenv.c:35-48 | no definition of the name is left and every other name keeps its definitions, in order |
| Environment.WithoutKeepsTheRest | tlpi-dist/proc/setenv.c:35-48 | no other entry is lost, with or without a name |
| Environment.SetMeans | tlpi-dist/proc/setenv.c:54-77 | the other names are as before; with memory there is exactly one definition, the new value, unless an existing one was kept, and without memory there is none |
| Environment.FailureIsCleanOnlyForNewNames | tlpi-dist/proc/setenv.c:65-76 | a failed call leaves the environment unchanged if and only if the name was not defined |
| Environment.FailureExample | tlpi-dist/proc/setenv.c:65-76 | an input on which the old definition is lost |
| Environment.LastSetWins | tlpi-dist/proc/setenv.c:62-76 | setting twice is setting once with the second value |
| UsernsWalk.IsAncestorUserns | tlpi-dist/namespaces/ns_capable.c:171-213 | terminates; finds x exactly if it is a proper ancestor of y that can be seen, and returns the namespace on the chain whose parent is x |
| UsernsWalk.TowardIsUnique | tlpi-dist/namespaces/ns_capable.c:162-169 | there is only one such namespace |
| UsernsWalk.EntitledByPlace | tlpi-dist/namespaces/ns_capable.c:255-287 | the capability rule, followed up the whole chain, comes to three cases: member, ancestor, neither |
| UsernsWalk.OpenedMeansVisible | tlpi-dist/namespaces/ns_capable.c:248-253 | a process whose user namespace the program could open is in a namespace the program can see |
| UsernsWalk.Decide | tlpi-dist/namespaces/ns_capable.c:232-312 | every verdict given is what the rule grants; none is given exactly if the target's namespace or the process's could not be opened |
| Splitting.SplitThenJoin | tlpi-dist/procexec/execlp.c:143-147 | joining the pieces with the separator gives the text back |
| Splitting.JoinThenSplit | tlpi-dist/procexec/execlp.c:143-147 | splitting joined pieces that are free of the separator gives them back |
| PathSearch.PrefixesMakeUpThePath | tlpi-dist/procexec/execlp.c:138-164 | the prefixes tried are the only pieces free of colons that make up PATH |
| PathSearch.TriedForPieces | tlpi-dist/procexec/execlp.c:149-159 | for the colon-free pieces that make up PATH, the pathnames tried are, in order, the piece, one slash and the file name, or "./" and the file name for an empty piece |
| PathSearch.TriedWithoutPath | tlpi-dist/procexec/execlp.c:107-130 | without a PATH, or with an empty one, only "./" and the file name; a name with a slash is tried alone |
| PathSearch.CurrentDirectoryTried | tlpi-dist/procexec/execlp.c:141-154 | the current directory is searched if and only if PATH is empty, begins or ends with a colon, has two in a row, or names it |
| PathSearch.NextPrefix | tlpi-dist/procexec/execlp.c:143-164 | the piece found and the rest of the text split as the text does |
| PathSearch.BuildPathname | tlpi-dist/procexec/execlp.c:149-159 | prefix, or "." if it is empty, slash and file name, in a buffer of the size allocated and without a write outside |
| PathSearch.StrNCat | tlpi-dist/procexec/execlp.c:155-159 | appends within the buffer and terminates |
| PathSearch.SearchAlong | tlpi-dist/procexec/execlp.c:138-178 | the loop tries the pathname of every prefix once, in order, until one runs; otherwise EACCES if any gave it, else the last error |
| PathSearch.Execlp | tlpi-dist/procexec/execlp.c:105-195 | one file is run, or the shell on it, if and only if one of the pathnames allows it; else the error is EACCES if any gave it, and that of the last one otherwise; also for a name with a slash and for an undefined or empty PATH |

## Left out

The inotify program:

- Commands, logging, cache dumps, and the option to abort on a cache problem.
- `checkCacheConsistency()`, a diagnostic whose second test is attached to the wrong condition.
- Checking and copying the command line's directories (lines 375-441).
- Truncation of pathnames longer than PATH_MAX.
- Exchanges of a directory with an entry that is none: the directory's half is a rename to a free place, the other is skipped by the program.
- CreationRace.MissedIffOverlooked: root directories are not removed while a traversal is under way (their removal is modelled in the quiet runs), so the list of roots does not change. mkdir, rmdir, releases and rebuilds interleave with the program, renames do not: with several of them at once their halves interleave in the queue, and the program, as its comments say, only guesses. IN_IGNORED events are left out of the queue, since the program skips them.
- QuietRuns.QuietRunStaysInSync: each operation's events are handled before the next operation, and removed directories are not held.
- InotifyDtree.Program.ZapRootDirPath: the path is a root, as both callers have just checked; the message for another path is left out.
- Unmounting as an operation; the handling of its event is modelled.

The namespace program:

- Files under /proc that cannot be opened, unexpected ioctl() errors (both end the program or skip a process), UID and GID maps, and the choice of processes.
- The text of a displayed line, colours, one process a line, and the sorting of member lists by the library.
- The mask of types is a set of types; each type is one bit of it.
- Lengths are counted in characters; the texts that are wrapped are ASCII.

The protocols:

- They are state machines over their steps rather than running threads; what is printed and the buffers for messages are not modelled.
- What the target's memory holds over time: the program itself promises nothing there. memory is what a read gives at that moment.
- Failures of fork(), malloc() and of the calls that set things up.
- Other readers of the message queue, and other processes registering for it.

The list and string algorithms:

- A null environ pointer; an array that another thread changes.
- `getenv()` and `putenv()` are the library's; their modelled effect is that of an environment without entries that share storage.
- Closing of file descriptors in `ns_capable.c` and the display of capability sets.
- Building argv and envp in `execlp.c`, and the vector passed to the shell: the shell either runs or does not.

Other programs of the repository, among them near copies of the above
(`pid_namespaces.go`, `userns_overview.go`), are single calls or thin wrappers.

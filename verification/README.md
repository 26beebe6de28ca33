# Verification model of the hidden file monitor

The monitor watches the files of Windows guests from outside. This project models the five parts of it
that are hard to get right and proves what they promise.

**Hidden breakpoints** (`src/hfm.c`, `src/trapmngr.c`). A guest runs with two memory views: ORIGIN is its
own memory, ALT shows shadow copies of the frames that hold breakpoints. `TrapManager` is the index of
traps. `Engine` gives the effect of each callback as a function, `EngineInvariants`, `Dispatch` and
`Recopy` the invariant and that each operation keeps it, `Machine` the vCPUs that run instructions, raise
events and have them handled in any interleaving, and `Transparency` the main theorem: for the guest, a
monitored run is a run on its original memory. `ReturnTraps` says which traps come with an event or a system
call and which stay. `EngineLimits` has progress, shutdown, and the cases in which the code as written fails its
promise; `Retries` bounds how often a vCPU tries in vain, and `Restored` discharges the store condition for the
recopy as meant. `Handler` is the object that updates all this in place.

**Path patterns** (`src/monitors/fnmatch.c`, `src/monitors/file_filter.c`). `PathNodes` is the tokeniser
on its fixed buffers, `CursorMachine` the backtracking matcher as a machine on two cursors, `NodeMatch`
the comparison of one node, `Matcher` the methods on node lists, `PatternMeaning` where the answers are
what the pattern means and where not, and `FileFilter` the first-match filter.

**Restart watcher** (`src/multiwatch.c`). `Watcher` interleaves the monitor, boot threads and callbacks of
any number of VMs; `WatcherObject` is the record the monitor changes.

**Guest structures** (`src/context.c`, `src/win.c`). `HandleTable` compares looking up a handle with listing
the table, `HandleLayout` says what both give for a table as it lies in memory, `FileExtract` puts a file
together from page tables, `Sid` prints security identifiers.

**Chained hash table** (`src/fcleaner/hashtable.c`). `TableModel` refines a finite map and accounts for
every data pointer; `HashTable` is the table of linked nodes.

`dafny verify dfyconfig.toml` checks everything.

## How the engine is modelled

- A vCPU's next instruction is an arbitrary function of everything it has experienced. An instruction
  fetches some bytes, makes at most one data access, and is INT3 exactly when its first byte is 0xCC. A
  callback's result and its return address are arbitrary functions too; so is the shadow allocator, 0
  meaning failure.
- An int3 or memory event stays pending until it is handled, and anything may happen in between. An
  instruction in ORIGIN and the single-step callback behind it are one step. `reinject` means that the guest
  observes one breakpoint exception.
- `World.fillTraps` false is the code as it is: src/hfm.c:283 is commented out, so `pass->traps` is always
  empty and the recopy in `_post_mem_cb` never runs. `fillTraps` true is the code with that line restored, the
  list taken as it is at that moment and each element's address read where the loop reads a `uint64_t *`.
  `Transparent` covers both. Its condition on stores is what makes the difference: `StoreSafeIff` shows that it
  cannot be weakened in either case. With `fillTraps` false no store may change what a shadow page copies, and
  `StaleByteExecuted` is a run that does. With `fillTraps` true `RestoredIsTransparent` replaces the condition: no trap
  comes or goes in a frame between its write event and the step behind it, and the instruction stores to no other
  shadowed frame. One input is beyond the restored recopy too: a frame whose last trap was removed keeps its shadow
  page, a write to it hands out an empty pass, and by `AbandonedFrame` the shadow page stays right only if the write
  changes nothing.
- `Transparent` has two more conditions, both of which a step can be tested for before it is taken: no instruction
  is fetched through a breakpoint that lies in its middle (`AltBytesIff` shows this is exactly when the fetched
  bytes differ), and system calls are trapped in the guest's own memory or at addresses that cannot be read.
  `EveryRun` needs only the last.
- A dispatch loop that removes a trap reads the successor of a freed list node (src/hfm.c:247-254). The model
  takes the successor first, from the live list, so that traps appended to the same address during the walk are
  visited.
- `_inject_trap` goes on with frame 0 when a shadow page cannot be created (src/hfm.c:376-391). The model does
  the same; `InjectKeepsInv` says exactly when that breaks the invariant. The transparency theorem assumes that
  shadow frames can be had.

## Where the code and its documentation disagree

- `src/monitors/fnmatch.h` promises 13 directory levels. The offset table of 13 entries also needs one for the
  end, so the tokeniser is proved for 12.
- The repository's README gives `/root/**/*` the meaning of all files in /root/ and its subdirectories. The
  matcher lets `**` stand for one or more components, so files in /root/ itself are not matched, and it loses or
  invents matches when a node behind `**` repeats. For one `**` and any tail, `TailAfterDouble` says exactly which
  paths are missed and which are wrongly accepted; for any number of them `RightShapes` says for exactly which
  placings of `**` the matcher is always right.
- `src/fcleaner/hashtable.h` says that putting an existing key replaces its data. Code and test say that it is
  refused with -1, and so does the model. The walk of `hsh_put` skips the last node of a chain and reads through
  NULL behind a single one; `Put` compares every node, `WalkOf` is the walk as written, `WalkAgrees` says exactly
  when the two agree, and `WrittenRefines` in exactly which runs the table as written is a finite map.
- Each monitor keeps one filter for all VMs (src/monitors/file_created.c:30). Every VM adds the same policies
  (src/main.c:93-96) and adds them again at each of its restarts, and `filter_add` does not check the 128 places of
  `ids`; `RestartsChangeNothing` says exactly for how many VMs and restarts they last.
- `wv_vmi_okay` looks at the first VM's flag whichever VM it is asked about; `VmiOkay` does so too, and
  `SafeListeners` says what that costs. The watcher's other theorems are about each VM's own flag.
- `hfm_fileobj_from_handle` has no case for XP, `win_list_drives` has one. `object_offset` is 0 in both, because
  the assignments are to inner variables.
- `_extract_ca_file` ends its walk at a subsection whose page-table entries start on a page boundary; so does the
  model.
- `hfm_extract_sid` prints every authority in decimal, where section 2.4.2.1 of MS-DTYP asks for hexadecimal from
  2^32 on.

## Model

| member | source | states |
|---|---|---|
| `TrapManager.IndexAgreesAlways` | src/trapmngr.c:66-128 | from the empty tables, after any sequence of adds, removes and flag changes: every trap sits under its own address and its own frame, no entry is empty, and the frame list filtered to one address is, in order, the list at that address |
| `TrapManager.AddKeepsIndex` | src/trapmngr.c:72-96 | adding any trap keeps the two indexes in agreement |
| `TrapManager.DropKeepsIndex` | src/trapmngr.c:98-128 | removing any trap, registered or not, keeps the two indexes in agreement |
| `TrapManager.AtPaRemove` | src/trapmngr.c:119-124 | removing the first occurrence from a frame list removes the first occurrence from its part at the trap's address and nothing from the part at any other |
| `TrapManager.DropLists` | src/trapmngr.c:98-128 | a removal takes the first occurrence of the trap from the list at its address and leaves every other list alone |
| `TrapManager.Manager.constructor` | src/trapmngr.c:18-27 | the four tables start empty |
| `TrapManager.Manager.Clear` | src/trapmngr.c:42-64 | destroying empties all four tables |
| `TrapManager.Manager.AddRemapped` | src/trapmngr.c:29-32 | records the shadow frame and changes no other table |
| `TrapManager.Manager.AddMemtrap` | src/trapmngr.c:154-157 | marks the frame and changes no other table |
| `TrapManager.Manager.AddInt3Trap` | src/trapmngr.c:72-96 | the trap goes behind those at its address and behind those in its frame; the tables are those of the specification whose index agreement is proved |
| `TrapManager.Manager.RemoveInt3Trap` | src/trapmngr.c:98-128 | takes the trap from both indexes, returns how many traps are left at the address, 0 exactly when its entry is gone |
| `TrapManager.Manager.MarkDoubletrap` | src/trapmngr.c:138-142 | sets one address's flag and touches no list |
| `TrapManager.Manager.CheckDoubletrap` | src/trapmngr.c:130-136 | reads the flag of the address |
| `GuestMemory.ShadowedAdd` | src/hfm.c:390-406 | writing one breakpoint into a right shadow page gives the right shadow page for one more address |
| `GuestMemory.ShadowedRemove` | src/hfm.c:586-599 | putting one original byte back gives the right shadow page for one address less |
| `EngineInvariants.InjectKeepsInv` | src/hfm.c:355-415 | injection keeps the engine invariant (shadow bytes, flags, mappings, indexes, trap conservation) if and only if it does not go on after the shadow page could not be created; otherwise guest memory and vCPUs are untouched |
| `EngineInvariants.InjectMissing` | src/hfm.c:370-406 | going on with frame 0 after a failed creation leaves a breakpoint whose frame has no remapping |
| `EngineInvariants.NewShadowKeepsInv` | src/hfm.c:549-584 | a new shadow page, fresh and copied from the original, keeps the invariant |
| `EngineInvariants.RegisterFirstKeepsInv` | src/hfm.c:390-412 | the first trap at an address, with its INT3 or its flag, keeps shadow bytes and flags right |
| `EngineInvariants.ArmKeepsInv` | src/hfm.c:381-388 | protecting a frame keeps the invariant |
| `Dispatching.DestroyKeepsInv` | src/hfm.c:247-253 | removing a one-shot trap, with the original byte restored after the last one at an address, keeps the invariant, touches no guest byte and frees exactly that trap |
| `Dispatching.CallbackKeepsInv` | src/hfm.c:225-246 | one callback and the return trap it may inject keep the invariant and the guest's memory |
| `Dispatching.VisitKeepsInv` | src/hfm.c:223-255 | one turn of the dispatch loop keeps the invariant, the guest's memory, and that one-shot traps fired at most once |
| `Dispatching.VisitLists` | src/hfm.c:223-255 | one turn leaves the traps before the current one in place, drops the current one exactly when it is one-shot, and appends only what its callback put at this address |
| `Dispatching.DispatchAll` | src/hfm.c:217-255 | over the whole walk every trap found at the address fires once in registration order although traps remove themselves and callbacks append; then exactly the lasting ones remain, in order; other addresses only gain traps |
| `EngineLimits.Int3RunsEachOnce` | src/hfm.c:217-255 | one int3 event runs the callbacks of the traps registered at its address, all distinct, once each in order, followed only by new one-shot traps put there meanwhile |
| `ReturnTraps.CallbackAdds` | src/hfm.c:225-246 | a callback leads to a return trap exactly when the trap has a callback and a return callback and the callback returned data; then the list at the return address grows by exactly that one-shot trap with that data, and no other list does; otherwise the tables do not change |
| `ReturnTraps.InjectWorks` | src/hfm.c:355-415 | where shadow frames can be had, putting a trap into the guest's own memory always succeeds |
| `ReturnTraps.DispatchAdds` | src/hfm.c:217-255 | one walk adds exactly the return traps of the callbacks it runs, in the order they run, each to the list of its own address; those put at the address being walked are run in turn and leave again |
| `ReturnTraps.Int3Adds` | src/hfm.c:209-265 | the traps one int3 event adds are exactly those of the callbacks that returned data |
| `ReturnTraps.SyscallAdds` | src/hfm.c:149-179 | trapping a system call adds exactly one trap at its address: new, with a callback, with a return callback if one is given, not one-shot |
| `ReturnTraps.TrapLasts` | src/hfm.c:149-179 | a trap that is not one-shot, as every system call's, stays registered through every run |
| `Recopying.OverwriteIff` | src/hfm.c:279-292 | without a recopy, an arbitrary guest write to a remapped frame keeps shadow bytes and flags right if and only if it changes only breakpoint bytes and no byte there to or from INT3 |
| `Recopying.RecopyIff` | src/hfm.c:302-337 | after an arbitrary guest write to the frame, recopying and re-applying the pass's traps restores the invariant if and only if those traps cover the frame's breakpoints, apart from bytes that are INT3 anyway |
| `Recopying.RecopyAny` | src/hfm.c:302-337 | whatever was written, the recopy succeeds and keeps indexes, mappings and conservation |
| `Recopying.ReapplyLoop` | src/hfm.c:315-336 | the loop puts INT3 at exactly the pass's addresses and sets each flag by the original byte |
| `Transparency.AltByteIs` | src/hfm.c:19-31 | a byte seen through the ALT view is 0xCC under a breakpoint and the original byte elsewhere |
| `Transparency.AltBytesIff` | src/hfm.c:19-31 | an instruction fetched in ALT is the original one if and only if none of its bytes lies under a breakpoint that hides another byte |
| `Transparency.AltExecOk` | src/hfm.c:19-31 | an instruction tried in ALT either is exactly the native step or raises an event and changes nothing the guest can see |
| `Transparency.OriginExecOk` | src/hfm.c:295-353 | the one instruction in ORIGIN is the native step and keeps the invariant; afterwards the vCPU is back in ALT if and only if its pass holds no trap that has left the tables, else the engine stops |
| `Transparency.HandleMemOk` | src/hfm.c:267-293 | a memory event hands out one pass, switches to ORIGIN and single-stepping, and shows the guest nothing |
| `Transparency.TrappedInt3` | src/hfm.c:212-265 | an int3 event at a trapped address shows the guest a breakpoint exception if and only if its own byte there is 0xCC, and keeps the run invariant |
| `Transparency.LateInt3` | src/hfm.c:194-210 | an int3 event whose trap was removed meanwhile is reinjected exactly when the original byte is 0xCC, else it is invisible |
| `Transparency.SyscallOk` | src/hfm.c:149-179 | trapping a system call at any moment of a run is invisible to the guest |
| `Transparency.StepSimulates` | src/hfm.c:181-415 | every step of the monitored machine is, for the guest, the native steps it stands for, and keeps the run invariant |
| `Transparency.Transparent` | src/hfm.c:19-31 | over any interleaving of instructions, event handling, injections and removals on any number of vCPUs, whose stores are safe and whose fetches meet no breakpoint inside an instruction, guest memory, fetched and loaded bytes and breakpoint exceptions equal those of an unmonitored run |
| `Transparency.TransparentFromStart` | src/hfm.c:19-31 | the same from the first instruction after the ALT view is set up |
| `Transparency.EveryRun` | src/hfm.c:181-415 | with no condition on what the guest executes or writes, every run keeps: ORIGIN exactly while single-stepping, `_post_mem_cb` exactly while a pass is pending, passes and traps conserved, one-shot traps fired at most once, indexes and mappings agreeing |
| `Transparency.InitialOk` | src/hfm.c:496-517 | the engine right after set-up satisfies the run invariant and shows the guest its own memory |
| `EngineLimits.Progress` | src/hfm.c:181-353 | an event never makes the guest retry for ever: try, handle, try again takes at least one native step |
| `Retries.RetriesBounded` | src/hfm.c:194-210 | over any run a vCPU is told to try an instruction again at most once for each trap freed and each native step of another vCPU |
| `Retries.RetriesFromStart` | src/hfm.c:194-210 | from the start of monitoring; on a machine with one vCPU it retries at most once for each trap freed |
| `Retries.LastFreed` | src/hfm.c:247-253 | an address that loses its traps has at least one of them freed |
| `EngineLimits.PlainStoreIff` | src/hfm.c:282-292 | when the pending pass, if any, has no traps, as it never has in the code as written, an instruction in ORIGIN leaves the shadow pages right if and only if it changes nothing a shadow page copies |
| `RestoredRecopy.StoreSafeIff` | src/hfm.c:295-345 | with or without the recopy, unless a trap of its pass has left the tables, an instruction in ORIGIN leaves the shadow pages right if and only if its store is safe: the store condition of the transparency theorem cannot be weakened |
| `RestoredRecopy.OtherFrameSpoiled` | src/hfm.c:302-337 | recopying one frame does not mend a change to another |
| `RestoredRecopy.FilledPassIsSafe` | src/hfm.c:279-286 | with line 283 restored, the pass handed out for a write event on a frame with traps makes any store to that frame safe |
| `RestoredRecopy.CurrentIsSafe` | src/hfm.c:302-337 | it stays so as long as no trap of the frame has come or gone |
| `RestoredRecopy.FrameCovered` | src/hfm.c:283 | the list taken for a frame holds a trap for every breakpoint in the frame |
| `RestoredRecopy.LastTrapLeaves` | src/hfm.c:247-253 | a one-shot trap alone in its frame leaves the shadow page and the access protection behind |
| `RestoredRecopy.AbandonedFrame` | src/hfm.c:282-286 | a write to such a frame hands out an empty pass even with line 283 restored, and the shadow page stays right if and only if the write changes nothing |
| `RestoredRecopy.UndisturbedRuns` | src/hfm.c:181-415 | in runs in which no trap comes or goes in a frame between its write event and the step behind it, and instructions in ORIGIN store to no other shadowed frame except neutrally, every store is safe |
| `RestoredRecopy.RestoredIsTransparent` | src/hfm.c:19-31 | such runs are transparent from the first instruction, whatever the guest writes to frames that hold traps |
| `EngineLimits.StaleByteExecuted` | src/hfm.c:282-286 | a concrete run of the code as written in which the guest executes a byte it has already overwritten |
| `EngineLimits.MissingShadowWritesFrameZero` | src/hfm.c:370-406 | after a failed allocation the breakpoint is written into the guest's own frame 0 |
| `EngineLimits.ShutdownClean` | src/hfm.c:525-547 | after shutdown the ALT view is the identity, nothing is protected, guest memory is intact, and every trap ever injected was freed exactly once |
| `EngineLimits.RestartClean` | src/hfm.c:676-691 | rebuilding the trap manager for a rebooted guest gives a sound engine on the new memory with all old traps freed once |
| `EngineLimits.RestartedRun` | src/hfm.c:650-691 | after a restart the whole run invariant holds again if and only if no pass was pending when the old guest died; a pending one is never freed |
| `HandlerObject.Handler.CreateShadowPage` | src/hfm.c:549-584 | allocates, maps and copies as specified, and on failure returns 0 with the view change left in place |
| `HandlerObject.Handler.EnsureShadow` | src/hfm.c:371-379 | uses the recorded shadow frame or records a new one, unless creating it failed |
| `HandlerObject.Handler.PlaceTrap` | src/hfm.c:390-414 | INT3 goes into the shadow page, unless the original is INT3, before the trap is registered with its flag; failures register nothing |
| `HandlerObject.Handler.InjectTrap` | src/hfm.c:355-415 | the new engine state and the status are those the invariant and the transparency theorem are proved of |
| `HandlerObject.Handler.RemoveInt3` | src/hfm.c:586-599 | puts the original byte back in the shadow page, or interrupts when it cannot be read |
| `HandlerObject.Handler.RunCallback` | src/hfm.c:225-246 | runs the callback and injects its return trap when there is one to inject |
| `HandlerObject.Handler.DestroyTrap` | src/hfm.c:247-253 | removes and frees the trap and restores the byte when it was the last |
| `HandlerObject.Handler.WalkTraps` | src/hfm.c:217-255 | the loop, each turn taking the successor before its trap goes away, does what dispatching is specified to do |
| `HandlerObject.Handler.VisitTrap` | src/hfm.c:223-254 | one turn of the loop, with what is left of the list |
| `HandlerObject.Handler.Int3Cb` | src/hfm.c:181-265 | state and response (reinject, view, single-step) of an int3 event |
| `HandlerObject.Handler.PreMemCb` | src/hfm.c:267-293 | state and response of a memory event |
| `HandlerObject.Handler.Recopy` | src/hfm.c:302-337 | the recopy loop with its three ways to fail |
| `HandlerObject.Handler.PostMemCb` | src/hfm.c:295-345 | state and response of the step after a memory event, the pass freed unless the recopy failed |
| `HandlerObject.Handler.SinglestepCb` | src/hfm.c:347-353 | back to the ALT view with stepping toggled off |
| `HandlerObject.Handler.DestroyTraps` | src/hfm.c:525-547 | protections, remappings, shadow frames and traps are all given back |
| `HandlerObject.Handler.constructor` | src/hfm.c:496-517 | the engine is the initial one and satisfies what every callback asks for |
| `HandlerObject.Handler.RestartVmi` | src/hfm.c:650-691 | every old trap is freed, tables, view and vCPUs are set up afresh on the new memory |
| `HandlerObject.Handler.ReturnShadows` | src/hfm.c:535-543 | every remapped frame shows itself again and its shadow frame is returned |
| `HandlerObject.Handler.FreeTraps` | src/trapmngr.c:53-58 | every trap in the tables is freed once |
| `HandlerObject.Successors` | src/hfm.c:247-254 | the successor in the live list is the head of what the specification says is left |
| `CursorMachine.Run` | src/monitors/fnmatch.c:146-171 | the expression cursor never retreats, the pattern cursor ends between its entry value and the end, and acceptance means both are at the end |
| `CursorMachine.AdvancesBounded` | src/monitors/fnmatch.c:146-171 | for every pattern a call advances the expression cursor exactly as far as it moves, so at most once per component, however many `**` there are |
| `CursorMachine.RunStraight` | src/monitors/fnmatch.c:146-171 | with no `**` ahead the machine accepts exactly one-to-one matches |
| `CursorMachine.RunDouble` | src/monitors/fnmatch.c:156-163 | from the last `**` the machine commits to the first component the next node matches |
| `CursorMachine.OneDouble` | src/monitors/fnmatch.c:146-171 | exactly what is accepted for any pattern with a single `**` |
| `CursorMachine.GlobTail` | src/monitors/fnmatch.c:146-171 | what a single `**` means, whatever stands behind it: the prefix matches and the nodes behind it match the last components |
| `CursorMachine.RunTail` | src/monitors/fnmatch.c:156-163 | for a single `**` that is not last: the tail must match to the end from the first component its first node matches, or the machine slips there: the last node matched is tried again on the component that failed and the rest matches to the end |
| `CursorMachine.WhereWrong` | src/monitors/fnmatch.c:156-163 | for every pattern with a single `**` and every path: exactly which matches are missed and which mismatches are accepted, hence exactly when the machine is right |
| `CursorMachine.PlainIsGlob` | src/monitors/fnmatch.c:146-171 | without `**` the machine decides the declared meaning, for all inputs |
| `CursorMachine.FinalDoubleIsGlob` | src/monitors/fnmatch.c:146-171 | with its only `**` last the machine decides the declared meaning: the prefix matches and at least one component remains |
| `CursorMachine.OneAfterDouble` | src/monitors/fnmatch.c:146-171 | for prefix/`**`/X: accepted exactly when the first component X matches is last, or next-to-last with the last matching too; sound always, complete if and only if X matches no skipped component but possibly the next-to-last |
| `CursorMachine.RestoringIsGlob` | src/monitors/fnmatch.c:156-163 | if both cursors were restored after a failed attempt, the matcher would decide the declared meaning of every pattern |
| `CursorMachine.RunLoose` | src/monitors/fnmatch.c:156-163 | when every other node behind the first `**` is directly followed by a `**`, the machine decides the meaning from any component on, and a failure means the path is used up |
| `CursorMachine.LooseIsGlob` | src/monitors/fnmatch.c:146-171 | with any number of `**`, the last ending the pattern and at most one other node between two, the machine is right on every input |
| `CursorMachine.AstrayIsWrong` | src/monitors/fnmatch.c:156-163 | for any other placing of the `**`, a path with more decoys than there are `**` on which the machine misses a match |
| `CursorMachine.RightPatterns` | src/monitors/fnmatch.c:146-171 | the patterns on which the machine is right whatever the nodes match and whatever the path are exactly those in which every other node behind a `**` is directly followed by a `**` |
| `CursorMachine.Misses` | src/monitors/fnmatch.c:156-163 | a match the machine misses |
| `CursorMachine.WronglyAccepts` | src/monitors/fnmatch.c:156-163 | a mismatch the machine accepts |
| `PathNodes.Translate` | src/monitors/fnmatch.c:70-124 | there is no node list exactly when two separators are adjacent; otherwise its slices are the path's components, pattern nodes are classified, the cursor is 0 and every array access and offset is in range |
| `PathNodes.Classify` | src/monitors/fnmatch.c:111-117 | every node of a pattern gets its kind |
| `PathNodes.FindNodeType` | src/monitors/fnmatch.c:126-144 | `*` alone, `**` alone, some star, or none |
| `PathNodes.NodeList.Put` | src/monitors/fnmatch.c:98-105 | a character begins a name and records its offset, or extends the last name |
| `PathNodes.NodeList.Slices` | src/monitors/fnmatch.c:31-37 | offsets strictly increase, fit a byte, and the slice between two of them is the component |
| `PathNodes.OneMore` | src/monitors/fnmatch.c:88-107 | what one more character does to the components of a path |
| `PathNodes.JoinRoundTrip` | src/monitors/fnmatch.c:70-124 | for every list of names and every choice of `/` or `\` before each, cutting the joined text gives the list back, also when the first separator is left out |
| `PathNodes.TrailingSep` | src/monitors/fnmatch.c:88-107 | one more `/` or `\` at the end changes no component |
| `PathNodes.JoinCanBeCut` | src/monitors/fnmatch.c:90-93 | text joined so is never refused: it has no two adjacent characters that are `/` or `\` |
| `PathNodes.SliceIsName` | src/monitors/fnmatch.c:15-16 | the text between successive offsets is the component |
| `PathNodes.ShortPathsFit` | src/monitors/fnmatch.c:8-9 | a path of at most 255 characters fits the buffer |
| `NodeMatch.PlainLanguage` | src/monitors/fnmatch.c:176-184 | a name without stars means itself alone |
| `NodeMatch.OneStarLanguage` | src/monitors/fnmatch.c:188-226 | a node with one star means the names with its two parts at the two ends, not overlapping |
| `NodeMatch.HitIsLanguage` | src/monitors/fnmatch.c:173-229 | a component is in a supported node's language if and only if the comparison succeeds and the component has room for the node's text |
| `Matcher.MatchCurNode` | src/monitors/fnmatch.c:173-229 | the comparison of the current node with the current component |
| `Matcher.MatchMixed` | src/monitors/fnmatch.c:188-226 | which of the three comparisons applies; no place behind the buffer is read |
| `Matcher.MatchBack` | src/monitors/fnmatch.c:194-200 | the node's text behind its star stands at the component's end |
| `Matcher.MatchAhead` | src/monitors/fnmatch.c:201-207 | the node's text before its star stands at the component's start |
| `Matcher.MatchBothEnds` | src/monitors/fnmatch.c:208-225 | both parts stand at their ends |
| `Matcher.Match` | src/monitors/fnmatch.c:146-171 | answer and both final cursors are those of the cursor machine |
| `Matcher.FnMatch` | src/monitors/fnmatch.c:59-68 | 0 or 1 by the machine from the first nodes, wherever earlier calls left the cursors |
| `PatternMeaning.PlainPattern` | src/monitors/fnmatch.c:146-229 | a `**`-free pattern means: as many components as nodes, each in its node's language; these are accepted, and nothing else whose components have room for their nodes' text |
| `PatternMeaning.FinalDouble` | src/monitors/fnmatch.c:146-229 | with one final `**`: the prefix matches and at least one component remains; same exact condition |
| `PatternMeaning.TailAfterDouble` | src/monitors/fnmatch.c:146-229 | for every pattern prefix/`**`/tail: what it means, exactly which such paths the matcher misses and exactly which others it accepts, where the nodes have room in what they are compared with |
| `PatternMeaning.OneNodeAfterDouble` | src/monitors/fnmatch.c:146-229 | for prefix/`**`/x nothing wrong is accepted, and missed are exactly the paths where x matches a skipped component other than the next-to-last |
| `PatternMeaning.LooseNodes` | src/monitors/fnmatch.c:146-229 | when every other node behind a `**` is directly followed by a `**`, nothing the pattern means is missed, and nothing else is accepted on paths with room |
| `PatternMeaning.TightNodes` | src/monitors/fnmatch.c:146-229 | for every other placing of the `**`, a pattern of plain names and a path on which it is not decided as it is meant |
| `PatternMeaning.RightShapes` | src/monitors/fnmatch.c:146-229 | all patterns with a given placing of the `**` are decided as they are meant, on all paths with room, if and only if every other node behind a `**` is directly followed by a `**` |
| `PatternMeaning.AsMeant` | src/monitors/fnmatch.c:173-229 | where nodes have room in what they are compared with, the matcher is the cursor machine on the nodes' languages, for every pattern |
| `PatternMeaning.RestoringIsMeant` | src/monitors/fnmatch.c:156-163 | with restored cursors every supported pattern would be decided as declared |
| `PatternMeaning.MissedPath` | src/monitors/fnmatch.c:156-163 | `**/b/c` misses a/b/d/b/c |
| `PatternMeaning.WrongPath` | src/monitors/fnmatch.c:156-163 | `**/x/y` accepts a/x/y/y |
| `PatternMeaning.ShortComponent` | src/monitors/fnmatch.c:188-226 | `ab*/bc` accepts a/bc, the comparison running on into the next component |
| `FileFilter.FirstMatchIsEarliest` | src/monitors/file_filter.c:40-57 | the answer is the id of the earliest added pattern that accepts, or -1 |
| `FileFilter.FirstPolicyAnswers` | src/monitors/file_filter.c:29-57 | in a filter set up once the answer is the id of the first policy whose own pattern can be cut and matches the path, or -1 if there is none |
| `FileFilter.AnySeparators` | src/monitors/file_filter.c:29-57 | whether a policy matches does not depend on which of `/` and `\` separates the names in the pattern or in the path |
| `FileFilter.SetupsFitIff` | src/monitors/file_filter.c:29-38 | in n set-ups nothing is written past the 128 places of `ids` if and only if n times the number of usable policies is at most 128 |
| `FileFilter.RestartsChangeNothing` | src/main.c:93-96 | V VMs share a filter and set it up once each, and once more at each of r restarts: the policies fit if and only if V + r times the usable ones is at most 128, and as long as they do no answer changes |
| `FileFilter.SetupsAnswer` | src/hfm.c:694-703 | on the list of patterns alone, setting up again never changes an answer, and the list grows by the number of usable policies each time |
| `FileFilter.TwoVmsOverrun` | src/main.c:93-96 | two VMs with 65 usable policies write past the end before any restart; with one usable policy at the 127th restart |
| `FileFilter.AddedBehind` | src/monitors/file_filter.c:29-38 | adding goes behind what is there, and no policy adds more than one pattern |
| `FileFilter.Filter.constructor` | src/monitors/file_filter.c:18-22 | no patterns at first |
| `FileFilter.Filter.Add` | src/monitors/file_filter.c:29-38 | appends pattern and id and returns 0, or returns -1 and changes nothing when the pattern cannot be cut |
| `FileFilter.Filter.AddAll` | src/hfm.c:694-703 | adding all policies in turn takes the filter from its patterns after n set-ups to those after n + 1 |
| `FileFilter.Filter.Match` | src/monitors/file_filter.c:40-57 | the earliest accepting pattern's id or -1, independent of the cursors stored in the patterns; nothing but cursors changes |
| `Watcher.NextOk` | src/multiwatch.c:94-204 | every monitor visit, callback return and boot-thread step keeps a VM's invariant |
| `Watcher.Alternation` | src/multiwatch.c:141-185 | between two destructions of the handle there is an initialisation, and between two initialisations a destruction |
| `Watcher.EveryRunIsSafe` | src/multiwatch.c:94-204 | over all interleavings for any number of VMs: okay implies a live handle; live in DESTROY, dead in SHUTDOWN and BOOTING; destroy and init alternate; the callback runs right after each restart noticed and at no other time; at most one boot thread; nothing after a failed callback; a destruction stands exactly directly behind an unanswered ping, a restart directly behind a reported boot |
| `Watcher.HistoryTells` | src/multiwatch.c:141-185 | on the history with the answers, which begins with a ping: every unanswered ping is directly followed by a destruction and every destruction directly preceded by one, a VM is probed only behind a destruction or a failed probe, a restart stands directly behind a report, a report directly behind a successful probe |
| `Watcher.UnansweredIsDestroyed` | src/multiwatch.c:167-178 | a running, okay VM that does not answer is not okay from that visit on, and the next thing that can happen to it is the visit that destroys its handle |
| `Watcher.AnsweredStayUp` | src/multiwatch.c:167-174 | over all runs: VMs whose pings are all answered stay running, okay and live |
| `Watcher.NoBootNoRestart` | src/multiwatch.c:94-166 | over all runs: as long as no boot thread gets a handle (or no domain comes back to probe), no restart is noticed and no callback is run |
| `Watcher.RunOk` | src/multiwatch.c:187-204 | every reachable world satisfies the invariant, and only the VM whose turn it is can have its callback pending |
| `Watcher.LostForGood` | src/multiwatch.c:141-204 | a VM whose callback failed or is missing, or whose boot thread is gone, is never okay again |
| `Watcher.LostInEveryRun` | src/multiwatch.c:141-204 | the same however the whole system goes on |
| `Watcher.Recovers` | src/multiwatch.c:94-204 | a VM can come back, within seven favourable steps, if and only if it is not lost |
| `Watcher.TruthTold` | src/multiwatch.c:53-61 | a listener told okay while its handle is dead is never the first VM's, and is told so by the first VM's flag |
| `Watcher.SafeListeners` | src/multiwatch.c:53-61 | in a system of any size, the listeners that are never told to listen on a dead handle are exactly those of the first VM: any other can be, because the first VM's flag is consulted |
| `WatcherObject.VisitIsMoves` | src/multiwatch.c:191-201 | one visit of the monitor is one or two steps of the machine and passes the turn on |
| `WatcherObject.VmHandler.constructor` | src/multiwatch.c:66-72 | a VM starts running and okay |
| `WatcherObject.VmHandler.GetVmState` | src/multiwatch.c:141-185 | fields, history and returned state of one visit |
| `WatcherObject.VmHandler.Restart` | src/multiwatch.c:194-200 | the callback's outcome; okay is set only on success |
| `WatcherObject.VmHandler.ReportBoot` | src/multiwatch.c:99-103 | a boot thread that ends sets boot_done |
| `WatcherObject.VmWatcher.constructor` | src/multiwatch.c:37-42 | no VMs at first |
| `WatcherObject.VmWatcher.AddVm` | src/multiwatch.c:63-74 | adds a running, okay VM behind the others and changes none of them |
| `WatcherObject.VmWatcher.VmiOkay` | src/multiwatch.c:53-61 | true exactly when the VM is watched and the first VM is okay |
| `WatcherObject.VmWatcher.Visit` | src/multiwatch.c:193-200 | one VM's visit with its callback |
| `WatcherObject.VmWatcher.Round` | src/multiwatch.c:192-201 | each VM is visited exactly once, with its own inputs |
| `TableModel.HashIsPolynomial` | src/fcleaner/hashtable.c:167-175 | wrapping at every step gives the polynomial in 33 modulo 2^64 |
| `TableModel.HashOfA` | src/fcleaner/hashtable.c:167-175 | the hash of the one-letter key `a` |
| `TableModel.ApplyRefines` | src/fcleaner/hashtable.c:48-149 | search, remove, replace, and put with every node compared, answer as on a finite map and keep each key once in its bucket |
| `TableModel.RunRefines` | src/fcleaner/hashtable.c:48-149 | whatever the bucket count, any of these operations in any order give a finite map's answers |
| `TableModel.ApplyGet` | src/fcleaner/hashtable.c:48-149 | an operation changes what its own key finds and nothing for any other key |
| `TableModel.ApplyConserves` | src/fcleaner/hashtable.c:48-149 | owned and freed pointers together grow by exactly the pointer given |
| `TableModel.RunConserves` | src/fcleaner/hashtable.c:48-181 | over a run every pointer given is owned by one node or was freed once; destroying frees the rest |
| `TableModel.WalkAgrees` | src/fcleaner/hashtable.c:66-80 | the walk as written does what is meant if and only if the chain is empty, is one node with the key, or is longer and does not end in the key; it reads through NULL exactly behind a single other node |
| `TableModel.PutAsWrittenIff` | src/fcleaner/hashtable.c:48-83 | put as it is written answers as meant if and only if its chain is one on which the written walk is right, and then leaves the meant table |
| `TableModel.RunAsWrittenIff` | src/fcleaner/hashtable.c:48-149 | the table as it is written gives the meant answers, without reading through NULL, if and only if every put of the run meets such a chain |
| `TableModel.WrittenRefines` | src/fcleaner/hashtable.c:48-149 | so it behaves as a finite map exactly in these runs |
| `TableModel.HiddenDuplicate` | src/fcleaner/hashtable.c:70-79 | when the chain ends in the key, the written walk reports success while the old data stays what searches find |
| `HashTableObject.HashOf` | src/fcleaner/hashtable.c:167-175 | the loop computes the hash |
| `HashTableObject.FindNode` | src/fcleaner/hashtable.c:89-96 | finds the first node with the key, or the end |
| `HashTableObject.FindBefore` | src/fcleaner/hashtable.c:110-118 | stops at the node before the key's, or at the last |
| `HashTableObject.WalkOf` | src/fcleaner/hashtable.c:66-80 | which end the walk of put as written reaches on the linked nodes |
| `HashTableObject.LinkLast` | src/fcleaner/hashtable.c:66-80 | the new node goes behind the last; chain linked, acyclic, keys distinct |
| `HashTableObject.Unlink` | src/fcleaner/hashtable.c:105-119 | takes exactly the key's node out of the chain and leaves it linked |
| `HashTableObject.Bypass` | src/fcleaner/hashtable.c:112-115 | relinking past a node leaves the rest of the chain linked |
| `HashTableObject.HashTable.constructor` | src/fcleaner/hashtable.c:28-46 | every bucket empty |
| `HashTableObject.HashTable.Put` | src/fcleaner/hashtable.c:48-83 | 0 and a new last node, or -1 with the new data freed; buckets stay linked, acyclic and disjoint (with every node compared) |
| `HashTableObject.HashTable.Get` | src/fcleaner/hashtable.c:85-99 | the data of the key's node or NULL |
| `HashTableObject.HashTable.Remove` | src/fcleaner/hashtable.c:101-127 | 0 with exactly that node gone and its data freed, or -1 with nothing changed |
| `HashTableObject.HashTable.Replace` | src/fcleaner/hashtable.c:129-149 | 0 with the old data freed, or -1 with the new data freed |
| `HashTableObject.HashTable.FreeFirst` | src/fcleaner/hashtable.c:157-159 | frees the first node's data once |
| `HashTableObject.HashTable.FreeBucket` | src/fcleaner/hashtable.c:155-161 | empties one bucket, owned data becoming freed |
| `HashTableObject.HashTable.Destroy` | src/fcleaner/hashtable.c:151-165 | all buckets empty and every owned pointer freed once |
| `HandleTables.DecodersAgree` | src/context.c:148-166 | for every version, page mode and entry, exactly when the two decoders agree: always for Vista, 7, 8 and 32-bit 10; on 64-bit 10 if and only if bit 19 is clear; on XP, which the lookup has no case for, if and only if all bits from 3 on are set (64-bit) or none above 31 nor bit 2 is (32-bit) |
| `HandleTables.KernelAddress` | src/win.c:288-299 | a listed 64-bit 8 or 10 entry is a 16-byte aligned address with its top 16 bits set |
| `HandleTables.PlaceOfIndex` | src/context.c:129-146 | the index of a place in a two-level table is in range, is not truncated, and leads back to that place |
| `HandleTables.IndexOfPlace` | src/context.c:129-146 | every index in range is the index of a place |
| `HandleTables.UsedBelowIs` | src/win.c:89-152 | the specification's list holds each non-zero entry below the bound once, in increasing index order, decoded |
| `HandleTables.ListObjects` | src/win.c:89-152 | for every number of levels the nested loops list exactly the non-zero entries, in index order |
| `HandleTables.ListLow` | src/win.c:94-100 | the loop over one lowest table |
| `HandleTables.ListMid` | src/win.c:135-149 | the loops over the tables under one top entry |
| `HandleTables.ListOne` | src/win.c:103-123 | the loops of a one-level table |
| `HandleTables.LookupAgreesWithList` | src/context.c:88-170 | for every version and number of levels: the entries listed are those at the indices in use, each once and in order, and each is listed as the object the lookup finds there if and only if both decode its entry alike |
| `HandleLayout.FlatTable` | src/context.c:111-114 | entries laid out one behind the other, told by addresses: the lookup of each index finds that entry, and the list is the objects of the non-zero entries in order |
| `HandleLayout.OneLevelLookup` | src/context.c:115-128 | with one level, the lookup of the index j * low + i finds entry i of the table the j-th pointer points to |
| `HandleLayout.OneLevelTable` | src/win.c:103-123 | with one level, the list is the objects of all tables in order, absent ones skipped |
| `HandleLayout.TwoLevelLookup` | src/context.c:129-146 | with two levels, the lookup of (j * mid + k) * low + i finds entry i of table k of table j |
| `HandleLayout.TwoLevelTable` | src/win.c:124-150 | with two levels, the list is the objects of all tables in order, absent ones skipped |
| `HandleLayout.LongEntry` | src/win.c:288-299 | a 64-bit entry of 8 or 10 that holds bits 4 to 47 of an object's address from bit 20 on is listed as that object, whatever its flags |
| `HandleLayout.ShortEntry` | src/win.c:279-302 | an object's address with its two or three flags is listed as that object |
| `FileExtract.ExtractCaFile` | src/context.c:325-385 | the checks against the segment, then exactly the chain's pages written in order; ends with the chain |
| `FileExtract.ExtractSubsection` | src/context.c:366-381 | the subsection's present, readable pages up to the first entry that cannot be read |
| `FileExtract.Written` | src/context.c:378-379 | writing at an offset: the page at its place, zeros in a gap, everything else as before |
| `FileExtract.WrittenHolds` | src/context.c:368-380 | pages that do not overlap all stand at their places with zeros between, and the file ends with the last |
| `FileExtract.AllPagesAre` | src/context.c:349-383 | the pages written are exactly the present pages of the chain and do not overlap when its sector ranges do not |
| `FileExtract.ExtractedFile` | src/context.c:349-383 | every present page at start*0x200 + index*0x1000, zeros elsewhere, the end that of some present page |
| `FileExtract.FrameBits` | src/context.c:376 | of an entry the twelve lowest and the fifteen highest bits are ignored, the rest is the page's address |
| `FileExtract.PageStands` | src/context.c:366-380 | the page of a present entry, with whatever flags, stands in the file at 512 times the starting sector plus 4096 times the entry's place |
| `FileExtract.LinkedIsChain` | src/context.c:349-383 | subsections linked by `next` up to one where the walk stops are the chain walked |
| `FileExtract.ChainIsLinked` | src/context.c:349-383 | and the chain walked is always linked so, with a stop at its end and nowhere before |
| `FileExtract.RoundTrip` | src/context.c:349-383 | extracting a file laid out in memory gives the file |
| `FileExtract.NoSubsectionTwice` | src/context.c:349-383 | a walk that ends visits no subsection twice |
| `SecurityId.ExtractSid` | src/context.c:282-313 | the buffer holds the text of the identifier and a NUL, within 21 + 11 n characters; a revision above 9 leaves it untouched |
| `SecurityId.ReadAuthority` | src/context.c:296-301 | the shifted sum is the big-endian number of the six bytes |
| `SecurityId.SidIsRead` | src/context.c:282-313 | an identifier lying in memory with its revision at +0, count at +1, big-endian authority at +2 to +7 and sub-authority i at +8 + 4i is read as that identifier |
| `SecurityId.PrintedReadsBack` | src/context.c:282-313 | and what is printed for it reads back as it |
| `SecurityId.SidRoundTrip` | src/context.c:282-313 | reading the printed text gives back revision, authority and every sub-authority |
| `SecurityId.TextLength` | src/context.c:289-312 | text, trailing dash and NUL of n sub-authorities need at most 21 + 11 n characters |
| `SecurityId.AuthorityRoundTrip` | src/context.c:296-301 | the six bytes can be recovered from the number |
| `SecurityId.PrintHead` | src/context.c:287-302 | revision and authority with a dash behind each |
| `SecurityId.PrintSub` | src/context.c:305-309 | one more sub-authority with its dash |
| `SecurityId.Sprint` | src/context.c:290-308 | text and NUL at a position, everything before it kept |

## Left out

- Xen, libvmi and altp2m: only what a call does to memory, the view map, protection and allocation is there; a read or write fails exactly when its frame is absent. When `_remove_int3` cannot read a byte it goes on to write an indeterminate one; the model only marks the handler interrupted.
- Transparency.Transparent: a store to a frame that has a shadow page, with traps in it or not any more, must be one the recopy covers (as written: one that changes nothing the shadow page copies), no breakpoint may lie inside an instruction, and shadow frames can be allocated; outside these the code is not transparent, as `StoreSafeIff`, `AbandonedFrame`, `AltBytesIff` and `InjectKeepsInv` show.
- Trap names, logging, locks, registers and `context_t`: they carry no modelled behaviour.
- Monitor callbacks (`src/monitors/*_changed.c`, `src/monitors/file_*.c` but the filter): arbitrary functions here.
- Instructions with several data accesses, and INT3 in its two-byte form: one access and one byte.
- Width of `memsize`, addresses and frame numbers in the engine: unbounded, they never reach 64 bits.
- A pass whose trap has left the tables makes `tm_set_doubletrap` dereference NULL; the model marks the handler interrupted instead.
- PathNodes.Translate: requires at most 12 components and 255 non-separator characters, which is what the fixed arrays hold; longer input overruns them in the source.
- NodeMatch.HitIsLanguage: only nodes with at most one star, the three forms the source supports; the comparison itself is modelled for all nodes.
- Matcher.MatchMixed: in front of the buffer the source reads the unused top byte of the last node type, which is 0; the model reads NUL there.
- FileFilter.Filter.Add: a pattern that will be added requires a free one of the 128 places, since the source writes past them without a check; like `FileFilter.Filter.Match` it takes strings that fit the tokeniser.
- FileFilter.Filter.Match: requires a path that fits the tokeniser's fixed arrays; what a longer one overwrites is not modelled.
- PatternMeaning.TailAfterDouble: requires room for the nodes' text in what they are compared with; where there is none the comparison runs on into the neighbouring component, as `ShortComponent` shows. For several `**`, `RightPatterns` and `RightShapes` say for which placings the matcher is right on everything; for the others, which single paths it gets wrong is told only by the cursor machine itself.
- `calloc` and `pthread_create` failures other than the ones modelled, and `hsh_put` returning 0 when it gets no memory.
- Watcher.EveryRunIsSafe: a listener already inside `hfm_listen` when its VM dies, `wv_close` racing with the monitor, and sleeping are not modelled; a callback that returns 0 is taken to have initialised the handle, as `hfm_restart_vmi` does.
- WatcherObject.VmWatcher.AddVm: requires fewer than ten VMs, the size of the array.
- HashTableObject.HashTable.Put: compares every node of the chain, unlike the walk as written, which `WalkAgrees` and `WrittenRefines` cover on values.
- TableModel.ApplyRefines: put compares every node; `PutAsWrittenIff` is about put as written.
- TableModel.RunRefines: put compares every node; `WrittenRefines` is about put as written.
- Hash-table expiry is written and never read; keys are shorter than 1024 characters, as the node's buffer demands; the bucket count is positive.
- HandleTables.ListObjects: a failing read gives 0, also where the source would keep the previous table pointer if the library left it alone.
- FileExtract.ExtractCaFile: requires a chain of subsections that ends (the source would loop for ever on a cycle); `fopen` succeeds; the result of the success path, which the source leaves undefined, is 0.
- The way from a thread to its process's handle table, splitting the table code into base and levels, and the object header's size (src/context.c:57-103, src/win.c:60-80): reads at fixed offsets.
- Presence of a page-table entry is an arbitrary predicate: `ENTRY_PRESENT` is not part of this model.
- SecurityId.ExtractSid: requires a buffer large enough for the longest text, which the source leaves to its callers.
- `win_cur_processes`, drive names, Unicode conversion, object types, `src/policy.c`, `src/config.c`, `src/log.c`, `src/rekall.c`, outputs and the file cleaner's other files: input, output and table lookups that would add only easy members.

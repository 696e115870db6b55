# Verified core of the Mupen64Plus library

A Dafny model of the parts of the emulator core whose correctness depends on a
whole run or on a global invariant, with proofs. Each component has a module of
values (the meaning and the theorems) and, where the C code changes things in
place, a module of classes and loops proved against those values.

| component | values and theorems | code in its own form |
|---|---|---|
| netplay input log | `Netplay` | `NetplayClient` |
| ROM database references | `RomDatabase` | `RomDatabase.Database`, `RomReopen.Statics` |
| breakpoints and page hooks | `Breakpoints` | `BreakpointTable` |
| configuration store | `Config`, `ConfigLaws` | `ConfigStore` |
| cheat engine and its lists | `Cheats`, `CheatLaws` | `LinkedRing`, `CheatEngine` |
| save states | `SaveLayout`, `SaveTables`, `SaveState`, `SaveLaws`, `SaveVersions`, `SaveOffsets` | `SaveStateFile` |
| profiler merge | `Profiler` | `Profiler.Merge` |
| debugger memory access | `DebugMemory` | `DebugMemory.Device` |
| write-through storage | `FileStorage` | `FileStorage.FileBackend`, `FileStorage.SubStorage` |
| stereo present gate | `StereoGate` | `StereoGate.VidExt` |

`dafny verify dfyconfig.toml` checks the whole project.

## Main results

* **Lockstep.** Whatever packets are lost, repeated or reordered, the k-th input a
  client uses for a player is entry k of the server's log, across wraps of the
  32-bit counter; two clients never disagree; a poll succeeds exactly when the
  entry it needs has arrived (`Lockstep`, `ClientsAgree`, `PollSucceedsIffArrived`),
  and the call that waits for it reads no packet more than it needs and gives up
  exactly if the entry does not come (`GetInput`, `WaitDecided`).
  The window test is exact for a record if and only if a stated arithmetic condition
  on its distance holds (`HandledIff`, `ReceiveFaithfulIff`, `LateRecordMisread`).
* **References resolve.** The rounds end; exactly the entries whose reference chain
  ends are resolved; every property comes from the nearest entry on the chain that
  sets it; the outcome is unique, and the order of the list does not matter to any
  reference if and only if every MD5 referred to names one entry
  (`Database.Resolve`, `ResolvedField`, `ResultUnique`, `OrderMattersIff`, `OrderIndependent`).
* **Hooks agree.** After every sequence of breakpoint commands a page is hooked
  exactly when an enabled breakpoint of that kind touches it
  (`HooksAgreeInEveryRun`); for wrapped ranges the exact condition is given. For every
  command it is said which addresses are caught afterwards (`ApplyCatches`).
* **Changes are detected.** "No unsaved changes" means the same sections on both
  lists, deleted ones found by counting (`ChangesDetected`); save and revert clear
  their scope and touch nothing else. Over every run of calls the two sorted lists are
  two maps from names to sections (`RunIsMapRun`, `MapsDecide`).
* **Cheats undo.** Enable, any number of passes, disable, one pass at a vertical
  interrupt: memory is back (`UndoRestores`), also in passes over a list of other
  cheats that come, go and change (`UndoInList`), and for unconditional plain writes
  if and only if no byte is written by two codes (`CycleRestoresIff`). The pass after
  disabling undoes if and only if it is one at a vertical interrupt or nothing was
  remembered (`DisabledTickIff`). The `cond_failed` loop refines the rule
  of the maximal run of tests (`LoopFollowsRule`), and what a test asks and a code
  writes is stated in bytes (`GuardedWrite`).
* **States load back.** Everything a save wrote, a load restores, and no other
  field of the model changes (`SaveThenLoad`); reader and writer stay at the same byte if and only if
  every inserted Game Boy cartridge has a title (`CursorsAgreeIff`). Which files are
  taken is decided on their bytes (`LoadVerdict`), files of every version from 1.3 on
  are loaded with the stated defaults for what they lack (`OlderFileLoads`), and every
  field stands at its offset (`FileLayout`).
* **Samples are conserved, values of every width read back at every address modulo
  2^32, files follow memory, pairs are coherent** (`SamplesConserved`, `ReadBack64`,
  `Write64Effect`, `FileFollowsMemory`, `PairsAreCoherent`).

## Where the code falls short of a promise

Each has a lemma that shows the failing input and one with the condition under which the promise holds.

* A record that is late by an amount whose remainder modulo 2^32 is 0 or above 2^31 is taken for a future one: `LateRecordMisread`, `HandledIff`.
* Two database entries with one MD5 make the outcome depend on their order: `DuplicateOrderMatters`, `OrderMattersIff`.
* A wrapped breakpoint range is looked up but not hooked: `WrappedRangeIsNotHooked`, `EnableAgreesIff`, `DisableAgreesIff`.
* A NaN stays "unsaved" for ever: `NanStaysUnsaved`, `SaveFileClearsIff`.
* The change check does not return when a section has an empty name: `EmptyNameRecurses`, `CheckReturnsIff`.
* Overlapping cheat codes are not undone: `OverlapSpoils`, `CycleRestoresIff`.
* A state saved with an untitled cartridge is read from the wrong offset on: `UntitledCartShifts`, `CursorsAgreeIff`.
* A PIF channel that points outside PIF RAM, as a channel reset leaves it, does not come back: `ResetChannelLost`, `ChannelRestoredIff`.
* A byte written to a page that the TLB maps only for reading is lost: `ReadOnlyPage`, `ReadBack8Iff`.
* If the first write of a storage fails, later chunks that do not cover the rest leave the file incomplete: `LostFirstWrite`, `SaveSyncsIff`.
* Adding a cheat again while it is enabled drops what it remembered, and its writes stay, unless every remembered value is what memory holds at that moment: `ReAddLosesOriginal`, `ReAddUndoesIff`.
* If a soft reset comes between disabling a cheat and the next vertical interrupt, its pass at boot forgets the cheat and the writes stay: `ResetLosesUndo`, `DisabledTickIff`.
* After the database is closed and opened again, a search for an MD5 or a CRC that begins with 0xFF can follow a pointer to a freed entry: `ReopenMeetsFreed`, `ReopenMeetsFreedCrc`, `RomReopen.Statics.Search`, `RomReopen.Statics.SearchByCrc`.

## Model

| member | source | states |
|---|---|---|
| `Netplay.RecordsRoundTrip` | src/main/netplay.c:312-334 | decoding the nine-byte records of a packet gives back the list the server wrote, at any offset and whatever bytes follow |
| `Netplay.PacketReachesPlayer` | src/main/netplay.c:280-341 | a key-info packet puts its records in the addressed player's buffer and leaves the other three alone; its status is taken over, its lag only from an answer to a request; other kinds change nothing |
| `Netplay.WaitDecided` | src/main/netplay.c:343-360 | the outcome of waiting is unique: at once and without a packet if the due event is there, failure if it is not and the channel is closed, otherwise success exactly if some batch brings it and the thread has not given up |
| `Netplay.WindowExact` | src/main/netplay.c:316-316 | within 2^31 of the client's position the modulo-2^32 test drops exactly the old records and puts the others in their place |
| `Netplay.HandledIff` | src/main/netplay.c:316-316 | for records at any distance, the exact arithmetic condition under which they are kept or dropped as they should be |
| `Netplay.ReceiveKeepsOrdered` | src/main/netplay.c:316-333 | receiving keeps the stamps distinct and in the forward half-window |
| `Netplay.ReceiveFaithfulIff` | src/main/netplay.c:316-333 | receiving log record k keeps every buffered input the log's own, exactly when the stamp is unambiguous, taken, or confused with an equal input |
| `Netplay.LateRecordMisread` | src/main/netplay.c:316-333 | a record 2^31 + 1 late is buffered as a future one |
| `Netplay.ReceiveKeepsExact` | src/main/netplay.c:316-333 | the buffer holds precisely the arrived positions that are still to come |
| `Netplay.TakeKeepsOrdered` | src/main/netplay.c:402-411 | using an input keeps the stamps distinct and in the half-window of the next count |
| `Netplay.TakeKeepsExact` | src/main/netplay.c:402-411 | using an input removes one position from the buffer and no other |
| `Netplay.TakeIsNext` | src/main/netplay.c:402-411 | the input used is the log entry at the client's position, also across a wrap |
| `Netplay.ReceiveAllGood` | src/main/netplay.c:310-334 | a packet of log records in any order, with repetitions, keeps the player's invariant |
| `Netplay.NextGood` | src/main/netplay.c:280-420 | every step of the protocol keeps the invariant of all four players |
| `Netplay.Lockstep` | src/main/netplay.c:280-420 | in every state of every run the inputs used so far are the log's first entries, and the buffers hold what arrived ahead |
| `Netplay.PollSucceedsIffArrived` | src/main/netplay.c:343-360 | in every run the due event is in the buffer exactly when it has arrived |
| `Netplay.ClientsAgree` | src/main/netplay.c:380-420 | of two clients of one server, one's used inputs are a prefix of the other's |
| `NetplayClient.PlayerInput.BufferSize` | src/main/netplay.c:221-232 | the walk counts the list modulo 256 |
| `NetplayClient.PlayerInput.CheckValid` | src/main/netplay.c:246-257 | the walk finds an event exactly when a record with that count is buffered |
| `NetplayClient.PlayerInput.Record` | src/main/netplay.c:314-333 | a record is linked in at the head, or ignored, as `Receive` says |
| `NetplayClient.PlayerInput.DeleteEvent` | src/main/netplay.c:362-378 | unlinking removes exactly that node from the list |
| `NetplayClient.PlayerInput.FindDue` | src/main/netplay.c:404-406 | the search loop reaches a node of the due count whenever one is buffered |
| `NetplayClient.PlayerInput.TakeInput` | src/main/netplay.c:402-411 | find, read, delete and count up together are `Take` |
| `NetplayClient.Client.ReadAll` | src/main/netplay.c:310-334 | the record loop over the packet is `ReceiveAll` of the decoded records |
| `NetplayClient.Client.ProcessPacket` | src/main/netplay.c:285-339 | one packet changes status, lag and the addressed player as `Process` says |
| `NetplayClient.Client.ProcessPackets` | src/main/netplay.c:280-341 | draining the socket is `Process` packet by packet |
| `NetplayClient.Client.EnsureValid` | src/main/netplay.c:343-360 | exactly the batches up to the first after which the due event is buffered are processed, none if it is there already or the channel is closed; success holds exactly if the event was there or came in time, and failure closes the channel |
| `NetplayClient.Client.Await` | src/main/netplay.c:355-356 | the loop stops at the first batch after which the due event is buffered, or has used them all |
| `NetplayClient.Client.GetInput` | src/main/netplay.c:380-420 | after the pending packets the due input is handed over and taken if it is there or comes in time, with no packet read beyond it; otherwise, and only then, the emulator is stopped with no keys |
| `RomDatabase.InheritField` | src/main/rom.c:473-557 | one property test carries the partial inheritance one field further, the null cheat string excepted |
| `RomDatabase.ScanIsLookup` | src/main/rom.c:896-912 | scanning the bucket of the first byte finds what a search of the whole list finds: the entry listed last |
| `RomDatabase.CrcBucketExact` | src/main/rom.c:686-690 | a CRC bucket holds exactly the entries that declare a CRC with that leading byte, each once |
| `RomDatabase.ResolvedField` | src/main/rom.c:473-562 | a resolved property is that of the nearest entry on the chain that sets it, otherwise the default |
| `RomDatabase.UnsetIsDefault` | src/main/rom.c:640-657 | a property that no entry on the chain sets keeps the value romdatabase_open gives it |
| `RomDatabase.ResolveStep` | src/main/rom.c:456-562 | resolving an entry against a resolved target is a step towards the chain's meaning |
| `RomDatabase.PendingShrinks` | src/main/rom.c:450-471 | a later stage waits for no more entries than an earlier one, and for fewer if it differs |
| `RomDatabase.RoundDone` | src/main/rom.c:450-565 | a round skips no more than were pending; if it skips as many it changed nothing; then no entry can make progress |
| `RomDatabase.StuckIsComplete` | src/main/rom.c:567-580 | when no round makes progress, every entry whose chain ends is resolved |
| `RomDatabase.StuckIsResolved` | src/main/rom.c:567-580 | exactly the cyclic and dangling chains stay unresolved, and those entries are unchanged |
| `RomDatabase.ResultUnique` | src/main/rom.c:567-580 | the outcome does not depend on the number of rounds |
| `RomDatabase.OrderIndependent` | src/main/rom.c:450-580 | if every MD5 referred to names one entry, an entry ends up the same in every order of the list |
| `RomDatabase.OrderMattersIff` | src/main/rom.c:450-471 | what each reference finds is independent of the order exactly if every MD5 referred to names one entry |
| `RomDatabase.DuplicateOrderMatters` | src/main/rom.c:661-664 | with two entries of one MD5 the two orders give two outcomes |
| `RomDatabase.ResolvedOwnKept` | src/main/rom.c:473-557 | a property the file sets is never overwritten |
| `RomDatabase.Database.Open` | src/main/rom.c:606-690 | at the first opening, with all lists empty, head insertion builds the MD5 and CRC buckets of the entries read |
| `RomDatabase.Database.SearchByMd5` | src/main/rom.c:896-912 | the walk of the bucket is the lookup in the whole list |
| `RomDatabase.Database.SearchByCrc` | src/main/rom.c:914-939 | an entry is returned exactly when it alone declares that CRC |
| `RomDatabase.Database.InheritFields` | src/main/rom.c:473-561 | the fourteen tests and the cleared reference together are `Inherit` |
| `RomDatabase.Database.ResolveEntry` | src/main/rom.c:456-562 | one entry's turn keeps what holds of a round and counts a skip rightly |
| `RomDatabase.Database.ResolveRound` | src/main/rom.c:450-565 | the skipped count is what is still pending, never more than before, and equal only if nothing changed |
| `RomDatabase.Database.Resolve` | src/main/rom.c:567-580 | the loop ends with every ending chain resolved to its meaning and all else unchanged |
| `RomReopen.Statics.Open` | src/main/rom.c:596-690 | clearing lists 0 to 254 and filling gives the MD5 and CRC buckets of the new entries, with the old entries' pointer left behind those of list 255 |
| `RomReopen.Clear` | src/main/rom.c:608-612 | the loop clears lists 0 to 254 and leaves list 255 |
| `RomReopen.Statics.Close` | src/main/rom.c:876-893 | afterwards list 255 of an index points at a freed entry exactly if some closed database had an MD5, or a CRC, beginning with 0xFF |
| `RomReopen.Statics.Search` | src/main/rom.c:896-912 | the entry found in the whole list; a freed one is reached exactly for an MD5 that begins with 0xFF, is absent, and meets such a pointer |
| `RomReopen.Statics.SearchByCrc` | src/main/rom.c:914-939 | two declaring entries give no answer; otherwise a freed entry is met exactly for a CRC beginning with 0xFF behind such a pointer, and without one the only declaring entry is found |
| `RomReopen.BucketEmptyIff` | src/main/rom.c:661-664 | a list is empty exactly if no entry begins with its byte |
| `RomReopen.ReopenMeetsFreed` | src/main/rom.c:606-613 | open, close, open again, search: the failing run |
| `RomReopen.ReopenMeetsFreedCrc` | src/main/rom.c:606-613 | the same for a CRC |
| `Breakpoints.CoveredIsLookup` | src/debugger/dbg_breakpoints.c:147-171 | the lookup over a 64 KiB page finds something exactly when an enabled breakpoint of the kind touches the page |
| `Breakpoints.OverlapsIff` | src/debugger/dbg_breakpoints.c:156-167 | the range test holds exactly if some address looked at belongs to the breakpoint, counted upwards from its start and around the top |
| `Breakpoints.MissesNothingIff` | src/debugger/dbg_breakpoints.c:68-108 | the page loops visit every page of a range exactly when the range does not wrap |
| `Breakpoints.EnableAgreesIff` | src/debugger/dbg_breakpoints.c:68-86 | enabling keeps hooks and table in agreement exactly when each page the loop misses was covered already |
| `Breakpoints.DisableAgreesIff` | src/debugger/dbg_breakpoints.c:88-108 | disabling keeps agreement exactly when each page the loop misses is covered by another breakpoint |
| `Breakpoints.EnableSound` | src/debugger/dbg_breakpoints.c:68-86 | enabling keeps the whole invariant, also in a slot just added |
| `Breakpoints.DisableSound` | src/debugger/dbg_breakpoints.c:88-108 | disabling keeps the whole invariant, shared pages staying hooked |
| `Breakpoints.RemoveSound` | src/debugger/dbg_breakpoints.c:110-121 | removal by number keeps the invariant through the shift |
| `Breakpoints.ReplaceSound` | src/debugger/dbg_breakpoints.c:134-145 | replacement keeps the invariant |
| `Breakpoints.AddStructSound` | src/debugger/dbg_breakpoints.c:51-66 | adding a breakpoint keeps the invariant, whatever flags it comes with |
| `Breakpoints.AddAddressSound` | src/debugger/dbg_breakpoints.c:36-49 | adding an address keeps the invariant, whatever flags the reused slot held |
| `Breakpoints.ApplySound` | src/api/debugger.c:395-431 | every command with a valid index and an unwrapped range keeps the invariant |
| `Breakpoints.ApplyTable` | src/debugger/dbg_breakpoints.c:36-145 | the slots every command leaves, for wrapped ranges too: an added address stands in the next slot with EXEC and ENABLED added to the flags left there, a given breakpoint stands as given, a removed one is gone with the later ones moved down, and enabling and disabling change that flag alone |
| `Breakpoints.RemoveTable` | src/debugger/dbg_breakpoints.c:110-121 | the slots in use lose exactly the one removed; the slot given up keeps what was last in it |
| `Breakpoints.CaughtIsLookup` | src/debugger/dbg_breakpoints.c:173-176 | the check for an address finds something exactly if an enabled breakpoint of the kind holds the address |
| `Breakpoints.AddAddressCatches` | src/debugger/dbg_breakpoints.c:36-49 | after adding an address, execution stops there and wherever it stopped before, and nowhere else |
| `Breakpoints.ApplyCatches` | src/api/debugger.c:395-431 | for every command, exactly which addresses are caught afterwards |
| `Breakpoints.HooksAgreeInEveryRun` | src/debugger/dbg_breakpoints.c:36-171 | after any command sequence a page is read- or write-hooked exactly when an enabled breakpoint of that kind touches it |
| `Breakpoints.NoAccessMissed` | src/debugger/dbg_breakpoints.c:147-171 | an access that a breakpoint would catch is never on an unhooked page |
| `Breakpoints.WrappedRangeIsNotHooked` | src/debugger/dbg_breakpoints.c:68-86 | a wrapped read breakpoint covers page 0 and hooks nothing |
| `BreakpointTable.Debugger.LookupBreakpoint` | src/debugger/dbg_breakpoints.c:147-171 | the loop returns the index that `Lookup` defines, or -1 |
| `BreakpointTable.Debugger.WalkPages` | src/debugger/dbg_breakpoints.c:73-83 | the page loop yields the pages of the range that no enabled breakpoint covers |
| `BreakpointTable.Debugger.EnableBreakpoint` | src/debugger/dbg_breakpoints.c:68-86 | the table becomes `Enable` of the old one |
| `BreakpointTable.Debugger.DisableBreakpoint` | src/debugger/dbg_breakpoints.c:88-108 | the table becomes `Disable` of the old one |
| `BreakpointTable.Debugger.AddBreakpoint` | src/debugger/dbg_breakpoints.c:36-49 | a full table is refused with -1, otherwise the index and the table of `AddAddress` |
| `BreakpointTable.Debugger.AddBreakpointStruct` | src/debugger/dbg_breakpoints.c:51-66 | a full table is refused with -1, otherwise the index and the table of `AddStruct` |
| `BreakpointTable.Debugger.ShiftDown` | src/debugger/dbg_breakpoints.c:117-118 | the loop moves every later slot down by one |
| `BreakpointTable.Debugger.RemoveBreakpoint` | src/debugger/dbg_breakpoints.c:110-121 | the table becomes `Remove` of the old one |
| `BreakpointTable.Debugger.RemoveBreakpointByAddress` | src/debugger/dbg_breakpoints.c:123-132 | the breakpoint found at the address is removed, if there is one |
| `BreakpointTable.Debugger.ReplaceBreakpoint` | src/debugger/dbg_breakpoints.c:134-145 | the table becomes `Replace` of the old one |
| `BreakpointTable.Debugger.Command` | src/api/debugger.c:395-431 | the dispatcher's table is `Apply` of the command and its answer the new index, the index found or 0; a proper command keeps hooks and table in agreement |
| `Config.CompareChain` | src/api/config.c:104-132 | the case-insensitive comparison is transitive, strictly if either side is |
| `Config.AlphaSearchFinds` | src/api/config.c:104-137 | on a sorted list the alphabetical search and an equality test find what the linear search finds |
| `Config.InsertSorted` | src/api/config.c:760-789 | inserting a new name where the alphabetical search stops keeps the list strictly sorted |
| `Config.OpenSorted` | src/api/config.c:760-789 | opening a section keeps the list sorted and yields the section of that name |
| `Config.DeleteSorted` | src/api/config.c:929-953 | deleting a section keeps the list sorted; `ConfigLaws.DeleteEffect` says what is left |
| `Config.NamesCount` | src/api/config.c:816-852 | a sorted list has as many different names as sections |
| `Config.ChangesDetected` | src/api/config.c:816-923 | no changes are reported exactly when both lists have the same names with matching variables, deleted sections included |
| `Config.CheckReturnsIff` | src/api/config.c:816-852 | the whole-store check returns, with that answer, exactly if no Active section has an empty name |
| `Config.EmptyNameRecurses` | src/api/config.c:828-852 | with an empty section name it calls itself for ever |
| `Config.SaveFileClearsIff` | src/api/config.c:955-965 | after saving the file no changes are reported, exactly if every parameter equals its copy, that is, is no NaN |
| `Config.NanStaysUnsaved` | src/api/config.c:955-965 | a NaN is reported as changed right after saving |
| `Config.SaveSectionClearsIff` | src/api/config.c:967-1005 | an empty or unknown name changes nothing; otherwise the saved section equals the active one and is reported unchanged exactly without a NaN; every other Saved section and Active are untouched |
| `Config.RevertClearsIff` | src/api/config.c:1007-1044 | the active section equals the saved one, every other section and Saved are untouched; reported unchanged exactly without a NaN |
| `Config.RevertAfterSave` | src/api/config.c:955-1044 | reverting right after saving the file changes nothing |
| `Config.EveryRunWellKept` | src/api/config.c:760-1110 | any run of open, delete, save, revert and set calls keeps both lists strictly sorted, and only saving changes Saved |
| `ConfigLaws.SameNameIff` | src/api/config.c:104-132 | names are the same exactly if they are so letter by letter, upper and lower case alike |
| `ConfigLaws.OpenEffect` | src/api/config.c:760-789 | opening an existing section changes nothing and finds it; otherwise one empty section of that name is added; every other section stays |
| `ConfigLaws.DeleteEffect` | src/api/config.c:929-953 | the name is gone, every other section stays, and the list is one shorter exactly if the name was there |
| `ConfigLaws.SetVarEffect` | src/api/config.c:1051-1110 | the first variable of that name has the value, booleans as 0 or 1, or a new last one has; every other variable stays in place |
| `ConfigLaws.SetDefaultEffect` | src/api/config.c:1243-1276 | a value that is there is never changed, only its missing help is added; a missing variable is created with the default |
| `ConfigLaws.ValueDiffersIff` | src/api/config.c:877-909 | values compare as unchanged exactly with one type and one value, booleans up to truth, no NaN and no null string |
| `ConfigLaws.VarDiffersIff` | src/api/config.c:875-912 | variables compare as unchanged exactly with one name, an unchanged value and no two different comments |
| `ConfigLaws.SetIsReportedIff` | src/api/config.c:816-923 | setting a parameter of an unchanged section is reported exactly if the saved section lacks it or has another value |
| `ConfigLaws.SearchesDecide` | src/api/config.c:104-132 | a sorted list is determined by its answers to searches |
| `ConfigLaws.ApplyIsMapApply` | src/api/config.c:760-1387 | each call on the lists is the plain operation on two maps from names to sections |
| `ConfigLaws.RunIsMapRun` | src/api/config.c:760-1387 | any run of calls on the sorted lists does what it does on the two maps |
| `ConfigLaws.MapsDecide` | src/api/config.c:104-132 | and the maps leave the sorted lists no choice |
| `ConfigStore.FindSectionLink` | src/api/config.c:104-114 | the linear search |
| `ConfigStore.FindAlphaSectionLink` | src/api/config.c:122-132 | the alphabetical search |
| `ConfigStore.ConfigSection.FindSectionVar` | src/api/config.c:179-191 | the first variable of that name, or the end |
| `ConfigStore.ConfigSection.AppendVar` | src/api/config.c:139-211 | a fresh variable is appended and the others stay in place |
| `ConfigStore.ConfigSection.SetParameter` | src/api/config.c:1051-1110 | the variable is set in place or appended |
| `ConfigStore.ConfigSection.SetDefaultValue` | src/api/config.c:1243-1386 | a missing variable is created, a missing help text filled in, a value never overwritten |
| `ConfigStore.DeepCopy` | src/api/config.c:279-345 | the copy has equal contents and shares no object with the original |
| `ConfigStore.ConfigLists.HasUnsavedChanges` | src/api/config.c:816-923 | the answer is that of `AnyChanged` or `SectionChanged` |
| `ConfigStore.ConfigLists.OpenSection` | src/api/config.c:760-789 | the list becomes `Open`'s and the handle is the section it names |
| `ConfigStore.ConfigLists.DeleteSection` | src/api/config.c:929-953 | the list becomes `Delete`'s, or the call reports that there is none |
| `ConfigStore.ConfigLists.SaveFile` | src/api/config.c:347-367 | Saved becomes a copy of Active |
| `ConfigStore.ConfigLists.SaveSection` | src/api/config.c:967-1005 | an empty name is refused; otherwise a copy is linked in over, or before, the section found |
| `ConfigStore.ConfigLists.RevertChanges` | src/api/config.c:1007-1044 | the active section is replaced by a copy of the saved one |
| `ConfigStore.ConfigLists.SetParameter` | src/api/config.c:1051-1110 | setting through a handle changes that section alone; nothing in Saved, since copies share no object |
| `ConfigStore.ConfigLists.SetDefaultValue` | src/api/config.c:1243-1386 | the same for default values |
| `Cheats.LoopFollowsRule` | src/main/cheat.c:237-289 | the `cond_failed` loop executes a code exactly when every test in the maximal run directly before it held, button included |
| `Cheats.AdvancedIsPatchLine` | src/main/cheat.c:399-417 | the repeated additions walk along the arithmetic progression modulo 2^32 |
| `Cheats.ProgressionIs` | src/main/cheat.c:399-417 | a patch code becomes exactly that progression of codes |
| `Cheats.AddNewUnique` | src/main/cheat.c:154-190 | adding keeps names unique, gives the expanded codes to that name, enabled, and leaves every other cheat as and where it is |
| `Cheats.WriteKeepsUndoable` | src/main/cheat.c:106-152 | executing one code keeps every code's original bytes recoverable |
| `Cheats.ViKeepsUndoable` | src/main/cheat.c:237-289 | so does a whole pass at the vertical interrupt |
| `Cheats.BootKeepsUndoable` | src/main/cheat.c:229-236 | so does the pass at boot |
| `Cheats.RestoreUndoes` | src/main/cheat.c:295-313 | the disable pass puts the original bytes back, forgets every old value and touches nothing else |
| `Cheats.RunKeepsUndoable` | src/main/cheat.c:208-317 | in every state of every enabled run the original bytes are recoverable |
| `Cheats.UndoRestores` | src/main/cheat.c:208-317 | enable, any passes with other writers elsewhere, disable, one pass at a vertical interrupt: the cheat's bytes are the original ones and no old value is left |
| `Cheats.DisabledTickIff` | src/main/cheat.c:295-313 | the pass after disabling undoes exactly if it is one at a vertical interrupt or no code remembers anything |
| `Cheats.ForgottenStays` | src/main/cheat.c:222-314 | a cheat that was forgotten is left alone by every pass while it stays disabled |
| `Cheats.ResetLosesUndo` | src/main/cheat.c:295-313 | pass, disable, pass at boot, pass: the write and the old value are still there |
| `Cheats.TickHandsOff` | src/main/cheat.c:208-317 | a tick of one cheat leaves alone the bytes of every cheat it is apart from |
| `Cheats.PassIsOneTick` | src/main/cheat.c:208-317 | for a cheat apart from the others, a pass over all cheats is one tick of its own |
| `Cheats.PassKeepsUndamaged` | src/main/cheat.c:208-317 | a pass over the whole list keeps a separate cheat's original bytes recoverable |
| `Cheats.UndoInList` | src/main/cheat.c:208-317 | over every run of passes, whatever other cheats apart from it do, are added or change, a cheat that is disabled has its bytes back after the next pass if that is one at a vertical interrupt |
| `Cheats.ReAddUndoesIff` | src/main/cheat.c:166-178 | a cheat runs, the same codes are added under its name again, the new one runs and is disabled: the first memory is back exactly if, when it was added again, every saving code that remembered a value found that value in memory |
| `Cheats.NothingToLoseIff` | src/main/cheat.c:166-178 | that condition says exactly that the cheat's bytes are the original ones at that moment |
| `Cheats.ReAddLosesOriginal` | src/main/cheat.c:166-178 | a cheat that has written, is added again and then disabled leaves its write behind |
| `Cheats.PlainPass` | src/main/cheat.c:237-289 | over plain writes the loop writes each in turn and remembers what each found |
| `Cheats.CycleByte` | src/main/cheat.c:208-317 | where codes overlap, on-and-off leaves the value the last writer found |
| `Cheats.OverlapSpoils` | src/main/cheat.c:208-317 | if two codes write a byte, some memory is not restored |
| `Cheats.CycleRestoresIff` | src/main/cheat.c:208-317 | on-and-off restores every memory exactly if no two codes write one byte |
| `CheatLaws.Read16Bytes` | src/main/cheat.c:65-73 | a 16-bit access at an even address is the byte there and the next, the high one first |
| `CheatLaws.ExecutedWrote` | src/main/cheat.c:108-131 | a code changes exactly its byte or its two bytes, to the bytes of its value, and a code of any other kind nothing |
| `CheatLaws.Write8Reads` | src/main/cheat.c:83-87 | in emulated memory an 8-bit code sets the byte at its address and no other |
| `CheatLaws.Write16Reads` | src/main/cheat.c:75-81 | a 16-bit code at an even address sets two bytes to its big-endian value and no other |
| `CheatLaws.MemorySizeReads` | src/main/cheat.c:144-148 | code EE sets the word at 0x318 to 0x00400000 and changes nothing else |
| `CheatLaws.RememberedRestores` | src/main/cheat.c:108-131 | writing back what was remembered restores memory |
| `CheatLaws.TestAsks` | src/main/cheat.c:132-143 | each kind of test in terms of the bytes of memory and the button |
| `CheatLaws.GuardedWrite` | src/main/cheat.c:237-289 | a test before a write: the write is made exactly if the bytes are, or are not, the ones asked for and the button is held where it must be, and then it changes its own bytes only |
| `CheatLaws.BootWrite` | src/main/cheat.c:229-236 | a boot code writes in the pass at boot and in no other |
| `CheatLaws.PatchMeans` | src/main/cheat.c:399-417 | a line 5000ccss makes of the next one cc codes, ss apart in address and the line's value apart in value |
| `CheatLaws.PlainMeans` | src/main/cheat.c:418-426 | any other line, and a patch line with nothing after it, stands for itself |
| `LinkedRing.AddTail` | src/main/list.h:53-61 | the ring of a sequence becomes the ring of the sequence with the item appended |
| `LinkedRing.Add` | src/main/list.h:43-51 | the ring with the item in front |
| `LinkedRing.Del` | src/main/list.h:63-70 | the ring without that entry, both directions relinked |
| `LinkedRing.Bypassed` | src/main/list.h:63-70 | a ring whose neighbours of one entry point past it is the ring without that entry |
| `LinkedRing.Empty` | src/main/list.h:78-81 | true exactly for the ring of the empty sequence |
| `LinkedRing.DeleteAll` | src/main/list.h:113-118 | the safe traversal that unlinks every entry leaves an empty ring |
| `CheatEngine.ExecuteCheat` | src/main/cheat.c:106-152 | one code's effect on RDRAM, its old value and its verdict are those of the model, which `CheatLaws` states in bytes |
| `CheatEngine.CheatRecord.AddLines` | src/main/cheat.c:396-427 | the code list becomes the declarative expansion of the input |
| `CheatEngine.CheatRecord.AddPatch` | src/main/cheat.c:399-417 | the inner loop appends the progression |
| `CheatEngine.CheatRecord.Reset` | src/main/cheat.c:166-178 | the reused cheat keeps its name and loses all codes |
| `CheatEngine.CheatRecord.ApplyVi` | src/main/cheat.c:237-289 | walking the ring is `ViLoop` on its codes and the memory |
| `CheatEngine.CheatRecord.ApplyBoot` | src/main/cheat.c:229-236 | walking the ring is `BootLoop` |
| `CheatEngine.CheatRecord.Restore` | src/main/cheat.c:295-313 | walking the ring is `RestoreLoop` |
| `CheatEngine.CheatRecord.Apply` | src/main/cheat.c:222-314 | one cheat's turn is `Tick` |
| `CheatEngine.CheatCtx.ApplyCheats` | src/main/cheat.c:208-317 | walking the ring of cheats is `TickAll` |
| `CheatEngine.CheatCtx.AddNew` | src/main/cheat.c:374-431 | the ring of cheats holds what `AddNew` gives, a new cheat at its end |
| `CheatEngine.CheatCtx.Find` | src/main/cheat.c:159-164 | walking the ring of cheats finds the first of that name |
| `CheatEngine.CheatCtx.DeleteEverything` | src/main/cheat.c:320-346 | the nested safe traversals leave an empty ring of cheats, and every cheat an empty ring of codes |
| `CheatEngine.CheatCtx.SetEnabled` | src/main/cheat.c:348-372 | the named cheat's flag is set, or the call reports that there is none |
| `SaveLayout.NumberOfLittle` | src/main/savestates.c:173-186 | a number that fits its width comes back from its little-endian bytes |
| `SaveLayout.UnpackOfPack` | src/main/savestates.c:173-186 | so does an array of them |
| `SaveLayout.StepsRoundTrip` | src/main/savestates.c:308-881 | reading matching steps over what was written restores exactly the written fields, whatever follows in the buffer |
| `SaveTables.MainAgrees` | src/main/savestates.c:308-480 | the reader's steps match the writer's through the whole main block, which has exactly the length of the reader's buffer |
| `SaveTables.TlbsAgree` | src/main/savestates.c:447-472 | the loops over the TLB entries match, 52 bytes an entry |
| `SaveTables.ExtraAgrees` | src/main/savestates.c:653-673 | the opening of the extra block matches |
| `SaveTables.CartAgrees` | src/main/savestates.c:703-713 | the cartridge blocks match |
| `SaveTables.ModulesAgree` | src/main/savestates.c:780-792 | the loops over RDRAM modules match |
| `SaveTables.DdAgrees` | src/main/savestates.c:794-839 | the drive's block matches and is as long as the length an absent drive is skipped by |
| `SaveTables.LateAgrees` | src/main/savestates.c:841-881 | what versions 1.5 to 1.9 added matches |
| `SaveState.PakCursor` | src/main/savestates.c:685-758 | past one transfer pak the reader is where the writer was, or one cartridge block behind |
| `SaveState.CursorsAgreeIff` | src/main/savestates.c:685-758 | the cursors agree before and after every pak exactly when every inserted cartridge's fingerprint starts non-zero |
| `SaveState.UntitledCartShifts` | src/main/savestates.c:685-758 | the reader is out of step right after the first untitled cartridge |
| `SaveState.PakRestores` | src/main/savestates.c:685-758 | a pak with a titled cartridge is restored, or skipped as a whole when the settings say so |
| `SaveState.DdRestores` | src/main/savestates.c:794-839 | the drive is restored, or skipped when there is none |
| `SaveState.ChannelRestoredIff` | src/main/savestates.c:760-769 | a PIF channel comes back exactly if it was off or starts less than 128 bytes into PIF RAM |
| `SaveVersions.ExtraRestoresAt` | src/main/savestates.c:649-881 | the whole extra block, of any version, restores what it holds |
| `SaveVersions.SaveThenLoad` | src/main/savestates.c:188-955 | a file just written is accepted and restores every written field; every other field keeps its value; each channel as above |
| `SaveLaws.LoadVerdict` | src/main/savestates.c:213-300 | a file is loaded exactly if it has the eight magic bytes, version bytes 0, 1 and at least 3, the 32 bytes of the game's MD5 and 16793412 bytes; with a lower third version byte it is of the old format; every other is refused |
| `SaveLaws.OtherGameRefused` | src/main/savestates.c:245-251 | a state of one game is refused while another runs |
| `SaveLaws.CutFileRefused` | src/main/savestates.c:214-300 | a saved file cut off anywhere is refused |
| `SaveLaws.OtherDiskSkipped` | src/main/savestates.c:795-838 | a drive saved with another disk is left alone and the reader stays in step |
| `SaveLaws.OtherCartPoweredOn` | src/main/savestates.c:686-758 | with another Game Boy cartridge the pak comes back, the cartridge is as after power-on and the reader stays in step |
| `SaveLaws.NoPakSkipped` | src/main/savestates.c:686-758 | without a usable pak nothing changes, whatever the file holds for the port |
| `SaveLaws.RumblesLoad` | src/main/savestates.c:675-683 | a rumble pak's state is taken over exactly if the pak is enabled and the port holds a standard controller that the core drives; the reader takes one byte either way |
| `SaveVersions.OlderFileLoads` | src/main/savestates.c:649-881 | a file of any version from 1.3 on is loaded: what it holds comes back; missing later parts leave the DMA queue empty, the flash chip as after power-on but for its id and the recompiler's flag at 1; every other field keeps the device's value |
| `SaveVersions.LatestIsSave` | src/main/savestates.c:1521-1923 | such a file of the latest version is what the writer writes |
| `SaveVersions.LateSlotsAt` | src/main/savestates.c:841-881 | which fields each version added |
| `SaveOffsets.FileLayout` | src/main/savestates.c:308-480 | every register, memory, processor and TLB field of the main block stands at its absolute offset, low byte first |
| `SaveOffsets.PartLayout` | src/main/savestates.c:649-881 | wherever a part of the queue or the extra block stands, each of its fields stands at its offset from there |
| `SaveOffsets.LittleDigit` | src/main/savestates.c:173-186 | byte k of a number is its digit k to the base 256 |
| `SaveOffsets.BitByte` | src/main/savestates.c:1521-1923 | the bytes kept for old versions are the bits of their register, one by one |
| `SaveStateFile.Writer.PutSteps` | src/main/savestates.c:180-186 | the moving cursor leaves the encoded steps behind it and zeros ahead |
| `SaveStateFile.Reader.GetSteps` | src/main/savestates.c:173-179 | the moving cursor yields the decoded steps and stands behind them |
| `SaveStateFile.Device.PutPaks` | src/main/savestates.c:1797-1824 | the writer's loop over transfer paks |
| `SaveStateFile.Device.PutChannels` | src/main/savestates.c:1826-1830 | the writer's loop over PIF channels |
| `SaveStateFile.Device.SaveState` | src/main/savestates.c:1521-1917 | the buffer filled at the cursor is the file `Save` defines |
| `SaveStateFile.Device.GetPak` | src/main/savestates.c:685-758 | one turn of the reader's loop, with the optional block and the power-on of a foreign cartridge |
| `SaveStateFile.Device.GetPaks` | src/main/savestates.c:685-758 | the reader's loop over transfer paks |
| `SaveStateFile.Device.GetRest` | src/main/savestates.c:771-881 | the rest of the extra block, as far as the version has it |
| `SaveStateFile.Device.LoadState` | src/main/savestates.c:188-955 | the device becomes what `Load` defines; a refused file changes nothing |
| `Profiler.SlotFits` | tools/r4300prof.c:262-310 | a sample goes to an instruction that covers its address, or is unaccounted exactly if it lies outside the table and the instruction at hand does not cover it |
| `Profiler.InteriorIsUnique` | tools/r4300prof.c:262-310 | an address strictly inside an instruction can only go there, whatever samples came before |
| `Profiler.SlotByAddress` | tools/r4300prof.c:262-310 | in addresses: a sample from the start to the end of the instruction at hand stays there, any other goes to the instruction that starts before it and does not end before it, or to the first if it is the table's first address |
| `Profiler.StandFollows` | tools/r4300prof.c:262-310 | the walk stays with the instruction that had the last sample in the table |
| `Profiler.BucketByAddress` | tools/r4300prof.c:262-287 | a sample inside an instruction is counted for its type, one outside the table as unaccounted |
| `Profiler.MoveKeepsPlace` | tools/r4300prof.c:288-301 | starting over or racing ahead does not change where the sample will go |
| `Profiler.SamplesConserved` | tools/r4300prof.c:253-311 | the 136 counters add up to all samples |
| `Profiler.Move` | tools/r4300prof.c:288-310 | a retry never takes the error exit and strictly reduces the retries left |
| `Profiler.TryCount` | tools/r4300prof.c:262-287 | the first two tests count the sample in its bucket exactly if the instruction at hand covers it or none can |
| `Profiler.Turn` | tools/r4300prof.c:262-311 | a turn counts the sample once, or retries it at most twice |
| `Profiler.RaceAhead` | tools/r4300prof.c:298-301 | the inner loop stops at the first instruction ahead that covers the address |
| `Profiler.Merge` | tools/r4300prof.c:253-311 | the loop ends without the error exit and each counter holds exactly the samples of its bucket |
| `DebugMemory.Write8Effect` | src/debugger/dbg_memory.c:348-365 | a byte write changes that byte, under all its addresses, and no other |
| `DebugMemory.ReadRoutesAgree` | src/debugger/dbg_memory.c:306-320 | on a word boundary the byte-wise read is the word read |
| `DebugMemory.WriteRoutesAgree` | src/debugger/dbg_memory.c:322-335 | on a word boundary the byte-wise write is the word write |
| `DebugMemory.AnyRoute32` | src/api/debugger.c:264-329 | the debugger's choice of route never matters |
| `DebugMemory.Write32Effect` | src/debugger/dbg_memory.c:322-335 | a 32-bit write sets its four bytes and no other, at every address modulo 2^32 |
| `DebugMemory.ReadBack8Iff` | src/debugger/dbg_memory.c:348-365 | a byte reads back exactly if reads and writes at its address go to one place, or it was there already |
| `DebugMemory.ReadBack16` | src/debugger/dbg_memory.c:337-346 | over mapped memory a 16-bit value reads back at every address |
| `DebugMemory.ReadBack32` | src/api/debugger.c:264-329 | over mapped memory a 32-bit value reads back at every address |
| `DebugMemory.ReadOnlyPage` | src/device/r4300/tlb.c:130-139 | a page in LUT_r and not in LUT_w drops what is written to it |
| `DebugMemory.MappedIff` | src/device/r4300/r4300_core.c:304-319 | an address is mapped exactly if it lies in KSEG0 or KSEG1, or its page is in both tables and they lead to one physical page |
| `DebugMemory.DirectSegments` | src/device/r4300/r4300_core.c:304-319 | KSEG0 and KSEG1 are two views of the lowest 512 MiB: what is written through one is read through the other |
| `DebugMemory.PageTranslates` | src/device/r4300/tlb.c:130-139 | elsewhere a page leads where its table says, modulo 512 MiB and with the same offset, and nowhere if it is not in the table |
| `DebugMemory.UnmappedReads` | src/debugger/dbg_memory.c:306-312 | what is not mapped reads as all ones |
| `DebugMemory.HalvesApart` | src/device/r4300/tlb.c:130-139 | no byte is reached by both halves of a 64-bit access, since translation keeps the offset within a page |
| `DebugMemory.Write16Effect` | src/debugger/dbg_memory.c:342-346 | a 16-bit write sets its two bytes and no other, at every address modulo 2^32 |
| `DebugMemory.Write64Effect` | src/debugger/dbg_memory.c:294-304 | a 64-bit write sets the four bytes of each half and no other, at every address modulo 2^32 |
| `DebugMemory.ReadBack64` | src/api/debugger.c:249-315 | over mapped memory a 64-bit value reads back at every address modulo 2^32 |
| `DebugMemory.Device.WriteMemory8` | src/debugger/dbg_memory.c:356-365 | the masked word write is the byte write |
| `DebugMemory.Device.WriteMemory16` | src/debugger/dbg_memory.c:342-346 | the two byte writes are the model's 16-bit write |
| `DebugMemory.Device.DebugMemWrite32` | src/api/debugger.c:317-329 | the words become those of the model's write |
| `DebugMemory.Device.DebugMemWrite64` | src/api/debugger.c:303-315 | the words become those of the model's write |
| `DebugMemory.Device.ReadMemory32Unaligned` | src/debugger/dbg_memory.c:314-320 | the four-step loop reads the four bytes of the word |
| `FileStorage.SaveSyncsIff` | src/backends/file_storage.c:93-123 | a full write leaves file and memory equal exactly if it is the first, or the file was right outside the chunk |
| `FileStorage.SavedBytes` | src/backends/file_storage.c:93-123 | the file after any save, byte by byte: untouched if it could not be opened, a prefix of memory after a first write, otherwise the bytes that got out at their place and the rest as before |
| `FileStorage.StepTracked` | src/backends/file_storage.c:93-131 | every event keeps file and memory equal outside the unsaved changes, failed chunk writes included |
| `FileStorage.FileFollowsMemory` | src/backends/file_storage.c:93-131 | after any run whose first save got through, file and memory differ at most in unsaved changes |
| `FileStorage.CoveringSave` | src/backends/file_storage.c:93-131 | a save that covers all changes leaves the file equal to memory |
| `FileStorage.WindowOnDisk` | src/main/main.c:1874-1879 | a sub-storage that saves all its changes has its window on disk, whatever its neighbours left unsaved |
| `FileStorage.LostFirstWrite` | src/backends/file_storage.c:104-107 | after a failed first write later chunks leave the file incomplete |
| `FileStorage.FileBackend.Save` | src/backends/file_storage.c:93-123 | flag and file change as `Saved` says; a spectator changes nothing |
| `FileStorage.SubStorage.Save` | src/backends/file_storage.c:125-131 | the parent saves the range moved by the offset |
| `StereoGate.LatchNeedsActive` | src/api/vidext.c:224-231 | the latch is never set while the compositor is down |
| `StereoGate.LatchIsStaged` | src/api/vidext.c:755-827 | the latch is set exactly from the first stage-only swap until Quit |
| `StereoGate.PresentsIff` | src/api/vidext.c:755-827 | once staging has been seen, pairs are presented exactly at right-eye present-mode swaps; before that at every one |
| `StereoGate.UpIsActive` | src/api/vidext.c:439-451 | the compositor is up exactly if a mode set brought it up and no Quit followed |
| `StereoGate.LeftIsLast` | src/api/vidext.c:755-827 | the left image at hand is that of the last swap tagged left since the compositor came up |
| `StereoGate.ImagesAre` | src/api/vidext.c:755-827 | each eye's image is the last one swapped for it while the compositor was up, and none after Quit |
| `StereoGate.ShownGrows` | src/api/vidext.c:755-827 | in every run, what each event adds to what the headset was given, from the events alone |
| `StereoGate.PairsAreCoherent` | src/api/vidext.c:755-827 | if the last left-tagged swap before each right-tagged one shows the same frame, every pair presented from the first stage-only swap on is of one frame, however left-tagged swaps interleave |
| `StereoGate.MonoPresentsAlways` | src/api/vidext.c:755-827 | a plugin that never stages is presented at every swap |
| `StereoGate.VidExt.SetVideoMode` | src/api/vidext.c:439-451 | the compositor's flags become those of the model's step |
| `StereoGate.VidExt.GLSwapBuffers` | src/api/vidext.c:755-831 | stage, hold or present as the model's step, and the window swap is skipped exactly for a stage-only swap |
| `StereoGate.VidExt.QuitVideo` | src/api/vidext.c:224-231 | Quit clears the latch with the compositor |

## Left out

- Netplay: sockets, timeouts and the request thread are parameters (which packets come, whether the thread gave up); registration, settings, save transfer and the speed limiter are not modelled.
- ROM database: parsing of mupen64plus.ini; `Database.Open` starts from the parsed entries. ROM headers and byte swapping (`is_valid_rom`, `swap_copy_rom`) are not modelled.
- RomDatabase.Database.Open: takes each section to have at most one CRC line; a second one with the same first byte makes the entry its own successor in the list, and a search may not end. `RomReopen.Statics.Open` takes the same.
- BreakpointTable.Debugger.WalkPages: collects the pages of the loop and the caller adds or removes them together; the lookup does not read the hooks, so the effect is the same.
- RomDatabase.OrderIndependent: one way only; `OrderMattersIff` is exact for what the references find, and two different entries of one MD5 may still happen to give one outcome.
- Breakpoints.ApplySound: requires an unwrapped range; for wrapped ones `EnableAgreesIff` and `DisableAgreesIff` give the exact condition.
- Breakpoints.HooksAgreeInEveryRun: takes runs without wrapped ranges, and `EnableSound`, `DisableSound`, `RemoveSound`, `ReplaceSound` and `AddStructSound` such steps; `WrappedRangeIsNotHooked` is why.
- NetplayClient.Client.ProcessPacket: requires a player below 4 and at most 56 records in a key-info packet, as do `ReadAll`, `ProcessPackets`, `EnsureValid` and `GetInput`; for others the code reads and writes outside its arrays.
- Config: a list of sections is a sequence field of section objects instead of next pointers; the text file, its number formatting and user paths are not modelled. Floats are reals with a NaN.
- ConfigStore.ConfigLists.HasUnsavedChanges: requires non-empty names for the whole-store check, since the call does not return otherwise (`CheckReturnsIff`).
- Cheats: the host is little-endian, as on x86; freeing memory, the mutex and the parsing of cheat text are not modelled.
- Cheats.UndoRestores: leaves out the codes that keep no old value on purpose (button writes and code EE).
- SaveVersions.OlderFileLoads: a file of an older version is taken to hold what today's writer writes up to the parts that version has, as the reader expects.
- SaveStateFile.Device.LoadState: formats before version 1.3 are recognised and not read further, and a device is then left as it was.
- SaveVersions.SaveThenLoad: AI FIFO addresses, the C2S buffer, the task lock, the interrupt_unsafe_state flag, the last jump address, the framebuffer state and PIF channel pointers derived from the channel's start are reset by the loader or set from other values; they are no part of the serialised state or of this model.
- Save states: a cartridge in a port always has its ROM storage; `SaveThenLoad` and `OlderFileLoads` have the same disk and cartridges when saving and loading; for others see `OtherDiskSkipped` and `OtherCartPoweredOn`. Numbers are unsigned bit patterns; the event queue is 256 words without further meaning; compression, Project64 formats and the work queue are not modelled; the host is little-endian. The TLB size and the number of RDRAM modules are parameters fixed at 32 and 8.
- Profiler: sample counts are unbounded integers; the opcode table is given strictly increasing; the table of instruction names (`GetInstrType`) is data.
- DebugMemory: a word is four byte lanes; all physical memory is plain memory (device registers are not); the exception that a TLB miss raises in the emulated CPU is not modelled.
- FileStorage: the outcome of each attempt to open or write is a parameter; the path and the warning messages are not modelled.
- StereoGate: OpenXR, Vulkan and the readback are reduced to the frame number each eye was last given.
- The R4300 core, the plugins, the on-screen display, key bindings and the front-end commands are not part of this model.
- Allocation is taken to succeed throughout.

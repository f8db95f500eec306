# Verified models of the early-boot helpers

The helpers under `early/helpers/` are small programs that dinit runs before anything else. Six of
them hold real algorithms or protocols. This project models those in Dafny, in the form the
programs have (loops over buffers, objects updated in place, steps that other parties interleave
with), and proves what they are for. `dafny verify dfyconfig.toml` checks everything.

- **seedrng.cc.** `Blake2sSpec` is the hash as RFC 7693 defines it in one piece; `Blake2s` is the
  streaming state and proves it equal to that on every message and every chunking; `Blake2sExamples`
  works out two digests word by word. `SeedHash` is what
  a run hashes into its new seed. `SeedProtocol` is the life of the two seed files as steps, with a
  kill or a power failure possible between any two; `SeedRun` is one run of `main` on the directory, every call of which is such a step;
  `SeedDurability` is what a power failure leaves of a saved seed.
- **devmon.cc.** `RequestChain` is the asynchronous request chain of one device as a transition
  system, `DeviceObject` the same as an object with callbacks, `ServiceList` its property parser.
  `DeviceIndex`, `MonitorProofs` and `MonitorRuns` are all devices with their indexes, `MonitorEvents`
  ties them to the events of the run alone, `UsbDevices`
  the shared USB entries, `MonitorClients` what clients were told, `MonitorAddresses` the index by
  hardware address, `MonitorObject` the maps in place. `PollTable` is the poll table.
- **kmod.cc.** `CmdlineSpec` says what a kernel command line means; `CmdlineScanner` is the scanner
  that cuts the buffer it is still reading and keeps pointers into it.
- **sysctl.cc.** `SysctlNames` normalises names in place, `SysctlLines` parses lines, `SysctlBuffer`
  is the buffer that a value is written out of, again and again, `SysctlLoader` decides which of the
  lines wins, `SysctlFiles` orders the files.
- **mnt.cc.** `MountTable`, `MountMeaning`, `MountOptions`, `MountPrinter` and `MountRequests`: the
  option table and its search, what single options mean, the parser as a fold, the printer and its
  round trip, and the mount calls made.
- **swclock.cc.** `Numbers` is printing and reading numbers, `SoftClock` the clock over reboots.

`Text` holds options, splitting and C's string order.

## What turned out different from what one would expect

- mnt.cc: the rows "silent" and "shared" are the only ones out of order, so "shared" is never
  recognised and ends up among the unknown options (`MountTable.SearchMissesOnlyShared`).
- mnt.cc: what is printed for a helper reads back as the request only without bind and recursive
  flags; a helper that is tried after a failed mount is used without any change of propagation.
- seedrng.cc: on a kernel without `getrandom` a run can be called ready and still get nothing from
  the kernel; its seed is then credited (`SeedProtocol.ReadyRunsDrewIff`).
- seedrng.cc: the directory is not synced after the new file is created and renamed, so a run can exit
  with 0 and a power failure leave no seed (`SeedDurability.SuccessfulRunCanBeLost`).
- devmon.cc: a chain with nothing to drop and nothing to add never ends, which a removal of a device
  at rest always starts (`RequestChain.GetsStuckIff`, `RequestChain.RemovalSticks`).
- devmon.cc: a USB device that joins a known id is not registered, so the entry stays when it is the
  last to go (`UsbDevices.LastRemovalIff`).
- devmon.cc: clients that ask by name are told that a tagged device is there when it goes away, and not
  that it has gone (`MonitorClients.RemovalToldByNameIff`).
- devmon.cc: a changed hardware address is filed under the interface's name, so the answer for it is
  wrong (`MonitorAddresses.WrongAddressAnswer`). A removal looks for the address under the empty name
  and leaves the entry in the table, which does no harm: its key is a view of the string that is
  cleared next (`MonitorAddresses.PlainAnswerIsScan`).
- devmon.cc: a hang-up leaves the client's record behind, for the next client with its descriptor
  (`PollTable.RecordOutlivesHangUpOnly`, `PollTable.NextClientGetsRecord`).
- swclock.cc: a stop that is cut off between writing the offset and setting the timestamp can make the
  next start fall behind the last saved time, if the clock had been set back
  (`SoftClock.CutOffStopFallsBehind`).
- kmod.cc: any key that starts with "module" and abbreviates a keyword counts, so `module=x` loads x.
- sysctl.cc: the matches of a pattern get one more newline each, and after the terminators have run out
  whatever the buffer holds (`SysctlBuffer.NthIsValueIff`).
- sysctl.cc: the comment says that /etc/sysctl.conf is skipped when a file of that name was handled;
  the comparison is with a path, so it never is (`SysctlFiles.SysctlConfIsAlwaysLoaded`).

## Model

| member | source | states |
|---|---|---|
| Blake2s.HashChunks | early/helpers/seedrng.cc:197-228 | For every list of byte strings, empty ones included, feeding them one by one and finishing gives the unkeyed BLAKE2s digest of their concatenation as `Blake2sSpec` defines it in one piece, after sections 2.5 to 2.7 and 3.1 to 3.3 of RFC 7693 |
| Blake2s.State.Update | early/helpers/seedrng.cc:197-219 | In place: the state goes from standing for a message to standing for the message with the input after it, whether the input is empty, fits the buffer, fills it exactly or brings many blocks |
| Blake2s.State.Final | early/helpers/seedrng.cc:221-228 | Writes the digest of everything that was fed, and nothing outside the output range |
| Blake2s.State.Compress | early/helpers/seedrng.cc:134-195 | A run of consecutive blocks folds the RFC's compression function into `h`, with the counter raised before each block |
| Blake2s.HeldBack | early/helpers/seedrng.cc:112-219 | After input of length n > 0 the buffer holds exactly the last n - 64*(ceil(n/64)-1) bytes, from 1 to 64; the counter words are the bytes compressed so far modulo 2^64; `h` is the fold of the compression function over the earlier blocks |
| Blake2s.CarryIsExact | early/helpers/seedrng.cc:112-116 | The 32-bit addition with its carry test is addition on the 64-bit counter, for every total and every increment |
| Blake2s.BlocksContinueChain | early/helpers/seedrng.cc:134-195 | Compressing k more blocks continues the chain of the first j: bulk input and buffered input give one and the same fold |
| Blake2s.LastIsDigest | early/helpers/seedrng.cc:221-228 | The padded last block with the final flag turns the running state into the one-shot digest, for the empty message too |
| Blake2sExamples.AbcDigest | early/helpers/seedrng.cc:84-228 | The digest of "abc" is that of appendix B of RFC 7693, worked out from the work vector after every half round |
| Blake2sExamples.LongDigest | early/helpers/seedrng.cc:84-228 | The digest of the 65 bytes from 0 to 64 (`LongIs`), where the words of the first block all differ and a second block follows, so that every entry of SIGMA, every rotation, the byte order, the counter and the last-block flag count |
| Blake2sExamples.IVIsSquareRoots | early/helpers/seedrng.cc:89-92 | The words of IV are the fractions of the square roots of the first eight primes |
| SeedHash.MakeSeed | early/helpers/seedrng.cc:439-472 | The end of the new seed becomes the digest of the prefix, the clocks, the old seeds and the drawn bytes, the rest of the drawn bytes stays |
| SeedHash.HashInputInjective | early/helpers/seedrng.cc:395-472 | Runs that differ in a clock, in any old seed, in their number or in the drawn bytes hash different inputs |
| SeedHash.HashInputLayout | early/helpers/seedrng.cc:430-440 | What is hashed starts with the 25 characters of the prefix, then the real time, then the time since boot, then the seeds |
| SeedHash.ItemsLayout | early/helpers/seedrng.cc:395-472 | Each seed is hashed after its length, one after the other |
| SeedHash.SizeBytesBits | early/helpers/seedrng.cc:395-472 | The length in front of each seed is written in eight bytes, least significant first: bit j of byte i is bit 8 i + j of the number |
| SeedProtocol.SeedFedAtMostOnce | early/helpers/seedrng.cc:367-409 | Over any sequence of runs, with a kill or a power failure between any two steps, the seed saved by one run is given to the kernel at most once |
| SeedProtocol.CreditableSeedIsSound | early/helpers/seedrng.cc:458-488 | Whichever directory version survives a power failure, `seed.credit` leads to a seed that was written in full and synced by a run whose own draw found the generator ready (it got the whole seed without blocking, or the kernel is too old for that and polling says so), and no other content of that file can come back |
| SeedProtocol.CreditedFeedsAreSound | early/helpers/seedrng.cc:367-464 | Entropy is only credited for whole seeds of runs whose own draw found the generator ready |
| SeedProtocol.RunsAre | early/helpers/seedrng.cc:306-337 | Over whole runs, from the steps alone: a run counts as ready exactly when its draw found the generator ready, and as drawn exactly when some read from the kernel filled its seed |
| SeedProtocol.DrawsAreUnique | early/helpers/seedrng.cc:443-472 | No run draws twice, whatever happens to it |
| SeedProtocol.StepKeepsInv | early/helpers/seedrng.cc:367-488 | Every single step, failures, kills and power failures included, keeps the invariant: a seed lies in one file only, no file that any surviving directory names holds a seed the kernel was given, and the creditable name only leads to sound seeds |
| SeedProtocol.ReadyRunsDrewIff | early/helpers/seedrng.cc:306-337 | Over whole runs: every run called ready got its seed from the kernel exactly when no draw met an old kernel that polls ready and then fails to be read |
| SeedProtocol.CreditableWithoutNewSeed | early/helpers/seedrng.cc:306-337 | A run in which that happens, ending with a creditable seed that holds nothing from the kernel |
| SeedRun.SeedDirectory.SeedFromFileIfExists | early/helpers/seedrng.cc:367-409 | In place: exactly when it succeeds, and that the seed is handed to the kernel only once its name is gone, with the other name untouched |
| SeedRun.SeedDirectory.SaveSeed | early/helpers/seedrng.cc:443-488 | Each failure is reported exactly when its call failed: the seed not filled by the kernel, the file not opened, not written or synced, not renamed; without one the new seed is in the current directory, alone in its file, under the name its run's generator earned, and its content is synced; every version of the directory that was made meanwhile leads to that file; with a failure the directory is still in a reachable state |
| SeedRun.SeedDirectory.Run | early/helpers/seedrng.cc:421-496 | The exit status is made of exactly the failures that happened; 0 means that every stored seed was given to the kernel and the new one is in the current directory with its content synced; what a power failure may then bring back is the new seed from some version on, and before it at most what is left of a directory from before the run; whatever fails, the run is a run of the protocol |
| SeedDurability.SeedSurvivesIff | early/helpers/seedrng.cc:475-489 | A saved and synced seed is found after a power failure exactly when the version of the directory that survives is the one in which its file was created, or a later one |
| SeedDurability.SuccessfulRunCanBeLost | early/helpers/seedrng.cc:458-489 | A run in which every call works and the kernel is ready, and a power failure after it that leaves no seed at all |
| RequestChain.CounterIsExact | early/helpers/devmon.cc:485-648 | In every reachable interleaving of events and replies `pending_svcs` is the number of outstanding service loads plus the awaited service events, and never negative |
| RequestChain.BackToProcessIff | early/helpers/devmon.cc:485-648 | A reply re-enters `process` exactly when the device service could not be loaded or when it settles the last awaited service |
| RequestChain.EveryChainEndsOnce | early/helpers/devmon.cc:485-689 | The callbacks of one chain re-enter `process` once: as often as chains were started, but for the one in flight |
| RequestChain.ChainEndsWhenAllSettled | early/helpers/devmon.cc:512-622 | When a chain whose device service was loaded ends, every service it set out to drop or add has been settled, and no other |
| RequestChain.ChainStartsWithLatestEvent | early/helpers/devmon.cc:650-740 | A chain starts only when nothing is outstanding, and then for the latest event of the run, as the steps say it: with that event's removal flag and its own services, none for a removal |
| RequestChain.EventsAreNoted | early/helpers/devmon.cc:691-740 | What a device keeps of its events is, over whole runs, the list of the events from the first tagged one on, each with its own flag and its own services |
| RequestChain.AbortsIff | early/helpers/devmon.cc:512-740 | For each step, the exact condition on its requests and loads under which the connection is given up |
| RequestChain.RestMeansUpToDate | early/helpers/devmon.cc:650-740 | Whenever `processing` is false, `pending` is too, the last chain was for the last tagged event however many were coalesced, the system depends on the device service exactly when that event says the device is there (if the service could be loaded), and `ready` was last called with what it said |
| RequestChain.OnlyCoalescedChainsDrop | early/helpers/devmon.cc:666-689 | Old soft dependencies are dropped exactly by the chains that the end of the previous one started; a chain started between chains drops nothing |
| RequestChain.GetsStuckIff | early/helpers/devmon.cc:598-622 | A device gets stuck in a chain exactly when its service was made a dependency while there is nothing to drop and nothing to add |
| RequestChain.NotStuckMeansReply | early/helpers/devmon.cc:485-648 | In every other chain in flight some reply is still to come |
| RequestChain.StuckForever | early/helpers/devmon.cc:691-740 | Once stuck, no run of events and replies starts another chain or calls `ready` |
| RequestChain.RemovalSticks | early/helpers/devmon.cc:598-740 | The removal of a tagged device that is between chains leads to that state when its service can be loaded |
| DeviceObject.Device.Process | early/helpers/devmon.cc:650-689 | In place: closes, signals, rotates the sets and starts the next chain as the step function says, failures included |
| DeviceObject.Device.HandleDeviceDinit | early/helpers/devmon.cc:691-740 | In place: an untagged device is signalled at once; for a tagged one the words of the property, none on removal, become the services of the chain that starts now or of the one after the current |
| DeviceObject.Device.DevsvcLoaded | early/helpers/devmon.cc:628-648 | In place: a failed load gives up, a service that is not loaded ends the chain, a loaded one is kept and made a dependency or gives up |
| DeviceObject.Device.DevsvcAdded | early/helpers/devmon.cc:598-622 | In place, with its two loops over sets: one load per service to drop and per service to add, the counter at their number, or an abort when one is refused |
| DeviceObject.Device.SubsvcLoaded | early/helpers/devmon.cc:512-582 | In place: a service that failed, is dropped or has started counts down at once, any other is awaited under its handle |
| DeviceObject.Device.ServiceEvent | early/helpers/devmon.cc:485-509 | In place: an awaited event counts down first and loses its map entry last, which comes to the same as the other order |
| ServiceList.ParseServices | early/helpers/devmon.cc:710-727 | The set of services is the set of maximal stretches without white space of the property |
| MonitorRuns.PointersNeverDangle | early/helpers/devmon.cc:303-462 | In every reachable state every value of `map_dev`, `map_netif` and `map_mac` is a key of `map_sys`, so the lookup at the end of a query cannot fail, and the pointers in `map_usb` and `map_svcdev` can be followed |
| MonitorRuns.NameKeysNeverChange | early/helpers/devmon.cc:303-462 | The keys of `map_dev` and `map_netif` are views of names; in every reachable state, shared names or not, each is still the name of the device that it leads to |
| MonitorRuns.EveryDeviceCounts | early/helpers/devmon.cc:479-648 | With all devices interleaved, each is in a state of its own chain, and its counter is its service loads plus its own entries in `map_svcdev` |
| MonitorRuns.AnswerIsScan | early/helpers/devmon.cc:1268-1314 | When live devices never share a name, the answer to a node (symbolic links resolved), interface, path or USB query is 1 exactly when a scan of `map_sys` finds a matching device that is neither removed nor processing |
| MonitorRuns.StepKeepsNames | early/helpers/devmon.cc:303-462 | Every event and reply keeps the node and interface indexes at exactly the names of the live devices |
| MonitorEvents.EntriesFollowEvents | early/helpers/devmon.cc:742-815 | Over whole runs, from the events alone: a device that is not a USB device is there exactly when the last event about its path added it, with the subsystem it was first added with and the name and the address of the last event |
| MonitorEvents.PathAnswerFollowsEvents | early/helpers/devmon.cc:1268-1314 | A query by path is answered 1 exactly when the last event about the path added the device and its chain is over |
| MonitorEvents.InterfaceAnswerFollowsEvents | early/helpers/devmon.cc:1268-1314 | When live devices never share a name, a query by interface name is answered 1 exactly when the events have made some interface known by that name and its chain is over |
| MonitorEvents.DeletedIsGone | early/helpers/devmon.cc:785-815 | After the removal of a device whose number is not in `map_usb` its entry is removed, its name leads nowhere, and every query that leads to it is answered 0 |
| MonitorEvents.AddFailsIff | early/helpers/devmon.cc:691-783 | An added device makes the monitor give up exactly when a chain should start for it and its first request cannot be issued |
| MonitorEvents.RemoveFailsIff | early/helpers/devmon.cc:691-815 | So does a removed device, if it was there |
| MonitorAddresses.RightAfterAddIff | early/helpers/devmon.cc:303-385 | With keys that are views of the devices' strings: on an index that is right (what is found leads to the live interfaces with the addresses, and no two share one) an added or changed device keeps it right exactly when nobody else has its address, none of its entries left from earlier reads anything else that it has now, and, if it was there, its address is what was or is filed for it |
| MonitorAddresses.AddressAnswerIsScan | early/helpers/devmon.cc:1268-1314 | Over runs of such events, with removals and replies at any point, the answer to a query by hardware address is 1 exactly when a scan of `map_sys` finds a live interface with that address that is not processing |
| MonitorAddresses.PlainAnswerIsScan | early/helpers/devmon.cc:303-462 | So it is, with addresses of one length, whenever no interface changes its address while it is there and no two have the same one at a time, also when an address moves to another path or an interface comes back with another name or address |
| MonitorAddresses.WrongAddressAnswer | early/helpers/devmon.cc:369-385 | A reachable wrong answer: an untagged interface appears and changes its address; it is the only device, there and at rest, and the answer for its address is 0 |
| MonitorClients.ReadyTellsJust | early/helpers/devmon.cc:387-406 | `ready` tells the clients by path or id, by name and by address of the device, all the same, and nobody else |
| MonitorClients.PathClientsUpToDate | early/helpers/devmon.cc:387-406 | With all devices interleaved, and no key that is at one time a USB id and at another a system path, clients that ask by system path or USB id for a device at rest were last told whether it is there |
| MonitorClients.NameClientsUpToDate | early/helpers/devmon.cc:324-406 | When live devices never share a name, clients that ask by node or interface name for a device that is there and at rest were last told so, its events having changed names or not |
| MonitorClients.RemovalToldByNameIff | early/helpers/devmon.cc:785-815 | The event that removes a device tells clients by name that it is gone exactly when it was never tagged; a tagged one at rest tells them that it is there, and one in a chain tells them nothing, since the name is cleared before the chain ends |
| MonitorClients.RenamedIsToldGone | early/helpers/devmon.cc:333-385 | When a device changes its name or its address, clients by the old one are told that it is gone |
| MonitorClients.UnusedNameIsSilent | early/helpers/devmon.cc:324-406 | No step tells anything to clients by a name that no device has before or after it, so what the removal told them stays |
| UsbDevices.UsbEntriesFollowDevices | early/helpers/devmon.cc:742-815 | A vendor:product entry is removed exactly when its set is empty, every number in `map_usb` lies in its target's set, and no entry is removed while one of its devices is plugged in, as the events of the run say |
| UsbDevices.LastRemovalIff | early/helpers/devmon.cc:785-815 | A removal removes the entry exactly when its number is registered in `map_usb` and is the last in the set |
| UsbDevices.EntryOutlivesDevices | early/helpers/devmon.cc:763-779 | A second device with a known id is not registered: after both are gone the entry stays and clients are told that it is there |
| MonitorObject.Monitor.AddDevice | early/helpers/devmon.cc:742-783 | In place, with `init`, `set` and their parts: the maps after an added or changed device are those of the step function |
| MonitorObject.Monitor.RemoveDevice | early/helpers/devmon.cc:785-815 | In place: the maps after a removed device, the early return for a shared id and the failure before the names are dropped included |
| MonitorObject.Monitor.DropNames | early/helpers/devmon.cc:439-462 | In place: the node or interface entry goes with the name, the address is looked for under the name that was just cleared, and clearing the address leaves its key without a text to be found by |
| MonitorObject.Monitor.Reply | early/helpers/devmon.cc:1268-1314 | The lookups by kind compute the answer that the scan theorem is about |
| PollTable.SlotsKeepTheirOrder | early/helpers/devmon.cc:1102-1357 | Through any sequence of accepts, failing writes, hang-ups, messages and compactions slots 0 to 4 keep their descriptors, and the slots after them are in the order of acceptance, each open with its own descriptor or marked |
| PollTable.DescriptorsAreDistinct | early/helpers/devmon.cc:1170-1336 | No descriptor has two open slots or two `conn` records |
| PollTable.CompactLeavesOpen | early/helpers/devmon.cc:1338-1357 | Compaction leaves nothing marked and loses nothing else |
| PollTable.RecordOutlivesHangUpOnly | early/helpers/devmon.cc:1102-1357 | From every reachable table in which each record has an open slot, each step keeps that so exactly when it is not the hang-up of a client that has a record |
| PollTable.NextClientGetsRecord | early/helpers/devmon.cc:1170-1336 | After a hang-up, a compaction and an accept of the same descriptor, the new client is served from the record of the one that hung up |
| PollTable.FailureClosesClient | early/helpers/devmon.cc:230-243 | A client that sends something bad or cannot be written to loses its slot and its record, one that hangs up its slot, and no other client loses anything |
| PollTable.Poll.WriteConn | early/helpers/devmon.cc:230-243 | In place: a failing write marks the first slot of the descriptor and the record, found by a loop |
| PollTable.Poll.ServeClient | early/helpers/devmon.cc:1181-1336 | In place: the record of a readable client is found or made, and kept or taken out with its slot |
| PollTable.Poll.CompactAll | early/helpers/devmon.cc:1338-1357 | In place: the two erasing loops leave exactly the open slots and records, in order |
| CmdlineScanner.ScanCmdline | early/helpers/kmod.cc:294-358 | For every line of up to 4096 bytes the scan ends with the load list and blacklist of the plain reading by words, keys and elements, and has overwritten only commas, spaces and the final newline |
| CmdlineScanner.ScanWord | early/helpers/kmod.cc:307-357 | One word at the cursor: its items are recorded, the cursor lands on a later word, and the text from the cursor on is the original line |
| CmdlineScanner.ScanList | early/helpers/kmod.cc:329-356 | A comma-separated list is cut and recorded element by element, up to the first empty one or the end of the word |
| CmdlineScanner.PointersDenote | early/helpers/kmod.cc:301-357 | At the end every recorded pointer still leads to the NUL-terminated element it was recorded for, and every view of the blacklist to its name, in order and with nothing else |
| CmdlineScanner.RecordedKept | early/helpers/kmod.cc:337-343 | Writing a NUL at or after the cursor changes nothing that was recorded before it |
| CmdlineScanner.KeyDecides | early/helpers/kmod.cc:318-328 | The three comparisons by length of key decide as the plain reading does: any prefix of a keyword that starts with "module" counts, the blacklist last |
| CmdlineSpec.ItemsFromZero | early/helpers/kmod.cc:301-357 | Looking for words from a position on is splitting the line at its spaces |
| CmdlineSpec.ListedModules | early/helpers/kmod.cc:301-357 | Any list of names after `modules_load=` or `modules-load=` is read as these names to load, after `module_blacklist=` as these names not to load |
| CmdlineSpec.KeyMeans | early/helpers/kmod.cc:318-328 | What a word asks for is decided by its key: one that starts with "module" and abbreviates a keyword, and no other |
| CmdlineScanner.NewlineChangesNothing | early/helpers/kmod.cc:294-300 | A final newline changes nothing of what the line asks for |
| SysctlNames.NormaliseInPlace | early/helpers/sysctl.cc:90-107 | In place: the whole name is swapped between dots and slashes when its first separator is a dot, and left alone otherwise |
| SysctlNames.NormalisedTwice | early/helpers/sysctl.cc:90-107 | Normalising twice is normalising once |
| SysctlNames.SameNameIff | early/helpers/sysctl.cc:90-107 | Two spellings normalise to the same path exactly when they are equal or each other with dots and slashes swapped |
| SysctlNames.NormalisedIsPath | early/helpers/sysctl.cc:86-107 | The first separator of a normalised name is a slash, at its old place, and names that start with one are left alone |
| SysctlLoader.LastLineDecides | early/helpers/sysctl.cc:113-222 | Over a whole run of lines a parameter was last written by its last explicit line that has a value; failing that, by the last matching pattern before its first explicit line; failing that, by the last matching pattern; and what was written is the line's value and a newline, or, for the n-th match of a pattern that is not skipped, what the n-th write out of the line's buffer is |
| SysctlBuffer.NthIsValueIff | early/helpers/sysctl.cc:149-222 | Each write turns the value's terminator into a newline that the next one takes for a part of the value: the n-th parameter gets the value and n newlines exactly when n terminators in a row follow the value, and otherwise something longer or what lies past the buffer |
| SysctlLoader.RoomOfLine | early/helpers/sysctl.cc:232-262 | These terminators are the line's own, one for every blank stripped from its end (its newline is one) and those that the buffer happens to hold after it |
| SysctlLines.ParseWritten | early/helpers/sysctl.cc:234-292 | A setting written out, with any white space around it, after the dash and around the sign, is read back as it was: name, value and the mark for optional ones |
| SysctlLines.ParseLineIff | early/helpers/sysctl.cc:234-292 | And nothing else is read as a setting: a line is read as one exactly when it is that setting written out in some layout |
| SysctlLines.IgnoredIff | early/helpers/sysctl.cc:236-242 | A line is ignored exactly when it is blank or its first other character is '#' or ';' |
| SysctlLoader.WrittenIsLoaded | early/helpers/sysctl.cc:234-292 | A line that is a setting written out is loaded as that setting, on every state |
| SysctlLoader.OthersChangeNothing | early/helpers/sysctl.cc:234-292 | A line that is no setting written out leaves every state as it was |
| SysctlLoader.SkippedLines | early/helpers/sysctl.cc:236-270 | In particular blank lines and comments, lines with neither a sign nor a dash in front, and names that start with a separator |
| SysctlLines.WhitespaceAround | early/helpers/sysctl.cc:236-262 | White space before and after a line changes nothing, whatever the line is |
| SysctlLoader.Loader.WriteValue | early/helpers/sysctl.cc:213-222 | In place: the value is written with a newline in the place of its terminator, and the buffer keeps that newline |
| SysctlLoader.Loader.LoadSysctl | early/helpers/sysctl.cc:72-222 | In place: one setting, explicit or with a pattern whose matches are all written out of the one buffer, on the tracked names and the parameters |
| SysctlLoader.Loader.LoadConf | early/helpers/sysctl.cc:224-295 | In place: a file adds the effect of its lines, in order, to what was loaded before it |
| SysctlFiles.CollectFiles | early/helpers/sysctl.cc:311-354 | Every name ending in .conf is taken once, from the first directory that has it |
| SysctlFiles.FirstWithIff | early/helpers/sysctl.cc:313-354 | The path of a name is that in the first directory with a regular file of this name, if it is longer than and ends in .conf |
| SysctlFiles.OrderIsDetermined | early/helpers/sysctl.cc:356-365 | The sorted order of loading does not depend on the order in which directories list their files |
| SysctlFiles.SysctlConfIsAlwaysLoaded | early/helpers/sysctl.cc:380-389 | The guard for /etc/sysctl.conf never holds it back, also when a file named sysctl.conf was loaded |
| SysctlFiles.LoadOrder | early/helpers/sysctl.cc:375-389 | The files come in the sorted order of their names, each by the path that was collected for it, with /etc/sysctl.conf after all of them |
| MountTable.SearchMissesOnlyShared | early/helpers/mnt.cc:123-193 | The table search with early exit agrees with an exhaustive one exactly for the tokens other than "shared" |
| MountTable.SortedSearchIsLookup | early/helpers/mnt.cc:178-193 | On any strictly sorted table the two searches agree for every string |
| MountTable.FindOpt | early/helpers/mnt.cc:177-193 | The loop over the table is that search |
| MountMeaning.OppositesWriteOneBit | early/helpers/mnt.cc:123-197 | Fourteen options and their opposites: one sets a bit, the other clears the same bit, of the access times either clears the other, and nothing else changes |
| MountMeaning.RecursiveAddsOneBit | early/helpers/mnt.cc:123-197 | The recursive forms set the bit of the plain form and the recursive bit |
| MountMeaning.OtherOptions | early/helpers/mnt.cc:123-197 | What the remaining options that are found set and clear |
| MountMeaning.DefaultsReset | early/helpers/mnt.cc:198-202 | "defaults" resets exactly five flags and leaves nothing over |
| MountMeaning.UnknownIsKept | early/helpers/mnt.cc:203-208 | An option that no row has changes no flag and is kept at the end of the rest |
| MountOptions.ParseMntopts | early/helpers/mnt.cc:167-208 | The loop over the tokens is the fold of the tokens, on flags and on the remaining options |
| MountOptions.ParseAppend | early/helpers/mnt.cc:167-208 | Parsing "a,b" is parsing a and then b, for all strings and starts |
| MountOptions.ParseIsEffect | early/helpers/mnt.cc:182-197 | The flag effect is clearing some bits and setting some, both given by the option string alone |
| MountOptions.ParseFlagsIdempotent | early/helpers/mnt.cc:167-208 | Parsing the same options again changes no flag |
| MountOptions.LastWriterDecides | early/helpers/mnt.cc:182-197 | A flag is decided by the last token that writes it |
| MountOptions.NoWriterKeeps | early/helpers/mnt.cc:182-197 | A flag that no token writes is kept |
| MountPrinter.TokensKeepGood | early/helpers/mnt.cc:167-208 | The parser keeps at most one of bind, move and remount, at most one of noatime and relatime, and only unknown options in the rest |
| MountPrinter.PrintThenParse | early/helpers/mnt.cc:167-243 | Parsing what is printed for a parser output gives back the same options always, and the same flags exactly when it has no bind, recursive or propagation flag, or has all of the recursive and propagation flags beside bind or remount |
| MountPrinter.UnparseMntopts | early/helpers/mnt.cc:210-243 | The printing loop is the printer that theorem is about |
| MountRequests.DoMountRaw | early/helpers/mnt.cc:291-326 | The calls that are made, in order, with their flags, on every path through helper, mount and propagation |
| MountRequests.RequestConserved | early/helpers/mnt.cc:291-326 | No mount call mixes propagation with other flags, and without a helper the calls together ask for exactly the flags requested |
| MountRequests.RunReports | early/helpers/mnt.cc:291-326 | A request succeeds exactly when the helper that ran did, or the mount and the propagation change did; the mount passes the remaining options on, the propagation change none, and it comes last |
| MountRequests.PropagationMadeIff | early/helpers/mnt.cc:302-324 | Propagation flags are left unasked exactly when there are none, the mount fails (with a helper after it or none), or a helper was used first |
| MountRequests.HelperReadsRequestIff | early/helpers/mnt.cc:291-318 | The options handed to any helper that runs, first or after a failed mount, read back as the request for the mount itself (the propagation change, with its recursive flag, is a call of its own) exactly when that has neither bind nor recursive flag |
| MountRequests.HelperRunsIff | early/helpers/mnt.cc:291-318 | A helper runs exactly when there is one for the type and it is asked first or the mount fails |
| MountRequests.DoRemount | early/helpers/mnt.cc:357-387 | The two passes are one parse of the options in the table followed by the requested ones |
| SoftClock.StartContinuesTime | early/helpers/swclock.cc:113-292 | Over any number of reboots, with stops that are cut off between any two of their calls, and whatever the system clock is set to in between, on a UTC real-time clock that does not go back: a start leaves the clock at or after its own, makes up for exactly what passed on the real-time clock since the offset was written, and falls behind the last saved time exactly when a later stop was cut off with the offset of an earlier time written and this is not made up for |
| SoftClock.CutOffStopFallsBehind | early/helpers/swclock.cc:213-292 | A run in which that happens: the clock was set back and the stop was cut off before the timestamp |
| SoftClock.StopInOneGo | early/helpers/swclock.cc:213-292 | The steps of a stop that is not cut off leave the files that `do_stop` leaves |
| SoftClock.SavedTimesNeverGoBack | early/helpers/swclock.cc:113-292 | Over the same runs, cut-off stops included, as long as nobody sets the system clock back between a start and a stop, the saved times never decrease and every start reaches the last of them |
| SoftClock.StartReachesSavedIff | early/helpers/swclock.cc:170-211 | For one stop and start the clock reaches the saved time exactly when the real-time clock has not gone back or the offset is not used |
| SoftClock.OffsetCarriesTime | early/helpers/swclock.cc:213-292 | The printed offset, read back and added in 64 bits, gives the saved time plus what passed on the real-time clock; no offset is kept when the clock is not ahead |
| SoftClock.LocaltimeIsConverted | early/helpers/swclock.cc:84-111 | A real-time clock in local time counts as one that shows the converted time, for start and stop alike, and not at all when it cannot be converted |
| SoftClock.Clock.DoStart | early/helpers/swclock.cc:113-211 | In place: the clock is set from the offset, from the timestamp or not at all |
| SoftClock.Clock.DoStop | early/helpers/swclock.cc:213-292 | In place: the timestamp becomes the current time and the offset file is written or gone; when a call on a file fails, the exact state in which the files are left |
| Numbers.NumberOfDecimal | early/helpers/swclock.cc:155-174 | Every 64-bit number but 0 survives printing and reading with `fgets` and `strtoull`, with or without a newline |
| Numbers.JunkIsRefused | early/helpers/swclock.cc:155-174 | A number with anything but a newline after it is not read |

## Left out

Conventions of the model:

- Calls into the kernel and into libraries (files, sockets, poll, udev, dinit, glob, mktime, sorting)
  are steps or parameters with the outcomes they may have. Replies of dinit come once, in any order,
  under new handles; a failed load leaves no device handle; after an abort nothing more is said.
- Integers are unbounded where the program cannot overflow; the hash works on 32-bit words, its
  counter, the saved clock offset and `strtoull` wrap or saturate as the program does.
- Mount flags are sets of named bits, with all other bits kept apart; a set that was moved from is
  taken to be empty.
- The keys of `map_mac` change while they are in the table. Whether a lookup still compares their old
  hash (`DeviceIndex.HASHED`) depends on the library, and the results hold either way; of two keys that
  read alike the one filed later is found.
- Power failure: directory changes reach the disk in order, any prefix may survive until the directory
  is synced; an unsynced file may come back with any content it had since its last sync.

Not modelled, or stated for less than the program:

- SoftClock.StopInOneGo: the offset is written in one call, whole or not at all.
- SoftClock.StartContinuesTime: sums of times stay below 2^63, as the guarantee itself presumes; local-time clocks go through an unknown conversion, whose result is given (`SoftClock.LocaltimeIsConverted`, `SoftClock.StartNeverGoesBack`).
- MonitorRuns.AnswerIsScan: queries by hardware address are in `MonitorAddresses`, under their own condition.
- MonitorClients.NameClientsUpToDate: there is no such statement for a name whose device is gone, because it is false of the program; `MonitorClients.RemovalToldByNameIff` says what such clients were told.
- MonitorClients.PathClientsUpToDate: supposes that a key of `map_sys` is never a USB id at one time and a system path at another.
- MonitorClients.UnusedNameIsSilent: supposes, as `MonitorClients.NameClientsUpToDate` does, that live devices never share a name.
- MonitorAddresses.AddressAnswerIsScan: the query for the empty string, which stands for no address, is not covered.
- MonitorAddresses.RightAfterAddIff: a string that outgrows its buffer moves, and leaves views of freed memory behind; what is found under these is not described.
- MonitorEvents.EntriesFollowEvents: supposes that ids of USB devices are not system paths and that no other device is removed under the number of a USB device; USB entries are in `UsbDevices`.
- UsbDevices.UsbEntriesFollowDevices: supposes that present devices have distinct non-zero numbers which no other subsystem uses, and that ids are not system paths.
- SysctlLoader.LastLineDecides: every parameter can be written; errors of single writes only change the exit status.
- SysctlLoader.Loader.LoadConf: the line is parsed by a function instead of being cut in place, and its value is copied with what the buffer holds after it into a buffer of its own; what that is comes from earlier lines and is given.
- SysctlBuffer.NthIsValueIff: nothing is said about what lies past the buffer, as nothing can be.
- CmdlineScanner.ScanCmdline: the line holds no NUL, as the kernel guarantees.
- MountOptions.ParseMntopts: `strsep` hands out pieces instead of writing NULs into the option string.
- SeedRun.SeedDirectory.Run: the lock and the creation of the directory have succeeded, and a seed is represented by the run that wrote it; its bytes are in `SeedHash`.
- DeviceObject.Device.SubsvcLoaded: waking a service and closing handles are left out, since their replies change nothing here but may give up the connection.
- MonitorObject.Monitor.AddDevice: devices are values in `map_sys`, as in the program, and pointers to them are their keys; the keys of `map_dev` and `map_netif` are values (`MonitorRuns.NameKeysNeverChange` is why they may be), those of `map_mac` are views; the bytes that clients are sent are recorded by addressee, their failures are in `PollTable`.
- PollTable.Poll.ServeClient: the handshake is one outcome, more or bad, since the order of slots and records does not depend on it; that a reply may follow a partial name is not described.
- Also left out: `hwclock.cc`, `lo.cc`, `swap.cc`, `binfmt.cc`, `devclient.cc`, the shell scripts and service files, loading the modules found by kmod.cc, the seed length, and printing of messages.

# Verified models of KeyOS components

Models, in Dafny 4.11, of the parts of the KeyOS repository whose correctness is hardest to see, and proofs of what they promise.
Check everything with `dafny verify dfyconfig.toml --resource-limit 2000000 --warn-contradictory-assumptions`.
Code that works by changing state is modelled with classes, arrays and loops; each such method is tied to a specification about which the theorems are then proved.

**Boot loader** (`Layout`, `Armv7`, `PageTables`, `Tracker`, `RamPages`, `Boot`, `KernelImage`, `Ranges`, `Loader`, `BootSequence`, `HandOffView`, `Device`).
RAM is one array of 32-bit words that holds the translation tables, the kernel image, the stacks and the page tracker.
`Armv7` encodes descriptors as the loader does and decodes them as the hardware does, by the short-descriptor format of section B3.5 of ARM DDI 0406C, with the memory types that loader/src/asm.S sets up when it starts the kernel.
`Boot` keeps an abstract map from virtual pages and sections to frames, and proves that walking the tables is looking up that map.
`BootSequence.RustEntry` is the whole sequence: what is mapped, what is owned, what the kernel finds at its addresses, and that no memory below the final top is touched.
`HandOffView` reads the finished tables address by address.

**Watch channel** (`AsyncWatch`, `WatchRuns`).
A state machine with one step per atomic access, lock operation, listener registration and notification, and a program counter for every receiver handle and every call on the sender.
A run is any list of enabled steps, including dropping a future at its await.
`AsyncWatch` proves what every step keeps, `WatchRuns` what follows for all runs.

**Replacing release assets** (`Assets`, `DocsPublish`, `ReplaceFiles`).
A release is a map from asset ids to unique names; each request takes effect or not, and is answered either way, by free choice.
The logs of deletions, of refused renames and of failed requests are part of the state, so the theorems speak about every moment of a run.

**Server messages** (`Buffers`, `Scalars`, `ServerLoop`).
Ownership of pages over move, blocking move and reply; the single answer of a blocking scalar request; the table of dynamic reply handlers.

**Arithmetic and closure** (`Gmtime`, `Cmac`, `CrateDeps`, `TreeHash`, `TreeWalk`, `TreeArchive`, `BootImage`, `AppArchive`).
The date algorithm against a calendar counted year by year; CMAC over hexadecimal strings against NIST SP 800-38B for an arbitrary block function; the dependency closure; the hashed byte stream of a file tree, from a directory and from an archive; the predicted image of the bootloader and what the signing tool writes; the size bound of an app archive.

What the proofs found, where code and comments differ or a promise has a limit:

- A user read-only section gets no user access at all: its AP bits are 0b101 (`Armv7.SectionDecodes`).
- `allocate_page_tracker` marks as many pages at the very top of RAM, where the splash image is, as the tracker takes; the tracker's own pages are marked only when they are mapped. Both are owned at hand-off (`BootSequence.RustEntry`).
- A lag of exactly a multiple of 2^31 sends looks like none, so a receiver can wait on a stale value or miss the last one (`WatchRuns.WrapHidesSends` and `WatchRuns.WaitParksOnStaleValue`; the exact conditions are in `NoLostWakeup`, `WaitsOnRefusedValue` and `LastValueSeen`).
- The checks on the program description add with 32 bits, so data above all stacks that goes round the end of the address space passes them and is mapped (`Loader.KernelFitsExactly`).
- The rollback goes on after a back-rename that took no effect, so the next one can ask for a taken name (`DocsPublish.RollbackCanBeRefused`; exactly when is in `Assets.BackRenameRefused`).
- A message id of 128 passes the explicit check of the lookup table and panics at the index (`ServerLoop.OneTooLarge`; exactly when is in `ServerLoop.FillLut`).
- Archive names such as `a/b` and `a//b` compare alike but are different names, so the hash then depends on the order of the archive (`TreeArchive.OrderMattersExactly`).
- The signing tool pads with random bytes although the build's comment says zeros; the prediction holds because the device clears them. An entropy slot that lies over the size vector breaks the prediction if and only if it covers a size byte other than zero; the slot at 23, and below 64 KiB the one at 22, does not (`BootImage.PredictionMatches`).
- CMAC is that of the standard also for an odd number of digits, unless exactly one digit is missing in the last block. Then the padding takes one digit too many: a block that does not start with a zero is refused, and any other is enciphered as a different block unless it is all zeros (`Cmac.ToolBlockIs`).
- With names of more than 511 bytes the size estimate of an app archive can be too small, so a bundle can be accepted and then be cut by the decoder's bound (`AppArchive.CoveredExactly`, `AppArchive.AcceptedButCut`).
- The handlers' sends without `try` panic when the message is not sent; nothing else in the loop does (`ServerLoop.ServerContext.Dispatch`).

Preconditions carried by the boot loader: memory regions are whole pages, sizes in the kernel description are multiples of four, the kernel source lies below where it is copied to, and no page is mapped into a group of four first-level entries that holds a section.

## Model

| member | source | states |
|---|---|---|
| Layout.ViewsAreInverse | keyos/src/lib.rs:143-147 | the plaintext and the encrypted view of a DRAM address convert into each other and keep the offset into DRAM |
| Layout.ConstantsAgree | loader/src/bootconfig.rs:33-35 | the splash image ends where RAM ends in either view, as is asserted when the loader is compiled |
| Armv7.PageTableDescriptorDecodes | loader/src/boot.rs:191-200 | a first-level descriptor written for a second-level table reads back as a table at exactly that address |
| Armv7.SmallPageDecodes | loader/src/boot.rs:229-282 | the small-page entry written for any combination of flags reads back as the frame, exactly the requested data access, kind of memory and execute permission, and as global or not; without the valid flag it stays invalid |
| Armv7.SectionDecodes | loader/src/boot.rs:316-367 | the section entry reads back as its 1 MiB frame, the requested kind of memory, and as global or not; its data access is the requested one if and only if the request is not a user read-only one |
| Armv7.UserReadOnlySectionIsNotReadable | loader/src/boot.rs:330-346 | the flags of a user read-only section give unprivileged code no read access |
| PageTables.WalkIsLookup | loader/src/boot.rs:141-368 | at every virtual address, the two-level hardware walk over RAM gives what the abstract map of pages and sections says, and exactly the kernel half of the address space is global |
| PageTables.TablesSetPage | loader/src/boot.rs:276-282 | writing a second-level entry changes the translation of its own virtual page and of no other |
| PageTables.TablesAddGroup | loader/src/boot.rs:178-202 | backing four first-level entries with one zeroed page of tables changes no translation |
| PageTables.TablesAddSection | loader/src/boot.rs:360-367 | writing a section into an invalid entry of a group without tables adds that section and nothing else |
| PageTables.TablesFrame | loader/src/boot.rs:48-63 | writes outside the pages that hold tables leave every translation as it is |
| PageTables.EmptyTables | loader/src/load.rs:134-142 | four zeroed aligned pages are a first-level table that maps nothing |
| PageTables.StorePages | loader/src/boot.rs:276-282 | a store changes its own word of its own page and no other page |
| Tracker.EntryInBounds | loader/src/boot.rs:111-133 | with whole-page regions the tracker entry of every defined address lies inside the tracker |
| Tracker.EntryOfInjective | loader/src/boot.rs:111-133 | two defined addresses share a tracker entry if and only if they lie in the same page, both views of DRAM counting as one |
| Tracker.SetEntryTracks | loader/src/boot.rs:116-119 | marking one byte of the tracker adds exactly that page to the owned ones and touches no page outside the tracker |
| Tracker.SetByteBytes | loader/src/main.rs:148-154 | a byte write into a word keeps the other three bytes |
| Boot.BootConfig.constructor | loader/src/bootconfig.rs:31-44 | nothing is allocated or mapped, and the splash image is set aside |
| Boot.BootConfig.Bzero | loader/src/main.rs:190-202 | exactly the words of the range become zero |
| Boot.BootConfig.Memcpy | loader/src/main.rs:172-188 | exactly the destination words become the source words; either view of DRAM may name the source |
| Boot.BootConfig.Alloc | loader/src/boot.rs:48-63 | succeeds if and only if more than one page is left; returns the next page down, zeroed and owned, and changes no other page |
| Boot.BootConfig.SetTracker | loader/src/boot.rs:57 | succeeds if and only if the index is inside the tracker; then exactly that page is added to the owned ones |
| Boot.BootConfig.MarkAsOwned | loader/src/boot.rs:111-133 | succeeds if and only if the address is in defined memory; then exactly its page is added to the owned ones |
| Boot.BootConfig.AllocRun | loader/src/boot.rs:88-95 | hands out consecutive zeroed owned pages downwards |
| Boot.BootConfig.AllocL1PageTable | loader/src/boot.rs:68-109 | from every starting top the aligned page turns up within four tries; the result is 16 KiB aligned and covers four contiguous zeroed owned pages handed out by this call; exactly as many more are wasted as the top was past a multiple of four pages, and it succeeds if and only if that many are left |
| Boot.BootConfig.AddGroup | loader/src/boot.rs:178-202 | a group without tables gets one fresh page for its four tables, and no translation changes |
| Boot.BootConfig.EnsureTables | loader/src/boot.rs:178-202 | after it the group of the address has tables unless a section is in the way; it fails exactly when it must allocate and cannot |
| Boot.BootConfig.FindEntry2 | loader/src/boot.rs:206-215 | the entry reached through the first level is the one of the virtual page in its group's table page |
| Boot.BootConfig.SetEntry2 | loader/src/boot.rs:215-282 | refused if and only if the virtual page is mapped already; otherwise a single insertion |
| Boot.BootConfig.MapPage | loader/src/boot.rs:141-288 | a single insertion into the map from virtual pages to frames, with the exact condition under which it panics, the pages it owns afterwards, one page of tables exactly if the group had none, and no other page changed but tables |
| Boot.BootConfig.MapSection | loader/src/boot.rs:290-368 | a single insertion into the map of sections, with the exact condition under which it panics |
| Boot.BootConfig.TablesBelowImage | loader/src/boot.rs:48-63 | table writes cannot reach the kernel image above the tables |
| KernelImage.CopyLoads | loader/src/load.rs:49-81 | copying and then clearing the rest of the pages leaves source words followed by zeros, and no other page changed |
| KernelImage.CopySegment | loader/src/load.rs:49-81 | reserves the pages of a segment and fills them with its bytes and zeros |
| KernelImage.Copy | loader/src/load.rs:49-114 | text and data lie at the top of free RAM, each padded with zeros to whole pages, exactly as in the source |
| KernelImage.SourceAddresses | loader/src/load.rs:58-92 | the two source pointers, computed in words and once with a detour over plus four and minus one, point at text and at the data right behind it |
| Ranges.RangeMapStep | loader/src/load.rs:198-212 | a further page of a run, computed with wrapping addresses, is a single insertion at its page number |
| Ranges.FreeMappable | loader/src/load.rs:198-230 | a run can be mapped if and only if its pages are free, its frames tracked, and it is not both writable and executable |
| Ranges.MapRange | loader/src/load.rs:198-230 | maps exactly the run, page by page; it goes through only if every page can be mapped, and then whenever memory is left beyond the tables of a set of groups that contains the run's; it uses up exactly those tables |
| Ranges.MapDram | loader/src/boot.rs:371-378 | a run of DRAM pages, named in either view, is mapped and owned |
| Ranges.AllocateStack | loader/src/load.rs:236-264 | the stack is one contiguous fresh zeroed physical run, mapped so that virtual and physical addresses ascend together |
| Ranges.AllocStackPages | loader/src/load.rs:244-251 | the pages of a stack are consecutive, and the one remembered is the highest |
| Ranges.MapFresh | loader/src/boot.rs:389-390 | one fresh page, zeroed, owned and mapped |
| Ranges.ClearRange | loader/src/boot.rs:219-226 | mapping a run, also one that goes round the end of the address space, leaves every run that does not overlap it free |
| Loader.CountPages | loader/src/main.rs:126-132 | the pages of RAM plus those of all other regions |
| Loader.SizeTracker | loader/src/main.rs:126-139 | the tracker has at least one byte per page, in whole words, and takes whole pages with less than a page to spare |
| Loader.ClearedTracks | loader/src/main.rs:141-149 | a cleared tracker marks nothing |
| Loader.AllocatePageTracker | loader/src/main.rs:125-155 | the tracker lies right below the splash image, and marks exactly as many pages at the very top of RAM as it takes itself |
| Loader.InstallTable | loader/src/load.rs:134-142 | the new first-level table is aligned, maps nothing, and lies below everything allocated before |
| Loader.MapThread | loader/src/load.rs:143-164 | thread context and first stack are mapped and owned |
| Loader.MapStacks | loader/src/load.rs:143-178 | thread context and three stacks are mapped, none on top of another, and lie in RAM one below the other |
| Loader.MapImage | loader/src/load.rs:180-230 | the copied text becomes executable and read-only, data and bss writable, at the addresses of the program description; it goes through only if both runs are free, and then whenever memory is left beyond the tables |
| Loader.KernelFitsExactly | loader/src/load.rs:127-230 | text and data are free beside the stacks if and only if the text ends below the first stack and the data lies behind it and below that stack, or between that stack and the next, or above all stacks, also round the end of the address space |
| Loader.MapKernel | loader/src/load.rs:117-234 | the map holds exactly the stacks, text and data; all pages down to the new top are owned; it goes through only for a kernel that lies where it may, and then whenever first-level table, stacks and tables fit; it leaves exactly the difference |
| BootSequence.MapPeripherals | loader/src/boot.rs:404-427 | every listed device window is mapped and owned, whatever the list; it goes through only over tracked frames, and separate free windows over tracked frames always go through |
| BootSequence.MapIcmDesc | loader/src/boot.rs:386-397 | the page for the integrity monitor holds start and size of the kernel text |
| BootSequence.MapIcmRegions | loader/src/boot.rs:386-401 | two fresh pages are mapped, the second without caching, and the first still holds the text range |
| BootSequence.MapPhysicalRam | loader/src/boot.rs:429-442 | every byte of the window walks to the byte of RAM at the same distance from the start, for the kernel only and not executable; it goes through whenever the window is free |
| BootSequence.WindowIsShown | loader/src/boot.rs:429-442 | for every offset into RAM the walk at that offset of the window gives the encrypted view of RAM at that offset, readable and writable for the kernel only, whatever pages are mapped beside it |
| BootSequence.MapTrackerAndArgs | loader/src/boot.rs:371-384 | tracker and arguments are mapped and owned |
| BootSequence.MapFixedPages | loader/src/main.rs:81-84 | everything between kernel and RAM window is mapped, and no earlier mapping is lost |
| BootSequence.MapLast | loader/src/main.rs:85-100 | RAM window, splash image and the loader's own page are mapped on top of what there was |
| BootSequence.KernelVisible | loader/src/load.rs:49-234 | reading through the tables gives, byte by byte, the image's text, its data, and zeros for bss; text is executable and not writable, data writable and not executable |
| BootSequence.MapDevices | loader/src/boot.rs:386-427 | device windows and the two pages of the integrity monitor are mapped and owned, and the first of these holds the text range |
| BootSequence.ArgVisible | loader/src/boot.rs:379-384 | every byte of the arguments, given in either view of RAM, reads through the tables as the loader found it, for the kernel only and not writable |
| BootSequence.LoadKernel | loader/src/main.rs:67-78 | tracker, copy and map together: the image is intact below the tracker and is mapped |
| BootSequence.KernelLeavesRoom | loader/src/load.rs:127-132 | a kernel below its stacks leaves room for everything that is mapped later |
| BootSequence.BootMapGroups | loader/src/boot.rs:178-202 | the groups that are counted for second-level tables are exactly those in which the finished map has pages |
| BootSequence.HandedOver | loader/src/main.rs:53-107 | memory that was kept on the way is found at the hand-off: image, arguments, and all below the top |
| BootSequence.RustEntry | loader/src/main.rs:53-107 | in every run without panic the tables hold exactly the listed mappings; every offset of the RAM window walks to that offset of RAM; the tracker owns exactly the RAM pages from the final top to the end of RAM, the argument pages, the loader page and the device pages; the kernel reads as its image, and the integrity monitor page holds its text range; arguments that start with a page and end below the final top read as they were; no memory below the final top is touched; the run goes through if and only if the kernel lies where it may, argument and device frames are tracked, and memory holds image, first-level table, 31 pages and one page of tables for each group |
| HandOffView.BootShown | loader/src/main.rs:53-107 | walking the finished tables, thread context and stacks lead to pages of their own, every device window to its device, the tracker to the tracker, the screen to the splash image, also for users, and the loader page to itself, each with the access and the kind of memory it is meant to have |
| HandOffView.BootSharesNothing | loader/src/main.rs:53-107 | arguments aside, no page of RAM is mapped at two addresses, and no page that holds tables is mapped at all |
| HandOffView.BootOwnsMapped | loader/src/main.rs:53-107 | every page that is mapped, arguments and devices included, is marked as owned if the tracker has an entry for it |
| Device.RegionsAreWholePages | utralib/src/generated/atsama5d27.rs:20376-20390 | every memory region of the device is whole pages |
| Device.TrackerOnDevice | utralib/src/generated/atsama5d27.rs:20376-20390 | the regions outside RAM take 553 entries of the tracker, for 551 pages since two of them lie inside another, and the tracker takes nine pages |
| Device.DevicesTracked | loader/src/boot.rs:407-418 | every device page that the loader maps has a tracker entry |
| Device.ArgsTracked | loader/src/boot.rs:111-133 | arguments that start in RAM have tracked frames if and only if they end in the view of RAM in which they start |
| Device.TablesOfBoot | loader/src/boot.rs:178-202 | a boot needs second-level tables for five groups, for those of the arguments, and for those of data that goes round the end of the address space |
| Device.BootsOnDevice | loader/src/main.rs:53-107 | on the device a boot fits if and only if the kernel lies where it may, the arguments stay in RAM, and the 32383 pages below tracker and splash image hold the image, 40 pages with alignment, and the tables of the arguments and of data that goes round |
| Device.BootDevice | loader/src/main.rs:53-107 | from the constructor to the hand-off on the regions of the device: the exact condition under which the boot goes through, and then, by walking the tables, what is at every address: RAM window, stacks, devices, tracker, screen, kernel and arguments; no page of RAM is mapped twice and no table at all, and everything mapped is owned |
| AsyncWatch.WordParts | worker/src/async_watch.rs:89-93 | version and closed flag are read back from the word that holds both |
| AsyncWatch.SameVersion | worker/src/async_watch.rs:100 | two published values have one version if and only if they are a multiple of 2^31 sends apart |
| AsyncWatch.StepHolds | worker/src/async_watch.rs:105-226 | every step of every process keeps lock exclusion, the handle count, no lost wakeup, and each receiver's history |
| AsyncWatch.InitiallyHolds | worker/src/async_watch.rs:105-119 | a new channel satisfies all of it |
| AsyncWatch.StepWords | worker/src/async_watch.rs:100-102 | the state word always stands for the number of published values and the closed flag |
| AsyncWatch.StepReceiversAwake | worker/src/async_watch.rs:134-168 | every step keeps that a parked, un-notified receiver is up to date with an open channel, or a notification is on its way |
| AsyncWatch.StepClosersAwake | worker/src/async_watch.rs:177-217 | the same for calls of closed and the receiver count |
| AsyncWatch.ReaderSees | worker/src/async_watch.rs:127-132 | under a read lock the value is the latest one published |
| AsyncWatch.ReaderHoldsOff | worker/src/async_watch.rs:191-195 | nothing is published while a read lock is held |
| WatchRuns.NoLostWakeup | worker/src/async_watch.rs:134-168 | in every interleaving a receiver that waits un-notified has the current version of an open channel unless a sender is between state update and notify; that is the latest value if and only if it lags by less than 2^31 sends |
| WatchRuns.NoLostClose | worker/src/async_watch.rs:177-217 | in every interleaving a call of closed that waits un-notified still has a receiver unless the last one is about to notify |
| WatchRuns.DropSettled | worker/src/async_watch.rs:170-188 | in every run in which the last receiver has notified, no receiver is left, nobody owes a notification any more, and no call of closed waits un-notified |
| WatchRuns.CountIsTrue | worker/src/async_watch.rs:170-188 | the count is zero if and only if no receiver is left |
| WatchRuns.NoneComesBack | worker/src/async_watch.rs:170-175 | once no receiver is left none comes back |
| WatchRuns.ReceivedInOrder | worker/src/async_watch.rs:134-152 | each receiver reports a strictly increasing subsequence of the values that calls of send were given, in the order of their increments, each with its own value, at any lag |
| WatchRuns.LastValueSeen | worker/src/async_watch.rs:154-168 | an error is reported only on a closed channel; the last value was seen before it if and only if the lag is below 2^31 sends |
| WatchRuns.ClosedIsFinal | worker/src/async_watch.rs:219-226 | a closed channel publishes nothing more |
| WatchRuns.RecvMarksItsValue | worker/src/async_watch.rs:147-152 | recv returns the argument of the latest send that was published, and leaves it marked as seen |
| WatchRuns.PublishedIsSent | worker/src/async_watch.rs:191-195 | in every interleaving the published values are the initial one and then, for each increment, the argument with which that same call of send was started |
| WatchRuns.NewsIsAnswered | worker/src/async_watch.rs:134-168 | in every run a call that is not waiting un-notified while there is a new version, at a lag below 2^31 sends, or the end of the channel, is answered within three of its own steps, whatever the others do: changed reports the version, recv goes to fetch it, a wait asks its predicate again, or the end is reported |
| WatchRuns.DroppedCallConsumesNothing | worker/src/async_watch.rs:134-152 | however long it waited, a dropped call of recv or changed leaves the receiver as it was before the call |
| WatchRuns.WaitsOnRefusedValue | worker/src/watch.rs:52-64 | a wait parks un-notified on an open channel only when its predicate refused a value; it is the current one, although the borrow marks nothing as seen, unless the receiver lags by 2^31 sends or more |
| WatchRuns.WaitParksOnStaleValue | worker/src/watch.rs:52-64 | a run with such a lag in which a wait parks on a refused value that is not the current one |
| WatchRuns.WaitEnds | worker/src/watch.rs:52-64 | a wait returns only when the predicate held on a borrowed value or the sender is gone |
| WatchRuns.LockHolderCanMove | worker/src/async_watch.rs:191-195 | a send that waits for the lock can take it, or its holder can take a step |
| WatchRuns.WrapHidesSends | worker/src/async_watch.rs:154-168 | a run in which 2^31 sends leave a receiver waiting, un-notified, on an equal version |
| WatchRuns.PublisherCanMove | worker/src/async_watch.rs:191-226 | while a notification is pending, the process that owes it can take a step, whatever the others do |
| WatchRuns.Delivered | worker/src/async_watch.rs:191-217 | in every run in which a publishing send takes its one or two remaining steps there is a point at which every receiver that waits, or has registered to wait, has been notified |
| WatchRuns.ClosingDelivered | worker/src/async_watch.rs:219-226 | the same for the next step of a sender that has closed the channel |
| WatchRuns.NotifiedExactly | worker/src/async_watch.rs:154-168 | the flag of a receiver that is registered is set exactly by a notification since it registered: none is lost on the way to waiting, and none is made up |
| WatchRuns.ClosedNotifiedExactly | worker/src/async_watch.rs:177-188 | the same for a call of closed and the notification by the last receiver |
| WatchRuns.ClosedReturns | worker/src/async_watch.rs:177-188 | once no receiver is left, closed returns within two of its own steps unless it waits un-notified |
| WatchRuns.ClosedIsWoken | worker/src/async_watch.rs:170-188 | and if it does wait un-notified, the last receiver dropped can notify it, and that wakes it |
| WatchRuns.SendRefused | worker/src/async_watch.rs:191-217 | a send without receivers publishes nothing and is over with its first step |
| Assets.PlanKeeps | xtask/src/docs_publish.rs:554-574 | carrying out any part of a plan keeps names unique and assets present |
| Assets.PlanStep | xtask/src/docs_publish.rs:229-243 | every rename of a plan asks for a free name when it is its turn, forward and backward |
| Assets.BackRenameRefused | xtask/src/docs_publish.rs:247-252 | a back-rename asks for a taken name if and only if another asset was left under the very name that is to be restored |
| Assets.OutcomeBetween | xtask/src/docs_publish.rs:413-422 | a request that took effect or not, and was answered either way, leaves every asset under its old or its new name |
| Assets.Release.Rename | xtask/src/docs_publish.rs:409-411 | succeeds, fails without effect, or takes effect and reports failure; a taken name is refused |
| Assets.Release.Upload | xtask/src/docs_publish.rs:302-312 | adds the asset or not, and may report failure either way; a taken name is never uploaded to |
| DocsPublish.RenameChecked | xtask/src/docs_publish.rs:413-422 | success means that the name is in place, whatever the request reported |
| DocsPublish.ApplyRenames | xtask/src/docs_publish.rs:229-261 | under arbitrary faults: applied means the whole plan and verified final names, rolled back means the original names, and no rename asks for a taken name unless a back-rename before it took no effect; without a fault it is applied, and it gets stuck only after two |
| DocsPublish.CarryOut | xtask/src/docs_publish.rs:235-243 | the renames of the plan in order until one fails, and one fails only by a fault of a request |
| DocsPublish.RollBack | xtask/src/docs_publish.rs:246-252 | undoing newest first, going on after failures, a reported success has restored the original names |
| DocsPublish.UndoOne | xtask/src/docs_publish.rs:247-252 | as long as every undoing took effect the next one is not refused |
| DocsPublish.RollbackCanBeRefused | xtask/src/docs_publish.rs:247-252 | an input on which the rollback asks for a taken name, because it goes on after a back-rename that failed |
| ReplaceFiles.RetryAssetLookup | xtask/src/docs_publish.rs:155-183 | an id found belongs to the name, and absence means that no asset has it |
| ReplaceFiles.DeleteByName | xtask/src/docs_publish.rs:382-407 | success means that no asset has the name, and only assets of that name are gone |
| ReplaceFiles.CleanupStagedAssets | xtask/src/docs_publish.rs:612-636 | only assets of the staged names are deleted, and success means that none is left |
| ReplaceFiles.UploadTagged | xtask/src/docs_publish.rs:303-312 | only new assets of the given names appear, and success means all of them |
| ReplaceFiles.UploadToDraft | xtask/src/docs_publish.rs:314-330 | an upload that fails half-way deletes new assets only, and all of them when nothing but that upload failed; success gives the id of every file |
| ReplaceFiles.CleanupPartialUpload | xtask/src/docs_publish.rs:202-227 | only assets uploaded by this call are deleted; a reported success leaves none of them, and anything else needs a fault |
| ReplaceFiles.UploadedAssetId | xtask/src/docs_publish.rs:496-512 | the id belongs to the asset that was uploaded |
| ReplaceFiles.MoveOld | xtask/src/docs_publish.rs:554-562 | the listed old assets are planned out of the way, each under a name of its own, and exactly they are remembered |
| ReplaceFiles.MakePlan | xtask/src/docs_publish.rs:554-574 | old assets out of the way, then the staged pair under the final names: no step of it collides |
| ReplaceFiles.Promote | xtask/src/docs_publish.rs:575-592 | swap and deletion under arbitrary faults: old assets go only once the new pair has the final names |
| ReplaceFiles.DeleteOld | xtask/src/docs_publish.rs:588-592 | only the old pair is deleted, and only while the new pair has the final names |
| ReplaceFiles.Abandon | xtask/src/docs_publish.rs:597-601 | cleaning up after a failure leaves every old asset under its own name, and a reported success leaves nothing else |
| ReplaceFiles.InterruptedKeepsOld | xtask/src/docs_publish.rs:597-601 | whatever part of the plan was carried out, cleaning up staged assets touches no old one |
| ReplaceFiles.ReplaceFiles | xtask/src/docs_publish.rs:514-609 | in every run under arbitrary faults no old asset is deleted before both new ones have the final names, no other asset is touched, a rollback that reports success has restored every name, and no rename asks for a taken name unless a back-rename took no effect; without a fault the files are replaced, and every other result needs faults of its own phase, two or more of them where cleaning up failed as well |
| Buffers.PagesForFits | server/src/buffer.rs:23-27 | a buffer has at least one page, enough pages, and not one too many |
| Buffers.ReplyMove | server/src/buffer.rs:96-134 | the reply is in a buffer of its own size, the moved-in pages it does not cover are freed, exactly once; it succeeds if and only if nothing fails, and a failure changes no ownership |
| Buffers.ReplySplitsBuffer | server/src/buffer.rs:121-132 | kept front and freed tail partition the moved-in range |
| Buffers.Buffer.Drop | server/src/buffer.rs:215-221 | the pages are unmapped if and only if the buffer still owns them, and unmapping cannot fail |
| Buffers.Buffer.Send | server/src/buffer.rs:165-172 | the pages end up with the receiver or, when the kernel refuses, with nobody |
| Buffers.Buffer.Adopt | server/src/buffer.rs:156-162 | the buffer owns what came back and contains its payload, whatever its size |
| Buffers.IntoBuf | server/src/buffer.rs:192-200 | a new buffer of the size of the value that holds it; a failed serialize changes no ownership |
| Buffers.SendArchive | server/src/buffer.rs:165-200 | a moved message is decoded as sent, and goes through if and only if nothing fails; all pages have left their owners exactly once, whatever fails |
| Buffers.BlockingCall | server/src/buffer.rs:96-163 | request and response of any two sizes arrive as they were if and only if no mapping, move or serializing fails, and all pages are back where they were, whatever fails on either side |
| Scalars.AnsweredOnce | server/src/scalar.rs:374-393 | an answer is one reply attempt, and one disconnect exactly for an asynchronous request |
| Scalars.BlockingScalarResponse.Respond | server/src/scalar.rs:110-113 | one answer with the given value, and none when the object goes away afterwards |
| Scalars.BlockingScalarResponse.Drop | server/src/scalar.rs:121-128 | an unanswered request is answered with the value chosen last, or the default |
| Scalars.Live | server/src/scalar.rs:105-128 | whatever the handler chooses and however it ends, an accepted request gets exactly one answer, with the right value |
| Scalars.HandleBlockingScalar | server/src/scalar.rs:205-246 | exactly the well-formed requests over a connection to their own sender are accepted, and each is answered once, with the chosen value: the blocked sender directly, an asynchronous one under its message id over its connection, which is closed then |
| ServerLoop.FillLut | server/src/server.rs:80-92 | the table is filled if and only if all ids fit and none repeats; otherwise the first id that does not fit or repeats decides: above 128 the check panics, at 128 the index, below 128 it was registered twice |
| ServerLoop.OneTooLarge | server/src/server.rs:83-91 | the id 128 gets past the check and panics at the index |
| ServerLoop.SwapRemoveTable | server/src/server.rs:54-57 | removing by swapping takes away exactly the one handler |
| ServerLoop.RetainTable | server/src/checked_conn.rs:443-451 | a cancellation takes away exactly the two handlers it names |
| ServerLoop.ServerContext.Push | server/src/checked_conn.rs:172-198 | a new handler gets an id of its own and displaces none |
| ServerLoop.ServerContext.Perform | server/src/checked_conn.rs:170-198 | the handlers added are exactly one for each request that was sent and two for each accepted subscription, in order and each under a fresh id of its own; it panics exactly when something that must be sent is not |
| ServerLoop.ServerContext.RemoveHandler | server/src/server.rs:54-57 | panics if and only if the id has no handler; otherwise exactly that one is gone |
| ServerLoop.ServerContext.Dispatch | server/src/server.rs:95-111 | a reply reaches its own handler, which alone is gone afterwards; nothing else takes a handler away; whatever the handler that runs sends or subscribes to is registered; it panics if and only if that handler sends with the variant without try and the message is not sent |
| ServerLoop.MainLoop | server/src/server.rs:79-114 | over any queue of messages and any handlers: a panic only where a send without try fails; a handler that was waiting still waits, or was reached by its reply, or was named by a malformed reply or a cancellation; the first well-formed reply to a request sent in the run reaches its handler with that request, and so does every event of a subscription until it is cancelled; only replies that arrived are answered |
| Gmtime.DateIsUnique | apps/app-flux-ethereum/build.rs:263-291 | no two dates of the year-by-year calendar have one day number |
| Gmtime.MarchFirstIs | apps/app-flux-ethereum/build.rs:274-279 | whole years from March to March, in closed form, agree with counting year by year in either direction |
| Gmtime.DayOfMarchYear | apps/app-flux-ethereum/build.rs:276-279 | the division by 365 with its corrections finds the year of the era, and the 366th day exists exactly in leap years |
| Gmtime.CivilDate | apps/app-flux-ethereum/build.rs:280-283 | month and day from the day of the March year name the day that the calendar gives |
| Gmtime.EraDate | apps/app-flux-ethereum/build.rs:274-283 | for every day, negative ones included, year, month and day are the calendar's |
| Gmtime.WeekdayIs | apps/app-flux-ethereum/build.rs:273 | the weekday counted day by day from a Thursday |
| Gmtime.WeekdayField | apps/app-flux-ethereum/build.rs:273 | the truncating remainder, for negative days too, is that weekday |
| Gmtime.YearDay | apps/app-flux-ethereum/build.rs:284-288 | the table of month starts with the leap correction gives the day of the year |
| Gmtime.GmtimeR | apps/app-flux-ethereum/build.rs:263-291 | for every 64-bit time all fields are those of the year-by-year calendar; the year field is right if and only if the year fits an int |
| Gmtime.PosixFormula | apps/app-flux-ethereum/build.rs:263-291 | from 1970 on the fields satisfy the formula for seconds since the Epoch of section 4.16 of POSIX.1-2017 Base Definitions |
| Cmac.IntToHexVal | scripts/secure-sam-ba-cipher-3.7/conversions.py:21-27 | the digits of a number have its value at any padding |
| Cmac.UpperHexLength | scripts/secure-sam-ba-cipher-3.7/conversions.py:21-27 | a number has at most n digits if and only if it is below 16^n |
| Cmac.SameBits | scripts/secure-sam-ba-cipher-3.7/conversions.py:13-19 | a string of digits whose value is that of a bit string of its length is that bit string |
| Cmac.ShiftHex | scripts/secure-sam-ba-cipher-3.7/aes_lib.py:45-48 | shifting the number and dropping a 33rd digit is shifting the bit string |
| Cmac.TopBit | scripts/secure-sam-ba-cipher-3.7/aes_lib.py:49 | the test on the first two digits looks at the first bit |
| Cmac.PaddingBits | scripts/secure-sam-ba-cipher-3.7/aes_lib.py:93-95 | for more than one missing digit the padding number is a one and zeros in exactly the missing digits |
| Cmac.OneDigitMissing | scripts/secure-sam-ba-cipher-3.7/aes_lib.py:92-98 | for one missing digit the padding takes two digits, and the padded number is 256 instead of 16 times that of the digits, plus 8 |
| Cmac.ToolBlockIs | scripts/secure-sam-ba-cipher-3.7/aes_lib.py:84-99 | for every hexadecimal message the block given to the cipher is the standard's if and only if not exactly one digit is missing or the last 31 digits are zeros, and it is whole if and only if it is not one digit short with a first digit other than zero |
| Cmac.OneDigitMissingFails | scripts/secure-sam-ba-cipher-3.7/aes_lib.py:92-99 | for thirty zeros and a one another block is enciphered than the standard's |
| Cmac.OneDigitMissingIsRefused | scripts/secure-sam-ba-cipher-3.7/aes_lib.py:92-99 | for a one and thirty zeros there is no whole block to encipher |
| Cmac.AesPrf.GenSubkeys | scripts/secure-sam-ba-cipher-3.7/aes_lib.py:39-59 | for any block function the subkeys are those of section 6.1 of NIST SP 800-38B, although the second may be stored with fewer digits |
| Cmac.AesPrf.CmacGeneration | scripts/secure-sam-ba-cipher-3.7/aes_lib.py:61-100 | for any block function and any message of hexadecimal digits, the empty one included: fails if and only if the last block is one digit short and starts with another digit than zero; the MAC is that of section 6.2 of NIST SP 800-38B unless exactly one digit is missing and the last block is not all zeros, and for a one-to-one block function only then |
| Cmac.AesPrf.Chained | scripts/secure-sam-ba-cipher-3.7/aes_lib.py:84-90 | the block loop computes the chaining value of all blocks but the last |
| Cmac.AesPrf.Keyed | scripts/secure-sam-ba-cipher-3.7/aes_lib.py:92-98 | the last block, whole or padded, with the subkey for its length and the chaining value |
| Cmac.KeyDerivation.ComputeDerivations | scripts/secure-sam-ba-cipher-3.7/aes_lib.py:160-170 | for any initial value and fixed input the output is the feedback-mode concatenation of MACs over the previous block and the fixed input, with the exact condition under which it fails or departs from the standard's MAC |
| CrateDeps.ServerNameIsStable | xtask/src/builder.rs:1073-1086 | a plain name leads to the server of that name, and however often -api or -server is appended the server stays the same |
| CrateDeps.ServerCrate | xtask/src/builder.rs:1076-1086 | the server computed by the loop is a part of the name, followed in it by nothing but copies of -api and -server and ending in neither, with -server appended |
| CrateDeps.SplitIsBase | xtask/src/builder.rs:1076-1086 | there is one way to take a name apart into a rest that ends in neither suffix and copies of the suffixes |
| CrateDeps.ServerIs | xtask/src/builder.rs:1076-1086 | every name has exactly one server |
| CrateDeps.ClosedHoldsPath | xtask/src/builder.rs:1060-1094 | a set that is closed under dependencies holds everything reachable |
| CrateDeps.Handle | xtask/src/builder.rs:1061-1093 | one dependency is reported, remembered or already known, and the bookkeeping stays sound and complete |
| CrateDeps.Complete | xtask/src/builder.rs:1054-1096 | with an empty worklist the result is exactly what is reachable and wanted |
| CrateDeps.GetCrateOsDeps | xtask/src/builder.rs:1054-1096 | ends on every graph, cycles included; fails if and only if something reachable is no package; otherwise returns, without duplicates, exactly the binary OS crates and API servers that something reachable depends on |
| TreeHash.DecodeStream | xtask/src/docs_api.rs:737-752 | the hashed byte stream decodes into the list of paths and contents |
| TreeHash.StreamIsInjective | xtask/src/docs_api.rs:737-752 | two lists with one stream are one list |
| TreeHash.PathOrder | xtask/src/docs_api.rs:1728 | the component-wise order is a strict total order |
| TreeHash.OrderIsByComponent | xtask/src/docs_api.rs:1728 | a pair of paths that the joined strings would order the other way round |
| TreeHash.JoinSplit | xtask/src/docs_api.rs:728-735 | a name is the join of its parts |
| TreeWalk.CollectPaths | xtask/src/docs_api.rs:1709-1730 | every path below the root exactly once, in order, in whatever order directories list them |
| TreeWalk.HashDirectory | xtask/src/docs_api.rs:737-746 | exactly the files that descending from the root by names leads to are hashed, in path order |
| TreeWalk.ContentsAre | xtask/src/docs_api.rs:1709-1730 | something is found under a path if and only if descending from the root by the names of the path leads to it |
| TreeWalk.ContentsDistinct | xtask/src/docs_api.rs:1709-1730 | where no directory holds a name twice nothing is found twice |
| TreeWalk.OrderedSame | xtask/src/docs_api.rs:1728 | there is one way to put things in order of which no two different ones compare alike |
| TreeWalk.SameStreamSameFiles | xtask/src/docs_api.rs:737-752 | one stream means the same paths and contents |
| TreeWalk.SplitJoin | xtask/src/docs_api.rs:728-735 | parts without slashes come back from their join |
| TreeArchive.SelectNames | xtask/src/docs_publish.rs:833-848 | fails if and only if a file below the prefix has an unclean name; otherwise gives all of them in archive order |
| TreeArchive.ValidStaysInside | xtask/src/docs_publish.rs:833-848 | following an accepted name part by part, from whichever directory, leads to no place outside it |
| TreeArchive.HashArchive | xtask/src/docs_publish.rs:832-872 | accepts exactly archives with files, clean names and no name twice in a row, and hashes names and contents in component order |
| TreeArchive.PlainArchive | xtask/src/docs_publish.rs:849-854 | with plain names it accepts exactly the archives without duplicates, and hashes exactly the files in path order |
| TreeArchive.SameHash | xtask/src/docs_publish.rs:832-872 | a directory and an archive with the same files give the same stream, whatever order either lists them in |
| TreeArchive.ArchivedAlike | xtask/src/docs_publish.rs:832-872 | an archive with everything below a directory, its directories included, in any order and among entries from elsewhere, is accepted and gives the same stream as the directory |
| TreeArchive.OrderMattersExactly | xtask/src/docs_publish.rs:849-854 | the order of an accepted archive is without influence if and only if no two of its names compare alike |
| TreeArchive.DoubledSlash | xtask/src/docs_publish.rs:849-854 | two names that compare alike and are both accepted |
| TreeArchive.SortRun | xtask/src/docs_publish.rs:849 | sorting is stable: names that compare alike stay in their order |
| BootImage.FindMarkers | xtask/src/bootloader.rs:309-314 | all positions of the marker, in order |
| BootImage.SetExtraEntropy | xtask/src/bootloader.rs:308-338 | panics unless there is exactly one marker and the entropy has its length; otherwise replaces exactly the marker |
| BootImage.NormalizeHistorical | xtask/src/bootloader.rs:340-356 | fails unless there is exactly one marker; otherwise exactly it is replaced and no marker is left anywhere, at any image length |
| BootImage.NormalizedHasNoMarker | xtask/src/bootloader.rs:340-356 | the public entropy cannot complete a new marker with the bytes around it |
| BootImage.FitsUpToRawMax | xtask/src/bootloader.rs:22-27 | a raw image fits in SRAM if and only if it is within the limit passed to the build |
| BootImage.OnDeviceImage | xtask/src/bootloader.rs:405-415 | panics if and only if the image does not fit or a slice is out of range; otherwise the predicted image |
| BootImage.ExpectedByte | xtask/src/bootloader.rs:405-415 | the predicted image byte by byte: the size as the processor reads it, the public entropy, the raw image, and zeros behind it |
| BootImage.EntropyDoesNotMatter | xtask/src/bootloader.rs:405-415 | the predicted image does not depend on the entropy that was inserted |
| BootImage.VectorWritten | scripts/secure-sam-ba-cipher-3.7/crypto_common.py:311-316 | for an image of any length cutting the hexadecimal text apart writes the size, least significant byte first, to bytes 20 to 23, or to where a shorter image ends, and changes nothing else |
| BootImage.CipherTool.UpdateSizesVectors | scripts/secure-sam-ba-cipher-3.7/crypto_common.py:291-326 | refused if and only if image and signature exceed the limit; otherwise the sixth vector holds their total size, and the image is encrypted if and only if it is whole AES blocks then |
| BootImage.CipherTool.CipherBootstrap | scripts/secure-sam-ba-cipher-3.7/crypto_common.py:452-465 | fails if and only if the image has at most 16 bytes or is too large; what it writes otherwise has the size that the build predicted, and says so in its sixth vector, whatever it padded with |
| BootImage.CipherTool.SignedOpens | scripts/secure-sam-ba-cipher-3.7/crypto_common.py:452-465 | for a cipher that can be undone, the bundle without its tag decrypts to the plaintext, and the tag is the MAC of the ciphertext |
| BootImage.PredictionMatches | xtask/src/bootloader.rs:358-415 | for every raw image that fits, what the device keeps of the signed image is the prediction if and only if the entropy slot spares the size vector |
| AppArchive.EstimateCovers | app-archive/src/pack.rs:61-77 | the estimate covers the tar stream of entries that it covers one by one, and is above it by at least one byte per entry when names have up to 511 bytes |
| AppArchive.CoveredExactly | app-archive/src/pack.rs:73-76 | an entry takes no more than its share of the estimate if and only if its name has up to 511 bytes, or up to 1023 and the content is whole blocks |
| AppArchive.AcceptedButCut | app-archive/src/pack.rs:46-100 | a bundle that passes the size check and that the decoder's bound cuts short |
| AppArchive.EstimateStream | app-archive/src/pack.rs:66-77 | the saturating sum is the estimate, or the largest 64-bit number |
| AppArchive.OneOrder | app-archive/src/pack.rs:53-55 | two orders of one list of names, duplicates or not, are sorted alike |
| AppArchive.OrderDoesNotMatter | app-archive/src/pack.rs:53-59 | the entry sequence is the same for every ordering of the input list |
| AppArchive.WriteEntries | app-archive/src/pack.rs:109-133 | exactly the entries' records, padded to blocks, and the trailer |
| AppArchive.ReadsBack | imports/tar-rs/src/archive.rs:257-451 | reading block by block gives back all names, of any length, and contents |
| AppArchive.PackBundle | app-archive/src/pack.rs:46-100 | too large if and only if the estimate exceeds the bound; what is packed is the manifest, then every name in order, each with the content of its file; reading the stream gives that back, and entries that the estimate covers one by one are never cut short by the bound of the decoder |

## Left out

- BootSequence.RustEntry: argument parsing, the consistency checks on tags, AESB, TRNG, the serial port, caches and the jump to the kernel are not part of it; arguments are a base and a size.
- Armv7.SectionDecodes: says nothing about execute permission of sections.
- Boot.BootConfig.MapPage: without the valid flag the entry stays invalid and no translation is added, as in the code; no caller does that.
- Boot.BootConfig.Memcpy: overlapping ranges and copies upwards are excluded, as for the non-overlapping copy it stands for.
- KernelImage.Copy: a kernel larger than the memory below the tracker, for which the loader's subtraction underflows, is excluded.
- AsyncWatch.StepHolds: memory orderings weaker than sequential consistency, the inside of the listener list, and poisoned locks.
- AsyncWatch.StepHolds: receiver counts that reach the width of a machine word.
- WatchRuns.WaitEnds: the predicate of a wait is a function of the value; a predicate with state of its own is not modelled.
- `from_stream` and the stream adapters over `recv` of worker/src/watch.rs are not modelled. That it ends rests on `closed` and on a refused send, which are (`WatchRuns.ClosedReturns`, `WatchRuns.ClosedIsWoken`, `WatchRuns.SendRefused`).
- AsyncWatch.StepHolds: a handle is in one call at a time, so two borrow guards held at once through one shared handle are not among the runs.
- ReplaceFiles.ReplaceFiles: other publishers working at the same time, listings that lag behind, the local staging directory and the request transport.
- Buffers.BlockingCall: pages are identified by number, so virtual addresses, lending and the kernel's reservation during the call are not modelled; decoding is the inverse of serializing.
- Scalars.Live: a response object that is leaked instead of dropped.
- ServerLoop.ServerContext.Push: the wrap of the counter of dynamic ids.
- The event and deferred modules of the server, the macros and the permission checks are not modelled.
- TreeWalk.HashDirectory: symbolic links, files that change while they are read, and names that are not text.
- TreeArchive.HashArchive: decoding of the archive and reading in pieces; entries are names with contents.
- TreeHash.StreamIsInjective: about the stream that is hashed, not about collisions of SHA-256.
- CrateDeps.GetCrateOsDeps: the metadata are a given graph; running cargo is left out.
- Cmac.AesPrf.CmacGeneration: AES is an arbitrary function on blocks.
- BootImage.CipherTool.CipherBootstrap: encryption is an arbitrary length-preserving function, with an inverse where the bundle is opened again; the RSA branch and other device classes are left out.
- BootImage.OnDeviceImage: overflow of the size computation beyond the machine word.
- AppArchive.PackBundle: gzip, file-system errors other than a missing file, a file that grows between the size check and the packing, and names that the tar writer refuses.
- AppArchive.ReadsBack: the fields of a tar header; that a reader understands the headers that were written is its precondition.
- The rest of the repository: user interface, register accessors, rendering of documentation, image headers and hash policy have no comparable property.

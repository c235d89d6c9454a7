# isoboot: verified models

isoboot serves network-boot trees to machines. This project models, in Dafny, the parts of it
whose behaviour is hardest to see from the code, and proves what they are relied on for.

1. **The RTL8168 network card** (`test/qemu/rtl8168.c`): a register-level device with a firmware
   gate, transmit and receive descriptor rings in guest memory, a level-triggered interrupt line
   and two indirect windows onto the PHY registers. `Nic.dfy` holds the device as a state machine
   on values, `Rtl8168.dfy` the same device as one object updated in place, every method proved
   equal to the state-machine function. `GuestView` says a second time, by offsets and bit weights, what
   a driver reads in its rings. `Rings`, `TxRing`, `TxRuns`, `RxRing`, `FirmwareGate`, `PhyWindow` and
   `Registers` prove properties of single operations, single passes and whole runs.
2. **The artifact and boot-directory pipeline** (`internal/controller`): downloads are verified and
   installed by rename, then assembled into a served tree by links, concatenation or extraction
   from an ISO image, with modification times deciding what may be skipped. A disk is a map from
   paths to files, links and directories, with a clock and a log of every tree it ever showed. An
   oracle (`FileOps.World`) decides which operation fails, how many bytes a failing copy wrote, how
   long each operation takes, which temporary names are drawn and what time a directory shows;
   statements for all oracles are statements for every error at every step, and statements about the
   log are statements about every crash point. `Volume` is the disk as an object; the procedures on it are proved equal to
   the functions that specify them.
3. **The status protocols** (`internal/httpd/provision.go`, `provision_controller.go`, and the
   status updates of `bootartifact_controller.go`): any number of handlers read possibly stale
   versions, check, and write by compare-and-swap, while specifications are edited in between.
   Every statement is about every interleaving.
4. **The read side** (`internal/httpd/boot.go`, `internal/urlutil/urlutil.go`): the paths handed to
   a booting machine, and that they lead, links followed, to the bytes the specification names.

`dafny verify dfyconfig.toml` checks everything.

## What the code does not guarantee

Each of these is proved with its exact condition; the code is modelled as it is.

- **URL changed during a download.** The file path is computed before the object is read again, the
  digest is taken from the object read again. If the file name changes in between, Ready is
  committed for a specification whose file may not exist (`InstallSafety.ReadyServedIff`,
  `InstallSafety.UrlChangeLeavesReadyWithoutFile`).
- **A download that straddles a build.** A file renamed into place keeps the time its bytes were
  written, so an artifact downloaded before a build and installed after it looks older than the build
  and is missed (`StaleCache.StraddlingDownloadSeenIff`). The code's own order makes this narrow: a bad
  file is removed and the phase leaves Ready before the download starts, so a build can come in between
  only when that removal fails while an old Ready is still believed, or when it had opened its sources
  already. `StaleCache.StraddlingDownloadServedStale` is a run of the first kind, taken from the
  artifact reconcile's own log.
- **An artifact put in place with an older time.** A re-installed initrd, firmware or image is picked
  up exactly when its time is no earlier than the output's (for an image: than one of the two outputs'),
  or when it makes no difference (`StaleCache.InstallSeenIff`, `StaleCache.ImageSeenIff`,
  `StaleCache.ImageMissedOccurs`).
- **An image called `vmlinuz` or `initrd`.** The link to the image then takes the place of what was
  extracted, and the pair is extracted again on every reconcile. Exactly when each entry is served, for
  images of any name and from every state a run reaches: `IsoCache.KernelServedIff`,
  `IsoCache.InitrdServedIff`, `CacheRuns.PairServedIff`; that it does happen, with success reported:
  `Availability.VmlinuzHidesKernel`, `Availability.InitrdHidesInitrd`, `Availability.ClashOccurs`; that
  it never settles: `IsoCache.ClashNeverSettles`.
- **The failure counter is an int32.** After 2^31 failures in a row it turns negative and the shift
  that computes the delay panics (`FailureStreak.CountIsStreak`, `FailureStreak.NextFailurePanicsIff`,
  `FailureStreak.StreakReached`). At 320 seconds each that takes over twenty thousand years.
- **Device reset and the interrupt line.** `rtl8168_reset` clears cause and mask without recomputing
  the line: taken by itself it leaves a line that was high as it was (`FirmwareGate.ResetLine`,
  `FirmwareGate.ResetCanStrandLine`). Whether the bus lowers the line around a reset is decided
  outside that function and not part of this model.
- **Time says nothing about origin.** A skipped concatenation is right exactly when the newer-looking
  file already held the right bytes (`StaleCache.ConcatFreshIff`); the run theorems therefore fix the
  references, URLs and in-image paths and let the two kinds of reconcile take turns.

Where documentation and code disagree the code is followed: `README.md:22` speaks of
`no-firmware/` and `with-firmware/` directories that no code makes (one `initrd/` directory is used,
with or without firmware), and the header of `test/qemu/rtl8168.c` says the link drops while the
gate is closed although the PHY status register always reports it up.

## Model

| member | source | states |
|---|---|---|
| TxRing.TransmitFollowsRing | test/qemu/rtl8168.c:202-251 | one transmit pass serves the one full walk of the ring: from tx_cur on, to slot 0 after a slot whose first word has bit 30 set and otherwise to the next mod 256, each slot once while bit 31 is set, at most 256 of them; tx_cur ends where the walk ends, at a slot not given to the device, so the 256-step bound never cuts work off |
| TxRing.TransmitServesTheWalk | test/qemu/rtl8168.c:202-251 | the whole pass from the driver's memory, offsets and bit weights alone: enabled by bit 2 of the command, gate and base, it sends what was queued along the walk, leaves bit 30 of each served first word and no other bit, ends tx_cur behind the last slot and adds cause 0x0004 |
| TxRing.TransmitDisabled | test/qemu/rtl8168.c:204-206 | with the command bit clear, the gate closed or no ring base it changes nothing |
| GuestView.OneFullWalk | test/qemu/rtl8168.c:208-248 | memory determines that walk: two walks by the same rules from the same slot are equal |
| GuestView.PathView | test/qemu/rtl8168.c:208-248 | the uncounted recursive walk is that walk, and ends at each point where the rules say |
| TxRing.LoopFollowsPath | test/qemu/rtl8168.c:208-248 | the loop, entered anywhere with enough steps left, finishes the walk: the simulation that links the counted loop to the uncounted walk |
| Rings.Pigeonhole | test/qemu/rtl8168.c:208-213 | distinct slots number at most 256, and 256 of them are all the slots there are |
| TxRing.TransmitTouchesOnlyServedOpts1 | test/qemu/rtl8168.c:236-246 | the first word of a served slot becomes 0x40000000 if bit 30 was set and 0 if not, other slots keep theirs, and every byte outside the served words is as before |
| TxRing.TransmitSendsQueued | test/qemu/rtl8168.c:224-234 | with buffers off the ring, the frames sent are the ones the guest queued: the low 14 bits of each first word as length, sent when 1 to 9000, at the address whose halves stand at offsets 8 and 12, in walk order, bytes as they were before the pass |
| TxRuns.NoSlotServedTwice | test/qemu/rtl8168.c:202-251 | exactly once over runs: while the transmit ring stays where it is and neither guest nor received packets write to it, every slot is served at most once however often it is kicked and the chip reset, only slots owned at the start are, each sends at most one frame, and the opts1 words end as after one service |
| TxRing.TransmitTwice | test/qemu/rtl8168.c:202-251 | a second kick with no guest store in between changes nothing at all |
| RxRing.ReceivesFollowRing | test/qemu/rtl8168.c:261-300 | of any run of packets between refills the first min(packets, free slots ahead) are accepted, one per slot along the ring's one full walk, rx_cur ending behind the last of them (slot 0 after one with bit 30 set, else the next mod 256); each first word keeps bit 30, hands the slot back and reports its size; no other slot's changes |
| RxRing.PacketsFillTheWalk | test/qemu/rtl8168.c:261-300 | the same from the driver's view alone, of any full walk given |
| RxRing.PacketOutcome | test/qemu/rtl8168.c:255-299 | -1 and no change while disabled; 0 with cause 0x0010 and memory untouched when the slot is not given; else the size and cause 0x0001 |
| RxRing.AcceptedNeverExceedOwned | test/qemu/rtl8168.c:261-300 | conservation over any run: owned slots afterwards plus packets accepted equals owned slots before |
| RxRing.AcceptedTakesOneSlot | test/qemu/rtl8168.c:275-299 | an accepted packet uses up exactly the slot at rx_cur, which moves to 0 if bit 30 of that slot's first word was set and to the next mod 256 if not; first and second word report it, the buffer holds it, and cause 0x0001 is added |
| RxRing.RejectedChangesNothing | test/qemu/rtl8168.c:255-283 | a packet that is not accepted changes neither guest memory nor rx_cur |
| RxRing.DeliverWords | test/qemu/rtl8168.c:285-297 | a delivery rewrites opts1 and opts2 of its own slot and no other descriptor word |
| RxRing.DeliverBytes | test/qemu/rtl8168.c:285-297 | the buffer holds the packet and every byte outside it and the eight header bytes is untouched |
| RxRing.ReportedLength | test/qemu/rtl8168.c:285-293 | the written header gives ownership back, keeps end-of-ring, sets first and last segment, and reports size + 4 whenever that fits 14 bits |
| RxRing.ReceivesKeepPayloads | test/qemu/rtl8168.c:261-300 | with separate buffers every accepted packet is intact in its own slot's buffer after the whole run |
| FirmwareGate.GateOpenIff | test/qemu/rtl8168.c:182-188 | after any run since device reset the gate is open if and only if no flagged GPHY_OCP write happened, or at least 30 flagged GPHY_OCP, OCPAR and ERIAR writes came from the first such write on; chip resets and the uint32 wrap of the counter included |
| FirmwareGate.StepGate | test/qemu/rtl8168.c:554-595 | of all operations only counted writes move the gate, and they move it as the gate's own three-line machine does |
| FirmwareGate.ClosedGateIsSilent | test/qemu/rtl8168.c:202-268 | at every closed point of every run, whatever comes next sends no frame, accepts no packet, writes no guest memory of its own, and moves tx_cur and rx_cur only to 0 |
| FirmwareGate.LineFollowsStatus | test/qemu/rtl8168.c:169-180 | from a reset with the line low, after every operation of every run the line is high if and only if status and mask share a bit |
| FirmwareGate.ResetLine | test/qemu/rtl8168.c:643-664 | right after this function that law holds if and only if the line was low before |
| FirmwareGate.ResetCanStrandLine | test/qemu/rtl8168.c:643-664 | from every reset some run of register writes raises a line that the next reset leaves standing |
| FirmwareGate.LinkChangeOnce | test/qemu/rtl8168.c:472-479 | between device resets bit 0x0020 of the status rises at most once, only by a write to 0x3c that unmasks it, and only after the gate has reopened |
| FirmwareGate.LinkChangeDeliveredIff | test/qemu/rtl8168.c:472-479 | and it does come: a mask write delivers it, setting the status bit, if and only if it unmasks bit 0x0020, at least 30 counted writes have come since the first command, and none was delivered before |
| FirmwareGate.PendingUntilDelivered | test/qemu/rtl8168.c:182-188 | at every point of every run the mark is pending exactly from the gate's reopening to the delivery |
| FirmwareGate.DeliveriesBounded | test/qemu/rtl8168.c:182-188 | deliveries made plus deliveries still possible never exceed one |
| PhyWindow.OcpRoundTrip | test/qemu/rtl8168.c:362-391 | for all 32 registers and all 16-bit values, bit 15 included, what is written through 0xb8 is read back through both windows after any traffic that does not write that register: for register 0 with bits 0x8200 cleared and every other bit kept, for all others as written, register 0x13 OR-ed with 0x6400 in the 0xb8 window while a reopened gate is open |
| PhyWindow.PhyarRoundTrip | test/qemu/rtl8168.c:495-520 | the same for writes through 0x60, as long as no first 0xb8 command comes between |
| PhyWindow.FirstCommandForgetsPhyar | test/qemu/rtl8168.c:568-595 | the first 0xb8 command puts every register it does not name back to its power-on value, spelled out |
| PhyWindow.StepPhy | test/qemu/rtl8168.c:427-606 | what any single operation does to any one PHY register |
| PhyWindow.OcpWindowReads | test/qemu/rtl8168.c:362-391 | for every value written to 0xb8: a write command reads back without its flag, a read command as answered by the register its 16-bit address leads to, and by 0 outside 0xa400 to 0xa43f |
| PhyWindow.PhyarWindowReads | test/qemu/rtl8168.c:322-334 | the same for 0x60, whose five address bits always lead to a register |
| Registers.CommandRegister | test/qemu/rtl8168.c:454-465 | bit 4 of the command stops the device and forgets causes, mask and ring positions, and nothing else; otherwise bits 2 and 3 enable the rings and read back alone |
| Registers.StatusRegister | test/qemu/rtl8168.c:480-483 | writing a status bit acknowledges that cause and no other, and the line follows |
| Registers.MaskRegister | test/qemu/rtl8168.c:472-479 | a mask takes effect at once; unmasking 0x0020 adds a pending link change to the status, and nothing else does |
| Registers.TxRingBase | test/qemu/rtl8168.c:530-535 | the two halves, written in either order, make up the base, read back as written, and the ring starts at slot 0 |
| Registers.RxRingBase | test/qemu/rtl8168.c:536-543 | the same for the receive ring |
| Registers.UnlockRegister | test/qemu/rtl8168.c:489-491 | bits 6 and 7 together unlock, and read back as 0xc0 |
| Registers.MacRoundTrip | test/qemu/rtl8168.c:427-453 | a MAC written unlocked is read back through both windows and bytewise; written locked it is lost |
| Registers.PlainWrite | test/qemu/rtl8168.c:427-606 | every other write stores the low bytes of its value, as many as that register is wide whatever the access size, and no other byte changes; locked configuration bytes and 0x40 store none |
| Registers.CommandPolling | test/qemu/rtl8168.c:304-423 | drivers polling CSIAR and EPHYAR finish: a write command reads back with bit 31 clear, a read command with it set |
| Registers.OcpPolling | test/qemu/rtl8168.c:362-391 | OCPAR always reads as done with its low 31 bits kept |
| Registers.EriPolling | test/qemu/rtl8168.c:394-399 | an ERIAR read command is answered with the data word beside it |
| Registers.CounterCommands | test/qemu/rtl8168.c:427-606 | the two command bits of the counter address read back clear: the commands finish at once |
| Registers.AfterReset | test/qemu/rtl8168.c:643-664 | what a driver reads after a device reset: rings disabled, no cause, no mask, locked, all plain bytes zero but for the MAC |
| Rtl8168Device.Rtl8168.ServeRing | test/qemu/rtl8168.c:208-248 | the loop that sends, clears OWN and moves tx_cur in place, at most 256 times, is the specified one |
| Rtl8168Device.Rtl8168.Tx | test/qemu/rtl8168.c:202-251 | with its gate and its interrupt that is the specified pass on the whole device state |
| Rtl8168Device.Rtl8168.ReceivePacket | test/qemu/rtl8168.c:261-300 | the in-place receive is the specified one, result code included |
| Rtl8168Device.Rtl8168.WriteRegister | test/qemu/rtl8168.c:427-606 | every register write is the specified step on the whole device state |
| Rtl8168Device.Rtl8168.GphyWrite | test/qemu/rtl8168.c:568-595 | first-command handling, PHY store and counting, in that order |
| Rtl8168Device.Rtl8168.ResetDevice | test/qemu/rtl8168.c:643-664 | the whole state after a device reset: MAC, memory, sent frames and line kept |
| Rtl8168Device.Rtl8168.Drive | test/qemu/rtl8168.c:427-606 | any sequence of writes, packets and guest stores on the object is the specified run, so every run theorem holds of it |
| UrlUtil.FilenameIsLastPiece | internal/urlutil/urlutil.go:26-36 | the file name is the last non-empty piece of the URL path, and "artifact" when there is none, when it is "." or "..", or when the URL does not parse |
| UrlUtil.FilenameFromURL | internal/urlutil/urlutil.go:26-36 | the result is never empty, ".", ".." and never contains a slash |
| UrlUtil.SafePathIff | internal/controller/bootconfig_controller.go:233-235 | an in-image path is safe if and only if it is not empty and ".." nowhere stands between slashes or ends |
| FileTree.LinkReadsAs | internal/controller/bootconfig_controller.go:389-404 | a relative link that goes up as far as its directory is deep reads exactly as its target does, present or absent, in bytes and in modification time |
| CrashSafety.SymlinkSafe | internal/controller/bootconfig_controller.go:389-404 | whatever fails, in every tree on the way nothing outside the directory changes and the name is absent, as before or the wanted link; success means it is the link |
| CrashSafety.ConcatSafe | internal/controller/bootconfig_controller.go:317-379 | whatever fails, in every tree on the way the served name is absent, as before or the complete concatenation; success means skipped because both sources are strictly older, or newly published |
| CrashSafety.ExtractSafe | internal/controller/bootconfig_controller.go:280-314 | whatever fails, the output is absent, as before or the complete entry; success means the complete entry, never one cut off at 1 GiB |
| Durability.ConcatenationComplete | internal/controller/bootconfig_controller.go:338-378 | a concatenation that succeeds without skipping ends in create, open and copy of both sources, close, chmod and rename, none of which failed, and the removal |
| Durability.ExtractionComplete | internal/controller/bootconfig_controller.go:280-314 | an extraction that succeeds found its entry, absolute or not, within 1 GiB, and none of its six fallible operations failed |
| Durability.NetbootFailureTells | internal/controller/bootconfig_controller.go:121-159 | the step reported failed says what is missing: the kernel directory, or with it in place the initrd directory; concatenation only with firmware, the initrd link only without |
| Durability.IsoFailureTells | internal/controller/bootconfig_controller.go:192-210 | the same for ISO: the boot directory incomplete, or, for the image link, everything before it done |
| Durability.MkdirStandsIff | internal/controller/bootconfig_controller.go:130-135 | making a directory succeeds if and only if it and every directory above it stand afterwards |
| SingleEntry.CallKeepsSingle | internal/controller/bootconfig_controller.go:334-376 | if removals work, one link or concatenation call never shows two entries in the directory, the served name is absent, as before or complete in every tree on the way, and after success it is the only one |
| SingleEntry.NeverTwoEntries | internal/controller/bootconfig_controller.go:334-404 | over any sequence of both calls, each run to its end or stopped after any file operation and the next one starting from what is left: at most one entry, and that one was there before, is a temporary file, or is the complete output or wanted link of some call so far |
| SingleEntry.SuccessLeavesOne | internal/controller/bootconfig_controller.go:334-404 | after any such sequence, a call that succeeds leaves its name as the only entry |
| InitrdCache.NewerIsFresh | internal/controller/bootconfig_controller.go:317-332 | a served name that looks strictly newer than both sources is no leftover link and holds their concatenation |
| ArtifactStore.StoreReads | internal/controller/bootartifact_controller.go:255-258 | in a store of the shape the artifact reconciler keeps, artifacts/name/file and nothing else, reading an artifact is looking at its own node |
| InitrdCache.ReconcileSound | internal/controller/bootconfig_controller.go:121-159 | one netboot assembly from a sound cache leaves every tree on the way sound, and on success serves kernel and initrd or initrd ++ firmware |
| IsoCache.ExtractionSound | internal/controller/bootconfig_controller.go:240-271 | extraction leaves every tree on the way sound and on success both files are the complete entries of the image on disk, never of two versions |
| IsoCache.ReconcileSound | internal/controller/bootconfig_controller.go:192-210 | for images of any name: the whole ISO assembly leaves every tree on the way sound, and on success the image's own name reads as the image and each other output as its complete entry |
| IsoCache.ImageNameServesImage | internal/controller/bootconfig_controller.go:205-226 | a success leaves the image's own name reading as the image, whatever that name is |
| IsoCache.KernelServedIff | internal/controller/bootconfig_controller.go:192-226 | a success serves the extracted kernel if and only if the image is not called vmlinuz, or reads the same as the entry |
| IsoCache.InitrdServedIff | internal/controller/bootconfig_controller.go:192-226 | a success serves the extracted initrd if and only if the image is not called initrd, or reads the same as the entry |
| Availability.VmlinuzHidesKernel | internal/controller/bootconfig_controller.go:192-226 | a first reconcile without faults of an image called vmlinuz that offers both entries succeeds and does not serve the kernel, unless the image's bytes are the kernel's |
| Availability.InitrdHidesInitrd | internal/controller/bootconfig_controller.go:192-226 | the same for an image called initrd and the initrd |
| Availability.ClashOccurs | internal/controller/bootconfig_controller.go:192-226 | such an image under each of the two names |
| IsoCache.ClashNeverSettles | internal/controller/bootconfig_controller.go:240-277 | after a success with an image named like an output, no later reconcile succeeds without extracting again |
| CacheRuns.ServedIsCurrent | internal/controller/bootconfig_controller.go:121-210 | from an empty or any well-shaped artifact store, over every run in which artifact reconciles and reconciles of the configuration succeed, fail or crash in any order, firmware is switched on and off, files are installed and removed by hand, and configurations deleted: a reconcile that succeeds serves what the artifacts on disk at that moment call for, in both modes |
| CacheRuns.PairServedIff | internal/controller/bootconfig_controller.go:192-226 | over the same runs, for images of any name, a success serves both extracted entries if and only if the image is named like neither or reads the same as the entry it hides |
| CacheRuns.FetchEdits | internal/controller/bootartifact_controller.go:58-222 | every tree of an artifact reconcile, crash points included, keeps the store's shape, touches nothing else, and leaves each artifact as it was, gone, or written since the start |
| CacheRuns.RunKeepsInv | internal/controller/bootconfig_controller.go:317-332 | the cache invariant holds after every such run |
| CacheRuns.SuccessIsSteady | internal/controller/bootconfig_controller.go:274-277 | once the clock is past the sources' times, a further faultless assembly succeeds and changes no file if and only if no image is named like an output |
| Convergence.SuccessRepeats | internal/controller/bootconfig_controller.go:406-416 | after any success, whatever the times are and whatever an image is called, reconciling again on the same store without faults is Done and sends no status update |
| Convergence.RunsRepeat | internal/controller/bootconfig_controller.go:406-416 | the same at every point of every run of the data directory |
| Convergence.SuccessConverges | internal/controller/bootconfig_controller.go:161-165 | after a success past the sources' times, reconciling again on the same store without faults also leaves disk and log alone |
| Convergence.RunsConverge | internal/controller/bootconfig_controller.go:161-165 | the same at every point of every run of the data directory |
| Availability.NetbootSucceedsIff | internal/controller/bootconfig_controller.go:121-159 | from any state with the directories unblocked, a netboot assembly without faults succeeds if and only if no firmware is set or both initrd and firmware can be read |
| Availability.IsoSucceedsIff | internal/controller/bootconfig_controller.go:192-210 | from any sound state with the names free, an ISO assembly without faults succeeds if and only if the image offers both entries within 1 GiB |
| Availability.ConcatSucceedsIff | internal/controller/bootconfig_controller.go:317-379 | without faults a concatenation succeeds if and only if it skips or both sources can be read |
| StaleCache.ConcatFreshIff | internal/controller/bootconfig_controller.go:317-332 | a successful concatenation serves the current sources if and only if it did not skip, or what it kept already read as them, directories under the output name included |
| StaleCache.InstallSeenIff | internal/controller/bootconfig_controller.go:317-332 | a re-installed initrd or firmware is picked up if and only if its bytes were written no earlier than the served file, or are the old ones |
| StaleCache.ImageSeenIff | internal/controller/bootconfig_controller.go:240-277 | a re-installed image is picked up if and only if it was written no earlier than one of the two outputs, or offers the same two entries |
| StaleCache.ImageMissed | internal/controller/bootconfig_controller.go:240-277 | an image older than both outputs is missed: success, and the old pair goes on being served |
| StaleCache.ImageMissedOccurs | internal/controller/bootconfig_controller.go:240-277 | a concrete such image with two other entries, after a first reconcile |
| StaleCache.StraddlingDownloadSeenIff | internal/controller/bootartifact_controller.go:200-211 | when the artifact reconciler finishes an install over a build, the next concatenation picks the bytes up if and only if they were written no earlier than the build, or are the old ones |
| StaleCache.StraddlingDownloadServedStale | internal/controller/bootartifact_controller.go:105-211 | a run: the artifact reconcile fails to remove the old initrd and downloads the new one, a build comes in between, the reconcile ends Ready, and the next concatenation succeeds with the old initrd |
| BootDirectory.Concatenate | internal/controller/bootconfig_controller.go:317-379 | the procedure step by step is the specified one, disk, clock and log included |
| BootDirectory.LinkInDir | internal/controller/bootconfig_controller.go:389-404 | the same for a link that is alone in its directory |
| BootDirectory.Extract | internal/controller/bootconfig_controller.go:280-314 | the same for one in-image entry |
| BootDirectory.ExtractImage | internal/controller/bootconfig_controller.go:240-271 | the same for the pair, with the skip that looks at both files |
| Assembly.BuildNetboot | internal/controller/bootconfig_controller.go:121-159 | the same for a whole netboot directory, with the step that failed |
| Assembly.BuildIso | internal/controller/bootconfig_controller.go:192-210 | the same for a whole ISO directory |
| BootConfigController.ReconcileObject | internal/controller/bootconfig_controller.go:53-166 | the reconcile step by step on the disk and the object's status fields is the specified one |
| BootConfigController.ReconcileDeleted | internal/controller/bootconfig_controller.go:56-66 | a configuration that is gone loses its boot directory and nothing else is done |
| BootConfigController.BuildsIff | internal/controller/bootconfig_controller.go:53-216 | a reconcile builds if and only if every object the specification refers to is found and Ready and both in-image paths are safe, and then from exactly those objects' files, firmware when it is set, and those paths in that order |
| BootConfigController.IsoVerdict | internal/controller/bootconfig_controller.go:170-191 | an ISO configuration that is not built: which Error or Pending with which message and delay, bad kernel path first, then initrd path, then the image's object |
| BootConfigController.NetbootVerdict | internal/controller/bootconfig_controller.go:74-119 | the same for netboot: kernel and initrd objects, then their phases, then the firmware's |
| BootConfigController.BuildVerdict | internal/controller/bootconfig_controller.go:121-166 | a build that fails is an Error retried after 10 seconds; one that works makes the object Ready without an update if it was |
| BootConfigController.NeverStalls | internal/controller/bootconfig_controller.go:406-442 | every reconcile of a configuration with a mode ends Ready, returns an error, or asks to be called again after a positive delay with Pending or Error recorded |
| BootConfigController.SecondReconcileWritesNothing | internal/controller/bootconfig_controller.go:418-442 | repeated on the same store after an outcome decided by lookups, a reconcile comes to the same end, touches no file and sends no status update |
| BootConfigController.WatchMapComplete | internal/controller/bootconfig_controller.go:444-463 | a configuration the watch map leaves out for an artifact reconciles to the same outcome, disk and status, however that artifact's object changes |
| BootConfigController.WatchMapExact | internal/controller/bootconfig_controller.go:444-463 | the watch map names exactly the configurations of the namespace that refer to the artifact |
| BootConfigController.EnqueuedInOrder | internal/controller/bootconfig_controller.go:444-463 | in the whole store, each dependent is enqueued right after the requests of those before it |
| BootConfigController.EnqueuedOnce | internal/controller/bootconfig_controller.go:444-463 | keys being unique in the store, nothing is enqueued twice |
| BootConfigController.CollectRequests | internal/controller/bootconfig_controller.go:450-462 | the loop collects exactly the specified requests |
| InstallSafety.CrashSafeInstall | internal/controller/bootartifact_controller.go:58-218 | whatever fails, in every tree on the way the final path is absent, as before, or holds a file written since the start whose SHA-256 digest, or SHA-512 when only that is given, agrees with the re-read specification at every position up to the case of a letter; besides it and the temporary file only missing directories above them appear |
| BootArtifactController.Verified | internal/controller/bootartifact_controller.go:203-209 | the comparison the code makes holds if and only if the digest under the algorithm chosen has the expected hash's length and agrees with it at every position up to the case of a letter |
| BootArtifactController.FoldIff | internal/controller/bootartifact_controller.go:203 | comparing lower-cased strings is comparing position by position up to case |
| InstallSafety.VerifiedFileIsLeftAlone | internal/controller/bootartifact_controller.go:86-122 | a file that verifies is neither touched nor downloaded again, whatever fails |
| InstallSafety.BadFileIsNotKept | internal/controller/bootartifact_controller.go:98-109 | a file that was read and does not verify is gone afterwards or replaced by one that does |
| InstallSafety.NoTempLeft | internal/controller/bootartifact_controller.go:144-149 | if removals work no temporary file stays behind, however the reconcile ends |
| InstallSafety.InstalledDuringReconcile | internal/controller/bootartifact_controller.go:171-211 | the final path is left alone, removed, or becomes a file stamped between the reconcile's start and its end |
| InstallSafety.HalfDownloaded | internal/controller/bootartifact_controller.go:105-190 | a bad file that cannot be removed still stands when its replacement has been copied beside it |
| InstallSafety.SuccessMeansVerified | internal/controller/bootartifact_controller.go:58-122 | a reconcile that succeeds or commits Ready leaves at the path it computed bytes whose digest agrees with the specification in that sense |
| InstallSafety.ReadyServedIff | internal/controller/bootartifact_controller.go:134-218 | Ready is committed with the committed specification's own file in place if and only if that is the path computed at the start, or a good file already stood there and it is not the temporary one |
| InstallSafety.UrlChangeLeavesReadyWithoutFile | internal/controller/bootartifact_controller.go:134-218 | a concrete reconcile, with URLs and hashes the API admits, that commits Ready for a file that does not exist |
| InstallSafety.ReconcileSucceedsIff | internal/controller/bootartifact_controller.go:58-222 | without faults, in a store of the right shape and whatever temporary file a crash left, a reconcile succeeds if and only if good bytes stand there and the status needs no update or its update is accepted, or the bytes are bad or absent and can be fetched |
| InstallSafety.StoreInstallable | internal/controller/bootartifact_controller.go:255-258 | every store of the right shape, left temporary files included, is one that lemma speaks of |
| InstallSafety.InstallSucceeds | internal/controller/bootartifact_controller.go:124-222 | an absent artifact that can be fetched is installed, and Downloading, then Ready, are committed |
| StatusUpdates.StatusesWritten | internal/controller/bootartifact_controller.go:124-253 | every field of every status a reconcile writes: a download is announced by its phase alone, the object read again, and one conclusion based on it: Ready with count 0, no failure time and the check stamped while it ran, or Error with one failure more as an int32, stamped likewise, and the delay or panic that count asks for |
| StatusUpdates.GoodFileIsReady | internal/controller/bootartifact_controller.go:86-122 | a good file costs two looks: no update if the status is Ready already, else Ready |
| StatusUpdates.FinishedIsDurable | internal/controller/bootartifact_controller.go:151-222 | a download that ends well ends in create, copy, sync, close, rename and directory sync, none of which failed, and the removal; the answer was complete and agrees with the re-read specification |
| BootArtifactController.ReconcileOn | internal/controller/bootartifact_controller.go:58-122 | the reconcile step by step on the disk and the object's status is the specified one: disk, accepted updates and result |
| BootArtifactController.DownloadOn | internal/controller/bootartifact_controller.go:124-149 | the same for the download, with the update before and the removal after it |
| BootArtifactController.ReceiveOn | internal/controller/bootartifact_controller.go:151-222 | the same from the answer to the request to the final status |
| FailureStreak.CountIsStreak | internal/controller/bootartifact_controller.go:224-248 | in every interleaving of stale reads and compare-and-swap updates the stored count is the failures since the last success as an int32, equal to it if and only if it is below 2^31; Ready means count 0 and no failure time, Error a streak of at least one |
| FailureStreak.DelaysAddUp | internal/controller/bootartifact_controller.go:250-252 | in every run whose streak is below 2^31 the delays asked for since the last success total 10*(2^n - 1) seconds for n <= 6 failures and 630 + 320*(n - 6) beyond |
| FailureStreak.DelayBounds | internal/controller/bootartifact_controller.go:250-252 | delays lie within 10 to 320 seconds, never shrink along a streak, double up to the sixth and fit int64 in nanoseconds |
| FailureStreak.NextFailurePanicsIff | internal/controller/bootartifact_controller.go:241-252 | the next failure panics if and only if the streak it makes falls in the upper half of the 32-bit range |
| FailureStreak.StreakReached | internal/controller/bootartifact_controller.go:237-248 | some run reaches every streak, those past the range of an int32 included |
| FailureStreak.ReconcileFollows | internal/controller/bootartifact_controller.go:113-137 | every reconcile commits at most a start and then one end based on the object read last: only the changes the streak counts |
| FailureStreak.ReconcileIsRun | internal/controller/bootartifact_controller.go:124-137 | with the answers compare-and-swap gives to what the handler holds, whatever others do in between, a reconcile's commits are exactly what its own updates store in the interleaved system |
| FailureStreak.UpdateStores | internal/controller/bootartifact_controller.go:231-248 | an update appends to the stored versions exactly its own write, and its change to the accepted ones, or nothing |
| ProvisionPhases.CommittedPhasesClimbTheLadder | internal/httpd/provision.go:44-81 | for any number of interleaved calls with stale reads and spec edits the committed phases are a prefix of Pending, InProgress, Complete and the object stands at the last |
| ProvisionPhases.EachPhaseEnteredOnce | internal/httpd/provision.go:51-81 | at most one call for a given phase ever succeeds |
| ProvisionPhases.CompleteAfterInProgress | internal/httpd/provision.go:44-47 | a call for Complete succeeds only after a call for InProgress has |
| ProvisionPhases.LastUpdatedNeverGoesBack | internal/httpd/provision.go:76-80 | the stored update time never decreases |
| ProvisionPhases.AdvanceIff | internal/httpd/provision.go:44-81 | liveness: an uninterrupted call on any version ends Committed if and only if (phase read, target) is (Pending, InProgress) or (InProgress, Complete) and that version is the one stored; phase, message and lastUpdated are then the target, the caller's message and the clock; Conflict if and only if the version was overtaken |
| ProvisionPhases.InitialiseIff | internal/controller/provision_controller.go:39-56 | the controller commits Pending if and only if the phase read is empty and that version is the one stored, and changes nothing else |
| ProvisionPhases.LadderIsClimbed | internal/httpd/provision.go:44-81 | three uninterrupted calls take a fresh object through Pending and InProgress to Complete |
| ProvisionPhases.StepKeepsInv | internal/httpd/provision.go:61-80 | every read, check, commit, conflict and edit keeps the protocol's invariant |
| ProvisionPhases.UpdateProvisionPhase | internal/httpd/provision.go:51-81 | the handler's procedure is begin, read, check, send of the protocol and returns how it ended |
| ProvisionPhases.ReconcileProvision | internal/controller/provision_controller.go:39-56 | the controller's procedure is the same protocol's initialising writer |
| BootDirective.PickedIsTheOnlyOne | internal/httpd/provision.go:99-140 | a provision is picked only if it is the one pending provision of the one machine with that address |
| BootDirective.PickedIff | internal/httpd/provision.go:99-140 | none, one and several told apart: nobody without a machine of that address or anything pending for it, an error for more than one machine or more than one pending provision, else the one |
| BootDirective.DirectiveIsPicked | internal/httpd/boot.go:75-93 | a directive carries the picked provision's name and the paths and kernel arguments of the configuration that provision refers to |
| BootDirective.DirectiveIff | internal/httpd/boot.go:75-147 | there is a directive if and only if a provision is picked, its configuration is found with a mode, and the objects whose file names the paths need are found; there is none without an error if and only if nobody is picked |
| BootDirective.DirectivePathsAreServed | internal/httpd/boot.go:75-147 | in every run, once the configuration a MAC address boots has been reconciled, every path in its directive, placed under boot/ and followed through links, reads as what the specification itself names: in ISO mode the image's entries at spec.iso.kernelPath and initrdPath (the image, where its own name takes the place of one), in netboot the files of the objects kernelRef and initrdRef, the latter followed by firmwareRef's exactly when it is set |
| BootDirective.PathSplits | internal/httpd/boot.go:142-144 | a joined directive path splits back into the segments the controllers used |

## Left out

- FailureStreak.CountIsStreak: equality of count and streak stops at 2^31, because the counter is an int32; the lemma says so exactly.
- StaleCache.InstallSeenIff: states one re-install over an up-to-date cache; longer straddling histories only repeat it.
- CacheRuns.ServedIsCurrent: takes references, URLs and in-image paths as fixed and the two kinds of reconcile as taking turns, and files put in place by hand as stamped with that time; modification times carry no origin, so without these the claim is false.
- SingleEntry.NeverTwoEntries: needs removals that work, since a leftover that cannot be removed is a second entry, and temporary names that differ from the name the call serves.
- Convergence.SuccessConverges: that the disk is left alone needs the clock past the sources' times and an image not named like an output, as CacheRuns.SuccessIsSteady shows of the latter; Convergence.SuccessRepeats needs neither.
- BootConfigController.ReconcileObject: a failed assembly is reported by the step that failed, not by the error text.
- Checksum rewriting of frames on their way out and in: frames and packets are compared before it.
- Requeueing of packets by the network layer when descriptors become free: a requeued packet is one more arrival.
- Register accesses beyond the 0x100 window or of other sizes, PCI registration and realisation, and DMA failures: guest memory is total, 64-bit addressed, and wraps.
- Directories removed only in part, and directories made through linked parents: a removal happens whole or not at all, and a link where a directory is needed is an error.
- Modification times of directories: any value, chosen anew whenever one is asked for.
- The durability of unsynced data: a crash exposes the trees in the log, each whole.
- HTTP transport, hashing and the ISO9660 library: an answer with bytes and a declared length or none, a digest function and a map from in-image path to bytes, all arbitrary.
- The Kubernetes client: an object read is found, missing or unavailable, and a status update is accepted or refused; list failures in the watch map, which yield no requests, are not modelled.
- Two objects of one name in different namespaces, whose files share a directory.
- Concatenation or extraction interleaved with a download at file-operation level: shown only through the times it leaves behind.
- Kernel argument templates, ConfigMap and Secret merging, host resolution, iPXE scripts, command wiring, generated code, charts and manifests: thin, or decided by libraries.

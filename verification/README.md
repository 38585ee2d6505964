# A verified model of the FlipperOS installer

This project models the parts of the installer where a mistake costs a board or a
disk, and proves what they promise:

- **UFS provisioning.** The scheme and its validation, the allocator that divides a
  device's allocation units among logical units, the big-endian configuration
  descriptor it packs (section 14.1.4 of JESD220C-2.2), the comparison that decides
  whether a device already is the scheme, and the steps that bring it there.
- **The install run.** The A/B bootloader update as a transition system that can stop at
  any byte and lose what is not synced, staging into the scratch directory, the whole run as the sequence of events
  it leaves behind, and the byte pipeline underneath: resuming reader, digest adapter,
  progress adapter, copy loops.
- **Exact string and table code.** Pack names, the two loops that group packs into
  profiles, and the kernel's mount table with its escapes and unmount order.
- **The controller's shared state.** Take-once prompts and lazy loads under any
  interleaving.

Code that changes things step by step is a method with loops, over classes and arrays
where the source mutates them; each such method is proved equal to a specification
function (`MakePlan` to `PlanOf`, `Compare` to `CompareOf`, `Apply` to `ApplyOf`, the
descriptor setters to functions on its bytes), and the theorems are lemmas about those
functions. Whatever comes from outside (a server, a disk, a command, a device's reply, a
digest) is a parameter or an arbitrary choice, so the results hold for every behaviour
of it.

`dafny verify dfyconfig.toml` checks everything.

| files | what they cover |
|---|---|
| `Ufs`, `Bytes` | descriptors: layout, accessors, setters |
| `Scheme`, `Vocabulary` | the scheme, its validation, and the words it is written in |
| `Plan`, `PlanFacts`, `WriteBoosterFacts` | the planner and what a plan guarantees |
| `Compare`, `Report` | comparison, and what its report says field by field |
| `Reprovision`, `ReprovisionFacts`, `CommandOrder` | `probe` and `apply`, what they guarantee, and the commands they send |
| `BuiltInScheme`, `Witnesses` | the scheme compiled into the installer on the parts it is for, and accepted inputs on which an expected property fails |
| `BootPair`, `BootWrites` | the A/B bootloader update over histories of installs, and the byte pipeline as steps of it |
| `Streams`, `Progress` | readers, copies, progress reports |
| `Ticking`, `Staging`, `InstallRun`, `StagedNames` | the weighted bar, staging, the run, and why its scratch names are distinct |
| `Mounts`, `PackNames`, `Profiles`, `Sorting` | mount table, pack names, grouping |
| `Prompts` | the controller |
| `Wrappers`, `Text`, `Arithmetic` | option and result types, text and case, arithmetic |

## What the code does not promise

Each of these is a property one would expect and the code does not have. The model
keeps the code as it is and proves the condition under which the property holds, as an
if and only if where the name says "exactly".

- A scheme with `active_boot_lu = "none"` that still flags a boot LU passes `validate`,
  but the plan does not match itself and `apply` cannot bring a device to it:
  `PlanMatchesItselfExactly`, `ApplyConverges`, and on a real part
  `NoActiveSideMismatches`.
- The device descriptor parser admits LU blocks from offset 0x10 while the WriteBooster
  header fields reach to 0x16. An unlisted LU 0 can then come out enabled, with units
  and a boot flag of its own, where the comment at src/core/provision.rs:456-457 has it
  gone: `UnlistedAreGoneExactly`, `PlanConserves`, `CeilingsHold`, and
  `SpillEnablesLuZero`.
- A dedicated WriteBooster buffer is charged for even when the LU that takes the rest
  cannot carry one: `DedicatedBufferPlacedExactly`, and `ChargedForNoBuffer`.
- When the active boot LU cannot be read a board booting A is written in place, and so is
  a board with one boot LU; the update is then not fail-safe: `InPlaceIsNotFailSafe`,
  `TargetAvoidsActiveExactly`.
- A mountpoint reads back only if all its whitespace is of the kinds the kernel escapes,
  and is otherwise taken for the directory its first part names: `PointReadsBackExactly`,
  `CutPointIsListed`, and `NoBreakSpaceIsMistaken`.

## Model

| member | source | states |
|---|---|---|
| Ufs.MemoryTypeIndexIsCode | src/core/ufs.rs:74-82 | a memory type's position in the table is its code, for exactly the seven codes below 7 |
| Ufs.MemoryTypeNameInjective | src/core/ufs.rs:85-91 | a known type shares its displayed name with no other code, so comparing names compares types |
| Ufs.ParseDevice | src/core/ufs.rs:816-836 | the layout bytes and the feature word come from their published offsets; fails exactly on a short buffer or a base or stride below 0x10 |
| Ufs.ParseGeometry | src/core/ufs.rs:900-930 | every field comes from its published offset, the per-type tables at a six-byte stride; fails exactly on a short buffer or a zero allocation unit |
| Ufs.LuReadOverWrite | src/core/ufs.rs:1199-1236 | read over write for LU blocks: block i gives back what was stored, every other LU, every byte outside the block and the header are unchanged, and the block lies inside the buffer, for every admitted base and stride |
| Ufs.PutLuReadBack | src/core/ufs.rs:1199-1236 | one block's encoding and decoding are inverse, up to the WriteBooster size a short block cannot hold |
| Ufs.ConfigDescriptor.constructor | src/core/ufs.rs:1086-1096 | an empty descriptor is zeroes of the device's length behind its length and type bytes |
| Ufs.ConfigDescriptor.SetHeader | src/core/ufs.rs:1164-1182 | the byte-by-byte writes amount to one overwrite of 0x03 to 0x0A and change nothing else |
| Ufs.ConfigDescriptor.SetSharedWriteBooster | src/core/ufs.rs:1184-1190 | overwrites exactly 0x10 to 0x15: preserve, type 1, size big-endian |
| Ufs.ConfigDescriptor.SetLuDedicatedWriteBooster | src/core/ufs.rs:1192-1195 | overwrites exactly 0x10 and 0x11: preserve, type 0 |
| Ufs.ConfigDescriptor.SetConfDescContinue | src/core/ufs.rs:1121-1123 | overwrites exactly the byte at 0x02 |
| Ufs.ConfigDescriptor.SetLu | src/core/ufs.rs:1219-1236 | the field-by-field writes into the buffer amount to storing the configuration in block `lu`, whose law is LuReadOverWrite |
| SchemeModel.Validate | src/core/provision.rs:162-204 | succeeds on exactly the valid schemes (ids distinct and in range, every code known, one LU without a size, the active side flagged), and otherwise names a defect the scheme has |
| SchemeModel.ValidateLus | src/core/provision.rs:166-184 | the loop accepts exactly when every LU is well formed and listed once |
| SchemeModel.UnsizedIsOne | src/core/provision.rs:185-191 | counting one LU without a size means there is exactly one |
| SchemeModel.BlockExponentExact | src/core/provision.rs:250-259 | the exponent is found exactly for a power of two of at least 4096, and is its base-2 logarithm |
| SchemeModel.SpecOfValid | src/core/provision.rs:217-260 | a valid scheme decodes to codes the planner may rely on |
| Vocabulary.ProvisioningWords | src/core/provision.rs:229-236 | thick is 0x00, thin 0x02, thin-read-zeros 0x03, in any capitals, and no other word has a code |
| Vocabulary.BootLuWords | src/core/provision.rs:238-245 | an LU is no boot LU exactly when it names none, A is 1, B is 2, and nothing else is accepted |
| Vocabulary.ActiveWords | src/core/provision.rs:206-213 | the active side is A, B, or none for none, off and the empty word, and nothing else is accepted |
| Vocabulary.BufferWords | src/core/provision.rs:546-572 | a size word means the maximum exactly when it spells max, and a dedicated buffer is asked for exactly when the type spells lu |
| Vocabulary.MemoryTypeWords | src/core/ufs.rs:74-99 | each of the seven words stands for its own code, and any other word for none |
| Vocabulary.SupportedBits | src/core/ufs.rs:980-986 | a device supports a memory type exactly when the type is known and its bit is set |
| Planning.MemoryTypeCeilings | src/core/provision.rs:496-510 | the find-or-insert loop computes CeilingsFrom, characterised by CeilingCheckExact |
| Planning.SizeLus | src/core/provision.rs:326-346 | the sizing loop with its running total: the fixed size of every LU in order, or the first LU's failure |
| Planning.Pack | src/core/provision.rs:398-454 | the packing loop writes every entry into the buffer, failing where a count does not fit or the remainder is too small to install onto; characterised by PackDecodes |
| Planning.MakePlan | src/core/provision.rs:301-491 | the whole planner, in-place descriptor included, computes PlanOf; what a plan guarantees is stated by the lemmas below, and where its buffer goes by WriteBoosterFacts.PlacementExact |
| PlanFacts.AllocUnitsLeast | src/core/provision.rs:288-291 | despite two ceilings in and a floor out, a unit count holds a size in whole sectors exactly when it is at least the computed one |
| PlanFacts.AllocUnitsOptimal | src/core/provision.rs:288-291 | the same for every size a scheme can name, for every cost factor and allocation unit |
| PlanFacts.AllocUnitsSuffice | src/core/provision.rs:288-291 | for a size in any number of bytes a count is enough exactly when it covers the bytes scaled by the cost factor, and the computed count always is |
| PlanFacts.EntriesConserve | src/core/provision.rs:322-360 | the sized LUs, the remainder and the buffer's cost add up to the device, the remainder gets more than nothing, and each entry follows its scheme line |
| PlanFacts.CeilingCheckExact | src/core/provision.rs:362-376 | the ceiling check passes exactly when every memory type's total is within what the device publishes for it |
| PlanFacts.PackDecodes | src/core/provision.rs:398-454 | every packed block decodes to the entry that claimed it, every other block to what was there |
| PlanFacts.PackFits | src/core/provision.rs:398-454 | packing succeeds only if every count fits 32 bits and the remainder holds 4 GiB, and leaves every byte below LU 0 alone |
| PlanFacts.PackSucceedsExactly | src/core/provision.rs:398-454 | packing succeeds exactly when every count fits 32 bits and the remainder holds 4 GiB, whatever the layout |
| PlanFacts.PlanSucceedsExactly | src/core/provision.rs:301-491 | there is a plan exactly when the buffer size is a known word and there is any way to lay the scheme out: every LU its least units, the rest to the one without a size, within the ceilings, counts that fit and room to install onto |
| PlanFacts.HeaderBytes | src/core/provision.rs:377-396 | the header bytes of a plan, field by field: length, type, nothing following, boot enable, fixed modes, WriteBooster fields, zero elsewhere |
| PlanFacts.PlanDecodes | src/core/provision.rs:301-491 | the bytes of a successful plan decode to the scheme: claimed LUs as asked, the others as the header left them |
| PlanFacts.ListedBlockBytes | src/core/provision.rs:398-454 | the block of every LU the scheme lists, byte by byte: enabled, unprotected, the scheme's boot role, memory type, reliability, block size and provisioning |
| PlanFacts.UnclaimedAbsent | src/core/provision.rs:377-457 | an LU the scheme does not list decodes as disabled and empty when the header keeps clear of LU 0 |
| PlanFacts.UnlistedAreGoneExactly | src/core/provision.rs:377-457 | unlisted LUs are disabled exactly when LU 0 is listed or the WriteBooster header leaves its enable byte zero |
| PlanFacts.HeaderSpill | src/core/ufs.rs:1184-1217 | what the WriteBooster header leaves in LU 0: enable byte, boot id and memory type from the header bytes that reach into its block, never a buffer size |
| PlanFacts.PlanConserves | src/core/provision.rs:301-491 | decoded units plus the buffer's cost equal the device's allocation units, plus exactly what the header spills into an unlisted LU 0 |
| PlanFacts.CeilingsHold | src/core/provision.rs:362-376 | on every layout the decoded LUs take of each memory type what was planned, which is within what the device allows, plus exactly what the header spills into an unlisted LU 0 |
| PlanFacts.RemainderBigEnough | src/core/provision.rs:430-440 | the LU without a size decodes with more than zero units and at least 4 GiB |
| PlanFacts.SizedLuIsOptimal | src/core/provision.rs:326-346 | a sized LU decodes with the least unit count that holds the size asked for |
| WriteBoosterFacts.BufferRespectsDevice | src/core/provision.rs:529-607 | size within the device's maximum, placement one the device and the layout offer, cost zero exactly when there is no buffer or user space is preserved; PlacementExact says when there has to be one |
| WriteBoosterFacts.PlacementExact | src/core/provision.rs:529-607 | whether there is a buffer, whether it is shared or dedicated, whether it preserves user space and what it is charged, each as an if and only if over the scheme and the published fields; the only failure is an unknown size word |
| WriteBoosterFacts.RequestedLeast | src/core/provision.rs:546-561 | a size in MiB asks for the least units holding it, capped at the device's maximum |
| WriteBoosterFacts.BufferOnLu | src/core/provision.rs:402-440 | on every layout the decoded buffer size of every LU: the planned one on the normal, non-boot remainder of a dedicated plan, zero elsewhere |
| WriteBoosterFacts.AtMostOneBuffer | src/core/provision.rs:402-440 | no two LUs carry a buffer, on any layout |
| WriteBoosterFacts.DedicatedBufferPlacedExactly | src/core/provision.rs:402-412 | on every layout a dedicated buffer reaches the device exactly when the remainder LU is normal memory and not a boot LU |
| WriteBoosterFacts.SharedHeaderReadsBack | src/core/provision.rs:390-396 | the header's WriteBooster fields read back as planned when LU 0 starts after them |
| Comparison.Compare | src/core/provision.rs:853-1049 | the pushing loops compute CompareOf, entry by entry and in order |
| Comparison.CompareExact | src/core/provision.rs:853-1049 | nothing critical is reported exactly when boot enable, every LU and the LUs above 7 are as planned and the active boot LU is acceptable; a descriptor write is called for exactly when the layout differs, whatever the active boot LU |
| Report.ReportedExactly | src/core/provision.rs:853-1049 | for every field there is an entry exactly when the field differs, by byte offset or code, and an entry is critical and calls for a write as its field demands |
| Comparison.PlannedLuAgrees | src/core/provision.rs:908-954 | for an LU a plan enables, agreeing means the same type, boot role, unit count and block size |
| Comparison.SelfCompare | src/core/provision.rs:853-1049 | a device holding the planned bytes gives an empty report exactly for the acceptable active boot LUs |
| Comparison.PlannedBootable | src/core/provision.rs:874-880 | the boot LUs of a packed plan are the ones the scheme flags, and an unlisted LU 0 the header leaves enabled with a boot id |
| Comparison.PlanMatchesItselfExactly | src/core/provision.rs:853-1049 | on every layout a plan's own bytes and active boot LU give an empty report exactly when the scheme names an active side, or flags no boot LU and the header leaves none flagged |
| Comparison.ActiveAcceptable | src/core/provision.rs:869-898 | the plan's own active boot LU is acceptable under exactly that condition |
| Comparison.EitherSideAcceptable | src/core/provision.rs:869-898 | with a side named, every flagged boot LU is acceptable as the active one, and nothing else but an LU 0 the header leaves flagged |
| Reprovision.UfsDevice.Probe | src/core/provision.rs:1188-1236 | reads, plans, lists the descriptors to clear and compares, as ProbeOf does |
| Reprovision.UfsDevice.ProbeExtra | src/core/provision.rs:1200-1217 | the loop over descriptor indexes 1 to 3 finds those still holding enabled LUs, on 32-LU devices only |
| Reprovision.UfsDevice.WriteDescriptor | src/core/ufs.rs:302-314 | an empty or over-long descriptor is not sent; one the device takes waits for fDeviceInit, also when its answer is lost and the write is reported as failed |
| Reprovision.UfsDevice.Apply | src/core/provision.rs:1240-1363 | the step sequence on the device computes ApplyOf, with every command accepted, refused, or put into effect and still reported as failed |
| ReprovisionFacts.NothingWrittenExactly | src/core/provision.rs:1240-1297 | a device is left exactly as it was when, and only when, the run is dry, the device is in use or matches, or it is locked and would need a descriptor; in every other case something is sent |
| ReprovisionFacts.AttributeOnly | src/core/provision.rs:1299-1347 | when only the active boot LU is wrong no descriptor is written, whatever fails |
| CommandOrder.CommandsInOrder | src/core/provision.rs:1299-1347 | whatever fails, the commands sent come in order: descriptors clearing LUs above 7, marked as followed by more, then the planned bytes, marked as the last, then the scheme's active side, then the initialisation; a success has left none out |
| CommandOrder.SentIsPrefix | src/core/provision.rs:1299-1347 | an attempt sends the beginning of one script, and all of it when nothing fails |
| CommandOrder.ClearBytes | src/core/provision.rs:1210-1215 | a clearing descriptor is its length, its type, the mark that more follows, and zeroes |
| CommandOrder.PlannedIsLast | src/core/ufs.rs:1086-1096 | the planned descriptor has its length and type in front and is marked as the last |
| ReprovisionFacts.RefusalKeepsLayout | src/core/provision.rs:1299-1331 | a descriptor write that fails, taken or not, leaves the layout in effect and the active boot LU as they were |
| ReprovisionFacts.ClearReadsBack | src/core/provision.rs:1210-1215 | a clearing descriptor reads back as written, starts with its length, its type and the mark that more follows, and holds no enabled LU |
| ReprovisionFacts.PlanReadsBack | src/core/ufs.rs:278-298 | a planned descriptor survives being written and read back by its own length byte, up to 255 bytes |
| ReprovisionFacts.ReadsExactly | src/core/ufs.rs:278-298 | a descriptor reads exactly when its own length byte covers the layout, and reads as stored, with zeroes where less is stored |
| ReprovisionFacts.ApplyKeepsSound | src/core/provision.rs:1240-1363 | every attempt, however its commands fail and whether or not they took effect, leaves a readable layout and pending descriptors of this scheme only |
| ReprovisionFacts.ProvisionedIs | src/core/provision.rs:1188-1236 | being provisioned is agreement of layout, no LU above 7 and an acceptable active boot LU |
| ReprovisionFacts.ApplyConverges | src/core/provision.rs:1240-1363 | on an unlocked device with nothing failing, apply ends provisioned with no LU above 7 exactly when the scheme's active side is acceptable or the device already matched |
| ReprovisionFacts.ApplyIdempotent | src/core/provision.rs:1240-1363 | after a real success a second apply succeeds and sends nothing, whatever the surroundings do |
| ReprovisionFacts.ConvergesAfterAnyHistory | src/core/provision.rs:1240-1363 | after any sequence of attempts, each failing anywhere with or without effect, one undisturbed attempt ends provisioned exactly when the device had got there or the plan names an active side |
| BuiltInScheme.BuiltInSchemePlans | src/core/provision.rs:1597-1631 | the built-in layout, with any side named active, plans on every part with 4 MiB units, cost factor three and room, giving 12, 12 and 96 units to the boot and recovery LUs and everything else to the main one |
| BuiltInScheme.BlankPartIsProvisioned | src/core/provision.rs:1240-1363 | after any number of failed attempts, failing with or without effect, one undisturbed apply of the built-in scheme provisions a blank part of that kind |
| BuiltInScheme.ForeseeSuits | src/core/ufs.rs:1301-1302 | the 64 GB part of the repository's tests is such a part, with 15260 units |
| BuiltInScheme.WrittenIsBuiltIn | config/flipperos-ufs.toml:1-109 | the file as written, with the defaults it leaves out, is a valid scheme and decodes to the layout the results above are about |
| Witnesses.NoActiveSideMismatches | src/core/provision.rs:191-202 | the built-in scheme with its active boot LU set to none validates, plans on the 64 GB part, and does not match its own bytes |
| Witnesses.SpillEnablesLuZero | src/core/ufs.rs:816-836 | a device descriptor the parser accepts on which a scheme listing only LU 1 packs an LU 0 that is enabled, carries units and is flagged as boot LU A |
| Witnesses.ChargedForNoBuffer | src/core/provision.rs:402-412 | a scheme whose only LU is a boot LU is charged 11445 of 15260 units for a dedicated buffer no LU carries |
| BootPair.TargetAvoidsActiveExactly | src/core/install.rs:1385-1436 | the LU chosen to write is not the booted one exactly when the flag can be read and the spare side exists, or it cannot and the board does not boot A |
| BootPair.TargetExistsExactly | src/core/install.rs:1385-1436 | an LU is found to write exactly when the board has one it may boot, and it is one of the pair |
| BootPair.Verify | src/core/fetch.rs:255-264 | a digest is unpublished exactly when the manifest has none, and mismatched exactly when the published one differs from the computed one in length or in some letter beyond case |
| Text.EqIgnoreCaseIs | src/core/fetch.rs:259-262 | comparing without regard to case is comparing letter by letter, the two cases of a letter being one |
| BootPair.StepKeepsSafe | src/core/install.rs:1165-1252 | every begin, chunk, sync, finish, switch, stop, write-back of any bytes and crash keeps the medium of the booted LU good: as it was, or holding the whole image of an install whose digest was not found wrong |
| BootPair.ActiveUntouched | src/core/install.rs:1207-1251 | no step writes the booted LU or its medium, and it changes only to one whose medium holds the whole image of an install, not found wrong, under either policy |
| BootPair.AlwaysBootable | src/core/install.rs:1165-1252 | over any history of installs, each finishing, failing or crashing at any byte, and with what was not synced written back or lost in any pattern, the medium of the booted LU at every moment holds what it held at the start or the whole image of an install, not found wrong; BootWrites.UpdateSwitchesOver says that an update does get there |
| BootPair.InPlaceIsNotFailSafe | src/core/install.rs:1389-1422 | whenever the LU chosen is the booted one, an image differing from what is there in two places, written back up to the first and cut off by a crash, leaves neither the old bootloader nor the new one |
| BootPair.FoundIsAcceptable | src/core/provision.rs:869-898 | on a device matching a plan, every boot LU an install can find is acceptable as the active one |
| BootPair.InstallsKeepProvisioned | src/core/install.rs:1385-1470 | being provisioned survives any number of installs, finished or not |
| BootWrites.ChunksLand | src/core/install.rs:2079-2082 | after any chunks of any sizes the boot LU holds exactly their bytes from 32 KiB on and is otherwise unchanged |
| BootWrites.WriteIsHistory | src/core/install.rs:2077-2089 | every outcome of the write is a history of the update up to the switch: all of the image, a sync and a finish, or a prefix and a stop, with the bytes the write left on the LU, on its medium too once synced, and a switch due exactly when the answer was true and the LU written was not the active one |
| BootWrites.UpdateSwitchesOver | src/core/install.rs:1207-1251 | from any idle state with both sides, an update that is not cut short ends with the other side active and the image on its medium from 32 KiB on, unless the digest was found wrong, when the active side stays; nothing else on the device changes |
| Streams.Reader.Read | src/core/fetch.rs:144-166 | each read returns the next bytes of the object with nothing skipped or repeated, wherever a break leaves the open body; it reports the end only at the end, sends at most four range requests over the reader's life, and fails only over a break after which no resume was left, nothing was left to deliver, or the range was not served |
| Streams.Reader.Resume | src/core/fetch.rs:125-141 | a resume sends one range request and, when it is served, puts the body back at the byte count already delivered, wherever the break had left it |
| Streams.Digesting.Read | src/core/fetch.rs:217-225 | the digest is fed exactly the bytes returned, in order |
| Streams.ProgressReader.Read | src/core/install.rs:219-228 | the running total is reported after every read that returned something, and is the bytes delivered |
| Streams.CopyToDisk | src/core/install.rs:2079-2082 | whatever happens the device holds a prefix of the object at the offset and is otherwise unchanged; on success it holds all of it, the digest was fed exactly that, and the reported totals rise strictly to its length; it fails only over a break that no resume could mend, a device fault, or a device too small |
| Streams.WriteSourceToOffset | src/core/install.rs:2044-2090 | the same, synced before the digest is judged; a whole copy answers true when the digest is not found wrong, and otherwise fails under the failing policy and answers false under the other; a dry run writes nothing |
| Streams.Copy | src/core/stage.rs:477-495 | the staging copy: on success the file is the object and the digest and totals cover it; on failure it is a prefix, and the reader gave up or there was no room |
| Streams.Drain | src/core/stage.rs:460-474 | verification in place reads and digests the whole object, and fails only when the reader gives up |
| Progress.ProgressCallback.Call | src/core/install.rs:265-305 | one callback call advances the meter as Tick specifies |
| Progress.ProgressCallback.Completed | src/core/install.rs:265-305 | a transfer that came to a given length has kept the bar in its slice and logged 100% once if that is the published size and not at all if it fell short; every successful copy below says so of its callback |
| Progress.TransferReport | src/core/install.rs:265-305 | for rising totals the bar positions rise within the step's slice, stay within one hundredth of it of where the bytes put them and reach its end with the last byte, and the 100% line is logged exactly once when the total is reached and never otherwise |
| Progress.UnknownSizeReport | src/core/install.rs:297-303 | with no size the bar stays put and a line is logged exactly when another 10 MiB step is entered |
| Progress.PctIsHundred | src/core/install.rs:276-278 | the percentage is 100 exactly at the end |
| Ticking.Ticker.Begin | src/core/install.rs:139-144 | a step adds its weight, and the bar moves to the share of what came before |
| Ticking.Ticker.Transfer | src/core/install.rs:265-305 | a transfer with its callback attached, in chunks of any size, moves the bar only forward and only within its step slice, leaves it within one hundredth of the slice of where the bytes put it and at its end if they reach the published size, and logs 100% exactly once then, never otherwise |
| Ticking.Ticker.Note | src/core/install.rs:139-158 | other events leave the account of weights and the bar as they were |
| Staging.StagingWeightGrows | src/core/install.rs:460-463 | the staging part of the total is the sum over the artifacts staged one by one |
| Staging.StageOne | src/core/stage.rs:386-452 | one artifact: counted, read in place or copied, judged; success leaves a scratch copy that is what was delivered and whose digest is not wrong, a local artifact whose own bytes are wrong fails, the verdict reported is that of the bytes delivered, and nothing but the copy is written |
| Staging.StageRun | src/core/stage.rs:360-457 | all artifacts are judged before it succeeds, a mismatch fails it, the weights begun are the plan's, every copy that is the last of its name is verified, files no copy goes over are kept, a failure leaves nothing behind, it fails only over a mismatch or something outside that failed, and a success has passed over no failure |
| Staging.DistinctAreAllVerified | src/core/stage.rs:360-457 | with distinct names every artifact's scratch copy is verified |
| Staging.LocalisedIsTrusted | src/core/stage.rs:145-173 | with distinct names and sources, what is read of a planned artifact is the copy verified against that artifact's own digest |
| Staging.PlannedIsLocalised | src/core/stage.rs:145-173 | after localising, a planned artifact is read from the scratch directory, with its size kept |
| Staging.LocaliseBuild | src/core/stage.rs:176-195 | the loop localises every pack of a build and nothing else |
| Staging.DropStaged | src/core/stage.rs:198-210 | dropping removes exactly the files staging created |
| Staging.UnderIs | src/core/stage.rs:249-259 | a path is under a mountpoint exactly when it is the mountpoint or continues it with a new segment |
| Staging.CheckNotOnMounts | src/core/stage.rs:230-245 | refuses exactly when a local artifact lies on one of the target's mounts, naming such a pair |
| StagedNames.ImagesKeepTheirNames | src/core/catalog.rs:374-379 | however the sources locate an image (beside a manifest, as a sibling, inside a bundle) it is staged under its own name |
| StagedNames.BothLoopsLoad | src/core/catalog.rs:417-465 | the builds the two loading loops return stage every pack and seed under its own file name |
| StagedNames.ListedIsWellStaged | src/core/stage.rs:111-131 | in a loaded build profile names are unique and each staged name stands for the seed or for one profile and kind |
| StagedNames.RunsAreDistinct | src/core/stage.rs:65-131 | for every build loaded from a rootfs manifest or a bundle, images named as the sources name them and any selection of extras, no two artifacts of the plan share a scratch name or a source |
| StagedNames.EveryCopyIsVerified | src/core/stage.rs:360-457 | hence staging leaves every artifact of a real run with a scratch copy whose digest is not wrong |
| InstallRun.ExtrasAre | src/core/install.rs:340-344 | the extras are exactly the selected profiles that are not Minimal, in build order |
| InstallRun.ExpectedExactly | src/core/install.rs:543-741 | what a run has to overwrite, from what the job asks for: the loader or the chosen boot LU, boot menu and recovery where there is a place for them, and of the packs the seed, the first Minimal profile and exactly the selected others |
| InstallRun.LocalisedWeighsTheSame | src/core/install.rs:456-496 | the total computed from the published images is the weight of writing their staged copies, and both destroy the same things in the same order |
| InstallRun.EverythingPlanned | src/core/stage.rs:65-98 | every artifact a run will read is in the staging plan |
| InstallRun.StagedAreAllowed | src/core/install.rs:508-538 | once staged and localised, everything the run goes on to read is a scratch copy |
| InstallRun.StagedAreTrusted | src/core/install.rs:508-538 | with distinct names and sources, everything a staged run goes on to read would pass its digest again |
| InstallRun.Guard | src/core/install.rs:813-1003 | lets a run through exactly when the target is boot-ROM capable, no artifact lies on it and, unless it is a dry run, it is not in use, has a boot LU, and every image fits where it goes |
| InstallRun.Land | src/core/install.rs:1473-1517 | one source onto the target: a source that breaks midway has already destroyed what was there; on success it was read, written and judged, the judged write being the last event and its verdict that of the bytes delivered, and only verify-first fails over a digest |
| InstallRun.InstallUboot | src/core/install.rs:1165-1252 | the only step that switches the boot LU: when it succeeds on a device with a spare boot LU, the write of that LU was judged and the switch follows it directly if and only if the bytes delivered have the published digest or none is published |
| InstallRun.DeployProfile | src/core/install.rs:746-807 | receive, snapshot and kernel weigh what the total counted for the profile |
| InstallRun.DeployExtras | src/core/install.rs:699-717 | every opted-in profile is received in build order; it fails only if one has no incremental pack, over a digest, or if something outside fails |
| InstallRun.WriteTarget | src/core/install.rs:543-741 | a successful real run wipes, partitions, writes the loader, boot menu and recovery images it has somewhere to put, makes the filesystem and receives the packs, in that order and nothing else, with weights adding up |
| InstallRun.WrittenIsSafe | src/core/install.rs:441-538 | everything read or destroyed after preparation comes after every planned artifact was judged and none found wrong |
| InstallRun.Prepare | src/core/install.rs:498-538 | unpacking and staging destroy nothing on the target, write nothing outside the scratch directory, and succeed under verify-first only with every artifact judged and every last-of-name copy verified |
| InstallRun.Run | src/core/install.rs:308-741 | for every run: each destructive event comes after the guards and, verifying first, after a verdict not wrong for every planned artifact; reads are then of scratch copies; a mismatch in staging ends the run with nothing destroyed; a switch directly follows a write of its LU found good, and after a real success the spare boot LU was written and judged and was switched to exactly when not found wrong; dry runs touch nothing; the bar rises within [0, 1] and a success begins exactly the precomputed total; when names and sources are distinct, as in every real run, no run that verified first fails over a digest while writing; files outside the scratch directory and files no copy went over are kept, and staged copies are cleaned up; and a run that nothing outside disturbed fails only for a reason of its own (no Minimal, a failed guard, a missing pack, a digest found wrong when verifying first) and otherwise records its metadata, and a success has unpacked its archive and passed over no failure but that of recording the metadata |
| InstallRun.OverwritesExactly | src/core/install.rs:543-741 | after a real success exactly what the job asks for was overwritten, the metadata aside: the packs received are the seed, Minimal and the selected profiles |
| Mounts.UnescapeInvertsEscape | src/core/install.rs:1936-1941 | the four sequential replacements invert the kernel's escaping of every string, literal backslash codes included |
| Mounts.PassUndoesOne | src/core/install.rs:1936-1941 | each pass undoes the escaping of its own character as long as backslashes are still escaped, which is why their pass is last |
| Mounts.PointReadsBackExactly | src/core/install.rs:1921-1925 | a mountpoint's field is read back whole exactly when all its whitespace is of the escaped kinds |
| Mounts.PointIsCut | src/core/install.rs:1921-1925 | any other mountpoint is read up to its first whitespace the kernel does not escape |
| Mounts.CutPointIsListed | src/core/install.rs:1919-1926 | what is then listed under a directory is exactly that first part, when it lies there |
| Mounts.NoBreakSpaceIsMistaken | src/core/install.rs:1919-1926 | so a mountpoint beside the install directory, told apart by a no-break space, is listed as the install directory itself |
| Mounts.TableReadsBack | src/core/install.rs:1919-1926 | a whole rendered mount table reads back as its mountpoints |
| Mounts.FirstLineIs | src/core/install.rs:1921-1922 | a table is cut at newlines, with or without a carriage return before them |
| Mounts.UnmountOrder | src/core/install.rs:1919-1933 | the result is exactly the distinct mountpoints at or under the directory, with every descendant before its ancestors |
| Mounts.AtOrUnderIs | src/core/install.rs:1921-1927 | at or under a directory means beginning with all its path segments, however many levels down |
| PackNames.ParseIsInverse | src/core/catalog.rs:573-587 | a name parses to a pack exactly when it is that pack printed: nothing else is accepted and no printed name is missed |
| PackNames.ParseHomeIsInverse | src/core/catalog.rs:592-602 | the same for /home seeds |
| PackNames.HomeIsNoPack | src/core/catalog.rs:573-602 | no name is both a seed and a pack |
| Profiles.LoadProfiles | src/core/catalog.rs:417-465 | the find-or-insert loop and sort over a rootfs manifest compute the grouping, sorted Minimal first |
| Profiles.Resolve | src/core/bundle.rs:420-482 | the bundle's loop computes the same grouping of the packs in its packs directory, and fails exactly when no Minimal is among them |
| Profiles.BundleNameIs | src/core/bundle.rs:424-431 | a bundle lists a pack for a path exactly when the path is its name directly under profile-packs |
| Profiles.JoinIs | src/core/model.rs:464-474 | joining a bundle's location and a path puts exactly one slash between them |
| Profiles.GroupIs | src/core/catalog.rs:425-455 | the grouping has unique names, covers every listed profile, the last listed file winning per kind and the first one's build number standing |
| Profiles.HomeIs | src/core/catalog.rs:431-435 | the seed of a grouping is the last one listed |
| Profiles.ListedInOrder | src/core/catalog.rs:458-463 | the sorted profiles are a permutation of the grouping and the only one in Minimal-first, then name order |
| Profiles.LoopsAgree | src/core/bundle.rs:422-476 | for the same flat list the two loops give the same profiles in the same order and the same seed |
| Sorting.SortSorts | src/core/catalog.rs:458-463 | sorting by a total preorder sorts |
| Sorting.SortKeepsElements | src/core/catalog.rs:458-463 | sorting permutes |
| Sorting.SortedIsUnique | src/core/catalog.rs:458-463 | where the order tells elements apart any sorted permutation is the same, so the library's sort is this one |
| Prompts.PromptsConsumedOnce | src/core/controller.rs:979-1032 | under any interleaving no prompt is taken twice, no two reprovision calls answer the same prompt, and each carries the target its prompt was raised for |
| Prompts.DismissedIsNeverAnswered | src/core/controller.rs:1020-1032 | dismissing leaves no prompt and starts nothing, and the prompt dismissed is never answered afterwards, under any interleaving |
| Prompts.ConfirmedIsAnswered | src/core/controller.rs:1010-1032 | a prompt a free thread confirms is answered with its own target as soon as that thread goes on, whatever happens in between |
| Prompts.DispatchedOncePerClear | src/core/controller.rs:512-546 | between two dispatches of the same request the in-flight set was cleared |
| Prompts.AskedIsDispatched | src/core/controller.rs:512-518 | a request asked for has been dispatched with nothing cleared since |
| Prompts.Controller.TakePrompt | src/core/controller.rs:1025-1032 | the locked section hands the prompt to one caller and notifies exactly when there was one |
| Prompts.Controller.RaisePrompt | src/core/controller.rs:946-957 | publishing replaces the pending prompt |
| Prompts.Controller.EnsureLoadedSection | src/core/controller.rs:512-518 | only the caller that inserts a request dispatches it |
| Prompts.Controller.ClearInflightSection | src/core/controller.rs:544-546 | clearing forgets every dispatched request |

## Left out

- The scheme file's TOML, HTTP, JSON, zstd, tar and the SHA-256 computation: a source is a byte sequence that can fail, the digest an arbitrary function of the bytes fed to it.
- SG_IO, sysfs and `/proc` access, device polling and timeouts: a device is a value whose replies are parameters. It keeps the descriptors it took pending until `fDeviceInit`, and the boot LUs found through sysfs agree with the descriptor in effect. Its reads do not fail on their own: one failing before the writes leaves the device alone, and one after them changes only the answer.
- `permanent_wp` and `power_on_wp` handling, RPMB regions and the well-known logical units: not part of the layout decisions.
- Shell commands, GPT contents, partition identifiers, the metadata payload and the mounting steps: opaque events that may fail.
- Integer widths of sizes: byte and allocation-unit counts are unbounded, so overflow of 64-bit products is not modelled. Descriptor fields have their exact widths.
- Progress positions are exact fractions instead of single-precision floats.
- Comparison.Compare: block sizes are compared with the shift count taken modulo 32, as an optimised build does; a build with overflow checks stops instead.
- Streams.Reader.Read: a server that ends a body early without an error is not told apart from the end of the object, as in the code, so such a body is not a fault here.
- Staging.CheckNotOnMounts: paths are strings; comparing them by components, as the in-place test of staging does, is not part of this model.
- Planning.MakePlan: works on the decoded scheme a valid scheme stands for; the decoding errors `plan` repeats cannot arise after validation. The summary text it builds is left out.
- Ticking.Ticker.Transfer: runs over arbitrary chunks instead of being wired to the reader of the same step; what the callback reports of a reader's own totals is proved in `Streams`.
- InstallRun.Run: nothing but the run itself changes the scratch directory while it lasts, so bytes altered there between verification and writing are not modelled.
- The run starts from a target, a bootloader and a build already selected and loaded; missing selections are refused before any step and are left out, and so is unmounting the installer's own leftovers first.
- InstallRun.InstallUboot: takes the chosen boot LU as found at the start; that choice and the bytes on the boot LUs are the subject of `BootPair`.
- Prompts.Controller.RaisePrompt: when a worker raises a prompt (the device still selected, not matching, an offer wanted) is left to the interleaving, which may raise one at any point.
- Mutual exclusion of the install and reprovision workers: the busy check and the phase change are two steps in the code, so it is not claimed.
- `Manifest::device_types`, `board_dir`, board detection, storage classification, bucket listings, build labels and `newest_first`: short decisions over listings.
- Both frontends, logging text, reports and prompt wording.

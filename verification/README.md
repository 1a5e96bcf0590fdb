# Verified model of a2fomu

a2fomu turns a Fomu FPGA board into an Apple II: a RISC-V core beside the 6502
runs the firmware in `sw/src`, the gateware is in `hw/rtl`. This project models
the parts that decide something on their own and proves what they are for.

`dafny verify dfyconfig.toml` checks everything.

| files | what they model | main results |
|---|---|---|
| DiskNibbles, DiskStream | six-and-two nibbles, the byte stream of a sector | decoding inverts encoding |
| DiskCache, DiskHost, DiskCoherence, DiskAnswers, DiskFailures | the track cache, the hex protocol that fills it and the host at its other end | when the cache agrees with the host's disk, timeouts included, and when not |
| DiskHead, DiskRuns | the head, one byte a call | sector marks are unique, no three zeros, whole sectors and tracks pass |
| DiskTogether, DiskWaiting | head, cache, parser and host in one system | what passes under the head is the host's sector; a missing one passes once it is answered |
| Flash, FlashWriter, FlashRuns, FlashTransfer, FlashRetries | the asynchronous flash writer | safe commands, termination, exactly when a block arrives |
| Crc32, CrcDivision | the checksum of a track | every burst of four bytes is detected; it is the remainder that the standard defines |
| BootImage, BootRoundTrip | the image packer and the boot loader | round trip, and exactly which images boot |
| Spram | two masters on one single-port memory | each sees its own accesses, every request is answered |
| VideoFifo, VideoRuns, VideoScroll | the screen words sent to the host | they are exactly the compressed writes unless a word is lost, and when one is; a scroll of the screen is two words |
| Fat12, FatFile, FatChain, FatNames, FatRoot, FatOpen, FatLayout | the FAT12 reader | table, geometry, reads over chains, names, from a printed name to the bytes of its file |
| Morse, MorseCode, MorseSend, MorseRuns, MorseTiming | the Morse transmitter | what is printed is heard, exactly if it has no spaces |
| Scheduler | the cooperative scheduler | no task runs twice, nesting ends |
| Stdio, Decimal | character rings and number formatting | queue behaviour, hexadecimal and decimal round trips |

Objects that the source updates in place are classes; their methods are proved
equal to specification functions on values, and the properties are lemmas about
those functions over all inputs or all runs. Busy flags, USB deliveries, room
in a buffer and the inputs of a clock are parameters that may take any value.
Lookup tables are written as decision chains. Where the firmware only counts
with a byte it is a number below 256, where it shifts and masks it is a
bit vector.

## What the code does that one would not expect

The model keeps these; the lemma named shows each, or its exact condition.

- The disk volume is a signed byte in one place and unsigned in another, so
  from volume 128 on every request empties the cache line (HighVolumeForgets,
  HighVolumeRun).
- The track digits of a disk record are ignored (LateRecord). An answer given up
  by the watchdog still comes in; if another request is sent before it is over,
  what is left of it then is stored through the null pointer or under the wrong
  track (AbandonedAnswer, ImpatientRunFails).
- A record that arrives damaged sets no valid bit, but takes none back either: if
  its sector was cached already, the damaged bytes are found from then on
  (DamagedRecordArrives).
- After `@VV` one more character is consumed (CharacterIsSkipped).
- The page scan of `write_flash` never advances: a page-aligned transfer is
  programmed whole or not at all, as its first byte decides (TransferWrites,
  FirstByteHidesTheRest, BlockRun). An answer with the size that comes at once
  means that nothing was changed (ImmediateAnswer). A transfer that begins inside
  a page reads its later pages from the wrong place unless its buffer lies alike
  (UnalignedTransfer).
- An executable that ends exactly at the end of main memory is not started
  (LastByteIsNotForCode).
- Frame-buffer selection ignores address bit 15 (SelectedAddresses).
- A FAT file without clusters reads as one sector of memory at address 0
  (EmptyFile). A read does not look at the file size: it gives whole clusters
  (ReadsAreAPrefix). A root directory that does not fill whole sectors lets the
  last cluster end outside the volume (DataRegion); more or fewer than one
  reserved sector moves the table but not what follows it (TableIsClear).
- Deleted directory entries are listed like others (DeletedIsListed). That
  changes what is found exactly for names that begin with a star or the mark
  itself (DeletedCount, DeletedMatter). A path of separators opens the root
  directory as a file (RootOpensAsFile).
- A leading space is sent as an O (LeadingSpaceIsHeardAsO). The listener of the
  model hears letters; it does not turn long pauses into blanks.
- `ungetc` on a full ring loses everything in it (Ungetc).

## Model

| member | source | states |
|---|---|---|
| DiskNibbles.NibblizePass | sw/src/disk.c:199-205 | One pass over `nbuf2` shifts in the two low bits of exactly the bytes it visits and stores their high six bits; all other bytes of `nbuf1` stay |
| DiskNibbles.Nibblize | sw/src/disk.c:196-212 | Whatever the two buffers held, they end up as the six-bit form of the sector |
| DiskNibbles.PackedThrice | sw/src/disk.c:203-210 | Three passes and the mask leave no trace of the previous contents of `nbuf2` |
| DiskNibbles.Denibblize | sw/src/disk.c:232-246 | Rebuilds the first `t0` bytes (256 for 0), leaves the rest of the buffer alone and drains `nbuf2` by as many shifts as it was used |
| DiskNibbles.RebuildNibblized | sw/src/disk.c:196-246 | `denibblize` after `nibblize` is the identity on every sector |
| DiskNibbles.RomReadsNibblized | sw/src/disk.c:196-212 | What the boot ROM makes of the two buffers, shifting the low bits in one after the other, is the sector |
| DiskNibbles.NiblReadable | sw/src/disk.c:248-257 | Every code of the table has its top bit set, never three zeros in a row, and is neither 0xD5 nor 0xAA |
| DiskNibbles.NiblIncreasing | sw/src/disk.c:248-257 | The code is strictly increasing, hence injective |
| DiskNibbles.CodesAreDiskBytes | sw/src/disk.c:248-257 | The codes are exactly the bytes that DOS 3.3 allows: top bit set, two ones in a row behind it, at most once two zeros in a row |
| DiskNibbles.FindNiblFrom | sw/src/disk.c:248-257 | Searching the table for the code of a six-bit value finds that value |
| DiskStream.MergeSplit | sw/src/disk.c:406-423 | The 4-and-4 pair of a byte merges back to the byte |
| DiskStream.AddressFieldBytes | sw/src/disk.c:290-292 | The 16 header bytes are readable and 0xD5 occurs once among them, as the first mark |
| DiskStream.ReadAddressField | sw/src/disk.c:414-423 | The address field gives back volume, track and physical sector, with a checksum that matches |
| DiskStream.UnchainGcr | sw/src/disk.c:460-471 | Looking up and unchaining the 343 data bytes from any point on gives the buffers' values and ends at checksum 0 |
| DiskStream.ReadDataField | sw/src/disk.c:455-491 | The data field decodes to the sector it was made from |
| DiskStream.SectorStreamBytes | sw/src/disk.c:444-491 | In the 366 bytes of a sector 0xD5 is exactly the first mark of the address and of the data prologue; every byte is readable |
| DiskStream.ReadSectorStream | sw/src/disk.c:414-492 | For every sector, volume, track and sector number, and behind any sync bytes: a reader recovers the address and all 256 bytes |
| DiskCache.TrackCache.constructor | sw/src/disk.c:898-914 | No cache line claims a track of the disk |
| DiskCache.TrackCache.Lookup | sw/src/disk.c:46-59 | A sector is found exactly when its line is for that track and its valid bit is set, and then at its 256 bytes |
| DiskCache.TrackCache.Request | sw/src/disk.c:64-105 | A request changes state and sends its text as the specification function says, in all branches: busy, other track or volume, whole track, no room |
| DiskCache.TrackCache.SectorChecksum | sw/src/disk.c:111-117 | The XOR of the sector's bytes, which ChecksumIsParity says bit by bit |
| DiskCache.TrackCache.Digit | sw/src/disk.c:654-663 | A payload digit is the high half of a byte or completes it |
| DiskCache.TrackCache.Open | sw/src/disk.c:540-572 | `#TTS` starts sector S and discards partial data; TT is not looked at |
| DiskCache.TrackCache.Close | sw/src/disk.c:573-613 | `=CC` sets the bit of the current sector exactly when CC is the checksum of its bytes |
| DiskCache.TrackCache.Volume | sw/src/disk.c:640-642 | `@VV` inside a response changes the volume of the external drive only |
| DiskCache.TrackCache.Advance | sw/src/disk.c:538-665 | One round of the parsing loop equals the specification's round, for every character |
| DiskCache.TrackCache.ParseRead | sw/src/disk.c:538-665 | The loop over one USB read equals the recursive parser, stale bytes behind the data included |
| DiskCache.TrackCache.Poll | sw/src/disk.c:511-690 | One call while reading: a delivery, an empty read, or a step of the watchdog |
| DiskCache.TrackCache.InsertDisk | sw/src/disk.c:695-713 | Inserting a disk flushes the external line and forgets the partial sector |
| DiskCache.RoundIsApply | sw/src/disk.c:538-665 | A round that stands at a whole token consumes that token and has its meaning |
| DiskCache.ParseIsRun | sw/src/disk.c:538-665 | A read that consists of whole tokens parses to the meanings of its tokens in order |
| DiskCache.CharacterIsSkipped | sw/src/disk.c:640-663 | The character behind `@VV` makes no difference |
| DiskHost.GetHexIsValue | sw/src/disk.c:132-150 | A digit is read as its value in either case, and nothing else is a digit |
| DiskHost.SaysIsNumeral | sw/src/disk.c:575-583 | Two characters are taken for a checksum exactly if they are its numeral |
| DiskHost.VolumeIsRead | sw/src/disk.c:640-642 | `@VV` inside a response makes VV the volume of the external drive and changes no line |
| DiskHost.CommandIsRead | sw/src/disk.c:78-99 | A host that reads hexadecimal numerals reads a command as the track and sector, or the whole track, it was made from |
| DiskHost.CommandIsPrinted | sw/src/disk.c:95-95 | The text is what the formatter of the firmware prints for its format |
| DiskHost.TrackCommandIsPrinted | sw/src/disk.c:81-81 | The same of a command for a whole track |
| DiskHost.RequestIsOrder | sw/src/disk.c:64-105 | A command is sent exactly by an idle external drive with room for the longest of its kind; the host reads the track and sector requested |
| DiskHost.ChecksumIsParity | sw/src/disk.c:111-117 | The checksum is the only byte in which each bit says whether an odd number of the sector's bytes have it |
| DiskHost.SaysIsClaim | sw/src/disk.c:573-583 | A record is believed exactly if its two digits are the numeral of that parity |
| DiskCoherence.PairIsByte | sw/src/disk.c:654-663 | Two payload digits in a row are the numeral of a byte |
| DiskCoherence.PayloadLoads | sw/src/disk.c:643-664 | 512 payload digits, with any blanks between bytes, spell exactly the sector's bytes into its place |
| DiskCoherence.RecordStores | sw/src/disk.c:538-664 | The tokens of a record `#TTS` payload `=CC`: the sector holds the payload, its bit is set if CC is the numeral of the parity, nothing else changes |
| DiskCoherence.DamagedByteIsRefused | sw/src/disk.c:573-595 | With the checksum of the intended sector, the tokens of a record damaged in any single byte change no valid bit |
| DiskCoherence.TokenKeeps | sw/src/disk.c:538-664 | Every token of an honest answer is defined and keeps parser and host in step and the cache coherent |
| DiskCoherence.ReadIsRun | sw/src/disk.c:523-665 | A read of whole tokens of an honest answer is the run of these tokens |
| DiskCoherence.AskKeeps | sw/src/disk.c:64-105 | A request, refused or sent, keeps the invariant of cache, parser, host and data under way |
| DiskCoherence.QuietKeeps | sw/src/disk.c:680-689 | So does a poll that finds nothing, the one that gives the answer up included |
| DiskCoherence.DeliverKeeps | sw/src/disk.c:514-713 | A USB read of any part of the data under way is defined and keeps the invariant; outside a response it is thrown away |
| DiskCoherence.EventKeeps | sw/src/disk.c:46-106 | Every event of the system keeps the invariant |
| DiskCoherence.CacheCoherence | sw/src/disk.c:46-713 | On every run, timeouts and disk changes included, in which no request is sent while an answer given up is still coming in, and the host answers the commands as it reads them: nothing undefined happens, and a sector found in the cache is the host's sector at that track and number |
| DiskCoherence.StartIsCoherent | sw/src/disk.c:706-713 | The invariant holds when nothing is owed and nothing is marked valid |
| DiskAnswers.PollsAreRun | sw/src/disk.c:511-690 | However an answer is cut into reads between its tokens, and whatever polls find nothing in between, short of giving up: the polls are defined exactly if the run of its tokens is, and leave the same cache |
| DiskAnswers.CanArrive | sw/src/disk.c:523-526 | Every sequence of whole tokens can arrive in such reads |
| DiskAnswers.RecordArrives | sw/src/disk.c:538-664 | A record in any number of reads: the sector holds its payload, its bit and no other is set, exactly if the two digits are the numeral of the payload's parity, and all other sectors of both drives stay |
| DiskAnswers.DamagedRecordArrives | sw/src/disk.c:573-595 | A record with one damaged byte, in any number of reads, changes no mark: the damage is refused if and only if the sector was not valid before |
| DiskFailures.LateRecord | sw/src/disk.c:562-567 | A late record is stored, and believed, under the track asked for since, whatever its own track digits say |
| DiskFailures.TailIsUndefined | sw/src/disk.c:573-659 | The rest of a record, from any digit on, met without a place to put it, is stored or summed through the null pointer |
| DiskFailures.AbandonedAnswer | sw/src/disk.c:538-689 | A request is sent while an answer given up is still coming in, however much of it has been thrown away since: what the rest does is defined if and only if the host is then between two records, and then it leaves the cache right for every disk if and only if the track is the same or no record is left |
| DiskFailures.AbandonedIsRead | sw/src/disk.c:511-690 | The same of the polls that read the rest, in whatever pieces it arrives |
| DiskFailures.AbandonedAtOnce | sw/src/disk.c:680-689 | If the request follows the giving up at once, the place where the answer was given up decides |
| DiskFailures.ImpatientRunFails | sw/src/disk.c:538-689 | On every disk, for every track and sector, a concrete run of an honest host that asks twice for the same sector and ends in a store through the null pointer |
| DiskFailures.SignedIsCongruent | sw/src/disk.c:68-70 | The volume of a drive is read as a number from -128 to 127 |
| DiskFailures.SignedNeverEqual | sw/src/disk.c:68-70 | A signed and an unsigned byte, widened, are the same if and only if they are the same byte below 128 |
| DiskFailures.HighVolumeForgets | sw/src/disk.c:68-76 | Another request for the same track and volume keeps the cached sectors if and only if the volume is below 128 |
| DiskFailures.HighVolumeRun | sw/src/disk.c:64-105 | With volumes from 128 on, at every moment of every run: a request that is sent leaves no sector in the cache |
| DiskHead.InterleaveInverse | sw/src/disk.c:38-42 | The two interleave tables are inverse permutations of 0..15 |
| DiskHead.TwoPlacesApart | sw/src/disk.c:38-42 | From a sector to the one before it are two places round the track; 0 and 15 stay where they are |
| DiskHead.TrackIsUnderArm | sw/src/disk.c:377-388 | The track of an arm position is the one whose two steps it stands on |
| DiskHead.SoughtIsNext | sw/src/disk.c:386-395 | Told of the track under the arm: DOS's sector is sought when drive or track changed and DOS means this track, the sector before otherwise |
| DiskHead.DiskDrive.constructor | sw/src/disk.c:266-292 | The head starts idle with the marks of the header in place |
| DiskHead.DiskDrive.FillHeader | sw/src/disk.c:414-423 | The header buffer becomes the address field of volume, track and sector |
| DiskHead.DiskDrive.Choose | sw/src/disk.c:386-395 | The sector is kept unless drive or track changed and DOS names the new track |
| DiskHead.DiskDrive.Prepare | sw/src/disk.c:396-438 | A cached sector is put into the buffers in six-bit form and the header starts; otherwise the head stays idle |
| DiskHead.DiskDrive.SendHeader | sw/src/disk.c:444-454 | The next header byte; after the sixteenth the data field begins with a cleared chain |
| DiskHead.DiskDrive.SendData | sw/src/disk.c:455-491 | The next byte of prologue, chained data, checksum or epilogue; after the last one the head is idle on the sector before |
| DiskHead.DiskDrive.SendByte | sw/src/disk.c:444-494 | Header and data together send the sector's stream, byte by byte |
| DiskHead.DiskDrive.Miss | sw/src/disk.c:426-432 | A missing sector is requested, the command goes out, and a sync byte is sent |
| DiskHead.DiskDrive.Resume | sw/src/disk.c:444-494 | A call on a busy head is a step of the machine specified |
| DiskHead.DiskDrive.Fetch | sw/src/disk.c:396-443 | The first byte of a cached sector, or a request |
| DiskHead.DiskDrive.FromIdle | sw/src/disk.c:381-443 | A call on an idle head is a step of the machine specified |
| DiskHead.DiskDrive.UpdateHead | sw/src/disk.c:295-495 | `disk_update_head`, arm moves and cache misses included, is a step of the machine specified, whenever the sector it takes is an index of the interleave table |
| DiskHead.DiskDrive.Reset | sw/src/disk.c:829-832 | An arm driven against track 0, or a new disk, drops the sector in progress |
| DiskRuns.CallByte | sw/src/disk.c:377-491 | Whatever a call sends is readable, and it is 0xD5 exactly when it is the first mark of a field |
| DiskRuns.MarkIsFollowed | sw/src/disk.c:444-459 | While the arm stays, 0xD5 is followed by 0xAA and then 0x96 or 0xAD |
| DiskRuns.NeverThreeZeros | sw/src/disk.c:377-491 | On every run, arm moves, cache misses and disk changes included, the bit stream never has three zeros in a row |
| DiskRuns.RestOfSector | sw/src/disk.c:444-491 | With the arm still, a sector in progress is sent to its end, whatever happens to the cache and whatever DOS's parameters say |
| DiskRuns.StillIsAllowed | sw/src/disk.c:386-395 | With drive and arm where they were DOS's sector is never taken, so that every such run is defined |
| DiskRuns.SectorPasses | sw/src/disk.c:377-492 | 366 calls with the arm still over a track send the sector as it was cached at the first call; the reader recovers the track's number, the physical sector and the data; the head moves to the sector before |
| DiskRuns.TrackPasses | sw/src/disk.c:475-483 | Over a cached track, n times 366 calls send n whole sectors in descending logical order, without a gap |
| DiskTogether.CacheIsShared | sw/src/disk.c:425-432 | In the joint system a head call leaves the cache, and the host reads the command, that the head routine leaves and sends |
| DiskTogether.RunKeeps | sw/src/disk.c:46-106 | On every joint run without an impatient request the invariant of the cache holds |
| DiskTogether.HostSectorPasses | sw/src/disk.c:295-495 | After any joint run of head, cache, parser and host: 366 calls with the arm still over a track, of which the sector sought is cached, are read back as the host's sector of that track under its own address |
| DiskWaiting.TokensBring | sw/src/disk.c:538-664 | Tokens of an honest answer with a record for a sector end with the sector valid or inside its record, whatever else is in them |
| DiskWaiting.DeliverBrings | sw/src/disk.c:514-665 | A sector due stays due through every read, until the answer ends and it is there |
| DiskWaiting.CallWaits | sw/src/disk.c:424-432 | A call of the waiting head finds the host's sector, or sends a sync byte, is refused its request and changes nothing |
| DiskWaiting.OrderIsSought | sw/src/disk.c:377-432 | A command sent by the head is read by the host as the sector sought on the track under the arm |
| DiskWaiting.MissedSectorPasses | sw/src/disk.c:295-690 | After any joint run: the head sends a command, the host fulfils it as it reads it with an honest answer that comes in whole, the calls and polls interleaved at will. Then the command was for the sector sought on the track under the arm, and if 366 calls follow, what has been written since reads back as the host's sector of that track |
| FlashWriter.FlashController.constructor | sw/src/flash.c:442-449 | Memory mapped, user mode, whatever the chip holds |
| FlashWriter.FlashController.ReadFlash | sw/src/flash.c:77-85 | The bytes asked for in user mode; 0 and nothing otherwise |
| FlashWriter.FlashController.ScanRaises | sw/src/flash.c:154-169 | Whether a byte needs a bit raised, and where the scan stops |
| FlashWriter.FlashController.ScanBlank | sw/src/flash.c:178-184 | Whether the bytes scanned are all 0xFF |
| FlashWriter.FlashController.ScanPages | sw/src/flash.c:200-218 | The page mask, as the loop that never moves its pointers gives it |
| FlashWriter.FlashController.Decide | sw/src/flash.c:154-198 | When an erase is needed and when that refuses the request |
| FlashWriter.FlashController.Start | sw/src/flash.c:221-243 | An accepted request: parameters, first mode, and the reply |
| FlashWriter.FlashController.WriteFlash | sw/src/flash.c:93-244 | `write_flash` equals its specification on every request in every state: repeated, busy, unsafe, too big, across sectors, needing an erase |
| FlashWriter.FlashController.BeginErase | sw/src/flash.c:347-347 | Erases one sector above the safe address |
| FlashWriter.FlashController.BeginWrite | sw/src/flash.c:397-397 | ANDs the bytes into one page above the safe address |
| FlashWriter.FlashController.FindPage | sw/src/flash.c:365-371 | Stops at the next page marked |
| FlashWriter.FlashController.ProgramCurrent | sw/src/flash.c:372-404 | Programs the marked page, its bytes clipped to the page and to what remains |
| FlashWriter.FlashController.ProgramNext | sw/src/flash.c:358-404 | The programming branch of `flash_task` |
| FlashWriter.FlashController.FlashTask | sw/src/flash.c:325-440 | `flash_task` equals its specification in every state and for every answer of the chip |
| FlashRuns.NextCommand | sw/src/flash.c:365-404 | The next program command: its page, its offset in the transfer, and that it stays in one page above the safe address |
| FlashRuns.TaskKeeps | sw/src/flash.c:325-440 | Every task call keeps the invariant of the transfer |
| FlashRuns.WriteKeeps | sw/src/flash.c:93-244 | Every request keeps the invariant of the transfer |
| FlashRuns.TaskProgress | sw/src/flash.c:325-440 | A busy call changes nothing; a ready call shortens the transfer |
| FlashRuns.LowFlashUntouched | sw/src/flash.c:131-136 | On every run nothing below 0x80000 changes |
| FlashRuns.GuardNeverFires | sw/src/flash.c:339-364 | The guard of `flash_task` against unsafe addresses is never needed |
| FlashRuns.CommandsAreSafe | sw/src/flash.c:131-147 | On every run from user mode each erase covers a whole safe sector, each program stays in one safe page, and bit-banging is on exactly outside user mode |
| FlashRuns.ReturnsToUserMode | sw/src/flash.c:325-440 | Interleaved with any requests and reads, as many ready calls as the measure bring back user mode |
| FlashRuns.PagesAreTouched | sw/src/flash.c:373-392 | The pages counted are exactly the 256-byte pages that hold a byte of the transfer |
| FlashRuns.AcceptedMeasure | sw/src/flash.c:203-243 | That measure is at most the pages the transfer touches plus three, for every address and size |
| FlashRuns.AcceptedReturns | sw/src/flash.c:325-440 | So pages plus three ready calls end every accepted transfer, whatever comes in between |
| FlashRuns.RunFinishes | sw/src/flash.c:325-440 | Every run up to the end of a transfer ends in the same state |
| FlashTransfer.FinishWrite | sw/src/flash.c:365-404 | The pages still marked, programmed one after the other, are one program of all remaining bytes, read as the pages after a partial first one read them |
| FlashTransfer.BaseTakes | sw/src/flash.c:154-198 | If no erase is done, old AND new is new |
| FlashTransfer.AcceptedFlash | sw/src/flash.c:221-404 | What any accepted transfer leaves in the flash, wherever its buffer lies |
| FlashTransfer.TransferWrites | sw/src/flash.c:154-244 | A transfer whose source and destination lie alike in their pages leaves the bytes asked for if and only if the page scan took it (its first byte differs from the flash, or nothing does); outside it only the erase shows |
| FlashTransfer.UnalignedTransfer | sw/src/flash.c:376-388 | For every transfer that begins inside a page: the first page arrives, and all of it does if and only if each later byte is what the byte at the shifted place leaves |
| FlashTransfer.ImmediateAnswer | sw/src/flash.c:131-239 | An answer with the size that comes at once has changed nothing; it comes exactly for requests out of range, for an erase in the middle of a sector (and then the bytes are not there), and for aligned transfers whose first byte is in place |
| FlashTransfer.FirstByteHidesTheRest | sw/src/flash.c:210-217 | A blank sector asked to hold 0xFF 0x00 ...: reported as done, nothing written |
| FlashTransfer.RetryReportsSize | sw/src/flash.c:98-118 | Once the transfer is over, the repeated request is answered with its size |
| FlashTransfer.FirstChunk | sw/src/flash.c:173-184 | The first 512 bytes of a sector leave the rest of it blank |
| FlashTransfer.LaterChunk | sw/src/flash.c:158-184 | A later chunk finds a blank place and disturbs nothing |
| FlashTransfer.BlockWrite | sw/src/msc_flash.c:141-147 | Eight 512-byte requests, each settled: the sector holds the block if and only if every chunk's first byte differs from what it replaces (or the chunk is there already); every other sector keeps its contents |
| FlashRetries.RepeatsFinish | sw/src/flash.c:93-126 | Repetitions, reads, busy answers and other requests do not change where a transfer under way ends |
| FlashRetries.AnsweredWhenDone | sw/src/flash.c:98-118 | The repeated request is answered with its size exactly when the transfer is over, and then everything is as if it had run on its own |
| FlashRetries.BlockRun | sw/src/msc_flash.c:141-147 | The same of one whole run: eight requests repeated until they are answered, with busy answers, reads and other requests in between |
| Crc32.EightBits | sw/src/crc32.c:21-24 | The inner loop is eight steps of the register |
| Crc32.ComputeCrc | sw/src/crc32.c:15-27 | The nested loops compute the checksum specified |
| Crc32.StepInjective | sw/src/crc32.c:22-23 | The bit step loses nothing |
| Crc32.StepLinear | sw/src/crc32.c:22-23 | The bit step commutes with exclusive or |
| Crc32.FoldInjective | sw/src/crc32.c:19-25 | Equal registers after equal bytes were equal before |
| Crc32.FoldIsSpread | sw/src/crc32.c:19-25 | Up to four bytes act as one exclusive or followed by all their steps |
| Crc32.BurstDetected | sw/src/crc32.c:15-27 | Damage inside four consecutive bytes of a message of any length changes the checksum |
| Crc32.WindowDetected | sw/src/crc32.c:15-27 | Two messages of any equal length that differ only within a window of four bytes and have the same checksum are the same |
| Crc32.ResidueIsConstant | sw/src/crc32.c:15-27 | A message followed by its own checksum leaves the register in a fixed state |
| CrcDivision.StepDivides | sw/src/crc32.c:20-24 | One bit is one step of a polynomial division by the generator of IEEE 802.3 |
| CrcDivision.FoldDivides | sw/src/crc32.c:19-25 | The register after any bytes is the remainder of their bits, the lowest of each byte first |
| CrcDivision.CrcIsRemainder | sw/src/crc32.c:15-27 | The checksum of every message is the complement of that remainder |
| BootImage.UnpackPack | bin/genruntime.py:109-114 | Packing a word and reading it back is the identity, and the lowest byte comes first |
| BootImage.Padded | bin/genruntime.py:85-87 | Zero bytes up to the next multiple of four, and no more |
| BootImage.Dfu.Align | bin/genruntime.py:85-87 | The object, padded |
| BootImage.Dfu.Combine | bin/genruntime.py:71-92 | Appends a bitstream padded to a word, or magic, location, length, checksum and padded object |
| BootImage.Copy | sw/src/bios.c:57-59 | Copies the payload and adds it to the sum |
| BootImage.CountIs | sw/src/bios.c:42-59 | The words copied are those that hold the length in bytes; none from 2 GB on |
| BootImage.LoadRuntime | sw/src/bios.c:27-76 | The loader equals its specification on every image that ends in a word that is no magic |
| BootRoundTrip.SumVanishes | bin/genruntime.py:94-100 | The checksum and the payload sum to 0 modulo 2^32 |
| BootRoundTrip.HeaderBegins | bin/genruntime.py:80-89 | The first four bytes of an object in the image |
| BootRoundTrip.CombinedWords | bin/genruntime.py:80-92 | The words of what `combine` appends |
| BootRoundTrip.ImageWords | bin/genruntime.py:60-69 | The words of a whole image |
| BootRoundTrip.LoadParts | sw/src/bios.c:39-70 | Loading the words of the parts places every part, in order, and stops at the pad |
| BootRoundTrip.EveryPartInMemory | sw/src/bios.c:57-59 | With disjoint destinations every padded object is in memory afterwards |
| BootRoundTrip.RoundTrip | sw/src/bios.c:39-76 | Packing then loading ends, puts every object at its address and starts the last executable in main memory |
| BootRoundTrip.LastByteIsNotForCode | sw/src/bios.c:47-50 | An executable that fits into main memory is started if and only if it does not end where the memory ends |
| BootRoundTrip.BootsExactlyWhen | sw/src/bios.c:39-74 | For any objects: the last executable in main memory is started exactly if it and every object behind it sum to zero; otherwise nothing boots |
| BootRoundTrip.DamagedWordIsNoticed | sw/src/bios.c:57-66 | Changing one word of a payload spoils its sum |
| Spram.PdpSpram.Access | hw/rtl/pdpspram.py:97-118 | One access through the multiplexer: the old word comes out, the selected lanes go in |
| Spram.PdpSpram.Clock | hw/rtl/pdpspram.py:73-136 | One clock equals the step specified |
| Spram.WriteIsExact | hw/rtl/pdpspram.py:97-118 | A byte of memory changes only if this clock writes its lane |
| Spram.ShownNext | hw/rtl/pdpspram.py:85-96 | After its own access the 6502 sees the byte addressed; after any other clock it sees what it saw |
| Spram.Sees6502 | hw/rtl/pdpspram.py:85-128 | On every trace the 6502 sees the byte of its last access until its next one, undisturbed by Wishbone |
| Spram.StaysSound | hw/rtl/pdpspram.py:129-135 | No acknowledge while an access is open, on every trace |
| Spram.AckIsShort | hw/rtl/pdpspram.py:129-135 | An acknowledge lasts one clock |
| Spram.AckMeansDone | hw/rtl/pdpspram.py:109-135 | With requests held until acknowledged, an acknowledge means the data wires carry the requested word, or the new bytes are in memory |
| Spram.AckComes | hw/rtl/pdpspram.py:129-135 | A held request is acknowledged by the clock after the second one not taken by the 6502 |
| VideoFifo.VideoDriver.Clock | hw/rtl/apple2.py:363-556 | One clock changes the registers and pushes a word as specified |
| VideoFifo.ScreenPosition | hw/rtl/apple2.py:369-382 | The address of row v, column h of the screen converts to (h, v) |
| VideoFifo.ScreenAddressOf | hw/rtl/apple2.py:369-382 | Every address of the page outside the eight-byte holes is one screen position |
| VideoFifo.SelectedAddresses | hw/rtl/apple2.py:364-365 | Exactly 0x400-0x7FF and 0x8400-0x87FF are taken for the frame buffer |
| VideoRuns.RunIsMaximal | hw/rtl/apple2.py:387-392 | The runs of the reference are maximal runs of scrolling writes |
| VideoRuns.CompressGrows | hw/rtl/apple2.py:387-392 | One more write adds its words at the end of the compressed stream |
| VideoRuns.RegistersAgree | hw/rtl/apple2.py:471-554 | On every trace the registers are the reference's view of the accesses: scrolling, the read that counts, the last write |
| VideoRuns.SaveIsScrollEnd | hw/rtl/apple2.py:542-554 | The register that delays a word is set exactly after a write that ends a scroll of the reference |
| VideoRuns.StreamIsCompressed | hw/rtl/apple2.py:410-452 | On every trace the words pushed, and the one owed after a scroll end, are the compressed accesses if and only if no clock after a write that ends a scroll meets a full FIFO or another write; each that does shortens the stream by one |
| VideoRuns.NothingLost | hw/rtl/apple2.py:542-554 | Nothing is lost if no two frame-buffer writes are in adjacent clocks and each scroll end finds two places |
| VideoScroll.CellsMove | hw/rtl/apple2.py:384-405 | Any number of cells moved up one after the other, with pauses, push one word, at the first |
| VideoScroll.ScrollIsTwoWords | hw/rtl/apple2.py:384-554 | A scroll on the bus, every row loaded one line below and stored right to left with the read before each store, of any rows and characters: its first place and character, with the next other store its last place and character, and a clock later that store |
| VideoScroll.TwoStoresSettle | hw/rtl/apple2.py:471-554 | After any trace, two stores with nothing between them and a quiet clock end whatever was on |
| VideoScroll.ScrollInStream | hw/rtl/apple2.py:384-554 | The same in the stream of every trace whose registers have settled |
| Fat12.NextClusterIsTheEntry | sw/src/fat.c:120-143 | Over every packed table the entry of a cluster of the volume is returned, and -1 for anything else |
| Fat12.PackedEntry | sw/src/fat.c:128-142 | Two entries in three bytes come apart again |
| Fat12.ClusterNumberInvertsLookup | sw/src/fat.c:85-113 | An address has cluster number c exactly when it lies in the sector found for c |
| Fat12.ClustersAreDisjoint | sw/src/fat.c:108-113 | Different clusters have disjoint sectors |
| Fat12.DataRegion | sw/src/fat.c:536-567 | Clusters begin where the root directory ends; all of them end inside the volume if and only if the root directory fills whole sectors (or there is no cluster, or no table and less than a sector of directory) |
| Fat12.TableIsClear | sw/src/fat.c:536-551 | The table lies between boot sector and root directory if and only if one sector is reserved |
| FatFile.File.constructor | sw/src/stdio.c:13-13 | A place in the table of files that is free |
| FatFile.File.Attach | sw/src/fat.c:611-623 | A file just opened stands at the start of its first cluster |
| FatFile.File.Close | sw/src/fat.c:629-632 | A closed file is refused from then on; nothing else changes |
| FatFile.File.Drain | sw/src/fat.c:695-712 | Copies what the buffer has, as much as is wanted, to where the caller's buffer stands |
| FatFile.File.Fill | sw/src/fat.c:729-734 | Points the buffer at the next cluster |
| FatFile.File.Read | sw/src/fat.c:684-739 | `read` ends on every table and leaves bytes, return value, `errno` and position as the specification says, in all branches; the rest of the buffer is untouched |
| FatChain.ReadFollowsPath | sw/src/fat.c:692-738 | One read along any path of clusters: exactly the bytes from here on; short only at its end, where an end mark means end of file and anything else an error |
| FatChain.ReadsFollowPath | sw/src/fat.c:684-739 | Any sequence of reads from any position of a chain |
| FatChain.ReadsAreAPrefix | sw/src/fat.c:611-739 | From opening, the pieces of any sequence of reads are the prefix of the clusters' contents of length min(sum of sizes, all); the end is seen exactly if more was asked for, and no error |
| FatChain.CyclicRead | sw/src/fat.c:692-738 | On a cyclic table every read succeeds in full, going round |
| FatChain.EmptyFile | sw/src/fat.c:612-614 | A file without a cluster is not empty: the sector at address 0 is read, and only behind it the end is seen |
| FatNames.PrintName | sw/src/cli.c:128-137 | The loop prints the base up to its first space, a dot and three characters |
| FatNames.Munge | sw/src/fat.c:399-457 | The pattern is that of the specification and ends in NUL; the index never passes 11 |
| FatNames.PatternsArePlain | sw/src/fat.c:399-457 | Whatever is typed, no separator, dot, NUL or lower-case letter is looked for |
| FatNames.CaseMakesNoDifference | sw/src/fat.c:456-460 | Paths that differ only in the case of letters have the same pattern |
| FatNames.NameTyped | sw/src/fat.c:399-478 | Base, dot and extension, in characters: capitals padded with blanks; of a base of more than eight characters six, a tilde and a star |
| FatNames.StarTyped | sw/src/fat.c:425-439 | A star stands for the rest of the base, and of the extension |
| FatNames.NameEnds | sw/src/fat.c:403-413 | A name ends at a slash, a backslash or NUL, and nothing behind counts |
| FatNames.PrintedThenMunged | sw/src/fat.c:399-457 | For plain names: the base up to its first space, padded, and the extension; a star fills up its part, and with anything but stars behind it the base becomes the pattern of a long name |
| FatNames.PrintedNameRoundTrip | sw/src/fat.c:399-457 | A printed name munges back to the 11 bytes of its entry if and only if they are plain, the base has no space inside, and stars fill up their part (or spell the pattern of a long name) |
| FatRoot.Dir.constructor | sw/src/fat.c:158-163 | The root directory opens at its first entry |
| FatRoot.MountedHasRoot | sw/src/fat.c:550-563 | Mounting leaves a root directory that ends where cluster 2 begins |
| FatRoot.Dir.ReadDir | sw/src/fat.c:277-317 | The next entry, none at the first empty name or at the end of the directory; an empty directory has the entries of a sector |
| FatRoot.Dir.ScanDir | sw/src/fat.c:323-368 | The loop ends and finds what the specification finds |
| FatRoot.ListedStops | sw/src/fat.c:313-316 | The listing ends at the first empty name or with the directory |
| FatRoot.DeletedIsListed | sw/src/fat.c:334-347 | An entry marked as deleted is listed, and found by its bytes |
| FatRoot.SearchFindsTheOnlyHit | sw/src/fat.c:323-368 | An entry is returned exactly when it is the only match that is no label; ENOENT exactly when there is none, ENAMETOOLONG exactly when there are several |
| FatRoot.DeletedCount | sw/src/fat.c:323-368 | A search finds what one over the files that are there finds if and only if no deleted entry is a match, or several files are |
| FatRoot.DeletedMatter | sw/src/fat.c:340-347 | A pattern does so on every volume if and only if it begins with neither a star nor the mark of a deleted file |
| FatRoot.PrintedNameFindsEntry | sw/src/fat.c:323-460 | Typing a printed name, in any mixture of cases, finds its entry if and only if the name is plain, its base has no space inside, and no other file or directory has the same name |
| FatOpen.FileTable.constructor | sw/src/stdio.c:13-13 | A table of free places |
| FatOpen.FileTable.SkipSeparators | sw/src/fat.c:389-394 | Skips the separators a path begins with, and sees whether there is anything else |
| FatOpen.FileTable.Fopen | sw/src/fat.c:578-624 | `fopen` takes the first free place and puts the file at the start of its entry's first cluster, or refuses with the error of the first test that fails; all other places stay as they are |
| FatOpen.PrintedNameReads | sw/src/fat.c:376-739 | The printed name of an entry, plain and borne by no other, in any mixture of cases, finds that entry after any separators, and any sequence of reads of what is opened gives the prefix of that entry's chain |
| FatOpen.RootOpensAsFile | sw/src/fat.c:389-392 | On every mounted volume a path of separators passes `fopen`'s test for directories, with the boot sector as its entry |
| FatLayout.MountReadsFields | sw/src/fat.c:513-567 | Of a boot sector written field by field: which are accepted, where table, root directory and clusters are put, and how many clusters there are when the root directory fills whole sectors |
| FatLayout.EntryFields | sw/include/fsfat.h:96-112 | Of a directory entry written field by field: its name, whether it is a label or a directory, and its first cluster are read |
| Morse.MorseInput | sw/src/morse.c:241-253 | Types the first entry of the table with this pattern, or nothing |
| Morse.PatternsDiffer | sw/src/morse.c:69-134 | No two characters have the same pattern |
| Morse.FindReaches | sw/src/morse.c:241-253 | The pattern of a character types that character |
| MorseCode.TableIsCode | sw/src/morse.c:69-134 | Every character has the dits and dahs of its Morse code |
| MorseSend.Transmitter.Dequeue | sw/src/morse.c:340-360 | Takes one character, if there is one, and gives its pattern |
| MorseSend.Transmitter.StartBit | sw/src/morse.c:485-490 | The loop ends at the highest bit of the pattern |
| MorseSend.Transmitter.TransmitTask | sw/src/morse.c:475-561 | One call equals the call specified, spaces and control signs included; a character is taken exactly when one is looked for |
| MorseRuns.CallKeepsStep | sw/src/morse.c:475-561 | Every call keeps transmitter and listener in step: sent bits are heard bits, letters end in at least three units |
| MorseRuns.TextArrives | sw/src/morse.c:340-561 | Whenever characters other than spaces are printed between the calls, a listener has typed a prefix of them; one letter is on its way and the rest is waiting |
| MorseRuns.EverythingArrives | sw/src/morse.c:475-561 | After sixteen calls a character everything printed has been typed |
| MorseRuns.UpperCaseIsKept | sw/src/morse.c:351-358 | Characters 33 to 95 arrive as they are |
| MorseRuns.NoBlankHeard | sw/src/morse.c:241-253 | No light makes a listener type a blank letter |
| MorseRuns.HeardIfNoBlank | sw/src/morse.c:340-561 | For every text and every timing: in the end a listener has typed exactly the text if and only if there is no space in it |
| MorseRuns.LeadingSpaceIsHeardAsO | sw/src/morse.c:482-487 | Every text that begins with a space is heard beginning with the letter O, after seven calls at the latest |
| MorseTiming.TempoIsKept | sw/src/morse.c:475-561 | Whatever is printed without a space and however the calls fall: signals of one or three units, one unit of darkness within a letter, at least three behind it |
| MorseTiming.WordGapIsSeven | sw/src/morse.c:517-545 | A space behind a letter makes seven units of darkness |
| MorseTiming.PauseIsFifteen | sw/src/morse.c:519-532 | With nothing to send the light stays dark for fifteen units at a time |
| MorseTiming.LowerCaseIsHeard | sw/src/morse.c:351-358 | Small letters are heard as capitals |
| Scheduler.OperatingSystem.constructor | sw/src/main.c:811-811 | No task is active |
| Scheduler.OperatingSystem.RunTask | sw/src/main.c:813-823 | A task is started exactly if it is not on the call stack; mask and stack are restored |
| Scheduler.OperatingSystem.Task | sw/src/main.c:813-823 | A task that yields any number of times leaves mask and stack as they were |
| Scheduler.OperatingSystem.Yield | sw/src/main.c:838-857 | A yield ends, starts exactly the idle tasks in list order, and leaves mask and stack as they were; at any depth no task is started that is on the stack |
| Scheduler.OperatingSystem.RunTaskList | sw/src/main.c:825-836 | The same for the main loop |
| Scheduler.TaskEnters | sw/src/main.c:814-821 | Setting the bit keeps the mask equal to the set of tasks on the stack, each there once, and leaves fewer idle tasks: nesting ends |
| Scheduler.BitsAreApart | sw/src/main.c:814-821 | Setting and clearing a task's bit touches no other |
| Scheduler.EachTaskOnce | sw/src/main.c:825-836 | A yield starts every task with a clear bit exactly once, but for touch and command line, which it never starts |
| Stdio.Stream.Fputc | sw/src/stdio.c:67-88 | Appends a character, or refuses it and keeps the queue when the ring is full |
| Stdio.Stream.Fgetc | sw/src/stdio.c:123-141 | Takes the oldest character; EOF exactly on an empty ring |
| Stdio.Stream.Ungetc | sw/src/stdio.c:177-191 | Undoes `fgetc`; on a full ring everything is lost |
| Stdio.Stream.FormatS | sw/src/stdio.c:203-234 | Prints the padded text, as much as fits, and returns its whole length |
| Stdio.Stream.Convert | sw/src/stdio.c:256-263 | The digits, backwards, without leaving the buffer |
| Stdio.Stream.FormatN | sw/src/stdio.c:240-277 | Prints the number with sign, width and padding, as much as fits |
| Stdio.Atox | sw/src/cli.c:32-48 | The value of the leading hexadecimal digits, modulo 2^32 |
| Stdio.ValueOfDigits | sw/src/cli.c:32-48 | The digits of a word read back as the word |
| Stdio.ShiftedDiffers | sw/src/cli.c:32-48 | Zeros behind a number that is not 0 always change it, also modulo 2^32 |
| Stdio.HexRoundTrip | sw/src/stdio.c:240-277 | A word printed with `%x` in any width and padding reads back as itself if and only if it is 0, fills the width, or was padded with zeros in front or blanks behind |
| Stdio.ReadAll | sw/src/stdio.c:123-141 | Taking characters until the end of file empties a ring in order |
| Stdio.HexThroughRing | sw/src/stdio.c:67-88 | A word printed into an empty ring with room, taken out again and read, is the same under the same condition, wherever the ring stands |
| Decimal.DecimalRoundTrip | sw/src/stdio.c:240-277 | Every integer printed with `%d` or `%u` in any width and padding is as wide as asked or needed, and reads as itself if and only if it is 0, fills the width, or has no zeros behind |

## Left out

- `lseek`: its loop neither advances its position nor follows the chain.
- Subdirectories: the successor of a directory cluster is looked up from a pointer that has moved on already. Paths of several components, `opendir`'s slot search and `align32` go with them.
- FatOpen.FileTable.Fopen: asks for a path of at most one name, because what follows a second one is in a subdirectory.
- 32-bit overflow of addresses in `mount`, which needs a table of half a million sectors.
- FatChain.ReadsAreAPrefix: asks for a first cluster below 0x8000, because the file keeps it in a short; FAT12 has no larger one.
- FatRoot.PrintedNameFindsEntry: names with a star are not considered, it is a wildcard on the way back and not allowed in a name.
- `read` with a size of 2 GB or more, or a file number outside the table.
- `canputc`, `fgets` and format string parsing; the test for a stream without a buffer.
- FlashTransfer.TransferWrites: asks that source and destination lie alike in their pages; UnalignedTransfer gives the exact condition for the others.
- FlashRetries.BlockRun: asks that the first request differs from the one before and that a buffer stays as it is until its request is done; completion is told by pointer, address and size, not by contents.
- `write_flash_unsafe`, which skips these checks for the command line. The `yield` inside `write_flash` is modelled as interleaving. The result of the verification read is only a message.
- DiskCoherence.CacheCoherence: asks that no request is sent while an answer given up is still coming in; AbandonedAnswer says exactly what such a request does to the rest of that answer. Tokens are not cut in two by USB reads, and the `@` of a new disk is at the beginning of one.
- DiskHead.DiskDrive.UpdateHead: asks that DOS's sector parameter is below 16 at the calls that take it, as do FromIdle and the runs of DiskRuns; with a larger one such a call reads behind the interleave table. At all other calls it may be anything.
- Whole-track checksums after `*`, `atoi` of an inserted disk's volume (an input), and the internal drive's own fill.
- The phases of the stepper motor: the arm is an input from 0 to 68. Writing to the disk: its head state is never entered.
- BootRoundTrip.RoundTrip: destinations that are not word aligned are not told apart from aligned ones; memory is by word address.
- Repeated characters in the video output: their detection is disabled in the gateware. The FIFO itself: whether it has room is an input.
- MorseRuns.TextArrives: asks for a text without spaces; HeardIfNoBlank shows that only these are heard. A listener that hears long pauses as blanks is not modelled. Times are in units; a late timer call is not modelled.
- Touch keys, LED, clock, USB and SPI transfers, terminal output of the video task, the 6502 and RISC-V cores, build scripts and simulation-only branches: device access or generated code.
- Statistics, logging and debug output, and what a task does besides yielding.

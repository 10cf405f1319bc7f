# Verification of GrandOrgue's stateful core

GrandOrgue is a virtual pipe organ. This project models the parts of it that carry state
through many steps, in Dafny, and proves what those parts promise over every input and every
run. Code that updates objects in place is a class whose methods have the loops and branches
of the original; each method is proved against a function of its inputs and old state, and the
theorems are lemmas about these functions and about the states that the methods keep.

`dafny verify dfyconfig.toml` checks the whole project.

## What is modelled

**The coupler network** (`CouplerNet`, `CouplerCascade`, `CouplerQuiet`, `CouplerRuns`,
`CouplerPaths`, `CouplerLaws`, `CouplerOrgan`). Manuals and couplers call each other: a key that changes is
offered to the couplers of its manual, a coupler passes the change to its destination manual, and so on,
around any loop and back to the same objects. A velocity v enters as 4v + 3 and loses one per
hop; the stops get it divided by four. The classes of `CouplerOrgan` have this re-entrant call
cycle. Their termination is proved for every wiring, cyclic ones included, by a sum over all
slots that every re-entrant call brings nearer to its end. `Resting` says that all slots,
coupler velocities and held keys agree, `Quiescent` that the unison-off counters and what the
stops have been told are right as well. `OrganModel.Run` says that every run of events, all
couple-through buttons included, leads back to `Resting`, and `SlotsHistoryIndependence` that
the slots, keys and velocities of such a state are determined by what the player controls.
`CouplerRuns` gives the counters after a run exactly, and with them when the run ends
`Quiescent`. `CouplerLaws` says what all this means for a key in terms of the settings of an organ
definition alone: which of the five couple-through settings passes a key to which kind of coupler,
with which velocity, to which note, and when the stops hear it.

**Archives** (`ZipFormat`, `ArchiveWriter`, `ArchiveReader`, `ArchiveTheorems`, `ArchiveLaws`). The
zip64 writer and the reader that lists an archive, byte by byte, as in sections 4.3.7 to 4.3.16
and 4.5.3 of PKWARE's APPNOTE.TXT. `ArchiveLaws` says which files are accepted in terms of bytes,
fields and the parts of names.

**SHA-1** (`Sha1`, `Sha1Answer`). The streaming implementation against sections 4.1.1, 5.1.1 and
6.1.2 of FIPS 180-4, and the example of the standard, computed round by round.

**Drawstops with logic functions** (`Drawstops`). Depth-first updates that may pass through
wrong values on the way.

**Loading with several threads** (`Loader`). A state machine over the atomic steps of the main
thread and the workers, under every interleaving.

**Settings files** (`IniFile`, `IniLaws`), **MIDI recordings** (`MidiRecorder`, `MidiFile`,
`MidiRuns`, `MidiChunks`, `MidiRoundTrip`, `MidiLaws`), **wave files** (`Wave`, `WaveFile`,
`WaveRoundTrip`, `WaveLaws`), **bass and melody couplers** (`BasMel`), **the memory pool**
(`MemoryPool`), **device names** (`DeviceNames`) and **sequencer frames** (`Sequencer`). `Arithmetic`, `Bytes`, `Options`, `Orbits` and `Sets` hold what
several modules share.

## Where the code does not do what one expects

Each of these is proved, with the exact condition where there is one.

- The couple-through button of a unison-off coupler calls `RefreshState`, which counts the
  coupler a second time. Every set of couplers of one manual with itself has such a coupler.
  The counter then drifts: after any run it is the number of engaged unison-off couplers, plus
  the presses while the coupler is on, minus those while it is off, modulo 2^32
  (`CouplerRuns.RunCounts`). A division is made right where the stops are told and where slots
  change; it is made wrong only where a counter wraps, exactly for the keys that were right and
  whose two maxima sound differently (`CouplerQuiet.UnisonTells`, `CouplerRuns.RunTells`). The
  network is settled after a run if and only if no drift is left and every division is right, a
  condition on the inputs and events alone (`CouplerRuns.RunSettles`). Already the first press
  while no unison is off wraps (`CouplerRuns.UnisonLost`). Slots, coupler velocities and held
  keys are never affected (`CouplerPaths.SlotsHistoryIndependence`).
- The reader looks for a duplicate name before it replaces `/` by `\`, so a repeated name is
  refused if and only if it has no separator (`ArchiveTheorems.RepeatRefused`,
  `ArchiveTheorems.RepeatsHaveSeparator`, `ArchiveTheorems.ListedTwice`).
- The check that an entry ends before its central record is made on a sum that wraps at 2^64
  (`ArchiveTheorems.DataEndsInTime`): an archive of one entry whose content has been left out is
  accepted if and only if its length is 0 or makes the sum wrap
  (`ArchiveTheorems.WrappedLengthPasses`).
- The writer stores every name, the reader lists only acceptable ones: the round trip holds if
  and only if all names are acceptable (`ArchiveTheorems.RoundTrip`).
- The reader of MIDI files has positions of 32 bits that wrap, and does not compare the end of a
  track with the length of the file. A walk from chunk to chunk, over at most as many chunks as
  the file has bytes, decides what becomes of reading: it ends if and only if the walk does, it
  leaves the file if and only if the walk comes to a track that is left
  (`MidiChunks.ReadingEndsExactly`, `MidiChunks.FileEndsExactly`), and this is so after a number
  of rounds that is the square of the size (`MidiChunks.ReadingDecided`). A track is left exactly
  if it is longer than the file, would be incomplete if it ended with the file, and does not end
  in a message that is too long even for it (`MidiChunks.LeavesExactly`). A chunk of another kind
  with the length 2^32 - 8 is met for ever (`MidiRuns.StuckForEver`); a file whose chunks fit is
  read to its end (`MidiRuns.FittingFileRead`).
- The recorder writes the length of an exclusive message or of the organ name with as many
  bytes as it needs; `GOMidiFileReader` takes a single byte. A recording is read back as it was
  made if and only if the file is shorter than 2^32 bytes, the name has fewer than 128, and no
  exclusive message has 128 bytes or more after its first one; a setup message with an element
  name of more than 120 characters has (`MidiRoundTrip.RecordingReadBack`).
- An object whose load from the cache fails is held in a variable that hides the one looked at
  later. It is never tried again, and the organ can still be declared cacheable
  (`Loader.CacheableExactly`, `Loader.FailedButCacheable`).
- A worker that holds an object when the pool is full goes round its loop without an effect
  (`Loader.StepProgress`). While the pool stays full loading comes to an end only if it is
  cancelled, whatever the other workers do (`Loader.WaitsForRoom`), and there are runs that get
  there (`Loader.FullPoolReached`).
- A wave file may say 0 channels or 0 bits: opening it divides by zero if and only if it has a
  loop at an even place that starts before its end (`Wave.FilterFaults`).
- The loop filter of a wave does not look at the loop after one it has removed: an invalid loop
  remains if and only if two follow each other (`WaveRoundTrip.FilterLeaves`).
- Copying a combination copies the states of its elements but not its flags, so Insert moves a
  whole combination if and only if the flags agree (`Sequencer.InsertMovesFlags`).
- A carriage return at the end of a setting is lost (`IniFile.RoundTrip`).
- The first block of the memory pool does not fit if it would fill the pool exactly
  (`MemoryPool.GrowingMakesRoom`). For sizes near 2^64 the loop that adds pages need not end
  (`MemoryPool.RoundingEnds`).
- Logic drawstops in a ring can settle if and only if an even number of them inverts
  (`Drawstops.RingSettles`).

## Model

| member | source | states |
|---|---|---|
| `CouplerOrgan.OrganModel.Run` | src/grandorgue/model/GOManual.cpp:275-341 | after any run of key, all-notes-off, coupler-switch and couple-through events slots, couplers and held keys agree, the inputs are the keys held, couplers engaged and settings left by the run, the counters have counted it modulo 2^32, and exactly those divisions are right that were told rightly; without couple-through of unison-off couplers the network is settled |
| `CouplerOrgan.OrganModel.Apply` | src/grandorgue/model/GOManual.cpp:313-341 | the same for every single event, from any state at rest |
| `CouplerOrgan.OrganModel.PreparePlayback` | src/grandorgue/model/GOManual.cpp:473-488 | preparing all manuals and couplers gives a settled state with no key held and the engaged unison-off couplers counted |
| `CouplerOrgan.OrganModel.SetCoupleThrough` | src/grandorgue/GOVirtualCouplerController.cpp:219-222 | the couple-through button sets the five flags of the coupler and leaves slots, couplers and held keys in agreement; a settled network stays settled if and only if it is not a unison-off coupler, whose counter it changes by one |
| `CouplerOrgan.OrganModel.ButtonStateChanged` | src/grandorgue/GOVirtualCouplerController.cpp:215-223 | the button of any set of couplers sets the flags of exactly these couplers and is the run of their couple-through events |
| `CouplerOrgan.Manual.SetKeyState` | src/grandorgue/model/GOManual.cpp:284-311 | the re-entrant cascade ends, leaves every key it has touched in agreement, spoils no other, and changes only the keyboard slot it was called for |
| `CouplerOrgan.Manual.PropagateKeyToCouplers` | src/grandorgue/model/GOManual.cpp:275-282 | afterwards every coupler of the manual holds what it may take over of the key |
| `CouplerOrgan.Manual.SetDivisionKeyState` | src/grandorgue/model/GOManual.cpp:257-273 | the stops get the velocity without the two bits that count hops |
| `CouplerOrgan.Manual.StoreKeyState` | src/grandorgue/model/GOManual.cpp:284-303 | one slot is stored and the total and remote maxima of the key are right again |
| `CouplerOrgan.Manual.SetMidiNoteState` | src/grandorgue/model/GOManual.cpp:313-329 | a key press, release or new velocity ends in a settled state in which exactly that key differs |
| `CouplerOrgan.Manual.AllNotesOff` | src/grandorgue/model/GOManual.cpp:448-451 | releases every key of the manual and ends settled |
| `CouplerOrgan.Manual.SetUnisonOff` | src/grandorgue/model/GOManual.cpp:331-341 | counts with 32 bits and tells the division exactly when the counter leaves or reaches zero |
| `CouplerOrgan.Manual.SendDivision` | src/grandorgue/model/GOManual.cpp:331-341 | every key of the division gets a quarter of the remote or total maximum |
| `CouplerOrgan.Manual.PreparePlayback` | src/grandorgue/model/GOManual.cpp:473-488 | clears all slots, maxima and divisions of the manual and its counter |
| `CouplerOrgan.Coupler.SetKey` | src/grandorgue/model/GOCoupler.cpp:380-412 | the coupler takes over the largest permitted velocity of the key; the rest of the network follows |
| `CouplerOrgan.Coupler.LargestPermitted` | src/grandorgue/model/GOCoupler.cpp:390-407 | the loop over the slots finds the maximum over the keyboard's own slot and those couplers whose setting for the kind of this coupler is on; `CouplerLaws.CoupledOn` says which setting that is |
| `CouplerOrgan.Coupler.ChangeKey` | src/grandorgue/model/GOCoupler.cpp:328-378 | a normal coupler sends the shifted key on, a unison-off coupler sends nothing |
| `CouplerOrgan.Coupler.SetOut` | src/grandorgue/model/GOCoupler.cpp:266-288 | notes the internal velocity and, while engaged, sends one less to the destination; nothing already in agreement is spoiled |
| `CouplerOrgan.Coupler.SetResultState` | src/grandorgue/model/GODrawstop.cpp:161-169 | throwing the switch of a coupler, also of a unison-off coupler, ends in a settled state in which exactly that switch differs |
| `CouplerOrgan.Coupler.OnDrawstopStateChanged` | src/grandorgue/model/GOCoupler.cpp:414-430 | engaging sends all internal velocities less one, disengaging takes them back; the network settles |
| `CouplerOrgan.Coupler.SetRecursive` | src/grandorgue/model/GOCoupler.cpp:81-87 | sets all five flags and nothing else |
| `CouplerOrgan.Coupler.RefreshState` | src/grandorgue/model/GOCoupler.cpp:432-445 | after a change of flags the network settles with the same inputs; for a unison-off coupler the counter is changed instead |
| `CouplerOrgan.Coupler.PreparePlayback` | src/grandorgue/model/GOCoupler.cpp:49-79 | clears the coupler and counts it if it is an engaged unison-off coupler |
| `CouplerCascade.StoreSlotKeeps` | src/grandorgue/model/GOManual.cpp:284-303 | storing a slot spoils at most the couplers and the division of that key and strictly decreases the measure of the cascade |
| `CouplerCascade.StoreSlotDirected` | src/grandorgue/model/GOManual.cpp:284-303 | a value that moves one way moves what couplers want the same way |
| `CouplerCascade.StoreSlotRunning` | src/grandorgue/model/GOManual.cpp:284-303 | storing a pending slot keeps the invariant of a running cascade |
| `CouplerCascade.TakeOver` | src/grandorgue/model/GOCoupler.cpp:408-411 | taking over the wanted velocity brings the key into agreement and spoils no other entry |
| `CouplerCascade.SendPending` | src/grandorgue/model/GOCoupler.cpp:274-287 | what an engaged coupler sends is a legal next slot write, in the direction of the cascade and within its bound |
| `CouplerCascade.OutTargetBounded` | src/grandorgue/model/GOCoupler.cpp:280-283 | what is sent never exceeds the bound and lies beyond what the slot holds |
| `CouplerCascade.MaxPermittedMonotone` | src/grandorgue/model/GOCoupler.cpp:390-407 | larger slots never lower what a coupler takes over |
| `CouplerQuiet.KeyStarts` | src/grandorgue/model/GOManual.cpp:313-329 | a key event on a settled network starts a cascade in one direction |
| `CouplerQuiet.KeySettles` | src/grandorgue/model/GOManual.cpp:313-329 | the end of that cascade is settled |
| `CouplerQuiet.SwitchStarts` | src/grandorgue/model/GOCoupler.cpp:414-430 | throwing a switch starts a cascade: upwards if it goes on, downwards if it goes off |
| `CouplerQuiet.ThroughStarts` | src/grandorgue/GOVirtualCouplerController.cpp:219-222 | changing the flags of a coupler can only move wanted velocities one way, and only at keys the coupler drives |
| `CouplerQuiet.UnisonSettles` | src/grandorgue/model/GOManual.cpp:331-341 | a thrown unison-off switch leaves counter and divisions right |
| `CouplerQuiet.UnisonRests` | src/grandorgue/model/GOManual.cpp:331-341 | whatever is counted, slots, couplers and held keys stay in agreement |
| `CouplerQuiet.UnisonTells` | src/grandorgue/model/GOManual.cpp:331-341 | when a division is right after counting: always where the stops are told; where the counter wraps exactly if its two maxima sound alike or it was wrong; else as before |
| `CouplerQuiet.UnisonCount` | src/grandorgue/model/GOManual.cpp:331-341 | the counter equals the number of engaged unison-off couplers and never wraps |
| `CouplerQuiet.RefreshMiscounts` | src/grandorgue/model/GOCoupler.cpp:432-436 | from any settled state RefreshState on a unison-off coupler makes the counter wrong |
| `CouplerRuns.RunCounts` | src/grandorgue/GOVirtualCouplerController.cpp:215-223 | after any run the counter is the number of engaged unison-off couplers plus the refreshes while on minus those while off, modulo 2^32; it is right if and only if that drift is a multiple of 2^32 |
| `CouplerRuns.RunTells` | src/grandorgue/model/GOManual.cpp:284-341 | exactly which divisions are right after any run, from inputs and events alone; all of them on a manual whose counter has not wrapped |
| `CouplerRuns.RunSettles` | src/grandorgue/model/GOCoupler.cpp:432-445 | a run ends settled if and only if no manual has a drift left and the stops have been told what is right of every key, which is said of the inputs and events alone |
| `CouplerRuns.RowDiffersExactly` | src/grandorgue/model/GOManual.cpp:284-303 | the slots of a key differ between two states at rest if and only if what the paths deliver with the one inputs and the other differs |
| `CouplerRuns.RunWithoutRefresh` | src/grandorgue/model/GOCoupler.cpp:432-445 | a run without couple-through of unison-off couplers ends settled |
| `CouplerRuns.UnisonLost` | src/grandorgue/model/GOCoupler.cpp:432-436 | turning couple-through off on a unison-off coupler while no unison is off makes the counter 2^32 - 1, and a division wrong exactly where its own keyboard is heard |
| `CouplerPaths.SlotIsBestPath` | src/grandorgue/model/GOCoupler.cpp:266-288 | a slot at rest holds the maximum, over all chains of engaged and permitted couplers from a held key, of 4v + 3 less the number of hops, or 0 |
| `CouplerPaths.PathLower` | src/grandorgue/model/GOCoupler.cpp:280-283 | no chain delivers more than the slot at its end holds |
| `CouplerPaths.PathWitness` | src/grandorgue/model/GOCoupler.cpp:280-283 | some chain delivers exactly what a slot holds, even on cyclic wirings |
| `CouplerPaths.HopTransposes` | src/grandorgue/model/GOCoupler.cpp:70-71 | every hop shifts the note by the destination key shift |
| `CouplerPaths.SlotDelivered` | src/grandorgue/model/GOCoupler.cpp:266-288 | what a slot at rest holds is exactly what the paths deliver with the inputs |
| `CouplerPaths.SlotsHistoryIndependence` | src/grandorgue/model/GOManual.cpp:275-311 | two states at rest with the same keys held, couplers engaged and flags agree in all slots, maxima, coupler and output velocities, whatever led to them and whatever the counters hold |
| `CouplerPaths.SoundHistoryIndependence` | src/grandorgue/model/GOManual.cpp:275-329 | with the same counters, keys whose divisions are right sound the same |
| `CouplerPaths.HistoryIndependence` | src/grandorgue/model/GOManual.cpp:275-329 | two settled states with the same keys held, couplers engaged and flags are equal, whatever led to them |
| `CouplerPaths.NoHangingNotes` | src/grandorgue/model/GOCoupler.cpp:266-288 | at rest with no key held all slots, coupler outputs and divisions are 0, even around loops and whatever the counters hold |
| `CouplerPaths.ThreeHopsKeepVelocity` | src/grandorgue/model/GOManual.cpp:257-261 | keys held with velocity v alone sound with exactly v at every key reached over one to three hops, and at their own key if no unison is off there |
| `CouplerLaws.Subsequent` | src/grandorgue/model/GOCoupler.cpp:266-412 | what one coupler delivers is, less one, in the slot of the next at the note higher by its key shift, if the first has the setting for the kind of the second: unison, or upward or downward, within the manual or to another one |
| `CouplerLaws.CoupledOn` | src/grandorgue/model/GOCoupler.cpp:390-411 | of a key that one coupler alone feeds the next takes over everything with the setting for its kind, and nothing without it, for each of the five kinds |
| `CouplerLaws.OwnKeyboardCoupled` | src/grandorgue/model/GOCoupler.cpp:384-407 | a key of the own keyboard is always taken over, and no key outside the NumberOfKeys keys from FirstMIDINoteNumber |
| `CouplerLaws.Sent` | src/grandorgue/model/GOCoupler.cpp:266-288 | an engaged coupler plays the note higher by DestinationKeyshift with what it has taken over, less one; one that is not engaged plays nothing |
| `CouplerLaws.NothingSent` | src/grandorgue/model/GOCoupler.cpp:266-288 | a key of the destination that no key of the source plays gets nothing |
| `CouplerLaws.OwnKeyboard` | src/grandorgue/model/GOManual.cpp:313-329 | an accessible key held with velocity v puts 4v + 3 into its own slot, all other keys nothing |
| `CouplerLaws.Heard` | src/grandorgue/model/GOManual.cpp:284-306 | the stops of a settled network hear a quarter of the largest slot of a key, without that of the own keyboard if and only if a unison-off coupler of the manual is engaged |
| `CouplerLaws.EventLeaves` | src/grandorgue/model/GOManual.cpp:313-329 | what each event leaves of held keys, switches and the five settings, one by one, and what it does not touch |
| `ArchiveWriter.GOArchiveWriter.Add` | src/core/archive/GOArchiveWriter.cpp:30-99 | refuses a name exactly if it is stored already, else appends the entry with its local record |
| `ArchiveWriter.GOArchiveWriter.Close` | src/core/archive/GOArchiveWriter.cpp:101-145 | completes the file to the archive of exactly the entries added |
| `ArchiveWriter.WriteArchive` | src/core/archive/GOArchiveWriter.cpp:17-145 | a run of Open, Add and Close produces the archive of the accepted entries |
| `ArchiveWriter.AcceptedDistinct` | src/core/archive/GOArchiveWriter.cpp:30-41 | accepted names are distinct and have no backslash |
| `ArchiveLaws.FirstOfName` | src/core/archive/GOArchiveWriter.cpp:30-41 | the content that is added first under a name is stored |
| `ArchiveLaws.AddedBy` | src/core/archive/GOArchiveWriter.cpp:30-41 | everything that is stored was added, under that name with slashes |
| `ArchiveLaws.HeadersBegin` | src/core/archive/GOArchiveWriter.cpp:37-61 | the headers of an entry start with PK, ask for version 4.5, flag the name as UTF-8 and the content as stored, byte by byte |
| `ArchiveWriter.Zlib.FoldPieces` | src/core/archive/GOArchiveReader.cpp:58-77 | the checksum may be taken piece by piece |
| `ZipFormat.LocalHeader.RoundTrip` | src/core/GOZipFormat.h:23-35 | a stored local header decodes to itself |
| `ZipFormat.LocalHeader.Places` | src/core/GOZipFormat.h:23-35 | where each field of a local header stands |
| `ZipFormat.CentralHeader.RoundTrip` | src/core/GOZipFormat.h:37-55 | a stored central header decodes to itself |
| `ZipFormat.CentralHeader.Places` | src/core/GOZipFormat.h:37-55 | where each field of a central header stands |
| `ZipFormat.End64Record.RoundTrip` | src/core/GOZipFormat.h:75-86 | a stored zip64 end record decodes to itself |
| `ZipFormat.End64Record.Places` | src/core/GOZipFormat.h:75-86 | where each field of a zip64 end record stands |
| `ZipFormat.End64Locator.RoundTrip` | src/core/GOZipFormat.h:88-93 | a stored zip64 locator decodes to itself |
| `ZipFormat.End64Locator.Places` | src/core/GOZipFormat.h:88-93 | where each field of a zip64 locator stands |
| `ZipFormat.EndRecord.RoundTrip` | src/core/GOZipFormat.h:100-109 | a stored end record decodes to itself |
| `ZipFormat.EndRecord.Places` | src/core/GOZipFormat.h:100-109 | where each field of an end record stands |
| `ArchiveLaws.Signatures` | src/core/GOZipFormat.h:15-20 | the signatures of the five records, byte by byte |
| `ArchiveReader.GOArchiveReader.CalculateCrc` | src/core/archive/GOArchiveReader.cpp:58-77 | the loop over 4096-byte pieces gives the checksum of the whole range |
| `ArchiveReader.GOArchiveReader.ReadExtras` | src/core/archive/GOArchiveReader.cpp:103-173 | the loop over extra fields ends and widens exactly the sizes that hold a sentinel |
| `ArchiveReader.GOArchiveReader.ReadFileRecord` | src/core/archive/GOArchiveReader.cpp:89-340 | accepts a central record exactly under the conditions of the function and lists its entry; what these conditions are is said of the fields by `ArchiveLaws.PlainRecord` and `ArchiveLaws.NameTaken`, and of the parts of names by `ArchiveLaws.NameRefused` |
| `ArchiveReader.GOArchiveReader.ReadCentralDirectory` | src/core/archive/GOArchiveReader.cpp:342-378 | reads the declared number of records and accepts only if nothing is left over |
| `ArchiveReader.GOArchiveReader.ReadEnd64Record` | src/core/archive/GOArchiveReader.cpp:380-400 | the block loop ends and accepts exactly well-formed extensible data |
| `ArchiveReader.GOArchiveReader.ReadEndRecord` | src/core/archive/GOArchiveReader.cpp:402-489 | the backwards scan takes the first end record whose comment fills the rest of the file |
| `ArchiveTheorems.CentralTiles` | src/core/archive/GOArchiveReader.cpp:342-378 | the central records of an accepted directory tile it without a rest, and each listed entry belongs to a record of its own |
| `ArchiveTheorems.ArchiveSound` | src/core/archive/GOArchiveReader.cpp:402-489 | every accepted file is listed from an end record whose comment fills the rest of the file; exactly entry-count records tile the directory it declares, and every listed entry lies behind its local header and starts before its central record |
| `ArchiveTheorems.ScanFinds` | src/core/archive/GOArchiveReader.cpp:407-421 | an accepted file has an end record whose comment fills the rest of the file |
| `ArchiveTheorems.FileRecordListed` | src/core/archive/GOArchiveReader.cpp:178-340 | one central record adds at most one entry, located behind a local header and starting before the record |
| `ArchiveTheorems.DataEndsInTime` | src/core/archive/GOArchiveReader.cpp:282-288 | the data of a listed entry ends before its central record if and only if its end does not exceed 64 bits |
| `ArchiveTheorems.WrappedLengthPasses` | src/core/archive/GOArchiveReader.cpp:282-288 | an archive of one entry without its content is accepted if and only if the length is 0 or the wrapped sum passes, and then lists an entry that ends behind the file |
| `ArchiveTheorems.RepeatRefused` | src/core/archive/GOArchiveReader.cpp:325-332 | a repeated name is found if and only if it has no separator |
| `ArchiveTheorems.RepeatsHaveSeparator` | src/core/archive/GOArchiveReader.cpp:325-340 | in every accepted file entries of the same name have a separator in it |
| `ArchiveTheorems.ListedTwice` | src/core/archive/GOArchiveReader.cpp:325-340 | every acceptable name with a separator that is stored twice is listed twice |
| `ArchiveTheorems.ListedNames` | src/core/archive/GOArchiveReader.cpp:303-332 | listed names are non-empty and contain no slash |
| `ArchiveTheorems.HeadersRead` | src/core/archive/GOArchiveReader.cpp:89-288 | the two headers that the writer makes agree; what decides is the check of the wrapped end of the content |
| `ArchiveTheorems.EntryRead` | src/core/archive/GOArchiveReader.cpp:89-288 | the reader agrees with what the writer stored of an entry, without a complaint |
| `ArchiveTheorems.EndRead` | src/core/archive/GOArchiveReader.cpp:402-489 | the end records that the writer makes lead the reader to the directory, whatever stands before them |
| `ArchiveTheorems.RoundTrip` | src/core/archive/GOArchiveReader.cpp:89-489 | an archive in the writer's format is listed as exactly its entries, in order, with offsets and lengths and without a complaint, if and only if all names are acceptable and repeated ones have a separator |
| `ArchiveTheorems.ListedMeansStorable` | src/core/archive/GOArchiveReader.cpp:303-319 | an archive that is listed in full has acceptable names only |
| `ArchiveTheorems.ListedContent` | src/core/archive/GOArchiveWriter.cpp:43-99 | offset and length of every entry select exactly the stored content |
| `ArchiveTheorems.StoreAndList` | src/core/archive/GOArchiveReader.cpp:491-501 | storing files and listing the archive with the two classes gives exactly these files if and only if all names are acceptable |
| `ArchiveLaws.NameRefused` | src/core/archive/GOArchiveReader.cpp:303-319 | a name is refused if and only if it is empty, has a backslash or a drive letter, an empty part other than after a closing slash, or a part "." or ".." other than the whole name |
| `ArchiveLaws.StorableExactly` | src/core/archive/GOArchiveReader.cpp:303-332 | a name can be listed if and only if it has fewer than 65536 bytes and no backslash and stays inside the archive: no drive letter, no empty part, no "." or ".." but as the whole name |
| `ArchiveLaws.EntriesInside` | src/core/archive/GOArchiveReader.cpp:303-340 | every name in the listing of every accepted file stays inside the archive, with backslashes as separators |
| `ArchiveLaws.FlagsAccepted` | src/core/archive/GOArchiveReader.cpp:277-280 | of the flags of a header only bits 1, 2, 4 and 11 may be set |
| `ArchiveLaws.Zip64Places` | src/core/archive/GOArchiveReader.cpp:116-159 | a zip64 block is accepted if and only if it has just the fields that are all ones in the header, in the order uncompressed size, compressed size, offset, disk number |
| `ArchiveLaws.ExtrasInTurn` | src/core/archive/GOArchiveReader.cpp:103-172 | extra fields are read one after the other, and which kinds are known |
| `ArchiveLaws.PlainRecord` | src/core/archive/GOArchiveReader.cpp:174-288 | exactly when a central record without extra fields passes the checks of its headers, and when these are said to disagree |
| `ArchiveLaws.NameTaken` | src/core/archive/GOArchiveReader.cpp:299-340 | what becomes of a record then: exactly when it is refused for its name or as a duplicate, taken for a directory or listed, and what is complained about |
| `ArchiveLaws.TilesAccepted` | src/core/archive/GOArchiveReader.cpp:342-378 | central records that tile the directory, each accepted in its turn, make an accepted directory |
| `ArchiveLaws.BlocksExactly` | src/core/archive/GOArchiveReader.cpp:380-400 | the blocks of a zip64 end record are accepted if and only if they form a chain that fills it |
| `ArchiveLaws.ShortestComment` | src/core/archive/GOArchiveReader.cpp:407-421 | the end record with the shortest comment below 65535 bytes is taken |
| `ArchiveLaws.NoEndRecord` | src/core/archive/GOArchiveReader.cpp:407-489 | without such an end record a file is refused |
| `ArchiveLaws.EndDecides` | src/core/archive/GOArchiveReader.cpp:423-486 | what the end record and the zip64 records decide, field by field: exactly when the file is refused, and which directory is read |
| `Sha1.Sha1Context.Init` | src/core/contrib/sha1.cpp:40-56 | starts the empty message |
| `Sha1.Sha1Context.Update` | src/core/contrib/sha1.cpp:58-74 | appends to the message absorbed so far |
| `Sha1.Sha1Context.TakeByte` | src/core/contrib/sha1.cpp:64-73 | the shifting word buffer and the two-word bit counter stand for one byte more |
| `Sha1.Sha1Context.AppendPadding` | src/core/contrib/sha1.cpp:76-98 | the padding loop and the length bytes give the padding of section 5.1.1 of FIPS 180-4 |
| `Sha1.Sha1Context.Final` | src/core/contrib/sha1.cpp:76-108 | gives the digest of FIPS 180-4 of everything absorbed, then starts afresh |
| `Sha1.Sha1Context.Output` | src/core/contrib/sha1.cpp:99-102 | the shifting output loop writes the five words most significant byte first |
| `Sha1.Sha1Context.HashBlock` | src/core/contrib/sha1.cpp:112-165 | one block is compressed as in section 6.1.2 of FIPS 180-4 |
| `Sha1.Sha1Context.ExpandWords` | src/core/contrib/sha1.cpp:116-118 | the message schedule in place |
| `Sha1.Sha1Context.AllRounds` | src/core/contrib/sha1.cpp:120-158 | the four round loops are the eighty rounds of the standard; `Sha1Answer.KnownAnswer` computes a whole digest by them |
| `Sha1.DigestOfPieces` | src/core/contrib/sha1.cpp:40-108 | the digest does not depend on how the message was cut into pieces |
| `Sha1Answer.KnownAnswer` | src/core/contrib/sha1.cpp:112-165 | the example of FIPS 180-4: the digest of "abc" is a9993e36 4706816a ba3e2571 7850c26c 9cd0d89d, proved round by round |
| `Sha1.RotatedOnce` | src/core/contrib/sha1.cpp:110 | a rotation by one moves every bit up and the top bit to the bottom |
| `Sha1.RotatedFive` | src/core/contrib/sha1.cpp:127 | the rotation by five is five of them |
| `Sha1.RotatedThirty` | src/core/contrib/sha1.cpp:130 | the rotation by thirty is six of those |
| `Sha1.LengthStored` | src/core/contrib/sha1.cpp:84-91 | the eight length bytes are the number of bits, stored in big endian |
| `Sha1.ChAsWritten` | src/core/contrib/sha1.cpp:126-133 | the shorter expression of the first round function is Ch |
| `Sha1.MajAsWritten` | src/core/contrib/sha1.cpp:142-150 | the shorter expression of the third round function is Maj |
| `Sha1.PadLength` | src/core/contrib/sha1.cpp:92-94 | a padded message is a whole number of blocks |
| `Sha1.CounterBytes` | src/core/contrib/sha1.cpp:84-91 | the two counter words are the eight length bytes |
| `Sha1.CollectOne` | src/core/contrib/sha1.cpp:64-67 | a byte shifted into the word buffer extends the partial block |
| `Drawstops.Switchboard.Run` | src/grandorgue/model/GODrawstop.cpp:161-258 | after any run of button, combination and cancel events every logic drawstop equals its function and the inputs hold what the run left |
| `Drawstops.Switchboard.StartPlayback` | src/grandorgue/model/GODrawstop.cpp:212-215 | updating every drawstop once settles all of them |
| `Drawstops.Drawstop.SetResultState` | src/grandorgue/model/GODrawstop.cpp:161-169 | the depth-first update ends; what was settled and what is controlled by anything changed is settled |
| `Drawstops.Drawstop.CalculateResultState` | src/grandorgue/model/GODrawstop.cpp:183-190 | is the OR of the entries, that of the button counted only if asked for |
| `Drawstops.Drawstop.SetInternalState` | src/grandorgue/model/GODrawstop.cpp:192-199 | one entry is set and the result is the OR of the entries |
| `Drawstops.Drawstop.Update` | src/grandorgue/model/GODrawstop.cpp:217-258 | the drawstop equals its function of the controlling drawstops |
| `Drawstops.Drawstop.SetButtonState` | src/grandorgue/model/GODrawstop.cpp:201-205 | keeps everything settled and sets the button entry unless another entry is on; what that does to the drawstop is said by `Drawstops.ButtonPressed` |
| `Drawstops.Drawstop.SetCombinationState` | src/grandorgue/model/GODrawstop.cpp:207-210 | keeps everything settled and sets the named entry; what that does to the drawstop is said by `Drawstops.CombinationSet` |
| `Drawstops.Drawstop.Reset` | src/grandorgue/model/GODrawstop.cpp:171-181 | general cancel clears or sets an input by its GCState, as `Drawstops.Cancelled` says, and keeps everything settled |
| `Drawstops.Cancelled` | src/grandorgue/model/GODrawstop.cpp:171-181 | after general cancel a drawstop with GCState 0 is off, one with GCState above 0 is on, and below 0 nothing has changed; no other input has |
| `Drawstops.ButtonPressed` | src/grandorgue/model/GODrawstop.cpp:201-205 | after its button a drawstop is on or off as pressed, unless a combination holds it, and then nothing has changed |
| `Drawstops.CombinationSet` | src/grandorgue/model/GODrawstop.cpp:207-210 | after a combination a drawstop is on if and only if the combination switched it on or another entry holds it |
| `Drawstops.EventKeeps` | src/grandorgue/model/GODrawstop.cpp:161-210 | an event changes no input but its own, and a read-only drawstop not at all |
| `Drawstops.LogicCounts` | src/grandorgue/model/GODrawstop.cpp:217-258 | what each kind of settled logic drawstop says of the number of controlling drawstops that are on |
| `Drawstops.InputsDetermine` | src/grandorgue/model/GODrawstop.cpp:217-258 | settled states with the same inputs engage the same drawstops, whatever glitches came before |
| `Drawstops.EntriesDetermine` | src/grandorgue/model/GODrawstop.cpp:183-258 | two runs that leave the same entries at the inputs engage the same drawstops |
| `Drawstops.RingSettles` | src/grandorgue/model/GODrawstop.cpp:217-258 | logic drawstops in a ring have a settled state if and only if an even number of them inverts |
| `Drawstops.LoopNeverSettles` | src/grandorgue/model/GODrawstop.cpp:217-258 | a NOT of a drawstop that follows it has none |
| `Drawstops.StaysSettled` | src/grandorgue/model/GODrawstop.cpp:161-199 | an update that starts at an input leaves everything settled |
| `Loader.StepInv` | src/grandorgue/loader/GOLoadWorker.cpp:26-40 | every atomic step keeps the invariant: each object has at most one owner and at most one attempt |
| `Loader.NeverLoadedTwice` | src/grandorgue/loader/GOObjectDistributor.h:45-55 | under every interleaving no object is loaded twice nor by two parties at once |
| `Loader.CacheableMeansLoaded` | src/grandorgue/GOOrganController.cpp:450-489 | when the organ is declared cacheable nothing is being loaded, every object has been tried once, and all are ready if and only if none failed to load from the cache |
| `Loader.CacheableExactly` | src/grandorgue/GOOrganController.cpp:471-489 | when loading finishes no worker had run out of memory, and the organ is declared cacheable if and only if every object has been tried once and is ready or is the one that failed to load from the cache |
| `Loader.AllTried` | src/grandorgue/loader/GOLoadWorker.cpp:26-40 | unless the pool gets full every object has been tried once when loading finishes, whatever failed on the way |
| `Loader.StepExplained` | src/grandorgue/GOOrganController.cpp:471-486 | under every interleaving an exception that a worker or the main thread knows of belongs to an object that was tried in vain |
| `Loader.FailedButCacheable` | src/grandorgue/GOOrganController.cpp:424-463 | a run in which the object that failed is never tried again and the organ is declared cacheable |
| `Loader.StepProgress` | src/grandorgue/loader/GOLoadWorker.cpp:35-40 | every step comes nearer to the end, except that of a worker waiting for a full pool, which changes nothing |
| `Loader.WaitsForRoom` | src/grandorgue/loader/GOLoadWorker.cpp:35-40 | once the main thread's worker waits and while the pool stays full, no interleaving gets it further; only cancelling ends the loading |
| `Loader.OnlyCancelChanges` | src/grandorgue/loader/GOLoadWorker.cpp:35-40 | if all workers wait or have ended no step but cancelling changes anything |
| `Loader.FullPoolReached` | src/grandorgue/loader/GOLoadWorker.cpp:26-40 | a run that gets there with an object still to be loaded |
| `Loader.NoDeadlock` | src/grandorgue/GOOrganController.cpp:450-489 | until the loading is finished or given up some step is possible |
| `Loader.RunsEnd` | src/grandorgue/loader/GOLoadThread.cpp:17-22 | every run has at most 3 steps per object and 5 per thread and 10 more that are not a round of a worker waiting for a full pool |
| `IniFile.GOConfigFileWriter.AddEntry` | src/core/config/GOConfigFileWriter.cpp:19-24 | adds one entry, which the caller must not have added before |
| `IniFile.GOConfigFileWriter.GetFileContent` | src/core/config/GOConfigFileWriter.cpp:26-57 | the two loops print the settings in the order of the maps |
| `IniFile.GOConfigFileReader.GetNextLine` | src/core/config/GOConfigFileReader.cpp:31-41 | the text up to the next line end, without a carriage return, and the position after it |
| `IniFile.GOConfigFileReader.Read` | src/core/config/GOConfigFileReader.cpp:111-168 | the line loop ends for every text and collects exactly what the line function says |
| `IniFile.GOConfigFileReader.TakeLine` | src/core/config/GOConfigFileReader.cpp:116-168 | one line starts a group, stores an entry or is skipped |
| `IniFile.WrittenThenRead` | src/core/config/GOConfigFileReader.cpp:111-168 | reading what was written gives the settings back, less carriage returns at the end of values |
| `IniFile.ParsedIsStorable` | src/core/config/GOConfigFileReader.cpp:111-168 | what is read from any text can be stored |
| `IniFile.RoundTrip` | src/core/config/GOConfigFileWriter.cpp:26-57 | settings survive writing and reading if and only if they have no line ends or semicolons, names are non-empty without = and leading bracket, and no value ends in a carriage return |
| `IniFile.ReadWriteRead` | src/core/config/GOConfigFileReader.cpp:61-169 | the same for settings that come from any file |
| `IniLaws.CommentsCut` | src/core/config/GOConfigFileReader.cpp:116-121 | a comment goes from the first semicolon on, together with the blanks before it; of other lines nothing is cut |
| `IniLaws.CommentsIgnored` | src/core/config/GOConfigFileReader.cpp:116-121 | a line with a comment is read as the line without it |
| `IniLaws.GroupLines` | src/core/config/GOConfigFileReader.cpp:125-144 | a group line starts its group, keeps what the group has, and may end in blanks |
| `IniLaws.EntryLines` | src/core/config/GOConfigFileReader.cpp:145-167 | an entry is the text before and after the first equals sign, replaces an earlier one of its name, and changes nothing else |
| `IniLaws.OtherLines` | src/core/config/GOConfigFileReader.cpp:123-156 | empty lines, entries without a group, lines without an equals sign or a name change nothing |
| `IniLaws.UnclosedGroups` | src/core/config/GOConfigFileReader.cpp:126-132 | nor does a group line that is not closed |
| `IniLaws.LastLine` | src/core/config/GOConfigFileReader.cpp:31-41 | the last line of a text may have no end |
| `IniLaws.Ascending` | src/core/config/GOConfigFileWriter.cpp:29-56 | groups and entries are printed in strictly ascending order |
| `IniLaws.LessExactly` | src/core/config/GOConfigFileWriter.cpp:29-56 | names are ordered character by character, a beginning before what goes on |
| `MidiRecorder.GOMidiRecorder.Flush` | src/grandorgue/midi/GOMidiRecorder.cpp:244-250 | moves the buffer to the file; what has been written stays the same |
| `MidiRecorder.GOMidiRecorder.Ensure` | src/grandorgue/midi/GOMidiRecorder.cpp:252-256 | makes room; what has been written stays the same |
| `MidiRecorder.GOMidiRecorder.Write` | src/grandorgue/midi/GOMidiRecorder.cpp:258-268 | file and buffer together grow by exactly the bytes written, of any length |
| `MidiRecorder.GOMidiRecorder.EncodeLength` | src/grandorgue/midi/GOMidiRecorder.cpp:270-281 | writes a variable-length quantity |
| `MidiRecorder.GOMidiRecorder.WriteEvent` | src/grandorgue/midi/GOMidiRecorder.cpp:283-298 | writes each message with the time since the last one, modulo 2^32 |
| `MidiRecorder.GOMidiRecorder.StopRecording` | src/grandorgue/midi/GOMidiRecorder.cpp:313-329 | ends the track and stores in its header the number of bytes after the header, modulo 2^32 |
| `MidiRecorder.GOMidiRecorder.StartRecording` | src/grandorgue/midi/GOMidiRecorder.cpp:339-370 | finishes a running recording and writes headers and name |
| `MidiRecorder.GOMidiRecorder.Record` | src/grandorgue/midi/GOMidiRecorder.cpp:244-370 | the file of a whole recording is headers, name, events and end, with the right length |
| `MidiRecorder.DeltasAddUp` | src/grandorgue/midi/GOMidiRecorder.cpp:283-298 | the recorded times add up to last event minus start: modulo 2^32 always, exactly if the clock is steady |
| `MidiRecorder.VlqLength` | src/grandorgue/midi/GOMidiRecorder.cpp:270-281 | a quantity has at most four bytes, as the Standard MIDI File format wants, if and only if it is below 2^28 |
| `MidiLaws.RecordingFrame` | src/grandorgue/midi/GOMidiRecorder.cpp:339-367 | the first and last bytes of every recording: type 0, one track, the time format, the name at once, the end of the track one tick after the last event |
| `MidiLaws.RecordedInOrder` | src/grandorgue/midi/GOMidiRecorder.cpp:283-298 | the messages of a call are recorded in order, the time with the first |
| `MidiFile.GOMidiFileReader.Open` | src/grandorgue/midi/files/GOMidiFileReader.cpp:55-86 | accepts exactly the file headers with type 0 and one track or type 1 and some |
| `MidiFile.GOMidiFileReader.StartNextTrack` | src/grandorgue/midi/files/GOMidiFileReader.cpp:109-151 | one round of the loop: finds a track, skips another chunk or finds that none follows, with positions of 32 bits |
| `MidiFile.GOMidiFileReader.ReadTime` | src/grandorgue/midi/files/GOMidiFileReader.cpp:153-170 | decodes a time with 32 bits; an incomplete one counts as 0, and a read beyond the file is noticed |
| `MidiFile.GOMidiFileReader.ReadNext` | src/grandorgue/midi/files/GOMidiFileReader.cpp:172-284 | one round of the loops: a message with its time, a skipped chunk, the end of a track, a stop with its reason, or a read beyond the file |
| `MidiFile.GOMidiFileReader.ReadAllMessages` | src/grandorgue/midi/files/GOMidiFileReader.cpp:172-329 | the messages of any number of rounds, and whether reading has stopped, left the file or goes on |
| `MidiFile.GOMidiFileReader.Close` | src/grandorgue/midi/files/GOMidiFileReader.cpp:338-352 | whether track and file have been read to their ends |
| `MidiLaws.HeadersAccepted` | src/grandorgue/midi/files/GOMidiFileReader.cpp:55-86 | exactly which first twelve bytes a file must have |
| `MidiLaws.ChunksByName` | src/grandorgue/midi/files/GOMidiFileReader.cpp:109-151 | a chunk is a track if it is named MTrk, else it is skipped by the length that it tells |
| `MidiLaws.TimesOfAnyLength` | src/grandorgue/midi/files/GOMidiFileReader.cpp:153-170 | a time is made of seven bits of each byte up to the first one without a top bit, modulo 2^32 |
| `MidiLaws.TimeUnended` | src/grandorgue/midi/files/GOMidiFileReader.cpp:153-170 | a time that has not ended with its track counts as 0 |
| `MidiLaws.ChannelMessages` | src/grandorgue/midi/files/GOMidiFileReader.cpp:189-214 | channel messages with one or two data bytes, also with running status: a message without a status byte takes that of the channel message before it |
| `MidiLaws.StatusMissing` | src/grandorgue/midi/files/GOMidiFileReader.cpp:189-197 | a data byte without a status to go on with stops reading |
| `MidiLaws.SystemMessages` | src/grandorgue/midi/files/GOMidiFileReader.cpp:216-234 | the other system messages with their numbers of data bytes, which end running status, and the unknown ones |
| `MidiLaws.ExclusiveMessages` | src/grandorgue/midi/files/GOMidiFileReader.cpp:236-244 | exclusive messages take one length byte, which is no part of them |
| `MidiLaws.MetaMessages` | src/grandorgue/midi/files/GOMidiFileReader.cpp:246-284 | meta messages keep kind and length, and kind 0x2F without data ends the track |
| `MidiLaws.ReadToTheEnd` | src/grandorgue/midi/files/GOMidiFileReader.cpp:338-352 | a file counts as read unless it or its track goes on after the last position |
| `MidiChunks.ReadingEndsExactly` | src/grandorgue/midi/files/GOMidiFileReader.cpp:109-284 | reading from a chunk on ends if and only if the walk over at most as many chunks as there are bytes ends, and leaves the file if and only if that walk comes to a track that is left |
| `MidiChunks.FileEndsExactly` | src/grandorgue/midi/files/GOMidiFileReader.cpp:55-284 | the same for every file with a good header |
| `MidiChunks.ReadingDecided` | src/grandorgue/midi/files/GOMidiFileReader.cpp:109-284 | after as many rounds as the square of the size the kind of ending is the one the walk tells |
| `MidiChunks.ChunkRounds` | src/grandorgue/midi/files/GOMidiFileReader.cpp:109-284 | the rounds that a chunk takes, at most one per byte, lead to the next chunk, to an end or out of the file as the walk says |
| `MidiChunks.LeavesExactly` | src/grandorgue/midi/files/GOMidiFileReader.cpp:126-284 | a track is left if and only if it is longer than the file, is incomplete when cut at its end, and its own length does not stop the message first |
| `MidiRuns.SkipsForward` | src/grandorgue/midi/files/GOMidiFileReader.cpp:118-125 | skipping a chunk leads on if and only if it ends below 2^32 |
| `MidiRuns.FittingFileRead` | src/grandorgue/midi/files/GOMidiFileReader.cpp:109-284 | a file in which no skipped chunk wraps is read in at most as many rounds as it has bytes; if its tracks end inside the file as well, no read leaves it |
| `MidiRuns.OverlongTrack` | src/grandorgue/midi/files/GOMidiFileReader.cpp:126-131 | a track longer than the file gives the messages of the same track cut at the end of the file; where the cut one is incomplete the reader leaves the file, unless the message exceeds even the length of the track |
| `MidiRuns.StuckForEver` | src/grandorgue/midi/files/GOMidiFileReader.cpp:118-125 | a first chunk of another kind with length 2^32 - 8 is met in every round |
| `MidiRuns.LeftAtOnce` | src/grandorgue/midi/files/GOMidiFileReader.cpp:126-170 | a file of 22 bytes that ends with a track header of some length is left in the first round |
| `MidiRoundTrip.VlqDecoded` | src/grandorgue/midi/files/GOMidiFileReader.cpp:153-170 | the reader decodes every 32-bit quantity that the recorder encodes |
| `MidiRoundTrip.ExclusiveRead` | src/grandorgue/midi/files/GOMidiFileReader.cpp:236-244 | an exclusive message is read back if and only if it has fewer than 128 bytes after the first |
| `MidiRoundTrip.ChannelMessageRead` | src/grandorgue/midi/files/GOMidiFileReader.cpp:200-214 | every channel message is read back |
| `MidiRoundTrip.EventsRead` | src/grandorgue/midi/files/GOMidiFileReader.cpp:172-284 | the events of a track come back if and only if all messages are short, and then reading stops at the end of the file |
| `MidiRoundTrip.RecordingReadBack` | src/grandorgue/midi/GOMidiRecorder.cpp:283-370 | reading a recording gives its name and all events with their times, and closing it succeeds, if and only if the file has fewer than 2^32 bytes, the name fewer than 128, and no exclusive message is too long |
| `MidiRoundTrip.ShortNameRead` | src/grandorgue/midi/GOMidiRecorder.cpp:362-367 | an organ name of fewer than 128 bytes is read back |
| `MidiRoundTrip.LongNameLost` | src/grandorgue/midi/files/GOMidiFileReader.cpp:246-255 | with a longer name the recording does not come back: name, events and closing are never all right |
| `MidiRoundTrip.RecordedGood` | src/grandorgue/midi/GOMidiRecorder.cpp:283-298 | the events of every recording are such as the round trip is about |
| `BasMel.GOCoupler.GetNextBasMelPressedKey` | src/grandorgue/model/GOCoupler.cpp:304-321 | both loops find the next pressed key in the order of the coupler |
| `BasMel.GOCoupler.ChangeKey` | src/grandorgue/model/GOCoupler.cpp:328-378 | afterwards the coupled key is none or the best one, and only its image has an internal velocity, that of the key |
| `BasMel.GOCoupler.SetLastTone` | src/grandorgue/model/GOCoupler.cpp:352-376 | which key may take over next, in both algorithms: none or one that is pressed; `BasMel.Remembered` says which |
| `BasMel.Changed` | src/grandorgue/model/GOCoupler.cpp:328-378 | the key that may take over after a change is none or one that is pressed |
| `BasMel.NextExactly` | src/grandorgue/model/GOCoupler.cpp:304-321 | the next key is the lowest, for a melody coupler the highest, of the pressed keys beyond the last |
| `BasMel.CoupledAfter` | src/grandorgue/model/GOCoupler.cpp:328-350 | which key is coupled after a change: a new best key, a best key that was coupled before or, at a release, remembered, or none |
| `BasMel.Remembered` | src/grandorgue/model/GOCoupler.cpp:352-376 | which key is remembered: by the old algorithm the last attack until a release, by the new one the second best, or a new best key at its attack, but none after the release of a better key |
| `BasMel.CoupledSounds` | src/grandorgue/model/GOCoupler.cpp:266-288 | the coupled key does sound, one below its velocity, while the coupler is engaged |
| `BasMel.GOCoupler.SetKey` | src/grandorgue/model/GOCoupler.cpp:380-412 | keys outside the range or unchanged have no effect; the invariant is kept |
| `BasMel.GOCoupler.SetOut` | src/grandorgue/model/GOCoupler.cpp:266-288 | sets one internal velocity and keeps the destination one below while engaged |
| `BasMel.GOCoupler.OnDrawstopStateChanged` | src/grandorgue/model/GOCoupler.cpp:414-430 | engaging sends, disengaging silences; the invariant is kept |
| `BasMel.GOCoupler.Play` | src/grandorgue/model/GOCoupler.cpp:328-412 | any sequence of key changes |
| `BasMel.OnlyBestSounds` | src/grandorgue/model/GOCoupler.cpp:328-350 | whatever sounds in the destination is the image of the lowest (highest) pressed key with its velocity less one |
| `BasMel.SilentWhenReleased` | src/grandorgue/model/GOCoupler.cpp:328-350 | with no key pressed nothing sounds |
| `BasMel.NewMissesLess` | help/grandorgue.xml:3800-3805 | after any key changes the new algorithm couples every note the old one couples |
| `BasMel.OldMissesMore` | src/grandorgue/model/GOCoupler.cpp:352-376 | and sometimes one that the old one misses |
| `BasMel.NextTakesPlace` | src/grandorgue/model/GOCoupler.cpp:341-346 | when the best key changes at a release, the released key was the best and the next one takes its place |
| `WaveFile.GOWave.Open` | src/core/GOWave.cpp:157-290 | accepts exactly the files the function accepts, with its fields; after an error the wave is empty, unless the error is a division by zero |
| `WaveFile.GOWave.WalkChunks` | src/core/GOWave.cpp:215-267 | the chunk loop ends for every file, chunks are always aligned, and the end must be met exactly |
| `WaveFile.GOWave.LoadFormatChunk` | src/core/GOWave.cpp:43-69 | which formats are accepted: those that `WaveLaws.FormatsAccepted` names |
| `WaveFile.GOWave.LoadCueChunk` | src/core/GOWave.cpp:71-90 | the loop over the cue points finds the latest one, as `WaveLaws.LatestCueCounts` says |
| `WaveFile.GOWave.LoadSamplerChunk` | src/core/GOWave.cpp:92-115 | loops, note and pitch |
| `WaveLaws.FormatsAccepted` | src/core/GOWave.cpp:43-69 | exactly PCM with 0, 8, 16 or 24 bits and 32-bit floating point, and where channels and rate stand |
| `WaveLaws.LatestCueCounts` | src/core/GOWave.cpp:71-90 | of several cue points the latest counts, and without any the wave has none; exactly when the chunk is long enough |
| `WaveLaws.SamplerFields` | src/core/GOWave.cpp:92-115 | where note, pitch and the ends of every loop stand; exactly when the chunk is long enough |
| `WaveLaws.UnknownSkipped` | src/core/GOWave.cpp:217-264 | a chunk of an unknown kind is skipped together with the byte that makes its size even, if there is one |
| `WaveLaws.ChunksEnd` | src/core/GOWave.cpp:217-267 | after the last chunk nothing may be left |
| `WaveLaws.BeginningRead` | src/core/GOWave.cpp:166-269 | how a file must begin, how far its chunks go, and that a size too small for the packed samples and a wave without samples are refused |
| `WaveLaws.TrailingIgnored` | src/core/GOWave.cpp:205-213 | what stands behind the end of the RIFF chunk is not looked at |
| `WaveFile.GOWave.FilterLoops` | src/core/GOWave.cpp:273-282 | erasing in place is the filter that skips the loop after an erased one; the length is asked for only where a loop starts before its end |
| `Wave.FilterFaults` | src/core/GOWave.cpp:273-336 | filtering divides by zero if and only if channels (or the width of unpacked samples) are 0 and a loop at an even place starts before its end |
| `WaveFile.GOWave.Save` | src/core/GOWave.cpp:516-630 | the wrapper and the samples given to WavPack, or a division by zero |
| `WaveLaws.EverySample` | src/core/GOWave.cpp:589-630 | every sample is decoded from its own bytes, and 0 where these are missing |
| `WaveLaws.FormatRates` | src/core/GOWave.cpp:522-532 | the rates in the format chunk that the reader does not look at |
| `WaveLaws.CueStored` | src/core/GOWave.cpp:533-551 | the bytes of the cue chunk |
| `WaveLaws.PeriodStored` | src/core/GOWave.cpp:564-568 | the sample period is stored in nanoseconds |
| `WaveRoundTrip.SavedThenOpened` | src/core/GOWave.cpp:157-290 | opening a stored wave gives back channels, rate, width, cue point, note, pitch, samples and the filtered loops; the walk ends exactly at the end of the wrapper |
| `WaveRoundTrip.MetadataKept` | src/core/GOWave.cpp:516-630 | the metadata is unchanged if and only if all loops are valid and there is a release mark exactly when there is a cue point |
| `WaveRoundTrip.FilterKeeps` | src/core/GOWave.cpp:273-282 | the filter changes nothing if and only if all loops are valid |
| `WaveRoundTrip.FilterLeaves` | src/core/GOWave.cpp:273-282 | it leaves only valid loops if and only if no two invalid ones follow each other |
| `WaveRoundTrip.ChunksWalked` | src/core/GOWave.cpp:217-264 | the walk over a stored wave collects exactly its metadata |
| `WaveRoundTrip.HeaderFields` | src/core/GOWave.cpp:585-588 | the rebuilt size of the file covers chunks and samples |
| `WaveRoundTrip.LoopsRead` | src/core/GOWave.cpp:553-563 | stored loops are read back in order |
| `MemoryPool.GOMemoryPool.Alloc` | src/core/GOMemoryPool.cpp:60-73 | blocks from the pool are new, of the length asked for, disjoint from all others and inside the pool; does not return only if growing does not |
| `MemoryPool.GOMemoryPool.PoolAlloc` | src/core/GOMemoryPool.cpp:108-154 | succeeds exactly if the block ends strictly before the end of the pool, at once or after growing; a failure marks the pool as full |
| `MemoryPool.GOMemoryPool.GrowPool` | src/core/GOMemoryPool.cpp:397-420 | the pool only grows, by whole pages, and never beyond its limit, with sums that wrap; tells when its loop does not end |
| `MemoryPool.RoundingEnds` | src/core/GOMemoryPool.cpp:398-400 | the loop that adds pages ends if and only if the wanted size is not beyond the last size it comes to before it wraps |
| `MemoryPool.GOMemoryPool.TakeBlock` | src/core/GOMemoryPool.cpp:116-122 | a block is cut only if the sum does not wrap |
| `MemoryPool.GOMemoryPool.Free` | src/core/GOMemoryPool.cpp:75-89 | takes a block off the list; its memory is not used again |
| `MemoryPool.GrowingMakesRoom` | src/core/GOMemoryPool.cpp:124-132 | below the limit, growing makes room if and only if the block would not exactly fill a pool with nothing free before |
| `MemoryPool.FailsOnlyAtLimit` | src/core/GOMemoryPool.cpp:124-132 | with part of the pool free, an allocation fails only if growing is refused or the limit is reached |
| `MemoryPool.GrowsAsWanted` | src/core/GOMemoryPool.cpp:401-420 | how far the pool grows: not at all, as far as wanted, or to its limit |
| `MemoryPool.FewestPages` | src/core/GOMemoryPool.cpp:398-400 | the wanted size has the fewest whole pages on top of the increment that make room |
| `DeviceNames.GOMidiDeviceConfigList.FindByLogicalName` | src/grandorgue/config/GOMidiDeviceConfigList.cpp:14-24 | the first device of a name |
| `DeviceNames.GOMidiDeviceConfigList.Append` | src/grandorgue/config/GOMidiDeviceConfigList.cpp:88-120 | replaces an unmatched device of the name or adds one under the first free name; names stay unique |
| `DeviceNames.GOMidiDeviceConfigList.FreeSuffix` | src/grandorgue/config/GOMidiDeviceConfigList.cpp:104-112 | the search ends with the first free suffix, which is at most the number of devices |
| `DeviceNames.AddedDistinct` | src/grandorgue/config/GOMidiDeviceConfigList.cpp:88-120 | adding keeps all names and their uniqueness |
| `DeviceNames.MatchedKept` | src/grandorgue/config/GOMidiDeviceConfigList.cpp:88-120 | a matched device is never lost, and the new one is in the list, under its own name unless a matched one has it, else with a suffix |
| `DeviceNames.DecimalValue` | src/grandorgue/config/GOMidiDeviceConfigList.cpp:108-109 | the suffix is the number in decimal digits, without a leading zero |
| `DeviceNames.Pigeonhole` | src/grandorgue/config/GOMidiDeviceConfigList.cpp:104-112 | fewer suffixed names than devices can be in use |
| `DeviceNames.SuffixedInjective` | src/grandorgue/config/GOMidiDeviceConfigList.cpp:108-109 | different numbers give different names |
| `Sequencer.GOSetter.Insert` | src/grandorgue/combinations/GOSetter.cpp:1230-1239 | shifts the frames up in place, pushes, and marks a modification exactly if there was something to shift or to store |
| `Sequencer.GOSetter.Delete` | src/grandorgue/combinations/GOSetter.cpp:1221-1229 | shifts the frames down in place and marks a modification exactly if one of at least two frames from there was not empty |
| `Sequencer.GOSetter.CopyFrameGenerals` | src/grandorgue/combinations/GOSetter.cpp:1111-1119 | copies the states of one frame and tells whether either was not empty |
| `Sequencer.GOSetter.SetPosition` | src/grandorgue/combinations/GOSetter.cpp:1579-1601 | wraps the position round the frames, for negative ones too |
| `Sequencer.GOSetter.PushGeneral` | src/grandorgue/combinations/model/GOCombination.cpp:419-442 | stores the registration exactly while Set is active and the frame is not protected, recalls the frame exactly while Set is not active, and marks a modification exactly if something was stored as on |
| `Sequencer.GOSetter.FillWithCurrent` | src/grandorgue/combinations/model/GOCombination.cpp:369-417 | the three loops store the state of every element by the kind of setter, and tell whether one is stored as on |
| `Sequencer.GOSetter.Recall` | src/grandorgue/combinations/model/GOCombination.cpp:427-438 | every element that the combination mentions is switched, the others stay |
| `Sequencer.StoreThenRecall` | src/grandorgue/combinations/model/GOCombination.cpp:369-442 | what storing a registration and recalling it later gives, whatever is on then, for the three kinds of setter |
| `Sequencer.StoredAsOn` | src/grandorgue/combinations/model/GOCombination.cpp:369-417 | storing counts as a modification if and only if an element that is on is stored |
| `Sequencer.ShiftsExactly` | src/grandorgue/combinations/GOSetter.cpp:1111-1119 | shifting counts as a modification if and only if at least two frames are involved and one of them has a state |
| `Sequencer.DeleteUndoesInsert` | src/grandorgue/combinations/GOSetter.cpp:1221-1239 | Insert and Delete at a position give the states of every frame but the last back, whether or not Set is active; flags change exactly where Set has stored others |
| `Sequencer.InsertMovesFlags` | src/grandorgue/combinations/model/GOCombination.cpp:50-54 | Insert moves a whole combination if and only if its flags are those of the next frame |

## Left out

- Stops, windchests and pipes: a division velocity that changes is where the coupler model ends.
- Bass and melody couplers in the network theorems: a re-entrant call can overwrite their current tone, so they are modelled on their own with the destination as a sink; `BasMel.GOCoupler.SetKey` takes the largest permitted velocity as a parameter.
- CouplerOrgan.Manual.SetMidiNoteState: sending the key to MIDI outputs and displays is not modelled.
- Drawstops.Switchboard.Run: the controlling graph is assumed to be acyclic, as a rank of every drawstop; that a configuration has no loops is decided by the order of loading, which is not part of this model. Only entries of inputs are set by name.
- ArchiveWriter.GOArchiveWriter.Close: failing writes are not modelled; a file is a sequence of bytes and every write succeeds.
- ArchiveReader.GOArchiveReader.ReadEndRecord: reading beyond the end of the file is a failed read; names are byte sequences, their conversion from UTF-8 or CP437 is not modelled; the checksum is any fold over bytes.
- ArchiveTheorems.RoundTrip: for archives of fewer than 2^64 bytes, the range of the format.
- ArchiveReader.GOArchiveReader.ReadFileRecord: a local offset of 2^64 - 1 is a failed read here; in the program `Seek` compares the invalid result -1, as a size_t, with the offset, so that it succeeds and the local header is read from where the file stands, after the central record.
- ArchiveReader.GOArchiveReader.ReadCentralDirectory: the same holds of a directory offset of 2^64 - 1 in a zip64 end record.
- The file hash of archives, the list of archives and their identities.
- Loader.StepInv: the workers are steps of one state machine and not classes, since the claims are about interleavings; `Break` is never called by the program and is left out; what an object does while it loads is an arbitrary outcome.
- IniFile.GOConfigFileReader.Read: texts are sequences of characters; byte order mark, character conversion, compression, hash and log are not modelled, and positions are unbounded where the program has 32 bits. White space is that of ASCII.
- MidiRecorder.GOMidiRecorder.WriteEvent: messages are arbitrary non-empty byte sequences; `MidiRoundTrip.Recordable` states what the conversion of events produces. Names are bytes.
- MidiFile.GOMidiFileReader.StartNextTrack: the loop is a round of `ReadAllMessages`; what the outer loop tests in between holds after every skipped chunk.
- MidiFile.GOMidiFileReader.ReadAllMessages: the number of rounds is a parameter, since the loops need not end; what a read beyond the file gives is not modelled; times are in ticks; the conversion to milliseconds with floating-point tempos, the interpretation of messages and the final sort are not modelled.
- MidiRoundTrip.RecordingReadBack: for recordings whose track has fewer than 2^32 bytes, the range of its length field.
- MidiChunks.ReadingEndsExactly: for files of at most 2^32 - 257 bytes; beyond that positions inside a message can wrap, and only `MidiRuns.EndsUnlessReturns` holds.
- MidiRuns.FittingFileRead: for files of at most 2^32 - 257 bytes.
- MidiLaws.ExclusiveMessages: for tracks that end with or before a file of fewer than 2^32 - 300 bytes, as the other laws about messages.
- WaveFile.GOWave.Open: the pitch fraction is kept as the stored number; the program holds it as a floating-point percentage. WavPack keeps wrapper and samples unchanged. The size tests are made before every access to the wrapper.
- WaveFile.GOWave.Save: how one raw sample becomes an integer is a parameter; failures of WavPack are not modelled.
- WaveRoundTrip.SavedThenOpened: for waves with samples, a known format and a header size that fits into 32 bits.
- MemoryPool.GOMemoryPool.GrowPool: the system's answers are parameters, and page sizes divide 2^64.
- MemoryPool.GOMemoryPool.Alloc: the memory limit is a parameter, cache data and `MoveToPool` are left out.
- DeviceNames.GOMidiDeviceConfigList.Append: patterns, ports and output devices of a device are not modelled.
- Sequencer.GOSetter.PushGeneral: an element that is recalled takes the state it is given; the entries of its drawstop are modelled in `Drawstops`. Combinations have been loaded, so that all their elements have a state.
- The crescendo pedal, generals and divisionals, the combination files.
- Audio, rendering of samples, temperaments, tremulants, the user interface.

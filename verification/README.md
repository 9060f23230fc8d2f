# Verified model of the Axoloti firmware engines

A Dafny 4.11 model of the engines inside the Axoloti firmware that carry real invariants, with proofs of what they
keep over every run. `dafny verify dfyconfig.toml` checks everything.

| module | what it models |
|---|---|
| `LibraryGraph`, `DynamicLoader` | `dlopen`/`dlclose`: a reference-counted linked list whose entries hold each other through dependency lists, with recursive closing in the middle of a list traversal |
| `PatchLifecycle` | four patch slots shared by the DSP thread, one worker thread and any number of requesting threads, the DSP thread among them, as interleaved memory accesses |
| `MidiClock` | the clock accumulator in the codec interrupt |
| `Crc32`, `CrcBurst` | the flash check: words through an MSB-first CRC unit with bit reversal, the tail bit by bit; which differences it detects |
| `MidiPacket`, `MidiDecoder`, `MidiRoundTrip` | event packets, the serial decoder, the SysEx chunker, and what survives a trip over the wire |
| `MidiRing`, `MidiRingSpsc` | the one-gap ring buffers, sequentially as bounded FIFOs and concurrently as single accesses; the fan-out to ports |
| `FixedPoint` | table interpolation with two truncating high-word multiplies |
| `KeyTracker` | the controller screen that turns key buttons into notes |
| `DisplayMirror` | the round-robin refresh of display and LEDs over SPI |
| `UsbFraming` | messages over a bulk endpoint, delimited by short packets |

Code that changes state in place is a class or a method proved against a function on values, and the theorems are about
that function, for all inputs or all runs. Threads are state machines: one step is one access to shared memory, a run is
any sequence of steps of any thread, and the theorems are about every state of every run.

## Where the code does less than one would expect

Each of these is proved, as an exact condition or with a concrete input.

- The decoder takes `FF` for a three-byte meta event (`api/midi.h:27-28`), so a reset inside a SysEx run swallows data
  bytes: `MidiRoundTrip.ResetInsideSysEx`. System common messages come back tagged as single bytes.
  `MidiRoundTrip.RoundTrip` says exactly which standard streams survive.
- A stop does not always end. A patch that stops itself from `tick`, or that loads another one while some thread waits
  for a stop, blocks the DSP thread, and with it the stop, for good: `PatchLifecycle.OwnStopSticks`,
  `PatchLifecycle.LoadDuringStopSticks`, `PatchLifecycle.StopNeverEnds`. The same goes for requests from the user
  interface, whose events the DSP thread handles (`firmware/patch.c:333`). `PatchLifecycle.StopCanEnd` gives the exact
  condition: the DSP thread must not wait for the mutex or for a worker, nor be in a stop-all loop that still has a
  RUNNING slot before it, because that loop will come to wait.
- A key released after the channel was changed sends its note-off on the new channel: `KeyTracker.ChannelBalance`,
  `KeyTracker.ChannelChangeHangs`. `KeyTracker.ChannelRuns` says exactly which runs balance on every channel. Per pitch,
  over all channels, notes always balance.
- The key handler indexes its table with any button outside the knob quadrants, and the host can send any
  (`firmware/pconnection.c:999-1008`): `KeyTracker.InputsStayInside` says which events stay inside the table,
  `KeyTracker.ButtonPastKeys` names one that does not.
- A step of the bend button leaves the data-byte range at the two ends, where the encoder clamps, and nowhere else:
  `KeyTracker.BendBytes`, `KeyTracker.BendLeavesRange`.
- Interpolated values can step down by 2 on a rising segment, never more: `FixedPoint.NearlyMonotone`,
  `FixedPoint.NotMonotone`. They do not where the segment rises enough: `FixedPoint.Monotone`, `FixedPoint.SinMonotone`.
- A ring that was shut down keeps handing out old slots: `MidiRing.Ring.Get`.
- 73 display packets refresh the display only from some scheduler states; 74 do from all: `DisplayMirror.Not73`.
- The CRC misses the 33 bits of its generator anywhere in an image; differences within 32 consecutive bits are always
  caught: `Crc32.FiveBytesUndetected`, `CrcBurst.GeneratorSpans33`, `CrcBurst.BitBurstDetected`. `Crc32.FiveByteWindow`
  gives everything that is missed within five bytes.
- A failed USB transfer can put its packets in front of the next message; it costs that message and no other:
  `UsbFraming.AfterFailure`.

Read from the source, but outside what the model shows:

- A failed `dlopen` never frees the list entry it allocated (`firmware/dlfcn.c:71-83`), and `closeReferencedLibs` reads
  `next` of a node it has just freed (`firmware/exports.c:48-51`); the model reads it before the free.
- The comment on `BulkUsbTransmit` speaks of a single packet of at most 64 bytes (`firmware/pconnection.c:173-175`), but
  it is called with any size and the driver splits the transfer. The model follows the code.

## Model

| member | source | states |
|---|---|---|
| DynamicLoader.LibNameOf | firmware/exports.c:84-102 | finds the library name of a symbol, the part before its first underscore, exactly when there is one within the buffer |
| DynamicLoader.KeysAgree | firmware/dlfcn.c:64 | two names stand for the same library if and only if they agree in their first 31 characters, as C strings |
| DynamicLoader.PathOfName | firmware/dlfcn.c:74-75 | a name of up to 32 characters is loaded from `/lib/<name>.elf`; every path fits its buffer |
| DynamicLoader.Loader.constructor | firmware/dlfcn.c:24 | starts with an empty list and no references |
| DynamicLoader.Loader.Dlclose | firmware/dlfcn.c:26-49 | keeps list shape, counts and names; unloads exactly the libraries that no outstanding open and no remaining newer library holds, each once and at count zero, while a caller higher up still holds entries in front; changes nothing for a handle that is not listed; terminates |
| DynamicLoader.Loader.Release | firmware/dlfcn.c:31-43 | gives one reference of the found entry up; if it was the last, everything only that entry held goes too |
| DynamicLoader.Loader.Drop | firmware/dlfcn.c:33-41 | the pointers `prev` and `dllib` taken before the recursive closes are still the right ones after them |
| DynamicLoader.Loader.Unlink | firmware/dlfcn.c:35-39 | bypasses one entry and leaves every other link alone |
| DynamicLoader.Loader.UnloadElf | firmware/loader_config.h:47-51 | unloading runs the close of the dependency list; entries up to the one being unloaded stay in the list |
| DynamicLoader.Loader.CloseReferencedLibs | firmware/exports.c:44-53 | closing a dependency list gives each of its references up once, in spite of what the earlier closes removed |
| DynamicLoader.Loader.Dlopen | firmware/dlfcn.c:60-88 | a listed name gives its entry one more reference and changes nothing else; otherwise the library is loaded from the name's file and put in front, with that file's symbols and the dependencies they need, and, unless the loader gives up, whenever the file exists; failure leaves the same libraries with the same dependency lists and counts |
| DynamicLoader.Loader.FindLibrary | firmware/dlfcn.c:62-69 | finds the entry whose stored name agrees with the first 31 characters, if there is one |
| DynamicLoader.Loader.LoadLibrary | firmware/dlfcn.c:70-87 | a library is linked in front of what loading it pulled in, with the symbols of its file and a dependency list for them; names stay distinct |
| DynamicLoader.Loader.LoadElf | firmware/loader_config.h:47-51 | on success the dependency list holds the references taken while resolving, no library twice, each offering a symbol that the file needs; unless the loader gives up, it succeeds exactly for existing files, and every needed symbol that some library offers is resolved; on failure all references are given up again |
| DynamicLoader.Loader.GiveUp | firmware/loader_config.h:47-51 | a load that fails closes what it opened and leaves the libraries as they were |
| DynamicLoader.Loader.GetUndefinedSymbol | firmware/exports.c:78-129 | an exported symbol is found and nothing changes; any other is found, unless the loader gives up, exactly when the one library it names has a file that offers it, and that library is then on the dependency list; an unresolved one leaves everything as it was |
| DynamicLoader.Loader.GetLibrarySymbol | firmware/exports.c:103-128 | the same for a symbol that names a library: a library already on the dependency list decides by itself, without an open |
| DynamicLoader.Loader.OpenDependency | firmware/exports.c:112-127 | a symbol is found only if the library's file has it, and, unless the loader gives up, if it has; a library opened for a symbol it lacks is closed again with no trace |
| DynamicLoader.Loader.CloseAgain | firmware/exports.c:119-121 | closing a library just opened removes exactly what the open pulled in |
| DynamicLoader.Loader.FindReferencedLib | firmware/exports.c:55-64 | finds the dependency of that name, if there is one |
| DynamicLoader.Loader.AddReferencedLib | firmware/exports.c:66-76 | adds exactly the handle, at the head of an empty list and otherwise right behind the first entry; the list stays free of duplicates |
| DynamicLoader.Loader.CountsHolders | firmware/dlfcn.c:26-88 | the count of a listed library is the outstanding opens plus the dependency lists holding it, at least 1, and its stored name is unique |
| DynamicLoader.Loader.ListedHasHolder | firmware/dlfcn.c:26-88 | every listed library is reached from an outstanding open through dependency lists |
| LibraryGraph.LiveIsReachable | firmware/exports.c:44-53 | the libraries kept by a close are exactly those reachable from the remaining opens |
| LibraryGraph.LiveTwice | firmware/exports.c:44-53 | closing dependencies one by one removes the same libraries as dropping all of them at once |
| PatchLifecycle.RunKeepsInv | firmware/patch.c:212-585 | every reachable state keeps the slot, worker, mutex and instance invariant, with loads and stops asked for by any thread, the DSP thread included |
| PatchLifecycle.DspInsideLive | firmware/patch.c:244-284 | `tick` and `midiInHandler` only run on an allocated instance whose `dispose` has not been called, even while they wait for a load or stop of their own |
| PatchLifecycle.DspHasLeft | firmware/patch.c:510-533 | past the wait of a stop, and during a load, the DSP thread holds no pending check and no pending acknowledgement of that slot |
| PatchLifecycle.LoadTakesVacantSlot | firmware/patch.c:390-398 | a load never fills a slot that runs or whose stop is in progress |
| PatchLifecycle.OneWorker | firmware/patch.c:535-546 | a worker is created only when none lives, and requests are served one at a time |
| PatchLifecycle.WorkerServesJob | firmware/patch.c:535-580 | while a request waits, the worker does what that request says, on the slot it names, or is done |
| PatchLifecycle.StopIsServed | firmware/patch.c:565-580 | in every run, when a stop request is through, the slot it named is neither RUNNING nor STOPPING |
| PatchLifecycle.StopClearsSlot | firmware/patch.c:510-533 | a finished stop leaves its slot STOPPED and without an instance |
| PatchLifecycle.LoadTriesAllSlots | firmware/patch.c:390-398 | a load gives up for want of a slot only if all four run |
| PatchLifecycle.AllocationFails | firmware/patch.c:478-483 | a load that finds no memory leaves a vacant slot without an instance |
| PatchLifecycle.StopAllStopsAll | firmware/patch.c:582-585 | when a stop-all returns, every slot has been not RUNNING at some moment since it began |
| PatchLifecycle.EveryPatchTicks | firmware/patch.c:244-260 | a patch that runs throughout an audio scan gets a `tick` in it |
| PatchLifecycle.EveryPatchHears | firmware/patch.c:274-284 | a patch that runs throughout the scan for a MIDI message is handed that message |
| PatchLifecycle.MidiIsHandled | firmware/patch.c:274-284 | a run in which a loaded patch receives a MIDI message |
| PatchLifecycle.FailedLoad | firmware/patch.c:478-508 | a run in which a patch fails to initialise: its instance is freed and its slot stays STOPPED |
| PatchLifecycle.IdleAccounts | firmware/patch.c:478-531 | with no worker active nothing is STOPPING, the live instances are those of the RUNNING slots, and every other instance was freed exactly once |
| PatchLifecycle.FreedAfterDispose | firmware/patch.c:521-522 | an instance that ever ran is disposed before it is freed |
| PatchLifecycle.StopIsAcknowledged | firmware/patch.c:244-260 | one whole scan of the DSP thread acknowledges a pending stop |
| PatchLifecycle.StopCanEnd | firmware/patch.c:513-519 | a pending stop can still be acknowledged if and only if the DSP thread neither waits in a request of its own nor is in a stop-all loop with a RUNNING slot before it |
| PatchLifecycle.StopNeverEnds | firmware/patch.c:513-519 | otherwise the slot stays STOPPING in every later state of every run |
| PatchLifecycle.OwnStopSticks | firmware/patch.c:565-580 | a run in which a patch stops itself from `tick` and gets there |
| PatchLifecycle.LoadDuringStopSticks | firmware/patch.c:535-540 | a run in which a load asked for from `tick` during another thread's stop gets there |
| MidiClock.NoDrift | firmware/patch.c:370-385 | over any run of buffers, period changes, starts and stops: counter plus twice the active buffers minus the periods added is constant, and the counter stays at least 1 |
| MidiClock.TicksBy | firmware/patch.c:370-376 | at a constant period, how many ticks any number of buffers has produced |
| MidiClock.TickTimes | firmware/patch.c:370-376 | tick k falls less than a buffer from its ideal time for every k, and intervals are the half period rounded down or up |
| MidiClock.TicksFromPowerUp | firmware/patch.c:370-376 | started at power-up, tick k falls in buffer 125 * k / 2, the first one at once |
| MidiClock.StoppedStandsStill | firmware/patch.c:370-385 | over any run without a start, a stopped clock keeps its counter and position |
| MidiClock.StartAndStop | firmware/menu_content/midi_clock_menu.c:49-57 | a start makes the clock active and a stop inactive; neither moves it |
| MidiClock.ClockUnit.OnBuffer | firmware/patch.c:370-385 | the interrupt's in-place update is the clock function of the theorems |
| MidiClock.ClockUnit.Adjust | firmware/menu_content/midi_clock_menu.c:22-26 | the period stays within 80..335 and moves by the requested amount when that fits |
| MidiClock.ClockUnit.StartStop | firmware/menu_content/midi_clock_menu.c:49-57 | starting or stopping keeps counter and period |
| Crc32.CrcUnit.CalcCrc32 | firmware/crc32.c:32-66 | the word-wise hardware path with the bitwise tail computes the table-form CRC-32 of RFC 1952 section 8, for every buffer and size |
| Crc32.CrcUnit.Write | firmware/crc32.c:49 | the unit divides one word by 0x04C11DB7, most significant bit first |
| Crc32.CrcUnit.EightSteps | firmware/crc32.c:58-62 | the inner loop is eight steps of the reflected division |
| Crc32.CheckValue | firmware/crc32.c:32-66 | the CRC of the digits 1 to 9 is CBF43926, the published check value of this CRC |
| Crc32.RevBit | firmware/crc32.c:25-30 | bit i of the reversed word is bit 31 - i |
| Crc32.RevSteps | firmware/crc32.c:45-53 | bit reversal carries any number of MSB-first steps into LSB-first steps |
| Crc32.UpdateWord | firmware/crc32.c:45-50 | up to four table-form byte updates equal the same number of steps on their little-endian word |
| Crc32.BurstDetected | firmware/pconnection.c:651-661 | equal-length images that differ only inside four consecutive bytes have different CRCs |
| Crc32.FiveByteWindow | firmware/pconnection.c:651-661 | images that differ inside five consecutive bytes have equal CRCs if and only if the fifth byte's difference is what the first four leave behind |
| Crc32.FiveBytesUndetected | firmware/pconnection.c:651-661 | for any image and any five consecutive bytes, adding the generator keeps the CRC, so four bytes are the most |
| CrcBurst.BitBurstDetected | firmware/pconnection.c:651-661 | equal-length images that differ only inside 32 consecutive bits, wherever these start, have different CRCs |
| CrcBurst.GeneratorSpans33 | firmware/pconnection.c:651-661 | the undetected generator spans 33 bits, so 32 is the most |
| MidiDecoder.Decoder.Process | firmware/midi_decoder.c:46-142 | the in-place byte step is the decoder function of the theorems, and its halt is dead code |
| MidiDecoder.AlwaysReachable | firmware/midi_decoder.c:66-93 | on every byte stream at most two bytes are pending |
| MidiDecoder.RealTimeAnywhere | firmware/midi_decoder.c:49-58 | single-byte messages inserted anywhere come out as themselves and leave the other packets and the final state alone |
| MidiDecoder.RealTimeBytes | firmware/midi_decoder.c:46-58 | exactly the status bytes F4 to F6 and F8 to FE are messages by themselves; every other one but the end of a SysEx yields nothing yet |
| MidiDecoder.RunningStatus | firmware/midi_decoder.c:99-131 | leaving out any choice of repeated channel status bytes gives the same packets and the same state |
| MidiRoundTrip.OnePacket | firmware/midi_encoder.c:9-30 | the wire bytes of one standard packet decode to that packet, up to port and tagging |
| MidiRoundTrip.Transmitted | firmware/midi_din.c:57-62 | what every standard stream without a reset inside a SysEx decodes to, from every decoder state |
| MidiRoundTrip.RoundTrip | firmware/midi_decoder.c:46-142 | a standard stream decodes to itself if and only if it is on port 0 and holds no system common message and no reset |
| MidiRoundTrip.ResetInsideSysEx | firmware/midi_decoder.c:94-98 | a reset inside a SysEx run turns the next two data bytes into a meta event |
| MidiRoundTrip.SendSysEx | firmware/midi.c:69-118 | the chunking loop hands over exactly the chunks of the message for 1 to 255 bytes, and one arbitrary packet for none |
| MidiRoundTrip.SysExChunks | firmware/midi.c:69-118 | the chunks flatten to the message, carry the port, and only the last has an end code, matching its length |
| MidiRoundTrip.SysExRoundTrip | firmware/midi.c:69-118 | a SysEx message chunked, sent and decoded from any state gives the same packets on port 0 |
| MidiRing.Ring.constructor | firmware/midi_buffer.c:28-32 | an empty queue |
| MidiRing.Ring.Put | firmware/midi_buffer.c:79-91 | appends to the queue, refuses exactly at 31 messages, and refuses in the same way, without effect, after a shutdown |
| MidiRing.Ring.Get | firmware/midi_buffer.c:93-99 | removes the oldest message, or reports an empty queue; after a shutdown it walks through the old slots |
| MidiRing.Ring.GetPending | firmware/midi_buffer.c:105-110 | is the queue length; after a shutdown, what the read index leaves of 31 |
| MidiRing.Ring.GetAvailable | firmware/midi_buffer.c:112-114 | is 31 minus the queue length; after a shutdown, the read index |
| MidiRing.Ring.Reset | firmware/midi_buffer.c:70-72 | empties the queue, and revives a ring that was shut down |
| MidiRing.Ring.Deinit | firmware/midi_buffer.c:74-77 | shuts the ring down |
| MidiRing.Dispatch | firmware/midi.c:120-129 | appends one copy per set bit 0..7 in ascending port order, cut only where the ring is full |
| MidiRing.CopiesPorts | firmware/midi.c:120-129 | the copies differ from the message in the port only, and their ports are exactly the set bits |
| MidiRing.BitsMakeWord | firmware/midi.c:122-127 | the powers of two of the bits called set add up to the low bits of the word |
| MidiRing.CopiesMakeMap | firmware/midi.c:122-127 | the powers of two of the ports that get a copy add up to the low bits of the port map |
| MidiRing.DispatchedPorts | firmware/midi.c:122-127 | for all eight ports, to the port map modulo 256 |
| MidiRing.PortCopiesPorts | firmware/midi.c:43-52 | the copies for a USB host ring differ from the message in the port only, and their ports are exactly those routed to |
| MidiRing.Send | firmware/midi.c:32-62 | each output ring gets exactly the copies its routing table asks for, the input ring those of ports 8..15, and no ring anything else |
| MidiRing.OfferedPrefix | firmware/midi_buffer.c:42-46 | a bounded FIFO keeps of several offers the first ones that fit |
| MidiRingSpsc.RunKeepsInv | firmware/midi_buffer.c:39-58 | every reachable state of producer and consumer keeps the ring invariant |
| MidiRingSpsc.GotIsPrefix | firmware/midi_buffer.c:39-58 | in every interleaving the messages got are a prefix, in order, of those accepted, none torn |
| MidiRingSpsc.NeverWritesReadSlot | firmware/midi_buffer.c:52-58 | the producer never writes the slot at the read index, although a get advances it before loading |
| MidiRingSpsc.NothingLost | firmware/midi_buffer.c:39-58 | between gets the ring holds exactly the accepted messages not yet got |
| MidiRingSpsc.RefusedWhenFull | firmware/midi_buffer.c:42-46 | a put is refused exactly when 31 accepted messages have not been taken |
| MidiRingSpsc.PutOutcome | firmware/midi_buffer.c:39-50 | whatever the consumer does meanwhile, a put is refused if the ring is full at its check, and otherwise its message, and no other, is accepted |
| MidiRingSpsc.GetStarts | firmware/midi_buffer.c:52-58 | a get takes something exactly when an accepted message is left |
| MidiRingSpsc.GetLoadsOldest | firmware/midi_buffer.c:52-58 | and it takes the oldest accepted message not yet got, whole |
| FixedPoint.NoOverflow | api/axoloti_math.h:58-72 | for any table entries neither multiply, accumulate nor shift wraps |
| FixedPoint.InterpolationError | api/axoloti_math.h:116-127 | the result lies in (-5, 1] around exact linear interpolation |
| FixedPoint.SinIsNear | api/axoloti_math.h:116-127 | for every phase both table indices are in range and the error bound holds |
| FixedPoint.HannIsNear | api/axoloti_math.h:129-140 | the same for the window function and its 16-bit table |
| FixedPoint.SinOfPhase | api/axoloti_math.h:116-127 | the sine interpolates the two entries of the phase, counted from zero to a full turn of 2^32 |
| FixedPoint.HannOfPhase | api/axoloti_math.h:129-140 | the same for the window function |
| FixedPoint.MtofIsNear | api/axoloti_math.h:88-114 | the same for both pitch functions over every pitch, with saturation and the wrapping unsigned index |
| FixedPoint.MtofOfPitch | api/axoloti_math.h:88-100 | inside its range, the plain pitch function interpolates entries k and k + 1 for k = 128 + pitch / 2^21, at the rest of that division |
| FixedPoint.MtofExtOfPitch | api/axoloti_math.h:102-114 | the same for the extended one over its wider range |
| FixedPoint.MtofOutside | api/axoloti_math.h:88-114 | outside of their ranges both give the value at the nearer end |
| FixedPoint.NearlyMonotone | api/axoloti_math.h:116-127 | on a rising segment a later phase is at most 2 lower |
| FixedPoint.NotMonotone | api/axoloti_math.h:116-127 | and it can be 2 lower |
| FixedPoint.Monotone | api/axoloti_math.h:116-127 | it is not lower when slope times distance reaches 2^32 |
| FixedPoint.SinMonotone | api/axoloti_math.h:116-127 | between sine entries that rise by 2^21 or more, any later phase gives a value at least as high |
| KeyTracker.Screen.OnEvent | firmware/menu_content/midi_controller.c:38-109 | the in-place handler is the event function of the theorems, and keeps every field in range |
| KeyTracker.Screen.OnKey | firmware/menu_content/midi_controller.c:66-96 | press, re-press, held release and release of one key are the key functions of the theorems |
| KeyTracker.Screen.OnQuad | firmware/menu_content/midi_controller.c:110-232 | the six kinds of knob handlers are the knob function of the theorems |
| KeyTracker.Screen.constructor | firmware/menu_content/midi_controller.c:295-316 | no key held, page 0 |
| KeyTracker.InputsStayInside | firmware/menu_content/midi_controller.c:66-67 | exactly the events of the knob quadrants and the buttons up to `btn_16` stay inside the key table |
| KeyTracker.ButtonPastKeys | firmware/menu_content/midi_controller.c:66-67 | the first button past the keys indexes outside the table |
| KeyTracker.HandleKeepsValid | firmware/menu_content/midi_controller.c:38-109 | notes stay within 24..111, the page within the handler table |
| KeyTracker.NoHangingNotes | firmware/menu_content/midi_controller.c:66-96 | over any run, note-ons minus note-offs of a pitch are the keys that hold it |
| KeyTracker.AllKeysUp | firmware/menu_content/midi_controller.c:66-96 | with every key up they cancel |
| KeyTracker.ChannelBalance | firmware/menu_content/midi_controller.c:66-96 | per channel an event balances if and only if it turns off no note that was turned on on another channel |
| KeyTracker.NoHangingOnChannel | firmware/menu_content/midi_controller.c:66-96 | over any run without such a note-off, the notes sent on a channel and pitch are those by which the keys pressed there change |
| KeyTracker.ChannelRuns | firmware/menu_content/midi_controller.c:66-96 | every beginning of a run balances on every channel and pitch if and only if no note-off of the run goes out on another channel than its note-on |
| KeyTracker.ChannelChangeHangs | firmware/menu_content/midi_controller.c:147-157 | press, next channel, release leaves a note on |
| KeyTracker.StepUndone | firmware/menu_content/midi_controller.c:110-232 | a step up and a step down of any knob restore it, if and only if the step up was not cut off at the end of its range |
| KeyTracker.KnobMoves | firmware/menu_content/midi_controller.c:38-232 | for all twelve knobs: an event moves a knob by what it asks if and only if that stays inside the range of the encoder or button; an event at another knob, a key or the page leaves it where it is |
| KeyTracker.KnobRuns | firmware/menu_content/midi_controller.c:110-232 | after every beginning of a run a knob stands where it started plus all that was asked of it, if and only if the run never asks it to leave its range |
| KeyTracker.EncoderGoesNearest | firmware/menu_content/midi_controller.c:110-232 | an encoder takes its knob to the value of its range nearest to what it asks |
| KeyTracker.MessagesCarry | firmware/menu_content/midi_controller.c:66-96 | every message is on port 0 and the selected channel; a note-on carries the key, moved by octaves, and the velocity set; a note-off the note held, and 100 on a re-press or else the velocity set, not the release velocity |
| KeyTracker.NoteAfterRun | firmware/menu_content/midi_controller.c:66-186 | after a run that stays in range, a note-on carries the channel, octave and velocity the run started with plus everything it asked of the three knobs |
| KeyTracker.ListenerAgrees | firmware/menu_content/midi_controller.c:110-232 | after any run, whoever kept the last message of a controller or of the bend knows the value of that knob |
| KeyTracker.PageSteps | firmware/menu_content/midi_controller.c:97-107 | any number of page steps moves by two each and stops at the ends |
| KeyTracker.EveryKnob | firmware/menu_content/midi_controller.c:38-107 | from any state at most eight page steps bring any knob under a quadrant |
| KeyTracker.BendBytes | firmware/menu_content/midi_controller.c:110-146 | from a bend in range, every pitch bend message of a run carries a data byte if and only if no button step is made at an end of the range |
| KeyTracker.BendLeavesRange | firmware/menu_content/midi_controller.c:122-126 | a jump to the top and one more step make such a step |
| DisplayMirror.Master.Process | firmware/spilink_lld.h:22-53 | the in-place packet filling is the scheduler function of the theorems |
| DisplayMirror.OnTheWire | firmware/spilink_lld.h:22-53 | one packet in eight is for LEDs, in turn 0x200 with the four rings and 0x201 with the other two; the others are 0x100 plus a block number with its sixteen bytes |
| DisplayMirror.NthCarries | firmware/spilink_lld.h:46-48 | which packet is the m-th to carry a display block, and which block it carries |
| DisplayMirror.EveryBlockIn74 | firmware/spilink_lld.h:22-53 | any 74 consecutive packets carry all 64 blocks, from any scheduler state |
| DisplayMirror.Not73 | firmware/spilink_lld.h:22-53 | 73 do so if and only if the first of them is not an LED packet |
| DisplayMirror.LedsIn16 | firmware/spilink_lld.h:27-45 | any 16 consecutive packets carry each LED group exactly once |
| DisplayMirror.DisplayIsFresh | firmware/spilink_lld.h:46-53 | with a display that keeps changing, every mirrored byte is at most 74 packets old |
| DisplayMirror.DisplayConverges | firmware/spilink_lld.h:46-53 | a display unchanged over 74 packets is mirrored exactly |
| DisplayMirror.LedsConverge | firmware/spilink_lld.h:27-45 | LEDs unchanged over 16 packets are mirrored exactly |
| UsbFraming.Endpoint.TransmitPacket | firmware/pconnection.c:188-197 | sends the framed message, always if the bus keeps working; after a failure the bus has seen a beginning of it |
| UsbFraming.Endpoint.Transmit | firmware/pconnection.c:176-181 | one driver transfer, split at the 64-byte endpoint size |
| UsbFraming.Reassembled | firmware/pconnection.c:183-197 | any list of messages of any sizes is received as sent, by cutting at short packets |
| UsbFraming.AfterFailure | firmware/pconnection.c:188-197 | whatever a failed message left on the bus costs at most the next message, with its exact effect; every later message arrives as sent |
| UsbFraming.UniquelyDecodable | firmware/pconnection.c:183-197 | different lists differ on the bus |
| UsbFraming.BareTransfer | firmware/pconnection.c:176-192 | a bare transfer delimits itself if and only if it is empty or not a multiple of 64 bytes |
| UsbFraming.TransferPackets | firmware/usbcfg.c:322-333 | all packets but the last are full; the last is full exactly for positive multiples of 64 |

## Left out

- DynamicLoader.Loader.Dlclose: for a listed handle the caller must hold an open on it; closing a handle more often than it was opened is outside the model. The loader is single-threaded, as its own note asks for a mutex (`firmware/dlfcn.c:11`).
- DynamicLoader.Loader.LoadElf: the ELF loader itself is vendored and not part of this model; it is taken to resolve symbols in order, to give up at an unresolved symbol or at the end as the parameter `givesUp` says, and to run `loader_close` both when it fails and when it unloads. Library files do not depend on each other in a circle.
- DynamicLoader.Loader.CloseReferencedLibs: a dependency list is a value, so its heap nodes and their frees are not modelled; `next` is read before a node is freed.
- DynamicLoader.LibNameOf: symbols of 31 characters or more without an underscore among the first 31 are outside the domain; the source then reads an unterminated buffer.
- DynamicLoader.Loader.LoadLibrary: the allocation of a list entry is taken to succeed, as the source does not check it; the entry that a failed load leaks is not represented.
- PatchLifecycle.RunKeepsInv: the slot table is a value rewritten by steps, not objects in memory; the model starts after `start_dsp_thread`, before which the zeroed statuses read as RUNNING. A line of the source that reads shared memory twice is two steps; one access is atomic.
- PatchLifecycle.StopIsAcknowledged: that the DSP thread keeps being scheduled, and that a patch's `tick` returns, is assumed. Requests made by a patch's init or dispose code, that is by the worker, are forbidden by `api/patch.h:25` and not among the runs.
- PatchLifecycle.IdleAccounts: `patch->elf`, the patch name and the stop callback are not modelled, nor is the halt for a stop request that names no slot; a failed load leaves a dangling instance pointer in a STOPPED slot, which no step reads.
- Accesses to a patch instance from the user interface and the USB command thread: the source does not order them with a stop.
- MidiClock.ClockUnit.Adjust: it is atomic with respect to the interrupt; `song_position` does not wrap at 32 bits.
- MidiRoundTrip.Transmitted: stray data bytes between packets, reserved code index numbers 0 and 1, and arbitrary bytes under code index number 15 are not standard streams.
- MidiRing.Ring.Put: the notify callback of output rings is left out; input and output rings are one class.
- MidiRingSpsc.GotIsPrefix: one producer and one consumer; the source marks put as not reentrant (`firmware/midi_buffer.c:40`). Resets and shutdowns do not occur during a run.
- FixedPoint.Monotone: one way only; below its bound the order also depends on the entries and fractions themselves.
- FixedPoint.MtofIsNear: table contents are arbitrary; how the tables are generated (floating point) is not modelled.
- KeyTracker.NoHangingNotes: counts what is handed to the input buffer; a full buffer drops messages and the source ignores that. A note-on with velocity 0 counts as a note-on.
- KeyTracker.Screen.OnEvent: what an event does that indexes outside the key table is not defined by the source and not modelled; drawing is left out.
- DisplayMirror.Master.Process: the events read from the received packet, the audio part and the double-buffer exchange are left out; the receiver that applies packets is the control board, not this firmware.
- UsbFraming.Endpoint.Transmit: the driver is vendored and assumed to split a transfer into full packets and a rest; whether it can fail is the parameter `up`; the transmit mutex is left out.
- Registers, DMA, SAI, I2C and SPI set-up, flash programming, exception dumps, the kernel, heap and file system: hardware and vendored code.
- USB host MIDI, biquad coefficients, table generation, VU meters, menus, LCD drawing, file commands, parameter changes and audio mixing: no clean claim, floating point, or only easy members.

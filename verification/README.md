# Verified models of the realme samurai device tree

Dafny models of the parts of the device tree that carry state machines and algorithms, with proofs.
`dafny verify dfyconfig.toml` checks everything.

- `UdfpsThread.dfy` is the protocol between the thread of the under-display fingerprint sensor and its
  callers: one event per instruction that touches shared state, an explicit mutex holder, a wake pipe, a
  condition variable, and any number of calls in progress. `UdfpsSensor.dfy` is the object itself; its
  methods are proved to be runs of that protocol.
- `SamplingSensor.dfy` is the generic sensor: period, sampling loop, flush and injection.
  `SensorsSubHal.dfy` routes calls to sensors by handle.
- `CallbackRegistry.dfy` is the registry of linked callbacks, binder's death links and notices as a state
  machine. `UdfpsHelper.dfy` is the service object, with `remove_if` and `erase` over owning slots.
- `TouchWatchdog.dfy` is the touch flag and its watchdog as a timed automaton.
- `DirectoryOrder.dfy` and `SectionSort.dfy` are the comparator and the sorting of blob lists;
  `UpdateSha1Sums.dfy` annotates and strips them; `PatchElf.dfy` renames libraries in a binary.
- `FingerprintHal.dfy` is the fingerprint HAL wrapper as a traced machine, `BiometricsFingerprint.dfy` the
  object.
- `AreaCapture.dfy` averages the colours of a captured area.

In the state machines a run is any sequence of events and an event that is not enabled changes nothing, so a
statement about all runs is one about all interleavings.

Where the code and what is said about it differ, the model follows the code:

- The comparator of `reorder-libs.py` is not transitive once names without a slash mix in;
  `TransitiveIffNoTriangle` says exactly when it is, `MixedNamesCycle` shows it, and `SectionsHaveNoTriangle`
  covers the sections of the repository's own list.
- The period given to the sub-HAL is narrowed to 32 bits before it is clamped; `StoredPeriodIsClampedRequest`
  says exactly when that shows.
- A sensor that is enabled before its first `batch()` samples with a period of zero; `MinimumDelayIffBatched`
  says exactly when the minimum delay is kept, `UnbatchedPostsCoincide` shows it broken.
- The watchdog logs that a touch it releases was down for more than three seconds;
  `FullTouchIffNotInterrupted` says exactly when that is so.
- Stripping undoes annotating, and patching back undoes patching, under the exact conditions of
  `CleaningUndoesUpdating` and `PatchUndoesItself`; `UnterminatedLineGainsNewline` and `PresentNameIsLost`
  show inputs that do not meet them.
- The pixel index and the sums of the area average are computed in 32 bits; `WrappedIndexFacts` and
  `AveragesAreExactIffTheyFit` say when that matters.

## Model

| member | source | states |
|---|---|---|
| UdfpsThread.ReachableStatesAreSafe | sensors/Sensor.cpp:270-334 | In every interleaving of the worker, the kernel and any number of callers: the mutex has at most one holder; a poll running while the sensor is off or injecting has an unread byte to break it or a caller that still owes one; a sleeper with a reason to run is about to be notified; the pipe read under the mutex never blocks; a stop is seen |
| UdfpsThread.StepKeepsInv | sensors/Sensor.cpp:270-334 | The invariant above is kept by every single step, from any state |
| UdfpsThread.CallerKeepsPollInterruptible | sensors/Sensor.cpp:270-284 | No instruction of activate() or setOperationMode() strands a poll, including the unlocked write after the mode change |
| UdfpsThread.CallerKeepsWakeup | sensors/Sensor.cpp:270-284 | No instruction of a caller loses the wakeup of a waiting worker |
| UdfpsThread.StrandedPollReturns | sensors/Sensor.cpp:286-334 | From a reachable state with a poll the sensor no longer wants, along every continuation, whoever runs: as long as the worker has not left poll() the kernel can end the poll with a byte in the pipe, or one and the same caller is never blocked and, its turns so far and the instructions it has left before its byte together being at most three, writes the byte by its third turn |
| UdfpsThread.StrandedPollCanReturn | sensors/Sensor.cpp:286-334 | One such way out takes at most four steps of one caller and the kernel, with no finger and no other caller involved |
| UdfpsThread.PostsNeedActivations | sensors/Sensor.cpp:270-315 | Over any run from any state, posts plus one if the sensor is on or a poll is in flight never exceed the off-to-on switches plus one if it was so at the start |
| UdfpsThread.FreshActivationBetweenPosts | sensors/Sensor.cpp:270-315 | Between any two posts the sensor was switched from off to on |
| UdfpsThread.PostAnswersArmedPoll | sensors/Sensor.cpp:286-315 | Every post answers a poll that was entered with the sensor on, in normal mode and not stopped, and has been in flight since |
| UdfpsThread.WorkerSettles | sensors/Sensor.cpp:286-315 | Left alone, the worker reaches its resting place in boundedly many steps without changing the flags: it drains stale bytes, then sleeps if the sensor is off or injecting, polls on an empty pipe if it is on, and exits if stopped |
| UdfpsSensor.ActivateEffect | sensors/Sensor.cpp:270-279 | An uninterrupted activate() that changes the flag writes one byte and notifies; one that does not changes nothing |
| UdfpsSensor.SetModeEffect | sensors/Sensor.cpp:191-197 | An uninterrupted setOperationMode() sets the mode, notifies only on a change, and always writes a byte |
| UdfpsSensor.TouchIsPosted | sensors/Sensor.cpp:296-308 | A finger reported to a poll of an enabled sensor yields exactly one post and switches the sensor off, leaving the pipe alone |
| UdfpsSensor.RoundHeedsAnswer | sensors/Sensor.cpp:295-313 | What one trip round the loop makes of poll()'s answer: a finger, reported and confirmed, is posted once, exactly, and switches the sensor off; an error stops the thread; anything else eats one byte if there is one, and a poll with nothing to report blocks |
| UdfpsSensor.Sensor.constructor | sensors/Sensor.cpp:225-264 | A new sensor satisfies the initial condition of the step system and is stopped exactly when a descriptor could not be opened |
| UdfpsSensor.Sensor.Activate | sensors/Sensor.cpp:270-279 | The method is the uninterrupted run of its steps in the step system |
| UdfpsSensor.Sensor.SetOperationMode | sensors/Sensor.cpp:281-284 | The method is the uninterrupted run of its steps in the step system |
| UdfpsSensor.Sensor.HandlePoll | sensors/Sensor.cpp:300-312 | Acting on a poll result is one step of the step system: it posts and switches the sensor off exactly for a confirmed finger, and an error stops the thread |
| UdfpsSensor.Sensor.PollOnce | sensors/Sensor.cpp:295-313 | One trip round the loop is the run of unlock, poll, lock and act; of the answer it met, a finger is posted and leaves the sensor off, an error leaves the thread stopped, and any other answer takes a byte if there was one |
| UdfpsSensor.Sensor.GoRound | sensors/Sensor.cpp:288-314 | The loop of the thread goes round once for each answer of poll() until it must stop, wait or block: its trace is that of exactly the answers met, of which it posts the finger, if there is one, and stops at the error, if there is one |
| UdfpsSensor.Sensor.Run | sensors/Sensor.cpp:286-315 | The whole thread is the run of the step system that the answers of poll() dictate; without callers it posts one event, and leaves the sensor off, exactly if an answer it met is a finger, it exits exactly if it was told to stop or met an error, and it leaves answers unmet only if stopped, off, injecting or blocked |
| SamplingSensor.StoredPeriodIsClampedRequest | sensors/SensorsSubHal.cpp:65-73 | The stored period is the requested 64-bit period clamped to the delays, exactly when narrowing to 32 bits leaves it alone or on the far side of the bound it exceeded |
| SamplingSensor.LongPeriodStoredAsShortest | sensors/SensorsSubHal.cpp:65-73 | A request of 2^32 ns is stored as the shortest period instead of the longest |
| SamplingSensor.PostsAreSpaced | sensors/Sensor.cpp:147-171 | With periods of at least p, whatever the clock does and however often the period changes, k posts span at least (k - 1) * p |
| SamplingSensor.OneTurn | sensors/Sensor.cpp:152-169 | On a pass a sensor that is off or injecting does nothing; otherwise it posts exactly if the period has passed since the last sample, and then waits for a period, else for what is left of it |
| SamplingSensor.IdleTurnsDoNotMatter | sensors/Sensor.cpp:151-155 | Posts, waits and the time of the last sample are those of the passes on which the sensor is on and in normal mode alone |
| SamplingSensor.MinimumDelayIffBatched | sensors/Sensor.cpp:73-171 | From construction on, for any run of batch(), activate() and setOperationMode() calls and passes of the loop, whatever 64-bit periods are asked for, wherever they land and whatever the clock does: however a run goes on, its posts keep the minimum delay from the last one before, exactly if a batch() that the sensor heeds came before (or the delay is not positive) |
| SamplingSensor.UnbatchedPostsCoincide | sensors/Sensor.cpp:72-76 | Before any batch() the period is zero, and a sensor that is switched on posts twice at one reading of the clock |
| SamplingSensor.WaitsNeverNegativeIffDelayIsNot | sensors/Sensor.cpp:72-168 | In every run from construction, for any clock, batched or not and even if the period changes between the two times a pass reads it, no wait is negative, exactly if the minimum delay is not negative or the sensor ignores requests |
| SamplingSensor.Sensor.Batch | sensors/Sensor.cpp:105-114 | The stored period lies between the delays, equals a request between them, and is the bound a request exceeds; a one-shot sensor ignores the call; the loop is notified exactly of a change |
| SamplingSensor.Sensor.Activate | sensors/Sensor.cpp:116-122 | The enabled flag changes and nothing else the loop reads, and the loop is notified exactly of a change |
| SamplingSensor.Sensor.SetOperationMode | sensors/Sensor.cpp:191-197 | The mode changes and nothing else the loop reads, and the loop is notified exactly of a change |
| SamplingSensor.Sensor.Flush | sensors/Sensor.cpp:124-141 | Succeeds, with one flush event, exactly for an enabled sensor that is not one-shot |
| SamplingSensor.Sensor.InjectEvent | sensors/Sensor.cpp:203-216 | Additional info is accepted without a post; otherwise the event is posted exactly by an injectable sensor in injection mode, with the source's two refusals |
| SamplingSensor.Sensor.Pass | sensors/Sensor.cpp:151-169 | One pass of the loop on the fields, with a request landing between its two reads of the period: it posts a sample exactly if the sensor is on, in normal mode and due, waits for the period as read again or for what is left, and does not overflow 64 bits |
| SamplingSensor.Sensor.Run | sensors/Sensor.cpp:105-197 | Any sequence of calls and passes leaves the fields, the post times, the waits and the posted samples of the specified run, so what is proved of runs holds of the object; a sensor that stays off, or stays injecting, posts nothing and never waits for a sample |
| SensorsSubHal.SubHal.SensorsAreDistinct | sensors/SensorsSubHal.h:73-78 | Different handles name different sensors |
| SensorsSubHal.SubHal.constructor | sensors/SensorsSubHal.cpp:35-37 | Any number of sensors is filed under handles 1, 2, ...: each is off, in normal mode, with period 0, no sample taken and nothing posted |
| SensorsSubHal.SubHal.AddSensor | sensors/SensorsSubHal.h:73-78 | The new sensor is filed under its own handle, the next one; the others stay |
| SensorsSubHal.SubHal.SetOperationMode | sensors/SensorsSubHal.cpp:48-54 | Every sensor and the sub-HAL change to the mode, and nothing else about any sensor changes |
| SensorsSubHal.SubHal.Initialize | sensors/SensorsSubHal.cpp:140-144 | Stores the proxy and returns every sensor and the sub-HAL to normal mode |
| SensorsSubHal.SubHal.Activate | sensors/SensorsSubHal.cpp:56-63 | Exactly the named sensor's enabled flag changes; an unknown handle is refused and changes nothing |
| SensorsSubHal.SubHal.Batch | sensors/SensorsSubHal.cpp:65-73 | Exactly the named sensor's period changes, to the narrowed and clamped request, and not at all for a one-shot sensor; an unknown handle is refused and changes nothing |
| SensorsSubHal.SubHal.Flush | sensors/SensorsSubHal.cpp:75-81 | Routes to the named sensor; an unknown handle is refused and changes nothing |
| SensorsSubHal.SubHal.InjectSensorData | sensors/SensorsSubHal.cpp:83-90 | Routes to the named sensor, which heeds the mode the sub-HAL reports; an unknown handle is refused and changes nothing |
| CallbackRegistry.LinksAreOwnedEntries | syshelper/UdfpsHelper.cpp:107-150 | After any run of registrations, failed ones included, removals, broadcasts, deaths and deliveries, with an allocator that may hand out freed addresses again: every object made is owned once or was destroyed once, no two owned ones share an address, the live death links are exactly the owned entries, and the pending notices are exactly the owned entries of dead binders |
| CallbackRegistry.StepKeepsInv | syshelper/UdfpsHelper.cpp:70-150 | The same invariant is kept by every single step |
| CallbackRegistry.NoDanglingCookie | syshelper/LinkedCallback.h:40-42 | A cookie that binder holds, linked or pending, is the address of exactly one living object, the one that was linked, and of no other link, even when addresses are reused |
| CallbackRegistry.FailedLinkLeavesNothing | syshelper/LinkedCallback.cpp:26-46 | Registry, links, notices and greetings stay as they were exactly when linking fails or the binder is dead; then the object made for it, which never had a link, is destroyed at once without unlinking, and otherwise entry and link appear together |
| CallbackRegistry.GreetDropsOnlyDead | syshelper/UdfpsHelper.cpp:123-126 | The first notification removes exactly the entries of the binder if the answer is that it is dead, and changes nothing else for any other answer |
| CallbackRegistry.RemovalsRemoveExactly | syshelper/UdfpsHelper.cpp:70-150 | Unregistering removes exactly the entries of the binder, a broadcast exactly those that answer that they are dead |
| CallbackRegistry.DeliveryShrinks | syshelper/LinkedCallback.cpp:61-63 | Delivering a notice removes all entries of its binder and strictly shrinks the pending set |
| CallbackRegistry.DeadCallbacksDrain | syshelper/UdfpsHelper.cpp:20-23 | Once all notices are delivered, in any order, the registry is what it was without the entries of dead binders, in the old order |
| CallbackRegistry.DrainEnds | syshelper/UdfpsHelper.cpp:131-150 | There is always such an end, after no more deliveries than notices |
| UdfpsHelper.Helper.MoveAssign | syshelper/UdfpsHelper.cpp:79 | Moving an owner destroys what the target slot owned and empties the source slot |
| UdfpsHelper.CompactionMoves | syshelper/UdfpsHelper.cpp:142 | One move of the compaction keeps the front the filtered prefix, and the destroyed entries followed by those still in the gap the dropped ones |
| UdfpsHelper.Helper.RemoveIf | syshelper/UdfpsHelper.cpp:79 | remove_if asks the predicate once per entry in order, leaves the order-preserving filter in front, and has every other entry destroyed already or still owned by the tail, the two together in the old order |
| UdfpsHelper.Helper.EraseFrom | syshelper/UdfpsHelper.cpp:80 | Erasing the tail destroys what it still owns, in order |
| UdfpsHelper.Helper.EraseRemoveIf | syshelper/UdfpsHelper.cpp:142-144 | Both together are one removal of the state machine: no survivor destroyed, every dropped entry destroyed once, in order |
| UdfpsHelper.Helper.UnregisterCallback | syshelper/UdfpsHelper.cpp:131-150 | Removes every entry of the binder and succeeds exactly when there was one; null is refused and changes nothing |
| UdfpsHelper.Helper.MakeLinked | syshelper/LinkedCallback.cpp:26-46 | Link and entry are made together, or the half-made object is destroyed without unlinking and neither is left |
| UdfpsHelper.Helper.RegisterCallback | syshelper/UdfpsHelper.cpp:107-129 | Registering is the register step followed by the first notification: the vector gains the new entry at its end, or, if the callback answers that it is dead, keeps the entries of other binders, or is as before if linking failed; the three statuses |
| UdfpsHelper.Helper.OnUdfpsTouchStatusChanged | syshelper/UdfpsHelper.cpp:70-82 | Every callback is notified once, in order, and exactly those that answer they are dead are dropped |
| UdfpsHelper.Helper.OnCallbackDied | syshelper/LinkedCallback.cpp:61-63 | Delivering a notice to the cookie's object is the delivery step |
| UdfpsHelper.Helper.Serve | syshelper/UdfpsHelper.cpp:70-150 | Whatever is called and whoever dies, in any order, the object's fields are those of the run of the state machine that the calls amount to; the live links are always those of the entries in the vector, and once no notice is outstanding no slot holds a dead binder |
| TouchWatchdog.TouchIsBounded | syshelper/UdfpsHelper.cpp:41-101 | In every reachable state a touch that has been down since d satisfies now <= d + 3, for any mix of touchDown and touchUp |
| TouchWatchdog.EveryTouchIsReleased | syshelper/UdfpsHelper.cpp:84-101 | From every reachable state with the flag down, wherever the watchdog is, waiting included, it releases the touch when nobody else does, at a time no later than three seconds after it was set down |
| TouchWatchdog.LiftedTouchIsLeft | syshelper/UdfpsHelper.cpp:94-98 | A touch lifted by the end of the sleep is not forced; the watchdog goes back to its loop and waits |
| TouchWatchdog.ForcedReleaseAfterSleep | syshelper/UdfpsHelper.cpp:84-101 | A forced release is preceded by a sleep that began with the flag down and, three seconds later, found it down again |
| TouchWatchdog.ShortTouchIsForced | syshelper/UdfpsHelper.cpp:94-97 | A touch of one second can be forced, although the log line says it lasted longer than three |
| TouchWatchdog.FullTouchIffNotInterrupted | syshelper/UdfpsHelper.cpp:94-97 | In every run, the touch about to be forced has lasted the full three seconds exactly when none was set down after the sleep began |
| TouchWatchdog.TouchHelper.TouchDown | syshelper/UdfpsHelper.cpp:41-51 | Sets the flag: one step of the automaton |
| TouchWatchdog.TouchHelper.TouchUp | syshelper/UdfpsHelper.cpp:52-62 | Clears the flag: one step of the automaton |
| TouchWatchdog.TouchHelper.RunOnce | syshelper/UdfpsHelper.cpp:87-100 | One undisturbed pass of the loop releases a touch after three seconds, or waits |
| TouchWatchdog.TouchHelper.WakeAndRelease | syshelper/UdfpsHelper.cpp:87-99 | A touch that comes while the thread waits ends the wait and is released three seconds later |
| DirectoryOrder.ComparatorSaysBefore | reorder-libs.py:16-49 | For every two lines the comparator is negative exactly if the first is empty and the other is not, or it is in a proper subdirectory of the other's directory, or neither is below the other and, dashes aside, it is a proper prefix or has the lower code at the first difference; positive exactly the other way round |
| DirectoryOrder.OneDashIsIgnored | reorder-libs.py:23-26 | One leading dash makes no difference to any comparison, and nothing else is ignored, not even a second dash |
| DirectoryOrder.ComparatorIsAntisymmetric | reorder-libs.py:18-49 | For every two lines, swapping them flips the sign, and they tie exactly when they are equal up to one leading dash and neither or both are empty |
| DirectoryOrder.PathsAreKeyOrdered | reorder-libs.py:33-49 | On lines that contain a slash the comparator is lexicographic comparison of the directory followed by an end marker above every character, then of the whole string |
| DirectoryOrder.KeyOrderIsTotal | reorder-libs.py:33-49 | That order is transitive and antisymmetric, with ties exactly for equal strings |
| DirectoryOrder.TransitiveIffNoTriangle | reorder-libs.py:18-49 | On any list of lines, empty, slashless or not, the comparator is transitive exactly when the list has no slashless name, line strictly below that name, and line continuing the name with a character before the slash |
| DirectoryOrder.TriangleIsCycle | reorder-libs.py:28-49 | Any such three lines are ordered in a circle |
| DirectoryOrder.CycleHasTriangle | reorder-libs.py:28-49 | Any circle of three lines contains such three |
| DirectoryOrder.SectionsHaveNoTriangle | reorder-libs.py:18-49 | The comparator is transitive on every section of empty lines, paths and headings that begin with a hash sign, if all headings have a slash in their text or none has |
| DirectoryOrder.HeadingBeforeIff | reorder-libs.py:28-49 | A heading comes before another line exactly when that begins above the hash sign |
| DirectoryOrder.MixedNamesCycle | reorder-libs.py:28-49 | foo, foo-x and foo/sub/z are ordered in a circle |
| SectionSort.SortIsDetermined | reorder-libs.py:60-63 | A section without such a triangle has exactly one stable sort, whatever algorithm finds it |
| SectionSort.SortedPermutes | reorder-libs.py:62 | Sorting permutes the lines |
| SectionSort.SortedKeepsTies | reorder-libs.py:62 | Lines that differ only in the leading dash keep their order |
| SectionSort.SortingTwiceIsSortingOnce | reorder-libs.py:59-63 | Sorting a sorted section changes nothing |
| SectionSort.TreesAreContiguous | reorder-libs.py:38-49 | In any sorted section, whatever lines it has, the lines of every directory tree are contiguous: between two paths of a tree there is no heading, no empty line and no other path |
| SectionSort.NameApartFromItsTree | reorder-libs.py:28-46 | This needs a slash in the lines: foo, foo-x, foo/z is sorted, with the name of the directory apart from its file |
| SectionSort.HeadingComesFirst | reorder-libs.py:28-49 | The heading of a sorted section comes before every path that begins above the hash sign |
| SectionSort.SubdirectoriesComeFirst | reorder-libs.py:38-46 | A line in a proper subdirectory comes before every line directly in the directory |
| SectionSort.ReorderSections | reorder-libs.py:59-63 | Every section is replaced, in place, by a permutation, and by its stable sort if it has no triangle, in which no line comes before one that stands in front of it |
| PatchElf.OccurrencesAreApart | shims/patch_elf.py:16-17 | Two occurrences of NUL-terminated names of one length, the same or different, coincide or do not overlap |
| PatchElf.OccurrencesAfter | shims/patch_elf.py:19-27 | After patching the old name occurs nowhere, not even across a seam, and the new one exactly where either did |
| PatchElf.SubstitutionIsUnique | shims/patch_elf.py:19-27 | Replacing all occurrences at once has only one possible result |
| PatchElf.PatchUndoesItself | shims/patch_elf.py:5-27 | Patching old to new and back restores the buffer byte for byte exactly when the names are equal or the new one did not occur in it |
| PatchElf.PresentNameIsLost | shims/patch_elf.py:19-27 | If the new name is there before, patching back turns it into the old one: b to a and back loses b |
| PatchElf.CountIsNumberOfPlaces | shims/patch_elf.py:20-27 | What is counted is the number of places where the name occurs |
| PatchElf.CountsAgree | shims/patch_elf.py:20-27 | If the new name was absent both directions count the same |
| PatchElf.Find | shims/patch_elf.py:22 | The first occurrence at or after a position, or none |
| PatchElf.Overwrite | shims/patch_elf.py:25 | Replaces a slice by bytes of the same length and nothing else |
| PatchElf.PatchElf | shims/patch_elf.py:5-36 | The left-to-right loop in place ends, replaces every occurrence in the original buffer, counts them exactly, and keeps the length and every other byte; names of different length are refused |
| UpdateSha1Sums.CleaningUndoesUpdating | update-sha1sums.py:30-68 | Stripping an annotated list gives the same as stripping the list, exactly when no line that gains an annotation lacks its one final newline |
| UpdateSha1Sums.CleaningUndoesUpdatingTerminated | update-sha1sums.py:30-68 | In particular always for newline-terminated lines |
| UpdateSha1Sums.UnterminatedLineGainsNewline | update-sha1sums.py:30-68 | A last line without a newline keeps the newline that annotating added |
| UpdateSha1Sums.UpdatingTwiceIsUpdatingOnce | update-sha1sums.py:39-68 | Annotating again with the same files changes nothing |
| UpdateSha1Sums.CleaningTwiceIsCleaningOnce | update-sha1sums.py:30-37 | Stripping again changes nothing |
| UpdateSha1Sums.UpdateChangesOnlyAnnotations | update-sha1sums.py:39-68 | Annotating keeps the number of lines, every comment and blank line, every entry, and the file each entry names |
| UpdateSha1Sums.SectionDecidesAnnotation | update-sha1sums.py:41-66 | An entry whose section heading, the last comment above it, contains the marker space-dash-from gets a bar and the checksum of its file, if there is one; every other line stays as it is |
| UpdateSha1Sums.HeadingsOfTheList | update-sha1sums.py:45-47 | A heading with the marker sets the section flag, one without a dash clears it |
| UpdateSha1Sums.CleanChangesOnlyAnnotations | update-sha1sums.py:30-37 | Stripping keeps the number of lines, comments, blank lines and lines without a bar, and leaves of an annotated entry the part before its first bar |
| UpdateSha1Sums.SecondFieldIsPath | update-sha1sums.py:49-54 | An entry source:file;arguments|hash names the file, with or without a dash before it |
| UpdateSha1Sums.OnlyFieldIsPath | update-sha1sums.py:49-54 | An entry file;arguments|hash without a colon names the file, with or without a dash before it |
| UpdateSha1Sums.WholeFieldIsPath | update-sha1sums.py:49-54 | Without a semicolon all of the field names the file, annotated or not, with or without a source and a dash |
| UpdateSha1Sums.BlobList.Cleanup | update-sha1sums.py:30-37 | The loop overwrites the list with the stripped one |
| UpdateSha1Sums.BlobList.UpdateAt | update-sha1sums.py:41-68 | One pass overwrites its line only and carries the section flag on |
| UpdateSha1Sums.BlobList.Update | update-sha1sums.py:39-68 | The loop overwrites the list with the annotated one, each line under the flag its last comment set, and leaves the flag as the last comment set it |
| FingerprintHal.EnrolmentKeepsDimLayerLit | fingerprint/BiometricsFingerprint.cpp:78-229 | From a preEnroll whose write succeeds, the flag stays set and the dim layer lit at every point of the run, exactly when it contains no postEnroll, no authenticate and no recognised finger whose write succeeds |
| FingerprintHal.NoHalNoEnrolment | fingerprint/BiometricsFingerprint.cpp:78-103 | Without the vendor HAL the enrolling flag is never set |
| FingerprintHal.StateIsLastWrite | fingerprint/BiometricsFingerprint.cpp:69-280 | After any run the enrolling flag, dim layer, press flag, touch flag and client are the last values the trace wrote to them, writes that heed the enrolling flag seeing the last value of that |
| FingerprintHal.LastWriteMeaning | fingerprint/BiometricsFingerprint.cpp:69-280 | The last value written is that of the last event that writes |
| FingerprintHal.CallbacksAreDeliveredInOrder | fingerprint/BiometricsFingerprint.cpp:183-255 | The client receives exactly the vendor callbacks that arrive while one is set, once each, in order, at the client set last |
| FingerprintHal.CallsAreForwardedInOrder | fingerprint/BiometricsFingerprint.cpp:69-181 | The vendor HAL receives exactly the calls meant for it, once each, in order; none when absent, no finger events for an under-film sensor |
| FingerprintHal.CommandsDriveTouch | fingerprint/BiometricsFingerprint.cpp:263-280 | Commands 1201 and 1202 set and clear the helper's touch flag, if there is a helper, and no other command changes anything |
| FingerprintHal.FingerDownAndUp | fingerprint/BiometricsFingerprint.cpp:160-181 | A finger down and up outside enrolment lights panel and press and leaves both out; while enrolling the layer is left alone |
| FingerprintHal.EnrolmentLightsAndEnds | fingerprint/BiometricsFingerprint.cpp:78-103 | Preparing or requesting enrolment lights the layer, ending it puts it out and clears the flag |
| FingerprintHal.NotifiedClientIsTold | fingerprint/BiometricsFingerprint.cpp:69-255 | After a client is set, each of the seven vendor callbacks is delivered to it |
| BiometricsFingerprint.Wrapper.Serve | fingerprint/BiometricsFingerprint.cpp:69-280 | Whatever calls and callbacks arrive, the object's flags, panel files, touch flag and client hold the last value the trace wrote to them, the client was given exactly the vendor callbacks that arrived while it was set and the vendor HAL exactly the calls meant for it, in order; after a preEnroll that nothing breaks the object is enrolling and the layer lit, and without the vendor HAL it never enrols |
| BiometricsFingerprint.Wrapper.PreEnroll | fingerprint/BiometricsFingerprint.cpp:78-85 | With the vendor HAL the flag is set and the layer lit before the call is passed on; without it zero is answered and nothing changes |
| BiometricsFingerprint.Wrapper.PostEnroll | fingerprint/BiometricsFingerprint.cpp:96-103 | With the vendor HAL the flag is cleared and the layer put out; without it the hardware is reported unavailable and nothing changes |
| BiometricsFingerprint.Wrapper.Cancel | fingerprint/BiometricsFingerprint.cpp:112-120 | The layer is put out unless enrolling, and the call passed on |
| BiometricsFingerprint.Wrapper.OnFingerDown | fingerprint/BiometricsFingerprint.cpp:160-170 | The layer is lit unless enrolling, press is set, and the call reaches the vendor HAL only if there is one and the sensor is not under-film |
| BiometricsFingerprint.Wrapper.OnFingerUp | fingerprint/BiometricsFingerprint.cpp:172-181 | Press is cleared, the layer put out unless enrolling, and the call passed on under the same condition |
| BiometricsFingerprint.Wrapper.OnAuthenticated | fingerprint/BiometricsFingerprint.cpp:203-217 | A recognised finger puts the layer out even while enrolling; press and touch are released for any finger, and a known client is told |
| BiometricsFingerprint.Wrapper.OnError | fingerprint/BiometricsFingerprint.cpp:219-229 | Press is cleared, the layer put out unless enrolling, and a known client is told |
| BiometricsFingerprint.Wrapper.OnFingerprintCmd | fingerprint/BiometricsFingerprint.cpp:263-280 | Exactly the two touch commands drive the helper's touch flag, if there is a helper; any other changes nothing |
| AreaCapture.WrappedIndexFacts | als/default/AreaCapture.cpp:86-92 | Whatever the dimensions, every index as written in 32 bits is inside the buffer, and it is the intended one exactly when that fits 32 bits |
| AreaCapture.ChannelIsByte | als/default/AreaCapture.cpp:88-90 | Red, green and blue are bytes 0, 1 and 2 of the four of a pixel, rows being stride pixels long |
| AreaCapture.EveryPixelCountsOnce | als/default/AreaCapture.cpp:86-92 | If two frames differ in one visible pixel their channel sums differ by exactly as much, so every visible pixel counts once |
| AreaCapture.SumIsExactIffItFits | als/default/AreaCapture.cpp:85-92 | In a buffer 32 bits can address, a computed channel sum is the mathematical one exactly when that is below 2^32 |
| AreaCapture.AveragesAreExactIffTheyFit | als/default/AreaCapture.cpp:85-97 | For given dimensions of an addressable buffer, the computed averages are the mathematical ones for every content exactly when 255 * width * height is below 2^32; a white screen shows the other half |
| AreaCapture.AveragesInRange | als/default/AreaCapture.cpp:85-97 | The computed averages lie between 0 and 255 whenever width * height is below 2^32, even if sums or indexes wrap |
| AreaCapture.AveragesIgnorePaddingAndAlpha | als/default/AreaCapture.cpp:85-97 | Addressable buffers of different stride whose visible colours agree have equal computed averages, whatever their padding and alpha and even if the sums wrap |
| AreaCapture.AddRow | als/default/AreaCapture.cpp:87-91 | The inner loop adds one row to the three sums |
| AreaCapture.GetAreaBrightness | als/default/AreaCapture.cpp:84-97 | The nested loops compute the specified 32-bit sums and their averages: when these fit, r, g and b times the number of pixels are the sums of the red, green and blue bytes, and an area without pixels has no colour |

## Left out

- Construction and destruction of sensors: the thread starts in the base constructor, and the destructor of the fingerprint sensor writes its byte before the stop flag is set, so joining need not return; everything here is about the time in between.
- The wake pipe is unbounded and writing to it never blocks; a failing pipe read or write is not modelled.
- An event posted by a poll already in flight may reach the framework after a deactivation or a mode change; no claim is made that it does not.
- What the fingerprint state file contains is an answer the environment gives; screen coordinates and timestamps are not modelled.
- The unlocked reads of the enabled flag and the mode in `flush` and `injectEvent` are modelled as atomic calls.
- `SamplingSensor.Sensor.Run`: assumes clock readings between 1970 and 2116, so that 64-bit sums cannot overflow (the lemmas about runs assume nothing of the clock); passes come when the input says so, and the mutex and the waits themselves are not modelled.
- `SensorsSubHal.SubHal.SetOperationMode`: covers the sensors' modes; the wake byte of the fingerprint sensor is in `UdfpsSensor.Sensor.SetOperationMode`.
- Sensors are constructed with delays whose products in nanoseconds fit 32 bits; the overflow of other delays is undefined in the source.
- The sub-HAL's sensor list, debug dump and direct channels, and the wake lock around posted events, are not modelled.
- `LinkedCallback::Make` is atomic: a death delivered between linking and filling in the object is not modelled, and unlinking cancels an undelivered notice, so a delivery never overlaps the removal of its own entry.
- `UdfpsHelper.Helper.RegisterCallback`: one uninterrupted call; the state machine lets other events come between registration and first notification.
- `UdfpsHelper.Helper.Serve`: calls one after the other, as the callback mutex orders them; the replies of the callbacks are given with the calls.
- The broadcast to all callbacks is modelled although the calls to it are commented out in the source.
- `TouchWatchdog.TouchIsBounded`: assumes that a waiter whose predicate holds runs before time advances and that sleep lasts exactly three seconds; the window in which the flag changes under another mutex than the one waited on is not modelled.
- `list.sort` is represented by its contract, stable and sorted; what it does with a list on which the comparator is not transitive is not modelled. Splitting the file into sections, stripping white space and joining them again are not modelled, nor NUL characters, which strcoll refuses.
- `PatchElf.PatchElf`: assumes names without NUL, as command-line arguments are; reading and writing the file, a missing file and names that are not ASCII are not modelled.
- `UpdateSha1Sums.BlobList.Update`: file access and hashing are one oracle from path to checksum, the same throughout; checksums contain neither a bar nor a newline.
- The enrolment, authentication and template logic of the vendor HAL, and its answers, are outside; so are the results of the panel writes, which the source ignores.
- `AreaCapture.GetAreaBrightness`: averages are real numbers, so the rounding of floats is not modelled; capturing the surface and its failures are not modelled.
- The watchdog's forced release and the fingerprint wrapper's view of the touch flag are separate models.
- ifaamanager, chargespeed, init, releasetools.py, the shims in C++ and UdfpsExtension.cpp are thin wrappers and left out, as are all XML, JSON, property and make files.

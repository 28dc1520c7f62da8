# Verified models of the tjtools programs

This project models the programs of the repository that carry a protocol, a parser or a state
machine of their own, and proves what they are for. Each module stands for one program or one part
of it:

- `AecDevice`, `AecDriver`, `AecIoctl`, `AecConcurrent`, `AecWholeIoctl`, `AecProvenance`: the kernel driver that reaches the 64 KiB RAM
  of an embedded controller through two I/O ports, and its dump tool. `AecDevice` is the only
  assumption about the hardware: a transition function read off the driver's command macros.
  `AecDriver` and `AecIoctl` are the driver's objects and ioctls when ioctls do not overlap;
  `AecConcurrent` is a transition system for any number of sessions, in which each port operation,
  each byte copied and each lock attempt is one step. `AecWholeIoctl` is about calls from their entry to
  their return in that system, and `AecProvenance` about where the bytes they move come from.
- `Microcode`, `MicrocodePrinter`, `MicrocodeErrors`: the AMD microcode container reader, the format as
  a printer, and the files that are refused.
- `BrightnessCodec`, `BrightnessDaemon`, `BrightnessHistory`: the brightness daemon's datagrams, its
  objects and one lifetime, and histories over many lifetimes with restarts and crashes.
- `Bmi260`: the firmware search. `PowerLimit`: the CPU power-limit lock protocol.
- `UrlDecode`, `UpperSanitize`: the two line filters.
- `ScopeGuard`: the move-only guard. `MsfToByte`: the disc position conversion.
- `Bytes`, `Wrappers`: little-endian words, option and result types.

Loops and objects that the programs update are methods with loops and classes; each is tied to a
function or predicate on values, and the theorems are about those. What a program cannot control is
a parameter: whether a signal interrupts a lock attempt, how many bytes a user copy manages, what
brightness sysfs reports, what an overflowing C++ sum gives, and when a process is killed.

Three statements that one might expect of the code do not hold without a condition, and the
condition is part of what is proved:

- A driver call that returns 0 need not have moved its caller's bytes, because the transfer buffer is
  shared and not covered by the mutex (`AecProvenance.SharedBufferMixes`). It has, and has acted on
  its whole range at once, if no other call overlaps it (`AecWholeIoctl.NonOverlappingIoctl`).
  Exactly: it has whatever the bytes are if and only if each byte it took came from its own place
  (`AecProvenance.BytesExact`). The byte's origin is what counts and not the session that stored it
  last: a caller's own byte can come back to its place through the RAM and another caller's read.
- A printed microcode container is not always accepted back: the reader compares 64 with the bytes
  left in the file, not with the payload. It is accepted exactly if the last payload and what follows
  it make up 64 bytes, and fails with one and the same error otherwise (`MicrocodePrinter.ParseOfPrint`,
  `MicrocodePrinter.ShortContainerRefused`). Also, patches follow directly after an early
  terminator, whatever number of entries the outer header announced.
- The power limits are not the default ones whenever the lock is free: a process killed while it
  waits leaves its own profile (`PowerLimit.KilledWaiterLeavesProfile`). They are exactly if the last
  use of the hardware was not cut off under other limits (`PowerLimit.RestoredExactly`).

## Model

| member | source | states |
|---|---|---|
| AecDevice.AccessStep | aecram/driver/driver.c:89-143 | From any latches, the k-th port operation of a byte transaction moves the latches from position k to k + 1; the RAM changes in the last operation only, by the whole access, and a read gets its byte there |
| AecDevice.AccessMeaning | aecram/driver/driver.c:146-182 | The twelve port operations amount to one atomic access of a flat byte map at the 16-bit offset, whatever the latches held before |
| AecDevice.AccessBytes | aecram/driver/driver.c:89-143 | The twelve port operations of a write and of a read in plain numbers |
| AecDriver.Ports.CmdOut | aecram/driver/driver.c:89-96 | The four port writes leave the device as the command's operation sequence does |
| AecDriver.Ports.CmdIn | aecram/driver/driver.c:98-105 | The three writes and the read, and the byte that the device offers after the third |
| AecDriver.AecramData.AecramWrite | aecram/driver/driver.c:146-163 | Stores exactly one byte of RAM, or returns -EINTR with the device untouched; the mutex ends up free |
| AecDriver.AecramData.AecramRead | aecram/driver/driver.c:165-182 | Returns the RAM's byte and changes no RAM, or returns -EINTR with the device untouched |
| AecDriver.AecramData.AecramWriteBuffer | aecram/driver/driver.c:184-194 | Interrupted at byte i, exactly the first i bytes are in RAM; otherwise all of them; nothing else changes and the 16-bit sum never wraps |
| AecDriver.AecramData.AecramReadBuffer | aecram/driver/driver.c:196-207 | The buffer takes exactly the bytes read before an interruption, and the RAM is unchanged |
| AecDriver.ValidParamExactly | aecram/driver/driver.c:209-218 | With 32-bit unsigned wrap-around the check accepts exactly the ranges of at most 64 bytes inside the address space, except the empty range at offset 0 |
| AecIoctl.Session.SetType | aecram/driver/driver.c:261-268 | Sets the configuration for the known type only |
| AecIoctl.CopyBytes | aecram/driver/driver.c:292-318 | A copy from or to user memory moves exactly the bytes it manages, and nothing else |
| AecIoctl.Session.ReadIoctl | aecram/driver/driver.c:270-296 | Every status code with its precedence; the caller's buffer receives exactly the delivered slice of RAM, all of it when 0 is returned, and RAM is unchanged |
| AecIoctl.Session.WriteIoctl | aecram/driver/driver.c:298-324 | Every status code with its precedence; RAM changes by exactly the bytes written, all of the range when 0 is returned, a prefix when interrupted, none on any other error |
| AecIoctl.Session.UnlockedIoctl | aecram/driver/driver.c:251-334 | Status, configuration, RAM and caller's buffer after each of the four kinds of request |
| AecIoctl.ReadStatusExactly | aecram/driver/driver.c:270-296 | For each of 0, -EINTR, -EFAULT, -ENODEV and -EINVAL exactly the reads that return it, in terms of configuration, range, access, signals and copy; all bytes are delivered with 0, those copied with a short copy, none otherwise |
| AecIoctl.WriteStatusExactly | aecram/driver/driver.c:298-324 | Likewise for writes, whose copy comes first; all bytes are written with 0, exactly those before the interrupted lock attempt with -EINTR, none otherwise |
| AecIoctl.FetchRange | src/aecram_util.cpp:57-79 | A fresh session configured for the known type reads the range, with the driver's status |
| AecIoctl.Dump | src/aecram_util.cpp:39-85 | Both narrowing casts are exact; the dump succeeds if and only if the shifted range fits the address space and nothing fails, and then prints exactly that slice of RAM; each of its errors for exactly its inputs, with the driver's code |
| AecConcurrent.StepKeeps | aecram/driver/driver.c:89-207 | Every step of every session keeps the invariant that ties the mutex holder's position to the device latches and the RAM to the completed transactions |
| AecConcurrent.DriverLinearizable | aecram/driver/driver.c:146-182 | Over every interleaving of any number of sessions, the RAM is the completed byte transactions replayed on a byte map in the order the mutex was taken, every read returned that map's byte, and one session at most is in the critical section |
| AecConcurrent.OnlyHolderDrives | aecram/driver/driver.c:146-182 | Only the holder of the mutex moves the device, and only the last port operation of a write moves the RAM |
| AecWholeIoctl.FinishedIoctl | aecram/driver/driver.c:184-207 | Over every interleaving, a call that returned 0 has performed since it entered one transaction per byte of its range, in order and without wrap-around |
| AecWholeIoctl.InterruptedIoctl | aecram/driver/driver.c:150-204 | Over every interleaving, an interrupted lock attempt or a failing copy ends the call and changes nothing else; for byte i exactly the first i transactions have been performed, in order (none or all at a failing copy of a write or read); over any continuation the call neither returns 0 nor performs another |
| AecWholeIoctl.UnsharedBuffer | aecram/driver/driver.c:289-322 | A call that returned 0 moved its caller's bytes if no other session stored into the transfer buffer since it entered, whatever else the others did |
| AecWholeIoctl.NonOverlappingIoctl | aecram/driver/driver.c:270-324 | If the other sessions that act are outside the driver when a call enters, and no further call enters, a call that returned 0 acted on its whole range at once: a write overwrote exactly that slice of RAM with its caller's bytes, a read returned the slice and changed nothing |
| AecWholeIoctl.NonOverlappingInterrupted | aecram/driver/driver.c:184-194 | In the same circumstances, a write interrupted at byte i has stored exactly the first i bytes of its caller, and a read has changed nothing |
| AecWholeIoctl.SoloIoctl | aecram/driver/driver.c:146-207 | A call that enters while the mutex is free and whose session alone steps returns 0 after exactly 16 n + 2 steps for a write of n bytes and 17 n + 2 for a read, not earlier, having acted at once; other calls may be held up anywhere outside the critical section |
| AecWholeIoctl.ReturnsAfterOwnSteps | aecram/driver/driver.c:146-207 | Over every interleaving, a call that is not interrupted returns 0 after exactly that many steps of its own, not counting those in which it waited for the mutex |
| AecWholeIoctl.EntersExactly | aecram/driver/driver.c:260-317 | A session enters if and only if it is outside, some earlier action set the known type, and the request is accessible and for 1 to 64 bytes inside the address space; a refused request changes nothing |
| AecWholeIoctl.CallEndsExactly | aecram/driver/driver.c:150-207 | A call in progress ends with an error if and only if a lock attempt is interrupted or a copy fails; no other action of any session puts it outside, and a lock attempt that waits changes nothing |
| AecProvenance.RunsMirror | aecram/driver/driver.c:184-324 | No step depends on the value of a data byte: with any other bytes passed in and in RAM the same actions reach the same points, and the recorded origins say which byte stands where |
| AecProvenance.BytesExact | aecram/driver/driver.c:289-322 | A call that returned 0 moves its own bytes whatever the bytes are, if and only if every byte a write took came from its place in its caller's buffer, or every byte a read returned from its own transaction |
| AecProvenance.ActualRun | aecram/driver/driver.c:289-322 | The run that took place is one of the runs that BytesExact speaks of |
| AecProvenance.SharedBufferMixes | aecram/driver/driver.c:298-324 | For any two one-byte writes there is an interleaving in which one returns 0 having stored the other's byte |
| Microcode.Parse | src/amd_microcode.cpp:161-252 | The program equals the recursive reader of the format on every file, errors included |
| Microcode.TableLoop | src/amd_microcode.cpp:191-209 | The loop with the early break equals the recursive table reader; cursor plus bytes left is the file length throughout |
| Microcode.PatchLoop | src/amd_microcode.cpp:211-252 | The patch loop equals the recursive patch reader; cursor plus bytes left is the file length throughout |
| MicrocodePrinter.ParsesExactly | src/amd_microcode.cpp:161-252 | A file is accepted as a container with n bytes consumed if and only if its first n bytes are that container printed and the last payload has room for a patch header |
| MicrocodePrinter.ParseOfPrint | src/amd_microcode.cpp:171-244 | Parsing inverts printing, whatever follows, if the last payload and the bytes after it make up 64; otherwise it fails, always for lack of a patch header |
| MicrocodePrinter.ShortContainerRefused | src/amd_microcode.cpp:230-236 | A valid container of one entry and one empty patch, with nothing after it, is refused |
| MicrocodePrinter.PrintInjective | src/amd_microcode.cpp:39-80 | Different valid containers have different images |
| MicrocodePrinter.ParseExtends | src/amd_microcode.cpp:163-244 | Once a file is accepted, or refused for its content, appended bytes change nothing |
| MicrocodePrinter.ParsePrefixRejected | src/amd_microcode.cpp:163-244 | Every strict prefix of what an accepted file consumes is refused as too short |
| MicrocodePrinter.ConsumedBytes | src/amd_microcode.cpp:171-244 | The bytes consumed are 12 + 16 per entry read, terminator included, + 8 and the payload per patch, with as many patches as entries |
| MicrocodePrinter.EntryBytes | src/amd_microcode.cpp:45-51 | The fields of an entry byte by byte |
| MicrocodeErrors.ErrorExactly | src/amd_microcode.cpp:160-236 | For every one of the ten errors exactly the files that get it, by literal bytes of the headers and by the printed header, table and patches that come before the fault |
| BrightnessCodec.DecodeOfEncode | src/brightness_daemon.cpp:63-79 | Decoding inverts encoding for all five commands |
| BrightnessCodec.CodecExact | src/brightness_daemon.cpp:298-386 | A datagram of any length, even beyond the receive buffer, executes a command if and only if it is precisely that command's encoding |
| BrightnessCodec.EncodedBytes | src/brightness_daemon.cpp:51-79 | The five commands as literal bytes, with little-endian values and negative steps in two's complement |
| BrightnessCodec.VerdictExactly | src/brightness_daemon.cpp:298-386 | For each way to be refused exactly the datagrams that are, by their bytes |
| BrightnessDaemon.BacklightContext.SetValue | src/brightness_daemon.cpp:238-246 | Brightness and sysfs change together, and only for a value in range; otherwise it throws |
| BrightnessDaemon.BacklightContext.ModifyState | src/brightness_daemon.cpp:167-178 | Sets the clamped sum, and never throws, even for a sum that overflows |
| BrightnessDaemon.BacklightContext.SaveState | src/brightness_daemon.cpp:183-192 | The file after the write, with the position rewound; throws exactly for a stream in error |
| BrightnessDaemon.BacklightContext.RestoreState | src/brightness_daemon.cpp:197-218 | The file is consumed and the stream repaired whether or not a value was read and accepted |
| BrightnessDaemon.SocketContext.HandleFrame | src/brightness_daemon.cpp:298-357 | The frame in the receive buffer acts as its decoding says, and throws exactly for a wrong value length, a value out of range, or a save on a stream in error |
| BrightnessDaemon.SocketContext.Process | src/brightness_daemon.cpp:359-386 | Any datagram acts as its decoding says; a refused or throwing one leaves the state alone |
| BrightnessDaemon.Lifetime | src/brightness_daemon.cpp:404-440 | One run of the daemon is a restore, the datagrams in order, and a save |
| BrightnessHistory.LifetimeIsRun | src/brightness_daemon.cpp:404-440 | What a lifetime leaves behind is what a start, its datagrams and a stop lead to in a history |
| BrightnessHistory.SaveWrites | src/brightness_daemon.cpp:183-192 | On a rewound stream over an empty or 4-byte file, a save leaves exactly the 4 bytes of the brightness |
| BrightnessHistory.RestoreReads | src/brightness_daemon.cpp:197-218 | A saved value in range is set, and the file is empty afterwards |
| BrightnessHistory.RestoreExactly | src/brightness_daemon.cpp:197-218 | From any file, a restore sets the first four bytes if there are as many and in range, and nothing else; the file is empty afterwards |
| BrightnessHistory.HistoryInv | src/brightness_daemon.cpp:112-256 | Every history keeps brightness, sysfs, stream and file consistent with the latest storage operation |
| BrightnessHistory.StorageFollowsHistory | src/brightness_daemon.cpp:183-218 | From the first start on, over any datagrams, restarts and crashes, the file is empty or 4 bytes, and holds v if and only if the latest storage operation saved v |
| BrightnessHistory.RunningInvariant | src/brightness_daemon.cpp:238-246 | In every reachable state the brightness is the hardware's and in range, and the stream is rewound and good |
| BrightnessHistory.RestartRestores | src/brightness_daemon.cpp:404-437 | After a signal and a restart the brightness is the one the daemon ended with, whatever was set in between; after a crash, the last save not consumed, or the one found |
| BrightnessHistory.RestoreOnce | src/brightness_daemon.cpp:197-218 | A second restore changes nothing, from any state |
| BrightnessHistory.OnlyCommandsAct | src/brightness_daemon.cpp:298-386 | A datagram that changes anything is the encoding of a command |
| BrightnessHistory.ErrorsExactly | src/brightness_daemon.cpp:298-386 | In every reachable state, the datagrams that make a command fail are those with the wrong value length or a brightness out of range, and they change nothing |
| BrightnessHistory.RunIsRamp | src/brightness_daemon.cpp:167-178 | Any datagrams other than restores act on the brightness as one clamped shift by the sum of the steps, with bounds 0 <= lo <= hi <= max that the datagrams determine |
| BrightnessHistory.RunNonExpansive | src/brightness_daemon.cpp:167-178 | Two runs of the same datagrams keep their order and never move further apart |
| BrightnessHistory.SmallStepsArePlain | src/brightness_daemon.cpp:167-178 | Steps no larger than the distance from the maximum to the largest int never overflow |
| Bmi260.Bmi260Searchable | src/extract_bmi260_fw.cpp:36-81 | The header table starts with the marker and fits into 96 bytes, and the marker has no border |
| Bmi260.BlobExactly | src/extract_bmi260_fw.cpp:32-81 | The marker, the header and the size searched for, as literal bytes |
| Bmi260.MarkersApart | src/extract_bmi260_fw.cpp:42-44 | Two occurrences of the marker are at least 6 bytes apart |
| Bmi260.Locate | src/extract_bmi260_fw.cpp:98-115 | The least match at or after the start, or the end if there is none |
| Bmi260.Check | src/extract_bmi260_fw.cpp:84-95 | True if and only if all 14 sequences match |
| Bmi260.Extract | src/extract_bmi260_fw.cpp:141-167 | The search loop reports the least offset with a full header and 8192 bytes, or the right one of the two errors, with at most length / 6 + 1 header checks |
| Bmi260.ExtractBmi260Fw | src/extract_bmi260_fw.cpp:119-170 | The same for the firmware's own table |
| Bmi260.CorrectIsNaiveScan | src/extract_bmi260_fw.cpp:143-167 | That report is unique and is the one of a scan of every offset |
| PowerLimit.LimitProfile.Parse | src/cpu_powerlimit.cpp:69-74 | Succeeds if and only if all four keys hold a number or a boolean; on failure the fields before the first other key have been set |
| PowerLimit.LimitProfile.Apply | src/cpu_powerlimit.cpp:47-67 | Sets each of the three limits to its own value, and the temperature only if the profile has one; throws exactly if the helper reports an error, and then the hardware is as the helper left it |
| PowerLimit.NumbersExactly | src/cpu_powerlimit.cpp:69-74 | What counts as a number: itself, and booleans as one and zero |
| PowerLimit.ReadConfig | src/cpu_powerlimit.cpp:113-136 | The loop over the profiles succeeds if and only if both multipliers are numbers and there is an object of complete profiles with a default among them; the result is then the configuration the file describes, with no profile added or lost |
| PowerLimit.ReadsWritten | src/cpu_powerlimit.cpp:113-136 | Reading inverts writing: a written configuration is accepted, and describes that configuration and no other |
| PowerLimit.DescribesOnce | src/cpu_powerlimit.cpp:113-136 | A file describes one configuration at most |
| PowerLimit.StepKeeps | src/cpu_powerlimit.cpp:204-228 | Every step of every process, and every kill, keeps the invariant between lock, processes and limits |
| PowerLimit.LimitsFollowTheLock | src/cpu_powerlimit.cpp:204-228 | Over every interleaving with kills and failing helpers: one process at most between lock and unlock, a waiting one has its profile in force, and under a free lock the limits are what the last use left, told from the actions |
| PowerLimit.OrderlyRunsRestore | src/cpu_powerlimit.cpp:210-228 | If no process dies between apply and restore and no helper fails, a free lock means the default limits, or the initial ones if no process used the hardware; kills anywhere else are allowed |
| PowerLimit.RestoredExactly | src/cpu_powerlimit.cpp:210-228 | Over any run, a free lock means those limits if and only if the last use was not cut off under limits other than the default ones |
| PowerLimit.OnlyHolderSetsLimits | src/cpu_powerlimit.cpp:206-211 | Only the lock holder changes the limits; a refused attempt changes nothing but its own process |
| PowerLimit.PlacesInOrder | src/cpu_powerlimit.cpp:173-229 | A process opens, locks, waits, restores and unlocks in this order with one mode, unless it ends; only an initializing one does not wait |
| PowerLimit.EndsExactly | src/cpu_powerlimit.cpp:173-229 | Over every interleaving, exactly which action ends a process and with which exit; success means the default limits under a free lock, and no ended process keeps the lock |
| PowerLimit.NormalProcessRecovers | src/cpu_powerlimit.cpp:204-230 | Whatever was left behind, an undisturbed process ends with the default profile in force |
| PowerLimit.LockFileExactly | src/cpu_powerlimit.cpp:173-204 | The lock file is there if and only if it was at boot or an initializing process has started since |
| PowerLimit.RunProcess | src/cpu_powerlimit.cpp:168-230 | The program of one process, whichever of its two helper runs fails, has the limits, the lock, the lock file and the exit of its sequence of actions in the transition system |
| PowerLimit.KilledWaiterLeavesProfile | src/cpu_powerlimit.cpp:213-225 | A process killed while it waits leaves its own profile under a free lock, not the default one |
| UrlDecode.Parse | src/urlparse.cpp:37-64 | Recognises exactly an escape of two upper-case digits and gives its byte; otherwise nothing moves |
| UrlDecode.DecodeLine | src/urlparse.cpp:76-85 | The loop that advances its iterator in place equals the token decoder |
| UrlDecode.DecodeByPosition | src/urlparse.cpp:37-85 | The output position by position: an escape gives its byte where it starts and nothing at its digits, any other '%' nothing, every other character itself |
| UrlDecode.DigitValues | src/urlparse.cpp:10-35 | The digits are 0-9 and A-F, with their values |
| UrlDecode.DecodeEncode | src/urlparse.cpp:37-85 | Decoding the upper-case percent-encoding of any byte string gives the string back |
| UrlDecode.DecodeInvertsExactly | src/urlparse.cpp:37-85 | A choice of escaped bytes is inverted on all strings if and only if it contains '%' |
| UrlDecode.DecodeConcat | src/urlparse.cpp:76-85 | Decoding distributes over a split after which no escape is pending |
| UrlDecode.DecodeSplitsExactly | src/urlparse.cpp:76-85 | It does so for every continuation if and only if the left part does not end in '%' or in '%' and one digit |
| UrlDecode.DecodeLength | src/urlparse.cpp:10-85 | Input length is output length plus two per escape plus one per malformed '%', both counted at every position |
| UrlDecode.DecodeFixesExactly | src/urlparse.cpp:76-85 | The lines left alone are exactly those without '%' |
| UpperSanitize.SanitizeLine | src/upper_sanitize.cpp:16-44 | The two-flag loop keeps a character's case exactly at the start of the line and up to the first letter after a later blank |
| UpperSanitize.WordBeginStep | src/upper_sanitize.cpp:27-38 | The flag's update follows from its positional meaning |
| UpperSanitize.FoldsByPlace | src/upper_sanitize.cpp:27-41 | Folding keeps a letter's place in the alphabet and every other character; blanks are space and tab |
| UpperSanitize.SanitizeIdempotent | src/upper_sanitize.cpp:16-44 | Filtering twice is filtering once, and every character is kept up to case |
| UpperSanitize.SanitizeFixesExactly | src/upper_sanitize.cpp:16-44 | The lines left alone are exactly those whose capitals open the line or a word |
| ScopeGuard.StepAccounts | src/common_utils/scope_guard.h:12-34 | Every action leaves every callback in exactly one place: with one guard, among those run, or disabled |
| ScopeGuard.GuardsRunOnce | src/common_utils/scope_guard.h:12-34 | Over every history each callback has one live owner at most and runs at most once, and exactly once when all guards are gone unless it was disabled |
| ScopeGuard.FateExactly | src/common_utils/scope_guard.h:12-34 | Over every history, which guards exist, and for each callback the guard that holds it, or that it has run or was given up, are what following that callback's moves alone says |
| ScopeGuard.DoneByDestruction | src/common_utils/scope_guard.h:15-23 | A callback that has run did so at the destruction of the guard that its moves had led to |
| ScopeGuard.RunsInOrder | src/common_utils/scope_guard.h:15-23 | The callbacks have run in the order of those destructions |
| ScopeGuard.Replay | src/common_utils/scope_guard.h:12-34 | Guard objects put through any history run exactly the callbacks the history says, in order |
| MsfToByte.Convert | bashrc.d/51-regular-user.bash:546-571 | Accepts exactly whole bytes and whole samples per frame, and gives every position its frame number times the bytes of a frame; unless a parameter is zero, indices are ordered as positions and each position can be read back from its index |
| MsfToByte.IndicesOrdered | bashrc.d/51-regular-user.bash:565-571 | Indices are ordered as positions are, one frame apart at least |
| MsfToByte.PositionExactly | bashrc.d/51-regular-user.bash:565-571 | Division takes exactly the bytes of a position's frame back to that position |
| MsfToByte.FrameBytesPositive | bashrc.d/51-regular-user.bash:559-563 | A frame holds bytes if and only if the rate is at least 75, the width at least 8 and there is a channel |
| MsfToByte.SecondBytes | bashrc.d/51-regular-user.bash:559-563 | For accepted parameters, 75 frames are sampleRate * bitrate * channels bits |

## Left out

- Driver: module loading, session allocation failure and release, and the copy of the request's own
  two fields; ioctls of one session are taken one at a time. In `AecDriver` and `AecIoctl` the mutex is
  free when an ioctl begins, which is what not overlapping means; `AecConcurrent` has no such condition.
- Driver: other controller models than the default configuration, of which the source has none.
- Driver: what a port read returns that no value command prepared; the model fixes it, and no result
  depends on it.
- Microcode: the digest and the printing, which reads the patch identifier at offset 4 of the payload
  even where the payload is shorter; file mapping.
- Brightness: sockets, the journal, privileges, the JSON configuration, the sysfs lookup, and failing
  sysfs writes; a process that dies in the middle of a write to the state file.
- Brightness: the reported maximum is taken to be a non-negative int, the same in all lifetimes.
- Firmware: reading the input and writing the output file; `memmem` is written out as a plain search.
- Power limit: a configuration file that is missing or is no JSON, and a lock file that cannot be
  created, which end the program before it takes the lock; the rounding of numbers to floats.
- Power limit: the numeric TDP mode, whose `fromTDP` checks its argument and stores nothing
  (src/cpu_powerlimit.cpp:76-83); the rounding of limits to integers; a helper program that outlives
  the process that started it. Nothing is claimed about signals being noticed.
- Line filters: splitting the input into lines; locales other than the default one.
- Guard: callbacks that construct or destroy guards themselves.
- Disc positions: parsing of the options and of the `m:s:f` text; negative numbers.
- `battery_watch.cpp` polls a charge level through libudev and suspends the machine below a threshold;
  `container.cpp` fetches a key through libcurl and opens an encrypted volume through cryptsetup;
  `speedcontrolpp.cpp` fills in and sends one drive command; `clevo_amp_control.c` and
  `awinic_detect.c` exchange fixed registers over I2C; `access_blocker.c` compares inodes with a list;
  `active_user.c` and `notify_wrapper.c` look for a session through systemd; `evdev_keepalive.c` holds
  a device open. The other shell functions, units, rules and templates configure other software.

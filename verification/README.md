# Verified model of urunc

urunc runs unikernels as containers. This project models the parts of urunc where several pieces of code have to agree
on bytes, strings or the order of events, and proves that they do. `dafny verify dfyconfig.toml` checks the whole
project.

Loops that change things in place are methods with invariants, proved equal to a specification; the theorems are
lemmas about the specification. Protocols are step relations, with invariants over all runs.

**Merging file mounts into an initrd** (`GoStrings`, `Padding`, `Paths`, `Newc`, `Archive`, `Inodes`, `InitrdMerge`,
`MergeProperties`, `MergeOutcome`). An uncompressed newc archive is read byte by byte up to its trailer, truncated
there, and continued by directory and file records and a new trailer. The record format is the "New ASCII Format"
section of cpio(5); `path.Clean` follows the rules in Go's `path` documentation. Main results: the bytes written are,
read back, the map overlay of the mounts over the old archive; merging twice is merging once; printing and parsing
undo each other; inserted inodes are fresh; directories come before what they hold; a mounted file is found with the
metadata and content of its source. A mount to `/` gets the record name `./`, whose canonical form is `.` while that
of `/` is empty: `Paths.KeyOfDestination` says that this is the only destination where the two differ, and
`Paths.LookupFixed` that the root is the only name whose canonical form is no fixed point.

**The create / reexec / start handshake** (`Handshake`, `HandshakeProperties`, `HandshakeProgress`), **its FIFO
variant** (`ReadyPipe`, `ReadyPipeProperties`, `ReadyPipeProgress`), and **the report protocol that both implement**
(`Outcome`). Processes interleave step by step, every fallible action may fail, reads may be short, failed writes may
leave a prefix, reexec or the monitor may die, and any number of starts may run. Main results: `running` is stored by
at most one start and only after the success report, which is sent only once the monitor command is built; a start
answers with a success only if `running` is on disk and every hook has run without failure; the hooks of all processes
form a prefix of the life cycle (for the FIFO variant, where libcontainer runs the others, of the Poststart hooks);
both transports refine one protocol; for every configuration some run of each succeeds. Unlike the FIFO, the sockets
have no end of file: a start whose reexec dies before it dials waits in vain (`DeadReexecNeverReports`).

**State and messages** (`Strconv`, `ConfigKeys`, `UruncConfig`, `ConfigLayout`, `StateAnnotations`, `Netlink`,
`Nsenter`, `NsenterProperties`, `NsenterLayout`). The urunc configuration is flattened to dotted keys and rebuilt by
loops that may visit the map in any order. The round trip is not the identity on all configurations:
`UruncConfig.RoundTrip` says exactly when it gives the defaults overlaid by the configuration, namely if no name has a
dot and every number is in 1 to 2^63-1 (or is the default already); `LoadedComesBack` says what this means for a
configuration that `LoadUruncConfig` has returned, which has no number 0. The namespace message for nsenter decodes to
the namespaces asked for, whatever their order in the spec, and Exec pivots exactly if that message has a mount
namespace.

**Block volumes and mount options** (`MountOptions`, `MountTables`, `BlockVolumes`, `BlockVolumeProperties`). Flag
words, kept as 64-bit words, agree with "the last option wins"; taking block volumes and restoring them gives the host
back, and fails exactly on faults that concern a volume. That sources of taken volumes differ, and that no taken
device had another user before, is not true for every call: `BlockVolumeProperties.SourcesApartExactly` and
`WereAloneExactly` give the exact conditions, and `TwoVirtiofsMounts` and `SharedWithVirtiofs` are calls that break
the first and the second. That no other user is left afterwards holds for every call.

**Ports and vAccel addresses** (`Ports`, `VAccel`). What create accepts is enough for what Exec and the monitor do
with it.

Conventions: a Go string or a file is a `string`, one character a byte. A Go error is `None` or a constructor of a
result type. Faults of system calls are parameters (`Faults`, `fails`), the choice of a file that is not sound, or the
`ok` of a protocol step.

## Model

| member | source | states |
|---|---|---|
| `Paths.CleanIdempotent` | pkg/unikontainers/initrd/initrd.go:306-308 | Cleaning a path twice is cleaning it once |
| `Paths.CleanSkips` | pkg/unikontainers/initrd/initrd.go:306-308 | Several slashes count as one, and a `.` between slashes does not count |
| `Paths.CleanGoesBack` | pkg/unikontainers/initrd/initrd.go:306-308 | An inner `..` goes along with the plain element before it |
| `Paths.CleanStaysInRoot` | pkg/unikontainers/initrd/initrd.go:306-308 | A `..` at the root goes |
| `Paths.CleanEnds` | pkg/unikontainers/initrd/initrd.go:306-308 | Paths in which none of this is left are clean, and the empty path becomes `.` |
| `Paths.LookupFixed` | pkg/unikontainers/initrd/initrd.go:306-308 | The canonical form of an archive name is a fixed point if and only if the name is none of the root |
| `Paths.LookupOfRoot` | pkg/unikontainers/initrd/initrd.go:306-308 | For the root it is not: its canonical form is empty, and that of the empty name is `.` |
| `Paths.KeyOfDestination` | pkg/unikontainers/initrd/initrd.go:297-308 | The record name of a mount has the clean destination as canonical form, exactly unless the destination is `/` |
| `Paths.DirOfKey` | pkg/unikontainers/initrd/initrd.go:312 | Splitting the directory part of a canonical name gives the components of its parents |
| `Paths.JoinPathStep` | pkg/unikontainers/initrd/initrd.go:316 | Joining a parent with the next component gives the next parent |
| `Paths.NextParent` | pkg/unikontainers/initrd/initrd.go:316-321 | From one parent the loop gets to the next, whose record name has it as canonical form |
| `Paths.ParentPathsAreAncestors` | pkg/unikontainers/initrd/initrd.go:312-316 | The paths that the loop visits are exactly the proper ancestors of the mount |
| `Newc.ParsePrintFields` | pkg/unikontainers/initrd/initrd.go:269-277 | Eight-digit header fields are read back as the numbers printed |
| `Newc.HexDigit` | pkg/unikontainers/initrd/initrd.go:72-92 | Each digit of a header field is the hexadecimal digit of its place |
| `Newc.HeaderLayout` | pkg/unikontainers/initrd/initrd.go:72-92 | The bytes of a header: magic `070701`, then inode at 6, mode at 14, uid at 22, gid at 30, links at 38, time at 46, size at 54, name size at 94, all at their offsets, in eight digits each |
| `Newc.BodyLayout` | pkg/unikontainers/initrd/initrd.go:72-92 | Behind byte 110 come the name, one to four zeros, the data and up to three zeros, both padded to a multiple of four |
| `Newc.EntryReads` | pkg/unikontainers/initrd/initrd.go:230-250 | The reader takes inode, sizes, name and data of any entry from those offsets |
| `Newc.NextEntryOfPrinted` | pkg/unikontainers/initrd/initrd.go:230-250 | A printed record is read back at any offset, and ends where its data does |
| `Newc.NextEntryLocal` | pkg/unikontainers/initrd/initrd.go:230-250 | Reading a record looks at no byte behind it |
| `Newc.AlignShift` | pkg/unikontainers/initrd/initrd.go:250 | Rounding up to four commutes with a shift by a multiple of four |
| `Newc.PrintedTrailer` | pkg/unikontainers/initrd/initrd.go:254-295 | A written trailer ends reading and passes the trailer check |
| `Newc.ValidTrailerExactly` | pkg/unikontainers/initrd/initrd.go:254-295 | The trailer check accepts exactly a header with a known magic number, size 0 and name size 11 in front of `TRAILER!!!` and a NUL |
| `Newc.ValidTrailerEndsReading` | pkg/unikontainers/initrd/initrd.go:231-236 | What the trailer check accepts is no entry for the reader, and is an end if the header is readable |
| `Archive.ParseBeforeTrailer` | pkg/unikontainers/initrd/initrd.go:221-252 | The records before the trailer do not depend on the bytes from the trailer on |
| `Archive.ParsePrinted` | pkg/unikontainers/initrd/initrd.go:221-252 | Parsing undoes printing: the records come back, and the trailer is found right behind them |
| `Inodes.FirstUnused` | pkg/unikontainers/initrd/initrd.go:58-70 | The smallest inode from a start that is not used, or none exactly if all up to 2^32-1 are |
| `Inodes.FirstUnusedIs` | pkg/unikontainers/initrd/initrd.go:58-70 | Being the smallest unused inode determines the allocation |
| `Inodes.InodeAllocator.constructor` | pkg/unikontainers/initrd/initrd.go:47-52 | A new allocator has nothing in use |
| `Inodes.InodeAllocator.Reserve` | pkg/unikontainers/initrd/initrd.go:54-56 | The inode is in use, others are as before, and no skipped inode becomes free |
| `Inodes.InodeAllocator.Allocate` | pkg/unikontainers/initrd/initrd.go:58-70 | Whatever was reserved and allocated, it returns the smallest unused positive inode and marks it, and fails exactly if all are used |
| `InitrdMerge.ArchiveFile.Truncate` | pkg/unikontainers/initrd/initrd.go:174-179 | Only the bytes before the offset are left, or, if it fails, all bytes |
| `InitrdMerge.ArchiveFile.WriteRecord` | pkg/unikontainers/initrd/initrd.go:72-92 | A record whose sizes fit is appended as its bytes; a write that fails may leave any part of them, and a record that does not fit leaves nothing |
| `InitrdMerge.RegularFileBindMounts` | pkg/unikontainers/initrd/initrd.go:207-219 | The mounts of regular files in their order, or an error if some source has no stat |
| `InitrdMerge.InspectInitrd` | pkg/unikontainers/initrd/initrd.go:221-252 | The reading loop returns the offset of the trailer, all canonical names and all inodes of the parsed archive, changes no byte, and fails only on a malformed archive or a failing read |
| `InitrdMerge.AddMissingParent` | pkg/unikontainers/initrd/initrd.go:316-332 | Appends one directory unless its name has a record, keeping file, names and allocator in step |
| `InitrdMerge.AddMissingParents` | pkg/unikontainers/initrd/initrd.go:310-335 | Appends a directory for each ancestor without record, top down, keeping file, names and allocator in step |
| `InitrdMerge.AddFileMount` | pkg/unikontainers/initrd/initrd.go:182-199 | One round of the merge: missing ancestors, then the file, or a failure that keeps the bytes before |
| `InitrdMerge.MergeFileMountsIntoInitrd` | pkg/unikontainers/initrd/initrd.go:146-205 | On success the file has exactly the bytes of the specification, and on a sound file it succeeds exactly if the specification does; a stat, open or parse failure leaves it untouched, and no failure, wherever an operation stops, touches bytes before the old trailer |
| `MergeProperties.MountsWellInserted` | pkg/unikontainers/initrd/initrd.go:182-199 | Every inserted record is a copy of a source, with its mode, owner, group, time and content and nothing else set, or a needed directory with mode 040755, two links and no data; it has the smallest free inode and all its ancestors before it |
| `MergeProperties.InsertedInodesDistinct` | pkg/unikontainers/initrd/initrd.go:191-199 | Inserted inodes are positive, pairwise distinct and none of the archive's |
| `MergeProperties.AncestorsComeFirst` | pkg/unikontainers/initrd/initrd.go:310-335 | Ancestors precede each inserted record, and no directory is inserted for a name that is there |
| `MergeProperties.MountsOverlaid` | pkg/unikontainers/initrd/initrd.go:182-199 | Per canonical path: last mount, else old record, else directory on the way to a mount, else nothing |
| `MergeProperties.MergedReadsBack` | pkg/unikontainers/initrd/initrd.go:146-252 | The merged bytes are parsed again as the old records followed by the inserted ones and one trailer; earlier bytes are unchanged |
| `MergeProperties.MergeIsOverlay` | pkg/unikontainers/initrd/initrd.go:146-205 | The overlay, stated about the two files |
| `MergeProperties.MountedFileIsFound` | pkg/unikontainers/initrd/initrd.go:72-199 | No directory or earlier record shadows a mounted file: the record at the clean destination has its name, and mode, owner, group, time and content of the source, and zero in every field that the code leaves unset |
| `MergeOutcome.FileMountsExactly` | pkg/unikontainers/initrd/initrd.go:207-219 | The merge is about the mounts of regular files, each as often as it is listed, and there is an error exactly if some source has no stat |
| `MergeOutcome.FileMountIsFound` | pkg/unikontainers/initrd/initrd.go:146-205 | For a mount of a file anywhere in the whole list, the merged archive holds the copy of its source, unless a later mount of a file has the destination |
| `MergeOutcome.MountsAreAdded` | pkg/unikontainers/initrd/initrd.go:182-199 | With enough inodes, mounting succeeds exactly if all destinations are absolute and all sizes fit the header |
| `MergeOutcome.MergeSucceedsExactly` | pkg/unikontainers/initrd/initrd.go:146-205 | With enough inodes, a merge succeeds exactly if all sources can be opened and, unless no source is a regular file, the archive is one and every mount can be added |
| `MergeProperties.MergeComposes` | pkg/unikontainers/initrd/initrd.go:170-204 | Merging two lists one after the other gives the bytes of one merge of both, and fails in the same cases |
| `Outcome.WinnerImpliesBuilt` | pkg/unikontainers/unikontainers.go:850-866 | In the abstract protocol a winner implies a success and a success a built command |
| `Outcome.WinnerIsFinal` | cmd/urunc/start.go:89-102 | In the abstract protocol no second start ever wins |
| `Handshake.NoForgedSuccess` | pkg/unikontainers/ipc.go:176-185 | A partial success message followed by any part of the error message never reads as a success |
| `Handshake.StepKeeps` | cmd/urunc/create.go:272-290 | Every step of create, reexec and any start keeps the invariant of the system |
| `Handshake.RunKeeps` | cmd/urunc/create.go:382-478 | The invariant holds in every state of every run |
| `HandshakeProperties.RunningOnlyAfterSuccess` | cmd/urunc/start.go:89-102 | `running` is stored only by the start that reexec reported to, after the command was built and the whole success message sent, and by no two starts |
| `HandshakeProperties.StartAnswersRightly` | cmd/urunc/start.go:50-105 | In every run a start succeeds only if reexec reported `RX_SUCCESS` to it, it has stored `running` with the pid of reexec, that is on disk, and all hooks of the life cycle ran without failure; one that has stored it fails only if a hook failed, and one that has not always fails |
| `HandshakeProperties.CreateAnswersRightly` | cmd/urunc/create.go:272-290 | In every run create succeeds only if it has sent `UC_ACK`, the state was stored with the pid of reexec, and all CreateRuntime hooks ran without failure |
| `HandshakeProperties.HooksInOrder` | pkg/unikontainers/unikontainers.go:1227-1261 | Hooks of all processes are a prefix of CreateRuntime, CreateContainer, StartContainer, Poststart, and a failing one is the last |
| `HandshakeProperties.PoststartComesLast` | cmd/urunc/start.go:104 | A start runs Poststart hooks only after all earlier hooks succeeded |
| `HandshakeProperties.StatusMovesForward` | pkg/unikontainers/unikontainers.go:267-285 | The stored status only moves creating, created, running, from created on the stored pid is that of reexec, and a save that fails midway is the last |
| `HandshakeProperties.ReexecLoadsCreatedState` | cmd/urunc/create.go:384-406 | What reexec loads is the state that `Create` saved, and create is through with its hooks by then, even if it fails after the acknowledgement |
| `HandshakeProperties.SocketIsOpenBeforeDial` | cmd/urunc/start.go:62-87 | When reexec dials, the start that released it has opened urunc.sock and, while it lives, still holds it |
| `HandshakeProperties.AwaitGoesOnExactly` | pkg/unikontainers/ipc.go:164-175 | A waiting start can go on, other than by giving up, exactly when reexec has dialed it |
| `HandshakeProperties.DeadReexecNeverReports` | pkg/unikontainers/ipc.go:164-175 | If reexec is dead and has not dialed a waiting start, that start never succeeds, however the run goes on |
| `HandshakeProperties.StepRefines` | pkg/unikontainers/ipc.go:164-185 | Each step of the socket handshake is an event of the abstract protocol or none |
| `HandshakeProperties.RunRefines` | pkg/unikontainers/ipc.go:164-185 | Each run of the socket handshake is a run of the abstract protocol |
| `HandshakeProperties.WinnerIsFinal` | cmd/urunc/start.go:89-102 | Once a start has stored `running`, it remains the only one for the rest of the run |
| `HandshakeProgress.HandshakeSucceeds` | cmd/urunc/start.go:50-105 | For every configuration some run ends with all hooks run, the reexec process as the recorded running monitor, and a successful start |
| `HandshakeProgress.StartMayWaitInVain` | pkg/unikontainers/ipc.go:164-175 | For every configuration some run has a start waiting for a dead reexec that did not dial it |
| `ReadyPipe.StepKeeps` | cmd/urunc/create_libcontainer.go:67-104 | Every step of create, monitor and any start keeps the invariant of the FIFO variant |
| `ReadyPipe.RunKeeps` | pkg/unikontainers/monitor.go:33-157 | The invariant holds in every state of every run |
| `ReadyPipe.WinnerEffect` | pkg/unikontainers/ipc.go:254-270 | The byte for success can be taken once: whoever takes it, nobody has before |
| `ReadyPipeProperties.PipeHasWriter` | cmd/urunc/create_libcontainer.go:67-91 | From its creation the FIFO has a writer until the monitor reports, dies, or create gives up |
| `ReadyPipeProperties.NoPrematureEof` | pkg/unikontainers/ipc.go:202-212 | A start sees the end of file only when the monitor is past its report or dead; a success report was then read by a start, or dropped by the kernel when nobody had the FIFO open |
| `ReadyPipeProperties.OutcomeIsSeen` | pkg/unikontainers/ipc.go:250-270 | Once the monitor runs or is dead, the read of a waiting start returns, with a byte or the end of file |
| `ReadyPipeProperties.RunningOnlyAfterReport` | pkg/unikontainers/monitor.go:142-157 | `running` is stored only after the byte 0, which the monitor writes once its command is built, and by one start only |
| `ReadyPipeProperties.StartAnswersRightly` | cmd/urunc/start.go:50-123 | In every run a start succeeds only if it has read the byte 0, `running` is on disk with the pid of the monitor, and all Poststart hooks ran without failure; one that has stored `running` fails only if a hook failed, and one that has not always fails |
| `ReadyPipeProperties.HooksInOrder` | pkg/unikontainers/unikontainers.go:1227-1261 | The hooks executed are a prefix of Poststart, a failing one is the last, and there is none before `running` is stored |
| `ReadyPipeProperties.StatusMovesForward` | pkg/unikontainers/unikontainers.go:267-285 | The stored status only moves creating, created, running, from created on the stored pid is that of the monitor, and a save that fails midway is the last |
| `ReadyPipeProperties.WinnerIsFinal` | cmd/urunc/start.go:89-102 | Once a start has stored `running`, it remains the only one for the rest of the run |
| `ReadyPipeProperties.StepRefines` | pkg/unikontainers/ipc.go:187-285 | Each step of the FIFO variant is an event of the abstract protocol or none |
| `ReadyPipeProperties.RunRefines` | pkg/unikontainers/ipc.go:187-285 | Each run of the FIFO variant is a run of the abstract protocol |
| `ReadyPipeProgress.HandshakeSucceeds` | cmd/urunc/start.go:50-123 | For every configuration some run ends with the Poststart hooks run, the monitor running and recorded as running, the FIFO gone, and a successful start |
| `Strconv.AtoiFormat` | pkg/unikontainers/urunc_config.go:210-309 | A formatted number is read back by Atoi exactly if it is at most 2^63-1 |
| `Strconv.FormatParseDigits` | pkg/unikontainers/vaccel.go:38 | Digits without leading zero are the decimal form of their value |
| `ConfigKeys.SlotKeyInjective` | pkg/unikontainers/urunc_config.go:210-232 | Different settings never share a key, even if names have dots |
| `ConfigKeys.ParseKeyOfKey` | pkg/unikontainers/urunc_config.go:240-309 | A key gives back its name and field exactly if the name has no dot |
| `ConfigKeys.KeyOfParseKey` | pkg/unikontainers/urunc_config.go:240-309 | A key that the loops accept is the key of what they take from it |
| `UruncConfig.Map` | pkg/unikontainers/urunc_config.go:210-232 | In any order of visits, the map has each setting under its key and nothing else |
| `ConfigLayout.WrittenUnderKeys` | pkg/unikontainers/urunc_config.go:210-232 | The keys and texts of each setting written out (`urunc_config.monitors.<name>.default_memory_mb` and the others), and that the map has no other key |
| `UruncConfig.MonitorsFromMap` | pkg/unikontainers/urunc_config.go:240-282 | In any order of visits, each monitor named by some key gets, per field, the recorded value or its default |
| `UruncConfig.ExtraBinsFromMap` | pkg/unikontainers/urunc_config.go:284-309 | The same for extra binaries |
| `UruncConfig.UruncConfigFromMap` | pkg/unikontainers/urunc_config.go:234-309 | What is rebuilt is a function of the map alone |
| `ConfigLayout.ReadFromKeys` | pkg/unikontainers/urunc_config.go:62-309 | For any map: which names are rebuilt, and from which key each field is read, with the default it has if that key is missing or cannot be read |
| `UruncConfig.FromMapOfMap` | pkg/unikontainers/urunc_config.go:210-309 | What the round trip gives, for every configuration: dotted names vanish, numbers outside 1..2^63-1 become the default |
| `UruncConfig.RoundTrip` | pkg/unikontainers/urunc_config.go:210-309 | The round trip gives the defaults overlaid by the configuration if and only if no name has a dot and each number is in 1..2^63-1 or the default |
| `UruncConfig.DottedNameIsLost` | pkg/unikontainers/urunc_config.go:240-282 | A monitor named `a.b` does not come back |
| `UruncConfig.ZeroBecomesDefault` | pkg/unikontainers/urunc_config.go:240-282 | A recorded memory of 0 comes back as the default (loading a configuration never leaves one) |
| `UruncConfig.LoadUruncConfig` | pkg/unikontainers/urunc_config.go:176-208 | In any order of visits, the decoded configuration with defaults for what is zero or empty, or the default configuration, as the next two rows spell them out |
| `UruncConfig.LoadedIsFilledIn` | pkg/unikontainers/urunc_config.go:176-208 | Field by field: a decoded number 0 becomes 256 or 1, an empty path or options of virtiofsd become the default texts, everything else is as decoded, and no name appears or vanishes |
| `UruncConfig.DefaultConfigIs` | pkg/unikontainers/urunc_config.go:142-172 | Without a file: the six monitors with 256 MB and one vCPU, virtiofsd with its path and options, and no runtime option |
| `UruncConfig.LoadedRoundTrip` | pkg/unikontainers/urunc_config.go:176-309 | What was loaded comes back over the defaults if and only if no name has a dot and all numbers are at most 2^63-1 |
| `UruncConfig.LoadedComesBack` | pkg/unikontainers/urunc_config.go:176-309 | As decoding adds to the defaults, it then comes back as it was loaded |
| `StateAnnotations.Unikontainer.New` | pkg/unikontainers/unikontainers.go:111-131 | A new container is creating, without a pid, with the annotations of the image overlaid by the flattened urunc configuration |
| `StateAnnotations.Unikontainer.Get` | pkg/unikontainers/unikontainers.go:134-160 | Fails exactly if the state or the spec cannot be loaded or there is no type annotation; else the container holds the stored state and the configuration rebuilt from it |
| `StateAnnotations.Unikontainer.SaveContainerState` | pkg/unikontainers/unikontainers.go:1187-1206 | In any order of visits, a save adds exactly the keys of the spec that are neither urunc's nor recorded, and stores status, pid and annotations together |
| `StateAnnotations.Unikontainer.Create` | pkg/unikontainers/unikontainers.go:267-280 | Stores created with the pid, or changes nothing if the pid file cannot be written |
| `StateAnnotations.Unikontainer.SetRunningState` | pkg/unikontainers/unikontainers.go:282-285 | Stores running with the pid that was loaded |
| `StateAnnotations.RecordedStays` | pkg/unikontainers/unikontainers.go:1187-1206 | Any number of saves leave recorded keys as they are |
| `StateAnnotations.SavedExactly` | pkg/unikontainers/unikontainers.go:1187-1206 | What is recorded after any saves: what was before, and under each key that does not begin with `com.urunc.unikernel.` the value of the first spec that has it; nothing else |
| `StateAnnotations.AddedComesFromSpec` | pkg/unikontainers/unikontainers.go:1187-1206 | A key that saves add comes from a spec and is none of urunc's annotations |
| `StateAnnotations.RecordedSettingsSurvive` | pkg/unikontainers/unikontainers.go:111-157 | After any saves with any specs, runtime options and each recorded monitor and extra binary are rebuilt as recorded |
| `Netlink.SerializeInt32` | pkg/unikontainers/ipc_message.go:50-61 | The buffer is the attribute with its length, type and little-endian value |
| `Netlink.SerializeBytes` | pkg/unikontainers/ipc_message.go:71-90 | The buffer is the NUL-terminated value with exact length, padded to four; it fails exactly if the length exceeds 65535 |
| `Netlink.DecodeBytes` | pkg/unikontainers/ipc_message.go:50-90 | A sequence of serialized attributes is read back as itself |
| `NsenterLayout.AttributeLayout` | pkg/unikontainers/ipc_message.go:50-90 | An attribute byte by byte: little-endian length and type, the payload from byte 4, zeros up to a multiple of four |
| `Nsenter.WordFlags` | pkg/unikontainers/unikontainers.go:1332-1412 | A clone flag of the word is set exactly if a namespace of the type is to be created |
| `Nsenter.JoinPaths` | pkg/unikontainers/unikontainers.go:1422-1432 | The buffer is the non-empty paths in the order of their places, joined by commas |
| `Nsenter.FormatNsenterInfo` | pkg/unikontainers/unikontainers.go:1284-1440 | A message is built exactly if all paths exist without comma and the value fits, and its bytes are those of the flag and path attributes of the spec |
| `Nsenter.FindNS` | pkg/unikontainers/utils.go:301-313 | The verdict on the first namespace of the type, or that there is none |
| `Nsenter.ChoosePivot` | pkg/unikontainers/unikontainers.go:775-783 | Pivot if the first mount namespace is valid or its path does not exist |
| `NsenterLayout.FirstIsLookedAt` | pkg/unikontainers/utils.go:301-313 | The verdict is missing exactly if no namespace has the type, and otherwise is that on the first one |
| `NsenterLayout.PivotsExactly` | pkg/unikontainers/unikontainers.go:775-783 | Exec pivots exactly if there is a mount namespace and the path of the first one does not exist or has no comma |
| `NsenterProperties.MessageSaysTheSpec` | pkg/unikontainers/unikontainers.go:1284-1440 | The message decodes, and per type what nsenter reads, with its own prefixes and flags, is whether to create and which path to join, as the spec asks |
| `NsenterProperties.PathsInOrder` | pkg/unikontainers/unikontainers.go:1305-1310 | The entries read begin with `ipc:`, `uts:`, `net:`, `pid:`, `mnt:`, `cgroup:`, `time:`, in this order, and at most one with each |
| `NsenterLayout.MessageWrittenOut` | pkg/unikontainers/unikontainers.go:1284-1440 | The bytes of the message: an attribute 27281 whose word is the sum of the CLONE flags of the types to create, if one is to be created, and an attribute 27282 with a NUL at the end, if one is to be joined; split at commas, it has `net:` and a path exactly if that is the path of the last network namespace to join, and likewise for the other six types |
| `NsenterLayout.CloneFlagBits` | pkg/unikontainers/unikontainers.go:1332-1412 | Each of the seven bits of that word, from CLONE_NEWTIME 0x80 to CLONE_NEWNET 0x40000000, is set exactly if its type is to be created |
| `NsenterProperties.OrderOfSpecDoesNotMatter` | pkg/unikontainers/unikontainers.go:1284-1440 | Permuting a spec with one namespace per type gives the same message, or both fail |
| `NsenterProperties.PivotsIfMessageHasMountNamespace` | pkg/unikontainers/unikontainers.go:775-783 | If a message was built, Exec, whatever paths exist then, pivots exactly if the message creates or joins a mount namespace |
| `MountOptions.SplitMountOptions` | pkg/unikontainers/mount.go:579-608 | The groups are the options for containerd, the propagation flags, and a word with exactly the flags whose last option sets them |
| `MountOptions.FoldMountOptions` | pkg/unikontainers/block.go:283-294 | The restore fold computes the same function of the options |
| `MountOptions.ActiveSnoc` | pkg/unikontainers/mount.go:590-596 | How one more option changes what the last-option-wins rule yields |
| `MountOptions.HeldOnce` | pkg/unikontainers/mount.go:579-608 | The rule determines the whole word |
| `MountTables.WordBits` | pkg/unikontainers/mount.go:211-257 | Bit by bit, with the numbers of mount(2): each of the fifteen bits is set exactly if the last option of its pair (`ro`/`rw`, `nosuid`/`suid`, ...) turns it on, and no other bit ever is |
| `MountTables.GroupHas` | pkg/unikontainers/mount.go:579-608 | Each group has exactly the options whose names belong to it, each as often as it is given |
| `MountTables.PropagationOf` | pkg/unikontainers/mount.go:191-209 | The propagation flags are the numbers of the propagation options, in their order |
| `MountOptions.NoPropagationOptionIsVfs` | pkg/unikontainers/mount.go:191-257 | No option is in both tables |
| `MountOptions.WeaveSplit` | pkg/unikontainers/mount.go:579-608 | From the groups all options come back in order: none is lost, doubled or moved |
| `MountOptions.NothingToRemount` | pkg/unikontainers/mount.go:570-578 | Without bind, only propagation options leave the list |
| `MountOptions.RemountOptionsDecide` | pkg/unikontainers/mount.go:570-578 | The flags of a bind mount depend only on what containerd does not get |
| `BlockVolumes.Kernel.SetLoopAutoclear` | pkg/unikontainers/block.go:314-349 | Sets the flag of a loop device and tells whether it changed; anything else is left alone; a fault is an error for any path |
| `BlockVolumes.FindMountInfo` | pkg/unikontainers/block.go:77-120 | The mount at the path, unless another mount that is not special has its source |
| `BlockVolumes.TakeVolume` | pkg/unikontainers/block.go:213-255 | One round: the device with its undo data, nothing, or an error, for every fault |
| `BlockVolumes.GetBlockVolumes` | pkg/unikontainers/block.go:211-258 | The loop takes supported volumes one by one, for every pattern of faults, with their undo data |
| `BlockVolumes.RestoreBlockVolumes` | pkg/unikontainers/block.go:262-309 | The loop gives the host and the outcome of the specification, for every fault |
| `BlockVolumes.ShownFlags` | pkg/unikontainers/block.go:283-294 | Mount flags shown as options are folded back into the same flags |
| `BlockVolumeProperties.TakeEffect` | pkg/unikontainers/block.go:211-258 | Taken devices were mounted and no longer are, other mounts stay, no loop device vanishes, and autoclear is recorded where it was cleared |
| `BlockVolumeProperties.TakeSucceedsExactly` | pkg/unikontainers/block.go:211-258 | Taking succeeds exactly if every round can read mountinfo and no round that takes a volume fails to clear the flag or to unmount, and then does what it does without faults |
| `BlockVolumeProperties.RoundTakesExactly` | pkg/unikontainers/block.go:77-120 | A round takes exactly a mount at the path of the volume that has a source and a supported file system, and whose source has no other mount but special ones |
| `BlockVolumeProperties.NamedIsTaken` | pkg/unikontainers/block.go:211-258 | A supported mount without other users that some volume names is among the taken devices |
| `BlockVolumeProperties.RestoreEffect` | pkg/unikontainers/block.go:262-309 | On any host and for any list: the first device of each mountpoint, if nothing is mounted there, is mounted with its flags and gets a cleared autoclear flag back; a device whose mountpoint is taken or empty is skipped; everything else stays |
| `BlockVolumeProperties.RestoreFailsExactly` | pkg/unikontainers/block.go:262-309 | A restore fails exactly if a round with a mountpoint cannot read mountinfo, or a round whose device is not skipped cannot mount it or, with autoclear, cannot set the flag |
| `BlockVolumeProperties.RestoreSucceeds` | pkg/unikontainers/block.go:262-309 | Without faults a restore succeeds, on every host and for every list |
| `BlockVolumeProperties.RestoreGivesBack` | pkg/unikontainers/block.go:211-309 | A later restore succeeds exactly if no device meets a fault that concerns it; then each taken path has its old mount again, unless something is mounted there by then, and other mounts and loop devices of that time are left alone |
| `BlockVolumeProperties.TakeThenRestore` | pkg/unikontainers/block.go:211-309 | Take then restore succeeds exactly if no device meets a fault, and gives back the same mounts, flags and autoclear bits |
| `BlockVolumeProperties.NothingIsLost` | pkg/unikontainers/block.go:211-309 | Without faults both succeed and the host is as it was, for every host without stacked mounts, every list of volumes and every guest |
| `BlockVolumeProperties.TakenInRounds` | pkg/unikontainers/block.go:250-254 | Each device carries source and destination of the volume whose position its identifier names |
| `BlockVolumeProperties.IdsDistinct` | pkg/unikontainers/block.go:250 | Identifiers `vol<i>` never clash |
| `BlockVolumeProperties.NoOtherUserLeft` | pkg/unikontainers/block.go:96-117 | After every run no mount of a taken source is left but special ones |
| `BlockVolumeProperties.SourcesApartExactly` | pkg/unikontainers/block.go:96-117 | The sources that a call takes are distinct if and only if no two of its volumes, in their order, name a confused pair of mounts |
| `BlockVolumeProperties.WereAloneExactly` | pkg/unikontainers/block.go:96-117 | No taken device had another mount that is not special before the call if and only if no two of its volumes name a confused pair whose first mount is not special |
| `BlockVolumeProperties.ConfusedAreTaken` | pkg/unikontainers/block.go:96-117 | Two confusable mounts are both taken, with one source |
| `BlockVolumeProperties.SourcesDistinctExactly` | pkg/unikontainers/block.go:96-117 | For a table of mounts, sources are distinct whatever the volumes are if and only if no two mounts can be confused |
| `BlockVolumeProperties.TwoVirtiofsMounts` | pkg/unikontainers/block.go:96-117 | Two mounts of a virtiofs tag `virtiofs` are such a table, and are both taken |
| `BlockVolumeProperties.SharedWithVirtiofs` | pkg/unikontainers/block.go:96-117 | An ext4 and a virtiofs mount of a source `virtiofs` are both taken by a Linux guest, and the second had another mount that is not special |
| `Ports.PortTextIsPort` | pkg/unikontainers/vaccel.go:37-38 | The port grammar accepts exactly the canonical decimals of 1..65535 |
| `Ports.ValidateHyperlightPorts` | pkg/unikontainers/annotations.go:556-587 | Accepts exactly the empty value, or for hyperlight at most 4096 bytes of items separated by commas, each a number of one to five digits, or two with a dash, within 1..65535 and rising |
| `Ports.PortArgs` | pkg/unikontainers/hypervisors/hyperlight.go:92-101 | The loop gives the flags of the next row |
| `Ports.PortFlagsOf` | pkg/unikontainers/hypervisors/hyperlight.go:92-101 | `--port=all` for no list, else `--port=` and the item for each item, in order |
| `Ports.AcceptedPortsBecomeFlags` | pkg/unikontainers/hypervisors/hyperlight.go:89-101 | An accepted value becomes flags whose ranges lie in 1..65535 and whose comma-join is the value |
| `VAccel.AddressFormats` | pkg/unikontainers/vaccel.go:51-54 | The matchers accept exactly the texts of the two address grammars |
| `VAccel.UnixAddressCaptures` | pkg/unikontainers/vaccel.go:87-92 | The captured port does not depend on how the address is taken apart |
| `VAccel.ValidateVAccel` | pkg/unikontainers/annotations.go:505-534 | The checks accept exactly what the next row says |
| `VAccel.AcceptsExactly` | pkg/unikontainers/annotations.go:505-534 | Accepted are exactly no request, and a request for `vsock` of at most 4096 bytes that is `vsock://2:P` for qemu, or `unix://D/vaccel.sock_P` for firecracker, with P in 1..65535 and D a plain absolute path |
| `VAccel.RecordVAccel` | pkg/unikontainers/annotations.go:382-428 | The three annotations are recorded, empty ones by absence, and the rest of the map stays |
| `VAccel.IsValidVSockAddress` | pkg/unikontainers/vaccel.go:76-96 | Valid exactly for a match; for firecracker the address becomes the vsock one and the socket is the path named |
| `VAccel.ResolveVAccelConfig` | pkg/unikontainers/vaccel.go:103-129 | What the recorded annotations resolve to, as the next row spells out |
| `VAccel.ResolvesExactly` | pkg/unikontainers/vaccel.go:76-129 | For any annotations, accepted or not: disabled, misconfigured, another type as it is, the address for qemu, or for firecracker the socket that the address names and `vsock://2:P` with its port |
| `VAccel.RecordsSurvive` | pkg/unikontainers/unikontainers.go:1187-1206 | No save and no urunc setting touches the vAccel annotations |
| `VAccel.AcceptedAddressesResolve` | pkg/unikontainers/annotations.go:505-534 | What create accepted resolves at Exec, after any saves, to disabled or to `vsock://2:P` with P in 1..65535 taken from the address |

## Left out

- The cpio library is not part of the repository: its writer and reader are modelled after cpio(5), one record at a time. Values that the library fills into a header on its own are not modelled (a file record keeps link count 0), a header field that is not hexadecimal is an error for the reader, and a record whose sizes do not fit eight digits fails to be written.
- Merge failures after the truncation (bad destination, inode exhaustion, write errors): only the bytes before the old trailer are claimed to stay. Sources do not change during a merge, and a source that has a stat can be read.
- `CopyFileMountsToInitrd`, `AddFileToInitrd`, compressed initrds, and hard links by repeated inodes in the original archive.
- Handshake: it is modelled on values, as steps of a transition system, since its point is the interleaving of processes; there, updates in place of the fields of `Unikontainer` (`Listener`, `Conn`, `readyPipe`) and their aliasing are not captured. Starts begin only after create has returned successfully, as the life cycle of the OCI runtime specification demands; a delete running at the same time, a start that crashes, and socket files of earlier containers are not modelled. Only reexec dials urunc.sock. A socket file that cannot be removed is only logged by the code and not modelled. A reader that finds state.json between its truncation and its rewriting is one whose load fails.
- Handshake: the nsenter stage between spawning reexec and its first read, the pid file, and the log pipe; hooks are events that succeed or fail, and what Exec does before the hooks is one fallible step.
- Ready pipe: file descriptor 3 being reused after a failed close is not modelled, a write to the closed descriptor writes nothing, and releasing the exec FIFO may succeed any number of times (more behaviour than libcontainer allows).
- `New`: loading and validating the spec. `New` and `Get`: the paths of the container.
- NsenterProperties.OrderOfSpecDoesNotMatter: does not say which error is returned, because the code returns that of the first bad path of the spec.
- JSON and TOML encoding are the identity; decoding the configuration file over the defaults is a parameter of `LoadUruncConfig`, and log and metrics settings are not modelled.
- The header that the netlink library puts before the attributes, big-endian machines, user namespaces (which the code ignores), and the part of the message that is commented out in the source.
- Mount flags: only the options in urunc's table count. Defaults that the kernel adds on its own (relatime when no access time option is given) and the kernel flags that mountinfo shows elsewhere are not modelled; a mount shows the flags it was made with.
- Mounts stacked on one mountpoint, and restoring after a `getBlockVolumes` call that failed midway: the code does not promise restoration there. Explicit block images.
- `applyMount` beyond the splitting of options: remounting with locked flags, and the mount system calls.
- `validateValues` apart from ports and vAccel, base64 decoding of urunc.json, `idToGuestCID`, and the environment of the guest.
- Monitor and guest command lines apart from `portArgs`, the nsenter C code, libcontainer, the containerd shim, logging, metrics and permission bits.

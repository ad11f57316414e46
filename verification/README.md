# evalbox, modelled and proved in Dafny

evalbox runs an untrusted program as a confined child process: a Landlock ruleset, a
pair of seccomp filters, a start-up handshake with the parent, and a loop in the parent
that collects output until the child ends, is killed, or runs out of time. This project
models the parts whose correctness is decided by the code itself and proves what they
promise, for every input, every schedule and every answer of the kernel.

| file | models |
|---|---|
| `Words.dfy` | machine words, truncating casts, bitwise AND |
| `Bpf.dfy` | classic BPF as seccomp runs it: interpreter, the kernel's program check, stacks of filters |
| `Seccomp.dfy` | the whitelist and the notify filter compilers and the meaning of the two filters together |
| `Overrides.dfy` | the allow/deny builder and the filter it leads to |
| `Handshake.dfy` | the two-process start-up protocol, as interleaved steps, to the end of the parent's call |
| `Defaults.dfy` | the default lists by number, and what a plan without overrides can do |
| `Tokens.dfy`, `Ledger.dfy`, `Executor.dfy` | the event loop over any number of sandboxes |
| `Monitor.dfy`, `Outputs.dfy` | the blocking monitor and what both loops return |
| `LdCache.dfy` | the `ld.so.cache` parser, an encoder for either origin of string offsets, and when the parser inverts it |
| `Landlock.dfy` | the ruleset of a plan and what it grants on a path |
| `Supervisor.dfy` | the notification supervisor's reply protocol |

How the model is built:

* Code that updates state is a method of a class (`Syscalls`, `Executor`, `Ruleset`,
  `Supervisor`, the pipes and the kernel objects they call), proved against a
  specification over values; the results about whole runs are lemmas about that
  specification or invariants that every method keeps.
* The kernel is an adversary. Reads, waits, polls, ioctls and clocks return arbitrary
  values within a stated contract: reads are at most 4096 bytes, the clock is monotone,
  only registered tokens are reported, a notification is delivered once, an opened file
  gets an unused descriptor. The blocking monitor is given all its answers as a schedule,
  so that a run is a function of it.
* BPF semantics and the verdict of stacked filters follow the Linux kernel document
  "Seccomp BPF (SECure COMPuting with filters)", section "Return values"; what a Landlock
  ruleset grants follows "Landlock: unprivileged access control", section "Layers of file
  path access rights", and its list of previous limitations for the ABI versions. What a
  cache file looks like follows glibc (elf/cache.c and elf/dl-cache.c).

Where the code and its own documentation disagree, the model follows the code:

* The layout comment at `crates/evalbox-sys/src/seccomp.rs:416` has clone3 killed; the
  code returns ENOSYS for it.
* `crates/evalbox-sandbox/src/plan.rs:147-149` shows `deny(SYS_clone)` as removing clone;
  the handler for clone is reached before the list, so no override changes it
  (`SpecialCallsFixed`).
* `crates/evalbox-sandbox/src/executor.rs:208` speaks of 20-bit ids in tokens; the code
  keeps 62 bits (`Tokens.RoundTrip`, `Tokens.SameToken`).
* `crates/evalbox-sys/src/landlock.rs:10-16` dates IOCTL_DEV to ABI 4 and the scopes to ABI
  5, and the code asks for them from there; the kernel knows them from 5 and 6 on
  (`HandlesKnown`).
* `crates/evalbox/src/python/ldcache.rs:1-5` speaks of the cache that the dynamic linker
  uses; the code counts the string offsets of the new format from the start of the strings
  and those of the old format from the start of the file, and glibc does the opposite
  (`ParserOrigin`, `GlibcOrigin`).
* `handle_event` is documented to return `None` for stale notifications; it also returns
  `None` after an accepted reply when the path cannot be read or the mode is Disabled
  (`Truthful`).

Properties that turned out not to hold in general, each with its exact condition:

* A cache file as glibc writes it is listed right exactly if each of its strings also
  stands, terminated, as many bytes behind its own place as header and entries take (new
  format), or as many in front of it (old format): `GlibcExactly`. With fewer bytes than
  that after the strings a new-format cache is listed right exactly if it is empty
  (`GlibcNewFails`), and so is an old-format one unless its first name starts with the
  magic (`GlibcOldFails`). `MisreadFile` is a file that is listed with wrong names. With the
  origin this parser assumes, the round trip holds (`RoundTrip`).
* A start-up aborts for want of Landlock features exactly with ABI 4 and 5, where the masks
  ask for more than the kernel knows (`HandlesKnown`, `AbortsExactly`).
* The installed filter means what the overrides say, on native calls not handled apart,
  exactly if the low 32 bits of every permitted number are permitted too or are of a call
  handled apart (`OverrideMeaningExactly`; `AliasedOverride` gives an input).
* A start-up or run reported as failed can leave the program running without a SIGKILL,
  exactly if the plan's filters let the child reach the program: each action of the parent
  after the go-ahead can fail that way (`UnsupervisedExactly`, `UnsupervisedAt`).
* The start-up can succeed at all exactly if the filters can be built and let through the
  child's own last calls, those that allocate memory included, without asking the
  supervisor (`ExecPossible`); the default lists do (`DefaultPlanRuns`).
* Tokens of distinct descriptors differ exactly if their kinds differ or their ids differ
  modulo 2^62 (`SameToken`).
* Every Landlock rule keeps within the handled rights exactly from ABI 3 on
  (`RulesWithinHandled`); before that the kernel refuses the workspace rules and the
  workspace is not writable (`ModifiesExactlyInWorkspace`).
* A stream returned by the blocking monitor is a prefix of what was read exactly if it did
  not trip the limit or its bytes agree under the shift by the lost chunk
  (`PrefixExactly`). For a program that writes `n` bytes it always is one exactly if `n` is
  at most the limit plus one, or the limit is zero (`PrefixAlwaysExactly`).
* A poll of the event loop collects a sandbox exactly if its exit was reported or its
  deadline has passed and each stream had ended before or is reported and found to end
  (`CollectedExactly`); a stream left open at the limit and not reported again keeps it
  active for good (`StaysForGood`).
* A run that the blocking monitor does not kill can end at its deadline or later exactly if
  its last poll returned that late or both pipes had hung up while the process still ran
  (`OutlivesExactly`).

## Model

| member | source | states |
|---|---|---|
| Bpf.ValidProgramHalts | crates/evalbox-sys/src/seccomp.rs:430-581 | a program the kernel accepts returns from every index on every record, and jumps only forward: the steps never exceed the instructions left |
| Bpf.StrictestWins | crates/evalbox-sys/src/seccomp.rs:617-621 | the verdict of any stack of accepted filters is given by one of them, and none of them is stricter |
| Bpf.Opcodes | crates/evalbox-sys/src/seccomp.rs:72-88 | the five opcodes as numbers |
| Seccomp.BuildWhitelistFilter | crates/evalbox-sys/src/seccomp.rs:430-581 | panics exactly above 200 numbers; otherwise the program is accepted, has n+28 instructions, and on every record gives the policy's verdict within max(n+8, 12) steps |
| Seccomp.BuildNotifyFilter | crates/evalbox-sys/src/seccomp.rs:627-672 | the same for the notify filter: n+6 instructions, at most n+5 steps, USER_NOTIF exactly for listed numbers of the native architecture |
| Seccomp.WhitelistVerdicts | crates/evalbox-sys/src/seccomp.rs:441-580 | what every built whitelist filter returns, as numbers: 0x80000000 for a foreign architecture, for a namespace-creating clone, for socket domain 16 or type 3 and for the three ioctl commands, 0x00050026 for clone3, listed or not, and 0x7fff0000 or 0x80000000 for all other calls by the list |
| Seccomp.NotifyVerdicts | crates/evalbox-sys/src/seccomp.rs:638-671 | what every built notify filter returns, as numbers: 0x7fc00000 for listed native calls, else 0x7fff0000 |
| Seccomp.NativeVerdicts | crates/evalbox-sys/src/seccomp.rs:90-131 | the same with the architecture tokens and call numbers of both targets |
| Seccomp.WhitelistRun | crates/evalbox-sys/src/seccomp.rs:441-580 | compiler correctness: a program with this layout denotes `KillPolicy` on every record |
| Seccomp.NotifyRun | crates/evalbox-sys/src/seccomp.rs:638-671 | compiler correctness of the notify layout |
| Seccomp.LadderRun | crates/evalbox-sys/src/seccomp.rs:499-514 | a ladder of equality checks of any length lands on ALLOW exactly when the number is listed modulo 2^32 |
| Seccomp.MaskTest | crates/evalbox-sys/src/seccomp.rs:102-118 | JSET against the combined mask tests for exactly the seven namespace bits |
| Seccomp.CloneRun | crates/evalbox-sys/src/seccomp.rs:520-533 | clone is killed exactly when the low half of its first argument creates a namespace |
| Seccomp.SocketRun | crates/evalbox-sys/src/seccomp.rs:535-560 | socket is killed exactly for netlink or a raw type, whatever flags the type carries |
| Seccomp.IoctlRun | crates/evalbox-sys/src/seccomp.rs:562-578 | ioctl is killed exactly for the three terminal commands |
| Seccomp.OffsetsFitOneByte | crates/evalbox-sys/src/seccomp.rs:461-507 | the truncating `as u8` offsets lose nothing exactly up to 241 numbers, so the limit of 200 is safe |
| Seccomp.StackedVerdict | crates/evalbox-sandbox/src/executor.rs:834-855 | both filters together ask the supervisor exactly for listed calls the kill filter allows, and otherwise give the kill filter's verdict |
| Seccomp.ForeignArchKilled | crates/evalbox-sys/src/seccomp.rs:614-646 | a foreign architecture is killed by the pair although the notify filter alone allows it |
| Overrides.Syscalls.Allow | crates/evalbox-sandbox/src/plan.rs:165-170 | the number joins the allowed and leaves the denied set, and no other number moves; the two sets stay exactly the numbers last allowed and last denied |
| Overrides.Syscalls.Deny | crates/evalbox-sandbox/src/plan.rs:172-177 | the number joins the denied and leaves the allowed set, and no other number moves; the two sets stay exactly the numbers last allowed and last denied |
| Overrides.Syscalls.AllowMany | crates/evalbox-sandbox/src/plan.rs:179-186 | exactly the listed numbers join the allowed and leave the denied set, repetitions included; the two sets stay exactly the numbers last allowed and last denied |
| Overrides.Syscalls.DenyMany | crates/evalbox-sandbox/src/plan.rs:188-195 | exactly the listed numbers join the denied and leave the allowed set, repetitions included; the two sets stay exactly the numbers last allowed and last denied |
| Overrides.Override | crates/evalbox-sandbox/src/executor.rs:905-913 | for any two public sets, overlapping or not, the result is the default without the denied, then with the allowed; for sets from the builder, exactly the numbers whose last call allowed them, or that were never named and are default |
| Overrides.ApplySeccomp | crates/evalbox-sandbox/src/executor.rs:903-926 | the compiled list is that set in some order without repetition, the length passed to the kernel is not truncated, and the program implements the policy for it |
| Overrides.OverrideMeaning | crates/evalbox-sandbox/src/plan.rs:165-195 | end to end: on the native architecture a call not handled apart passes exactly when the configuration permits it |
| Overrides.LastCallDecides | crates/evalbox-sandbox/src/plan.rs:165-195 | a number named by the last call is permitted after `allow` and `allow_many` and not after `deny` and `deny_many`; any other number keeps its answer |
| Overrides.LastCallVerdict | crates/evalbox-sandbox/src/plan.rs:165-195 | the same on the built program: what the last call allowed gets 0x7fff0000 and what it denied 0x80000000 |
| Overrides.SetsVerdict | crates/evalbox-sandbox/src/executor.rs:903-926 | and in terms of the two public sets, overlapping or not |
| Overrides.OrderIrrelevant | crates/evalbox-sandbox/src/executor.rs:906-913 | the verdict does not depend on hash-set order or repetitions |
| Overrides.SpecialCallsFixed | crates/evalbox-sys/src/seccomp.rs:457-497 | no override changes the verdict on clone3, clone, socket, ioctl or a foreign architecture |
| Overrides.OverrideMeaningExactly | crates/evalbox-sys/src/seccomp.rs:500-507 | numbers are matched modulo 2^32: the installed filter gives the configuration's answer to every native call not handled apart exactly when the low half of each permitted number is permitted or handled apart |
| Overrides.AliasedOverride | crates/evalbox-sandbox/src/executor.rs:903-926 | for every default list without 165, the filter built after allowing 2^32 + 165 lets call 165 through although nothing permits it |
| Handshake.InvStep | crates/evalbox-sandbox/src/executor.rs:802-876 | every step of either process, failures and deaths included, keeps the inductive invariant |
| Handshake.ExecSafety | crates/evalbox-sandbox/src/executor.rs:802-876 | in every interleaving the program starts only after every child action was carried out in program order (those that can fail, with success) and after the go-ahead; its calls then get the verdict of all filters |
| Handshake.ParentSafety | crates/evalbox-sandbox/src/executor.rs:621-639 | the parent gets past its wait, and so to its monitor or handle, only once the child's filters are all installed |
| Handshake.FailureContained | crates/evalbox-sandbox/src/executor.rs:605-639 | a start-up that fails before the go-ahead leaves a child that never gets one nor starts the program; SIGKILL has been sent if the wait for the listener or for readiness, the read of the ready eventfd or the write of the go-ahead failed, and not if opening the pidfd, receiving the listener or an action after the go-ahead up to the registration did |
| Handshake.DoneInOrder | crates/evalbox-sandbox/src/isolation/lockdown.rs:69-81 | in every reachable state each action was preceded by its predecessor: no_new_privs, Landlock, rlimits, securebits, capabilities, the notify filter and its listener, the kill filter, the ready signal, the go-ahead, closing, building the arguments, execve |
| Handshake.EachCallNeeded | crates/evalbox-sandbox/src/executor.rs:857-875 | each of the last actions happens only if its own call passes the filters |
| Handshake.FailsExactly | crates/evalbox-sandbox/src/executor.rs:802-876 | the actions whose failure the child ignores are closing descriptors, securebits and capabilities |
| Handshake.PanicNeverRuns | crates/evalbox-sys/src/seccomp.rs:431-436 | if a list is too long to compile, the child never gets past that filter, nor the parent past its wait |
| Handshake.UnsupervisedAt | crates/evalbox-sandbox/src/executor.rs:718-774 | a failure that leaves the program running without SIGKILL is possible at an action of the parent exactly if it comes after the go-ahead (stdin, non-blocking pipes, registration or monitoring) and the child can get to the program |
| Handshake.UnsupervisedExactly | crates/evalbox-sandbox/src/executor.rs:718-774 | so such a failure is possible exactly if the child can get to the program |
| Handshake.CallPasses | crates/evalbox-sandbox/src/executor.rs:834-869 | with all filters installed one of the child's own calls passes exactly if it is on the kill list and not also on an active notify list |
| Handshake.NoDeadlock | crates/evalbox-sandbox/src/executor.rs:834-869 | while nobody failed or died and the program is not running, one of the two can act |
| Handshake.FaultFreeRun | crates/evalbox-sandbox/src/executor.rs:703-718 | failure-free runs are bounded by a measure, and one that cannot go on has reached the program |
| Handshake.Completes | crates/evalbox-sandbox/src/executor.rs:303-316 | from every healthy reachable state the start-up can be completed without failures, in both notify settings |
| Handshake.ExecPossible | crates/evalbox-sandbox/src/executor.rs:857-955 | the program is reachable exactly when the filters can be built and write, read, close_range, the calls that allocate the argument vectors, and execve pass them |
| Defaults.LastCalls | crates/evalbox-sys/src/seccomp.rs:190-407 | on both targets the child's own calls, those of memory included, are on the default list and none is on the notify list |
| Defaults.DefaultPlanRuns | crates/evalbox-sys/src/seccomp.rs:405-407 | a plan without overrides can get to its program, in both notify settings |
| Tokens.RoundTrip | crates/evalbox-sandbox/src/executor.rs:215-222 | decoding inverts encoding exactly for ids below 2^62 |
| Tokens.Layout | crates/evalbox-sandbox/src/executor.rs:208-217 | below 2^62 the token is four times the id plus 0 for the pidfd, 1 for stdout, 2 for stderr |
| Tokens.SameToken | crates/evalbox-sandbox/src/executor.rs:215-217 | two descriptors share a token exactly when kinds agree and ids agree modulo 2^62 |
| Tokens.DistinctTokens | crates/evalbox-sandbox/src/executor.rs:215-217 | below 2^62 distinct descriptors have distinct tokens; an id and that id plus 2^62 share theirs |
| Tokens.EncodeDecode | crates/evalbox-sandbox/src/executor.rs:219-222 | every token is the encoding of what it decodes to |
| Executor.TokensDisjoint | crates/evalbox-sandbox/src/executor.rs:331-350 | no two of the first 2^62 ids share any of their three tokens |
| Executor.ReportedExactly | crates/evalbox-sandbox/src/executor.rs:383-393 | a report is taken for a sandbox and kind exactly when that sandbox's own token was reported |
| Executor.OnlyOwn | crates/evalbox-sandbox/src/executor.rs:383-407 | so a sandbox none of whose tokens is reported changes by its deadline at most and yields no data |
| Executor.Executor.Spawn | crates/evalbox-sandbox/src/executor.rs:322-366 | an id is consumed even by a failed spawn and never reused; its tokens, registered up to the first failure, are new as long as no more than 2^62 ids are given out; a success adds exactly one fresh sandbox with its deadline and all three tokens |
| Executor.Executor.CalculateTimeout | crates/evalbox-sandbox/src/executor.rs:455-465 | the wait is no longer than the caller wants nor than any deadline leaves, it is one of these, and there is none only without either |
| Executor.Executor.ReadOnce | crates/evalbox-sandbox/src/executor.rs:481-526 | one turn of the read loop: a chunk goes to buffer and event alike, an end closes that stream only, beyond the limit a SIGKILL is sent |
| Executor.Executor.ReadPipe | crates/evalbox-sandbox/src/executor.rs:470-528 | terminates; touches one stream of one sandbox; afterwards the pipe is empty or the limit was exceeded |
| Executor.Executor.Sweep | crates/evalbox-sandbox/src/executor.rs:533-544 | exactly the overdue sandboxes not yet seen to exit are sent SIGKILL and marked, no other account changes, and exactly the done ones are listed |
| Executor.Executor.Finish | crates/evalbox-sandbox/src/executor.rs:547-589 | one sandbox leaves with its one terminal event, whose duration is the time since its start, or without an event when the wait fails |
| Executor.Executor.CheckCompletions | crates/evalbox-sandbox/src/executor.rs:532-593 | the whole sweep keeps the ledger, early return included; on success exactly what is done after the deadline branch leaves |
| Executor.Executor.Select | crates/evalbox-sandbox/src/executor.rs:383-393 | exactly the active sandboxes with a reported token of the kind, stale tokens ignored |
| Executor.Executor.Poll | crates/evalbox-sandbox/src/executor.rs:369-411 | keeps the ledger for any registered tokens, stale and repeated ones included, and any reads and clock; below 2^62 ids a sandbox changes only by its own tokens or its deadline; reported streams end up drained, overdue sandboxes killed, and exactly the done ones collected |
| Executor.CollectedExactly | crates/evalbox-sandbox/src/executor.rs:395-409 | a poll collects a sandbox exactly when its exit was reported or its deadline passed, and each stream had ended or is reported and found to end |
| Executor.StaysForGood | crates/evalbox-sandbox/src/executor.rs:521-543 | a stream left open and not reported again keeps its sandbox active over any number of polls, past its deadline too |
| Ledger.KeptByChunk | crates/evalbox-sandbox/src/executor.rs:503-525 | a read chunk keeps the invariant: stream refinement, output bound, partition of ids |
| Ledger.KeptByDeadline | crates/evalbox-sandbox/src/executor.rs:537-540 | so does a deadline kill |
| Ledger.KeptByFinish | crates/evalbox-sandbox/src/executor.rs:547-589 | so does a terminal event, given its classification |
| Ledger.StreamRefinement | crates/evalbox-sandbox/src/executor.rs:470-528 | a terminal event's buffers equal the concatenated data events before it and the bytes its pipes delivered; no event of the id follows |
| Ledger.Conservation | crates/evalbox-sandbox/src/executor.rs:532-593 | successful spawns = active sandboxes + terminal events + sandboxes dropped by a failed wait |
| Ledger.OneTerminalEachId | crates/evalbox-sandbox/src/executor.rs:584-588 | each id has at most one terminal event, Completed or Timeout and never both |
| Ledger.TerminalMeaning | crates/evalbox-sandbox/src/executor.rs:532-588 | an end is reported only after both pipes ended and an exit or deadline kill; it is a timeout exactly when classified at or after the deadline; output exceeds the limit exactly when SIGKILL was sent for it, by at most 4096 bytes each |
| Ledger.TerminalStatus | crates/evalbox-sandbox/src/executor.rs:561-573 | a terminal event carries the exit code or signal that waiting reported, or neither; unless it is a timeout it is Signaled exactly after a signal, OutputLimitExceeded exactly without one and over the limit, and Exited otherwise |
| Ledger.EmittedExactly | crates/evalbox-sandbox/src/executor.rs:507-519 | which data events count for which stream of which sandbox |
| Ledger.ReadMeans | crates/evalbox-sandbox/src/executor.rs:485-526 | a stream ends exactly with a read that reports end of file or an error |
| Monitor.Monitor | crates/evalbox-sandbox/src/monitor.rs:74-191 | the imperative monitor computes the run of its schedule, for every schedule |
| Monitor.RunCollects | crates/evalbox-sandbox/src/monitor.rs:131-191 | for every schedule: each stream comes back as what was read up to the limit without the chunk that tripped it, filling the limit unless the pipe had no more; status, exit code and signal are coherent; at most one stream trips, exactly when the status says so |
| Monitor.RunEnds | crates/evalbox-sandbox/src/monitor.rs:93-178 | a timeout is the first clock reading at or past the deadline; an unkilled run ends with the first poll that sees the exit or both hang-ups; the run ends when its wait has returned, and only if that succeeded |
| Monitor.RunReports | crates/evalbox-sandbox/src/monitor.rs:159-177 | an unkilled run returns the process's own exit code and Exited, or the signal that killed it and Signaled, as waiting reported it |
| Monitor.RunFails | crates/evalbox-sandbox/src/monitor.rs:122-129 | a run fails only for a pipe that cannot be made non-blocking, a failed poll or a failed wait, and goes on only as long as nothing could end it but the limit |
| Monitor.TurnReads | crates/evalbox-sandbox/src/monitor.rs:131-157 | a turn reads exactly the streams that the poll found readable, before anything ends the loop |
| Monitor.OutlivesExactly | crates/evalbox-sandbox/src/monitor.rs:159-177 | a run that is not killed can end at its deadline or later exactly if its last poll returned that late or both pipes hung up while the process still ran |
| Monitor.DrainRemaining | crates/evalbox-sandbox/src/monitor.rs:243-260 | terminates, and computes the drain that RunCollects describes |
| Monitor.CollectedMeaning | crates/evalbox-sandbox/src/monitor.rs:131-157 | an untripped stream is a prefix of what was read; the tripped one lacks exactly one read chunk and is contiguous after it |
| Monitor.PrefixExactly | crates/evalbox-sandbox/src/monitor.rs:131-181 | a returned stream is a prefix exactly if it did not trip or its bytes agree under the shift by the lost chunk, in particular if it was full at the trip or nothing was read after it |
| Monitor.SmallOutput | crates/evalbox-sandbox/src/monitor.rs:134-148 | a stream of at most the limit loses nothing that was read, and one of at most a byte more comes back as a prefix |
| Monitor.PrefixAlwaysExactly | crates/evalbox-sandbox/src/monitor.rs:131-181 | every finished run returns a prefix of the n bytes written to a stream if and only if n is at most the limit plus one, or the limit is zero |
| Monitor.GapRun | crates/evalbox-sandbox/src/monitor.rs:134-139 | with two bytes more than the limit a run can return 1 2 5 for 1 2 3 4 5 |
| LdCache.Parse | crates/evalbox/src/python/ldcache.rs:42-56 | total on every byte string; the map is that of the listed pairs with later ones winning, and every entry is a terminated run of the input |
| LdCache.ParseNewFormat | crates/evalbox/src/python/ldcache.rs:58-94 | the same for the new format, with its length checks |
| LdCache.ParseOldFormat | crates/evalbox/src/python/ldcache.rs:96-129 | the same for the old format |
| LdCache.ParseEntries | crates/evalbox/src/python/ldcache.rs:78-91 | the entry loop builds the map of the resolvable pairs, in file order |
| LdCache.HeaderExactly | crates/evalbox/src/python/ldcache.rs:42-109 | a file is accepted exactly if it has a magic, 20 bytes and room for header, entries and announced strings |
| LdCache.ListedExactly | crates/evalbox/src/python/ldcache.rs:74-126 | on every file a pair is listed exactly if some entry points to it; entries that do not resolve are skipped, those behind them are not |
| LdCache.LaterWins | crates/evalbox/src/python/ldcache.rs:89-89 | the map binds exactly the listed names, and the last pair of a name decides |
| LdCache.Utf8Exactly | crates/evalbox/src/python/ldcache.rs:148-148 | the strings accepted are exactly the UTF-8 encodings of Unicode scalar values |
| LdCache.U32RoundTrip | crates/evalbox/src/python/ldcache.rs:136-138 | little-endian words are read back as written |
| LdCache.CStringAt | crates/evalbox/src/python/ldcache.rs:140-149 | a clean string followed by a zero byte is read back from its offset |
| LdCache.HeaderRoundTrip | crates/evalbox/src/python/ldcache.rs:63-72 | the header of an encoded file is accepted and says what was encoded |
| LdCache.EntryExactly | crates/evalbox/src/python/ldcache.rs:78-91 | entry i of an encoded file, whatever its offsets count from, points to library i exactly when the library's strings stand where the parser looks |
| LdCache.EncodedExactly | crates/evalbox/src/python/ldcache.rs:42-129 | so an encoded file is listed right exactly when all its strings do |
| LdCache.RoundTrip | crates/evalbox/src/python/ldcache.rs:42-129 | parsing an encoded file with the origin the parser assumes lists exactly its libraries, in order |
| LdCache.ReadsExactly | crates/evalbox/src/python/ldcache.rs:140-149 | an offset reads back a string exactly if it stands there, clean and terminated |
| LdCache.LayoutExactly | crates/evalbox/src/python/ldcache.rs:58-129 | whatever the layout, strings shared or overlapping included, a file lists one given pair for each entry exactly when its entries point to these |
| LdCache.ParseLaidOut | crates/evalbox/src/python/ldcache.rs:42-129 | so parsing such a file yields the one map of its pairs, later duplicates winning |
| LdCache.ParseEncoded | crates/evalbox/src/python/ldcache.rs:42-129 | and yields the one map of its libraries, later duplicates winning |
| LdCache.GlibcExactly | crates/evalbox/src/python/ldcache.rs:74-129 | with glibc's origin an encoded file is listed right exactly when each string also stands displaced by header and entries |
| LdCache.GlibcNewFails | crates/evalbox/src/python/ldcache.rs:74-91 | a new-format file with fewer bytes than that after its strings is listed right exactly when it is empty |
| LdCache.GlibcOldFails | crates/evalbox/src/python/ldcache.rs:113-126 | an old-format file whose first name does not start with the magic is listed right exactly when it is empty |
| LdCache.MisreadFile | crates/evalbox/src/python/ldcache.rs:74-91 | a new-format file with one library that is listed under another name and path |
| LdCache.MeansUnique | crates/evalbox/src/python/ldcache.rs:89-89 | a list of pairs determines its map |
| Landlock.FsAccessForAbi | crates/evalbox-sys/src/landlock.rs:184-210 | the accumulated mask is all bits up to the newest the ABI knows |
| Landlock.Ruleset.AddPathRule | crates/evalbox-sandbox/src/isolation/lockdown.rs:181-195 | the ruleset holds exactly the acceptable ones of the rules asked for; failures are silent |
| Landlock.ApplyLandlock | crates/evalbox-sandbox/src/isolation/lockdown.rs:83-174 | what is enforced is the accepted part of the plan's rules under the handled rights, nothing if Landlock is missing, an error if the kernel does not know what is asked for or it cannot be set up |
| Landlock.HandlesKnown | crates/evalbox-sys/src/landlock.rs:184-231 | what a plan asks for is known to the kernel exactly in the ABI versions other than 4 and 5 |
| Landlock.PolicyHandles | crates/evalbox-sandbox/src/isolation/lockdown.rs:97-109 | what is handled: TCP exactly if the network is blocked and from ABI 4 on, both scopes from 5 on, and the file rights by version |
| Landlock.UnrestrictedExactly | crates/evalbox-sandbox/src/isolation/lockdown.rs:88-91 | nothing is restricted exactly if there is no Landlock |
| Landlock.AbortsExactly | crates/evalbox-sandbox/src/isolation/lockdown.rs:97-110 | so a start-up aborts exactly with these two, or if one of the two calls fails otherwise |
| Landlock.GrantedBy | crates/evalbox-sandbox/src/isolation/lockdown.rs:181-195 | a right is granted on a path exactly when one rule on the path or an ancestor gives it |
| Landlock.RulesWithinHandled | crates/evalbox-sandbox/src/isolation/lockdown.rs:112-172 | every rule of every plan keeps within the handled rights exactly from ABI 3 on |
| Landlock.ModifiesExactlyInWorkspace | crates/evalbox-sandbox/src/isolation/lockdown.rs:97-173 | for every plan and host, a request to make, remove or truncate, or for a right given to nobody (refer included at every ABI), passes exactly below work, tmp or home where that rule was taken, with ABI 3 or from 6 on, within the workspace rights |
| Landlock.WritesExactlyInWorkspaceOrDev | crates/evalbox-sandbox/src/isolation/lockdown.rs:141-171 | writing to files passes exactly there and below /dev, whatever the plan's mounts say, and nowhere where the start-up aborts |
| Landlock.WantedExactly | crates/evalbox-sandbox/src/isolation/lockdown.rs:112-171 | exactly which rules a plan asks for, paths and masks as literals; writable mounts ask for none |
| Landlock.ExecutesExactly | crates/evalbox-sandbox/src/isolation/lockdown.rs:125-157 | executing passes exactly below an executable mount, an extra or system path or, from ABI 3 on, a workspace directory whose rule was taken; not on account of `/proc`, `/dev` or a non-executable mount |
| Landlock.ReadsExactly | crates/evalbox-sandbox/src/isolation/lockdown.rs:125-171 | reading files passes exactly below a path whose rule was taken |
| Landlock.RefusedEverywhere | crates/evalbox-sandbox/src/isolation/lockdown.rs:112-171 | with an enforced ruleset device nodes, sockets and refer are granted nowhere at any version, and ioctl on devices nowhere from ABI 6 on |
| Landlock.UnderExactly | crates/evalbox-sandbox/src/isolation/lockdown.rs:181-195 | a rule reaches its path and whatever continues it |
| Landlock.Masks | crates/evalbox-sys/src/landlock.rs:54-75 | the rights and the masks of the rules as numbers |
| Landlock.BeyondOnlyInWorkspace | crates/evalbox-sandbox/src/isolation/lockdown.rs:114-145 | a granted right beyond reading and writing files lies in the workspace and is none of device nodes, sockets, refer and ioctl |
| Supervisor.Supervisor.HandleEvent | crates/evalbox-sandbox/src/notify/supervisor.rs:64-87 | whatever the kernel answers: one notification is taken and the protocol is kept, no file stays open, and this and all earlier results tell the truth about accepted replies |
| Supervisor.Supervisor.HandleMonitor | crates/evalbox-sandbox/src/notify/supervisor.rs:89-108 | success exactly with one accepted CONTINUE for the notification in hand |
| Supervisor.Supervisor.HandleVirtualize | crates/evalbox-sandbox/src/notify/supervisor.rs:112-170 | success exactly with one accepted reply; unreadable paths are let through, stale notifications dropped |
| Supervisor.Supervisor.OpenAndInject | crates/evalbox-sandbox/src/notify/supervisor.rs:185-219 | the supervisor's copy is closed on every path; an accepted injection is the answer, otherwise a CONTINUE is due |
| Supervisor.Supervisor.ReadChildString | crates/evalbox-sandbox/src/notify/supervisor.rs:222-239 | the path is the UTF-8 text before the first zero byte at the address of the path argument |
| Supervisor.Supervisor.RespondContinue | crates/evalbox-sandbox/src/notify/supervisor.rs:172-181 | one reply with the received id, reported as accepted or not |
| Supervisor.AnsweredAtMostOnce | crates/evalbox-sandbox/src/notify/supervisor.rs:64-219 | over any run no notification is answered twice and none that was not received |
| Supervisor.AnsweredUnlessRefused | crates/evalbox-sandbox/src/notify/supervisor.rs:64-219 | over any run every received notification no longer in hand has one accepted reply, exactly unless it was found stale or its CONTINUE was refused |
| Supervisor.RefusedInjectionContinues | crates/evalbox-sandbox/src/notify/supervisor.rs:148-163 | a refused injection is followed by closing the file and a CONTINUE for the same notification |
| Supervisor.OpenedAfterRecheck | crates/evalbox-sandbox/src/notify/supervisor.rs:117-150 | a file is opened only in Virtualize mode for an open-family call, right after the recheck that follows reading the path, and is that path's translation |
| Supervisor.AfterReceived | crates/evalbox-sandbox/src/notify/supervisor.rs:64-87 | outside Virtualize mode a notification is answered with CONTINUE, within it the caller's path is looked at first |
| Supervisor.AfterLooked | crates/evalbox-sandbox/src/notify/supervisor.rs:125-138 | without a readable path CONTINUE follows, otherwise the recheck |
| Supervisor.AfterChecked | crates/evalbox-sandbox/src/notify/supervisor.rs:140-165 | on a valid notification the translation is opened exactly for an open-family call that has one without a zero byte; otherwise CONTINUE follows |
| Supervisor.AfterOpened | crates/evalbox-sandbox/src/notify/supervisor.rs:197-219 | an opened file is injected for the notification and closed; one that could not be opened gives CONTINUE |
| Supervisor.PathArgument | crates/evalbox-sandbox/src/notify/supervisor.rs:117-123 | which argument holds the path, and which calls are answered with a file, on both targets |
| Supervisor.FlagsArgument | crates/evalbox-sandbox/src/notify/supervisor.rs:141-147 | which argument holds the flags, and that only O_CLOEXEC is cleared |
| Supervisor.PathTextExactly | crates/evalbox-sandbox/src/notify/supervisor.rs:230-238 | the path is exactly the UTF-8 text up to the first zero byte |

## Left out

- The numbers behind the libc names of the default lists are written out in `Defaults.dfy` from the Linux system call tables; all theorems but those of that file hold for any lists.
- "Every sandbox completes" for the event loop: reading stops at the limit without reaching end of file, so it does not follow from the code; `StaysForGood` says why.
- Status of over-limit runs in the event loop: a signal takes precedence over the limit, so OutputLimitExceeded is not claimed for them.
- Executor.Executor.Spawn: ids are unbounded numbers, so the wrap-around of `next_id` after 2^64 spawns is not modelled; tokens are exact below 2^62.
- Executor.Executor.Finish: the duration in an output lies between the start and two clock readings; how long the calls between them take is not modelled.
- The event loop's `kill`, `write_stdin` and `close_stdin`: each is one system call on one sandbox. Deregistration: a token stays reportable, which includes every stale report.
- Monitor.Monitor: schedules are finite, and the 100 ms cap of a poll is not part of it; the two `set_nonblocking` calls are one condition.
- Handshake.Completes: ends at the program's start and at the parent's first action after the go-ahead; that the blocking write of stdin can wait on a full pipe is not modelled.
- Handshake.PanicNeverRuns: a panic is the end of the child; that it unwinds through the caller's copy of the stack, where a caller could catch it, is not modelled.
- Handshake.ExecSafety: as in the code, the Landlock action also succeeds when the kernel has no Landlock; `Landlock.ApplyLandlock` says what is then enforced.
- Handshake.CallPasses: the child's calls before the kill filter (seccomp itself, sending the listener) are taken to be off the notify list, which holds path calls only.
- Validation, system check, workspace set-up and the fork before the handshake, and the descriptor closing on both sides: failures there happen before any step of the protocol, and double closes are tolerated by design.
- Values of rlimits, securebits and capability sets: constants; only their order counts.
- Landlock.ApplyLandlock: paths are resolved component lists; symbolic links, bind mounts and rules following a moved directory are not modelled, nor are the meanings of the network and scope masks beyond their values.
- Supervisor.Supervisor.HandleEvent: the debug assertion for mode Disabled is absent, as in a release build, and the text printed for each call is dropped.
- Path translation (`VirtualFs`): an arbitrary partial function of the path.
- Argument selection for statx and creat in the supervisor: kept as the code has it; that it picks the right arguments is not claimed.
- SCM_RIGHTS byte layout, raw ioctl encodings, `/proc/pid/mem`: answers of the kernel model.
- LdCache.Parse: opening and reading `/etc/ld.so.cache` is not modelled; strings are their UTF-8 bytes. An old-format file that carries a new-format one behind its entries is parsed as old, as in the code, and not encoded.
- Handshake.ExecPossible: which calls an allocation comes down to is a parameter, any set of calls that are not handled apart.
- ELF dependency resolution, Go wrapping, probes and compile caches, binary detection, builders, error types and sessions: host-dependent or thin.

/**
 * The default lists of system calls, by number, and what they mean for a plan that
 * overrides nothing: its filters can be built and its child gets to its program.
 */
module Defaults {
  import opened Words
  import opened Seccomp
  import opened Handshake

  // The base list in its source order and groups, with the numbers of each target.

  const HOT_X86_64: seq<i64> := [
    0, 1, 3, 202, 9, 10, 11, 12, 13, 14, 15, 257, 8]

  const IO_X86_64: seq<i64> := [
    436, 17, 18, 19, 20, 295, 296, 327, 328, 32, 292, 72, 73, 74, 75, 77, 221, 293, 271, 270, 40,
    326, 275, 276]

  const MEMORY_X86_64: seq<i64> := [
    25, 26, 27, 28, 324, 149, 325, 150, 151, 152]

  const PROCESS_INFO_X86_64: seq<i64> := [
    39, 110, 186, 102, 104, 107, 108, 118, 120, 115, 124, 63, 98, 100, 99]

  const TIME_X86_64: seq<i64> := [
    228, 229, 230, 96, 35]

  const FILES_X86_64: seq<i64> := [
    263, 264, 316, 258, 266, 265, 91, 268, 93, 260, 280, 269, 439, 262, 137, 138, 332, 217, 79, 80,
    81, 267]

  const SIGNALS_X86_64: seq<i64> := [
    130, 127, 128, 131, 62, 234, 200]

  const PROCESS_X86_64: seq<i64> := [
    59, 60, 231, 61, 247, 218, 274, 273, 24, 204, 203, 143, 142, 145, 146, 147, 157, 318, 302, 334,
    252]

  const EVENTS_X86_64: seq<i64> := [
    290, 291, 233, 281, 441, 283, 286, 287, 289]

  const SOCKETS_X86_64: seq<i64> := [
    53, 42, 49, 50, 43, 288, 51, 52, 44, 45, 54, 55, 48, 46, 47, 307, 299]

  const LEGACY_X86_64: seq<i64> := [
    5, 33, 21, 22, 23, 7, 2, 85, 87, 82, 83, 84, 88, 86, 90, 92, 94, 4, 6, 78, 89, 57, 58, 111, 158,
    284, 213, 232, 282]

  const WHITELIST_X86_64: seq<i64> :=
    HOT_X86_64 + IO_X86_64 + MEMORY_X86_64 + PROCESS_INFO_X86_64 + TIME_X86_64
    + FILES_X86_64 + SIGNALS_X86_64 + PROCESS_X86_64 + EVENTS_X86_64 + SOCKETS_X86_64 + LEGACY_X86_64

  /** openat, faccessat, faccessat2, newfstatat, statx, readlinkat; open, creat, access, stat, lstat, readlink. */
  const NOTIFY_X86_64: seq<i64> := [257, 269, 439, 262, 332, 267, 2, 85, 21, 4, 6, 89]

  const HOT_AARCH64: seq<i64> := [
    63, 64, 57, 98, 222, 226, 215, 214, 134, 135, 139, 56, 62]

  const IO_AARCH64: seq<i64> := [
    436, 67, 68, 65, 66, 69, 70, 286, 287, 23, 24, 25, 32, 82, 83, 46, 223, 59, 73, 72, 71, 285, 76,
    77]

  const MEMORY_AARCH64: seq<i64> := [
    216, 227, 232, 233, 283, 228, 284, 229, 230, 231]

  const PROCESS_INFO_AARCH64: seq<i64> := [
    172, 173, 178, 174, 176, 175, 177, 148, 150, 158, 156, 160, 165, 153, 179]

  const TIME_AARCH64: seq<i64> := [
    113, 114, 115, 169, 101]

  const FILES_AARCH64: seq<i64> := [
    35, 38, 276, 34, 36, 37, 52, 53, 55, 54, 88, 48, 439, 79, 43, 44, 291, 61, 17, 49, 50, 78]

  const SIGNALS_AARCH64: seq<i64> := [
    133, 136, 137, 132, 129, 131, 130]

  const PROCESS_AARCH64: seq<i64> := [
    221, 93, 94, 260, 95, 96, 100, 99, 124, 123, 122, 121, 118, 120, 125, 126, 167, 278, 261, 293,
    31]

  const EVENTS_AARCH64: seq<i64> := [
    19, 20, 21, 22, 441, 85, 86, 87, 74]

  const SOCKETS_AARCH64: seq<i64> := [
    199, 203, 200, 201, 202, 242, 204, 205, 206, 207, 208, 209, 210, 211, 212, 269, 243]

  const WHITELIST_AARCH64: seq<i64> :=
    HOT_AARCH64 + IO_AARCH64 + MEMORY_AARCH64 + PROCESS_INFO_AARCH64 + TIME_AARCH64
    + FILES_AARCH64 + SIGNALS_AARCH64 + PROCESS_AARCH64 + EVENTS_AARCH64 + SOCKETS_AARCH64

  const NOTIFY_AARCH64: seq<i64> := [56, 48, 439, 79, 291, 78]

  /**
   * One target's numbers: its default lists, the child's own last calls, and those of memory: brk, mmap, munmap,
   * mremap, mprotect, madvise.
   */
  datatype Table = Table(target: Target, whitelist: seq<i64>, notify: seq<i64>, numbers: Numbers, memory: set<u32>)

  const X86_64_TABLE := Table(X86_64, WHITELIST_X86_64, NOTIFY_X86_64, Numbers(1, 0, 436, 59), {12, 9, 11, 25, 10, 28})
  const AARCH64_TABLE :=
    Table(AARCH64, WHITELIST_AARCH64, NOTIFY_AARCH64, Numbers(64, 63, 436, 221), {214, 222, 215, 216, 226, 233})

  lemma ListedIn(nr: u32, group: seq<i64>, list: seq<i64>)
    requires nr in group && forall x :: x in group ==> x in list
    ensures Listed(nr, list)
  {
    var x: i64 := nr;
    assert x in list && AsU32(x) == nr;
  }

  // Length and membership, group by group.

  lemma GroupsX86()
    ensures |HOT_X86_64| == 13
    ensures |IO_X86_64| == 24
    ensures |MEMORY_X86_64| == 10
    ensures |PROCESS_INFO_X86_64| == 15
    ensures |TIME_X86_64| == 5
    ensures |FILES_X86_64| == 22
    ensures |SIGNALS_X86_64| == 7
    ensures |PROCESS_X86_64| == 21
    ensures |EVENTS_X86_64| == 9
    ensures |SOCKETS_X86_64| == 17
    ensures |LEGACY_X86_64| == 29
  {
  }

  lemma MembersX86()
    ensures 1 in HOT_X86_64 && 0 in HOT_X86_64 && 436 in IO_X86_64 && 59 in PROCESS_X86_64
    ensures 9 in HOT_X86_64 && 10 in HOT_X86_64 && 11 in HOT_X86_64 && 12 in HOT_X86_64
    ensures 25 in MEMORY_X86_64 && 28 in MEMORY_X86_64
  {
  }

  lemma NotifiedX86()
    ensures |NOTIFY_X86_64| == 12 && 1 !in NOTIFY_X86_64 && 0 !in NOTIFY_X86_64 && 436 !in NOTIFY_X86_64
      && 59 !in NOTIFY_X86_64
    ensures 9 !in NOTIFY_X86_64 && 10 !in NOTIFY_X86_64 && 11 !in NOTIFY_X86_64
    ensures 12 !in NOTIFY_X86_64 && 25 !in NOTIFY_X86_64 && 28 !in NOTIFY_X86_64
    ensures forall x :: x in NOTIFY_X86_64 ==> 0 <= x < 0x1_0000_0000
  {
  }

  lemma WithinX86()
    ensures forall x :: x in HOT_X86_64 || x in IO_X86_64 || x in MEMORY_X86_64 || x in PROCESS_X86_64 ==>
      x in WHITELIST_X86_64
    ensures |WHITELIST_X86_64| == 172
  {
    GroupsX86();
    hide HOT_X86_64, IO_X86_64, MEMORY_X86_64, PROCESS_INFO_X86_64, TIME_X86_64, FILES_X86_64,
      SIGNALS_X86_64, PROCESS_X86_64, EVENTS_X86_64, SOCKETS_X86_64, LEGACY_X86_64;
  }

  lemma GroupsArm()
    ensures |HOT_AARCH64| == 13
    ensures |IO_AARCH64| == 24
    ensures |MEMORY_AARCH64| == 10
    ensures |PROCESS_INFO_AARCH64| == 15
    ensures |TIME_AARCH64| == 5
    ensures |FILES_AARCH64| == 22
    ensures |SIGNALS_AARCH64| == 7
    ensures |PROCESS_AARCH64| == 21
    ensures |EVENTS_AARCH64| == 9
    ensures |SOCKETS_AARCH64| == 17
  {
  }

  lemma MembersArm()
    ensures 64 in HOT_AARCH64 && 63 in HOT_AARCH64 && 436 in IO_AARCH64 && 221 in PROCESS_AARCH64
    ensures 222 in HOT_AARCH64 && 226 in HOT_AARCH64 && 215 in HOT_AARCH64 && 214 in HOT_AARCH64
    ensures 216 in MEMORY_AARCH64 && 233 in MEMORY_AARCH64
  {
  }

  lemma NotifiedArm()
    ensures |NOTIFY_AARCH64| == 6 && 64 !in NOTIFY_AARCH64 && 63 !in NOTIFY_AARCH64 && 436 !in NOTIFY_AARCH64
      && 221 !in NOTIFY_AARCH64
    ensures 222 !in NOTIFY_AARCH64 && 226 !in NOTIFY_AARCH64 && 215 !in NOTIFY_AARCH64
    ensures 214 !in NOTIFY_AARCH64 && 216 !in NOTIFY_AARCH64 && 233 !in NOTIFY_AARCH64
    ensures forall x :: x in NOTIFY_AARCH64 ==> 0 <= x < 0x1_0000_0000
  {
  }

  lemma WithinArm()
    ensures forall x :: x in HOT_AARCH64 || x in IO_AARCH64 || x in MEMORY_AARCH64 || x in PROCESS_AARCH64 ==>
      x in WHITELIST_AARCH64
    ensures |WHITELIST_AARCH64| == 143
  {
    GroupsArm();
    hide HOT_AARCH64, IO_AARCH64, MEMORY_AARCH64, PROCESS_INFO_AARCH64, TIME_AARCH64, FILES_AARCH64,
      SIGNALS_AARCH64, PROCESS_AARCH64, EVENTS_AARCH64, SOCKETS_AARCH64;
  }

  lemma NotListed(nr: u32, list: seq<i64>)
    requires nr !in list && forall x :: x in list ==> 0 <= x < 0x1_0000_0000
    ensures !Listed(nr, list)
  {
  }

  /** The child's own calls are listed, and none of them is of a kind the supervisor is asked about. */
  lemma LastCalls(table: Table, nr: u32)
    requires table == X86_64_TABLE || table == AARCH64_TABLE
    requires
      var n := table.numbers;
      nr in [n.write, n.read, n.closeRange, n.execve] || nr in table.memory
    ensures Listed(nr, table.whitelist) && !Listed(nr, table.notify)
    ensures |table.whitelist| <= 172 && |table.notify| <= 12
  {
    WithinX86();
    WithinArm();
    MembersX86();
    NotifiedX86();
    MembersArm();
    NotifiedArm();
    hide Listed, HOT_X86_64, IO_X86_64, MEMORY_X86_64, PROCESS_X86_64;
    hide HOT_AARCH64, IO_AARCH64, MEMORY_AARCH64, PROCESS_AARCH64;
    hide WHITELIST_X86_64, WHITELIST_AARCH64, NOTIFY_X86_64, NOTIFY_AARCH64;
    var x: i64 := nr;
    ListedIn(nr, [x], table.whitelist);
    NotListed(nr, table.notify);
  }

  /** A plan without overrides, in either notify setting, can get to its program. */
  lemma DefaultPlanRuns(c: Config, table: Table)
    requires table == X86_64_TABLE || table == AARCH64_TABLE
    requires c.Valid() && c.target == table.target && c.numbers == table.numbers
    requires c.killList == table.whitelist && c.notifyList == table.notify && c.memory <= table.memory
    ensures c.CanExec()
    ensures exists s :: Reachable(c, s) && s.child == RUNNING
  {
    hide Listed, WHITELIST_X86_64, WHITELIST_AARCH64, NOTIFY_X86_64, NOTIFY_AARCH64;
    var n := table.numbers;
    LastCalls(table, n.write);
    LastCalls(table, n.read);
    LastCalls(table, n.closeRange);
    LastCalls(table, n.execve);
    forall nr | nr in c.memory ensures c.CanCall(nr) {
      LastCalls(table, nr);
    }
    ExecPossible(c);
  }
}

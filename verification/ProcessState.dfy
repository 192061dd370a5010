/** The process cache of sender/process_info.cpp as a state machine over values. */
module ProcessState {
  import opened Bytes

  const PROCESS_INFO_FLAG_CHECKS := 10

  /** The bytes of "zygote". */
  const ZYGOTE: seq<byte> := [0x7A, 0x79, 0x67, 0x6F, 0x74, 0x65]

  datatype Mode = Unknown | Kernel | User

  /** A flag together with the number of re-checks it has left. */
  datatype Check = Check(flag: bool, checks: nat)

  /** A cached process; `loads` counts how often its strings were overwritten. */
  datatype Entry = Entry(
    mode: Mode, zygote: Check, cmdexe: Check, cmdline: seq<byte>, executable: seq<byte>, loads: nat)

  const FRESH := Entry(
    Unknown, Check(false, PROCESS_INFO_FLAG_CHECKS), Check(false, PROCESS_INFO_FLAG_CHECKS), [], [], 0)

  /** What /proc answers to one reading of a process: both strings, each with its failure flag. */
  datatype Answer = Answer(
    cmdline: seq<byte>, cmdlineFailed: bool, executable: seq<byte>, executableFailed: bool)

  predicate Failed(a: Answer) {
    a.cmdlineFailed || a.executableFailed
  }

  function ModeOf(cmdline: seq<byte>, executable: seq<byte>): Mode {
    if CString(cmdline) == [] && CString(executable) == [] then Kernel else User
  }

  /** `load_process_info` without its return value, which is `Failed(a)`. */
  function Load(e: Entry, a: Answer): Entry {
    e.(cmdline := a.cmdline, executable := a.executable,
       mode := ModeOf(a.cmdline, a.executable), loads := e.loads + 1)
  }

  predicate IsZygote(a: Answer) {
    CString(a.cmdline) == ZYGOTE
  }

  /** The first load and the re-checks of the strings share what follows the load. */
  function Identify(e: Entry, a: Answer): Entry {
    var loaded := Load(e, a);
    if Failed(a) then loaded.(cmdexe := Check(true, e.cmdexe.checks))
    else loaded.(cmdexe := Check(false, 0),
                 zygote := Check(IsZygote(a), if IsZygote(a) then e.zygote.checks else 0))
  }

  function Earlier(earliest: u64, pid: u64): u64 {
    if earliest == 0 || pid < earliest then pid else earliest
  }

  function CheckZygote(e: Entry, a: Answer): Entry {
    var loaded := Load(e, a);
    var left := if e.zygote.checks > 0 then e.zygote.checks - 1 else 0;
    if Failed(a) then loaded.(zygote := Check(e.zygote.flag, 0))
    else loaded.(zygote := Check(IsZygote(a), if IsZygote(a) then left else 0))
  }

  datatype Cache = Cache(entries: map<u64, Entry>, earliest: u64)

  const EMPTY := Cache(map[], 0)

  function EntryOf(c: Cache, pid: u64): Entry {
    if pid in c.entries then c.entries[pid] else FRESH
  }

  predicate FirstLoad(e: Entry) {
    e.mode == Unknown
  }

  predicate StringCheck(e: Entry, check: bool) {
    !FirstLoad(e) && check && e.cmdexe.flag && e.cmdexe.checks > 0
  }

  predicate ZygoteCheck(e: Entry, earliest: u64, pid: u64, check: bool) {
    && !FirstLoad(e) && !StringCheck(e, check)
    && check && e.zygote.flag && (pid > earliest || e.zygote.checks > 0)
  }

  /** The lookup reads /proc. */
  predicate Loads(e: Entry, earliest: u64, pid: u64, check: bool) {
    FirstLoad(e) || StringCheck(e, check) || ZygoteCheck(e, earliest, pid, check)
  }

  /** The entry a lookup leaves behind. */
  function Refresh(e: Entry, earliest: u64, pid: u64, check: bool, a: Answer): Entry {
    if FirstLoad(e) then Identify(e, a)
    else if StringCheck(e, check) then Identify(e.(cmdexe := Check(true, e.cmdexe.checks - 1)), a)
    else if ZygoteCheck(e, earliest, pid, check) then CheckZygote(e, a)
    else e
  }

  /** A successful first load or string check finds a zygote, which is then weighed against the earliest one. */
  predicate Records(e: Entry, check: bool, a: Answer) {
    (FirstLoad(e) || StringCheck(e, check)) && !Failed(a) && IsZygote(a)
  }

  function NextEarliest(e: Entry, earliest: u64, pid: u64, check: bool, a: Answer): u64 {
    if Records(e, check, a) then Earlier(earliest, pid) else earliest
  }

  /** `getProcessInfo`; `a` is what /proc would answer during this call. */
  function Lookup(c: Cache, pid: u64, check: bool, a: Answer): Cache {
    var e := EntryOf(c, pid);
    Cache(c.entries[pid := Refresh(e, c.earliest, pid, check, a)],
          NextEarliest(e, c.earliest, pid, check, a))
  }

  /** Known, with no string check pending, and no zygote, except that pid 0, which is later than no zygote, may be one
      with no checks left. */
  predicate Settled(e: Entry, pid: u64) {
    && e.mode != Unknown && !(e.cmdexe.flag && e.cmdexe.checks > 0)
    && (!e.zygote.flag || (pid == 0 && e.zygote.checks == 0))
  }

  /** A lookup without re-checks leaves every process that was looked up before as it is. */
  lemma {:induction false} UncheckedLookupKeeps(c: Cache, pid: u64, a: Answer, known: u64)
    requires known in c.entries && c.entries[known].mode != Unknown
    ensures var d := Lookup(c, pid, false, a);
      known in d.entries && d.entries[known] == c.entries[known]
  {
  }

  lemma LookupKnows(c: Cache, pid: u64, check: bool, a: Answer)
    ensures var d := Lookup(c, pid, check, a);
      pid in d.entries && d.entries[pid].mode != Unknown
  {
  }
}

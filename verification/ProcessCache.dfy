/** The process cache of sender/process_info.cpp: a map of records that lookups update through references. */
module ProcessCache {
  import opened Bytes
  import opened ProcessState

  /** A cached record. Raw pointers into `cmdline` and `executable` stay good as long as
      `loads`, which counts the assignments to these strings, stays the same. */
  class ProcessInfo {
    ghost const key: u64
    var pid: u32
    var zygote: Check
    var cmdexe: Check
    var mode: Mode
    var cmdline: seq<byte>
    var executable: seq<byte>
    ghost var loads: nat

    ghost function View(): Entry
      reads this
    {
      Entry(mode, zygote, cmdexe, cmdline, executable, loads)
    }

    constructor (key: u64)
      ensures View() == FRESH && this.key == key
    {
      this.key := key;
      pid := 0;
      zygote := Check(false, PROCESS_INFO_FLAG_CHECKS);
      cmdexe := Check(false, PROCESS_INFO_FLAG_CHECKS);
      mode := Unknown;
      cmdline, executable := [], [];
      loads := 0;
    }

    /** `load_process_info`: both strings are overwritten, then the mode follows from them. */
    method LoadFrom(a: Answer) returns (failed: bool)
      modifies this
      ensures View() == Load(old(View()), a)
      ensures cmdline == a.cmdline && executable == a.executable
      ensures mode == if Blank(a.cmdline) && Blank(a.executable) then Kernel else User
      ensures failed == Failed(a)
      ensures pid == old(pid)
    {
      failed := false;
      cmdline := a.cmdline;
      if a.cmdlineFailed {
        failed := true;
      }
      executable := a.executable;
      if a.executableFailed {
        failed := true;
      }
      loads := loads + 1;
      mode := if CString(cmdline) == [] && CString(executable) == [] then Kernel else User;
      BlankIs(cmdline);
      BlankIs(executable);
    }
  }

  class Processes {
    var procMap: map<u64, ProcessInfo>
    var earliestZygote: u64

    /** Each process has its own record, which knows the low half of its pid once it was loaded. */
    ghost predicate Valid()
      reads this, Records()
    {
      forall k :: k in procMap ==>
        procMap[k].key == k && (procMap[k].mode != Unknown ==> procMap[k].pid == k % 0x1_0000_0000)
    }

    ghost function Records(): set<ProcessInfo>
      reads this
    {
      procMap.Values
    }

    ghost function View(): Cache
      reads this, Records()
    {
      Cache(map k | k in procMap :: procMap[k].View(), earliestZygote)
    }

    constructor ()
      ensures Valid() && View() == EMPTY && Records() == {}
    {
      procMap, earliestZygote := map[], 0;
    }

    /** What follows a first load or a string check of `pi`. */
    method Settle(pi: ProcessInfo, pid: u64, failed: bool)
      modifies this`earliestZygote, pi
      ensures pi.pid == old(pi.pid)
      ensures
        if failed then
          && pi.View() == old(pi.View()).(cmdexe := Check(true, old(pi.cmdexe.checks)))
          && earliestZygote == old(earliestZygote)
        else
          var z := CString(pi.cmdline) == ZYGOTE;
          && pi.View() == old(pi.View()).(
               cmdexe := Check(false, 0), zygote := Check(z, if z then old(pi.zygote.checks) else 0))
          && earliestZygote == if z then Earlier(old(earliestZygote), pid) else old(earliestZygote)
    {
      pi.cmdexe := pi.cmdexe.(flag := failed);
      if !pi.cmdexe.flag {
        pi.cmdexe := pi.cmdexe.(checks := 0);
        pi.zygote := pi.zygote.(flag := CString(pi.cmdline) == ZYGOTE);
        if pi.zygote.flag {
          earliestZygote :=
            if earliestZygote != 0 then (if pid < earliestZygote then pid else earliestZygote) else pid;
        } else {
          pi.zygote := pi.zygote.(checks := 0);
        }
      }
    }

    /** `procMap[pid]`, which adds a fresh record for an unknown pid. */
    method Reference(pid: u64) returns (pi: ProcessInfo)
      requires Valid()
      modifies this`procMap
      ensures Valid() && pid in procMap && pi == procMap[pid]
      ensures pid in old(procMap) ==> procMap == old(procMap)
      ensures pid !in old(procMap) ==> fresh(pi) && pi.View() == FRESH && procMap == old(procMap)[pid := pi]
    {
      if pid !in procMap {
        var record := new ProcessInfo(pid);
        procMap := procMap[pid := record];
      }
      pi := procMap[pid];
    }

    /** The body of `getProcessInfo` behind the map access. */
    method Update(pi: ProcessInfo, pid: u64, check: bool, a: Answer)
      modifies this`earliestZygote, pi
      ensures pi.View() == Refresh(old(pi.View()), old(earliestZygote), pid, check, a)
      ensures earliestZygote == NextEarliest(old(pi.View()), old(earliestZygote), pid, check, a)
      ensures pi.pid == if old(pi.mode) == Unknown then pid % 0x1_0000_0000 else old(pi.pid)
    {
      if pi.mode == Unknown {
        pi.pid := Low32(pid);
        var failed := pi.LoadFrom(a);
        Settle(pi, pid, failed);
      } else if check && pi.cmdexe.flag && pi.cmdexe.checks != 0 {
        pi.cmdexe := pi.cmdexe.(checks := pi.cmdexe.checks - 1);
        var failed := pi.LoadFrom(a);
        Settle(pi, pid, failed);
      } else if check && pi.zygote.flag && (pid > earliestZygote || pi.zygote.checks != 0) {
        if pi.zygote.checks != 0 {
          pi.zygote := pi.zygote.(checks := pi.zygote.checks - 1);
        }
        var failed := pi.LoadFrom(a);
        if failed {
          pi.zygote := pi.zygote.(checks := 0);
        } else {
          pi.zygote := pi.zygote.(flag := CString(pi.cmdline) == ZYGOTE);
          if !pi.zygote.flag {
            pi.zygote := pi.zygote.(checks := 0);
          }
        }
      }
    }

    /** `getProcessInfo`; `a` is what /proc would answer during this call. */
    method GetProcessInfo(pid: u64, check: bool, a: Answer) returns (pi: ProcessInfo)
      requires Valid()
      modifies this, Records()
      ensures Valid()
      ensures View() == Lookup(old(View()), pid, check, a)
      ensures pid in procMap && pi == procMap[pid]
      ensures forall k :: k in old(procMap) ==> k in procMap && procMap[k] == old(procMap)[k]
      ensures fresh(Records() - old(Records()))
      ensures pi.pid == pid % 0x1_0000_0000
    {
      hide Refresh, NextEarliest;
      pi := Reference(pid);
      Update(pi, pid, check, a);
      OneRecordChanged(pid);
    }

    /** In the map view, a change of one record is a change of one entry. */
    twostate lemma OneRecordChanged(pid: u64)
      requires Valid() && old(Valid()) && procMap.Keys == old(procMap).Keys + {pid}
      requires forall k :: k in old(procMap) ==> k in procMap && procMap[k] == old(procMap)[k]
      requires forall k :: k in old(procMap) && k != pid ==> unchanged(procMap[k])
      ensures View().entries == old(View()).entries[pid := procMap[pid].View()]
    {
    }
  }
}

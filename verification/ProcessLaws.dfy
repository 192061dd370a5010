/** What the process cache keeps over any sequence of lookups and any answers of /proc. */
module ProcessLaws {
  import opened Bytes
  import opened ProcessState

  datatype Call = Call(pid: u64, check: bool, answer: Answer)

  /** The cache after a sequence of lookups, starting empty. */
  function Run(calls: seq<Call>): Cache {
    if calls == [] then EMPTY
    else
      var last := calls[|calls| - 1];
      Lookup(Run(calls[..|calls| - 1]), last.pid, last.check, last.answer)
  }

  // ------------------------------------------------------------ load budgets

  /** How many of the lookups of `pid` read /proc. */
  ghost function LoadCount(calls: seq<Call>, pid: u64): nat {
    if calls == [] then 0
    else
      var before, last := calls[..|calls| - 1], calls[|calls| - 1];
      LoadCount(before, pid)
      + var c := Run(before);
        if last.pid == pid && Loads(EntryOf(c, pid), c.earliest, pid, last.check) then 1 else 0
  }

  /** How many of the lookups of `pid` re-read it only because an earlier zygote is known. */
  ghost function LateZygoteCount(calls: seq<Call>, pid: u64): nat {
    if calls == [] then 0
    else
      var before, last := calls[..|calls| - 1], calls[|calls| - 1];
      LateZygoteCount(before, pid)
      + var c := Run(before);
        if last.pid == pid && ZygoteCheck(EntryOf(c, pid), c.earliest, pid, last.check) && pid > c.earliest
        then 1 else 0
  }

  /** Each load is paid by the first look, by a re-check of either kind, or by an earlier zygote. */
  lemma {:induction false} LoadsArePaid(calls: seq<Call>, pid: u64)
    ensures var e := EntryOf(Run(calls), pid);
      && e.loads == LoadCount(calls, pid)
      && (pid in Run(calls).entries <==> e.mode != Unknown)
      && e.loads + e.cmdexe.checks + e.zygote.checks
           + (if e.mode == Unknown then 1 else 0) <= 1 + 2 * 10 + LateZygoteCount(calls, pid)
  {
    if calls != [] {
      LoadsArePaid(calls[..|calls| - 1], pid);
    }
  }

  /** A process is read at most 1 + 10 + 10 times, and once more for each check made while it is a late zygote. */
  lemma {:induction false} LoadBudget(calls: seq<Call>, pid: u64)
    ensures LoadCount(calls, pid) <= 21 + LateZygoteCount(calls, pid)
  {
    LoadsArePaid(calls, pid);
  }

  // --------------------------------------------------------- settled entries

  lemma {:induction false} SettledForever(calls: seq<Call>, more: seq<Call>, pid: u64)
    requires pid in Run(calls).entries && Settled(Run(calls).entries[pid], pid)
    ensures pid in Run(calls + more).entries
    ensures Run(calls + more).entries[pid] == Run(calls).entries[pid]
  {
    if more == [] {
      assert calls + more == calls;
    } else {
      var last := |more| - 1;
      SettledForever(calls, more[..last], pid);
      assert (calls + more)[..|calls + more| - 1] == calls + more[..last];
    }
  }

  ghost predicate Unchangeable(e: Entry, pid: u64) {
    forall c: Cache, check: bool, a: Answer | pid in c.entries && c.entries[pid] == e ::
      EntryOf(Lookup(c, pid, check, a), pid) == e
  }

  /** Settled entries are exactly those that no cache and no answer can change. */
  lemma {:induction false} SettledExactly(e: Entry, pid: u64)
    ensures Settled(e, pid) <==> Unchangeable(e, pid)
  {
    if !Settled(e, pid) {
      var c := Cache(map[pid := e], 0);
      var a := Answer([], true, [], true);
      assert EntryOf(Lookup(c, pid, true, a), pid).loads == e.loads + 1;
    }
  }

  // --------------------------------------------------------- earliest zygote

  /** The pids recorded as zygotes, in order. */
  ghost function Recorded(calls: seq<Call>): seq<u64> {
    if calls == [] then []
    else
      var before, last := calls[..|calls| - 1], calls[|calls| - 1];
      Recorded(before)
      + if Records(EntryOf(Run(before), last.pid), last.check, last.answer) then [last.pid] else []
  }

  /** `e` is the least of `pids`, or zero when there are none. */
  ghost predicate IsLeast(pids: seq<u64>, e: u64) {
    if pids == [] then e == 0 else e in pids && forall p :: p in pids ==> e <= p
  }

  lemma {:induction false} EarliestOfRun(calls: seq<Call>)
    ensures var e, r := Run(calls).earliest, Recorded(calls);
      && (0 !in r ==> IsLeast(r, e))
      && (e == 0 <==> r == [] || r[|r| - 1] == 0)
  {
    if calls != [] {
      EarliestOfRun(calls[..|calls| - 1]);
    }
  }

  /** `earliest_zygote` is the least pid ever recorded exactly when pid 0, which doubles as
      "none yet", was never recorded or was recorded last. */
  lemma {:induction false} EarliestIsLeast(calls: seq<Call>)
    ensures var r := Recorded(calls);
      IsLeast(r, Run(calls).earliest) <==> 0 !in r || r[|r| - 1] == 0
  {
    EarliestOfRun(calls);
    var r := Recorded(calls);
    if 0 in r && r[|r| - 1] == 0 {
      assert 0 in r;
    }
  }

  /** It fails when pid 0 is recorded before another one: here the least pid ever recorded is 0, but the earliest
      zygote is 5. */
  lemma {:induction false} EarliestCanFail() returns (calls: seq<Call>)
    ensures Recorded(calls) == [0, 5] && Run(calls).earliest == 5 && !IsLeast(Recorded(calls), Run(calls).earliest)
  {
    var zygote := Answer(ZYGOTE, false, [], false);
    var first, second := Call(0, true, zygote), Call(5, true, zygote);
    calls := [first, second];
    StrLenUnique(ZYGOTE, 6);
    assert IsZygote(zygote);
    hide IsZygote, StrLen;
    assert [first][..0] == [] && calls[..1] == [first];
    assert Run([]) == EMPTY && Recorded([]) == [];
    assert Recorded([first]) == [0] && Run([first]).earliest == 0;
    assert EntryOf(Run([first]), 5) == FRESH;
    EarliestIsLeast(calls);
    assert Recorded(calls)[0] == 0;
  }

  lemma {:induction false} RecordedGrows(calls: seq<Call>, more: seq<Call>)
    ensures Recorded(calls) <= Recorded(calls + more)
  {
    if more == [] {
      assert calls + more == calls;
    } else {
      var last := |more| - 1;
      RecordedGrows(calls, more[..last]);
      assert (calls + more)[..|calls + more| - 1] == calls + more[..last];
    }
  }

  lemma {:induction false} KeptSmall(calls: seq<Call>, more: seq<Call>)
    requires Run(calls).earliest != 0
    ensures Recorded(calls) <= Recorded(calls + more)
    ensures 0 !in Recorded(calls + more)[|Recorded(calls)|..] ==>
      0 < Run(calls + more).earliest <= Run(calls).earliest
  {
    hide Run, Recorded;
    RecordedGrows(calls, more);
    if more == [] {
      assert calls + more == calls;
    } else {
      var last := |more| - 1;
      var before, call := calls + more[..last], more[last];
      assert calls + more == before + [call];
      RecordedGrows(calls, more[..last]);
      KeptSmall(calls, more[..last]);
      EarliestStep(before, call);
      if 0 !in Recorded(calls + more)[|Recorded(calls)|..] {
        RecordedSince(Recorded(calls), Recorded(before), Recorded(calls + more));
        if Recorded(calls + more) != Recorded(before) {
          assert Recorded(calls + more)[|Recorded(before)|] == call.pid;
        }
      }
    }
  }

  /** The earliest zygote is set and no greater than before, after these further lookups. */
  ghost predicate StaysSmall(calls: seq<Call>, more: seq<Call>) {
    0 < Run(calls + more).earliest <= Run(calls).earliest
  }

  /** Once set, it never grows and is never unset, at no moment of any further lookups, if and only if none of these
      records pid 0. */
  lemma {:induction false} EarliestNeverGrows(calls: seq<Call>, more: seq<Call>)
    requires Run(calls).earliest != 0
    ensures Recorded(calls) <= Recorded(calls + more)
    ensures (forall k :: 0 <= k <= |more| ==> StaysSmall(calls, more[..k]))
      <==> 0 !in Recorded(calls + more)[|Recorded(calls)|..]
  {
    hide Run, Recorded, StaysSmall;
    RecordedGrows(calls, more);
    if 0 !in Recorded(calls + more)[|Recorded(calls)|..] {
      forall k | 0 <= k <= |more|
        ensures StaysSmall(calls, more[..k])
      {
        RecordedGrows(calls, more[..k]);
        RecordedGrows(calls + more[..k], more[k..]);
        assert calls + more[..k] + more[k..] == calls + more;
        RecordedSince(Recorded(calls), Recorded(calls + more[..k]), Recorded(calls + more));
        KeptSmall(calls, more[..k]);
        SmallIs(calls, more[..k]);
      }
    } else if forall k :: 0 <= k <= |more| ==> StaysSmall(calls, more[..k]) {
      NeverZero(calls, more);
    }
  }

  lemma SmallIs(calls: seq<Call>, more: seq<Call>)
    ensures StaysSmall(calls, more) <==> 0 < Run(calls + more).earliest <= Run(calls).earliest
  {
  }

  /** Recording pid 0 unsets it. */
  lemma {:induction false} NeverZero(calls: seq<Call>, more: seq<Call>)
    requires forall k :: 0 <= k <= |more| ==> StaysSmall(calls, more[..k])
    ensures Recorded(calls) <= Recorded(calls + more)
    ensures 0 !in Recorded(calls + more)[|Recorded(calls)|..]
  {
    hide Run, Recorded, StaysSmall;
    RecordedGrows(calls, more);
    assert more[..|more|] == more;
    assert StaysSmall(calls, more[..|more|]);
    SmallIs(calls, more);
    if more == [] {
      assert calls + more == calls;
    } else {
      var last := |more| - 1;
      var before, call := calls + more[..last], more[last];
      assert calls + more == before + [call];
      assert forall k :: 0 <= k <= last ==> more[..last][..k] == more[..k];
      NeverZero(calls, more[..last]);
      EarliestStep(before, call);
      LaterOnes(Recorded(calls), Recorded(before), call.pid);
    }
  }

  lemma LaterOnes(first: seq<u64>, mid: seq<u64>, pid: u64)
    requires first <= mid
    ensures (mid + [pid])[|first|..] == mid[|first|..] + [pid]
  {
  }

  lemma EarliestStep(calls: seq<Call>, call: Call)
    ensures var e, r := Run(calls).earliest, Recorded(calls + [call]);
      && Recorded(calls) <= r
      && (r == Recorded(calls) ==> Run(calls + [call]).earliest == e)
      && (r != Recorded(calls) ==>
            r == Recorded(calls) + [call.pid] && Run(calls + [call]).earliest == Earlier(e, call.pid))
  {
    assert (calls + [call])[..|calls|] == calls;
  }

  /** What was recorded later includes what was recorded a little earlier. */
  lemma RecordedSince(first: seq<u64>, mid: seq<u64>, all: seq<u64>)
    requires first <= mid <= all && 0 !in all[|first|..]
    ensures 0 !in mid[|first|..]
    ensures forall i :: |first| <= i < |all| ==> all[i] != 0
  {
    assert mid[|first|..] == all[|first|..][..|mid| - |first|];
    assert forall i :: |first| <= i < |all| ==> all[i] == all[|first|..][i - |first|];
  }
}

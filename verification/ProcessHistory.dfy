/** What a cached process says about the answers /proc gave: which were read, and what of them is remembered. */
module ProcessHistory {
  import opened Bytes
  import opened Options
  import opened ProcessState
  import opened ProcessLaws

  /** "zygote" */
  predicate NamedZygote(s: seq<byte>) {
    && |s| >= 6 && s[0] == 'z' as int && s[1] == 'y' as int && s[2] == 'g' as int && s[3] == 'o' as int
    && s[4] == 't' as int && s[5] == 'e' as int && (|s| == 6 || s[6] == 0)
  }

  lemma ZygoteIs(a: Answer)
    ensures IsZygote(a) <==> NamedZygote(a.cmdline)
  {
    if IsZygote(a) {
      var s, name := a.cmdline, CString(a.cmdline);
      assert |name| == 6 && forall i :: 0 <= i < 6 ==> s[i] == name[i];
    } else if NamedZygote(a.cmdline) {
      StrLenUnique(a.cmdline, 6);
    }
  }

  /** The lookup of a process with entry `e` reads /proc: at first sight, while a string check is pending, and while it
      is a zygote that is late or has checks left. */
  predicate Reads(e: Entry, earliest: u64, pid: u64, check: bool) {
    || e.mode == Unknown
    || (check && e.cmdexe.flag && e.cmdexe.checks > 0)
    || (check && e.zygote.flag && (pid > earliest || e.zygote.checks > 0))
  }

  /** The answers that were read while `pid` was looked up, in order. */
  ghost function AnswersRead(calls: seq<Call>, pid: u64): seq<Answer> {
    if calls == [] then []
    else
      var before, last := calls[..|calls| - 1], calls[|calls| - 1];
      var c := Run(before);
      AnswersRead(before, pid)
      + if last.pid == pid && Reads(EntryOf(c, pid), c.earliest, pid, last.check) then [last.answer] else []
  }

  predicate Bad(a: Answer) {
    a.cmdlineFailed || a.executableFailed
  }

  /** The latest answer without a failure. */
  ghost function LatestGood(answers: seq<Answer>): Option<Answer> {
    if answers == [] then None
    else if !Bad(answers[|answers| - 1]) then Some(answers[|answers| - 1])
    else LatestGood(answers[..|answers| - 1])
  }

  /** How many answers were read after the first good one. */
  ghost function SinceGood(answers: seq<Answer>): nat {
    if answers == [] || LatestGood(answers[..|answers| - 1]) == None then 0
    else SinceGood(answers[..|answers| - 1]) + 1
  }

  /** One of them failed. */
  ghost predicate FailedSinceGood(answers: seq<Answer>) {
    && answers != [] && LatestGood(answers[..|answers| - 1]) != None
    && (Bad(answers[|answers| - 1]) || FailedSinceGood(answers[..|answers| - 1]))
  }

  /** What an entry remembers of the answers read so far. */
  ghost predicate Remembers(e: Entry, answers: seq<Answer>) {
    && e.loads == |answers|
    && (answers == [] <==> e.mode == Unknown)
    && (answers == [] ==> e == FRESH)
    && (answers != [] ==> Repeats(e, answers[|answers| - 1]))
    && StringChecks(e, answers) && ZygoteChecks(e, answers)
  }

  /** The strings are those of the latest answer, failed or not, and the mode is `Kernel` exactly when both are
      blank. */
  ghost predicate Repeats(e: Entry, latest: Answer) {
    && e.cmdline == latest.cmdline && e.executable == latest.executable
    && e.mode == if Blank(latest.cmdline) && Blank(latest.executable) then Kernel else User
  }

  /** The strings are checked as long as no answer was good, ten times more after the first. */
  ghost predicate StringChecks(e: Entry, answers: seq<Answer>) {
    && (e.cmdexe.flag <==> answers != [] && LatestGood(answers) == None)
    && (e.cmdexe.flag ==> e.loads + e.cmdexe.checks == 11)
    && (LatestGood(answers) != None ==> e.cmdexe.checks == 0)
  }

  /** A process is a zygote when the latest good answer says so; it has ten checks, one less for each answer read
      since the first good one, and none any more after a failed one. */
  ghost predicate ZygoteChecks(e: Entry, answers: seq<Answer>) {
    && (e.zygote.flag <==> LatestGood(answers).Some? && NamedZygote(LatestGood(answers).value.cmdline))
    && (LatestGood(answers) == None ==> e.zygote.checks == 10)
    && (e.zygote.flag ==>
          e.zygote.checks
            == (if FailedSinceGood(answers) || SinceGood(answers) > 10 then 0 else 10 - SinceGood(answers)))
    && (!e.zygote.flag && LatestGood(answers) != None ==> e.zygote.checks == 0)
  }

  lemma LatestGoodSnoc(answers: seq<Answer>, a: Answer)
    ensures LatestGood(answers + [a]) == if Bad(a) then LatestGood(answers) else Some(a)
    ensures SinceGood(answers + [a]) == if LatestGood(answers) == None then 0 else SinceGood(answers) + 1
    ensures FailedSinceGood(answers + [a]) <==> LatestGood(answers) != None && (Bad(a) || FailedSinceGood(answers))
  {
    assert (answers + [a])[..|answers|] == answers;
  }

  /** A lookup reads the answer or leaves the entry alone. */
  lemma LookupRemembers(e: Entry, earliest: u64, pid: u64, check: bool, a: Answer, answers: seq<Answer>)
    requires Remembers(e, answers)
    ensures
      var after := Refresh(e, earliest, pid, check, a);
      if Reads(e, earliest, pid, check) then Remembers(after, answers + [a]) else after == e
  {
    hide LatestGood, SinceGood, FailedSinceGood, IsZygote, NamedZygote, CString;
    LatestGoodSnoc(answers, a);
    ZygoteIs(a);
    BlankIs(a.cmdline);
    BlankIs(a.executable);
    NoneYet();
  }

  lemma NoneYet()
    ensures LatestGood([]) == None && SinceGood([]) == 0 && !FailedSinceGood([])
  {
  }

  /** Over any lookups and any answers, an entry remembers exactly the answers that were read: the latest strings, the
      mode that follows from them, and how many checks of each kind are left. */
  lemma {:induction false} AlwaysRemembers(calls: seq<Call>, pid: u64)
    ensures Remembers(EntryOf(Run(calls), pid), AnswersRead(calls, pid))
  {
    hide Remembers, Refresh, Reads;
    if calls == [] {
      FreshRemembers();
    } else {
      var before, last := calls[..|calls| - 1], calls[|calls| - 1];
      AlwaysRemembers(before, pid);
      assert AnswersRead(before, pid) + [] == AnswersRead(before, pid);
      if last.pid == pid {
        var c := Run(before);
        LookupRemembers(EntryOf(c, pid), c.earliest, pid, last.check, last.answer, AnswersRead(before, pid));
      }
    }
  }

  lemma FreshRemembers()
    ensures Remembers(FRESH, [])
  {
  }

  /** A process is recorded as a zygote when an answer read at first sight or by a string check is good and says so; of
      the recorded ones the earliest is kept, where 0 means none. */
  lemma {:induction false} RecordsExactly(c: Cache, pid: u64, check: bool, a: Answer)
    ensures var e := EntryOf(c, pid);
      Lookup(c, pid, check, a).earliest ==
        if (e.mode == Unknown || (check && e.cmdexe.flag && e.cmdexe.checks > 0)) && !Bad(a) && NamedZygote(a.cmdline)
        then (if c.earliest == 0 || pid < c.earliest then pid else c.earliest)
        else c.earliest
  {
    hide CString, NamedZygote, IsZygote;
    ZygoteIs(a);
  }

  /** As long as no answer was good, a checked lookup tries again, ten times after the first. */
  lemma {:induction false} StringsCheckedAgain(calls: seq<Call>, pid: u64, a: Answer)
    requires EntryOf(Run(calls), pid).cmdexe.flag
    ensures EntryOf(Run(calls), pid).loads + EntryOf(Run(calls), pid).cmdexe.checks == 11
    ensures EntryOf(Run(calls), pid).loads < 11 ==>
      var after := EntryOf(Run(calls + [Call(pid, true, a)]), pid);
      && after.cmdline == a.cmdline && after.executable == a.executable
      && after.loads == EntryOf(Run(calls), pid).loads + 1 && (after.cmdexe.flag <==> Bad(a))
  {
    hide LatestGood, SinceGood, FailedSinceGood, Refresh, Reads, CString;
    var c := Run(calls);
    AlwaysRemembers(calls, pid);
    LookupRemembers(EntryOf(c, pid), c.earliest, pid, true, a, AnswersRead(calls, pid));
    LatestGoodSnoc(AnswersRead(calls, pid), a);
    RunSnoc(calls, Call(pid, true, a));
    PendingReads(EntryOf(c, pid), c.earliest, pid);
  }

  lemma PendingReads(e: Entry, earliest: u64, pid: u64)
    ensures e.cmdexe.flag && e.cmdexe.checks > 0 ==> Reads(e, earliest, pid, true)
    ensures e.zygote.flag && (pid > earliest || e.zygote.checks > 0) ==> Reads(e, earliest, pid, true)
  {
  }

  lemma RunSnoc(calls: seq<Call>, call: Call)
    ensures Run(calls + [call]) == Lookup(Run(calls), call.pid, call.check, call.answer)
  {
    assert (calls + [call])[..|calls|] == calls;
  }

  /** A zygote is checked again by a checked lookup whenever an earlier zygote is known, and otherwise ten times after
      it was identified, unless one of these checks failed. */
  lemma {:induction false} ZygoteCheckedAgain(calls: seq<Call>, pid: u64, a: Answer)
    requires EntryOf(Run(calls), pid).zygote.flag
    requires var answers := AnswersRead(calls, pid);
      pid > Run(calls).earliest || (SinceGood(answers) < 10 && !FailedSinceGood(answers))
    ensures var after := EntryOf(Run(calls + [Call(pid, true, a)]), pid);
      && after.cmdline == a.cmdline && after.executable == a.executable
      && after.loads == EntryOf(Run(calls), pid).loads + 1
      && (after.zygote.flag <==> Bad(a) || NamedZygote(a.cmdline))
  {
    hide LatestGood, SinceGood, FailedSinceGood, Refresh, Reads, CString, NamedZygote;
    var c := Run(calls);
    AlwaysRemembers(calls, pid);
    LookupRemembers(EntryOf(c, pid), c.earliest, pid, true, a, AnswersRead(calls, pid));
    LatestGoodSnoc(AnswersRead(calls, pid), a);
    RunSnoc(calls, Call(pid, true, a));
    PendingReads(EntryOf(c, pid), c.earliest, pid);
  }
}

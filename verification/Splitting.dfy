/** What the splitter writes for a stream of packets, as a state machine over values. */
module Splitting {
  import opened Bytes
  import opened SampleBuffer
  import opened Wire
  import opened Options

  const CORES := 16

  /** One record of a process's file. */
  datatype Line =
    | Title(cmdline: seq<byte>, exe: seq<byte>)
    | Row(cycles: u32, counters: Counters)
    | Separator

  /** A process's file and the strings its index entry would show. */
  datatype File = File(lines: seq<Line>, cmdline: seq<byte>, exe: seq<byte>)

  type Files = map<u32, File>

  /** All files, and for each core the process of its latest packet. */
  datatype Split = Split(files: Files, last: seq<Option<u32>>)

  const NOWHERE: seq<Option<u32>> :=
    [None, None, None, None, None, None, None, None, None, None, None, None, None, None, None, None]

  const EMPTY := Split(map[], NOWHERE)

  function RowOf(s: Sample): Line {
    Row(Low32(s.cycles), s.counters)
  }

  function RowsOf(ss: seq<Sample>): (rows: seq<Line>)
    ensures |rows| == |ss|
  {
    seq(|ss|, i requires 0 <= i < |ss| => RowOf(ss[i]))
  }

  function AddLines(files: Files, pid: u32, lines: seq<Line>): Files {
    if pid in files then files[pid := files[pid].(lines := files[pid].lines + lines)] else files
  }

  /** The files after a core that was at `last` turns to `pid`: the file it leaves gets a separator, a new
      file gets its title, and the strings of `pid` are brought up to date. */
  function TurnTo(files: Files, last: Option<u32>, pid: u32, cmdline: seq<byte>, exe: seq<byte>): Files {
    var left := if last.Some? && last.value != pid then AddLines(files, last.value, [Separator]) else files;
    left[pid := File(if pid in files then files[pid].lines else [Title(cmdline, exe)], cmdline, exe)]
  }

  /** A packet of core 17 or more is skipped; core 16 aborts the program, see `BeforeAbort`. */
  function Deliver(st: Split, p: Packet): Split
    requires |st.last| == CORES
  {
    var core, pid := p.header.core, p.header.pid;
    if core >= CORES then st
    else
      var files := TurnTo(st.files, st.last[core], pid, p.cmdline, p.exe);
      Split(AddLines(files, pid, RowsOf(p.samples)), st.last[core := Some(pid)])
  }

  function DeliverAll(ps: seq<Packet>): (st: Split)
    ensures |st.last| == CORES
  {
    if ps == [] then EMPTY else Deliver(DeliverAll(ps[..|ps| - 1]), ps[|ps| - 1])
  }

  /** The packets up to the first one of core 16, which passes the guard and trips the assertion. */
  function BeforeAbort(ps: seq<Packet>): seq<Packet> {
    if ps == [] || ps[0].header.core == CORES then [] else [ps[0]] + BeforeAbort(ps[1..])
  }

  ghost predicate NoneAborts(ps: seq<Packet>) {
    forall i :: 0 <= i < |ps| ==> ps[i].header.core != CORES
  }

  lemma {:induction false} NothingAborts(ps: seq<Packet>)
    requires NoneAborts(ps)
    ensures BeforeAbort(ps) == ps
  {
    if ps != [] {
      NothingAborts(ps[1..]);
    }
  }

  lemma {:induction false} NothingAborted(ps: seq<Packet>)
    requires BeforeAbort(ps) == ps
    ensures NoneAborts(ps)
  {
    if ps != [] {
      assert BeforeAbort(ps)[1..] == BeforeAbort(ps[1..]);
      NothingAborted(ps[1..]);
      forall i | 0 <= i < |ps|
        ensures ps[i].header.core != CORES
      {
        assert i > 0 ==> ps[i] == ps[1..][i - 1];
      }
    }
  }

  lemma AbortExactly(ps: seq<Packet>)
    ensures BeforeAbort(ps) == ps <==> NoneAborts(ps)
  {
    if BeforeAbort(ps) == ps {
      NothingAborted(ps);
    } else if NoneAborts(ps) {
      NothingAborts(ps);
    }
  }

  lemma {:induction false} AbortIsPrefix(ps: seq<Packet>)
    ensures BeforeAbort(ps) <= ps
  {
    if ps != [] && ps[0].header.core != CORES {
      AbortIsPrefix(ps[1..]);
    }
  }

  lemma {:induction false} AbortAfter(done: seq<Packet>, rest: seq<Packet>)
    requires NoneAborts(done)
    ensures BeforeAbort(done + rest) == done + BeforeAbort(rest)
  {
    if done == [] {
      assert done + rest == rest;
    } else {
      AbortAfter(done[1..], rest);
      assert (done + rest)[1..] == done[1..] + rest;
    }
  }

  lemma {:induction false} AbortStays(ps: seq<Packet>, more: seq<Packet>)
    requires !NoneAborts(ps)
    ensures BeforeAbort(ps + more) == BeforeAbort(ps)
  {
    if ps[0].header.core != CORES {
      assert (ps + more)[1..] == ps[1..] + more;
      assert ps == [ps[0]] + ps[1..];
      AbortStays(ps[1..], more);
    }
  }

  lemma DeliverAllSnoc(ps: seq<Packet>, p: Packet)
    ensures DeliverAll(ps + [p]) == Deliver(DeliverAll(ps), p)
  {
    assert (ps + [p])[..|ps|] == ps;
  }

  // ------------------------------------------------------------- independent views

  ghost predicate Goes(p: Packet, pid: u32) {
    p.header.core < CORES && p.header.pid == pid
  }

  /** The rows all packets of a process hold, in the order of the stream. */
  ghost function ExpectedRows(ps: seq<Packet>, pid: u32): seq<Line> {
    if ps == [] then []
    else
      var p := ps[|ps| - 1];
      ExpectedRows(ps[..|ps| - 1], pid) + if Goes(p, pid) then RowsOf(p.samples) else []
  }

  /** The rows among the lines of a file. */
  ghost function RowsIn(lines: seq<Line>): seq<Line> {
    if lines == [] then []
    else RowsIn(lines[..|lines| - 1]) + if lines[|lines| - 1].Row? then [lines[|lines| - 1]] else []
  }

  ghost function Separators(lines: seq<Line>): nat {
    if lines == [] then 0
    else Separators(lines[..|lines| - 1]) + if lines[|lines| - 1].Separator? then 1 else 0
  }

  /** The process of the latest packet of a core. */
  ghost function LastOn(ps: seq<Packet>, core: nat): Option<u32> {
    if ps == [] then None
    else if ps[|ps| - 1].header.core == core then Some(ps[|ps| - 1].header.pid)
    else LastOn(ps[..|ps| - 1], core)
  }

  /** How often a core turns from `pid` to another process. */
  ghost function TurnsAway(ps: seq<Packet>, pid: u32): nat {
    if ps == [] then 0
    else
      var before, p := ps[..|ps| - 1], ps[|ps| - 1];
      TurnsAway(before, pid)
      + if p.header.core < CORES && p.header.pid != pid && LastOn(before, p.header.core) == Some(pid) then 1 else 0
  }

  ghost function LinesOf(ps: seq<Packet>, pid: u32): seq<Line> {
    LinesIn(DeliverAll(ps).files, pid)
  }

  ghost function LinesIn(files: Files, pid: u32): seq<Line> {
    if pid in files then files[pid].lines else []
  }

  // ---------------------------------------------------------------------- one step

  lemma {:induction false} RowsInAppend(a: seq<Line>, b: seq<Line>)
    ensures RowsIn(a + b) == RowsIn(a) + RowsIn(b)
  {
    if b == [] {
      assert a + b == a;
    } else {
      RowsInAppend(a, b[..|b| - 1]);
      assert (a + b)[..|a + b| - 1] == a + b[..|b| - 1];
    }
  }

  lemma {:induction false} SeparatorsAppend(a: seq<Line>, b: seq<Line>)
    ensures Separators(a + b) == Separators(a) + Separators(b)
  {
    if b == [] {
      assert a + b == a;
    } else {
      SeparatorsAppend(a, b[..|b| - 1]);
      assert (a + b)[..|a + b| - 1] == a + b[..|b| - 1];
    }
  }

  lemma {:induction false} AllRows(rows: seq<Line>)
    requires forall i :: 0 <= i < |rows| ==> rows[i].Row?
    ensures RowsIn(rows) == rows && Separators(rows) == 0
  {
    if rows != [] {
      AllRows(rows[..|rows| - 1]);
    }
  }

  /** What a packet adds to the file of `pid`. */
  ghost function Added(st: Split, p: Packet, pid: u32): seq<Line>
    requires |st.last| == CORES
  {
    if p.header.core >= CORES then []
    else if p.header.pid == pid then
      (if pid in st.files then [] else [Title(p.cmdline, p.exe)]) + RowsOf(p.samples)
    else if st.last[p.header.core] == Some(pid) then [Separator] else []
  }

  /** Every core is at a process that has a file. */
  ghost predicate CoresKnown(st: Split) {
    |st.last| == CORES && forall c :: 0 <= c < CORES && st.last[c].Some? ==> st.last[c].value in st.files
  }

  /** Files only grow. */
  lemma DeliverAdds(st: Split, p: Packet, pid: u32)
    requires CoresKnown(st)
    ensures LinesIn(Deliver(st, p).files, pid) == LinesIn(st.files, pid) + Added(st, p, pid)
    ensures CoresKnown(Deliver(st, p))
  {
    hide RowsOf;
    assert LinesIn(st.files, pid) + [] == LinesIn(st.files, pid);
  }

  lemma {:induction false} CoresAlwaysKnown(ps: seq<Packet>)
    ensures CoresKnown(DeliverAll(ps))
  {
    if ps != [] {
      CoresAlwaysKnown(ps[..|ps| - 1]);
      DeliverAdds(DeliverAll(ps[..|ps| - 1]), ps[|ps| - 1], 0);
    }
  }

  lemma Step(ps: seq<Packet>, p: Packet, pid: u32)
    ensures LinesOf(ps + [p], pid) == LinesOf(ps, pid) + Added(DeliverAll(ps), p, pid)
  {
    hide Deliver, Added, LinesIn, DeliverAll;
    DeliverAllSnoc(ps, p);
    CoresAlwaysKnown(ps);
    DeliverAdds(DeliverAll(ps), p, pid);
  }

  // --------------------------------------------------------------------- whole streams

  /** The splitter invariant over every stream and all cores: each core is where its latest packet put it. */
  lemma {:induction false} CoreFollowsStream(ps: seq<Packet>, core: nat)
    requires core < CORES
    ensures DeliverAll(ps).last[core] == LastOn(ps, core)
  {
    if ps != [] {
      CoreFollowsStream(ps[..|ps| - 1], core);
    }
  }

  /** A file's rows are exactly its process's samples, in the order of the stream. */
  lemma {:induction false} FileRows(ps: seq<Packet>, pid: u32)
    ensures RowsIn(LinesOf(ps, pid)) == ExpectedRows(ps, pid)
  {
    hide LinesOf, Added, Goes;
    if ps == [] {
      assert LinesOf(ps, pid) == [] by { EmptyStream(pid); }
    } else {
      var before, p := ps[..|ps| - 1], ps[|ps| - 1];
      FileRows(before, pid);
      Step(before, p, pid);
      assert before + [p] == ps;
      RowsInAppend(LinesOf(before, pid), Added(DeliverAll(before), p, pid));
      AddedLines(DeliverAll(before), p, pid);
    }
  }

  /** These lines are rows that show these samples: the lowest 32 bits of the cycles, and the counters. */
  ghost predicate RowsShow(rows: seq<Line>, ss: seq<Sample>) {
    && |rows| == |ss|
    && forall k :: 0 <= k < |rows| ==>
         && rows[k].Row? && rows[k].counters == ss[k].counters
         && rows[k].cycles == ss[k].cycles % 0x1_0000_0000
  }

  lemma RowsOfShow(ss: seq<Sample>)
    ensures RowsShow(RowsOf(ss), ss)
  {
  }

  lemma RowsShowAppend(a: seq<Line>, b: seq<Line>, ss: seq<Sample>, ts: seq<Sample>)
    requires RowsShow(a, ss) && RowsShow(b, ts)
    ensures RowsShow(a + b, ss + ts)
  {
  }

  /** The samples of a process in the packets of the sixteen cores, in the order of the stream. */
  ghost function SamplesFor(ps: seq<Packet>, pid: u32): seq<Sample> {
    if ps == [] then []
    else
      var p := ps[|ps| - 1];
      SamplesFor(ps[..|ps| - 1], pid) + if p.header.core < 16 && p.header.pid == pid then p.samples else []
  }

  lemma {:induction false} ExpectedRowsShow(ps: seq<Packet>, pid: u32)
    ensures RowsShow(ExpectedRows(ps, pid), SamplesFor(ps, pid))
  {
    hide RowsOf, RowsShow;
    RowsOfShow([]);
    assert RowsOf([]) == [];
    if ps != [] {
      var p := ps[|ps| - 1];
      ExpectedRowsShow(ps[..|ps| - 1], pid);
      RowsOfShow(p.samples);
      RowsShowAppend(ExpectedRows(ps[..|ps| - 1], pid), if Goes(p, pid) then RowsOf(p.samples) else [],
                     SamplesFor(ps[..|ps| - 1], pid), if Goes(p, pid) then p.samples else []);
    }
  }

  /** What is in a file's rows: row for row the samples of its process, cycles and counters each in their place. */
  lemma {:induction false} FileShows(ps: seq<Packet>, pid: u32)
    ensures RowsShow(RowsIn(LinesOf(ps, pid)), SamplesFor(ps, pid))
  {
    FileRows(ps, pid);
    ExpectedRowsShow(ps, pid);
  }

  /** A file's title shows the strings of its process's first packet. */
  lemma {:induction false} TitleStrings(ps: seq<Packet>, i: nat, pid: u32)
    requires i < |ps| && Goes(ps[i], pid)
    requires forall k :: 0 <= k < i ==> !Goes(ps[k], pid)
    ensures LinesOf(ps, pid) != [] && LinesOf(ps, pid)[0] == Title(ps[i].cmdline, ps[i].exe)
  {
    hide LinesOf, DeliverAll, Goes;
    var before, p := ps[..|ps| - 1], ps[|ps| - 1];
    assert before + [p] == ps;
    Step(before, p, pid);
    if i < |ps| - 1 {
      TitleStrings(before, i, pid);
    } else {
      FileOpened(before, pid);
      NotOpened(before, p, pid);
    }
  }

  lemma NotOpened(before: seq<Packet>, p: Packet, pid: u32)
    requires pid !in DeliverAll(before).files && Goes(p, pid)
    ensures LinesOf(before, pid) == []
    ensures Added(DeliverAll(before), p, pid) == [Title(p.cmdline, p.exe)] + RowsOf(p.samples)
  {
    hide RowsOf, DeliverAll;
  }

  /** A file's separators count how often a core turned from its process to another one. */
  lemma {:induction false} FileSeparators(ps: seq<Packet>, pid: u32)
    ensures Separators(LinesOf(ps, pid)) == TurnsAway(ps, pid)
  {
    hide LinesOf, Added, DeliverAll, LastOn;
    if ps == [] {
      assert LinesOf(ps, pid) == [] by { EmptyStream(pid); }
    } else {
      var before, p := ps[..|ps| - 1], ps[|ps| - 1];
      FileSeparators(before, pid);
      Step(before, p, pid);
      assert before + [p] == ps;
      SeparatorsAppend(LinesOf(before, pid), Added(DeliverAll(before), p, pid));
      AddedLines(DeliverAll(before), p, pid);
      if p.header.core < CORES {
        CoreFollowsStream(before, p.header.core);
      }
    }
  }

  lemma EmptyStream(pid: u32)
    ensures LinesOf([], pid) == []
  {
  }

  ghost predicate OpenedOnce(lines: seq<Line>) {
    lines != [] && lines[0].Title? && forall i :: 1 <= i < |lines| ==> !lines[i].Title?
  }

  /** What a packet adds opens the file of its process, when there is none, and only then. */
  lemma AddedTitle(st: Split, p: Packet, pid: u32)
    requires CoresKnown(st)
    ensures pid in st.files && OpenedOnce(LinesIn(st.files, pid)) ==>
      OpenedOnce(LinesIn(st.files, pid) + Added(st, p, pid))
    ensures pid !in st.files && Goes(p, pid) ==> OpenedOnce(LinesIn(st.files, pid) + Added(st, p, pid))
  {
    var lines, added, rows := LinesIn(st.files, pid), Added(st, p, pid), RowsOf(p.samples);
    assert forall i :: 0 <= i < |rows| ==> rows[i].Row?;
    if pid in st.files {
      assert forall i :: 0 <= i < |added| ==> !added[i].Title?;
    } else {
      assert lines == [] && lines + added == added;
    }
  }

  /** Exactly the processes with a packet have a file, and each was opened once, with the title in front. */
  lemma {:induction false} FileOpened(ps: seq<Packet>, pid: u32)
    ensures pid in DeliverAll(ps).files <==> exists i :: 0 <= i < |ps| && Goes(ps[i], pid)
    ensures pid in DeliverAll(ps).files ==> OpenedOnce(LinesOf(ps, pid))
  {
    hide Deliver, Added, LinesIn, OpenedOnce, CoresKnown, Goes;
    if ps != [] {
      var before, p := ps[..|ps| - 1], ps[|ps| - 1];
      FileOpened(before, pid);
      CoresAlwaysKnown(before);
      Step(before, p, pid);
      AddedTitle(DeliverAll(before), p, pid);
      KnownAfter(before, p, pid);
      assert before + [p] == ps;
      assert Goes(p, pid) ==> Goes(ps[|ps| - 1], pid);
      if i :| 0 <= i < |before| && Goes(before[i], pid) {
        assert Goes(ps[i], pid);
      }
    } else {
      assert pid !in DeliverAll(ps).files;
    }
  }

  lemma OneLine(line: Line)
    ensures RowsIn([line]) == if line.Row? then [line] else []
    ensures Separators([line]) == if line.Separator? then 1 else 0
  {
    assert [line][..0] == [];
  }

  lemma TitledRows(front: seq<Line>, rows: seq<Line>)
    requires RowsIn(front) == [] && Separators(front) == 0
    requires forall i :: 0 <= i < |rows| ==> rows[i].Row?
    ensures RowsIn(front + rows) == rows && Separators(front + rows) == 0
  {
    hide RowsIn, Separators;
    AllRows(rows);
    RowsInAppend(front, rows);
    SeparatorsAppend(front, rows);
  }

  lemma AddedLines(st: Split, p: Packet, pid: u32)
    requires |st.last| == CORES
    ensures RowsIn(Added(st, p, pid)) == if Goes(p, pid) then RowsOf(p.samples) else []
    ensures Separators(Added(st, p, pid)) ==
      if p.header.core < CORES && p.header.pid != pid && st.last[p.header.core] == Some(pid) then 1 else 0
  {
    hide RowsIn, Separators;
    var title := Title(p.cmdline, p.exe);
    NoLines();
    OneLine(Separator);
    OneLine(title);
    TitledRows([], RowsOf(p.samples));
    TitledRows([title], RowsOf(p.samples));
  }

  lemma NoLines()
    ensures RowsIn([]) == [] && Separators([]) == 0
  {
  }

  lemma KnownAfter(ps: seq<Packet>, p: Packet, pid: u32)
    ensures pid in DeliverAll(ps + [p]).files <==> pid in DeliverAll(ps).files || Goes(p, pid)
  {
    DeliverAllSnoc(ps, p);
    Step(ps, p, pid);
  }

  /** There is a separator among the lines from `from` on. */
  ghost predicate SeparatedFrom(lines: seq<Line>, from: nat) {
    exists n :: from <= n < |lines| && lines[n] == Separator
  }

  lemma StaysSeparated(lines: seq<Line>, more: seq<Line>, from: nat)
    ensures SeparatedFrom(lines, from) ==> SeparatedFrom(lines + more, from)
    ensures from <= |lines| && more == [Separator] ==> SeparatedFrom(lines + more, from)
  {
    if n :| from <= n < |lines| && lines[n] == Separator {
      assert (lines + more)[n] == Separator;
    }
    if from <= |lines| && more == [Separator] {
      assert (lines + more)[|lines|] == Separator;
    }
  }

  lemma TurnAdds(st: Split, p: Packet, pid: u32)
    requires |st.last| == CORES
    requires p.header.core < CORES && p.header.pid != pid && st.last[p.header.core] == Some(pid)
    ensures Added(st, p, pid) == [Separator]
  {
  }

  /** Between two packets of a process on one core with another process's packet on that core in between,
      the file has a separator. */
  lemma {:induction false} VisitsAreSeparated(ps: seq<Packet>, i: nat, j: nat, k: nat, core: nat, pid: u32)
    requires i < j < k <= |ps| && core < CORES
    requires ps[i].header.core == ps[j].header.core == core
    requires ps[i].header.pid == pid != ps[j].header.pid
    ensures var first, upTo := LinesOf(ps[..i + 1], pid), LinesOf(ps[..k], pid);
      first <= upTo && SeparatedFrom(upTo, |first|)
    decreases k
  {
    hide LinesOf, DeliverAll, Added, SeparatedFrom;
    var before, p := ps[..k - 1], ps[k - 1];
    assert ps[..k] == before + [p];
    Step(before, p, pid);
    var first := LinesOf(ps[..i + 1], pid);
    StaysSeparated(LinesOf(before, pid), Added(DeliverAll(before), p, pid), |first|);
    if j < k - 1 {
      VisitsAreSeparated(ps, i, j, k - 1, core, pid);
    } else {
      StaysOrSeparated(ps, i, j, core, pid);
      if DeliverAll(before).last[core] == Some(pid) {
        TurnAdds(DeliverAll(before), p, pid);
      }
    }
  }

  lemma {:induction false} StaysOrSeparated(ps: seq<Packet>, i: nat, j: nat, core: nat, pid: u32)
    requires i < j <= |ps| && core < CORES
    requires ps[i].header.core == core && ps[i].header.pid == pid
    ensures var first, upTo := LinesOf(ps[..i + 1], pid), LinesOf(ps[..j], pid);
      first <= upTo && (DeliverAll(ps[..j]).last[core] == Some(pid) || SeparatedFrom(upTo, |first|))
    decreases j
  {
    hide LinesOf, DeliverAll, Added, SeparatedFrom;
    var before, p := ps[..j - 1], ps[j - 1];
    assert ps[..j] == before + [p];
    DeliverAllSnoc(before, p);
    if i < j - 1 {
      StaysOrSeparated(ps, i, j - 1, core, pid);
      Step(before, p, pid);
      StaysSeparated(LinesOf(before, pid), Added(DeliverAll(before), p, pid), |LinesOf(ps[..i + 1], pid)|);
      if p.header.core == core && p.header.pid != pid && DeliverAll(before).last[core] == Some(pid) {
        TurnAdds(DeliverAll(before), p, pid);
      }
    }
  }

  /** The index shows the strings of the latest packet of the process. */
  lemma {:induction false} IndexStrings(ps: seq<Packet>, i: nat, pid: u32)
    requires i < |ps| && Goes(ps[i], pid)
    requires forall k :: i < k < |ps| ==> !Goes(ps[k], pid)
    ensures pid in DeliverAll(ps).files
    ensures DeliverAll(ps).files[pid].cmdline == ps[i].cmdline && DeliverAll(ps).files[pid].exe == ps[i].exe
  {
    if i < |ps| - 1 {
      IndexStrings(ps[..|ps| - 1], i, pid);
    }
  }
}

/** reader/splitter_reader.cpp: sixteen cores with cursors into one shared map of open files. */
module Splitter {
  import opened Bytes
  import opened SampleBuffer
  import opened Wire
  import opened Splitting
  import opened Options

  /** A `FILE*` opened for one process. */
  class OutFile {
    ghost const pid: u32
    var lines: seq<Line>
    var open: bool

    constructor (pid: u32)
      ensures this.pid == pid && lines == [] && open
    {
      this.pid := pid;
      lines, open := [], true;
    }
  }

  datatype FileInfo = FileInfo(f: OutFile?, pid: u32, exe: seq<byte>, cmdline: seq<byte>)

  datatype IndexLine = IndexLine(pid: u32, cmdline: seq<byte>, exe: seq<byte>)

  /** The files after the strings of a process were brought up to date. */
  ghost function Noted(files: Files, pid: u32, cmdline: seq<byte>, exe: seq<byte>): Files {
    if pid in files then files[pid := File(files[pid].lines, cmdline, exe)] else files
  }

  /** The static members of `CoreOutput`. `files` repeats which file each process was given,
      and `streams` is the set of these files. */
  class Shared {
    var pidFiles: map<u32, FileInfo>
    var index: seq<IndexLine>
    ghost var files: map<u32, OutFile>
    ghost var streams: set<OutFile>

    /** Every opened file is in the map; other entries have no file yet. */
    ghost predicate Consistent()
      reads this
    {
      && (forall k :: k in files ==>
            files[k] in streams && k in pidFiles && pidFiles[k].f == files[k] && pidFiles[k].pid == files[k].pid == k)
      && (forall k :: k in pidFiles && k !in files ==> pidFiles[k].f == null)
    }

    ghost predicate Valid()
      reads this
    {
      Consistent() && pidFiles.Keys == files.Keys
    }

    ghost function View(): Files
      requires Consistent()
      reads this, streams
      ensures View().Keys == files.Keys
    {
      map k | k in files :: File(files[k].lines, pidFiles[k].cmdline, pidFiles[k].exe)
    }

    /** What is in the files. */
    function Disk(): (disk: map<u32, seq<Line>>)
      requires Valid()
      reads this, streams
      ensures disk.Keys == View().Keys && forall k :: k in disk ==> disk[k] == View()[k].lines
    {
      map k | k in pidFiles :: pidFiles[k].f.lines
    }

    constructor ()
      ensures Valid() && View() == map[] && index == [] && files == map[] && streams == {}
    {
      pidFiles, index, files, streams := map[], [], map[], {};
    }

    lemma ViewAt()
      requires Consistent()
      ensures forall k :: k in files ==> View()[k] == File(files[k].lines, pidFiles[k].cmdline, pidFiles[k].exe)
    {
    }

    lemma ViewIs(want: Files)
      requires Consistent() && want.Keys == files.Keys
      requires forall k :: k in files ==> want[k] == File(files[k].lines, pidFiles[k].cmdline, pidFiles[k].exe)
      ensures View() == want
    {
    }

    /** `pid_files[pid]`, which adds an entry without a file for a new process, and the update of its strings. */
    method Note(pid: u32, cmdline: seq<byte>, exe: seq<byte>)
      requires Valid()
      modifies this`pidFiles
      ensures Consistent() && pidFiles.Keys == files.Keys + {pid}
      ensures pidFiles[pid].f == if pid in files then files[pid] else null
      ensures View() == Noted(old(View()), pid, cmdline, exe)
    {
      hide View, Consistent, Noted;
      ghost var before, was := pidFiles, View();
      ViewAt();
      EntryAt();
      var currInfo := if pid in pidFiles then pidFiles[pid] else FileInfo(null, 0, [], []);
      currInfo := currInfo.(cmdline := cmdline);
      currInfo := currInfo.(exe := exe);
      pidFiles := pidFiles[pid := currInfo];
      EntryChanged(before, was, pid, currInfo);
    }

    lemma EntryAt()
      requires Consistent()
      ensures forall k :: k in files ==>
        files[k] in streams && k in pidFiles && pidFiles[k].f == files[k] && pidFiles[k].pid == files[k].pid == k
    {
    }

    lemma EntryChanged(before: map<u32, FileInfo>, was: Files, pid: u32, info: FileInfo)
      requires pidFiles == before[pid := info] && before.Keys == was.Keys == files.Keys
      requires forall k :: k in files ==>
        && files[k] in streams && before[k].f == files[k] && before[k].pid == files[k].pid == k
        && was[k] == File(files[k].lines, before[k].cmdline, before[k].exe)
      requires info.f == if pid in files then files[pid] else null
      requires pid in files ==> info.pid == pid
      ensures Consistent() && View() == Noted(was, pid, info.cmdline, info.exe)
      ensures pidFiles.Keys == files.Keys + {pid}
    {
    }

    /** A new file for `pid`, with its title. */
    method OpenFile(pid: u32, cmdline: seq<byte>, exe: seq<byte>) returns (f: OutFile)
      requires Consistent() && pid !in files
      modifies this`pidFiles, this`files, this`streams
      ensures Consistent() && fresh(f) && files == old(files)[pid := f] && streams == old(streams) + {f}
      ensures pidFiles.Keys == old(pidFiles.Keys) + {pid}
      ensures View() == old(View())[pid := File([Title(cmdline, exe)], cmdline, exe)]
    {
      hide View;
      ghost var want := View()[pid := File([Title(cmdline, exe)], cmdline, exe)];
      ViewAt();
      f := new OutFile(pid);
      pidFiles := pidFiles[pid := FileInfo(f, pid, exe, cmdline)];
      files, streams := files[pid := f], streams + {f};
      f.lines := f.lines + [Title(cmdline, exe)];
      assert f.lines == [Title(cmdline, exe)];
      ViewIs(want);
    }

    /** The file of a process whose entry is there already; it is opened when there is none. */
    method FileFor(pid: u32, cmdline: seq<byte>, exe: seq<byte>) returns (f: OutFile)
      requires Consistent() && pidFiles.Keys == files.Keys + {pid}
      requires pidFiles[pid].f == if pid in files then files[pid] else null
      modifies this`pidFiles, this`files, this`streams
      ensures Valid() && pid in files && f == files[pid]
      ensures View() == if pid in old(files) then old(View())
                        else old(View())[pid := File([Title(cmdline, exe)], cmdline, exe)]
      ensures forall k :: k in old(files) ==> k in files && files[k] == old(files[k])
      ensures fresh(streams - old(streams))
    {
      hide View, Consistent;
      var known := pidFiles[pid].f;
      if known == null {
        f := OpenFile(pid, cmdline, exe);
      } else {
        f := known;
        assert pidFiles.Keys == files.Keys;
      }
    }

    lemma FileIsStream(pid: u32)
      requires Consistent() && pid in files
      ensures files[pid] in streams
    {
    }

    /** Appending to one file changes nothing else. */
    lemma OneFileGrew(was: Files, pid: u32, lines: seq<Line>)
      requires Consistent() && pid in files && was.Keys == files.Keys
      requires forall k :: k in files ==>
        && was[k].cmdline == pidFiles[k].cmdline && was[k].exe == pidFiles[k].exe
        && files[k].lines == if k == pid then was[k].lines + lines else was[k].lines
      ensures View() == AddLines(was, pid, lines)
    {
    }

    /** `FileInfo::close` for one entry. */
    method CloseFile(pid: u32, ghost f: OutFile)
      requires Valid() && pid in files && f == files[pid]
      modifies this`index, f`open
      ensures index == old(index) + [IndexLine(pid, View()[pid].cmdline, View()[pid].exe)]
      ensures !f.open && Valid() && View() == old(View())
    {
      var p := pidFiles[pid];
      index := index + [IndexLine(p.pid, p.cmdline, p.exe)];
      p.f.open := false;
    }

    /** Part of `closeAll` is done: the files of all but `todo` are closed and have their lines behind `before`. */
    ghost predicate Closing(was: Files, before: seq<IndexLine>, todo: set<u32>, done: seq<IndexLine>)
      reads this, streams
    {
      && Valid() && View() == was && todo <= was.Keys && index == before + done
      && (forall k :: k in files && k !in todo ==> !files[k].open)
      && IndexPart(was, was.Keys - todo, done)
    }

    method CloseNext(ghost was: Files, ghost before: seq<IndexLine>, ghost todo: set<u32>, ghost done: seq<IndexLine>,
                     pid: u32)
      returns (ghost more: seq<IndexLine>)
      requires Closing(was, before, todo, done) && pid in todo
      modifies this`index, streams`open
      ensures Closing(was, before, todo - {pid}, more)
    {
      hide IndexPart, View, Consistent;
      FileIsStream(pid);
      CloseFile(pid, files[pid]);
      IndexGrows(was, todo, done, pid);
      more := done + [IndexLine(pid, was[pid].cmdline, was[pid].exe)];
    }

    /** `closeAll`: every file is closed, in any order, and the index gets one line for each of them. */
    method CloseAll()
      requires Valid()
      modifies this, streams`open
      ensures Valid() && files == map[]
      ensures forall k :: k in old(files) ==> !old(files)[k].open
      ensures exists lines :: index == old(index) + lines && IndexOf(old(View()), lines)
    {
      hide Closing, View, Consistent;
      ghost var was := View();
      var todo := pidFiles.Keys;
      ghost var done: seq<IndexLine> := [];
      StartClosing(was);
      while todo != {}
        invariant Closing(was, old(index), todo, done) && unchanged(this`files) && unchanged(this`streams)
        decreases todo
      {
        var pid :| pid in todo;
        done := CloseNext(was, old(index), todo, done, pid);
        todo := todo - {pid};
      }
      AllClosed(was, old(index), done);
      assert forall k :: k in files ==> !files[k].open;
      assert files == old(files);
      pidFiles, files, streams := map[], map[], {};
      NoFiles();
    }

    lemma StartClosing(was: Files)
      requires Valid() && was == View()
      ensures Closing(was, index, pidFiles.Keys, [])
    {
      IndexStart(was);
    }

    lemma AllClosed(was: Files, before: seq<IndexLine>, done: seq<IndexLine>)
      requires Closing(was, before, {}, done)
      ensures index == before + done && IndexOf(was, done)
      ensures forall k :: k in files ==> !files[k].open
    {
      assert was.Keys - {} == was.Keys;
    }

    lemma NoFiles()
      requires pidFiles == map[] && files == map[]
      ensures Valid()
    {
    }
  }

  /** One line with the latest strings for each of `pids`, and no other lines. */
  ghost predicate IndexPart(files: Files, pids: set<u32>, lines: seq<IndexLine>) {
    && |lines| == |pids| && pids <= files.Keys
    && (forall i :: 0 <= i < |lines| ==>
          var line := lines[i];
          line.pid in pids && line.cmdline == files[line.pid].cmdline && line.exe == files[line.pid].exe)
    && forall i, j :: 0 <= i < j < |lines| ==> lines[i].pid != lines[j].pid
  }

  ghost predicate IndexOf(files: Files, lines: seq<IndexLine>) {
    IndexPart(files, files.Keys, lines)
  }

  lemma IndexStart(files: Files)
    ensures IndexPart(files, files.Keys - files.Keys, [])
  {
  }

  lemma IndexGrows(files: Files, todo: set<u32>, lines: seq<IndexLine>, pid: u32)
    requires pid in todo && todo <= files.Keys && IndexPart(files, files.Keys - todo, lines)
    ensures IndexPart(files, files.Keys - (todo - {pid}), lines + [IndexLine(pid, files[pid].cmdline, files[pid].exe)])
  {
    assert files.Keys - (todo - {pid}) == (files.Keys - todo) + {pid};
  }

  /** The last lines are rows that show these samples. */
  ghost predicate EndsShowing(lines: seq<Line>, ss: seq<Sample>) {
    |ss| <= |lines| && RowsShow(lines[|lines| - |ss|..], ss)
  }

  lemma LinesAdded(files: Files, pid: u32, ss: seq<Sample>)
    requires pid in files
    ensures pid in AddLines(files, pid, RowsOf(ss))
    ensures EndsShowing(AddLines(files, pid, RowsOf(ss))[pid].lines, ss)
  {
    RowsOfShow(ss);
    var lines := files[pid].lines + RowsOf(ss);
    assert lines[|lines| - |ss|..] == RowsOf(ss);
  }

  class CoreOutput {
    var hasLastHead: bool
    var lastHead: Header
    var currFile: OutFile?

    /** The splitter invariant: a core that has seen a packet writes to the shared file of its latest process. */
    ghost predicate Valid(shared: Shared)
      reads this, shared
    {
      && (hasLastHead <==> currFile != null)
      && (hasLastHead ==> lastHead.pid in shared.files && currFile == shared.files[lastHead.pid])
    }

    ghost function Last(): Option<u32>
      reads this
    {
      if hasLastHead then Some(lastHead.pid) else None
    }

    constructor ()
      ensures Last() == None && currFile == null
    {
      hasLastHead, lastHead, currFile := false, ZERO_HEADER, null;
    }

    method CheckIncrFile(shared: Shared, newHead: Header, cmdline: seq<byte>, exe: seq<byte>)
      requires shared.Valid() && Valid(shared)
      modifies this, shared`pidFiles, shared`files, shared`streams, shared.streams
      ensures shared.Valid() && Valid(shared) && Last() == Some(newHead.pid)
      ensures shared.View() == TurnTo(old(shared.View()), old(Last()), newHead.pid, cmdline, exe)
      ensures forall k :: k in old(shared.files) ==> k in shared.files && shared.files[k] == old(shared.files[k])
      ensures fresh(shared.streams - old(shared.streams))
    {
      hide TurnTo, AddLines, Noted, Shared.View, Shared.Consistent;
      TurnInSteps(shared.View(), Last(), newHead.pid, cmdline, exe);
      shared.Note(newHead.pid, cmdline, exe);
      if !hasLastHead || lastHead.pid != newHead.pid {
        ChangeFile(shared, newHead, cmdline, exe);
      }
    }

    /** The branch taken when the core turns to another process. */
    method ChangeFile(shared: Shared, newHead: Header, cmdline: seq<byte>, exe: seq<byte>)
      requires shared.Consistent() && Valid(shared) && Last() != Some(newHead.pid)
      requires shared.pidFiles.Keys == shared.files.Keys + {newHead.pid}
      requires shared.pidFiles[newHead.pid].f
            == if newHead.pid in shared.files then shared.files[newHead.pid] else null
      modifies this, shared`pidFiles, shared`files, shared`streams, shared.streams
      ensures shared.Valid() && Valid(shared) && Last() == Some(newHead.pid)
      ensures
        var left := if old(hasLastHead) then AddLines(old(shared.View()), old(lastHead.pid), [Separator])
                    else old(shared.View());
        shared.View() == if newHead.pid in old(shared.files) then left
                         else left[newHead.pid := File([Title(cmdline, exe)], cmdline, exe)]
      ensures forall k :: k in old(shared.files) ==> k in shared.files && shared.files[k] == old(shared.files[k])
      ensures fresh(shared.streams - old(shared.streams))
    {
      hide AddLines, Shared.View, Shared.Consistent;
      LeaveFile(shared);
      EnterFile(shared, newHead, cmdline, exe);
    }

    /** The core turns to the file of the new process, which is opened when there is none. */
    method EnterFile(shared: Shared, newHead: Header, cmdline: seq<byte>, exe: seq<byte>)
      requires shared.Consistent()
      requires shared.pidFiles.Keys == shared.files.Keys + {newHead.pid}
      requires shared.pidFiles[newHead.pid].f
            == if newHead.pid in shared.files then shared.files[newHead.pid] else null
      modifies this, shared`pidFiles, shared`files, shared`streams
      ensures shared.Valid() && Valid(shared) && Last() == Some(newHead.pid)
      ensures shared.View() == if newHead.pid in old(shared.files) then old(shared.View())
                               else old(shared.View())[newHead.pid := File([Title(cmdline, exe)], cmdline, exe)]
      ensures forall k :: k in old(shared.files) ==> k in shared.files && shared.files[k] == old(shared.files[k])
      ensures fresh(shared.streams - old(shared.streams))
    {
      hide Shared.View, Shared.Consistent;
      ghost var was := shared.View();
      hasLastHead := true;
      lastHead := newHead;
      assert shared.View() == was;
      var f := shared.FileFor(newHead.pid, cmdline, exe);
      ghost var now := shared.View();
      currFile := f;
      assert shared.View() == now;
    }

    /** The order in which the code does it: strings, separator, new file. */
    static lemma TurnInSteps(files: Files, last: Option<u32>, pid: u32, cmdline: seq<byte>, exe: seq<byte>)
      requires last.Some? ==> last.value in files
      ensures
        var noted := Noted(files, pid, cmdline, exe);
        var left := if last.Some? && last.value != pid then AddLines(noted, last.value, [Separator]) else noted;
        TurnTo(files, last, pid, cmdline, exe)
          == if pid in files then left else left[pid := File([Title(cmdline, exe)], cmdline, exe)]
    {
    }

    /** The file the core is at, if any, gets a separator. */
    method LeaveFile(shared: Shared)
      requires shared.Consistent() && Valid(shared)
      modifies shared.streams
      ensures shared.Consistent()
      ensures shared.View()
           == if hasLastHead then AddLines(old(shared.View()), lastHead.pid, [Separator]) else old(shared.View())
    {
      hide AddLines;
      if currFile != null {
        ghost var was := shared.View();
        currFile.lines := currFile.lines + [Separator];
        shared.OneFileGrew(was, lastHead.pid, [Separator]);
      }
    }

    /** Writes the first `head.quantity` samples; what is left in the array from earlier packets is not read. */
    method ProcessPacket(shared: Shared, head: Header, cmdline: seq<byte>, exe: seq<byte>, samples: array<Sample>)
      requires shared.Valid() && Valid(shared) && head.quantity <= samples.Length
      modifies this, shared`pidFiles, shared`files, shared`streams, shared.streams
      ensures shared.Valid() && Valid(shared) && Last() == Some(head.pid)
      ensures shared.View() == AddLines(TurnTo(old(shared.View()), old(Last()), head.pid, cmdline, exe),
                                        head.pid, RowsOf(samples[..head.quantity]))
      ensures head.pid in shared.View() && EndsShowing(shared.View()[head.pid].lines, samples[..head.quantity])
      ensures forall k :: k in old(shared.files) ==> k in shared.files && shared.files[k] == old(shared.files[k])
      ensures fresh(shared.streams - old(shared.streams))
    {
      hide TurnTo, AddLines, Shared.View, Shared.Consistent;
      CheckIncrFile(shared, head, cmdline, exe);
      LinesAdded(shared.View(), head.pid, samples[..head.quantity]);
      WriteRows(shared, head, samples);
    }

    method WriteRows(shared: Shared, head: Header, samples: array<Sample>)
      requires shared.Valid() && Valid(shared) && Last() == Some(head.pid) && head.quantity <= samples.Length
      modifies shared.streams`lines
      ensures shared.Valid()
      ensures shared.View() == AddLines(old(shared.View()), head.pid, RowsOf(samples[..head.quantity]))
    {
      hide AddLines, Shared.View;
      ghost var was, before := shared.View(), currFile.lines;
      shared.ViewAt();
      for i := 0 to head.quantity
        invariant currFile.lines == before + RowsOf(samples[..i])
        invariant forall k :: k in shared.files && k != head.pid ==> shared.files[k].lines == was[k].lines
      {
        var c := samples[i];
        currFile.lines := currFile.lines + [Row(Low32(c.cycles), c.counters)];
      }
      shared.OneFileGrew(was, head.pid, RowsOf(samples[..head.quantity]));
    }
  }
}

/** The imperative phases are the events of a history: what they leave on disk is what the history says. */
module JourneyEvents {
  import opened Options
  import opened Texts
  import opened JsonValues
  import opened JsonPrinter
  import opened Cli
  import opened Journey
  import opened JourneyRuns
  import opened JourneyStates
  import opened JourneyHistory
  import opened JourneyProgram
  import opened Disks

  lemma PrepareEvent(h: Host, path: Text, d: Disk, d': Disk, e: Event)
    requires e.PrepareRun? && d.fuse == e.fuse
    requires path in d.files ==> d' == d
    requires path !in d.files ==>
               var o := Whole(Script.Prepare(h, e.scenario, e.sourceTask), e.replies, []);
               d' == if o.result.None? then d else WriteNew(d, path, Document(Obj(o.result.value)))
    ensures d'.files == After(h, path, d.files, e)
  {
    hide Drive, Document, WriteNew;
    assert Disk(d.files, e.fuse) == d;
  }

  lemma ResumeEvent(h: Host, path: Text, d: Disk, d': Disk, e: Event)
    requires e.ResumeRun? && d.fuse == e.fuse
    requires StateAt(h, d.files, path).None? ==> d' == d
    requires StateAt(h, d.files, path).Some? ==>
               var o := Whole(Script.Resume(h, e.scenario, StateAt(h, d.files, path).value), e.replies, []);
               d' == if o.result.None? then d else Replace(d, path, Document(Obj(o.result.value)))
    ensures d'.files == After(h, path, d.files, e)
  {
    hide Drive, Document, Replace, StateAt;
    assert Disk(d.files, e.fuse) == d;
  }

  /** One call of a phase, with a fresh runner and a disk that survives for the event's fuse, is the event. */
  method Happen(h: Host, path: Text, fs: FileSystem, e: Event) returns (r: Option<Fields>, issued: seq<Command>)
    requires fs.disk.fuse == e.fuse
    modifies fs
    ensures fs.disk.files == After(h, path, old(fs.disk).files, e)
    ensures issued == RunEvent(h, path, old(fs.disk).files, e).issued
    ensures r.Some? ==> r == RunEvent(h, path, old(fs.disk).files, e).result
  {
    var runner := new Runner(e.replies);
    ghost var before := fs.disk;
    hide Drive, Document, WriteNew, Replace, LoadObject, After;
    match e {
      case PrepareRun(scenario, sourceTask, replies, fuse) =>
        r := JourneyProgram.Prepare(h, runner, fs, scenario, sourceTask, path);
        PrepareEvent(h, path, before, fs.disk, e);
      case ResumeRun(scenario, replies, fuse) =>
        r := JourneyProgram.Resume(h, runner, fs, scenario, path);
        ResumeEvent(h, path, before, fs.disk, e);
    }
    issued := runner.issued;
  }

  /** Any calls of the two phases, one after the other, leave on disk what the history of their events says. */
  method HappenAll(h: Host, path: Text, fs: FileSystem, events: seq<Event>)
    modifies fs
    ensures fs.disk.files == FilesAfter(h, path, old(fs.disk).files, events)
  {
    ghost var files := fs.disk.files;
    hide After;
    for n := 0 to |events|
      invariant fs.disk.files == FilesAfter(h, path, files, events[..n])
    {
      fs.disk := Disk(fs.disk.files, events[n].fuse);
      assert events[..n + 1][..n] == events[..n] && events[..n + 1][n] == events[n];
      var r, issued := Happen(h, path, fs, events[n]);
    }
    assert events[..|events|] == events;
  }
}

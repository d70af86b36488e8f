/** The source index: a cache of parsed files, filled by one worker for each file, in any interleaving. */
module SourceIndex {
  import opened GoStrings

  /** A modification time and a size. */
  datatype Stamp = Stamp(modTime: int, size: int)

  datatype Info = Info(path: string, package: string, symbols: seq<string>, markers: seq<int>)

  /** What a path and a stamp determine: the parsed file, or a parse error. It never changes. */
  type Content = (string, Stamp) -> Option<Info>

  /** The files while one call runs: cleaned paths, and the stamps of the files that exist. */
  datatype Disk = Disk(clean: string -> string, stat: string -> Option<Stamp>)

  datatype Entry = Entry(stamp: Stamp, info: Info)

  type Cache = map<string, Entry>

  /** parseSourceFile of the cleaned path, for a file that can be found. */
  function Parsed(content: Content, disk: Disk, path: string): Option<Info> {
    var clean := disk.clean(path);
    match disk.stat(clean)
    case None => None
    case Some(stamp) => content(clean, stamp)
  }

  /** The parsed file is the content for the cleaned path and its stamp, when the file can be found. */
  lemma ParsedIsTheContent(content: Content, disk: Disk, path: string, stamp: Stamp)
    ensures disk.stat(disk.clean(path)) == Some(stamp) ==>
              Parsed(content, disk, path) == content(disk.clean(path), stamp)
    ensures disk.stat(disk.clean(path)) == None ==> Parsed(content, disk, path) == None
  {
  }

  /** Every entry is what its path and stamp determine. */
  ghost predicate Sound(content: Content, cache: Cache) {
    forall path :: path in cache ==> content(path, cache[path].stamp) == Some(cache[path].info)
  }

  // ---------- one caller ----------

  /** The cache after one FileInfo call that nothing interrupts. */
  function CacheAfter(content: Content, disk: Disk, cache: Cache, path: string): Cache {
    var clean := disk.clean(path);
    match disk.stat(clean)
    case None => cache
    case Some(stamp) =>
      if clean in cache && cache[clean].stamp == stamp then cache
      else
        match content(clean, stamp)
        case None => cache
        case Some(info) => cache[clean := Entry(stamp, info)]
  }

  class Index {
    var files: Cache

    constructor ()
      ensures files == map[]
    {
      files := map[];
    }

    method FileInfo(content: Content, disk: Disk, path: string) returns (info: Option<Info>)
      requires Sound(content, files)
      modifies this
      ensures Sound(content, files) && files == CacheAfter(content, disk, old(files), path)
      ensures info == Parsed(content, disk, path)
      ensures var stat := disk.stat(disk.clean(path));
              && info == (if stat.None? then None else content(disk.clean(path), stat.value))
              && (info.Some? ==> files == old(files)[disk.clean(path) := Entry(stat.value, info.value)])
              && (info.None? ==> files == old(files))
    {
      var clean := disk.clean(path);
      var stat := disk.stat(clean);
      if stat.None? {
        return None;
      }
      if clean in files && files[clean].stamp == stat.value {
        return Some(files[clean].info);
      }
      info := content(clean, stat.value);
      if info.None? {
        return None;
      }
      files := files[clean := Entry(stat.value, info.value)];
    }
  }

  // ---------- many workers ----------

  /** Where a worker stands between the points at which others can run. */
  datatype Worker =
    | Stating
    | Looking(stamp: Stamp)
    | Parsing(stamp: Stamp)
    | Storing(stamp: Stamp, info: Info)
    | Reporting(result: Option<Info>)
    | Finished

  /** The shared state of one fileInfos call; an unset info is the zero value. */
  datatype Call = Call(cache: Cache, workers: seq<Worker>, infos: seq<Option<Info>>, failed: bool)

  function Begin(cache: Cache, files: seq<string>): Call {
    Call(cache, seq(|files|, _ => Stating), seq(|files|, _ => None), false)
  }

  function Move(content: Content, disk: Disk, cache: Cache, path: string, w: Worker): (Cache, Worker) {
    var clean := disk.clean(path);
    match w
    case Stating =>
      (match disk.stat(clean)
       case None => (cache, Reporting(None))
       case Some(stamp) => (cache, Looking(stamp)))
    case Looking(stamp) =>
      if clean in cache && cache[clean].stamp == stamp then (cache, Reporting(Some(cache[clean].info)))
      else (cache, Parsing(stamp))
    case Parsing(stamp) =>
      (match disk.stat(clean)
       case None => (cache, Reporting(None))
       case Some(current) =>
         match content(clean, current)
         case None => (cache, Reporting(None))
         case Some(info) => (cache, Storing(stamp, info)))
    case Storing(stamp, info) => (cache[clean := Entry(stamp, info)], Reporting(Some(info)))
    case Reporting(_) => (cache, Finished)
    case Finished => (cache, Finished)
  }

  /** One step of worker i. Its report sets its own slot, or the shared error. */
  function Step(content: Content, disk: Disk, files: seq<string>, c: Call, i: nat): Call
    requires i < |files| == |c.workers| == |c.infos|
  {
    var (cache, w) := Move(content, disk, c.cache, files[i], c.workers[i]);
    var reports := c.workers[i].Reporting?;
    Call(
      cache,
      c.workers[i := w],
      if reports && c.workers[i].result.Some? then c.infos[i := c.workers[i].result] else c.infos,
      c.failed || (reports && c.workers[i].result.None?))
  }

  predicate Schedule(schedule: seq<nat>, files: seq<string>) {
    forall k :: 0 <= k < |schedule| ==> schedule[k] < |files|
  }

  /** A run of the workers in the order of a schedule. */
  function Run(content: Content, disk: Disk, files: seq<string>, c: Call, schedule: seq<nat>): (r: Call)
    requires |files| == |c.workers| == |c.infos| && Schedule(schedule, files)
    ensures |files| == |r.workers| == |r.infos|
    decreases |schedule|
  {
    if schedule == [] then c
    else Step(content, disk, files, Run(content, disk, files, c, schedule[..|schedule| - 1]), schedule[|schedule| - 1])
  }

  /** A worker that parses or stores holds the current stamp of its file, what it stores is what the file
      holds, and what it reports is the parsed file. */
  ghost predicate OnTrack(content: Content, disk: Disk, path: string, w: Worker) {
    var clean := disk.clean(path);
    match w
    case Stating => true
    case Looking(stamp) => disk.stat(clean) == Some(stamp)
    case Parsing(stamp) => disk.stat(clean) == Some(stamp)
    case Storing(stamp, info) => disk.stat(clean) == Some(stamp) && content(clean, stamp) == Some(info)
    case Reporting(result) => result == Parsed(content, disk, path)
    case Finished => true
  }

  ghost predicate Good(content: Content, disk: Disk, files: seq<string>, c: Call) {
    && |files| == |c.workers| == |c.infos| && Sound(content, c.cache)
    && (forall i :: 0 <= i < |files| ==> OnTrack(content, disk, files[i], c.workers[i]))
    && (forall i :: 0 <= i < |files| ==>
                      c.infos[i] == if c.workers[i].Finished? then Parsed(content, disk, files[i]) else None)
    && (c.failed <==> exists i :: 0 <= i < |files| && c.workers[i].Finished? && Parsed(content, disk, files[i]).None?)
  }

  lemma MoveStaysOnTrack(content: Content, disk: Disk, cache: Cache, path: string, w: Worker)
    requires Sound(content, cache) && OnTrack(content, disk, path, w)
    ensures var (after, next) := Move(content, disk, cache, path, w);
            && Sound(content, after) && OnTrack(content, disk, path, next)
            && (next.Finished? <==> w.Reporting? || w.Finished?)
  {
  }

  lemma StepKeepsGood(content: Content, disk: Disk, files: seq<string>, c: Call, i: nat)
    requires Good(content, disk, files, c) && i < |files|
    ensures Good(content, disk, files, Step(content, disk, files, c, i))
  {
    hide Move, Parsed, OnTrack, Sound;
    ReportIsParsed(content, disk, files[i], c.workers[i]);
    MoveStaysOnTrack(content, disk, c.cache, files[i], c.workers[i]);
    var after := Step(content, disk, files, c, i);
    assert forall j :: 0 <= j < |files| && j != i ==> after.workers[j] == c.workers[j];
    if c.failed {
      var j :| 0 <= j < |files| && c.workers[j].Finished? && Parsed(content, disk, files[j]).None?;
      assert after.workers[j].Finished?;
    } else if after.failed {
      assert after.workers[i].Finished? && Parsed(content, disk, files[i]).None?;
    }
  }

  lemma ReportIsParsed(content: Content, disk: Disk, path: string, w: Worker)
    requires OnTrack(content, disk, path, w)
    ensures w.Reporting? ==> w.result == Parsed(content, disk, path)
  {
  }

  lemma {:induction false} RunKeepsGood(content: Content, disk: Disk, files: seq<string>, c: Call, schedule: seq<nat>)
    requires Good(content, disk, files, c) && Schedule(schedule, files)
    ensures Good(content, disk, files, Run(content, disk, files, c, schedule))
    decreases |schedule|
  {
    hide Good, Step;
    if schedule != [] {
      var init := schedule[..|schedule| - 1];
      GoodLengths(content, disk, files, c);
      RunKeepsGood(content, disk, files, c, init);
      StepKeepsGood(content, disk, files, Run(content, disk, files, c, init), schedule[|schedule| - 1]);
    }
  }

  lemma GoodLengths(content: Content, disk: Disk, files: seq<string>, c: Call)
    requires Good(content, disk, files, c)
    ensures |files| == |c.workers| == |c.infos|
  {
  }

  predicate AllFinished(c: Call) {
    forall i :: 0 <= i < |c.workers| ==> c.workers[i].Finished?
  }

  /** What fileInfos returns once every worker has finished: the infos, or an error. */
  function Returned(c: Call): Option<seq<Option<Info>>> {
    if c.failed then None else Some(c.infos)
  }

  // ---------- earlier calls ----------

  /** An earlier call: the files as they then were, and how its workers were scheduled. */
  datatype Past = Past(disk: Disk, files: seq<string>, schedule: seq<nat>)

  /** The cache after a history of calls from an empty index; files may change between calls. */
  function CacheOf(content: Content, history: seq<Past>): Cache
    requires forall k :: 0 <= k < |history| ==> Schedule(history[k].schedule, history[k].files)
    decreases |history|
  {
    if history == [] then map[]
    else
      var last := history[|history| - 1];
      Run(content, last.disk, last.files, Begin(CacheOf(content, history[..|history| - 1]), last.files),
          last.schedule).cache
  }

  lemma BeginIsGood(content: Content, disk: Disk, cache: Cache, files: seq<string>)
    requires Sound(content, cache)
    ensures Good(content, disk, files, Begin(cache, files))
  {
  }

  lemma {:induction false} HistoryIsSound(content: Content, history: seq<Past>)
    requires forall k :: 0 <= k < |history| ==> Schedule(history[k].schedule, history[k].files)
    ensures Sound(content, CacheOf(content, history))
    decreases |history|
  {
    if history != [] {
      var init, last := history[..|history| - 1], history[|history| - 1];
      HistoryIsSound(content, init);
      var begun := Begin(CacheOf(content, init), last.files);
      BeginIsGood(content, last.disk, CacheOf(content, init), last.files);
      RunKeepsGood(content, last.disk, last.files, begun, last.schedule);
    }
  }

  /** After any history of calls, and in every interleaving of the workers, a call that has finished returns
      at index i exactly the parsed file at the cleaned path, and an error exactly when some file fails. */
  lemma CacheAgreesWithParsing(content: Content, history: seq<Past>, disk: Disk, files: seq<string>, schedule: seq<nat>)
    requires forall k :: 0 <= k < |history| ==> Schedule(history[k].schedule, history[k].files)
    requires Schedule(schedule, files)
    requires AllFinished(Run(content, disk, files, Begin(CacheOf(content, history), files), schedule))
    ensures var r := Returned(Run(content, disk, files, Begin(CacheOf(content, history), files), schedule));
            && (r.None? <==> exists i :: 0 <= i < |files| && Parsed(content, disk, files[i]).None?)
            && (r.Some? ==> |r.value| == |files|)
            && (r.Some? ==> forall i :: 0 <= i < |files| ==>
                r.value[i].Some? && r.value[i] == Parsed(content, disk, files[i]))
  {
    hide Run, CacheOf, Parsed, Sound, OnTrack, Begin;
    var cache := CacheOf(content, history);
    HistoryIsSound(content, history);
    BeginIsGood(content, disk, cache, files);
    BeginLengths(cache, files);
    RunKeepsGood(content, disk, files, Begin(cache, files), schedule);
    var c := Run(content, disk, files, Begin(cache, files), schedule);
    if !c.failed {
      forall i | 0 <= i < |files|
        ensures c.infos[i].Some?
      {
        assert c.workers[i].Finished?;
      }
    }
  }

  lemma BeginLengths(cache: Cache, files: seq<string>)
    ensures |Begin(cache, files).workers| == |Begin(cache, files).infos| == |files|
  {
  }

  // ---------- a worker alone ----------

  function StepsLeft(w: Worker): nat {
    match w
    case Stating => 4
    case Looking(_) => 3
    case Parsing(_) => 2
    case Storing(_, _) => 1
    case _ => 0
  }

  /** The cache and the report of a worker that runs to its report with nothing between its steps. */
  function Alone(content: Content, disk: Disk, cache: Cache, path: string, w: Worker): (Cache, Option<Info>)
    decreases StepsLeft(w)
  {
    match w
    case Reporting(result) => (cache, result)
    case Finished => (cache, None)
    case _ =>
      var (after, next) := Move(content, disk, cache, path, w);
      Alone(content, disk, after, path, next)
  }

  /** A worker that nothing interrupts does what FileInfo does for one caller. */
  lemma AloneAsFileInfo(content: Content, disk: Disk, cache: Cache, path: string)
    requires Sound(content, cache)
    ensures Alone(content, disk, cache, path, Stating)
              == (CacheAfter(content, disk, cache, path), Parsed(content, disk, path))
  {
    var clean := disk.clean(path);
    if disk.stat(clean).Some? {
      var stamp := disk.stat(clean).value;
      assert Alone(content, disk, cache, path, Stating) == Alone(content, disk, cache, path, Looking(stamp));
      if !(clean in cache && cache[clean].stamp == stamp) {
        assert Alone(content, disk, cache, path, Looking(stamp)) == Alone(content, disk, cache, path, Parsing(stamp));
        if content(clean, stamp).Some? {
          var stored := Storing(stamp, content(clean, stamp).value);
          assert Alone(content, disk, cache, path, Parsing(stamp)) == Alone(content, disk, cache, path, stored);
          var after := cache[clean := Entry(stamp, stored.info)];
          assert Alone(content, disk, cache, path, stored)
            == Alone(content, disk, after, path, Reporting(Some(stored.info)));
        } else {
          assert Alone(content, disk, cache, path, Parsing(stamp))
            == Alone(content, disk, cache, path, Reporting(None));
        }
      }
    }
  }
}

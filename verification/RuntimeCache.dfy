/** The cache protocol of src/runtime_cache.rs. */
module RuntimeCache {
  // Any number of compiler runs work in one directory, interleaved step by step; a run
  // may fail wherever the code handles a failure, and may stop at any point.

  import opened Prelude
  import opened CacheKey
  import opened CacheName

  datatype Job = Job(heapSize: nat, target: string, asm: seq<Byte>)

  /** A cache entry, or the temporary files of one run: the run's unique suffix
      (process id and time) is part of their names. */
  datatype Path = Entry(name: string) | TempAsm(stem: string, unique: string) | TempObj(stem: string, unique: string)

  datatype Content = Assembly(asm: seq<Byte>) | Object(asm: seq<Byte>) | Partial

  type Directory = map<Path, Content>

  datatype Status = Hit | Miss

  /** A failed write may have created the file. */
  datatype Outcome =
    | Prepared(path: Path, status: Status)
    | CreateFailed | WriteFailed(created: bool) | SpawnFailed | AssemblerFailed | StoreFailed

  datatype Pc =
    | Creating | Checking | Writing | Spawning | Assembling
    | DroppingAsm(assembled: bool) | Renaming | Rechecking | DroppingObj(result: Outcome)
    | Done(result: Outcome)

  /** `name` is the file name of the run's cache entry. */
  datatype Run = Run(name: string, job: Job, unique: string, pc: Pc, removalsWorked: bool) {
    function EntryPath(): Path { Entry(name) }

    function Asm(): Path { TempAsm(name, unique) }

    function Obj(): Path { TempObj(name, unique) }

    function At(next: Pc): Run { this.(pc := next) }
  }

  // ----- one step of one run -----

  /** `remove_file`, whose failure the code ignores. */
  ghost predicate Removes(r: Run, dir: Directory, path: Path, next: Pc, r': Run, dir': Directory) {
    || (r' == r.At(next) && dir' == dir - {path})
    || (r' == r.At(next).(removalsWorked := false) && dir' == dir)
  }

  ghost predicate RunStep(r: Run, dir: Directory, r': Run, dir': Directory) {
    match r.pc
    case Creating =>
      dir' == dir && (r' == r.At(Checking) || r' == r.At(Done(CreateFailed)))
    case Checking =>
      dir' == dir && r' == r.At(if r.EntryPath() in dir then Done(Prepared(r.EntryPath(), Hit)) else Writing)
    case Writing =>
      || (r' == r.At(Spawning) && dir' == dir[r.Asm() := Assembly(r.job.asm)])
      || (r' == r.At(Done(WriteFailed(false))) && dir' == dir)
      || (r' == r.At(Done(WriteFailed(true))) && dir' == dir[r.Asm() := Partial])
    case Spawning =>
      dir' == dir && (r' == r.At(Assembling) || r' == r.At(Done(SpawnFailed)))
    case Assembling =>
      // output under way
      || (r' == r && dir' == dir[r.Obj() := Partial])
      || (&& r' == r.At(DroppingAsm(true))
          && r.Asm() in dir && dir[r.Asm()].Assembly?
          && dir' == dir[r.Obj() := Object(dir[r.Asm()].asm)])
      || (r' == r.At(DroppingAsm(false)) && (dir' == dir || dir' == dir - {r.Obj()}))
    case DroppingAsm(assembled) =>
      Removes(r, dir, r.Asm(), if assembled then Renaming else DroppingObj(AssemblerFailed), r', dir')
    case Renaming =>
      || (&& r' == r.At(Done(Prepared(r.EntryPath(), Miss)))
          && r.Obj() in dir && dir' == (dir - {r.Obj()})[r.EntryPath() := dir[r.Obj()]])
      || (r' == r.At(Rechecking) && dir' == dir)
    case Rechecking =>
      dir' == dir && r' == r.At(DroppingObj(if r.EntryPath() in dir then Prepared(r.EntryPath(), Hit) else StoreFailed))
    case DroppingObj(result) =>
      Removes(r, dir, r.Obj(), Done(result), r', dir')
    case Done(_) => false
  }

  // ----- any number of runs -----

  datatype State = State(dir: Directory, runs: seq<Run>)

  ghost predicate Next(s: State, s': State) {
    exists i :: 0 <= i < |s.runs| && StepOf(s, i, s')
  }

  ghost predicate StepOf(s: State, i: nat, s': State)
    requires i < |s.runs|
  {
    && |s'.runs| == |s.runs|
    && s'.runs == s.runs[i := s'.runs[i]]
    && RunStep(s.runs[i], s.dir, s'.runs[i], s'.dir)
  }

  ghost predicate DistinctNames(runs: seq<Run>) {
    forall i, j :: 0 <= i < j < |runs| ==> runs[i].unique != runs[j].unique
  }

  function NameOf(version: string, job: Job): string {
    RuntimeCacheFileName(version, job.heapSize, job.target, AsmHash(job.asm))
  }

  ghost predicate JobsApart(a: Job, b: Job) {
    a.target == b.target && a.heapSize == b.heapSize && AsmHash(a.asm) == AsmHash(b.asm) ==> a.asm == b.asm
  }

  /** Runs of one compiler version, among which assemblies for one target and heap
      size that hash alike are the same assembly. */
  ghost predicate NoCollision(runs: seq<Run>, version: string) {
    && (forall i :: 0 <= i < |runs| ==> runs[i].name == NameOf(version, runs[i].job))
    && (forall i, j :: 0 <= i < |runs| && 0 <= j < |runs| ==> JobsApart(runs[i].job, runs[j].job))
  }

  /** Which is why an entry's name determines its assembly. */
  ghost predicate NamesDetermineAsm(runs: seq<Run>) {
    forall i, j :: 0 <= i < |runs| && 0 <= j < |runs| && runs[i].name == runs[j].name
      ==> runs[i].job.asm == runs[j].job.asm
  }

  lemma NameDeterminesAsm(runs: seq<Run>, version: string)
    requires NoCollision(runs, version)
    ensures NamesDetermineAsm(runs)
  {
    forall i, j | 0 <= i < |runs| && 0 <= j < |runs| && runs[i].name == runs[j].name
      ensures runs[i].job.asm == runs[j].job.asm
    {
      var a, b := runs[i].job, runs[j].job;
      FileNameInjective(version, a.heapSize, a.target, AsmHash(a.asm), b.heapSize, b.target, AsmHash(b.asm));
      assert JobsApart(a, b);
    }
  }

  /** An entry is absent or the complete object for its key. */
  ghost predicate EntryComplete(r: Run, dir: Directory) {
    r.EntryPath() in dir ==> dir[r.EntryPath()] == Object(r.job.asm)
  }

  ghost predicate TempsAbsent(r: Run, dir: Directory) {
    r.Asm() !in dir && r.Obj() !in dir
  }

  ghost predicate Init(s: State, version: string) {
    && DistinctNames(s.runs) && NoCollision(s.runs, version)
    && forall i :: 0 <= i < |s.runs| ==>
         s.runs[i].pc == Creating && s.runs[i].removalsWorked
         && EntryComplete(s.runs[i], s.dir) && TempsAbsent(s.runs[i], s.dir)
  }

  // ----- what every step keeps -----

  /** The outcomes after which the code does not remove the temporary assembly. */
  predicate LeavesAssembly(result: Outcome) {
    result.SpawnFailed? || (result.WriteFailed? && result.created)
  }

  /** The private files of a run at each point of its program. */
  ghost predicate TempsFit(r: Run, dir: Directory) {
    match r.pc
    case Creating => TempsAbsent(r, dir)
    case Checking => TempsAbsent(r, dir)
    case Writing => TempsAbsent(r, dir)
    case Spawning => r.Asm() in dir && dir[r.Asm()] == Assembly(r.job.asm) && r.Obj() !in dir
    case Assembling => r.Asm() in dir && dir[r.Asm()] == Assembly(r.job.asm)
    case DroppingAsm(assembled) => assembled ==> r.Obj() in dir && dir[r.Obj()] == Object(r.job.asm)
    case Renaming => r.Obj() in dir && dir[r.Obj()] == Object(r.job.asm) && (r.removalsWorked ==> r.Asm() !in dir)
    case Rechecking => r.removalsWorked ==> r.Asm() !in dir
    case DroppingObj(result) => !LeavesAssembly(result) && (r.removalsWorked ==> r.Asm() !in dir)
    case Done(result) =>
      r.removalsWorked ==> (r.Asm() in dir <==> LeavesAssembly(result)) && r.Obj() !in dir
  }

  /** A run that reports an object names its own entry, and the entry is there. */
  ghost predicate ResultFits(r: Run, dir: Directory) {
    (r.pc.Done? || r.pc.DroppingObj?) && r.pc.result.Prepared? ==>
      r.pc.result.path == r.EntryPath() && r.EntryPath() in dir
  }

  ghost predicate RunFits(r: Run, dir: Directory) {
    EntryComplete(r, dir) && TempsFit(r, dir) && ResultFits(r, dir)
  }

  ghost predicate Inv(s: State) {
    && DistinctNames(s.runs) && NamesDetermineAsm(s.runs)
    && forall i :: 0 <= i < |s.runs| ==> RunFits(s.runs[i], s.dir)
  }

  lemma OwnTemps(r: Run, dir: Directory, r': Run, dir': Directory)
    requires RunStep(r, dir, r', dir') && RunFits(r, dir)
    ensures TempsFit(r', dir')
  {
    SameIdentity(r, dir, r', dir');
    assert r'.Asm() == r.Asm() && r'.Obj() == r.Obj() && r'.EntryPath() == r.EntryPath();
    if r.pc.DroppingAsm? || r.pc.DroppingObj? {
      RemovalTemps(r, dir, r', dir');
    } else if r.pc.Assembling? || r.pc.Renaming? {
      ObjectTemps(r, dir, r', dir');
    }
  }

  lemma RemovalTemps(r: Run, dir: Directory, r': Run, dir': Directory)
    requires RunStep(r, dir, r', dir') && TempsFit(r, dir) && (r.pc.DroppingAsm? || r.pc.DroppingObj?)
    requires r'.Asm() == r.Asm() && r'.Obj() == r.Obj()
    ensures TempsFit(r', dir')
  {
  }

  lemma ObjectTemps(r: Run, dir: Directory, r': Run, dir': Directory)
    requires RunStep(r, dir, r', dir') && TempsFit(r, dir) && (r.pc.Assembling? || r.pc.Renaming?)
    requires r'.Asm() == r.Asm() && r'.Obj() == r.Obj()
    ensures TempsFit(r', dir')
  {
  }

  /** What a run's own step does to the run. */
  lemma OwnStep(r: Run, dir: Directory, r': Run, dir': Directory)
    requires RunStep(r, dir, r', dir') && RunFits(r, dir)
    ensures r'.name == r.name && r'.unique == r.unique && r'.job == r.job
    ensures RunFits(r', dir')
  {
    OwnTemps(r, dir, r', dir');
    StepFrame(r, dir, r', dir', r.EntryPath());
    SameIdentity(r, dir, r', dir');
    OwnResult(r, dir, r', dir');
  }

  lemma SameIdentity(r: Run, dir: Directory, r': Run, dir': Directory)
    requires RunStep(r, dir, r', dir')
    ensures r'.name == r.name && r'.unique == r.unique && r'.job == r.job
  {
  }

  lemma OwnResult(r: Run, dir: Directory, r': Run, dir': Directory)
    requires RunStep(r, dir, r', dir') && RunFits(r, dir)
    ensures ResultFits(r', dir')
  {
    StepFrame(r, dir, r', dir', r.EntryPath());
    SameIdentity(r, dir, r', dir');
  }

  /** What a step leaves alone: everything but the run's temporary files and its entry,
      and the entry only ever becomes the complete object. */
  lemma StepFrame(r: Run, dir: Directory, r': Run, dir': Directory, p: Path)
    requires RunStep(r, dir, r', dir') && RunFits(r, dir)
    ensures p !in {r.Asm(), r.Obj(), r.EntryPath()} ==> (p in dir' <==> p in dir) && (p in dir ==> dir'[p] == dir[p])
    ensures r.EntryPath() in dir ==> r.EntryPath() in dir'
    ensures r.EntryPath() in dir' ==> dir'[r.EntryPath()] == Object(r.job.asm)
  {
  }

  lemma OthersKeep(s: State, i: nat, s': State, j: nat)
    requires i < |s.runs| && j < |s.runs| && i != j && Inv(s) && StepOf(s, i, s')
    ensures RunFits(s.runs[j], s'.dir)
  {
    var r, o := s.runs[i], s.runs[j];
    assert o.unique != r.unique;
    StepFrame(r, s.dir, s'.runs[i], s'.dir, o.Asm());
    StepFrame(r, s.dir, s'.runs[i], s'.dir, o.Obj());
    StepFrame(r, s.dir, s'.runs[i], s'.dir, o.EntryPath());
    assert o.name == r.name ==> o.job.asm == r.job.asm;
  }

  lemma StepKeepsInv(s: State, s': State)
    requires Inv(s) && Next(s, s')
    ensures Inv(s')
  {
    var i :| 0 <= i < |s.runs| && StepOf(s, i, s');
    OwnStep(s.runs[i], s.dir, s'.runs[i], s'.dir);
    forall j | 0 <= j < |s'.runs| ensures RunFits(s'.runs[j], s'.dir) {
      if j != i {
        OthersKeep(s, i, s', j);
      }
    }
  }

  // ----- whole executions -----

  ghost predicate Execution(trace: seq<State>, version: string) {
    && |trace| > 0 && Init(trace[0], version)
    && forall k :: 0 <= k < |trace| - 1 ==> Next(trace[k], trace[k + 1])
  }

  lemma {:induction false} ExecutionKeepsInv(trace: seq<State>, version: string, k: nat)
    requires Execution(trace, version) && k < |trace|
    ensures Inv(trace[k])
  {
    if k == 0 {
      NameDeterminesAsm(trace[0].runs, version);
    } else {
      ExecutionKeepsInv(trace, version, k - 1);
      assert Next(trace[k - 1], trace[k - 1 + 1]);
      StepKeepsInv(trace[k - 1], trace[k]);
    }
  }

  /** In every state of every interleaving: the cache path of a run is absent or holds
      the complete object for its key, a reported path is that path and is present, and
      a run that reported an object, or a failed assembly or store, has left no temporary
      file behind if its removals worked. */
  lemma CacheIsSafe(trace: seq<State>, version: string, k: nat, i: nat)
    requires Execution(trace, version) && k < |trace| && i < |trace[k].runs|
    ensures var r, dir := trace[k].runs[i], trace[k].dir;
            && (r.EntryPath() in dir ==> dir[r.EntryPath()] == Object(r.job.asm))
            && (r.pc.Done? && r.pc.result.Prepared? ==>
                  r.pc.result.path == r.EntryPath() && r.EntryPath() in dir && dir[r.EntryPath()] == Object(r.job.asm))
            && (r.pc.Done? && r.removalsWorked
                && (r.pc.result.Prepared? || r.pc.result in {AssemblerFailed, StoreFailed}) ==>
                  r.Asm() !in dir && r.Obj() !in dir)
  {
    ExecutionKeepsInv(trace, version, k);
  }

  /** A finished run whose removals worked leaves a temporary file exactly if it could not start
      the assembler, or had created the file that it failed to write; and that file is the
      assembly. */
  lemma LeftFilesExact(trace: seq<State>, version: string, k: nat, i: nat)
    requires Execution(trace, version) && k < |trace| && i < |trace[k].runs|
    requires trace[k].runs[i].pc.Done? && trace[k].runs[i].removalsWorked
    ensures var r, dir := trace[k].runs[i], trace[k].dir;
            r.Obj() !in dir && (r.Asm() in dir <==> LeavesAssembly(r.pc.result))
  {
    ExecutionKeepsInv(trace, version, k);
  }

  /** Once present, an entry stays, with the same content. */
  lemma {:induction false} EntriesAreStable(trace: seq<State>, version: string, k: nat, l: nat, i: nat)
    requires Execution(trace, version) && k <= l < |trace| && i < |trace[k].runs|
    requires trace[k].runs[i].EntryPath() in trace[k].dir
    ensures var path := trace[k].runs[i].EntryPath();
            path in trace[l].dir && trace[l].dir[path] == trace[k].dir[path]
    decreases l - k
  {
    if k < l {
      assert Next(trace[k], trace[k + 1]);
      var s, s' := trace[k], trace[k + 1];
      ExecutionKeepsInv(trace, version, k);
      ExecutionKeepsInv(trace, version, k + 1);
      var a :| 0 <= a < |s.runs| && StepOf(s, a, s');
      OwnStep(s.runs[a], s.dir, s'.runs[a], s'.dir);
      StepFrame(s.runs[a], s.dir, s'.runs[a], s'.dir, s.runs[i].EntryPath());
      assert RunFits(s.runs[i], s.dir) && RunFits(s'.runs[i], s'.dir);
      assert s'.runs[i].EntryPath() == s.runs[i].EntryPath() && s'.runs[i].job == s.runs[i].job;
      EntriesAreStable(trace, version, k + 1, l, i);
    }
  }

  // ----- real file names -----

  function FileName(p: Path): string {
    match p
    case Entry(name) => name
    case TempAsm(name, unique) => TempName(name, unique, ".s")
    case TempObj(name, unique) => TempName(name, unique, ".o")
  }

  /** The run's files carry the names that the code gives them. */
  ghost predicate NamedByCode(r: Run, version: string) {
    r.name == NameOf(version, r.job) && exists pid, nanos :: r.unique == Unique(pid, nanos)
  }

  ghost predicate FileOf(r: Run, p: Path) {
    p in {r.EntryPath(), r.Asm(), r.Obj()}
  }

  lemma TempStemApart(a: Run, b: Run, version: string, x: string, y: string)
    requires NamedByCode(a, version) && NamedByCode(b, version) && |x| == |y|
    requires TempName(a.name, a.unique, x) == TempName(b.name, b.unique, y)
    ensures a.name == b.name && a.unique == b.unique && x == y
  {
    var p, n :| a.unique == Unique(p, n);
    var q, m :| b.unique == Unique(q, m);
    hide Unique, RuntimeCacheFileName, AsmHash;
    TempInjective(Stem(a.name), p, n, x, Stem(b.name), q, m, y);
    StemDetermines(a, b, version);
  }

  lemma StemDetermines(a: Run, b: Run, version: string)
    requires a.name == NameOf(version, a.job) && b.name == NameOf(version, b.job) && Stem(a.name) == Stem(b.name)
    ensures a.name == b.name
  {
    StemOf(version, a.job.heapSize, a.job.target, AsmHash(a.job.asm));
    StemOf(version, b.job.heapSize, b.job.target, AsmHash(b.job.asm));
    hide AsmHash, NameHead;
  }

  lemma TempEntryApart(a: Run, b: Run, version: string)
    requires NamedByCode(a, version) && NamedByCode(b, version)
    ensures FileName(a.Asm()) != b.name && FileName(a.Obj()) != b.name
  {
    var p, n :| a.unique == Unique(p, n);
    hide Unique, RuntimeCacheFileName, AsmHash;
    TempIsNoEntry(Stem(a.name), p, n, version, b.job.heapSize, b.job.target, AsmHash(b.job.asm));
  }

  /** Paths of any two runs that are apart here are apart on disk. */
  lemma PathsAreApart(a: Run, p: Path, b: Run, q: Path, version: string)
    requires NamedByCode(a, version) && NamedByCode(b, version) && FileOf(a, p) && FileOf(b, q)
    ensures FileName(p) == FileName(q) <==> p == q
  {
    TempEntryApart(a, b, version);
    TempEntryApart(b, a, version);
    hide NamedByCode, TempName;
    if FileName(p) == FileName(q) && !p.Entry? && !q.Entry? {
      TempStemApart(a, b, version, if p.TempAsm? then ".s" else ".o", if q.TempAsm? then ".s" else ".o");
    }
  }
}

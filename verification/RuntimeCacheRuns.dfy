/** What a run of the cache protocol answers, and why. */
module RuntimeCacheRuns {
  import opened RuntimeCache

  // ----- one state and the next -----

  /** What one step of run `a` keeps for every run. */
  ghost predicate Steps(s: State, a: nat, s': State) {
    && a < |s.runs| && |s'.runs| == |s.runs| && Inv(s) && StepOf(s, a, s')
    && forall j :: 0 <= j < |s.runs| ==>
         s'.runs[j].EntryPath() == s.runs[j].EntryPath() && (j != a ==> s'.runs[j] == s.runs[j])
  }

  lemma StepAt(trace: seq<State>, version: string, k: nat) returns (a: nat)
    requires Execution(trace, version) && k + 1 < |trace|
    ensures Steps(trace[k], a, trace[k + 1])
  {
    ExecutionKeepsInv(trace, version, k);
    assert Next(trace[k], trace[k + 1]);
    a :| 0 <= a < |trace[k].runs| && StepOf(trace[k], a, trace[k + 1]);
    SameIdentity(trace[k].runs[a], trace[k].dir, trace[k + 1].runs[a], trace[k + 1].dir);
    hide RunStep, Inv;
  }

  lemma {:induction false} SameRuns(trace: seq<State>, version: string, k: nat, l: nat)
    requires Execution(trace, version) && k <= l < |trace|
    ensures |trace[l].runs| == |trace[k].runs|
    ensures forall j :: 0 <= j < |trace[k].runs| ==> trace[l].runs[j].EntryPath() == trace[k].runs[j].EntryPath()
    decreases l - k
  {
    hide Execution, StepOf, Inv;
    if k < l {
      SameRuns(trace, version, k, l - 1);
      var a := StepAt(trace, version, l - 1);
    }
  }

  /** The step of another run leaves a run's temporary files alone. */
  lemma OthersLeaveTemps(s: State, a: nat, s': State, i: nat)
    requires Steps(s, a, s') && i < |s.runs| && a != i && TempsAbsent(s.runs[i], s.dir)
    ensures TempsAbsent(s'.runs[i], s'.dir)
  {
    assert s.runs[a].unique != s.runs[i].unique;
    StepFrame(s.runs[a], s.dir, s'.runs[a], s'.dir, s.runs[i].Asm());
    StepFrame(s.runs[a], s.dir, s'.runs[a], s'.dir, s.runs[i].Obj());
    hide RunStep;
  }

  // ----- hits and misses -----

  /** Where a run is that will answer, or has answered, with the entry it found. */
  ghost predicate FindsEntry(r: Run) {
    r.pc.Creating? || r.pc.Checking? || r.pc == Done(CreateFailed) || r.pc == Done(Prepared(r.EntryPath(), Hit))
  }

  /** A run that has not yet written anything leaves off finding the entry exactly if it is
      not there. */
  lemma CheckStep(r: Run, dir: Directory, r': Run, dir': Directory)
    requires RunStep(r, dir, r', dir') && (r.pc.Creating? || r.pc.Checking?)
    ensures FindsEntry(r') <==> r.pc.Creating? || r.EntryPath() in dir
    ensures dir' == dir
  {
  }

  lemma FindsStep(s: State, a: nat, s': State, i: nat)
    requires Steps(s, a, s') && i < |s.runs| && s.runs[i].EntryPath() in s.dir
    requires FindsEntry(s.runs[i]) && TempsAbsent(s.runs[i], s.dir)
    ensures FindsEntry(s'.runs[i]) && TempsAbsent(s'.runs[i], s'.dir)
  {
    if a == i {
      CheckStep(s.runs[i], s.dir, s'.runs[i], s'.dir);
      SameIdentity(s.runs[i], s.dir, s'.runs[i], s'.dir);
    } else {
      hide StepOf, FindsEntry;
      OthersLeaveTemps(s, a, s', i);
    }
  }

  lemma StartsFinding(trace: seq<State>, version: string, k: nat, i: nat)
    requires Execution(trace, version) && k < |trace| && i < |trace[k].runs|
    requires trace[k].runs[i].pc.Creating? || trace[k].runs[i].pc.Checking?
    ensures FindsEntry(trace[k].runs[i]) && TempsAbsent(trace[k].runs[i], trace[k].dir)
  {
    hide Execution;
    ExecutionKeepsInv(trace, version, k);
  }

  /** If the entry is there before a run has checked, the run answers it and writes nothing. */
  lemma {:induction false} HitIsAnswered(trace: seq<State>, version: string, k: nat, l: nat, i: nat)
    requires Execution(trace, version) && k <= l < |trace| && i < |trace[k].runs|
    requires trace[k].runs[i].pc.Creating? || trace[k].runs[i].pc.Checking?
    requires trace[k].runs[i].EntryPath() in trace[k].dir
    ensures i < |trace[l].runs| && FindsEntry(trace[l].runs[i]) && TempsAbsent(trace[l].runs[i], trace[l].dir)
    decreases l - k
  {
    hide Execution, StepOf, Inv, FindsEntry, TempsAbsent;
    if k == l {
      StartsFinding(trace, version, k, i);
    } else {
      HitIsAnswered(trace, version, k, l - 1, i);
      SameRuns(trace, version, k, l - 1);
      EntriesAreStable(trace, version, k, l - 1, i);
      var a := StepAt(trace, version, l - 1);
      FindsStep(trace[l - 1], a, trace[l], i);
    }
  }

  // ----- why a run is where it is -----

  /** The step with which a run comes to be as it is. */
  lemma {:induction false} FirstTime(trace: seq<State>, version: string, k: nat, i: nat, p: Run -> bool)
    returns (j: nat)
    requires Execution(trace, version) && k < |trace| && i < |trace[k].runs| && i < |trace[0].runs|
    requires !p(trace[0].runs[i]) && p(trace[k].runs[i])
    ensures j < k && i < |trace[j].runs| && i < |trace[j + 1].runs|
    ensures RunStep(trace[j].runs[i], trace[j].dir, trace[j + 1].runs[i], trace[j + 1].dir)
    ensures !p(trace[j].runs[i]) && p(trace[j + 1].runs[i])
    ensures trace[j].runs[i].EntryPath() == trace[k].runs[i].EntryPath()
  {
    hide Execution, RunStep, Inv;
    SameRuns(trace, version, 0, k - 1);
    var a := StepAt(trace, version, k - 1);
    if p(trace[k - 1].runs[i]) {
      j := FirstTime(trace, version, k - 1, i, p);
    } else {
      j := k - 1;
    }
  }

  lemma Starts(trace: seq<State>, version: string, k: nat, i: nat)
    requires Execution(trace, version) && k < |trace| && i < |trace[k].runs|
    ensures i < |trace[0].runs| && trace[0].runs[i].pc.Creating?
  {
    SameRuns(trace, version, 0, k);
  }

  /** Whatever goes on to assemble, and so every miss, found no entry when it checked. */
  lemma MissWasAbsent(trace: seq<State>, version: string, k: nat, i: nat) returns (j: nat)
    requires Execution(trace, version) && k < |trace| && i < |trace[k].runs| && !FindsEntry(trace[k].runs[i])
    ensures j < k && i < |trace[j].runs| && trace[j].runs[i].pc.Checking?
    ensures trace[k].runs[i].EntryPath() !in trace[j].dir
  {
    hide Execution;
    Starts(trace, version, k, i);
    j := FirstTime(trace, version, k, i, r => !FindsEntry(r));
    var s, s' := trace[j], trace[j + 1];
    if s.runs[i].pc.Creating? || s.runs[i].pc.Checking? {
      CheckStep(s.runs[i], s.dir, s'.runs[i], s'.dir);
    }
  }

  predicate AnswersHit(r: Run) {
    (r.pc.Done? || r.pc.DroppingObj?) && r.pc.result.Prepared? && r.pc.result.status == Hit
  }

  /** A hit was there when the run looked. */
  lemma HitWasPresent(trace: seq<State>, version: string, k: nat, i: nat) returns (j: nat)
    requires Execution(trace, version) && k < |trace| && i < |trace[k].runs| && AnswersHit(trace[k].runs[i])
    ensures j < k && i < |trace[j].runs| && (trace[j].runs[i].pc.Checking? || trace[j].runs[i].pc.Rechecking?)
    ensures trace[k].runs[i].EntryPath() in trace[j].dir
  {
    hide Execution;
    Starts(trace, version, k, i);
    j := FirstTime(trace, version, k, i, r => AnswersHit(r));
  }

  predicate AnswersStoreFailed(r: Run) {
    (r.pc.Done? || r.pc.DroppingObj?) && r.pc.result.StoreFailed?
  }

  /** A run gives up storing only if the entry is still not there after renaming failed. */
  lemma StoreFailedWasAbsent(trace: seq<State>, version: string, k: nat, i: nat) returns (j: nat)
    requires Execution(trace, version) && k < |trace| && i < |trace[k].runs| && AnswersStoreFailed(trace[k].runs[i])
    ensures j < k && i < |trace[j].runs| && trace[j].runs[i].pc.Rechecking?
    ensures trace[k].runs[i].EntryPath() !in trace[j].dir
  {
    hide Execution;
    Starts(trace, version, k, i);
    j := FirstTime(trace, version, k, i, r => AnswersStoreFailed(r));
  }

  // ----- what follows -----

  /** A run whose assembler succeeded ends with an object, or because storing failed. */
  predicate Assembled(r: Run) {
    || r.pc == DroppingAsm(true) || r.pc.Renaming? || r.pc.Rechecking?
    || ((r.pc.Done? || r.pc.DroppingObj?) && (r.pc.result.Prepared? || r.pc.result.StoreFailed?))
  }

  lemma {:induction false} StaysAssembled(trace: seq<State>, version: string, k: nat, l: nat, i: nat)
    requires Execution(trace, version) && k <= l < |trace| && i < |trace[k].runs| && Assembled(trace[k].runs[i])
    ensures i < |trace[l].runs| && Assembled(trace[l].runs[i])
    decreases l - k
  {
    hide Execution, Inv;
    if k < l {
      StaysAssembled(trace, version, k, l - 1, i);
      var a := StepAt(trace, version, l - 1);
    }
  }

  /** A run that looks again and finds the entry. */
  predicate FindsAgain(r: Run) {
    r.pc.Rechecking? || r.pc == DroppingObj(Prepared(r.EntryPath(), Hit)) || r.pc == Done(Prepared(r.EntryPath(), Hit))
  }

  lemma AgainStep(r: Run, dir: Directory, r': Run, dir': Directory)
    requires RunStep(r, dir, r', dir') && FindsAgain(r) && r.EntryPath() in dir
    ensures FindsAgain(r')
  {
  }

  /** If the entry is there when renaming has failed, the run answers it. */
  lemma {:induction false} RecheckIsAnswered(trace: seq<State>, version: string, k: nat, l: nat, i: nat)
    requires Execution(trace, version) && k <= l < |trace| && i < |trace[k].runs|
    requires trace[k].runs[i].pc.Rechecking? && trace[k].runs[i].EntryPath() in trace[k].dir
    ensures i < |trace[l].runs| && FindsAgain(trace[l].runs[i])
    decreases l - k
  {
    hide Execution, RunStep, Inv;
    if k < l {
      RecheckIsAnswered(trace, version, k, l - 1, i);
      SameRuns(trace, version, k, l - 1);
      EntriesAreStable(trace, version, k, l - 1, i);
      var a := StepAt(trace, version, l - 1);
      if a == i {
        AgainStep(trace[l - 1].runs[i], trace[l - 1].dir, trace[l].runs[i], trace[l].dir);
      }
    }
  }

  // ----- a run can always finish -----

  /** No failure has been met: the run can still answer with an object. */
  predicate Hopeful(r: Run, dir: Directory) {
    match r.pc
    case DroppingAsm(assembled) => assembled
    case Rechecking => r.EntryPath() in dir
    case DroppingObj(result) => result.Prepared?
    case Done(result) => result.Prepared?
    case _ => true
  }

  /** How many steps are left. */
  function Rank(pc: Pc): nat {
    match pc
    case Creating => 8
    case Checking => 7
    case Writing => 6
    case Spawning => 5
    case Assembling => 4
    case DroppingAsm(_) => 3
    case Renaming => 2
    case Rechecking => 2
    case DroppingObj(_) => 1
    case Done(_) => 0
  }

  /** A step of a run that goes well. */
  lemma GoesWell(r: Run, dir: Directory) returns (r': Run, dir': Directory)
    requires RunFits(r, dir) && Hopeful(r, dir) && !r.pc.Done?
    ensures RunStep(r, dir, r', dir') && Hopeful(r', dir') && Rank(r'.pc) < Rank(r.pc)
  {
    r', dir' := r, dir;
    match r.pc
    case Creating => r' := r.At(Checking);
    case Checking => r' := r.At(if r.EntryPath() in dir then Done(Prepared(r.EntryPath(), Hit)) else Writing);
    case Writing =>
      r' := r.At(Spawning);
      dir' := dir[r.Asm() := Assembly(r.job.asm)];
    case Spawning => r' := r.At(Assembling);
    case Assembling =>
      r' := r.At(DroppingAsm(true));
      dir' := dir[r.Obj() := Object(r.job.asm)];
    case DroppingAsm(_) =>
      r' := r.At(Renaming);
      dir' := dir - {r.Asm()};
    case Renaming =>
      r' := r.At(Done(Prepared(r.EntryPath(), Miss)));
      dir' := (dir - {r.Obj()})[r.EntryPath() := dir[r.Obj()]];
    case Rechecking => r' := r.At(DroppingObj(Prepared(r.EntryPath(), Hit)));
    case DroppingObj(result) =>
      r' := r.At(Done(result));
      dir' := dir - {r.Obj()};
  }

  /** Whatever the other runs have done, a run that has met no failure can by itself finish with
      its object in at most eight steps. */
  lemma {:induction false} CanFinish(s: State, i: nat) returns (rest: seq<State>)
    requires Inv(s) && i < |s.runs| && Hopeful(s.runs[i], s.dir)
    ensures 0 < |rest| <= Rank(s.runs[i].pc) + 1 && rest[0] == s
    ensures forall k :: 0 <= k < |rest| - 1 ==> i < |rest[k].runs| && StepOf(rest[k], i, rest[k + 1])
    ensures var last := rest[|rest| - 1];
            && Inv(last) && i < |last.runs| && last.runs[i].pc.Done?
            && last.runs[i].pc.result.Prepared? && last.runs[i].pc.result.path in last.dir
    decreases Rank(s.runs[i].pc)
  {
    if s.runs[i].pc.Done? {
      rest := [s];
      return;
    }
    var r', dir' := GoesWell(s.runs[i], s.dir);
    var s' := State(dir', s.runs[i := r']);
    assert StepOf(s, i, s') && Next(s, s');
    StepKeepsInv(s, s');
    hide RunStep, Inv, Hopeful;
    var more := CanFinish(s', i);
    rest := [s] + more;
  }

  // ----- a run can fail wherever the code handles a failure -----

  /** The failure has not been passed, or has been met. */
  predicate HeadsFor(pc: Pc, failure: Outcome) {
    || pc == DroppingObj(failure) || pc == Done(failure)
    || match failure
       case CreateFailed => pc.Creating?
       case WriteFailed(_) => pc.Creating? || pc.Checking? || pc.Writing?
       case SpawnFailed => Rank(pc) >= Rank(Spawning)
       case AssemblerFailed => Rank(pc) >= Rank(Assembling) || pc == DroppingAsm(false)
       case StoreFailed => Rank(pc) >= Rank(Assembling) || pc == DroppingAsm(true) || pc.Renaming? || pc.Rechecking?
       case Prepared(_, _) => false
  }

  function StepsToFailure(pc: Pc): nat {
    2 * Rank(pc) + if pc.Renaming? then 1 else 0
  }

  /** A step of a run that does not find its entry and is to fail. */
  lemma GoesWrong(r: Run, dir: Directory, failure: Outcome) returns (r': Run, dir': Directory)
    requires RunFits(r, dir) && HeadsFor(r.pc, failure) && !r.pc.Done? && r.EntryPath() !in dir
    ensures RunStep(r, dir, r', dir') && HeadsFor(r'.pc, failure) && r'.EntryPath() !in dir'
    ensures StepsToFailure(r'.pc) < StepsToFailure(r.pc)
  {
    r', dir' := r, dir;
    match r.pc
    case Creating => r' := r.At(if failure.CreateFailed? then Done(failure) else Checking);
    case Checking => r' := r.At(Writing);
    case Writing =>
      r' := r.At(if failure.WriteFailed? then Done(failure) else Spawning);
      if failure != WriteFailed(false) {
        dir' := dir[r.Asm() := if failure.WriteFailed? then Partial else Assembly(r.job.asm)];
      }
    case Spawning => r' := r.At(if failure.SpawnFailed? then Done(failure) else Assembling);
    case Assembling =>
      r' := r.At(DroppingAsm(!failure.AssemblerFailed?));
      if !failure.AssemblerFailed? {
        dir' := dir[r.Obj() := Object(r.job.asm)];
      }
    case DroppingAsm(assembled) =>
      r' := r.At(if assembled then Renaming else DroppingObj(AssemblerFailed));
      dir' := dir - {r.Asm()};
    case Renaming => r' := r.At(Rechecking);
    case Rechecking => r' := r.At(DroppingObj(StoreFailed));
    case DroppingObj(result) =>
      r' := r.At(Done(result));
      dir' := dir - {r.Obj()};
  }

  /** A run whose entry is absent can meet each failure that is still ahead of it. */
  lemma {:induction false} CanFail(s: State, i: nat, failure: Outcome) returns (rest: seq<State>)
    requires Inv(s) && i < |s.runs| && HeadsFor(s.runs[i].pc, failure) && s.runs[i].EntryPath() !in s.dir
    ensures |rest| > 0 && rest[0] == s
    ensures forall k :: 0 <= k < |rest| - 1 ==> i < |rest[k].runs| && StepOf(rest[k], i, rest[k + 1])
    ensures var last := rest[|rest| - 1]; Inv(last) && i < |last.runs| && last.runs[i].pc == Done(failure)
    decreases StepsToFailure(s.runs[i].pc)
  {
    if s.runs[i].pc.Done? {
      rest := [s];
      return;
    }
    var r', dir' := GoesWrong(s.runs[i], s.dir, failure);
    var s' := State(dir', s.runs[i := r']);
    assert StepOf(s, i, s') && Next(s, s');
    StepKeepsInv(s, s');
    hide RunStep, Inv, HeadsFor;
    var more := CanFail(s', i, failure);
    rest := [s] + more;
  }
}

/** What an upload is told: whole visits of one server thread, from idle to idle, with any steps of other threads
    in between. */
module ImageAnswers {
  import opened Common
  import opened ImagePath
  import opened ImageStore

  ghost predicate Acts(r: seq<State>, k: nat, i: nat, e: Event) {
    k + 1 < |r| && i < |r[k].threads| && Step(r[k], r[k + 1], i, e)
  }

  ghost predicate AtPlace(s: State, i: nat, pc: Pc) {
    i < |s.threads| && s.threads[i] == pc
  }

  /** Thread `i` takes step `k` of the run and later continues from there at step `l`. */
  ghost predicate Continues(r: seq<State>, i: nat, k: nat, l: nat) {
    k < l && l < |r| && i < |r[l].threads| && AtPlace(r[k + 1], i, r[l].threads[i])
  }

  /** The next steps of thread `i`, those at positions `at` of the run, in which the world decides `es`. */
  ghost predicate Visit(r: seq<State>, i: nat, at: seq<nat>, es: seq<Event>) {
    && Run(r) && |es| == |at|
    && (forall n :: 0 <= n < |at| ==> at[n] + 1 < |r|)
    && (forall n :: 0 <= n < |at| ==> Acts(r, at[n], i, es[n]))
    && (forall m, n :: 0 <= m && n == m + 1 && n < |at| ==> Continues(r, i, at[m], at[n]))
  }

  /** Thread `i` is idle, is given the upload, finds the lock free, and the database answers truly. */
  ghost predicate Enters(r: seq<State>, i: nat, at: seq<nat>, es: seq<Event>, up: Upload) {
    && Visit(r, i, at, es) && |at| >= 3
    && AtPlace(r[at[0]], i, Idle) && es[0].up == up && up.data != []
    && r[at[1]].mutex == -1 && r[at[2] + 1].reliable
  }

  lemma ActsAt(r: seq<State>, i: nat, at: seq<nat>, es: seq<Event>, n: nat, pc: Pc)
    requires Visit(r, i, at, es) && n < |at| && AtPlace(r[at[n]], i, pc)
    ensures n < |es| && at[n] + 1 < |r| && i < |r[at[n]].threads| && r[at[n]].threads[i] == pc
    ensures Step(r[at[n]], r[at[n] + 1], i, es[n])
  {
    hide Step, Run;
    assert Acts(r, at[n], i, es[n]);
  }

  lemma GoesOn(r: seq<State>, i: nat, at: seq<nat>, es: seq<Event>, n: nat, pc: Pc)
    requires Visit(r, i, at, es) && n + 1 < |at| && at[n] + 1 < |r| && AtPlace(r[at[n] + 1], i, pc)
    ensures at[n] < at[n + 1] < |r| && AtPlace(r[at[n + 1]], i, pc)
  {
    hide Step, Run;
    var next := n + 1;
    assert Continues(r, i, at[n], at[next]);
  }

  /** The thread takes the lock, and then looks the record up if the id is known and saves the file if not. */
  lemma Entered(r: seq<State>, i: nat, at: seq<nat>, es: seq<Event>, up: Upload)
    requires Enters(r, i, at, es, up)
    ensures at[1] < |r| && at[2] + 1 < |r| && r[at[1] + 1].mutex == i
    ensures (AtPlace(r[at[2] + 1], i,
      if Known(r[at[2]].db, ImageId(up.data)) then Selecting(up) else Saving(up)))
  {
    hide Visit, ImageId, Known, Run;
    ActsAt(r, i, at, es, 0, Idle);
    GoesOn(r, i, at, es, 0, Waiting(up));
    ActsAt(r, i, at, es, 1, Waiting(up));
    GoesOn(r, i, at, es, 1, Checking(up));
    ActsAt(r, i, at, es, 2, Checking(up));
  }

  // ---------------------------------------------------------------- a known id

  /** The database hands out record `n` of the upload's id. */
  ghost predicate Hands(s: State, e: Event, id: nat, n: nat) {
    e.ok && e.pick == n && n < |s.db| && s.db[n].id == id
  }

  /** With truthful lookups an upload whose id has a record is answered with that record, and the lock is given up. */
  lemma KnownIsAnswered(r: seq<State>, i: nat, at: seq<nat>, es: seq<Event>, up: Upload, n: nat)
    requires Enters(r, i, at, es, up) && |at| == 5 && Known(r[at[2]].db, ImageId(up.data))
    requires Hands(r[at[3]], es[3], ImageId(up.data), n)
    ensures at[3] + 1 < |r| && at[4] + 1 < |r|
    ensures (var was := r[at[3]].db[n];
      AtPlace(r[at[3] + 1], i, Leaving(up, Found(was.path, was.size))) &&
      r[at[4] + 1].answers == r[at[4]].answers + [was])
    ensures AtPlace(r[at[4] + 1], i, Idle) && r[at[4] + 1].mutex == -1
    ensures r[at[4] + 1].db == r[at[4]].db && r[at[4] + 1].files == r[at[4]].files
  {
    hide Visit, ImageId, Known, Run;
    Entered(r, i, at, es, up);
    GoesOn(r, i, at, es, 2, Selecting(up));
    ActsAt(r, i, at, es, 3, Selecting(up));
    var was := r[at[3]].db[n];
    GoesOn(r, i, at, es, 3, Leaving(up, Found(was.path, was.size)));
    ActsAt(r, i, at, es, 4, Leaving(up, Found(was.path, was.size)));
  }

  lemma InRun(r: seq<State>, i: nat, at: seq<nat>, es: seq<Event>, n: nat)
    requires Visit(r, i, at, es) && n < |at|
    ensures Run(r) && at[n] + 1 < |r|
  {
    hide Step, Run;
    assert Acts(r, at[n], i, es[n]);
  }

  /** An answer given before means that the id is known from then on. */
  lemma AnsweredIsKnown(r: seq<State>, j: nat, k: nat, m: nat)
    requires Run(r) && j <= k < |r| && m < |r[j].answers|
    ensures Known(r[k].db, r[j].answers[m].id) && r[j].answers[m] in r[k].answers
  {
    hide Next;
    RunInv(r, j);
    RunGrows(r, j, k);
    var n :| 0 <= n < |r[j].db| && r[j].db[n] == r[j].answers[m];
    assert r[k].db[n] == r[j].answers[m];
    assert r[k].answers[m] == r[j].answers[m];
  }

  /** The same image again: whatever happened in between, the later upload gets exactly the earlier answer. */
  lemma SameAnswerAgain(r: seq<State>, i: nat, at: seq<nat>, es: seq<Event>, up: Upload, n: nat, m: nat)
    requires Enters(r, i, at, es, up) && |at| == 5
    requires at[0] < |r| && m < |r[at[0]].answers| && r[at[0]].answers[m].id == ImageId(up.data)
    requires Hands(r[at[3]], es[3], ImageId(up.data), n) && at[4] + 1 < |r| && r[at[4] + 1].reliable
    ensures r[at[4] + 1].answers == r[at[4]].answers + [r[at[0]].answers[m]]
  {
    hide Visit, ImageId, Known, Run, Next, Inv;
    InRun(r, i, at, es, 0);
    Ordered(r, i, at, es);
    var was, last := r[at[0]].answers[m], at[4] + 1;
    AnsweredIsKnown(r, at[0], at[2], m);
    KnownIsAnswered(r, i, at, es, up, n);
    AnsweredIsKnown(r, at[0], last, m);
    var a :| 0 <= a < |r[last].answers| && r[last].answers[a] == was;
    assert r[last].answers[|r[at[4]].answers|] == r[at[3]].db[n];
    OneAnswer(r, last, a, |r[at[4]].answers|);
  }

  lemma Ordered(r: seq<State>, i: nat, at: seq<nat>, es: seq<Event>)
    requires Visit(r, i, at, es) && |at| == 5
    ensures at[0] < at[1] < at[2] < at[3] < at[4]
  {
    hide Step, Run, Acts;
    assert Continues(r, i, at[0], at[1]) && Continues(r, i, at[1], at[2]);
    assert Continues(r, i, at[2], at[3]) && Continues(r, i, at[3], at[4]);
  }

  // ---------------------------------------------------------------- a new id

  lemma SavesWhole(s: State, t: State, i: nat, e: Event, up: Upload, path: string)
    requires AtPlace(s, i, Saving(up)) && Step(s, t, i, e) && e.write == Whole
    requires path == PathOf(s.dir, ImageId(up.data), up.kind) && path !in s.files
    ensures t.files == s.files[path := up.data] && AtPlace(t, i, Sizing(up, path))
  {
    hide ImageId, PathOf;
  }

  /** An upload of a new id, whose file is new and written whole, whose size is found and whose record goes in, leaves
      the image's bytes under its path, its record in the database and the answer behind, and gives up the lock. */
  lemma NewIsStored(r: seq<State>, i: nat, at: seq<nat>, es: seq<Event>, up: Upload, path: string, size: string)
    requires Enters(r, i, at, es, up) && |at| == 7 && !Known(r[at[2]].db, ImageId(up.data))
    requires path == PathOf(r[at[3]].dir, ImageId(up.data), up.kind) && path !in r[at[3]].files
    requires es[3].write == Whole && es[4].ok && es[4].size == size && es[5].ok
    ensures at[3] + 1 < |r| && at[5] + 1 < |r| && at[6] + 1 < |r|
    ensures r[at[3] + 1].files == r[at[3]].files[path := up.data]
    ensures path in r[at[6] + 1].files && r[at[6] + 1].files[path] == up.data
    ensures (var row := Record(ImageId(up.data), path, size);
      r[at[5] + 1].db == r[at[5]].db + [row] && r[at[6] + 1].answers == r[at[6]].answers + [row])
    ensures AtPlace(r[at[6] + 1], i, Idle) && r[at[6] + 1].mutex == -1
  {
    hide Visit, ImageId, Known, Run, PathOf, SaveStep, LookupStep;
    Entered(r, i, at, es, up);
    GoesOn(r, i, at, es, 2, Saving(up));
    ActsAt(r, i, at, es, 3, Saving(up));
    SavesWhole(r[at[3]], r[at[3] + 1], i, es[3], up, path);
    GoesOn(r, i, at, es, 3, Sizing(up, path));
    ActsAt(r, i, at, es, 4, Sizing(up, path));
    GoesOn(r, i, at, es, 4, Inserting(up, path, size));
    ActsAt(r, i, at, es, 5, Inserting(up, path, size));
    GoesOn(r, i, at, es, 5, Leaving(up, Found(path, size)));
    ActsAt(r, i, at, es, 6, Leaving(up, Found(path, size)));
    InRun(r, i, at, es, 3);
    RunGrows(r, at[3] + 1, at[6] + 1);
  }

  // ---------------------------------------------------------------- failures

  /** What a failing step is answered with: fetching the record, saving the file, finding its size, adding the
      record. */
  lemma FailureCodes(s: State, t: State, i: nat, e: Event)
    requires i < |s.threads| && Step(s, t, i, e) && !e.ok
    ensures i < |t.threads|
    ensures s.threads[i].Selecting? ==> t.threads[i] == Leaving(s.threads[i].up, Failed(-54))
    ensures s.threads[i].Sizing? ==> t.threads[i] == Leaving(s.threads[i].up, Failed(-56))
    ensures s.threads[i].Inserting? ==> t.threads[i] == Leaving(s.threads[i].up, Failed(-57))
  {
    hide ImageId, PathOf, Known, SaveStep;
    if s.threads[i].Saving? { StoreMoves(s, t, i, e); }
  }

  lemma SaveFailureCode(s: State, t: State, i: nat, e: Event)
    requires i < |s.threads| && Step(s, t, i, e) && s.threads[i].Saving?
    requires PathOf(s.dir, ImageId(s.threads[i].up.data), s.threads[i].up.kind) !in s.files
    requires e.write.NotOpened? || e.write.Cut?
    ensures i < |t.threads| && t.threads[i] == Leaving(s.threads[i].up, Failed(-55))
  {
    hide ImageId, PathOf;
  }

  /** A failed upload leaves no answer behind, and the lock is free. */
  lemma FailedLeaves(s: State, t: State, i: nat, e: Event)
    requires i < |s.threads| && Step(s, t, i, e) && s.threads[i].Leaving? && s.threads[i].reply.Failed?
    ensures t == s.(mutex := -1, threads := s.threads[i := Idle])
  {
    hide ImageId, PathOf;
  }

  /** How many steps a thread takes at most before it is out of the lock. */
  function StepsToGo(pc: Pc): nat {
    match pc
    case Idle => 0
    case Waiting(_) => 0
    case Checking(_) => 5
    case Selecting(_) => 2
    case Saving(_) => 4
    case Sizing(_, _) => 3
    case Inserting(_, _, _) => 2
    case Leaving(_, _) => 1
  }

  lemma LookupCloser(s: State, t: State, i: nat, e: Event)
    requires i < |s.threads| && !Storing(s.threads[i]) && Locked(s.threads[i]) && LookupStep(s, t, i, e)
    ensures i < |t.threads| && 0 < StepsToGo(t.threads[i]) < StepsToGo(s.threads[i]) <= 5
  {
    hide ImageId, PathOf, Known, Selected;
  }

  lemma StoreCloser(s: State, t: State, i: nat, e: Event)
    requires i < |s.threads| && Storing(s.threads[i]) && StoreStep(s, t, i, e)
    ensures i < |t.threads| && StepsToGo(t.threads[i]) < StepsToGo(s.threads[i]) <= 5
    ensures StepsToGo(t.threads[i]) == 0 ==> t.threads[i] == Idle && t.mutex == -1
  {
    hide ImageId, PathOf;
    match s.threads[i]
    case Saving(up) => assert StepsToGo(t.threads[i]) in {1, 3};
    case Sizing(_, _) =>
    case Inserting(_, _, _) =>
    case Leaving(_, _) =>
  }

  /** Whatever fails, each step brings a thread closer to giving up the lock, and with the last one it does. */
  lemma LockIsGivenUp(s: State, t: State, i: nat, e: Event)
    requires i < |s.threads| && Locked(s.threads[i]) && Step(s, t, i, e)
    ensures i < |t.threads| && StepsToGo(t.threads[i]) < StepsToGo(s.threads[i]) <= 5
    ensures StepsToGo(t.threads[i]) == 0 ==> t.threads[i] == Idle && t.mutex == -1
  {
    hide LookupStep, StoreStep, StepsToGo;
    if Storing(s.threads[i]) { StoreCloser(s, t, i, e); } else { LookupCloser(s, t, i, e); }
  }
}

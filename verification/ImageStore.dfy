/** Uploads to the image store: any number of server threads, each passing through lookup, save, size and
    insert under one lock, with every step allowed to fail. */
module ImageStore {
  import opened Common
  import opened Md5Spec
  import opened QMd5
  import opened ImagePath

  /** The id of an image: the first eight bytes of its MD5 digest. */
  function ImageId(data: seq<byte>): nat {
    DigestLength(data);
    Bits64(Digest(data))
  }

  datatype Upload = Upload(data: seq<byte>, kind: int)

  datatype Record = Record(id: nat, path: string, size: string)

  datatype Reply = Found(path: string, size: string) | Failed(code: int)

  datatype Pc =
    | Idle
    | Waiting(up: Upload)
    | Checking(up: Upload)
    | Selecting(up: Upload)
    | Saving(up: Upload)
    | Sizing(up: Upload, path: string)
    | Inserting(up: Upload, path: string, size: string)
    | Leaving(up: Upload, reply: Reply)

  /** `answers` records the replies that reported success. `reliable` and `whole` say that no lookup was
      wrong and no write was cut short so far. */
  datatype State = State(
    dir: string,
    files: map<string, seq<byte>>,
    db: seq<Record>,
    mutex: int,
    threads: seq<Pc>,
    answers: seq<Record>,
    reliable: bool,
    whole: bool)

  /** `Cut` is a write that fails; `Lost` is one that succeeds and loses data when the file is closed. */
  datatype Write = NotOpened | Cut(part: seq<byte>) | Lost(part: seq<byte>) | Whole

  /** What the world decides during a step. */
  datatype Event = Event(up: Upload, ok: bool, found: bool, pick: nat, write: Write, size: string)

  ghost predicate Known(db: seq<Record>, id: nat) {
    exists k :: 0 <= k < |db| && db[k].id == id
  }

  ghost predicate Initial(s: State) {
    s.files == map[] && s.db == [] && s.mutex == -1 && s.answers == [] && s.reliable && s.whole &&
    forall pc :: pc in s.threads ==> pc == Idle
  }

  function Move(s: State, i: nat, pc: Pc): State
    requires i < |s.threads|
  {
    s.(threads := s.threads[i := pc])
  }

  predicate Storing(pc: Pc) { pc.Saving? || pc.Sizing? || pc.Inserting? || pc.Leaving? }

  /** Up to the lookup: take an upload, take the lock, ask whether the id is known, fetch its record. */
  ghost predicate LookupStep(s: State, t: State, i: nat, e: Event)
    requires i < |s.threads| && !Storing(s.threads[i])
  {
    match s.threads[i]
    case Idle => t == if e.up.data == [] then s else Move(s, i, Waiting(e.up))
    case Waiting(up) => t == if s.mutex == -1 then Move(s.(mutex := i), i, Checking(up)) else s
    case Checking(up) =>
      t == Move(s.(reliable := s.reliable && e.found == Known(s.db, ImageId(up.data))), i,
                if e.found then Selecting(up) else Saving(up))
    case Selecting(up) => t == Move(s, i, Leaving(up, Selected(s.db, ImageId(up.data), e)))
  }

  /** From saving the file to giving up the lock. */
  ghost predicate StoreStep(s: State, t: State, i: nat, e: Event)
    requires i < |s.threads| && Storing(s.threads[i])
  {
    match s.threads[i]
    case Saving(up) => SaveStep(s, t, i, up, PathOf(s.dir, ImageId(up.data), up.kind), e.write)
    case Sizing(up, path) => t == Move(s, i, if e.ok then Inserting(up, path, e.size) else Leaving(up, Failed(-56)))
    case Inserting(up, path, size) =>
      t == if e.ok then Move(s.(db := s.db + [Record(ImageId(up.data), path, size)]), i, Leaving(up, Found(path, size)))
           else Move(s, i, Leaving(up, Failed(-57)))
    case Leaving(up, reply) => t == Answer(Move(s.(mutex := -1), i, Idle), ImageId(up.data), reply)
  }

  ghost predicate Step(s: State, t: State, i: nat, e: Event)
    requires i < |s.threads|
  {
    if Storing(s.threads[i]) then StoreStep(s, t, i, e) else LookupStep(s, t, i, e)
  }

  /** A record of that id, or an error. */
  function Selected(db: seq<Record>, id: nat, e: Event): Reply {
    if e.ok && e.pick < |db| && db[e.pick].id == id then Found(db[e.pick].path, db[e.pick].size) else Failed(-54)
  }

  /** An existing file is left alone; a new one may be missing, cut short or whole afterwards. */
  ghost predicate SaveStep(s: State, t: State, i: nat, up: Upload, path: string, write: Write)
    requires i < |s.threads|
  {
    t == if path in s.files then Move(s, i, Sizing(up, path))
         else match write
           case NotOpened => Move(s, i, Leaving(up, Failed(-55)))
           case Cut(part) => Move(s.(files := s.files[path := part], whole := false), i, Leaving(up, Failed(-55)))
           case Lost(part) => Move(s.(files := s.files[path := part], whole := false), i, Sizing(up, path))
           case Whole => Move(s.(files := s.files[path := up.data]), i, Sizing(up, path))
  }

  function Answer(s: State, id: nat, reply: Reply): State {
    if reply.Found? then s.(answers := s.answers + [Record(id, reply.path, reply.size)]) else s
  }

  ghost predicate Next(s: State, t: State) {
    exists i: nat, e :: i < |s.threads| && Step(s, t, i, e)
  }

  // ---------------------------------------------------------------- the invariant

  predicate Locked(pc: Pc) { !pc.Idle? && !pc.Waiting? }

  ghost predicate Exclusive(s: State) {
    forall i: nat :: i < |s.threads| && Locked(s.threads[i]) ==> s.mutex == i
  }

  /** Every record points to a file. */
  ghost predicate Pointed(s: State) {
    forall k :: 0 <= k < |s.db| ==> s.db[k].path in s.files
  }

  ghost predicate OncePerId(s: State) {
    forall j, k :: 0 <= j < k < |s.db| ==> s.db[j].id != s.db[k].id
  }

  /** Every answer given is a record. */
  ghost predicate Answered(s: State) {
    forall k :: 0 <= k < |s.answers| ==> s.answers[k] in s.db
  }

  /** The bytes of every file hash to the id in its name. */
  ghost predicate Hashed(s: State) {
    forall id: nat, kind: int :: PathOf(s.dir, id, kind) in s.files ==> ImageId(s.files[PathOf(s.dir, id, kind)]) == id
  }

  /** What a thread inside the lock has established. */
  ghost predicate Prepared(s: State, pc: Pc) {
    (!pc.Idle? ==> pc.up.data != []) &&
    match pc
    case Saving(up) => s.reliable ==> !Known(s.db, ImageId(up.data))
    case Sizing(up, path) => path in s.files && (s.reliable ==> !Known(s.db, ImageId(up.data)))
    case Inserting(up, path, _) => path in s.files && (s.reliable ==> !Known(s.db, ImageId(up.data)))
    case Leaving(up, Found(path, size)) => Record(ImageId(up.data), path, size) in s.db
    case _ => true
  }

  ghost predicate AllPrepared(s: State) {
    forall i: nat :: i < |s.threads| ==> Prepared(s, s.threads[i])
  }

  ghost predicate Inv(s: State) {
    Exclusive(s) && Pointed(s) && (s.reliable ==> OncePerId(s)) && Answered(s) &&
    (s.whole ==> Hashed(s)) && AllPrepared(s)
  }

  // ---------------------------------------------------------------- what a step may change

  /** Files and records are only added; nothing that is there changes. */
  ghost predicate Grows(s: State, t: State) {
    && t.dir == s.dir && s.db <= t.db && s.answers <= t.answers
    && (forall p :: p in s.files ==> p in t.files && t.files[p] == s.files[p])
    && (t.reliable ==> s.reliable) && (t.whole ==> s.whole)
  }

  ghost predicate Moves(s: State, t: State, i: nat) {
    i < |s.threads| == |t.threads| && forall j: nat :: j < |s.threads| && j != i ==> t.threads[j] == s.threads[j]
  }

  lemma LookupGrows(s: State, t: State, i: nat, e: Event)
    requires i < |s.threads| && !Storing(s.threads[i]) && LookupStep(s, t, i, e)
    ensures Grows(s, t) && Moves(s, t, i)
  {
    hide ImageId, PathOf, Known, Selected;
  }

  lemma StoreGrows(s: State, t: State, i: nat, e: Event)
    requires i < |s.threads| && Storing(s.threads[i]) && StoreStep(s, t, i, e)
    ensures Grows(s, t)
  {
    hide ImageId, PathOf;
  }

  lemma StoreMoves(s: State, t: State, i: nat, e: Event)
    requires i < |s.threads| && Storing(s.threads[i]) && StoreStep(s, t, i, e)
    ensures Moves(s, t, i)
  {
    hide ImageId, PathOf;
  }

  lemma StepGrows(s: State, t: State, i: nat, e: Event)
    requires i < |s.threads| && Step(s, t, i, e)
    ensures Grows(s, t) && Moves(s, t, i)
  {
    hide Grows, Moves, StoreStep, LookupStep;
    if Storing(s.threads[i]) { StoreGrows(s, t, i, e); StoreMoves(s, t, i, e); } else { LookupGrows(s, t, i, e); }
  }

  /** Nobody enters or stays in the lock but its holder. */
  ghost predicate Passes(s: State, t: State, i: nat) {
    && i < |s.threads| && i < |t.threads|
    && (t.mutex == s.mutex || s.mutex == -1 || Locked(s.threads[i]))
    && (Locked(t.threads[i]) ==> t.mutex == i || (Locked(s.threads[i]) && t.mutex == s.mutex))
  }

  lemma LookupPasses(s: State, t: State, i: nat, e: Event)
    requires i < |s.threads| && !Storing(s.threads[i]) && LookupStep(s, t, i, e)
    ensures Passes(s, t, i)
  {
    hide ImageId, PathOf, Known, Selected;
  }

  lemma StorePasses(s: State, t: State, i: nat, e: Event)
    requires i < |s.threads| && Storing(s.threads[i]) && StoreStep(s, t, i, e)
    ensures Passes(s, t, i)
  {
    hide ImageId, PathOf;
  }

  lemma StepExclusive(s: State, t: State, i: nat, e: Event)
    requires i < |s.threads| && Step(s, t, i, e) && Exclusive(s) && Moves(s, t, i)
    ensures Exclusive(t)
  {
    hide StoreStep, LookupStep;
    if Storing(s.threads[i]) { StorePasses(s, t, i, e); } else { LookupPasses(s, t, i, e); }
  }

  lemma StepPointed(s: State, t: State, i: nat, e: Event)
    requires i < |s.threads| && Step(s, t, i, e) && Pointed(s) && Prepared(s, s.threads[i])
    ensures Pointed(t)
  {
    hide ImageId, PathOf;
  }

  lemma StepOncePerId(s: State, t: State, i: nat, e: Event)
    requires i < |s.threads| && Step(s, t, i, e) && Prepared(s, s.threads[i]) && (s.reliable ==> OncePerId(s))
    ensures t.reliable ==> OncePerId(t)
  {
    hide ImageId, PathOf;
    if t.reliable {
      forall j, k | 0 <= j < k < |t.db| ensures t.db[j].id != t.db[k].id {
        if k == |s.db| { assert s.db[j].id == t.db[j].id; }
      }
    }
  }

  lemma StepAnswered(s: State, t: State, i: nat, e: Event)
    requires i < |s.threads| && Step(s, t, i, e) && Answered(s) && Prepared(s, s.threads[i])
    ensures Answered(t)
  {
    hide ImageId, PathOf;
  }

  lemma StepHashed(s: State, t: State, i: nat, e: Event)
    requires i < |s.threads| && Step(s, t, i, e) && (s.whole ==> Hashed(s))
    ensures t.whole ==> Hashed(t)
  {
    hide ImageId, PathOf;
    if t.whole && t.files != s.files {
      var up := s.threads[i].up;
      var path := PathOf(s.dir, ImageId(up.data), up.kind);
      forall id: nat, kind: int | PathOf(s.dir, id, kind) in t.files
        ensures ImageId(t.files[PathOf(s.dir, id, kind)]) == id
      {
        if PathOf(s.dir, id, kind) == path { PathNamesId(s.dir, id, kind, ImageId(up.data), up.kind); }
      }
    }
  }

  lemma LookupPrepares(s: State, t: State, i: nat, e: Event)
    requires i < |s.threads| && !Storing(s.threads[i]) && LookupStep(s, t, i, e) && Prepared(s, s.threads[i])
    ensures i < |t.threads| && Prepared(t, t.threads[i])
  {
    hide ImageId, PathOf;
  }

  lemma StorePrepares(s: State, t: State, i: nat, e: Event)
    requires i < |s.threads| && Storing(s.threads[i]) && StoreStep(s, t, i, e) && Prepared(s, s.threads[i])
    ensures i < |t.threads| && Prepared(t, t.threads[i])
  {
    hide ImageId, PathOf;
    if s.threads[i].Inserting? && e.ok {
      assert t.db[|s.db|] == Record(ImageId(s.threads[i].up.data), s.threads[i].path, s.threads[i].size);
    }
  }

  /** The moving thread establishes what its new place claims. */
  lemma StepPrepares(s: State, t: State, i: nat, e: Event)
    requires i < |s.threads| && Step(s, t, i, e) && Prepared(s, s.threads[i])
    ensures i < |t.threads| && Prepared(t, t.threads[i])
  {
    hide Prepared, StoreStep, LookupStep;
    if Storing(s.threads[i]) { StorePrepares(s, t, i, e); } else { LookupPrepares(s, t, i, e); }
  }

  /** The others keep their claims: none of them is inside the lock while a record is added. */
  lemma OthersPrepared(s: State, t: State, i: nat, e: Event, j: nat)
    requires i < |s.threads| && Step(s, t, i, e) && Exclusive(s) && j < |s.threads| && j != i
    requires Prepared(s, s.threads[j])
    requires Grows(s, t)
    ensures Prepared(t, s.threads[j])
  {
    hide ImageId, PathOf, Step;
    if t.db != s.db { OnlyInsertAdds(s, t, i, e); }
    if s.threads[j].Leaving? && s.threads[j].reply.Found? {
      var r := Record(ImageId(s.threads[j].up.data), s.threads[j].reply.path, s.threads[j].reply.size);
      var k :| 0 <= k < |s.db| && s.db[k] == r;
      assert t.db[k] == r;
    }
  }

  lemma OnlyInsertAdds(s: State, t: State, i: nat, e: Event)
    requires i < |s.threads| && Step(s, t, i, e) && t.db != s.db
    ensures s.threads[i].Inserting?
  {
    hide ImageId, PathOf;
  }

  lemma MovesOnly(s: State, t: State, i: nat)
    requires Moves(s, t, i)
    ensures |t.threads| == |s.threads| && forall j: nat :: j < |s.threads| && j != i ==> t.threads[j] == s.threads[j]
  {
  }

  lemma NextInv(s: State, t: State)
    requires Inv(s) && Next(s, t)
    ensures Inv(t) && Grows(s, t)
  {
    hide Step, Prepared, Grows, Moves, Exclusive, Pointed, OncePerId, Answered, Hashed;
    var i: nat, e :| i < |s.threads| && Step(s, t, i, e);
    assert Prepared(s, s.threads[i]);
    StepGrows(s, t, i, e);
    MovesOnly(s, t, i);
    StepExclusive(s, t, i, e);
    StepPointed(s, t, i, e);
    StepOncePerId(s, t, i, e);
    StepAnswered(s, t, i, e);
    StepHashed(s, t, i, e);
    StepPrepares(s, t, i, e);
    forall j: nat | j < |t.threads| ensures Prepared(t, t.threads[j]) {
      if j != i {
        assert Prepared(s, s.threads[j]);
        OthersPrepared(s, t, i, e, j);
      }
    }
  }

  lemma InitialInv(s: State)
    requires Initial(s)
    ensures Inv(s)
  {
    hide ImageId, PathOf;
    forall i: nat | i < |s.threads| ensures s.threads[i] == Idle { assert s.threads[i] in s.threads; }
  }

  // ---------------------------------------------------------------- whole runs

  ghost predicate Run(r: seq<State>) {
    |r| > 0 && Initial(r[0]) && forall k :: 0 <= k < |r| - 1 ==> Next(r[k], r[k + 1])
  }

  lemma {:induction false} RunInv(r: seq<State>, k: nat)
    requires Run(r) && k < |r|
    ensures Inv(r[k])
  {
    hide Inv, Initial, Next;
    if k == 0 { InitialInv(r[0]); } else { RunInv(r, k - 1); NextInv(r[k - 1], r[k]); }
  }

  /** Over any stretch of any run, files and records stay as they are. */
  lemma {:induction false} RunGrows(r: seq<State>, j: nat, k: nat)
    requires Run(r) && j <= k < |r|
    ensures Grows(r[j], r[k])
    decreases k - j
  {
    hide Inv, Initial, Next;
    if j < k {
      RunGrows(r, j, k - 1);
      RunInv(r, k - 1);
      NextInv(r[k - 1], r[k]);
    }
  }

  /** A record always points to an existing file, which is never rewritten. */
  lemma RecordsPoint(r: seq<State>, j: nat, k: nat, n: nat)
    requires Run(r) && j <= k < |r| && n < |r[j].db|
    ensures n < |r[k].db| && r[k].db[n] == r[j].db[n]
    ensures (var path := r[j].db[n].path;
      path in r[j].files && path in r[k].files && r[k].files[path] == r[j].files[path])
  {
    hide Next;
    RunInv(r, j);
    RunGrows(r, j, k);
  }

  /** With reliable lookups an id has one record, and all answers for it agree. */
  lemma OneAnswer(r: seq<State>, k: nat, m: nat, n: nat)
    requires Run(r) && k < |r| && r[k].reliable && m < |r[k].answers| && n < |r[k].answers|
    requires r[k].answers[m].id == r[k].answers[n].id
    ensures OncePerId(r[k]) && r[k].answers[m] == r[k].answers[n]
  {
    hide Next;
    RunInv(r, k);
    var s := r[k];
    var i :| 0 <= i < |s.db| && s.db[i] == s.answers[m];
    var j :| 0 <= j < |s.db| && s.db[j] == s.answers[n];
  }

  /** If no write was cut short, every stored file hashes to the id in its name. */
  lemma FilesHash(r: seq<State>, k: nat, id: nat, kind: int)
    requires Run(r) && k < |r| && r[k].whole && PathOf(r[k].dir, id, kind) in r[k].files
    ensures ImageId(r[k].files[PathOf(r[k].dir, id, kind)]) == id
  {
    hide Next;
    RunInv(r, k);
  }

  // ---------------------------------------------------------------- single files

  /** What a write leaves in a new file. */
  function Content(write: Write, data: seq<byte>): seq<byte>
    requires !write.NotOpened?
  {
    match write case Cut(part) => part case Lost(part) => part case Whole => data
  }

  /** Thread `i` creates the file of its upload. */
  ghost predicate Creates(s: State, t: State, i: nat, e: Event, path: string) {
    && i < |s.threads| && Step(s, t, i, e) && s.threads[i].Saving? && !e.write.NotOpened?
    && path == PathOf(s.dir, ImageId(s.threads[i].up.data), s.threads[i].up.kind)
    && path !in s.files && path in t.files && t.files[path] == Content(e.write, s.threads[i].up.data)
  }

  lemma NewFile(s: State, t: State, i: nat, e: Event, path: string)
    requires i < |s.threads| && Step(s, t, i, e) && path !in s.files && path in t.files
    ensures Creates(s, t, i, e, path)
  {
    hide ImageId, PathOf;
  }

  /** Every file was created by some step of the run. */
  lemma {:induction false} Created(r: seq<State>, k: nat, path: string) returns (j: nat, i: nat, e: Event)
    requires Run(r) && k < |r| && path in r[k].files
    ensures j < k && Creates(r[j], r[j + 1], i, e, path)
    decreases k
  {
    hide Creates, Step;
    if path in r[k - 1].files {
      j, i, e := Created(r, k - 1, path);
    } else {
      j := k - 1;
      assert Next(r[j], r[j + 1]);
      i, e :| i < |r[j].threads| && Step(r[j], r[j + 1], i, e);
      NewFile(r[j], r[j + 1], i, e, path);
    }
  }

  /** A file holds for ever what the step that created it wrote, and hashes to the id in its name if that write was
      neither cut short nor lost data, whatever became of other writes. */
  lemma FileAsCreated(r: seq<State>, j: nat, k: nat, i: nat, e: Event, path: string)
    requires Run(r) && j < k < |r| && Creates(r[j], r[j + 1], i, e, path)
    ensures path in r[k].files && r[k].files[path] == Content(e.write, r[j].threads[i].up.data)
    ensures e.write.Whole? ==> ImageId(r[k].files[path]) == ImageId(r[j].threads[i].up.data)
    ensures e.write.Whole? ==>
              forall id: nat, kind: int :: path == PathOf(r[k].dir, id, kind) ==> ImageId(r[k].files[path]) == id
  {
    hide Next, Step, ImageId, PathOf;
    RunGrows(r, j, k);
    RunGrows(r, j + 1, k);
    var up := r[j].threads[i].up;
    forall id: nat, kind: int | path == PathOf(r[k].dir, id, kind) ensures id == ImageId(up.data) {
      PathNamesId(r[j].dir, id, kind, ImageId(up.data), up.kind);
    }
  }

  /** An upload whose file is there already, truncated or not, is answered with that file as it is. */
  lemma AnsweredAsFound(s: State, i: nat, e: Event) returns (t: State)
    requires i < |s.threads| && s.threads[i].Saving? && e.ok
    requires PathOf(s.dir, ImageId(s.threads[i].up.data), s.threads[i].up.kind) in s.files
    ensures (var up := s.threads[i].up;
      var path := PathOf(s.dir, ImageId(up.data), up.kind);
      t.files == s.files && i < |t.threads| && t.threads[i] == Leaving(up, Found(path, e.size)) &&
      exists u, v :: Next(s, u) && Next(u, v) && Next(v, t))
  {
    hide ImageId, PathOf;
    var up := s.threads[i].up;
    var path := PathOf(s.dir, ImageId(up.data), up.kind);
    var u := Move(s, i, Sizing(up, path));
    var v := Move(u, i, Inserting(up, path, e.size));
    t := Move(v.(db := v.db + [Record(ImageId(up.data), path, e.size)]), i, Leaving(up, Found(path, e.size)));
    assert Step(s, u, i, e) && Step(u, v, i, e) && Step(v, t, i, e);
    assert Next(s, u) && Next(u, v) && Next(v, t);
  }
}

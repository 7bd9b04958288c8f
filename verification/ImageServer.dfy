/** The image server object: files, database and server threads, stepped one action at a time. */
module ImageServer {
  import opened Common
  import opened ImagePath
  import opened ImageStore

  class IdfsServer {
    const imgDir: string
    var files: map<string, seq<byte>>
    var db: seq<Record>
    var mutex: int
    var threads: seq<Pc>
    ghost var answers: seq<Record>
    ghost var reliable: bool
    ghost var whole: bool

    ghost function View(): ImageStore.State
      reads this
    {
      ImageStore.State(imgDir, files, db, mutex, threads, answers, reliable, whole)
    }

    constructor (imgDir: string, threads: nat)
      ensures Initial(View()) && Inv(View()) && |this.threads| == threads
    {
      this.imgDir, files, db, mutex := imgDir, map[], [], -1;
      this.threads := seq(threads, _ => Idle);
      answers, reliable, whole := [], true, true;
      new;
      InitialInv(View());
    }

    /** Writes a new file; an existing one is left alone. 0 and 1 mean that the file is there
        afterwards, new or as it was. */
    method SaveImage(path: string, data: seq<byte>, write: Write) returns (ret: int)
      modifies this`files
      ensures data == [] ==> ret == -1 && files == old(files)
      ensures data != [] && path in old(files) ==> ret == 1 && files == old(files)
      ensures (data != [] && path !in old(files) ==>
        match write
        case NotOpened => ret == -2 && files == old(files)
        case Cut(part) => ret == -3 && files == old(files)[path := part]
        case Lost(part) => ret == 0 && files == old(files)[path := part]
        case Whole => ret == 0 && files == old(files)[path := data])
    {
      if |data| <= 0 { return -1; }
      if path !in files {
        match write {
          case NotOpened => return -2;
          case Cut(part) =>
            files := files[path := part];
            return -3;
          case Lost(part) => files := files[path := part];
          case Whole => files := files[path := data];
        }
      } else {
        return 1;
      }
      ret := 0;
    }

    /** Up to the lookup. The world supplies the upload, the answer of the database, and its record. */
    method Lookup(i: nat, e: Event)
      requires Inv(View()) && i < |threads| && !Storing(threads[i])
      modifies this`mutex, this`threads, this`reliable
      ensures Inv(View()) && LookupStep(old(View()), View(), i, e)
    {
      hide Inv, ImageId;
      ghost var s := View();
      match threads[i] {
        case Idle => if e.up.data != [] { threads := threads[i := Waiting(e.up)]; }
        case Waiting(up) =>
          if mutex == -1 {
            mutex := i;
            threads := threads[i := Checking(up)];
          }
        case Checking(up) =>
          reliable := reliable && e.found == Known(db, ImageId(up.data));
          threads := threads[i := if e.found then Selecting(up) else Saving(up)];
        case Selecting(up) =>
          threads := threads[i := Leaving(up, Selected(db, ImageId(up.data), e))];
      }
      NextInv(s, View()) by { assert Step(s, View(), i, e); }
    }

    /** From saving the file to giving up the lock. */
    method Save(i: nat, e: Event)
      requires Inv(View()) && i < |threads| && Storing(threads[i])
      modifies this`files, this`db, this`mutex, this`threads, this`answers, this`whole
      ensures Inv(View()) && StoreStep(old(View()), View(), i, e)
    {
      hide Inv, ImageId, PathOf;
      ghost var s := View();
      NotEmpty(s, i);
      match threads[i] {
        case Saving(up) =>
          var path := PathOf(imgDir, ImageId(up.data), up.kind);
          whole := whole && (path in files || !(e.write.Cut? || e.write.Lost?));
          var ret := SaveImage(path, up.data, e.write);
          threads := threads[i := if ret < 0 then Leaving(up, Failed(-55)) else Sizing(up, path)];
        case Sizing(up, path) =>
          threads := threads[i := if e.ok then Inserting(up, path, e.size) else Leaving(up, Failed(-56))];
        case Inserting(up, path, size) =>
          if e.ok {
            db := db + [Record(ImageId(up.data), path, size)];
            threads := threads[i := Leaving(up, Found(path, size))];
          } else {
            threads := threads[i := Leaving(up, Failed(-57))];
          }
        case Leaving(up, reply) =>
          mutex := -1;
          if reply.Found? { answers := answers + [Record(ImageId(up.data), reply.path, reply.size)]; }
          threads := threads[i := Idle];
      }
      NextInv(s, View()) by { assert Step(s, View(), i, e); }
    }
  }

  lemma NotEmpty(s: ImageStore.State, i: nat)
    requires Inv(s) && i < |s.threads| && !s.threads[i].Idle?
    ensures s.threads[i].up.data != []
  {
    assert Prepared(s, s.threads[i]);
  }
}

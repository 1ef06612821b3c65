/** The host's side of a file session: messages acting on a disk, through the sandbox. */
module HostDisk {
  import opened Foundations
  import opened Numbers
  import opened Sandbox
  import opened Transfer

  /** Files and directories by path. */
  datatype Disk = Disk(files: map<Path, File>, dirs: set<Path>)

  function Parent(p: Path): Path
    requires p != []
  {
    p[..|p| - 1]
  }

  predicate HasPlace(d: Disk, p: Path)
  {
    p != [] && Parent(p) in d.dirs
  }

  /** A tree: everything but the top lies in a directory, and no path is both. */
  ghost predicate Tree(d: Disk)
  {
    && [] in d.dirs
    && (forall p :: p in d.files ==> p !in d.dirs && HasPlace(d, p))
    && (forall p :: p in d.dirs && p != [] ==> HasPlace(d, p))
  }

  // ---- what the operating system does ----

  function OpenForWriting(d: Disk, p: Path, truncate: bool): Option<Disk>
  {
    if p in d.files then Some(if truncate then d.(files := d.files[p := []]) else d)
    else if p in d.dirs || !HasPlace(d, p) then None
    else Some(d.(files := d.files[p := []]))
  }

  function UpTo(p: Path): set<Path>
  {
    set i | 0 <= i <= |p| :: p[..i]
  }

  function MakeDirs(d: Disk, p: Path): Option<Disk>
  {
    if exists q :: q in d.files && q <= p then None else Some(d.(dirs := d.dirs + UpTo(p)))
  }

  function Without(d: Disk, p: Path): Disk
  {
    Disk(map q | q in d.files && !(p <= q) :: d.files[q], set q | q in d.dirs && !(p <= q))
  }

  /** Removing a tree; the top itself never goes. */
  function RemoveTree(d: Disk, p: Path): (Disk, bool)
  {
    if p == [] then (Disk(map[], {[]}), false)
    else if p in d.dirs || p in d.files then (Without(d, p), true)
    else (d, false)
  }

  predicate Vacant(d: Disk, p: Path)
  {
    (forall q :: q in d.files && p <= q ==> q == p) && (forall q :: q in d.dirs && p <= q ==> q == p)
  }

  function RemoveOne(d: Disk, p: Path): Option<Disk>
  {
    if p in d.dirs then if p != [] && Vacant(d, p) then Some(Without(d, p)) else None
    else if p in d.files then Some(d.(files := d.files - {p}))
    else None
  }

  /** Where `q` goes when the tree at `a` becomes the tree at `b`. */
  function Moved(a: Path, b: Path, q: Path): Path
  {
    if a <= q then b + q[|a|..] else q
  }

  function RenamePath(d: Disk, a: Path, b: Path): Option<Disk>
  {
    if a !in d.files && a !in d.dirs then None
    else if a == b then Some(d)
    else if !HasPlace(d, b) then None
    else if a in d.files then
      if b in d.dirs then None else Some(d.(files := (d.files - {a})[b := d.files[a]]))
    else if a <= b || b in d.files || !Vacant(d, b) then None
    else
      MovedApart(d, a, b);
      Some(Disk(map p | p in d.files :: Moved(a, b, p) := d.files[p], set p | p in d.dirs :: Moved(a, b, p)))
  }

  /** Moving a tree to a free place merges no two paths, but the empty directory it may replace. */
  lemma MovedApart(d: Disk, a: Path, b: Path)
    requires Vacant(d, b) && b !in d.files
    ensures forall p, q :: p in d.files && q in d.files && Moved(a, b, p) == Moved(a, b, q) ==> p == q
    ensures forall p, q :: p in d.files && q in d.dirs && Moved(a, b, p) == Moved(a, b, q) ==> p == q || p == a
  {
    forall p: Path, q: Path | a <= p && a <= q && Moved(a, b, p) == Moved(a, b, q) ensures p == q {
      SplitEqual(b, p[|a|..], b, q[|a|..]);
      assert p == a + p[|a|..] && q == a + q[|a|..];
    }
    forall p: Path, q: Path | a <= p && !(a <= q) && Moved(a, b, p) == Moved(a, b, q)
      ensures b <= q && (q == b ==> p == a)
    {
      assert q == b + p[|a|..];
    }
  }

  // ---- the session ----

  /** The disk after one message, whether it is answered or refused. */
  function AfterMessage(root: Path, d: Disk, active: Option<string>, msg: FileMessage): Disk
  {
    match msg
    case Put(path, _, _) =>
      (match Resolved(root, path)
       case Err(_) => d
       case Ok(p) =>
         var d1 := if p == [] then Some(d) else MakeDirs(d, Parent(p));
         if d1.None? then d
         else
           var d2 := OpenForWriting(d1.value, p, true);
           if d2.None? then d1.value else d2.value)
    case Chunk(offset, data) =>
      if active.None? then d
      else
        (match Resolved(root, active.value)
         case Err(_) => d
         case Ok(p) =>
           var d1 := OpenForWriting(d, p, false);
           if d1.None? then d
           else if offset >= TWO_63 || |WriteAt(d1.value.files[p], offset, data)| >= TWO_63 then d1.value
           else d1.value.(files := d1.value.files[p := WriteAt(d1.value.files[p], offset, data)]))
    case Mkdir(path) =>
      (match Resolved(root, path)
       case Err(_) => d
       case Ok(p) => UnwrapOr(MakeDirs(d, p), d))
    case Remove(path, recursive) =>
      (match Resolved(root, path)
       case Err(_) => d
       case Ok(p) => if recursive then RemoveTree(d, p).0 else UnwrapOr(RemoveOne(d, p), d))
    case Rename(source, target) =>
      (match (Resolved(root, source), Resolved(root, target))
       case (Ok(a), Ok(b)) => UnwrapOr(RenamePath(d, a, b), d)
       case _ => d)
    case _ => d
  }

  function ActiveAfter(active: Option<string>, msg: FileMessage): Option<string>
  {
    match msg case Put(path, _, _) => Some(path) case Done(_, _) => None case _ => active
  }

  function DoneOr(done: Option<Disk>, path: string): Result<seq<FileMessage>, Fault>
  {
    if done.Some? then Ok([Done(path, 0)]) else Err(Io)
  }

  /** The answer to every message but Get. */
  function Reply(root: Path, d: Disk, active: Option<string>, msg: FileMessage): Result<seq<FileMessage>, Fault>
    requires !msg.Get?
  {
    match msg
    case Put(path, _, _) =>
      (match Resolved(root, path)
       case Err(_) => Err(Escapes)
       case Ok(p) =>
         var made := if p == [] then Some(d) else MakeDirs(d, Parent(p));
         if made.None? || OpenForWriting(made.value, p, true).None? then Err(Io) else Ok([]))
    case Chunk(offset, data) => if active.None? then Ok([]) else ChunkReply(root, d, active.value, offset, data)
    case Done(path, bytes) => Ok([msg])
    case Mkdir(path) =>
      (match Resolved(root, path)
       case Err(_) => Err(Escapes)
       case Ok(p) => DoneOr(MakeDirs(d, p), path))
    case Remove(path, recursive) =>
      (match Resolved(root, path)
       case Err(_) => Err(Escapes)
       case Ok(p) =>
         if recursive then (if RemoveTree(d, p).1 then Ok([Done(path, 0)]) else Err(Io)) else DoneOr(RemoveOne(d, p), path))
    case Rename(source, target) =>
      (match (Resolved(root, source), Resolved(root, target))
       case (Ok(a), Ok(b)) => DoneOr(RenamePath(d, a, b), target)
       case _ => Err(Escapes))
    case Failure => Ok([Failure])
  }

  function ChunkReply(root: Path, d: Disk, path: string, offset: u64, data: Bytes): Result<seq<FileMessage>, Fault>
  {
    match Resolved(root, path)
    case Err(_) => Err(Escapes)
    case Ok(p) =>
      var file := OpenForWriting(d, p, false);
      if file.None? || offset >= TWO_63 || |WriteAt(file.value.files[p], offset, data)| >= TWO_63 then Err(Io) else Ok([])
  }

  class Session {
    const root: Path
    var disk: Disk
    var active: Option<string>   // the path of the put under way

    constructor (root: Path, disk: Disk)
      ensures this.root == root && this.disk == disk && active == None
    {
      this.root, this.disk, active := root, disk, None;
    }

    /** One message on the files channel; an error ends the session. Without the capability
        nothing happens. A put always starts its file afresh, wherever it says to resume. */
    method Handle(msg: FileMessage, allowed: bool, pick: nat -> nat) returns (r: Result<seq<FileMessage>, Fault>)
      modifies this
      ensures disk == if allowed then AfterMessage(root, old(disk), old(active), msg) else old(disk)
      ensures active == if allowed then ActiveAfter(old(active), msg) else old(active)
      ensures !allowed ==> r == Ok([])
      ensures allowed && msg.Get? ==>
        match Resolved(root, msg.path)
        case Err(_) => r == Err(Escapes)
        case Ok(p) =>
          if p in disk.files then
            && (r == Err(Io) <==> msg.offset >= TWO_63)
            && (r != Err(Io) ==> r.Ok? && AnswersGet(r.value, msg.path, disk.files[p], msg.offset, msg.length))
          else
            // a directory opens, and only reading it fails
            r == if p in disk.dirs && msg.offset < TWO_63 && msg.length == Some(0) then Ok([Done(msg.path, 0)]) else Err(Io)
      ensures allowed && !msg.Get? ==> r == Reply(root, old(disk), old(active), msg)
    {
      r := Ok([]);
      if !allowed {
        return;
      }
      match msg {
        case Put(path, _, _) =>
          r := StartPut(msg);
          active := Some(path);
        case Chunk(offset, data) =>
          if active.Some? {
            r := WriteChunk(active.value, offset, data);
          }
        case Done(path, bytes) =>
          active := None;
          r := Ok([Done(path, bytes)]);
        case Get(path, offset, length) =>
          var p := Resolve(root, path);
          if p.Err? {
            return Err(Escapes);
          }
          if p.value !in disk.files {
            if p.value in disk.dirs && offset < TWO_63 && length == Some(0) {
              return Ok([Done(path, 0)]);
            }
            return Err(Io);
          }
          r := GetFile(path, disk.files[p.value], offset, length, pick);
        case Mkdir(path) =>
          var p := Resolve(root, path);
          if p.Err? {
            return Err(Escapes);
          }
          var made := MakeDirs(disk, p.value);
          if made.None? {
            return Err(Io);
          }
          disk := made.value;
          r := Ok([Done(path, 0)]);
        case Remove(path, recursive) =>
          r := RemovePath(path, recursive);
        case Rename(source, target) =>
          r := MovePath(source, target);
        case Failure =>
          r := Ok([Failure]);
      }
    }

    /** Makes the directories a put needs and opens its file, empty. */
    method StartPut(msg: FileMessage) returns (r: Result<seq<FileMessage>, Fault>)
      requires msg.Put?
      modifies this`disk
      ensures disk == AfterMessage(root, old(disk), old(active), msg)
      ensures r == Reply(root, old(disk), old(active), msg)
    {
      var p := Resolve(root, msg.path);
      if p.Err? {
        return Err(Escapes);
      }
      if p.value != [] {
        var made := MakeDirs(disk, Parent(p.value));
        if made.None? {
          return Err(Io);
        }
        disk := made.value;
      }
      var ready := OpenForWriting(disk, p.value, true);
      if ready.None? {
        return Err(Io);
      }
      disk := ready.value;
      r := Ok([]);
    }

    method RemovePath(path: string, recursive: bool) returns (r: Result<seq<FileMessage>, Fault>)
      modifies this`disk
      ensures disk == AfterMessage(root, old(disk), active, Remove(path, recursive))
      ensures r == Reply(root, old(disk), active, Remove(path, recursive))
    {
      var p := Resolve(root, path);
      if p.Err? {
        return Err(Escapes);
      }
      var ok := true;
      if recursive {
        var (left, gone) := RemoveTree(disk, p.value);
        disk, ok := left, gone;
      } else {
        var left := RemoveOne(disk, p.value);
        if left.Some? {
          disk := left.value;
        }
        ok := left.Some?;
      }
      r := if ok then Ok([Done(path, 0)]) else Err(Io);
    }

    method MovePath(source: string, target: string) returns (r: Result<seq<FileMessage>, Fault>)
      modifies this`disk
      ensures disk == AfterMessage(root, old(disk), active, Rename(source, target))
      ensures r == Reply(root, old(disk), active, Rename(source, target))
    {
      var a := Resolve(root, source);
      var b := Resolve(root, target);
      if a.Err? || b.Err? {
        return Err(Escapes);
      }
      var moved := RenamePath(disk, a.value, b.value);
      if moved.None? {
        return Err(Io);
      }
      disk := moved.value;
      r := Ok([Done(target, 0)]);
    }

    method WriteChunk(path: string, offset: u64, data: Bytes) returns (r: Result<seq<FileMessage>, Fault>)
      modifies this`disk
      ensures disk == AfterMessage(root, old(disk), Some(path), Chunk(offset, data))
      ensures r == ChunkReply(root, old(disk), path, offset, data)
    {
      var p := Resolve(root, path);
      if p.Err? {
        return Err(Escapes);
      }
      var ready := OpenForWriting(disk, p.value, false);
      if ready.None? {
        return Err(Io);
      }
      disk := ready.value;
      var content := WriteAt(disk.files[p.value], offset, data);
      if offset >= TWO_63 || |content| >= TWO_63 {
        return Err(Io);
      }
      disk := disk.(files := disk.files[p.value := content]);
      r := Ok([]);
    }
  }

  // ---- the sandbox holds ----

  ghost predicate SameFile(d1: Disk, d2: Disk, p: Path)
  {
    (p in d1.files <==> p in d2.files) && (p in d1.files ==> d1.files[p] == d2.files[p])
  }

  /** No message changes, makes or removes a file outside the root. Directories outside are
      never removed, and the only new ones are those that hold the root itself. */
  lemma {:induction false} OutsideUntouched(root: Path, d: Disk, active: Option<string>, msg: FileMessage, q: Path)
    requires !Inside(root, q)
    ensures var d' := AfterMessage(root, d, active, msg);
      SameFile(d, d', q) && (q in d.dirs ==> q in d'.dirs) && (q in d'.dirs ==> q in d.dirs || q <= root)
  {
    hide Reduce, Components, RenamePath, WriteAt;
    var d' := AfterMessage(root, d, active, msg);
    match msg
    case Rename(source, target) =>
      var a, b := Resolved(root, source), Resolved(root, target);
      if a.Ok? && b.Ok? && RenamePath(d, a.value, b.value).Some? {
        RenameStaysInside(root, d, a.value, b.value, q);
      }
    case _ =>
  }

  lemma RenameStaysInside(root: Path, d: Disk, a: Path, b: Path, q: Path)
    requires !Inside(root, q) && Inside(root, a) && Inside(root, b) && RenamePath(d, a, b).Some?
    ensures var d' := RenamePath(d, a, b).value;
      SameFile(d, d', q) && (q in d.dirs <==> q in d'.dirs)
  {
    var d' := RenamePath(d, a, b).value;
    assert !(a <= q) && !(b <= q);
    if q in d.dirs {
      assert Moved(a, b, q) == q;
    }
  }

  /** On a tree, what a removal, a rename and a new directory need: something there to remove and,
      unless all below is to go, nothing below it, and never the top; something to rename, and a
      place for it that is no directory with anything in it, no file if it is a directory, and not
      inside itself; and no file where a directory must be. */
  lemma AnsweredIff(root: Path, d: Disk, active: Option<string>, msg: FileMessage)
    requires Tree(d)
    ensures msg.Remove? && Resolved(root, msg.path).Ok? ==>
      var p := Resolved(root, msg.path).value;
      (Reply(root, d, active, msg).Ok? <==>
        && p != [] && (p in d.files || p in d.dirs)
        && (msg.recursive || forall q :: (q in d.files || q in d.dirs) && p <= q ==> q == p))
    ensures msg.Rename? && Resolved(root, msg.source).Ok? && Resolved(root, msg.target).Ok? ==>
      var a, b := Resolved(root, msg.source).value, Resolved(root, msg.target).value;
      (Reply(root, d, active, msg).Ok? <==>
        && (a in d.files || a in d.dirs)
        && (a == b
            || (b != [] && b[..|b| - 1] in d.dirs
                && (a in d.files ==> b !in d.dirs)
                && (a in d.dirs ==> !(a <= b) && b !in d.files && forall q :: (q in d.files || q in d.dirs) && b <= q ==> q == b))))
    ensures msg.Mkdir? && Resolved(root, msg.path).Ok? ==>
      (Reply(root, d, active, msg).Ok? <==> forall q :: q in d.files ==> !(q <= Resolved(root, msg.path).value))
  {
    hide Reduce, Components;
    if msg.Remove? && Resolved(root, msg.path).Ok? && Resolved(root, msg.path).value in d.files {
      var p := Resolved(root, msg.path).value;
      forall q | (q in d.files || q in d.dirs) && p <= q ensures q == p { FileHasNothingBelow(d, p, q); }
    }
  }

  /** A refused message costs no file: whatever was there is there, byte for byte. The one
      exception is emptying the whole disk, whose top cannot go. */
  lemma {:induction false} RefusedKeepsFiles(root: Path, d: Disk, active: Option<string>, msg: FileMessage, q: Path)
    requires !msg.Get? && Reply(root, d, active, msg).Err? && q in d.files
    requires !(msg.Remove? && msg.recursive && Resolved(root, msg.path) == Ok([]))
    ensures var d' := AfterMessage(root, d, active, msg); q in d'.files && d'.files[q] == d.files[q]
  {
    hide Reduce, Components, RenamePath, RemoveOne, WriteAt;
  }

  // ---- what moving, removing and making come to ----

  /** A file that is renamed arrives with its bytes, replacing a file in its way, and is gone from
      where it was; nothing else changes. */
  lemma RenamedFileArrives(root: Path, d: Disk, active: Option<string>, source: string, target: string)
    requires Reply(root, d, active, Rename(source, target)).Ok?
    requires var a := Resolved(root, source); a.Ok? && a.value in d.files
    ensures Resolved(root, target).Ok?
    ensures var a, b := Resolved(root, source).value, Resolved(root, target).value;
      var d' := AfterMessage(root, d, active, Rename(source, target));
      && b in d'.files && d'.files[b] == d.files[a]
      && (a != b ==> a !in d'.files)
      && (forall q :: q != a && q != b ==> SameFile(d, d', q))
      && d'.dirs == d.dirs
  {
    hide Reduce, Components, Vacant;
  }

  /** A directory that is renamed takes all below it along, every file with its bytes, and leaves
      nothing behind; nothing else changes. */
  lemma RenamedTreeArrives(root: Path, d: Disk, active: Option<string>, source: string, target: string, rest: Path)
    requires Reply(root, d, active, Rename(source, target)).Ok?
    requires var a := Resolved(root, source); a.Ok? && a.value !in d.files && a.value != Resolved(root, target).value
    ensures Resolved(root, target).Ok?
    ensures var a, b := Resolved(root, source).value, Resolved(root, target).value;
      var d' := AfterMessage(root, d, active, Rename(source, target));
      && (a + rest in d.files <==> b + rest in d'.files)
      && (a + rest in d.files ==> d'.files[b + rest] == d.files[a + rest])
      && (a + rest in d.dirs ==> b + rest in d'.dirs)
      && a + rest !in d'.files && a + rest !in d'.dirs
      && (forall q :: !(a <= q) && !(b <= q) ==> SameFile(d, d', q) && (q in d.dirs <==> q in d'.dirs))
  {
    hide Reduce, Components;
    var a, b := Resolved(root, source).value, Resolved(root, target).value;
    RenamedTree(d, a, b, rest);
    hide RenamePath;
    forall q | !(a <= q) && !(b <= q) {
      RenamedTreeApart(d, a, b, q);
    }
  }

  lemma RenamedTree(d: Disk, a: Path, b: Path, rest: Path)
    requires RenamePath(d, a, b).Some? && a !in d.files && a != b
    ensures var d' := RenamePath(d, a, b).value;
      && (a + rest in d.files <==> b + rest in d'.files)
      && (a + rest in d.files ==> d'.files[b + rest] == d.files[a + rest])
      && (a + rest in d.dirs ==> b + rest in d'.dirs)
      && a + rest !in d'.files && a + rest !in d'.dirs
  {
    var d' := RenamePath(d, a, b).value;
    MovedApart(d, a, b);
    assert (a + rest)[|a|..] == rest && Moved(a, b, a + rest) == b + rest;
    forall p: Path | p in d.files || p in d.dirs ensures Moved(a, b, p) != a + rest {
      LeavesBehindNothing(d, a, b, p, rest);
    }
    if b + rest in d'.files {
      var p :| p in d.files && Moved(a, b, p) == b + rest;
      if a <= p {
        SplitEqual(b, p[|a|..], b, rest);
        assert p == a + p[|a|..];
      }
    }
  }

  lemma LeavesBehindNothing(d: Disk, a: Path, b: Path, p: Path, rest: Path)
    requires a in d.dirs && !(a <= b) && Vacant(d, b) && b !in d.files && (p in d.files || p in d.dirs)
    ensures Moved(a, b, p) != a + rest
  {
    OneLeadsToOther(a, b, Moved(a, b, p));
  }

  lemma OneLeadsToOther(a: Path, b: Path, p: Path)
    ensures a <= p && b <= p ==> a <= b || b <= a
  {
    if a <= p && b <= p {
      assert forall i :: 0 <= i < |a| ==> a[i] == p[i];
      assert forall i :: 0 <= i < |b| ==> b[i] == p[i];
    }
  }

  lemma RenamedTreeApart(d: Disk, a: Path, b: Path, q: Path)
    requires RenamePath(d, a, b).Some? && a !in d.files && a != b && !(a <= q) && !(b <= q)
    ensures var d' := RenamePath(d, a, b).value; SameFile(d, d', q) && (q in d.dirs <==> q in d'.dirs)
  {
    MovedApart(d, a, b);
    assert Moved(a, b, q) == q;
  }

  /** A path that is removed is gone, with all below it if the removal was recursive; a directory
      goes otherwise only if nothing is below it; nothing else changes. */
  lemma RemovedIsGone(root: Path, d: Disk, active: Option<string>, path: string, recursive: bool)
    requires Reply(root, d, active, Remove(path, recursive)).Ok?
    ensures Resolved(root, path).Ok?
    ensures var p := Resolved(root, path).value;
      var d' := AfterMessage(root, d, active, Remove(path, recursive));
      && (p in d.files || p in d.dirs) && p !in d'.files && (p !in d.files || recursive ==> p !in d'.dirs)
      && (recursive ==> forall q :: p <= q ==> q !in d'.files && q !in d'.dirs)
      && (!recursive && p in d.dirs ==> forall q :: p <= q && q != p ==> q !in d.files && q !in d.dirs)
      && (forall q :: !(p <= q) ==> SameFile(d, d', q) && (q in d.dirs <==> q in d'.dirs))
      && (!recursive ==> forall q :: q != p ==> SameFile(d, d', q) && (q in d.dirs <==> q in d'.dirs))
  {
    hide Reduce, Components;
  }

  /** Making a directory makes all that it lies in, and touches no file. */
  lemma MadeIsThere(root: Path, d: Disk, active: Option<string>, path: string)
    requires Reply(root, d, active, Mkdir(path)).Ok?
    ensures Resolved(root, path).Ok?
    ensures var p := Resolved(root, path).value;
      var d' := AfterMessage(root, d, active, Mkdir(path));
      d'.files == d.files && forall q :: q in d'.dirs <==> q in d.dirs || q <= p
  {
    hide Reduce, Components;
    var p := Resolved(root, path).value;
    forall q: Path | q <= p ensures q in UpTo(p) { assert q == p[..|q|]; }
  }

  // ---- the disk stays a tree ----

  lemma MakeDirsKeepsTree(d: Disk, p: Path)
    requires Tree(d) && MakeDirs(d, p).Some?
    ensures Tree(MakeDirs(d, p).value) && p in MakeDirs(d, p).value.dirs
  {
    var d' := MakeDirs(d, p).value;
    assert p[..|p|] == p;
    forall q | q in UpTo(p) && q != [] ensures HasPlace(d', q) {
      var i :| 0 <= i <= |p| && q == p[..i];
      assert Parent(q) == p[..i - 1];
    }
    assert forall q :: q in UpTo(p) ==> q <= p;
  }

  lemma OpenKeepsTree(d: Disk, p: Path, truncate: bool)
    requires Tree(d) && OpenForWriting(d, p, truncate).Some?
    ensures Tree(OpenForWriting(d, p, truncate).value) && p in OpenForWriting(d, p, truncate).value.files
  {
  }

  lemma WithoutKeepsTree(d: Disk, p: Path)
    requires Tree(d) && p != []
    ensures Tree(Without(d, p))
  {
    assert forall q: Path :: q != [] && !(p <= q) ==> !(p <= Parent(q));
  }

  lemma {:induction false} FileHasNothingBelow(d: Disk, p: Path, q: Path)
    requires Tree(d) && p in d.files && p <= q && (q in d.files || q in d.dirs)
    ensures q == p
    decreases |q|
  {
    if q != p {
      assert p <= Parent(q);
      FileHasNothingBelow(d, p, Parent(q));
    }
  }

  lemma RemoveOneKeepsTree(d: Disk, p: Path)
    requires Tree(d) && RemoveOne(d, p).Some?
    ensures Tree(RemoveOne(d, p).value)
  {
    if p in d.dirs { WithoutKeepsTree(d, p); }
  }

  lemma MovedParent(a: Path, b: Path, q: Path)
    requires q != [] && q != a && a != [] && b != []
    ensures Moved(a, b, q) != [] && Parent(Moved(a, b, q)) == Moved(a, b, Parent(q))
  {
    if a <= q {
      assert a <= Parent(q);
      assert b + q[|a|..] == b + Parent(q)[|a|..] + [q[|q| - 1]];
    }
  }

  lemma MovedFilePlaced(d: Disk, a: Path, b: Path, d': Disk, q: Path)
    requires Tree(d) && a in d.dirs && a != [] && Vacant(d, b) && HasPlace(d, b) && b !in d.files && q in d.files
    requires d'.dirs == set p | p in d.dirs :: Moved(a, b, p)
    ensures HasPlace(d', Moved(a, b, q)) && Moved(a, b, q) !in d'.dirs
  {
    MovedApart(d, a, b);
    hide Moved, Vacant;
    MovedParent(a, b, q);
  }

  lemma MovedDirPlaced(d: Disk, a: Path, b: Path, d': Disk, q: Path)
    requires Tree(d) && HasPlace(d, b) && a != [] && !(a <= b) && q in d.dirs && q != []
    requires d'.dirs == set p | p in d.dirs :: Moved(a, b, p)
    ensures HasPlace(d', Moved(a, b, q))
  {
    hide Moved;
    MovedHere(a, b);
    if q != a { MovedParent(a, b, q); }
  }

  lemma MovedFilesPlaced(d: Disk, a: Path, b: Path, d': Disk)
    requires Tree(d) && a in d.dirs && a != [] && Vacant(d, b) && HasPlace(d, b) && b !in d.files
    requires d'.files.Keys == set p | p in d.files :: Moved(a, b, p)
    requires d'.dirs == set p | p in d.dirs :: Moved(a, b, p)
    ensures forall p :: p in d'.files ==> p !in d'.dirs && HasPlace(d', p)
  {
    hide Moved, Vacant, HasPlace, Tree;
    forall p | p in d'.files ensures p !in d'.dirs && HasPlace(d', p) {
      var q :| q in d.files && p == Moved(a, b, q);
      MovedFilePlaced(d, a, b, d', q);
    }
  }

  lemma MovedIsTree(d: Disk, a: Path, b: Path, d': Disk)
    requires Tree(d) && a in d.dirs && HasPlace(d, b) && !(a <= b) && Vacant(d, b) && b !in d.files
    requires d'.files.Keys == set p | p in d.files :: Moved(a, b, p)
    requires d'.dirs == set p | p in d.dirs :: Moved(a, b, p)
    ensures Tree(d')
  {
    MovedHere(a, b);
    MovedFilesPlaced(d, a, b, d');
    assert [] in d'.dirs;
    hide Moved, Vacant, HasPlace;
    forall p | p in d'.dirs && p != [] ensures HasPlace(d', p) {
      var q :| q in d.dirs && p == Moved(a, b, q);
      MovedDirPlaced(d, a, b, d', q);
    }
  }

  lemma MovedHere(a: Path, b: Path)
    requires a != [] && b != [] && !(a <= b)
    ensures Moved(a, b, []) == [] && Moved(a, b, a) == b && Moved(a, b, Parent(b)) == Parent(b)
  {
  }

  lemma RenameFileKeepsTree(d: Disk, a: Path, b: Path)
    requires Tree(d) && RenamePath(d, a, b).Some? && a in d.files && a != b
    ensures Tree(RenamePath(d, a, b).value)
  {
  }

  /** Whatever is asked, the disk stays a tree. */
  lemma {:induction false} DiskStaysTree(root: Path, d: Disk, active: Option<string>, msg: FileMessage)
    requires Tree(d)
    ensures Tree(AfterMessage(root, d, active, msg))
  {
    hide Tree, Reduce, Components, MakeDirs, OpenForWriting, RenamePath, RemoveOne, WriteAt;
    match msg
    case Put(path, _, _) =>
      var p := Resolved(root, path);
      if p.Ok? {
        var made := if p.value == [] then Some(d) else MakeDirs(d, Parent(p.value));
        if p.value != [] && made.Some? { MakeDirsKeepsTree(d, Parent(p.value)); }
        if made.Some? && OpenForWriting(made.value, p.value, true).Some? { OpenKeepsTree(made.value, p.value, true); }
      }
    case Chunk(offset, data) =>
      var p := if active.Some? then Resolved(root, active.value) else Err(EscapesSandbox);
      if p.Ok? && OpenForWriting(d, p.value, false).Some? {
        OpenKeepsTree(d, p.value, false);
        var d1 := OpenForWriting(d, p.value, false).value;
        var content := WriteAt(d1.files[p.value], offset, data);
        if |content| < TWO_63 { ContentKeepsTree(d1, p.value, content); }
      }
    case Mkdir(path) =>
      var p := Resolved(root, path);
      if p.Ok? && MakeDirs(d, p.value).Some? { MakeDirsKeepsTree(d, p.value); }
    case Remove(path, recursive) =>
      var p := Resolved(root, path);
      if p.Ok? && recursive { RemoveTreeKeepsTree(d, p.value); }
      if p.Ok? && RemoveOne(d, p.value).Some? { RemoveOneKeepsTree(d, p.value); }
    case Rename(source, target) =>
      var a, b := Resolved(root, source), Resolved(root, target);
      if a.Ok? && b.Ok? && RenamePath(d, a.value, b.value).Some? {
        RenameKeepsTree(d, a.value, b.value);
      }
    case _ =>
  }

  lemma {:induction false} RenameKeepsTree(d: Disk, a: Path, b: Path)
    requires Tree(d) && RenamePath(d, a, b).Some?
    ensures Tree(RenamePath(d, a, b).value)
  {
    hide Tree;
    if a != b {
      if a in d.files { RenameFileKeepsTree(d, a, b); } else { MovedIsTree(d, a, b, RenamePath(d, a, b).value); }
    }
  }

  lemma ContentKeepsTree(d: Disk, p: Path, f: File)
    requires Tree(d) && p in d.files
    ensures Tree(d.(files := d.files[p := f]))
  {
  }

  lemma RemoveTreeKeepsTree(d: Disk, p: Path)
    requires Tree(d)
    ensures Tree(RemoveTree(d, p).0)
  {
    if p != [] { WithoutKeepsTree(d, p); }
  }

  // ---- pushing a file and pulling it back ----

  /** On a tree, a put leaves its file open and empty exactly when that is no directory and no
      file stands where one of its directories must be. */
  lemma PutOpensIff(root: Path, d: Disk, active: Option<string>, remote: string, size: u64, start: u64)
    requires Tree(d) && Resolved(root, remote).Ok?
    ensures var p, d' := Resolved(root, remote).value, AfterMessage(root, d, active, Put(remote, size, start));
      (p in d'.files && d'.files[p] == []) <==>
        (p !in d.dirs && forall q :: q in d.files && q <= p ==> q == p)
  {
    var p := Resolved(root, remote).value;
    if p != [] {
      hide Tree, Reduce, Components, UpTo;
      forall q | q in d.files
        ensures q <= Parent(p) <==> q <= p && q != p
        ensures q <= Parent(p) ==> p !in d.files
      {
        BelowParent(p, q);
        if p in d.files && q <= p { FileHasNothingBelow(d, q, p); }
      }
      if MakeDirs(d, Parent(p)).Some? { MakeDirsOpens(d, p); }
      InOneKind(d, p);
    }
  }

  lemma InOneKind(d: Disk, p: Path)
    requires Tree(d)
    ensures !(p in d.files && p in d.dirs)
  {
  }

  lemma BelowParent(p: Path, q: Path)
    requires p != []
    ensures q <= Parent(p) <==> q <= p && q != p
  {
  }

  lemma MakeDirsOpens(d: Disk, p: Path)
    requires Tree(d) && p != [] && MakeDirs(d, Parent(p)).Some?
    ensures OpenForWriting(MakeDirs(d, Parent(p)).value, p, true).Some? <==> p !in d.dirs
  {
    MakeDirsKeepsTree(d, Parent(p));
    assert p !in UpTo(Parent(p));
  }

  /** The disk after a list of messages, all on the file `remote`. */
  function AfterChunks(root: Path, d: Disk, remote: string, chunks: seq<FileMessage>): Disk
  {
    if chunks == [] then d
    else AfterMessage(root, AfterChunks(root, d, remote, chunks[..|chunks| - 1]), Some(remote), chunks[|chunks| - 1])
  }

  lemma {:induction false} ChunksWrite(root: Path, d: Disk, remote: string, chunks: seq<FileMessage>, data: File)
    requires Resolved(root, remote).Ok? && Resolved(root, remote).value in d.files
    requires d.files[Resolved(root, remote).value] == []
    requires forall c :: c in chunks ==> PieceOf(c, data)
    ensures var p := Resolved(root, remote).value;
      |WriteAll([], chunks)| < TWO_63 &&
      AfterChunks(root, d, remote, chunks) == d.(files := d.files[p := WriteAll([], chunks)])
  {
    hide Reduce, Components, WriteAt, PieceOf;
    var p := Resolved(root, remote).value;
    WritesLeave(chunks, data);
    if chunks == [] {
      assert d.files[p := []] == d.files;
    } else {
      var c := chunks[|chunks| - 1];
      assert c in chunks;
      ChunksWrite(root, d, remote, chunks[..|chunks| - 1], data);
      PieceFits(c, data);
    }
  }

  lemma PieceFits(c: FileMessage, data: File)
    requires PieceOf(c, data)
    ensures c.Chunk? && c.offset < TWO_63
  {
  }

  /** Push, then pull: the chunks of a push, written in any order and as often as they come,
      leave the file as it was sent and everything else alone; and whatever answer a later
      Get gives, pulling it yields that file and reports its size. */
  lemma {:induction false} PullAfterPush(root: Path, d: Disk, remote: string, data: File, chunks: seq<FileMessage>,
                      order: seq<FileMessage>, replies: seq<FileMessage>)
    requires Resolved(root, remote).Ok? && Resolved(root, remote).value in d.files
    requires d.files[Resolved(root, remote).value] == []
    requires Cuts(chunks, 0, data) && Elements(order) == Elements(chunks)
    ensures var p, end := Resolved(root, remote).value, AfterChunks(root, d, remote, order);
      && end == d.(files := d.files[p := data])
      && (AnswersGet(replies, remote, end.files[p], 0, None) ==>
            var n := Leading(replies);
            n == |replies| - 1 && Joined(replies[..n]) == data && replies[n] == Done(remote, |data|))
  {
    CutsArePieces(chunks, data);
    CutsCover(chunks, data);
    assert forall c :: c in order <==> c in Elements(order);
    assert forall c :: c in chunks <==> c in Elements(chunks);
    assert forall i: nat :: Covered(chunks, i) ==> Covered(order, i);
    RebuiltIff(order, data);
    ChunksWrite(root, d, remote, order, data);
    if AnswersGet(replies, remote, data, 0, None) {
      AnswerLeads(replies, remote, data);
    }
  }

  lemma AnswerLeads(replies: seq<FileMessage>, path: string, f: File)
    requires AnswersGet(replies, path, f, 0, None)
    ensures var n := Leading(replies);
      n == |replies| - 1 && Joined(replies[..n]) == f && replies[n] == Done(path, |f|)
  {
    var chunks := replies[..|replies| - 1];
    forall i | 0 <= i < |chunks| ensures replies[i].Chunk? {
      assert chunks[i] in chunks;
    }
    assert Leading(replies) == |replies| - 1;
    assert f[0..] == f;
  }

  // ---- a push as a session sees it ----

  /** Disk and put under way after a list of messages. */
  function AfterSession(root: Path, d: Disk, active: Option<string>, msgs: seq<FileMessage>): (Disk, Option<string>)
  {
    if msgs == [] then (d, active)
    else
      var (d', active') := AfterSession(root, d, active, msgs[..|msgs| - 1]);
      var msg := msgs[|msgs| - 1];
      (AfterMessage(root, d', active', msg), ActiveAfter(active', msg))
  }

  lemma {:induction false} ChunksOfSession(root: Path, d: Disk, active: Option<string>, put: FileMessage, chunks: seq<FileMessage>)
    requires put.Put? && forall c :: c in chunks ==> c.Chunk?
    ensures AfterSession(root, d, active, [put] + chunks) ==
      (AfterChunks(root, AfterMessage(root, d, active, put), put.path, chunks), Some(put.path))
  {
    hide AfterMessage;
    var all := [put] + chunks;
    if chunks == [] {
      assert all == [put] && all[..0] == [];
      assert AfterSession(root, d, active, all[..0]) == (d, active);
    } else {
      assert all[..|all| - 1] == [put] + chunks[..|chunks| - 1] && all[|all| - 1] == chunks[|chunks| - 1];
      ChunksOfSession(root, d, active, put, chunks[..|chunks| - 1]);
      assert chunks[|chunks| - 1] in chunks;
    }
  }

  /** A whole push, announced, its chunks in any order and as often as they come, and closed: if
      the put could open its file, that holds the source at the end, every other file is as it
      was, and no put is under way. */
  lemma PushThroughSession(root: Path, d: Disk, active: Option<string>, remote: string, size: u64, start: u64,
                           data: File, chunks: seq<FileMessage>, order: seq<FileMessage>, bytes: u64)
    requires Cuts(chunks, 0, data) && Elements(order) == Elements(chunks)
    requires var put := Put(remote, size, start); var d1 := AfterMessage(root, d, active, put);
      Resolved(root, remote).Ok? && Reply(root, d, active, put).Ok?
    ensures var p := Resolved(root, remote).value; var msgs := [Put(remote, size, start)] + order + [Done(remote, bytes)];
      var (d', active') := AfterSession(root, d, active, msgs);
      && active' == None
      && p in d'.files && d'.files[p] == data
      && forall q :: q != p ==> SameFile(d, d', q)
  {
    var put, p := Put(remote, size, start), Resolved(root, remote).value;
    var d1 := AfterMessage(root, d, active, put);
    PutOpened(root, d, active, remote, size, start);
    forall c | c in order ensures c.Chunk? {
      assert c in Elements(order) && c in Elements(chunks) && c in chunks;
    }
    ChunksOfSession(root, d, active, put, order);
    PullAfterPush(root, d1, remote, data, chunks, order, []);
    var msgs := [put] + order + [Done(remote, bytes)];
    assert msgs[..|msgs| - 1] == [put] + order;
    hide AfterMessage, AfterChunks;
    assert AfterMessage(root, AfterChunks(root, d1, remote, order), Some(remote), Done(remote, bytes))
        == AfterChunks(root, d1, remote, order) by { DoneChangesNothing(root, AfterChunks(root, d1, remote, order), remote, bytes); }
  }

  lemma DoneChangesNothing(root: Path, d: Disk, remote: string, bytes: u64)
    ensures AfterMessage(root, d, Some(remote), Done(remote, bytes)) == d
  {
  }

  lemma PutOpened(root: Path, d: Disk, active: Option<string>, remote: string, size: u64, start: u64)
    requires Resolved(root, remote).Ok? && Reply(root, d, active, Put(remote, size, start)).Ok?
    ensures var p := Resolved(root, remote).value; var d1 := AfterMessage(root, d, active, Put(remote, size, start));
      p in d1.files && d1.files[p] == [] && forall q :: q != p ==> SameFile(d, d1, q)
  {
    hide Reduce, Components;
  }
}

/** Files sent in chunks, fetched with reads that may come up short, and the disk of the host
    they touch. */
module Transfer {
  import opened Foundations
  import opened Numbers
  import opened Sandbox

  const CHUNK: nat := 64 * 1024

  type u64 = x: int | 0 <= x < TWO_64

  /** Offsets in files are signed, so no file is longer than this. */
  type File = b: Bytes | |b| < TWO_63 witness []

  datatype FileMessage =
    | Get(path: string, offset: u64, length: Option<u64>)
    | Put(path: string, size: u64, resumeFrom: u64)
    | Chunk(offset: u64, data: Bytes)
    | Done(path: string, bytes: u64)
    | Mkdir(path: string)
    | Remove(path: string, recursive: bool)
    | Rename(source: string, target: string)
    | Failure

  datatype Fault = Escapes | Io | Protocol

  // ---- what a file holds ----

  function Zeros(n: nat): Bytes
  {
    seq(n, _ => 0)
  }

  /** Writing at an offset: a gap is filled with zeros, and writing nothing changes nothing. */
  function WriteAt(f: Bytes, offset: nat, data: Bytes): Bytes
  {
    if data == [] then f
    else
      (if offset <= |f| then f[..offset] else f + Zeros(offset - |f|)) + data +
      (if offset + |data| < |f| then f[offset + |data|..] else [])
  }

  lemma WriteAtAt(f: Bytes, offset: nat, data: Bytes)
    requires data != []
    ensures var r := WriteAt(f, offset, data);
      && |r| == (if |f| > offset + |data| then |f| else offset + |data|)
      && forall i :: 0 <= i < |r| ==>
           r[i] == if offset <= i < offset + |data| then data[i - offset] else if i < |f| then f[i] else 0
  {
  }

  lemma WriteNothing(f: Bytes, offset: nat)
    ensures WriteAt(f, offset, []) == f
  {
  }

  function WriteAll(f: Bytes, chunks: seq<FileMessage>): Bytes
  {
    if chunks == [] then f
    else
      var before := WriteAll(f, chunks[..|chunks| - 1]);
      match chunks[|chunks| - 1] case Chunk(offset, data) => WriteAt(before, offset, data) case _ => before
  }

  /** The bytes a Get asks for, as far as the file has them. */
  function Slice(f: Bytes, offset: nat, length: Option<u64>): Bytes
  {
    if offset >= |f| then []
    else if length == None || offset + length.value >= |f| then f[offset..]
    else f[offset..offset + length.value]
  }

  function Joined(chunks: seq<FileMessage>): Bytes
  {
    if chunks == [] then []
    else
      Joined(chunks[..|chunks| - 1]) +
      match chunks[|chunks| - 1] case Chunk(_, data) => data case _ => []
  }

  /** Chunks that follow each other from `offset`, none empty, none over the chunk size, and
      together are `data`. */
  ghost predicate Cuts(chunks: seq<FileMessage>, offset: nat, data: Bytes)
  {
    && (forall c :: c in chunks ==> c.Chunk? && 0 < |c.data| <= CHUNK)
    && (forall i :: 0 <= i < |chunks| ==> chunks[i].offset == offset + |Joined(chunks[..i])|)
    && Joined(chunks) == data
  }

  lemma {:induction false} CutsOneMore(chunks: seq<FileMessage>, offset: nat, data: Bytes, c: FileMessage)
    requires Cuts(chunks, offset, data)
    requires c.Chunk? && 0 < |c.data| <= CHUNK && c.offset == offset + |data|
    ensures Cuts(chunks + [c], offset, data + c.data)
  {
    var more := chunks + [c];
    assert more[..|chunks|] == chunks;
    assert forall i :: 0 <= i <= |chunks| ==> more[..i] == chunks[..i];
  }

  // ---- any order of writing ----

  ghost predicate PieceOf(c: FileMessage, data: Bytes)
  {
    c.Chunk? && c.offset + |c.data| <= |data| && data[c.offset..c.offset + |c.data|] == c.data
  }

  ghost predicate Covers(c: FileMessage, i: nat)
  {
    c.Chunk? && c.offset <= i < c.offset + |c.data|
  }

  ghost predicate Covered(chunks: seq<FileMessage>, i: nat)
  {
    exists c :: c in chunks && Covers(c, i)
  }

  lemma NothingCovered()
    ensures forall i: nat :: !Covered([], i)
  {
  }

  lemma CoveredOneMore(chunks: seq<FileMessage>, i: nat)
    requires chunks != []
    ensures Covered(chunks, i) <==> Covered(chunks[..|chunks| - 1], i) || Covers(chunks[|chunks| - 1], i)
  {
    var init, c := chunks[..|chunks| - 1], chunks[|chunks| - 1];
    if Covered(chunks, i) {
      var d :| d in chunks && Covers(d, i);
      assert d in init || d == c;
    }
    if Covered(init, i) {
      var d :| d in init && Covers(d, i);
      assert d in chunks;
    }
    assert c in chunks;
  }

  /** What writing pieces of `data` in any order leaves: the bytes of `data` where a piece
      came, zeros in the gaps, and nothing past the last piece. */
  lemma {:induction false} WritesLeave(chunks: seq<FileMessage>, data: Bytes)
    requires forall c :: c in chunks ==> PieceOf(c, data)
    ensures var f := WriteAll([], chunks);
      && |f| <= |data|
      && (f != [] ==> Covered(chunks, |f| - 1))
      && (forall i: nat :: Covered(chunks, i) ==> i < |f|)
      && (forall i :: 0 <= i < |f| ==> f[i] == if Covered(chunks, i) then data[i] else 0)
  {
    hide WriteAt, Covered;
    NothingCovered();
    if chunks != [] {
      var c := chunks[|chunks| - 1];
      assert c in chunks && PieceOf(c, data);
      WritesLeave(chunks[..|chunks| - 1], data);
      var before := WriteAll([], chunks[..|chunks| - 1]);
      forall i: nat ensures Covered(chunks, i) <==> Covered(chunks[..|chunks| - 1], i) || Covers(c, i) {
        CoveredOneMore(chunks, i);
      }
      if c.data == [] {
        WriteNothing(before, c.offset);
      } else {
        WriteAtAt(before, c.offset, c.data);
        assert Covers(c, c.offset + |c.data| - 1);
        assert forall i :: 0 <= i < |c.data| ==> c.data[i] == data[c.offset..c.offset + |c.data|][i];
      }
    }
  }

  /** Pieces of `data` rebuild it, in whatever order and however often they are written,
      exactly when its last byte comes and every byte that never comes is zero. */
  lemma RebuiltIff(chunks: seq<FileMessage>, data: Bytes)
    requires forall c :: c in chunks ==> PieceOf(c, data)
    ensures WriteAll([], chunks) == data <==>
      (data != [] ==> Covered(chunks, |data| - 1)) &&
      (forall i :: 0 <= i < |data| && !Covered(chunks, i) ==> data[i] == 0)
  {
    WritesLeave(chunks, data);
  }

  lemma {:induction false} JoinedGrows(chunks: seq<FileMessage>, k: nat)
    requires k <= |chunks|
    ensures Joined(chunks[..k]) <= Joined(chunks)
    decreases |chunks| - k
  {
    if k == |chunks| {
      assert chunks[..k] == chunks;
    } else {
      assert chunks[..k + 1][..k] == chunks[..k];
      JoinedGrows(chunks, k + 1);
    }
  }

  lemma PieceAt(chunks: seq<FileMessage>, data: Bytes, k: nat)
    requires Cuts(chunks, 0, data) && k < |chunks|
    ensures PieceOf(chunks[k], data)
  {
    var start, c := Joined(chunks[..k]), chunks[k];
    assert c in chunks && c.offset == |start|;
    assert chunks[..k + 1][..k] == chunks[..k];
    JoinedGrows(chunks, k + 1);
    hide Cuts;
    assert start + c.data <= data;
    assert data[|start|..|start| + |c.data|] == (start + c.data)[|start|..];
  }

  lemma {:induction false} CutsArePieces(chunks: seq<FileMessage>, data: Bytes)
    requires Cuts(chunks, 0, data)
    ensures forall c :: c in chunks ==> PieceOf(c, data)
  {
    forall k | 0 <= k < |chunks| ensures PieceOf(chunks[k], data) {
      PieceAt(chunks, data, k);
    }
  }

  lemma {:induction false} CutsCover(chunks: seq<FileMessage>, data: Bytes)
    requires Cuts(chunks, 0, data)
    ensures forall i :: 0 <= i < |data| ==> Covered(chunks, i)
  {
    forall i | 0 <= i < |data| ensures Covered(chunks, i) {
      var k := 0;
      assert chunks[..0] == [] && chunks[..|chunks|] == chunks;
      while k + 1 < |chunks| && |Joined(chunks[..k + 1])| <= i
        invariant 0 <= k < |chunks| && |Joined(chunks[..k])| <= i
      {
        k := k + 1;
      }
      assert k + 1 == |chunks| ==> chunks[..k + 1] == chunks;
      assert chunks[..k + 1][..k] == chunks[..k];
      assert Covers(chunks[k], i);
    }
  }

  // ---- the loops ----

  /** Cuts a file for sending. */
  method PushFile(data: File, remote: string) returns (sent: seq<FileMessage>)
    ensures |sent| >= 2 && sent[0] == Put(remote, |data|, 0) && sent[|sent| - 1] == Done(remote, |data|)
    ensures Cuts(sent[1..|sent| - 1], 0, data)
    ensures forall i :: 1 <= i < |sent| - 2 ==> sent[i].Chunk? && |sent[i].data| == CHUNK
  {
    var chunks: seq<FileMessage> := [];
    var offset := 0;
    while offset < |data|
      invariant 0 <= offset <= |data|
      invariant Cuts(chunks, 0, data[..offset])
      invariant offset < |data| ==> forall i :: 0 <= i < |chunks| ==> chunks[i].Chunk? && |chunks[i].data| == CHUNK
      invariant forall i :: 0 <= i < |chunks| - 1 ==> chunks[i].Chunk? && |chunks[i].data| == CHUNK
    {
      var end := if |data| - offset < CHUNK then |data| else offset + CHUNK;
      var chunk := Chunk(offset, data[offset..end]);
      CutsOneMore(chunks, 0, data[..offset], chunk);
      assert data[..offset] + data[offset..end] == data[..end];
      chunks := chunks + [chunk];
      offset := end;
    }
    assert data[..offset] == data;
    sent := [Put(remote, |data|, 0)] + chunks + [Done(remote, |data|)];
    assert sent[1..|sent| - 1] == chunks;
  }

  /** One read of at most `want` bytes: at least one byte unless at the end, how many is up
      to the system (`pick`). */
  method Read(f: File, pos: nat, want: nat, pick: nat -> nat) returns (n: nat)
    requires 0 < want
    ensures n <= want && (pos < |f| ==> 0 < n <= |f| - pos) && (pos >= |f| ==> n == 0)
  {
    if pos >= |f| {
      n := 0;
    } else {
      var most := Min(want, |f| - pos);
      n := 1 + pick(pos) % most;
    }
  }

  ghost predicate AnswersGet(replies: seq<FileMessage>, path: string, f: Bytes, offset: nat, length: Option<u64>)
  {
    && replies != []
    && Cuts(replies[..|replies| - 1], offset, Slice(f, offset, length))
    && replies[|replies| - 1].Done? && replies[|replies| - 1].path == path
    && replies[|replies| - 1].bytes == |Slice(f, offset, length)|
  }

  function Min(a: nat, b: nat): (m: nat)
    ensures m <= a && m <= b && (m == a || m == b)
  {
    if a <= b then a else b
  }

  /** No length asks for as much as a length can. */
  function Asked(length: Option<u64>): u64
  {
    if length.Some? then length.value else TWO_64 - 1
  }

  lemma SliceAt(f: File, offset: nat, length: Option<u64>)
    ensures var r, room := Slice(f, offset, length), if offset < |f| then |f| - offset else 0;
      && |r| == (if Asked(length) < room then Asked(length) else room)
      && (offset < |f| ==> r == f[offset..offset + |r|])
  {
  }

  /** What a Get of `length` bytes from `offset` is: as many of them as the file has there, and no
      others; all to its end if no length is given. */
  lemma SliceIs(f: File, offset: nat, length: Option<u64>)
    ensures var r := Slice(f, offset, length);
      && (offset >= |f| ==> r == [])
      && (offset < |f| && length == None ==> |r| == |f| - offset)
      && (offset < |f| && length.Some? ==> |r| == if offset + length.value <= |f| then length.value else |f| - offset)
      && forall i :: 0 <= i < |r| ==> r[i] == f[offset + i]
  {
  }

  /** The chunks so far hold the front of what was asked for, up to `pos`. */
  ghost predicate Fetched(out: seq<FileMessage>, f: File, offset: nat, length: Option<u64>, pos: nat)
  {
    && offset <= pos <= offset + |Slice(f, offset, length)|
    && Cuts(out, offset, Slice(f, offset, length)[..pos - offset])
  }

  lemma FetchedStart(f: File, offset: nat, length: Option<u64>)
    ensures Fetched([], f, offset, length, offset)
  {
  }

  lemma {:induction false} FetchedMore(out: seq<FileMessage>, f: File, offset: nat, length: Option<u64>, pos: nat, n: nat)
    requires Fetched(out, f, offset, length, pos)
    requires 0 < n <= CHUNK && pos + n <= |f| && pos + n - offset <= Asked(length)
    ensures Fetched(out + [Chunk(pos, f[pos..pos + n])], f, offset, length, pos + n)
  {
    hide Cuts, Slice;
    SliceAt(f, offset, length);
    var whole := Slice(f, offset, length);
    CutsOneMore(out, offset, whole[..pos - offset], Chunk(pos, f[pos..pos + n]));
    var done := pos - offset;
    SliceOfSlice(f, offset, offset + |whole|, done, done + n);
    assert whole[..done] + whole[done..done + n] == whole[..done + n];
  }

  lemma {:induction false} FetchedAll(out: seq<FileMessage>, path: string, f: File, offset: nat, length: Option<u64>, pos: nat)
    requires Fetched(out, f, offset, length, pos)
    requires pos >= |f| || pos - offset == Asked(length)
    ensures pos - offset < TWO_64
    ensures AnswersGet(out + [Done(path, pos - offset)], path, f, offset, length)
  {
    hide Cuts, Slice;
    SliceAt(f, offset, length);
    assert Slice(f, offset, length)[..pos - offset] == Slice(f, offset, length);
    assert (out + [Done(path, pos - offset)])[..|out|] == out;
  }

  method FetchChunks(f: File, offset: nat, length: Option<u64>, pick: nat -> nat)
    returns (out: seq<FileMessage>, pos: nat)
    ensures Fetched(out, f, offset, length, pos)
    ensures pos >= |f| || pos == offset + Asked(length)
  {
    hide Fetched, Asked, Min;
    var remaining := Asked(length);
    out, pos := [], offset;
    FetchedStart(f, offset, length);
    while remaining > 0
      invariant pos + remaining == offset + Asked(length)
      invariant Fetched(out, f, offset, length, pos)
    {
      var n := Read(f, pos, Min(remaining, CHUNK), pick);
      if n == 0 {
        break;
      }
      FetchedMore(out, f, offset, length, pos, n);
      out := out + [Chunk(pos, f[pos..pos + n])];
      pos := pos + n;
      remaining := remaining - n;
    }
  }

  /** Serves a Get of an open file, however short the reads come back. Seeking to an offset
      that is no signed 64-bit number is an error. */
  method GetFile(path: string, f: File, offset: u64, length: Option<u64>, pick: nat -> nat)
    returns (r: Result<seq<FileMessage>, Fault>)
    ensures r == Err(Io) <==> offset >= TWO_63
    ensures r.Err? ==> r == Err(Io)
    ensures r.Ok? ==> AnswersGet(r.value, path, f, offset, length)
  {
    if offset >= TWO_63 {
      return Err(Io);
    }
    var out, pos := FetchChunks(f, offset, length, pick);
    FetchedAll(out, path, f, offset, length, pos);
    return Ok(out + [Done(path, pos - offset)]);
  }

  /** Number of chunks at the front. */
  function Leading(replies: seq<FileMessage>): (n: nat)
    ensures n <= |replies| && (n < |replies| ==> !replies[n].Chunk?)
    ensures forall i :: 0 <= i < n ==> replies[i].Chunk?
  {
    if replies == [] || !replies[0].Chunk? then 0 else 1 + Leading(replies[1..])
  }

  /** Appends chunks as they come until the first other message; only Done is a success. */
  method PullFile(replies: seq<FileMessage>) returns (file: Bytes, ok: bool)
    ensures file == Joined(replies[..Leading(replies)])
    ensures ok <==> Leading(replies) < |replies| && replies[Leading(replies)].Done?
  {
    file, ok := [], false;
    var i := 0;
    ghost var n := Leading(replies);
    while i < |replies|
      invariant 0 <= i <= n && file == Joined(replies[..i])
    {
      match replies[i] {
        case Chunk(_, data) =>
          assert replies[..i + 1][..i] == replies[..i];
          file := file + data;
        case Done(_, _) =>
          ok := true;
          return;
        case _ =>
          return;
      }
      i := i + 1;
    }
  }
}

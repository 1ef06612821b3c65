/** Length-prefixed frames on a byte stream, and the relay that passes them on. */
module Frames {
  import opened Foundations
  import opened Numbers

  const MAX_FRAME_BYTES: nat := 16 * 1024 * 1024

  datatype Kind = Control | Terminal | Files | Desktop | Tcp

  function KindByte(k: Kind): u8
  {
    match k case Control => 1 case Terminal => 2 case Files => 3 case Desktop => 4 case Tcp => 5
  }

  function KindFrom(b: u8): (k: Option<Kind>)
    ensures forall x :: k == Some(x) <==> KindByte(x) == b
  {
    if b == 1 then Some(Control)
    else if b == 2 then Some(Terminal)
    else if b == 3 then Some(Files)
    else if b == 4 then Some(Desktop)
    else if b == 5 then Some(Tcp)
    else None
  }

  datatype Frame = Frame(kind: Kind, stream: u32, payload: Bytes)

  predicate Fits(f: Frame)
  {
    |f.payload| <= MAX_FRAME_BYTES
  }

  /** Length of what follows, kind, stream, payload. */
  function Encode(f: Frame): Bytes
  {
    BigEndian(5 + |f.payload|, 4) + [KindByte(f.kind)] + BigEndian(f.stream, 4) + f.payload
  }

  function EncodeAll(fs: seq<Frame>): Bytes
  {
    if fs == [] then [] else Encode(fs[0]) + EncodeAll(fs[1..])
  }

  datatype Fault = EndOfInput | BadLength | UnknownKind

  datatype Reading = Got(frame: Frame, rest: Bytes) | Failed(why: Fault)

  /** What one read finds at the front of `b`. */
  function Decode(b: Bytes): Reading
  {
    if |b| < 9 then Failed(EndOfInput)
    else
      var len := FromBigEndian(b[..4]);
      if len < 5 || len - 5 > MAX_FRAME_BYTES then Failed(BadLength)
      else
        var kind := KindFrom(b[4]);
        if kind.None? then Failed(UnknownKind)
        else if |b| < 4 + len then Failed(EndOfInput)
        else
          Width4(b[5..9]);
          Got(Frame(kind.value, FromBigEndian(b[5..9]), b[9..4 + len]), b[4 + len..])
  }

  /** The frames at the front of `b`, and what is left where a read first fails. */
  function DecodeAll(b: Bytes): (seq<Frame>, Bytes)
    decreases |b|
  {
    match Decode(b)
    case Failed(_) => ([], b)
    case Got(f, rest) =>
      var (fs, tail) := DecodeAll(rest);
      ([f] + fs, tail)
  }

  lemma Width4(b: Bytes)
    requires |b| == 4
    ensures FromBigEndian(b) < 0x1_0000_0000
  {
    BigEndianCanonical(b);
    Pow256At4();
  }

  lemma Pow256At4()
    ensures Pow256(4) == 0x1_0000_0000
  {
    assert Pow256(4) == 0x100 * Pow256(3) && Pow256(3) == 0x100 * Pow256(2) && Pow256(2) == 0x100 * Pow256(1);
  }

  /** Reading is the exact inverse of writing: a read gives `f` and leaves `rest` exactly when
      the input is the encoding of `f`, which fits, followed by `rest`. */
  lemma DecodeIffEncoded(b: Bytes, f: Frame, rest: Bytes)
    ensures Decode(b) == Got(f, rest) <==> Fits(f) && b == Encode(f) + rest
  {
    hide BigEndian, FromBigEndian, Pow256;
    Pow256At4();
    if Decode(b) == Got(f, rest) {
      BigEndianCanonical(b[..4]);
      BigEndianCanonical(b[5..9]);
      var n := |f.payload|;
      assert b == b[..4] + [b[4]] + b[5..9] + b[9..9 + n] + b[9 + n..];
    }
    if Fits(f) && b == Encode(f) + rest {
      var head, kind, stream := BigEndian(5 + |f.payload|, 4), [KindByte(f.kind)], BigEndian(f.stream, 4);
      assert b == head + (kind + stream + f.payload + rest);
      assert b[..4] == head && b[4] == kind[0];
      assert b[5..9] == stream;
      BigEndianReadsBack(5 + |f.payload|, 4);
      BigEndianReadsBack(f.stream, 4);
      assert b[9..9 + |f.payload|] == f.payload && b[9 + |f.payload|..] == rest;
      assert KindFrom(b[4]) == Some(f.kind);
    }
  }

  /** Where everything is in an encoded frame: the length of what follows it, most significant byte
      first, the kind, the stream, and the payload. */
  lemma EncodedLayout(f: Frame)
    requires Fits(f)
    ensures var b := Encode(f);
      && |b| == 9 + |f.payload|
      && 0x100_0000 * (b[0] as int) + 0x1_0000 * (b[1] as int) + 0x100 * (b[2] as int) + b[3] as int == 5 + |f.payload|
      && b[4] == (match f.kind case Control => 1 case Terminal => 2 case Files => 3 case Desktop => 4 case Tcp => 5)
      && 0x100_0000 * (b[5] as int) + 0x1_0000 * (b[6] as int) + 0x100 * (b[7] as int) + b[8] as int == f.stream
      && b[9..] == f.payload
  {
    hide BigEndian, FromBigEndian, Pow256;
    Pow256At4();
    var b, head, stream := Encode(f), BigEndian(5 + |f.payload|, 4), BigEndian(f.stream, 4);
    assert b[..4] == head && b[5..9] == stream;
    BigEndianReadsBack(5 + |f.payload|, 4);
    BigEndianReadsBack(f.stream, 4);
    BigEndianReadsAs(head);
    BigEndianReadsAs(stream);
  }

  /** Which fault: a stream of at least nine bytes ends too early exactly when it is the front of some
      frame's encoding; the length is bad short of 5 or past the limit; the kind is none of the five. */
  lemma FaultsAre(b: Bytes)
    ensures Decode(b) == Failed(EndOfInput) <==> |b| < 9 || exists f :: Fits(f) && b < Encode(f)
    ensures |b| >= 9 ==>
      var len := 0x100_0000 * (b[0] as int) + 0x1_0000 * (b[1] as int) + 0x100 * (b[2] as int) + b[3] as int;
      && (Decode(b) == Failed(BadLength) <==> !(5 <= len <= 5 + 16_777_216))
      && (Decode(b) == Failed(UnknownKind) <==> 5 <= len <= 5 + 16_777_216 && !(1 <= b[4] <= 5))
  {
    hide BigEndian, FromBigEndian, Pow256;
    if |b| >= 9 {
      BigEndianReadsAs(b[..4]);
      if Decode(b) == Failed(EndOfInput) {
        FrontOfFrame(b);
      }
    }
    forall f | Fits(f) && b < Encode(f) ensures Decode(b) == Failed(EndOfInput) {
      assert Encode(f)[..|b|] == b;
      CutFrameEndsEarly(f, |b|);
    }
  }

  lemma FrontOfFrame(b: Bytes)
    requires |b| >= 9 && Decode(b) == Failed(EndOfInput)
    ensures exists f :: Fits(f) && b < Encode(f)
  {
    hide BigEndian, FromBigEndian, Pow256;
    var missing := seq(4 + FromBigEndian(b[..4]) - |b|, _ => 0);
    var whole := b + missing;
    assert whole[..4] == b[..4];
    var f := Decode(whole).frame;
    DecodeIffEncoded(whole, f, whole[|whole|..]);
    assert whole == Encode(f);
  }

  /** A stream reads back as exactly the frames written, stopping exactly where they end;
      and whatever a reader accepts is the writing of what it got, byte for byte. */
  lemma {:induction false} StreamIffEncoded(b: Bytes, fs: seq<Frame>, tail: Bytes)
    ensures DecodeAll(b) == (fs, tail) <==>
      (forall f :: f in fs ==> Fits(f)) && Decode(tail).Failed? && b == EncodeAll(fs) + tail
    decreases |b| + |fs|
  {
    match Decode(b)
    case Failed(_) =>
      if fs == [] {
        assert EncodeAll(fs) + tail == tail;
      } else if Fits(fs[0]) && b == EncodeAll(fs) + tail {
        assert b == Encode(fs[0]) + (EncodeAll(fs[1..]) + tail);
        DecodeIffEncoded(b, fs[0], EncodeAll(fs[1..]) + tail);
      } else {
        assert fs[0] in fs;
      }
    case Got(f, rest) =>
      DecodeIffEncoded(b, f, rest);
      if fs == [] {
        assert EncodeAll(fs) + tail == tail;
      } else {
        var more := EncodeAll(fs[1..]) + tail;
        StreamIffEncoded(rest, fs[1..], tail);
        assert EncodeAll(fs) + tail == Encode(fs[0]) + more;
        assert forall g :: g in fs <==> g == fs[0] || g in fs[1..];
        if Fits(fs[0]) && b == Encode(fs[0]) + more {
          DecodeIffEncoded(b, fs[0], more);
        }
        if f == fs[0] {
          SplitEqual(Encode(f), rest, Encode(f), rest);
        }
        var (gs, end) := DecodeAll(rest);
        assert DecodeAll(b) == ([f] + gs, end);
        assert ([f] + gs)[1..] == gs && fs == [fs[0]] + fs[1..];
      }
  }

  /** A torn frame is never misread: every proper front part of an encoding just ends early. */
  lemma CutFrameEndsEarly(f: Frame, k: nat)
    requires Fits(f) && k < |Encode(f)|
    ensures Decode(Encode(f)[..k]) == Failed(EndOfInput)
  {
    var b := Encode(f)[..k];
    if k >= 9 {
      DecodeIffEncoded(Encode(f) + [], f, []);
      assert Encode(f) + [] == Encode(f);
      assert b[..4] == Encode(f)[..4] && b[4] == Encode(f)[4];
    }
  }

  /** Wherever a stream of frames is cut, the reader gets exactly the frames that are whole. */
  lemma {:induction false} CutStreamKeepsWholeFrames(fs: seq<Frame>, k: nat)
    requires (forall f :: f in fs ==> Fits(f)) && k <= |EncodeAll(fs)|
    ensures var (got, _) := DecodeAll(EncodeAll(fs)[..k]);
      && got <= fs && |EncodeAll(got)| <= k
      && (got != fs ==> k < |EncodeAll(got + [fs[|got|]])|)
    decreases |fs|
  {
    var b := EncodeAll(fs)[..k];
    if fs != [] {
      assert fs[0] in fs;
      var first, rest := Encode(fs[0]), EncodeAll(fs[1..]);
      if k < |first| {
        assert b == first[..k];
        CutFrameEndsEarly(fs[0], k);
        assert [] + [fs[0]] == [fs[0]];
        assert EncodeAll([fs[0]]) == first + EncodeAll([]);
      } else {
        assert b == first + rest[..k - |first|];
        DecodeIffEncoded(b, fs[0], rest[..k - |first|]);
        CutStreamKeepsWholeFrames(fs[1..], k - |first|);
        var (got, _) := DecodeAll(rest[..k - |first|]);
        assert ([fs[0]] + got)[1..] == got;
        if got != fs[1..] {
          assert ([fs[0]] + got + [fs[1..][|got|]])[1..] == got + [fs[1..][|got|]];
        }
      }
    }
  }

  // ---- the stream operations ----

  class Source {
    const data: Bytes
    var pos: nat

    constructor (data: Bytes)
      ensures this.data == data && pos == 0
    {
      this.data := data;
      pos := 0;
    }

    ghost predicate Valid()
      reads this
    {
      pos <= |data|
    }

    ghost function Left(): Bytes
      requires Valid()
      reads this
    {
      data[pos..]
    }

    method ReadExact(n: nat) returns (b: Option<Bytes>)
      requires Valid()
      modifies this
      ensures Valid()
      ensures b == if n <= |old(Left())| then Some(old(Left())[..n]) else None
      ensures Left() == if n <= |old(Left())| then old(Left())[n..] else []
    {
      if n <= |data| - pos {
        b := Some(data[pos..pos + n]);
        assert data[pos..][..n] == data[pos..pos + n] && data[pos..][n..] == data[pos + n..];
        pos := pos + n;
      } else {
        b := None;
        pos := |data|;
      }
    }
  }

  /** A stream that breaks after `room` more bytes. */
  class Sink {
    var written: Bytes
    var room: nat

    constructor (room: nat)
      ensures written == [] && this.room == room
    {
      written := [];
      this.room := room;
    }

    method WriteAll(b: Bytes) returns (ok: bool)
      modifies this
      ensures ok <==> |b| <= old(room)
      ensures written == old(written) + if ok then b else b[..old(room)]
      ensures room == if ok then old(room) - |b| else 0
    {
      ok := |b| <= room;
      if ok {
        written, room := written + b, room - |b|;
      } else {
        written, room := written + b[..room], 0;
      }
    }
  }

  /** Writes all of a frame, or nothing of one that is too large, or all that fitted before
      the stream broke. The length always fits its 32 bits. */
  method WriteFrame(w: Sink, f: Frame) returns (ok: bool)
    modifies w
    ensures ok <==> Fits(f) && |Encode(f)| <= old(w.room)
    ensures !Fits(f) ==> w.written == old(w.written) && w.room == old(w.room)
    ensures Fits(f) ==>
      w.written == old(w.written) + (if ok then Encode(f) else Encode(f)[..old(w.room)])
    ensures Fits(f) ==> w.room == if ok then old(w.room) - |Encode(f)| else 0
  {
    ok := false;
    if |f.payload| > MAX_FRAME_BYTES {
      return;
    }
    var len: u32 := 5 + |f.payload|;
    var header := BigEndian(len, 4);
    header := header + [KindByte(f.kind)];
    header := header + BigEndian(f.stream, 4);
    assert Encode(f) == header + f.payload;
    ghost var room, before := w.room, w.written;
    ok := w.WriteAll(header);
    if ok {
      ok := w.WriteAll(f.payload);
      assert before + header + f.payload == before + (header + f.payload);
      if !ok {
        assert before + header + f.payload[..room - 9] == before + Encode(f)[..room];
      }
    } else {
      assert header[..room] == Encode(f)[..room];
    }
  }

  method ReadFrame(r: Source) returns (result: Result<Frame, Fault>)
    requires r.Valid()
    modifies r
    ensures r.Valid()
    ensures match Decode(old(r.Left()))
      case Got(f, rest) => result == Ok(f) && r.Left() == rest
      case Failed(why) => result == Err(why)
  {
    ghost var b := r.Left();
    var header := r.ReadExact(9);
    if header.None? {
      return Err(EndOfInput);
    }
    var h := header.value;
    assert h[..4] == b[..4] && h[5..9] == b[5..9];
    var len := FromBigEndian(h[..4]);
    if len < 5 || len - 5 > MAX_FRAME_BYTES {
      return Err(BadLength);
    }
    var kind := KindFrom(h[4]);
    Width4(h[5..9]);
    var stream: u32 := FromBigEndian(h[5..9]);
    if kind.None? {
      return Err(UnknownKind);
    }
    var payload := r.ReadExact(len - 5);
    if payload.None? {
      return Err(EndOfInput);
    }
    assert b[9..][..len - 5] == b[9..4 + len] && b[9..][len - 5..] == b[4 + len..];
    return Ok(Frame(kind.value, stream, payload.value));
  }

  lemma ReadOne(b: Bytes)
    ensures match Decode(b)
      case Failed(_) => DecodeAll(b) == ([], b) && EncodeAll([]) == []
      case Got(f, rest) =>
        var (fs, tail) := DecodeAll(b);
        var (more, end) := DecodeAll(rest);
        Fits(f) && |rest| < |b| && tail == end && EncodeAll(fs) == Encode(f) + EncodeAll(more)
  {
    match Decode(b)
    case Failed(_) =>
    case Got(f, rest) =>
      DecodeIffEncoded(b, f, rest);
      var (more, _) := DecodeAll(rest);
      assert ([f] + more)[1..] == more;
  }

  lemma CutShort(done: Bytes, e: Bytes, more: Bytes, here: nat)
    requires here <= |e|
    ensures (done + e + more)[..|done| + here] == done + e[..here]
  {
  }

  /** One direction of the relay. What comes out is the whole frames that went in, byte for
      byte, up to where the input stops being a frame; if the outgoing stream breaks first, a
      front part of that. */
  method RelayFrames(r: Source, w: Sink)
    requires r.Valid()
    modifies r, w
    ensures r.Valid()
    ensures var (fs, rest) := DecodeAll(old(r.Left())); var whole := EncodeAll(fs);
      && old(r.Left()) == whole + rest
      && w.written == old(w.written) + (if |whole| <= old(w.room) then whole else whole[..old(w.room)])
  {
    hide Decode, DecodeAll, Encode, EncodeAll;
    ghost var (fs, rest) := DecodeAll(r.Left());
    ghost var whole, before, room := EncodeAll(fs), w.written, w.room;
    StreamIffEncoded(r.Left(), fs, rest);
    ghost var done: Bytes := [];
    while true
      invariant r.Valid()
      invariant |done| + w.room == room
      invariant w.written == before + done
      invariant whole == done + EncodeAll(DecodeAll(r.Left()).0)
      decreases |r.Left()|
    {
      ReadOne(r.Left());
      var f := ReadFrame(r);
      if f.Err? {
        assert whole == done;
        return;
      }
      ghost var e, more := Encode(f.value), EncodeAll(DecodeAll(r.Left()).0);
      ghost var here := w.room;
      var ok := WriteFrame(w, f.value);
      if !ok {
        CutShort(done, e, more, here);
        assert whole == done + e + more;
        return;
      }
      done := done + e;
    }
  }
}

/** One-way mailboxes: a queue of messages or a line of waiting receivers, never both.
    Receives are numbered in the order they are issued. */
module Lanes {
  import opened Foundations
  import Text

  // ---- one lane ----

  /** `waiters` holds the numbers of the receives still waiting; `got` what each receive was
      given; `abandoned` the receives whose waiter was dropped while it waited. */
  datatype Lane<M> = Lane(queue: seq<M>, waiters: seq<nat>, got: map<nat, M>, abandoned: set<nat>, issued: nat)

  function Empty<M>(): Lane<M>
  {
    Lane([], [], map[], {}, 0)
  }

  /** A message goes to the first waiter, or to the queue; an abandoned waiter swallows it. */
  function Push<M>(l: Lane<M>, m: M): Lane<M>
  {
    if l.waiters != [] then
      var w := l.waiters[0];
      l.(waiters := l.waiters[1..], got := if w in l.abandoned then l.got else l.got[w := m])
    else l.(queue := l.queue + [m])
  }

  function TakeOrWait<M>(l: Lane<M>): Lane<M>
  {
    if l.queue != [] then l.(queue := l.queue[1..], got := l.got[l.issued := l.queue[0]], issued := l.issued + 1)
    else l.(waiters := l.waiters + [l.issued], issued := l.issued + 1)
  }

  datatype Op<M> =
    | Pushed(m: M)
    | Received        // take a message or wait for one
    | Probed          // take a message only if one is there
    | Abandoned(k: nat)

  function Apply<M>(l: Lane<M>, op: Op<M>): Lane<M>
  {
    match op
    case Pushed(m) => Push(l, m)
    case Received => TakeOrWait(l)
    case Probed => if l.queue != [] then TakeOrWait(l) else l
    case Abandoned(k) => if k in l.waiters then l.(abandoned := l.abandoned + {k}) else l
  }

  function ApplyAll<M>(l: Lane<M>, ops: seq<Op<M>>): Lane<M>
  {
    if ops == [] then l else Apply(ApplyAll(l, ops[..|ops| - 1]), ops[|ops| - 1])
  }

  /** The messages pushed by a list of operations, in order. */
  function Pushes<M>(ops: seq<Op<M>>): seq<M>
  {
    if ops == [] then []
    else Pushes(ops[..|ops| - 1]) + match ops[|ops| - 1] case Pushed(m) => [m] case _ => []
  }

  /** A lane after `pushed` was sent into it: receive number k is for message number k. */
  ghost predicate InOrder<M>(l: Lane<M>, pushed: seq<M>)
  {
    && l.queue == (if l.issued <= |pushed| then pushed[l.issued..] else [])
    && |l.waiters| == (if l.issued <= |pushed| then 0 else l.issued - |pushed|)
    && (forall i :: 0 <= i < |l.waiters| ==> l.waiters[i] == |pushed| + i)
    && (forall k :: k in l.abandoned ==> k < l.issued)
    && (forall k: nat :: k in l.got <==> k < l.issued && k < |pushed| && k !in l.abandoned)
    && (forall k :: k in l.got ==> l.got[k] == pushed[k])
  }

  lemma GotInOrder<M>(l: Lane<M>, pushed: seq<M>, k: nat)
    requires InOrder(l, pushed) && k in l.got
    ensures k < |pushed| && l.got[k] == pushed[k]
  {
  }

  lemma PushKeepsOrder<M>(l: Lane<M>, pushed: seq<M>, m: M)
    requires InOrder(l, pushed)
    ensures InOrder(Push(l, m), pushed + [m])
    ensures Push(l, m).issued == l.issued && Push(l, m).abandoned == l.abandoned
  {
    if l.waiters != [] {
      assert l.waiters[0] == |pushed|;
    }
  }

  lemma TakeKeepsOrder<M>(l: Lane<M>, pushed: seq<M>)
    requires InOrder(l, pushed)
    ensures InOrder(TakeOrWait(l), pushed)
    ensures TakeOrWait(l).issued == l.issued + 1 && TakeOrWait(l).abandoned == l.abandoned
  {
  }

  lemma ApplyKeepsOrder<M>(l: Lane<M>, pushed: seq<M>, op: Op<M>)
    requires InOrder(l, pushed)
    ensures InOrder(Apply(l, op), pushed + match op case Pushed(m) => [m] case _ => [])
  {
    var l' := Apply(l, op);
    match op
    case Pushed(m) =>
      PushKeepsOrder(l, pushed, m);
    case Received =>
      TakeKeepsOrder(l, pushed);
      assert pushed + [] == pushed;
    case Probed =>
      if l.queue != [] { TakeKeepsOrder(l, pushed); }
      assert pushed + [] == pushed;
    case Abandoned(k) =>
      assert pushed + [] == pushed;
      if k in l.waiters {
        var i :| 0 <= i < |l.waiters| && l.waiters[i] == k;
      }
  }

  /** After any operations the lane is in order: so the queue or the line of waiters is empty,
      and receive number k, unless it was abandoned while waiting, got message number k. */
  lemma {:induction false} LaneIsFifo<M>(ops: seq<Op<M>>)
    ensures var l := ApplyAll(Empty(), ops);
      && InOrder(l, Pushes(ops))
      && (l.queue == [] || l.waiters == [])
  {
    if ops != [] {
      LaneIsFifo(ops[..|ops| - 1]);
      ApplyKeepsOrder(ApplyAll(Empty(), ops[..|ops| - 1]), Pushes(ops[..|ops| - 1]), ops[|ops| - 1]);
    }
  }

  ghost predicate NobodyAbandons<M>(ops: seq<Op<M>>)
  {
    forall op :: op in ops ==> !op.Abandoned?
  }

  lemma {:induction false} NoneAbandoned<M(!new)>(ops: seq<Op<M>>)
    requires NobodyAbandons(ops)
    ensures ApplyAll(Empty(), ops).abandoned == {}
  {
    if ops != [] {
      assert ops[|ops| - 1] in ops;
      NoneAbandoned(ops[..|ops| - 1]);
    }
  }

  /** What the receives got, in the order they were issued. */
  ghost function Receipts<M>(l: Lane<M>, n: nat): seq<M>
    requires forall k: nat :: k < n ==> k in l.got
  {
    seq(n, k requires 0 <= k < n => l.got[k])
  }

  /** When no receiver gives up, delivery is exactly once and in order: what was received is
      a prefix of what was pushed, and the rest is in the queue. */
  lemma ExactlyOnceInOrder<M(!new)>(ops: seq<Op<M>>)
    requires NobodyAbandons(ops)
    ensures var l := ApplyAll(Empty(), ops); var n := |l.got|;
      && n <= |Pushes(ops)|
      && (forall k: nat :: k < n ==> k in l.got)
      && Receipts(l, n) + l.queue == Pushes(ops)
  {
    LaneIsFifo(ops);
    NoneAbandoned(ops);
    var l, pushed := ApplyAll(Empty(), ops), Pushes(ops);
    var n := if l.issued < |pushed| then l.issued else |pushed|;
    CountBelow(l.got.Keys, n);
  }

  lemma {:induction false} CountBelow(s: set<nat>, n: nat)
    requires forall k: nat :: k in s <==> k < n
    ensures |s| == n
  {
    if n > 0 {
      CountBelow(s - {n - 1}, n - 1);
    } else {
      assert s == {};
    }
  }

  /** With receivers that give up, a message is lost exactly when the receive of its number
      gave up waiting for it. */
  lemma LostIffAbandoned<M>(ops: seq<Op<M>>, k: nat)
    requires k < |Pushes(ops)|
    ensures var l := ApplyAll(Empty(), ops);
      k < l.issued && k !in l.got <==> k in l.abandoned
    ensures var l := ApplyAll(Empty(), ops);
      k >= l.issued ==> |l.queue| == |Pushes(ops)| - l.issued && l.queue[k - l.issued] == Pushes(ops)[k]
  {
    LaneIsFifo(ops);
  }

  // ---- the rendezvous: two lanes for each code ----

  datatype Duplex<M> = Duplex(h2g: Lane<M>, g2h: Lane<M>)

  datatype Call<M> = Send(code: string, asHost: bool, m: M) | Recv(code: string, asHost: bool)

  function Box<M>(boxes: map<string, Duplex<M>>, code: string): Duplex<M>
  {
    if code in boxes then boxes[code] else Duplex(Empty(), Empty())
  }

  function ServeBox<M>(d: Duplex<M>, call: Call<M>): Duplex<M>
  {
    match call
    case Send(_, true, m) => d.(h2g := Push(d.h2g, m))
    case Send(_, false, m) => d.(g2h := Push(d.g2h, m))
    case Recv(_, true) => d.(g2h := TakeOrWait(d.g2h))
    case Recv(_, false) => d.(h2g := TakeOrWait(d.h2g))
  }

  function Serve<M>(boxes: map<string, Duplex<M>>, call: Call<M>): map<string, Duplex<M>>
  {
    boxes[call.code := ServeBox(Box(boxes, call.code), call)]
  }

  function ServeAll<M>(calls: seq<Call<M>>): map<string, Duplex<M>>
  {
    if calls == [] then map[] else Serve(ServeAll(calls[..|calls| - 1]), calls[|calls| - 1])
  }

  class LocalRendezvous<M> {
    var boxes: map<string, Duplex<M>>

    constructor ()
      ensures boxes == map[]
    {
      boxes := map[];
    }

    method SendMessage(code: string, asHost: bool, m: M)
      modifies this
      ensures boxes == Serve(old(boxes), Send(code, asHost, m))
    {
      var d := Box(boxes, code);
      if asHost {
        d := d.(h2g := Push(d.h2g, m));
      } else {
        d := d.(g2h := Push(d.g2h, m));
      }
      boxes := boxes[code := d];
    }

    /** Issues a receive; `ready` is the message if one was queued, else the call waits under
        its number `ticket`. */
    method Receive(code: string, asHost: bool) returns (ticket: nat, ready: Option<M>)
      modifies this
      ensures boxes == Serve(old(boxes), Recv(code, asHost))
      ensures var lane := if asHost then Box(boxes, code).g2h else Box(boxes, code).h2g;
        lane.issued == ticket + 1 && (ready.Some? ==> ticket in lane.got && lane.got[ticket] == ready.value)
      ensures var was := if asHost then Box(old(boxes), code).g2h else Box(old(boxes), code).h2g;
        var lane := if asHost then Box(boxes, code).g2h else Box(boxes, code).h2g;
        && (ready.Some? <==> was.queue != []) && (ready.Some? ==> ready.value == was.queue[0])
        && (ready.None? ==> lane.waiters == was.waiters + [ticket] && lane.got == was.got)
        && (ticket !in was.got ==> (ready.Some? <==> ticket in lane.got))
    {
      var d := Box(boxes, code);
      var lane := if asHost then d.g2h else d.h2g;
      ticket := lane.issued;
      ready := if lane.queue != [] then Some(lane.queue[0]) else None;
      lane := TakeOrWait(lane);
      d := if asHost then d.(g2h := lane) else d.(h2g := lane);
      boxes := boxes[code := d];
    }
  }

  /** The operations of `calls` on the lane of `code` that carries messages from the host
      (`fromHost`) or from the guest. */
  function OnLane<M>(calls: seq<Call<M>>, code: string, fromHost: bool): seq<Op<M>>
  {
    if calls == [] then []
    else
      var rest := OnLane(calls[..|calls| - 1], code, fromHost);
      match calls[|calls| - 1]
      case Send(c, asHost, m) => if c == code && asHost == fromHost then rest + [Pushed(m)] else rest
      case Recv(c, asHost) => if c == code && asHost != fromHost then rest + [Received] else rest
  }

  /** Each lane of each code lives by its own calls alone: sends by one role, receives by the
      other. Neither role can be given its own messages, and codes do not touch each other. */
  lemma {:induction false} LanesAreSeparate<M>(calls: seq<Call<M>>, code: string)
    ensures Box(ServeAll(calls), code).h2g == ApplyAll(Empty(), OnLane(calls, code, true))
    ensures Box(ServeAll(calls), code).g2h == ApplyAll(Empty(), OnLane(calls, code, false))
  {
    if calls != [] {
      var init, last := calls[..|calls| - 1], calls[|calls| - 1];
      LanesAreSeparate(init, code);
      AppendOp(OnLane(init, code, true), OnLane(calls, code, true));
      AppendOp(OnLane(init, code, false), OnLane(calls, code, false));
    }
  }

  lemma AppendOp<M>(ops: seq<Op<M>>, more: seq<Op<M>>)
    requires more == ops || (more != [] && more == ops + [more[|more| - 1]])
    ensures more != ops ==> ApplyAll(Empty(), more) == Apply(ApplyAll(Empty(), ops), more[|more| - 1])
  {
    if more != ops {
      assert more[..|more| - 1] == ops;
    }
  }

  // ---- the same lane as a file of lines ----

  const NL := '\n'

  /** Rust's `lines`: split at newlines, drop a carriage return at the end of a line, and no
      empty line after the last newline. */
  function Chomp(s: string): string
  {
    if s != [] && s[|s| - 1] == '\r' then s[..|s| - 1] else s
  }

  /** A return at the end of a line is no part of it. */
  lemma ChompIs(s: string)
    ensures s == Chomp(s) || s == Chomp(s) + ['\r']
    ensures Chomp(s + ['\r']) == s
  {
  }

  function NonEmptyLines(parts: seq<string>): seq<string>
  {
    if parts == [] then []
    else (if Chomp(parts[0]) == [] then [] else [Chomp(parts[0])]) + NonEmptyLines(parts[1..])
  }

  function Lines(raw: string): seq<string>
  {
    NonEmptyLines(Text.Split(raw, NL))
  }

  /** A lane file: absent, or its text. */
  type File = Option<string>

  function Append(f: File, line: string): File
  {
    Some((if f.Some? then f.value else []) + line + [NL])
  }

  /** One look at the file: the first line, and the file without it. */
  function TakeLine(f: File): (Option<string>, File)
  {
    if f.None? then (None, f)
    else
      var lines := Lines(f.value);
      if lines == [] then (None, f)
      else
        var rest := Text.JoinWith(lines[1..], [NL]);
        (Some(lines[0]), if rest == [] then None else Some(rest + [NL]))
  }

  /** One lane file, shared by a sending and a receiving process. */
  class FsLane {
    var file: File

    constructor ()
      ensures file == None
    {
      file := None;
    }

    method SendLine(line: string)
      modifies this
      ensures file == Append(old(file), line)
    {
      var text := if file.Some? then file.value else [];
      file := Some(text + line + [NL]);
    }

    /** One turn of the receive loop: the first line if there is one. */
    method TryReceive() returns (line: Option<string>)
      modifies this
      ensures (line, file) == TakeLine(old(file))
    {
      line := None;
      if file.Some? {
        var lines := Lines(file.value);
        if lines != [] {
          line := Some(lines[0]);
          var rest := Text.JoinWith(lines[1..], [NL]);
          file := if rest == [] then None else Some(rest + [NL]);
        }
      }
    }
  }

  /** What serialisation must give: one line that is not empty and does not end in a return. */
  ghost predicate IsLine(s: string)
  {
    s != [] && NL !in s && s[|s| - 1] != '\r'
  }

  function Content(lines: seq<string>): File
  {
    if lines == [] then None else Some(Text.JoinWith(lines, [NL]) + [NL])
  }

  lemma {:induction false} LinesReadBack(lines: seq<string>)
    requires forall l :: l in lines ==> IsLine(l)
    ensures NonEmptyLines(lines + [[]]) == lines
  {
    if lines != [] {
      assert lines[0] in lines;
      assert (lines + [[]])[1..] == lines[1..] + [[]];
      LinesReadBack(lines[1..]);
    }
  }

  lemma {:induction false} JoinedNotEmpty(lines: seq<string>)
    requires lines != [] && IsLine(lines[0])
    ensures Text.JoinWith(lines, [NL]) != []
  {
  }

  /** The file mailbox is the same queue: appending adds at the end, taking removes the front,
      and the file is there exactly when the queue is not empty. */
  lemma FileIsQueue(lines: seq<string>, line: string)
    requires forall l :: l in lines ==> IsLine(l)
    requires IsLine(line)
    ensures Append(Content(lines), line) == Content(lines + [line])
    ensures TakeLine(Content(lines)) ==
      if lines == [] then (None, None) else (Some(lines[0]), Content(lines[1..]))
  {
    if lines == [] {
      assert Text.JoinWith([line], [NL]) == line;
      assert [] + line + [NL] == line + [NL];
    } else {
      Text.JoinSnoc(lines, [NL], line);
      assert Append(Content(lines), line).value == Text.JoinWith(lines + [line], [NL]) + [NL];
      Text.JoinSnoc(lines, [NL], []);
      assert Text.JoinWith(lines, [NL]) + [NL] + [] == Text.JoinWith(lines, [NL]) + [NL];
      Text.SplitUndoesJoin(lines + [[]], NL);
      LinesReadBack(lines);
      if |lines| > 1 {
        assert lines[1] in lines;
        JoinedNotEmpty(lines[1..]);
      }
    }
  }

  /** A lane file and the lines taken from it so far. */
  datatype FileRun = FileRun(file: File, taken: seq<string>)

  /** Sends and polls over the file, in the order in which they happen. */
  function OnFile(ops: seq<Op<string>>): FileRun
  {
    if ops == [] then FileRun(None, [])
    else
      var before := OnFile(ops[..|ops| - 1]);
      match ops[|ops| - 1]
      case Pushed(line) => before.(file := Append(before.file, line))
      case Probed =>
        var (line, file) := TakeLine(before.file);
        FileRun(file, if line.Some? then before.taken + [line.value] else before.taken)
      case _ => before
  }

  ghost predicate FileOps(ops: seq<Op<string>>)
  {
    forall op :: op in ops ==> op.Probed? || (op.Pushed? && IsLine(op.m))
  }

  lemma {:induction false} PushesAreLines(ops: seq<Op<string>>)
    requires FileOps(ops)
    ensures forall l :: l in Pushes(ops) ==> IsLine(l)
  {
    if ops != [] {
      assert ops[|ops| - 1] in ops;
      PushesAreLines(ops[..|ops| - 1]);
    }
  }

  /** The file is the lane's queue, and what was taken is what the receives got. */
  ghost predicate Mirrors(run: FileRun, l: Lane<string>, pushed: seq<string>)
  {
    && run.file == Content(l.queue) && l.waiters == []
    && run.taken + l.queue == pushed
    && |run.taken| == l.issued
    && forall k :: 0 <= k < |run.taken| ==> k in l.got && l.got[k] == run.taken[k]
  }

  lemma AppendMirrors(run: FileRun, l: Lane<string>, pushed: seq<string>, line: string)
    requires Mirrors(run, l, pushed) && IsLine(line) && forall x :: x in pushed ==> IsLine(x)
    ensures Mirrors(run.(file := Append(run.file, line)), Push(l, line), pushed + [line])
  {
    hide Append, Content, IsLine;
    assert forall x :: x in l.queue ==> x in pushed;
    FileIsQueue(l.queue, line);
  }

  lemma TakeMirrors(run: FileRun, l: Lane<string>, pushed: seq<string>)
    requires Mirrors(run, l, pushed) && l.queue != [] && forall x :: x in pushed ==> IsLine(x)
    ensures TakeLine(run.file).0 == Some(l.queue[0])
    ensures Mirrors(FileRun(TakeLine(run.file).1, run.taken + [l.queue[0]]), TakeOrWait(l), pushed)
  {
    hide Append, TakeLine, Content, IsLine;
    assert forall x :: x in l.queue ==> x in pushed;
    FileIsQueue(l.queue, l.queue[0]);
    assert l.queue == [l.queue[0]] + l.queue[1..];
  }

  /** Over any sends and polls the file is the lane's queue, written out, and what the polls took
      is what the lane's receives got: so nothing is lost, repeated or out of order. */
  lemma {:induction false} FileIsLane(ops: seq<Op<string>>)
    requires FileOps(ops)
    ensures Mirrors(OnFile(ops), ApplyAll(Empty(), ops), Pushes(ops))
  {
    PushesAreLines(ops);
    if ops != [] {
      hide Append, TakeLine, Mirrors, IsLine;
      var init, op := ops[..|ops| - 1], ops[|ops| - 1];
      assert op in ops;
      FileIsLane(init);
      PushesAreLines(init);
      var run, l := OnFile(init), ApplyAll(Empty(), init);
      assert Pushes(init) + [] == Pushes(init);
      match op
      case Pushed(line) => AppendMirrors(run, l, Pushes(init), line);
      case _ =>
        if l.queue != [] { TakeMirrors(run, l, Pushes(init)); } else { NothingToTake(run, l, Pushes(init)); }
    }
  }

  lemma NothingToTake(run: FileRun, l: Lane<string>, pushed: seq<string>)
    requires Mirrors(run, l, pushed) && l.queue == []
    ensures TakeLine(run.file) == (None, run.file)
  {
  }

  /** Lane files: other characters than letters, digits and `-` are replaced by `_`. */
  predicate Plain(c: char)
  {
    'a' <= c <= 'z' || 'A' <= c <= 'Z' || '0' <= c <= '9' || c == '-'
  }

  function Safe(code: string): (s: string)
    ensures |s| == |code|
  {
    seq(|code|, i requires 0 <= i < |code| => if Plain(code[i]) then code[i] else '_')
  }

  function LaneFile(code: string, asHost: bool, outbound: bool): string
  {
    Safe(code) + "." + (if asHost == outbound then "h2g" else "g2h") + ".jsonl"
  }

  /** Cleaning keeps the ASCII letters, the digits and `-`, and makes everything else `_`; so whatever
      the code, the name of a lane's file holds nothing but those and its own two dots. */
  lemma CleanedIs(code: string, i: nat)
    requires i < |code|
    ensures var c := code[i];
      Safe(code)[i] == if 'a' <= c <= 'z' || 'A' <= c <= 'Z' || '0' <= c <= '9' || c == '-' then c else '_'
  {
  }

  /** Two ends use one file exactly when their cleaned codes agree and one sends where the
      other receives (or both do the same in the same role). */
  lemma SameFileIff(code1: string, asHost1: bool, out1: bool, code2: string, asHost2: bool, out2: bool)
    ensures LaneFile(code1, asHost1, out1) == LaneFile(code2, asHost2, out2) <==>
      Safe(code1) == Safe(code2) && ((asHost1 == out1) <==> (asHost2 == out2))
    ensures (forall c :: c in code1 + code2 ==> Plain(c)) ==> (Safe(code1) == Safe(code2) <==> code1 == code2)
  {
    var f1, f2 := LaneFile(code1, asHost1, out1), LaneFile(code2, asHost2, out2);
    assert |f1| == |code1| + 10 && |f2| == |code2| + 10;
    if f1 == f2 {
      assert f1[..|code1|] == Safe(code1) && f2[..|code2|] == Safe(code2);
      assert f1[|code1| + 1] == (if asHost1 == out1 then 'h' else 'g');
      assert f2[|code2| + 1] == (if asHost2 == out2 then 'h' else 'g');
    }
    if forall c :: c in code1 + code2 ==> Plain(c) {
      assert forall i :: 0 <= i < |code1| ==> code1[i] in code1 + code2;
      assert forall i :: 0 <= i < |code2| ==> code2[i] in code1 + code2;
      assert Safe(code1) == code1 && Safe(code2) == code2;
    }
  }
}

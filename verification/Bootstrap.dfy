/** The bootstrap token of the pairing server: one secret per arm window, kept in the memory
    of each server process and in one file they share. */
module Bootstrap {
  import opened Foundations

  type Time = int
  type Octets = seq<bv8>
  type Secret = b: Octets | |b| == 32 witness seq(32, _ => 0)

  datatype Arm = Arm(armed: bool, until: Option<Time>)
  datatype Token = Token(raw: Secret, until: Time)
  datatype Persisted = Persisted(token: Octets, until: Time)

  const DISARMED := Arm(false, None)

  predicate EffectivelyArmed(arm: Arm, now: Time)
  {
    arm.armed && (arm.until.None? || now < arm.until.value)
  }

  /** Disarmed, or armed until a moment that has come. */
  predicate Lapsed(arm: Arm, now: Time)
  {
    !arm.armed || (arm.until.Some? && arm.until.value <= now)
  }

  lemma ArmedIffNotLapsed(arm: Arm, now: Time)
    ensures EffectivelyArmed(arm, now) <==> !Lapsed(arm, now)
    ensures Window(arm, now).Some? <==> arm.armed && arm.until.Some? && now < arm.until.value
    ensures Window(arm, now).Some? ==> Window(arm, now) == arm.until
  {
  }

  /** The window in force, if the node is armed for a limited time. */
  function Window(arm: Arm, now: Time): Option<Time>
  {
    if EffectivelyArmed(arm, now) then arm.until else None
  }

  // ---- one process ----

  datatype Outcome = Ready(token: Secret) | NotArmed | ArmedWithoutUntil

  /** Memory, file and answer after a process brings its token up to date. */
  datatype Synced = Synced(boot: Option<Token>, disk: Option<Persisted>, outcome: Outcome)

  /** What a process does once it has looked at the arm file (`arm`) and the clock (`now`). */
  function Sync(arm: Arm, now: Time, boot: Option<Token>, disk: Option<Persisted>, minted: Secret): Synced
  {
    if !EffectivelyArmed(arm, now) then Synced(None, None, NotArmed)
    else if arm.until.None? then Synced(boot, disk, ArmedWithoutUntil)
    else
      var until := arm.until.value;
      if boot.Some? && boot.value.until == until then Synced(boot, disk, Ready(boot.value.raw))
      else if disk.Some? && disk.value.until == until && |disk.value.token| == 32 then
        Synced(Some(Token(disk.value.token, until)), disk, Ready(disk.value.token))
      else Synced(Some(Token(minted, until)), Some(Persisted(minted, until)), Ready(minted))
  }

  class Files {
    var arm: Arm
    var disk: Option<Persisted>
    constructor ()
      ensures arm == DISARMED && disk == None
    {
      arm, disk := DISARMED, None;
    }
  }

  datatype Verdict = Accepted(token: Secret) | Unauthorized | Forbidden

  class Server {
    var boot: Option<Token>

    constructor ()
      ensures boot == None
    {
      boot := None;
    }

    /** Brings the token up to date with what a look at the arm file found. By the time the
        token file is read and written, the arm file may say something else. */
    method EnsureBootstrap(files: Files, arm: Arm, now: Time, minted: Secret) returns (outcome: Outcome)
      modifies this, files`disk
      ensures Synced(boot, files.disk, outcome) == Sync(arm, now, old(boot), old(files.disk), minted)
      ensures outcome.Ready? <==> arm.armed && arm.until.Some? && now < arm.until.value
      ensures outcome.NotArmed? <==> Lapsed(arm, now)
      ensures outcome.Ready? ==> boot == Some(Token(outcome.token, arm.until.value))
      ensures outcome.NotArmed? ==> boot == None && files.disk == None
    {
      if !EffectivelyArmed(arm, now) {
        boot := None;
        files.disk := None;
        return NotArmed;
      }
      if arm.until.None? {
        return ArmedWithoutUntil;
      }
      var until := arm.until.value;
      if boot.Some? && boot.value.until == until {
        return Ready(boot.value.raw);
      }
      if files.disk.Some? {
        var p := files.disk.value;
        if p.until == until && |p.token| == 32 {
          boot := Some(Token(p.token, p.until));
          return Ready(p.token);
        }
      }
      boot := Some(Token(minted, until));
      files.disk := Some(Persisted(minted, until));
      return Ready(minted);
    }

    /** Checks a presented bearer. The arm file is read a second time at the end, and may by
        then say something else: `armAgain` and `nowAgain` are what that second look finds. */
    method RequireBootstrap(files: Files, presented: Option<Octets>, arm: Arm, now: Time, minted: Secret,
                            armAgain: Arm, nowAgain: Time) returns (verdict: Verdict)
      modifies this, files`disk
      ensures var synced := Sync(arm, now, old(boot), old(files.disk), minted);
        verdict.Accepted? <==>
          && presented.Some? && |presented.value| == 32
          && synced.outcome.Ready? && synced.outcome.token == presented.value
          && !Lapsed(armAgain, nowAgain)
      ensures verdict.Accepted? ==> arm.armed && arm.until.Some? && now < arm.until.value
      ensures verdict.Accepted? ==> armAgain.armed && (armAgain.until.Some? ==> nowAgain < armAgain.until.value)
      ensures verdict.Accepted? ==> presented == Some(verdict.token) && boot.Some? && boot.value.raw == verdict.token
      ensures verdict.Forbidden? ==> Lapsed(armAgain, nowAgain) && boot == None && files.disk == None
    {
      if presented.None? || |presented.value| != 32 {
        return Unauthorized;
      }
      var outcome := EnsureBootstrap(files, arm, now, minted);
      if !outcome.Ready? || boot.None? {
        return Unauthorized;
      }
      var same := ConstantTimeEquals(boot.value.raw, presented.value);
      if !same {
        return Unauthorized;
      }
      if !EffectivelyArmed(armAgain, nowAgain) {
        boot := None;
        files.disk := None;
        return Forbidden;
      }
      return Accepted(boot.value.raw);
    }
  }

  /** Compares two byte strings without stopping at the first difference. */
  method ConstantTimeEquals(a: Octets, b: Octets) returns (same: bool)
    ensures same <==> a == b
  {
    if |a| != |b| {
      return false;
    }
    var v: bv8 := 0;
    for i := 0 to |a|
      invariant v == 0 <==> a[..i] == b[..i]
    {
      XorZeroIffEqual(v, a[i], b[i]);
      v := v | (a[i] ^ b[i]);
      assert a[..i + 1] == a[..i] + [a[i]] && b[..i + 1] == b[..i] + [b[i]];
    }
    assert a[..|a|] == a && b[..|b|] == b;
    return v == 0;
  }

  lemma XorZeroIffEqual(v: bv8, x: bv8, y: bv8)
    ensures v | (x ^ y) == 0 <==> v == 0 && x == y
  {
  }

  // ---- all processes over two files ----

  /** What a process found when it looked at the arm file. */
  datatype Seen = Seen(arm: Arm, now: Time)

  /** `looking` are the processes between their look and what they make of it; `handed` records
      every token ever handed out, with its window; `windows` every `until` the node was ever
      armed for. */
  datatype State = State(
    arm: Arm,
    now: Time,
    disk: Option<Persisted>,
    processes: map<nat, Option<Token>>,
    looking: map<nat, Seen>,
    handed: set<(Time, Octets)>,
    windows: set<Time>
  )

  datatype Step =
    | ArmFor(until: Time)
    | Disarm
    | Tick(later: Time)
    | Look(p: nat)
    | Act(p: nat, minted: Secret)
    | Restart(p: nat)

  /** A process clears memory and file alike whether its first or its second look finds the node
      disarmed, so both are a `Look` and an `Act`. Arming picks an `until` not used before; minting picks a token not handed out before;
      the clock does not go back. One look at a time in a process: it holds a lock. */
  ghost predicate Enabled(s: State, step: Step)
  {
    match step
    case ArmFor(until) => until !in s.windows
    case Disarm => true
    case Tick(later) => s.now <= later
    case Look(p) => p in s.processes && p !in s.looking
    case Act(p, minted) => p in s.processes && p in s.looking && forall h :: h in s.handed ==> h.1 != minted
    case Restart(_) => true
  }

  ghost function Next(s: State, step: Step): State
    requires Enabled(s, step)
  {
    match step
    case ArmFor(until) => s.(arm := Arm(true, Some(until)), windows := s.windows + {until})
    case Disarm => s.(arm := DISARMED)
    case Tick(later) => s.(now := later)
    case Look(p) => s.(looking := s.looking[p := Seen(s.arm, s.now)])
    case Act(p, minted) =>
      var seen := s.looking[p];
      var synced := Sync(seen.arm, seen.now, s.processes[p], s.disk, minted);
      s.(processes := s.processes[p := synced.boot], looking := s.looking - {p}, disk := synced.disk,
         handed := s.handed + if synced.outcome.Ready? then {(seen.arm.until.value, synced.outcome.token)} else {})
    case Restart(p) => s.(processes := s.processes[p := None], looking := s.looking - {p})
  }

  ghost predicate CanRun(s: State, steps: seq<Step>)
    decreases |steps|
  {
    steps == [] || (Enabled(s, steps[0]) && CanRun(Next(s, steps[0]), steps[1..]))
  }

  ghost function Run(s: State, steps: seq<Step>): State
    requires CanRun(s, steps)
    decreases |steps|
  {
    if steps == [] then s else Run(Next(s, steps[0]), steps[1..])
  }

  ghost predicate Initial(s: State)
  {
    && s.disk == None && s.handed == {} && s.looking == map[]
    && (forall p :: p in s.processes ==> s.processes[p] == None)
    && (s.arm.until.Some? ==> s.arm.until.value in s.windows)
  }

  // ---- coherence ----

  ghost predicate OneTokenPerWindow(s: State)
  {
    forall h, k :: h in s.handed && k in s.handed ==> (h.0 == k.0 <==> h.1 == k.1)
  }

  ghost predicate HandedOut(s: State, window: Time)
  {
    exists h :: h in s.handed && h.0 == window
  }

  /** Memory and file hold handed-out tokens only, and the file holds the token of the window
      in force as soon as one was handed out for it. */
  ghost predicate Coherent(s: State)
  {
    && OneTokenPerWindow(s)
    && (forall h :: h in s.handed ==> h.0 in s.windows)
    && (s.arm.until.Some? ==> s.arm.until.value in s.windows)
    && (forall p :: p in s.looking && s.looking[p].arm.until.Some? ==> s.looking[p].arm.until.value in s.windows)
    && (forall p :: p in s.processes && s.processes[p].Some? ==>
          (s.processes[p].value.until, s.processes[p].value.raw) in s.handed)
    && (s.disk.Some? ==> (s.disk.value.until, s.disk.value.token) in s.handed && |s.disk.value.token| == 32)
    && (forall h :: h in s.handed && Window(s.arm, s.now) == Some(h.0) ==> s.disk == Some(Persisted(h.1, h.0)))
  }

  // ---- when acting on an old look does harm ----

  /** Process `p` will mint: it saw a window for which neither it nor the file has the token. */
  ghost predicate WillMint(s: State, p: nat)
    requires p in s.processes && p in s.looking
  {
    var window := Window(s.looking[p].arm, s.looking[p].now);
    && window.Some?
    && !(s.processes[p].Some? && s.processes[p].value.until == window.value)
    && !(s.disk.Some? && s.disk.value.until == window.value && |s.disk.value.token| == 32)
  }

  /** Acting now would mint for a window that has its token already, or take the token of the
      window in force off the file. All of it can be read off the files and memories. */
  ghost predicate Harmful(s: State, p: nat)
    requires p in s.processes && p in s.looking
  {
    var seen := s.looking[p];
    || (WillMint(s, p) && HandedOut(s, seen.arm.until.value))
    || ((WillMint(s, p) || !EffectivelyArmed(seen.arm, seen.now))
        && Window(s.arm, s.now).Some? && HandedOut(s, Window(s.arm, s.now).value))
  }

  /** The look of `p` still shows what the arm file says. */
  ghost predicate Prompt(s: State, p: nat)
    requires p in s.looking
  {
    && Window(s.looking[p].arm, s.looking[p].now) == Window(s.arm, s.now)
    && EffectivelyArmed(s.looking[p].arm, s.looking[p].now) == EffectivelyArmed(s.arm, s.now)
  }

  lemma PromptIsHarmless(s: State, p: nat)
    requires Coherent(s) && p in s.processes && p in s.looking && Prompt(s, p)
    ensures !Harmful(s, p)
  {
  }

  lemma MintKeepsCoherent(s: State, p: nat, minted: Secret)
    requires Coherent(s) && Enabled(s, Act(p, minted)) && WillMint(s, p) && !Harmful(s, p)
    ensures Coherent(Next(s, Act(p, minted)))
  {
    var window, s' := s.looking[p].arm.until.value, Next(s, Act(p, minted));
    assert s'.handed == s.handed + {(window, minted)};
    assert forall h :: h in s.handed ==> h.0 != window;
  }

  lemma NoMintKeepsCoherent(s: State, p: nat, minted: Secret)
    requires Coherent(s) && Enabled(s, Act(p, minted)) && !WillMint(s, p) && !Harmful(s, p)
    ensures Coherent(Next(s, Act(p, minted)))
  {
    assert Next(s, Act(p, minted)).handed == s.handed;
  }

  lemma ActKeepsCoherent(s: State, step: Step)
    requires Coherent(s) && step.Act? && Enabled(s, step) && !Harmful(s, step.p)
    ensures Coherent(Next(s, step))
    ensures s.handed <= Next(s, step).handed
  {
    if WillMint(s, step.p) { MintKeepsCoherent(s, step.p, step.minted); } else { NoMintKeepsCoherent(s, step.p, step.minted); }
    hide Coherent, Harmful;
  }

  lemma OtherStepKeepsCoherent(s: State, step: Step)
    requires Coherent(s) && !step.Act? && Enabled(s, step)
    ensures Coherent(Next(s, step)) && s.handed == Next(s, step).handed && s.windows <= Next(s, step).windows
  {
  }

  /** Nobody in the run acts on a look that has become harmful. */
  ghost predicate Careful(s: State, steps: seq<Step>)
    requires CanRun(s, steps)
    decreases |steps|
  {
    steps != [] ==>
      (steps[0].Act? ==> !Harmful(s, steps[0].p)) && Careful(Next(s, steps[0]), steps[1..])
  }

  lemma {:induction false} RunKeepsCoherent(s: State, steps: seq<Step>)
    requires Coherent(s) && CanRun(s, steps) && Careful(s, steps)
    ensures Coherent(Run(s, steps)) && s.handed <= Run(s, steps).handed && s.windows <= Run(s, steps).windows
    decreases |steps|
  {
    if steps != [] {
      if steps[0].Act? { ActKeepsCoherent(s, steps[0]); } else { OtherStepKeepsCoherent(s, steps[0]); }
      RunKeepsCoherent(Next(s, steps[0]), steps[1..]);
    }
  }

  ghost predicate Agree(a: Option<Token>, b: Option<Token>)
  {
    a.Some? && b.Some? && a.value.until == b.value.until ==> a == b
  }

  /** Over any interleaving of processes, restarts, arming, disarming and expiry in which nobody
      acts on a look that has become harmful, each window has one token, and every process and
      the file agree on it. */
  lemma OneTokenPerArmWindow(s: State, steps: seq<Step>)
    requires Initial(s) && CanRun(s, steps) && Careful(s, steps)
    ensures var e := Run(s, steps);
      && OneTokenPerWindow(e)
      && (forall p, q :: p in e.processes && q in e.processes ==> Agree(e.processes[p], e.processes[q]))
      && (forall p :: p in e.processes && e.disk.Some? && |e.disk.value.token| == 32 ==>
            Agree(e.processes[p], Some(Token(e.disk.value.token, e.disk.value.until))))
  {
    RunKeepsCoherent(s, steps);
  }

  // ---- and only then ----

  /** Every act in the run follows a look that still holds. */
  ghost predicate AllPrompt(s: State, steps: seq<Step>)
    requires CanRun(s, steps)
    decreases |steps|
  {
    steps != [] ==>
      (steps[0].Act? ==> Prompt(s, steps[0].p)) && AllPrompt(Next(s, steps[0]), steps[1..])
  }

  lemma {:induction false} PromptRunsAreCareful(s: State, steps: seq<Step>)
    requires Coherent(s) && CanRun(s, steps) && AllPrompt(s, steps)
    ensures Careful(s, steps)
    decreases |steps|
  {
    if steps != [] {
      if steps[0].Act? {
        PromptIsHarmless(s, steps[0].p);
        ActKeepsCoherent(s, steps[0]);
      } else {
        OtherStepKeepsCoherent(s, steps[0]);
      }
      PromptRunsAreCareful(Next(s, steps[0]), steps[1..]);
    }
  }

  /** Some run from here, all of it prompt, ends with two tokens for one window. */
  ghost predicate Splits(s: State)
  {
    exists steps :: CanRun(s, steps) && AllPrompt(s, steps) && !OneTokenPerWindow(Run(s, steps))
  }

  lemma SplitNow(s: State)
    requires !OneTokenPerWindow(s)
    ensures Splits(s)
  {
    assert CanRun(s, []) && AllPrompt(s, []) && Run(s, []) == s;
  }

  /** With the token of the window in force off the file, a process that restarts mints anew. */
  lemma MissingFileSplits(s: State, p: nat, spare: Secret, token: Octets)
    requires p in s.processes && Window(s.arm, s.now).Some? && (Window(s.arm, s.now).value, token) in s.handed
    requires s.disk.Some? ==> s.disk.value.until != Window(s.arm, s.now).value
    requires forall h :: h in s.handed ==> h.1 != spare
    ensures Splits(s)
  {
    var window := Window(s.arm, s.now).value;
    var steps := [Restart(p), Look(p), Act(p, spare)];
    var s1 := Next(s, steps[0]);
    var s2 := Next(s1, steps[1]);
    var s3 := Next(s2, steps[2]);
    assert steps[1..] == [Look(p), Act(p, spare)] && steps[1..][1..] == [Act(p, spare)] && steps[1..][1..][1..] == [];
    assert CanRun(s3, []) && AllPrompt(s3, []) && Run(s3, []) == s3;
    assert CanRun(s2, [Act(p, spare)]) && AllPrompt(s2, [Act(p, spare)]) && Run(s2, [Act(p, spare)]) == s3;
    assert CanRun(s1, steps[1..]) && AllPrompt(s1, steps[1..]) && Run(s1, steps[1..]) == s3;
    assert steps[0] == Restart(p) && CanRun(s, steps) && AllPrompt(s, steps) && Run(s, steps) == s3;
    assert (window, spare) in s3.handed && (window, token) in s3.handed;
    assert !OneTokenPerWindow(s3);
  }

  /** From a coherent state, an act makes it possible that some window gets two tokens, though
      everything after be prompt, if and only if it was harmful. (`spare` is a secret that is
      still unused.) */
  lemma ActSplitsIffHarmful(s: State, p: nat, minted: Secret, spare: Secret)
    requires Coherent(s) && Enabled(s, Act(p, minted))
    requires spare != minted && forall h :: h in s.handed ==> h.1 != spare
    ensures Splits(Next(s, Act(p, minted))) <==> Harmful(s, p)
  {
    var s' := Next(s, Act(p, minted));
    if Harmful(s, p) {
      var seen := s.looking[p];
      if WillMint(s, p) && HandedOut(s, seen.arm.until.value) {
        var h :| h in s.handed && h.0 == seen.arm.until.value;
        assert h in s'.handed && (h.0, minted) in s'.handed;
        SplitNow(s');
      } else {
        var h :| h in s.handed && h.0 == Window(s.arm, s.now).value;
        MissingFileSplits(s', p, spare, h.1);
      }
    } else {
      ActKeepsCoherent(s, Act(p, minted));
      forall steps | CanRun(s', steps) && AllPrompt(s', steps) ensures OneTokenPerWindow(Run(s', steps)) {
        PromptRunsAreCareful(s', steps);
        RunKeepsCoherent(s', steps);
      }
    }
  }

  /** It happens: one process looks while the node is disarmed, the node is armed, another hands
      out the token of the new window, and now the first one's act is harmful. */
  lemma DisarmedLookTurnsHarmful(s: State, p: nat, q: nat, until: Time, first: Secret)
    requires Coherent(s) && s.arm == DISARMED && s.now < until && until !in s.windows
    requires p in s.processes && q in s.processes && p != q && p !in s.looking && q !in s.looking
    requires forall h :: h in s.handed ==> h.1 != first
    ensures var s1 := Next(s, Look(p)); var s2 := Next(s1, ArmFor(until)); var s3 := Next(s2, Look(q));
      && !Harmful(s1, p)
      && Enabled(s3, Act(q, first)) && Prompt(s3, q)
      && var s4 := Next(s3, Act(q, first));
         Coherent(s4) && p in s4.processes && p in s4.looking && Harmful(s4, p)
  {
    var s1 := Next(s, Look(p));
    var s3 := Next(Next(s1, ArmFor(until)), Look(q));
    BothHaveLooked(s, p, q, until);
    var s4 := Next(s3, Act(q, first));
    PromptIsHarmless(s3, q);
    ActKeepsCoherent(s3, Act(q, first));
    HandsOut(s3, q, first, until);
    OthersGoOn(s3, q, first, p);
    hide Coherent, Next, Enabled, WillMint;
    assert s4.looking[p] == Seen(DISARMED, s.now) && Window(s4.arm, s4.now) == Some(until);
  }

  lemma BothHaveLooked(s: State, p: nat, q: nat, until: Time)
    requires Coherent(s) && s.arm == DISARMED && until !in s.windows
    requires p in s.processes && q in s.processes && p != q && p !in s.looking && q !in s.looking
    ensures var s1 := Next(s, Look(p)); var s3 := Next(Next(s1, ArmFor(until)), Look(q));
      && Coherent(s1) && p in s1.looking && !Harmful(s1, p)
      && Coherent(s3) && s3.handed == s.handed && s3.processes == s.processes && s3.now == s.now
      && s3.arm == Arm(true, Some(until))
      && p in s3.looking && s3.looking[p] == Seen(DISARMED, s.now)
      && q in s3.looking && s3.looking[q] == Seen(s3.arm, s.now)
  {
    var s1 := Next(s, Look(p));
    OtherStepKeepsCoherent(s, Look(p));
    OtherStepKeepsCoherent(s1, ArmFor(until));
    OtherStepKeepsCoherent(Next(s1, ArmFor(until)), Look(q));
    hide Coherent;
  }

  lemma OthersGoOn(s: State, q: nat, minted: Secret, p: nat)
    requires Enabled(s, Act(q, minted)) && p != q && p in s.processes && p in s.looking
    ensures var s' := Next(s, Act(q, minted));
      && p in s'.processes && p in s'.looking && s'.looking[p] == s.looking[p]
      && s'.arm == s.arm && s'.now == s.now
  {
  }

  lemma HandsOut(s: State, q: nat, minted: Secret, until: Time)
    requires Coherent(s) && Enabled(s, Act(q, minted)) && Window(s.looking[q].arm, s.looking[q].now) == Some(until)
    ensures HandedOut(Next(s, Act(q, minted)), until)
  {
    var s', synced := Next(s, Act(q, minted)), Sync(s.looking[q].arm, s.looking[q].now, s.processes[q], s.disk, minted);
    assert synced.outcome.Ready? && (until, synced.outcome.token) in s'.handed;
  }

  // ---- a window ends ----

  /** The window is over and no process is still acting on a look from before its end. */
  ghost predicate Shut(s: State)
  {
    Lapsed(s.arm, s.now) && forall p :: p in s.looking ==> Lapsed(s.looking[p].arm, s.looking[p].now)
  }

  /** Arming opens a window, and the clock and disarming both end it. */
  lemma WindowOpensAndEnds(s: State, until: Time, later: Time)
    ensures Enabled(s, ArmFor(until)) <==> until !in s.windows
    ensures until !in s.windows ==>
      var s' := Next(s, ArmFor(until)); (Lapsed(s'.arm, s'.now) <==> s.now >= until) && s' == s.(arm := s'.arm, windows := s.windows + {until})
    ensures Enabled(s, Disarm) && Lapsed(Next(s, Disarm).arm, s.now) && Next(s, Disarm) == s.(arm := Next(s, Disarm).arm)
    ensures s.now <= later ==> Enabled(s, Tick(later)) && Next(s, Tick(later)).now == later && Next(s, Tick(later)).arm == s.arm
  {
  }

  predicate NoArming(steps: seq<Step>)
  {
    forall step :: step in steps ==> !step.ArmFor?
  }

  /** Once the clock has reached the end of the window, or the node was disarmed, no look yields a
      token until somebody arms: nothing more is handed out, and every process that acts forgets
      its token. */
  lemma {:induction false} NothingAfterTheEnd(s: State, steps: seq<Step>)
    requires Shut(s) && CanRun(s, steps) && NoArming(steps)
    ensures var e := Run(s, steps);
      && Shut(e) && e.handed == s.handed
      && (forall p :: p in e.processes ==> e.processes[p] == None || (p in s.processes && e.processes[p] == s.processes[p]))
    decreases |steps|
  {
    if steps != [] {
      assert steps[0] in steps;
      ShutStays(s, steps[0]);
      NothingAfterTheEnd(Next(s, steps[0]), steps[1..]);
    }
  }

  lemma ShutStays(s: State, step: Step)
    requires Shut(s) && Enabled(s, step) && !step.ArmFor?
    ensures var s' := Next(s, step);
      && Shut(s') && s'.handed == s.handed
      && (forall p :: p in s'.processes ==> s'.processes[p] == None || (p in s.processes && s'.processes[p] == s.processes[p]))
      && (step.Act? ==> s'.processes[step.p] == None)
  {
  }

  /** And while the window lasts a look does yield one, the same for every process. */
  lemma LookInWindowYields(s: State, p: nat, minted: Secret)
    requires Coherent(s) && Enabled(s, Act(p, minted)) && !Harmful(s, p)
    requires var seen := s.looking[p]; seen.arm.armed && seen.arm.until.Some? && seen.now < seen.arm.until.value
    ensures var s', until := Next(s, Act(p, minted)), s.looking[p].arm.until.value;
      && s'.processes[p].Some? && s'.processes[p].value.until == until
      && (until, s'.processes[p].value.raw) in s'.handed
      && (HandedOut(s, until) ==> s'.handed == s.handed)
  {
    ActKeepsCoherent(s, Act(p, minted));
  }

  // ---- what a bearer proves ----

  /** Right after a process acts on a look that showed a window, a bearer matches its memory
      exactly when it is the token handed out for that window. */
  lemma MatchIffTokenOfWindow(s: State, p: nat, minted: Secret, bearer: Secret)
    requires Coherent(s) && Enabled(s, Act(p, minted)) && !Harmful(s, p)
    requires Window(s.looking[p].arm, s.looking[p].now).Some?
    ensures var s' := Next(s, Act(p, minted));
      && s'.processes[p].Some?
      && (s'.processes[p].value.raw == bearer <==>
            (Window(s.looking[p].arm, s.looking[p].now).value, bearer) in s'.handed)
  {
    ActKeepsCoherent(s, Act(p, minted));
  }

  /** Between the match and the second look at the arm file the node may have been armed
      anew. The bearer then belongs to the window now in force exactly when that window is
      still the one it was matched in. */
  lemma AcceptedBearerIsCurrentIff(s: State, steps: seq<Step>, window: Time, bearer: Secret)
    requires Coherent(s) && (window, bearer) in s.handed
    requires CanRun(s, steps) && Careful(s, steps)
    ensures var e := Run(s, steps); forall later :: Window(e.arm, e.now) == Some(later) ==>
      ((later, bearer) in e.handed <==> later == window)
  {
    RunKeepsCoherent(s, steps);
  }

  /** Such a change of window can always happen: one arming in between is enough for a bearer
      of the old window to pass the second look. */
  lemma OldBearerCanPass(s: State, window: Time, bearer: Secret, until: Time)
    requires Coherent(s) && (window, bearer) in s.handed
    requires until !in s.windows && s.now < until
    ensures CanRun(s, [ArmFor(until)])
    ensures var e := Run(s, [ArmFor(until)]);
      EffectivelyArmed(e.arm, e.now) && Window(e.arm, e.now) == Some(until) && (until, bearer) !in e.handed
  {
    assert [ArmFor(until)][1..] == [];
    assert Run(s, [ArmFor(until)]) == Next(s, ArmFor(until));
    assert CanRun(Next(s, ArmFor(until)), []);
  }

  /** Why arming must pick a new `until`: armed twice for the same instant with a disarmed
      sync in between, one process keeps its token and another mints a second one. */
  lemma ReusedWindowSplits(until: Time, now: Time, first: Secret, second: Secret)
    requires now < until && first != second
    ensures var arm := Arm(true, Some(until));
      var p := Sync(arm, now, None, None, first);            // process p mints
      var q := Sync(DISARMED, now, None, p.disk, second);    // disarmed: q removes the file
      var p' := Sync(arm, now, p.boot, q.disk, second);      // armed again: p answers from memory
      var q' := Sync(arm, now, q.boot, q.disk, second);      // q mints again
      p'.outcome.Ready? && q'.outcome.Ready? && p'.outcome != q'.outcome
  {
  }
}

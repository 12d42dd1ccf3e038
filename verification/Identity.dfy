/**
 First-run creation of an identity file by any number of processes at once, as interleaved system calls. Each
 process reads, writes a temporary file, claims the final name by a hard link or, where links are not supported,
 under a lock file, and otherwise reads the winner's file or reclaims a stale unreadable one.
 */
module Identity {
  import opened Options

  const MAX_RECLAIMS: nat := 3

  /** The identity that was there before, or the one built by process `maker`. */
  datatype Id = Old | New(maker: nat)

  /** A path: nothing, a complete identity, or content that does not parse. */
  datatype File = Absent | Whole(id: Id) | Broken

  datatype Mode = Link | Lock

  datatype Pc =
    | Start | Loop | Writing | Claiming
    | Locking | Checking | Replacing | Unlocking(placed: bool)
    | Lost | Judging | Reclaiming
    | Done(id: Id) | Failed | Crashed

  datatype Proc = Proc(pc: Pc, tmp: File, reclaims: nat)

  datatype State = State(file: File, lock: Option<nat>, procs: seq<Proc>)

  /**
   The claim branch of each process, the file at the start, and whether a complete file placed during the run
   never looks stale. The last may be false: both claims keep the age of the temporary file.
   */
  datatype Setting = Setting(modes: seq<Mode>, before: File, wholeLooksFresh: bool)

  datatype Step =
    | Move(i: nat)
    | Judge(i: nat, stale: bool, late: bool)
    | Crash(i: nat)

  function Begin(g: Setting): State {
    State(g.before, None, seq(|g.modes|, _ => Proc(Start, Absent, MAX_RECLAIMS)))
  }

  predicate Running(p: Pc) {
    !p.Done? && !p.Failed? && !p.Crashed?
  }

  predicate Enabled(g: Setting, s: State, step: Step) {
    && step.i < |s.procs| && step.i < |g.modes| && Running(s.procs[step.i].pc)
    && match step {
         case Move(i) => !s.procs[i].pc.Judging?
         case Judge(i, stale, _) =>
           s.procs[i].pc.Judging? && (stale ==> !s.file.Absent? && (g.wholeLooksFresh ==> !s.file.Whole?))
         case Crash(_) => true
       }
  }

  function At(s: State, i: nat, pc: Pc): State
    requires i < |s.procs|
  {
    s.(procs := s.procs[i := s.procs[i].(pc := pc)])
  }

  /** Read the final path: a complete identity is returned, anything else goes on. */
  function Read(s: State, i: nat, otherwise: Pc): State
    requires i < |s.procs|
  {
    At(s, i, if s.file.Whole? then Done(s.file.id) else otherwise)
  }

  function Apply(g: Setting, s: State, step: Step): State
    requires Enabled(g, s, step)
  {
    var i := step.i;
    var p := s.procs[i];
    match step
    case Crash(_) => At(s, i, Crashed)
    case Judge(_, stale, late) =>
      if stale then
        if p.reclaims == 0 then At(s, i, Failed)
        else s.(procs := s.procs[i := p.(pc := Reclaiming, reclaims := p.reclaims - 1)])
      else At(s, i, if late then Failed else Loop)
    case Move(_) =>
      match p.pc
      case Start => Read(s, i, Loop)
      case Loop =>
        var r := Read(s, i, Writing);
        r.(procs := r.procs[i := r.procs[i].(tmp := Broken)])
      case Writing => s.(procs := s.procs[i := p.(pc := Claiming, tmp := Whole(New(i)))])
      case Claiming =>
        if g.modes[i].Lock? then At(s, i, Locking)
        else if s.file.Absent? then At(s.(file := p.tmp), i, Done(New(i)))
        else At(s, i, Lost)
      case Locking => if s.lock.None? then At(s.(lock := Some(i)), i, Checking) else At(s, i, Lost)
      case Checking => At(s, i, if s.file.Absent? then Replacing else Unlocking(false))
      case Replacing => At(s.(file := p.tmp), i, Unlocking(true))
      case Unlocking(placed) => At(s.(lock := None), i, if placed then Done(New(i)) else Lost)
      case Lost => Read(s, i, Judging)
      case Reclaiming => At(s.(file := Absent), i, Loop)
      case _ => s
  }

  ghost predicate RunsTo(g: Setting, s: State, steps: seq<Step>, t: State)
    decreases |steps|
  {
    if steps == [] then s == t
    else Enabled(g, s, steps[0]) && RunsTo(g, Apply(g, s, steps[0]), steps[1..], t)
  }

  ghost predicate Reachable(g: Setting, t: State) {
    exists steps :: RunsTo(g, Begin(g), steps, t)
  }

  /** How often process `i` removes the file along a run. */
  ghost function Removals(g: Setting, s: State, steps: seq<Step>, t: State, i: nat): nat
    requires RunsTo(g, s, steps, t) && i < |s.procs|
    decreases |steps|
  {
    if steps == [] then 0
    else
      Removals(g, Apply(g, s, steps[0]), steps[1..], t, i) + if steps[0] == Move(i) && s.procs[i].pc.Reclaiming? then 1 else 0
  }

  /** A process removes the file no more often than it may reclaim: from the beginning, at most three times. */
  lemma {:induction false} RemovalsAreFew(g: Setting, s: State, steps: seq<Step>, t: State, i: nat)
    requires RunsTo(g, s, steps, t) && i < |s.procs|
    ensures Removals(g, s, steps, t, i) <= s.procs[i].reclaims + if s.procs[i].pc.Reclaiming? then 1 else 0
    decreases |steps|
  {
    if steps != [] {
      RemovalsAreFew(g, Apply(g, s, steps[0]), steps[1..], t, i);
    }
  }

  /** All processes that have returned hold the same identity. */
  ghost predicate Agreed(s: State) {
    forall i, j :: 0 <= i < |s.procs| && 0 <= j < |s.procs| && s.procs[i].pc.Done? && s.procs[j].pc.Done? ==>
      s.procs[i].pc == s.procs[j].pc
  }

  ghost predicate AlwaysAgree(g: Setting) {
    forall t :: Reachable(g, t) ==> Agreed(t)
  }

  predicate All(g: Setting, mode: Mode) {
    forall i :: 0 <= i < |g.modes| ==> g.modes[i] == mode
  }

  /** The settings in which the claim is safe for any number of processes. */
  predicate SafeSetting(g: Setting) {
    g.before.Whole? || (g.before.Absent? && (All(g, Link) || (All(g, Lock) && g.wholeLooksFresh)))
  }

  // ---- safe settings ----

  predicate HoldsLock(pc: Pc) {
    pc.Checking? || pc.Replacing? || pc.Unlocking?
  }

  /** What each process may assume; `s` never holds a broken file, and nobody is about to remove one. */
  ghost predicate ProcOk(g: Setting, s: State, i: nat)
    requires i < |s.procs| && |s.procs| == |g.modes|
  {
    var p := s.procs[i];
    && !p.pc.Reclaiming?
    && (p.pc.Claiming? || p.pc.Locking? || HoldsLock(p.pc) ==> p.tmp == Whole(New(i)))
    && (p.pc.Done? ==> s.file == Whole(p.pc.id))
    && (p.pc == Unlocking(true) ==> s.file == Whole(New(i)))
    && (p.pc.Replacing? ==> s.file.Absent?)
    && (HoldsLock(p.pc) ==> s.lock == Some(i) && g.modes[i].Lock?)
    && (p.pc.Locking? ==> g.modes[i].Lock?)
    && (g.modes[i].Link? && (p.pc.Lost? || p.pc.Judging?) ==> p.pc.Lost? && s.file.Whole?)
    && (g.before.Whole? ==> p.pc.Start? || p.pc.Done? || p.pc.Crashed?)
  }

  ghost predicate Inv(g: Setting, s: State) {
    && |s.procs| == |g.modes| && !s.file.Broken?
    && (g.before.Whole? ==> s.file == g.before)
    && forall i :: 0 <= i < |s.procs| ==> ProcOk(g, s, i)
  }

  /** What a step does to the process that takes it. */
  lemma OwnStep(g: Setting, s: State, step: Step)
    requires SafeSetting(g) && Inv(g, s) && Enabled(g, s, step)
    ensures var t := Apply(g, s, step); |t.procs| == |s.procs| && ProcOk(g, t, step.i)
  {
    assert ProcOk(g, s, step.i);
  }

  /** What it leaves of the others: the lock keeps them off the path, and a complete file stays. */
  lemma OtherStep(g: Setting, s: State, step: Step, i: nat)
    requires SafeSetting(g) && Inv(g, s) && Enabled(g, s, step) && i < |s.procs| && i != step.i
    ensures ProcOk(g, Apply(g, s, step), i)
  {
    assert ProcOk(g, s, step.i) && ProcOk(g, s, i);
    var t := Apply(g, s, step);
    assert t.procs[i] == s.procs[i];
  }

  lemma FileStep(g: Setting, s: State, step: Step)
    requires SafeSetting(g) && Inv(g, s) && Enabled(g, s, step)
    ensures var t := Apply(g, s, step);
            && !t.file.Broken? && (g.before.Whole? ==> t.file == g.before) && (s.file.Whole? ==> t.file == s.file)
  {
    assert ProcOk(g, s, step.i);
  }

  lemma StepKeepsInv(g: Setting, s: State, step: Step)
    requires SafeSetting(g) && Inv(g, s) && Enabled(g, s, step)
    ensures Inv(g, Apply(g, s, step))
    ensures s.file.Whole? ==> Apply(g, s, step).file == s.file
  {
    hide ProcOk, Enabled, SafeSetting, Apply;
    var t := Apply(g, s, step);
    OwnStep(g, s, step);
    FileStep(g, s, step);
    forall i | 0 <= i < |t.procs| ensures ProcOk(g, t, i) {
      if i != step.i {
        OtherStep(g, s, step, i);
      }
    }
  }

  lemma {:induction false} RunKeepsInv(g: Setting, s: State, steps: seq<Step>, t: State)
    requires SafeSetting(g) && Inv(g, s) && RunsTo(g, s, steps, t)
    ensures Inv(g, t)
    ensures s.file.Whole? ==> t.file == s.file
    decreases |steps|
  {
    if steps != [] {
      StepKeepsInv(g, s, steps[0]);
      RunKeepsInv(g, Apply(g, s, steps[0]), steps[1..], t);
    }
  }
}

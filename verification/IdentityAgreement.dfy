/**
 Exactly when all processes that create the identity file at once end up with the same identity.
 */
module IdentityAgreement {
  import opened Options
  import opened Identity

  /** In a safe setting: agreement, no partial content at the final path, and a complete file never changes. */
  lemma SafeSettingsAgree(g: Setting, steps: seq<Step>, t: State)
    requires SafeSetting(g) && RunsTo(g, Begin(g), steps, t)
    ensures Agreed(t) && !t.file.Broken?
    ensures forall i :: 0 <= i < |t.procs| && t.procs[i].pc.Done? ==> t.file == Whole(t.procs[i].pc.id)
  {
    RunKeepsInv(g, Begin(g), steps, t);
    forall i | 0 <= i < |t.procs| && t.procs[i].pc.Done? ensures t.file == Whole(t.procs[i].pc.id) {
      assert ProcOk(g, t, i);
    }
  }

  lemma WholeFileStays(g: Setting, before: seq<Step>, s: State, after: seq<Step>, t: State)
    requires SafeSetting(g) && RunsTo(g, Begin(g), before, s) && RunsTo(g, s, after, t) && s.file.Whole?
    ensures t.file == s.file
  {
    RunKeepsInv(g, Begin(g), before, s);
    RunKeepsInv(g, s, after, t);
  }

  lemma {:induction false} LengthStays(g: Setting, s: State, steps: seq<Step>, t: State)
    requires RunsTo(g, s, steps, t)
    ensures |t.procs| == |s.procs|
    decreases |steps|
  {
    if steps != [] {
      LengthStays(g, Apply(g, s, steps[0]), steps[1..], t);
    }
  }

  /** Nobody can fail: a complete file was there before, or the path was free and all claim by link. */
  predicate CannotFail(g: Setting) {
    g.before.Whole? || (g.before.Absent? && All(g, Link))
  }

  ghost predicate NoneFailed(s: State) {
    forall i :: 0 <= i < |s.procs| ==> !s.procs[i].pc.Failed?
  }

  lemma StepFailsNobody(g: Setting, s: State, step: Step)
    requires CannotFail(g) && Inv(g, s) && Enabled(g, s, step) && NoneFailed(s)
    ensures NoneFailed(Apply(g, s, step))
  {
    assert ProcOk(g, s, step.i);
  }

  lemma {:induction false} RunFailsNobody(g: Setting, s: State, steps: seq<Step>, t: State)
    requires CannotFail(g) && Inv(g, s) && NoneFailed(s) && RunsTo(g, s, steps, t)
    ensures NoneFailed(t)
    decreases |steps|
  {
    if steps != [] {
      StepFailsNobody(g, s, steps[0]);
      StepKeepsInv(g, s, steps[0]);
      RunFailsNobody(g, Apply(g, s, steps[0]), steps[1..], t);
    }
  }

  /**
   By links from a free path no process ever raises: the losers return the winner's identity. Where a complete file was
   there before, every process that finishes returns it.
   */
  lemma NobodyFails(g: Setting, steps: seq<Step>, t: State)
    requires CannotFail(g) && RunsTo(g, Begin(g), steps, t)
    ensures NoneFailed(t)
    ensures g.before.Whole? ==> forall i :: 0 <= i < |t.procs| && t.procs[i].pc.Done? ==> t.procs[i].pc.id == g.before.id
  {
    RunFailsNobody(g, Begin(g), steps, t);
    RunKeepsInv(g, Begin(g), steps, t);
    SafeSettingsAgree(g, steps, t);
  }

  /** Wherever a process looks at the path and finds a complete file, it returns what the file holds. */
  lemma FoundIsReturned(g: Setting, s: State, i: nat)
    requires Enabled(g, s, Move(i)) && s.file.Whole? && (s.procs[i].pc.Start? || s.procs[i].pc.Loop? || s.procs[i].pc.Lost?)
    ensures Apply(g, s, Move(i)).procs[i].pc == Done(s.file.id) && Apply(g, s, Move(i)).file == s.file
  {
  }

  // ---- building runs ----

  lemma {:induction false} OneMore(g: Setting, s: State, steps: seq<Step>, t: State, step: Step)
    requires RunsTo(g, s, steps, t) && Enabled(g, t, step)
    ensures RunsTo(g, s, steps + [step], Apply(g, t, step))
    decreases |steps|
  {
    if steps == [] {
      assert steps + [step] == [step];
      assert [step][1..] == [];
    } else {
      assert (steps + [step])[1..] == steps[1..] + [step];
      OneMore(g, Apply(g, s, steps[0]), steps[1..], t, step);
    }
  }

  lemma Go(g: Setting, s: State, step: Step) returns (t: State)
    requires Reachable(g, s) && Enabled(g, s, step)
    ensures t == Apply(g, s, step) && Reachable(g, t)
  {
    var steps :| RunsTo(g, Begin(g), steps, s);
    OneMore(g, Begin(g), steps, s, step);
    t := Apply(g, s, step);
  }

  lemma AtBegin(g: Setting)
    ensures Reachable(g, Begin(g))
  {
    assert RunsTo(g, Begin(g), [], Begin(g));
  }

  predicate IsProc(g: Setting, s: State, i: nat) {
    |s.procs| == |g.modes| && i < |g.modes|
  }

  /** From the loop, with the path and the lock free, a process left alone places and returns its own identity. */
  lemma WinAlone(g: Setting, s: State, i: nat) returns (t: State)
    requires Reachable(g, s) && IsProc(g, s, i) && s.procs[i].pc.Loop? && s.file.Absent? && s.lock.None?
    ensures Reachable(g, t) && t.file == Whole(New(i)) && t.lock.None?
    ensures IsProc(g, t, i) && t.procs[i].pc == Done(New(i)) && t.procs == s.procs[i := t.procs[i]]
  {
    hide Reachable;
    t := Go(g, s, Move(i));
    t := Go(g, t, Move(i));
    t := Go(g, t, Move(i));
    if g.modes[i].Lock? {
      t := Go(g, t, Move(i));
      t := Go(g, t, Move(i));
      t := Go(g, t, Move(i));
      t := Go(g, t, Move(i));
    }
  }

  /** With an unreadable file in place, a process left alone comes to judge its age. */
  lemma FindBroken(g: Setting, s: State, i: nat) returns (t: State)
    requires Reachable(g, s) && IsProc(g, s, i) && s.procs[i].pc.Start? && s.file.Broken? && s.lock.None?
    ensures Reachable(g, t) && t.file.Broken? && t.lock.None?
    ensures IsProc(g, t, i) && t.procs[i].pc.Judging? && t.procs[i].reclaims == s.procs[i].reclaims
    ensures t.procs == s.procs[i := t.procs[i]]
  {
    hide Reachable;
    t := Go(g, s, Move(i));
    t := Go(g, t, Move(i));
    t := Go(g, t, Move(i));
    t := LoseToBroken(g, t, i);
  }

  lemma LoseToBroken(g: Setting, s: State, i: nat) returns (t: State)
    requires Reachable(g, s) && IsProc(g, s, i) && s.procs[i].pc.Claiming? && s.file.Broken? && s.lock.None?
    ensures Reachable(g, t) && t.file.Broken? && t.lock.None?
    ensures IsProc(g, t, i) && t.procs[i].pc.Judging? && t.procs[i].reclaims == s.procs[i].reclaims
    ensures t.procs == s.procs[i := t.procs[i]]
  {
    hide Reachable;
    t := Go(g, s, Move(i));
    if g.modes[i].Lock? {
      t := Go(g, t, Move(i));
      t := Go(g, t, Move(i));
      t := Go(g, t, Move(i));
    }
    t := Go(g, t, Move(i));
  }

  lemma DoneTwice(s: State, i: nat, j: nat)
    requires i < |s.procs| && j < |s.procs| && i != j
    requires s.procs[i].pc == Done(New(i)) && s.procs[j].pc == Done(New(j))
    ensures !Agreed(s)
  {
  }

  /** A stale unreadable file and two processes: both find it stale, and the slower one removes the faster one's file. */
  lemma BrokenStartDisagrees(g: Setting) returns (t: State)
    requires |g.modes| >= 2 && g.before.Broken?
    ensures Reachable(g, t) && !Agreed(t)
  {
    AtBegin(g);
    hide Reachable, Agreed;
    t := FindBroken(g, Begin(g), 0);
    t := FindBroken(g, t, 1);
    t := Go(g, t, Judge(0, true, false));
    t := Go(g, t, Judge(1, true, false));
    t := Go(g, t, Move(0));
    t := WinAlone(g, t, 0);
    t := Go(g, t, Move(1));
    t := WinAlone(g, t, 1);
    DoneTwice(t, 0, 1);
  }

  /** A process on the lock branch that has checked the path overwrites what a link claimed after the check. */
  lemma MixedBranchesDisagree(g: Setting, locker: nat, linker: nat) returns (t: State)
    requires locker < |g.modes| && linker < |g.modes| && g.before.Absent?
    requires g.modes[locker].Lock? && g.modes[linker].Link?
    ensures Reachable(g, t) && !Agreed(t)
  {
    AtBegin(g);
    hide Reachable, Agreed;
    t := ToChecked(g, Begin(g), locker);
    t := Go(g, t, Move(linker));
    t := Go(g, t, Move(linker));
    t := Go(g, t, Move(linker));
    t := Go(g, t, Move(linker));
    t := Go(g, t, Move(locker));
    t := Go(g, t, Move(locker));
    DoneTwice(t, locker, linker);
  }

  /** A process on the lock branch, alone, up to the point where it has seen the path free. */
  lemma ToChecked(g: Setting, s: State, i: nat) returns (t: State)
    requires Reachable(g, s) && IsProc(g, s, i) && s.procs[i].pc.Start? && g.modes[i].Lock? && s.file.Absent? && s.lock.None?
    ensures Reachable(g, t) && t.file.Absent? && t.lock == Some(i)
    ensures IsProc(g, t, i) && t.procs[i].pc.Replacing? && t.procs[i].tmp == Whole(New(i)) && t.procs == s.procs[i := t.procs[i]]
  {
    hide Reachable;
    t := Go(g, s, Move(i));
    t := Go(g, t, Move(i));
    t := Go(g, t, Move(i));
    t := Go(g, t, Move(i));
    t := Go(g, t, Move(i));
    t := Go(g, t, Move(i));
  }

  /** A process that finds the lock taken and still nothing at the path comes to judge the path's age. */
  lemma ShutOut(g: Setting, s: State, i: nat) returns (t: State)
    requires Reachable(g, s) && IsProc(g, s, i) && s.procs[i].pc.Start? && g.modes[i].Lock? && s.file.Absent? && s.lock.Some?
    ensures Reachable(g, t) && t.file.Absent? && t.lock == s.lock
    ensures IsProc(g, t, i) && t.procs[i].pc.Judging? && t.procs[i].reclaims == s.procs[i].reclaims
    ensures t.procs == s.procs[i := t.procs[i]]
  {
    hide Reachable;
    t := Go(g, s, Move(i));
    t := Go(g, t, Move(i));
    t := Go(g, t, Move(i));
    t := Go(g, t, Move(i));
    t := Go(g, t, Move(i));
    t := Go(g, t, Move(i));
  }

  /** A slow winner on the lock branch places a file that already looks stale, and a loser removes it. */
  lemma SlowWinnerDisagrees(g: Setting) returns (t: State)
    requires |g.modes| >= 2 && All(g, Lock) && g.before.Absent? && !g.wholeLooksFresh
    ensures Reachable(g, t) && !Agreed(t)
  {
    AtBegin(g);
    hide Reachable, Agreed;
    t := ToChecked(g, Begin(g), 0);
    t := ShutOut(g, t, 1);
    t := Go(g, t, Move(0));
    t := Go(g, t, Move(0));
    t := Go(g, t, Judge(1, true, false));
    t := Go(g, t, Move(1));
    t := WinAlone(g, t, 1);
    DoneTwice(t, 0, 1);
  }

  /**
   The processes agree in every run exactly when there is at most one of them, or a complete file was there before,
   or the path was free and all claim by link, or all claim under the lock and no placed file ever looks stale.
   */
  lemma AgreementIff(g: Setting)
    ensures AlwaysAgree(g) <==> |g.modes| <= 1 || SafeSetting(g)
  {
    if |g.modes| <= 1 {
      forall t | Reachable(g, t) ensures Agreed(t) {
        var steps :| RunsTo(g, Begin(g), steps, t);
        LengthStays(g, Begin(g), steps, t);
      }
    } else if SafeSetting(g) {
      forall t | Reachable(g, t) ensures Agreed(t) {
        var steps :| RunsTo(g, Begin(g), steps, t);
        SafeSettingsAgree(g, steps, t);
      }
    } else {
      var t := Disagreement(g);
    }
  }

  lemma Disagreement(g: Setting) returns (t: State)
    requires |g.modes| >= 2 && !SafeSetting(g)
    ensures Reachable(g, t) && !Agreed(t)
  {
    if g.before.Broken? {
      t := BrokenStartDisagrees(g);
    } else if All(g, Lock) {
      t := SlowWinnerDisagrees(g);
    } else {
      var linker :| 0 <= linker < |g.modes| && g.modes[linker] != Lock;
      var locker :| 0 <= locker < |g.modes| && g.modes[locker] != Link;
      t := MixedBranchesDisagree(g, locker, linker);
    }
  }

  // ---- a lock left behind ----

  /** The lock file of a process that was killed under it, with nothing at the path. */
  ghost predicate Abandoned(s: State) {
    && s.file.Absent? && s.lock.Some? && s.lock.value < |s.procs| && s.procs[s.lock.value].pc.Crashed?
    && forall i :: 0 <= i < |s.procs| ==> !HoldsLock(s.procs[i].pc) && !s.procs[i].pc.Done?
  }

  /** Any process on the lock branch may be killed between creating the lock file and removing it. */
  lemma LocksAreAbandoned(g: Setting, i: nat) returns (t: State)
    requires i < |g.modes| && g.modes[i].Lock? && g.before.Absent?
    ensures Reachable(g, t) && Abandoned(t)
  {
    AtBegin(g);
    hide Reachable;
    var s := ToChecked(g, Begin(g), i);
    t := Go(g, s, Crash(i));
    assert t.procs == Begin(g).procs[i := t.procs[i]];
  }

  /** Nobody removes a lock left behind: no process that must claim under it ever returns an identity. */
  lemma {:induction false} AbandonedLockBlocks(g: Setting, s: State, steps: seq<Step>, t: State)
    requires All(g, Lock) && Abandoned(s) && RunsTo(g, s, steps, t)
    ensures Abandoned(t)
    decreases |steps|
  {
    if steps != [] {
      AbandonedStays(g, s, steps[0]);
      AbandonedLockBlocks(g, Apply(g, s, steps[0]), steps[1..], t);
    }
  }

  lemma AbandonedStays(g: Setting, s: State, step: Step)
    requires All(g, Lock) && Abandoned(s) && Enabled(g, s, step)
    ensures Abandoned(Apply(g, s, step))
  {
    assert g.modes[step.i].Lock? && !HoldsLock(s.procs[step.i].pc);
  }
}

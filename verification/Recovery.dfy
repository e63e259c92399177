/**
 The durable recovery worker and the supervisor that expires its lease and deletes its Pod.
 The worker loads the state file, reconciles an expired lease or creates the first state, writes a
 temporary file and renames it over the state file. It may die between any two of these steps.
 One worker runs at a time, and the supervisor's lease expiry is one step.
 */
module Recovery {
  import opened Basics

  datatype Frontier = RUNNING | LEASE_EXPIRED | RECOVERED

  datatype Record = Record(
    goalId: string, receiptId: string, receiptCount: int, leaseOwner: Option<string>,
    leaseExpiresAt: real, frontier: Frontier, reconciled: bool, recoveryCount: int)

  /** A file is absent, cut short by a crash, or holds a whole record. */
  datatype File = Absent | Torn | Complete(record: Record)

  // ----- What one pass writes -----

  const LEASE_SECONDS := 3600.0

  function FirstRecord(goal: string, now: real): Record {
    Record(goal, "receipt-" + goal, 1, Some("worker-before-restart"), now + LEASE_SECONDS, RUNNING, false, 0)
  }

  function Reconciled(r: Record): Record {
    r.(reconciled := true, frontier := RECOVERED, leaseOwner := None, recoveryCount := r.recoveryCount + 1)
  }

  /** The record the worker is about to write, given what it loaded; a torn file is not loadable. */
  function Decision(goal: string, loaded: File, now: real): Record
    requires !loaded.Torn?
  {
    match loaded
    case Absent => FirstRecord(goal, now)
    case Complete(r) => if r.leaseExpiresAt <= now && !r.reconciled then Reconciled(r) else r
  }

  function Expired(r: Record): Record {
    r.(leaseExpiresAt := 0.0, frontier := LEASE_EXPIRED)
  }

  // ----- The volume, in the source's own steps -----

  class Volume {
    var file: File
    var temp: File

    constructor ()
      ensures file == Absent && temp == Absent
    {
      file, temp := Absent, Absent;
    }

    /** One uninterrupted worker pass. A torn state file stops it before it writes anything. */
    method RunWorker(goal: string, now: real) returns (ok: bool)
      modifies this
      ensures ok == !old(file).Torn?
      ensures ok ==> file == Complete(Decision(goal, old(file), now)) && temp == Absent
      ensures !ok ==> file == old(file) && temp == old(temp)
    {
      var state: Record;
      match file {
        case Complete(r) =>
          state := r;
          if state.leaseExpiresAt <= now && !state.reconciled {
            state := state.(reconciled := true);
            state := state.(frontier := RECOVERED);
            state := state.(leaseOwner := None);
            state := state.(recoveryCount := state.recoveryCount + 1);
          }
        case Torn =>
          return false;
        case Absent =>
          state := FirstRecord(goal, now);
      }
      temp := Torn;
      temp := Complete(state);
      file := temp;
      temp := Absent;
      ok := true;
    }

    /** The supervisor's expiry; without a whole state file it fails and changes nothing. */
    method ExpireLease() returns (ok: bool)
      modifies this`file
      ensures ok == old(file).Complete?
      ensures file == if ok then Complete(Expired(old(file).record)) else old(file)
      ensures ok ==> file.record == old(file).record.(leaseExpiresAt := 0.0, frontier := LEASE_EXPIRED)
    {
      ok := file.Complete?;
      if ok {
        file := Complete(file.record.(leaseExpiresAt := 0.0, frontier := LEASE_EXPIRED));
      }
    }
  }

  // ----- The protocol, step by step -----

  datatype Worker =
    | Down
    | Started
    | Loaded(seen: File)
    | Decided(state: Record)
    | Writing(state: Record)
    | Written(state: Record)
    | Asleep

  datatype Sys = Sys(goal: string, file: File, temp: File, worker: Worker, clock: real)

  datatype Action = Start | Load | Decide | OpenTemp | WriteTemp | Replace | Crash | Expire | Clock(now: real)

  function Boot(goal: string): Sys { Sys(goal, Absent, Absent, Down, 0.0) }

  /** One step; an action that is not enabled changes nothing, and the clock never reads below zero. */
  function Next(s: Sys, a: Action): Sys {
    match a
    case Start => if s.worker.Down? then s.(worker := Started) else s
    case Load => if s.worker.Started? then s.(worker := if s.file.Torn? then Down else Loaded(s.file)) else s
    case Decide =>
      if s.worker.Loaded? && !s.worker.seen.Torn?
      then s.(worker := Decided(Decision(s.goal, s.worker.seen, s.clock))) else s
    case OpenTemp => if s.worker.Decided? then s.(temp := Torn, worker := Writing(s.worker.state)) else s
    case WriteTemp =>
      if s.worker.Writing? then s.(temp := Complete(s.worker.state), worker := Written(s.worker.state)) else s
    case Replace => if s.worker.Written? then s.(file := s.temp, temp := Absent, worker := Asleep) else s
    case Crash => s.(worker := Down)
    case Expire => if s.file.Complete? then s.(file := Complete(Expired(s.file.record))) else s
    case Clock(now) => if now >= 0.0 then s.(clock := now) else s
  }

  function Exec(s: Sys, acts: seq<Action>): Sys
    decreases |acts|
  {
    if acts == [] then s else Exec(Next(s, acts[0]), acts[1..])
  }

  lemma {:induction false} ExecConcat(s: Sys, first: seq<Action>, second: seq<Action>)
    ensures Exec(s, first + second) == Exec(Exec(s, first), second)
    decreases |first|
  {
    if first == [] {
      assert first + second == second;
    } else {
      assert (first + second)[1..] == first[1..] + second;
      ExecConcat(Next(s, first[0]), first[1..], second);
    }
  }

  // ----- Safety -----

  /** One receipt, at most one recovery, and the flags tell the same story. */
  predicate Sound(goal: string, r: Record) {
    && r.goalId == goal
    && r.receiptId == "receipt-" + goal
    && r.receiptCount == 1
    && r.recoveryCount == (if r.reconciled then 1 else 0)
    && (r.frontier == RECOVERED ==> r.reconciled)
    && (r.frontier == RUNNING ==> !r.reconciled)
    && (r.leaseOwner == None <==> r.reconciled)
    && (r.frontier == LEASE_EXPIRED ==> r.leaseExpiresAt == 0.0)
    && 0.0 <= r.leaseExpiresAt
  }

  /** The record the worker carries from load to rename, if any. */
  function Carried(w: Worker): Option<Record> {
    match w
    case Loaded(Complete(r)) => Some(r)
    case Decided(r) => Some(r)
    case Writing(r) => Some(r)
    case Written(r) => Some(r)
    case _ => None
  }

  predicate Inv(s: Sys) {
    && 0.0 <= s.clock
    && !s.file.Torn?
    && (s.file.Complete? ==> Sound(s.goal, s.file.record))
    && (s.worker.Written? ==> s.temp == Complete(s.worker.state))
    && (s.worker.Loaded? ==> !s.worker.seen.Torn? && (s.file.Complete? ==> s.worker.seen.Complete?))
    && (Carried(s.worker).Some? ==>
          var r := Carried(s.worker).value;
          && Sound(s.goal, r)
          && (!s.worker.Loaded? && !r.reconciled ==> 0.0 < r.leaseExpiresAt)
          && (s.file.Complete? && s.file.record.reconciled ==> r.reconciled)
          && (r.reconciled && (s.worker.Loaded? || r.frontier != RECOVERED) ==>
                s.file.Complete? && s.file.record.reconciled))
  }

  lemma BootInv(goal: string)
    ensures Inv(Boot(goal))
  {
  }

  lemma NextInv(s: Sys, a: Action)
    requires Inv(s)
    ensures Inv(Next(s, a))
  {
  }

  /** What a file may turn into: it never disappears and a recovery is never undone. */
  predicate Later(before: File, after: File) {
    before.Complete? ==>
      && after.Complete?
      && after.record.goalId == before.record.goalId
      && after.record.receiptId == before.record.receiptId
      && (before.record.reconciled ==> after.record.reconciled)
  }

  lemma {:induction false} RunKeepsInv(s: Sys, acts: seq<Action>)
    requires Inv(s)
    ensures Inv(Exec(s, acts)) && Exec(s, acts).goal == s.goal
    ensures Later(s.file, Exec(s, acts).file)
    decreases |acts|
  {
    if acts == [] {
    } else {
      NextInv(s, acts[0]);
      RunKeepsInv(Next(s, acts[0]), acts[1..]);
    }
  }

  /**
   In every run from the empty volume, with crashes anywhere and any clock: the state file is
   absent or whole, it names the goal and its one receipt, and it counts one recovery exactly when
   it says reconciled. Nothing that a longer run does takes any of this back.
   */
  lemma EveryRunIsSound(goal: string, acts: seq<Action>, more: seq<Action>)
    ensures var file := Exec(Boot(goal), acts).file;
            !file.Torn? && (file.Complete? ==> Sound(goal, file.record))
    ensures Later(Exec(Boot(goal), acts).file, Exec(Boot(goal), acts + more).file)
  {
    BootInv(goal);
    RunKeepsInv(Boot(goal), acts);
    RunKeepsInv(Exec(Boot(goal), acts), more);
    ExecConcat(Boot(goal), acts, more);
  }

  // ----- Recovery -----

  /** A worker that starts afresh at time `now` and is left alone until it sleeps. */
  function FullPass(now: real): seq<Action> {
    [Crash, Start, Clock(now)] + ([Load, Decide] + [OpenTemp, WriteTemp, Replace])
  }

  lemma ExecTwo(s: Sys, a: Action, b: Action)
    ensures Exec(s, [a, b]) == Next(Next(s, a), b)
  {
    assert [a, b][1..] == [b] && [b][1..] == [];
    assert Exec(Next(s, a), [b]) == Exec(Next(Next(s, a), b), []);
  }

  lemma ExecThree(s: Sys, a: Action, b: Action, c: Action)
    ensures Exec(s, [a, b, c]) == Next(Next(Next(s, a), b), c)
  {
    assert [a, b, c][1..] == [b, c];
    ExecTwo(Next(s, a), b, c);
  }

  lemma ExecFullPass(s: Sys, now: real)
    requires !s.file.Torn? && now >= 0.0
    ensures Exec(s, FullPass(now)) ==
            s.(file := Complete(Decision(s.goal, s.file, now)), temp := Absent, worker := Asleep, clock := now)
  {
    ExecConcat(s, [Crash, Start, Clock(now)], [Load, Decide] + [OpenTemp, WriteTemp, Replace]);
    ExecThree(s, Crash, Start, Clock(now));
    var s1 := s.(worker := Started, clock := now);
    ExecConcat(s1, [Load, Decide], [OpenTemp, WriteTemp, Replace]);
    ExecTwo(s1, Load, Decide);
    ExecThree(Exec(s1, [Load, Decide]), OpenTemp, WriteTemp, Replace);
  }

  /** A crash in the middle of the first write leaves a torn temporary file, no state file, and a sound next pass. */
  lemma TornWriteIsHarmless(goal: string, now: real)
    requires 0.0 <= now
    ensures var s := Exec(Boot(goal), [Start, Load, Decide] + [OpenTemp, Crash]);
            && s.temp == Torn && s.file == Absent && s.worker == Down
            && Exec(s, FullPass(now)).file == Complete(FirstRecord(goal, now)) && Exec(s, FullPass(now)).temp == Absent
  {
    var s := Boot(goal);
    ExecConcat(s, [Start, Load, Decide], [OpenTemp, Crash]);
    ExecThree(s, Start, Load, Decide);
    ExecTwo(Exec(s, [Start, Load, Decide]), OpenTemp, Crash);
    ExecFullPass(Exec(s, [Start, Load, Decide] + [OpenTemp, Crash]), now);
  }

  predicate NoExpiry(acts: seq<Action>) { Expire !in acts }

  /** The file holds `r`, and so does a worker that is between load and rename. */
  predicate Settled(s: Sys, r: Record) {
    && s.file == Complete(r)
    && (s.worker.Loaded? ==> s.worker.seen == Complete(r))
    && (Carried(s.worker).Some? ==> Carried(s.worker).value == r)
    && (s.worker.Written? ==> s.temp == Complete(r))
  }

  /** Once reconciled and settled, no number of passes, restarts or crashes changes the file. */
  lemma {:induction false} ReconciledIsStable(s: Sys, r: Record, acts: seq<Action>)
    requires Settled(s, r) && r.reconciled && NoExpiry(acts)
    ensures Settled(Exec(s, acts), r)
    decreases |acts|
  {
    if acts == [] {
    } else {
      assert acts[0] in acts;
      ReconciledIsStable(Next(s, acts[0]), r, acts[1..]);
    }
  }

  /** While the clock stays below the lease of a settled record, nothing changes the file either. */
  lemma {:induction false} LiveLeaseIsStable(s: Sys, r: Record, acts: seq<Action>)
    requires Settled(s, r) && s.clock < r.leaseExpiresAt && NoExpiry(acts)
    requires forall k :: 0 <= k < |acts| && acts[k].Clock? ==> acts[k].now < r.leaseExpiresAt
    ensures Settled(Exec(s, acts), r)
    decreases |acts|
  {
    if acts == [] {
    } else {
      assert acts[0] in acts;
      assert forall k :: 0 <= k < |acts[1..]| ==> acts[1..][k] == acts[k + 1];
      LiveLeaseIsStable(Next(s, acts[0]), r, acts[1..]);
    }
  }

  /**
   Once the lease of an unreconciled record is over, one uninterrupted pass recovers it, and
   whatever happens afterwards short of another expiry leaves exactly that file.
   */
  lemma ExpiredLeaseRecoversOnce(s: Sys, r: Record, now: real, more: seq<Action>)
    requires s.file == Complete(r) && !r.reconciled && r.leaseExpiresAt <= now && 0.0 <= now
    requires NoExpiry(more)
    ensures Exec(Exec(s, FullPass(now)), more).file == Complete(Reconciled(r))
  {
    ExecFullPass(s, now);
    ReconciledIsStable(Exec(s, FullPass(now)), Reconciled(r), more);
  }

  /** What a first full pass at time `t` leaves behind. */
  lemma FirstPassWrites(goal: string, t: real)
    requires 0.0 <= t
    ensures var s := Exec(Boot(goal), FullPass(t));
            && s.file == Complete(Record(goal, "receipt-" + goal, 1, Some("worker-before-restart"), t + 3600.0,
                                         RUNNING, false, 0))
            && s.worker == Asleep && s.clock == t
  {
    ExecFullPass(Boot(goal), t);
  }

  /** The first lease lasts an hour: no schedule changes the file while the clock is below its end. */
  lemma FirstLeaseHolds(goal: string, t: real, acts: seq<Action>)
    requires 0.0 <= t && NoExpiry(acts)
    requires forall k :: 0 <= k < |acts| && acts[k].Clock? ==> acts[k].now < t + 3600.0
    ensures var s := Exec(Boot(goal), FullPass(t));
            Exec(s, acts).file == s.file
  {
    FirstPassWrites(goal, t);
    var s := Exec(Boot(goal), FullPass(t));
    LiveLeaseIsStable(s, s.file.record, acts);
  }

  /** After any such schedule, a full pass recovers exactly when its clock has reached the end of the hour. */
  lemma FirstLeaseEnds(goal: string, t: real, acts: seq<Action>, now: real)
    requires 0.0 <= t && NoExpiry(acts) && 0.0 <= now
    requires forall k :: 0 <= k < |acts| && acts[k].Clock? ==> acts[k].now < t + 3600.0
    ensures var file := Exec(Exec(Exec(Boot(goal), FullPass(t)), acts), FullPass(now)).file;
            file == Complete(if now >= t + 3600.0
                             then Record(goal, "receipt-" + goal, 1, None, t + 3600.0, RECOVERED, true, 1)
                             else Record(goal, "receipt-" + goal, 1, Some("worker-before-restart"), t + 3600.0,
                                         RUNNING, false, 0))
  {
    FirstPassWrites(goal, t);
    FirstLeaseHolds(goal, t, acts);
    ExecFullPass(Exec(Exec(Boot(goal), FullPass(t)), acts), now);
  }

  // ----- The supervisor's verdict -----

  /** The five checks of `run`, on the states read before the expiry and after the restart. */
  predicate AllChecks(goal: string, before: Record, after: Record, podChanged: bool) {
    && podChanged
    && before.goalId == after.goalId == goal
    && after.frontier == RECOVERED && after.reconciled
    && after.receiptCount == 1 && after.receiptId == before.receiptId
    && after.recoveryCount == 1
  }

  /**
   What the supervisor's final read finds: expiry, anything until the Pod is deleted, anything
   after it, one full pass at `now`, and anything until the read.
   */
  function FinalFile(s: Sys, early: seq<Action>, late: seq<Action>, now: real, tail: seq<Action>): File {
    Exec(Exec(Exec(Next(Exec(Next(s, Expire), early), Crash), late), FullPass(now)), tail).file
  }

  predicate Schedule(early: seq<Action>, late: seq<Action>, now: real, tail: seq<Action>) {
    NoExpiry(early) && NoExpiry(late) && NoExpiry(tail) && now >= 0.0
  }

  /** Every such schedule ends in a file on which all checks hold, provided the Pod changed. */
  ghost predicate AlwaysRecovers(s: Sys)
    requires s.file.Complete?
  {
    forall early, late, now, tail :: Schedule(early, late, now, tail) ==>
      var final := FinalFile(s, early, late, now, tail);
      final.Complete? && AllChecks(s.goal, s.file.record, final.record, true)
  }

  /** The worker may still rename an unreconciled copy, loaded before now, over the file. */
  predicate CarriesLiveCopy(w: Worker) {
    Carried(w).Some? && !Carried(w).value.reconciled && Carried(w).value.leaseExpiresAt > 0.0
  }

  /** The file is expired or recovered, and every copy the worker carries leads to a recovery. */
  predicate OnTrack(s: Sys) {
    && s.file.Complete?
    && (if s.file.record.reconciled then s.file.record.frontier == RECOVERED
        else s.file.record.leaseExpiresAt <= 0.0)
    && (Carried(s.worker).Some? ==>
          var r := Carried(s.worker).value;
          if r.reconciled then r.frontier == RECOVERED else s.worker.Loaded? && r.leaseExpiresAt <= 0.0)
  }

  lemma {:induction false} OnTrackIsStable(s: Sys, acts: seq<Action>)
    requires Inv(s) && OnTrack(s) && NoExpiry(acts)
    ensures Inv(Exec(s, acts)) && OnTrack(Exec(s, acts))
    decreases |acts|
  {
    if acts == [] {
    } else {
      assert acts[0] in acts;
      NextInv(s, acts[0]);
      OnTrackIsStable(Next(s, acts[0]), acts[1..]);
    }
  }

  lemma OnTrackRecovers(s: Sys, early: seq<Action>, late: seq<Action>, now: real, tail: seq<Action>)
    requires Inv(s) && s.file.Complete? && OnTrack(Next(s, Expire)) && Schedule(early, late, now, tail)
    ensures var final := FinalFile(s, early, late, now, tail);
            final.Complete? && AllChecks(s.goal, s.file.record, final.record, true)
  {
    var s1 := Next(s, Expire);
    NextInv(s, Expire);
    OnTrackIsStable(s1, early);
    RunKeepsInv(s1, early);
    var s2 := Next(Exec(s1, early), Crash);
    NextInv(Exec(s1, early), Crash);
    OnTrackIsStable(s2, late);
    RunKeepsInv(s2, late);
    var s3 := Exec(s2, late);
    ExecFullPass(s3, now);
    OnTrackIsStable(s3, FullPass(now));
    RunKeepsInv(s3, FullPass(now));
    OnTrackIsStable(Exec(s3, FullPass(now)), tail);
    RunKeepsInv(Exec(s3, FullPass(now)), tail);
  }

  /** After a second expiry of a recovered record, one full pass with no other copy under way leaves it. */
  lemma SecondExpiryStays(s: Sys)
    requires s.file.Complete? && s.file.record.reconciled
    ensures FinalFile(s, [], [], 0.0, []) == Complete(Expired(s.file.record))
  {
    ExecFullPass(Next(Next(s, Expire), Crash), 0.0);
  }

  /** The steps that bring whatever the worker carries into the state file. */
  function FinishRename(): seq<Action> { [Clock(0.0), Decide] + [OpenTemp, WriteTemp, Replace] }

  /** A copy loaded before the expiry and renamed after it replaces the expired record. */
  lemma CarriedCopyRenamed(s: Sys)
    requires Inv(s) && s.file.Complete? && Carried(s.worker).Some?
    requires Carried(s.worker).value.reconciled || Carried(s.worker).value.leaseExpiresAt > 0.0
    ensures Exec(Next(s, Expire), FinishRename()).file == Complete(Carried(s.worker).value)
  {
    var s1 := Next(s, Expire);
    ExecConcat(s1, [Clock(0.0), Decide], [OpenTemp, WriteTemp, Replace]);
    ExecTwo(s1, Clock(0.0), Decide);
    ExecThree(Exec(s1, [Clock(0.0), Decide]), OpenTemp, WriteTemp, Replace);
    NextInv(s, Expire);
  }

  /**
   The expiry of a recovered record lasts, on every run without a further expiry, exactly when no
   worker is on its way to rename a different copy over it.
   */
  lemma SecondExpiryIsFinal(s: Sys, r: Record)
    requires Inv(s) && s.file == Complete(r) && r.reconciled
    ensures (forall acts :: NoExpiry(acts) ==> Exec(Next(s, Expire), acts).file == Complete(Expired(r))) <==>
            (Carried(s.worker).Some? ==> Carried(s.worker).value == Expired(r))
  {
    if Carried(s.worker).Some? && Carried(s.worker).value != Expired(r) {
      CarriedCopyRenamed(s);
      assert NoExpiry(FinishRename());
    } else {
      forall acts | NoExpiry(acts) ensures Exec(Next(s, Expire), acts).file == Complete(Expired(r)) {
        ReconciledIsStable(Next(s, Expire), Expired(r), acts);
      }
    }
  }

  /** A recovered copy that was under way at the second expiry makes all checks hold again. */
  lemma LateCopyRepairs(s: Sys, r: Record)
    requires Inv(s) && s.file == Complete(r) && r.reconciled && r.frontier == RECOVERED
    requires Carried(s.worker) == Some(r)
    ensures var final := Exec(Next(s, Expire), FinishRename()).file;
            final == Complete(r) && AllChecks(s.goal, r, final.record, true)
  {
    CarriedCopyRenamed(s);
  }

  /** A run that gets into such a state: recovered, and the next worker about to rename. */
  lemma LateCopyReachable(goal: string)
    ensures var s := Exec(Boot(goal), FullPass(0.0) + (FullPass(4000.0) + UntilRename()));
            s.file == Complete(Reconciled(FirstRecord(goal, 0.0))) && s.worker == Written(s.file.record)
  {
    ExecConcat(Boot(goal), FullPass(0.0), FullPass(4000.0) + UntilRename());
    ExecFullPass(Boot(goal), 0.0);
    var s1 := Exec(Boot(goal), FullPass(0.0));
    ExecConcat(s1, FullPass(4000.0), UntilRename());
    ExecFullPass(s1, 4000.0);
    ExecUntilRename(Exec(s1, FullPass(4000.0)));
  }

  /** A fresh worker, up to the point where it is about to rename. */
  function UntilRename(): seq<Action> { [Crash, Start, Load] + [Decide, OpenTemp, WriteTemp] }

  lemma ExecUntilRename(s: Sys)
    requires s.file.Complete? && s.file.record.reconciled
    ensures Exec(s, UntilRename()) == s.(temp := s.file, worker := Written(s.file.record))
  {
    var s1 := s.(worker := Loaded(s.file));
    var s2 := s.(worker := Decided(s.file.record));
    ExecConcat(s, [Crash, Start, Load], [Decide, OpenTemp, WriteTemp]);
    ExecThree(s, Crash, Start, Load);
    assert Exec(s, [Crash, Start, Load]) == s1 && Next(s1, Decide) == s2;
    ExecThree(s1, Decide, OpenTemp, WriteTemp);
  }

  /** It brings the live lease back, and a pass before the end of that lease leaves it there. */
  lemma LiveCopyUndoesExpiry(s: Sys)
    requires Inv(s) && s.file.Complete? && CarriesLiveCopy(s.worker)
    ensures FinalFile(s, FinishRename(), [], 0.0, []) == Complete(Carried(s.worker).value)
  {
    CarriedCopyRenamed(s);
    ExecFullPass(Next(Exec(Next(s, Expire), FinishRename()), Crash), 0.0);
  }

  /**
   The verdict: a full pass between the expiry and the final read makes all checks hold, on every
   schedule, exactly when the expired record was not yet reconciled and no worker was carrying a
   live copy of it at the moment of the expiry.
   */
  lemma VerdictCondition(s: Sys)
    requires Inv(s) && s.file.Complete?
    ensures AlwaysRecovers(s) <==> !s.file.record.reconciled && !CarriesLiveCopy(s.worker)
  {
    if s.file.record.reconciled {
      SecondExpiryStays(s);
      assert Schedule([], [], 0.0, []);
      assert !AlwaysRecovers(s);
    } else if CarriesLiveCopy(s.worker) {
      LiveCopyUndoesExpiry(s);
      assert Schedule(FinishRename(), [], 0.0, []);
      assert !AlwaysRecovers(s);
    } else {
      forall early, late, now, tail | Schedule(early, late, now, tail)
        ensures var final := FinalFile(s, early, late, now, tail);
                final.Complete? && AllChecks(s.goal, s.file.record, final.record, true)
      {
        OnTrackRecovers(s, early, late, now, tail);
      }
    }
  }

  /** The same, for every state a run from the empty volume can be in when the supervisor acts. */
  lemma VerdictOverRuns(goal: string, acts: seq<Action>)
    requires Exec(Boot(goal), acts).file.Complete?
    ensures var s := Exec(Boot(goal), acts);
            AlwaysRecovers(s) <==> !s.file.record.reconciled && !CarriesLiveCopy(s.worker)
  {
    RunKeepsInv(Boot(goal), acts);
    VerdictCondition(Exec(Boot(goal), acts));
  }

  /** The state of the supervised run in the repository: a first worker that is already asleep. */
  lemma SleepingWorkerAlwaysRecovers(goal: string, now: real)
    requires 0.0 <= now
    ensures var s := Exec(Boot(goal), FullPass(now));
            s.file == Complete(FirstRecord(goal, now)) && AlwaysRecovers(s)
  {
    var s := Exec(Boot(goal), FullPass(now));
    ExecFullPass(Boot(goal), now);
    RunKeepsInv(Boot(goal), FullPass(now));
    VerdictCondition(s);
  }

  // ----- A final read at any moment -----

  /** Some step of the run renames a whole temporary file over the state file. */
  predicate Renames(s: Sys, acts: seq<Action>) {
    exists k :: 0 <= k < |acts| && acts[k] == Replace && Exec(s, acts[..k]).worker.Written?
  }

  lemma RenamesCons(s: Sys, acts: seq<Action>)
    requires acts != []
    ensures Renames(s, acts) <==> (acts[0] == Replace && s.worker.Written?) || Renames(Next(s, acts[0]), acts[1..])
  {
    var rest := acts[1..];
    forall k | 0 <= k < |rest| ensures Exec(Next(s, acts[0]), rest[..k]) == Exec(s, acts[..k + 1]) {
      assert acts[..k + 1][0] == acts[0] && acts[..k + 1][1..] == rest[..k];
    }
    assert acts[..0] == [];
    if Renames(s, acts) {
      var k :| 0 <= k < |acts| && acts[k] == Replace && Exec(s, acts[..k]).worker.Written?;
      if k > 0 {
        assert rest[k - 1] == Replace && Exec(Next(s, acts[0]), rest[..k - 1]).worker.Written?;
      }
    }
    if Renames(Next(s, acts[0]), rest) {
      var k :| 0 <= k < |rest| && rest[k] == Replace && Exec(Next(s, acts[0]), rest[..k]).worker.Written?;
      assert acts[k + 1] == Replace && Exec(s, acts[..k + 1]).worker.Written?;
    }
  }

  lemma {:induction false} NoRenameNoChange(s: Sys, acts: seq<Action>)
    requires !Renames(s, acts) && NoExpiry(acts)
    ensures Exec(s, acts).file == s.file
    decreases |acts|
  {
    if acts == [] {
    } else {
      assert acts[0] in acts;
      RenamesCons(s, acts);
      NoRenameNoChange(Next(s, acts[0]), acts[1..]);
    }
  }

  /** A final read with no rename since the expiry fails the verdict, whatever the state before it. */
  lemma EarlyReadFails(s: Sys, acts: seq<Action>)
    requires s.file.Complete? && NoExpiry(acts) && !Renames(Next(s, Expire), acts)
    ensures var final := Exec(Next(s, Expire), acts).file;
            final.Complete? && !AllChecks(s.goal, s.file.record, final.record, true)
  {
    NoRenameNoChange(Next(s, Expire), acts);
  }

  lemma {:induction false} RenameReconciles(s: Sys, acts: seq<Action>)
    requires Inv(s) && OnTrack(s) && NoExpiry(acts)
    ensures var final := Exec(s, acts).file;
            final.Complete? && (final.record.reconciled <==> s.file.record.reconciled || Renames(s, acts))
    decreases |acts|
  {
    if acts == [] {
    } else {
      assert acts[0] in acts;
      RenamesCons(s, acts);
      NextInv(s, acts[0]);
      OnTrackIsStable(s, [acts[0]]);
      assert Exec(s, [acts[0]]) == Next(s, acts[0]) by { assert [acts[0]][1..] == []; }
      RenameReconciles(Next(s, acts[0]), acts[1..]);
    }
  }

  /**
   The final read at any moment, after passes that may be interrupted anywhere: once the expired
   record was recoverable, all checks hold if and only if some worker has finished a rename since
   the expiry.
   */
  lemma ReadAfterRename(s: Sys, acts: seq<Action>)
    requires Inv(s) && s.file.Complete? && NoExpiry(acts)
    requires !s.file.record.reconciled && !CarriesLiveCopy(s.worker)
    ensures var final := Exec(Next(s, Expire), acts).file;
            final.Complete? &&
            (AllChecks(s.goal, s.file.record, final.record, true) <==> Renames(Next(s, Expire), acts))
  {
    var s1 := Next(s, Expire);
    NextInv(s, Expire);
    RenameReconciles(s1, acts);
    OnTrackIsStable(s1, acts);
    RunKeepsInv(s1, acts);
  }

  /** A full pass always ends in a rename. */
  lemma FullPassRenames(s: Sys, now: real)
    requires !s.file.Torn? && now >= 0.0
    ensures Renames(s, FullPass(now))
  {
    var acts := FullPass(now);
    assert acts[..7] == [Crash, Start, Clock(now)] + ([Load, Decide] + [OpenTemp, WriteTemp]);
    ExecConcat(s, [Crash, Start, Clock(now)], [Load, Decide] + [OpenTemp, WriteTemp]);
    ExecThree(s, Crash, Start, Clock(now));
    var s1 := s.(worker := Started, clock := now);
    ExecConcat(s1, [Load, Decide], [OpenTemp, WriteTemp]);
    ExecTwo(s1, Load, Decide);
    ExecTwo(Exec(s1, [Load, Decide]), OpenTemp, WriteTemp);
    assert acts[7] == Replace && Exec(s, acts[..7]).worker.Written?;
  }

  /** On every run after the expiry, the final read passes exactly when a rename has happened. */
  ghost predicate RenameDecides(s: Sys)
    requires s.file.Complete?
  {
    forall acts :: NoExpiry(acts) ==>
      var final := Exec(Next(s, Expire), acts).file;
      final.Complete? &&
      (AllChecks(s.goal, s.file.record, final.record, true) <==> Renames(Next(s, Expire), acts))
  }

  lemma RecoveredMisleads(s: Sys)
    requires Inv(s) && s.file.Complete? && s.file.record.reconciled
    ensures !RenameDecides(s)
  {
    var s1 := Next(s, Expire);
    var final := Exec(s1, FullPass(0.0)).file;
    FullPassRenames(s1, 0.0);
    ExecFullPass(s1, 0.0);
    assert final.record.frontier == LEASE_EXPIRED;
    assert NoExpiry(FullPass(0.0));
  }

  lemma LiveCopyMisleads(s: Sys)
    requires Inv(s) && s.file.Complete? && CarriesLiveCopy(s.worker)
    ensures !RenameDecides(s)
  {
    CarriedCopyRenamed(s);
    assert NoExpiry(FinishRename());
    if !Renames(Next(s, Expire), FinishRename()) {
      NoRenameNoChange(Next(s, Expire), FinishRename());
    }
  }

  /** That is so exactly under the condition of `VerdictCondition`. */
  lemma ReadCondition(s: Sys)
    requires Inv(s) && s.file.Complete?
    ensures RenameDecides(s) <==> !s.file.record.reconciled && !CarriesLiveCopy(s.worker)
  {
    var s1 := Next(s, Expire);
    if s.file.record.reconciled {
      RecoveredMisleads(s);
    } else if CarriesLiveCopy(s.worker) {
      LiveCopyMisleads(s);
    } else {
      forall acts | NoExpiry(acts)
        ensures var final := Exec(s1, acts).file;
                final.Complete? &&
                (AllChecks(s.goal, s.file.record, final.record, true) <==> Renames(s1, acts))
      {
        ReadAfterRename(s, acts);
      }
    }
  }

  /** `status = "PASS" if all(checks.values())` */
  method JudgeRun(goal: string, before: Record, after: Record, podChanged: bool) returns (pass: bool)
    ensures pass == AllChecks(goal, before, after, podChanged)
    ensures pass ==> podChanged && before.goalId == goal && after.goalId == goal
    ensures pass ==> after.frontier == RECOVERED && after.reconciled && after.recoveryCount == 1
    ensures pass ==> after.receiptCount == 1 && after.receiptId == before.receiptId
  {
    var goalPreserved := before.goalId == after.goalId && after.goalId == goal;
    var leaseReconciled := after.frontier == RECOVERED && after.reconciled;
    var singleReceipt := after.receiptCount == 1 && after.receiptId == before.receiptId;
    var idempotent := after.recoveryCount == 1;
    pass := podChanged && goalPreserved && leaseReconciled && singleReceipt && idempotent;
  }

  /**
   The supervised run as the repository intends it: first worker, first read, expiry, restart,
   second worker, second read. It passes exactly when the Pod changed.
   */
  method SupervisedRun(goal: string, first: real, second: real, podChanged: bool) returns (pass: bool)
    requires 0.0 <= first && 0.0 <= second
    ensures pass == podChanged
  {
    var v := new Volume();
    var started := v.RunWorker(goal, first);
    var before := v.file.record;
    var expired := v.ExpireLease();
    var restarted := v.RunWorker(goal, second);
    var after := v.file.record;
    pass := JudgeRun(goal, before, after, podChanged);
  }
}

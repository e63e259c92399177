/**
 The concurrent lock probe: two attempts meet at a barrier and race for one Redis lease
 (SET NX with a time to live, unconditional DEL on the way out). Attempts interleave at their
 await points; the key may lapse at any time, and any Redis call may fail or lose its reply.
 */
module LockRace {

  /** Where an attempt is: before the barrier, waiting at it, inside the lock scope, or done. */
  datatype Phase = Idle | Arrived | Inside(acquired: bool) | Done(acquired: bool)

  /** The shared counter and event of the barrier, and whether the lease key exists. */
  datatype Race = Race(first: Phase, second: Phase, readyCount: nat, ready: bool, key: bool)

  datatype Who = First | Second

  /** A Redis call is answered, takes effect although its reply is lost, or has no effect at all. */
  datatype Call = Answered | Lost | Failed

  /**
   `Turn` takes an attempt one step between its await points, and an attempt may take several in a
   row; `call` says what becomes of its Redis call, if the step makes one. `Lapse` ends the time to
   live of the key.
   */
  datatype Action = Turn(who: Who, call: Call) | Lapse

  const START := Race(Idle, Idle, 0, false, false)

  function Other(w: Who): Who { if w == First then Second else First }

  function At(s: Race, w: Who): Phase { if w == First then s.first else s.second }

  function Put(s: Race, w: Who, p: Phase): Race {
    if w == First then s.(first := p) else s.(second := p)
  }

  function Next(s: Race, a: Action): Race {
    match a
    case Lapse => s.(key := false)
    case Turn(w, call) =>
      match At(s, w)
      case Idle =>
        var count := s.readyCount + 1;
        Put(s, w, Arrived).(readyCount := count, ready := s.ready || count == 2)
      case Arrived =>
        if !s.ready then s
        else if call == Answered && !s.key then Put(s, w, Inside(true)).(key := true)
        else Put(s, w, Inside(false)).(key := s.key || call == Lost)
      case Inside(acquired) =>
        Put(s, w, Done(acquired)).(key := s.key && !(acquired && call != Failed))
      case Done(_) => s
  }

  function Exec(s: Race, acts: seq<Action>): Race
    decreases |acts|
  {
    if acts == [] then s else Exec(Next(s, acts[0]), acts[1..])
  }

  predicate Finished(s: Race) { s.first.Done? && s.second.Done? }

  /** `sorted(outcomes) == [False, True]` */
  predicate Verdict(s: Race)
    requires Finished(s)
  {
    s.first.acquired != s.second.acquired
  }

  lemma {:induction false} ExecSplit(s: Race, acts: seq<Action>, k: nat)
    requires k <= |acts|
    ensures Exec(s, acts) == Exec(Exec(s, acts[..k]), acts[k..])
    decreases k
  {
    if k > 0 {
      assert acts[..k][1..] == acts[1..][..k - 1];
      assert acts[1..][k - 1..] == acts[k..];
      ExecSplit(Next(s, acts[0]), acts[1..], k - 1);
    } else {
      assert acts[..0] == [] && acts[0..] == acts;
    }
  }

  // ----- The barrier -----

  predicate Requested(p: Phase) { p.Inside? || p.Done? }

  predicate Barrier(s: Race) {
    && s.readyCount == (if s.first.Idle? then 0 else 1) + (if s.second.Idle? then 0 else 1)
    && (s.ready <==> s.readyCount == 2)
    && (Requested(s.first) || Requested(s.second) ==> s.ready)
  }

  lemma {:induction false} BarrierKept(s: Race, acts: seq<Action>)
    requires Barrier(s)
    ensures Barrier(Exec(s, acts))
    decreases |acts|
  {
    if acts == [] {
    } else {
      BarrierKept(Next(s, acts[0]), acts[1..]);
    }
  }

  /** In every interleaving, no attempt has requested the lease unless both have arrived. */
  lemma NoRequestBeforeBothArrive(acts: seq<Action>)
    ensures var s := Exec(START, acts);
            Requested(s.first) || Requested(s.second) ==> !s.first.Idle? && !s.second.Idle?
  {
    BarrierKept(START, acts);
  }

  // ----- Termination -----

  function Level(p: Phase): nat {
    match p
    case Idle => 0
    case Arrived => 1
    case Inside(_) => 2
    case Done(_) => 3
  }

  predicate AtLeast(s: Race, n: nat) { n <= Level(s.first) && n <= Level(s.second) }

  lemma {:induction false} LevelsOnlyRise(s: Race, acts: seq<Action>, w: Who)
    ensures Level(At(s, w)) <= Level(At(Exec(s, acts), w))
    decreases |acts|
  {
    if acts == [] {
    } else {
      LevelsOnlyRise(Next(s, acts[0]), acts[1..], w);
    }
  }

  /** A round gives each attempt at least one turn, in any order, with anything in between. */
  predicate Round(acts: seq<Action>) {
    && (exists i :: 0 <= i < |acts| && acts[i].Turn? && acts[i].who == First)
    && (exists i :: 0 <= i < |acts| && acts[i].Turn? && acts[i].who == Second)
  }

  lemma TurnAdvances(s: Race, acts: seq<Action>, w: Who, i: nat, n: nat)
    requires Barrier(s) && AtLeast(s, n) && n < 3
    requires i < |acts| && acts[i].Turn? && acts[i].who == w
    ensures n + 1 <= Level(At(Exec(s, acts), w))
  {
    var before := Exec(s, acts[..i]);
    ExecSplit(s, acts, i);
    BarrierKept(s, acts[..i]);
    LevelsOnlyRise(s, acts[..i], First);
    LevelsOnlyRise(s, acts[..i], Second);
    assert acts[i..][0] == acts[i];
    LevelsOnlyRise(Next(before, acts[i]), acts[i..][1..], w);
  }

  lemma RoundAdvances(s: Race, acts: seq<Action>, n: nat)
    requires Barrier(s) && AtLeast(s, n) && n < 3 && Round(acts)
    ensures Barrier(Exec(s, acts)) && AtLeast(Exec(s, acts), n + 1)
  {
    BarrierKept(s, acts);
    var i :| 0 <= i < |acts| && acts[i].Turn? && acts[i].who == First;
    var j :| 0 <= j < |acts| && acts[j].Turn? && acts[j].who == Second;
    TurnAdvances(s, acts, First, i, n);
    TurnAdvances(s, acts, Second, j, n);
  }

  /** Three fair rounds end the race, whatever fails or lapses in between. */
  lemma FairRunsTerminate(one: seq<Action>, two: seq<Action>, three: seq<Action>)
    requires Round(one) && Round(two) && Round(three)
    ensures Finished(Exec(Exec(Exec(START, one), two), three))
  {
    RoundAdvances(START, one, 0);
    RoundAdvances(Exec(START, one), two, 1);
    RoundAdvances(Exec(Exec(START, one), two), three, 2);
  }

  // ----- Exclusion -----

  predicate Holding(p: Phase) { p.Inside? && p.acquired }

  predicate NoLapse(acts: seq<Action>) { Lapse !in acts }

  /** As long as the key outlives the scopes, it exists while somebody holds the lease, and only one does. */
  predicate Exclusive(s: Race) {
    && !(Holding(s.first) && Holding(s.second))
    && (Holding(s.first) || Holding(s.second) ==> s.key)
  }

  lemma {:induction false} ExclusiveKept(s: Race, acts: seq<Action>)
    requires Exclusive(s) && NoLapse(acts)
    ensures Exclusive(Exec(s, acts))
    decreases |acts|
  {
    if acts == [] {
    } else {
      assert acts[0] in acts;
      ExclusiveKept(Next(s, acts[0]), acts[1..]);
    }
  }

  /** Without a lapse no two attempts hold the lease at once, even when Redis calls fail. */
  lemma MutualExclusion(acts: seq<Action>)
    requires NoLapse(acts)
    ensures var s := Exec(START, acts); !(Holding(s.first) && Holding(s.second))
  {
    ExclusiveKept(START, acts);
  }

  // ----- Prefixes of a run -----

  /** The state after the first `k` actions. */
  function After(acts: seq<Action>, k: nat): Race
    requires k <= |acts|
  {
    Exec(START, acts[..k])
  }

  lemma AfterStep(acts: seq<Action>, k: nat)
    requires k < |acts|
    ensures After(acts, k + 1) == Next(After(acts, k), acts[k])
  {
    ExecSplit(START, acts[..k + 1], k);
    assert acts[..k + 1][..k] == acts[..k] && acts[..k + 1][k..] == [acts[k]];
  }

  lemma AfterAll(acts: seq<Action>)
    ensures After(acts, |acts|) == Exec(START, acts)
    ensures acts != [] ==> After(acts, 0) == START
  {
    assert acts[..|acts|] == acts;
  }

  lemma AfterBarrier(acts: seq<Action>, k: nat)
    requires k <= |acts|
    ensures Barrier(After(acts, k))
  {
    BarrierKept(START, acts[..k]);
  }

  // ----- When exclusion is lost -----

  predicate BothHold(s: Race) { Holding(s.first) && Holding(s.second) }

  /** In state `s`, action `a` is a request, made while the other attempt holds the lease. */
  predicate RequestsWhileHeld(s: Race, a: Action) {
    a.Turn? && At(s, a.who).Arrived? && s.ready && Holding(At(s, Other(a.who)))
  }

  /** Action `i` ends the time to live while `w` holds the lease. */
  predicate LapsesUnder(acts: seq<Action>, w: Who, i: nat)
    requires i < |acts|
  {
    acts[i] == Lapse && Holding(At(After(acts, i), w))
  }

  /** Action `j` is the other attempt's request, answered by Redis while `w` holds the lease. */
  predicate AsksUnder(acts: seq<Action>, w: Who, j: nat)
    requires j < |acts|
  {
    acts[j] == Turn(Other(w), Answered) && RequestsWhileHeld(After(acts, j), acts[j])
  }

  /** Once gone under its holder, the key stays away until the other attempt has made its request. */
  lemma {:induction false} KeyStaysAway(s: Race, acts: seq<Action>, w: Who)
    requires !s.key && Requested(At(s, w))
    ensures Requested(At(Exec(s, acts), Other(w))) || !Exec(s, acts).key
    decreases |acts|
  {
    if acts == [] {
    } else if Requested(At(Next(s, acts[0]), Other(w))) {
      LevelsOnlyRise(Next(s, acts[0]), acts[1..], Other(w));
    } else {
      KeyStaysAway(Next(s, acts[0]), acts[1..], w);
    }
  }

  /** A holder without a key, next to an attempt that has not asked yet, has seen the key lapse. */
  lemma {:induction false} MissingKeyLapsed(acts: seq<Action>, k: nat, w: Who) returns (i: nat)
    requires k <= |acts| && !After(acts, k).key
    requires Holding(At(After(acts, k), w)) && !Requested(At(After(acts, k), Other(w)))
    ensures i < k && LapsesUnder(acts, w, i)
  {
    AfterStep(acts, k - 1);
    var s := After(acts, k - 1);
    if !s.key && Holding(At(s, w)) {
      i := MissingKeyLapsed(acts, k - 1, w);
    } else {
      i := k - 1;
    }
  }

  lemma {:induction false} FirstDoubleHold(acts: seq<Action>, k: nat) returns (j: nat)
    requires k <= |acts| && BothHold(After(acts, k))
    ensures j < k && !BothHold(After(acts, j)) && BothHold(After(acts, j + 1))
  {
    if BothHold(After(acts, k - 1)) {
      j := FirstDoubleHold(acts, k - 1);
    } else {
      j := k - 1;
    }
  }

  lemma LapseLetsIn(acts: seq<Action>, w: Who, i: nat, j: nat)
    requires i < j < |acts| && LapsesUnder(acts, w, i) && AsksUnder(acts, w, j)
    ensures BothHold(After(acts, j + 1))
  {
    AfterStep(acts, i);
    AfterStep(acts, j);
    ExecSplit(START, acts[..j], i + 1);
    assert acts[..j][..i + 1] == acts[..i + 1];
    KeyStaysAway(After(acts, i + 1), acts[..j][i + 1..], w);
  }

  /**
   Both attempts hold the lease at once at some point of a run, if and only if the key lapses under
   a holder and, while that one still holds, Redis answers the request of the other.
   */
  lemma ExclusionLost(acts: seq<Action>)
    ensures (exists k: nat :: k <= |acts| && BothHold(After(acts, k))) <==>
            (exists w, i: nat, j: nat :: i < j < |acts| && LapsesUnder(acts, w, i) && AsksUnder(acts, w, j))
  {
    if k: nat :| k <= |acts| && BothHold(After(acts, k)) {
      var j := FirstDoubleHold(acts, k);
      AfterStep(acts, j);
      var s := After(acts, j);
      var w := if Holding(s.first) then First else Second;
      AfterBarrier(acts, j);
      var i := MissingKeyLapsed(acts, j, w);
      assert AsksUnder(acts, w, j);
    }
    if w, i: nat, j: nat :| i < j < |acts| && LapsesUnder(acts, w, i) && AsksUnder(acts, w, j) {
      LapseLetsIn(acts, w, i, j);
    }
  }

  /** A lapse inside a scope lets both in; the probe then reports False. */
  lemma LapseBreaksExclusion()
    ensures var acts := [Turn(First, Answered), Turn(Second, Answered), Turn(First, Answered), Lapse,
                         Turn(Second, Answered)];
            var rest := [Turn(First, Answered), Turn(Second, Answered)];
            && BothHold(Exec(START, acts))
            && Finished(Exec(Exec(START, acts), rest)) && !Verdict(Exec(Exec(START, acts), rest))
  {
  }

  // ----- The verdict -----

  /** The request of attempt `w`, in state `s`, does not acquire: the key is there, or the reply is not. */
  predicate RefusedAt(s: Race, a: Action, w: Who) {
    a.Turn? && a.who == w && At(s, w).Arrived? && s.ready && (a.call != Answered || s.key)
  }

  predicate Refused(acts: seq<Action>, w: Who) {
    exists k :: 0 <= k < |acts| && RefusedAt(After(acts, k), acts[k], w)
  }

  predicate Denied(p: Phase) { Requested(p) && !p.acquired }

  lemma {:induction false} DeniedMeansRefused(acts: seq<Action>, k: nat, w: Who)
    requires k <= |acts|
    ensures Denied(At(After(acts, k), w)) <==> exists j :: 0 <= j < k && RefusedAt(After(acts, j), acts[j], w)
  {
    if k > 0 {
      AfterStep(acts, k - 1);
      DeniedMeansRefused(acts, k - 1, w);
    }
  }

  /** Every finished race, whatever fails or lapses: True exactly when one request of the two was refused. */
  lemma VerdictIsOneRefusal(acts: seq<Action>)
    requires Finished(Exec(START, acts))
    ensures Verdict(Exec(START, acts)) <==> (Refused(acts, First) <==> !Refused(acts, Second))
  {
    AfterAll(acts);
    DeniedMeansRefused(acts, |acts|, First);
    DeniedMeansRefused(acts, |acts|, Second);
  }

  // ----- With a Redis that answers -----

  predicate AllAnswered(acts: seq<Action>) {
    forall i :: 0 <= i < |acts| && acts[i].Turn? ==> acts[i].call == Answered
  }

  /** Some request lands while the other attempt holds the lease. */
  predicate Overlaps(acts: seq<Action>) {
    exists k :: 0 <= k < |acts| && RequestsWhileHeld(After(acts, k), acts[k])
  }

  /** Some request lands while the other attempt holds the lease and its key has not lapsed. */
  predicate KeptOut(acts: seq<Action>) {
    exists k :: 0 <= k < |acts| && RequestsWhileHeld(After(acts, k), acts[k]) && After(acts, k).key
  }

  /** A key has a holder, and not both attempts are turned away. */
  lemma {:induction false} AnsweredRun(acts: seq<Action>, k: nat)
    requires k <= |acts| && AllAnswered(acts)
    ensures var s := After(acts, k);
            && (s.key ==> Holding(s.first) || Holding(s.second))
            && !(Denied(s.first) && Denied(s.second))
  {
    if k > 0 {
      AfterStep(acts, k - 1);
      AnsweredRun(acts, k - 1);
      AfterBarrier(acts, k - 1);
    }
  }

  lemma RefusedByHolder(acts: seq<Action>, k: nat, w: Who)
    requires k < |acts| && AllAnswered(acts)
    ensures RefusedAt(After(acts, k), acts[k], w) <==>
              RequestsWhileHeld(After(acts, k), acts[k]) && After(acts, k).key && acts[k].who == w
  {
    AnsweredRun(acts, k);
  }

  /**
   If Redis answers every call, lapses or not, a finished race reports True exactly when a request
   was kept out by the other attempt's key: no True without an attempt that was really excluded.
   */
  lemma AnsweredVerdict(acts: seq<Action>)
    requires AllAnswered(acts) && Finished(Exec(START, acts))
    ensures Verdict(Exec(START, acts)) <==> KeptOut(acts)
    ensures !KeptOut(acts) ==> Exec(START, acts).first.acquired && Exec(START, acts).second.acquired
  {
    AfterAll(acts);
    DeniedMeansRefused(acts, |acts|, First);
    DeniedMeansRefused(acts, |acts|, Second);
    AnsweredRun(acts, |acts|);
    forall k, w | 0 <= k < |acts|
      ensures RefusedAt(After(acts, k), acts[k], w) <==>
                RequestsWhileHeld(After(acts, k), acts[k]) && After(acts, k).key && acts[k].who == w
    {
      RefusedByHolder(acts, k, w);
    }
  }

  /**
   If moreover nothing lapses, the verdict is True exactly when the second request lands before the
   first holder has left; otherwise both attempts acquire in turn.
   */
  lemma VerdictIsOverlap(acts: seq<Action>)
    requires AllAnswered(acts) && NoLapse(acts) && Finished(Exec(START, acts))
    ensures Verdict(Exec(START, acts)) <==> Overlaps(acts)
    ensures !Overlaps(acts) ==> Exec(START, acts).first.acquired && Exec(START, acts).second.acquired
  {
    AnsweredVerdict(acts);
    forall k | 0 <= k < |acts| && RequestsWhileHeld(After(acts, k), acts[k]) ensures After(acts, k).key {
      ExclusiveKept(START, acts[..k]);
    }
  }

  // ----- Verdicts that mislead -----

  /** A run one after the other: an exclusive lock, and still the verdict False. */
  lemma SequentialRunFails()
    ensures var acts := [Turn(First, Answered), Turn(Second, Answered), Turn(First, Answered),
                         Turn(First, Answered), Turn(Second, Answered), Turn(Second, Answered)];
            && AllAnswered(acts) && NoLapse(acts)
            && Finished(Exec(START, acts)) && !Verdict(Exec(START, acts))
  {
  }

  /** A verdict True without a lapse and without any request that met a holder. */
  predicate FalsePass(acts: seq<Action>) {
    && NoLapse(acts) && Finished(Exec(START, acts)) && Verdict(Exec(START, acts))
    && !Overlaps(acts)
  }

  lemma SixSteps(acts: seq<Action>)
    requires |acts| == 6
    ensures After(acts, 0) == START && After(acts, 6) == Exec(START, acts)
    ensures forall k :: 0 <= k < 6 ==> After(acts, k + 1) == Next(After(acts, k), acts[k])
  {
    AfterAll(acts);
    forall k | 0 <= k < 6 ensures After(acts, k + 1) == Next(After(acts, k), acts[k]) {
      AfterStep(acts, k);
    }
  }

  /** A SET whose reply is lost leaves a key that nobody holds and nobody removes: neither attempt gets in. */
  lemma LostSetLocksOut()
    ensures var s := Exec(START, [Turn(First, Answered), Turn(Second, Answered), Turn(First, Lost),
                                  Turn(First, Answered), Turn(Second, Answered), Turn(Second, Answered)]);
            Finished(s) && !s.first.acquired && !s.second.acquired && s.key && !Verdict(s)
  {
  }

  /** A SET that never arrives leaves no key, and the other attempt gets in. */
  lemma FailedSetLetsOtherIn()
    ensures var s := Exec(START, [Turn(First, Answered), Turn(Second, Answered), Turn(First, Failed),
                                  Turn(Second, Answered), Turn(First, Answered), Turn(Second, Answered)]);
            Finished(s) && !s.first.acquired && s.second.acquired && !s.key && Verdict(s)
  {
  }

  /** The second SET fails after the first attempt has left. */
  lemma FailedSetPasses()
    ensures FalsePass([Turn(First, Answered), Turn(Second, Answered), Turn(First, Answered),
                       Turn(First, Answered), Turn(Second, Failed), Turn(Second, Answered)])
  {
    SixSteps([Turn(First, Answered), Turn(Second, Answered), Turn(First, Answered),
              Turn(First, Answered), Turn(Second, Failed), Turn(Second, Answered)]);
  }

  /** The first DEL fails, and its key outlives its holder. */
  lemma FailedDelPasses()
    ensures FalsePass([Turn(First, Answered), Turn(Second, Answered), Turn(First, Answered),
                       Turn(First, Failed), Turn(Second, Answered), Turn(Second, Answered)])
  {
    SixSteps([Turn(First, Answered), Turn(Second, Answered), Turn(First, Answered),
              Turn(First, Failed), Turn(Second, Answered), Turn(Second, Answered)]);
  }
}

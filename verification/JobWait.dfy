/**
 Waiting for the benchmark Job of a Kubernetes run, cleaning its namespace up, and the verdict of
 the run. The replies of kubectl and the passage of time are arbitrary inputs.
 */
module JobWait {
  import opened Basics
  import opened PyText
  import opened Sums

  datatype Status = PASS | BLOCKED | NOT_PROVEN

  // ----- One observation -----

  datatype Condition = Condition(kind: string, status: string)

  datatype Pod = Pod(phase: string, waiting: seq<string>, terminated: seq<string>, messages: seq<string>)

  /** The Job conditions, its success count (0 when unreadable) and its Pods, as one poll saw them. */
  datatype Observation = Observation(conditions: seq<Condition>, succeeded: int, pods: seq<Pod>)

  const IMAGE_FAILURE_REASONS: seq<string> := [
    "containercannotrun", "createcontainerconfigerror", "errimageneverpull", "errimagepull",
    "imagepullbackoff", "invalidimagename"]

  const FAILURE_MARKERS: seq<string> := [
    "imagepull", "imageneverpull", "executablefilenotfound", "notfound", "createcontainerconfigerror"]

  /** `text.lower().replace(" ", "")` */
  function Squash(lower: string -> string, text: string): string { WithoutSpaces(lower(text)) }

  function WithoutSpaces(s: string): string {
    if s == "" then "" else (if s[0] == ' ' then "" else [s[0]]) + WithoutSpaces(s[1..])
  }

  function JoinSpaced(parts: seq<string>): string {
    if parts == [] then "" else if |parts| == 1 then parts[0] else parts[0] + " " + JoinSpaced(parts[1..])
  }

  function Reasons(pods: seq<Pod>, pick: Pod -> seq<string>): seq<string> {
    if pods == [] then [] else pick(pods[0]) + Reasons(pods[1..], pick)
  }

  predicate ImageFailure(lower: string -> string, o: Observation) {
    var reasons := Reasons(o.pods, (p: Pod) => p.waiting) + Reasons(o.pods, (p: Pod) => p.terminated);
    var text := Squash(lower, JoinSpaced(reasons + Reasons(o.pods, (p: Pod) => p.messages)));
    || (exists k :: 0 <= k < |reasons| && Squash(lower, reasons[k]) in IMAGE_FAILURE_REASONS)
    || (exists k :: 0 <= k < |FAILURE_MARKERS| && Contains(text, FAILURE_MARKERS[k]))
  }

  predicate JobComplete(o: Observation) { Condition("Complete", "True") in o.conditions }

  predicate JobFailed(o: Observation) { Condition("Failed", "True") in o.conditions }

  predicate PodSucceeded(o: Observation) { exists k :: 0 <= k < |o.pods| && o.pods[k].phase == "Succeeded" }

  /** All three signs of success in one observation. */
  predicate Succeeded(o: Observation) { JobComplete(o) && o.succeeded > 0 && PodSucceeded(o) }

  /** The three signs, from the conditions and the Pod phases. */
  lemma SuccessSigns(o: Observation)
    ensures Succeeded(o) <==>
              && (exists c :: c in o.conditions && c.kind == "Complete" && c.status == "True")
              && o.succeeded >= 1
              && (exists pod :: pod in o.pods && pod.phase == "Succeeded")
  {
    if c :| c in o.conditions && c.kind == "Complete" && c.status == "True" {
      assert c == Condition("Complete", "True");
    }
  }

  function Evaluate(lower: string -> string, o: Observation): Status {
    if Succeeded(o) then PASS
    else if ImageFailure(lower, o) then BLOCKED
    else if JobFailed(o) then BLOCKED
    else NOT_PROVEN
  }

  // ----- What an observation shows -----

  lemma {:induction false} WithoutSpacesConcat(a: string, b: string)
    ensures WithoutSpaces(a + b) == WithoutSpaces(a) + WithoutSpaces(b)
  {
    if a == "" {
      assert a + b == b;
    } else {
      assert (a + b)[1..] == a[1..] + b;
      WithoutSpacesConcat(a[1..], b);
    }
  }

  /** Squeezed text keeps every character but the blanks, in order. */
  lemma {:induction false} WithoutSpacesKeeps(a: string, c: char, b: string)
    ensures WithoutSpaces(a + [c] + b) == WithoutSpaces(a) + (if c == ' ' then "" else [c]) + WithoutSpaces(b)
    ensures ' ' !in WithoutSpaces(a)
    decreases |a|
  {
    WithoutSpacesConcat(a + [c], b);
    WithoutSpacesConcat(a, [c]);
    assert [c][1..] == "";
    if a != "" {
      WithoutSpacesKeeps(a[1..], c, b);
    }
  }

  lemma {:induction false} ReasonsFrom(pods: seq<Pod>, pick: Pod -> seq<string>)
    ensures Reasons(pods, pick) == FlatMap(pods, pick)
    ensures forall r :: r in Reasons(pods, pick) <==> exists pod :: pod in pods && r in pick(pod)
  {
    if pods != [] {
      assert pods == [pods[0]] + pods[1..];
      ReasonsFrom(pods[1..], pick);
      FlatMapConcat([pods[0]], pods[1..], pick);
      FlatMapOne(pods[0], pick);
    }
  }

  /** One of the six reasons. */
  predicate ListedReason(text: string) {
    || text == "containercannotrun" || text == "createcontainerconfigerror" || text == "errimageneverpull"
    || text == "errimagepull" || text == "imagepullbackoff" || text == "invalidimagename"
  }

  lemma ReasonsListed(text: string)
    ensures text in IMAGE_FAILURE_REASONS <==> ListedReason(text)
  {
    assert IMAGE_FAILURE_REASONS == [
      "containercannotrun", "createcontainerconfigerror", "errimageneverpull",
      "errimagepull", "imagepullbackoff", "invalidimagename"];
  }

  /** Some container waits or has stopped for one of the six reasons. */
  ghost predicate ImageReason(lower: string -> string, o: Observation) {
    exists pod, r :: pod in o.pods && (r in pod.waiting || r in pod.terminated) &&
                     ListedReason(WithoutSpaces(lower(r)))
  }

  /** All waiting reasons, then all termination reasons, then all messages, joined and squeezed. */
  function FailureText(lower: string -> string, o: Observation): string {
    WithoutSpaces(lower(JoinSpaced(Reasons(o.pods, (p: Pod) => p.waiting) + Reasons(o.pods, (p: Pod) => p.terminated) +
                                   Reasons(o.pods, (p: Pod) => p.messages))))
  }

  /** The failure text holds one of the five markers. */
  predicate ImageMarker(lower: string -> string, o: Observation) {
    var text := FailureText(lower, o);
    || Contains(text, "imagepull") || Contains(text, "imageneverpull") || Contains(text, "executablefilenotfound")
    || Contains(text, "notfound") || Contains(text, "createcontainerconfigerror")
  }

  lemma ImageFailureShows(lower: string -> string, o: Observation)
    ensures ImageFailure(lower, o) <==> ImageReason(lower, o) || ImageMarker(lower, o)
  {
    var waiting, terminated := Reasons(o.pods, (p: Pod) => p.waiting), Reasons(o.pods, (p: Pod) => p.terminated);
    assert (waiting + terminated) + Reasons(o.pods, (p: Pod) => p.messages) ==
           waiting + terminated + Reasons(o.pods, (p: Pod) => p.messages);
    ReasonShows(lower, o);
    MarkerShows(FailureText(lower, o));
  }

  lemma MarkerShows(text: string)
    ensures (exists k :: 0 <= k < |FAILURE_MARKERS| && Contains(text, FAILURE_MARKERS[k])) <==>
            (Contains(text, "imagepull") || Contains(text, "imageneverpull") ||
             Contains(text, "executablefilenotfound") || Contains(text, "notfound") ||
             Contains(text, "createcontainerconfigerror"))
  {
    assert FAILURE_MARKERS[0] == "imagepull" && FAILURE_MARKERS[1] == "imageneverpull";
    assert FAILURE_MARKERS[2] == "executablefilenotfound" && FAILURE_MARKERS[3] == "notfound";
    assert FAILURE_MARKERS[4] == "createcontainerconfigerror";
  }

  /** The reasons of all containers are those of the single ones. */
  lemma ReasonPlace(o: Observation, r: string)
    ensures r in Reasons(o.pods, (p: Pod) => p.waiting) + Reasons(o.pods, (p: Pod) => p.terminated) <==>
            exists pod :: pod in o.pods && (r in pod.waiting || r in pod.terminated)
  {
    ReasonsFrom(o.pods, (p: Pod) => p.waiting);
    ReasonsFrom(o.pods, (p: Pod) => p.terminated);
  }

  lemma ReasonShows(lower: string -> string, o: Observation)
    ensures var reasons := Reasons(o.pods, (p: Pod) => p.waiting) + Reasons(o.pods, (p: Pod) => p.terminated);
            (exists k :: 0 <= k < |reasons| && Squash(lower, reasons[k]) in IMAGE_FAILURE_REASONS) <==>
            ImageReason(lower, o)
  {
    var reasons := Reasons(o.pods, (p: Pod) => p.waiting) + Reasons(o.pods, (p: Pod) => p.terminated);
    if ImageReason(lower, o) {
      var pod, r :| pod in o.pods && (r in pod.waiting || r in pod.terminated) && ListedReason(WithoutSpaces(lower(r)));
      ReasonPlace(o, r);
      ReasonsListed(WithoutSpaces(lower(r)));
      var k :| 0 <= k < |reasons| && reasons[k] == r;
      assert Squash(lower, reasons[k]) in IMAGE_FAILURE_REASONS;
    }
    if k :| 0 <= k < |reasons| && Squash(lower, reasons[k]) in IMAGE_FAILURE_REASONS {
      ReasonPlace(o, reasons[k]);
      ReasonsListed(WithoutSpaces(lower(reasons[k])));
    }
  }

  /** Joining one more part puts a blank and the part behind. */
  lemma {:induction false} JoinSpacedSnoc(parts: seq<string>, part: string)
    ensures JoinSpaced(parts + [part]) == if parts == [] then part else JoinSpaced(parts) + " " + part
    ensures JoinSpaced([]) == ""
  {
    if parts == [] {
      assert parts + [part] == [part];
    } else {
      assert (parts + [part])[1..] == parts[1..] + [part];
      JoinSpacedSnoc(parts[1..], part);
      if |parts| == 1 {
        assert parts[1..] + [part] == [part];
      } else {
        assert JoinSpaced(parts) == parts[0] + " " + JoinSpaced(parts[1..]);
      }
    }
  }

  /** Lower-casing works piece by piece and leaves blanks alone. */
  ghost predicate Piecewise(lower: string -> string) {
    lower("") == "" && lower(" ") == " " && forall a, b :: lower(a + b) == lower(a) + lower(b)
  }

  lemma {:induction false} JoinedParts(lower: string -> string, parts: seq<string>)
    requires Piecewise(lower)
    ensures WithoutSpaces(lower(JoinSpaced(parts))) == FlatMap(parts, (p: string) => WithoutSpaces(lower(p)))
    decreases |parts|
  {
    if parts != [] {
      var front, last := parts[..|parts| - 1], parts[|parts| - 1];
      assert parts == front + [last];
      JoinedParts(lower, front);
      JoinSpacedSnoc(front, last);
      if front != [] {
        var text := JoinSpaced(front) + " ";
        assert lower(text + last) == lower(JoinSpaced(front)) + " " + lower(last);
        WithoutSpacesConcat(lower(JoinSpaced(front)) + " ", lower(last));
        WithoutSpacesConcat(lower(JoinSpaced(front)), " ");
        assert " "[1..] == "";
      }
    }
  }

  /** The text that is searched: the squeezed waiting reasons, termination reasons and messages, joined. */
  lemma FailureTextParts(lower: string -> string, o: Observation)
    requires Piecewise(lower)
    ensures FailureText(lower, o) ==
            FlatMap(Reasons(o.pods, (p: Pod) => p.waiting) + Reasons(o.pods, (p: Pod) => p.terminated) +
                    Reasons(o.pods, (p: Pod) => p.messages), (p: string) => WithoutSpaces(lower(p)))
  {
    JoinedParts(lower, Reasons(o.pods, (p: Pod) => p.waiting) + Reasons(o.pods, (p: Pod) => p.terminated) +
                       Reasons(o.pods, (p: Pod) => p.messages));
  }

  /** The Job has failed, or its image cannot run. */
  ghost predicate Blocking(lower: string -> string, o: Observation) {
    Condition("Failed", "True") in o.conditions || ImageReason(lower, o) || ImageMarker(lower, o)
  }

  /** The status an observation calls for. */
  ghost predicate Shows(lower: string -> string, o: Observation, status: Status) {
    && (status == PASS <==> Succeeded(o))
    && (status == BLOCKED <==> !Succeeded(o) && Blocking(lower, o))
  }

  lemma EvaluateShows(lower: string -> string, o: Observation)
    ensures Shows(lower, o, Evaluate(lower, o))
  {
    ImageFailureShows(lower, o);
  }

  // ----- Time -----

  /** What the cluster and the clock do: the n-th observation, how long it takes, how long a sleep lasts. */
  datatype World = World(observe: nat -> Observation, cost: nat -> real, sleep: (nat, real) -> real)

  /** The calls of one poll take at least `tick`, and a sleep lasts at least as long as asked for. */
  ghost predicate Physical(w: World, tick: real) {
    && tick >= 0.0
    && (forall n :: w.cost(n) >= tick)
    && (forall n, asked :: asked > 0.0 ==> w.sleep(n, asked) >= asked)
  }

  /** Calls and sleeps take no longer than they have to. */
  ghost predicate Punctual(w: World, tick: real) {
    && (forall n :: w.cost(n) == tick)
    && (forall n, asked :: asked > 0.0 ==> w.sleep(n, asked) == asked)
  }

  /** The least time from one poll to the next. */
  function RoundTime(tick: real, poll: real): real { tick + MaxReal(0.0, poll) }

  /** `n` rounds of length `step`. */
  function Times(n: nat, step: real): real { if n == 0 then 0.0 else Times(n - 1, step) + step }

  /** The least whole number that is not below `q`. */
  function Ceiling(q: real): int { if q == q.Floor as real then q.Floor else q.Floor + 1 }

  lemma CeilingIsLeast(q: real, m: int)
    ensures m >= Ceiling(q) <==> m as real >= q
  {
  }

  /** span / step, rounded up. */
  function Rounds(span: real, step: real): nat
    requires span >= 0.0 && step > 0.0
  {
    Ceiling(span / step)
  }

  lemma {:induction false} TimesIsProduct(n: nat, step: real)
    ensures Times(n, step) == n as real * step
  {
    if n > 0 {
      TimesIsProduct(n - 1, step);
    }
  }

  /** `Rounds` is the least number of rounds that cover the span. */
  lemma RoundsFit(span: real, step: real, n: nat)
    requires span >= 0.0 && step > 0.0
    ensures Times(n, step) >= span <==> n >= Rounds(span, step)
  {
    TimesIsProduct(n, step);
    CoverIsQuotient(span, step, n as real);
    CeilingIsLeast(span / step, n);
  }

  lemma CoverIsQuotient(span: real, step: real, n: real)
    requires step > 0.0
    ensures n * step >= span <==> n >= span / step
  {
  }

  /** The largest number of polls within `wait` seconds. */
  function PollBound(wait: int, poll: real, tick: real): nat
    requires tick >= 0.0 && RoundTime(tick, poll) > 0.0
  {
    Rounds(MaxReal(0.0, wait as real - tick), RoundTime(tick, poll)) + 1
  }

  /**
   Waiting for the Job. It ends at the first decisive observation or at the first one past the deadline,
   after at most `PollBound` polls, and a punctual world without a decision attains this bound.
   Without sleeps (`poll <= 0`) it ends because the calls take time.
   */
  method WaitForJob(lower: string -> string, w: World, wait: int, poll: real, ghost tick: real)
    returns (status: Status, attempts: nat, elapsed: real)
    requires Physical(w, tick) && RoundTime(tick, poll) > 0.0
    ensures 1 <= attempts <= PollBound(wait, poll, tick)
    ensures status == PASS <==> Succeeded(w.observe(attempts))
    ensures status == BLOCKED <==> !Succeeded(w.observe(attempts)) && Blocking(lower, w.observe(attempts))
    ensures forall n :: 1 <= n < attempts ==> !Succeeded(w.observe(n)) && !Blocking(lower, w.observe(n))
    ensures status == NOT_PROVEN ==> elapsed >= MaxReal(0.0, wait as real)
    ensures Punctual(w, tick) && status == NOT_PROVEN ==> attempts == PollBound(wait, poll, tick)
  {
    ghost var step, span := RoundTime(tick, poll), MaxReal(0.0, wait as real - tick);
    ghost var rounds := Rounds(span, step);
    forall n: nat ensures Times(n, step) >= span <==> n >= rounds {
      RoundsFit(span, step, n);
    }
    status, attempts, elapsed := PollUntil(lower, w, MaxReal(0.0, wait as real), poll, tick, rounds);
    forall n ensures Shows(lower, w.observe(n), Evaluate(lower, w.observe(n))) {
      EvaluateShows(lower, w.observe(n));
    }
  }

  /** The loop itself: `rounds` is the least number of rounds after which a poll ends past the deadline. */
  method PollUntil(lower: string -> string, w: World, deadline: real, poll: real, ghost tick: real, ghost rounds: nat)
    returns (status: Status, attempts: nat, elapsed: real)
    requires Physical(w, tick) && deadline >= 0.0
    requires forall n: nat :: Times(n, RoundTime(tick, poll)) >= MaxReal(0.0, deadline - tick) <==> n >= rounds
    ensures 1 <= attempts <= rounds + 1
    ensures status == Evaluate(lower, w.observe(attempts))
    ensures forall n :: 1 <= n < attempts ==> Evaluate(lower, w.observe(n)) == NOT_PROVEN
    ensures status == NOT_PROVEN ==> elapsed >= deadline
    ensures Punctual(w, tick) && status == NOT_PROVEN ==> attempts == rounds + 1
  {
    ghost var step := RoundTime(tick, poll);
    elapsed, attempts := 0.0, 0;
    while true
      invariant 0 <= attempts <= rounds
      invariant elapsed >= deadline || elapsed >= Times(attempts, step) >= 0.0
      invariant Punctual(w, tick) ==> elapsed <= Times(attempts, step)
      invariant forall n :: 1 <= n <= attempts ==> Evaluate(lower, w.observe(n)) == NOT_PROVEN
      decreases rounds - attempts
    {
      attempts := attempts + 1;
      elapsed := elapsed + w.cost(attempts);
      status := Evaluate(lower, w.observe(attempts));
      if status == PASS || status == BLOCKED {
        return;
      }
      var remaining := deadline - elapsed;
      if remaining <= 0.0 {
        return;
      }
      var pause := Pause(w, attempts, poll, remaining, tick);
      elapsed := elapsed + pause;
    }
  }

  /** The sleep of a poll, which is never longer than the remaining time asks for. */
  method Pause(w: World, attempts: nat, poll: real, remaining: real, ghost tick: real) returns (pause: real)
    requires Physical(w, tick) && remaining > 0.0
    ensures pause >= MinReal(MaxReal(0.0, poll), remaining)
    ensures Punctual(w, tick) ==> pause == MinReal(MaxReal(0.0, poll), remaining)
  {
    pause := 0.0;
    if poll > 0.0 {
      pause := w.sleep(attempts, MinReal(poll, remaining));
    }
  }

  // ----- Cleanup and verdict -----

  /** What `kubectl get namespace` shows, if it shows a document at all. */
  datatype Document = Document(name: Option<string>, labels: map<string, string>)

  /** Name and both labels are those of the run. */
  predicate NamespaceIdentity(payload: Option<Document>, namespace: string, runId: string) {
    && payload.Some?
    && payload.value.name == Some(namespace)
    && "app.kubernetes.io/part-of" in payload.value.labels
    && payload.value.labels["app.kubernetes.io/part-of"] == "forgeos-benchmark"
    && "forgeos.io/run-id" in payload.value.labels
    && payload.value.labels["forgeos.io/run-id"] == runId
  }

  /** `labels.get(key)` */
  function Label(d: Document, key: string): Option<string> {
    if key in d.labels then Some(d.labels[key]) else None
  }

  /** Found under the name of the run, with both labels of the run. */
  predicate FoundAs(found: Option<Document>, namespace: string, runId: string) {
    match found
    case None => false
    case Some(d) =>
      && d.name.Some? && d.name.value == namespace
      && Label(d, "app.kubernetes.io/part-of") == Some("forgeos-benchmark")
      && Label(d, "forgeos.io/run-id") == Some(runId)
  }

  datatype Command = GetNamespace(name: string) | DeleteNamespace(name: string) | VerifyAbsent(name: string)

  /** The replies to the three cleanup commands. */
  datatype Cluster = Cluster(found: Option<Document>, deleted: bool, verifyOk: bool, verifyOutput: string)

  /** The cleanup deletes the namespace and then sees it gone. */
  predicate CleanedUp(c: Cluster, namespace: string, runId: string) {
    FoundAs(c.found, namespace, runId) && c.deleted && c.verifyOk && Blank(c.verifyOutput)
  }

  /**
   Nothing but the namespace of the run is ever deleted, and only after its name and labels were
   seen; PASS means that it was seen to be gone.
   */
  method CleanupNamespace(c: Cluster, namespace: string, runId: string, applyStarted: bool, keepNamespace: bool)
    returns (status: Status, commands: seq<Command>)
    ensures forall name :: DeleteNamespace(name) in commands <==>
              name == namespace && applyStarted && !keepNamespace && FoundAs(c.found, namespace, runId)
    ensures commands <= [GetNamespace(namespace), DeleteNamespace(namespace), VerifyAbsent(namespace)]
    ensures status == PASS ==> |commands| == 3
    ensures status == PASS <==> applyStarted && !keepNamespace && CleanedUp(c, namespace, runId)
    ensures status == NOT_PROVEN <==> !applyStarted || keepNamespace
  {
    commands := [];
    if !applyStarted { return NOT_PROVEN, commands; }
    if keepNamespace { return NOT_PROVEN, commands; }
    commands := commands + [GetNamespace(namespace)];
    if !NamespaceIdentity(c.found, namespace, runId) { return BLOCKED, commands; }
    commands := commands + [DeleteNamespace(namespace)];
    if !c.deleted { return BLOCKED, commands; }
    commands := commands + [VerifyAbsent(namespace)];
    StripBlank(c.verifyOutput);
    if c.verifyOk && Strip(c.verifyOutput) == "" { return PASS, commands; }
    return BLOCKED, commands;
  }

  /** After a successful apply: wait, clean up, and join the two verdicts. */
  method FinishRun(lower: string -> string, w: World, c: Cluster, namespace: string, runId: string,
                   wait: int, poll: real, keepNamespace: bool, ghost tick: real)
    returns (report: Status, attempts: nat)
    requires Physical(w, tick) && RoundTime(tick, poll) > 0.0
    ensures report == PASS <==>
              Succeeded(w.observe(attempts)) && !keepNamespace && CleanedUp(c, namespace, runId)
    ensures report == BLOCKED <==>
              || (!Succeeded(w.observe(attempts)) && Blocking(lower, w.observe(attempts)))
              || (!keepNamespace && !CleanedUp(c, namespace, runId))
    ensures forall n :: 1 <= n < attempts ==> !Succeeded(w.observe(n)) && !Blocking(lower, w.observe(n))
    ensures 1 <= attempts <= PollBound(wait, poll, tick)
  {
    var execution, elapsed;
    execution, attempts, elapsed := WaitForJob(lower, w, wait, poll, tick);
    var cleanup, commands := CleanupNamespace(c, namespace, runId, true, keepNamespace);
    if execution == PASS && cleanup == PASS {
      report := PASS;
    } else if execution == BLOCKED || cleanup == BLOCKED {
      report := BLOCKED;
    } else {
      report := NOT_PROVEN;
    }
  }
}

/** The fingerprint client's enrolment run: in which order it may send TA commands,
    whatever each of them answers. */
module Enrolment {
  import opened Bytes

  const MAX_ATTEMPTS: nat := 40
  const MAX_LIFT_POLLS: nat := 600

  /** What prepares the TA: 11/0, 3/5, 11/20, an empty or an imported database, 11/10
      and 11/19. */
  datatype Preparation = BioInit | HwAuth | SetGid | EmptyDatabase | ImportDatabase | SetActiveGroup | LoadInstanceData

  /** The preparations of a run, in order. */
  function Preparations(existing: bool): (p: seq<Preparation>)
    ensures |p| == if existing then 6 else 5
  {
    if existing then [BioInit, HwAuth, SetGid, ImportDatabase, SetActiveGroup, LoadInstanceData]
    else [BioInit, HwAuth, SetGid, EmptyDatabase, SetActiveGroup]
  }

  /** 10/1, 10/2, 10/3 and 10/11. */
  datatype FingerCommand = WaitLost | CheckLost | WaitDown | CheckState

  /** A command with what came back; a status is negative when the call itself failed. */
  datatype Command =
    | SensorInit(status: int) | SensorSleep(status: int)
    | Setup(what: Preparation, status: int)
    | Fetch(got: Option<u64>)                  // 3/2; none unless it gave a nonzero challenge
    | Authorize(challenge: u64, status: int)      // 3/3 with a token that carries the challenge
    | BeginEnrol(status: int)
    | Finger(step: FingerCommand, status: int)
    | Capture(status: int) | Enrol(status: int) | EndEnrol(status: int)
    | Inventory(count: Option<nat>)               // 11/8 and 11/11
    | Store(ok: bool)                             // the export of the database

  /** What the commands so far amount to. */
  datatype Seen = Seen(
    started: bool, initialized: bool, asleep: bool,
    prepared: seq<Preparation>,   // those that returned 0
    fetched: Option<u64>,     // the latest challenge, unless a sample was taken up since
    authorized: bool,         // a token carrying it was accepted
    begun: bool,
    captured: bool,           // the latest command was a capture with status 0
    captures: nat,
    complete: bool,           // the latest 11/2 returned 0
    ends: nat, ended: bool,   // 11/3 sent, returned 0
    counted: Option<nat>, stored: bool)

  function Nothing(): Seen {
    Seen(false, false, false, [], None, false, false, false, 0, false, 0, false, None, false)
  }

  function Step(s0: Seen, c: Command): Seen {
    var s := s0.(captured := false);
    match c
    case SensorInit(status) => s.(started := true, initialized := status == 0)
    case SensorSleep(_) => s.(asleep := true)
    case Setup(what, status) => s.(prepared := if status == 0 then s.prepared + [what] else s.prepared)
    case Fetch(got) => s.(fetched := got, authorized := false)
    case Authorize(challenge, status) => s.(authorized := status == 0 && s.fetched == Some(challenge))
    case BeginEnrol(status) => s.(begun := status == 0)
    case Capture(status) => s.(captured := status == 0, captures := s.captures + 1)
    case Enrol(status) => s.(complete := status == 0, fetched := None, authorized := false)
    case EndEnrol(status) => s.(ends := s.ends + 1, ended := status == 0, counted := None)
    case Inventory(count) => s.(counted := count)
    case Store(ok) => s.(stored := ok)
    case _ => s
  }

  function Watch(log: seq<Command>): Seen {
    if log == [] then Nothing() else Step(Watch(log[..|log| - 1]), log[|log| - 1])
  }

  /** When a command may be sent. `existing`: templates are added to a database that
      already holds some. */
  predicate Fair(s: Seen, c: Command, existing: bool) {
    && !s.asleep
    && (if c.SensorInit? then !s.started else s.initialized)
    && (c.Setup? ==> s.prepared < Preparations(existing) && c.what == Preparations(existing)[|s.prepared|])
    && (c.BeginEnrol? ==> s.authorized && s.prepared == Preparations(existing))
    && (c.Capture? ==> s.begun && s.captures < MAX_ATTEMPTS)
    && (c.Enrol? ==> s.captured)
    && (c.EndEnrol? ==> s.complete && s.authorized && s.ends == 0)
    && (c.Store? ==> s.ended && (existing || s.counted == Some(1)))
  }

  predicate Proper(log: seq<Command>, existing: bool) {
    log == [] || (Proper(log[..|log| - 1], existing) && Fair(Watch(log[..|log| - 1]), log[|log| - 1], existing))
  }

  // ----- what that means for the order of commands

  lemma {:induction false} ProperEverywhere(log: seq<Command>, existing: bool, i: nat)
    requires Proper(log, existing) && i < |log|
    ensures Proper(log[..i], existing) && Fair(Watch(log[..i]), log[i], existing)
    decreases |log|
  {
    var before := log[..|log| - 1];
    if i < |log| - 1 {
      assert before[..i] == log[..i];
      ProperEverywhere(before, existing, i);
    }
  }

  lemma StepFacts(s: Seen, c: Command)
    ensures Step(s, c).fetched == if c.Fetch? then c.got else if c.Enrol? then None else s.fetched
    ensures Step(s, c).authorized ==
            if c.Authorize? then c.status == 0 && s.fetched == Some(c.challenge) else !c.Fetch? && !c.Enrol? && s.authorized
    ensures Step(s, c).complete == if c.Enrol? then c.status == 0 else s.complete
  {
    match c {
      case SensorInit(_) => case SensorSleep(_) => case Setup(_, _) => case Fetch(_) => case Authorize(_, _) =>
      case BeginEnrol(_) => case Finger(_, _) => case Capture(_) => case Enrol(_) => case EndEnrol(_) =>
      case Inventory(_) => case Store(_) =>
    }
  }

  lemma StepCounts(s: Seen, c: Command)
    ensures Step(s, c).ends == s.ends + if c.EndEnrol? then 1 else 0
    ensures Step(s, c).captured <==> c == Capture(0)
    ensures Step(s, c).captures == s.captures + if c.Capture? then 1 else 0
    ensures Step(s, c).ended <==> if c.EndEnrol? then c.status == 0 else s.ended
    ensures Step(s, c).stored <==> if c.Store? then c.ok else s.stored
    ensures Step(s, c).counted == if c.Inventory? then c.count else if c.EndEnrol? then None else s.counted
  {
    match c {
      case SensorInit(_) => case SensorSleep(_) => case Setup(_, _) => case Fetch(_) => case Authorize(_, _) =>
      case BeginEnrol(_) => case Finger(_, _) => case Capture(_) => case Enrol(_) => case EndEnrol(_) =>
      case Inventory(_) => case Store(_) =>
    }
  }

  lemma StepSensor(s: Seen, c: Command)
    ensures Step(s, c).asleep <==> s.asleep || c.SensorSleep?
    ensures Step(s, c).initialized <==> if c.SensorInit? then c.status == 0 else s.initialized
    ensures Step(s, c).started <==> s.started || c.SensorInit?
  {
    match c {
      case SensorInit(_) => case SensorSleep(_) => case Setup(_, _) => case Fetch(_) => case Authorize(_, _) =>
      case BeginEnrol(_) => case Finger(_, _) => case Capture(_) => case Enrol(_) => case EndEnrol(_) =>
      case Inventory(_) => case Store(_) =>
    }
  }

  /** A run starts the sensor first, and sends nothing else unless that worked. */
  lemma StartsWithInit(log: seq<Command>, existing: bool)
    requires Proper(log, existing) && log != []
    ensures log[0].SensorInit? && (|log| > 1 ==> log[0].status == 0)
  {
    hide Step;
    ProperEverywhere(log, existing, 0);
    if |log| > 1 {
      ProperEverywhere(log, existing, 1);
      assert log[..1] == [log[0]] && [log[0]][..0] == [];
      StepSensor(Nothing(), log[0]);
    }
  }

  /** Nothing is sent after the command that puts the sensor to sleep. */
  lemma SleepIsLast(log: seq<Command>, existing: bool, i: nat)
    requires Proper(log, existing) && i < |log| - 1
    ensures !log[i].SensorSleep?
  {
    hide Step;
    ProperEverywhere(log, existing, i + 1);
    assert log[..i + 1][..i] == log[..i];
    StepSensor(Watch(log[..i]), log[i]);
  }

  /** A sample is only taken up right after a capture that succeeded. */
  lemma EnrolFollowsCapture(log: seq<Command>, existing: bool, i: nat)
    requires Proper(log, existing) && i < |log| && log[i].Enrol?
    ensures i > 0 && log[i - 1] == Capture(0)
  {
    hide Step;
    ProperEverywhere(log, existing, i);
    if i > 0 {
      assert log[..i][|log[..i]| - 1] == log[i - 1];
      StepCounts(Watch(log[..i][..i - 1]), log[i - 1]);
    }
  }

  /** The accepted challenge was fetched, then submitted, after any sample taken up. */
  predicate Renewed(log: seq<Command>, fetch: nat, submit: nat) {
    && fetch < submit < |log| && log[fetch].Fetch? && log[fetch].got.Some?
    && log[submit] == Authorize(log[fetch].got.value, 0)
    && (forall k :: fetch < k < |log| ==> !log[k].Fetch? && !log[k].Enrol?)
  }

  lemma {:induction false} FetchedMeans(log: seq<Command>) returns (f: nat)
    requires Watch(log).fetched.Some?
    ensures f < |log| && log[f] == Fetch(Watch(log).fetched)
    ensures forall k :: f < k < |log| ==> !log[k].Fetch? && !log[k].Enrol?
    decreases |log|
  {
    hide Step;
    StepFacts(Watch(log[..|log| - 1]), log[|log| - 1]);
    if log[|log| - 1].Fetch? {
      f := |log| - 1;
    } else {
      f := FetchedMeans(log[..|log| - 1]);
    }
  }

  lemma {:induction false} AuthorizedMeans(log: seq<Command>) returns (f: nat, k: nat)
    requires Watch(log).authorized
    ensures Renewed(log, f, k)
    decreases |log|
  {
    hide Step;
    StepFacts(Watch(log[..|log| - 1]), log[|log| - 1]);
    if log[|log| - 1].Authorize? {
      f := FetchedMeans(log[..|log| - 1]);
      k := |log| - 1;
    } else {
      f, k := AuthorizedMeans(log[..|log| - 1]);
    }
  }

  lemma {:induction false} CompleteMeans(log: seq<Command>) returns (e: nat)
    requires Watch(log).complete
    ensures e < |log| && log[e] == Enrol(0) && forall k :: e < k < |log| ==> !log[k].Enrol?
    decreases |log|
  {
    hide Step;
    StepFacts(Watch(log[..|log| - 1]), log[|log| - 1]);
    if log[|log| - 1].Enrol? {
      e := |log| - 1;
    } else {
      e := CompleteMeans(log[..|log| - 1]);
    }
  }

  /** The template is only finalized after the sample that completed it and then a
      challenge fetched and a token for it accepted, in that order. */
  lemma EndNeedsRenewal(log: seq<Command>, existing: bool, i: nat) returns (sample: nat, fetch: nat, submit: nat)
    requires Proper(log, existing) && i < |log| && log[i].EndEnrol?
    ensures sample < fetch < submit < i && log[sample] == Enrol(0) && Renewed(log[..i], fetch, submit)
  {
    hide Watch;
    ProperEverywhere(log, existing, i);
    sample := CompleteMeans(log[..i]);
    fetch, submit := AuthorizedMeans(log[..i]);
  }

  lemma {:induction false} EndsCount(log: seq<Command>, i: nat)
    requires i < |log| && log[i].EndEnrol?
    ensures Watch(log).ends > 0
    decreases |log|
  {
    hide Step;
    StepCounts(Watch(log[..|log| - 1]), log[|log| - 1]);
    if i < |log| - 1 {
      EndsCount(log[..|log| - 1], i);
    }
  }

  lemma EndsOnce(log: seq<Command>, existing: bool, i: nat, j: nat)
    requires Proper(log, existing) && i < |log| && j < |log| && log[i].EndEnrol? && log[j].EndEnrol?
    ensures i == j
  {
    hide Watch;
    ProperEverywhere(log, existing, i);
    ProperEverywhere(log, existing, j);
    if i < j {
      EndsCount(log[..j], i);
    } else if j < i {
      EndsCount(log[..i], j);
    }
  }

  // ----- how many captures, and what a stored database went through

  function Captures(log: seq<Command>): nat {
    if log == [] then 0 else Captures(log[..|log| - 1]) + if log[|log| - 1].Capture? then 1 else 0
  }

  lemma {:induction false} CapturesCounted(log: seq<Command>)
    ensures Watch(log).captures == Captures(log)
    decreases |log|
  {
    hide Step;
    if log != [] {
      CapturesCounted(log[..|log| - 1]);
      StepCounts(Watch(log[..|log| - 1]), log[|log| - 1]);
    }
  }

  /** No run captures more than forty times. */
  lemma {:induction false} AtMostFortyCaptures(log: seq<Command>, existing: bool)
    requires Proper(log, existing)
    ensures Captures(log) <= MAX_ATTEMPTS
    decreases |log|
  {
    hide Watch;
    if log != [] {
      AtMostFortyCaptures(log[..|log| - 1], existing);
      CapturesCounted(log[..|log| - 1]);
    }
  }

  lemma {:induction false} EndedMeans(log: seq<Command>) returns (e: nat)
    requires Watch(log).ended
    ensures e < |log| && log[e] == EndEnrol(0) && forall k :: e < k < |log| ==> !log[k].EndEnrol?
    decreases |log|
  {
    hide Step;
    StepCounts(Watch(log[..|log| - 1]), log[|log| - 1]);
    if log[|log| - 1].EndEnrol? {
      e := |log| - 1;
    } else {
      e := EndedMeans(log[..|log| - 1]);
    }
  }

  lemma {:induction false} CountedMeans(log: seq<Command>) returns (c: nat)
    requires Watch(log).counted.Some?
    ensures c < |log| && log[c] == Inventory(Watch(log).counted)
    ensures forall k :: c < k < |log| ==> !log[k].Inventory? && !log[k].EndEnrol?
    decreases |log|
  {
    hide Step;
    StepCounts(Watch(log[..|log| - 1]), log[|log| - 1]);
    if log[|log| - 1].Inventory? {
      c := |log| - 1;
    } else {
      c := CountedMeans(log[..|log| - 1]);
    }
  }

  lemma {:induction false} StoredMeans(log: seq<Command>) returns (i: nat)
    requires Watch(log).stored
    ensures i < |log| && log[i] == Store(true)
    decreases |log|
  {
    hide Step;
    StepCounts(Watch(log[..|log| - 1]), log[|log| - 1]);
    if log[|log| - 1].Store? {
      i := |log| - 1;
    } else {
      i := StoredMeans(log[..|log| - 1]);
    }
  }

  /** A database is only exported after a template was finalized, and a new one only
      after exactly one template was then counted in it. */
  lemma StoreNeedsOne(log: seq<Command>, existing: bool, i: nat) returns (end: nat, count: nat)
    requires Proper(log, existing) && i < |log| && log[i].Store?
    ensures end < i && log[end] == EndEnrol(0) && forall k :: end < k < i ==> !log[k].EndEnrol?
    ensures !existing ==> end < count < i && log[count] == Inventory(Some(1)) && forall k :: count < k < i ==> !log[k].Inventory?
  {
    hide Watch;
    ProperEverywhere(log, existing, i);
    end := EndedMeans(log[..i]);
    count := end;
    if !existing {
      count := CountedMeans(log[..i]);
      assert log[..i][end] == EndEnrol(0);
    }
  }

  // ----- one run, as the TA, the sensor and the user answer it

  /** A challenge and its token: whether the other program returned one that carries
      the challenge, and what the TA says to it. */
  datatype AuthReplies = AuthReplies(challenge: Option<u64>, carried: bool, status: int)

  /** One turn of waiting for the finger to lift. */
  datatype Poll = Poll(wait: int, irq: bool, state: int, lost: int)

  /** One attempt: a cancellation by now; what arming for a touch and the touch meet;
      the capture and the sample; what waiting for the finger to lift meets. */
  datatype Attempt = Attempt(
    stop: bool, clear: bool, armed: int, clearAgain: bool, touch: bool, capture: int, sample: int,
    lost: int, clearUp: bool, polls: seq<Poll>)

  datatype Replies = Replies(
    init: int, setups: seq<int>, first: AuthReplies, begin: int, attempts: seq<Attempt>, second: AuthReplies, end: int,
    count: Option<nat>, store: bool, lateStop: bool, sleep: int)

  /** The status of preparation `k`; a command that is not there to answer fails. */
  function SetupStatus(r: Replies, k: nat): int {
    if k < |r.setups| then r.setups[k] else -1
  }

  predicate AuthOk(a: AuthReplies) {
    a.challenge.Some? && a.challenge != Some(0) && a.carried && a.status == 0
  }

  predicate Touched(a: Attempt) {
    a.clear && a.armed == 0 && a.clearAgain && a.touch
  }

  /** How waiting for the finger to lift ends after at most `left` turns. */
  function Polled(polls: seq<Poll>, left: nat): int {
    if left == 0 || polls == [] then -1
    else
      var p := polls[0];
      if p.wait < 0 then -1
      else if p.wait != 0 then p.wait
      else if !p.irq || p.state < 0 then -1
      else if p.state == 0 then Polled(polls[1..], left - 1)
      else if p.lost < 0 then -1
      else if p.lost != 0 then 0
      else Polled(polls[1..], left - 1)
  }

  function Lifted(a: Attempt): int {
    if a.lost < 0 then -1
    else if a.lost != 0 then 0
    else if !a.clearUp then -1
    else Polled(a.polls, 600)
  }

  /** An attempt after which there is another one. */
  predicate GoesOn(a: Attempt) {
    !a.stop && Touched(a) && a.capture >= 0 && (a.capture == 0 ==> a.sample > 0) && Lifted(a) >= 0
  }

  /** The attempt whose sample completes the template. */
  predicate Completes(a: Attempt) {
    !a.stop && Touched(a) && a.capture == 0 && a.sample == 0
  }

  /** Attempt `n` is among the first forty and completes the template, and all before
      it go on. */
  predicate CompletesAt(attempts: seq<Attempt>, n: nat) {
    n < 40 && n < |attempts| && Completes(attempts[n]) && forall k :: 0 <= k < n ==> GoesOn(attempts[k])
  }

  predicate Finishes(r: Replies, existing: bool) {
    AuthOk(r.second) && r.end == 0 && (existing || r.count == Some(1)) && r.store
  }

  predicate Begins(r: Replies, existing: bool) {
    (forall k :: 0 <= k < |Preparations(existing)| ==> SetupStatus(r, k) == 0) && AuthOk(r.first) && r.begin == 0
  }

  /** Exactly then a run ends in a stored template and exit status 0. */
  ghost predicate Succeeds(r: Replies, existing: bool) {
    && r.init == 0 && Begins(r, existing) && (exists n: nat :: CompletesAt(r.attempts, n)) && Finishes(r, existing)
    && !r.lateStop && r.sleep == 0
  }

  /** The commands other than those about the finger. */
  function Main(log: seq<Command>): seq<Command> {
    if log == [] then []
    else Main(log[..|log| - 1]) + if log[|log| - 1].Finger? then [] else [log[|log| - 1]]
  }

  function SetupLog(existing: bool, n: nat): seq<Command>
    requires n <= |Preparations(existing)|
  {
    seq(n, k requires 0 <= k < n => Setup(Preparations(existing)[k], 0))
  }

  function AuthLog(a: AuthReplies): seq<Command> {
    [Fetch(a.challenge), Authorize(if a.challenge.Some? then a.challenge.value else 0, 0)]
  }

  function AttemptLog(a: Attempt): seq<Command> {
    [Capture(a.capture)] + if a.capture == 0 then [Enrol(a.sample)] else []
  }

  function AttemptsLog(attempts: seq<Attempt>, n: nat): seq<Command> {
    if n == 0 || n > |attempts| then [] else AttemptsLog(attempts, n - 1) + AttemptLog(attempts[n - 1])
  }

  function FinishLog(r: Replies, existing: bool): seq<Command> {
    AuthLog(r.second) + [EndEnrol(0)] + (if existing then [] else [Inventory(Some(1))]) + [Store(true)]
  }

  /** What a successful run sends, the finger's commands aside: each command with what
      came back. */
  function SuccessLog(r: Replies, existing: bool, n: nat): seq<Command> {
    [SensorInit(0)] + BeginLog(r, existing) + (AttemptsLog(r.attempts, n + 1) + FinishLog(r, existing)) + [SensorSleep(0)]
  }

  function BeginLog(r: Replies, existing: bool): seq<Command> {
    SetupLog(existing, |Preparations(existing)|) + AuthLog(r.first) + [BeginEnrol(0)]
  }

  /** At most one attempt completes the template. */
  lemma CompletesOnce(attempts: seq<Attempt>, n: nat, m: nat)
    requires CompletesAt(attempts, n) && CompletesAt(attempts, m)
    ensures n == m
  {
    hide GoesOn, Completes;
    Exclusive(attempts[n]);
    Exclusive(attempts[m]);
  }

  lemma Exclusive(a: Attempt)
    ensures !(GoesOn(a) && Completes(a))
  {
    hide Touched, Lifted;
  }

  lemma SetupNext(existing: bool, k: nat)
    requires k < |Preparations(existing)|
    ensures SetupLog(existing, k + 1) == SetupLog(existing, k) + [Setup(Preparations(existing)[k], 0)]
    ensures SetupLog(existing, 0) == []
    ensures Preparations(existing)[..k + 1] == Preparations(existing)[..k] + [Preparations(existing)[k]]
    ensures Preparations(existing)[..k] < Preparations(existing)
  {
    hide Preparations;
  }

  // ----- the run

  class Client {
    const existing: bool
    var cancelled: bool
    ghost var log: seq<Command>
    ghost var seen: Seen
    ghost var sent: seq<Command>

    constructor (existing: bool)
      ensures Valid() && seen == Nothing() && log == [] && this.existing == existing && !cancelled
    {
      this.existing := existing;
      cancelled, log, seen, sent := false, [], Nothing(), [];
    }

    ghost predicate Valid()
      reads this
    {
      seen == Watch(log) && Proper(log, existing) && sent == Main(log)
    }

    ghost method Record(c: Command)
      requires Valid() && Fair(seen, c, existing)
      modifies this`log, this`seen, this`sent
      ensures Valid() && log == old(log) + [c] && seen == Step(old(seen), c)
      ensures sent == old(sent) + if c.Finger? then [] else [c]
    {
      assert (log + [c])[..|log|] == log;
      log := log + [c];
      seen := Step(seen, c);
      sent := Main(log);
    }

    /** A signal may arrive at any time, and stays. */
    method Cancelled(signal: bool) returns (now: bool)
      modifies this`cancelled
      ensures now == cancelled == (old(cancelled) || signal)
    {
      cancelled := cancelled || signal;
      now := cancelled;
    }

    ghost predicate Awake()
      reads this
    {
      Valid() && seen.initialized && !seen.asleep
    }

    method SetUp(what: Preparation, status: int)
      requires Awake() && seen.prepared < Preparations(existing) && what == Preparations(existing)[|seen.prepared|]
      modifies this`log, this`seen, this`sent
      ensures Awake() && sent == old(sent) + [Setup(what, status)]
      ensures seen == old(seen).(captured := false, prepared := if status == 0 then old(seen).prepared + [what] else old(seen).prepared)
    {
      hide Watch, Main, Proper;
      Record(Setup(what, status));
    }

    /** Commands of the finger detector. */
    method AskFinger(what: FingerCommand, status: int)
      requires Awake()
      modifies this`log, this`seen, this`sent
      ensures Awake() && seen == old(seen).(captured := false) && sent == old(sent)
    {
      hide Watch, Main, Proper;
      Record(Finger(what, status));
    }

    /** `wait_finger_down` */
    method WaitFingerDown(a: Attempt) returns (ok: bool)
      requires Awake()
      modifies this`log, this`seen, this`sent
      ensures Awake() && seen == old(seen).(captured := old(seen).captured && seen.captured) && sent == old(sent)
      ensures ok == Touched(a)
    {
      hide Watch, Main, Proper;
      if !a.clear {
        return false;
      }
      AskFinger(WaitDown, a.armed);
      if a.armed != 0 {
        return false;
      }
      ok := a.clearAgain && a.touch;
    }

    /** `wait_finger_lost`: negative when the run must stop. */
    method WaitFingerLost(a: Attempt) returns (status: int)
      requires Awake()
      modifies this`log, this`seen, this`sent
      ensures Awake() && seen == old(seen).(captured := false) && sent == old(sent)
      ensures status == Lifted(a)
    {
      hide Watch, Main, Proper, Polled;
      AskFinger(CheckLost, a.lost);
      if a.lost < 0 {
        return -1;
      }
      if a.lost != 0 {
        return 0;
      }
      if !a.clearUp {
        return -1;
      }
      status := PollLift(a.polls);
    }

    method PollLift(polls: seq<Poll>) returns (status: int)
      requires Awake() && !seen.captured
      modifies this`log, this`seen, this`sent
      ensures Awake() && seen == old(seen) && sent == old(sent)
      ensures status == Polled(polls, 600)
    {
      hide Watch, Main, Proper;
      for attempt := 0 to MAX_LIFT_POLLS
        invariant Awake() && seen == old(seen) && sent == old(sent)
        invariant attempt <= |polls| && Polled(polls, 600) == Polled(polls[attempt..], 600 - attempt)
      {
        if attempt == |polls| {
          return -1;
        }
        var p := polls[attempt];
        assert polls[attempt..][1..] == polls[attempt + 1..];
        AskFinger(WaitLost, p.wait);
        if p.wait < 0 {
          return -1;
        }
        if p.wait != 0 {
          return p.wait;
        }
        if !p.irq {
          return -1;
        }
        AskFinger(CheckState, p.state);
        if p.state < 0 {
          return -1;
        }
        if p.state == 0 {
          continue;
        }
        AskFinger(CheckLost, p.lost);
        if p.lost < 0 {
          return -1;
        }
        if p.lost != 0 {
          return 0;
        }
      }
      return -1;
    }

    /** `get_enrol_challenge` and `authorize_enrol` */
    method AuthorizeFresh(a: AuthReplies) returns (ok: bool)
      requires Awake()
      modifies this`log, this`seen, this`sent
      ensures Awake() && ok == AuthOk(a)
      ensures seen == old(seen).(captured := false, fetched := seen.fetched, authorized := seen.authorized)
      ensures ok ==> seen.authorized && sent == old(sent) + AuthLog(a)
    {
      hide Watch, Main, Proper;
      var challenge := a.challenge;
      if challenge == Some(0) {
        challenge := None;
      }
      Record(Fetch(challenge));
      if challenge.None? {
        return false;
      }
      if !a.carried {
        return false;
      }
      Record(Authorize(challenge.value, a.status));
      ok := a.status == 0;
    }

    /** After the completing sample: renew the authorization, finalize, check that a
        new database holds one template, export. */
    method Finalize(r: Replies) returns (result: int)
      requires Awake() && seen.complete && seen.ends == 0
      modifies this`log, this`seen, this`sent
      ensures Awake() && (result == 0 <==> Finishes(r, existing)) && (result == 0 || result == 1)
      ensures result == 0 ==> seen.stored && seen.ended && (existing || seen.counted == Some(1)) && sent == old(sent) + FinishLog(r, existing)
    {
      hide Watch, Main, Proper, AuthOk, AuthLog;
      var ok := AuthorizeFresh(r.second);
      if !ok {
        return 1;
      }
      End(r.end);
      if r.end != 0 {
        return 1;
      }
      ok := Export(r);
      result := if ok then 0 else 1;
    }

    method End(status: int)
      requires Awake() && seen.complete && seen.authorized && seen.ends == 0
      modifies this`log, this`seen, this`sent
      ensures Awake() && (seen.ended <==> status == 0) && sent == old(sent) + [EndEnrol(status)]
    {
      hide Watch, Main, Proper;
      Record(EndEnrol(status));
    }

    method Export(r: Replies) returns (ok: bool)
      requires Awake() && seen.ended
      modifies this`log, this`seen, this`sent
      ensures Awake() && ok == ((existing || r.count == Some(1)) && r.store)
      ensures ok ==> seen.stored && seen.ended && (existing || seen.counted == Some(1))
      ensures ok ==> sent == old(sent) + (if existing then [] else [Inventory(Some(1))]) + [Store(true)]
    {
      hide Watch, Main, Proper;
      if !existing {
        Record(Inventory(r.count));
        if r.count != Some(1) {
          return false;
        }
      }
      Record(Store(r.store));
      ok := r.store;
    }

    /** The attempts: capture, take the sample up, wait for the finger to lift; `n` is
        the one that completes the template. */
    method Attempts(r: Replies) returns (result: int, ghost n: nat)
      requires Awake() && !cancelled && seen.begun && seen.captures == 0 && seen.ends == 0
      modifies this`log, this`seen, this`sent, this`cancelled
      ensures Awake() && (result == 0 || result == 1)
      ensures result == 0 ==> seen.stored && seen.ended && (existing || seen.counted == Some(1)) && !cancelled
      ensures result == 0 <==> (exists m: nat :: CompletesAt(r.attempts, m)) && Finishes(r, existing)
      ensures result == 0 ==> CompletesAt(r.attempts, n) && sent == old(sent) + AttemptsLog(r.attempts, n + 1) + FinishLog(r, existing)
    {
      hide Watch, Main, Proper, Finishes, FinishLog, AttemptLog, GoesOn, Completes;
      n := 0;
      for attempt := 0 to MAX_ATTEMPTS
        invariant Awake() && !cancelled && seen.begun && seen.captures == attempt && seen.ends == 0
        invariant attempt <= |r.attempts| && sent == old(sent) + AttemptsLog(r.attempts, attempt)
        invariant forall k :: 0 <= k < attempt ==> GoesOn(r.attempts[k])
      {
        NoneBefore(r.attempts, attempt);
        if attempt == |r.attempts| {
          return 1, 0;
        }
        var goesOn, done := TryOnce(r.attempts[attempt]);
        if done {
          n := attempt;
          assert CompletesAt(r.attempts, n);
          result := Finalize(r);
          return;
        }
        if !goesOn {
          return 1, 0;
        }
      }
      NoneBefore(r.attempts, MAX_ATTEMPTS);
      return 1, 0;
    }

    /** Attempts that went on did not complete. */
    lemma NoneBefore(attempts: seq<Attempt>, n: nat)
      requires n <= |attempts| && forall k :: 0 <= k < n ==> GoesOn(attempts[k])
      ensures forall m: nat :: CompletesAt(attempts, m) ==> m >= n
    {
      hide GoesOn, Completes;
      forall m: nat | CompletesAt(attempts, m) ensures m >= n {
        Exclusive(attempts[m]);
      }
    }

    /** One attempt, up to the sample that completes the template. */
    method TryOnce(a: Attempt) returns (goesOn: bool, done: bool)
      requires Awake() && !cancelled && seen.begun && seen.captures < MAX_ATTEMPTS && seen.ends == 0
      modifies this`log, this`seen, this`sent, this`cancelled
      ensures Awake() && goesOn == GoesOn(a) && done == Completes(a)
      ensures goesOn || done ==> !cancelled && seen.begun && seen.captures == old(seen).captures + 1 && seen.ends == 0 && sent == old(sent) + AttemptLog(a)
      ensures done ==> seen.complete
    {
      hide Watch, Main, Proper, Lifted, Touched, Step, Fair;
      goesOn, done := false, false;
      var stop := Cancelled(a.stop);
      if stop {
        return;
      }
      var down := WaitFingerDown(a);
      if !down {
        return;
      }
      Sample(a);
      if a.capture < 0 || (a.capture == 0 && a.sample < 0) {
        return;
      }
      if a.capture == 0 && a.sample == 0 {
        done := true;
        return;
      }
      var status := WaitFingerLost(a);
      goesOn := status >= 0;
    }

    /** Capture, and take the sample up if that worked. */
    method Sample(a: Attempt)
      requires Awake() && seen.begun && seen.captures < MAX_ATTEMPTS && seen.ends == 0
      modifies this`log, this`seen, this`sent
      ensures Awake() && seen.begun && seen.captures == old(seen).captures + 1 && seen.ends == 0 && sent == old(sent) + AttemptLog(a)
      ensures a.capture == 0 && a.sample == 0 ==> seen.complete
    {
      hide Watch, Main, Proper;
      Record(Capture(a.capture));
      if a.capture == 0 {
        Record(Enrol(a.sample));
      }
    }

    /** Everything between the sensor's start and the clean-up. */
    method Enrolling(r: Replies) returns (result: int, ghost n: nat)
      requires Awake() && !cancelled && !seen.begun && seen.captures == 0 && seen.ends == 0 && seen.prepared == []
      modifies this`log, this`seen, this`sent, this`cancelled
      ensures Awake() && (result == 0 || result == 1)
      ensures result == 0 ==> seen.stored && seen.ended && (existing || seen.counted == Some(1)) && !cancelled
      ensures result == 0 <==> Begins(r, existing) && (exists m: nat :: CompletesAt(r.attempts, m)) && Finishes(r, existing)
      ensures result == 0 ==> CompletesAt(r.attempts, n)
      ensures result == 0 ==> sent == old(sent) + BeginLog(r, existing) + (AttemptsLog(r.attempts, n + 1) + FinishLog(r, existing))
    {
      hide Watch, Main, Proper, Finishes, FinishLog, AttemptsLog, CompletesAt, Begins, BeginLog, Step, Fair;
      n := 0;
      var ok := BeginAll(r);
      if !ok {
        return 1, 0;
      }
      result, n := Attempts(r);
    }

    method BeginAll(r: Replies) returns (ok: bool)
      requires Awake() && !seen.begun && seen.captures == 0 && seen.ends == 0 && seen.prepared == []
      modifies this`log, this`seen, this`sent
      ensures Awake() && ok == Begins(r, existing)
      ensures ok ==> seen.begun && seen.captures == 0 && seen.ends == 0 && sent == old(sent) + BeginLog(r, existing)
    {
      hide Watch, Main, Proper, AuthOk, AuthLog, SetupLog, Preparations;
      ok := SetUpAll(r);
      if !ok {
        return;
      }
      ok := AuthorizeFresh(r.first);
      if !ok {
        return;
      }
      Record(BeginEnrol(r.begin));
      ok := r.begin == 0;
    }

    method SetUpAll(r: Replies) returns (ok: bool)
      requires Awake() && !seen.begun && seen.captures == 0 && seen.ends == 0 && seen.prepared == []
      modifies this`log, this`seen, this`sent
      ensures Awake() && (ok <==> forall k :: 0 <= k < |Preparations(existing)| ==> SetupStatus(r, k) == 0)
      ensures !seen.begun && seen.captures == 0 && seen.ends == 0
      ensures ok ==> seen.prepared == Preparations(existing) && sent == old(sent) + SetupLog(existing, |Preparations(existing)|)
    {
      hide Watch, Main, Proper, Preparations, SetupLog, SetupStatus, Step, Fair;
      var steps := Preparations(existing);
      SetupNext(existing, 0);
      for k := 0 to |steps|
        invariant Awake() && seen.prepared == steps[..k] && sent == old(sent) + SetupLog(existing, k)
        invariant !seen.begun && seen.captures == 0 && seen.ends == 0
        invariant forall j :: 0 <= j < k ==> SetupStatus(r, j) == 0
      {
        var status := SetupStatus(r, k);
        SetupNext(existing, k);
        SetUp(steps[k], status);
        if status != 0 {
          return false;
        }
      }
      assert steps[..|steps|] == steps;
      ok := true;
    }

    /** `main` with `--bio-pipeline` or `--bio-pipeline-existing`, from SENSOR_INIT. */
    method Run(r: Replies) returns (result: int)
      requires Valid() && seen == Nothing() && !cancelled && log == []
      modifies this
      ensures Valid() && log != [] && (seen.initialized ==> log[|log| - 1].SensorSleep?)
      ensures Captures(log) <= MAX_ATTEMPTS
      ensures result == 0 ==> Store(true) in log
      ensures result == 0 ==>
        && !cancelled && log[|log| - 1] == SensorSleep(0)
        && seen.stored && seen.ended && (existing || seen.counted == Some(1))
      ensures result == 0 <==> Succeeds(r, existing)
      ensures result == 0 ==> forall n: nat :: CompletesAt(r.attempts, n) ==> Main(log) == SuccessLog(r, existing, n)
    {
      hide Watch, Main, Proper, CompletesAt, AttemptsLog, FinishLog, BeginLog, Begins, Finishes, Captures;
      NothingSent();
      ghost var n := 0;
      result := 1;
      Record(SensorInit(r.init));
      if r.init == 0 {
        result, n := Enrolling(r);
      }
      var stop := Cancelled(r.lateStop);
      if stop {
        result := 1;
      }
      if r.init == 0 {
        Record(SensorSleep(r.sleep));
        if r.sleep != 0 {
          result := 1;
        }
      }
      AtMostFortyCaptures(log, existing);
      if result == 0 {
        ghost var i := StoredMeans(log);
        forall m: nat | CompletesAt(r.attempts, m) ensures m == n {
          CompletesOnce(r.attempts, n, m);
        }
      }
    }

    lemma NothingSent()
      ensures Main([]) == []
    {
    }
  }

  // ----- one touch

  /** Everything works and the first touch completes the template. */
  function OneTouch(first: u64, second: u64): Replies {
    Replies(0, [0, 0, 0, 0, 0, 0], AuthReplies(Some(first), true, 0), 0, [Attempt(false, true, 0, true, true, 0, 0, 0, true, [])],
            AuthReplies(Some(second), true, 0), 0, Some(1), true, false, 0)
  }

  /** The commands that makes, one by one. */
  function OneTouchLog(existing: bool, first: u64, second: u64): seq<Command> {
    [SensorInit(0), Setup(BioInit, 0), Setup(HwAuth, 0), Setup(SetGid, 0)]
    + (if existing then [Setup(ImportDatabase, 0), Setup(SetActiveGroup, 0), Setup(LoadInstanceData, 0)]
       else [Setup(EmptyDatabase, 0), Setup(SetActiveGroup, 0)])
    + [Fetch(Some(first)), Authorize(first, 0), BeginEnrol(0), Capture(0), Enrol(0),
       Fetch(Some(second)), Authorize(second, 0), EndEnrol(0)]
    + (if existing then [] else [Inventory(Some(1))]) + [Store(true), SensorSleep(0)]
  }

  lemma OneTouchWorks(existing: bool, first: u64, second: u64)
    requires first != 0 && second != 0
    ensures Succeeds(OneTouch(first, second), existing) && CompletesAt(OneTouch(first, second).attempts, 0)
    ensures SuccessLog(OneTouch(first, second), existing, 0) == OneTouchLog(existing, first, second)
  {
    hide SetupLog, Preparations, AttemptsLog, CompletesAt;
    var r := OneTouch(first, second);
    OneTouchSetup(existing);
    OneAttempt(r.attempts);
    Six(r, existing);
  }

  lemma OneAttempt(attempts: seq<Attempt>)
    requires attempts == [Attempt(false, true, 0, true, true, 0, 0, 0, true, [])]
    ensures CompletesAt(attempts, 0) && AttemptsLog(attempts, 1) == [Capture(0), Enrol(0)]
  {
    assert Completes(attempts[0]);
    assert AttemptsLog(attempts, 0) == [];
  }

  lemma Six(r: Replies, existing: bool)
    requires r.setups == [0, 0, 0, 0, 0, 0]
    ensures forall k :: 0 <= k < |Preparations(existing)| ==> SetupStatus(r, k) == 0
  {
    hide Preparations;
  }

  lemma OneTouchSetup(existing: bool)
    ensures SetupLog(existing, |Preparations(existing)|)
         == [Setup(BioInit, 0), Setup(HwAuth, 0), Setup(SetGid, 0)]
            + (if existing then [Setup(ImportDatabase, 0), Setup(SetActiveGroup, 0), Setup(LoadInstanceData, 0)]
               else [Setup(EmptyDatabase, 0), Setup(SetActiveGroup, 0)])
  {
  }

  /** A run that nothing disturbs, in both modes. */
  method OneTouchRun(existing: bool, first: u64, second: u64) returns (client: Client, result: int)
    requires first != 0 && second != 0
    ensures fresh(client) && result == 0 && Main(client.log) == OneTouchLog(existing, first, second)
  {
    hide Succeeds, CompletesAt, SuccessLog, OneTouchLog, Main;
    OneTouchWorks(existing, first, second);
    client := new Client(existing);
    result := client.Run(OneTouch(first, second));
  }
}

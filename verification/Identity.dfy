/** One account's machine credential: any number of concurrent `native_enrol.py`
    runs and their credential-creating children, killed or cut off by a power loss
    at any point, over files whose unsynced changes may or may not survive. */
module Identity {
  import opened Bytes

  // ----- files that survive power losses only as far as they were synced

  datatype Content = Absent | Torn | Record(binding: nat, secret: nat) | Mark | Handle(secret: nat)

  /** `now` is what programs see; `maybe` is everything a power loss could leave. */
  datatype File = File(now: Content, maybe: set<Content>)

  function Changed(f: File, c: Content): File {
    File(c, f.maybe + {c})
  }

  function Synced(f: File): File {
    File(f.now, {f.now})
  }

  function Durable(c: Content): File {
    File(c, {c})
  }

  // ----- processes

  datatype Stage =
    | Locked         // flock taken, nothing looked at
    | Drawn          // fresh secret in memory
    | RecordOpen     // credential.json created, empty
    | RecordFull     // credential.json written, not synced
    | RecordSafe     // credential.json and its directory synced
    | RequestOpen    // create.requested created, not synced
    | RequestSafe    // create.requested and its directory synced
    | Waiting        // the creating child runs
    | Returned       // the child exited with status 0
    | Unrequested    // create.requested unlinked, directory not synced
    | Ready          // credential complete
    | Enrolling      // the enrolling child was started

  /** The `enrol` call that holds `user-operation.lock`; others change nothing. */
  datatype Run = Run(stage: Stage, binding: nat, secret: nat)

  datatype Life =
    | Spawned        // has not looked for a handle yet
    | Asking         // saw no handle
    | Asked          // Gatekeeper has made the identity
    | Linked         // gatekeeper.handle linked, directory not synced
    | Succeeded      // exit status 0
    | Dead           // any other end

  /** `native_credentials.py --create`: it outlives a killed parent. */
  datatype Child = Child(life: Life, secret: nat)

  datatype World = World(
    record: File, handle: File, requested: File,
    run: Option<Run>,
    children: seq<Child>,          // every creating child ever started
    created: seq<nat>,             // secret of every create call Gatekeeper received
    enrolled: seq<(nat, nat)>)     // binding and secret of every `--enrol` started

  datatype Action =
    | TakeLock(binding: nat)
    | Draw(secret: nat) | Reuse
    | CreateRecord | FillRecord | SyncRecord
    | CreateRequest | SyncRequest
    | Spawn | Return | Unlink | SyncUnlink | Enrol
    | RunEnds
    | Look(child: nat) | Ask(child: nat) | Link(child: nat) | SyncLink(child: nat) | ChildEnds(child: nat)
    | PowerLoss(record: Content, handle: Content, requested: Content)

  function Initial(): World {
    World(Durable(Absent), Durable(Absent), Durable(Absent), None, [], [], [])
  }

  predicate At(w: World, stage: Stage) {
    w.run.Some? && w.run.value.stage == stage
  }

  predicate Lives(w: World, child: nat, life: Life) {
    child < |w.children| && w.children[child].life == life
  }

  // ----- steps

  predicate Enabled(w: World, a: Action) {
    match a
    case TakeLock(_) => w.run.None?
    case Draw(_) =>
      At(w, Locked) && w.requested.now == Absent && w.record.now == Absent && w.handle.now == Absent
    case Reuse =>
      At(w, Locked) && w.requested.now == Absent
      && w.record.now.Record? && w.record.now.binding == w.run.value.binding && w.handle.now.Handle?
    case CreateRecord => At(w, Drawn) && w.record.now == Absent
    case FillRecord => At(w, RecordOpen)
    case SyncRecord => At(w, RecordFull)
    case CreateRequest => At(w, RecordSafe) && w.requested.now == Absent
    case SyncRequest => At(w, RequestOpen)
    case Spawn => At(w, RequestSafe)
    case Return => At(w, Waiting) && w.children != [] && w.children[|w.children| - 1].life == Succeeded && w.handle.now.Handle?
    case Unlink => At(w, Returned)
    case SyncUnlink => At(w, Unrequested)
    case Enrol => At(w, Ready)
    case RunEnds => w.run.Some?
    case Look(i) => Lives(w, i, Spawned) && w.handle.now == Absent
    case Ask(i) => Lives(w, i, Asking)
    case Link(i) => Lives(w, i, Asked) && w.handle.now == Absent
    case SyncLink(i) => Lives(w, i, Linked)
    case ChildEnds(i) => i < |w.children| && w.children[i].life != Succeeded
    case PowerLoss(r, h, q) => r in w.record.maybe && h in w.handle.maybe && q in w.requested.maybe
  }

  function Move(w: World, stage: Stage): World
    requires w.run.Some?
  {
    w.(run := Some(w.run.value.(stage := stage)))
  }

  function Become(w: World, child: nat, life: Life): World
    requires child < |w.children|
  {
    w.(children := w.children[child := w.children[child].(life := life)])
  }

  function Apply(w: World, a: Action): World
    requires Enabled(w, a)
  {
    match a
    case TakeLock(binding) => w.(run := Some(Run(Locked, binding, 0)))
    case Draw(secret) => w.(run := Some(Run(Drawn, w.run.value.binding, secret)))
    case Reuse => w.(run := Some(Run(Ready, w.run.value.binding, w.record.now.secret)))
    case CreateRecord => Move(w, RecordOpen).(record := Changed(w.record, Torn))
    case FillRecord => Move(w, RecordFull).(record := Changed(w.record, Record(w.run.value.binding, w.run.value.secret)))
    case SyncRecord => Move(w, RecordSafe).(record := Synced(w.record))
    case CreateRequest => Move(w, RequestOpen).(requested := Changed(w.requested, Mark))
    case SyncRequest => Move(w, RequestSafe).(requested := Synced(w.requested))
    case Spawn => Move(w, Waiting).(children := w.children + [Child(Spawned, w.run.value.secret)])
    case Return => Move(w, Returned)
    case Unlink => Move(w, Unrequested).(requested := Changed(w.requested, Absent))
    case SyncUnlink => Move(w, Ready).(requested := Synced(w.requested))
    case Enrol => Move(w, Enrolling).(enrolled := w.enrolled + [(w.run.value.binding, w.run.value.secret)])
    case RunEnds => w.(run := None)
    case Look(i) => Become(w, i, Asking)
    case Ask(i) => Become(w, i, Asked).(created := w.created + [w.children[i].secret])
    case Link(i) => Become(w, i, Linked).(handle := Changed(w.handle, Handle(w.children[i].secret)))
    case SyncLink(i) => Become(w, i, Succeeded).(handle := Synced(w.handle))
    case ChildEnds(i) => Become(w, i, Dead)
    case PowerLoss(r, h, q) =>
      World(Durable(r), Durable(h), Durable(q), None,
            seq(|w.children|, i requires 0 <= i < |w.children| => Unplugged(w.children[i])), w.created, w.enrolled)
  }

  function Unplugged(c: Child): Child {
    if c.life == Succeeded then c else c.(life := Dead)
  }

  /** Carries out `trace` from `w`; none when some action could not happen there. */
  function Behaviour(w: World, trace: seq<Action>): Option<World>
    decreases |trace|
  {
    if trace == [] then Some(w)
    else if Enabled(w, trace[0]) then Behaviour(Apply(w, trace[0]), trace[1..])
    else None
  }

  // ----- what every step keeps

  /** No creating child was ever started. */
  predicate Fresh(w: World) {
    && w.children == [] && w.created == [] && w.enrolled == [] && w.handle == Durable(Absent)
    && (w.record.now == Absent ==> w.record == Durable(Absent))
  }

  /** Exactly one was, with the secret that credential.json durably holds. */
  predicate Spent(w: World) {
    && |w.children| == 1
    && w.record.now.Record? && w.record == Durable(w.record.now)
    && w.children[0].secret == w.record.now.secret
    && ChildKnows(w, w.children[0].life, w.record.now.secret)
    && (forall e :: e in w.enrolled ==> e == (w.record.now.binding, w.record.now.secret))
  }

  predicate ChildKnows(w: World, life: Life, secret: nat) {
    && (life in {Spawned, Asking} ==> w.created == [])
    && (life in {Asked, Linked, Succeeded} ==> w.created == [secret])
    && (life == Dead ==> w.created == [] || w.created == [secret])
    && (life != Succeeded ==> w.requested == Durable(Mark) && w.enrolled == [])
    && (life in {Spawned, Asking, Asked} ==> w.handle == Durable(Absent))
    && (life == Linked ==> w.handle == File(Handle(secret), {Absent, Handle(secret)}))
    && (life == Succeeded ==> w.handle == Durable(Handle(secret)))
  }

  /** What the run that holds the lock knows at each stage. */
  predicate RunKnows(w: World, run: Run) {
    match run.stage
    case Locked => true
    case Drawn => Fresh(w) && w.requested.now == Absent
    case RecordOpen => Fresh(w) && w.requested.now == Absent && w.record.now == Torn
    case RecordFull => Fresh(w) && w.requested.now == Absent && w.record.now == Record(run.binding, run.secret)
    case RecordSafe => Fresh(w) && w.requested.now == Absent && w.record == Durable(Record(run.binding, run.secret))
    case RequestOpen => Fresh(w) && w.record == Durable(Record(run.binding, run.secret)) && w.requested.now == Mark
    case RequestSafe => Fresh(w) && w.record == Durable(Record(run.binding, run.secret)) && w.requested == Durable(Mark)
    case Waiting => Spent(w) && w.record.now == Record(run.binding, run.secret) && w.requested == Durable(Mark)
    case Returned => Lives(w, 0, Succeeded) && w.record.now == Record(run.binding, run.secret)
    case _ => Lives(w, 0, Succeeded) && w.record.now == Record(run.binding, run.secret) && w.requested.now == Absent
  }

  predicate Inv(w: World) {
    (Fresh(w) || Spent(w)) && (w.run.Some? ==> RunKnows(w, w.run.value))
  }

  lemma StartInv()
    ensures Inv(Initial())
  {
  }

  lemma WritingInv(w: World, a: Action)
    requires Inv(w) && Enabled(w, a)
    requires a.CreateRecord? || a.FillRecord? || a.SyncRecord? || a.CreateRequest? || a.SyncRequest? || a.Spawn?
    ensures Inv(Apply(w, a))
  {
  }

  lemma RunStepInv(w: World, a: Action)
    requires Inv(w) && Enabled(w, a)
    requires a.TakeLock? || a.Draw? || a.Reuse? || a.Return? || a.Unlink? || a.SyncUnlink? || a.Enrol? || a.RunEnds?
    ensures Inv(Apply(w, a))
  {
  }

  lemma ChildStepInv(w: World, a: Action)
    requires Inv(w) && Enabled(w, a)
    requires a.Look? || a.Ask? || a.Link? || a.SyncLink? || a.ChildEnds?
    ensures Inv(Apply(w, a))
  {
    assert Spent(w);
    assert a.child == 0;
  }

  lemma PowerLossInv(w: World, a: Action)
    requires Inv(w) && Enabled(w, a) && a.PowerLoss?
    ensures Inv(Apply(w, a))
  {
  }

  lemma StepInv(w: World, a: Action)
    requires Inv(w) && Enabled(w, a)
    ensures Inv(Apply(w, a))
  {
    hide Inv, Apply, Enabled;
    match a
    case PowerLoss(_, _, _) => PowerLossInv(w, a);
    case Look(_) => ChildStepInv(w, a);
    case Ask(_) => ChildStepInv(w, a);
    case Link(_) => ChildStepInv(w, a);
    case SyncLink(_) => ChildStepInv(w, a);
    case ChildEnds(_) => ChildStepInv(w, a);
    case CreateRecord => WritingInv(w, a);
    case FillRecord => WritingInv(w, a);
    case SyncRecord => WritingInv(w, a);
    case CreateRequest => WritingInv(w, a);
    case SyncRequest => WritingInv(w, a);
    case Spawn => WritingInv(w, a);
    case _ => RunStepInv(w, a);
  }

  lemma {:induction false} BehaviourInv(w: World, trace: seq<Action>)
    requires Inv(w) && Behaviour(w, trace).Some?
    ensures Inv(Behaviour(w, trace).value)
    decreases |trace|
  {
    hide Inv, Apply, Enabled;
    if trace != [] {
      StepInv(w, trace[0]);
      BehaviourInv(Apply(w, trace[0]), trace[1..]);
    }
  }

  // ----- the promises

  predicate Reached(w: World, trace: seq<Action>) {
    Behaviour(Initial(), trace) == Some(w)
  }

  lemma ReachedInv(w: World, trace: seq<Action>)
    requires Reached(w, trace)
    ensures Inv(w)
  {
    StartInv();
    BehaviourInv(Initial(), trace);
  }

  /** Whatever is killed or cut off, Gatekeeper is asked at most once, by at most
      one child, and every enrolment of the account ever started used the secret
      it was asked with. */
  lemma AtMostOnce(w: World, trace: seq<Action>)
    requires Reached(w, trace)
    ensures |w.created| <= 1 && |w.children| <= 1
    ensures forall e :: e in w.enrolled ==> w.created == [e.1] && w.record.now == Record(e.0, e.1)
  {
    ReachedInv(w, trace);
  }

  /** Gatekeeper is only asked with a secret that credential.json already holds and
      with the request mark set, both past any power loss, while no handle exists. */
  lemma AskedOnlyWhenDurable(w: World, trace: seq<Action>, child: nat)
    requires Reached(w, trace) && Enabled(w, Ask(child))
    ensures w.created == []
    ensures w.record.now.Record? && w.record == Durable(w.record.now) && w.record.now.secret == w.children[child].secret
    ensures w.requested == Durable(Mark) && w.handle == Durable(Absent)
  {
    ReachedInv(w, trace);
  }

  /** An enrolment starts only on a complete credential of the same binding. */
  lemma EnrolsOnlyComplete(w: World, trace: seq<Action>)
    requires Reached(w, trace) && Enabled(w, Enrol)
    ensures w.requested.now == Absent
    ensures w.record == Durable(Record(w.run.value.binding, w.run.value.secret))
    ensures w.handle == Durable(Handle(w.run.value.secret))
    ensures w.created == [w.run.value.secret]
  {
    ReachedInv(w, trace);
  }

  /** Once Gatekeeper was asked, no later history, whatever it loses, drops the
      secret: the identity never becomes unusable for want of its credential. */
  lemma SecretOutlives(w: World, trace: seq<Action>, later: World, more: seq<Action>)
    requires Reached(w, trace) && w.created != [] && Behaviour(w, more) == Some(later)
    ensures later.created == w.created && later.record == w.record
    ensures later.record.now.Record? && later.record == Durable(later.record.now) && later.created == [later.record.now.secret]
  {
    ReachedInv(w, trace);
    Remains(w, later, more);
    BehaviourInv(w, more);
  }

  lemma {:induction false} Remains(w: World, later: World, more: seq<Action>)
    requires Inv(w) && w.created != [] && Behaviour(w, more) == Some(later)
    ensures later.created == w.created && later.record == w.record
    decreases |more|
  {
    hide Inv, Apply, Enabled;
    if more != [] {
      StepInv(w, more[0]);
      RemainsStep(w, more[0]);
      Remains(Apply(w, more[0]), later, more[1..]);
    }
  }

  lemma RemainsStep(w: World, a: Action)
    requires Inv(w) && w.created != [] && Enabled(w, a)
    ensures Apply(w, a).created == w.created && Apply(w, a).record == w.record
  {
    assert Spent(w);
  }

  predicate Halted(w: World) {
    && w.requested == Durable(Mark)
    && (w.run.Some? ==> w.run.value.stage == Locked)
    && (forall i :: 0 <= i < |w.children| ==> w.children[i].life in {Dead, Succeeded})
  }

  /** A request left unfinished is final: once its processes are gone, no run ever
      creates or enrols on that account again, and the mark stays. */
  lemma {:induction false} UnfinishedIsFinal(w: World, later: World, more: seq<Action>)
    requires Halted(w) && Behaviour(w, more) == Some(later)
    ensures later.created == w.created && later.enrolled == w.enrolled && later.requested == Durable(Mark)
    decreases |more|
  {
    hide Apply, Enabled;
    if more != [] {
      HaltedStep(w, more[0]);
      UnfinishedIsFinal(Apply(w, more[0]), later, more[1..]);
    }
  }

  lemma HaltedStep(w: World, a: Action)
    requires Halted(w) && Enabled(w, a)
    ensures Halted(Apply(w, a)) && Apply(w, a).created == w.created && Apply(w, a).enrolled == w.enrolled
  {
  }

  // ----- it does complete

  lemma {:induction false} Prepend(w: World, a: Action, rest: seq<Action>, last: World)
    requires Enabled(w, a) && Behaviour(Apply(w, a), rest) == Some(last)
    ensures Behaviour(w, [a] + rest) == Some(last)
  {
    assert ([a] + rest)[1..] == rest;
  }

  /** When nothing fails, a first run creates the credential and enrols with it, and
      any later run for the same binding enrols with the same one. */
  lemma Completes(binding: nat, secret: nat)
    ensures exists trace, w ::
      Reached(w, trace) && w.created == [secret] && w.enrolled == [(binding, secret), (binding, secret)]
  {
    var trace, w := CompletesFromStart(binding, secret, Initial());
    assert Reached(w, trace);
  }

  lemma CompletesFromStart(binding: nat, secret: nat, w0: World) returns (trace: seq<Action>, w: World)
    requires w0 == Initial()
    ensures Behaviour(w0, trace) == Some(w)
    ensures w.created == [secret] && w.enrolled == [(binding, secret), (binding, secret)]
  {
    var w1 := Apply(w0, TakeLock(binding));
    var w2 := Apply(w1, Draw(secret));
    var w3 := Apply(w2, CreateRecord);
    var w4 := Apply(w3, FillRecord);
    var w5 := Apply(w4, SyncRecord);
    var t5;
    t5, w := CompletesFromRecord(binding, secret, w5);
    Prepend(w4, SyncRecord, t5, w);
    var t4 := [SyncRecord] + t5;
    Prepend(w3, FillRecord, t4, w);
    var t3 := [FillRecord] + t4;
    Prepend(w2, CreateRecord, t3, w);
    var t2 := [CreateRecord] + t3;
    Prepend(w1, Draw(secret), t2, w);
    var t1 := [Draw(secret)] + t2;
    Prepend(w0, TakeLock(binding), t1, w);
    trace := [TakeLock(binding)] + t1;
  }

  lemma CompletesFromRecord(binding: nat, secret: nat, w0: World) returns (trace: seq<Action>, w: World)
    requires w0.run == Some(Run(RecordSafe, binding, secret)) && w0.requested == Durable(Absent)
    requires w0.record == Durable(Record(binding, secret)) && w0.handle == Durable(Absent)
    requires w0.children == [] && w0.created == [] && w0.enrolled == []
    ensures Behaviour(w0, trace) == Some(w)
    ensures w.created == [secret] && w.enrolled == [(binding, secret), (binding, secret)]
  {
    var w1 := Apply(w0, CreateRequest);
    var w2 := Apply(w1, SyncRequest);
    var w3 := Apply(w2, Spawn);
    var t3;
    t3, w := CompletesFromSpawn(binding, secret, w3);
    Prepend(w2, Spawn, t3, w);
    var t2 := [Spawn] + t3;
    Prepend(w1, SyncRequest, t2, w);
    var t1 := [SyncRequest] + t2;
    Prepend(w0, CreateRequest, t1, w);
    trace := [CreateRequest] + t1;
  }

  lemma CompletesFromSpawn(binding: nat, secret: nat, w0: World) returns (trace: seq<Action>, w: World)
    requires w0.run == Some(Run(Waiting, binding, secret))
    requires w0.record == Durable(Record(binding, secret)) && w0.handle == Durable(Absent)
    requires w0.children == [Child(Spawned, secret)] && w0.created == [] && w0.enrolled == []
    ensures Behaviour(w0, trace) == Some(w)
    ensures w.created == [secret] && w.enrolled == [(binding, secret), (binding, secret)]
  {
    var w1 := Apply(w0, Look(0));
    var w2 := Apply(w1, Ask(0));
    var t2;
    t2, w := CompletesFromAsked(binding, secret, w2);
    Prepend(w1, Ask(0), t2, w);
    var t1 := [Ask(0)] + t2;
    Prepend(w0, Look(0), t1, w);
    trace := [Look(0)] + t1;
  }

  lemma CompletesFromAsked(binding: nat, secret: nat, w0: World) returns (trace: seq<Action>, w: World)
    requires w0.run == Some(Run(Waiting, binding, secret))
    requires w0.record == Durable(Record(binding, secret)) && w0.handle == Durable(Absent)
    requires w0.children == [Child(Asked, secret)] && w0.created == [secret] && w0.enrolled == []
    ensures Behaviour(w0, trace) == Some(w)
    ensures w.created == [secret] && w.enrolled == [(binding, secret), (binding, secret)]
  {
    var w1 := Apply(w0, Link(0));
    var w2 := Apply(w1, SyncLink(0));
    var t2;
    t2, w := CompletesFromSuccess(binding, secret, w2);
    Prepend(w1, SyncLink(0), t2, w);
    var t1 := [SyncLink(0)] + t2;
    Prepend(w0, Link(0), t1, w);
    trace := [Link(0)] + t1;
  }

  lemma CompletesFromSuccess(binding: nat, secret: nat, w0: World) returns (trace: seq<Action>, w: World)
    requires w0.run == Some(Run(Waiting, binding, secret))
    requires w0.record == Durable(Record(binding, secret)) && w0.handle.now == Handle(secret)
    requires w0.children == [Child(Succeeded, secret)] && w0.created == [secret] && w0.enrolled == []
    ensures Behaviour(w0, trace) == Some(w)
    ensures w.created == [secret] && w.enrolled == [(binding, secret), (binding, secret)]
  {
    var w1 := Apply(w0, Return);
    var w2 := Apply(w1, Unlink);
    var w3 := Apply(w2, SyncUnlink);
    var t3;
    t3, w := CompletesFromReady(binding, secret, w3);
    Prepend(w2, SyncUnlink, t3, w);
    var t2 := [SyncUnlink] + t3;
    Prepend(w1, Unlink, t2, w);
    var t1 := [Unlink] + t2;
    Prepend(w0, Return, t1, w);
    trace := [Return] + t1;
  }

  lemma CompletesFromReady(binding: nat, secret: nat, w0: World) returns (trace: seq<Action>, w: World)
    requires w0.run == Some(Run(Ready, binding, secret))
    requires w0.record.now == Record(binding, secret) && w0.handle.now == Handle(secret) && w0.requested.now == Absent
    ensures Behaviour(w0, trace) == Some(w)
    ensures w.created == w0.created && w.enrolled == w0.enrolled + [(binding, secret), (binding, secret)]
  {
    var w1 := Apply(w0, Enrol);
    var w2 := Apply(w1, RunEnds);
    var w3 := Apply(w2, TakeLock(binding));
    var w4 := Apply(w3, Reuse);
    w := Apply(w4, Enrol);
    assert Behaviour(w, []) == Some(w);
    Prepend(w4, Enrol, [], w);
    var t4 := [Enrol] + [];
    Prepend(w3, Reuse, t4, w);
    var t3 := [Reuse] + t4;
    Prepend(w2, TakeLock(binding), t3, w);
    var t2 := [TakeLock(binding)] + t3;
    Prepend(w1, RunEnds, t2, w);
    var t1 := [RunEnds] + t2;
    Prepend(w0, Enrol, t1, w);
    trace := [Enrol] + t1;
  }
}

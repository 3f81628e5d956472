/** Stage 1's storage gate: when PID 1 may hand over to the persistent root, open
    the development shell or go on to stage 2, with every command free to fail and
    every look at the device nodes free to see something else. */
module Storage {
  import opened Bytes

  type Node = string

  const SDA: Node := "sda"

  datatype Place = Probe | Newroot

  datatype Kernelfs = Proc | Sys | Dev

  /** What the gate did and saw, in order. */
  datatype Event =
    | Listed(listing: Option<seq<Node>>)          // storage_collect_sd_nodes; None when it refused
    | Globbed(nodes: seq<Node>)                   // the block nodes a for loop went over
    | Setro(node: Node) | Setrw(node: Node)       // blockdev, whatever it returned
    | Getro(node: Node, readOnly: Option<bool>)   // None when it failed
    | Mounted(place: Place) | Unmounted(place: Place)
    | RootChecked(place: Place, ok: bool)         // storage_root_ok
    | SlotTool(ok: bool)                          // liuqin-mark-slot-successful
    | Moved(fs: Kernelfs) | MovedBack(fs: Kernelfs)
    | Telnet | Stage2
    | SwitchRoot(snapshot: seq<Node>, target: Node, home: Option<Node>)

  /** What the log up to some point amounts to. */
  datatype Seen = Seen(
    mounted: set<Place>,              // where the persistent root is mounted
    probed: bool,                     // the latest contract check of the probe mount passed
    admitted: bool,                   // one of the new root passed since it was mounted
    moved: set<Kernelfs>,
    slotMarked: bool,
    listed: Option<seq<Node>>,        // the latest listing
    relisted: bool,                   // it equals the one before it
    sinceListed: map<Node, bool>,     // latest read-only answers since then
    globbed: seq<Node>,               // the latest loop's nodes
    sinceSet: map<Node, bool>)        // latest read-only answers since a flag was last touched

  function Nothing(): Seen {
    Seen({}, false, false, {}, false, None, false, map[], [], map[])
  }

  function Answered(m: map<Node, bool>, node: Node, readOnly: Option<bool>): map<Node, bool> {
    if readOnly.Some? then m[node := readOnly.value] else m - {node}
  }

  function Step(s: Seen, e: Event): Seen {
    match e
    case Listed(nodes) => s.(listed := nodes, relisted := nodes == s.listed, sinceListed := map[])
    case Globbed(nodes) => s.(globbed := nodes)
    case Setro(_) => s.(sinceListed := map[], sinceSet := map[])
    case Setrw(_) => s.(sinceListed := map[], sinceSet := map[])
    case Getro(node, readOnly) =>
      s.(sinceListed := Answered(s.sinceListed, node, readOnly), sinceSet := Answered(s.sinceSet, node, readOnly))
    case Mounted(place) => s.(mounted := s.mounted + {place}, admitted := s.admitted && place != Newroot)
    case Unmounted(place) => s.(mounted := s.mounted - {place})
    case RootChecked(place, ok) => if place == Probe then s.(probed := ok) else s.(admitted := ok)
    case SlotTool(ok) => s.(slotMarked := ok, sinceListed := map[], sinceSet := map[])
    case Moved(fs) => s.(moved := s.moved + {fs})
    case MovedBack(fs) => s.(moved := s.moved - {fs})
    case _ => s
  }

  function Watch(log: seq<Event>): Seen {
    if log == [] then Nothing() else Step(Watch(log[..|log| - 1]), log[|log| - 1])
  }

  // ----- what each way out demands

  /** The nodes a successful boot leaves writable. */
  function Writable(target: Node, home: Option<Node>): set<Node> {
    {SDA, target} + if home.Some? then {home.value} else {}
  }

  /** The latest check saw the namespace of the snapshot, and in it exactly the
      parent, the target and the home node writable. */
  ghost predicate Exactly(s: Seen, snapshot: seq<Node>, target: Node, home: Option<Node>) {
    && s.listed == Some(snapshot)
    && (forall n :: n in snapshot || n in Writable(target, home) ==>
          n in s.sinceListed && (s.sinceListed[n] <==> n !in Writable(target, home)))
  }

  predicate SawWritable(s: Seen, node: Node) {
    node in s.sinceListed && !s.sinceListed[node]
  }

  ghost predicate Ready(s: Seen, snapshot: seq<Node>, target: Node, home: Option<Node>) {
    && Exactly(s, snapshot, target, home)
    && SDA in snapshot && target in snapshot && (home.Some? ==> home.value in snapshot)
    && s.mounted == {Newroot} && s.probed && s.admitted
    && s.moved == {Proc, Sys, Dev} && s.slotMarked
  }

  /** Since any flag was touched every node of the latest listing answered read-only. */
  ghost predicate Verified(s: Seen) {
    s.listed.Some? && forall n :: n in s.listed.value ==> n in s.sinceSet && s.sinceSet[n]
  }

  /** The last loop went over every node of the latest listing. */
  ghost predicate Steady(s: Seen) {
    s.listed.Some? && forall n :: n in s.listed.value ==> n in s.globbed
  }

  /** The namespace was listable and not empty, and since any flag was touched every
      node asked about was read-only, among them all that the last loop saw. */
  ghost predicate Quiet(s: Seen) {
    && s.listed.Some? && s.listed.value != []
    && (forall n :: n in s.globbed ==> n in s.sinceSet)
    && (forall n :: n in s.sinceSet ==> s.sinceSet[n])
  }

  /** That, between two equal listings, or with every listed node verified. */
  ghost predicate Sealed(s: Seen) {
    Quiet(s) && (s.relisted || Verified(s))
  }

  lemma SteadyIsVerified(s: Seen)
    requires Sealed(s) && Steady(s)
    ensures Verified(s)
  {
  }

  ghost predicate Shut(s: Seen) {
    s.mounted == {} && Sealed(s)
  }

  /** Whether `e` may happen after what was seen. */
  ghost predicate Fair(s: Seen, e: Event) {
    match e
    case Telnet => Shut(s)
    case Stage2 => Shut(s)
    case SwitchRoot(snapshot, target, home) => Ready(s, snapshot, target, home)
    case _ => true
  }

  /** The events that leave the gate. */
  predicate Way(e: Event) {
    e.Telnet? || e.Stage2? || e.SwitchRoot?
  }

  function WaysOut(log: seq<Event>): seq<Event> {
    if log == [] then []
    else WaysOut(log[..|log| - 1]) + if Way(log[|log| - 1]) then [log[|log| - 1]] else []
  }

  ghost predicate Proper(log: seq<Event>) {
    log == [] || (Proper(log[..|log| - 1]) && Fair(Watch(log[..|log| - 1]), log[|log| - 1]))
  }

  lemma {:induction false} ProperEverywhere(log: seq<Event>, i: nat)
    requires Proper(log) && i < |log|
    ensures Fair(Watch(log[..i]), log[i])
    decreases |log|
  {
    if i < |log| - 1 {
      assert log[..|log| - 1][..i] == log[..i];
      ProperEverywhere(log[..|log| - 1], i);
    }
  }

  // ----- the summary says what the log says

  lemma AnsweredMeans(m: map<Node, bool>, asked: Node, readOnly: Option<bool>, node: Node)
    ensures asked == node && node in Answered(m, asked, readOnly) ==> readOnly == Some(Answered(m, asked, readOnly)[node])
    ensures asked != node && node in Answered(m, asked, readOnly) ==> node in m && Answered(m, asked, readOnly)[node] == m[node]
  {
  }

  lemma StepSet(s: Seen, e: Event, node: Node)
    ensures e.Getro? && e.node == node && node in Step(s, e).sinceSet ==> e.readOnly == Some(Step(s, e).sinceSet[node])
    ensures !(e.Getro? && e.node == node) && node in Step(s, e).sinceSet ==>
              node in s.sinceSet && Step(s, e).sinceSet[node] == s.sinceSet[node]
    ensures e.Setro? || e.Setrw? || e.SlotTool? ==> node !in Step(s, e).sinceSet
  {
    hide Answered;
    if e.Getro? {
      AnsweredMeans(s.sinceSet, e.node, e.readOnly, node);
    }
    match e {
      case Listed(_) => case Globbed(_) => case Setro(_) => case Setrw(_) => case Getro(_, _) =>
      case Mounted(_) => case Unmounted(_) => case RootChecked(_, _) => case SlotTool(_) =>
      case Moved(_) => case MovedBack(_) => case Telnet => case Stage2 => case SwitchRoot(_, _, _) =>
    }
  }

  lemma StepListed(s: Seen, e: Event, node: Node)
    ensures e.Getro? && e.node == node && node in Step(s, e).sinceListed ==> e.readOnly == Some(Step(s, e).sinceListed[node])
    ensures !(e.Getro? && e.node == node) && node in Step(s, e).sinceListed ==>
              node in s.sinceListed && Step(s, e).sinceListed[node] == s.sinceListed[node]
    ensures e.Setro? || e.Setrw? || e.SlotTool? || e.Listed? ==> node !in Step(s, e).sinceListed
  {
    hide Answered;
    if e.Getro? {
      AnsweredMeans(s.sinceListed, e.node, e.readOnly, node);
    }
    match e {
      case Listed(_) => case Globbed(_) => case Setro(_) => case Setrw(_) => case Getro(_, _) =>
      case Mounted(_) => case Unmounted(_) => case RootChecked(_, _) => case SlotTool(_) =>
      case Moved(_) => case MovedBack(_) => case Telnet => case Stage2 => case SwitchRoot(_, _, _) =>
    }
  }

  /** A remembered answer is the latest one about its node, newer than any flag change. */
  lemma {:induction false} AnswerIsLatest(log: seq<Event>, node: Node) returns (at: nat)
    requires node in Watch(log).sinceSet
    ensures at < |log| && log[at] == Getro(node, Some(Watch(log).sinceSet[node]))
    ensures forall k :: at < k < |log| ==> !log[k].Setro? && !log[k].Setrw? && !log[k].SlotTool? && !(log[k].Getro? && log[k].node == node)
    decreases |log|
  {
    hide Step;
    var before, last := log[..|log| - 1], log[|log| - 1];
    StepSet(Watch(before), last, node);
    if last.Getro? && last.node == node {
      at := |log| - 1;
    } else {
      at := AnswerIsLatest(before, node);
    }
  }

  /** An answer since the latest listing is newer than that listing as well. */
  lemma {:induction false} ListedAnswerIsLatest(log: seq<Event>, node: Node) returns (at: nat)
    requires node in Watch(log).sinceListed
    ensures at < |log| && log[at] == Getro(node, Some(Watch(log).sinceListed[node]))
    ensures forall k :: at < k < |log| ==> !log[k].Listed? && !log[k].Setro? && !log[k].Setrw? && !(log[k].Getro? && log[k].node == node)
    decreases |log|
  {
    hide Step;
    var before, last := log[..|log| - 1], log[|log| - 1];
    StepListed(Watch(before), last, node);
    if last.Getro? && last.node == node {
      at := |log| - 1;
    } else {
      at := ListedAnswerIsLatest(before, node);
    }
  }

  ghost predicate StandsSince(log: seq<Event>, place: Place, i: nat) {
    i < |log| && log[i] == Mounted(place) && forall k :: i < k < |log| ==> log[k] != Unmounted(place)
  }

  lemma StepMounted(s: Seen, e: Event, place: Place)
    ensures place in Step(s, e).mounted <==> e == Mounted(place) || (place in s.mounted && e != Unmounted(place))
  {
    match e {
      case Listed(_) => case Globbed(_) => case Setro(_) => case Setrw(_) => case Getro(_, _) =>
      case Mounted(_) => case Unmounted(_) => case RootChecked(_, _) => case SlotTool(_) =>
      case Moved(_) => case MovedBack(_) => case Telnet => case Stage2 => case SwitchRoot(_, _, _) =>
    }
  }

  /** A place is mounted exactly when some mount of it was not undone since. */
  lemma {:induction false} MountedMeans(log: seq<Event>, place: Place)
    ensures place in Watch(log).mounted <==> exists i :: StandsSince(log, place, i)
    decreases |log|
  {
    hide Step;
    if log != [] {
      var before, last := log[..|log| - 1], log[|log| - 1];
      MountedMeans(before, place);
      StepMounted(Watch(before), last, place);
      if last == Mounted(place) {
        assert StandsSince(log, place, |before|);
      } else if last != Unmounted(place) {
        StandsLonger(before, log, place);
      } else {
        forall i: nat ensures !StandsSince(log, place, i) {
          assert i < |before| ==> log[|before|] == Unmounted(place);
        }
      }
    }
  }

  lemma StandsLonger(before: seq<Event>, log: seq<Event>, place: Place)
    requires log != [] && before == log[..|log| - 1]
    requires log[|log| - 1] != Mounted(place) && log[|log| - 1] != Unmounted(place)
    ensures (exists i :: StandsSince(log, place, i)) <==> (exists i :: StandsSince(before, place, i))
  {
    forall i: nat ensures StandsSince(log, place, i) <==> StandsSince(before, place, i) {
      if StandsSince(log, place, i) {
        assert forall k :: i < k < |before| ==> before[k] == log[k];
      }
    }
  }

  /** Two views that agree on all but the read-only answers. */
  predicate SameMounts(a: Seen, b: Seen) {
    a.mounted == b.mounted && a.probed == b.probed && a.admitted == b.admitted && a.moved == b.moved && a.slotMarked == b.slotMarked
  }

  lemma OnlyPlaces(places: set<Place>)
    ensures Newroot !in places && Probe !in places ==> places == {}
    ensures Newroot in places && Probe !in places ==> places == {Newroot}
  {
    forall p | p in places ensures p == Newroot || p == Probe {
    }
  }

  // ----- one lock, as the machine answers it

  /** What `storage_lock_all` meets: the listing before, the nodes of its first loop
      with the outcome of each `--setro`, those of its second with their answers, and
      the listing after. The four looks need not agree. */
  datatype LockReplies = LockReplies(
    before: Option<seq<Node>>, sets: seq<(Node, bool)>, gets: seq<(Node, Option<bool>)>, after: Option<seq<Node>>)

  /** `storage_collect_sd_nodes` refuses an empty namespace. */
  function Listing(nodes: Option<seq<Node>>): Option<seq<Node>> {
    if nodes == Some([]) then None else nodes
  }

  function NodesOf<T>(pairs: seq<(Node, T)>): (nodes: seq<Node>)
    ensures |nodes| == |pairs| && forall i :: 0 <= i < |pairs| ==> nodes[i] == pairs[i].0
  {
    seq(|pairs|, i requires 0 <= i < |pairs| => pairs[i].0)
  }

  function SetEvents(nodes: seq<Node>): seq<Event> {
    seq(|nodes|, i requires 0 <= i < |nodes| => Setro(nodes[i]))
  }

  function GetEvents(pairs: seq<(Node, Option<bool>)>): seq<Event> {
    seq(|pairs|, i requires 0 <= i < |pairs| => Getro(pairs[i].0, pairs[i].1))
  }

  /** What the lock does to the log. */
  function LockLog(w: LockReplies): seq<Event> {
    [Listed(Listing(w.before)), Globbed(NodesOf(w.sets))] + SetEvents(NodesOf(w.sets))
    + if w.sets == [] then [] else [Globbed(NodesOf(w.gets))] + GetEvents(w.gets) + [Listed(Listing(w.after))]
  }

  predicate LockOk(w: LockReplies) {
    && Listing(w.before).Some? && Listing(w.after) == Listing(w.before)
    && w.sets != [] && (forall i :: 0 <= i < |w.sets| ==> w.sets[i].1)
    && (forall i :: 0 <= i < |w.gets| ==> w.gets[i].1 == Some(true))
  }

  // ----- one persistent boot, as the machine answers it

  /** The reply at position `i`; a command that is not there to answer fails. */
  function Reply(replies: seq<Option<bool>>, i: nat): Option<bool> {
    if i < |replies| then replies[i] else None
  }

  /** A node that a persistent boot keeps read-only. */
  predicate Closed(node: Node, target: Node, home: Option<Node>) {
    node != SDA && node != target && home != Some(node)
  }

  /** What `storage_snapshot_persistent_ok` meets: a listing, path tests, the answers
      of the parent, the target and the home node, and those of the others by their
      places in the snapshot. */
  datatype CheckReplies = CheckReplies(
    listing: Option<seq<Node>>, canonical: bool, parent: Option<bool>, target: Option<bool>,
    homeCanonical: bool, home: Option<bool>, others: seq<Option<bool>>)

  predicate CheckOk(r: CheckReplies, snapshot: seq<Node>, target: Node, home: Option<Node>) {
    && Listing(r.listing) == Some(snapshot) && r.canonical
    && r.parent == Some(false) && r.target == Some(false) && (home.Some? ==> r.homeCanonical && r.home == Some(false))
    && forall i :: 0 <= i < |snapshot| && Closed(snapshot[i], target, home) ==> Reply(r.others, i) == Some(true)
  }

  function ClosedAnswers(nodes: seq<Node>, target: Node, home: Option<Node>): seq<Event> {
    if nodes == [] then []
    else
      var last := nodes[|nodes| - 1];
      ClosedAnswers(nodes[..|nodes| - 1], target, home) + if Closed(last, target, home) then [Getro(last, Some(true))] else []
  }

  /** What a check that succeeds leaves in the log. */
  function CheckLog(snapshot: seq<Node>, target: Node, home: Option<Node>): seq<Event> {
    [Listed(Some(snapshot)), Getro(SDA, Some(false)), Getro(target, Some(false))]
    + (if home.Some? then [Getro(home.value, Some(false))] else []) + ClosedAnswers(snapshot, target, home)
  }

  lemma ClosedNext(nodes: seq<Node>, target: Node, home: Option<Node>, i: nat)
    requires i < |nodes|
    ensures ClosedAnswers(nodes[..i + 1], target, home)
         == ClosedAnswers(nodes[..i], target, home) + if Closed(nodes[i], target, home) then [Getro(nodes[i], Some(true))] else []
    ensures ClosedAnswers(nodes[..0], target, home) == [] && nodes[..|nodes|] == nodes
  {
    assert nodes[..i + 1][..i] == nodes[..i];
  }

  lemma ClosingNext(paths: seq<Node>, target: Node, home: Option<Node>, i: nat)
    requires i < |paths|
    ensures Closing(paths[..i + 1], target, home)
         == Closing(paths[..i], target, home) + if Closed(paths[i], target, home) then [Setro(paths[i])] else []
  {
    assert paths[..i + 1][..i] == paths[..i];
  }

  function Closing(paths: seq<Node>, target: Node, home: Option<Node>): seq<Event> {
    if paths == [] then []
    else
      var last := paths[|paths| - 1];
      Closing(paths[..|paths| - 1], target, home) + if Closed(last, target, home) then [Setro(last)] else []
  }

  /** What `storage_prepare_persistent_root` meets, in order: the target and home it
      resolves; the probe's mount, contract check and umount; the listing; the three
      `--setrw`; the loop's nodes with the outcome of each `--setro`; a check; the
      mount, the bind and the umount of the volume; the contract check; a check. */
  datatype PrepareReplies = PrepareReplies(
    identity: Option<(Node, Option<Node>)>, probe: bool, probeContract: bool, probeOff: bool, listing: Option<seq<Node>>,
    parent: bool, target: bool, home: bool, globbed: seq<(Node, bool)>, beforeMount: CheckReplies,
    volume: bool, root: bool, volumeOff: bool, rootContract: bool, afterMount: CheckReplies)

  /** What an abort meets: the two umounts, its lock, and its look at the snapshot. */
  datatype AbortReplies = AbortReplies(
    root: bool, probe: bool, lock: LockReplies, listing: Option<seq<Node>>, canonical: bool, answers: seq<Option<bool>>)

  /** The whole persistent branch: preparation; the slot suffix and the three calls of
      the slot marker; the switch; what an abort and the lock after it would meet;
      whether the USB network is up. */
  datatype PersistReplies = PersistReplies(
    prepare: PrepareReplies, suffix: bool, already: bool, marked: bool, confirmed: bool,
    beforeSwitch: CheckReplies, proc: bool, sys: bool, dev: bool, lastCheck: CheckReplies,
    abort: AbortReplies, relock: LockReplies, usb: bool)

  /** The reply that stops a persistent boot: the first one that is not favourable. */
  datatype Cause =
    | Identity | ProbeMount | ProbeContract | ProbeUmount | Snapshot | ParentKeptShut | TargetKeptShut | SiblingKeptOpen
    | StateBeforeMount | VolumeMount | RootMount | VolumeUmount | RootContract | StateAfterMount
    | Slot | StateBeforeSwitch | Move | LastState | NoCause

  function Nodes(r: PrepareReplies): seq<Node> {
    if r.listing.Some? then r.listing.value else []
  }

  function Target(r: PrepareReplies): Node {
    if r.identity.Some? then r.identity.value.0 else ""
  }

  /** The home node that is asked to open: one that was resolved and is listed. */
  function Asked(r: PrepareReplies): Option<Node> {
    if r.identity.Some? && r.identity.value.1.Some? && r.identity.value.1.value in Nodes(r) then r.identity.value.1 else None
  }

  /** The one that lets itself be opened. */
  function Home(r: PrepareReplies): Option<Node> {
    if r.home then Asked(r) else None
  }

  predicate SiblingsShut(globbed: seq<(Node, bool)>, target: Node, home: Option<Node>) {
    forall i :: 0 <= i < |globbed| && Closed(globbed[i].0, target, home) ==> globbed[i].1
  }

  function ProbeCause(r: PrepareReplies): Cause {
    if r.identity.None? then Identity
    else if !r.probe then ProbeMount
    else if !r.probeContract then ProbeContract
    else if !r.probeOff then ProbeUmount
    else if SDA !in Nodes(r) || Target(r) !in Nodes(r) then Snapshot
    else NoCause
  }

  function OpenCause(r: PrepareReplies): Cause {
    if !r.parent then ParentKeptShut
    else if !r.target then TargetKeptShut
    else if !SiblingsShut(r.globbed, Target(r), Home(r)) then SiblingKeptOpen
    else if !CheckOk(r.beforeMount, Nodes(r), Target(r), Home(r)) then StateBeforeMount
    else NoCause
  }

  function MountCause(subroot: bool, r: PrepareReplies): Cause {
    if subroot && !r.volume then VolumeMount
    else if !r.root then RootMount
    else if subroot && !r.volumeOff then VolumeUmount
    else NoCause
  }

  function PrepareCause(subroot: bool, r: PrepareReplies): Cause {
    if ProbeCause(r) != NoCause then ProbeCause(r)
    else if OpenCause(r) != NoCause then OpenCause(r)
    else if MountCause(subroot, r) != NoCause then MountCause(subroot, r)
    else if !r.rootContract then RootContract
    else if !CheckOk(r.afterMount, Nodes(r), Target(r), Home(r)) then StateAfterMount
    else NoCause
  }

  function SwitchCause(r: PersistReplies): Cause {
    if !CheckOk(r.beforeSwitch, Nodes(r.prepare), Target(r.prepare), Home(r.prepare)) then StateBeforeSwitch
    else if !r.proc || !r.sys || !r.dev then Move
    else if !CheckOk(r.lastCheck, Nodes(r.prepare), Target(r.prepare), Home(r.prepare)) then LastState
    else NoCause
  }

  function PersistCause(subroot: bool, r: PersistReplies): Cause {
    if PrepareCause(subroot, r.prepare) != NoCause then PrepareCause(subroot, r.prepare)
    else if !(r.suffix && (r.already || (r.marked && r.confirmed))) then Slot
    else SwitchCause(r)
  }

  /** What an abort for this cause finds mounted, and whether there is a snapshot. */
  predicate ProbeLeft(c: Cause, subroot: bool) {
    c == ProbeContract || c == ProbeUmount || c == VolumeUmount || (c == RootMount && subroot)
  }

  predicate RootLeft(c: Cause) {
    c == VolumeUmount || c == RootContract || c == StateAfterMount || c == Slot || c == StateBeforeSwitch || c == Move || c == LastState
  }

  predicate SnapshotTaken(c: Cause) {
    !(c == Identity || c == ProbeMount || c == ProbeContract || c == ProbeUmount || c == Snapshot)
  }

  predicate AbortOk(a: AbortReplies, root: bool, probe: bool, taken: bool, snapshot: seq<Node>) {
    && (root ==> a.root) && (probe ==> a.probe) && LockOk(a.lock)
    && (taken ==> Listing(a.listing) == Some(snapshot) && a.canonical && forall i :: 0 <= i < |snapshot| ==> Reply(a.answers, i) == Some(true))
  }

  /** Whether a boot that was stopped ends sealed: its abort works and, unless the slot
      stopped it, the lock after it. */
  predicate Rescued(c: Cause, subroot: bool, r: PersistReplies) {
    && AbortOk(r.abort, RootLeft(c), ProbeLeft(c, subroot), SnapshotTaken(c), Nodes(r.prepare))
    && (c != Slot ==> LockOk(r.relock))
  }

  /** The ways out a boot takes. */
  function Ways(persistent: bool, usb: bool, subroot: bool, first: LockReplies, r: PersistReplies): seq<Event> {
    if !LockOk(first) then []
    else if !persistent then Offers(usb, true)
    else
      var c := PersistCause(subroot, r);
      if c == NoCause then [SwitchRoot(Nodes(r.prepare), Target(r.prepare), Home(r.prepare))]
      else Offers(r.usb, Rescued(c, subroot, r))
  }

  /** What a boot goes on to that does not hand over. */
  function Offers(usb: bool, locked: bool): seq<Event> {
    if !locked then [] else (if usb then [Telnet] else []) + [Stage2]
  }

  /** What a persistent boot that nothing stops does: up to the flags; */
  function Opening(nodes: seq<Node>, target: Node, asked: Option<Node>, home: Option<Node>, paths: seq<Node>): seq<Event> {
    [Mounted(Probe), RootChecked(Probe, true), Unmounted(Probe), Listed(Some(nodes)), Setrw(SDA), Setrw(target)]
    + (if asked.Some? then [Setrw(asked.value)] else []) + [Globbed(paths)] + Closing(paths, target, home)
  }

  /** That with a check, and the rest, in the parts it is done in. */
  function ProbeLog(nodes: seq<Node>): seq<Event> {
    [Mounted(Probe), RootChecked(Probe, true), Unmounted(Probe), Listed(Some(nodes))]
  }

  function OpenLog(nodes: seq<Node>, target: Node, asked: Option<Node>, home: Option<Node>, paths: seq<Node>): seq<Event> {
    [Setrw(SDA), Setrw(target)] + (if asked.Some? then [Setrw(asked.value)] else [])
    + [Globbed(paths)] + Closing(paths, target, home) + CheckLog(nodes, target, home)
  }

  function AdmitLog(subroot: bool, nodes: seq<Node>, target: Node, home: Option<Node>): seq<Event> {
    (if subroot then [Mounted(Probe), Mounted(Newroot), Unmounted(Probe)] else [Mounted(Newroot)])
    + [RootChecked(Newroot, true)] + CheckLog(nodes, target, home)
  }

  /** up to the prepared root; */
  function PrepareLog(subroot: bool, nodes: seq<Node>, target: Node, asked: Option<Node>, home: Option<Node>, paths: seq<Node>): seq<Event> {
    Opening(nodes, target, asked, home, paths) + CheckLog(nodes, target, home)
    + (if subroot then [Mounted(Probe), Mounted(Newroot), Unmounted(Probe)] else [Mounted(Newroot)])
    + [RootChecked(Newroot, true)] + CheckLog(nodes, target, home)
  }

  /** from the marked slot on; */
  function SwitchLog(nodes: seq<Node>, target: Node, home: Option<Node>): seq<Event> {
    CheckLog(nodes, target, home) + [Moved(Proc), Moved(Sys), Moved(Dev)] + CheckLog(nodes, target, home) + [SwitchRoot(nodes, target, home)]
  }

  /** all of it. */
  function Handover(subroot: bool, r: PrepareReplies): seq<Event> {
    PrepareLog(subroot, Nodes(r), Target(r), Asked(r), Home(r), NodesOf(r.globbed)) + [SlotTool(true)]
    + SwitchLog(Nodes(r), Target(r), Home(r))
  }

  // ----- the gate

  /** The shell's global variables. */
  class Gate {
    const subroot: bool      // the profile keeps its root in a subdirectory
    var target: Node
    var home: Option<Node>
    var snapshot: seq<Node>
    var snapshotTaken: bool
    var probeMounted: bool
    var rootMounted: bool
    var fallbackSafe: bool
    var ufsSafe: bool
    ghost var log: seq<Event>
    ghost var seen: Seen
    ghost var ways: seq<Event>

    constructor (subroot: bool)
      ensures Valid() && !rootMounted && !probeMounted && log == [] && seen == Nothing() && this.subroot == subroot
    {
      this.subroot := subroot;
      target, home, snapshot, snapshotTaken := "", None, [], false;
      probeMounted, rootMounted, fallbackSafe, ufsSafe := false, false, true, false;
      log, seen, ways := [], Nothing(), [];
    }

    /** Every way out taken so far was a fair one. */
    ghost predicate Watched()
      reads this
    {
      seen == Watch(log) && Proper(log) && ways == WaysOut(log)
    }

    ghost predicate Valid()
      reads this
    {
      Watched() && (rootMounted <==> Newroot in seen.mounted) && (probeMounted <==> Probe in seen.mounted)
    }

    /** An event that does not leave the gate. */
    ghost method Record(e: Event)
      requires Watched() && !Way(e)
      modifies this`log, this`seen
      ensures Watched() && log == old(log) + [e] && seen == Step(old(seen), e)
    {
      assert (log + [e])[..|log|] == log;
      log := log + [e];
      seen := Step(seen, e);
    }

    /** One that does, and is fair. */
    ghost method Leave(e: Event)
      requires Watched() && Fair(seen, e) && Way(e)
      modifies this`log, this`seen, this`ways
      ensures Watched() && log == old(log) + [e] && seen == old(seen) && ways == old(ways) + [e]
    {
      assert (log + [e])[..|log|] == log;
      log := log + [e];
      seen := Step(seen, e);
      ways := ways + [e];
    }

    /** An event that lists, loops, sets or asks, with what it changes in the view. */
    ghost method Note(e: Event)
      requires Valid() && (e.Listed? || e.Globbed? || e.Setro? || e.Getro?)
      modifies this`log, this`seen
      ensures Valid() && log == old(log) + [e] && SameMounts(seen, old(seen))
      ensures seen.listed == if e.Listed? then e.listing else old(seen).listed
      ensures e.Listed? ==> (seen.relisted <==> e.listing == old(seen).listed)
      ensures seen.globbed == if e.Globbed? then e.nodes else old(seen).globbed
      ensures seen.sinceSet == if e.Setro? then map[] else if e.Getro? then Answered(old(seen).sinceSet, e.node, e.readOnly) else old(seen).sinceSet
    {
      hide Watch, WaysOut, Proper;
      Record(e);
    }

    // ----- commands

    /** `storage_collect_sd_nodes`: refuses an empty namespace and any entry that is
        not a canonical block device. */
    method Collect(listing: Option<seq<Node>>) returns (nodes: Option<seq<Node>>)
      requires Watched()
      modifies this`log, this`seen
      ensures Watched() && nodes == Listing(listing) && seen == Step(old(seen), Listed(nodes)) && log == old(log) + [Listed(nodes)]
    {
      hide Watch, WaysOut, Proper;
      nodes := listing;
      if nodes == Some([]) {
        nodes := None;
      }
      Record(Listed(nodes));
    }

    method IsReadOnly(node: Node, answer: Option<bool>)
      requires Watched()
      modifies this`log, this`seen
      ensures Watched() && SameMounts(seen, old(seen)) && seen.listed == old(seen).listed && seen.globbed == old(seen).globbed
      ensures seen.sinceListed == Answered(old(seen).sinceListed, node, answer)
      ensures seen.sinceSet == Answered(old(seen).sinceSet, node, answer)
      ensures log == old(log) + [Getro(node, answer)]
    {
      hide Watch, WaysOut, Proper;
      Record(Getro(node, answer));
    }

    method Mount(place: Place, ok: bool)
      requires Watched()
      modifies this`log, this`seen
      ensures Watched() && log == old(log) + if ok then [Mounted(place)] else []
      ensures seen == if ok then old(seen).(mounted := old(seen).mounted + {place},
                                            admitted := old(seen).admitted && place != Newroot) else old(seen)
    {
      hide Watch, WaysOut, Proper;
      if ok {
        Record(Mounted(place));
      }
    }

    method Unmount(place: Place, ok: bool)
      requires Watched()
      modifies this`log, this`seen
      ensures Watched() && log == old(log) + if ok then [Unmounted(place)] else []
      ensures seen == if ok then old(seen).(mounted := old(seen).mounted - {place}) else old(seen)
    {
      hide Watch, WaysOut, Proper;
      if ok {
        Record(Unmounted(place));
      }
    }

    method RootOk(place: Place, ok: bool)
      requires Watched()
      modifies this`log, this`seen
      ensures Watched() && seen == Step(old(seen), RootChecked(place, ok)) && log == old(log) + [RootChecked(place, ok)]
    {
      hide Watch, WaysOut, Proper;
      Record(RootChecked(place, ok));
    }

    /** A flag is set or cleared, or a loop begins. */
    method Touch(e: Event)
      requires Valid() && (e.Setro? || e.Setrw? || e.Globbed?)
      modifies this`log, this`seen
      ensures Valid() && SameMounts(seen, old(seen)) && log == old(log) + [e]
    {
      hide Watch, WaysOut, Proper;
      Record(e);
    }

    // ----- checks

    /** `storage_snapshot_sd_nodes` */
    method TakeSnapshot(listing: Option<seq<Node>>) returns (ok: bool)
      requires Valid() && !snapshotTaken
      modifies this`log, this`seen, this`snapshot, this`snapshotTaken, this`home
      ensures Valid() && SameMounts(seen, old(seen)) && log == old(log) + [Listed(Listing(listing))]
      ensures ok == snapshotTaken
      ensures ok <==> listing.Some? && SDA in listing.value && target in listing.value
      ensures ok ==> snapshot == listing.value && home == if old(home).Some? && old(home).value in snapshot then old(home) else None
    {
      hide Watch, WaysOut, Proper;
      var nodes := Collect(listing);
      if nodes.None? {
        return false;
      }
      snapshot := nodes.value;
      var hasParent, hasTarget, hasHome := false, false, false;
      for i := 0 to |snapshot|
        invariant hasParent <==> SDA in snapshot[..i]
        invariant hasTarget <==> target in snapshot[..i]
        invariant hasHome <==> home.Some? && home.value in snapshot[..i]
      {
        var block := snapshot[i];
        assert snapshot[..i + 1] == snapshot[..i] + [block];
        hasParent := hasParent || block == SDA;
        hasTarget := hasTarget || block == target;
        hasHome := hasHome || home == Some(block);
      }
      assert snapshot[..|snapshot|] == snapshot;
      if !hasParent || !hasTarget {
        return false;
      }
      if home.Some? && !hasHome {
        home := None;
      }
      snapshotTaken := true;
      return true;
    }

    /** `storage_lock_all`: it succeeds exactly when the two listings agree and every
        call of its loops did; every listed node is then verified exactly if the
        second loop went over all of them. */
    method LockAll(w: LockReplies) returns (ok: bool)
      requires Valid()
      modifies this`log, this`seen
      ensures Valid() && SameMounts(seen, old(seen))
      ensures log == old(log) + LockLog(w) && ok == LockOk(w)
      ensures ok ==> seen.relisted && seen.listed == w.before && seen.globbed == NodesOf(w.gets)
      ensures ok ==> Sealed(seen) && (Verified(seen) <==> Steady(seen))
    {
      hide Watch, WaysOut, Proper, Step, Fair, Sealed, Verified, Steady, LockLog, LockOk, SetEvents, GetEvents, Listing;
      LockParts(w);
      Note(Listed(Listing(w.before)));
      var lockOk := SetAll(w.sets);
      if w.sets == [] {
        return false;
      }
      lockOk := VerifyLocked(w.gets, lockOk);
      Note(Listed(Listing(w.after)));
      ok := lockOk && Listing(w.before).Some? && Listing(w.after) == Listing(w.before);
      if ok {
        LockedMeans(seen);
      }
    }

    lemma LockParts(w: LockReplies)
      ensures LockLog(w) == [Listed(Listing(w.before))] + ([Globbed(NodesOf(w.sets))] + SetEvents(NodesOf(w.sets)))
                            + if w.sets == [] then [] else ([Globbed(NodesOf(w.gets))] + GetEvents(w.gets)) + [Listed(Listing(w.after))]
      ensures LockOk(w) <==>
                && w.sets != [] && (forall i :: 0 <= i < |w.sets| ==> w.sets[i].1) && (forall i :: 0 <= i < |w.gets| ==> w.gets[i].1 == Some(true))
                && Listing(w.before).Some? && Listing(w.after) == Listing(w.before)
      ensures Listing(w.before).Some? ==> Listing(w.before) == w.before && w.before.value != []
    {
      hide SetEvents, GetEvents;
    }

    /** When what was asked about is what the last loop saw. */
    lemma LockedMeans(s: Seen)
      requires s.listed.Some? && s.listed.value != [] && s.relisted
      requires forall n :: n in s.globbed <==> n in s.sinceSet
      requires forall n :: n in s.sinceSet ==> s.sinceSet[n]
      ensures Sealed(s) && (Verified(s) <==> Steady(s))
    {
    }

    /** The first loop. */
    method SetAll(sets: seq<(Node, bool)>) returns (ok: bool)
      requires Valid()
      modifies this`log, this`seen
      ensures Valid() && SameMounts(seen, old(seen)) && seen.listed == old(seen).listed
      ensures log == old(log) + [Globbed(NodesOf(sets))] + SetEvents(NodesOf(sets))
      ensures ok <==> forall k :: 0 <= k < |sets| ==> sets[k].1
      ensures sets != [] ==> seen.sinceSet == map[]
    {
      hide Watch, WaysOut, Proper, Step;
      ok := true;
      var paths := NodesOf(sets);
      Note(Globbed(paths));
      ghost var start := log;
      for i := 0 to |paths|
        invariant Valid() && SameMounts(seen, old(seen)) && seen.listed == old(seen).listed
        invariant log == start + SetEvents(paths[..i])
        invariant i > 0 ==> seen.sinceSet == map[]
        invariant ok <==> forall k :: 0 <= k < i ==> sets[k].1
      {
        Note(Setro(paths[i]));
        ok := ok && sets[i].1;
      }
      assert paths[..|paths|] == paths;
    }

    /** The second loop. */
    method VerifyLocked(gets: seq<(Node, Option<bool>)>, lockOk: bool) returns (ok: bool)
      requires Valid() && seen.sinceSet == map[]
      modifies this`log, this`seen
      ensures Valid() && SameMounts(seen, old(seen)) && seen.listed == old(seen).listed && seen.globbed == NodesOf(gets)
      ensures log == old(log) + [Globbed(NodesOf(gets))] + GetEvents(gets)
      ensures ok <==> lockOk && forall k :: 0 <= k < |gets| ==> gets[k].1 == Some(true)
      ensures ok ==> forall n :: n in seen.sinceSet ==> seen.sinceSet[n]
      ensures ok ==> forall n :: n in NodesOf(gets) <==> n in seen.sinceSet
    {
      hide Watch, WaysOut, Proper, Step;
      ok := lockOk;
      Note(Globbed(NodesOf(gets)));
      ghost var start := log;
      for i := 0 to |gets|
        invariant Valid() && SameMounts(seen, old(seen)) && seen.globbed == NodesOf(gets) && seen.listed == old(seen).listed
        invariant log == start + GetEvents(gets[..i])
        invariant ok <==> lockOk && forall k :: 0 <= k < i ==> gets[k].1 == Some(true)
        invariant ok ==> forall n :: n in seen.sinceSet ==> seen.sinceSet[n]
        invariant ok ==> forall n :: n in NodesOf(gets[..i]) <==> n in seen.sinceSet
      {
        Note(Getro(gets[i].0, gets[i].1));
        assert NodesOf(gets[..i + 1]) == NodesOf(gets[..i]) + [gets[i].0];
        ok := ok && gets[i].1 == Some(true);
      }
      assert gets[..|gets|] == gets;
    }

    /** `storage_snapshot_all_ro` */
    method SnapshotAllReadOnly(a: AbortReplies) returns (ok: bool)
      requires Valid()
      modifies this`log, this`seen
      ensures Valid() && SameMounts(seen, old(seen))
      ensures ok && old(Quiet(seen)) ==> Quiet(seen)
      ensures ok && snapshotTaken ==> seen.listed == Some(snapshot) && Verified(seen)
      ensures ok && !snapshotTaken ==> seen == old(seen)
      ensures ok <==> (snapshotTaken ==> Listing(a.listing) == Some(snapshot) && a.canonical
                                         && forall i :: 0 <= i < |snapshot| ==> Reply(a.answers, i) == Some(true))
    {
      hide Watch, WaysOut, Proper;
      if !snapshotTaken {
        return true;
      }
      var nodes := Collect(a.listing);
      if nodes != Some(snapshot) {
        return false;
      }
      if !a.canonical {
        return false;
      }
      for i := 0 to |snapshot|
        invariant Valid() && SameMounts(seen, old(seen)) && seen.listed == Some(snapshot) && snapshot != []
        invariant seen.globbed == old(seen).globbed
        invariant old(Quiet(seen)) ==> Quiet(seen)
        invariant forall k :: 0 <= k < i ==> snapshot[k] in seen.sinceSet && seen.sinceSet[snapshot[k]]
        invariant forall k :: 0 <= k < i ==> Reply(a.answers, k) == Some(true)
      {
        var answer := Reply(a.answers, i);
        IsReadOnly(snapshot[i], answer);
        if answer != Some(true) {
          return false;
        }
      }
      return true;
    }

    /** `storage_snapshot_persistent_ok` */
    method SnapshotPersistentOk(r: CheckReplies) returns (ok: bool)
      requires Valid()
      modifies this`log, this`seen
      ensures Valid() && SameMounts(seen, old(seen))
      ensures ok <==> snapshotTaken && CheckOk(r, snapshot, target, home)
      ensures ok ==> Exactly(seen, snapshot, target, home) && log == old(log) + CheckLog(snapshot, target, home)
    {
      hide Watch, WaysOut, Proper, Exactly;
      if !snapshotTaken {
        return false;
      }
      var nodes := Collect(r.listing);
      if nodes != Some(snapshot) {
        return false;
      }
      ok := CheckWritable(r);
      if ok {
        ok := CheckClosed(r);
      }
    }

    method CheckClosed(r: CheckReplies) returns (ok: bool)
      requires Valid() && seen.listed == Some(snapshot)
      requires SawWritable(seen, SDA) && SawWritable(seen, target) && (home.Some? ==> SawWritable(seen, home.value))
      modifies this`log, this`seen
      ensures Valid() && SameMounts(seen, old(seen))
      ensures ok <==> forall i :: 0 <= i < |snapshot| && Closed(snapshot[i], target, home) ==> Reply(r.others, i) == Some(true)
      ensures ok ==> Exactly(seen, snapshot, target, home) && log == old(log) + ClosedAnswers(snapshot, target, home)
    {
      hide Watch, WaysOut, Proper, Step, Fair, ClosedAnswers, Exactly, Listing;
      ghost var start := log;
      NoAnswers(target, home);
      for i := 0 to |snapshot|
        invariant Valid() && SameMounts(seen, old(seen)) && seen.listed == Some(snapshot)
        invariant SawWritable(seen, SDA) && SawWritable(seen, target) && (home.Some? ==> SawWritable(seen, home.value))
        invariant forall k :: 0 <= k < i && Closed(snapshot[k], target, home) ==>
                    Reply(r.others, k) == Some(true) && snapshot[k] in seen.sinceListed && seen.sinceListed[snapshot[k]]
        invariant log == start + ClosedAnswers(snapshot[..i], target, home)
      {
        var block := snapshot[i];
        ClosedNext(snapshot, target, home, i);
        if block != SDA && block != target && home != Some(block) {
          var answer := Reply(r.others, i);
          IsReadOnly(block, answer);
          if answer != Some(true) {
            return false;
          }
        }
      }
      assert snapshot[..|snapshot|] == snapshot;
      AllAnswered(seen, snapshot, target, home);
      return true;
    }

    lemma NoAnswers(target: Node, home: Option<Node>)
      ensures ClosedAnswers([], target, home) == []
    {
    }

    lemma AllAnswered(s: Seen, snapshot: seq<Node>, target: Node, home: Option<Node>)
      requires s.listed == Some(snapshot) && SawWritable(s, SDA) && SawWritable(s, target) && (home.Some? ==> SawWritable(s, home.value))
      requires forall k :: 0 <= k < |snapshot| && Closed(snapshot[k], target, home) ==> snapshot[k] in s.sinceListed && s.sinceListed[snapshot[k]]
      ensures Exactly(s, snapshot, target, home)
    {
    }

    method CheckWritable(r: CheckReplies) returns (ok: bool)
      requires Valid()
      modifies this`log, this`seen
      ensures Valid() && SameMounts(seen, old(seen)) && seen.listed == old(seen).listed
      ensures ok <==> r.canonical && r.parent == Some(false) && r.target == Some(false) && (home.Some? ==> r.homeCanonical && r.home == Some(false))
      ensures ok ==> SawWritable(seen, SDA) && SawWritable(seen, target) && (home.Some? ==> SawWritable(seen, home.value))
      ensures ok ==> log == old(log) + [Getro(SDA, Some(false)), Getro(target, Some(false))] + if home.Some? then [Getro(home.value, Some(false))] else []
    {
      hide Watch, WaysOut, Proper, Step;
      if !r.canonical {
        return false;
      }
      IsReadOnly(SDA, r.parent);
      if r.parent != Some(false) {
        return false;
      }
      IsReadOnly(target, r.target);
      if r.target != Some(false) {
        return false;
      }
      if home.Some? {
        if !r.homeCanonical {
          return false;
        }
        IsReadOnly(home.value, r.home);
        if r.home != Some(false) {
          return false;
        }
      }
      return true;
    }

    // ----- operations

    /** `storage_abort` */
    method Abort(a: AbortReplies) returns (ok: bool)
      requires Valid()
      modifies this`log, this`seen, this`rootMounted, this`probeMounted, this`home, this`fallbackSafe
      ensures Valid()
      ensures ok == AbortOk(a, old(rootMounted), old(probeMounted), snapshotTaken, snapshot)
      ensures fallbackSafe == ok && home == None
      ensures ok ==> Shut(seen) && !rootMounted && !probeMounted
      ensures ok && snapshotTaken ==> seen.listed == Some(snapshot) && Verified(seen)
    {
      hide Watch, WaysOut, Proper, Step, Fair, LockLog, LockOk, Verified, Listing;
      var unmounted := UnmountAll(a);
      home := None;
      var locked := LockAll(a.lock);
      var same := SnapshotAllReadOnly(a);
      ok := unmounted && locked && same;
      fallbackSafe := ok;
    }

    method UnmountAll(a: AbortReplies) returns (ok: bool)
      requires Valid()
      modifies this`log, this`seen, this`rootMounted, this`probeMounted
      ensures Valid()
      ensures ok <==> (old(rootMounted) ==> a.root) && (old(probeMounted) ==> a.probe)
      ensures ok <==> !rootMounted && !probeMounted
      ensures ok ==> seen.mounted == {}
    {
      hide Watch, WaysOut, Proper;
      ok := true;
      if rootMounted {
        Unmount(Newroot, a.root);
        ok := a.root;
        if ok {
          rootMounted := false;
        }
      }
      if probeMounted {
        Unmount(Probe, a.probe);
        if a.probe {
          probeMounted := false;
        } else {
          ok := false;
        }
      }
      OnlyPlaces(seen.mounted);
    }

    /** The snapshot holds the nodes to be opened. */
    ghost predicate Snapped()
      reads this
    {
      snapshotTaken && SDA in snapshot && target in snapshot && (home.Some? ==> home.value in snapshot)
    }

    /** Identity, then the contract behind a read-only mount, then the snapshot. */
    method ProbeRoot(r: PrepareReplies) returns (ok: bool)
      requires Valid() && !snapshotTaken && !probeMounted
      modifies this`log, this`seen, this`target, this`home, this`snapshot, this`snapshotTaken, this`probeMounted
      ensures Valid() && ok == (ProbeCause(r) == NoCause) == snapshotTaken
      ensures probeMounted == ProbeLeft(ProbeCause(r), subroot)
      ensures ok ==> Snapped() && seen.probed && seen.moved == old(seen).moved
      ensures ok ==> snapshot == Nodes(r) && target == Target(r) && home == Asked(r)
      ensures ok ==> log == old(log) + ProbeLog(Nodes(r))
    {
      hide Watch, WaysOut, Proper, Step, Fair, ProbeCause, ProbeLeft, ProbeLog, Target, Asked, Listing;
      ProbeStops(r, subroot);
      if r.identity.None? {
        return false;
      }
      target, home := r.identity.value.0, r.identity.value.1;
      ok := CheckProbe(r);
      if ok {
        ok := TakeSnapshot(r.listing);
      }
    }

    lemma ProbeStops(r: PrepareReplies, subroot: bool)
      ensures var fine := r.probe && r.probeContract && r.probeOff;
              && (ProbeCause(r) == NoCause <==> r.identity.Some? && fine && SDA in Nodes(r) && Target(r) in Nodes(r))
              && (ProbeLeft(ProbeCause(r), subroot) <==> r.identity.Some? && r.probe && !fine)
      ensures r.identity.Some? ==> Target(r) == r.identity.value.0
      ensures r.identity.Some? ==>
                var home := r.identity.value.1;
                Asked(r) == if home.Some? && home.value in Nodes(r) then home else None
      ensures ProbeLog(Nodes(r)) == [Mounted(Probe), RootChecked(Probe, true), Unmounted(Probe)] + [Listed(Some(Nodes(r)))]
      ensures Listing(r.listing) == if r.listing.Some? && r.listing.value != [] then r.listing else None
    {
    }

    /** The contract behind a read-only mount. */
    method CheckProbe(r: PrepareReplies) returns (ok: bool)
      requires Valid() && !probeMounted
      modifies this`log, this`seen, this`probeMounted
      ensures Valid() && ok == (r.probe && r.probeContract && r.probeOff) && probeMounted == (r.probe && !ok)
      ensures ok ==> seen.probed && seen.moved == old(seen).moved
      ensures ok ==> log == old(log) + [Mounted(Probe), RootChecked(Probe, true), Unmounted(Probe)]
    {
      hide Watch, WaysOut, Proper, Fair;
      Mount(Probe, r.probe);
      if !r.probe {
        return false;
      }
      probeMounted := true;
      RootOk(Probe, r.probeContract);
      if !r.probeContract {
        return false;
      }
      Unmount(Probe, r.probeOff);
      if !r.probeOff {
        return false;
      }
      probeMounted := false;
      ok := true;
    }

    /** Opens the parent, the target and, if it lets itself be opened, the home node;
        closes every other node again. */
    method OpenNodes(r: PrepareReplies) returns (ok: bool)
      requires Valid() && Snapped() && snapshot == Nodes(r) && target == Target(r) && home == Asked(r)
      modifies this`log, this`seen, this`home
      ensures Valid() && SameMounts(seen, old(seen)) && ok == (OpenCause(r) == NoCause)
      ensures ok ==> Snapped() && home == Home(r)
      ensures ok ==> log == old(log) + OpenLog(snapshot, target, Asked(r), home, NodesOf(r.globbed))
    {
      hide Watch, WaysOut, Proper, Step, Fair, CheckOk, CheckLog, Exactly, SiblingsShut, Closing, Nodes, Target, Asked;
      ok := OpenThree(r);
      if ok {
        ok := CloseSiblings(r.globbed);
      }
      if ok {
        ok := SnapshotPersistentOk(r.beforeMount);
      }
    }

    method OpenThree(r: PrepareReplies) returns (ok: bool)
      requires Valid() && Snapped()
      modifies this`log, this`seen, this`home
      ensures Valid() && Snapped() && SameMounts(seen, old(seen)) && ok == (r.parent && r.target)
      ensures ok ==> home == if r.home then old(home) else None
      ensures ok ==> log == old(log) + [Setrw(SDA), Setrw(target)] + if old(home).Some? then [Setrw(old(home).value)] else []
    {
      hide Watch, WaysOut, Proper, Step, Fair;
      Touch(Setrw(SDA));
      if !r.parent {
        return false;
      }
      Touch(Setrw(target));
      if !r.target {
        return false;
      }
      if home.Some? {
        Touch(Setrw(home.value));
        if !r.home {
          home := None;
        }
      }
      ok := true;
    }

    method CloseSiblings(globbed: seq<(Node, bool)>) returns (ok: bool)
      requires Valid()
      modifies this`log, this`seen
      ensures Valid() && SameMounts(seen, old(seen)) && ok == SiblingsShut(globbed, target, home)
      ensures ok ==> log == old(log) + [Globbed(NodesOf(globbed))] + Closing(NodesOf(globbed), target, home)
    {
      hide Watch, WaysOut, Proper, Step, Fair;
      var paths := NodesOf(globbed);
      Touch(Globbed(paths));
      ghost var start := log;
      for i := 0 to |paths|
        invariant Valid() && SameMounts(seen, old(seen))
        invariant log == start + Closing(paths[..i], target, home)
        invariant forall k :: 0 <= k < i && Closed(globbed[k].0, target, home) ==> globbed[k].1
      {
        var block := paths[i];
        ClosingNext(paths, target, home, i);
        if block != SDA && block != target && home != Some(block) {
          Touch(Setro(block));
          if !globbed[i].1 {
            return false;
          }
        }
      }
      assert paths[..|paths|] == paths;
      ok := true;
    }

    /** Mounts the target, or a subdirectory of it, at the new root. */
    method MountRoot(r: PrepareReplies) returns (ok: bool)
      requires Valid() && seen.probed && !probeMounted && !rootMounted
      modifies this`log, this`seen, this`probeMounted, this`rootMounted
      ensures Valid() && seen.probed && ok == (MountCause(subroot, r) == NoCause)
      ensures probeMounted == ProbeLeft(MountCause(subroot, r), subroot) && rootMounted == (ok || RootLeft(MountCause(subroot, r)))
      ensures ok ==> seen.mounted == {Newroot} && seen.moved == old(seen).moved
      ensures ok ==> log == old(log) + if subroot then [Mounted(Probe), Mounted(Newroot), Unmounted(Probe)] else [Mounted(Newroot)]
    {
      hide Watch, WaysOut, Proper, Step, Fair, MountCause, ProbeLeft, RootLeft;
      MountStops(r, subroot);
      if subroot {
        Mount(Probe, r.volume);
        if !r.volume {
          return false;
        }
        probeMounted := true;
      }
      Mount(Newroot, r.root);
      if !r.root {
        return false;
      }
      rootMounted := true;
      if subroot {
        Unmount(Probe, r.volumeOff);
        if !r.volumeOff {
          return false;
        }
        probeMounted := false;
      }
      OnlyPlaces(seen.mounted);
      ok := true;
    }

    lemma MountStops(r: PrepareReplies, subroot: bool)
      ensures var c := MountCause(subroot, r);
              && (c == NoCause <==> r.root && (subroot ==> r.volume && r.volumeOff))
              && (ProbeLeft(c, subroot) <==> subroot && r.volume && !(r.root && r.volumeOff))
              && (c == NoCause || RootLeft(c) <==> r.root && (subroot ==> r.volume))
    {
    }

    /** `storage_prepare_persistent_root` */
    method Prepare(r: PrepareReplies, a: AbortReplies) returns (ok: bool)
      requires Valid() && !snapshotTaken && !probeMounted && !rootMounted
      modifies this`log, this`seen, this`target, this`home, this`snapshot, this`snapshotTaken, this`probeMounted, this`rootMounted, this`fallbackSafe
      ensures Valid() && ok == (PrepareCause(subroot, r) == NoCause)
      ensures ok ==> Prepared() && seen.moved == old(seen).moved && !probeMounted && rootMounted
      ensures ok ==> snapshot == Nodes(r) && target == Target(r) && home == Home(r)
      ensures ok ==> log == old(log) + PrepareLog(subroot, Nodes(r), Target(r), Asked(r), Home(r), NodesOf(r.globbed))
      ensures !ok ==> var c := PrepareCause(subroot, r);
                      fallbackSafe == AbortOk(a, RootLeft(c), ProbeLeft(c, subroot), SnapshotTaken(c), Nodes(r))
      ensures !ok && fallbackSafe ==> Shut(seen) && !rootMounted && !probeMounted
    {
      hide Watch, WaysOut, Proper, CheckOk, CheckLog, Closing, Exactly, SiblingsShut;
      ok := Establish(r);
      if !ok {
        var sealed_ := Abort(a);
      }
    }

    /** The same up to its first failure. */
    method Establish(r: PrepareReplies) returns (ok: bool)
      requires Valid() && !snapshotTaken && !probeMounted && !rootMounted
      modifies this`log, this`seen, this`target, this`home, this`snapshot, this`snapshotTaken, this`probeMounted, this`rootMounted
      ensures Valid() && ok == (PrepareCause(subroot, r) == NoCause)
      ensures ok ==> Prepared() && seen.moved == old(seen).moved && !probeMounted && rootMounted
      ensures snapshotTaken ==> snapshot == Nodes(r)
      ensures ok ==> target == Target(r) && home == Home(r)
      ensures ok ==> log == old(log) + PrepareLog(subroot, Nodes(r), Target(r), Asked(r), Home(r), NodesOf(r.globbed))
      ensures !ok ==> var c := PrepareCause(subroot, r);
                      rootMounted == RootLeft(c) && probeMounted == ProbeLeft(c, subroot) && snapshotTaken == SnapshotTaken(c)
    {
      hide Watch, WaysOut, Proper, Fair, Step, CheckOk, CheckLog, Closing, Exactly, SiblingsShut, ProbeCause, OpenCause, MountCause,
           Asked, Home, Nodes, Target, PrepareCause, RootLeft, ProbeLeft, SnapshotTaken, PrepareLog, ProbeLog, OpenLog, AdmitLog;
      Stops(subroot, r);
      PrepareParts(subroot, Nodes(r), Target(r), Asked(r), Home(r), NodesOf(r.globbed));
      ok := ProbeRoot(r);
      if !ok {
        return;
      }
      ok := OpenNodes(r);
      if !ok {
        return;
      }
      ok := Admit(r);
    }

    /** The new root is mounted and checked, and the nodes looked at once more. */
    method Admit(r: PrepareReplies) returns (ok: bool)
      requires Valid() && Snapped() && seen.probed && !probeMounted && !rootMounted
      modifies this`log, this`seen, this`probeMounted, this`rootMounted
      ensures Valid() && ok == (MountCause(subroot, r) == NoCause && r.rootContract && CheckOk(r.afterMount, snapshot, target, home))
      ensures probeMounted == ProbeLeft(MountCause(subroot, r), subroot)
      ensures rootMounted == (MountCause(subroot, r) == NoCause || RootLeft(MountCause(subroot, r)))
      ensures ok ==> Prepared() && seen.moved == old(seen).moved
      ensures ok ==> log == old(log) + AdmitLog(subroot, snapshot, target, home)
    {
      hide Watch, WaysOut, Proper, Fair, CheckOk, CheckLog, Exactly, MountCause, ProbeLeft, RootLeft;
      ok := MountRoot(r);
      if !ok {
        return;
      }
      RootOk(Newroot, r.rootContract);
      if !r.rootContract {
        return false;
      }
      ok := SnapshotPersistentOk(r.afterMount);
    }

    /** What the parts of a preparation say about the whole. */
    lemma Stops(subroot: bool, r: PrepareReplies)
      ensures var p, c := ProbeCause(r), PrepareCause(subroot, r);
              && (p != NoCause ==> c == p && !RootLeft(c) && !SnapshotTaken(c))
              && (p == NoCause ==> SnapshotTaken(c))
              && (p == NoCause && OpenCause(r) != NoCause ==> c == OpenCause(r) && !RootLeft(c) && !ProbeLeft(c, subroot))
              && (p == NoCause && OpenCause(r) == NoCause ==>
                    var m := MountCause(subroot, r);
                    && (c == NoCause <==> m == NoCause && r.rootContract && CheckOk(r.afterMount, Nodes(r), Target(r), Home(r)))
                    && ProbeLeft(c, subroot) == ProbeLeft(m, subroot)
                    && (c != NoCause ==> RootLeft(c) == (m == NoCause || RootLeft(m))))
      ensures !ProbeLeft(NoCause, subroot)
    {
      hide CheckOk, SiblingsShut, Nodes, Target, Home;
    }

    lemma PrepareParts(subroot: bool, nodes: seq<Node>, target: Node, asked: Option<Node>, home: Option<Node>, paths: seq<Node>)
      ensures PrepareLog(subroot, nodes, target, asked, home, paths)
           == ProbeLog(nodes) + OpenLog(nodes, target, asked, home, paths) + AdmitLog(subroot, nodes, target, home)
    {
      hide Closing, CheckLog;
    }

    /** Mounted at the new root only, both contract checks passed, snapshot taken. */
    ghost predicate Prepared()
      reads this
    {
      && Snapped() && seen.mounted == {Newroot} && seen.probed && seen.admitted
    }

    /** `storage_switch_persistent_root`; `execed` when PID 1 has become `switch_root`. */
    method Switch(r: PersistReplies) returns (execed: bool)
      requires Valid() && Prepared() && seen.slotMarked && seen.moved == {} && !probeMounted && rootMounted
      requires snapshot == Nodes(r.prepare) && target == Target(r.prepare) && home == Home(r.prepare)
      modifies this
      ensures Watched() && execed == (SwitchCause(r) == NoCause)
      ensures execed ==> ways == old(ways) + [SwitchRoot(old(snapshot), old(target), old(home))] && ufsSafe == old(ufsSafe)
      ensures execed ==> log == old(log) + SwitchLog(old(snapshot), old(target), old(home))
      ensures !execed ==> Valid() && ways == old(ways) && fallbackSafe == AbortOk(r.abort, true, false, true, old(snapshot))
      ensures !execed ==> ufsSafe == (old(ufsSafe) && fallbackSafe)
      ensures !execed && fallbackSafe ==> Shut(seen) && !rootMounted && !probeMounted
    {
      hide Watch, WaysOut, Proper, Sealed, CheckOk, CheckLog, Exactly, AbortOk;
      var ok := SnapshotPersistentOk(r.beforeSwitch);
      if ok {
        ok := MoveKernelfs(r);
      }
      if ok {
        ok := SnapshotPersistentOk(r.lastCheck);
        if ok {
          Leave(SwitchRoot(snapshot, target, home));
          return true;
        }
        MoveBack([Dev, Sys, Proc]);
      }
      var sealed_ := Abort(r.abort);
      if !sealed_ {
        ufsSafe := false;
      }
      return false;
    }

    method MoveKernelfs(r: PersistReplies) returns (ok: bool)
      requires Valid() && Prepared() && seen.slotMarked && seen.moved == {}
      modifies this`log, this`seen
      ensures Valid() && ok == (r.proc && r.sys && r.dev)
      ensures ok ==> Prepared() && seen.slotMarked && seen.moved == {Proc, Sys, Dev}
      ensures ok ==> log == old(log) + [Moved(Proc), Moved(Sys), Moved(Dev)]
    {
      hide Watch, WaysOut, Proper;
      var moved: seq<Kernelfs> := [];
      var wanted := [Proc, Sys, Dev];
      var replies := [r.proc, r.sys, r.dev];
      for i := 0 to 3
        invariant Valid() && Prepared() && seen.slotMarked
        invariant seen.moved == (if i == 0 then {} else if i == 1 then {Proc} else if i == 2 then {Proc, Sys} else {Proc, Sys, Dev})
        invariant (i > 0 ==> r.proc) && (i > 1 ==> r.sys) && (i > 2 ==> r.dev)
        invariant log == old(log) + [Moved(Proc), Moved(Sys), Moved(Dev)][..i]
      {
        if !replies[i] {
          MoveBack(moved);
          return false;
        }
        Record(Moved(wanted[i]));
        moved := [wanted[i]] + moved;
      }
      ok := true;
    }

    /** Whether each move back worked is not looked at. */
    method MoveBack(filesystems: seq<Kernelfs>)
      requires Valid()
      modifies this`log, this`seen
      ensures Valid()
    {
      hide Watch, WaysOut, Proper;
      for i := 0 to |filesystems|
        invariant Valid()
      {
        var ok: bool := *;
        if ok {
          Record(MovedBack(filesystems[i]));
        }
      }
    }

    // ----- the driver

    method StartTelnet()
      requires Valid() && (ufsSafe ==> Shut(seen))
      modifies this`log, this`seen, this`ways
      ensures Valid() && seen == old(seen)
      ensures log == old(log) + (if ufsSafe then [Telnet] else []) && ways == old(ways) + (if ufsSafe then [Telnet] else [])
    {
      hide Watch, WaysOut, Proper;
      if ufsSafe {
        Leave(Telnet);
      }
    }

    /** Marks the slot this boot came from; false without a usable slot suffix. */
    method MarkSlot(r: PersistReplies) returns (ok: bool)
      requires Valid() && Prepared()
      modifies this`log, this`seen
      ensures Valid() && Prepared() && seen.moved == old(seen).moved
      ensures ok == (r.suffix && (r.already || (r.marked && r.confirmed)))
      ensures ok ==> seen.slotMarked && log == old(log) + [SlotTool(true)]
    {
      hide Watch, WaysOut, Proper;
      if !r.suffix {
        return false;
      }
      ok := r.already;
      if !ok {
        ok := r.marked && r.confirmed;
      }
      Record(SlotTool(ok));
    }

    /** The driver's last look before it offers anything: lock once more, or give up. */
    method Relock(w: LockReplies)
      requires Valid() && (fallbackSafe ==> seen.mounted == {})
      modifies this`log, this`seen, this`ufsSafe
      ensures Valid() && (ufsSafe ==> fallbackSafe && Shut(seen))
      ensures ufsSafe == (old(ufsSafe) && fallbackSafe && LockOk(w))
    {
      hide Watch, WaysOut, Proper, LockLog, LockOk;
      if fallbackSafe {
        var ok := LockAll(w);
        if !ok {
          ufsSafe := false;
        }
      } else {
        ufsSafe := false;
      }
    }

    /** The persistent branch of the driver. */
    method Persist(r: PersistReplies) returns (execed: bool)
      requires Valid() && ufsSafe && seen.moved == {} && !snapshotTaken && !probeMounted && !rootMounted
      modifies this
      ensures Watched() && execed == (PersistCause(subroot, r) == NoCause)
      ensures execed ==> ways == old(ways) + [SwitchRoot(Nodes(r.prepare), Target(r.prepare), Home(r.prepare))] && ufsSafe
      ensures execed ==> log == old(log) + Handover(subroot, r.prepare)
      ensures !execed ==> Valid() && (ufsSafe ==> Shut(seen)) && ufsSafe == Rescued(PersistCause(subroot, r), subroot, r)
      ensures !execed ==> ways == old(ways) + if r.usb && ufsSafe then [Telnet] else []
    {
      hide Watch, WaysOut, Proper, Step, Fair, Sealed, AbortOk, LockOk, PrepareCause, SwitchCause, PrepareLog, SwitchLog, Home, Asked, Nodes, Target,
           RootLeft, ProbeLeft, SnapshotTaken, PersistCause, Rescued;
      PersistStops(subroot, r);
      var prepared := Prepare(r.prepare, r.abort);
      execed := false;
      if prepared {
        execed := Proceed(r);
        if execed {
          return;
        }
      } else {
        Relock(r.relock);
      }
      if r.usb {
        StartTelnet();
      }
    }

    /** Slot and switch, from a root that is prepared. */
    method Proceed(r: PersistReplies) returns (execed: bool)
      requires Valid() && Prepared() && ufsSafe && seen.moved == {} && !probeMounted && rootMounted
      requires snapshot == Nodes(r.prepare) && target == Target(r.prepare) && home == Home(r.prepare)
      modifies this
      ensures var slot := r.suffix && (r.already || (r.marked && r.confirmed));
              && Watched() && execed == (slot && SwitchCause(r) == NoCause)
              && (execed ==> ufsSafe && ways == old(ways) + [SwitchRoot(old(snapshot), old(target), old(home))]
                             && log == old(log) + [SlotTool(true)] + SwitchLog(old(snapshot), old(target), old(home)))
              && (!execed ==> Valid() && ways == old(ways) && (ufsSafe ==> Shut(seen))
                              && ufsSafe == (AbortOk(r.abort, true, false, true, old(snapshot)) && (slot ==> LockOk(r.relock))))
    {
      hide Watch, WaysOut, Proper, Step, Fair, Sealed, AbortOk, LockOk, SwitchCause, SwitchLog, Home, Asked, Nodes, Target;
      var marked := MarkSlot(r);
      execed := false;
      if marked {
        execed := Switch(r);
        if execed {
          return;
        }
        Relock(r.relock);
      } else {
        var sealed_ := Abort(r.abort);
        if !sealed_ {
          ufsSafe := false;
        }
      }
    }

    lemma PersistStops(subroot: bool, r: PersistReplies)
      ensures var p, c := PrepareCause(subroot, r.prepare), PersistCause(subroot, r);
              var slot := r.suffix && (r.already || (r.marked && r.confirmed));
              && (p != NoCause ==> c == p)
              && (p != NoCause ==>
                    Rescued(c, subroot, r) ==
                    (AbortOk(r.abort, RootLeft(p), ProbeLeft(p, subroot), SnapshotTaken(p), Nodes(r.prepare)) && LockOk(r.relock)))
              && (p == NoCause ==> (c == NoCause <==> slot && SwitchCause(r) == NoCause))
              && (p == NoCause && c != NoCause ==>
                    Rescued(c, subroot, r) ==
                    (AbortOk(r.abort, true, false, true, Nodes(r.prepare)) && (slot ==> LockOk(r.relock))))
    {
      hide AbortOk, LockOk, CheckOk, SiblingsShut, Nodes, Target, Home;
    }

    /** From the first lock to stage 2. Whatever fails, every way out that is taken is
        fair when it is taken: a shell and stage 2 only with the persistent root
        unmounted and the nodes just verified read-only, `switch_root` only on an
        admitted root over exactly the snapshot's writable nodes. Where the last loop
        of a lock saw all that was listed, all that was listed is verified. And which
        ways out are taken is decided by the replies alone: a persistent boot hands
        over exactly if all of them are favourable, and its log is then complete. */
    method Boot(persistent: bool, usb: bool, first: LockReplies, r: PersistReplies)
      requires Valid() && seen == Nothing() && log == []
      modifies this
      ensures forall i :: 0 <= i < |log| ==> Fair(Watch(log[..i]), log[i])
      ensures forall i :: 0 <= i < |log| && (log[i] == Telnet || log[i] == Stage2) && Steady(Watch(log[..i])) ==> Verified(Watch(log[..i]))
      ensures WaysOut(log) == Ways(persistent, usb, subroot, first, r)
      ensures ufsSafe <==> WaysOut(log) != []
      ensures persistent && LockOk(first) && PersistCause(subroot, r) == NoCause ==> log == LockLog(first) + Handover(subroot, r.prepare)
      ensures !persistent ==> log == LockLog(first) + Offers(usb, LockOk(first))
    {
      hide Watch, WaysOut, Proper, Fair, Step, LockLog, LockOk, PersistCause, Handover, Rescued, AbortOk, Steady, Verified, Sealed, Home, Nodes, Target;
      snapshotTaken := false;
      NoWays();
      ufsSafe := LockAll(first);
      if usb && !persistent {
        StartTelnet();
      }
      var execed := false;
      if persistent && ufsSafe {
        execed := Persist(r);
      }
      if !execed && ufsSafe {
        Leave(Stage2);
      }
      FairThroughout(log);
    }

    lemma NoWays()
      ensures WaysOut([]) == []
    {
    }
  }

  lemma FairThroughout(log: seq<Event>)
    requires Proper(log)
    ensures forall i :: 0 <= i < |log| ==> Fair(Watch(log[..i]), log[i])
    ensures forall i :: 0 <= i < |log| && (log[i] == Telnet || log[i] == Stage2) && Steady(Watch(log[..i])) ==> Verified(Watch(log[..i]))
  {
    hide Watch, WaysOut, Proper, Sealed, Steady, Verified;
    forall i | 0 <= i < |log| ensures Fair(Watch(log[..i]), log[i]) {
      ProperEverywhere(log, i);
    }
    forall i | 0 <= i < |log| && (log[i] == Telnet || log[i] == Stage2) && Steady(Watch(log[..i]))
      ensures Verified(Watch(log[..i]))
    {
      assert Fair(Watch(log[..i]), log[i]);
      SteadyIsVerified(Watch(log[..i]));
    }
  }

  // ----- a persistent boot that nothing stops

  /** Exactly when a persistent boot hands over: every command worked, every listing
      was the first one, every node answered as it was set. */
  lemma HandsOverIff(subroot: bool, r: PersistReplies)
    ensures var p, nodes, target, home := r.prepare, Nodes(r.prepare), Target(r.prepare), Home(r.prepare);
            PersistCause(subroot, r) == NoCause <==>
            && p.identity.Some? && p.probe && p.probeContract && p.probeOff && SDA in nodes && target in nodes && p.parent && p.target
            && (forall i :: 0 <= i < |p.globbed| && Closed(p.globbed[i].0, target, home) ==> p.globbed[i].1)
            && p.root && (subroot ==> p.volume && p.volumeOff) && p.rootContract
            && r.suffix && (r.already || (r.marked && r.confirmed)) && r.proc && r.sys && r.dev
            && CheckOk(p.beforeMount, nodes, target, home) && CheckOk(p.afterMount, nodes, target, home)
            && CheckOk(r.beforeSwitch, nodes, target, home) && CheckOk(r.lastCheck, nodes, target, home)
  {
    hide CheckOk, Nodes, Target, Home;
  }

  /** Which replies decide, for every cause, whether a boot that was stopped ends
      sealed: the umount of what is mounted, the abort's lock, once there is a snapshot
      that it is seen again and read-only, and, unless the slot stopped it, one more
      lock. */
  lemma RescueTable(c: Cause, subroot: bool, r: PersistReplies)
    ensures var a, nodes := r.abort, Nodes(r.prepare);
            var seenAgain := Listing(a.listing) == Some(nodes) && a.canonical && forall i :: 0 <= i < |nodes| ==> Reply(a.answers, i) == Some(true);
            var locked := LockOk(a.lock) && LockOk(r.relock);
            match c
            case Identity => Rescued(c, subroot, r) == locked
            case ProbeMount => Rescued(c, subroot, r) == locked
            case Snapshot => Rescued(c, subroot, r) == locked
            case ProbeContract => Rescued(c, subroot, r) == (a.probe && locked)
            case ProbeUmount => Rescued(c, subroot, r) == (a.probe && locked)
            case ParentKeptShut => Rescued(c, subroot, r) == (locked && seenAgain)
            case TargetKeptShut => Rescued(c, subroot, r) == (locked && seenAgain)
            case SiblingKeptOpen => Rescued(c, subroot, r) == (locked && seenAgain)
            case StateBeforeMount => Rescued(c, subroot, r) == (locked && seenAgain)
            case VolumeMount => Rescued(c, subroot, r) == (locked && seenAgain)
            case RootMount => Rescued(c, subroot, r) == ((subroot ==> a.probe) && locked && seenAgain)
            case VolumeUmount => Rescued(c, subroot, r) == (a.root && a.probe && locked && seenAgain)
            case RootContract => Rescued(c, subroot, r) == (a.root && locked && seenAgain)
            case StateAfterMount => Rescued(c, subroot, r) == (a.root && locked && seenAgain)
            case Slot => Rescued(c, subroot, r) == (a.root && LockOk(a.lock) && seenAgain)
            case StateBeforeSwitch => Rescued(c, subroot, r) == (a.root && locked && seenAgain)
            case Move => Rescued(c, subroot, r) == (a.root && locked && seenAgain)
            case LastState => Rescued(c, subroot, r) == (a.root && locked && seenAgain)
            case NoCause => true
  {
    hide LockOk, Listing, Reply, Nodes;
  }

  /** How the flag of a node was last set. */
  function Flag(log: seq<Event>, node: Node): Option<bool> {
    if log == [] then None
    else
      match log[|log| - 1]
      case Setro(n) => if n == node then Some(true) else Flag(log[..|log| - 1], node)
      case Setrw(n) => if n == node then Some(false) else Flag(log[..|log| - 1], node)
      case _ => Flag(log[..|log| - 1], node)
  }

  /** After `before`, every answer in `more` is what the node was last set to. */
  predicate Truthful(before: seq<Event>, more: seq<Event>) {
    forall i :: 0 <= i < |more| && more[i].Getro? ==> more[i].readOnly == Flag(before + more[..i], more[i].node)
  }

  predicate Sets(e: Event) {
    e.Setro? || e.Setrw?
  }

  lemma FlagNext(log: seq<Event>, e: Event, node: Node)
    ensures Flag(log + [e], node) == if e == Setro(node) then Some(true) else if e == Setrw(node) then Some(false) else Flag(log, node)
  {
    assert (log + [e])[..|log|] == log;
  }

  lemma {:induction false} FlagKept(before: seq<Event>, more: seq<Event>, node: Node)
    requires forall i :: 0 <= i < |more| ==> !Sets(more[i])
    ensures Flag(before + more, node) == Flag(before, node)
    decreases |more|
  {
    hide Flag;
    if more == [] {
      assert before + more == before;
    } else {
      var n := |more| - 1;
      FlagKept(before, more[..n], node);
      FlagNext(before + more[..n], more[n], node);
      assert before + more == before + more[..n] + [more[n]];
    }
  }

  lemma TruthfulConcat(before: seq<Event>, a: seq<Event>, b: seq<Event>)
    requires Truthful(before, a) && Truthful(before + a, b)
    ensures Truthful(before, a + b)
  {
    hide Flag;
    forall i | 0 <= i < |a + b| && (a + b)[i].Getro?
      ensures (a + b)[i].readOnly == Flag(before + (a + b)[..i], (a + b)[i].node)
    {
      if i < |a| {
        assert (a + b)[..i] == a[..i];
      } else {
        assert before + (a + b)[..i] == before + a + b[..i - |a|];
      }
    }
  }

  /** The flags stand as a persistent boot wants them. */
  predicate Standing(log: seq<Event>, nodes: seq<Node>, target: Node, home: Option<Node>) {
    && Flag(log, SDA) == Some(false) && Flag(log, target) == Some(false) && (home.Some? ==> Flag(log, home.value) == Some(false))
    && forall n :: n in nodes && Closed(n, target, home) ==> Flag(log, n) == Some(true)
  }

  lemma StandingKept(before: seq<Event>, more: seq<Event>, nodes: seq<Node>, target: Node, home: Option<Node>)
    requires Standing(before, nodes, target, home) && forall i :: 0 <= i < |more| ==> !Sets(more[i])
    ensures Standing(before + more, nodes, target, home)
  {
    hide Flag, Sets;
    FlagKept(before, more, SDA);
    FlagKept(before, more, target);
    if home.Some? {
      FlagKept(before, more, home.value);
    }
    forall n | n in nodes && Closed(n, target, home) ensures Flag(before + more, n) == Some(true) {
      FlagKept(before, more, n);
    }
  }

  lemma {:induction false} ClosingFlags(before: seq<Event>, paths: seq<Node>, target: Node, home: Option<Node>, node: Node)
    ensures Flag(before + Closing(paths, target, home), node) ==
            if node in paths && Closed(node, target, home) then Some(true) else Flag(before, node)
    decreases |paths|
  {
    hide Flag, Closed;
    if paths == [] {
      assert before + Closing(paths, target, home) == before;
    } else {
      var n := |paths| - 1;
      ClosingFlags(before, paths[..n], target, home, node);
      if Closed(paths[n], target, home) {
        FlagNext(before + Closing(paths[..n], target, home), Setro(paths[n]), node);
        assert before + Closing(paths, target, home) == before + Closing(paths[..n], target, home) + [Setro(paths[n])];
      } else {
        assert Closing(paths, target, home) == Closing(paths[..n], target, home);
      }
    }
  }

  lemma {:induction false} AnswersOnly(nodes: seq<Node>, target: Node, home: Option<Node>)
    ensures forall i :: 0 <= i < |ClosedAnswers(nodes, target, home)| ==>
              var e := ClosedAnswers(nodes, target, home)[i];
              e.Getro? && e.readOnly == Some(true) && e.node in nodes && Closed(e.node, target, home)
    decreases |nodes|
  {
    if nodes != [] {
      AnswersOnly(nodes[..|nodes| - 1], target, home);
    }
  }

  lemma CheckShape(nodes: seq<Node>, target: Node, home: Option<Node>)
    ensures forall i :: 0 <= i < |CheckLog(nodes, target, home)| ==>
              var e := CheckLog(nodes, target, home)[i];
              !Sets(e) && (e.Getro? ==> if e.node == SDA || e.node == target || home == Some(e.node) then e.readOnly == Some(false)
                                        else e.readOnly == Some(true) && e.node in nodes && Closed(e.node, target, home))
  {
    hide ClosedAnswers;
    AnswersOnly(nodes, target, home);
  }

  lemma CheckTruthful(before: seq<Event>, nodes: seq<Node>, target: Node, home: Option<Node>)
    requires Standing(before, nodes, target, home)
    ensures Truthful(before, CheckLog(nodes, target, home)) && Standing(before + CheckLog(nodes, target, home), nodes, target, home)
  {
    hide Flag, CheckLog, Sets, Closed;
    CheckShape(nodes, target, home);
    var more := CheckLog(nodes, target, home);
    forall i | 0 <= i < |more| && more[i].Getro? ensures more[i].readOnly == Flag(before + more[..i], more[i].node) {
      FlagKept(before, more[..i], more[i].node);
    }
    StandingKept(before, more, nodes, target, home);
  }

  lemma Quietly(before: seq<Event>, more: seq<Event>, nodes: seq<Node>, target: Node, home: Option<Node>)
    requires Standing(before, nodes, target, home) && forall i :: 0 <= i < |more| ==> !Sets(more[i]) && !more[i].Getro?
    ensures Truthful(before, more) && Standing(before + more, nodes, target, home)
  {
    hide Standing, Flag, Sets;
    StandingKept(before, more, nodes, target, home);
  }

  /** The part up to the flags, after which they stand. */
  lemma OpeningStands(before: seq<Event>, nodes: seq<Node>, target: Node, asked: Option<Node>, home: Option<Node>, paths: seq<Node>)
    requires (home.Some? ==> home == asked) && forall n :: n in nodes ==> n in paths
    ensures var open := Opening(nodes, target, asked, home, paths);
            Truthful(before, open) && Standing(before + open, nodes, target, home)
  {
    hide Closing, Flag, Closed;
    var a := [Mounted(Probe), RootChecked(Probe, true), Unmounted(Probe), Listed(Some(nodes))];
    var b := if asked.Some? then [Setrw(asked.value)] else [];
    var c := before + a + [Setrw(SDA)] + [Setrw(target)];
    var d := c + b + [Globbed(paths)];
    var open := Opening(nodes, target, asked, home, paths);
    assert before + open == d + Closing(paths, target, home);
    forall n ensures n == SDA || n == target || home == Some(n) ==> Flag(d, n) == Some(false) {
      FlagNext(before + a, Setrw(SDA), n);
      FlagNext(before + a + [Setrw(SDA)], Setrw(target), n);
      if asked.Some? {
        FlagNext(c, Setrw(asked.value), n);
      } else {
        assert c + b == c;
      }
      FlagNext(c + b, Globbed(paths), n);
    }
    forall n ensures Flag(before + open, n) == if n in paths && Closed(n, target, home) then Some(true) else Flag(d, n) {
      ClosingFlags(d, paths, target, home, n);
    }
    OpenOnes(target, home);
    NoAsking(paths, target, home);
  }

  lemma OpenOnes(target: Node, home: Option<Node>)
    ensures !Closed(SDA, target, home) && !Closed(target, target, home) && (home.Some? ==> !Closed(home.value, target, home))
  {
  }

  lemma {:induction false} NoAsking(paths: seq<Node>, target: Node, home: Option<Node>)
    ensures forall i :: 0 <= i < |Closing(paths, target, home)| ==> Closing(paths, target, home)[i].Setro?
    decreases |paths|
  {
    if paths != [] {
      NoAsking(paths[..|paths| - 1], target, home);
    }
  }

  lemma PrepareTruthful(before: seq<Event>, subroot: bool, nodes: seq<Node>, target: Node, asked: Option<Node>, home: Option<Node>, paths: seq<Node>)
    requires (home.Some? ==> home == asked) && forall n :: n in nodes ==> n in paths
    ensures var done := PrepareLog(subroot, nodes, target, asked, home, paths);
            Truthful(before, done) && Standing(before + done, nodes, target, home)
  {
    hide Truthful, Standing, Flag, CheckLog, Opening;
    var open, check := Opening(nodes, target, asked, home, paths), CheckLog(nodes, target, home);
    var mount := if subroot then [Mounted(Probe), Mounted(Newroot), Unmounted(Probe)] else [Mounted(Newroot)];
    OpeningStands(before, nodes, target, asked, home, paths);
    GoOn(before, open, check, nodes, target, home);
    GoOnQuietly(before, open + check, mount, nodes, target, home);
    GoOnQuietly(before, open + check + mount, [RootChecked(Newroot, true)], nodes, target, home);
    GoOn(before, open + check + mount + [RootChecked(Newroot, true)], check, nodes, target, home);
  }

  lemma SwitchTruthful(before: seq<Event>, nodes: seq<Node>, target: Node, home: Option<Node>)
    requires Standing(before, nodes, target, home)
    ensures Truthful(before, SwitchLog(nodes, target, home))
  {
    hide Truthful, Standing, Flag, CheckLog;
    var check, moves := CheckLog(nodes, target, home), [Moved(Proc), Moved(Sys), Moved(Dev)];
    CheckTruthful(before, nodes, target, home);
    GoOnQuietly(before, check, moves, nodes, target, home);
    GoOn(before, check + moves, check, nodes, target, home);
    GoOnQuietly(before, check + moves + check, [SwitchRoot(nodes, target, home)], nodes, target, home);
  }

  /** A handover asks nothing of a device that it has not set: if the loop saw every
      listed node, each answer it relies on is what the node was last set to, by the
      boot itself. So a device whose flags can be set hands over. */
  lemma HandoverTruthful(before: seq<Event>, subroot: bool, r: PrepareReplies)
    requires forall n :: n in Nodes(r) ==> n in NodesOf(r.globbed)
    ensures Truthful(before, Handover(subroot, r))
  {
    hide Truthful, Standing, Nodes, Target, Asked, PrepareLog, SwitchLog;
    var nodes, target, home := Nodes(r), Target(r), Home(r);
    var done, switch := PrepareLog(subroot, nodes, target, Asked(r), home, NodesOf(r.globbed)), SwitchLog(nodes, target, home);
    PrepareTruthful(before, subroot, nodes, target, Asked(r), home, NodesOf(r.globbed));
    GoOnQuietly(before, done, [SlotTool(true)], nodes, target, home);
    SwitchTruthful(before + (done + [SlotTool(true)]), nodes, target, home);
    TruthfulConcat(before, done + [SlotTool(true)], switch);
  }

  lemma GoOn(before: seq<Event>, done: seq<Event>, check: seq<Event>, nodes: seq<Node>, target: Node, home: Option<Node>)
    requires Truthful(before, done) && Standing(before + done, nodes, target, home) && check == CheckLog(nodes, target, home)
    ensures Truthful(before, done + check) && Standing(before + (done + check), nodes, target, home)
  {
    hide Truthful, Standing, CheckLog;
    CheckTruthful(before + done, nodes, target, home);
    TruthfulConcat(before, done, check);
    assert before + (done + check) == before + done + check;
  }

  lemma GoOnQuietly(before: seq<Event>, done: seq<Event>, more: seq<Event>, nodes: seq<Node>, target: Node, home: Option<Node>)
    requires Truthful(before, done) && Standing(before + done, nodes, target, home)
    requires forall i :: 0 <= i < |more| ==> !Sets(more[i]) && !more[i].Getro?
    ensures Truthful(before, done + more) && Standing(before + (done + more), nodes, target, home)
  {
    hide Truthful, Standing, Sets;
    Quietly(before + done, more, nodes, target, home);
    TruthfulConcat(before, done, more);
    assert before + (done + more) == before + done + more;
  }

  /** A tablet with three nodes that does as it is told. */
  function Willing(): PersistReplies {
    var check := CheckReplies(Some([SDA, "sda31", "sdb"]), true, Some(false), Some(false), true, Some(false), [None, None, Some(true)]);
    PersistReplies(
      PrepareReplies(Some(("sda31", None)), true, true, true, Some([SDA, "sda31", "sdb"]), true, true, true,
                     [(SDA, true), ("sda31", true), ("sdb", true)], check, true, true, true, true, check),
      true, false, true, true, check, true, true, true, check,
      AbortReplies(true, true, Flicker(), None, true, []), Flicker(), true)
  }

  function WillingLock(): LockReplies {
    LockReplies(Some([SDA, "sda31", "sdb"]), [(SDA, true), ("sda31", true), ("sdb", true)],
                [(SDA, Some(true)), ("sda31", Some(true)), ("sdb", Some(true))], Some([SDA, "sda31", "sdb"]))
  }

  lemma WillingFavourable(subroot: bool)
    ensures PersistCause(subroot, Willing()) == NoCause && LockOk(WillingLock())
    ensures Nodes(Willing().prepare) == [SDA, "sda31", "sdb"] && Target(Willing().prepare) == "sda31" && Home(Willing().prepare) == None
  {
    var r := Willing();
    assert r.prepare.globbed[0].0 == SDA && r.prepare.globbed[1].0 == "sda31";
  }

  /** It hands over. */
  method HandoverRun(subroot: bool) returns (gate: Gate)
    ensures fresh(gate) && WaysOut(gate.log) == [SwitchRoot([SDA, "sda31", "sdb"], "sda31", None)]
  {
    hide WaysOut, PersistCause, LockOk, Willing, WillingLock, Nodes, Target, Home;
    gate := new Gate(subroot);
    WillingFavourable(subroot);
    gate.Boot(true, true, WillingLock(), Willing());
  }

  // ----- where a lock covers less than was listed

  /** A node that both listings show and both loops miss. */
  function Flicker(): LockReplies {
    LockReplies(Some([SDA]), [("sdb", true)], [], Some([SDA]))
  }

  lemma FlickerLog()
    ensures LockOk(Flicker())
    ensures LockLog(Flicker()) == [Listed(Some([SDA])), Globbed(["sdb"]), Setro("sdb"), Globbed([]), Listed(Some([SDA]))]
  {
    assert NodesOf(Flicker().sets) == ["sdb"];
    assert NodesOf(Flicker().gets) == [];
  }

  lemma WatchNext(log: seq<Event>, e: Event)
    ensures Watch(log + [e]) == Step(Watch(log), e)
  {
    assert (log + [e])[..|log|] == log;
  }

  lemma FlickerSeen()
    ensures var s := Watch(LockLog(Flicker()));
            s.listed == Some([SDA]) && s.sinceSet == map[] && s.globbed == []
  {
    hide Watch;
    FlickerLog();
    var a, b, c, d, e := Listed(Some([SDA])), Globbed(["sdb"]), Setro("sdb"), Globbed([]), Listed(Some([SDA]));
    WatchNext([], a);
    WatchNext([a], b);
    WatchNext([a, b], c);
    WatchNext([a, b, c], d);
    WatchNext([a, b, c, d], e);
    assert [] + [a] == [a] && [a] + [b] == [a, b] && [a, b] + [c] == [a, b, c];
    assert [a, b, c] + [d] == [a, b, c, d] && [a, b, c, d] + [e] == LockLog(Flicker());
  }

  /** A read-only boot that offers the shell and goes on to stage 2 although the node
      it listed, twice, was never asked: a namespace that changes between the looks
      of one lock can escape it. */
  method FlickerRun() returns (gate: Gate)
    ensures fresh(gate) && gate.ufsSafe
    ensures gate.log == LockLog(Flicker()) + [Telnet, Stage2]
    ensures var s := Watch(LockLog(Flicker()));
            s.listed == Some([SDA]) && SDA !in s.sinceSet && !Verified(s) && !Steady(s)
  {
    hide Watch, LockLog, LockOk;
    gate := new Gate(false);
    var none: PersistReplies := *;
    gate.Boot(false, true, Flicker(), none);
    FlickerLog();
    FlickerSeen();
  }
}

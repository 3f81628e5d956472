/** Replacing an account's opaque Gatekeeper handle: what every crash, failing call or
    cancellation leaves behind. */
module HandleReplace {
  import opened Bytes

  /** What a name in the account directory refers to. */
  datatype File = Missing | OldHandle | Candidate | Scrap

  /** The candidate's bytes, as its size and the runtime's verdict tell them apart. */
  datatype Content = Empty | Partial | Complete | Oversize

  /** `now` is what programs see, `maybe` everything a crash could leave. */
  datatype Name = Name(now: File, maybe: set<File>)

  datatype Dir = Dir(
    handle: Name, temporary: Name, previous: Name,
    candidate: Content,
    synced: bool,       // the candidate's content is durable
    measured: bool)     // fstat found it between 1 and 1024 bytes long

  function Durable(f: File): Name {
    Name(f, {f})
  }

  function Changed(n: Name, f: File): Name {
    Name(f, n.maybe + {f})
  }

  function Settled(n: Name): Name {
    Durable(n.now)
  }

  function Start(): Dir {
    Dir(Durable(OldHandle), Durable(Missing), Durable(Missing), Empty, false, false)
  }

  // ----- what must hold at every point

  /** After a crash here `gatekeeper.handle` is a complete handle, old or new. */
  predicate HandleWhole(d: Dir) {
    && d.handle.now in d.handle.maybe
    && d.handle.maybe <= {OldHandle, Candidate}
    && (Candidate in d.handle.maybe ==> d.synced && d.candidate == Complete)
  }

  /** After a crash here the old handle still has a name, unless the new one is
      durably installed. */
  predicate OldReachable(d: Dir) {
    d.handle.maybe == {Candidate} || d.handle.maybe == {OldHandle} || d.previous.maybe == {OldHandle}
  }

  /** A candidate of plausible size is still there. */
  predicate CandidateKept(d: Dir) {
    d.measured ==> d.temporary.now == Candidate || d.handle.now == Candidate
  }

  predicate Safe(d: Dir) {
    HandleWhole(d) && OldReachable(d) && CandidateKept(d)
  }

  /** What a crash in state `d` can leave in the directory. */
  predicate Leaves(d: Dir, handle: File, previous: File) {
    handle in d.handle.maybe && previous in d.previous.maybe
  }

  lemma CrashKeepsAHandle(d: Dir, handle: File, previous: File)
    requires Safe(d) && Leaves(d, handle, previous)
    ensures handle == OldHandle || (handle == Candidate && d.synced && d.candidate == Complete)
    ensures handle == OldHandle || previous == OldHandle || d.handle.maybe == {Candidate}
  {
    if handle != OldHandle && d.handle.maybe != {Candidate} {
      assert d.handle.maybe == {OldHandle} ==> handle in {OldHandle};
      assert d.previous.maybe == {OldHandle} ==> previous in {OldHandle};
    }
  }

  // ----- the program

  /** What a run meets, in order: whether mkstemp and fchmod work, whether it is
      cancelled before the runtime starts, what the runtime leaves in the file and
      exits with, whether it is cancelled until then, whether fstat and fsync work;
      whether the backup name can be made up, freed, linked and synced; whether it is
      cancelled by now; whether the rename, its sync, the unlink of the backup and its
      sync work. And whether the clean-up's unlink does. */
  datatype Fate = Fate(
    made: bool, chmod: bool, stop: bool, content: Content, status: int, late: bool, stat: bool, fsync: bool,
    scrap: bool, freed: bool, link: bool, linkSync: bool, lastStop: bool,
    rename: bool, renameSync: bool, drop: bool, dropSync: bool, unlink: bool)

  /** Everything works, and the runtime makes a handle. */
  function Smooth(): Fate {
    Fate(true, true, false, Complete, 0, false, true, true, true, true, true, true, false, true, true, true, true, true)
  }

  /** The candidate is requested, measured and made durable. */
  predicate Requested(f: Fate) {
    && f.made && f.chmod && !f.stop && f.status == 0 && !f.late && f.stat && f.fsync
    && (f.content == Partial || f.content == Complete)
  }

  /** The old handle has its second name and nobody objects. */
  predicate BackedUp(f: Fate) {
    f.scrap && f.freed && f.link && f.linkSync && !f.lastStop
  }

  predicate Undisturbed(f: Fate) {
    Requested(f) && BackedUp(f) && f.rename && f.renameSync && f.drop && f.dropSync
  }

  /** The runtime gets to write. */
  predicate Reached(f: Fate) {
    f.made && f.chmod && !f.stop
  }

  /** On success the runtime leaves no half handle. */
  function Made(f: Fate): Content {
    if f.status == 0 && f.content == Partial then Complete else f.content
  }

  class Account {
    var dir: Dir
    var cancelled: bool
    var temporary: bool       // the program still has a temporary name to look after
    var retain: bool
    var statFailed: bool
    ghost var history: seq<Dir>

    constructor ()
      ensures Recorded() && dir == Start() && !temporary && !retain && !cancelled && !statFailed
    {
      dir, cancelled, temporary, retain, statFailed, history := Start(), false, false, false, false, [Start()];
    }

    ghost predicate Recorded()
      reads this
    {
      history != [] && history[|history| - 1] == dir && forall i :: 0 <= i < |history| ==> Safe(history[i])
    }

    /** One successful call that changes the directory or a file. */
    method Put(d: Dir)
      requires Recorded() && Safe(d)
      modifies this`dir, this`history
      ensures Recorded() && dir == d && old(history) <= history
    {
      dir := d;
      history := history + [d];
    }

    /** `run_runtime`: the TA writes what it likes; on success not half a handle. */
    method Runtime(fate: Fate) returns (status: int)
      requires Recorded() && dir.handle == Durable(OldHandle) && !dir.measured && dir.temporary.now == Candidate && !dir.synced
      modifies this`dir, this`history, this`cancelled
      ensures Recorded()
      ensures dir == if old(cancelled) || fate.stop then old(dir) else old(dir).(candidate := Made(fate))
      ensures cancelled == (old(cancelled) || fate.stop || fate.late)
      ensures status == 0 <==> !cancelled && fate.status == 0
    {
      cancelled := cancelled || fate.stop;
      if cancelled {
        cancelled := cancelled || fate.late;
        return 1;
      }
      status := fate.status;
      Put(dir.(candidate := Made(fate)));
      cancelled := cancelled || fate.late;
      if cancelled {
        status := 1;
      }
    }

    /** `retain_temporary`: none when fstat fails. */
    method Measure(fate: Fate) returns (valid: Option<bool>)
      requires Recorded() && dir.temporary.now == Candidate
      modifies this`dir, this`history, this`statFailed
      ensures valid.None? <==> !fate.stat
      ensures statFailed == (old(statFailed) || !fate.stat)
      ensures Recorded() && dir == old(dir).(measured := old(dir).measured || (valid.Some? && valid.value))
      ensures valid.Some? ==> (valid.value <==> dir.candidate == Partial || dir.candidate == Complete)
    {
      if !fate.stat {
        statFailed := true;
        return None;
      }
      valid := Some(dir.candidate == Partial || dir.candidate == Complete);
      if valid.value {
        Put(dir.(measured := true));
      }
    }

    /** The new credential is requested, measured and made durable. */
    method Request(fate: Fate) returns (status: int)
      requires Recorded() && !cancelled && !statFailed && dir == Start().(temporary := dir.temporary) && dir.temporary.now == Candidate && !retain
      modifies this`dir, this`history, this`cancelled, this`retain, this`statFailed
      ensures Recorded() && dir.handle == Durable(OldHandle) && dir.previous == Durable(Missing) && dir.temporary == old(dir).temporary
      ensures retain == dir.measured && (retain <==> !statFailed && (dir.candidate == Partial || dir.candidate == Complete))
      ensures fate.chmod && !fate.stop ==> dir.candidate == Made(fate) && statFailed == !fate.stat
      ensures !fate.chmod || fate.stop ==> dir.candidate == Empty
      ensures status == 0 ==> dir.synced && dir.candidate == Complete && retain && !cancelled
      ensures fate.made ==> (status == 0 <==> Requested(fate))
    {
      if !fate.chmod {
        return 1;
      }
      var result := Runtime(fate);
      var valid := Measure(fate);
      retain := valid.Some? && valid.value;
      if valid.None? || result != 0 || cancelled {
        return 1;
      }
      if !valid.value {
        return 1;
      }
      if !fate.fsync {
        return 1;
      }
      Put(dir.(synced := true));
      status := 0;
    }

    method SyncDirectory(ok: bool)
      requires Recorded()
      modifies this`dir, this`history
      ensures Recorded()
      ensures dir == if ok then old(dir).(handle := Settled(old(dir).handle), temporary := Settled(old(dir).temporary),
                                          previous := Settled(old(dir).previous)) else old(dir)
    {
      if ok {
        Put(dir.(handle := Settled(dir.handle), temporary := Settled(dir.temporary), previous := Settled(dir.previous)));
      }
    }

    /** A second name for the old handle, made durable. */
    method Backup(fate: Fate) returns (ok: bool)
      requires Recorded() && dir.handle == Durable(OldHandle) && dir.previous == Durable(Missing)
      modifies this`dir, this`history
      ensures Recorded() && dir.handle == Durable(OldHandle) && dir.temporary.now == old(dir).temporary.now
      ensures dir.candidate == old(dir).candidate && dir.synced == old(dir).synced && dir.measured == old(dir).measured
      ensures ok ==> dir.previous == Durable(OldHandle)
      ensures ok == (fate.scrap && fate.freed && fate.link && fate.linkSync)
    {
      if !fate.scrap {
        return false;
      }
      Put(dir.(previous := Changed(dir.previous, Scrap)));
      if !fate.freed {
        return false;
      }
      Put(dir.(previous := Changed(dir.previous, Missing)));
      if !fate.link {
        return false;
      }
      Put(dir.(previous := Changed(dir.previous, OldHandle)));
      SyncDirectory(fate.linkSync);
      ok := fate.linkSync;
    }

    /** The replacement itself: rename, sync, drop the backup name, sync. */
    method Install(fate: Fate) returns (status: int)
      requires Recorded() && temporary && !cancelled && dir.handle == Durable(OldHandle) && dir.previous == Durable(Missing)
      requires dir.synced && dir.candidate == Complete && dir.temporary.now == Candidate && dir.measured
      modifies this`dir, this`history, this`cancelled, this`temporary
      ensures Recorded() && dir.measured && dir.candidate == old(dir).candidate
      ensures temporary <==> dir.temporary.now == Candidate
      ensures status == 0 ==> dir.handle == Durable(Candidate) && dir.temporary == Durable(Missing) && dir.previous == Durable(Missing)
      ensures dir.handle.now == OldHandle || dir.handle.now == Candidate
      ensures status == 0 <==> BackedUp(fate) && fate.rename && fate.renameSync && fate.drop && fate.dropSync
    {
      status := 1;
      var ok := Backup(fate);
      if !ok {
        return;
      }
      cancelled := fate.lastStop;
      if cancelled {
        return;
      }
      if !fate.rename {
        return;
      }
      Put(dir.(handle := Changed(dir.handle, Candidate), temporary := Changed(dir.temporary, Missing)));
      temporary := false;
      SyncDirectory(fate.renameSync);
      if !fate.renameSync {
        return;
      }
      if !fate.drop {
        return;
      }
      Put(dir.(previous := Changed(dir.previous, Missing)));
      SyncDirectory(fate.dropSync);
      status := if fate.dropSync then 0 else 1;
    }

    /** The `--change-input` path of `main`, with its clean-up. It succeeds exactly if
        nothing fails and nobody cancels it in time. Where the clean-up's unlink works, a candidate that was written is deleted exactly if it is empty,
        oversize or could not be measured. */
    method ChangeInput(fate: Fate) returns (status: int)
      requires Recorded() && dir == Start() && !temporary && !retain && !cancelled && !statFailed
      modifies this
      ensures Recorded()
      ensures status == 0 ==> dir.handle == Durable(Candidate) && dir.previous == Durable(Missing) && dir.temporary == Durable(Missing)
      ensures !statFailed && (dir.candidate == Partial || dir.candidate == Complete) ==>
        dir.temporary.now == Candidate || dir.handle.now == Candidate
      ensures Reached(fate) ==> dir.candidate == Made(fate) && statFailed == !fate.stat
      ensures Reached(fate) && fate.unlink ==>
        (dir.temporary.now == Missing && dir.handle.now == OldHandle
         <==> statFailed || dir.candidate == Empty || dir.candidate == Oversize)
      ensures dir.handle.now == OldHandle || (dir.handle.now == Candidate && dir.candidate == Complete)
      ensures status == 0 <==> Undisturbed(fate)
    {
      if !fate.made {
        return 1;
      }
      Put(dir.(temporary := Changed(dir.temporary, Candidate)));
      temporary := true;
      status := Request(fate);
      if status == 0 {
        status := Install(fate);
      }
      if temporary && !retain {
        if fate.unlink {
          Put(dir.(temporary := Changed(dir.temporary, Missing)));
        } else {
          status := 1;
        }
      }
    }
  }

  /** A whole handle whose size could not be read is lost. */
  method UnmeasuredIsDeleted() returns (account: Account)
    ensures fresh(account) && account.dir.candidate == Complete
    ensures account.dir.temporary.now == Missing && account.dir.handle.now == OldHandle
  {
    account := new Account();
    var status := account.ChangeInput(Smooth().(stat := false));
  }

  /** So is a candidate of more than 1024 bytes, should the runtime leave one. */
  method OversizeIsDeleted() returns (account: Account)
    ensures fresh(account) && account.dir.candidate == Oversize
    ensures account.dir.temporary.now == Missing && account.dir.handle.now == OldHandle
  {
    account := new Account();
    var status := account.ChangeInput(Smooth().(content := Oversize));
  }

  /** And a run that nothing disturbs replaces the handle. */
  method SmoothRun() returns (account: Account)
    ensures fresh(account) && account.dir.handle == Durable(Candidate) && account.dir.candidate == Complete
    ensures account.dir.temporary == Durable(Missing) && account.dir.previous == Durable(Missing)
  {
    account := new Account();
    var status := account.ChangeInput(Smooth());
  }
}

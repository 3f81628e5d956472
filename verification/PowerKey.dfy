/** The power-key daemon's press classifier, against a description of its whole
    input trace that knows no machine state. */
module PowerKey {
  import opened Bytes

  const LONG_PRESS_MS: int := 1500
  const SHORT_PRESS_MIN_MS: int := 40
  const RECONNECT_MS: int := 1000

  datatype Kind =
    | Press | Repeat | Release | SyncDropped | Disconnect | ReconnectUp | ReconnectDown | Stop
    | Tick                  // poll ran out: only `fsm_advance`
    | Opened(down: bool)    // the daemon found the device: only `fsm_reset`

  /** Times need not be monotone: an event carries its own clock. */
  datatype Step = Step(kind: Kind, at: int)

  datatype Action = Long | Short

  // ----- what the trace says

  /** Ends whatever press is held. */
  predicate Ends(k: Kind) {
    k.Release? || k.SyncDropped? || k.Disconnect? || k.ReconnectUp? || k.ReconnectDown? || k.Stop? || k.Opened?
  }

  /** Ends it and has presses ignored until the next ending. */
  predicate Mutes(k: Kind) {
    k.SyncDropped? || k.ReconnectDown? || k == Opened(true)
  }

  /** The stretch without an ending that reaches up to step `i` starts at `s`. */
  predicate StretchFrom(t: seq<Step>, s: nat, i: nat) {
    s <= i <= |t| && (s == 0 || Ends(t[s - 1].kind)) && forall k :: s <= k < i ==> !Ends(t[k].kind)
  }

  predicate MutedFrom(t: seq<Step>, s: nat)
    requires s <= |t|
  {
    s > 0 && Mutes(t[s - 1].kind)
  }

  /** Step `p` is the press held when step `i` comes: the first press of an unmuted
      stretch. */
  predicate Held(t: seq<Step>, s: nat, p: nat, i: nat) {
    && StretchFrom(t, s, i) && !MutedFrom(t, s)
    && s <= p < i && t[p].kind == Press && forall k :: s <= k < p ==> t[k].kind != Press
  }

  /** By step `i` inclusive or exclusive of it, has the press been held 1500 ms? */
  predicate Overdue(t: seq<Step>, p: nat, i: nat)
    requires p <= i <= |t|
  {
    exists j :: p < j < i && t[j].at - t[p].at >= LONG_PRESS_MS
  }

  /** `long` comes with the first step that finds the held press overdue, whatever it
      is but a stop (or the device's opening). */
  ghost predicate LongAt(t: seq<Step>, i: nat) {
    i < |t| && !t[i].kind.Stop? && !t[i].kind.Opened?
    && exists s: nat, p: nat :: Held(t, s, p, i) && t[i].at - t[p].at >= LONG_PRESS_MS && !Overdue(t, p, i)
  }

  /** `short` comes with the release of a press held from 40 to below 1500 ms that
      was never overdue. */
  ghost predicate ShortAt(t: seq<Step>, i: nat) {
    i < |t| && t[i].kind.Release?
    && exists s: nat, p: nat :: Held(t, s, p, i) && SHORT_PRESS_MIN_MS <= t[i].at - t[p].at < LONG_PRESS_MS && !Overdue(t, p, i)
  }

  ghost function Expected(t: seq<Step>, i: nat): Option<Action> {
    if LongAt(t, i) then Some(Long) else if ShortAt(t, i) then Some(Short) else None
  }

  lemma HeldOnce(t: seq<Step>, s: nat, p: nat, r: nat, q: nat, i: nat)
    requires Held(t, s, p, i) && Held(t, r, q, i)
    ensures s == r && p == q
  {
    if r > 0 {
      assert !Ends(t[r - 1].kind) || r - 1 < s;
    }
    if s > 0 {
      assert !Ends(t[s - 1].kind) || s - 1 < r;
    }
  }

  /** What the held press alone decides about step `i`. */
  lemma Decides(t: seq<Step>, i: nat, s: nat, p: nat)
    requires i < |t| && Held(t, s, p, i)
    ensures LongAt(t, i) <==> !t[i].kind.Stop? && !t[i].kind.Opened? && t[i].at - t[p].at >= LONG_PRESS_MS && !Overdue(t, p, i)
    ensures ShortAt(t, i) <==> t[i].kind.Release? && SHORT_PRESS_MIN_MS <= t[i].at - t[p].at < LONG_PRESS_MS && !Overdue(t, p, i)
  {
    hide Held, Overdue;
    forall r: nat, q: nat | Held(t, r, q, i) ensures r == s && q == p {
      HeldOnce(t, s, p, r, q, i);
    }
  }

  /** A press gets at most one action, long or short. */
  lemma AtMostOneAction(t: seq<Step>, i: nat, j: nat, s: nat, p: nat, r: nat)
    requires i < j < |t| && Held(t, s, p, i) && Held(t, r, p, j)
    requires Expected(t, i).Some?
    ensures Expected(t, j).None?
  {
    Decides(t, i, s, p);
    Decides(t, j, r, p);
    assert !Ends(t[i].kind);
    assert Overdue(t, p, j);
  }

  /** Nothing comes of steps while no press is held: muted, or none made. */
  lemma NothingHeld(t: seq<Step>, i: nat, s: nat)
    requires i < |t| && StretchFrom(t, s, i)
    requires MutedFrom(t, s) || forall k :: s <= k < i ==> t[k].kind != Press
    ensures Expected(t, i).None?
  {
    forall r: nat, q: nat ensures !Held(t, r, q, i) {
      if r > 0 && r <= i {
        assert s <= r - 1 < i ==> !Ends(t[r - 1].kind);
      }
      if s > 0 {
        assert r <= s - 1 < i ==> Ends(t[s - 1].kind);
      }
    }
  }

  // ----- the same, kind by kind

  /** The kinds after which presses are ignored. */
  predicate Deafens(k: Kind) {
    k == SyncDropped || k == ReconnectDown || k == Opened(true)
  }

  /** The kinds after which presses count again. */
  predicate Wakes(k: Kind) {
    k == Release || k == Disconnect || k == ReconnectUp || k == Stop || k == Opened(false)
  }

  /** The kinds that change nothing about who listens. */
  predicate Idle(k: Kind) {
    k == Press || k == Repeat || k == Tick
  }

  lemma {:induction false} LastDeafening(t: seq<Step>, m: nat, i: nat) returns (s: nat)
    requires m < i <= |t| && Deafens(t[m].kind) && forall k :: m < k < i ==> !Wakes(t[k].kind)
    ensures StretchFrom(t, s, i) && MutedFrom(t, s)
    decreases i
  {
    if Deafens(t[i - 1].kind) {
      s := i;
    } else {
      s := LastDeafening(t, m, i - 1);
    }
  }

  /** Once events were lost, or the device came back or was opened with its key down,
      nothing comes of any step up to and including the next that wakes. */
  lemma IgnoredUntilWoken(t: seq<Step>, m: nat, i: nat)
    requires m < i < |t| && Deafens(t[m].kind) && forall k :: m < k < i ==> !Wakes(t[k].kind)
    ensures Expected(t, i) == None
  {
    hide Expected, StretchFrom, MutedFrom;
    var s := LastDeafening(t, m, i);
    NothingHeld(t, i, s);
  }

  /** Step `p` is the first press since the key woke after step `s - 1`, or since the
      start, and nothing but presses, repeats and ticks before 1500 ms came up to `i`. */
  predicate Counting(t: seq<Step>, s: nat, p: nat, i: nat) {
    && s <= p < i < |t| && (s == 0 || Wakes(t[s - 1].kind)) && t[p].kind == Press
    && (forall k :: s <= k < p ==> t[k].kind == Repeat || t[k].kind == Tick)
    && forall k :: p < k < i ==> Idle(t[k].kind) && t[k].at - t[p].at < 1500
  }

  lemma CountingHolds(t: seq<Step>, s: nat, p: nat, i: nat)
    requires Counting(t, s, p, i)
    ensures Held(t, s, p, i) && !Overdue(t, p, i)
  {
  }

  /** Such a press gives `long` at its first step at or past 1500 ms, whatever that
      step is but a stop or an opening; `short` when it is released from 40 ms on and
      before; and nothing in any other case. */
  lemma PressCounts(t: seq<Step>, s: nat, p: nat, i: nat)
    requires Counting(t, s, p, i)
    ensures var held, k := t[i].at - t[p].at, t[i].kind;
            Expected(t, i) ==
              if held >= 1500 && k != Stop && k != Opened(true) && k != Opened(false) then Some(Long)
              else if 40 <= held < 1500 && k == Release then Some(Short)
              else None
  {
    hide Held, Overdue;
    CountingHolds(t, s, p, i);
    Decides(t, i, s, p);
  }

  /** After `long` nothing more comes of the same press. */
  lemma OnceOverdue(t: seq<Step>, s: nat, p: nat, j: nat, i: nat)
    requires s <= p < j < i < |t| && (s == 0 || Wakes(t[s - 1].kind)) && t[p].kind == Press && t[j].at - t[p].at >= 1500
    requires forall k :: s <= k < p ==> t[k].kind == Repeat || t[k].kind == Tick
    requires forall k :: p < k < i ==> Idle(t[k].kind)
    ensures Expected(t, i) == None
  {
    assert Held(t, s, p, i);
    Decides(t, i, s, p);
  }

  // ----- what one more step leaves alone

  lemma StretchExtends(t: seq<Step>, more: Step, s: nat)
    requires StretchFrom(t, s, |t|)
    ensures StretchFrom(t + [more], s, |t|) && (MutedFrom(t + [more], s) <==> MutedFrom(t, s))
    ensures !Ends(more.kind) ==> StretchFrom(t + [more], s, |t| + 1)
    ensures Ends(more.kind) ==> StretchFrom(t + [more], |t| + 1, |t| + 1) && (MutedFrom(t + [more], |t| + 1) <==> Mutes(more.kind))
  {
    var u := t + [more];
    assert forall k :: 0 <= k < |t| ==> u[k] == t[k];
  }

  lemma HeldExtends(t: seq<Step>, more: Step, s: nat, p: nat)
    requires Held(t, s, p, |t|)
    ensures Held(t + [more], s, p, |t|) && (t + [more])[p] == t[p]
    ensures Overdue(t + [more], p, |t|) <==> Overdue(t, p, |t|)
    ensures !Ends(more.kind) ==> Held(t + [more], s, p, |t| + 1)
    ensures Overdue(t + [more], p, |t| + 1) <==> Overdue(t, p, |t|) || more.at - t[p].at >= LONG_PRESS_MS
  {
    var u := t + [more];
    assert forall k :: 0 <= k < |t| ==> u[k] == t[k];
    assert u[|t|] == more;
    if Overdue(t, p, |t|) {
      var j :| p < j < |t| && t[j].at - t[p].at >= LONG_PRESS_MS;
      assert u[j].at - u[p].at >= LONG_PRESS_MS;
    }
  }

  // ----- the machine's state and the trace

  /** The machine's fields, with what they stand for: `from` is where the current
      stretch starts and `press` the held press. */
  datatype Fields = Fields(pressed: bool, longFired: bool, ignore: bool, at: int, from: nat, press: nat)

  predicate Agrees(t: seq<Step>, f: Fields) {
    && StretchFrom(t, f.from, |t|) && (f.ignore <==> MutedFrom(t, f.from)) && !(f.ignore && f.pressed)
    && (f.pressed ==> Held(t, f.from, f.press, |t|) && f.at == t[f.press].at && (f.longFired <==> Overdue(t, f.press, |t|)))
    && (!f.pressed ==> !f.longFired && (f.ignore || forall k :: f.from <= k < |t| ==> t[k].kind != Press))
  }

  /** What the fields decide about the next step. */
  lemma NextAction(t: seq<Step>, e: Step, f: Fields)
    requires Agrees(t, f)
    ensures !(f.ignore && f.pressed) && (f.longFired ==> f.pressed)
    ensures Expected(t + [e], |t|) ==
            if !f.pressed || f.longFired then None
            else if e.at - f.at >= LONG_PRESS_MS then if e.kind.Stop? || e.kind.Opened? then None else Some(Long)
            else if e.kind.Release? && e.at - f.at >= SHORT_PRESS_MIN_MS then Some(Short) else None
  {
    var u := t + [e];
    StretchExtends(t, e, f.from);
    if f.pressed {
      HeldExtends(t, e, f.from, f.press);
      Decides(u, |t|, f.from, f.press);
    } else {
      assert forall k :: 0 <= k < |t| ==> u[k] == t[k];
      NothingHeld(u, |t|, f.from);
    }
  }

  lemma AgreesOn(t: seq<Step>, e: Step, f: Fields)
    requires Agrees(t, f) && !Ends(e.kind) && (e.kind == Press ==> f.pressed || f.ignore)
    ensures Agrees(t + [e], f.(longFired := f.longFired || (f.pressed && e.at - f.at >= LONG_PRESS_MS)))
  {
    StretchExtends(t, e, f.from);
    if f.pressed {
      HeldExtends(t, e, f.from, f.press);
    }
  }

  lemma AgreesPress(t: seq<Step>, e: Step, f: Fields)
    requires Agrees(t, f) && e.kind == Press && !f.pressed && !f.ignore
    ensures Agrees(t + [e], Fields(true, false, false, e.at, f.from, |t|))
  {
    var u := t + [e];
    StretchExtends(t, e, f.from);
    assert forall k :: 0 <= k < |t| ==> u[k] == t[k];
  }

  lemma AgreesEnd(t: seq<Step>, e: Step, f: Fields, at: int)
    requires Agrees(t, f) && Ends(e.kind)
    ensures Agrees(t + [e], Fields(false, false, Mutes(e.kind), at, |t| + 1, f.press))
  {
    StretchExtends(t, e, f.from);
  }

  // ----- the machine

  /** `struct power_fsm`; an operation returns the action it asks the helper for. */
  class PowerFsm {
    var pressed: bool
    var longFired: bool
    var ignoreUntilRelease: bool
    var pressedAt: int
    ghost var trace: seq<Step>
    ghost var from: nat
    ghost var press: nat

    constructor ()
      ensures Valid() && trace == []
    {
      pressed, longFired, ignoreUntilRelease, pressedAt := false, false, false, 0;
      trace, from, press := [], 0, 0;
    }

    ghost function Now(): Fields
      reads this
    {
      Fields(pressed, longFired, ignoreUntilRelease, pressedAt, from, press)
    }

    ghost predicate Valid()
      reads this
    {
      Agrees(trace, Now())
    }

    /** `fsm_reset` */
    method Reset(ignore: bool)
      modifies this`pressed, this`longFired, this`ignoreUntilRelease, this`pressedAt
      ensures !pressed && !longFired && ignoreUntilRelease == ignore
    {
      pressed, longFired, ignoreUntilRelease, pressedAt := false, false, ignore, 0;
    }

    /** `fsm_advance` */
    method Advance(now: int) returns (fired: bool)
      modifies this`longFired
      ensures fired <==> pressed && !old(longFired) && !ignoreUntilRelease && now - pressedAt >= LONG_PRESS_MS
      ensures longFired == (old(longFired) || fired)
    {
      if !pressed || longFired || ignoreUntilRelease {
        return false;
      }
      if now - pressedAt < LONG_PRESS_MS {
        return false;
      }
      longFired := true;
      return true;
    }

    /** A poll that ran out. */
    method OnTick(now: int) returns (action: Option<Action>)
      requires Valid()
      modifies this
      ensures Valid() && trace == old(trace) + [Step(Tick, now)] && action == Expected(trace, |trace| - 1)
    {
      hide Agrees, Expected;
      ghost var e := Step(Tick, now);
      NextAction(trace, e, Now());
      AgreesOn(trace, e, Now());
      var fired := Advance(now);
      action := if fired then Some(Long) else None;
      trace := trace + [e];
    }

    /** The device was found, with the key down or up. */
    method OnOpened(down: bool, now: int)
      requires Valid()
      modifies this
      ensures Valid() && trace == old(trace) + [Step(Opened(down), now)] && Expected(trace, |trace| - 1) == None
    {
      hide Agrees, Expected;
      ghost var e := Step(Opened(down), now);
      NextAction(trace, e, Now());
      AgreesEnd(trace, e, Now(), 0);
      Reset(down);
      pressedAt := 0;
      trace := trace + [e];
      from := |trace|;
    }

    /** `fsm_handle`: whether to go on, and the action. */
    method Handle(event: Kind, now: int) returns (more: bool, action: Option<Action>)
      requires Valid() && !event.Tick? && !event.Opened?
      modifies this
      ensures Valid() && trace == old(trace) + [Step(event, now)] && action == Expected(trace, |trace| - 1)
      ensures more <==> event != Stop
    {
      hide Agrees, Expected;
      ghost var e := Step(event, now);
      ghost var before := Now();
      NextAction(trace, e, before);
      if !Ends(event) && !(event == Press && !pressed && !ignoreUntilRelease) {
        AgreesOn(trace, e, before);
      }
      if event == Press && !pressed && !ignoreUntilRelease {
        AgreesPress(trace, e, before);
      }
      action, more := None, true;
      if event != Stop {
        var fired := Advance(now);
        action := if fired then Some(Long) else None;
      }
      match event {
        case Press =>
          if !ignoreUntilRelease && !pressed {
            pressed, longFired, pressedAt := true, false, now;
            press := |trace|;
          }
        case Repeat =>
        case Release =>
          if ignoreUntilRelease {
            Reset(false);
          } else if pressed {
            var held, fired := now - pressedAt, longFired;
            Reset(false);
            if !fired && held >= SHORT_PRESS_MIN_MS {
              action := Some(Short);
            }
          }
        case SyncDropped => Reset(true);
        case ReconnectDown => Reset(true);
        case Disconnect => Reset(false);
        case ReconnectUp => Reset(false);
        case Stop =>
          Reset(false);
          more := false;
      }
      if Ends(event) {
        AgreesEnd(trace, e, before, pressedAt);
        from := |trace| + 1;
      }
      trace := trace + [e];
    }

    /** `poll_timeout_ms`: with a press pending the daemon wakes no later than its
        deadline, and asks for no wait only when the deadline has come. */
    method PollTimeout(now: int) returns (wait: int)
      ensures 0 <= wait <= 1000
      ensures pressed && !longFired && !ignoreUntilRelease ==>
        && (now + wait <= pressedAt + 1500 || wait == 0)
        && (wait == 0 <==> now - pressedAt >= 1500)
        && (wait < 1000 && wait != 0 ==> now + wait == pressedAt + 1500)
      ensures !(pressed && !longFired && !ignoreUntilRelease) ==> wait == 1000
    {
      if !pressed || longFired || ignoreUntilRelease {
        return RECONNECT_MS;
      }
      var remaining := pressedAt + LONG_PRESS_MS - now;
      if remaining <= 0 {
        return 0;
      }
      if remaining > RECONNECT_MS {
        return RECONNECT_MS;
      }
      return remaining;
    }
  }

  /** `run_test_script` over a whole script: the actions asked for are exactly those
      the trace calls for, step by step, up to and including a stop. */
  method RunScript(script: seq<Step>) returns (actions: seq<Option<Action>>)
    requires forall k :: 0 <= k < |script| ==> !script[k].kind.Opened?
    ensures |actions| <= |script|
    ensures |actions| < |script| ==> actions != [] && script[|actions| - 1].kind == Stop
    ensures forall k :: 0 <= k < |actions| - 1 ==> script[k].kind != Stop
    ensures forall k :: 0 <= k < |actions| ==> actions[k] == Expected(script, k)
  {
    hide Agrees, Expected;
    var fsm := new PowerFsm();
    actions := [];
    var i := 0;
    while i < |script|
      invariant i == |actions| <= |script| && fsm.Valid() && fsm.trace == script[..i] && fresh(fsm)
      invariant forall k :: 0 <= k < i ==> script[k].kind != Stop
      invariant forall k :: 0 <= k < i ==> actions[k] == Expected(script[..i], k)
    {
      var action: Option<Action>;
      var more := true;
      if script[i].kind.Tick? {
        action := fsm.OnTick(script[i].at);
      } else {
        more, action := fsm.Handle(script[i].kind, script[i].at);
      }
      assert script[..i] + [script[i]] == script[..i + 1];
      forall k | 0 <= k < i ensures Expected(script[..i], k) == Expected(script[..i + 1], k) {
        ExpectedPrefix(script[..i + 1], k, i);
      }
      actions := actions + [action];
      i := i + 1;
      if !more {
        break;
      }
    }
    forall k | 0 <= k < |actions| ensures Expected(script[..|actions|], k) == Expected(script, k) {
      ExpectedPrefix(script, k, |actions|);
    }
  }

  /** Later steps never change what was called for. */
  lemma ExpectedPrefix(t: seq<Step>, i: nat, n: nat)
    requires i < n <= |t|
    ensures Expected(t[..n], i) == Expected(t, i)
  {
    var u := t[..n];
    forall s: nat, p: nat ensures Held(u, s, p, i) <==> Held(t, s, p, i) {
      if s <= i {
        assert StretchFrom(u, s, i) <==> StretchFrom(t, s, i);
      }
    }
    forall p: nat | p <= i ensures Overdue(u, p, i) <==> Overdue(t, p, i) {
      if Overdue(t, p, i) {
        var j :| p < j < i && t[j].at - t[p].at >= LONG_PRESS_MS;
        assert u[j].at - u[p].at >= LONG_PRESS_MS;
      }
    }
  }
}

/** The desktop driver's reader of the enrolment provider's output lines, against a
    description of the whole line stream. */
module EnrolProgress {
  import opened Bytes

  const LIMIT: nat := 40

  datatype Line =
    | Cleaned                                   // native_enrol_cleanup=OK
    | Succeeded                                 // native_enrol=OK single_finger_database=1
    | Existing                                  // native_enrol=REFUSED existing_template=1
    | Progress(status: int, remaining: nat)     // enrol_progress_status=... remaining=...
    | Rejected                                  // capture_rejected=...
    | Other

  /** What the framework is told: a completed stage, or a retry at that stage. */
  datatype Callback = Stage(number: int) | Retry(number: int)

  // ----- what a line stream amounts to

  /** The remaining counts of the usable progress lines, in order. */
  function Remainings(lines: seq<Line>): seq<nat> {
    if lines == [] then []
    else
      var last := lines[|lines| - 1];
      Remainings(lines[..|lines| - 1]) + if Usable(last) then [last.remaining] else []
  }

  predicate Usable(line: Line) {
    line.Progress? && line.status >= 0 && line.remaining < LIMIT
  }

  function Least(counts: seq<nat>): nat
    requires counts != []
  {
    if |counts| == 1 then counts[0] else Min(Least(counts[..|counts| - 1]), counts[|counts| - 1])
  }

  /** The first usable line fixes the number of stages. */
  function Stages(counts: seq<nat>): nat {
    if counts == [] then 0 else counts[0] + 1
  }

  /** Stages done: down to the least count ever reported, the last one held back. */
  function Done(counts: seq<nat>): int {
    if counts == [] then 0
    else if Least(counts) == 0 then Stages(counts) - 1 else Stages(counts) - Least(counts)
  }

  /** What one line is answered with when `counts` came before it: every stage it
      completes, or a retry at the stage reached. */
  function Answer(counts: seq<nat>, line: Line): seq<Callback> {
    if line.Rejected? then [Retry(Done(counts))]
    else if !line.Progress? then []
    else if Usable(line) && (counts == [] || line.remaining < Least(counts)) then
      Steps(Done(counts), Done(counts + [line.remaining]))
    else [Retry(Done(counts))]
  }

  function Steps(done: int, now: int): seq<Callback>
    decreases now - done
  {
    if now <= done then [] else Steps(done, now - 1) + [Stage(now)]
  }

  /** Every callback of a stream. */
  function Answers(lines: seq<Line>): seq<Callback> {
    if lines == [] then []
    else Answers(lines[..|lines| - 1]) + Answer(Remainings(lines[..|lines| - 1]), lines[|lines| - 1])
  }

  function UpTo(n: nat): (s: seq<int>)
    ensures |s| == n && forall i :: 0 <= i < n ==> s[i] == i + 1
  {
    seq(n, i => i + 1)
  }

  lemma UpToNext(n: nat)
    ensures UpTo(n + 1) == UpTo(n) + [n + 1]
  {
  }

  function StagesOf(callbacks: seq<Callback>): seq<int> {
    if callbacks == [] then []
    else
      var last := callbacks[|callbacks| - 1];
      StagesOf(callbacks[..|callbacks| - 1]) + if last.Stage? then [last.number] else []
  }

  ghost predicate CleanedThenSucceeded(lines: seq<Line>) {
    exists i, j :: 0 <= i < j < |lines| && lines[i] == Cleaned && lines[j] == Succeeded
  }

  lemma {:induction false} LeastBounds(counts: seq<nat>)
    requires counts != []
    ensures Least(counts) in counts && forall i :: 0 <= i < |counts| ==> Least(counts) <= counts[i]
  {
    if |counts| > 1 {
      var before := counts[..|counts| - 1];
      LeastBounds(before);
      assert forall i :: 0 <= i < |before| ==> counts[i] == before[i];
    }
  }

  /** Reports never walk back: a stage done stays done, and only the last is reserved. */
  lemma DoneGrows(counts: seq<nat>, more: nat)
    ensures 0 <= Done(counts) <= Done(counts + [more])
    ensures counts != [] ==> Done(counts + [more]) < Stages(counts)
  {
    var longer := counts + [more];
    if counts != [] {
      assert longer[..|longer| - 1] == counts;
      LeastBounds(counts);
    }
  }

  lemma {:induction false} StagesAppend(a: seq<Callback>, b: seq<Callback>)
    ensures StagesOf(a + b) == StagesOf(a) + StagesOf(b)
    decreases |b|
  {
    if b == [] {
      assert a + b == a;
    } else {
      var k := |b| - 1;
      assert (a + b)[..|a + b| - 1] == a + b[..k];
      StagesAppend(a, b[..k]);
    }
  }

  lemma {:induction false} StagesOfSteps(done: nat, now: nat)
    requires done <= now
    ensures UpTo(done) + StagesOf(Steps(done, now)) == UpTo(now)
    decreases now - done
  {
    if done < now {
      StagesOfSteps(done, now - 1);
      StagesAppend(Steps(done, now - 1), [Stage(now)]);
      assert StagesOf([Stage(now)]) == [now];
      UpToNext(now - 1);
    }
  }

  /** For every stream the completed stages are announced once each, in order, up to
      the number the stream amounts to; everything else announced is a retry. */
  lemma {:induction false} AnswersCountUp(lines: seq<Line>)
    ensures Done(Remainings(lines)) >= 0 && StagesOf(Answers(lines)) == UpTo(Done(Remainings(lines)))
    decreases |lines|
  {
    hide UpTo, StagesOf, Steps, Done;
    if lines == [] {
      NothingDone();
    } else {
      var before, last := lines[..|lines| - 1], lines[|lines| - 1];
      var counts := Remainings(before);
      AnswersCountUp(before);
      StagesAppend(Answers(before), Answer(counts, last));
      AnswerCounts(counts, last);
      assert Remainings(lines) == if Usable(last) then counts + [last.remaining] else counts;
    }
  }

  lemma NothingDone()
    ensures Done([]) == 0 && StagesOf([]) == UpTo(0)
  {
  }

  lemma AnswerCounts(counts: seq<nat>, line: Line)
    ensures var after := if Usable(line) then counts + [line.remaining] else counts;
            0 <= Done(counts) <= Done(after) && UpTo(Done(counts)) + StagesOf(Answer(counts, line)) == UpTo(Done(after))
  {
    hide UpTo, Steps;
    var done := Done(counts);
    DoneGrows(counts, if Usable(line) then line.remaining else 0);
    if Usable(line) && (counts == [] || line.remaining < Least(counts)) {
      StagesOfSteps(done, Done(counts + [line.remaining]));
    } else {
      if Usable(line) {
        LeastStays(counts, line.remaining);
      }
      assert StagesOf(Answer(counts, line)) == [];
    }
  }

  lemma LeastStays(counts: seq<nat>, more: nat)
    requires counts != [] && more >= Least(counts)
    ensures Done(counts + [more]) == Done(counts)
  {
    assert (counts + [more])[..|counts|] == counts;
  }

  // ----- the same, from the lines themselves

  /** A progress line that counts. */
  predicate Counts(line: Line) {
    line.Progress? && line.status >= 0 && line.remaining < 40
  }

  predicate FirstCount(lines: seq<Line>, first: nat) {
    first < |lines| && Counts(lines[first]) && forall k :: 0 <= k < first ==> !Counts(lines[k])
  }

  predicate LowestCount(lines: seq<Line>, least: nat) {
    && least < |lines| && Counts(lines[least])
    && forall k :: 0 <= k < |lines| && Counts(lines[k]) ==> lines[least].remaining <= lines[k].remaining
  }

  lemma {:induction false} CountsFirst(lines: seq<Line>, first: nat)
    requires FirstCount(lines, first)
    ensures Remainings(lines) != [] && Remainings(lines)[0] == lines[first].remaining
    decreases |lines|
  {
    var before := lines[..|lines| - 1];
    if first < |before| {
      CountsFirst(before, first);
    } else {
      NothingCounts(before);
    }
  }

  lemma {:induction false} NothingCounts(lines: seq<Line>)
    requires forall k :: 0 <= k < |lines| ==> !Counts(lines[k])
    ensures Remainings(lines) == []
    decreases |lines|
  {
    if lines != [] {
      NothingCounts(lines[..|lines| - 1]);
    }
  }

  lemma {:induction false} CountIsIn(lines: seq<Line>, k: nat)
    requires k < |lines| && Counts(lines[k])
    ensures lines[k].remaining in Remainings(lines)
    decreases |lines|
  {
    if k < |lines| - 1 {
      CountIsIn(lines[..|lines| - 1], k);
    }
  }

  lemma {:induction false} CountIsFrom(lines: seq<Line>, n: nat) returns (k: nat)
    requires n in Remainings(lines)
    ensures k < |lines| && Counts(lines[k]) && lines[k].remaining == n
    decreases |lines|
  {
    var before := lines[..|lines| - 1];
    if n in Remainings(before) {
      k := CountIsFrom(before, n);
    } else {
      k := |lines| - 1;
    }
  }

  lemma LowestIsLeast(lines: seq<Line>, least: nat)
    requires LowestCount(lines, least)
    ensures Remainings(lines) != [] && Least(Remainings(lines)) == lines[least].remaining
  {
    hide Remainings, Least;
    CountIsIn(lines, least);
    LeastBounds(Remainings(lines));
    var k := CountIsFrom(lines, Least(Remainings(lines)));
  }

  /** The stages reported are 1, 2, ..., one for every count from the first down to
      the lowest, zero aside. */
  lemma StagesReported(lines: seq<Line>, first: nat, least: nat)
    requires FirstCount(lines, first) && LowestCount(lines, least)
    ensures var top, low := lines[first].remaining, lines[least].remaining;
            var n := if low == 0 then top else top + 1 - low;
            n >= 0 && StagesOf(Answers(lines)) == UpTo(n)
  {
    hide Remainings, StagesOf, Answers, Least, UpTo;
    AnswersCountUp(lines);
    CountsFirst(lines, first);
    LowestIsLeast(lines, least);
  }

  /** None are before a line that counts. */
  lemma NoStages(lines: seq<Line>)
    requires forall k :: 0 <= k < |lines| ==> !Counts(lines[k])
    ensures StagesOf(Answers(lines)) == []
  {
    hide Remainings, StagesOf, Answers, UpTo;
    AnswersCountUp(lines);
    NothingCounts(lines);
    assert UpTo(0) == [];
  }

  /** The line counts, and lower than all before it. */
  predicate Lowers(lines: seq<Line>, line: Line) {
    Counts(line) && forall k :: 0 <= k < |lines| && Counts(lines[k]) ==> line.remaining < lines[k].remaining
  }

  lemma LowersLeast(lines: seq<Line>, line: Line)
    requires Counts(line)
    ensures Lowers(lines, line) <==> Remainings(lines) == [] || line.remaining < Least(Remainings(lines))
  {
    hide Remainings, Least;
    if Remainings(lines) != [] {
      LeastBounds(Remainings(lines));
      var k := CountIsFrom(lines, Least(Remainings(lines)));
    }
    forall k | 0 <= k < |lines| && Counts(lines[k]) ensures lines[k].remaining in Remainings(lines) {
      CountIsIn(lines, k);
    }
  }

  lemma {:induction false} StepsAre(done: int, now: int)
    ensures |Steps(done, now)| == if done < now then now - done else 0
    ensures forall i :: 0 <= i < |Steps(done, now)| ==> Steps(done, now)[i] == Stage(done + 1 + i)
    decreases now - done
  {
    if done < now {
      StepsAre(done, now - 1);
    }
  }

  /** What one more line adds: a retry at the stage reached, for a rejected capture or
      a progress line that does not lower the count; the next stages, for one that
      does; nothing, for any other. */
  lemma LineAdds(lines: seq<Line>, line: Line) returns (added: seq<Callback>)
    ensures Answers(lines + [line]) == Answers(lines) + added
    ensures var reached := |StagesOf(Answers(lines))|;
            && (line == Rejected || (line.Progress? && !Lowers(lines, line)) ==> added == [Retry(reached)])
            && (Lowers(lines, line) ==> forall i :: 0 <= i < |added| ==> added[i] == Stage(reached + 1 + i))
            && (line == Cleaned || line == Succeeded || line == Existing || line == Other ==> added == [])
  {
    hide Remainings, Least, Lowers, UpTo, Done, Steps, StagesOf;
    assert (lines + [line])[..|lines|] == lines;
    var counts := Remainings(lines);
    added := Answer(counts, line);
    AnswersCountUp(lines);
    if Counts(line) {
      LowersLeast(lines, line);
      StepsAre(Done(counts), Done(counts + [line.remaining]));
    }
    NotLower(lines, line);
  }

  lemma NotLower(lines: seq<Line>, line: Line)
    ensures Lowers(lines, line) ==> Counts(line)
  {
  }

  // ----- the reader

  datatype Outcome = Print | Cancelled | Failed

  class Device {
    var stages: nat
    var remaining: nat
    var completed: nat
    var cancelled: bool
    var cleaned: bool
    var succeeded: bool
    var existing: bool
    var failed: bool          // reading the stream failed
    var callbacks: seq<Callback>
    ghost var lines: seq<Line>

    constructor ()
      ensures Valid() && lines == [] && callbacks == []
    {
      stages, remaining, completed := 0, 0, 0;
      cancelled, cleaned, succeeded, existing, failed := false, false, false, false, false;
      callbacks, lines := [], [];
    }

    /** The stage callbacks so far are 1, 2, ..., `completed`; without a cancellation
        the callbacks are exactly the answers to the lines. */
    ghost predicate Valid()
      reads this
    {
      && StagesOf(callbacks) == UpTo(completed)
      && (!cancelled ==> Counting(Remainings(lines)) && callbacks == Answers(lines))
      && (cleaned <==> Cleaned in lines)
      && (succeeded <==> CleanedThenSucceeded(lines)) && (succeeded ==> cleaned)
    }

    ghost predicate Counting(counts: seq<nat>)
      reads this
    {
      stages == Stages(counts) && completed == Done(counts) && (counts != [] ==> remaining == Least(counts))
    }

    method Cancel()
      requires Valid()
      modifies this`cancelled
      ensures Valid() && cancelled && lines == old(lines)
    {
      cancelled := true;
    }

    /** `fpi_device_enroll_progress`; its receiver may cancel from inside. */
    method Report(c: Callback)
      modifies this`callbacks, this`cancelled
      ensures callbacks == old(callbacks) + [c]
      ensures StagesOf(callbacks) == StagesOf(old(callbacks)) + if c.Stage? then [c.number] else []
      ensures old(cancelled) ==> cancelled
    {
      assert (callbacks + [c])[..|callbacks|] == callbacks;
      callbacks := callbacks + [c];
      var now: bool := *;
      cancelled := cancelled || now;
    }

    /** `enrol_retry` */
    method ReportRetry()
      requires StagesOf(callbacks) == UpTo(completed)
      modifies this`callbacks, this`cancelled
      ensures StagesOf(callbacks) == UpTo(completed)
      ensures old(cancelled) ==> cancelled && callbacks == old(callbacks)
      ensures !old(cancelled) ==> callbacks == old(callbacks) + [Retry(completed)]
    {
      if !cancelled {
        Report(Retry(completed));
      }
    }

    /** One `enrol_progress_status` line that is read while not cancelled. */
    method OnProgress(status: int, count: nat)
      requires StagesOf(callbacks) == UpTo(completed) && !cancelled && Counting(Remainings(lines))
      modifies this`callbacks, this`cancelled, this`stages, this`remaining, this`completed
      ensures StagesOf(callbacks) == UpTo(completed)
      ensures !cancelled ==> Counting(Remainings(lines + [Progress(status, count)]))
      ensures !cancelled ==> callbacks == old(callbacks) + Answer(Remainings(lines), Progress(status, count))
    {
      hide StagesOf, UpTo, Least, Steps;
      ghost var counts := Remainings(lines);
      assert (lines + [Progress(status, count)])[..|lines|] == lines;
      if status < 0 || count >= LIMIT {
        assert Remainings(lines + [Progress(status, count)]) == counts;
        ReportRetry();
        return;
      }
      Next(counts, count);
      if stages == 0 {
        stages, remaining := count + 1, count + 1;
      }
      if count >= remaining {
        ReportRetry();
        return;
      }
      remaining := count;
      var target := if stages - count > stages - 1 then stages - 1 else stages - count;
      Announce(target);
    }

    /** Every stage newly completed is reported on its own. */
    method Announce(target: int)
      requires StagesOf(callbacks) == UpTo(completed)
      modifies this`callbacks, this`cancelled, this`completed
      ensures StagesOf(callbacks) == UpTo(completed)
      ensures old(completed) <= completed && (completed == old(completed) || completed <= target)
      ensures !cancelled ==> completed >= target
      ensures callbacks == old(callbacks) + Steps(old(completed), completed)
    {
      hide UpTo, StagesOf;
      while !cancelled && completed < target
        invariant StagesOf(callbacks) == UpTo(completed)
        invariant callbacks == old(callbacks) + Steps(old(completed), completed)
        invariant old(completed) <= completed && (completed <= target || completed == old(completed))
        decreases target - completed
      {
        completed := completed + 1;
        Report(Stage(completed));
        UpToNext(completed - 1);
      }
    }

    /** How one more usable count changes the summary. */
    lemma Next(counts: seq<nat>, more: nat)
      ensures Stages(counts + [more]) == if counts == [] then more + 1 else Stages(counts)
      ensures Least(counts + [more]) == if counts == [] then more else Min(Least(counts), more)
      ensures counts != [] ==> Least(counts) < Stages(counts) && Done(counts) <= Done(counts + [more])
    {
      assert (counts + [more])[..|counts|] == counts;
      if counts != [] {
        LeastBounds(counts);
      }
    }

    /** `enrol_status_line` */
    method OnLine(line: Line)
      requires Valid()
      modifies this
      ensures Valid() && lines == old(lines) + [line]
      ensures failed == old(failed)
    {
      hide StagesOf, UpTo, Remainings, CleanedThenSucceeded, Least, Done, Steps, Answer, Answers, Stages;
      Summary(lines, line);
      AnswersNext(lines, line);
      PlainAnswers(Remainings(lines), line);
      match line {
        case Cleaned => cleaned := true;
        case Succeeded => succeeded := cleaned;
        case Existing => existing := true;
        case Progress(status, count) =>
          if !cancelled {
            OnProgress(status, count);
          }
        case Rejected => ReportRetry();
        case Other =>
      }
      lines := lines + [line];
    }

    lemma PlainAnswers(counts: seq<nat>, line: Line)
      ensures line.Rejected? ==> Answer(counts, line) == [Retry(Done(counts))]
      ensures !line.Rejected? && !line.Progress? ==> Answer(counts, line) == []
    {
    }

    lemma AnswersNext(before: seq<Line>, line: Line)
      ensures Answers(before + [line]) == Answers(before) + Answer(Remainings(before), line)
    {
      assert (before + [line])[..|before|] == before;
    }

    lemma Summary(before: seq<Line>, line: Line)
      ensures Cleaned in before + [line] <==> Cleaned in before || line == Cleaned
      ensures CleanedThenSucceeded(before + [line]) <==> CleanedThenSucceeded(before) || (Cleaned in before && line == Succeeded)
      ensures !line.Progress? ==> Remainings(before + [line]) == Remainings(before)
    {
      var after := before + [line];
      assert after[..|before|] == before;
      if CleanedThenSucceeded(before) {
        var i, j :| 0 <= i < j < |before| && before[i] == Cleaned && before[j] == Succeeded;
        assert after[i] == Cleaned && after[j] == Succeeded;
      }
      if Cleaned in before && line == Succeeded {
        var i :| 0 <= i < |before| && before[i] == Cleaned;
        assert after[i] == Cleaned && after[|before|] == Succeeded;
      }
    }

    /** `enrol_finished`; `exit` is the provider's exit status if it exited, `loaded`
        whether its database could be read. */
    method Finished(exit: Option<int>, aborted: bool, loaded: bool) returns (outcome: Outcome)
      requires Valid()
      ensures outcome == Print <==>
              exit == Some(0) && CleanedThenSucceeded(lines) && !failed && !cancelled && !aborted && loaded
      ensures outcome == Outcome.Cancelled <==> (cancelled || aborted) && Cleaned in lines
    {
      var gone := cancelled || aborted;
      var good := exit == Some(0) && cleaned && succeeded && !failed;
      if gone && cleaned {
        return Outcome.Cancelled;
      }
      if failed {
        return Failed;
      }
      if !good || gone {
        return Failed;
      }
      outcome := if loaded then Print else Failed;
    }
  }

  /** A whole stream that is read without a cancellation: the completed stages are
      reported as 1, 2, ..., k, where k is the number of stages the first usable line
      announced, less the least remaining count, and at least one less than all. */
  method ReadStream(stream: seq<Line>) returns (device: Device)
    ensures fresh(device) && device.Valid() && device.lines == stream
    ensures !device.cancelled ==> device.callbacks == Answers(stream)
    ensures !device.cancelled ==> StagesOf(device.callbacks) == UpTo(Done(Remainings(stream)))
  {
    device := new Device();
    for i := 0 to |stream|
      invariant device.Valid() && device.lines == stream[..i] && fresh(device)
    {
      var stop: bool := *;
      if stop {
        device.Cancel();
      }
      device.OnLine(stream[i]);
      assert stream[..i] + [stream[i]] == stream[..i + 1];
    }
    assert stream[..|stream|] == stream;
  }
}

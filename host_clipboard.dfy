/**
  The clipboard poller: a session that watches the host clipboard until the
  game has written item text to it or a time budget runs out, and a throttled
  "change the clipboard now, put it back shortly" helper.

  The host clipboard is the field `clipboard`; other programs (the game above
  all) may overwrite it between calls. Each firing of a timer is a call the
  environment makes: `PollTick` for the poll timer, `RestoreTimerFires` for
  the restore timer.
 */
module ClipboardPoller {
  import opened ItemText

  /** Time between two reads of the clipboard during a session. */
  const PollDelay: int := 48
  /** A session that has waited this long without item text times out. */
  const PollLimit: int := 500

  /** What one poll leaves the session in. */
  datatype Outcome = Pending | Resolved(text: string) | TimedOut

  /** The outcome of a poll and the session's elapsed time after it. */
  datatype Step = Step(outcome: Outcome, elapsed: int)

  /** Text on which a poll cannot resolve: neither item text nor uncut gem text. */
  predicate Fails(read: string)
  {
    !IsPoeItem(read) && !IsUncutSkillGem(read)
  }

  /**
    One firing of the poll timer, given the time already spent and the
    clipboard text it reads.
   */
  function Poll(elapsed: int, read: string): (s: Step)
    ensures s.outcome.Resolved? <==> !Fails(read)
    ensures s.outcome.Resolved? ==> IsPoeItem(s.outcome.text) && s.elapsed == elapsed
    ensures s.outcome.Resolved? ==>
      s.outcome.text == if IsUncutSkillGem(read) then UncutGemClassLine + read else read
    ensures Fails(read) ==> s.elapsed == elapsed + PollDelay
    ensures Fails(read) ==> (s.outcome.Pending? <==> elapsed + PollDelay < PollLimit)
  {
    CorrectionAccepts(read);
    if !Fails(read) then Step(Resolved(CorrectUncutGem(read)), elapsed)
    else if elapsed + PollDelay < PollLimit then Step(Pending, elapsed + PollDelay)
    else Step(TimedOut, elapsed + PollDelay)
  }

  /** Where a session stands after a run of polls, and how many polls it took. */
  datatype Run = Run(outcome: Outcome, elapsed: int, ticks: nat)

  /**
    Successive firings of the poll timer, the i-th reading `seen[i]`, until
    the session ends or the reads run out.
   */
  function RunTicks(elapsed: int, seen: seq<string>): (r: Run)
    ensures r.ticks <= |seen|
    ensures r.outcome.Pending? ==> r.ticks == |seen|
    decreases |seen|
  {
    if |seen| == 0 then Run(Pending, elapsed, 0)
    else
      var s := Poll(elapsed, seen[0]);
      if s.outcome.Pending? then
        var rest := RunTicks(s.elapsed, seen[1..]);
        Run(rest.outcome, rest.elapsed, rest.ticks + 1)
      else
        Run(s.outcome, s.elapsed, 1)
  }

  /**
    Polls that keep reading text that fails run the session out: the n-th
    one, the first to bring the elapsed time to the limit, times out.
   */
  lemma {:induction false} FailingTicksTimeOut(elapsed: int, seen: seq<string>, n: nat)
    requires 1 <= n <= |seen|
    requires forall j | 0 <= j < n :: Fails(seen[j])
    requires elapsed + PollDelay * (n - 1) < PollLimit <= elapsed + PollDelay * n
    ensures RunTicks(elapsed, seen) == Run(TimedOut, elapsed + PollDelay * n, n)
    decreases n
  {
    if n > 1 {
      FailingTickContinues(elapsed, seen);
      forall j | 0 <= j < n - 1
        ensures Fails(seen[1..][j])
      {
        assert seen[1..][j] == seen[j + 1];
      }
      FailingTicksTimeOut(elapsed + PollDelay, seen[1..], n - 1);
    } else {
      assert Poll(elapsed, seen[0]) == Step(TimedOut, elapsed + PollDelay) by {
        assert Fails(seen[0]);
      }
    }
  }

  /** While the limit is not reached, polls that read failing text leave the session pending. */
  lemma {:induction false} FailingTicksPending(elapsed: int, seen: seq<string>)
    requires forall j | 0 <= j < |seen| :: Fails(seen[j])
    requires elapsed + PollDelay * |seen| < PollLimit
    ensures RunTicks(elapsed, seen) == Run(Pending, elapsed + PollDelay * |seen|, |seen|)
    decreases |seen|
  {
    if |seen| > 0 {
      FailingTickContinues(elapsed, seen);
      forall j | 0 <= j < |seen| - 1
        ensures Fails(seen[1..][j])
      {
        assert seen[1..][j] == seen[j + 1];
      }
      FailingTicksPending(elapsed + PollDelay, seen[1..]);
    }
  }

  /**
    The first read that is item text (or uncut gem text) within the time
    budget resolves the session with that text, corrected.
   */
  lemma {:induction false} FirstItemResolves(elapsed: int, seen: seq<string>, k: nat)
    requires k < |seen|
    requires forall j | 0 <= j < k :: Fails(seen[j])
    requires !Fails(seen[k])
    requires elapsed + PollDelay * k < PollLimit
    ensures RunTicks(elapsed, seen) == Run(Resolved(CorrectUncutGem(seen[k])), elapsed + PollDelay * k, k + 1)
    decreases k
  {
    if k > 0 {
      FailingTickContinues(elapsed, seen);
      forall j | 0 <= j < k - 1
        ensures Fails(seen[1..][j])
      {
        assert seen[1..][j] == seen[j + 1];
      }
      assert seen[1..][k - 1] == seen[k];
      FirstItemResolves(elapsed + PollDelay, seen[1..], k - 1);
    } else {
      ResolvingTickEnds(elapsed, seen);
    }
  }

  /** A failing poll under the limit leaves the rest of the run to the reads after it. */
  lemma FailingTickContinues(elapsed: int, seen: seq<string>)
    requires |seen| > 0 && Fails(seen[0]) && elapsed + PollDelay < PollLimit
    ensures var rest := RunTicks(elapsed + PollDelay, seen[1..]);
      RunTicks(elapsed, seen) == Run(rest.outcome, rest.elapsed, rest.ticks + 1)
  {
    assert Poll(elapsed, seen[0]) == Step(Pending, elapsed + PollDelay);
  }

  /** A poll that reads item or gem text ends the run with that text, corrected. */
  lemma ResolvingTickEnds(elapsed: int, seen: seq<string>)
    requires |seen| > 0 && !Fails(seen[0])
    ensures RunTicks(elapsed, seen) == Run(Resolved(CorrectUncutGem(seen[0])), elapsed, 1)
  {
    assert Poll(elapsed, seen[0]) == Step(Resolved(CorrectUncutGem(seen[0])), elapsed);
  }

  /**
    A run of polls seen from its i-th one: if the first i polls left the
    session pending at `elapsed`, the i-th poll either ends the run there or
    leaves the rest of the run to the reads after it.
   */
  lemma RunTicksFrom(start: int, seen: seq<string>, i: nat, elapsed: int)
    requires i < |seen|
    requires var rest := RunTicks(elapsed, seen[i..]);
      RunTicks(start, seen) == Run(rest.outcome, rest.elapsed, rest.ticks + i)
    ensures var s := Poll(elapsed, seen[i]);
      if s.outcome.Pending? then
        var rest := RunTicks(s.elapsed, seen[i + 1..]);
        RunTicks(start, seen) == Run(rest.outcome, rest.elapsed, rest.ticks + i + 1)
      else
        RunTicks(start, seen) == Run(s.outcome, s.elapsed, i + 1)
  {
    assert seen[i..][0] == seen[i] && seen[i..][1..] == seen[i + 1..];
  }

  /**
    From a fresh session, ten failing polls leave it pending at 480 and the
    eleventh times it out at 528.
   */
  lemma EleventhFailingTickTimesOut(seen: seq<string>)
    requires |seen| >= 11
    requires forall j | 0 <= j < 11 :: Fails(seen[j])
    ensures RunTicks(0, seen[..10]) == Run(Pending, 480, 10)
    ensures RunTicks(0, seen) == Run(TimedOut, 528, 11)
  {
    TenFailingTicksPending(seen[..10]);
    FailingTicksTimeOut(0, seen, 11);
  }

  /**
    The first half of EleventhFailingTickTimesOut, kept apart so that the
    instance of FailingTicksPending on ten reads is proved in a small
    context; inlined, that lemma comes close to the resource limit.
   */
  lemma TenFailingTicksPending(seen: seq<string>)
    requires |seen| == 10
    requires forall j | 0 <= j < 10 :: Fails(seen[j])
    ensures RunTicks(0, seen) == Run(Pending, 480, 10)
  {
    FailingTicksPending(0, seen);
  }

  /**
    The poller. `polling` and `textBefore` stand for the pending poll promise
    and the clipboard text its session saved; `restoreSaved` is the snapshot
    the pending restore timer will write back.
   */
  class HostClipboard {
    var clipboard: string
    var polling: bool
    var textBefore: string
    var elapsed: int
    var shouldRestore: bool
    var isRestored: bool
    var restoreSaved: string
    /** Warnings written to the logger. */
    ghost var warnings: nat

    /**
      The elapsed time counts whole poll delays and stays below the limit
      while a session runs; the text a session saved is never item text, so
      restoring it never puts stale item text back.
     */
    ghost predicate Valid()
      reads this
    {
      && 0 <= elapsed < PollLimit + PollDelay
      && elapsed % PollDelay == 0
      && (polling ==> elapsed < PollLimit && !IsPoeItem(textBefore))
    }

    constructor (initialClipboard: string)
      ensures Valid()
      ensures clipboard == initialClipboard
      ensures !polling && elapsed == 0 && !shouldRestore && isRestored && warnings == 0
    {
      clipboard := initialClipboard;
      polling := false;
      textBefore := "";
      elapsed := 0;
      shouldRestore := false;
      isRestored := true;
      restoreSaved := "";
      warnings := 0;
    }

    /** Whether a poll session is running. */
    method IsPolling() returns (r: bool)
      ensures r <==> polling
    {
      r := polling;
    }

    /** Turns restoring of the clipboard after a session or a RestoreShortly on or off. */
    method UpdateOptions(restoreClipboard: bool)
      requires Valid()
      modifies this`shouldRestore
      ensures Valid()
      ensures shouldRestore == restoreClipboard
    {
      shouldRestore := restoreClipboard;
    }

    /**
      A request for item text. It always restarts the time budget. When a
      session is running the caller joins it and nothing else happens;
      otherwise a session starts, saving the clipboard text, or "" in place
      of stale item text, which is also wiped from the clipboard.
     */
    method ReadItemText() returns (joined: bool)
      requires Valid()
      modifies this
      ensures Valid() && polling && elapsed == 0
      ensures joined <==> old(polling)
      ensures joined ==> clipboard == old(clipboard) && textBefore == old(textBefore)
      ensures !joined ==> textBefore == (if IsPoeItem(old(clipboard)) then "" else old(clipboard))
      ensures !joined ==> clipboard == textBefore
      ensures shouldRestore == old(shouldRestore) && isRestored == old(isRestored)
      ensures restoreSaved == old(restoreSaved) && warnings == old(warnings)
    {
      elapsed := 0;
      if polling {
        joined := true;
        return;
      }
      joined := false;
      var before := clipboard;
      if IsPoeItem(before) {
        before := "";
        clipboard := "";
        EmptyIsNotItem(before);
      }
      textBefore := before;
      polling := true;
    }

    /**
      A firing of the poll timer. It reads the clipboard and steps the
      session as Poll says. When the session ends, resolved or timed out, it
      is cleared and, if restoring is on, the saved text goes back on the
      clipboard; a time-out also logs one warning.
     */
    method PollTick() returns (outcome: Outcome)
      requires Valid() && polling
      modifies this
      ensures Valid()
      ensures Step(outcome, elapsed) == Poll(old(elapsed), old(clipboard))
      ensures polling <==> outcome.Pending?
      ensures clipboard == if !outcome.Pending? && shouldRestore then textBefore else old(clipboard)
      ensures warnings == old(warnings) + (if outcome.TimedOut? then 1 else 0)
      ensures textBefore == old(textBefore) && shouldRestore == old(shouldRestore)
      ensures isRestored == old(isRestored) && restoreSaved == old(restoreSaved)
    {
      var textAfter := clipboard;
      if IsUncutSkillGem(textAfter) {
        textAfter := UncutGemClassLine + textAfter;
      }
      if IsPoeItem(textAfter) {
        if shouldRestore {
          clipboard := textBefore;
        }
        polling := false;
        outcome := Resolved(textAfter);
      } else {
        elapsed := elapsed + PollDelay;
        if elapsed < PollLimit {
          outcome := Pending;
        } else {
          if shouldRestore {
            clipboard := textBefore;
          }
          polling := false;
          if !IsPoeItem(textAfter) {
            warnings := warnings + 1;
          }
          outcome := TimedOut;
        }
      }
    }

    /**
      Runs `action` on the clipboard and schedules the restore timer, unless
      the previous restore timer has not fired yet: then nothing happens at
      all, the action included.
     */
    method RestoreShortly(action: string -> string) returns (invoked: bool)
      requires Valid()
      modifies this
      ensures Valid()
      ensures invoked <==> old(isRestored)
      ensures invoked ==> !isRestored && restoreSaved == old(clipboard) && clipboard == action(old(clipboard))
      ensures !invoked ==> isRestored == old(isRestored) && restoreSaved == old(restoreSaved) && clipboard == old(clipboard)
      ensures polling == old(polling) && textBefore == old(textBefore) && elapsed == old(elapsed)
      ensures shouldRestore == old(shouldRestore) && warnings == old(warnings)
    {
      if !isRestored {
        invoked := false;
        return;
      }
      invoked := true;
      isRestored := false;
      restoreSaved := clipboard;
      clipboard := action(clipboard);
    }

    /**
      The restore timer firing: the snapshot goes back on the clipboard if
      restoring is on at that moment, and RestoreShortly is open again.
     */
    method RestoreTimerFires()
      requires Valid() && !isRestored
      modifies this
      ensures Valid() && isRestored
      ensures clipboard == if shouldRestore then restoreSaved else old(clipboard)
      ensures polling == old(polling) && textBefore == old(textBefore) && elapsed == old(elapsed)
      ensures shouldRestore == old(shouldRestore) && restoreSaved == old(restoreSaved)
      ensures warnings == old(warnings)
    {
      if shouldRestore {
        clipboard := restoreSaved;
      }
      isRestored := true;
    }
  }
}

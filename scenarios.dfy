/**
  The environment's side of the poller, and whole sessions run against a
  fresh poller: what a caller of readItemText and restoreShortly observes.
 */
module Scenarios {
  import opened ItemText
  import opened ClipboardPoller

  /**
    The poll timer firing again and again while the session runs; before the
    i-th firing the game (or anyone else) has written `seen[i]` to the
    clipboard. The session steps exactly as RunTicks says.
   */
  method DrivePoll(c: HostClipboard, seen: seq<string>) returns (run: Run)
    requires c.Valid() && c.polling
    modifies c
    ensures c.Valid()
    ensures run == RunTicks(old(c.elapsed), seen)
    ensures c.polling <==> run.outcome.Pending?
    ensures c.elapsed == run.elapsed
    ensures c.clipboard ==
      if !run.outcome.Pending? && c.shouldRestore then c.textBefore
      else if run.ticks == 0 then old(c.clipboard)
      else seen[run.ticks - 1]
    ensures c.textBefore == old(c.textBefore) && c.shouldRestore == old(c.shouldRestore)
    ensures c.isRestored == old(c.isRestored) && c.restoreSaved == old(c.restoreSaved)
    ensures c.warnings == old(c.warnings) + (if run.outcome.TimedOut? then 1 else 0)
  {
    var i := 0;
    var outcome := Pending;
    while i < |seen| && outcome.Pending?
      invariant 0 <= i <= |seen|
      invariant c.Valid()
      invariant c.polling <==> outcome.Pending?
      invariant i == 0 ==> c.clipboard == old(c.clipboard)
      invariant 0 < i ==> c.clipboard == if !outcome.Pending? && c.shouldRestore then c.textBefore else seen[i - 1]
      invariant c.textBefore == old(c.textBefore) && c.shouldRestore == old(c.shouldRestore)
      invariant c.isRestored == old(c.isRestored) && c.restoreSaved == old(c.restoreSaved)
      invariant c.warnings == old(c.warnings) + (if outcome.TimedOut? then 1 else 0)
      invariant outcome.Pending? ==>
        var rest := RunTicks(c.elapsed, seen[i..]);
        RunTicks(old(c.elapsed), seen) == Run(rest.outcome, rest.elapsed, rest.ticks + i)
      invariant !outcome.Pending? ==> RunTicks(old(c.elapsed), seen) == Run(outcome, c.elapsed, i)
      decreases |seen| - i
    {
      RunTicksFrom(old(c.elapsed), seen, i, c.elapsed);
      c.clipboard := seen[i];
      outcome := c.PollTick();
      i := i + 1;
    }
    run := Run(outcome, c.elapsed, i);
  }

  /**
    With restoring on, a session in which the game never writes item text
    times out on the eleventh poll, logs one warning, and leaves the
    clipboard as it was before the request, or empty if that was stale
    item text.
   */
  method TimeoutRestoresClipboard(initial: string, seen: seq<string>)
    returns (run: Run, finalClipboard: string, ghost warnings: nat)
    requires |seen| >= 11
    requires forall j | 0 <= j < 11 :: Fails(seen[j])
    ensures run == Run(TimedOut, 528, 11)
    ensures finalClipboard == if IsPoeItem(initial) then "" else initial
    ensures warnings == 1
  {
    var c := new HostClipboard(initial);
    c.UpdateOptions(true);
    var joined := c.ReadItemText();
    run := DrivePoll(c, seen);
    EleventhFailingTickTimesOut(seen);
    finalClipboard := c.clipboard;
    warnings := c.warnings;
  }

  /**
    With restoring on, the game writing item text (or gem text) on the k-th
    poll resolves the request with that text, corrected, and puts the
    clipboard back as it was, or empty if it held stale item text.
   */
  method ItemTextResolvesAndRestores(initial: string, seen: seq<string>, k: nat)
    returns (run: Run, finalClipboard: string)
    requires k < 11 && k < |seen|
    requires forall j | 0 <= j < k :: Fails(seen[j])
    requires !Fails(seen[k])
    ensures run == Run(Resolved(CorrectUncutGem(seen[k])), PollDelay * k, k + 1)
    ensures IsPoeItem(run.outcome.text)
    ensures finalClipboard == if IsPoeItem(initial) then "" else initial
  {
    var c := new HostClipboard(initial);
    c.UpdateOptions(true);
    var joined := c.ReadItemText();
    run := DrivePoll(c, seen);
    FirstItemResolves(0, seen, k);
    CorrectionAccepts(seen[k]);
    finalClipboard := c.clipboard;
  }

  /**
    Stale uncut gem text is not item text, so a request does not wipe it: it
    is saved as the text to restore and, if the game writes nothing, the
    first poll resolves with it, corrected, as if the game had just written it.
   */
  method StaleGemTextResolvesAtOnce(initial: string) returns (run: Run, finalClipboard: string)
    requires IsUncutSkillGem(initial)
    ensures run == Run(Resolved(UncutGemClassLine + initial), 0, 1)
    ensures finalClipboard == initial
  {
    var c := new HostClipboard(initial);
    c.UpdateOptions(true);
    UncutGemIsNotItem(initial);
    var joined := c.ReadItemText();
    run := DrivePoll(c, [initial]);
    finalClipboard := c.clipboard;
  }

  /**
    A second request while a session runs joins it and restarts its time
    budget: after ten failing polls and a second request, ten more failing
    polls still leave the session pending, twenty polls in all.
   */
  method RepeatedRequestsExtendSession(initial: string, seen: seq<string>)
    returns (joined: bool, first: Run, second: Run)
    requires |seen| == 20
    requires forall j | 0 <= j < 20 :: Fails(seen[j])
    ensures joined
    ensures first == Run(Pending, 480, 10)
    ensures second == Run(Pending, 480, 10)
  {
    var c := new HostClipboard(initial);
    var started := c.ReadItemText();
    first := DrivePoll(c, seen[..10]);
    FailingTicksPending(0, seen[..10]);
    joined := c.ReadItemText();
    second := DrivePoll(c, seen[10..]);
    FailingTicksPending(0, seen[10..]);
  }

  /**
    restoreShortly as a throttle: a second call before the restore timer
    fires neither runs its action nor touches the clipboard; the timer puts
    the first snapshot back; after it a call runs again.
   */
  method RestoreShortlyThrottles(initial: string, first: string -> string, second: string -> string)
    returns (firstRan: bool, secondRan: bool, afterSecond: string, afterTimer: string, thirdRan: bool)
    ensures firstRan && !secondRan && thirdRan
    ensures afterSecond == first(initial)
    ensures afterTimer == initial
  {
    var c := new HostClipboard(initial);
    c.UpdateOptions(true);
    firstRan := c.RestoreShortly(first);
    secondRan := c.RestoreShortly(second);
    afterSecond := c.clipboard;
    c.RestoreTimerFires();
    afterTimer := c.clipboard;
    thirdRan := c.RestoreShortly(second);
  }
}

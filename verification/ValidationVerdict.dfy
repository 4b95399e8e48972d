/** The whole verdict of validateMsg, end to end, and the bookkeeping of a run read off its steps. */
module ValidationVerdict {
  import opened Options
  import opened Admission
  import opened Rendezvous
  import opened RendezvousTrace
  import opened ValidationFlow
  import Router
  import RouterTrace

  /** An own message is accepted, whatever the validation router gave. */
  lemma {:induction false} OwnIsAccepted(outcome: Outcome)
    ensures ValidateMsg(true, outcome) == Accept
  {
  }

  /** PushWait `w` returned, with this verdict, for the id of its message. */
  lemma {:induction false} ValueIsReturned(qSize: nat, workers: nat, outSize: nat, steps: seq<Step>, w: nat, v: Verdict)
    requires ValidationFlow.Possible(Start(qSize, workers, outSize), steps)
    requires var s := ValidationFlow.After(Start(qSize, workers, outSize), steps); MeetsPushWait(s, w) && Gives(s, w, Value(v))
    ensures var s := ValidationFlow.After(Start(qSize, workers, outSize), steps);
            HalvesPossible(s) && w < |s.mids| && w in s.T().returned && s.T().returned[w] == (s.mids[w], v)
  {
    var s := ValidationFlow.After(Start(qSize, workers, outSize), steps);
    ValidationFlow.InvHolds(qSize, workers, outSize, steps);
    assert BegunRight(s, w) && ResultRight(s, w);
    Router.InvHolds(s.qSize, s.workers, s.routed);
  }

  /** Exactly what a remote message that meets PushWait is judged, in every run: accepted or rejected if
      HandleWait gave its value and a client's ACCEPT or REJECT for that very id met its PushWait, and
      ignored in every other case: full router queue, timeout, lost callback, full client queue, NIL or
      IGNORE, or no reply. */
  lemma {:induction false} VerdictIsExact(qSize: nat, workers: nat, outSize: nat, steps: seq<Step>, w: nat, outcome: Outcome)
    requires ValidationFlow.Possible(Start(qSize, workers, outSize), steps)
    requires var s := ValidationFlow.After(Start(qSize, workers, outSize), steps); MeetsPushWait(s, w) && Gives(s, w, outcome)
    ensures var s, v := ValidationFlow.After(Start(qSize, workers, outSize), steps), ValidateMsg(false, outcome);
      && (v == Accept <==> outcome.Value? && w < |s.mids| && Met(s.table, w, s.mids[w], ACCEPT))
      && (v == Reject <==> outcome.Value? && w < |s.mids| && Met(s.table, w, s.mids[w], REJECT))
      && (outcome == Error ==> v == Ignore)
      && (Unmet(s.table, w) ==> v == Ignore)
  {
    var s := ValidationFlow.After(Start(qSize, workers, outSize), steps);
    if outcome.Value? {
      ValueIsReturned(qSize, workers, outSize, steps, w, outcome.verdict);
      RendezvousTrace.VerdictExact(s.outSize, s.table, w);
    }
  }

  /** Exactly when HandleWait gives an error: the queue was full, or the caller's context ended before the
      callback met it; and it gives a value exactly when the callback did. */
  lemma {:induction false} ErrorIff(qSize: nat, workers: nat, outSize: nat, steps: seq<Step>, w: nat, outcome: Outcome)
    requires ValidationFlow.Possible(Start(qSize, workers, outSize), steps) && Gives(ValidationFlow.After(Start(qSize, workers, outSize), steps), w, outcome)
    ensures var s := ValidationFlow.After(Start(qSize, workers, outSize), steps);
      && (outcome == Error <==> w >= |s.mids| || Router.Timeout(w) in s.routed)
      && (outcome.Value? <==> w < |s.mids| && Router.Callback(w, true) in s.routed)
      && (w >= |s.mids| ==> |s.R().queue| >= qSize)
  {
    var s := ValidationFlow.After(Start(qSize, workers, outSize), steps);
    ValidationFlow.InvHolds(qSize, workers, outSize, steps);
    RouterTrace.MessagesRecorded(s.qSize, s.workers, s.routed, w);
    SizesStay(Start(qSize, workers, outSize), steps);
    if w >= |s.mids| {
      NoWaiter(s, w);
    }
  }

  lemma {:induction false} SizesStay(start: System, steps: seq<Step>)
    ensures var s := ValidationFlow.After(start, steps); s.qSize == start.qSize && s.workers == start.workers && s.outSize == start.outSize
    decreases |steps|
  {
    if steps != [] {
      SizesStay(start, steps[..|steps| - 1]);
    }
  }

  /** Nobody waits for a message that was not accepted. */
  lemma {:induction false} NoWaiter(s: System, w: nat)
    requires ValidationFlow.Inv(s) && w >= |s.mids|
    ensures w !in s.R().waits
  {
    RouterTrace.AccountsHold(s.qSize, s.workers, s.routed);
    RouterTrace.MessagesRecorded(s.qSize, s.workers, s.routed, w);
    if RouterTrace.AcceptedWaiting(s.routed, w) {
      RouterTrace.AcceptedBefore(s.routed, w);
    }
  }

  // --- the bookkeeping -------------------------------------------------------------------------------------------

  /** The ids of the submitted messages, in order. */
  function Submitted(steps: seq<Step>): seq<string> {
    if steps == [] then [] else
      var n := |steps| - 1;
      Submitted(steps[..n]) + match steps[n] case Submit(mid) => [mid] case _ => []
  }

  /** The handler of message `w` began as step `k`. */
  predicate BeganAt(steps: seq<Step>, k: int, w: nat) {
    0 <= k < |steps| && steps[k].BeginHandler? && steps[k].w == w
  }

  /** The handler of message `w` began after PushWait was installed. */
  ghost predicate BeganAfterInstall(steps: seq<Step>, w: nat) {
    exists k :: BeganAt(steps, k, w) && Install in steps[..k]
  }

  ghost predicate Tracked(steps: seq<Step>, s: System) {
    && s.mids == Submitted(steps)
    && (s.installed.Some? <==> Install in steps)
    && (forall w: nat :: w in s.begun <==> exists k :: BeganAt(steps, k, w))
    && (forall w: nat :: w in s.begun && s.begun[w] <==> BeganAfterInstall(steps, w))
  }

  lemma {:induction false} BeganStep(steps: seq<Step>, w: nat)
    requires steps != []
    ensures var n := |steps| - 1;
      && ((exists k :: BeganAt(steps, k, w)) <==> (exists k :: BeganAt(steps[..n], k, w)) || BeganAt(steps, n, w))
      && (BeganAfterInstall(steps, w) <==> BeganAfterInstall(steps[..n], w) || (BeganAt(steps, n, w) && Install in steps[..n]))
  {
    var n := |steps| - 1;
    forall k ensures BeganAt(steps, k, w) <==> BeganAt(steps[..n], k, w) || (k == n && BeganAt(steps, n, w)) {}
    assert forall k :: 0 <= k < n ==> steps[..n][..k] == steps[..k];
    if BeganAfterInstall(steps[..n], w) {
      var k :| BeganAt(steps[..n], k, w) && Install in steps[..n][..k];
      assert BeganAt(steps, k, w) && Install in steps[..k];
    }
  }

  lemma {:induction false} TrackedStep(steps: seq<Step>, s: System)
    requires steps != [] && Tracked(steps[..|steps| - 1], s) && ValidationFlow.Inv(s) && ValidationFlow.Enabled(s, steps[|steps| - 1])
    ensures Tracked(steps, ValidationFlow.Next(s, steps[|steps| - 1]))
  {
    var n := |steps| - 1;
    var a, s' := steps[n], ValidationFlow.Next(s, steps[n]);
    assert steps == steps[..n] + [a];
    if a.BeginHandler? {
      ExecutingWasAccepted(s, a.w);
    }
    forall w: nat
      ensures w in s'.begun <==> exists k :: BeganAt(steps, k, w)
      ensures w in s'.begun && s'.begun[w] <==> BeganAfterInstall(steps, w)
    {
      BeganStep(steps, w);
      BegunAfter(s, a, w);
      assert w in s.begun <==> exists k :: BeganAt(steps[..n], k, w);
      assert w in s.begun && s.begun[w] <==> BeganAfterInstall(steps[..n], w);
    }
  }

  lemma {:induction false} BegunAfter(s: System, a: Step, w: nat)
    requires ValidationFlow.Enabled(s, a) && (a.BeginHandler? ==> a.w < |s.mids|)
    ensures var s' := ValidationFlow.Next(s, a);
      && (w in s'.begun <==> w in s.begun || (a.BeginHandler? && a.w == w))
      && (w in s'.begun && s'.begun[w] <==> (w in s.begun && s.begun[w]) || (a.BeginHandler? && a.w == w && s.installed.Some?))
  {
  }

  /** In every run the ids are those of the submitted messages in order, and a message is handled by PushWait
      exactly if its handler began after PushWait was installed, wherever it was queued before. */
  lemma {:induction false} TrackedHolds(qSize: nat, workers: nat, outSize: nat, steps: seq<Step>)
    requires ValidationFlow.Possible(Start(qSize, workers, outSize), steps)
    ensures Tracked(steps, ValidationFlow.After(Start(qSize, workers, outSize), steps))
    decreases |steps|
  {
    if steps != [] {
      var n := |steps| - 1;
      TrackedHolds(qSize, workers, outSize, steps[..n]);
      ValidationFlow.InvHolds(qSize, workers, outSize, steps[..n]);
      TrackedStep(steps, ValidationFlow.After(Start(qSize, workers, outSize), steps[..n]));
    } else {
      assert forall w: nat :: !BeganAfterInstall(steps, w);
    }
  }

  // --- verdicts that are lost ------------------------------------------------------------------------------------

  /** A client's ACCEPT can meet PushWait, and its verdict still be lost because the caller's context ended
      first: the message is ignored. */
  lemma {:induction false} AcceptLost(mid: string) returns (steps: seq<Step>)
    ensures ValidationFlow.Possible(Start(1, 1, 1), steps)
    ensures var s := ValidationFlow.After(Start(1, 1, 1), steps);
      && MeetsPushWait(s, 0) && 0 in s.T().returned && s.T().returned[0] == (mid, Accept)
      && Gives(s, 0, Error) && ValidateMsg(false, Error) == Ignore
  {
    var v := View(Busy(), Rendezvous.Init(1), [mid], Some(0), map[]);
    steps := Installed(mid);
    steps := Begun(steps, v);
    v := v.(begun := map[0 := true], t := Rendezvous.Next(v.t, Rendezvous.Begin(0, mid, 0)));
    var t;
    steps, t := Replied(steps, v, mid, ACCEPT);
    v := v.(t := t);
    steps := Ended(steps, v, Accept);
    BusyReplies(Accept);
    steps := GivesUp(steps, v.(r := Replying(Accept)));
  }

  lemma {:induction false} Installed(mid: string) returns (steps: seq<Step>)
    ensures Reached(steps, View(Busy(), Rendezvous.Init(1), [mid], Some(0), map[]))
  {
    assert [Install][..0] == [];
    steps := Dispatched([Install], mid, Some(0));
  }

  lemma {:induction false} GivesUp(steps: seq<Step>, v: View) returns (longer: seq<Step>)
    requires Reached(steps, v) && v.r == Replying(Accept) && |v.mids| == 1
    ensures ValidationFlow.Possible(Start(1, 1, 1), longer) && Gives(ValidationFlow.After(Start(1, 1, 1), longer), 0, Error)
    ensures var s := ValidationFlow.After(Start(1, 1, 1), longer); s.T() == v.t && s.begun == v.begun
  {
    longer := Routed(steps, v, Router.Timeout(0));
    longer := Routed(longer, v.(r := Router.Next(v.r, Router.Timeout(0))), Router.Callback(0, false));
  }
}

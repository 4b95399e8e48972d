/** The router read off its actions: what every run has done to loops, markers, messages and waiters,
    counted in the list of actions itself. */
module RouterTrace {
  import opened Router

  function Count<T>(actions: seq<Action<T>>, kind: Action<T> -> bool): nat {
    if actions == [] then 0 else
      Count(actions[..|actions| - 1], kind) + if kind(actions[|actions| - 1]) then 1 else 0
  }

  /** The `j`th action takes a marker from the queue. */
  ghost predicate TakesMarker<T>(qSize: nat, workers: nat, actions: seq<Action<T>>, j: int) {
    0 <= j < |actions| && actions[j].Take? && MarkerFirst(After(qSize, workers, actions[..j]))
  }

  predicate MarkerFirst<T>(s: State<T>) {
    s.queue != [] && s.queue[0].Marker?
  }

  ghost function MarkersTaken<T>(qSize: nat, workers: nat, actions: seq<Action<T>>): nat {
    if actions == [] then 0 else
      var n := |actions| - 1;
      MarkersTaken(qSize, workers, actions[..n]) + if TakesMarker(qSize, workers, actions, n) then 1 else 0
  }

  // --- counts --------------------------------------------------------------------------------------------

  /** Loops are the started ones less those cancelled and those ended by a marker; markers are queued or
      taken; messages are the accepted offers, and are queued or taken; each handler execution was
      dispatched. */
  ghost predicate Counted<T>(qSize: nat, workers: nat, actions: seq<Action<T>>) {
    var s, taken := After(qSize, workers, actions), MarkersTaken(qSize, workers, actions);
    && |s.loops| + Count(actions, (a: Action<T>) => a.CancelLoop?) + taken == Count(actions, (a: Action<T>) => a.StartLoop?)
    && Markers(s.queue) + taken == Count(actions, (a: Action<T>) => a.PushMarker?)
    && s.accepted == Count(actions, (a: Action<T>) => a.Enqueue?)
    && |s.dequeued| + taken == Count(actions, (a: Action<T>) => a.Take?)
    && |s.handled| == Count(actions, (a: Action<T>) => a.Dispatch?)
  }

  lemma {:induction false} AccountsHold<T>(qSize: nat, workers: nat, actions: seq<Action<T>>)
    requires Possible(qSize, workers, actions)
    ensures Counted(qSize, workers, actions)
    decreases |actions|
  {
    if actions != [] {
      var n := |actions| - 1;
      var s, a := After(qSize, workers, actions[..n]), actions[n];
      AccountsHold(qSize, workers, actions[..n]);
      QueueAfter(s, a);
      LoopsAfter(s, a);
    }
  }

  lemma {:induction false} QueueAfter<T>(s: State<T>, a: Action<T>)
    requires Enabled(s, a)
    ensures Markers(Next(s, a).queue) == Markers(s.queue) + (if a.PushMarker? then 1 else 0) - if a.Take? && MarkerFirst(s) then 1 else 0
  {
    match a
    case Enqueue(_) => QueueAppend(s.queue, Msg(s.accepted));
    case PushMarker => QueueAppend(s.queue, Marker);
    case _ =>
  }

  lemma {:induction false} LoopsAfter<T>(s: State<T>, a: Action<T>)
    requires Enabled(s, a)
    ensures |Next(s, a).loops| == |s.loops| + (if a.StartLoop? then 1 else 0) - if a.CancelLoop? || (a.Take? && MarkerFirst(s)) then 1 else 0
  {
    match a
    case CancelLoop(l) => MapRemove(s.loops, l);
    case Take(l) => MapRemove(s.loops, l);
    case _ =>
  }

  // --- which loops live -----------------------------------------------------------------------------------

  /** The `k`th action ends loop `l`: its context ends, or it takes a marker. */
  ghost predicate Ends<T>(qSize: nat, workers: nat, actions: seq<Action<T>>, k: int, l: nat) {
    0 <= k < |actions| && (actions[k] == CancelLoop(l) || (actions[k] == Take(l) && TakesMarker(qSize, workers, actions, k)))
  }

  /** Loop `l` was started and has not been ended since. */
  ghost predicate Alive<T>(qSize: nat, workers: nat, actions: seq<Action<T>>, l: nat) {
    exists j :: 0 <= j < |actions| && actions[j] == StartLoop(l) && NotEndedSince(qSize, workers, actions, j, l)
  }

  ghost predicate NotEndedSince<T>(qSize: nat, workers: nat, actions: seq<Action<T>>, j: int, l: nat) {
    forall k :: j < k < |actions| ==> !Ends(qSize, workers, actions, k, l)
  }

  lemma {:induction false} EndsEarlier<T>(qSize: nat, workers: nat, actions: seq<Action<T>>, k: int, l: nat)
    requires actions != [] && 0 <= k < |actions| - 1
    ensures Ends(qSize, workers, actions, k, l) <==> Ends(qSize, workers, actions[..|actions| - 1], k, l)
  {
    assert actions[..|actions| - 1][..k] == actions[..k];
  }

  lemma {:induction false} AliveStep<T>(qSize: nat, workers: nat, actions: seq<Action<T>>, l: nat)
    requires actions != []
    ensures var n := |actions| - 1;
      Alive(qSize, workers, actions, l)
      <==> actions[n] == StartLoop(l) || (Alive(qSize, workers, actions[..n], l) && !Ends(qSize, workers, actions, n, l))
  {
    var n := |actions| - 1;
    forall k | 0 <= k < n ensures Ends(qSize, workers, actions, k, l) <==> Ends(qSize, workers, actions[..n], k, l) {
      EndsEarlier(qSize, workers, actions, k, l);
    }
    if j :| 0 <= j < n && actions[..n][j] == StartLoop(l) && NotEndedSince(qSize, workers, actions[..n], j, l) {
      if !Ends(qSize, workers, actions, n, l) {
        assert actions[j] == StartLoop(l) && NotEndedSince(qSize, workers, actions, j, l);
      }
    }
    if actions[n] == StartLoop(l) {
      assert NotEndedSince(qSize, workers, actions, n, l);
    }
    if j :| 0 <= j < n && actions[j] == StartLoop(l) && NotEndedSince(qSize, workers, actions, j, l) {
      assert actions[..n][j] == StartLoop(l) && NotEndedSince(qSize, workers, actions[..n], j, l);
      assert !Ends(qSize, workers, actions, n, l);
    }
  }

  /** In every run the live loops are exactly those started and neither cancelled nor ended by a marker
      since. */
  lemma {:induction false} LoopsLive<T>(qSize: nat, workers: nat, actions: seq<Action<T>>, l: nat)
    requires Possible(qSize, workers, actions)
    ensures l in After(qSize, workers, actions).loops <==> Alive(qSize, workers, actions, l)
    decreases |actions|
  {
    if actions != [] {
      var n := |actions| - 1;
      LoopsLive(qSize, workers, actions[..n], l);
      AliveStep(qSize, workers, actions, l);
    }
  }

  // --- what became of each message -----------------------------------------------------------------------

  /** Message `id` was accepted from a caller that waits. */
  ghost predicate AcceptedWaiting<T>(actions: seq<Action<T>>, id: nat) {
    exists j :: 0 <= j < |actions| && actions[j] == Enqueue(true) && Count(actions[..j], (a: Action<T>) => a.Enqueue?) == id
  }

  /** A caller waits from the acceptance of its message on, until its context ends or the callback meets
      it. */
  ghost predicate Waited<T>(s: State<T>, actions: seq<Action<T>>, id: nat) {
    && (id in s.waits <==> AcceptedWaiting(actions, id))
    && (id in s.waits && s.waits[id].TimedOut? <==> Timeout(id) in actions)
    && (id in s.waits && s.waits[id].Returned? <==> Callback(id, true) in actions)
  }

  /** A result is there once the handler has returned it, and the message is finished once the callback was
      made. */
  ghost predicate Done<T(!new)>(s: State<T>, actions: seq<Action<T>>, id: nat) {
    && (id in s.finished <==> Callback(id, true) in actions || Callback(id, false) in actions)
    && (forall v :: id in s.results && s.results[id] == v <==> HandlerReturns(id, v) in actions)
  }

  lemma {:induction false} WaitingStep<T>(actions: seq<Action<T>>, id: nat)
    requires actions != []
    ensures var n := |actions| - 1;
      AcceptedWaiting(actions, id)
      <==> AcceptedWaiting(actions[..n], id) || (actions[n] == Enqueue(true) && Count(actions[..n], (a: Action<T>) => a.Enqueue?) == id)
  {
    var n := |actions| - 1;
    assert forall j :: 0 <= j < n ==> actions[..n][j] == actions[j] && actions[..n][..j] == actions[..j];
  }

  lemma {:induction false} OneMore<T>(actions: seq<Action<T>>, x: Action<T>)
    requires actions != []
    ensures x in actions <==> x in actions[..|actions| - 1] || x == actions[|actions| - 1]
  {
    assert actions == actions[..|actions| - 1] + [actions[|actions| - 1]];
  }

  /** Messages are numbered by the acceptances before them. */
  lemma {:induction false} AcceptedBefore<T>(actions: seq<Action<T>>, id: nat)
    requires AcceptedWaiting(actions, id)
    ensures id < Count(actions, (a: Action<T>) => a.Enqueue?)
    decreases |actions|
  {
    var n := |actions| - 1;
    WaitingStep(actions, id);
    if AcceptedWaiting(actions[..n], id) {
      AcceptedBefore(actions[..n], id);
    }
  }

  lemma {:induction false} WaitedStep<T>(s: State<T>, actions: seq<Action<T>>, id: nat)
    requires actions != [] && Enabled(s, actions[|actions| - 1]) && Waited(s, actions[..|actions| - 1], id)
    requires s.accepted == Count(actions[..|actions| - 1], (a: Action<T>) => a.Enqueue?)
    ensures Waited(Next(s, actions[|actions| - 1]), actions, id)
  {
    var n := |actions| - 1;
    WaitingStep(actions, id);
    OneMore(actions, Timeout(id));
    OneMore(actions, Callback(id, true));
    if id in s.waits {
      AcceptedBefore(actions[..n], id);
    }
    WaitsAfter(s, actions[n], id);
  }

  /** What a step does to the waiter of one message. */
  lemma {:induction false} WaitsAfter<T>(s: State<T>, a: Action<T>, id: nat)
    requires Enabled(s, a) && (id in s.waits ==> id < s.accepted)
    ensures var s' := Next(s, a);
      && (id in s'.waits <==> id in s.waits || (a == Enqueue(true) && s.accepted == id))
      && (id in s'.waits && s'.waits[id].TimedOut? <==> (id in s.waits && s.waits[id].TimedOut?) || a == Timeout(id))
      && (id in s'.waits && s'.waits[id].Returned? <==> (id in s.waits && s.waits[id].Returned?) || a == Callback(id, true))
  {
  }

  lemma {:induction false} DoneStep<T(!new)>(s: State<T>, actions: seq<Action<T>>, id: nat)
    requires actions != [] && Inv(s) && Enabled(s, actions[|actions| - 1]) && Done(s, actions[..|actions| - 1], id)
    ensures Done(Next(s, actions[|actions| - 1]), actions, id)
  {
    var a := actions[|actions| - 1];
    OneMore(actions, Callback(id, true));
    OneMore(actions, Callback(id, false));
    forall v ensures HandlerReturns(id, v) in actions <==> HandlerReturns(id, v) in actions[..|actions| - 1] || HandlerReturns(id, v) == a {
      OneMore(actions, HandlerReturns(id, v));
    }
    ResultsAfter(s, a, id);
  }

  lemma {:induction false} ResultsAfter<T>(s: State<T>, a: Action<T>, id: nat)
    requires Inv(s) && Enabled(s, a)
    ensures var s' := Next(s, a);
      && (id in s'.finished <==> id in s.finished || a == Callback(id, true) || a == Callback(id, false))
      && (a.HandlerReturns? && a.id == id ==> id !in s.results && id in s'.results && s'.results[id] == a.result)
      && (!(a.HandlerReturns? && a.id == id) ==> (id in s'.results <==> id in s.results) && (id in s.results ==> s'.results[id] == s.results[id]))
  {
    assert Places(s, id) <= 1;
  }

  /** In every run this is what became of each message and its caller. */
  lemma {:induction false} MessagesRecorded<T(!new)>(qSize: nat, workers: nat, actions: seq<Action<T>>, id: nat)
    requires Possible(qSize, workers, actions)
    ensures var s := After(qSize, workers, actions); Waited(s, actions, id) && Done(s, actions, id)
    decreases |actions|
  {
    if actions != [] {
      var n := |actions| - 1;
      MessagesRecorded(qSize, workers, actions[..n], id);
      InvHolds(qSize, workers, actions[..n]);
      AccountsHold(qSize, workers, actions[..n]);
      WaitedStep(After(qSize, workers, actions[..n]), actions, id);
      DoneStep(After(qSize, workers, actions[..n]), actions, id);
    }
  }

  // --- a marker ends a loop, and nothing else -----------------------------------------------------------------

  lemma {:induction false} Extend<T>(qSize: nat, workers: nat, actions: seq<Action<T>>, a: Action<T>)
    requires Possible(qSize, workers, actions) && Enabled(After(qSize, workers, actions), a)
    ensures Possible(qSize, workers, actions + [a]) && After(qSize, workers, actions + [a]) == Next(After(qSize, workers, actions), a)
  {
    var longer := actions + [a];
    assert longer[..|longer| - 1] == actions && longer[|longer| - 1] == a;
  }

  /** A message accepted behind a marker stays queued when the marker ends the only loop, and a caller whose
      context then ends gives up. */
  lemma {:induction false} MarkerRun<T>() returns (actions: seq<Action<T>>)
    ensures Possible(2, 1, actions)
    ensures var s := After(2, 1, actions); s.loops == map[] && s.queue == [Msg(0)] && s.waits == map[0 := TimedOut]
  {
    actions := [];
    var s := Init<T>(2, 1);
    Extend(2, 1, actions, StartLoop(0));
    s, actions := Next(s, StartLoop(0)), actions + [StartLoop(0)];
    Extend(2, 1, actions, PushMarker);
    s, actions := Next(s, PushMarker), actions + [PushMarker];
    Extend(2, 1, actions, Enqueue(true));
    s, actions := Next(s, Enqueue(true)), actions + [Enqueue(true)];
    assert s.queue == [Marker, Msg(0)];
    Extend(2, 1, actions, Take(0));
    s, actions := Next(s, Take(0)), actions + [Take(0)];
    Extend(2, 1, actions, Timeout(0));
    s, actions := Next(s, Timeout(0)), actions + [Timeout(0)];
  }
}

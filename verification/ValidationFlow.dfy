/** Validation of a remote message end to end (core/pubsub.go, core/router.go, api/grpc/val_router.go):
    the validation router runs PushWait as its handler, and validateMsg turns the outcome into the
    verdict for the pubsub library. */
module ValidationFlow {
  import opened Options
  import opened Admission
  import opened Rendezvous
  import Router

  /** What HandleWait gives its caller. */
  datatype Outcome = Value(verdict: Verdict) | Error

  /** Own messages are accepted; for others an error means Ignore. */
  function ValidateMsg(own: bool, outcome: Outcome): Verdict {
    if own then Accept else match outcome case Value(v) => v case Error => Ignore
  }

  /** Both halves with the actions they have taken. `installed` holds the number of messages accepted
      before PushWait became the handler, and `begun` which handler each message met. */
  datatype System = System(
    qSize: nat, workers: nat, outSize: nat,
    routed: seq<Router.Action<Verdict>>,
    table: seq<Rendezvous.Action>,
    mids: seq<string>,
    installed: Option<nat>,
    begun: map<nat, bool>)
  {
    function R(): Router.State<Verdict> { Router.After(qSize, workers, routed) }
    function T(): Table { Rendezvous.After(outSize, table) }
  }

  datatype Step =
    | Submit(mid: string)                       // validateMsg for a remote peer finds room in the queue
    | Route(r: Router.Action<Verdict>)          // loops, workers, callbacks, timeouts, markers
    | Install                                   // RefreshHandler assigns the PushWait handler
    | BeginHandler(w: nat, chan: nat)
    | EndHandler(w: nat, verdict: Verdict)
    | Validate(t: Rendezvous.Action)            // the rest of PushWait, and the client's replies

  ghost predicate Enabled(s: System, a: Step) {
    match a
    case Submit(mid) => Router.Enabled(s.R(), Router.Enqueue(true))
    case Route(r) => !r.Enqueue? && !r.HandlerReturns? && Router.Enabled(s.R(), r)
    case Install => true
    case BeginHandler(w, chan) => w in s.R().executing && w !in s.begun && chan !in s.T().channels
    case EndHandler(w, verdict) =>
      && w in s.R().executing && w in s.begun
      && (s.begun[w] ==> w in s.T().returned && s.T().returned[w].1 == verdict)
    case Validate(t) => !t.Begin? && Rendezvous.Enabled(s.T(), t)
  }

  function Next(s: System, a: Step): System {
    match a
    case Submit(mid) => s.(routed := s.routed + [Router.Enqueue(true)], mids := s.mids + [mid])
    case Route(r) => s.(routed := s.routed + [r])
    case Install => if s.installed.Some? then s else s.(installed := Some(|s.mids|))
    case BeginHandler(w, chan) =>
      if s.installed.Some? && w < |s.mids| then
        s.(begun := s.begun[w := true], table := s.table + [Rendezvous.Begin(w, s.mids[w], chan)])
      else
        s.(begun := s.begun[w := false])
    case EndHandler(w, verdict) => s.(routed := s.routed + [Router.HandlerReturns(w, verdict)])
    case Validate(t) => s.(table := s.table + [t])
  }

  function After(start: System, steps: seq<Step>): System {
    if steps == [] then start else Next(After(start, steps[..|steps| - 1]), steps[|steps| - 1])
  }

  ghost predicate Possible(start: System, steps: seq<Step>) {
    steps == [] ||
    var n := |steps| - 1;
    Possible(start, steps[..n]) && Enabled(After(start, steps[..n]), steps[n])
  }

  function Start(qSize: nat, workers: nat, outSize: nat): System {
    System(qSize, workers, outSize, [], [], [], None, map[])
  }

  // --- what every step keeps ---------------------------------------------------------------------------

  ghost predicate HalvesPossible(s: System) {
    Router.Possible(s.qSize, s.workers, s.routed) && Rendezvous.Possible(s.outSize, s.table)
  }

  ghost predicate Numbered(s: System) {
    && |s.mids| == s.R().accepted
    && (s.installed.Some? ==> s.installed.value <= |s.mids|)
  }

  /** A handler has begun only for dispatched messages, and PushWait only for the id of its message. */
  ghost predicate BegunRight(s: System, w: nat) {
    && (w in s.begun ==> w < |s.mids| && (s.installed.Some? && w >= s.installed.value ==> s.begun[w]) && (s.begun[w] ==> s.installed.Some?))
    && (w in s.T().pushes ==> w in s.begun && s.begun[w] && s.T().pushes[w].mid == s.mids[w])
    && (w in s.T().returned ==> w in s.begun && s.begun[w] && s.T().returned[w].0 == s.mids[w] && w !in s.T().pushes)
  }

  /** The result of a message handled by PushWait is what PushWait returned. */
  ghost predicate ResultRight(s: System, w: nat) {
    w in s.R().results ==> w in s.begun && (s.begun[w] ==> w in s.T().returned && s.T().returned[w].1 == s.R().results[w])
  }

  ghost predicate Inv(s: System) {
    HalvesPossible(s) && Numbered(s) && forall w: nat :: BegunRight(s, w) && ResultRight(s, w)
  }

  lemma {:induction false} RouterAppend(qSize: nat, workers: nat, routed: seq<Router.Action<Verdict>>, r: Router.Action<Verdict>)
    requires Router.Possible(qSize, workers, routed) && Router.Enabled(Router.After(qSize, workers, routed), r)
    ensures Router.Possible(qSize, workers, routed + [r])
    ensures Router.After(qSize, workers, routed + [r]) == Router.Next(Router.After(qSize, workers, routed), r)
  {
    var longer := routed + [r];
    assert longer[..|longer| - 1] == routed && longer[|longer| - 1] == r;
  }

  lemma {:induction false} TableAppend(outSize: nat, table: seq<Rendezvous.Action>, t: Rendezvous.Action)
    requires Rendezvous.Possible(outSize, table) && Rendezvous.Enabled(Rendezvous.After(outSize, table), t)
    ensures Rendezvous.Possible(outSize, table + [t])
    ensures Rendezvous.After(outSize, table + [t]) == Rendezvous.Next(Rendezvous.After(outSize, table), t)
  {
    var longer := table + [t];
    assert longer[..|longer| - 1] == table && longer[|longer| - 1] == t;
  }

  /** A message being handled was accepted. */
  lemma {:induction false} ExecutingWasAccepted(s: System, w: nat)
    requires HalvesPossible(s) && w in s.R().executing
    ensures w < s.R().accepted
  {
    Router.InvHolds(s.qSize, s.workers, s.routed);
    assert Router.Places(s.R(), w) == if w < |s.R().dequeued| then 1 else 0;
  }

  lemma {:induction false} SubmitKeeps(s: System, mid: string)
    requires Inv(s) && Enabled(s, Submit(mid))
    ensures Inv(Next(s, Submit(mid)))
  {
    RouterAppend(s.qSize, s.workers, s.routed, Router.Enqueue(true));
    var s' := Next(s, Submit(mid));
    assert s'.T() == s.T() && s'.R().results == s.R().results;
    forall w: nat ensures BegunRight(s', w) && ResultRight(s', w) {
      assert BegunRight(s, w) && ResultRight(s, w);
    }
  }

  lemma {:induction false} RouteKeeps(s: System, r: Router.Action<Verdict>)
    requires Inv(s) && Enabled(s, Route(r))
    ensures Inv(Next(s, Route(r)))
  {
    RouterAppend(s.qSize, s.workers, s.routed, r);
    var s' := Next(s, Route(r));
    assert s'.T() == s.T() && s'.R().results == s.R().results && s'.R().accepted == s.R().accepted;
    forall w: nat ensures BegunRight(s', w) && ResultRight(s', w) {
      assert BegunRight(s, w) && ResultRight(s, w);
    }
  }

  lemma {:induction false} InstallKeeps(s: System)
    requires Inv(s)
    ensures Inv(Next(s, Install))
  {
    var s' := Next(s, Install);
    assert s'.T() == s.T() && s'.R() == s.R();
    forall w: nat ensures BegunRight(s', w) && ResultRight(s', w) {
      assert BegunRight(s, w) && ResultRight(s, w);
    }
  }

  lemma {:induction false} BeginKeeps(s: System, x: nat, chan: nat)
    requires Inv(s) && Enabled(s, BeginHandler(x, chan))
    ensures Inv(Next(s, BeginHandler(x, chan)))
  {
    ExecutingWasAccepted(s, x);
    assert BegunRight(s, x) && ResultRight(s, x);
    var s' := Next(s, BeginHandler(x, chan));
    if s.installed.Some? {
      TableAppend(s.outSize, s.table, Rendezvous.Begin(x, s.mids[x], chan));
    }
    assert s'.R() == s.R() && s'.T().returned == s.T().returned;
    forall w: nat ensures BegunRight(s', w) && ResultRight(s', w) {
      assert BegunRight(s, w) && ResultRight(s, w);
    }
  }

  lemma {:induction false} EndKeeps(s: System, x: nat, verdict: Verdict)
    requires Inv(s) && Enabled(s, EndHandler(x, verdict))
    ensures Inv(Next(s, EndHandler(x, verdict)))
  {
    RouterAppend(s.qSize, s.workers, s.routed, Router.HandlerReturns(x, verdict));
    var s' := Next(s, EndHandler(x, verdict));
    assert s'.T() == s.T() && s'.R().results == s.R().results[x := verdict];
    forall w: nat ensures BegunRight(s', w) && ResultRight(s', w) {
      assert BegunRight(s, w) && ResultRight(s, w);
    }
  }

  lemma {:induction false} ValidateKeeps(s: System, t: Rendezvous.Action)
    requires Inv(s) && Enabled(s, Validate(t))
    ensures Inv(Next(s, Validate(t)))
  {
    TableAppend(s.outSize, s.table, t);
    var s' := Next(s, Validate(t));
    assert s'.R() == s.R();
    forall w: nat ensures BegunRight(s', w) && ResultRight(s', w) {
      assert BegunRight(s, w) && ResultRight(s, w);
    }
  }

  lemma {:induction false} InvStep(s: System, a: Step)
    requires Inv(s) && Enabled(s, a)
    ensures Inv(Next(s, a))
  {
    match a
    case Submit(mid) => SubmitKeeps(s, mid);
    case Route(r) => RouteKeeps(s, r);
    case Install => InstallKeeps(s);
    case BeginHandler(w, chan) => BeginKeeps(s, w, chan);
    case EndHandler(w, verdict) => EndKeeps(s, w, verdict);
    case Validate(t) => ValidateKeeps(s, t);
  }

  lemma {:induction false} InvHolds(qSize: nat, workers: nat, outSize: nat, steps: seq<Step>)
    requires Possible(Start(qSize, workers, outSize), steps)
    ensures Inv(After(Start(qSize, workers, outSize), steps))
    decreases |steps|
  {
    if steps != [] {
      var n := |steps| - 1;
      InvHolds(qSize, workers, outSize, steps[..n]);
      InvStep(After(Start(qSize, workers, outSize), steps[..n]), steps[n]);
    }
  }

  // --- fail-closed -----------------------------------------------------------------------------------

  /** What HandleWait may give for message `w`: an error when the queue has no room for it or its
      context ends first, otherwise the value received from the callback. */
  ghost predicate Gives(s: System, w: nat, outcome: Outcome) {
    if w < |s.mids| then
      && w in s.R().waits
      && match s.R().waits[w]
         case Waiting => false
         case Returned(v) => outcome == Value(v)
         case TimedOut => outcome == Error
    else
      |s.R().queue| >= s.qSize && outcome == Error
  }

  /** The message came after PushWait became the handler, or was dispatched after it. */
  ghost predicate MeetsPushWait(s: System, w: nat) {
    (s.installed.Some? && w >= s.installed.value) || (w in s.begun && s.begun[w])
  }

  /** In every run, a message that meets PushWait is accepted only if a client's ACCEPT for that very
      message id met its PushWait while that was waiting. */
  lemma {:induction false} FailClosed(qSize: nat, workers: nat, outSize: nat, steps: seq<Step>, w: nat, outcome: Outcome)
    requires Possible(Start(qSize, workers, outSize), steps)
    requires var s := After(Start(qSize, workers, outSize), steps);
             MeetsPushWait(s, w) && Gives(s, w, outcome)
    requires ValidateMsg(false, outcome) == Accept
    ensures var s := After(Start(qSize, workers, outSize), steps);
            w < |s.mids| && AcceptedBy(s.table, w, s.mids[w])
  {
    var s := After(Start(qSize, workers, outSize), steps);
    InvHolds(qSize, workers, outSize, steps);
    assert BegunRight(s, w) && ResultRight(s, w);
    Router.InvHolds(s.qSize, s.workers, s.routed);
    AcceptIsExplained(s.outSize, s.table);
  }

  /** Exactly when an Accept goes back to a client: a remote message that was accepted met PushWait if
      and only if a client's ACCEPT for its id met its PushWait. */
  lemma {:induction false} AcceptIff(qSize: nat, workers: nat, outSize: nat, steps: seq<Step>, w: nat)
    requires Possible(Start(qSize, workers, outSize), steps)
    requires Gives(After(Start(qSize, workers, outSize), steps), w, Value(Accept))
    ensures var s := After(Start(qSize, workers, outSize), steps);
            w < |s.mids| && (AcceptedBy(s.table, w, s.mids[w]) <==> MeetsPushWait(s, w))
  {
    var s := After(Start(qSize, workers, outSize), steps);
    InvHolds(qSize, workers, outSize, steps);
    if MeetsPushWait(s, w) {
      FailClosed(qSize, workers, outSize, steps, w, Value(Accept));
    }
    if AcceptedBy(s.table, w, s.mids[w]) {
      AcceptedMetPushWait(s, w);
    }
  }

  lemma {:induction false} AcceptedMetPushWait(s: System, w: nat)
    requires Inv(s) && w < |s.mids| && AcceptedBy(s.table, w, s.mids[w])
    ensures MeetsPushWait(s, w)
  {
    var r, j, k :| 0 <= j < k < |s.table| && s.table[j] == Look(r, s.mids[w], ACCEPT) && s.table[k] == Resolved(r, w);
    MetWasPushed(s.outSize, s.table, w, k);
    assert BegunRight(s, w);
  }

  // --- runs that show the theorem is tight ---------------------------------------------------------------

  /** The states of both halves and the bookkeeping, without the traces. */
  datatype View = View(r: Router.State<Verdict>, t: Table, mids: seq<string>, installed: Option<nat>, begun: map<nat, bool>)

  ghost predicate Reached(steps: seq<Step>, v: View) {
    && Possible(Start(1, 1, 1), steps)
    && var s := After(Start(1, 1, 1), steps); HalvesPossible(s) && v == View(s.R(), s.T(), s.mids, s.installed, s.begun)
  }

  lemma {:induction false} OneMore(steps: seq<Step>, v: View, a: Step)
    requires Reached(steps, v) && Enabled(After(Start(1, 1, 1), steps), a)
    ensures Possible(Start(1, 1, 1), steps + [a])
    ensures After(Start(1, 1, 1), steps + [a]) == Next(After(Start(1, 1, 1), steps), a)
  {
    assert (steps + [a])[..|steps|] == steps;
  }

  lemma {:induction false} Submitted(steps: seq<Step>, v: View, mid: string) returns (longer: seq<Step>)
    requires Reached(steps, v) && Router.Enabled(v.r, Router.Enqueue(true))
    ensures Reached(longer, v.(r := Router.Next(v.r, Router.Enqueue(true)), mids := v.mids + [mid]))
  {
    OneMore(steps, v, Submit(mid));
    var s := After(Start(1, 1, 1), steps);
    RouterAppend(s.qSize, s.workers, s.routed, Router.Enqueue(true));
    longer := steps + [Submit(mid)];
  }

  lemma {:induction false} Routed(steps: seq<Step>, v: View, r: Router.Action<Verdict>) returns (longer: seq<Step>)
    requires Reached(steps, v) && Router.Enabled(v.r, r) && !r.Enqueue? && !r.HandlerReturns?
    ensures Reached(longer, v.(r := Router.Next(v.r, r)))
  {
    OneMore(steps, v, Route(r));
    var s := After(Start(1, 1, 1), steps);
    RouterAppend(s.qSize, s.workers, s.routed, r);
    longer := steps + [Route(r)];
  }

  lemma {:induction false} Validated(steps: seq<Step>, v: View, t: Rendezvous.Action) returns (longer: seq<Step>)
    requires Reached(steps, v) && Rendezvous.Enabled(v.t, t) && !t.Begin?
    ensures Reached(longer, v.(t := Rendezvous.Next(v.t, t)))
  {
    OneMore(steps, v, Validate(t));
    var s := After(Start(1, 1, 1), steps);
    TableAppend(s.outSize, s.table, t);
    longer := steps + [Validate(t)];
  }

  lemma {:induction false} Begun(steps: seq<Step>, v: View) returns (longer: seq<Step>)
    requires Reached(steps, v) && 0 in v.r.executing && v.begun == map[] && |v.mids| == 1 && v.t == Rendezvous.Init(1)
    ensures var begin := Rendezvous.Begin(0, v.mids[0], 0);
      Reached(longer, v.(begun := map[0 := v.installed.Some?], t := if v.installed.Some? then Rendezvous.Next(v.t, begin) else v.t))
  {
    OneMore(steps, v, BeginHandler(0, 0));
    longer := steps + [BeginHandler(0, 0)];
    var s := After(Start(1, 1, 1), steps);
    var s' := Next(s, BeginHandler(0, 0));
    assert s'.routed == s.routed && s'.mids == s.mids && s'.installed == s.installed;
    assert s'.begun == map[0 := v.installed.Some?];
    if v.installed.Some? {
      var begin := Rendezvous.Begin(0, v.mids[0], 0);
      assert s'.table == s.table + [begin];
      TableAppend(s.outSize, s.table, begin);
    } else {
      assert s'.table == s.table;
    }
  }

  lemma {:induction false} Ended(steps: seq<Step>, v: View, verdict: Verdict) returns (longer: seq<Step>)
    requires Reached(steps, v) && 0 in v.r.executing && 0 in v.begun
    requires v.begun[0] ==> 0 in v.t.returned && v.t.returned[0].1 == verdict
    ensures Reached(longer, v.(r := Router.Next(v.r, Router.HandlerReturns(0, verdict))))
  {
    OneMore(steps, v, EndHandler(0, verdict));
    var s := After(Start(1, 1, 1), steps);
    RouterAppend(s.qSize, s.workers, s.routed, Router.HandlerReturns(0, verdict));
    longer := steps + [EndHandler(0, verdict)];
  }

  /** A router with room for one message, handling it. */
  function Busy(): Router.State<Verdict> {
    Router.Init<Verdict>(1, 1).(loops := map[0 := Router.Idle], executing := {0}, waits := map[0 := Router.Waiting],
                                accepted := 1, dequeued := [0], handled := [0], starts := 1)
  }

  /** The same router before a worker is free, and before a loop has taken the message. */
  function Held(): Router.State<Verdict> {
    Busy().(loops := map[0 := Router.Holding(0)], executing := {}, handled := [])
  }

  function Queued(): Router.State<Verdict> {
    Busy().(queue := [Router.Msg(0)], executing := {}, handled := [], dequeued := [])
  }

  lemma {:induction false} HeldIsDispatched()
    ensures Router.Enabled(Held(), Router.Dispatch(0)) && Router.Next(Held(), Router.Dispatch(0)) == Busy()
  {
    assert Held().loops[0 := Router.Idle] == Busy().loops;
  }

  lemma {:induction false} QueuedIsTaken()
    ensures Router.Enabled(Queued(), Router.Take(0)) && Router.Next(Queued(), Router.Take(0)) == Held()
  {
    assert Queued().loops[0 := Router.Holding(0)] == Held().loops;
  }

  lemma {:induction false} Dispatched(steps: seq<Step>, mid: string, installed: Option<nat>) returns (longer: seq<Step>)
    requires Reached(steps, View(Router.Init(1, 1), Rendezvous.Init(1), [], installed, map[]))
    ensures Reached(longer, View(Busy(), Rendezvous.Init(1), [mid], installed, map[]))
  {
    var v := View(Router.Init(1, 1), Rendezvous.Init(1), [], installed, map[]);
    longer := Routed(steps, v, Router.StartLoop(0));
    v := v.(r := Router.Next(v.r, Router.StartLoop(0)));
    longer := Submitted(longer, v, mid);
    v := v.(r := Queued(), mids := [mid]);
    QueuedIsTaken();
    longer := Routed(longer, v, Router.Take(0));
    HeldIsDispatched();
    longer := Routed(longer, v.(r := Held()), Router.Dispatch(0));
  }

  /** The same router when the handler has left its verdict. */
  function Replying(verdict: Verdict): Router.State<Verdict> {
    Busy().(executing := {}, replying := {0}, results := map[0 := verdict])
  }

  lemma {:induction false} BusyReplies(verdict: Verdict)
    ensures Router.Next(Busy(), Router.HandlerReturns(0, verdict)) == Replying(verdict)
  {
    assert Busy().executing - {0} == {} && Busy().replying + {0} == {0} && Busy().results[0 := verdict] == map[0 := verdict];
  }

  lemma {:induction false} ReplyIsDelivered(verdict: Verdict)
    ensures Router.Enabled(Replying(verdict), Router.Callback(0, true))
    ensures Router.Next(Replying(verdict), Router.Callback(0, true)).waits == map[0 := Router.Returned(verdict)]
  {
  }

  lemma {:induction false} Finished(steps: seq<Step>, v: View, verdict: Verdict) returns (longer: seq<Step>)
    requires Reached(steps, v) && v.r == Busy() && |v.mids| == 1 && 0 in v.begun
    requires v.begun[0] ==> 0 in v.t.returned && v.t.returned[0].1 == verdict
    ensures Possible(Start(1, 1, 1), longer) && Gives(After(Start(1, 1, 1), longer), 0, Value(verdict))
    ensures var s := After(Start(1, 1, 1), longer); s.installed == v.installed && s.T() == v.t && s.begun == v.begun
  {
    longer := Ended(steps, v, verdict);
    BusyReplies(verdict);
    var v' := v.(r := Replying(verdict));
    ReplyIsDelivered(verdict);
    longer := Routed(longer, v', Router.Callback(0, true));
  }

  /** The handler a router is created with may accept on its own: before PushWait is installed a
      message can be accepted although no client ever replied. */
  lemma {:induction false} OpenBeforeInstall(mid: string) returns (steps: seq<Step>)
    ensures Possible(Start(1, 1, 1), steps)
    ensures var s := After(Start(1, 1, 1), steps);
      s.installed == None && s.T() == Rendezvous.Init(1) && Gives(s, 0, Value(Accept)) && ValidateMsg(false, Value(Accept)) == Accept
  {
    steps := Dispatched([], mid, None);
    var v := View(Busy(), Rendezvous.Init(1), [mid], None, map[]);
    steps := Begun(steps, v);
    steps := Finished(steps, v.(begun := map[0 := false]), Accept);
  }

  /** The table after one PushWait for `mid` met the client's reply. */
  lemma {:induction false} Replied(steps: seq<Step>, v: View, mid: string, reply: ValidationResult) returns (longer: seq<Step>, t: Table)
    requires Reached(steps, v) && v.t == Rendezvous.Next(Rendezvous.Init(1), Rendezvous.Begin(0, mid, 0))
    ensures Reached(longer, v.(t := t)) && t.returned == map[0 := (mid, ConvertResult(reply))]
  {
    longer := Validated(steps, v, Rendezvous.Offer(0));
    t := Rendezvous.Next(v.t, Rendezvous.Offer(0));
    longer := Validated(longer, v.(t := t), Rendezvous.Look(0, mid, reply));
    t := Rendezvous.Next(t, Rendezvous.Look(0, mid, reply));
    longer := Validated(longer, v.(t := t), Rendezvous.Resolved(0, 0));
    t := Rendezvous.Next(t, Rendezvous.Resolved(0, 0));
    longer := Validated(longer, v.(t := t), Rendezvous.Leave(0));
    t := Rendezvous.Next(t, Rendezvous.Leave(0));
  }

  /** With PushWait installed, any reply of the client can decide the verdict, ACCEPT included. */
  lemma {:induction false} ReplyDecides(mid: string, reply: ValidationResult) returns (steps: seq<Step>)
    ensures Possible(Start(1, 1, 1), steps)
    ensures var s := After(Start(1, 1, 1), steps); MeetsPushWait(s, 0) && Gives(s, 0, Value(ConvertResult(reply)))
  {
    assert [Install][..0] == [];
    steps := Dispatched([Install], mid, Some(0));
    var v := View(Busy(), Rendezvous.Init(1), [mid], Some(0), map[]);
    steps := Begun(steps, v);
    v := v.(begun := map[0 := true], t := Rendezvous.Next(v.t, Rendezvous.Begin(0, mid, 0)));
    var t;
    steps, t := Replied(steps, v, mid, reply);
    steps := Finished(steps, v.(t := t), ConvertResult(reply));
  }
}

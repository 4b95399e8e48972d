/** The rendezvous between messages waiting for validation and the replies of the client
    (api/grpc/val_router.go): PushWait calls and the receiver's resolve calls, interleaved at their
    locks and channel operations. */
module Rendezvous {
  import opened Options
  import opened Admission

  /** The verdict of the pubsub library; Accept is its zero value. */
  datatype Verdict = Accept | Reject | Ignore

  function ConvertResult(res: ValidationResult): (v: Verdict)
    ensures v == Accept <==> res == ACCEPT
    ensures v == Reject <==> res == REJECT
  {
    match res
    case ACCEPT => Accept
    case REJECT => Reject
    case NIL => Ignore
    case IGNORE => Ignore
  }

  /** A PushWait call: registered, waiting for a reply, or about to return. */
  datatype Phase = Registered | Waiting | Leaving(verdict: Verdict)

  datatype Push = Push(mid: string, chan: nat, phase: Phase)

  /** A resolve call between its lookup and its send. A missing entry and a nil channel alike can
      never be sent on. */
  datatype Resolve = Resolve(mid: string, reply: ValidationResult, chan: Option<nat>)

  datatype Table = Table(
    qSize: nat,
    results: map<string, Option<nat>>,     // message id to channel, or nil after a cancel
    pushes: map<nat, Push>,                // active PushWait calls
    outbox: seq<string>,                   // the queue to the client's stream
    resolves: map<nat, Resolve>,
    channels: map<nat, string>,            // every channel ever made, and the id it was made for
    replies: set<nat>,                     // every resolve call ever started
    returned: map<nat, (string, Verdict)>) // finished PushWait calls

  datatype Action =
    | Begin(w: nat, mid: string, chan: nat)            // add: a fresh channel under the message id
    | Offer(w: nat)                                    // push to the client's queue, or give up if it is full
    | Send                                             // the stream takes from the queue
    | Look(r: nat, mid: string, reply: ValidationResult)
    | Resolved(r: nat, w: nat)                         // the send meets the waiting receiver
    | Dropped(r: nat)                                  // nobody receives
    | Expire(w: nat)                                   // the context of PushWait ends
    | Leave(w: nat)                                    // the deferred cancel, then return

  function Init(qSize: nat): Table {
    Table(qSize, map[], map[], [], map[], map[], {}, map[])
  }

  ghost predicate InPhase(t: Table, w: nat, phase: Phase) {
    w in t.pushes && t.pushes[w].phase == phase
  }

  ghost predicate Enabled(t: Table, a: Action) {
    match a
    case Begin(w, mid, chan) => w !in t.pushes && w !in t.returned && chan !in t.channels
    case Offer(w) => InPhase(t, w, Registered)
    case Send => t.outbox != []
    case Look(r, mid, reply) => r !in t.replies
    case Resolved(r, w) => r in t.resolves && InPhase(t, w, Waiting) && t.resolves[r].chan == Some(t.pushes[w].chan)
    case Dropped(r) => r in t.resolves
    case Expire(w) => InPhase(t, w, Waiting)
    case Leave(w) => w in t.pushes && t.pushes[w].phase.Leaving?
  }

  function SetPhase(t: Table, w: nat, phase: Phase): Table
    requires w in t.pushes
  {
    t.(pushes := t.pushes[w := t.pushes[w].(phase := phase)])
  }

  function Next(t: Table, a: Action): Table {
    match a
    case Begin(w, mid, chan) =>
      t.(results := t.results[mid := Some(chan)], pushes := t.pushes[w := Push(mid, chan, Registered)],
         channels := t.channels[chan := mid])
    case Offer(w) =>
      if w !in t.pushes then t
      else if |t.outbox| < t.qSize then SetPhase(t, w, Waiting).(outbox := t.outbox + [t.pushes[w].mid])
      else SetPhase(t, w, Leaving(Ignore))
    case Send =>
      if t.outbox == [] then t else t.(outbox := t.outbox[1..])
    case Look(r, mid, reply) =>
      t.(resolves := t.resolves[r := Resolve(mid, reply, if mid in t.results then t.results[mid] else None)],
         replies := t.replies + {r})
    case Resolved(r, w) =>
      if w !in t.pushes || r !in t.resolves then t
      else SetPhase(t, w, Leaving(ConvertResult(t.resolves[r].reply))).(resolves := t.resolves - {r})
    case Dropped(r) =>
      t.(resolves := t.resolves - {r})
    case Expire(w) =>
      if w !in t.pushes then t else SetPhase(t, w, Leaving(Ignore))
    case Leave(w) =>
      if w !in t.pushes || !t.pushes[w].phase.Leaving? then t else
        var mid := t.pushes[w].mid;
        t.(results := if mid in t.results then t.results[mid := None] else t.results,
           pushes := t.pushes - {w},
           returned := t.returned[w := (mid, t.pushes[w].phase.verdict)])
  }

  // --- what every step keeps ---------------------------------------------------------------------------

  ghost predicate Owns(t: Table, w: nat, c: nat) {
    w in t.pushes && t.pushes[w].chan == c
  }

  /** A live entry of the table is the channel of a PushWait still active for that very message id. */
  ghost predicate EntryLive(t: Table, mid: string) {
    mid in t.results && t.results[mid].Some? ==>
      exists w :: Owns(t, w, t.results[mid].value) && t.pushes[w].mid == mid
  }

  /** Channels are told apart, and remembered with the id they were made for. */
  ghost predicate ChannelsApart(t: Table) {
    && (forall w :: w in t.pushes ==> t.pushes[w].chan in t.channels && t.channels[t.pushes[w].chan] == t.pushes[w].mid)
    && (forall v, w :: v in t.pushes && w in t.pushes && t.pushes[v].chan == t.pushes[w].chan ==> v == w)
  }

  ghost predicate LookupsTrue(t: Table) {
    && (forall mid :: mid in t.results && t.results[mid].Some? ==> t.results[mid].value in t.channels && t.channels[t.results[mid].value] == mid)
    && (forall r :: r in t.resolves && t.resolves[r].chan.Some? ==>
          t.resolves[r].chan.value in t.channels && t.channels[t.resolves[r].chan.value] == t.resolves[r].mid)
  }

  ghost predicate Inv(t: Table) {
    (forall mid :: EntryLive(t, mid)) && ChannelsApart(t) && LookupsTrue(t)
  }

  /** Whoever owns a channel keeps it, except by leaving. */
  lemma {:induction false} OwnsStays(t: Table, a: Action, w: nat, c: nat)
    requires Enabled(t, a) && Owns(t, w, c) && (a.Leave? ==> a.w != w)
    ensures Owns(Next(t, a), w, c) && Next(t, a).pushes[w].mid == t.pushes[w].mid
  {
  }

  /** An entry that is live after a step was live before, unless the step made it. */
  lemma {:induction false} EntryOrigin(t: Table, a: Action, mid: string)
    requires Enabled(t, a) && mid in Next(t, a).results && Next(t, a).results[mid].Some?
    requires !(a.Begin? && a.mid == mid)
    ensures mid in t.results && t.results[mid] == Next(t, a).results[mid]
    ensures a.Leave? ==> t.pushes[a.w].mid != mid
  {
  }

  lemma {:induction false} EntryLiveStep(t: Table, a: Action, mid: string)
    requires EntryLive(t, mid) && Enabled(t, a)
    ensures EntryLive(Next(t, a), mid)
  {
    var t' := Next(t, a);
    if mid in t'.results && t'.results[mid].Some? {
      var c := t'.results[mid].value;
      if a.Begin? && a.mid == mid {
        assert Owns(t', a.w, c);
      } else {
        EntryOrigin(t, a, mid);
        var w :| Owns(t, w, c) && t.pushes[w].mid == mid;
        OwnsStays(t, a, w, c);
      }
    }
  }

  lemma {:induction false} InvStep(t: Table, a: Action)
    requires Inv(t) && Enabled(t, a)
    ensures Inv(Next(t, a))
  {
    forall mid ensures EntryLive(Next(t, a), mid) {
      assert EntryLive(t, mid);
      EntryLiveStep(t, a, mid);
    }
    ChannelsStep(t, a);
    LookupsStep(t, a);
  }

  lemma {:induction false} ChannelsStep(t: Table, a: Action)
    requires Inv(t) && Enabled(t, a)
    ensures ChannelsApart(Next(t, a))
  {
  }

  lemma {:induction false} LookupsStep(t: Table, a: Action)
    requires Inv(t) && Enabled(t, a)
    ensures LookupsTrue(Next(t, a))
  {
  }

  function After(qSize: nat, actions: seq<Action>): Table {
    if actions == [] then Init(qSize) else Next(After(qSize, actions[..|actions| - 1]), actions[|actions| - 1])
  }

  ghost predicate Possible(qSize: nat, actions: seq<Action>) {
    actions == [] ||
    var n := |actions| - 1;
    Possible(qSize, actions[..n]) && Enabled(After(qSize, actions[..n]), actions[n])
  }

  lemma {:induction false} InvHolds(qSize: nat, actions: seq<Action>)
    requires Possible(qSize, actions)
    ensures Inv(After(qSize, actions))
    decreases |actions|
  {
    if actions != [] {
      var n := |actions| - 1;
      InvHolds(qSize, actions[..n]);
      InvStep(After(qSize, actions[..n]), actions[n]);
    }
  }

  /** In every run, when no PushWait is active every entry of the table is nil. */
  lemma {:induction false} QuietTableIsNil(qSize: nat, actions: seq<Action>, mid: string)
    requires Possible(qSize, actions) && After(qSize, actions).pushes == map[] && mid in After(qSize, actions).results
    ensures After(qSize, actions).results[mid] == None
  {
    InvHolds(qSize, actions);
    assert EntryLive(After(qSize, actions), mid);
  }

  /** A reply reaches only a PushWait for the message id it names, whatever ids are in flight twice. */
  lemma {:induction false} RepliesDoNotCross(t: Table, r: nat, w: nat)
    requires Inv(t) && Enabled(t, Resolved(r, w))
    ensures t.resolves[r].mid == t.pushes[w].mid
  {
  }

  // --- where an Accept comes from ------------------------------------------------------------------------

  /** A client's ACCEPT for `mid` was looked up and later met this PushWait while it was waiting. */
  ghost predicate AcceptedBy(actions: seq<Action>, w: nat, mid: string) {
    exists r, j, k :: 0 <= j < k < |actions| && actions[j] == Look(r, mid, ACCEPT) && actions[k] == Resolved(r, w)
  }

  /** A pending reply was looked up earlier, as it says. */
  ghost predicate LookedUp(actions: seq<Action>, r: nat, res: Resolve) {
    exists j :: 0 <= j < |actions| && actions[j] == Look(r, res.mid, res.reply)
  }

  ghost predicate Explained(actions: seq<Action>, t: Table) {
    && (forall r :: r in t.resolves ==> LookedUp(actions, r, t.resolves[r]))
    && (forall w :: InPhase(t, w, Leaving(Accept)) ==> AcceptedBy(actions, w, t.pushes[w].mid))
    && (forall w :: w in t.returned && t.returned[w].1 == Accept ==> AcceptedBy(actions, w, t.returned[w].0))
  }

  lemma {:induction false} LongerTrace(actions: seq<Action>, a: Action)
    ensures forall w, mid :: AcceptedBy(actions, w, mid) ==> AcceptedBy(actions + [a], w, mid)
    ensures forall r, res :: LookedUp(actions, r, res) ==> LookedUp(actions + [a], r, res)
  {
    var all := actions + [a];
    forall w, mid | AcceptedBy(actions, w, mid) ensures AcceptedBy(all, w, mid) {
      var r, j, k :| 0 <= j < k < |actions| && actions[j] == Look(r, mid, ACCEPT) && actions[k] == Resolved(r, w);
      assert all[j] == actions[j] && all[k] == actions[k];
    }
    forall r, res | LookedUp(actions, r, res) ensures LookedUp(all, r, res) {
      var j :| 0 <= j < |actions| && actions[j] == Look(r, res.mid, res.reply);
      assert all[j] == actions[j];
    }
  }

  /** Pending replies, leaving calls and returned calls come from the step or from before it. */
  lemma {:induction false} Origins(t: Table, a: Action)
    requires Enabled(t, a)
    ensures var t' := Next(t, a);
      && (forall r :: r in t'.resolves && !(a.Look? && a.r == r) ==> r in t.resolves && t.resolves[r] == t'.resolves[r])
      && (forall w :: InPhase(t', w, Leaving(Accept)) && !(a.Resolved? && a.w == w) ==> InPhase(t, w, Leaving(Accept)) && t.pushes[w].mid == t'.pushes[w].mid)
      && (forall w :: w in t'.returned && !(a.Leave? && a.w == w) ==> w in t.returned && t.returned[w] == t'.returned[w])
  {
  }

  /** A reply that makes a call leave with Accept was looked up for its message id. */
  lemma {:induction false} ResolvedIsExplained(actions: seq<Action>, t: Table, a: Action)
    requires Inv(t) && Explained(actions, t) && Enabled(t, a) && a.Resolved? && InPhase(Next(t, a), a.w, Leaving(Accept))
    ensures AcceptedBy(actions + [a], a.w, t.pushes[a.w].mid)
  {
    var all, n := actions + [a], |actions|;
    assert t.resolves[a.r].reply == ACCEPT;
    RepliesDoNotCross(t, a.r, a.w);
    assert LookedUp(actions, a.r, t.resolves[a.r]);
    var j :| 0 <= j < n && actions[j] == Look(a.r, t.resolves[a.r].mid, ACCEPT);
    assert all[j] == actions[j] && all[n] == a;
  }

  lemma {:induction false} ExplainedStep(actions: seq<Action>, t: Table, a: Action)
    requires Inv(t) && Explained(actions, t) && Enabled(t, a)
    ensures Explained(actions + [a], Next(t, a))
  {
    LongerTrace(actions, a);
    Origins(t, a);
    var all, t' := actions + [a], Next(t, a);
    assert all[|actions|] == a;
    forall r | r in t'.resolves ensures LookedUp(all, r, t'.resolves[r]) {
      if a.Look? && a.r == r {
        assert t'.resolves[r].mid == a.mid && t'.resolves[r].reply == a.reply;
      }
    }
    forall w | InPhase(t', w, Leaving(Accept)) ensures AcceptedBy(all, w, t'.pushes[w].mid) {
      if a.Resolved? && a.w == w {
        ResolvedIsExplained(actions, t, a);
      }
    }
    forall w | w in t'.returned && t'.returned[w].1 == Accept ensures AcceptedBy(all, w, t'.returned[w].0) {
      if a.Leave? && a.w == w {
        assert InPhase(t, w, Leaving(Accept));
      }
    }
  }

  /** In every run a PushWait returns Accept only if a client's ACCEPT for its own message id was
      resolved while it was waiting. */
  lemma {:induction false} AcceptIsExplained(qSize: nat, actions: seq<Action>)
    requires Possible(qSize, actions)
    ensures Explained(actions, After(qSize, actions))
    decreases |actions|
  {
    if actions != [] {
      var n := |actions| - 1;
      AcceptIsExplained(qSize, actions[..n]);
      InvHolds(qSize, actions[..n]);
      ExplainedStep(actions[..n], After(qSize, actions[..n]), actions[n]);
      assert actions == actions[..n] + [actions[n]];
    }
  }

  ghost predicate Pushed(t: Table, w: nat) {
    w in t.pushes || w in t.returned
  }

  lemma {:induction false} PushedStays(t: Table, a: Action, w: nat)
    requires Pushed(t, w)
    ensures Pushed(Next(t, a), w)
  {
  }

  /** Whoever a reply met is a PushWait that is still active or has returned. */
  lemma {:induction false} MetWasPushed(qSize: nat, actions: seq<Action>, w: nat, k: nat)
    requires Possible(qSize, actions) && k < |actions| && actions[k].Resolved? && actions[k].w == w
    ensures Pushed(After(qSize, actions), w)
    decreases |actions|
  {
    var n := |actions| - 1;
    var t := After(qSize, actions[..n]);
    if k < n {
      MetWasPushed(qSize, actions[..n], w, k);
    } else {
      assert InPhase(t, w, Waiting);
    }
    PushedStays(t, actions[n], w);
  }
}

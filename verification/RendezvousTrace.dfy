/** The rendezvous read off its actions: what every PushWait returns, what the table holds and what the
    client's stream is sent, all from the list of actions. */
module RendezvousTrace {
  import opened Options
  import opened Admission
  import opened Rendezvous

  // --- verdicts --------------------------------------------------------------------------------------------

  /** The client's reply for `mid` was looked up, and later met PushWait `w` while it was waiting. */
  ghost predicate Met(actions: seq<Action>, w: nat, mid: string, reply: ValidationResult) {
    exists r, j, k :: 0 <= j < k < |actions| && actions[j] == Look(r, mid, reply) && actions[k] == Resolved(r, w)
  }

  ghost predicate Unmet(actions: seq<Action>, w: nat) {
    forall k, r :: 0 <= k < |actions| ==> actions[k] != Resolved(r, w)
  }

  /** What PushWait `w` for `mid` gives: the reply that met it, and Ignore if none did. */
  ghost predicate VerdictFits(actions: seq<Action>, w: nat, mid: string, v: Verdict) {
    && (Unmet(actions, w) ==> v == Ignore)
    && (!Unmet(actions, w) ==> exists reply :: Met(actions, w, mid, reply))
    && (forall m, reply :: Met(actions, w, m, reply) ==> m == mid && v == ConvertResult(reply))
  }

  /** A pending reply is what its only lookup said. */
  ghost predicate LookedUpOnce(actions: seq<Action>, t: Table) {
    && (forall j :: 0 <= j < |actions| && actions[j].Look? ==> actions[j].r in t.replies)
    && (forall r :: r in t.resolves ==> r in t.replies && LookedUp(actions, r, t.resolves[r]))
    && (forall r, j :: r in t.resolves && 0 <= j < |actions| && actions[j].Look? && actions[j].r == r ==>
          actions[j] == Look(r, t.resolves[r].mid, t.resolves[r].reply))
  }

  ghost predicate Fits(actions: seq<Action>, t: Table, w: nat) {
    if w in t.pushes then
      match t.pushes[w].phase
      case Leaving(v) => VerdictFits(actions, w, t.pushes[w].mid, v)
      case _ => Unmet(actions, w)
    else if w in t.returned then
      VerdictFits(actions, w, t.returned[w].0, t.returned[w].1)
    else
      Unmet(actions, w)
  }

  lemma {:induction false} LookedUpOnceStep(actions: seq<Action>, t: Table, a: Action)
    requires LookedUpOnce(actions, t) && Enabled(t, a)
    ensures LookedUpOnce(actions + [a], Next(t, a))
  {
    var all, t' := actions + [a], Next(t, a);
    LongerTrace(actions, a);
    assert all[|actions|] == a;
    Origins(t, a);
    forall r | r in t'.resolves ensures LookedUp(all, r, t'.resolves[r]) {
      if a.Look? && a.r == r {
        assert t'.resolves[r].mid == a.mid && t'.resolves[r].reply == a.reply;
      }
    }
  }

  /** Only a reply meeting `w` changes what met `w`. */
  lemma {:induction false} MetStays(actions: seq<Action>, a: Action, w: nat)
    requires !(a.Resolved? && a.w == w)
    ensures Unmet(actions + [a], w) <==> Unmet(actions, w)
    ensures forall mid, reply :: Met(actions + [a], w, mid, reply) <==> Met(actions, w, mid, reply)
  {
    var all, n := actions + [a], |actions|;
    assert all[n] == a;
    if k, r :| 0 <= k < n && actions[k] == Resolved(r, w) {
      assert all[k] == Resolved(r, w);
    }
    forall mid, reply ensures Met(all, w, mid, reply) <==> Met(actions, w, mid, reply) {
      if r, j, k :| 0 <= j < k < n && actions[j] == Look(r, mid, reply) && actions[k] == Resolved(r, w) {
        assert all[j] == actions[j] && all[k] == actions[k];
      }
      if r, j, k :| 0 <= j < k < |all| && all[j] == Look(r, mid, reply) && all[k] == Resolved(r, w) {
        assert k < n && actions[j] == Look(r, mid, reply) && actions[k] == Resolved(r, w);
      }
    }
  }

  lemma {:induction false} FitStays(actions: seq<Action>, a: Action, w: nat, mid: string, v: Verdict)
    requires !(a.Resolved? && a.w == w) && VerdictFits(actions, w, mid, v)
    ensures VerdictFits(actions + [a], w, mid, v)
  {
    MetStays(actions, a, w);
    if !Unmet(actions + [a], w) {
      var reply :| Met(actions, w, mid, reply);
      assert Met(actions + [a], w, mid, reply);
    }
  }

  /** The reply that meets a waiting PushWait decides its verdict. */
  lemma {:induction false} ResolvedFits(actions: seq<Action>, t: Table, r: nat, w: nat)
    requires Inv(t) && LookedUpOnce(actions, t) && Unmet(actions, w) && Enabled(t, Resolved(r, w))
    ensures VerdictFits(actions + [Resolved(r, w)], w, t.pushes[w].mid, ConvertResult(t.resolves[r].reply))
  {
    var all, n, res := actions + [Resolved(r, w)], |actions|, t.resolves[r];
    RepliesDoNotCross(t, r, w);
    assert all[n] == Resolved(r, w);
    assert LookedUp(actions, r, res);
    var j :| 0 <= j < n && actions[j] == Look(r, res.mid, res.reply);
    assert all[j] == Look(r, res.mid, res.reply);
    assert Met(all, w, res.mid, res.reply);
    forall m, reply | Met(all, w, m, reply) ensures m == res.mid && reply == res.reply {
      var r0, i, k :| 0 <= i < k < |all| && all[i] == Look(r0, m, reply) && all[k] == Resolved(r0, w);
      OnlyLast(actions, r, w, r0, k);
      assert actions[i] == Look(r, m, reply);
    }
  }

  lemma {:induction false} OnlyLast(actions: seq<Action>, r: nat, w: nat, r0: nat, k: nat)
    requires Unmet(actions, w) && k <= |actions| && (actions + [Resolved(r, w)])[k] == Resolved(r0, w)
    ensures k == |actions| && r0 == r
  {
    assert forall i :: 0 <= i < |actions| ==> (actions + [Resolved(r, w)])[i] == actions[i];
  }

  lemma {:induction false} FitsStep(actions: seq<Action>, t: Table, a: Action, w: nat)
    requires Inv(t) && LookedUpOnce(actions, t) && Fits(actions, t, w) && Enabled(t, a)
    ensures Fits(actions + [a], Next(t, a), w)
  {
    if a.Resolved? && a.w == w {
      ResolvedFits(actions, t, a.r, w);
    } else {
      MetStays(actions, a, w);
      if w in t.pushes && t.pushes[w].phase.Leaving? {
        FitStays(actions, a, w, t.pushes[w].mid, t.pushes[w].phase.verdict);
      }
      if w !in t.pushes && w in t.returned {
        FitStays(actions, a, w, t.returned[w].0, t.returned[w].1);
      }
      StepOf(t, a, w);
    }
  }

  /** Without a reply, a PushWait can only come to leave with Ignore. */
  lemma {:induction false} StepOf(t: Table, a: Action, w: nat)
    requires Enabled(t, a) && !(a.Resolved? && a.w == w)
    ensures var t' := Next(t, a);
      if w in t.pushes then
        if w in t'.pushes then
          && t'.pushes[w].mid == t.pushes[w].mid
          && (t'.pushes[w].phase == t.pushes[w].phase || t'.pushes[w].phase == Leaving(Ignore) || t'.pushes[w].phase == Waiting)
          && (t.pushes[w].phase.Leaving? ==> t'.pushes[w].phase == t.pushes[w].phase)
        else
          t.pushes[w].phase.Leaving? && w in t'.returned && t'.returned[w] == (t.pushes[w].mid, t.pushes[w].phase.verdict)
      else
        && (w in t'.returned <==> w in t.returned) && (w in t.returned ==> t'.returned[w] == t.returned[w])
        && (w in t'.pushes ==> t'.pushes[w].phase == Registered && w !in t.returned)
  {
  }

  lemma {:induction false} FitsHold(qSize: nat, actions: seq<Action>, w: nat)
    requires Possible(qSize, actions)
    ensures LookedUpOnce(actions, After(qSize, actions)) && Fits(actions, After(qSize, actions), w)
    decreases |actions|
  {
    if actions != [] {
      var n := |actions| - 1;
      var init, a := actions[..n], actions[n];
      FitsHold(qSize, init, w);
      InvHolds(qSize, init);
      LookedUpOnceStep(init, After(qSize, init), a);
      FitsStep(init, After(qSize, init), a, w);
      assert actions == init + [a];
    }
  }

  /** In every run a PushWait that has returned gave what the client's reply that met it says: Accept exactly
      if an ACCEPT for its id met it, Reject exactly if a REJECT for its id did, and Ignore otherwise, so
      also when the client's queue was full, its context ended, the reply was NIL or never came. */
  lemma {:induction false} VerdictExact(qSize: nat, actions: seq<Action>, w: nat)
    requires Possible(qSize, actions) && w in After(qSize, actions).returned
    ensures var (mid, v) := After(qSize, actions).returned[w];
      && (v == Accept <==> Met(actions, w, mid, ACCEPT))
      && (v == Reject <==> Met(actions, w, mid, REJECT))
      && (Unmet(actions, w) ==> v == Ignore)
      && (forall m, reply :: Met(actions, w, m, reply) ==> m == mid)
  {
    FitsHold(qSize, actions, w);
    ReturnedIsNotPushed(qSize, actions, w);
    var (mid, v) := After(qSize, actions).returned[w];
    assert VerdictFits(actions, w, mid, v);
    if !Unmet(actions, w) {
      var reply :| Met(actions, w, mid, reply);
      assert v == ConvertResult(reply);
    }
  }

  lemma {:induction false} ReturnedIsNotPushed(qSize: nat, actions: seq<Action>, w: nat)
    requires Possible(qSize, actions) && w in After(qSize, actions).returned
    ensures w !in After(qSize, actions).pushes
    decreases |actions|
  {
    var n := |actions| - 1;
    var t := After(qSize, actions[..n]);
    if w in t.returned {
      ReturnedIsNotPushed(qSize, actions[..n], w);
    }
    ReturnedStep(t, actions[n], w);
  }

  lemma {:induction false} ReturnedStep(t: Table, a: Action, w: nat)
    requires Enabled(t, a) && (w in t.returned ==> w !in t.pushes)
    ensures w in Next(t, a).returned ==> w !in Next(t, a).pushes
  {
  }

  // --- the client's queue ----------------------------------------------------------------------------------

  /** The message id that PushWait `w` was begun with. */
  function MidOf(actions: seq<Action>, w: nat): Option<string> {
    if actions == [] then None else
      var n := |actions| - 1;
      if actions[n].Begin? && actions[n].w == w then Some(actions[n].mid) else MidOf(actions[..n], w)
  }

  function Sends(actions: seq<Action>): nat {
    if actions == [] then 0 else Sends(actions[..|actions| - 1]) + if actions[|actions| - 1].Send? then 1 else 0
  }

  /** The ids put into the client's queue, in order: an offer is put in if the queue has room. */
  function Forwarded(qSize: nat, actions: seq<Action>): seq<string> {
    if actions == [] then [] else
      var n := |actions| - 1;
      var before := Forwarded(qSize, actions[..n]);
      if actions[n].Offer? && MidOf(actions[..n], actions[n].w).Some? && |before| < qSize + Sends(actions[..n])
      then before + [MidOf(actions[..n], actions[n].w).value] else before
  }

  ghost predicate Room(qSize: nat, actions: seq<Action>) {
    |Forwarded(qSize, actions)| < qSize + Sends(actions)
  }

  lemma {:induction false} MidsHold(qSize: nat, actions: seq<Action>, w: nat)
    requires Possible(qSize, actions) && w in After(qSize, actions).pushes
    ensures MidOf(actions, w) == Some(After(qSize, actions).pushes[w].mid)
    decreases |actions|
  {
    var n := |actions| - 1;
    var t := After(qSize, actions[..n]);
    PushOrigin(t, actions[n], w);
    if !(actions[n].Begin? && actions[n].w == w) {
      MidsHold(qSize, actions[..n], w);
    }
  }

  lemma {:induction false} PushOrigin(t: Table, a: Action, w: nat)
    requires Enabled(t, a) && w in Next(t, a).pushes
    ensures if a.Begin? && a.w == w then Next(t, a).pushes[w].mid == a.mid
            else w in t.pushes && t.pushes[w].mid == Next(t, a).pushes[w].mid
  {
  }

  /** In every run the client's stream has taken the forwarded ids in order, and the queue holds the rest. */
  lemma {:induction false} OutboxHolds(qSize: nat, actions: seq<Action>)
    requires Possible(qSize, actions)
    ensures Sends(actions) <= |Forwarded(qSize, actions)| <= Sends(actions) + qSize
    ensures After(qSize, actions).outbox == Forwarded(qSize, actions)[Sends(actions)..] && After(qSize, actions).qSize == qSize
    decreases |actions|
  {
    if actions != [] {
      var n := |actions| - 1;
      OutboxHolds(qSize, actions[..n]);
      if actions[n].Offer? {
        MidsHold(qSize, actions[..n], actions[n].w);
      }
      OutboxStep(After(qSize, actions[..n]), actions[n]);
    }
  }

  lemma {:induction false} OutboxStep(t: Table, a: Action)
    requires Enabled(t, a)
    ensures Next(t, a).qSize == t.qSize
    ensures Next(t, a).outbox ==
      if a.Offer? && |t.outbox| < t.qSize then t.outbox + [t.pushes[a.w].mid] else if a.Send? then t.outbox[1..] else t.outbox
  {
  }

  /** PushWait `w` found the client's queue full, or its context ended while it waited. */
  ghost predicate GaveUp(qSize: nat, actions: seq<Action>, w: nat) {
    Expire(w) in actions || exists j :: TurnedAway(qSize, actions, w, j)
  }

  ghost predicate TurnedAway(qSize: nat, actions: seq<Action>, w: nat, j: int) {
    0 <= j < |actions| && actions[j] == Offer(w) && !Room(qSize, actions[..j])
  }

  lemma {:induction false} GaveUpStep(qSize: nat, actions: seq<Action>, w: nat)
    requires actions != []
    ensures var n := |actions| - 1;
      GaveUp(qSize, actions, w)
      <==> GaveUp(qSize, actions[..n], w) || actions[n] == Expire(w) || (actions[n] == Offer(w) && !Room(qSize, actions[..n]))
  {
    var n := |actions| - 1;
    assert actions == actions[..n] + [actions[n]];
    forall j | 0 <= j < n ensures TurnedAway(qSize, actions, w, j) <==> TurnedAway(qSize, actions[..n], w, j) {
      assert actions[..n][..j] == actions[..j];
    }
    assert TurnedAway(qSize, actions, w, n) <==> actions[n] == Offer(w) && !Room(qSize, actions[..n]);
  }

  /** One that gave up is on its way out with Ignore, or is out. */
  ghost predicate Ignores(t: Table, w: nat) {
    if w in t.pushes then t.pushes[w].phase == Leaving(Ignore) else w in t.returned && t.returned[w].1 == Ignore
  }

  /** In every run a PushWait that found the queue full or whose context ended met no reply, and gives
      Ignore. */
  lemma {:induction false} GivesUpWithIgnore(qSize: nat, actions: seq<Action>, w: nat)
    requires Possible(qSize, actions) && GaveUp(qSize, actions, w)
    ensures Ignores(After(qSize, actions), w) && Unmet(actions, w)
    decreases |actions|
  {
    var n := |actions| - 1;
    var init, a := actions[..n], actions[n];
    var t := After(qSize, init);
    assert actions == init + [a];
    GaveUpStep(qSize, actions, w);
    if GaveUp(qSize, init, w) {
      GivesUpWithIgnore(qSize, init, w);
      StaysIgnored(t, a, w);
    } else {
      FitsHold(qSize, init, w);
      OutboxHolds(qSize, init);
    }
    MetStays(init, a, w);
  }

  lemma {:induction false} StaysIgnored(t: Table, a: Action, w: nat)
    requires Enabled(t, a) && Ignores(t, w)
    ensures Ignores(Next(t, a), w) && !(a.Resolved? && a.w == w)
  {
  }

  /** In every run whoever waits for a reply, or met one, was put into the client's queue. */
  lemma {:induction false} WaitingWasForwarded(qSize: nat, actions: seq<Action>, w: nat)
    requires Possible(qSize, actions) && (InPhase(After(qSize, actions), w, Waiting) || !Unmet(actions, w))
    ensures exists j :: ForwardedAt(qSize, actions, w, j)
    decreases |actions|
  {
    var n := |actions| - 1;
    var init, a := actions[..n], actions[n];
    assert actions == init + [a];
    if a == Offer(w) && Room(qSize, init) {
      assert ForwardedAt(qSize, actions, w, n);
    } else {
      OutboxHolds(qSize, init);
      if !(a.Resolved? && a.w == w) {
        MetStays(init, a, w);
      }
      WaitsFrom(After(qSize, init), a, w);
      WaitingWasForwarded(qSize, init, w);
      ForwardedStays(qSize, init, a, w);
    }
  }

  lemma {:induction false} WaitsFrom(t: Table, a: Action, w: nat)
    requires Enabled(t, a) && !(a == Offer(w) && |t.outbox| < t.qSize)
    ensures InPhase(Next(t, a), w, Waiting) ==> InPhase(t, w, Waiting)
    ensures a.Resolved? && a.w == w ==> InPhase(t, w, Waiting)
  {
  }

  lemma {:induction false} ForwardedStays(qSize: nat, actions: seq<Action>, a: Action, w: nat)
    requires exists j :: ForwardedAt(qSize, actions, w, j)
    ensures exists j :: ForwardedAt(qSize, actions + [a], w, j)
  {
    var j :| ForwardedAt(qSize, actions, w, j);
    assert (actions + [a])[..j] == actions[..j];
    assert ForwardedAt(qSize, actions + [a], w, j);
  }

  ghost predicate ForwardedAt(qSize: nat, actions: seq<Action>, w: nat, j: int) {
    0 <= j < |actions| && actions[j] == Offer(w) && Room(qSize, actions[..j])
  }

  // --- the table -------------------------------------------------------------------------------------------------

  /** What the table holds for `mid`: the channel of the last PushWait that began with that id, or nil if one
      for that id has left since. */
  function EntryOf(actions: seq<Action>, mid: string): Option<Option<nat>> {
    if actions == [] then None else
      var n := |actions| - 1;
      var a, before := actions[n], EntryOf(actions[..n], mid);
      if a.Begin? && a.mid == mid then Some(Some(a.chan))
      else if a.Leave? && MidOf(actions[..n], a.w) == Some(mid) && before.Some? then Some(None)
      else before
  }

  lemma {:induction false} EntriesHold(qSize: nat, actions: seq<Action>, mid: string)
    requires Possible(qSize, actions)
    ensures var t := After(qSize, actions); EntryOf(actions, mid) == if mid in t.results then Some(t.results[mid]) else None
    decreases |actions|
  {
    if actions != [] {
      var n := |actions| - 1;
      EntriesHold(qSize, actions[..n], mid);
      if actions[n].Leave? {
        MidsHold(qSize, actions[..n], actions[n].w);
      }
    }
  }

  /** In every run a reply can be sent only on the channel that the table held for its id at the lookup. */
  ghost predicate LookedUpAt(actions: seq<Action>, r: nat, chan: nat, j: int) {
    0 <= j < |actions| && actions[j].Look? && actions[j].r == r && EntryOf(actions[..j], actions[j].mid) == Some(Some(chan))
  }

  lemma {:induction false} LookMakes(t: Table, a: Action)
    requires a.Look?
    ensures Next(t, a).resolves[a.r].chan == if a.mid in t.results then t.results[a.mid] else None
  {
  }

  lemma {:induction false} ResolvesHold(qSize: nat, actions: seq<Action>, r: nat)
    requires Possible(qSize, actions) && r in After(qSize, actions).resolves && After(qSize, actions).resolves[r].chan.Some?
    ensures exists j :: LookedUpAt(actions, r, After(qSize, actions).resolves[r].chan.value, j)
    decreases |actions|
  {
    var n := |actions| - 1;
    var t, chan := After(qSize, actions[..n]), After(qSize, actions).resolves[r].chan.value;
    if actions[n].Look? && actions[n].r == r {
      EntriesHold(qSize, actions[..n], actions[n].mid);
      LookMakes(t, actions[n]);
      assert LookedUpAt(actions, r, chan, n);
    } else {
      Origins(t, actions[n]);
      ResolvesHold(qSize, actions[..n], r);
      var j :| LookedUpAt(actions[..n], r, chan, j);
      assert actions[..n][..j] == actions[..j];
      assert LookedUpAt(actions, r, chan, j);
    }
  }

  // --- who is active -----------------------------------------------------------------------------------------

  ghost predicate Began(actions: seq<Action>, w: nat) {
    exists j :: 0 <= j < |actions| && actions[j].Begin? && actions[j].w == w
  }

  /** In every run the active PushWait calls are those that began and have not left, and those that left have
      returned. */
  lemma {:induction false} ActiveIff(qSize: nat, actions: seq<Action>, w: nat)
    requires Possible(qSize, actions)
    ensures var t := After(qSize, actions);
      && (w in t.pushes <==> Began(actions, w) && Leave(w) !in actions)
      && (w in t.returned <==> Leave(w) in actions)
      && (Leave(w) in actions ==> Began(actions, w))
    decreases |actions|
  {
    if actions != [] {
      var n := |actions| - 1;
      var init, a := actions[..n], actions[n];
      assert actions == init + [a];
      ActiveIff(qSize, init, w);
      BeganStep(init, a, w);
      ActiveStep(After(qSize, init), a, w);
    }
  }

  lemma {:induction false} BeganStep(actions: seq<Action>, a: Action, w: nat)
    ensures Began(actions + [a], w) <==> Began(actions, w) || (a.Begin? && a.w == w)
  {
    var all := actions + [a];
    assert forall j :: 0 <= j < |actions| ==> all[j] == actions[j];
    assert all[|actions|] == a;
  }

  lemma {:induction false} ActiveStep(t: Table, a: Action, w: nat)
    requires Enabled(t, a)
    ensures var t' := Next(t, a);
      && (w in t'.pushes <==> (w in t.pushes && a != Leave(w)) || (a.Begin? && a.w == w))
      && (w in t'.returned <==> w in t.returned || a == Leave(w))
  {
  }

  ghost predicate Sent(actions: seq<Action>, r: nat) {
    exists j :: 0 <= j < |actions| && (actions[j] == Dropped(r) || (actions[j].Resolved? && actions[j].r == r))
  }

  ghost predicate Looked(actions: seq<Action>, r: nat) {
    exists j :: 0 <= j < |actions| && actions[j].Look? && actions[j].r == r
  }

  /** In every run a reply is pending from its lookup until it is sent or dropped, and then is gone for good. */
  lemma {:induction false} PendingIff(qSize: nat, actions: seq<Action>, r: nat)
    requires Possible(qSize, actions)
    ensures var t := After(qSize, actions);
      && (r in t.resolves <==> Looked(actions, r) && !Sent(actions, r))
      && (r in t.replies <==> Looked(actions, r)) && (Sent(actions, r) ==> Looked(actions, r))
    decreases |actions|
  {
    if actions != [] {
      var n := |actions| - 1;
      var init, a := actions[..n], actions[n];
      assert actions == init + [a];
      PendingIff(qSize, init, r);
      SentStep(init, a, r);
      PendingStep(After(qSize, init), a, r);
    }
  }

  lemma {:induction false} SentStep(actions: seq<Action>, a: Action, r: nat)
    ensures Sent(actions + [a], r) <==> Sent(actions, r) || a == Dropped(r) || (a.Resolved? && a.r == r)
    ensures Looked(actions + [a], r) <==> Looked(actions, r) || (a.Look? && a.r == r)
  {
    var all := actions + [a];
    assert forall j :: 0 <= j < |actions| ==> all[j] == actions[j];
    assert all[|actions|] == a;
  }

  lemma {:induction false} PendingStep(t: Table, a: Action, r: nat)
    requires Enabled(t, a)
    ensures var t' := Next(t, a);
      && (r in t'.resolves <==> (r in t.resolves && a != Dropped(r) && !(a.Resolved? && a.r == r)) || (a.Look? && a.r == r))
      && (r in t'.replies <==> r in t.replies || (a.Look? && a.r == r))
  {
  }
}

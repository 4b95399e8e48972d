/** The message router (core/router.go) as a transition system: a bounded queue, any number of Start
    loops, a pool of worker tokens and callers that may wait for a result. Every interleaving of the
    atomic channel operations is a run. */
module Router {
  /** An entry of the queue: a wrapped message, or the nil that RefreshHandler pushes. */
  datatype Item = Marker | Msg(id: nat)

  /** A live Start loop waits for the queue, or holds a message until a worker token is free. */
  datatype Loop = Idle | Holding(id: nat)

  /** A HandleWait caller whose message was accepted. */
  datatype Wait<+T> = Waiting | Returned(value: T) | TimedOut

  datatype State<T> = State(
    qSize: nat, workers: nat,
    queue: seq<Item>,
    loops: map<nat, Loop>,
    executing: set<nat>,      // handler running, worker token taken
    replying: set<nat>,       // handler returned, callback and release of the token still to come
    finished: set<nat>,
    results: map<nat, T>,     // the Result a handler left in its wrapper
    waits: map<nat, Wait<T>>,
    accepted: nat,            // messages accepted so far, numbered in that order
    dequeued: seq<nat>,
    handled: seq<nat>,        // handler executions started, in order
    starts: nat, pushed: nat, cancelled: nat)

  function Init<T>(qSize: nat, workers: nat): State<T> {
    State(qSize, workers, [], map[], {}, {}, {}, map[], map[], 0, [], [], 0, 0, 0)
  }

  datatype Action<T> =
    | Enqueue(wait: bool)                     // Handle or HandleWait finds room in the queue
    | PushMarker                              // RefreshHandler pushes nil
    | StartLoop(l: nat)
    | CancelLoop(l: nat)                      // the context of an idle loop ends
    | Take(l: nat)                            // an idle loop receives from the queue
    | Dispatch(l: nat)                        // a holding loop gets a worker token and spawns the handler
    | HandlerReturns(id: nat, result: T)
    | Callback(id: nat, delivered: bool)      // the non-blocking send, then the token is released
    | Timeout(id: nat)                        // the context of a waiting caller ends

  ghost predicate Enabled<T>(s: State<T>, a: Action<T>) {
    match a
    case Enqueue(_) => |s.queue| < s.qSize
    case PushMarker => |s.queue| < s.qSize
    case StartLoop(l) => l !in s.loops
    case CancelLoop(l) => l in s.loops && s.loops[l].Idle?
    case Take(l) => l in s.loops && s.loops[l].Idle? && s.queue != []
    case Dispatch(l) => l in s.loops && s.loops[l].Holding? && |s.executing| + |s.replying| < s.workers
    case HandlerReturns(id, _) => id in s.executing
    case Callback(id, delivered) => id in s.replying && id in s.results && (delivered ==> id in s.waits && s.waits[id].Waiting?)
    case Timeout(id) => id in s.waits && s.waits[id].Waiting?
  }

  function Next<T>(s: State<T>, a: Action<T>): State<T> {
    match a
    case Enqueue(wait) =>
      s.(queue := s.queue + [Msg(s.accepted)], accepted := s.accepted + 1,
         waits := if wait then s.waits[s.accepted := Waiting] else s.waits)
    case PushMarker =>
      s.(queue := s.queue + [Marker], pushed := s.pushed + 1)
    case StartLoop(l) =>
      s.(loops := s.loops[l := Idle], starts := s.starts + 1)
    case CancelLoop(l) =>
      s.(loops := s.loops - {l}, cancelled := s.cancelled + 1)
    case Take(l) =>
      if s.queue == [] then s
      else if s.queue[0].Marker? then s.(queue := s.queue[1..], loops := s.loops - {l})
      else s.(queue := s.queue[1..], loops := s.loops[l := Holding(s.queue[0].id)], dequeued := s.dequeued + [s.queue[0].id])
    case Dispatch(l) =>
      if l !in s.loops || s.loops[l].Idle? then s else
        var id := s.loops[l].id;
        s.(loops := s.loops[l := Idle], executing := s.executing + {id}, handled := s.handled + [id])
    case HandlerReturns(id, result) =>
      s.(executing := s.executing - {id}, replying := s.replying + {id}, results := s.results[id := result])
    case Callback(id, delivered) =>
      s.(replying := s.replying - {id}, finished := s.finished + {id},
         waits := if delivered && id in s.results then s.waits[id := Returned(s.results[id])] else s.waits)
    case Timeout(id) =>
      s.(waits := s.waits[id := TimedOut])
  }

  function After<T>(qSize: nat, workers: nat, actions: seq<Action<T>>): State<T> {
    if actions == [] then Init(qSize, workers) else
      Next(After(qSize, workers, actions[..|actions| - 1]), actions[|actions| - 1])
  }

  ghost predicate Possible<T>(qSize: nat, workers: nat, actions: seq<Action<T>>) {
    actions == [] ||
    var n := |actions| - 1;
    Possible(qSize, workers, actions[..n]) && Enabled(After(qSize, workers, actions[..n]), actions[n])
  }

  // --- the queue -------------------------------------------------------------------------------------

  /** The messages of the queue in order, and the number of its markers. */
  function Messages(queue: seq<Item>): seq<nat> {
    if queue == [] then [] else
      (match queue[0] case Marker => [] case Msg(id) => [id]) + Messages(queue[1..])
  }

  function Markers(queue: seq<Item>): nat {
    if queue == [] then 0 else (if queue[0].Marker? then 1 else 0) + Markers(queue[1..])
  }

  lemma {:induction false} QueueAppend(queue: seq<Item>, x: Item)
    ensures Messages(queue + [x]) == Messages(queue) + (match x case Marker => [] case Msg(id) => [id])
    ensures Markers(queue + [x]) == Markers(queue) + if x.Marker? then 1 else 0
  {
    if queue == [] {
      assert (queue + [x])[1..] == [];
    } else {
      QueueAppend(queue[1..], x);
      assert (queue + [x])[1..] == queue[1..] + [x];
    }
  }

  // --- what every step keeps ---------------------------------------------------------------------------

  /** Messages leave the queue in the order they were accepted, and none is lost or repeated. */
  ghost predicate Ordered<T>(s: State<T>) {
    |s.queue| <= s.qSize && CountsUp(s.dequeued + Messages(s.queue), s.accepted)
  }

  /** The list 0, 1, .., n - 1. */
  ghost predicate CountsUp(list: seq<nat>, n: nat) {
    |list| == n && forall i :: 0 <= i < n ==> list[i] == i
  }

  function Held(loops: map<nat, Loop>): set<nat> {
    set l | l in loops && loops[l].Holding? :: loops[l].id
  }

  ghost predicate OneHolder(loops: map<nat, Loop>) {
    forall k, l :: k in loops && l in loops && loops[k].Holding? && loops[k] == loops[l] ==> k == l
  }

  function Places<T>(s: State<T>, id: nat): nat {
    (if id in Held(s.loops) then 1 else 0) + (if id in s.executing then 1 else 0) +
    (if id in s.replying then 1 else 0) + (if id in s.finished then 1 else 0)
  }

  /** A dequeued message is in exactly one of four places, and no other message is in any. */
  ghost predicate Conserved<T>(s: State<T>) {
    OneHolder(s.loops) && forall id: nat :: Places(s, id) == if id < |s.dequeued| then 1 else 0
  }

  /** Never more handlers than worker tokens. */
  ghost predicate TokensBounded<T>(s: State<T>) {
    |s.executing| + |s.replying| <= s.workers
  }

  /** No message is handled twice. */
  ghost predicate HandledOnce<T>(s: State<T>) {
    && (forall id :: id in s.handled <==> id in s.executing || id in s.replying || id in s.finished)
    && (forall i, j :: 0 <= i < j < |s.handled| ==> s.handled[i] != s.handled[j])
  }

  /** Live loops are the Start calls, less the markers consumed and the cancelled loops. */
  ghost predicate LoopsAccounted<T>(s: State<T>) {
    |s.loops| + s.pushed + s.cancelled == s.starts + Markers(s.queue)
  }

  /** A caller that got a value got the one its own handler execution left. */
  ghost predicate ResultsOwn<T>(s: State<T>) {
    && (forall id :: id in s.results <==> id in s.replying || id in s.finished)
    && (forall id :: id in s.waits && s.waits[id].Returned? ==> id in s.finished && s.waits[id].value == s.results[id])
  }

  ghost predicate Inv<T>(s: State<T>) {
    Ordered(s) && Conserved(s) && TokensBounded(s) && HandledOnce(s) && LoopsAccounted(s) && ResultsOwn(s)
  }

  lemma {:induction false} OrderedStep<T>(s: State<T>, a: Action<T>)
    requires Ordered(s) && Enabled(s, a)
    ensures Ordered(Next(s, a))
  {
    var list := s.dequeued + Messages(s.queue);
    match a
    case Enqueue(_) =>
      QueueAppend(s.queue, Msg(s.accepted));
      assert s.dequeued + (Messages(s.queue) + [s.accepted]) == list + [s.accepted];
    case PushMarker =>
      QueueAppend(s.queue, Marker);
      assert Messages(s.queue) + [] == Messages(s.queue);
    case Take(l) =>
      var q := s.queue[0];
      assert (if q.Marker? then s.dequeued else s.dequeued + [q.id]) + Messages(s.queue[1..]) == list;
    case _ =>
  }

  lemma {:induction false} LoopsStep<T>(s: State<T>, a: Action<T>)
    requires LoopsAccounted(s) && Enabled(s, a)
    ensures LoopsAccounted(Next(s, a))
    ensures a.Take? && s.queue[0].Marker? ==> Next(s, a).dequeued == s.dequeued && Messages(Next(s, a).queue) == Messages(s.queue)
  {
    match a
    case Enqueue(_) => QueueAppend(s.queue, Msg(s.accepted));
    case PushMarker => QueueAppend(s.queue, Marker);
    case CancelLoop(l) => MapRemove(s.loops, l);
    case Take(l) => MapRemove(s.loops, l);
    case _ =>
  }

  lemma {:induction false} MapRemove(loops: map<nat, Loop>, l: nat)
    requires l in loops
    ensures |loops - {l}| == |loops| - 1
  {
    assert loops.Keys == (loops - {l}).Keys + {l};
  }

  /** What a loop takes from the queue carries the next number. */
  lemma {:induction false} TakenIsNext<T>(s: State<T>)
    requires Ordered(s) && s.queue != [] && s.queue[0].Msg?
    ensures s.queue[0].id == |s.dequeued|
  {
    assert (s.dequeued + Messages(s.queue))[|s.dequeued|] == Messages(s.queue)[0] == s.queue[0].id;
  }

  lemma {:induction false} HeldAfterTake(loops: map<nat, Loop>, l: nat, id: nat, x: nat)
    requires l in loops && loops[l].Idle?
    ensures x in Held(loops[l := Holding(id)]) <==> x == id || x in Held(loops)
  {
    var loops' := loops[l := Holding(id)];
    assert loops'[l].id == id;
    if x in Held(loops) {
      var k :| k in loops && loops[k].Holding? && loops[k].id == x;
      assert loops'[k] == loops[k];
    }
  }

  /** Removing an idle loop, or adding one, changes nothing that is held. */
  lemma {:induction false} HeldIgnoresIdle(loops: map<nat, Loop>, l: nat, x: nat)
    requires l in loops ==> loops[l].Idle?
    ensures x in Held(loops - {l}) <==> x in Held(loops)
    ensures x in Held(loops[l := Idle]) <==> x in Held(loops)
  {
    if x in Held(loops) {
      var k :| k in loops && loops[k].Holding? && loops[k].id == x;
      assert (loops - {l})[k] == loops[k] && loops[l := Idle][k] == loops[k];
    }
  }

  lemma {:induction false} HeldAfterDispatch(loops: map<nat, Loop>, l: nat, x: nat)
    requires l in loops && loops[l].Holding? && OneHolder(loops)
    ensures x in Held(loops[l := Idle]) <==> x in Held(loops) && x != loops[l].id
    ensures loops[l].id in Held(loops)
  {
    var loops' := loops[l := Idle];
    if x in Held(loops) && x != loops[l].id {
      var k :| k in loops && loops[k].Holding? && loops[k].id == x;
      assert loops'[k] == loops[k];
    }
    if x in Held(loops') {
      var k :| k in loops' && loops'[k].Holding? && loops'[k].id == x;
      assert loops[k] == loops'[k];
    }
  }

  lemma {:induction false} PlacesStep<T>(s: State<T>, a: Action<T>, id: nat)
    requires Ordered(s) && Conserved(s) && Enabled(s, a)
    ensures var s' := Next(s, a); Places(s', id) == if id < |s'.dequeued| then 1 else 0
  {
    assert Places(s, id) == if id < |s.dequeued| then 1 else 0;
    match a
    case StartLoop(l) => HeldIgnoresIdle(s.loops, l, id);
    case CancelLoop(l) => HeldIgnoresIdle(s.loops, l, id);
    case Take(l) =>
      if s.queue[0].Marker? {
        HeldIgnoresIdle(s.loops, l, id);
      } else {
        TakenIsNext(s);
        HeldAfterTake(s.loops, l, s.queue[0].id, id);
      }
    case Dispatch(l) =>
      HeldAfterDispatch(s.loops, l, id);
    case _ =>
  }

  lemma {:induction false} HolderStep<T>(s: State<T>, a: Action<T>)
    requires Ordered(s) && Conserved(s) && Enabled(s, a)
    ensures OneHolder(Next(s, a).loops)
  {
    if a.Take? && s.queue[0].Msg? {
      TakenIsNext(s);
      var id := s.queue[0].id;
      assert Places(s, id) == 0;
      forall k | k in s.loops ensures s.loops[k] != Holding(id) {
        assert s.loops[k].Holding? ==> s.loops[k].id in Held(s.loops);
      }
    }
  }

  lemma {:induction false} ConservedStep<T>(s: State<T>, a: Action<T>)
    requires Ordered(s) && Conserved(s) && Enabled(s, a)
    ensures Conserved(Next(s, a))
  {
    HolderStep(s, a);
    forall id: nat ensures var s' := Next(s, a); Places(s', id) == if id < |s'.dequeued| then 1 else 0 {
      PlacesStep(s, a, id);
    }
  }

  lemma {:induction false} HandledStep<T>(s: State<T>, a: Action<T>)
    requires Conserved(s) && HandledOnce(s) && Enabled(s, a)
    ensures HandledOnce(Next(s, a))
  {
    if a.Dispatch? {
      var id := s.loops[a.l].id;
      HeldAfterDispatch(s.loops, a.l, id);
      assert Places(s, id) <= 1;
      assert id !in s.handled;
    }
  }

  lemma {:induction false} OneMoreOneLess(a: set<nat>, id: nat)
    ensures |a + {id}| <= |a| + 1 && |a - {id}| == |a| - if id in a then 1 else 0
  {
    if id in a {
      assert a + {id} == a;
    }
  }

  lemma {:induction false} TokensStep<T>(s: State<T>, a: Action<T>)
    requires TokensBounded(s) && Enabled(s, a)
    ensures TokensBounded(Next(s, a))
  {
    match a
    case Dispatch(l) =>
      OneMoreOneLess(s.executing, s.loops[l].id);
    case HandlerReturns(id, _) =>
      OneMoreOneLess(s.executing, id);
      OneMoreOneLess(s.replying, id);
    case Callback(id, _) =>
      OneMoreOneLess(s.replying, id);
    case _ =>
  }

  lemma {:induction false} ResultsStep<T>(s: State<T>, a: Action<T>)
    requires Conserved(s) && ResultsOwn(s) && Enabled(s, a)
    ensures ResultsOwn(Next(s, a))
  {
    if a.HandlerReturns? {
      assert Places(s, a.id) <= 1;
    }
  }

  lemma {:induction false} InvStep<T>(s: State<T>, a: Action<T>)
    requires Inv(s) && Enabled(s, a)
    ensures Inv(Next(s, a))
  {
    OrderedStep(s, a);
    ConservedStep(s, a);
    TokensStep(s, a);
    HandledStep(s, a);
    LoopsStep(s, a);
    ResultsStep(s, a);
  }

  /** The invariant holds after every run, with any number of loops, callers and workers. */
  lemma {:induction false} InvHolds<T>(qSize: nat, workers: nat, actions: seq<Action<T>>)
    requires Possible(qSize, workers, actions)
    ensures Inv(After(qSize, workers, actions))
    decreases |actions|
  {
    if actions != [] {
      var n := |actions| - 1;
      InvHolds(qSize, workers, actions[..n]);
      InvStep(After(qSize, workers, actions[..n]), actions[n]);
    }
  }

  /** Of the accepted messages, those still queued are the ones not yet dequeued. */
  lemma {:induction false} QueuedIff<T>(s: State<T>, id: nat)
    requires Ordered(s) && id < s.accepted
    ensures id in Messages(s.queue) <==> id >= |s.dequeued|
  {
    var n, queued := |s.dequeued|, Messages(s.queue);
    forall i | 0 <= i < |queued| ensures queued[i] == n + i {
      assert (s.dequeued + queued)[n + i] == queued[i];
    }
    if id >= n {
      assert queued[id - n] == id;
    }
  }

  /** In every run each accepted message is in exactly one place: still queued, held by a loop, being
      handled, being replied to, or finished. */
  lemma {:induction false} ExactlyOnePlace<T>(qSize: nat, workers: nat, actions: seq<Action<T>>, id: nat)
    requires Possible(qSize, workers, actions) && id < After(qSize, workers, actions).accepted
    ensures var s := After(qSize, workers, actions); Places(s, id) == if id in Messages(s.queue) then 0 else 1
  {
    InvHolds(qSize, workers, actions);
    QueuedIff(After(qSize, workers, actions), id);
  }
}

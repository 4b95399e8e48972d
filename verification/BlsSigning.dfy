/** Whole runs of one signer: any reports, in any order, delivered one at a time. */
module BlsSigning {
  import opened Options
  import opened Ring
  import opened Quorum
  import opened BlsNode

  /** A delivered report, and whether the broadcast it may cause succeeds. */
  datatype Input = Input(report: SignedReport, sent: bool)

  /** Where a run has led: the buffer, the partial signatures issued and the reports reconstructed. */
  datatype Trace = Trace(buf: Buffer<nat, Body>, mine: seq<SignedReport>, recovered: seq<SignedReport>)

  function Append<T>(s: seq<T>, o: Option<T>): seq<T> {
    if o.Some? then s + [o.value] else s
  }

  function Step(share: Share, t: Trace, i: Input): (t': Trace)
    requires share.Valid() && t.buf.Valid()
    ensures t'.buf.Valid() && t'.buf.size == t.buf.size
  {
    var h := Handle(share, t.buf, i.report, i.sent);
    Trace(h.buf, Append(t.mine, h.mine), Append(t.recovered, h.recovered))
  }

  function Run(share: Share, inputs: seq<Input>): (t: Trace)
    requires share.Valid()
    ensures t.buf.Valid() && t.buf.size == BUFFER_SIZE
  {
    if inputs == [] then Trace(New(BUFFER_SIZE, ZERO), [], []) else
      Step(share, Run(share, inputs[..|inputs| - 1]), inputs[|inputs| - 1])
  }

  /** Every report is delivered less than a buffer size below the highest number held by then. */
  ghost predicate Windowed(share: Share, inputs: seq<Input>)
    requires share.Valid()
  {
    inputs == [] ||
    var n := |inputs| - 1;
    Windowed(share, inputs[..n]) && Run(share, inputs[..n]).buf.InWindow(inputs[n].report.seqNo)
  }

  lemma {:induction false} RunAppend(share: Share, inputs: seq<Input>, i: Input)
    requires share.Valid()
    ensures Run(share, inputs + [i]) == Step(share, Run(share, inputs), i)
    ensures Windowed(share, inputs) && Run(share, inputs).buf.InWindow(i.report.seqNo) ==> Windowed(share, inputs + [i])
  {
    assert (inputs + [i])[..|inputs|] == inputs;
  }

  /** A report validates exactly if it is what the share of the signer it names would sign. */
  lemma {:induction false} ValidatesOwn(share: Share, sr: SignedReport)
    ensures share.Validate(sr) <==> sr.body.signer in share.signers && Share(sr.body.signer, share.signers).Sign(sr) == sr
  {
  }

  // --- one step inside the window -------------------------------------------------------------------

  /** Handling a report is one `Add`, and a second one of the own answer. */
  lemma {:induction false} HandleIsAdds(share: Share, b: Buffer<nat, Body>, sr: SignedReport, sent: bool)
    requires share.Valid() && b.Valid()
    ensures var h, b1 := Handle(share, b, sr, sent), b.Add(sr.body.signer, sr).0;
            && h.buf == (if h.mine.Some? then b1.Add(share.id, share.Sign(sr)).0 else b1)
            && (h.mine.Some? ==> h.mine.value == share.Sign(sr))
            && (h.mine.Some? <==> b.Add(sr.body.signer, sr).1 && Processable(share, b1, sr.seqNo))
  {
  }

  /** Handling a report keeps every report whose number stays inside the window, and adds at most the
      sender and this node to those that hold the report's own number. */
  lemma {:induction false} HandleKeeps(share: Share, b: Buffer<nat, Body>, sr: SignedReport, sent: bool, q: nat)
    requires share.Valid() && b.Valid() && q > 0 && Handle(share, b, sr, sent).buf.InWindow(q)
    ensures var h := Handle(share, b, sr, sent);
            && b.InWindow(q)
            && (forall k :: k in b.Lookup(q) ==> h.buf.Get(k, q) == b.Get(k, q))
            && h.buf.Lookup(q) == if q != sr.seqNo then b.Lookup(q) else
                 b.Lookup(q) + {sr.body.signer} + (if h.mine.Some? then {share.id} else {})
  {
    HandleIsAdds(share, b, sr, sent);
    var b1 := b.Add(sr.body.signer, sr).0;
    if Handle(share, b, sr, sent).mine.Some? {
      AddKeeps(b1, share.id, share.Sign(sr), q);
    }
    AddKeeps(b, sr.body.signer, sr, q);
  }

  lemma {:induction false} AddKeeps(b: Buffer<nat, Body>, k: nat, r: SignedReport, q: nat)
    requires b.Valid() && q > 0 && b.Add(k, r).0.InWindow(q)
    ensures var b' := b.Add(k, r).0;
            && b.InWindow(q)
            && (forall j :: j in b.Lookup(q) ==> b'.Get(j, q) == b.Get(j, q))
            && b'.Lookup(q) == if r.seqNo == q then b.Lookup(q) + {k} else b.Lookup(q)
  {
    WindowShrinks(b, k, r, q);
    WindowedAdd(b, k, r, q);
  }

  /** When this node signs, in terms of who held the number before. */
  lemma {:induction false} HandleSigns(share: Share, b: Buffer<nat, Body>, sr: SignedReport, sent: bool)
    requires share.Valid() && b.Valid() && b.InWindow(sr.seqNo)
    ensures var q, from := sr.seqNo, sr.body.signer;
            var h, held := Handle(share, b, sr, sent), b.Lookup(sr.seqNo);
            && (h.mine.Some? <==> q > 0 && from !in held && share.Leader(q) in held + {from} && share.id !in held + {from})
            && (h.mine.Some? ==> h.mine.value == share.Sign(sr))
            && (h.recovered.Some? ==> q > 0 && from !in held)
            && h.buf.InWindow(q)
  {
    var q := sr.seqNo;
    if q > 0 {
      WindowedAddSucceeds(b, sr.body.signer, sr);
      WindowedAdd(b, sr.body.signer, sr, q);
      var b1 := b.Add(sr.body.signer, sr).0;
      WindowedAddSucceeds(b1, share.id, share.Sign(sr));
    }
  }

  // --- sign once, and only after the leader -----------------------------------------------------------

  /** Once the leader's report is held, so is the own one. */
  ghost predicate Answered(share: Share, b: Buffer<nat, Body>, q: nat)
    requires share.Valid() && b.Valid()
  {
    q > 0 && b.InWindow(q) && share.Leader(q) in b.Lookup(q) ==> share.id in b.Lookup(q)
  }

  ghost predicate StillHeld(share: Share, b: Buffer<nat, Body>, q: nat)
    requires share.Valid() && b.Valid()
  {
    q > 0 && (b.InWindow(q) ==> share.id in b.Lookup(q))
  }

  /** Every number inside the window is answered, a number that was signed is still held, and no
      number was signed twice. */
  ghost predicate SignedOnce(share: Share, t: Trace)
    requires share.Valid() && t.buf.Valid()
  {
    && (forall q: nat :: Answered(share, t.buf, q))
    && (forall i :: 0 <= i < |t.mine| ==> StillHeld(share, t.buf, t.mine[i].seqNo))
    && DistinctNumbers(t.mine)
  }

  predicate DistinctNumbers(reports: seq<SignedReport>) {
    forall i, j :: 0 <= i < j < |reports| ==> reports[i].seqNo != reports[j].seqNo
  }

  /** Inside the window the leader's report is what makes a node sign. */
  lemma {:induction false} SignsOnLeader(share: Share, b: Buffer<nat, Body>, sr: SignedReport, sent: bool)
    requires share.Valid() && b.Valid() && b.InWindow(sr.seqNo) && Answered(share, b, sr.seqNo)
    requires Handle(share, b, sr, sent).mine.Some?
    ensures sr.body.signer == share.Leader(sr.seqNo) != share.id
    ensures Handle(share, b, sr, sent).mine.value == share.Sign(sr) && sr.seqNo > 0 && share.id !in b.Lookup(sr.seqNo)
    ensures share.id in Handle(share, b, sr, sent).buf.Lookup(sr.seqNo)
  {
    HandleSigns(share, b, sr, sent);
    HandleKeeps(share, b, sr, sent, sr.seqNo);
  }

  lemma {:induction false} StepAnswers(share: Share, b: Buffer<nat, Body>, sr: SignedReport, sent: bool, q: nat)
    requires share.Valid() && b.Valid() && b.InWindow(sr.seqNo) && Answered(share, b, q)
    ensures Answered(share, Handle(share, b, sr, sent).buf, q)
    ensures StillHeld(share, b, q) ==> StillHeld(share, Handle(share, b, sr, sent).buf, q)
  {
    if q > 0 && Handle(share, b, sr, sent).buf.InWindow(q) {
      HandleKeeps(share, b, sr, sent, q);
      HandleSigns(share, b, sr, sent);
    }
  }

  lemma {:induction false} StepSignsOnce(share: Share, t: Trace, i: Input)
    requires share.Valid() && t.buf.Valid() && SignedOnce(share, t) && t.buf.InWindow(i.report.seqNo)
    ensures SignedOnce(share, Step(share, t, i))
  {
    var t' := Step(share, t, i);
    forall q: nat
      ensures Answered(share, t'.buf, q) && (StillHeld(share, t.buf, q) ==> StillHeld(share, t'.buf, q))
    {
      StepAnswers(share, t.buf, i.report, i.sent, q);
    }
    if Handle(share, t.buf, i.report, i.sent).mine.Some? {
      SignsOnLeader(share, t.buf, i.report, i.sent);
    }
  }

  /** The own partial signatures answer delivered reports of the leader, on the leader's data. */
  ghost predicate FollowsLeader(share: Share, inputs: seq<Input>, sr: SignedReport)
    requires share.Valid()
  {
    exists j :: 0 <= j < |inputs| && inputs[j].report.body.signer == share.Leader(sr.seqNo) && sr == share.Sign(inputs[j].report)
  }

  lemma {:induction false} RunSignsOnce(share: Share, inputs: seq<Input>)
    requires share.Valid() && Windowed(share, inputs)
    ensures SignedOnce(share, Run(share, inputs))
    decreases |inputs|
  {
    if inputs != [] {
      var n := |inputs| - 1;
      RunSignsOnce(share, inputs[..n]);
      StepSignsOnce(share, Run(share, inputs[..n]), inputs[n]);
    }
  }

  lemma {:induction false} RunFollowsLeader(share: Share, inputs: seq<Input>, i: nat)
    requires share.Valid() && Windowed(share, inputs) && i < |Run(share, inputs).mine|
    ensures var sr := Run(share, inputs).mine[i]; FollowsLeader(share, inputs, sr) && share.Leader(sr.seqNo) != share.id
    decreases |inputs|
  {
    var n := |inputs| - 1;
    var t := Run(share, inputs[..n]);
    if i < |t.mine| {
      RunFollowsLeader(share, inputs[..n], i);
      FollowsLeaderStays(share, inputs, t.mine[i]);
    } else {
      RunSignsOnce(share, inputs[..n]);
      assert Answered(share, t.buf, inputs[n].report.seqNo);
      SignsOnLeader(share, t.buf, inputs[n].report, inputs[n].sent);
    }
  }

  /** The discipline of a signer: each number is signed at most once, after the leader, on its data. */
  ghost predicate Disciplined(share: Share, inputs: seq<Input>)
    requires share.Valid()
  {
    && DistinctNumbers(Run(share, inputs).mine)
    && forall i :: 0 <= i < |Run(share, inputs).mine| ==> FollowsLeader(share, inputs, Run(share, inputs).mine[i])
  }

  /** In every run inside the window a node signs each sequence number at most once, and signs exactly
      the data of a report of the leader that it was given. */
  lemma {:induction false} SignsOnceAfterLeader(share: Share, inputs: seq<Input>)
    requires share.Valid() && Windowed(share, inputs)
    ensures Disciplined(share, inputs)
  {
    RunSignsOnce(share, inputs);
    var mine := Run(share, inputs).mine;
    forall i | 0 <= i < |mine| ensures FollowsLeader(share, inputs, mine[i]) {
      RunFollowsLeader(share, inputs, i);
    }
  }

  lemma {:induction false} FollowsLeaderStays(share: Share, inputs: seq<Input>, sr: SignedReport)
    requires share.Valid() && inputs != [] && FollowsLeader(share, inputs[..|inputs| - 1], sr)
    ensures FollowsLeader(share, inputs, sr)
  {
    var n := |inputs| - 1;
    var j :| 0 <= j < n && inputs[..n][j].report.body.signer == share.Leader(sr.seqNo) && sr == share.Sign(inputs[..n][j].report);
    assert inputs[j] == inputs[..n][j];
  }

  /** Inside the window or not, a node never answers under a number that it leads. */
  lemma {:induction false} NeverAnswersAsLeader(share: Share, inputs: seq<Input>, i: nat)
    requires share.Valid() && i < |Run(share, inputs).mine|
    ensures var sr := Run(share, inputs).mine[i]; sr.seqNo > 0 && share.Leader(sr.seqNo) != share.id
    decreases |inputs|
  {
    var n := |inputs| - 1;
    var t := Run(share, inputs[..n]);
    if i < |t.mine| {
      NeverAnswersAsLeader(share, inputs[..n], i);
    } else {
      HandleIsAdds(share, t.buf, inputs[n].report, inputs[n].sent);
    }
  }

  /** Inside the window or not, every own signature answers a delivered report, on its data. */
  ghost predicate AnswersInput(share: Share, inputs: seq<Input>, sr: SignedReport) {
    exists j :: 0 <= j < |inputs| && sr == share.Sign(inputs[j].report)
  }

  lemma {:induction false} MineAnswersInputs(share: Share, inputs: seq<Input>, i: nat)
    requires share.Valid() && i < |Run(share, inputs).mine|
    ensures AnswersInput(share, inputs, Run(share, inputs).mine[i])
    decreases |inputs|
  {
    var n := |inputs| - 1;
    var t := Run(share, inputs[..n]);
    if i < |t.mine| {
      MineAnswersInputs(share, inputs[..n], i);
      var j :| 0 <= j < n && t.mine[i] == share.Sign(inputs[..n][j].report);
      assert inputs[j] == inputs[..n][j];
    } else {
      HandleIsAdds(share, t.buf, inputs[n].report, inputs[n].sent);
    }
  }

  // --- sign whenever the leader asks --------------------------------------------------------------------

  ghost predicate HasSigned(t: Trace, q: nat) {
    exists i :: 0 <= i < |t.mine| && t.mine[i].seqNo == q
  }

  /** Reports under the own id come back only for numbers that the node signed or leads. A node could
      check this; the source does not, and a quorum of other signatures is enough to break it. */
  ghost predicate Authentic(share: Share, inputs: seq<Input>)
    requires share.Valid()
  {
    inputs == [] ||
    var n := |inputs| - 1;
    var sr := inputs[n].report;
    && Authentic(share, inputs[..n])
    && (sr.body.signer == share.id && share.Leader(sr.seqNo) != share.id ==> HasSigned(Run(share, inputs[..n]), sr.seqNo))
  }

  /** An `Add` puts at most its own report under a number, with or without the window. */
  lemma {:induction false} AddHolds<K(!new), P>(b: Buffer<K, P>, k: K, r: Stamped<P>, j: K, q: nat)
    requires b.Valid() && q > 0 && b.Add(k, r).0.Get(j, q).Some?
    ensures b.Add(k, r).0.Get(j, q) == b.Get(j, q) || (j == k && q == r.seqNo && b.Add(k, r).0.Get(j, q) == Some(r))
  {
  }

  lemma {:induction false} HandleHolds(share: Share, b: Buffer<nat, Body>, sr: SignedReport, sent: bool, k: nat, q: nat)
    requires share.Valid() && b.Valid() && q > 0 && Handle(share, b, sr, sent).buf.Get(k, q).Some?
    ensures var h := Handle(share, b, sr, sent);
            || h.buf.Get(k, q) == b.Get(k, q)
            || (k == sr.body.signer && h.buf.Get(k, q) == Some(sr))
            || (k == share.id && h.buf.Get(k, q) == h.mine)
  {
    HandleIsAdds(share, b, sr, sent);
    var b1 := b.Add(sr.body.signer, sr).0;
    if Handle(share, b, sr, sent).mine.Some? {
      AddHolds(b1, share.id, share.Sign(sr), k, q);
    }
    if b1.Get(k, q).Some? {
      AddHolds(b, sr.body.signer, sr, k, q);
    }
  }

  lemma {:induction false} HasSignedStep(share: Share, t: Trace, i: Input, q: nat)
    requires share.Valid() && t.buf.Valid()
    ensures var mine := Handle(share, t.buf, i.report, i.sent).mine;
            HasSigned(Step(share, t, i), q) <==> HasSigned(t, q) || (mine.Some? && mine.value.seqNo == q)
  {
    var t', n := Step(share, t, i), |t.mine|;
    assert forall j :: 0 <= j < n ==> t'.mine[j] == t.mine[j];
    if |t'.mine| > n {
      assert t'.mine[n] == Handle(share, t.buf, i.report, i.sent).mine.value;
    }
  }

  ghost predicate LeaderAsked(share: Share, inputs: seq<Input>, q: nat)
    requires share.Valid()
  {
    exists j :: 0 <= j < |inputs| && IsLeaderReport(share, inputs[j].report, q)
  }

  predicate IsLeaderReport(share: Share, sr: SignedReport, q: nat)
    requires share.Valid()
  {
    sr.seqNo == q && sr.body.signer == share.Leader(q)
  }

  predicate IsOwnReport(share: Share, sr: SignedReport, q: nat) {
    sr.seqNo == q && sr.body.signer == share.id
  }

  /** A report under the own id was delivered. */
  ghost predicate OwnGiven(share: Share, inputs: seq<Input>, q: nat) {
    exists j :: 0 <= j < |inputs| && IsOwnReport(share, inputs[j].report, q)
  }

  /** The leader's report was delivered, and none under the own id before it. */
  ghost predicate AskedFirst(share: Share, inputs: seq<Input>, q: nat)
    requires share.Valid()
  {
    exists j :: 0 <= j < |inputs| && IsLeaderReport(share, inputs[j].report, q) && !OwnGiven(share, inputs[..j], q)
  }

  lemma {:induction false} OwnGivenStep(share: Share, inputs: seq<Input>, i: Input, q: nat)
    ensures OwnGiven(share, inputs + [i], q) <==> OwnGiven(share, inputs, q) || IsOwnReport(share, i.report, q)
  {
    var all := inputs + [i];
    assert forall j :: 0 <= j < |inputs| ==> all[j] == inputs[j];
    assert all[|inputs|] == i;
  }

  lemma {:induction false} AskedFirstStep(share: Share, inputs: seq<Input>, i: Input, q: nat)
    requires share.Valid()
    ensures AskedFirst(share, inputs + [i], q)
            <==> AskedFirst(share, inputs, q) || (IsLeaderReport(share, i.report, q) && !OwnGiven(share, inputs, q))
  {
    var all := inputs + [i];
    assert forall j :: 0 <= j < |inputs| ==> all[j] == inputs[j] && all[..j] == inputs[..j];
    assert all[|inputs|] == i && all[..|inputs|] == inputs;
  }

  /** Inside the window the own id is held exactly for the numbers that were signed or given. */
  ghost predicate OwnHeld(share: Share, inputs: seq<Input>, q: nat)
    requires share.Valid()
  {
    var t := Run(share, inputs);
    t.buf.InWindow(q) ==> (share.id in t.buf.Lookup(q) <==> HasSigned(t, q) || OwnGiven(share, inputs, q))
  }

  lemma {:induction false} OwnHeldStep(share: Share, inputs: seq<Input>, i: Input, q: nat)
    requires share.Valid() && q > 0 && OwnHeld(share, inputs, q) && Run(share, inputs).buf.InWindow(i.report.seqNo)
    ensures OwnHeld(share, inputs + [i], q)
  {
    var t := Run(share, inputs);
    RunAppend(share, inputs, i);
    HasSignedStep(share, t, i, q);
    OwnGivenStep(share, inputs, i, q);
    HandleIsAdds(share, t.buf, i.report, i.sent);
    if Handle(share, t.buf, i.report, i.sent).buf.InWindow(q) {
      HandleKeeps(share, t.buf, i.report, i.sent, q);
    }
  }

  /** What makes a node sign: the leader's report, unless the number was signed or an own report given. */
  lemma {:induction false} SignsStep(share: Share, inputs: seq<Input>, i: Input, q: nat)
    requires share.Valid() && SignedOnce(share, Run(share, inputs)) && Run(share, inputs).buf.InWindow(i.report.seqNo)
    requires q > 0 && share.Leader(q) != share.id && OwnHeld(share, inputs, q)
    ensures HasSigned(Run(share, inputs + [i]), q)
            <==> HasSigned(Run(share, inputs), q) || (IsLeaderReport(share, i.report, q) && !OwnGiven(share, inputs, q))
  {
    var t := Run(share, inputs);
    RunAppend(share, inputs, i);
    HasSignedStep(share, t, i, q);
    assert Answered(share, t.buf, i.report.seqNo);
    HandleSigns(share, t.buf, i.report, i.sent);
    if Handle(share, t.buf, i.report, i.sent).mine.Some? {
      SignsOnLeader(share, t.buf, i.report, i.sent);
    }
  }

  ghost predicate SignedAsAsked(share: Share, inputs: seq<Input>, q: nat)
    requires share.Valid()
  {
    (HasSigned(Run(share, inputs), q) <==> AskedFirst(share, inputs, q)) && OwnHeld(share, inputs, q)
  }

  lemma {:induction false} SignedAsAskedStep(share: Share, inputs: seq<Input>, i: Input, q: nat)
    requires share.Valid() && Windowed(share, inputs) && Run(share, inputs).buf.InWindow(i.report.seqNo)
    requires q > 0 && share.Leader(q) != share.id && SignedAsAsked(share, inputs, q)
    ensures SignedAsAsked(share, inputs + [i], q)
  {
    RunSignsOnce(share, inputs);
    OwnHeldStep(share, inputs, i, q);
    SignsStep(share, inputs, i, q);
    AskedFirstStep(share, inputs, i, q);
  }

  lemma {:induction false} SignedAsAskedHolds(share: Share, inputs: seq<Input>, q: nat)
    requires share.Valid() && Windowed(share, inputs) && q > 0 && share.Leader(q) != share.id
    ensures SignedAsAsked(share, inputs, q)
    decreases |inputs|
  {
    if inputs == [] {
      assert Run(share, []).mine == [] && !AskedFirst(share, [], q);
    } else {
      var init, last := inputs[..|inputs| - 1], inputs[|inputs| - 1];
      assert inputs == init + [last];
      SignedAsAskedHolds(share, init, q);
      SignedAsAskedStep(share, init, last, q);
    }
  }

  /** In every run inside the window a node has signed a number it does not lead exactly when it was
      given the leader's report with that number, and no report under its own id before. */
  lemma {:induction false} SignsExactly(share: Share, inputs: seq<Input>, q: nat)
    requires share.Valid() && Windowed(share, inputs) && q > 0 && share.Leader(q) != share.id
    ensures HasSigned(Run(share, inputs), q) <==> AskedFirst(share, inputs, q)
  {
    SignedAsAskedHolds(share, inputs, q);
  }

  lemma {:induction false} AuthenticOwn(share: Share, inputs: seq<Input>, q: nat)
    requires share.Valid() && Authentic(share, inputs) && OwnGiven(share, inputs, q) && share.Leader(q) != share.id
    ensures HasSigned(Run(share, inputs), q)
    decreases |inputs|
  {
    var n := |inputs| - 1;
    var init, last := inputs[..n], inputs[n];
    assert inputs == init + [last];
    OwnGivenStep(share, init, last, q);
    HasSignedStep(share, Run(share, init), last, q);
    if OwnGiven(share, init, q) {
      AuthenticOwn(share, init, q);
    }
  }

  /** A node to which own reports come back only for numbers it signed has signed, inside the window, a
      number it does not lead exactly when it was given the leader's report with that number. */
  lemma {:induction false} SignsExactlyOnLeader(share: Share, inputs: seq<Input>, q: nat)
    requires share.Valid() && Windowed(share, inputs) && Authentic(share, inputs) && q > 0 && share.Leader(q) != share.id
    ensures HasSigned(Run(share, inputs), q) <==> LeaderAsked(share, inputs, q)
  {
    SignsExactly(share, inputs, q);
    assert AskedFirst(share, inputs, q) ==> LeaderAsked(share, inputs, q);
    if OwnGiven(share, inputs, q) {
      AuthenticOwn(share, inputs, q);
    } else if LeaderAsked(share, inputs, q) {
      AskedUngiven(share, inputs, q);
    }
  }

  lemma {:induction false} AskedUngiven(share: Share, inputs: seq<Input>, q: nat)
    requires share.Valid() && LeaderAsked(share, inputs, q) && !OwnGiven(share, inputs, q)
    ensures AskedFirst(share, inputs, q)
  {
    var j :| 0 <= j < |inputs| && IsLeaderReport(share, inputs[j].report, q);
    forall k | 0 <= k < j ensures !IsOwnReport(share, inputs[..j][k].report, q) {
      assert inputs[..j][k] == inputs[k];
    }
  }

  // --- reconstruction is bounded ------------------------------------------------------------------------

  /** How many of the reports carry the number `q`. */
  function Count(reports: seq<SignedReport>, q: nat): nat {
    if reports == [] then 0 else
      var n := |reports| - 1;
      Count(reports[..n], q) + (if reports[n].seqNo == q then 1 else 0)
  }

  /** A report reconstructed inside the window carries the signatures held for its number, and they
      are strictly more than the quorum. */
  lemma {:induction false} HandleRecovers(share: Share, b: Buffer<nat, Body>, sr: SignedReport, sent: bool)
    requires share.Valid() && b.Valid() && b.InWindow(sr.seqNo)
    requires Handle(share, b, sr, sent).recovered.Some?
    ensures var h, q := Handle(share, b, sr, sent), sr.seqNo;
            var parts := Collect(h.buf, q, h.buf.Lookup(q));
            && h.recovered.value == Prepare(parts, sr) && |parts| > share.QuorumCount()
            && |h.buf.Lookup(q)| > share.QuorumCount()
            && q > 0 && |h.buf.Lookup(q)| > |b.Lookup(q)|
  {
    var h, q := Handle(share, b, sr, sent), sr.seqNo;
    HandleSigns(share, b, sr, sent);
    HandleKeeps(share, b, sr, sent, q);
    var b1 := b.Add(sr.body.signer, sr).0;
    WindowedAddSucceeds(b, sr.body.signer, sr);
    WindowedAdd(b, sr.body.signer, sr, q);
    SubsetSize(Collect(h.buf, q, h.buf.Lookup(q)).Keys, h.buf.Lookup(q));
    SubsetSize(b.Lookup(q) + {sr.body.signer}, h.buf.Lookup(q));
  }

  ghost predicate Bounded(share: Share, t: Trace, q: nat)
    requires share.Valid() && t.buf.Valid()
  {
    && Count(t.recovered, q) <= MaxFaulty(|share.signers|)
    && (t.buf.InWindow(q) && Count(t.recovered, q) > 0 ==> q > 0 && Count(t.recovered, q) + share.QuorumCount() <= |t.buf.Lookup(q)|)
  }

  lemma {:induction false} HandleKeys(share: Share, b: Buffer<nat, Body>, sr: SignedReport, sent: bool)
    requires share.Valid() && b.Valid()
    ensures Handle(share, b, sr, sent).buf.rows.Keys <= b.rows.Keys + {sr.body.signer, share.id}
  {
  }

  lemma {:induction false} CountStep(s: seq<SignedReport>, o: Option<SignedReport>, q: nat)
    ensures Count(Append(s, o), q) == Count(s, q) + if o.Some? && o.value.seqNo == q then 1 else 0
  {
    if o.Some? {
      assert (s + [o.value])[..|s|] == s;
    }
  }

  /** Each further reconstruction of a number finds one more signer holding it. */
  lemma {:induction false} BoundedAfterRecovery(share: Share, t: Trace, i: Input)
    requires share.Valid() && t.buf.Valid() && Bounded(share, t, i.report.seqNo) && t.buf.InWindow(i.report.seqNo)
    requires Handle(share, t.buf, i.report, i.sent).recovered.Some?
    requires Handle(share, t.buf, i.report, i.sent).buf.rows.Keys <= share.signers
    ensures Bounded(share, Step(share, t, i), i.report.seqNo)
  {
    var h, q := Handle(share, t.buf, i.report, i.sent), i.report.seqNo;
    CountStep(t.recovered, h.recovered, q);
    HandleRecovers(share, t.buf, i.report, i.sent);
    assert h.buf.Lookup(q) <= h.buf.rows.Keys;
    SubsetSize(h.buf.Lookup(q), share.signers);
  }

  lemma {:induction false} BoundedOtherwise(share: Share, t: Trace, i: Input, q: nat)
    requires share.Valid() && t.buf.Valid() && Bounded(share, t, q)
    requires var r := Handle(share, t.buf, i.report, i.sent).recovered; r.Some? ==> r.value.seqNo != q
    ensures Bounded(share, Step(share, t, i), q)
  {
    var h := Handle(share, t.buf, i.report, i.sent);
    CountStep(t.recovered, h.recovered, q);
    if Count(t.recovered, q) > 0 && h.buf.InWindow(q) {
      HeldGrows(share, t.buf, i.report, i.sent, q);
    }
  }

  lemma {:induction false} StepBounded(share: Share, t: Trace, i: Input, q: nat)
    requires share.Valid() && t.buf.Valid() && Bounded(share, t, q) && t.buf.InWindow(i.report.seqNo)
    requires t.buf.rows.Keys <= share.signers && i.report.body.signer in share.signers
    ensures Bounded(share, Step(share, t, i), q) && Step(share, t, i).buf.rows.Keys <= share.signers
  {
    HandleKeys(share, t.buf, i.report, i.sent);
    RecoveredNumber(share, t.buf, i.report, i.sent);
    if Handle(share, t.buf, i.report, i.sent).recovered.Some? && i.report.seqNo == q {
      BoundedAfterRecovery(share, t, i);
    } else {
      BoundedOtherwise(share, t, i, q);
    }
  }

  lemma {:induction false} HandleSignatures(share: Share, b: Buffer<nat, Body>, sr: SignedReport, sent: bool)
    requires share.Valid() && b.Valid()
    ensures var h := Handle(share, b, sr, sent);
            && (h.mine.Some? ==> h.mine.value == share.Sign(sr))
            && (h.recovered.Some? ==> h.recovered.value.body.sig.Recovered?)
  {
  }

  lemma {:induction false} RecoveredNumber(share: Share, b: Buffer<nat, Body>, sr: SignedReport, sent: bool)
    requires share.Valid() && b.Valid()
    ensures var r := Handle(share, b, sr, sent).recovered; r.Some? ==> r.value.seqNo == sr.seqNo
  {
  }

  lemma {:induction false} HeldGrows(share: Share, b: Buffer<nat, Body>, sr: SignedReport, sent: bool, q: nat)
    requires share.Valid() && b.Valid() && Handle(share, b, sr, sent).buf.InWindow(q) && (b.InWindow(q) ==> q > 0)
    ensures q > 0 && b.InWindow(q) && |b.Lookup(q)| <= |Handle(share, b, sr, sent).buf.Lookup(q)|
  {
    HandleWindow(share, b, sr, sent, q);
    HandleKeeps(share, b, sr, sent, q);
    SubsetSize(b.Lookup(q), Handle(share, b, sr, sent).buf.Lookup(q));
  }

  lemma {:induction false} HandleWindow(share: Share, b: Buffer<nat, Body>, sr: SignedReport, sent: bool, q: nat)
    requires share.Valid() && b.Valid() && Handle(share, b, sr, sent).buf.InWindow(q)
    ensures b.InWindow(q)
  {
    HandleIsAdds(share, b, sr, sent);
    if Handle(share, b, sr, sent).mine.Some? {
      WindowShrinks(b.Add(sr.body.signer, sr).0, share.id, share.Sign(sr), q);
    }
    WindowShrinks(b, sr.body.signer, sr, q);
  }

  /** In every run inside the window, of reports by known signers, a node reconstructs each number at
      most f times; so a network of at most three signers never does. */
  lemma {:induction false} ReconstructsAtMostF(share: Share, inputs: seq<Input>, q: nat)
    requires share.Valid() && Windowed(share, inputs)
    requires forall i :: 0 <= i < |inputs| ==> inputs[i].report.body.signer in share.signers
    ensures Bounded(share, Run(share, inputs), q) && Run(share, inputs).buf.rows.Keys <= share.signers
    ensures |share.signers| <= 3 ==> Count(Run(share, inputs).recovered, q) == 0
    decreases |inputs|
  {
    if inputs != [] {
      var n := |inputs| - 1;
      ReconstructsAtMostF(share, inputs[..n], q);
      StepBounded(share, Run(share, inputs[..n]), inputs[n], q);
    }
  }

  // --- where held and reconstructed reports come from ------------------------------------------------

  /** A report under key `k` was delivered under that signer id, or is an own one. */
  ghost predicate Known(share: Share, inputs: seq<Input>, k: nat, r: SignedReport)
    requires share.Valid()
  {
    || (exists j :: 0 <= j < |inputs| && inputs[j].report == r && r.body.signer == k)
    || (k == share.id && r in Run(share, inputs).mine)
  }

  lemma {:induction false} KnownStays(share: Share, inputs: seq<Input>, k: nat, r: SignedReport)
    requires share.Valid() && inputs != [] && Known(share, inputs[..|inputs| - 1], k, r)
    ensures Known(share, inputs, k, r)
  {
    var n := |inputs| - 1;
    if j :| 0 <= j < n && inputs[..n][j].report == r && r.body.signer == k {
      assert inputs[j] == inputs[..n][j];
    } else {
      assert r in Run(share, inputs).mine;
    }
  }

  lemma {:induction false} HeldIsKnown(share: Share, inputs: seq<Input>, k: nat, q: nat)
    requires share.Valid() && q > 0 && Run(share, inputs).buf.Get(k, q).Some?
    ensures var r := Run(share, inputs).buf.Get(k, q).value; r.seqNo == q && Known(share, inputs, k, r)
    decreases |inputs|
  {
    if inputs != [] {
      var n := |inputs| - 1;
      var t, i := Run(share, inputs[..n]), inputs[n];
      HandleHolds(share, t.buf, i.report, i.sent, k, q);
      if t.buf.Get(k, q) == Run(share, inputs).buf.Get(k, q) {
        HeldIsKnown(share, inputs[..n], k, q);
        KnownStays(share, inputs, k, t.buf.Get(k, q).value);
      } else if k == i.report.body.signer && Run(share, inputs).buf.Get(k, q) == Some(i.report) {
        assert inputs[n].report == i.report;
      }
    }
  }

  /** A reconstructed report: more parts than the quorum, each the signature of a known report with
      the same number, and the data of a delivered one. */
  ghost predicate WellRecovered(share: Share, inputs: seq<Input>, rep: SignedReport)
    requires share.Valid()
  {
    && rep.body.sig.Recovered? && |rep.body.sig.parts| > share.QuorumCount() && rep.seqNo > 0
    && (exists j :: 0 <= j < |inputs| && inputs[j].report.seqNo == rep.seqNo && inputs[j].report.body.data == rep.body.data)
    && (forall k :: k in rep.body.sig.parts ==> PartIsKnown(share, inputs, k, rep.body.sig.parts[k], rep.seqNo))
  }

  ghost predicate PartIsKnown(share: Share, inputs: seq<Input>, k: nat, sig: Sig, q: nat)
    requires share.Valid()
  {
    exists r :: Known(share, inputs, k, r) && r.seqNo == q && r.body.sig == sig
  }

  /** What a reconstructed report is made of, with or without the window. */
  lemma {:induction false} RecoveredFromHeld(share: Share, b: Buffer<nat, Body>, sr: SignedReport, sent: bool)
    requires share.Valid() && b.Valid() && Handle(share, b, sr, sent).recovered.Some?
    ensures var h, q := Handle(share, b, sr, sent), sr.seqNo;
            var rep := h.recovered.value;
            && rep.body.sig.Recovered? && rep.seqNo == q && rep.body.data == sr.body.data
            && q > 0 && |rep.body.sig.parts| > share.QuorumCount()
            && forall k :: k in rep.body.sig.parts ==> h.buf.Get(k, q).Some? && rep.body.sig.parts[k] == h.buf.Get(k, q).value.body.sig
  {
    var b1 := b.Add(sr.body.signer, sr).0;
    RespondCases(share, b1, sr, sent);
  }

  /** In every run, inside the window or not, each part of a reconstructed report is the signature of a
      report that was delivered under that signer and number, or issued by this node. */
  lemma {:induction false} RecoveredIsKnown(share: Share, inputs: seq<Input>, i: nat)
    requires share.Valid() && i < |Run(share, inputs).recovered|
    ensures WellRecovered(share, inputs, Run(share, inputs).recovered[i])
    decreases |inputs|
  {
    var n := |inputs| - 1;
    var init, last := inputs[..n], inputs[n];
    var t := Run(share, init);
    var o := Handle(share, t.buf, last.report, last.sent).recovered;
    assert Run(share, inputs).recovered == Append(t.recovered, o);
    if i < |t.recovered| {
      RecoveredIsKnown(share, init, i);
      WellRecoveredStays(share, inputs, t.recovered[i]);
    } else {
      NewlyRecovered(share, inputs);
    }
  }

  lemma {:induction false} WellRecoveredStays(share: Share, inputs: seq<Input>, rep: SignedReport)
    requires share.Valid() && inputs != [] && WellRecovered(share, inputs[..|inputs| - 1], rep)
    ensures WellRecovered(share, inputs, rep)
  {
    var n := |inputs| - 1;
    var j :| 0 <= j < n && inputs[..n][j].report.seqNo == rep.seqNo && inputs[..n][j].report.body.data == rep.body.data;
    assert inputs[j] == inputs[..n][j];
    forall k | k in rep.body.sig.parts ensures PartIsKnown(share, inputs, k, rep.body.sig.parts[k], rep.seqNo) {
      var r :| Known(share, inputs[..n], k, r) && r.seqNo == rep.seqNo && r.body.sig == rep.body.sig.parts[k];
      KnownStays(share, inputs, k, r);
    }
  }

  lemma {:induction false} NewlyRecovered(share: Share, inputs: seq<Input>)
    requires share.Valid() && inputs != []
    requires var n := |inputs| - 1; Handle(share, Run(share, inputs[..n]).buf, inputs[n].report, inputs[n].sent).recovered.Some?
    ensures var n := |inputs| - 1;
            WellRecovered(share, inputs, Handle(share, Run(share, inputs[..n]).buf, inputs[n].report, inputs[n].sent).recovered.value)
  {
    var n := |inputs| - 1;
    var sr, t := inputs[n].report, Run(share, inputs[..n]);
    var rep := Handle(share, t.buf, sr, inputs[n].sent).recovered.value;
    RecoveredFromHeld(share, t.buf, sr, inputs[n].sent);
    forall k | k in rep.body.sig.parts ensures PartIsKnown(share, inputs, k, rep.body.sig.parts[k], rep.seqNo) {
      HeldIsKnown(share, inputs, k, rep.seqNo);
    }
  }
}

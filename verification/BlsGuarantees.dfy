/** What the network of signers guarantees about the signatures that circulate, when the data of a
    report determine its sequence number, as an application arranges by putting it there. */
module BlsGuarantees {
  import opened Quorum
  import opened BlsNode
  import opened BlsSigning
  import opened BlsResigning
  import opened BlsNetwork

  // --- data that name their number ----------------------------------------------------------------------

  predicate Names(seqOf: Data -> nat, report: SignedReport) {
    seqOf(report.body.data) == report.seqNo
  }

  /** Triggered reports carry the number that their data name, and so do the delivered reports of a
      number's leader. The source checks neither. */
  predicate BoundAction(seqOf: Data -> nat, cfg: Config, a: Action)
    requires cfg.Valid()
  {
    a.Trigger? || (a.Deliver? && a.report.body.signer == cfg.Leader(a.report.seqNo)) ==> Names(seqOf, a.report)
  }

  predicate Bound(seqOf: Data -> nat, cfg: Config, actions: seq<Action>)
    requires cfg.Valid()
  {
    forall j :: 0 <= j < |actions| ==> BoundAction(seqOf, cfg, actions[j])
  }

  /** The same for every delivered report. */
  predicate Named(seqOf: Data -> nat, actions: seq<Action>) {
    forall j :: 0 <= j < |actions| && !actions[j].Inject? ==> Names(seqOf, actions[j].report)
  }

  ghost predicate BoundNet(seqOf: Data -> nat, cfg: Config, s: Net)
    requires cfg.Valid()
  {
    && (forall j :: 0 <= j < |s.triggers| ==> Names(seqOf, s.triggers[j].1))
    && (forall i :: cfg.Honest(i) ==> BoundGiven(seqOf, cfg, s.Given(i)))
  }

  predicate BoundGiven(seqOf: Data -> nat, cfg: Config, inputs: seq<Input>)
    requires cfg.Valid()
  {
    forall j :: 0 <= j < |inputs| && inputs[j].report.body.signer == cfg.Leader(inputs[j].report.seqNo) ==> Names(seqOf, inputs[j].report)
  }

  lemma {:induction false} BoundHolds(seqOf: Data -> nat, cfg: Config, actions: seq<Action>)
    requires cfg.Valid() && Bound(seqOf, cfg, actions)
    ensures BoundNet(seqOf, cfg, After(cfg, actions))
    decreases |actions|
  {
    if actions != [] {
      var n := |actions| - 1;
      BoundHolds(seqOf, cfg, actions[..n]);
      BoundStep(seqOf, cfg, After(cfg, actions[..n]), actions[n]);
    }
  }

  lemma {:induction false} BoundStep(seqOf: Data -> nat, cfg: Config, s: Net, a: Action)
    requires cfg.Valid() && BoundNet(seqOf, cfg, s) && BoundAction(seqOf, cfg, a)
    ensures BoundNet(seqOf, cfg, Next(cfg, s, a))
  {
    forall i | cfg.Honest(i) ensures BoundGiven(seqOf, cfg, Next(cfg, s, a).Given(i)) {
      assert BoundGiven(seqOf, cfg, s.Given(i));
      LocalStep(cfg, s, a, i);
      if a.Deliver? && a.i == i {
        BoundGivenMore(seqOf, cfg, s.Given(i), Input(a.report, a.sent));
      }
    }
  }

  lemma {:induction false} BoundGivenMore(seqOf: Data -> nat, cfg: Config, inputs: seq<Input>, last: Input)
    requires cfg.Valid() && BoundGiven(seqOf, cfg, inputs)
    requires last.report.body.signer == cfg.Leader(last.report.seqNo) ==> Names(seqOf, last.report)
    ensures BoundGiven(seqOf, cfg, inputs + [last])
  {
  }

  predicate NamedGiven(seqOf: Data -> nat, inputs: seq<Input>) {
    forall j :: 0 <= j < |inputs| ==> Names(seqOf, inputs[j].report)
  }

  ghost predicate NamedNet(seqOf: Data -> nat, cfg: Config, s: Net) {
    && (forall j :: 0 <= j < |s.triggers| ==> Names(seqOf, s.triggers[j].1))
    && (forall i :: cfg.Honest(i) ==> NamedGiven(seqOf, s.Given(i)))
  }

  lemma {:induction false} NamedHolds(seqOf: Data -> nat, cfg: Config, actions: seq<Action>)
    requires Named(seqOf, actions)
    ensures NamedNet(seqOf, cfg, After(cfg, actions))
    decreases |actions|
  {
    if actions != [] {
      var n := |actions| - 1;
      NamedHolds(seqOf, cfg, actions[..n]);
      NamedStep(seqOf, cfg, After(cfg, actions[..n]), actions[n]);
    }
  }

  lemma {:induction false} NamedStep(seqOf: Data -> nat, cfg: Config, s: Net, a: Action)
    requires NamedNet(seqOf, cfg, s) && (!a.Inject? ==> Names(seqOf, a.report))
    ensures NamedNet(seqOf, cfg, Next(cfg, s, a))
  {
    forall i | cfg.Honest(i) ensures NamedGiven(seqOf, Next(cfg, s, a).Given(i)) {
      assert NamedGiven(seqOf, s.Given(i));
      LocalStep(cfg, s, a, i);
    }
  }

  /** Then a signature on `d` was made under the number that `d` names, in any state. */
  lemma {:induction false} SignedAsNamed(seqOf: Data -> nat, cfg: Config, s: Net, i: nat, q: nat, d: Data)
    requires cfg.Honest(i) && NamedNet(seqOf, cfg, s) && SignedAt(cfg, s, i, q, d)
    ensures q == seqOf(d)
  {
    if j :| AnsweredAt(Local(cfg, s, i).mine, j, q, d) {
      var share, given, sr := cfg.ShareOf(i), s.Given(i), Local(cfg, s, i).mine[j];
      MineAnswersInputs(share, given, j);
      var k :| 0 <= k < |given| && sr == share.Sign(given[k].report);
      assert NamedGiven(seqOf, given);
      assert Names(seqOf, given[k].report);
    }
  }

  /** And by anyone but the number's leader it was made in answer to a report. */
  lemma {:induction false} IssuedIsAnswered(seqOf: Data -> nat, cfg: Config, s: Net, i: nat, d: Data)
    requires cfg.Valid() && Inv(cfg, s) && NamedNet(seqOf, cfg, s) && cfg.Honest(i) && i != cfg.Leader(seqOf(d)) && Issued(cfg, s, i, d)
    ensures HasSigned(Local(cfg, s, i), seqOf(d))
  {
    var q :| SignedAt(cfg, s, i, q, d);
    SignedAsNamed(seqOf, cfg, s, i, q, d);
    HowSigned(cfg, s, i, q, d);
    var j :| AnsweredAt(Local(cfg, s, i).mine, j, q, d);
  }

  // --- disciplined signers sign as the leader did -----------------------------------------------------------

  /** An answer repeats a report of the leader, whose data name its number. */
  lemma {:induction false} LeadersReport(seqOf: Data -> nat, cfg: Config, s: Net, i: nat, q: nat, d: Data, j: nat) returns (m: SignedReport)
    requires cfg.Valid() && BoundNet(seqOf, cfg, s) && cfg.Honest(i) && Disciplined(cfg.ShareOf(i), s.Given(i))
    requires AnsweredAt(Local(cfg, s, i).mine, j, q, d)
    ensures m.seqNo == q == seqOf(d) && m.body.data == d && m.body.signer == cfg.Leader(q)
    ensures exists k :: 0 <= k < |s.Given(i)| && s.Given(i)[k].report == m
  {
    var share, given, sr := cfg.ShareOf(i), s.Given(i), Local(cfg, s, i).mine[j];
    LeaderOf(cfg, i, q);
    assert FollowsLeader(share, given, sr);
    var k :| 0 <= k < |given| && given[k].report.body.signer == share.Leader(sr.seqNo) && sr == share.Sign(given[k].report);
    m := given[k].report;
    assert BoundGiven(seqOf, cfg, given);
    assert Names(seqOf, m);
  }

  /** A disciplined signature on `d` was made under the number that `d` names. */
  lemma {:induction false} SignedUnderItsNumber(seqOf: Data -> nat, cfg: Config, s: Net, i: nat, q: nat, d: Data)
    requires cfg.Valid() && BoundNet(seqOf, cfg, s) && cfg.Honest(i) && Disciplined(cfg.ShareOf(i), s.Given(i))
    requires SignedAt(cfg, s, i, q, d)
    ensures q == seqOf(d)
  {
    if j :| TriggeredAt(s, j, i, q, d) {
      assert Names(seqOf, s.triggers[j].1);
    } else {
      var j :| AnsweredAt(Local(cfg, s, i).mine, j, q, d);
      var _ := LeadersReport(seqOf, cfg, s, i, q, d, j);
    }
  }

  /** Nobody leaves the window; or, if no window is needed, own reports come back to the node only for
      numbers that it signed or leads. */
  ghost predicate Sheltered(cfg: Config, s: Net, i: nat)
    requires cfg.Valid() && cfg.Honest(i)
  {
    || Windowed(cfg.ShareOf(i), s.Given(i))
    || (BUFFER_SIZE % cfg.n == 0 && Authentic(cfg.ShareOf(i), s.Given(i)))
  }

  ghost predicate AllSheltered(cfg: Config, s: Net)
    requires cfg.Valid()
  {
    forall i :: cfg.Honest(i) ==> Sheltered(cfg, s, i)
  }

  lemma {:induction false} ShelteredBefore(cfg: Config, s: Net, a: Action)
    requires cfg.Valid() && AllSheltered(cfg, Next(cfg, s, a))
    ensures AllSheltered(cfg, s)
  {
    forall i | cfg.Honest(i) ensures Sheltered(cfg, s, i) {
      assert Sheltered(cfg, Next(cfg, s, a), i);
      LocalStep(cfg, s, a, i);
      var g := s.Given(i);
      if a.Deliver? && a.i == i {
        var longer := g + [Input(a.report, a.sent)];
        assert longer[..|longer| - 1] == g;
      }
    }
  }

  /** Every sheltered signer is disciplined. */
  lemma {:induction false} ShelterDisciplines(cfg: Config, s: Net)
    requires cfg.Valid() && AllSheltered(cfg, s)
    ensures AllDisciplined(cfg, s)
  {
    forall i | cfg.Honest(i) ensures Disciplined(cfg.ShareOf(i), s.Given(i)) {
      assert Sheltered(cfg, s, i);
      if Windowed(cfg.ShareOf(i), s.Given(i)) {
        SignsOnceAfterLeader(cfg.ShareOf(i), s.Given(i));
      } else {
        DisciplinedWithoutWindow(cfg.ShareOf(i), s.Given(i));
      }
    }
  }

  // --- agreement -------------------------------------------------------------------------------------------

  /** The signers of whom a valid signature on `d` is in circulation, made by them or derived. */
  ghost function Gathered(cfg: Config, s: Net, d: Data): set<nat> {
    set m | m in s.soup && m.body.data == d && cfg.ShareOf(1).Validate(m) :: m.body.signer
  }

  lemma {:induction false} HoldersAreBackers(seqOf: Data -> nat, cfg: Config, s: Net, d: Data)
    requires cfg.Valid() && BoundNet(seqOf, cfg, s) && AllDisciplined(cfg, s)
    ensures Holders(cfg, s, d) <= Backers(cfg, s, seqOf(d), d)
  {
    forall i | i in Holders(cfg, s, d) ensures i in Backers(cfg, s, seqOf(d), d) {
      if cfg.Honest(i) {
        var q :| SignedAt(cfg, s, i, q, d);
        SignedUnderItsNumber(seqOf, cfg, s, i, q, d);
      }
    }
  }

  /** A quorum of circulating signatures means a quorum of holders: what is not held is derived, and
      that takes a quorum of holders. */
  lemma {:induction false} GatheredNeedsHolders(cfg: Config, s: Net, d: Data)
    requires cfg.Valid() && Inv(cfg, s) && |Gathered(cfg, s, d)| >= Threshold(cfg.n)
    ensures Derivable(cfg, s, d)
  {
    if !Derivable(cfg, s, d) {
      forall k | k in Gathered(cfg, s, d) ensures k in Holders(cfg, s, d) {
        var m :| m in s.soup && m.body.data == d && cfg.ShareOf(1).Validate(m) && m.body.signer == k;
        assert Unforged(cfg, s, m);
      }
      SubsetSize(Gathered(cfg, s, d), Holders(cfg, s, d));
    }
  }

  lemma {:induction false} GatheredIsBacked(seqOf: Data -> nat, cfg: Config, s: Net, d: Data)
    requires cfg.Valid() && Inv(cfg, s) && BoundNet(seqOf, cfg, s) && AllDisciplined(cfg, s)
    requires |Gathered(cfg, s, d)| >= Threshold(cfg.n)
    ensures |Backers(cfg, s, seqOf(d), d)| >= Threshold(cfg.n)
  {
    GatheredNeedsHolders(cfg, s, d);
    HoldersAreBackers(seqOf, cfg, s, d);
    SubsetSize(Holders(cfg, s, d), Backers(cfg, s, seqOf(d), d));
  }

  /** Agreement on signatures: in every bound run, no two different data naming the same number each
      have valid signatures of a quorum, made or derived, as long as fewer than n - 2f signers are
      Byzantine or led it twice. Deliveries stay inside the window, or every node is sheltered without
      one. */
  lemma {:induction false} SignatureAgreement(seqOf: Data -> nat, cfg: Config, actions: seq<Action>, d: Data, d': Data)
    requires cfg.Valid() && Possible(cfg, actions) && Bound(seqOf, cfg, actions) && AllSheltered(cfg, After(cfg, actions))
    requires seqOf(d) == seqOf(d') && |Faulty(cfg, After(cfg, actions), seqOf(d))| < cfg.n - 2 * MaxFaulty(cfg.n)
    requires |Gathered(cfg, After(cfg, actions), d)| >= Threshold(cfg.n)
    requires |Gathered(cfg, After(cfg, actions), d')| >= Threshold(cfg.n)
    ensures d == d'
  {
    var s := After(cfg, actions);
    InvHolds(cfg, actions);
    BoundHolds(seqOf, cfg, actions);
    ShelterDisciplines(cfg, s);
    GatheredIsBacked(seqOf, cfg, s, d);
    GatheredIsBacked(seqOf, cfg, s, d');
    DisciplineAgrees(cfg, s, seqOf(d), d, d');
  }

  // --- validity --------------------------------------------------------------------------------------------

  /** The leader of the number that `d` names was triggered with `d`. */
  ghost predicate Started(seqOf: Data -> nat, cfg: Config, s: Net, d: Data)
    requires cfg.Valid()
  {
    exists j :: TriggeredAt(s, j, cfg.Leader(seqOf(d)), seqOf(d), d)
  }

  lemma {:induction false} StartedStays(seqOf: Data -> nat, cfg: Config, s: Net, a: Action, d: Data)
    requires cfg.Valid() && Started(seqOf, cfg, s, d)
    ensures Started(seqOf, cfg, Next(cfg, s, a), d)
  {
    var j :| TriggeredAt(s, j, cfg.Leader(seqOf(d)), seqOf(d), d);
    assert TriggeredAt(Next(cfg, s, a), j, cfg.Leader(seqOf(d)), seqOf(d), d);
  }

  /** Behind an honest signature that can be said there is an honest signature that was made. */
  lemma {:induction false} HonestHolder(cfg: Config, s: Net, k: nat, d: Data) returns (h: nat)
    requires cfg.Valid() && cfg.Honest(k) && Obtainable(cfg, s, k, d) && |cfg.byz| < Threshold(cfg.n)
    ensures cfg.Honest(h) && Issued(cfg, s, h, d)
  {
    if Issued(cfg, s, k, d) {
      h := k;
    } else {
      h := Outside(Holders(cfg, s, d), cfg.byz);
    }
  }

  lemma {:induction false} NewlyTriggered(cfg: Config, s: Net, a: Action, j: int, i: nat, q: nat, d: Data)
    requires TriggeredAt(Next(cfg, s, a), j, i, q, d) && !TriggeredAt(s, j, i, q, d)
    ensures a.Trigger? && a.i == i && a.report.seqNo == q && a.report.body.data == d
  {
  }

  lemma {:induction false} NewlyAnswered(cfg: Config, s: Net, a: Action, j: int, i: nat, q: nat, d: Data)
    requires cfg.Honest(i) && AnsweredAt(Local(cfg, Next(cfg, s, a), i).mine, j, q, d) && !AnsweredAt(Local(cfg, s, i).mine, j, q, d)
    ensures a.Deliver? && a.i == i && a.report.seqNo == q && a.report.body.data == d
    ensures j == |Local(cfg, s, i).mine|
    ensures Handle(cfg.ShareOf(i), Local(cfg, s, i).buf, a.report, a.sent).mine.Some?
  {
    LocalStep(cfg, s, a, i);
    if a.Deliver? && a.i == i {
      HandleSignatures(cfg.ShareOf(i), Local(cfg, s, i).buf, a.report, a.sent);
    }
  }

  /** What a step newly makes an honest signer sign: a trigger's data, or those of the delivered report. */
  lemma {:induction false} NewlyIssued(cfg: Config, s: Net, a: Action, i: nat, d: Data)
    requires cfg.Valid() && Enabled(cfg, s, a) && cfg.Honest(i) && !Issued(cfg, s, i, d) && Issued(cfg, Next(cfg, s, a), i, d)
    ensures !a.Inject? && a.i == i && a.report.body.data == d
    ensures a.Deliver? ==> exists j :: AnsweredAt(Local(cfg, Next(cfg, s, a), i).mine, j, a.report.seqNo, d)
  {
    var s' := Next(cfg, s, a);
    var q :| SignedAt(cfg, s', i, q, d);
    assert !SignedAt(cfg, s, i, q, d);
    if j :| TriggeredAt(s', j, i, q, d) {
      NewlyTriggered(cfg, s, a, j, i, q, d);
    } else {
      var j :| AnsweredAt(Local(cfg, s', i).mine, j, q, d);
      NewlyAnswered(cfg, s, a, j, i, q, d);
    }
  }

  /** A new signature was started in this very step, or an honest one came before it. */
  lemma {:induction false} StartStep(seqOf: Data -> nat, cfg: Config, s: Net, a: Action, i: nat, d: Data) returns (h: nat)
    requires cfg.Valid() && Inv(cfg, s) && Enabled(cfg, s, a) && BoundAction(seqOf, cfg, a) && BoundNet(seqOf, cfg, Next(cfg, s, a))
    requires AllDisciplined(cfg, Next(cfg, s, a)) && |cfg.byz| < Threshold(cfg.n) && cfg.Honest(cfg.Leader(seqOf(d)))
    requires cfg.Honest(i) && Issued(cfg, Next(cfg, s, a), i, d)
    ensures Started(seqOf, cfg, Next(cfg, s, a), d) || (cfg.Honest(h) && Issued(cfg, s, h, d))
  {
    if Issued(cfg, s, i, d) {
      h := i;
    } else {
      NewlyIssued(cfg, s, a, i, d);
      if a.Trigger? {
        h := i;
        TriggerStarts(seqOf, cfg, s, a);
      } else {
        h := SourceOfAnswer(seqOf, cfg, s, a, d);
      }
    }
  }

  lemma {:induction false} TriggerStarts(seqOf: Data -> nat, cfg: Config, s: Net, a: Action)
    requires cfg.Valid() && a.Trigger? && Enabled(cfg, s, a) && Names(seqOf, a.report)
    ensures Started(seqOf, cfg, Next(cfg, s, a), a.report.body.data)
  {
    assert TriggeredAt(Next(cfg, s, a), |s.triggers|, a.i, a.report.seqNo, a.report.body.data);
  }

  /** Validity: in every bound and sheltered run with fewer than a quorum of Byzantine signers, what an
      honest signer signs under a number with an honest leader, that leader was triggered with. */
  lemma {:induction false} SignsWhatTheLeaderStarted(seqOf: Data -> nat, cfg: Config, actions: seq<Action>, i: nat, d: Data)
    requires cfg.Valid() && Possible(cfg, actions) && Bound(seqOf, cfg, actions) && AllSheltered(cfg, After(cfg, actions))
    requires |cfg.byz| < Threshold(cfg.n) && cfg.Honest(cfg.Leader(seqOf(d)))
    requires cfg.Honest(i) && Issued(cfg, After(cfg, actions), i, d)
    ensures Started(seqOf, cfg, After(cfg, actions), d)
    decreases |actions|
  {
    if actions == [] {
      NothingIssued(cfg, i, d);
    } else {
      var n := |actions| - 1;
      var init, a := actions[..n], actions[n];
      var s := After(cfg, init);
      ShelteredBefore(cfg, s, a);
      BoundHolds(seqOf, cfg, actions);
      InvHolds(cfg, init);
      ShelterDisciplines(cfg, After(cfg, actions));
      assert BoundAction(seqOf, cfg, a);
      var h := StartStep(seqOf, cfg, s, a, i, d);
      if !Started(seqOf, cfg, After(cfg, actions), d) {
        SignsWhatTheLeaderStarted(seqOf, cfg, init, h, d);
        StartedStays(seqOf, cfg, s, a, d);
      }
    }
  }

  lemma {:induction false} NothingIssued(cfg: Config, i: nat, d: Data)
    requires cfg.Honest(i)
    ensures !Issued(cfg, After(cfg, []), i, d)
  {
  }

  /** An answer to an honest leader's data was preceded by an honest signature on them. */
  lemma {:induction false} SourceOfAnswer(seqOf: Data -> nat, cfg: Config, s: Net, a: Action, d: Data) returns (h: nat)
    requires cfg.Valid() && Inv(cfg, s) && Enabled(cfg, s, a) && a.Deliver? && BoundNet(seqOf, cfg, Next(cfg, s, a))
    requires AllDisciplined(cfg, Next(cfg, s, a)) && |cfg.byz| < Threshold(cfg.n) && cfg.Honest(cfg.Leader(seqOf(d)))
    requires exists j :: AnsweredAt(Local(cfg, Next(cfg, s, a), a.i).mine, j, a.report.seqNo, d)
    ensures cfg.Honest(h) && Issued(cfg, s, h, d)
  {
    var j :| AnsweredAt(Local(cfg, Next(cfg, s, a), a.i).mine, j, a.report.seqNo, d);
    var m := LeadersReport(seqOf, cfg, Next(cfg, s, a), a.i, a.report.seqNo, d, j);
    GivenWasSaid(cfg, s, a, m);
    ValidIsObtainable(cfg, s, a.i, m);
    h := HonestHolder(cfg, s, cfg.Leader(seqOf(d)), d);
  }

  lemma {:induction false} ValidIsObtainable(cfg: Config, s: Net, i: nat, m: SignedReport)
    requires cfg.Valid() && Inv(cfg, s) && m in s.soup && cfg.ShareOf(i).Validate(m)
    ensures Obtainable(cfg, s, m.body.signer, m.body.data)
  {
    assert Unforged(cfg, s, m);
  }

  /** Everything a signer has been given was said before the step, and is valid. */
  lemma {:induction false} GivenWasSaid(cfg: Config, s: Net, a: Action, m: SignedReport)
    requires cfg.Valid() && Inv(cfg, s) && Enabled(cfg, s, a) && a.Deliver?
    requires exists k :: 0 <= k < |Next(cfg, s, a).Given(a.i)| && Next(cfg, s, a).Given(a.i)[k].report == m
    ensures m in s.soup && cfg.ShareOf(a.i).Validate(m)
  {
    LocalStep(cfg, s, a, a.i);
    assert GivenWell(cfg, s, a.i);
  }

  lemma {:induction false} HonestStartStep(seqOf: Data -> nat, cfg: Config, s: Net, a: Action, i: nat, d: Data) returns (h: nat)
    requires cfg.Valid() && cfg.byz == {} && Inv(cfg, s) && Enabled(cfg, s, a) && (!a.Inject? ==> Names(seqOf, a.report))
    requires cfg.Honest(i) && Issued(cfg, Next(cfg, s, a), i, d)
    ensures Started(seqOf, cfg, Next(cfg, s, a), d) || (cfg.Honest(h) && Issued(cfg, s, h, d))
  {
    if Issued(cfg, s, i, d) {
      h := i;
    } else {
      NewlyIssued(cfg, s, a, i, d);
      if a.Trigger? {
        h := i;
        TriggerStarts(seqOf, cfg, s, a);
      } else {
        ValidIsObtainable(cfg, s, a.i, a.report);
        h := HonestHolder(cfg, s, a.report.body.signer, d);
      }
    }
  }

  /** Without Byzantine members this holds with any delays, if all delivered reports name their number. */
  lemma {:induction false} HonestSignWhatWasStarted(seqOf: Data -> nat, cfg: Config, actions: seq<Action>, i: nat, d: Data)
    requires cfg.Valid() && cfg.byz == {} && Possible(cfg, actions) && Named(seqOf, actions)
    requires cfg.Honest(i) && Issued(cfg, After(cfg, actions), i, d)
    ensures Started(seqOf, cfg, After(cfg, actions), d)
    decreases |actions|
  {
    if actions == [] {
      NothingIssued(cfg, i, d);
    } else {
      var n := |actions| - 1;
      var init, a := actions[..n], actions[n];
      var s := After(cfg, init);
      InvHolds(cfg, init);
      var h := HonestStartStep(seqOf, cfg, s, a, i, d);
      if !Started(seqOf, cfg, After(cfg, actions), d) {
        HonestSignWhatWasStarted(seqOf, cfg, init, h, d);
        StartedStays(seqOf, cfg, s, a, d);
      }
    }
  }

  // --- followers -----------------------------------------------------------------------------------------------

  /** In every run inside the window, an honest follower has signed a number exactly when it was given the
      leader's report with that number, and no report under its own id before. */
  lemma {:induction false} FollowersSignExactly(cfg: Config, actions: seq<Action>, i: nat, q: nat)
    requires cfg.Valid() && Possible(cfg, actions)
    requires cfg.Honest(i) && q > 0 && cfg.Leader(q) != i && Windowed(cfg.ShareOf(i), After(cfg, actions).Given(i))
    ensures var s := After(cfg, actions); HasSigned(Local(cfg, s, i), q) <==> AskedFirst(cfg.ShareOf(i), s.Given(i), q)
  {
    LeaderOf(cfg, i, q);
    SignsExactly(cfg.ShareOf(i), After(cfg, actions).Given(i), q);
  }

  ghost predicate DerivedGiven(cfg: Config, s: Net, i: nat) {
    exists j :: 0 <= j < |s.Given(i)| && s.Given(i)[j].report.body.signer == i && Derivable(cfg, s, s.Given(i)[j].report.body.data)
  }

  /** Where reports under the own id come from: if all reports name their number, they come back only for
      numbers that were signed or are led, unless a quorum stands behind the data of one of them. */
  lemma {:induction false} AuthenticUnlessDerived(seqOf: Data -> nat, cfg: Config, actions: seq<Action>, i: nat)
    requires cfg.Valid() && Possible(cfg, actions) && Named(seqOf, actions) && cfg.Honest(i)
    ensures Authentic(cfg.ShareOf(i), After(cfg, actions).Given(i)) || DerivedGiven(cfg, After(cfg, actions), i)
    decreases |actions|
  {
    if actions != [] {
      var n := |actions| - 1;
      var s, a := After(cfg, actions[..n]), actions[n];
      AuthenticUnlessDerived(seqOf, cfg, actions[..n], i);
      LocalStep(cfg, s, a, i);
      if DerivedGiven(cfg, s, i) {
        DerivedGivenStays(cfg, s, a, i);
      } else if a.Deliver? && a.i == i {
        InvHolds(cfg, actions[..n]);
        NamedHolds(seqOf, cfg, actions[..n]);
        assert Names(seqOf, a.report);
        OwnReportExplained(seqOf, cfg, s, a);
        var g := s.Given(i);
        assert (g + [Input(a.report, a.sent)])[..|g|] == g;
      }
    }
  }

  lemma {:induction false} DerivedGivenStays(cfg: Config, s: Net, a: Action, i: nat)
    requires cfg.Honest(i) && DerivedGiven(cfg, s, i)
    ensures DerivedGiven(cfg, Next(cfg, s, a), i)
  {
    var s' := Next(cfg, s, a);
    var j :| 0 <= j < |s.Given(i)| && s.Given(i)[j].report.body.signer == i && Derivable(cfg, s, s.Given(i)[j].report.body.data);
    LocalStep(cfg, s, a, i);
    DerivableStays(cfg, s, a, s.Given(i)[j].report.body.data);
    assert s'.Given(i)[j] == s.Given(i)[j];
  }

  lemma {:induction false} OwnReportExplained(seqOf: Data -> nat, cfg: Config, s: Net, a: Action)
    requires cfg.Valid() && Inv(cfg, s) && NamedNet(seqOf, cfg, s) && a.Deliver? && Enabled(cfg, s, a) && Names(seqOf, a.report)
    ensures a.report.body.signer == a.i && cfg.ShareOf(a.i).Leader(a.report.seqNo) != a.i ==>
              HasSigned(Local(cfg, s, a.i), a.report.seqNo) || DerivedGiven(cfg, Next(cfg, s, a), a.i)
  {
    var m, s' := a.report, Next(cfg, s, a);
    LeaderOf(cfg, a.i, m.seqNo);
    LocalStep(cfg, s, a, a.i);
    if m.body.signer == a.i && cfg.Leader(m.seqNo) != a.i {
      assert Unforged(cfg, s, m);
      if Issued(cfg, s, a.i, m.body.data) {
        IssuedIsAnswered(seqOf, cfg, s, a.i, m.body.data);
      } else {
        DerivableStays(cfg, s, a, m.body.data);
        assert s'.Given(a.i)[|s.Given(a.i)|].report == m;
      }
    }
  }

  // --- the cascade of one number is bounded -----------------------------------------------------------------

  lemma {:induction false} CountPositive(reports: seq<SignedReport>, q: nat) returns (j: nat)
    requires Count(reports, q) > 0
    ensures j < |reports| && reports[j].seqNo == q
    decreases |reports|
  {
    var n := |reports| - 1;
    if reports[n].seqNo == q {
      j := n;
    } else {
      j := CountPositive(reports[..n], q);
    }
  }

  lemma {:induction false} CountAtMostOne(reports: seq<SignedReport>, q: nat)
    requires DistinctNumbers(reports)
    ensures Count(reports, q) <= 1
    decreases |reports|
  {
    if reports != [] {
      var n := |reports| - 1;
      CountAtMostOne(reports[..n], q);
      if reports[n].seqNo == q && Count(reports[..n], q) > 0 {
        var j := CountPositive(reports[..n], q);
      }
    }
  }

  /** Partial signatures under `q` issued by the honest signers 1..m in answer to reports. */
  function Answers(cfg: Config, s: Net, q: nat, m: nat): nat {
    if m == 0 then 0 else
      Answers(cfg, s, q, m - 1) + if cfg.Honest(m) then Count(Local(cfg, s, m).mine, q) else 0
  }

  lemma {:induction false} AnswersOfOne(cfg: Config, s: Net, q: nat, i: nat)
    requires cfg.Valid() && cfg.Honest(i) && Disciplined(cfg.ShareOf(i), s.Given(i))
    ensures Count(Local(cfg, s, i).mine, q) <= if i == cfg.Leader(q) then 0 else 1
  {
    var mine := Local(cfg, s, i).mine;
    CountAtMostOne(mine, q);
    if Count(mine, q) > 0 {
      var j := CountPositive(mine, q);
      NeverAnswersAsLeader(cfg.ShareOf(i), s.Given(i), j);
      LeaderOf(cfg, i, q);
    }
  }

  lemma {:induction false} AnswersUpTo(cfg: Config, s: Net, q: nat, m: nat)
    requires cfg.Valid() && AllDisciplined(cfg, s)
    ensures Answers(cfg, s, q, m) <= if cfg.Leader(q) <= m then m - 1 else m
    decreases m
  {
    if m > 0 {
      AnswersUpTo(cfg, s, q, m - 1);
      if cfg.Honest(m) {
        AnswersOfOne(cfg, s, q, m);
      }
    }
  }

  /** In every run inside the window one number causes fewer than n answers in all, so at most n partial
      signatures with the leader's own, and each honest signer reconstructs it at most f times. */
  lemma {:induction false} CascadeIsBounded(cfg: Config, actions: seq<Action>, q: nat)
    requires cfg.Valid() && Possible(cfg, actions) && AllWindowed(cfg, After(cfg, actions))
    ensures Answers(cfg, After(cfg, actions), q, cfg.n) < cfg.n
    ensures forall i :: cfg.Honest(i) ==> Count(Local(cfg, After(cfg, actions), i).recovered, q) <= MaxFaulty(cfg.n)
  {
    var s := After(cfg, actions);
    InvHolds(cfg, actions);
    WindowedIsDisciplined(cfg, s);
    AnswersUpTo(cfg, s, q, cfg.n);
    forall i | cfg.Honest(i) ensures Count(Local(cfg, s, i).recovered, q) <= MaxFaulty(cfg.n) {
      assert GivenWell(cfg, s, i);
      ReconstructsAtMostF(cfg.ShareOf(i), s.Given(i), q);
    }
  }
}

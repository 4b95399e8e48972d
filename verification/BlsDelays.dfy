/** Agreement when deliveries may be as late as they like: exactly how many Byzantine signers each size
    of network tolerates. */
module BlsDelays {
  import opened Modular
  import opened Ring
  import opened Quorum
  import opened BlsNode
  import opened BlsSigning
  import opened BlsResigning
  import opened BlsNetwork
  import opened BlsGuarantees
  import opened BlsLimits

  // --- those who sign twice are few --------------------------------------------------------------------------

  /** Signer `i` has answered number `q` at most once. */
  ghost predicate OnceAt(cfg: Config, s: Net, i: nat, q: nat)
    requires cfg.Honest(i)
  {
    AnsweredOnce(Local(cfg, s, i).mine, q)
  }

  predicate AnsweredOnce(mine: seq<SignedReport>, q: nat) {
    forall j, k :: 0 <= j < k < |mine| ==> !(mine[j].seqNo == mine[k].seqNo == q)
  }

  /** Signer `i` cannot answer `q` again: it leads it, or holds a later report of its leader. */
  ghost predicate Locked(cfg: Config, s: Net, i: nat, q: nat)
    requires cfg.Valid() && cfg.Honest(i)
  {
    i == cfg.Leader(q) || SlotNo(Local(cfg, s, i).buf, cfg.Leader(q), q) > q
  }

  /** A quorum whose honest members have answered `q` at most once, and never will again. */
  ghost predicate LockedQuorum(cfg: Config, s: Net, q: nat, group: set<nat>)
    requires cfg.Valid()
  {
    && group <= cfg.Members() && |group| >= Threshold(cfg.n)
    && forall i :: i in group && cfg.Honest(i) ==> OnceAt(cfg, s, i, q) && Locked(cfg, s, i, q)
  }

  /** Everyone honest has answered `q` at most once, or at least a locked quorum has. */
  ghost predicate FewResign(cfg: Config, s: Net, q: nat)
    requires cfg.Valid()
  {
    (forall i :: cfg.Honest(i) ==> OnceAt(cfg, s, i, q)) || exists group :: LockedQuorum(cfg, s, q, group)
  }

  lemma {:induction false} SlotsGrow(share: Share, b: Buffer<nat, Body>, sr: SignedReport, sent: bool, k: nat, q: nat)
    requires share.Valid() && b.Valid()
    ensures SlotNo(b, k, q) <= SlotNo(Handle(share, b, sr, sent).buf, k, q)
  {
    HandleIsAdds(share, b, sr, sent);
    RowsGrow(b, sr.body.signer, sr, k, Mod(q, b.size));
    RowsGrow(b.Add(sr.body.signer, sr).0, share.id, share.Sign(sr), k, Mod(q, b.size));
  }

  lemma {:induction false} LockedStays(cfg: Config, s: Net, a: Action, i: nat, q: nat)
    requires cfg.Valid() && cfg.Honest(i) && Locked(cfg, s, i, q)
    ensures Locked(cfg, Next(cfg, s, a), i, q)
  {
    LocalStep(cfg, s, a, i);
    if a.Deliver? && a.i == i {
      SlotsGrow(cfg.ShareOf(i), Local(cfg, s, i).buf, a.report, a.sent, cfg.Leader(q), q);
    }
  }

  /** The step makes signer `i` answer number `q` a second time. */
  ghost predicate Resigns(cfg: Config, s: Net, a: Action, i: nat, q: nat) {
    && cfg.Honest(i) && a.Deliver? && a.i == i && a.report.seqNo == q && HasSigned(Local(cfg, s, i), q)
    && Handle(cfg.ShareOf(i), Local(cfg, s, i).buf, a.report, a.sent).mine.Some?
  }

  lemma {:induction false} AppendOnce(mine: seq<SignedReport>, r: SignedReport, q: nat)
    requires AnsweredOnce(mine, q) && (r.seqNo == q ==> forall j :: 0 <= j < |mine| ==> mine[j].seqNo != q)
    ensures AnsweredOnce(mine + [r], q)
  {
  }

  lemma {:induction false} OnceStays(cfg: Config, s: Net, a: Action, i: nat, q: nat)
    requires cfg.Honest(i) && OnceAt(cfg, s, i, q) && !Resigns(cfg, s, a, i, q)
    ensures OnceAt(cfg, Next(cfg, s, a), i, q)
  {
    LocalStep(cfg, s, a, i);
    if a.Deliver? && a.i == i {
      var t := Local(cfg, s, i);
      var mine := Handle(cfg.ShareOf(i), t.buf, a.report, a.sent).mine;
      HandleSignatures(cfg.ShareOf(i), t.buf, a.report, a.sent);
      if mine.Some? {
        AppendOnce(t.mine, mine.value, q);
      }
    }
  }

  lemma {:induction false} LockedNeverResigns(cfg: Config, s: Net, a: Action, i: nat, q: nat)
    requires cfg.Valid() && cfg.Honest(i) && Locked(cfg, s, i, q)
    ensures !Resigns(cfg, s, a, i, q)
  {
    if Resigns(cfg, s, a, i, q) {
      LeaderOf(cfg, i, q);
      ResignsPast(cfg.ShareOf(i), s.Given(i), a.report, a.sent);
    }
  }

  lemma {:induction false} LockedQuorumStays(cfg: Config, s: Net, a: Action, q: nat, group: set<nat>)
    requires cfg.Valid() && LockedQuorum(cfg, s, q, group)
    ensures LockedQuorum(cfg, Next(cfg, s, a), q, group)
  {
    forall i | i in group && cfg.Honest(i) ensures OnceAt(cfg, Next(cfg, s, a), i, q) && Locked(cfg, Next(cfg, s, a), i, q) {
      LockedNeverResigns(cfg, s, a, i, q);
      OnceStays(cfg, s, a, i, q);
      LockedStays(cfg, s, a, i, q);
    }
  }

  /** Whoever signed data that name a later number of the slot is locked. */
  lemma {:induction false} HolderIsLocked(seqOf: Data -> nat, cfg: Config, s: Net, i: nat, q: nat, d: Data)
    requires cfg.Valid() && Inv(cfg, s) && NamedNet(seqOf, cfg, s) && cfg.Honest(i) && Issued(cfg, s, i, d)
    requires seqOf(d) > q && cfg.Leader(seqOf(d)) == cfg.Leader(q) && Mod(seqOf(d), BUFFER_SIZE) == Mod(q, BUFFER_SIZE)
    ensures Locked(cfg, s, i, q)
  {
    var q' :| SignedAt(cfg, s, i, q', d);
    SignedAsNamed(seqOf, cfg, s, i, q', d);
    HowSigned(cfg, s, i, q', d);
    if i != cfg.Leader(q) {
      var share, mine := cfg.ShareOf(i), Local(cfg, s, i).mine;
      LeaderOf(cfg, i, q');
      var j :| AnsweredAt(mine, j, q', d);
      SignedIsReached(share, s.Given(i));
      assert Reached(share, Local(cfg, s, i).buf, mine[j].seqNo);
    }
  }

  /** The data of an own report that a node is given but has not signed have a quorum behind them. */
  lemma {:induction false} OwnIsDerived(seqOf: Data -> nat, cfg: Config, s: Net, i: nat, q: nat) returns (d: Data)
    requires cfg.Valid() && Inv(cfg, s) && NamedNet(seqOf, cfg, s) && cfg.Honest(i) && i != cfg.Leader(q)
    requires OwnGiven(cfg.ShareOf(i), s.Given(i), q) && !HasSigned(Local(cfg, s, i), q)
    ensures seqOf(d) == q && Derivable(cfg, s, d) && !Issued(cfg, s, i, d)
  {
    var given := s.Given(i);
    var j :| 0 <= j < |given| && IsOwnReport(cfg.ShareOf(i), given[j].report, q);
    var m := given[j].report;
    d := m.body.data;
    assert GivenWell(cfg, s, i) && NamedGiven(seqOf, given);
    assert Names(seqOf, m);
    ValidIsObtainable(cfg, s, i, m);
    if Issued(cfg, s, i, d) {
      IssuedIsAnswered(seqOf, cfg, s, i, d);
    }
  }

  /** The first to answer a number twice leaves a locked quorum: those behind the data of the derived
      report that pushed its own one out. */
  lemma {:induction false} ResigningLocks(seqOf: Data -> nat, cfg: Config, s: Net, a: Action, i: nat, q: nat)
    requires cfg.Valid() && Inv(cfg, s) && NamedNet(seqOf, cfg, s) && BUFFER_SIZE % cfg.n == 0
    requires Resigns(cfg, s, a, i, q) && forall j :: cfg.Honest(j) ==> OnceAt(cfg, s, j, q)
    ensures exists group :: LockedQuorum(cfg, Next(cfg, s, a), q, group)
  {
    var share := cfg.ShareOf(i);
    LeaderOf(cfg, i, q);
    var later := ResignNeedsOwn(share, s.Given(i), a.report, a.sent);
    LeaderOf(cfg, i, later);
    var d := OwnIsDerived(seqOf, cfg, s, i, later);
    var group := Holders(cfg, s, d);
    forall j | j in group && cfg.Honest(j) ensures OnceAt(cfg, Next(cfg, s, a), j, q) && Locked(cfg, Next(cfg, s, a), j, q) {
      HolderIsLocked(seqOf, cfg, s, j, q, d);
      OnceStays(cfg, s, a, j, q);
      LockedStays(cfg, s, a, j, q);
    }
    assert LockedQuorum(cfg, Next(cfg, s, a), q, group);
  }

  lemma {:induction false} FewResignStep(seqOf: Data -> nat, cfg: Config, s: Net, a: Action, q: nat)
    requires cfg.Valid() && Inv(cfg, s) && NamedNet(seqOf, cfg, s) && BUFFER_SIZE % cfg.n == 0 && FewResign(cfg, s, q)
    ensures FewResign(cfg, Next(cfg, s, a), q)
  {
    if group :| LockedQuorum(cfg, s, q, group) {
      LockedQuorumStays(cfg, s, a, q, group);
    } else if a.Deliver? && Resigns(cfg, s, a, a.i, q) {
      ResigningLocks(seqOf, cfg, s, a, a.i, q);
    } else {
      forall i | cfg.Honest(i) ensures OnceAt(cfg, Next(cfg, s, a), i, q) {
        OnceStays(cfg, s, a, i, q);
      }
    }
  }

  /** If the number of signers divides the buffer size, at most f honest signers ever answer a number
      twice, whatever is derived and however late it comes. */
  lemma {:induction false} FewResignHolds(seqOf: Data -> nat, cfg: Config, actions: seq<Action>, q: nat)
    requires cfg.Valid() && Possible(cfg, actions) && Named(seqOf, actions) && BUFFER_SIZE % cfg.n == 0
    ensures FewResign(cfg, After(cfg, actions), q)
    decreases |actions|
  {
    if actions == [] {
      NobodyAnswered(cfg, q);
    } else {
      var n := |actions| - 1;
      var init := actions[..n];
      InvHolds(cfg, init);
      NamedHolds(seqOf, cfg, init);
      FewResignHolds(seqOf, cfg, init, q);
      FewResignStep(seqOf, cfg, After(cfg, init), actions[n], q);
    }
  }

  lemma {:induction false} NobodyAnswered(cfg: Config, q: nat)
    requires cfg.Valid()
    ensures forall i :: cfg.Honest(i) ==> OnceAt(cfg, After(cfg, []), i, q)
  {
  }

  /** A signer that answered `q` once, and was not triggered twice, signed one data under it. */
  lemma {:induction false} OnceIsOneData(cfg: Config, s: Net, i: nat, q: nat, d: Data, d': Data)
    requires cfg.Valid() && Inv(cfg, s) && cfg.Honest(i) && OnceAt(cfg, s, i, q) && !TriggeredTwice(s, q)
    requires SignedAt(cfg, s, i, q, d) && SignedAt(cfg, s, i, q, d')
    ensures d == d'
  {
    HowSigned(cfg, s, i, q, d);
    HowSigned(cfg, s, i, q, d');
    if i == cfg.Leader(q) {
      var j :| TriggeredAt(s, j, i, q, d);
      var k :| TriggeredAt(s, k, i, q, d');
    } else {
      var mine := Local(cfg, s, i).mine;
      var j :| AnsweredAt(mine, j, q, d);
      var k :| AnsweredAt(mine, k, q, d');
      OneAnswer(mine, j, k, q);
    }
  }

  lemma {:induction false} OneAnswer(mine: seq<SignedReport>, j: int, k: int, q: nat)
    requires AnsweredOnce(mine, q) && 0 <= j < |mine| && 0 <= k < |mine| && mine[j].seqNo == mine[k].seqNo == q
    ensures j == k
  {
  }

  lemma {:induction false} AtMost(members: set<nat>, byz: set<nat>, group: set<nat>)
    requires group <= members
    ensures |byz + (members - group)| <= |byz| + |members| - |group|
  {
    assert members == group + (members - group);
    assert |byz + (members - group)| == |byz| + |members - group| - |byz * (members - group)|;
  }

  /** With fewer than n - 3f Byzantine signers, the others and up to f double signers stay fewer than
      n - 2f. */
  lemma {:induction false} DividingAgrees(seqOf: Data -> nat, cfg: Config, actions: seq<Action>, q: nat, d: Data, d': Data)
    requires cfg.Valid() && Possible(cfg, actions) && Named(seqOf, actions) && BUFFER_SIZE % cfg.n == 0
    requires |cfg.byz| < cfg.n - 3 * MaxFaulty(cfg.n) && !TriggeredTwice(After(cfg, actions), q)
    requires Quorate(cfg, After(cfg, actions), q, d) && Quorate(cfg, After(cfg, actions), q, d')
    ensures d == d'
  {
    var s := After(cfg, actions);
    InvHolds(cfg, actions);
    FewResignHolds(seqOf, cfg, actions, q);
    if group :| LockedQuorum(cfg, s, q, group) {
      AtMost(cfg.Members(), cfg.byz, group);
      OnceAgrees(cfg, s, q, d, d', cfg.byz + (cfg.Members() - group));
    } else {
      OnceAgrees(cfg, s, q, d, d', cfg.byz);
    }
  }

  lemma {:induction false} OnceAgrees(cfg: Config, s: Net, q: nat, d: Data, d': Data, faulty: set<nat>)
    requires cfg.Valid() && Inv(cfg, s) && !TriggeredTwice(s, q) && cfg.byz <= faulty && |faulty| < cfg.n - 2 * MaxFaulty(cfg.n)
    requires forall i :: cfg.Honest(i) && i !in faulty ==> OnceAt(cfg, s, i, q)
    requires Quorate(cfg, s, q, d) && Quorate(cfg, s, q, d')
    ensures d == d'
  {
    forall i, e, e' | cfg.Honest(i) && i !in faulty && SignedAt(cfg, s, i, q, e) && SignedAt(cfg, s, i, q, e') ensures e == e' {
      OnceIsOneData(cfg, s, i, q, e, e');
    }
    QuorumsAgree(cfg, s, q, d, d', faulty);
  }

  /** Without Byzantine signers only the leader's data are ever signed. */
  lemma {:induction false} HonestAgrees(seqOf: Data -> nat, cfg: Config, actions: seq<Action>, q: nat, d: Data, d': Data)
    requires cfg.Valid() && cfg.byz == {} && Possible(cfg, actions) && Named(seqOf, actions) && !TriggeredTwice(After(cfg, actions), q)
    requires Quorate(cfg, After(cfg, actions), q, d) && Quorate(cfg, After(cfg, actions), q, d')
    ensures d == d'
  {
    BackedIsStarted(seqOf, cfg, actions, q, d);
    BackedIsStarted(seqOf, cfg, actions, q, d');
    var j :| TriggeredAt(After(cfg, actions), j, cfg.Leader(seqOf(d)), seqOf(d), d);
    var k :| TriggeredAt(After(cfg, actions), k, cfg.Leader(seqOf(d')), seqOf(d'), d');
  }

  lemma {:induction false} BackedIsStarted(seqOf: Data -> nat, cfg: Config, actions: seq<Action>, q: nat, d: Data)
    requires cfg.Valid() && cfg.byz == {} && Possible(cfg, actions) && Named(seqOf, actions) && Quorate(cfg, After(cfg, actions), q, d)
    ensures Started(seqOf, cfg, After(cfg, actions), d) && seqOf(d) == q
  {
    var s := After(cfg, actions);
    var i := Outside(Backers(cfg, s, q, d), {});
    NamedHolds(seqOf, cfg, actions);
    SignedAsNamed(seqOf, cfg, s, i, q, d);
    HonestSignWhatWasStarted(seqOf, cfg, actions, i, d);
  }
}

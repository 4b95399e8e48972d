/** What one dissenting signer does to reconstruction: collectSignatures takes every signature held
    for a number, whatever data it covers. */
module BlsMixing {
  import opened Options
  import opened Collections
  import opened Modular
  import opened PrimeField
  import opened Interpolation
  import opened ThresholdKeys
  import opened Ring
  import opened Quorum
  import opened BlsNode
  import opened BlsSigning
  import opened BlsCompletion
  import opened BlsNetwork
  import opened BlsLimits
  import opened BlsReconstruction

  /** A follower that holds nothing for the number answers the leader's report. */
  lemma {:induction false} AnswersLeader(share: Share, b: Buffer<nat, Body>, sr: SignedReport)
    requires share.Valid() && b.Valid() && sr.seqNo > 0 && b.InWindow(sr.seqNo) && b.Lookup(sr.seqNo) == {}
    requires sr.body.signer == share.Leader(sr.seqNo) != share.id
    ensures var h := Handle(share, b, sr, true);
      h.buf.InWindow(sr.seqNo) && Held(h.buf, sr.seqNo) == map[sr.body.signer := sr, share.id := share.Sign(sr)]
  {
    var b1, q := b.Add(sr.body.signer, sr).0, sr.seqNo;
    AddHeld(b, sr.body.signer, sr);
    assert Held(b, q) == map[];
    assert b1.Lookup(q) == {sr.body.signer};
    AddHeld(b1, share.id, share.Sign(sr));
  }

  /** A node that has answered keeps any further report, and reconstructs from all that it holds when
      they are more than a quorum. */
  lemma {:induction false} KeepsAndRecovers(share: Share, b: Buffer<nat, Body>, sr: SignedReport)
    requires share.Valid() && b.Valid() && sr.seqNo > 0 && b.InWindow(sr.seqNo)
    requires share.id in b.Lookup(sr.seqNo) && sr.body.signer !in b.Lookup(sr.seqNo)
    ensures var h, held := Handle(share, b, sr, true), Held(b, sr.seqNo)[sr.body.signer := sr];
      && h.buf.InWindow(sr.seqNo) && Held(h.buf, sr.seqNo) == held
      && h.recovered == if |held| >= share.QuorumCount() && |Signatures(held)| > share.QuorumCount()
                        then Some(Prepare(Signatures(held), sr)) else None
  {
    AddHeld(b, sr.body.signer, sr);
    var b1 := b.Add(sr.body.signer, sr).0;
    CollectsHeld(b1, sr.seqNo);
    assert |Held(b1, sr.seqNo)| == |b1.Lookup(sr.seqNo)|;
  }

  lemma {:induction false} RunKeeps(share: Share, inputs: seq<Input>, sr: SignedReport, held: map<nat, SignedReport>)
    requires share.Valid() && sr.seqNo > 0 && Run(share, inputs).buf.InWindow(sr.seqNo)
    requires Held(Run(share, inputs).buf, sr.seqNo) == held && share.id in held && sr.body.signer !in held
    ensures var b := Run(share, inputs + [Input(sr, true)]).buf; b.InWindow(sr.seqNo) && Held(b, sr.seqNo) == held[sr.body.signer := sr]
  {
    var b := Run(share, inputs).buf;
    assert b.Lookup(sr.seqNo) == held.Keys;
    RunAppend(share, inputs, Input(sr, true));
    KeepsAndRecovers(share, b, sr);
  }

  function Mixed(d: Data, d': Data): map<nat, Sig> {
    map[1 := Partial(1, d), 2 := Partial(2, d), 3 := Partial(3, d'), 4 := Partial(4, d)]
  }

  lemma {:induction false} ThreeHeld(d: Data, d': Data)
    ensures var held := FirstHeld(d)[3 := Signed(3, d')];
      |held| == 3 && |Signatures(held)| <= 3 && Signatures(held[4 := Signed(4, d)]) == Mixed(d, d') && |held[4 := Signed(4, d)]| == 4
  {
    var held := FirstHeld(d)[3 := Signed(3, d')];
    assert held.Keys == {1, 2, 3};
    assert held[4 := Signed(4, d)].Keys == {1, 2, 3, 4};
    assert Signatures(held).Keys == {1, 2, 3};
  }

  function First(d: Data): seq<Input> {
    [Input(Signed(2, d), true)]
  }

  /** What node 1 then holds for number 1. */
  function FirstHeld(d: Data): (m: map<nat, SignedReport>)
    ensures 1 in m && 3 !in m && 4 !in m
  {
    map[2 := Signed(2, d), 1 := NODE.Sign(Signed(2, d))]
  }

  /** The leader's report, one on other data, and one on the leader's. */
  function Inputs(d: Data, d': Data): seq<Input> {
    First(d) + [Input(Signed(3, d'), true)] + [Input(Signed(4, d), true)]
  }

  lemma {:induction false} AfterFirst(d: Data)
    ensures NODE.Valid()
    ensures var b := Run(NODE, First(d)).buf;
      b.InWindow(1) && Held(b, 1) == FirstHeld(d)
  {
    NodeFacts();
    var start := Run(NODE, []);
    assert First(d) == [] + [Input(Signed(2, d), true)];
    RunAppend(NODE, [], Input(Signed(2, d), true));
    assert start.buf.Lookup(1) == {};
    AnswersLeader(NODE, start.buf, Signed(2, d));
  }

  lemma {:induction false} AfterTwo(d: Data, d': Data)
    ensures NODE.Valid()
    ensures var b := Run(NODE, First(d) + [Input(Signed(3, d'), true)]).buf;
      b.InWindow(1) && Held(b, 1) == FirstHeld(d)[3 := Signed(3, d')]
  {
    AfterFirst(d);
    RunKeeps(NODE, First(d), Signed(3, d'), FirstHeld(d));
  }

  lemma {:induction false} LastRecovers(b: Buffer<nat, Body>, d: Data, d': Data)
    requires b.Valid() && b.InWindow(1) && Held(b, 1) == FirstHeld(d)[3 := Signed(3, d')]
    ensures NODE.Valid() && Handle(NODE, b, Signed(4, d), true).recovered == Some(Prepare(Mixed(d, d'), Signed(4, d)))
  {
    NodeFacts();
    assert b.Lookup(1) == Held(b, 1).Keys;
    KeepsAndRecovers(NODE, b, Signed(4, d));
    ThreeHeld(d, d');
    MixedSize(d, d');
  }

  lemma {:induction false} RecoveredGrows(share: Share, inputs: seq<Input>, i: Input)
    requires share.Valid() && Handle(share, Run(share, inputs).buf, i.report, i.sent).recovered.Some?
    ensures Handle(share, Run(share, inputs).buf, i.report, i.sent).recovered.value in Run(share, inputs + [i]).recovered
  {
    RunAppend(share, inputs, i);
  }

  /** Three valid reports for number 1, one of them on other data, make node 1 broadcast a report
      reconstructed from signatures on both. */
  lemma {:induction false} MixesData(d: Data, d': Data)
    ensures NODE.Valid() && Prepare(Mixed(d, d'), Signed(4, d)) in Run(NODE, Inputs(d, d')).recovered
    ensures NODE.Validate(Signed(2, d)) && NODE.Validate(Signed(3, d')) && NODE.Validate(Signed(4, d))
  {
    AfterTwo(d, d');
    EndsMixed(First(d) + [Input(Signed(3, d'), true)], d, d');
  }

  lemma {:induction false} EndsMixed(two: seq<Input>, d: Data, d': Data)
    requires NODE.Valid() && Run(NODE, two).buf.InWindow(1)
    requires Held(Run(NODE, two).buf, 1) == FirstHeld(d)[3 := Signed(3, d')]
    ensures Prepare(Mixed(d, d'), Signed(4, d)) in Run(NODE, two + [Input(Signed(4, d), true)]).recovered
  {
    LastRecovers(Run(NODE, two).buf, d, d');
    RecoveredGrows(NODE, two, Input(Signed(4, d), true));
  }

  lemma {:induction false} MixedSize(d: Data, d': Data)
    ensures |Mixed(d, d')| == 4
  {
    assert Mixed(d, d').Keys == {1, 2, 3, 4};
  }

  /** In a network of any size, a report reconstructed with one part on other data verifies exactly
      when that part is worth the same as one on the report's data. */
  lemma {:induction false} MixedReportVerifiesIff(cfg: Config, p: int, msk: seq<int>, hash: Data -> int, parts: map<nat, Sig>, k: nat, d: Data, order: seq<int>)
    requires IsPrime(p) && cfg.n < p && 0 < |msk| <= |parts| && OwnParts(cfg, parts) && k in parts
    requires forall i :: i in parts && i != k ==> parts[i] == Partial(i, d)
    requires Enumerates(order, PartValues(p, msk, hash, parts).Keys)
    ensures Verifies(p, msk, hash, parts, d, order)
      <==> Cong(p, Sign(p, Eval(msk, k) % p, hash(parts[k].over)), Sign(p, Eval(msk, k) % p, hash(d)))
  {
    var values := PartValues(p, msk, hash, parts);
    SameSize(parts.Keys, values.Keys);
    RecoversIffErrorsCancel(p, msk, hash(d), values, order);
    OneWrongPartSpoils(p, msk, hash(d), values, order, k);
  }

  // --- the same in the network -----------------------------------------------------------------------------

  /** Four signers with an honest leader, all honest but perhaps signer 3. */
  predicate Mixable(cfg: Config) {
    cfg.n == 4 && cfg.byz <= {3}
  }

  lemma {:induction false} NetworkFacts(cfg: Config)
    requires Mixable(cfg)
    ensures cfg.Valid() && cfg.Honest(1) && cfg.Honest(2) && cfg.ShareOf(1) == NODE && cfg.Leader(1) == 2 && cfg.Leader(2) == 3
  {
    NodeFacts();
    ModIsRemainder(2, 4);
    assert Ids(4) == {1, 2, 3, 4};
  }

  lemma {:induction false} TriggerSigned(cfg: Config, actions: seq<Action>, m: SignedReport) returns (longer: seq<Action>)
    requires cfg.Valid() && Possible(cfg, actions) && cfg.Honest(m.body.signer) && cfg.Leader(m.seqNo) == m.body.signer
    requires m.body.sig == Partial(m.body.signer, m.body.data)
    ensures Possible(cfg, longer)
    ensures var s := After(cfg, actions); After(cfg, longer) == s.(triggers := s.triggers + [(m.body.signer, m)], soup := s.soup + {m})
  {
    assert cfg.ShareOf(m.body.signer).Sign(m) == m;
    Extend(cfg, actions, Trigger(m.body.signer, m));
    longer := actions + [Trigger(m.body.signer, m)];
  }

  /** Signer 3 is Byzantine and says its signature on other data. */
  lemma {:induction false} StartMixed(d: Data, d': Data) returns (actions: seq<Action>)
    ensures Mixable(Config(4, {3})) && Config(4, {3}).Valid() && Possible(Config(4, {3}), actions)
    ensures After(Config(4, {3}), actions) == Net(map[], [] + [(2, Signed(2, d))], {} + {Signed(3, d')} + {Signed(2, d)})
  {
    var cfg := Config(4, {3});
    NetworkFacts(cfg);
    Extend(cfg, [], Inject(Signed(3, d')));
    actions := TriggerSigned(cfg, [] + [Inject(Signed(3, d'))], Signed(2, d));
  }

  /** What signer 3 signs as the leader of number 2. */
  function Earlier(d': Data): SignedReport {
    Stamped(2, Body("", d', Partial(3, d'), 3))
  }

  /** Signer 3 is honest, leads number 2 with other data, and that signature is said again for number 1. */
  lemma {:induction false} StartReplay(d: Data, d': Data) returns (actions: seq<Action>)
    ensures Mixable(Config(4, {})) && Config(4, {}).Valid() && Possible(Config(4, {}), actions)
    ensures After(Config(4, {}), actions)
         == Net(map[], [] + [(3, Earlier(d'))] + [(2, Signed(2, d))], {} + {Earlier(d')} + {Signed(3, d')} + {Signed(2, d)})
  {
    var cfg := Config(4, {});
    NetworkFacts(cfg);
    actions := TriggerSigned(cfg, [], Earlier(d'));
    assert TriggeredAt(After(cfg, actions), 0, 3, 2, d');
    assert SignedAt(cfg, After(cfg, actions), 3, 2, d');
    Extend(cfg, actions, Inject(Signed(3, d')));
    actions := TriggerSigned(cfg, actions + [Inject(Signed(3, d'))], Signed(2, d));
  }

  lemma {:induction false} SignedIsFresh(cfg: Config, s: Net, i: nat, d: Data)
    requires Mixable(cfg) && i in {1, 4} && Signed(2, d) in s.soup && s.Given(i) == []
    ensures cfg.Valid() && Fresh(cfg, s, i, Signed(2, d))
  {
    NetworkFacts(cfg);
    assert 2 in cfg.Members();
  }

  /** Signers 1 and 4 have answered the leader. */
  lemma {:induction false} LeaderTold(cfg: Config, actions: seq<Action>, d: Data, d': Data) returns (longer: seq<Action>)
    requires Mixable(cfg) && cfg.Valid() && Possible(cfg, actions)
    requires After(cfg, actions).inputs == map[] && {Signed(3, d'), Signed(2, d)} <= After(cfg, actions).soup
    ensures Possible(cfg, longer)
    ensures var s := After(cfg, longer);
      && s.triggers == After(cfg, actions).triggers && Signed(3, d') in s.soup && Signed(4, d) in s.soup && s.Given(1) == First(d)
  {
    var s0 := After(cfg, actions);
    NothingGiven(cfg, s0);
    SignedIsFresh(cfg, s0, 4, d);
    longer := TellOne(cfg, actions, 4, Signed(2, d));
    var s1 := After(cfg, longer);
    FourAnswered(cfg, s0, s1, d);
    SignedIsFresh(cfg, s1, 1, d);
    longer := TellOne(cfg, longer, 1, Signed(2, d));
    OneAnswered(cfg, s1, After(cfg, longer), d);
  }

  lemma {:induction false} NothingGiven(cfg: Config, s: Net)
    requires s.inputs == map[]
    ensures AllWindowed(cfg, s)
  {
  }

  lemma {:induction false} FourAnswered(cfg: Config, s0: Net, s1: Net, d: Data)
    requires ToldRange(cfg, s0, s1, 3, 4, Signed(2, d))
    ensures AllWindowed(cfg, s1) && s0.soup <= s1.soup && s1.triggers == s0.triggers
    ensures Signed(4, d) in s1.soup && s1.Given(1) == s0.Given(1)
  {
    assert Told(cfg, s1, 4, Signed(2, d));
    assert cfg.ShareOf(4).Sign(Signed(2, d)) == Signed(4, d);
  }

  lemma {:induction false} OneAnswered(cfg: Config, s1: Net, s2: Net, d: Data)
    requires ToldRange(cfg, s1, s2, 0, 1, Signed(2, d)) && s1.Given(1) == []
    ensures s1.soup <= s2.soup && s2.triggers == s1.triggers && s2.Given(1) == First(d)
  {
    assert [] + [Input(Signed(2, d), true)] == First(d);
  }

  lemma {:induction false} DeliverToNode(cfg: Config, actions: seq<Action>, m: SignedReport) returns (longer: seq<Action>)
    requires Mixable(cfg) && cfg.Valid() && cfg.Honest(1) && Possible(cfg, actions) && m in After(cfg, actions).soup && NODE.Validate(m)
    ensures Possible(cfg, longer)
    ensures var s, s' := After(cfg, actions), After(cfg, longer);
      s'.Given(1) == s.Given(1) + [Input(m, true)] && s'.triggers == s.triggers && s.soup <= s'.soup
  {
    NetworkFacts(cfg);
    var a := Deliver(1, m, true);
    Extend(cfg, actions, a);
    SoupGrows(cfg, After(cfg, actions), a);
    longer := actions + [a];
  }

  lemma {:induction false} MixInNetwork(cfg: Config, actions: seq<Action>, d: Data, d': Data) returns (longer: seq<Action>, n: nat)
    requires Mixable(cfg) && cfg.Valid() && Possible(cfg, actions)
    requires After(cfg, actions).inputs == map[] && {Signed(3, d'), Signed(2, d)} <= After(cfg, actions).soup
    ensures cfg.Honest(1) && Possible(cfg, longer) && After(cfg, longer).triggers == After(cfg, actions).triggers
    ensures Broadcasts(cfg, After(cfg, longer), n, Prepare(Mixed(d, d'), Signed(4, d)))
  {
    NetworkFacts(cfg);
    longer := LeaderTold(cfg, actions, d, d');
    longer := DeliverToNode(cfg, longer, Signed(3, d'));
    longer := DeliverToNode(cfg, longer, Signed(4, d));
    MixesData(d, d');
    n := IndexOf(Local(cfg, After(cfg, longer), 1).recovered, Prepare(Mixed(d, d'), Signed(4, d)));
  }

  /** The `n`th report that signer 1 reconstructed. */
  ghost predicate Broadcasts(cfg: Config, s: Net, n: nat, rep: SignedReport) {
    cfg.Honest(1) && n < |Local(cfg, s, 1).recovered| && Local(cfg, s, 1).recovered[n] == rep
  }

  /** One Byzantine follower is enough: there is a run with an honest leader that started its number
      once, in which an honest signer broadcasts a report built from signatures on both data. */
  lemma {:induction false} MixedRun(d: Data, d': Data) returns (actions: seq<Action>, n: nat)
    ensures var cfg := Config(4, {3});
      && cfg.Valid() && Possible(cfg, actions) && (forall q :: !TriggeredTwice(After(cfg, actions), q))
      && Broadcasts(cfg, After(cfg, actions), n, Prepare(Mixed(d, d'), Signed(4, d)))
  {
    actions := StartMixed(d, d');
    actions, n := MixInNetwork(Config(4, {3}), actions, d, d');
    TriggeredOnce(After(Config(4, {3}), actions), (2, Signed(2, d)));
  }

  lemma {:induction false} TriggeredOnce(s: Net, t: (nat, SignedReport))
    requires s.triggers == [] + [t]
    ensures forall q :: !TriggeredTwice(s, q)
  {
  }

  /** And without any, an old signature said again under a number that its data do not name is enough. */
  lemma {:induction false} ReplayRun(d: Data, d': Data) returns (actions: seq<Action>, n: nat)
    ensures var cfg := Config(4, {});
      && cfg.Valid() && Possible(cfg, actions) && (forall q :: !TriggeredTwice(After(cfg, actions), q))
      && Broadcasts(cfg, After(cfg, actions), n, Prepare(Mixed(d, d'), Signed(4, d)))
  {
    actions := StartReplay(d, d');
    actions, n := MixInNetwork(Config(4, {}), actions, d, d');
    TriggeredApart(After(Config(4, {}), actions), Earlier(d'), Signed(2, d));
  }

  lemma {:induction false} TriggeredApart(s: Net, m: SignedReport, m': SignedReport)
    requires s.triggers == [] + [(m.body.signer, m)] + [(m'.body.signer, m')] && m.seqNo != m'.seqNo
    ensures forall q :: !TriggeredTwice(s, q)
  {
  }

  lemma {:induction false} MixedKeys(p: int, msk: seq<int>, hash: Data -> int, d: Data, d': Data)
    requires p > 0
    ensures PartValues(p, msk, hash, Mixed(d, d')).Keys == {1, 2, 3, 4} && OwnParts(Config(4, {}), Mixed(d, d'))
  {
  }

  lemma {:induction false} MixedVerifiesIff(p: int, msk: seq<int>, hash: Data -> int, d: Data, d': Data, order: seq<int>)
    requires IsPrime(p) && 4 < p && |msk| == Threshold(4) && Enumerates(order, {1, 2, 3, 4})
    ensures Enumerates(order, PartValues(p, msk, hash, Mixed(d, d')).Keys)
    ensures Verifies(p, msk, hash, Mixed(d, d'), d, order)
            <==> Cong(p, Sign(p, Eval(msk, 3) % p, hash(d')), Sign(p, Eval(msk, 3) % p, hash(d)))
  {
    MixedSize(d, d');
    MixedKeys(p, msk, hash, d, d');
    MixedReportVerifiesIff(Config(4, {}), p, msk, hash, Mixed(d, d'), 3, d, order);
  }

  /** What either run broadcasts does not verify, in whatever order its parts are combined, unless the
      dissenting signature is worth the same as one on the report's data. */
  lemma {:induction false} MixedRunVerifiesIff(p: int, msk: seq<int>, hash: Data -> int, d: Data, d': Data, order: seq<int>, byz: bool)
    returns (cfg: Config, actions: seq<Action>, n: nat)
    requires IsPrime(p) && 4 < p && |msk| == Threshold(4) && Enumerates(order, {1, 2, 3, 4})
    ensures cfg == Config(4, if byz then {3} else {}) && cfg.Valid() && cfg.Honest(1) && Possible(cfg, actions)
    ensures n < |Local(cfg, After(cfg, actions), 1).recovered|
    ensures var rep := Local(cfg, After(cfg, actions), 1).recovered[n];
      && rep.body.sig.Recovered? && Enumerates(order, PartValues(p, msk, hash, rep.body.sig.parts).Keys)
      && (Verifies(p, msk, hash, rep.body.sig.parts, rep.body.data, order)
          <==> Cong(p, Sign(p, Eval(msk, 3) % p, hash(d')), Sign(p, Eval(msk, 3) % p, hash(d))))
  {
    MixedVerifiesIff(p, msk, hash, d, d', order);
    cfg := Config(4, if byz then {3} else {});
    if byz {
      actions, n := MixedRun(d, d');
    } else {
      actions, n := ReplayRun(d, d');
    }
  }
}

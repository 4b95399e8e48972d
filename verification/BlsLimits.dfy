/** Runs that show how far the guarantees reach: agreement breaks as soon as one more signer is
    Byzantine, and when a leader may put data under a number they do not name. */
module BlsLimits {
  import opened Ring
  import opened Quorum
  import opened BlsNode
  import opened BlsSigning
  import opened BlsResigning
  import opened BlsNetwork
  import opened BlsGuarantees

  lemma {:induction false} Extend(cfg: Config, actions: seq<Action>, a: Action)
    requires cfg.Valid() && Possible(cfg, actions) && Enabled(cfg, After(cfg, actions), a)
    ensures Possible(cfg, actions + [a]) && After(cfg, actions + [a]) == Next(cfg, After(cfg, actions), a)
  {
    var longer := actions + [a];
    assert longer[..|longer| - 1] == actions && longer[|longer| - 1] == a;
  }

  lemma {:induction false} Say(seqOf: Data -> nat, cfg: Config, actions: seq<Action>, m: SignedReport) returns (longer: seq<Action>)
    requires cfg.Valid() && Possible(cfg, actions) && Named(seqOf, actions)
    requires m.body.sig.Partial? && Obtainable(cfg, After(cfg, actions), m.body.sig.maker, m.body.sig.over)
    ensures Possible(cfg, longer) && Named(seqOf, longer) && After(cfg, longer) == Next(cfg, After(cfg, actions), Inject(m))
  {
    Extend(cfg, actions, Inject(m));
    longer := actions + [Inject(m)];
  }

  // --- a node that holds only smaller numbers -----------------------------------------------------------

  predicate Below(inputs: seq<Input>, q: nat) {
    forall j :: 0 <= j < |inputs| ==> inputs[j].report.seqNo < q
  }

  ghost predicate SlotsBelow(b: Buffer<nat, Body>, q: nat) {
    forall k, i :: k in b.rows && 0 <= i < |b.rows[k]| ==> b.rows[k][i].seqNo < q
  }

  lemma {:induction false} AddBelow(b: Buffer<nat, Body>, k: nat, r: SignedReport, q: nat)
    requires b.Valid() && SlotsBelow(b, q) && r.seqNo < q
    ensures SlotsBelow(b.Add(k, r).0, q)
  {
  }

  lemma {:induction false} RunBelow(share: Share, inputs: seq<Input>, q: nat)
    requires share.Valid() && Below(inputs, q)
    ensures SlotsBelow(Run(share, inputs).buf, q)
    decreases |inputs|
  {
    if inputs != [] {
      var n := |inputs| - 1;
      var t, sr := Run(share, inputs[..n]), inputs[n].report;
      RunBelow(share, inputs[..n], q);
      HandleIsAdds(share, t.buf, sr, inputs[n].sent);
      AddBelow(t.buf, sr.body.signer, sr, q);
      AddBelow(t.buf.Add(sr.body.signer, sr).0, share.id, share.Sign(sr), q);
    }
  }

  predicate AllBelow(h: seq<Offer<nat, Body>>, q: nat) {
    forall j :: 0 <= j < |h| ==> h[j].report.seqNo < q
  }

  lemma {:induction false} OfferingBelow(share: Share, b: Buffer<nat, Body>, sr: SignedReport, sent: bool, q: nat)
    requires share.Valid() && b.Valid() && sr.seqNo < q
    ensures AllBelow(Offering(share, b, sr, sent), q)
  {
    HandleIsAdds(share, b, sr, sent);
  }

  lemma {:induction false} OffersBelow(share: Share, inputs: seq<Input>, q: nat)
    requires share.Valid() && Below(inputs, q)
    ensures AllBelow(Offers(share, inputs), q)
    decreases |inputs|
  {
    if inputs != [] {
      var n := |inputs| - 1;
      var init, last := inputs[..n], inputs[n];
      OffersBelow(share, init, q);
      OfferingBelow(share, Run(share, init).buf, last.report, last.sent, q);
    }
  }

  /** It signs the leader's report, inside the window. */
  lemma {:induction false} SignsAbove(share: Share, inputs: seq<Input>, m: SignedReport)
    requires share.Valid() && Windowed(share, inputs) && Below(inputs, m.seqNo) && m.body.signer == share.Leader(m.seqNo) != share.id
    requires m.seqNo > 0
    ensures Run(share, inputs + [Input(m, true)]).mine == Run(share, inputs).mine + [share.Sign(m)]
    ensures Windowed(share, inputs + [Input(m, true)])
    ensures var mine := Handle(share, Run(share, inputs).buf, m, true).mine; mine.Some? && mine.value == share.Sign(m)
  {
    OffersBelow(share, inputs, m.seqNo);
    NewNumberStep(share, inputs, m);
    SignsNewNumber(share, inputs, m);
    RunBelow(share, inputs, m.seqNo);
    RunAppend(share, inputs, Input(m, true));
  }

  // --- telling a range of signers -----------------------------------------------------------------------

  /** Signer `i` has signed the report and its signature circulates. */
  ghost predicate Told(cfg: Config, s: Net, i: nat, m: SignedReport) {
    cfg.Honest(i) && SignedAt(cfg, s, i, m.seqNo, m.body.data) && cfg.ShareOf(i).Sign(m) in s.soup
  }

  /** Nothing was triggered, and nothing said or signed was taken back. */
  ghost predicate Grew(cfg: Config, s: Net, s': Net) {
    && s.soup <= s'.soup && s'.triggers == s.triggers
    && forall i, m :: Told(cfg, s, i, m) ==> Told(cfg, s', i, m)
  }

  lemma {:induction false} DeliverGrows(cfg: Config, s: Net, a: Action)
    requires a.Deliver?
    ensures Grew(cfg, s, Next(cfg, s, a))
  {
    SoupGrows(cfg, s, a);
    forall i, m | Told(cfg, s, i, m) ensures Told(cfg, Next(cfg, s, a), i, m) {
      SignedAtStays(cfg, s, a, i, m.seqNo, m.body.data);
    }
  }

  /** A leader's report that is new to signer `i`. */
  ghost predicate Fresh(cfg: Config, s: Net, i: nat, m: SignedReport)
    requires cfg.Valid()
  {
    && cfg.Honest(i) && m in s.soup && cfg.ShareOf(i).Validate(m)
    && m.seqNo > 0 && m.body.signer == cfg.Leader(m.seqNo) != i && Below(s.Given(i), m.seqNo)
  }

  lemma {:induction false} TellStep(cfg: Config, s: Net, i: nat, m: SignedReport)
    requires cfg.Valid() && AllWindowed(cfg, s) && Fresh(cfg, s, i, m)
    ensures var s' := Next(cfg, s, Deliver(i, m, true));
      && AllWindowed(cfg, s') && Told(cfg, s', i, m) && Grew(cfg, s, s')
      && s'.Given(i) == s.Given(i) + [Input(m, true)] && forall j :: j != i ==> s'.Given(j) == s.Given(j)
  {
    var a := Deliver(i, m, true);
    var s' := Next(cfg, s, a);
    LeaderOf(cfg, i, m.seqNo);
    SignsAbove(cfg.ShareOf(i), s.Given(i), m);
    LocalStep(cfg, s, a, i);
    AnswerIsSigned(cfg, s, a);
    DeliverGrows(cfg, s, a);
    forall j | cfg.Honest(j) ensures Windowed(cfg.ShareOf(j), s'.Given(j)) {
      LocalStep(cfg, s, a, j);
    }
  }

  /** The net after the signers `lo + 1` to `hi`, and only they, were told. */
  ghost predicate ToldRange(cfg: Config, s: Net, s': Net, lo: nat, hi: nat, m: SignedReport) {
    && AllWindowed(cfg, s') && Grew(cfg, s, s')
    && (forall i :: lo < i <= hi ==> Told(cfg, s', i, m) && s'.Given(i) == s.Given(i) + [Input(m, true)])
    && (forall i: nat :: !(lo < i <= hi) ==> s'.Given(i) == s.Given(i))
  }

  /** If `m` and everything before names its number, so does everything after. */
  ghost predicate KeepsNames(actions: seq<Action>, longer: seq<Action>, m: SignedReport) {
    forall seqOf: Data -> nat :: Named(seqOf, actions) && Names(seqOf, m) ==> Named(seqOf, longer)
  }

  lemma {:induction false} Tell(cfg: Config, actions: seq<Action>, lo: nat, hi: nat, m: SignedReport) returns (longer: seq<Action>)
    requires cfg.Valid() && Possible(cfg, actions) && AllWindowed(cfg, After(cfg, actions)) && lo <= hi
    requires forall i :: lo < i <= hi ==> Fresh(cfg, After(cfg, actions), i, m)
    ensures Possible(cfg, longer) && ToldRange(cfg, After(cfg, actions), After(cfg, longer), lo, hi, m)
    ensures KeepsNames(actions, longer, m)
    decreases hi
  {
    var s := After(cfg, actions);
    if lo == hi {
      longer := actions;
    } else {
      longer := Tell(cfg, actions, lo, hi - 1, m);
      var s1, a := After(cfg, longer), Deliver(hi, m, true);
      assert Fresh(cfg, s, hi, m);
      assert Fresh(cfg, s1, hi, m);
      TellStep(cfg, s1, hi, m);
      Extend(cfg, longer, a);
      ToldOneMore(cfg, s, s1, Next(cfg, s1, a), lo, hi, m);
      OneMoreNamed(actions, longer, a, m);
      longer := longer + [a];
    }
  }

  lemma {:induction false} OneMoreNamed(actions: seq<Action>, longer: seq<Action>, a: Action, m: SignedReport)
    requires KeepsNames(actions, longer, m) && (!a.Inject? ==> a.report == m)
    ensures KeepsNames(actions, longer + [a], m)
  {
    forall seqOf: Data -> nat | Named(seqOf, actions) && Names(seqOf, m) ensures Named(seqOf, longer + [a]) {
      assert Named(seqOf, longer);
    }
  }

  lemma {:induction false} TellOne(cfg: Config, actions: seq<Action>, i: nat, m: SignedReport) returns (longer: seq<Action>)
    requires cfg.Valid() && Possible(cfg, actions) && AllWindowed(cfg, After(cfg, actions)) && i > 0
    requires Fresh(cfg, After(cfg, actions), i, m)
    ensures Possible(cfg, longer) && ToldRange(cfg, After(cfg, actions), After(cfg, longer), i - 1, i, m)
    ensures KeepsNames(actions, longer, m)
  {
    longer := Tell(cfg, actions, i - 1, i, m);
  }

  lemma {:induction false} ToldOneMore(cfg: Config, s: Net, s1: Net, s2: Net, lo: nat, hi: nat, m: SignedReport)
    requires lo < hi && ToldRange(cfg, s, s1, lo, hi - 1, m)
    requires AllWindowed(cfg, s2) && Told(cfg, s2, hi, m) && Grew(cfg, s1, s2)
    requires s2.Given(hi) == s1.Given(hi) + [Input(m, true)] && forall j :: j != hi ==> s2.Given(j) == s1.Given(j)
    ensures ToldRange(cfg, s, s2, lo, hi, m)
  {
    assert Grew(cfg, s, s2);
  }

  // --- a report injected by a Byzantine leader -----------------------------------------------------------------

  /** The leader's signed report; signer 1 leads the multiples of n. */
  function Led(q: nat, d: Data): SignedReport {
    Stamped(q, Body("", d, Partial(1, d), 1))
  }

  lemma {:induction false} OneLeads(cfg: Config, k: nat)
    requires cfg.Valid()
    ensures cfg.Leader(k * cfg.n) == 1
    decreases k
  {
    if k > 0 {
      OneLeads(cfg, k - 1);
      assert k * cfg.n == (k - 1) * cfg.n + cfg.n;
    }
  }

  /** Both reports are said, and nothing has been delivered. */
  lemma {:induction false} TwoInjected(cfg: Config, a: SignedReport, b: SignedReport) returns (actions: seq<Action>)
    requires cfg.Valid() && 1 in cfg.byz && a.body.sig.Partial? && b.body.sig.Partial? && a.body.sig.maker == b.body.sig.maker == 1
    ensures Possible(cfg, actions) && After(cfg, actions) == Net(map[], [], {a, b}) && AllWindowed(cfg, After(cfg, actions))
  {
    Extend(cfg, [], Inject(a));
    Extend(cfg, [Inject(a)], Inject(b));
    assert [] + [Inject(a)] == [Inject(a)];
    actions := [Inject(a)] + [Inject(b)];
    assert {} + {a} + {b} == {a, b};
  }

  lemma {:induction false} LedIsFresh(cfg: Config, s: Net, lo: nat, hi: nat, m: SignedReport)
    requires cfg.Valid() && m in s.soup && m.seqNo > 0 && m == Led(m.seqNo, m.body.data) && cfg.Leader(m.seqNo) == 1
    requires forall i :: lo < i <= hi ==> cfg.Honest(i) && i != 1 && Below(s.Given(i), m.seqNo)
    ensures forall i :: lo < i <= hi ==> Fresh(cfg, s, i, m)
  {
    forall i | lo < i <= hi ensures Fresh(cfg, s, i, m) {
      assert 1 in cfg.Members();
    }
  }

  /** Honest signers, all given the same so far, are told a further report of the leader. */
  lemma {:induction false} TellLed(cfg: Config, actions: seq<Action>, lo: nat, hi: nat, m: SignedReport, given: seq<Input>) returns (longer: seq<Action>)
    requires cfg.Valid() && Possible(cfg, actions) && AllWindowed(cfg, After(cfg, actions)) && lo <= hi
    requires m in After(cfg, actions).soup && m == Led(m.seqNo, m.body.data) && m.seqNo > 0 && cfg.Leader(m.seqNo) == 1
    requires Below(given, m.seqNo) && forall i :: lo < i <= hi ==> cfg.Honest(i) && i != 1 && After(cfg, actions).Given(i) == given
    ensures Possible(cfg, longer) && ToldRange(cfg, After(cfg, actions), After(cfg, longer), lo, hi, m)
    ensures KeepsNames(actions, longer, m)
    ensures forall i :: lo < i <= hi ==> After(cfg, longer).Given(i) == given + [Input(m, true)]
  {
    LedIsFresh(cfg, After(cfg, actions), lo, hi, m);
    longer := Tell(cfg, actions, lo, hi, m);
  }

  // --- one more Byzantine signer breaks agreement ------------------------------------------------------------

  lemma {:induction false} IdsSplit(n: nat, mid: nat, b: nat)
    requires b <= mid <= n
    ensures |Ids(n) - (Ids(mid) - Ids(b))| == n - (mid - b)
  {
    assert Ids(mid) == (Ids(mid) - Ids(b)) + Ids(b);
    assert Ids(n) == (Ids(n) - (Ids(mid) - Ids(b))) + (Ids(mid) - Ids(b));
  }

  ghost predicate Quorate(cfg: Config, s: Net, q: nat, d: Data) {
    |Backers(cfg, s, q, d)| >= Threshold(cfg.n)
  }

  lemma {:induction false} BackedBy(cfg: Config, s: Net, m: SignedReport, group: set<nat>)
    requires cfg.Valid() && group <= cfg.Members() && |group| >= Threshold(cfg.n)
    requires forall i :: i in group ==> i in cfg.byz || Told(cfg, s, i, m)
    ensures Quorate(cfg, s, m.seqNo, m.body.data)
  {
    SubsetSize(group, Backers(cfg, s, m.seqNo, m.body.data));
  }

  /** With n - 2f or more Byzantine signers, one of them the leader, the honest rest can be told two
      different data, each by enough of them to complete a quorum. */
  lemma {:induction false} SplitRun(n: nat, b: nat, d: Data, d': Data) returns (actions: seq<Action>)
    requires 0 < n - 2 * MaxFaulty(n) <= b <= n
    ensures var cfg := Config(n, Ids(b));
      && cfg.Valid() && Possible(cfg, actions) && AllWindowed(cfg, After(cfg, actions)) && After(cfg, actions).triggers == []
      && Quorate(cfg, After(cfg, actions), n, d) && Quorate(cfg, After(cfg, actions), n, d')
  {
    var cfg, mid := Config(n, Ids(b)), if b < Threshold(n) then Threshold(n) else b;
    var m, m' := Led(n, d), Led(n, d');
    OneLeads(cfg, 1);
    actions := TwoInjected(cfg, m, m');
    actions := TellLed(cfg, actions, b, mid, m, []);
    var s1 := After(cfg, actions);
    actions := TellLed(cfg, actions, mid, n, m', []);
    BothBacked(cfg, s1, After(cfg, actions), b, mid, m, m');
  }

  lemma {:induction false} BothBacked(cfg: Config, s1: Net, s2: Net, b: nat, mid: nat, m: SignedReport, m': SignedReport)
    requires cfg == Config(cfg.n, Ids(b)) && cfg.Valid() && b <= mid <= cfg.n && Threshold(cfg.n) <= mid && mid - b <= MaxFaulty(cfg.n)
    requires (forall i :: b < i <= mid ==> Told(cfg, s1, i, m)) && ToldRange(cfg, s1, s2, mid, cfg.n, m')
    ensures Quorate(cfg, s2, m.seqNo, m.body.data) && Quorate(cfg, s2, m'.seqNo, m'.body.data)
  {
    BackedBy(cfg, s2, m, Ids(mid));
    IdsSplit(cfg.n, mid, b);
    BackedBy(cfg, s2, m', Ids(cfg.n) - (Ids(mid) - Ids(b)));
  }

  /** In no run inside the window, of any n signers of whom b are Byzantine and no number led twice, do
      two different data gather a quorum under one number. */
  ghost predicate AlwaysAgrees(n: nat, b: nat) {
    forall byz, actions, q, d, d' :: Splits(Config(n, byz), b, actions, q, d, d') ==> d == d'
  }

  ghost predicate Splits(cfg: Config, b: nat, actions: seq<Action>, q: nat, d: Data, d': Data) {
    && cfg.Valid() && |cfg.byz| == b && Possible(cfg, actions)
    && AllWindowed(cfg, After(cfg, actions)) && !TriggeredTwice(After(cfg, actions), q)
    && Quorate(cfg, After(cfg, actions), q, d) && Quorate(cfg, After(cfg, actions), q, d')
  }

  /** Exactly how many Byzantine signers agreement tolerates: fewer than n - 2f. */
  lemma {:induction false} AgreementIff(n: nat, b: nat)
    requires 0 < n && b <= n
    ensures AlwaysAgrees(n, b) <==> b < n - 2 * MaxFaulty(n)
  {
    if b < n - 2 * MaxFaulty(n) {
      forall byz, actions, q, d, d' | Splits(Config(n, byz), b, actions, q, d, d') ensures d == d' {
        Agreement(Config(n, byz), actions, q, d, d');
      }
    } else {
      var actions := SplitRun(n, b, "a", "b");
      assert Splits(Config(n, Ids(b)), b, actions, n, "a", "b");
    }
  }

  // --- data under a number they do not name ------------------------------------------------------------------

  /** Without the binding of data to numbers a single Byzantine leader breaks agreement on signatures,
      whatever number the data name: it gets everyone to sign one under n and the other under 2n. */
  lemma {:induction false} UnboundRun(n: nat, d: Data, d': Data) returns (actions: seq<Action>)
    requires n >= 2
    ensures var cfg := Config(n, {1});
      && cfg.Valid() && Possible(cfg, actions) && AllWindowed(cfg, After(cfg, actions))
      && (forall q :: |Faulty(cfg, After(cfg, actions), q)| < n - 2 * MaxFaulty(n))
      && |Gathered(cfg, After(cfg, actions), d)| >= Threshold(n) && |Gathered(cfg, After(cfg, actions), d')| >= Threshold(n)
  {
    var cfg, m, m' := Config(n, {1}), Led(n, d), Led(2 * n, d');
    OneLeads(cfg, 1);
    OneLeads(cfg, 2);
    actions := TwoInjected(cfg, m, m');
    actions := TellBoth(cfg, actions, m, m');
    AllGathered(cfg, After(cfg, actions), m);
    AllGathered(cfg, After(cfg, actions), m');
    assert forall q :: !TriggeredTwice(After(cfg, actions), q);
  }

  lemma {:induction false} TellBoth(cfg: Config, actions: seq<Action>, m: SignedReport, m': SignedReport) returns (longer: seq<Action>)
    requires cfg == Config(cfg.n, {1}) && cfg.Valid() && Possible(cfg, actions) && After(cfg, actions) == Net(map[], [], {m, m'})
    requires m == Led(m.seqNo, m.body.data) && m' == Led(m'.seqNo, m'.body.data) && 0 < m.seqNo < m'.seqNo
    requires cfg.Leader(m.seqNo) == cfg.Leader(m'.seqNo) == 1 && AllWindowed(cfg, After(cfg, actions))
    ensures Possible(cfg, longer)
    ensures var s := After(cfg, longer);
      && AllWindowed(cfg, s) && s.triggers == [] && m in s.soup && m' in s.soup
      && forall i :: 1 < i <= cfg.n ==> Told(cfg, s, i, m) && Told(cfg, s, i, m')
  {
    longer := TellLed(cfg, actions, 1, cfg.n, m, []);
    longer := TellLed(cfg, longer, 1, cfg.n, m', [] + [Input(m, true)]);
  }

  lemma {:induction false} AllGathered(cfg: Config, s: Net, m: SignedReport)
    requires cfg == Config(cfg.n, {1}) && cfg.Valid() && m in s.soup && m == Led(m.seqNo, m.body.data)
    requires forall i :: 1 < i <= cfg.n ==> Told(cfg, s, i, m)
    ensures |Gathered(cfg, s, m.body.data)| >= Threshold(cfg.n)
  {
    forall i | i in cfg.Members() ensures i in Gathered(cfg, s, m.body.data) {
      var r := if i == 1 then m else cfg.ShareOf(i).Sign(m);
      assert i > 1 ==> Told(cfg, s, i, m);
      assert r in s.soup && r.body.data == m.body.data && cfg.ShareOf(1).Validate(r) && r.body.signer == i;
    }
    SubsetSize(cfg.Members(), Gathered(cfg, s, m.body.data));
  }

  // --- what a quorum can say for others ------------------------------------------------------------------------

  /** A quorum of Byzantine signers can start a number in an honest leader's name, so validity needs fewer:
      any other honest signer then signs data that nobody was triggered with. */
  lemma {:induction false} ForgedStart(seqOf: Data -> nat, cfg: Config, q: nat, d: Data, i: nat) returns (actions: seq<Action>)
    requires cfg.Valid() && |cfg.byz| >= Threshold(cfg.n) && q > 0
    requires cfg.Honest(cfg.Leader(q)) && cfg.Honest(i) && i != cfg.Leader(q) && seqOf(d) == q
    ensures Possible(cfg, actions) && AllWindowed(cfg, After(cfg, actions)) && After(cfg, actions).triggers == []
    ensures SignedAt(cfg, After(cfg, actions), i, q, d) && Named(seqOf, actions)
  {
    var leader := cfg.Leader(q);
    var m := Stamped(q, Body("", d, Partial(leader, d), leader));
    var none := After(cfg, []);
    SubsetSize(cfg.byz, Holders(cfg, none, d));
    Extend(cfg, [], Inject(m));
    assert [] + [Inject(m)] == [Inject(m)];
    actions := [Inject(m)];
    assert Fresh(cfg, After(cfg, actions), i, m);
    actions := TellOne(cfg, actions, i, m);
    assert Told(cfg, After(cfg, actions), i, m);
  }

  /** The report that anyone can make for signer `i` once a quorum stands behind `d`. */
  function Own(i: nat, q: nat, d: Data): SignedReport {
    Stamped(q, Body("", d, Partial(i, d), i))
  }

  /** The leader is triggered, and nobody is told yet. */
  lemma {:induction false} LeaderStarts(seqOf: Data -> nat, cfg: Config, m: SignedReport) returns (actions: seq<Action>)
    requires cfg.Valid() && cfg.Honest(1) && m == Led(m.seqNo, m.body.data) && cfg.Leader(m.seqNo) == 1 && Names(seqOf, m)
    ensures Calm(seqOf, cfg, actions) && Told(cfg, After(cfg, actions), 1, m) && After(cfg, actions).inputs == map[]
  {
    assert cfg.ShareOf(1).Sign(m) == m;
    Extend(cfg, [], Trigger(1, m));
    assert [] + [Trigger(1, m)] == [Trigger(1, m)];
    actions := [Trigger(1, m)];
    assert TriggeredAt(After(cfg, actions), 0, 1, m.seqNo, m.body.data);
  }

  /** Trigger the leader, and tell a quorum of signers, itself included. */
  lemma {:induction false} QuorumTold(seqOf: Data -> nat, cfg: Config, m: SignedReport) returns (actions: seq<Action>)
    requires cfg.Valid() && cfg.byz == {} && m == Led(m.seqNo, m.body.data) && cfg.Leader(m.seqNo) == 1 && Names(seqOf, m) && m.seqNo > 0
    ensures Calm(seqOf, cfg, actions) && Derivable(cfg, After(cfg, actions), m.body.data) && m in After(cfg, actions).soup
    ensures forall i :: i > Threshold(cfg.n) ==> After(cfg, actions).Given(i) == []
  {
    actions := LeaderStarts(seqOf, cfg, m);
    var s := After(cfg, actions);
    actions := TellLed(cfg, actions, 1, Threshold(cfg.n), m, []);
    assert Told(cfg, s, 1, m);
    ToldAreHolders(cfg, After(cfg, actions), Threshold(cfg.n), m);
  }

  lemma {:induction false} ToldAreHolders(cfg: Config, s: Net, k: nat, m: SignedReport)
    requires cfg.Valid() && Threshold(cfg.n) <= k <= cfg.n && forall i :: 1 <= i <= k ==> Told(cfg, s, i, m)
    ensures Derivable(cfg, s, m.body.data)
  {
    forall i | i in Ids(k) ensures i in Holders(cfg, s, m.body.data) {
      assert Told(cfg, s, i, m);
    }
    SubsetSize(Ids(k), Holders(cfg, s, m.body.data));
  }

  /** A signer whose part is derived and delivered to it before the leader's report never signs, even in a
      network without Byzantine members, inside the window and with all data named. */
  lemma {:induction false} SilencedRun(seqOf: Data -> nat, n: nat, d: Data) returns (actions: seq<Action>)
    requires n >= 4 && seqOf(d) == n
    ensures Named(seqOf, actions)
    ensures var cfg := Config(n, {});
      && cfg.Valid() && Possible(cfg, actions) && AllWindowed(cfg, After(cfg, actions)) && cfg.Honest(n) && cfg.Leader(n) != n
      && LeaderAsked(cfg.ShareOf(n), After(cfg, actions).Given(n), n) && !HasSigned(Local(cfg, After(cfg, actions), n), n)
  {
    var cfg, m, own := Config(n, {}), Led(n, d), Own(n, n, d);
    OneLeads(cfg, 1);
    actions := QuorumTold(seqOf, cfg, m);
    actions := SayOwn(seqOf, cfg, actions, own);
    BothValid(cfg, n, own, m);
    actions := SilenceOne(seqOf, cfg, actions, n, own, m);
  }

  lemma {:induction false} InjectKeeps(cfg: Config, s: Net, m: SignedReport)
    ensures var s' := Next(cfg, s, Inject(m));
      && (forall i :: s'.Given(i) == s.Given(i)) && s'.soup == s.soup + {m} && s'.triggers == s.triggers
      && (AllWindowed(cfg, s) ==> AllWindowed(cfg, s')) && Grew(cfg, s, s')
  {
    var a := Inject(m);
    forall i, r | Told(cfg, s, i, r) ensures Told(cfg, Next(cfg, s, a), i, r) {
      SignedAtStays(cfg, s, a, i, r.seqNo, r.body.data);
    }
  }

  lemma {:induction false} BothValid(cfg: Config, i: nat, own: SignedReport, m: SignedReport)
    requires cfg.Honest(i) && own == Own(i, own.seqNo, own.body.data) && m == Led(m.seqNo, m.body.data) && 1 in cfg.Members()
    ensures cfg.ShareOf(i).Validate(own) && cfg.ShareOf(i).Validate(m)
  {
  }

  /** Reports that name their number, inside the window. */
  ghost predicate Calm(seqOf: Data -> nat, cfg: Config, actions: seq<Action>)
    requires cfg.Valid()
  {
    Possible(cfg, actions) && Named(seqOf, actions) && AllWindowed(cfg, After(cfg, actions))
  }

  lemma {:induction false} SayOwn(seqOf: Data -> nat, cfg: Config, actions: seq<Action>, own: SignedReport) returns (longer: seq<Action>)
    requires cfg.Valid() && Calm(seqOf, cfg, actions) && own.body.sig.Partial? && Derivable(cfg, After(cfg, actions), own.body.sig.over)
    ensures Calm(seqOf, cfg, longer) && After(cfg, longer).soup == After(cfg, actions).soup + {own}
    ensures forall i :: After(cfg, longer).Given(i) == After(cfg, actions).Given(i)
  {
    InjectKeeps(cfg, After(cfg, actions), own);
    longer := Say(seqOf, cfg, actions, own);
  }

  /** A derived own report and then the leader's, delivered to a signer that was given nothing. */
  lemma {:induction false} SilenceOne(seqOf: Data -> nat, cfg: Config, actions: seq<Action>, i: nat, own: SignedReport, m: SignedReport) returns (longer: seq<Action>)
    requires cfg.Valid() && Calm(seqOf, cfg, actions) && cfg.Honest(i) && After(cfg, actions).Given(i) == []
    requires own in After(cfg, actions).soup && m in After(cfg, actions).soup && Names(seqOf, own) && Names(seqOf, m)
    requires cfg.ShareOf(i).Validate(own) && cfg.ShareOf(i).Validate(m)
    requires own.body.signer == i != cfg.Leader(m.seqNo) == m.body.signer && own.seqNo == m.seqNo > 0
    ensures Calm(seqOf, cfg, longer)
    ensures LeaderAsked(cfg.ShareOf(i), After(cfg, longer).Given(i), m.seqNo) && !HasSigned(Local(cfg, After(cfg, longer), i), m.seqNo)
  {
    longer := GiveOne(seqOf, cfg, actions, i, [], own);
    longer := GiveOne(seqOf, cfg, longer, i, [] + [Input(own, true)], m);
    Silenced(cfg, After(cfg, longer), i, own, m);
  }

  /** Signer `i`, given the listed reports so far, is given `m`. */
  lemma {:induction false} GiveOne(seqOf: Data -> nat, cfg: Config, actions: seq<Action>, i: nat, given: seq<Input>, m: SignedReport) returns (longer: seq<Action>)
    requires cfg.Valid() && Calm(seqOf, cfg, actions) && cfg.Honest(i) && m in After(cfg, actions).soup && cfg.ShareOf(i).Validate(m)
    requires After(cfg, actions).Given(i) == given && Below(given, m.seqNo + 1) && Names(seqOf, m)
    ensures Calm(seqOf, cfg, longer) && After(cfg, longer).Given(i) == given + [Input(m, true)] && After(cfg, actions).soup <= After(cfg, longer).soup
  {
    GiveStep(cfg, After(cfg, actions), i, m);
    Extend(cfg, actions, Deliver(i, m, true));
    longer := actions + [Deliver(i, m, true)];
  }

  lemma {:induction false} GiveStep(cfg: Config, s: Net, i: nat, m: SignedReport)
    requires cfg.Valid() && AllWindowed(cfg, s) && cfg.Honest(i) && Below(s.Given(i), m.seqNo + 1)
    ensures var s' := Next(cfg, s, Deliver(i, m, true));
      AllWindowed(cfg, s') && s'.Given(i) == s.Given(i) + [Input(m, true)] && s.soup <= s'.soup
  {
    var a := Deliver(i, m, true);
    SoupGrows(cfg, s, a);
    forall j | cfg.Honest(j) ensures Windowed(cfg.ShareOf(j), Next(cfg, s, a).Given(j)) {
      LocalStep(cfg, s, a, j);
      if j == i {
        RunBelow(cfg.ShareOf(i), s.Given(i), m.seqNo + 1);
        RunAppend(cfg.ShareOf(i), s.Given(i), Input(m, true));
      }
    }
  }

  lemma {:induction false} Silenced(cfg: Config, s: Net, i: nat, own: SignedReport, m: SignedReport)
    requires cfg.Valid() && cfg.Honest(i) && AllWindowed(cfg, s) && s.Given(i) == [] + [Input(own, true)] + [Input(m, true)]
    requires own.body.signer == i != cfg.Leader(m.seqNo) == m.body.signer && own.seqNo == m.seqNo > 0
    ensures LeaderAsked(cfg.ShareOf(i), s.Given(i), m.seqNo) && !HasSigned(Local(cfg, s, i), m.seqNo)
  {
    var share, given, q := cfg.ShareOf(i), s.Given(i), m.seqNo;
    assert given == [Input(own, true), Input(m, true)];
    LeaderOf(cfg, i, q);
    SignsExactly(share, given, q);
    assert IsLeaderReport(share, given[1].report, q);
    forall j | 0 <= j < 2 && IsLeaderReport(share, given[j].report, q) ensures OwnGiven(share, given[..j], q) {
      assert given[..1][0].report == own;
      assert IsOwnReport(share, given[..1][0].report, q);
    }
  }
}

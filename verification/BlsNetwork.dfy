/** The network of signers: any interleaving of triggered reports, deliveries and injected messages.
    Byzantine members and outsiders may say anything they can compute: partial signatures of Byzantine
    members, those that honest members made, and, the keys being shares of one polynomial with as many
    coefficients as a quorum has members, every signature on data that a quorum stands behind. */
module BlsNetwork {
  import opened Options
  import opened Quorum
  import opened BlsNode
  import opened BlsSigning

  /** The ids 1..n. */
  function Ids(n: nat): (s: set<nat>)
    ensures |s| == n && forall i :: i in s <==> 1 <= i <= n
  {
    if n == 0 then {} else Ids(n - 1) + {n}
  }

  /** Signers 1..n, some of them Byzantine. */
  datatype Config = Config(n: nat, byz: set<nat>)
  {
    ghost predicate Valid() {
      n > 0 && byz <= Members()
    }

    function Members(): set<nat> {
      Ids(n)
    }

    predicate Honest(i: nat) {
      1 <= i <= n && i !in byz
    }

    function ShareOf(i: nat): Share {
      Share(i, Members())
    }

    function Leader(q: nat): nat
      requires n > 0
    {
      ShareOf(1).Leader(q)
    }
  }

  datatype Action =
    | Trigger(i: nat, report: SignedReport)
    | Deliver(i: nat, report: SignedReport, sent: bool)
    | Inject(report: SignedReport)

  /** What each honest signer was given, what was triggered, and every message ever broadcast. */
  datatype Net = Net(inputs: map<nat, seq<Input>>, triggers: seq<(nat, SignedReport)>, soup: set<SignedReport>)
  {
    function Given(i: nat): seq<Input> {
      if i in inputs then inputs[i] else []
    }
  }

  function Local(cfg: Config, s: Net, i: nat): (t: Trace)
    requires cfg.Honest(i)
    ensures t.buf.Valid()
  {
    Run(cfg.ShareOf(i), s.Given(i))
  }

  /** The `j`th trigger made signer `i` sign data `d` under number `q`. */
  predicate TriggeredAt(s: Net, j: int, i: nat, q: nat, d: Data) {
    0 <= j < |s.triggers| && s.triggers[j].0 == i && s.triggers[j].1.seqNo == q && s.triggers[j].1.body.data == d
  }

  predicate AnsweredAt(mine: seq<SignedReport>, j: int, q: nat, d: Data) {
    0 <= j < |mine| && mine[j].seqNo == q && mine[j].body.data == d
  }

  /** Signer `i` put its signature on a report numbered `q` with data `d`. */
  ghost predicate SignedAt(cfg: Config, s: Net, i: nat, q: nat, d: Data)
    requires cfg.Honest(i)
  {
    (exists j :: TriggeredAt(s, j, i, q, d)) || (exists j :: AnsweredAt(Local(cfg, s, i).mine, j, q, d))
  }

  ghost predicate Issued(cfg: Config, s: Net, i: nat, d: Data)
    requires cfg.Honest(i)
  {
    exists q :: SignedAt(cfg, s, i, q, d)
  }

  /** The members who signed data `d`, or may have: the Byzantine ones. */
  ghost function Holders(cfg: Config, s: Net, d: Data): set<nat> {
    set i | i in cfg.Members() && (cfg.Honest(i) ==> Issued(cfg, s, i, d))
  }

  /** As many signatures on `d` as the key polynomial has coefficients give all the others. */
  ghost predicate Derivable(cfg: Config, s: Net, d: Data) {
    |Holders(cfg, s, d)| >= Threshold(cfg.n)
  }

  /** Signer `k`'s part on `d` can be said. */
  ghost predicate Obtainable(cfg: Config, s: Net, k: nat, d: Data) {
    cfg.Honest(k) ==> Issued(cfg, s, k, d) || Derivable(cfg, s, d)
  }

  ghost predicate Enabled(cfg: Config, s: Net, a: Action)
    requires cfg.Valid()
  {
    match a
    case Trigger(i, report) =>
      cfg.Honest(i) && cfg.Leader(report.seqNo) == i
    case Deliver(i, report, sent) =>
      cfg.Honest(i) && report in s.soup && cfg.ShareOf(i).Validate(report)
    case Inject(report) =>
      report.body.sig.Partial? ==> Obtainable(cfg, s, report.body.sig.maker, report.body.sig.over)
  }

  function Next(cfg: Config, s: Net, a: Action): Net {
    match a
    case Trigger(i, report) =>
      s.(triggers := s.triggers + [(i, report)], soup := s.soup + {cfg.ShareOf(i).Sign(report)})
    case Deliver(i, report, sent) =>
      if !cfg.Honest(i) then s else
        var h := Handle(cfg.ShareOf(i), Local(cfg, s, i).buf, report, sent);
        s.(inputs := s.inputs[i := s.Given(i) + [Input(report, sent)]],
           soup := s.soup + (if h.mine.Some? && sent then {h.mine.value} else {}) + (if h.recovered.Some? then {h.recovered.value} else {}))
    case Inject(report) =>
      s.(soup := s.soup + {report})
  }

  /** The network after a run from the start. */
  function After(cfg: Config, actions: seq<Action>): Net {
    if actions == [] then Net(map[], [], {}) else
      Next(cfg, After(cfg, actions[..|actions| - 1]), actions[|actions| - 1])
  }

  ghost predicate Possible(cfg: Config, actions: seq<Action>)
    requires cfg.Valid()
  {
    actions == [] ||
    var n := |actions| - 1;
    Possible(cfg, actions[..n]) && Enabled(cfg, After(cfg, actions[..n]), actions[n])
  }

  // --- what every step keeps ------------------------------------------------------------------------

  /** Everything a signer was given was broadcast, and is valid. */
  ghost predicate GivenWell(cfg: Config, s: Net, i: nat)
    requires cfg.Honest(i)
  {
    ValidFrom(cfg.ShareOf(i), s.soup, s.Given(i))
  }

  ghost predicate ValidFrom(share: Share, soup: set<SignedReport>, inputs: seq<Input>) {
    forall j :: 0 <= j < |inputs| ==> inputs[j].report in soup && share.Validate(inputs[j].report)
  }

  /** No honest signature is in circulation that its owner did not make, unless a quorum stands behind
      the same data. */
  ghost predicate Unforged(cfg: Config, s: Net, m: SignedReport) {
    m.body.sig.Partial? ==> Obtainable(cfg, s, m.body.sig.maker, m.body.sig.over)
  }

  ghost predicate Inv(cfg: Config, s: Net)
    requires cfg.Valid()
  {
    && (forall i :: cfg.Honest(i) ==> GivenWell(cfg, s, i))
    && (forall j :: 0 <= j < |s.triggers| ==> cfg.Leader(s.triggers[j].1.seqNo) == s.triggers[j].0)
    && (forall m :: m in s.soup ==> Unforged(cfg, s, m))
  }

  lemma {:induction false} LocalStep(cfg: Config, s: Net, a: Action, i: nat)
    requires cfg.Honest(i)
    ensures var s' := Next(cfg, s, a);
            if a.Deliver? && a.i == i then
              && s'.Given(i) == s.Given(i) + [Input(a.report, a.sent)]
              && Local(cfg, s', i) == Step(cfg.ShareOf(i), Local(cfg, s, i), Input(a.report, a.sent))
            else
              s'.Given(i) == s.Given(i) && Local(cfg, s', i) == Local(cfg, s, i)
  {
    if a.Deliver? && a.i == i {
      RunAppend(cfg.ShareOf(i), s.Given(i), Input(a.report, a.sent));
    }
  }

  lemma {:induction false} SignedAtStays(cfg: Config, s: Net, a: Action, i: nat, q: nat, d: Data)
    requires cfg.Honest(i) && SignedAt(cfg, s, i, q, d)
    ensures SignedAt(cfg, Next(cfg, s, a), i, q, d)
  {
    var s' := Next(cfg, s, a);
    LocalStep(cfg, s, a, i);
    if j :| TriggeredAt(s, j, i, q, d) {
      assert TriggeredAt(s', j, i, q, d);
    } else {
      var j :| AnsweredAt(Local(cfg, s, i).mine, j, q, d);
      assert AnsweredAt(Local(cfg, s', i).mine, j, q, d);
    }
  }

  lemma {:induction false} UnforgedStays(cfg: Config, s: Net, a: Action, m: SignedReport)
    requires Unforged(cfg, s, m)
    ensures Unforged(cfg, Next(cfg, s, a), m)
  {
    if m.body.sig.Partial? && cfg.Honest(m.body.sig.maker) {
      if Issued(cfg, s, m.body.sig.maker, m.body.sig.over) {
        IssuedStays(cfg, s, a, m.body.sig.maker, m.body.sig.over);
      } else {
        DerivableStays(cfg, s, a, m.body.sig.over);
      }
    }
  }

  lemma {:induction false} IssuedStays(cfg: Config, s: Net, a: Action, i: nat, d: Data)
    requires cfg.Honest(i) && Issued(cfg, s, i, d)
    ensures Issued(cfg, Next(cfg, s, a), i, d)
  {
    var q :| SignedAt(cfg, s, i, q, d);
    SignedAtStays(cfg, s, a, i, q, d);
  }

  lemma {:induction false} DerivableStays(cfg: Config, s: Net, a: Action, d: Data)
    requires Derivable(cfg, s, d)
    ensures Derivable(cfg, Next(cfg, s, a), d)
  {
    forall i | i in Holders(cfg, s, d) ensures i in Holders(cfg, Next(cfg, s, a), d) {
      if cfg.Honest(i) {
        IssuedStays(cfg, s, a, i, d);
      }
    }
    SubsetSize(Holders(cfg, s, d), Holders(cfg, Next(cfg, s, a), d));
  }

  /** A message new to the network was made by its signer in this very step, or could be made. */
  lemma {:induction false} NewMessageUnforged(cfg: Config, s: Net, a: Action, m: SignedReport)
    requires cfg.Valid() && Enabled(cfg, s, a) && m in Next(cfg, s, a).soup && m !in s.soup
    ensures Unforged(cfg, Next(cfg, s, a), m)
  {
    match a
    case Trigger(i, report) =>
      var s' := Next(cfg, s, a);
      assert TriggeredAt(s', |s.triggers|, i, report.seqNo, report.body.data);
      assert SignedAt(cfg, s', i, report.seqNo, report.body.data);
    case Deliver(i, report, sent) =>
      HandleSignatures(cfg.ShareOf(i), Local(cfg, s, i).buf, report, sent);
      if m.body.sig.Partial? {
        AnswerIsSigned(cfg, s, a);
      }
    case Inject(report) =>
      UnforgedStays(cfg, s, a, m);
  }

  lemma {:induction false} AnswerIsSigned(cfg: Config, s: Net, a: Action)
    requires a.Deliver? && cfg.Honest(a.i) && Handle(cfg.ShareOf(a.i), Local(cfg, s, a.i).buf, a.report, a.sent).mine.Some?
    ensures SignedAt(cfg, Next(cfg, s, a), a.i, a.report.seqNo, a.report.body.data)
  {
    LocalStep(cfg, s, a, a.i);
    HandleSignatures(cfg.ShareOf(a.i), Local(cfg, s, a.i).buf, a.report, a.sent);
    assert AnsweredAt(Local(cfg, Next(cfg, s, a), a.i).mine, |Local(cfg, s, a.i).mine|, a.report.seqNo, a.report.body.data);
  }

  lemma {:induction false} ValidFromMore(share: Share, soup: set<SignedReport>, soup': set<SignedReport>, inputs: seq<Input>, i: Input)
    requires soup <= soup' && ValidFrom(share, soup, inputs)
    ensures ValidFrom(share, soup', inputs)
    ensures i.report in soup && share.Validate(i.report) ==> ValidFrom(share, soup', inputs + [i])
  {
  }

  lemma {:induction false} GivenStays(cfg: Config, s: Net, a: Action, i: nat)
    requires cfg.Valid() && Enabled(cfg, s, a) && cfg.Honest(i) && GivenWell(cfg, s, i)
    ensures GivenWell(cfg, Next(cfg, s, a), i)
  {
    var share, given, s' := cfg.ShareOf(i), s.Given(i), Next(cfg, s, a);
    LocalStep(cfg, s, a, i);
    SoupGrows(cfg, s, a);
    if a.Deliver? && a.i == i {
      var input := Input(a.report, a.sent);
      ValidFromMore(share, s.soup, s'.soup, given, input);
    } else {
      assert s'.Given(i) == given;
      forall j | 0 <= j < |given| ensures given[j].report in s'.soup && share.Validate(given[j].report) {}
    }
  }

  lemma {:induction false} SoupGrows(cfg: Config, s: Net, a: Action)
    ensures s.soup <= Next(cfg, s, a).soup
  {
  }

  lemma {:induction false} InvStep(cfg: Config, s: Net, a: Action)
    requires cfg.Valid() && Inv(cfg, s) && Enabled(cfg, s, a)
    ensures Inv(cfg, Next(cfg, s, a))
  {
    var s' := Next(cfg, s, a);
    forall i | cfg.Honest(i) ensures GivenWell(cfg, s', i) {
      GivenStays(cfg, s, a, i);
    }
    forall m | m in s'.soup ensures Unforged(cfg, s', m) {
      if m in s.soup {
        UnforgedStays(cfg, s, a, m);
      } else {
        NewMessageUnforged(cfg, s, a, m);
      }
    }
  }

  lemma {:induction false} InvHolds(cfg: Config, actions: seq<Action>)
    requires cfg.Valid() && Possible(cfg, actions)
    ensures Inv(cfg, After(cfg, actions))
    decreases |actions|
  {
    if actions != [] {
      var n := |actions| - 1;
      InvHolds(cfg, actions[..n]);
      InvStep(cfg, After(cfg, actions[..n]), actions[n]);
    }
  }

  // --- discipline ----------------------------------------------------------------------------------------

  /** No honest signer is given a report a whole buffer size or more below what it holds. */
  ghost predicate AllWindowed(cfg: Config, s: Net) {
    forall i :: cfg.Honest(i) ==> Windowed(cfg.ShareOf(i), s.Given(i))
  }

  /** Every honest signer answers each number at most once, after its leader and on its data. */
  ghost predicate AllDisciplined(cfg: Config, s: Net) {
    forall i :: cfg.Honest(i) ==> Disciplined(cfg.ShareOf(i), s.Given(i))
  }

  lemma {:induction false} WindowedIsDisciplined(cfg: Config, s: Net)
    requires AllWindowed(cfg, s)
    ensures AllDisciplined(cfg, s)
  {
    forall i | cfg.Honest(i) ensures Disciplined(cfg.ShareOf(i), s.Given(i)) {
      SignsOnceAfterLeader(cfg.ShareOf(i), s.Given(i));
    }
  }

  // --- agreement ---------------------------------------------------------------------------------------

  lemma {:induction false} LeaderOf(cfg: Config, i: nat, q: nat)
    requires cfg.Valid() && cfg.Honest(i)
    ensures cfg.ShareOf(i).Valid() && cfg.ShareOf(i).Leader(q) == cfg.Leader(q)
  {
  }

  /** The honest leader of `q` was made to start it with two different data. */
  ghost predicate TriggeredTwice(s: Net, q: nat) {
    exists j, k, i, d, d' :: TriggeredAt(s, j, i, q, d) && TriggeredAt(s, k, i, q, d') && d != d'
  }

  /** Those who may have put two different data under `q`. */
  ghost function Faulty(cfg: Config, s: Net, q: nat): set<nat>
    requires cfg.Valid()
  {
    if TriggeredTwice(s, q) then cfg.byz + {cfg.Leader(q)} else cfg.byz
  }

  /** The leader of a number signs it when triggered, everyone else when answering. */
  lemma {:induction false} HowSigned(cfg: Config, s: Net, i: nat, q: nat, d: Data)
    requires cfg.Valid() && Inv(cfg, s) && cfg.Honest(i) && SignedAt(cfg, s, i, q, d)
    ensures if i == cfg.Leader(q) then exists j :: TriggeredAt(s, j, i, q, d)
            else exists j :: AnsweredAt(Local(cfg, s, i).mine, j, q, d)
  {
    LeaderOf(cfg, i, q);
    if j :| TriggeredAt(s, j, i, q, d) {
      assert cfg.Leader(s.triggers[j].1.seqNo) == s.triggers[j].0;
    } else {
      var j :| AnsweredAt(Local(cfg, s, i).mine, j, q, d);
      NeverAnswersAsLeader(cfg.ShareOf(i), s.Given(i), j);
    }
  }

  lemma {:induction false} AnswersOneData(mine: seq<SignedReport>, j: int, k: int, q: nat, d: Data, d': Data)
    requires DistinctNumbers(mine) && AnsweredAt(mine, j, q, d) && AnsweredAt(mine, k, q, d')
    ensures d == d'
  {
  }

  /** An honest signer outside that set signs one data per number. */
  lemma {:induction false} SignsOneData(cfg: Config, s: Net, i: nat, q: nat, d: Data, d': Data)
    requires cfg.Valid() && Inv(cfg, s) && cfg.Honest(i) && i !in Faulty(cfg, s, q) && Disciplined(cfg.ShareOf(i), s.Given(i))
    requires SignedAt(cfg, s, i, q, d) && SignedAt(cfg, s, i, q, d')
    ensures d == d'
  {
    HowSigned(cfg, s, i, q, d);
    HowSigned(cfg, s, i, q, d');
    if i == cfg.Leader(q) {
      var j :| TriggeredAt(s, j, i, q, d);
      var k :| TriggeredAt(s, k, i, q, d');
    } else {
      var mine := Local(cfg, s, i).mine;
      var j :| AnsweredAt(mine, j, q, d);
      var k :| AnsweredAt(mine, k, q, d');
      AnswersOneData(mine, j, k, q, d, d');
    }
  }

  /** All who may stand behind data `d` under number `q`: the Byzantine and those who signed it. */
  ghost function Backers(cfg: Config, s: Net, q: nat, d: Data): set<nat> {
    set i | i in cfg.Members() && (cfg.Honest(i) ==> SignedAt(cfg, s, i, q, d))
  }

  /** Agreement: in every run inside the window, no two different data gather a quorum under the same
      number, as long as fewer than n - 2f signers, which is at least f + 1, are Byzantine or led the
      number twice. */
  lemma {:induction false} Agreement(cfg: Config, actions: seq<Action>, q: nat, d: Data, d': Data)
    requires cfg.Valid() && Possible(cfg, actions) && AllWindowed(cfg, After(cfg, actions))
    requires |Faulty(cfg, After(cfg, actions), q)| < cfg.n - 2 * MaxFaulty(cfg.n)
    requires |Backers(cfg, After(cfg, actions), q, d)| >= Threshold(cfg.n)
    requires |Backers(cfg, After(cfg, actions), q, d')| >= Threshold(cfg.n)
    ensures d == d'
  {
    InvHolds(cfg, actions);
    WindowedIsDisciplined(cfg, After(cfg, actions));
    DisciplineAgrees(cfg, After(cfg, actions), q, d, d');
  }

  /** The same for any state of disciplined signers, inside the window or not. */
  lemma {:induction false} DisciplineAgrees(cfg: Config, s: Net, q: nat, d: Data, d': Data)
    requires cfg.Valid() && Inv(cfg, s) && AllDisciplined(cfg, s)
    requires |Faulty(cfg, s, q)| < cfg.n - 2 * MaxFaulty(cfg.n)
    requires |Backers(cfg, s, q, d)| >= Threshold(cfg.n) && |Backers(cfg, s, q, d')| >= Threshold(cfg.n)
    ensures d == d'
  {
    forall i, e, e' | cfg.Honest(i) && i !in Faulty(cfg, s, q) && SignedAt(cfg, s, i, q, e) && SignedAt(cfg, s, i, q, e') ensures e == e' {
      SignsOneData(cfg, s, i, q, e, e');
    }
    QuorumsAgree(cfg, s, q, d, d', Faulty(cfg, s, q));
  }

  /** Two quorums behind one number share a signer outside any set of fewer than n - 2f. */
  lemma {:induction false} QuorumsAgree(cfg: Config, s: Net, q: nat, d: Data, d': Data, faulty: set<nat>)
    requires cfg.Valid() && cfg.byz <= faulty && |faulty| < cfg.n - 2 * MaxFaulty(cfg.n)
    requires forall i, e, e' :: cfg.Honest(i) && i !in faulty && SignedAt(cfg, s, i, q, e) && SignedAt(cfg, s, i, q, e') ==> e == e'
    requires |Backers(cfg, s, q, d)| >= Threshold(cfg.n) && |Backers(cfg, s, q, d')| >= Threshold(cfg.n)
    ensures d == d'
  {
    var a, b := Backers(cfg, s, q, d), Backers(cfg, s, q, d');
    assert 1 in cfg.Members();
    QuorumsIntersect(cfg.Members(), a, b);
    var i := Outside(a * b, faulty);
    assert cfg.Honest(i);
  }

  lemma {:induction false} Outside(a: set<nat>, f: set<nat>) returns (i: nat)
    requires |a| > |f|
    ensures i in a && i !in f
  {
    assert !(a <= f) by {
      if a <= f { SubsetSize(a, f); }
    }
    i :| i in a && i !in f;
  }

  lemma {:induction false} SignerBacks(cfg: Config, s: Net, q: nat, d: Data, j: int)
    requires cfg == Config(1, {}) && TriggeredAt(s, j, 1, q, d)
    ensures |Backers(cfg, s, q, d)| >= Threshold(1)
  {
    assert SignedAt(cfg, s, 1, q, d);
    assert Backers(cfg, s, q, d) == {1};
  }

  /** An honest leader signs whatever it is triggered with, so a signer alone in its network can put a
      quorum behind two data under one number without being Byzantine. */
  lemma {:induction false} LeaderSignsTwoData(a: SignedReport, b: SignedReport) returns (cfg: Config, actions: seq<Action>)
    requires a.seqNo == b.seqNo
    ensures cfg == Config(1, {}) && Possible(cfg, actions)
    ensures |Backers(cfg, After(cfg, actions), a.seqNo, a.body.data)| >= Threshold(cfg.n)
    ensures |Backers(cfg, After(cfg, actions), a.seqNo, b.body.data)| >= Threshold(cfg.n)
  {
    cfg, actions := Config(1, {}), [Trigger(1, a), Trigger(1, b)];
    assert actions[..1] == [Trigger(1, a)] && actions[..1][..0] == [];
    var s := After(cfg, actions);
    var none := Net(map[], [], {});
    assert After(cfg, actions[..1]) == Next(cfg, none, Trigger(1, a));
    assert s == Next(cfg, Next(cfg, none, Trigger(1, a)), Trigger(1, b));
    assert s.triggers == [(1, a), (1, b)];
    SignerBacks(cfg, s, a.seqNo, a.body.data, 0);
    SignerBacks(cfg, s, a.seqNo, b.body.data, 1);
  }

  // --- leaders take turns ----------------------------------------------------------------------------------

  /** The leader of the next number is the next signer, the first one after the last. */
  lemma {:induction false} LeadersTakeTurns(cfg: Config, q: nat)
    requires cfg.Valid()
    ensures 1 <= cfg.Leader(q) <= cfg.n && cfg.Leader(0) == 1
    ensures cfg.Leader(q + 1) == if cfg.Leader(q) == cfg.n then 1 else cfg.Leader(q) + 1
    decreases q
  {
    if q >= cfg.n {
      LeadersTakeTurns(cfg, q - cfg.n);
    }
  }

  // --- what is said ------------------------------------------------------------------------------------------

  /** A message that this action puts into circulation: what a trigger signs, what is injected, and of a
      handled report the answer, if its broadcast succeeds, and the reconstructed report. */
  ghost predicate Says(cfg: Config, s: Net, a: Action, m: SignedReport) {
    match a
    case Trigger(i, report) => m == cfg.ShareOf(i).Sign(report)
    case Inject(report) => m == report
    case Deliver(i, report, sent) =>
      && cfg.Honest(i)
      && var h := Handle(cfg.ShareOf(i), Local(cfg, s, i).buf, report, sent);
         (sent && h.mine == Some(m)) || h.recovered == Some(m)
  }

  ghost predicate SaidAt(cfg: Config, actions: seq<Action>, m: SignedReport, j: int) {
    0 <= j < |actions| && Says(cfg, After(cfg, actions[..j]), actions[j], m)
  }

  /** Exactly what circulates after a run. */
  lemma {:induction false} SaidIff(cfg: Config, actions: seq<Action>, m: SignedReport)
    ensures m in After(cfg, actions).soup <==> exists j :: SaidAt(cfg, actions, m, j)
    decreases |actions|
  {
    if actions != [] {
      var n := |actions| - 1;
      SaidIff(cfg, actions[..n], m);
      forall j | 0 <= j < n ensures SaidAt(cfg, actions, m, j) <==> SaidAt(cfg, actions[..n], m, j) {
        assert actions[..n][..j] == actions[..j];
      }
      SaysStep(cfg, After(cfg, actions[..n]), actions[n], m);
      assert SaidAt(cfg, actions, m, n) <==> Says(cfg, After(cfg, actions[..n]), actions[n], m);
    }
  }

  lemma {:induction false} SaysStep(cfg: Config, s: Net, a: Action, m: SignedReport)
    ensures m in Next(cfg, s, a).soup <==> m in s.soup || Says(cfg, s, a, m)
  {
  }

  /** Every report that an honest signer ever reconstructed circulates. */
  lemma {:induction false} ReconstructedIsSaid(cfg: Config, actions: seq<Action>, i: nat, n: nat)
    requires cfg.Honest(i) && n < |Local(cfg, After(cfg, actions), i).recovered|
    ensures Local(cfg, After(cfg, actions), i).recovered[n] in After(cfg, actions).soup
    decreases |actions|
  {
    if actions != [] {
      var k := |actions| - 1;
      var s, a := After(cfg, actions[..k]), actions[k];
      LocalStep(cfg, s, a, i);
      SoupGrows(cfg, s, a);
      if n < |Local(cfg, s, i).recovered| {
        ReconstructedIsSaid(cfg, actions[..k], i, n);
      } else {
        SaysStep(cfg, s, a, Local(cfg, After(cfg, actions), i).recovered[n]);
      }
    }
  }
}

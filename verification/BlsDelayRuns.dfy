/** Runs with late deliveries in which two data gather a quorum under one number, one for each size of
    network, and with them the exact number of Byzantine signers that can be tolerated. */
module BlsDelayRuns {
  import opened Modular
  import opened Ring
  import opened Quorum
  import opened BlsNode
  import opened BlsSigning
  import opened BlsResigning
  import opened BlsNetwork
  import opened BlsGuarantees
  import opened BlsLimits
  import opened BlsDelays

  // --- single steps ------------------------------------------------------------------------------------------

  lemma {:induction false} Give(seqOf: Data -> nat, cfg: Config, actions: seq<Action>, i: nat, m: SignedReport) returns (longer: seq<Action>)
    requires cfg.Valid() && Possible(cfg, actions) && Named(seqOf, actions) && Names(seqOf, m)
    requires cfg.Honest(i) && m in After(cfg, actions).soup && cfg.ShareOf(i).Validate(m)
    ensures Possible(cfg, longer) && Named(seqOf, longer) && Grew(cfg, After(cfg, actions), After(cfg, longer))
    ensures var s, s' := After(cfg, actions), After(cfg, longer);
      s'.Given(i) == s.Given(i) + [Input(m, true)] && forall j :: j != i ==> s'.Given(j) == s.Given(j)
  {
    var a := Deliver(i, m, true);
    Extend(cfg, actions, a);
    DeliverGrows(cfg, After(cfg, actions), a);
    longer := actions + [a];
  }

  /** A report that its honest leader can be triggered with. */
  ghost predicate Leading(seqOf: Data -> nat, cfg: Config, m: SignedReport)
    requires cfg.Valid()
  {
    && Names(seqOf, m) && cfg.Honest(m.body.signer) && cfg.Leader(m.seqNo) == m.body.signer
    && m.body.sig == Partial(m.body.signer, m.body.data)
  }

  lemma {:induction false} Start(seqOf: Data -> nat, cfg: Config, actions: seq<Action>, m: SignedReport) returns (longer: seq<Action>)
    requires cfg.Valid() && Possible(cfg, actions) && Named(seqOf, actions) && Leading(seqOf, cfg, m)
    ensures Possible(cfg, longer) && Named(seqOf, longer)
    ensures var s := After(cfg, actions); After(cfg, longer) == s.(triggers := s.triggers + [(m.body.signer, m)], soup := s.soup + {m})
  {
    var a := Trigger(m.body.signer, m);
    assert cfg.ShareOf(m.body.signer).Sign(m) == m;
    Extend(cfg, actions, a);
    longer := actions + [a];
  }

  // --- networks whose size does not divide the buffer's -----------------------------------------------------

  /** Reports for number n of its leader 1, for number n + 128 of that one's leader, and a late one of `t`
      on other data. */
  datatype Late = Late(n: nat, t: nat, d: Data, e: Data, d': Data)
  {
    function Cfg(): Config { Config(n, {t}) }

    function Next(): nat
      requires n > 0
    {
      Mod(n + BUFFER_SIZE, n) + 1
    }

    function A(): SignedReport { Led(n, d) }

    function B(): SignedReport
      requires n > 0
    {
      Stamped(n + BUFFER_SIZE, Body("", e, Partial(Next(), e), Next()))
    }

    function C(): SignedReport { Stamped(n, Body("", d', Partial(t, d'), t)) }

    ghost predicate Valid() {
      && n >= 4 && BUFFER_SIZE % n != 0 && 1 < t <= n && t != Next() && d != e && d' != e
    }

    /** The number that data name. */
    function SeqOf(): Data -> nat {
      (x: Data) => if x == e then n + BUFFER_SIZE else n
    }
  }

  lemma {:induction false} LateFacts(x: Late)
    requires x.Valid()
    ensures x.Cfg().Valid() && x.Cfg().Leader(x.n) == 1 && x.Cfg().Leader(x.n + BUFFER_SIZE) == x.Next() != 1 && 1 < x.Next() <= x.n
  {
    OneLeads(x.Cfg(), 1);
    if x.Next() == 1 {
      LeadersDiffer(x.Cfg().ShareOf(1), x.n);
    }
  }

  /** All three reports are in circulation, and what matters names its number. */
  ghost predicate Ready(x: Late, actions: seq<Action>)
    requires x.Valid() && x.Cfg().Valid()
  {
    && Possible(x.Cfg(), actions) && Named(x.SeqOf(), actions)
    && After(x.Cfg(), actions).triggers == [(1, x.A()), (x.Next(), x.B())]
    && {x.A(), x.B(), x.C()} <= After(x.Cfg(), actions).soup
  }

  lemma {:induction false} MakeReady(x: Late) returns (actions: seq<Action>)
    requires x.Valid()
    ensures x.Cfg().Valid() && Ready(x, actions) && After(x.Cfg(), actions).inputs == map[]
  {
    LateFacts(x);
    assert Leading(x.SeqOf(), x.Cfg(), x.A()) && Leading(x.SeqOf(), x.Cfg(), x.B());
    actions := Start(x.SeqOf(), x.Cfg(), [], x.A());
    actions := Start(x.SeqOf(), x.Cfg(), actions, x.B());
    actions := Say(x.SeqOf(), x.Cfg(), actions, x.C());
  }

  lemma {:induction false} DeliverReady(x: Late, actions: seq<Action>, i: nat, m: SignedReport) returns (longer: seq<Action>)
    requires x.Valid() && x.Cfg().Valid() && Ready(x, actions) && x.Cfg().Honest(i) && i != 1 && m in {x.A(), x.B(), x.C()}
    ensures Ready(x, longer)
    ensures var s, s' := After(x.Cfg(), actions), After(x.Cfg(), longer);
      s'.Given(i) == s.Given(i) + [Input(m, true)] && forall j :: j != i ==> s'.Given(j) == s.Given(j)
  {
    LateFacts(x);
    assert x.Cfg().ShareOf(i).Validate(m);
    longer := Give(x.SeqOf(), x.Cfg(), actions, i, m);
  }

  /** The signers `lo + 1` to `hi` were given all three reports, in this order. */
  lemma {:induction false} DeliverAll(x: Late, actions: seq<Action>, lo: nat, hi: nat) returns (longer: seq<Action>)
    requires x.Valid() && x.Cfg().Valid() && Ready(x, actions) && 1 <= lo <= hi
    requires forall i :: lo < i <= hi ==> x.Cfg().Honest(i) && After(x.Cfg(), actions).Given(i) == []
    ensures Ready(x, longer)
    ensures forall i :: lo < i <= hi ==> After(x.Cfg(), longer).Given(i) == Three(x.A(), x.B(), x.C())
    ensures forall i: nat :: !(lo < i <= hi) ==> After(x.Cfg(), longer).Given(i) == After(x.Cfg(), actions).Given(i)
    decreases hi
  {
    if lo == hi {
      longer := actions;
    } else {
      longer := DeliverAll(x, actions, lo, hi - 1);
      longer := DeliverThree(x, longer, hi);
    }
  }

  lemma {:induction false} DeliverThree(x: Late, actions: seq<Action>, i: nat) returns (longer: seq<Action>)
    requires x.Valid() && x.Cfg().Valid() && Ready(x, actions) && x.Cfg().Honest(i) && i != 1 && After(x.Cfg(), actions).Given(i) == []
    ensures Ready(x, longer) && After(x.Cfg(), longer).Given(i) == Three(x.A(), x.B(), x.C())
    ensures forall j :: j != i ==> After(x.Cfg(), longer).Given(j) == After(x.Cfg(), actions).Given(j)
  {
    longer := DeliverReady(x, actions, i, x.A());
    longer := DeliverReady(x, longer, i, x.B());
    longer := DeliverReady(x, longer, i, x.C());
    assert [] + [Input(x.A(), true)] + [Input(x.B(), true)] + [Input(x.C(), true)] == Three(x.A(), x.B(), x.C());
  }

  /** Such a signer has signed both data under number n. */
  lemma {:induction false} SignsBoth(x: Late, s: Net, i: nat)
    requires x.Valid() && x.Cfg().Valid() && x.Cfg().Honest(i) && i != 1 && s.Given(i) == Three(x.A(), x.B(), x.C())
    ensures SignedAt(x.Cfg(), s, i, x.n, x.d) && SignedAt(x.Cfg(), s, i, x.n, x.d')
  {
    LateFacts(x);
    var share, mine := x.Cfg().ShareOf(i), Local(x.Cfg(), s, i).mine;
    LeaderOf(x.Cfg(), i, x.n);
    LeaderOf(x.Cfg(), i, x.n + BUFFER_SIZE);
    SlotRecurs(x.n);
    if i == x.Next() {
      SignsTwiceAfterOwn(share, x.A(), x.B(), x.C());
      assert AnsweredAt(mine, 0, x.n, x.d) && AnsweredAt(mine, 1, x.n, x.d');
    } else {
      SignsTwice(share, x.A(), x.B(), x.C());
      assert AnsweredAt(mine, 0, x.n, x.d) && AnsweredAt(mine, 2, x.n, x.d');
    }
  }

  lemma {:induction false} BothQuorate(x: Late, s: Net)
    requires x.Valid() && x.Cfg().Valid() && s.triggers == [(1, x.A()), (x.Next(), x.B())]
    requires forall i :: 1 < i <= x.n && i != x.t ==> s.Given(i) == Three(x.A(), x.B(), x.C())
    ensures Quorate(x.Cfg(), s, x.n, x.d) && Quorate(x.Cfg(), s, x.n, x.d')
  {
    var cfg := x.Cfg();
    assert TriggeredAt(s, 0, 1, x.n, x.d);
    forall i | i in cfg.Members() ensures i in Backers(cfg, s, x.n, x.d) && (i != 1 ==> i in Backers(cfg, s, x.n, x.d')) {
      if cfg.Honest(i) && i != 1 {
        SignsBoth(x, s, i);
      }
    }
    SubsetSize(cfg.Members(), Backers(cfg, s, x.n, x.d));
    SubsetSize(cfg.Members() - {1}, Backers(cfg, s, x.n, x.d'));
  }

  /** With one Byzantine signer and no bound on delays, every honest signer but the leader can be made
      to sign the late report as well. */
  lemma {:induction false} LateRun(x: Late) returns (actions: seq<Action>)
    requires x.Valid() && (x.t == x.n || x.t == 2)
    ensures x.Cfg().Valid() && Ready(x, actions)
    ensures Quorate(x.Cfg(), After(x.Cfg(), actions), x.n, x.d) && Quorate(x.Cfg(), After(x.Cfg(), actions), x.n, x.d')
  {
    actions := MakeReady(x);
    if x.t == x.n {
      actions := DeliverAll(x, actions, 1, x.n - 1);
    } else {
      actions := DeliverAll(x, actions, 2, x.n);
    }
    BothQuorate(x, After(x.Cfg(), actions));
  }

  /** Two reports under a node's own id may differ only in data: its own leading one or a derived one. */
  lemma {:induction false} SignsBothAfterOwn(cfg: Config, s: Net, i: nat, a: SignedReport, b: SignedReport, late: SignedReport)
    requires cfg.Valid() && cfg.Honest(i) && CompetingOwn(cfg.ShareOf(i), a, b, late) && s.Given(i) == Three(a, b, late)
    ensures SignedAt(cfg, s, i, a.seqNo, a.body.data) && SignedAt(cfg, s, i, a.seqNo, late.body.data)
  {
    SignsTwiceAfterOwn(cfg.ShareOf(i), a, b, late);
    var mine := Local(cfg, s, i).mine;
    assert AnsweredAt(mine, 0, a.seqNo, a.body.data) && AnsweredAt(mine, 1, a.seqNo, late.body.data);
  }

  /** A signer that was given `a` is given two reports more. */
  lemma {:induction false} GiveTwoMore(seqOf: Data -> nat, cfg: Config, actions: seq<Action>, i: nat, a: SignedReport, b: SignedReport, late: SignedReport)
    returns (longer: seq<Action>)
    requires cfg.Valid() && Possible(cfg, actions) && Named(seqOf, actions) && Names(seqOf, b) && Names(seqOf, late)
    requires cfg.Honest(i) && b in After(cfg, actions).soup && late in After(cfg, actions).soup
    requires cfg.ShareOf(i).Validate(b) && cfg.ShareOf(i).Validate(late) && After(cfg, actions).Given(i) == [] + [Input(a, true)]
    ensures Possible(cfg, longer) && Named(seqOf, longer) && Grew(cfg, After(cfg, actions), After(cfg, longer))
    ensures After(cfg, longer).Given(i) == Three(a, b, late)
    ensures forall j :: j != i ==> After(cfg, longer).Given(j) == After(cfg, actions).Given(j)
  {
    longer := Give(seqOf, cfg, actions, i, b);
    longer := Give(seqOf, cfg, longer, i, late);
    assert [] + [Input(a, true)] + [Input(b, true)] + [Input(late, true)] == Three(a, b, late);
  }

  // --- two followers that resign on each other's signatures ---------------------------------------------------

  /** A Byzantine leader tells `x` one thing and `y` another; both lead a later number of the slot. */
  datatype Duel = Duel(cfg: Config, seqOf: Data -> nat, x: nat, y: nat,
                       a: SignedReport, a': SignedReport, b: SignedReport, b': SignedReport)
  {
    ghost predicate Valid() {
      && cfg.Valid() && x != y && cfg.Honest(x) && cfg.Honest(y)
      && Told(a) && Told(a') && a.seqNo == a'.seqNo
      && Leading(seqOf, cfg, b) && b.body.signer == x && Later(b)
      && Leading(seqOf, cfg, b') && b'.body.signer == y && Later(b')
    }

    /** A report of a Byzantine leader. */
    ghost predicate Told(m: SignedReport)
      requires cfg.Valid()
    {
      && m.seqNo > 0 && Names(seqOf, m) && m.body.signer == cfg.Leader(m.seqNo)
      && m.body.signer in cfg.byz && m.body.sig == Partial(m.body.signer, m.body.data)
    }

    predicate Later(m: SignedReport) {
      a.seqNo < m.seqNo && Mod(a.seqNo, BUFFER_SIZE) == Mod(m.seqNo, BUFFER_SIZE)
    }

    function OfX(): SignedReport { cfg.ShareOf(x).Sign(a) }

    function OfY(): SignedReport { cfg.ShareOf(y).Sign(a') }
  }

  lemma {:induction false} DuelSaid(u: Duel) returns (actions: seq<Action>)
    requires u.Valid()
    ensures Calm(u.seqOf, u.cfg, actions)
    ensures After(u.cfg, actions) == Net(map[], [] + [(u.x, u.b)] + [(u.y, u.b')], {} + {u.b} + {u.b'} + {u.a} + {u.a'})
  {
    actions := Start(u.seqOf, u.cfg, [], u.b);
    actions := Start(u.seqOf, u.cfg, actions, u.b');
    actions := Say(u.seqOf, u.cfg, actions, u.a);
    actions := Say(u.seqOf, u.cfg, actions, u.a');
  }

  /** Follower `x` is told one of the data and follower `y` the other. */
  lemma {:induction false} DuelTold(u: Duel) returns (actions: seq<Action>)
    requires u.Valid()
    ensures Calm(u.seqOf, u.cfg, actions)
    ensures var s := After(u.cfg, actions);
      && s.triggers == [] + [(u.x, u.b)] + [(u.y, u.b')] && DuelOut(u, s)
      && s.Given(u.x) == [] + [Input(u.a, true)] && s.Given(u.y) == [] + [Input(u.a', true)]
  {
    var zero := DuelSaid(u);
    DuelIsReady(u, After(u.cfg, zero));
    var one := DuelTell(u, zero, u.x, u.a);
    DuelStaysReady(u, After(u.cfg, zero), After(u.cfg, one));
    actions := DuelTell(u, one, u.y, u.a');
    DuelFacts(u, After(u.cfg, zero), After(u.cfg, one), After(u.cfg, actions));
  }

  /** Both data and both later reports are said, and `y` was given nothing. */
  ghost predicate DuelReady(u: Duel, s: Net) {
    && u.a in s.soup && u.a' in s.soup && u.b in s.soup && u.b' in s.soup && s.Given(u.y) == []
    && s.triggers == [] + [(u.x, u.b)] + [(u.y, u.b')]
  }

  lemma {:induction false} DuelIsReady(u: Duel, s: Net)
    requires s == Net(map[], [] + [(u.x, u.b)] + [(u.y, u.b')], {} + {u.b} + {u.b'} + {u.a} + {u.a'})
    ensures DuelReady(u, s) && s.Given(u.x) == []
  {
  }

  lemma {:induction false} DuelStaysReady(u: Duel, s0: Net, s1: Net)
    requires u.Valid() && DuelReady(u, s0) && ToldRange(u.cfg, s0, s1, u.x - 1, u.x, u.a)
    ensures DuelReady(u, s1)
  {
  }

  lemma {:induction false} DuelTell(u: Duel, actions: seq<Action>, i: nat, m: SignedReport) returns (longer: seq<Action>)
    requires u.Valid() && Calm(u.seqOf, u.cfg, actions) && DuelReady(u, After(u.cfg, actions)) && After(u.cfg, actions).Given(i) == []
    requires (i == u.x && m == u.a) || (i == u.y && m == u.a')
    ensures Calm(u.seqOf, u.cfg, longer) && ToldRange(u.cfg, After(u.cfg, actions), After(u.cfg, longer), i - 1, i, m)
  {
    DuelFresh(u, After(u.cfg, actions));
    longer := TellOne(u.cfg, actions, i, m);
  }

  /** All that the followers are still to be given is said. */
  ghost predicate DuelOut(u: Duel, s: Net) {
    u.b in s.soup && u.b' in s.soup && u.OfX() in s.soup && u.OfY() in s.soup
  }

  lemma {:induction false} DuelFacts(u: Duel, s0: Net, s1: Net, s2: Net)
    requires u.Valid() && ToldRange(u.cfg, s0, s1, u.x - 1, u.x, u.a) && ToldRange(u.cfg, s1, s2, u.y - 1, u.y, u.a')
    requires DuelReady(u, s0) && s0.Given(u.x) == []
    ensures s2.triggers == s0.triggers && DuelOut(u, s2)
    ensures s2.Given(u.x) == [] + [Input(u.a, true)] && s2.Given(u.y) == [] + [Input(u.a', true)]
  {
    ToldIsSaid(u.cfg, s0, s1, u.x, u.a);
    ToldIsSaid(u.cfg, s1, s2, u.y, u.a');
  }

  lemma {:induction false} ToldIsSaid(cfg: Config, s: Net, s': Net, i: nat, m: SignedReport)
    requires i > 0 && ToldRange(cfg, s, s', i - 1, i, m)
    ensures cfg.ShareOf(i).Sign(m) in s'.soup && s.soup <= s'.soup && s'.triggers == s.triggers
    ensures s'.Given(i) == s.Given(i) + [Input(m, true)] && forall j: nat :: j != i ==> s'.Given(j) == s.Given(j)
  {
    assert Told(cfg, s', i, m);
  }

  lemma {:induction false} DuelFresh(u: Duel, s: Net)
    requires u.Valid() && DuelReady(u, s)
    ensures s.Given(u.x) == [] ==> Fresh(u.cfg, s, u.x, u.a)
    ensures s.Given(u.y) == [] ==> Fresh(u.cfg, s, u.y, u.a')
  {
  }

  /** A follower is given its own leading report back, and then what the other signed. */
  lemma {:induction false} DuelGive(u: Duel, actions: seq<Action>, i: nat, a: SignedReport, b: SignedReport, late: SignedReport) returns (longer: seq<Action>)
    requires u.Valid() && Possible(u.cfg, actions) && Named(u.seqOf, actions) && u.cfg.Honest(i)
    requires b in After(u.cfg, actions).soup && late in After(u.cfg, actions).soup && After(u.cfg, actions).Given(i) == [] + [Input(a, true)]
    requires u.cfg.ShareOf(i).Validate(b) && Names(u.seqOf, b) && u.cfg.ShareOf(i).Validate(late) && Names(u.seqOf, late)
    ensures Possible(u.cfg, longer) && Named(u.seqOf, longer) && Grew(u.cfg, After(u.cfg, actions), After(u.cfg, longer))
    ensures After(u.cfg, longer).Given(i) == Three(a, b, late)
    ensures forall j :: j != i ==> After(u.cfg, longer).Given(j) == After(u.cfg, actions).Given(j)
  {
    longer := GiveTwoMore(u.seqOf, u.cfg, actions, i, a, b, late);
  }

  lemma {:induction false} DuelRun(u: Duel) returns (actions: seq<Action>)
    requires u.Valid()
    ensures Possible(u.cfg, actions) && Named(u.seqOf, actions)
    ensures var s := After(u.cfg, actions);
      && s.triggers == [] + [(u.x, u.b)] + [(u.y, u.b')]
      && s.Given(u.x) == Three(u.a, u.b, u.OfY()) && s.Given(u.y) == Three(u.a', u.b', u.OfX())
  {
    actions := DuelTold(u);
    DuelValid(u);
    actions := DuelGive(u, actions, u.x, u.a, u.b, u.OfY());
    actions := DuelGive(u, actions, u.y, u.a', u.b', u.OfX());
  }

  lemma {:induction false} DuelValid(u: Duel)
    requires u.Valid()
    ensures forall i :: u.cfg.ShareOf(i).Validate(u.b) && u.cfg.ShareOf(i).Validate(u.b')
    ensures forall i :: u.cfg.ShareOf(i).Validate(u.OfX()) && u.cfg.ShareOf(i).Validate(u.OfY())
    ensures Names(u.seqOf, u.OfX()) && Names(u.seqOf, u.OfY())
  {
  }

  /** Both have then signed both data. */
  lemma {:induction false} DuelSigns(u: Duel, s: Net)
    requires u.Valid() && s.Given(u.x) == Three(u.a, u.b, u.OfY()) && s.Given(u.y) == Three(u.a', u.b', u.OfX())
    ensures forall i :: i in {u.x, u.y} ==>
      SignedAt(u.cfg, s, i, u.a.seqNo, u.a.body.data) && SignedAt(u.cfg, s, i, u.a.seqNo, u.a'.body.data)
  {
    LeaderOf(u.cfg, u.x, u.a.seqNo);
    LeaderOf(u.cfg, u.y, u.a.seqNo);
    SignsBothAfterOwn(u.cfg, s, u.x, u.a, u.b, u.OfY());
    SignsBothAfterOwn(u.cfg, s, u.y, u.a', u.b', u.OfX());
  }

  /** Of three signers the leader of number 3 is Byzantine; the others lead 131 and 259. */
  const TRIO := Duel(Config(3, {1}), TrioNames(), 3, 2, Led(3, "a"), Led(3, "b"), Own(3, 131, "e"), Own(2, 259, "f"))

  function TrioNames(): Data -> nat {
    (x: Data) => if x == "e" then 131 else if x == "f" then 259 else 3
  }

  lemma {:induction false} TrioFacts()
    ensures TRIO.Valid() && Ids(3) == {1, 2, 3}
  {
    assert Ids(3) == {1, 2, 3};
    ModIsRemainder(3, 3);
    ModIsRemainder(131, 3);
    ModIsRemainder(259, 3);
    ModIsRemainder(131, 128);
    ModIsRemainder(259, 128);
    ModIsRemainder(3, 128);
    assert TRIO.Told(TRIO.a) && TRIO.Told(TRIO.a');
    assert Leading(TRIO.seqOf, TRIO.cfg, TRIO.b) && Leading(TRIO.seqOf, TRIO.cfg, TRIO.b');
  }

  lemma {:induction false} TrioRun() returns (actions: seq<Action>)
    ensures TRIO.cfg.Valid() && Possible(TRIO.cfg, actions) && Named(TrioNames(), actions)
    ensures var s := After(TRIO.cfg, actions);
      !TriggeredTwice(s, 3) && Quorate(TRIO.cfg, s, 3, "a") && Quorate(TRIO.cfg, s, 3, "b")
  {
    TrioFacts();
    actions := DuelRun(TRIO);
    var s := After(TRIO.cfg, actions);
    DuelSigns(TRIO, s);
    AllBack(TRIO.cfg, s, 3, "a");
    AllBack(TRIO.cfg, s, 3, "b");
    NotLedTwice(s, TRIO.b, TRIO.b', 3);
  }

  lemma {:induction false} AllBack(cfg: Config, s: Net, q: nat, d: Data)
    requires cfg.Valid() && forall i :: cfg.Honest(i) ==> SignedAt(cfg, s, i, q, d)
    ensures Quorate(cfg, s, q, d)
  {
    assert Backers(cfg, s, q, d) == cfg.Members();
  }

  lemma {:induction false} NotLedTwice(s: Net, b: SignedReport, b': SignedReport, q: nat)
    requires s.triggers == [] + [(b.body.signer, b)] + [(b'.body.signer, b')] && b.seqNo != q && b'.seqNo != q
    ensures !TriggeredTwice(s, q)
  {
  }

  // --- networks whose size divides the buffer's -----------------------------------------------------------------

  /** Of n signers, the first n - 3f are Byzantine, among them the leader 1 of n and n + 128. Of the honest
      ones f are told `d`, f more are the victims, and the last f are told `d'`. */
  datatype Push = Push(n: nat, d: Data, e: Data, d': Data)
  {
    function F(): nat { MaxFaulty(n) }

    ghost predicate Valid() {
      n >= 4 && BUFFER_SIZE % n == 0 && d != e && d' != e
    }

    function Cfg(): Config
      requires n >= 4
    {
      Config(n, Ids(n - 3 * F()))
    }

    function SeqOf(): Data -> nat {
      (x: Data) => if x == e then n + BUFFER_SIZE else n
    }

    function M(): SignedReport { Led(n, d) }

    function M'(): SignedReport { Led(n, d') }

    function E(): SignedReport { Led(n + BUFFER_SIZE, e) }

    /** The late report, of the last signer. */
    function C(): SignedReport { Own(n, n, d') }

    /** What is derived for victim `v`. */
    function Derived(v: nat): SignedReport { Own(v, n + BUFFER_SIZE, e) }

    predicate Victim(i: nat) { n - 2 * F() < i <= n - F() }
  }

  lemma {:induction false} PushFacts(x: Push)
    requires x.Valid()
    ensures x.Cfg().Valid() && 1 <= x.F() && 1 <= x.n - 3 * x.F() && 1 in x.Cfg().byz
    ensures x.Cfg().Leader(x.n) == 1 && x.Cfg().Leader(x.n + BUFFER_SIZE) == 1
    ensures forall i :: x.n - 3 * x.F() < i <= x.n ==> x.Cfg().Honest(i) && i != 1
    ensures Mod(x.n, BUFFER_SIZE) == Mod(x.n + BUFFER_SIZE, BUFFER_SIZE)
  {
    OneLeads(x.Cfg(), 1);
    SlotRecurs(x.n);
    SameLeader(x.Cfg().ShareOf(1), x.n, x.n + BUFFER_SIZE);
  }

  lemma {:induction false} PushSaid(x: Push) returns (actions: seq<Action>)
    requires x.Valid()
    ensures x.Cfg().Valid() && Calm(x.SeqOf(), x.Cfg(), actions)
    ensures After(x.Cfg(), actions) == Net(map[], [], {} + {x.M()} + {x.M'()} + {x.E()})
  {
    PushFacts(x);
    actions := Say(x.SeqOf(), x.Cfg(), [], x.M());
    actions := Say(x.SeqOf(), x.Cfg(), actions, x.M'());
    actions := Say(x.SeqOf(), x.Cfg(), actions, x.E());
  }

  /** Everyone honest has signed a number n, the victims and those before them `d`, the others `d'`. */
  ghost predicate FirstTold(x: Push, s: Net)
    requires x.Valid() && x.Cfg().Valid()
  {
    && s.triggers == [] && {x.M(), x.M'(), x.E()} <= s.soup
    && (forall i :: x.n - 3 * x.F() < i <= x.n - x.F() ==> Told(x.Cfg(), s, i, x.M()) && s.Given(i) == [] + [Input(x.M(), true)])
    && (forall i :: x.n - x.F() < i <= x.n ==> Told(x.Cfg(), s, i, x.M'()) && s.Given(i) == [] + [Input(x.M'(), true)])
  }

  lemma {:induction false} PushFirst(x: Push) returns (actions: seq<Action>)
    requires x.Valid()
    ensures x.Cfg().Valid() && Calm(x.SeqOf(), x.Cfg(), actions) && FirstTold(x, After(x.Cfg(), actions))
  {
    PushFacts(x);
    actions := PushSaid(x);
    var s0 := After(x.Cfg(), actions);
    actions := TellData(x, actions, x.n - 3 * x.F(), x.n - x.F(), x.M());
    var s1 := After(x.Cfg(), actions);
    actions := TellData(x, actions, x.n - x.F(), x.n, x.M'());
    FirstFacts(x, s0, s1, After(x.Cfg(), actions));
  }

  lemma {:induction false} TellData(x: Push, actions: seq<Action>, lo: nat, hi: nat, m: SignedReport) returns (longer: seq<Action>)
    requires x.Valid() && x.Cfg().Valid() && Calm(x.SeqOf(), x.Cfg(), actions) && x.n - 3 * x.F() <= lo <= hi <= x.n
    requires m in {x.M(), x.M'()} && m in After(x.Cfg(), actions).soup
    requires forall i :: lo < i <= hi ==> After(x.Cfg(), actions).Given(i) == []
    ensures Calm(x.SeqOf(), x.Cfg(), longer) && ToldRange(x.Cfg(), After(x.Cfg(), actions), After(x.Cfg(), longer), lo, hi, m)
  {
    PushFacts(x);
    longer := TellLed(x.Cfg(), actions, lo, hi, m, []);
  }

  lemma {:induction false} FirstFacts(x: Push, s0: Net, s1: Net, s2: Net)
    requires x.Valid() && x.Cfg().Valid() && s0.triggers == [] && s0.inputs == map[] && {x.M(), x.M'(), x.E()} <= s0.soup
    requires ToldRange(x.Cfg(), s0, s1, x.n - 3 * x.F(), x.n - x.F(), x.M())
    requires ToldRange(x.Cfg(), s1, s2, x.n - x.F(), x.n, x.M'())
    ensures FirstTold(x, s2)
  {
    assert Grew(x.Cfg(), s1, s2);
  }

  /** All but the victims have signed the later number, and the late report is out. */
  ghost predicate SecondReady(x: Push, s: Net)
    requires x.Valid() && x.Cfg().Valid()
  {
    && s.triggers == [] && x.C() in s.soup
    && forall i :: x.n - 3 * x.F() < i <= x.n && !x.Victim(i) ==> Told(x.Cfg(), s, i, x.E())
  }

  /** And everyone has signed a number n, the victims nothing else. */
  ghost predicate SecondTold(x: Push, s: Net)
    requires x.Valid() && x.Cfg().Valid()
  {
    && SecondReady(x, s)
    && (forall i :: x.n - 3 * x.F() < i <= x.n - x.F() ==> Told(x.Cfg(), s, i, x.M()))
    && (forall i :: x.n - x.F() < i <= x.n ==> Told(x.Cfg(), s, i, x.M'()))
    && (forall i :: x.Victim(i) ==> s.Given(i) == [] + [Input(x.M(), true)])
  }

  lemma {:induction false} PushSecond(x: Push) returns (actions: seq<Action>)
    requires x.Valid()
    ensures x.Cfg().Valid() && Calm(x.SeqOf(), x.Cfg(), actions) && SecondTold(x, After(x.Cfg(), actions))
  {
    PushFacts(x);
    var first := PushFirst(x);
    var second := PushThird(x, first);
    actions := PushLast(x, second);
    SecondFacts(x, After(x.Cfg(), first), After(x.Cfg(), second), After(x.Cfg(), actions));
  }

  /** The later number is told to the f signers before the victims, */
  lemma {:induction false} PushThird(x: Push, actions: seq<Action>) returns (longer: seq<Action>)
    requires x.Valid() && x.Cfg().Valid() && x.n >= 3 * x.F() && Calm(x.SeqOf(), x.Cfg(), actions) && FirstTold(x, After(x.Cfg(), actions))
    ensures Calm(x.SeqOf(), x.Cfg(), longer)
    ensures ToldRange(x.Cfg(), After(x.Cfg(), actions), After(x.Cfg(), longer), x.n - 3 * x.F(), x.n - 2 * x.F(), x.E())
    ensures LastWaiting(x, After(x.Cfg(), longer))
  {
    var s1 := After(x.Cfg(), actions);
    assert x.n - 2 * x.F() <= x.n - x.F();
    longer := TellLater(x, actions, x.n - 3 * x.F(), x.n - 2 * x.F(), [] + [Input(x.M(), true)]);
    LastUntouched(x, s1, After(x.Cfg(), longer));
  }

  /** and to the last f. */
  lemma {:induction false} PushLast(x: Push, actions: seq<Action>) returns (longer: seq<Action>)
    requires x.Valid() && x.Cfg().Valid() && x.n >= 3 * x.F() && Calm(x.SeqOf(), x.Cfg(), actions) && LastWaiting(x, After(x.Cfg(), actions))
    ensures Calm(x.SeqOf(), x.Cfg(), longer)
    ensures ToldRange(x.Cfg(), After(x.Cfg(), actions), After(x.Cfg(), longer), x.n - x.F(), x.n, x.E())
  {
    longer := TellLater(x, actions, x.n - x.F(), x.n, [] + [Input(x.M'(), true)]);
  }

  ghost predicate LastWaiting(x: Push, s: Net)
    requires x.Valid()
  {
    x.E() in s.soup && forall i :: x.n - x.F() < i <= x.n ==> s.Given(i) == [] + [Input(x.M'(), true)]
  }

  lemma {:induction false} LastUntouched(x: Push, s1: Net, s2: Net)
    requires x.Valid() && x.Cfg().Valid() && FirstTold(x, s1) && ToldRange(x.Cfg(), s1, s2, x.n - 3 * x.F(), x.n - 2 * x.F(), x.E())
    ensures LastWaiting(x, s2)
  {
  }

  lemma {:induction false} TellLater(x: Push, actions: seq<Action>, lo: nat, hi: nat, given: seq<Input>) returns (longer: seq<Action>)
    requires x.Valid() && x.Cfg().Valid() && Calm(x.SeqOf(), x.Cfg(), actions) && x.n - 3 * x.F() <= lo <= hi <= x.n
    requires x.E() in After(x.Cfg(), actions).soup && Below(given, x.n + BUFFER_SIZE)
    requires forall i :: lo < i <= hi ==> After(x.Cfg(), actions).Given(i) == given
    ensures Calm(x.SeqOf(), x.Cfg(), longer) && ToldRange(x.Cfg(), After(x.Cfg(), actions), After(x.Cfg(), longer), lo, hi, x.E())
  {
    PushFacts(x);
    longer := TellLed(x.Cfg(), actions, lo, hi, x.E(), given);
  }

  lemma {:induction false} SecondFacts(x: Push, s1: Net, s2: Net, s3: Net)
    requires x.Valid() && x.Cfg().Valid() && FirstTold(x, s1)
    requires ToldRange(x.Cfg(), s1, s2, x.n - 3 * x.F(), x.n - 2 * x.F(), x.E())
    requires ToldRange(x.Cfg(), s2, s3, x.n - x.F(), x.n, x.E())
    ensures SecondTold(x, s3)
  {
    assert Grew(x.Cfg(), s1, s3);
    DataStillTold(x, s1, s3);
    LateIsSaid(x, s3);
    OthersTold(x, s1, s2, s3);
    VictimsWait(x, s1, s2, s3);
  }

  lemma {:induction false} DataStillTold(x: Push, s1: Net, s3: Net)
    requires x.Valid() && x.Cfg().Valid() && FirstTold(x, s1) && Grew(x.Cfg(), s1, s3)
    ensures s3.triggers == []
    ensures forall i :: x.n - 3 * x.F() < i <= x.n - x.F() ==> Told(x.Cfg(), s3, i, x.M())
    ensures forall i :: x.n - x.F() < i <= x.n ==> Told(x.Cfg(), s3, i, x.M'())
    ensures Told(x.Cfg(), s3, x.n, x.M'())
  {
    assert x.F() >= 1;
  }

  lemma {:induction false} VictimsWait(x: Push, s1: Net, s2: Net, s3: Net)
    requires x.Valid() && x.Cfg().Valid() && FirstTold(x, s1)
    requires ToldRange(x.Cfg(), s1, s2, x.n - 3 * x.F(), x.n - 2 * x.F(), x.E())
    requires ToldRange(x.Cfg(), s2, s3, x.n - x.F(), x.n, x.E())
    ensures forall i :: x.Victim(i) ==> s3.Given(i) == [] + [Input(x.M(), true)]
  {
  }

  lemma {:induction false} OthersTold(x: Push, s1: Net, s2: Net, s3: Net)
    requires x.Valid() && x.Cfg().Valid()
    requires ToldRange(x.Cfg(), s1, s2, x.n - 3 * x.F(), x.n - 2 * x.F(), x.E())
    requires ToldRange(x.Cfg(), s2, s3, x.n - x.F(), x.n, x.E())
    ensures forall i :: x.n - 3 * x.F() < i <= x.n && !x.Victim(i) ==> Told(x.Cfg(), s3, i, x.E())
  {
  }

  lemma {:induction false} LateIsSaid(x: Push, s: Net)
    requires x.Valid() && x.Cfg().Valid() && Told(x.Cfg(), s, x.n, x.M'())
    ensures x.C() in s.soup
  {
    assert x.Cfg().ShareOf(x.n).Sign(x.M'()) == x.C();
  }

  lemma {:induction false} EveryoneElseHolds(x: Push, s: Net)
    requires x.Valid() && x.Cfg().Valid()
    requires forall i :: x.n - 3 * x.F() < i <= x.n && !x.Victim(i) ==> Told(x.Cfg(), s, i, x.E())
    ensures Derivable(x.Cfg(), s, x.e)
  {
    var others := Outer(x.n, x.F());
    forall i | i in others ensures i in Holders(x.Cfg(), s, x.e) {
      OtherHolds(x, s, i);
    }
    SubsetSize(others, Holders(x.Cfg(), s, x.e));
  }

  /** All but f of n ids, those from n - 2f + 1 to n - f. */
  lemma {:induction false} Outer(n: nat, f: nat) returns (others: set<nat>)
    requires 2 * f <= n
    ensures |others| == n - f && forall i :: i in others <==> 1 <= i <= n && !(n - 2 * f < i <= n - f)
  {
    others := Ids(n) - (Ids(n - f) - Ids(n - 2 * f));
    IdsSplit(n, n - f, n - 2 * f);
  }

  lemma {:induction false} ToldIsIssued(cfg: Config, s: Net, i: nat, m: SignedReport)
    requires Told(cfg, s, i, m)
    ensures Issued(cfg, s, i, m.body.data)
  {
  }

  lemma {:induction false} OtherHolds(x: Push, s: Net, i: nat)
    requires x.Valid() && x.Cfg().Valid() && 1 <= i <= x.n && !x.Victim(i)
    requires i > x.n - 3 * x.F() ==> Told(x.Cfg(), s, i, x.E())
    ensures i in Holders(x.Cfg(), s, x.e)
  {
    assert i in x.Cfg().Members();
    if x.Cfg().Honest(i) {
      assert i > x.n - 3 * x.F() by { assert i !in Ids(x.n - 3 * x.F()); }
      ToldIsIssued(x.Cfg(), s, i, x.E());
    }
  }

  /** One victim is given what was derived for it, and then the late report. */
  lemma {:induction false} PushOne(x: Push, actions: seq<Action>, v: nat) returns (longer: seq<Action>)
    requires x.Valid() && x.Cfg().Valid() && Possible(x.Cfg(), actions) && Named(x.SeqOf(), actions)
    requires SecondReady(x, After(x.Cfg(), actions)) && x.Victim(v) && After(x.Cfg(), actions).Given(v) == [] + [Input(x.M(), true)]
    ensures Possible(x.Cfg(), longer) && Named(x.SeqOf(), longer) && SecondReady(x, After(x.Cfg(), longer))
    ensures Grew(x.Cfg(), After(x.Cfg(), actions), After(x.Cfg(), longer))
    ensures After(x.Cfg(), longer).Given(v) == Three(x.M(), x.Derived(v), x.C())
    ensures forall j :: j != v ==> After(x.Cfg(), longer).Given(j) == After(x.Cfg(), actions).Given(j)
  {
    PushFacts(x);
    var cfg, s := x.Cfg(), After(x.Cfg(), actions);
    EveryoneElseHolds(x, s);
    InjectKeeps(cfg, s, x.Derived(v));
    var said := Say(x.SeqOf(), cfg, actions, x.Derived(v));
    assert cfg.ShareOf(v).Validate(x.Derived(v)) && cfg.ShareOf(v).Validate(x.C());
    longer := GiveTwoMore(x.SeqOf(), cfg, said, v, x.M(), x.Derived(v), x.C());
    StaysReady(x, s, After(cfg, said));
    StaysReady(x, After(cfg, said), After(cfg, longer));
  }

  lemma {:induction false} StaysReady(x: Push, s: Net, s': Net)
    requires x.Valid() && x.Cfg().Valid() && SecondReady(x, s) && Grew(x.Cfg(), s, s')
    ensures SecondReady(x, s')
  {
  }

  /** The victims up to `hi` have been pushed. */
  lemma {:induction false} PushUpTo(x: Push, actions: seq<Action>, hi: nat) returns (longer: seq<Action>)
    requires x.Valid() && x.Cfg().Valid() && Possible(x.Cfg(), actions) && Named(x.SeqOf(), actions) && SecondTold(x, After(x.Cfg(), actions))
    requires x.n - 2 * x.F() <= hi <= x.n - x.F()
    ensures Possible(x.Cfg(), longer) && Named(x.SeqOf(), longer) && SecondReady(x, After(x.Cfg(), longer))
    ensures Grew(x.Cfg(), After(x.Cfg(), actions), After(x.Cfg(), longer))
    ensures forall v :: x.n - 2 * x.F() < v <= hi ==> After(x.Cfg(), longer).Given(v) == Three(x.M(), x.Derived(v), x.C())
    ensures forall v :: hi < v <= x.n - x.F() ==> After(x.Cfg(), longer).Given(v) == [] + [Input(x.M(), true)]
    decreases hi
  {
    if x.n - 2 * x.F() == hi {
      longer := actions;
    } else {
      longer := PushUpTo(x, actions, hi - 1);
      longer := PushOne(x, longer, hi);
    }
  }

  lemma {:induction false} VictimSigns(x: Push, s: Net, v: nat)
    requires x.Valid() && x.Cfg().Valid() && x.Victim(v) && s.Given(v) == Three(x.M(), x.Derived(v), x.C())
    ensures x.Cfg().Honest(v) && SignedAt(x.Cfg(), s, v, x.n, x.d) && SignedAt(x.Cfg(), s, v, x.n, x.d')
  {
    PushFacts(x);
    LeaderOf(x.Cfg(), v, x.n);
    SignsBothAfterOwn(x.Cfg(), s, v, x.M(), x.Derived(v), x.C());
  }

  lemma {:induction false} PushBacks(x: Push, s: Net)
    requires x.Valid() && x.Cfg().Valid()
    requires forall i :: x.n - 3 * x.F() < i <= x.n - x.F() ==> Told(x.Cfg(), s, i, x.M())
    requires forall i :: x.n - x.F() < i <= x.n ==> Told(x.Cfg(), s, i, x.M'())
    requires forall v :: x.Victim(v) ==> s.Given(v) == Three(x.M(), x.Derived(v), x.C())
    ensures Quorate(x.Cfg(), s, x.n, x.d) && Quorate(x.Cfg(), s, x.n, x.d')
  {
    BackedBy(x.Cfg(), s, x.M(), Ids(x.n - x.F()));
    var others := Middle(x.n, x.F());
    forall i | i in others ensures i in Backers(x.Cfg(), s, x.n, x.d') {
      OtherBacks(x, s, i);
    }
    SubsetSize(others, Backers(x.Cfg(), s, x.n, x.d'));
  }

  lemma {:induction false} OtherBacks(x: Push, s: Net, i: nat)
    requires x.Valid() && x.Cfg().Valid() && 1 <= i <= x.n && !(x.n - 3 * x.F() < i <= x.n - 2 * x.F())
    requires x.Victim(i) ==> s.Given(i) == Three(x.M(), x.Derived(i), x.C())
    requires i > x.n - x.F() ==> Told(x.Cfg(), s, i, x.M'())
    ensures i in Backers(x.Cfg(), s, x.n, x.d')
  {
    assert i in x.Cfg().Members();
    if x.Victim(i) {
      VictimSigns(x, s, i);
    } else if i <= x.n - 3 * x.F() {
      assert i in Ids(x.n - 3 * x.F());
    }
  }

  /** All but f of n ids, those from n - 3f + 1 to n - 2f. */
  lemma {:induction false} Middle(n: nat, f: nat) returns (others: set<nat>)
    requires 3 * f <= n
    ensures |others| == n - f && forall i :: i in others <==> 1 <= i <= n && !(n - 3 * f < i <= n - 2 * f)
  {
    others := Ids(n) - (Ids(n - 2 * f) - Ids(n - 3 * f));
    IdsSplit(n, n - 2 * f, n - 3 * f);
  }

  /** With n - 3f Byzantine signers and no bound on delays, derived signatures turn f honest signers into
      double signers, and two data gather a quorum each. */
  lemma {:induction false} PushRun(x: Push) returns (actions: seq<Action>)
    requires x.Valid()
    ensures x.Cfg().Valid() && Possible(x.Cfg(), actions) && Named(x.SeqOf(), actions) && After(x.Cfg(), actions).triggers == []
    ensures Quorate(x.Cfg(), After(x.Cfg(), actions), x.n, x.d) && Quorate(x.Cfg(), After(x.Cfg(), actions), x.n, x.d')
  {
    PushFacts(x);
    actions := PushSecond(x);
    var s := After(x.Cfg(), actions);
    actions := PushUpTo(x, actions, x.n - x.F());
    StillTold(x, s, After(x.Cfg(), actions));
    PushBacks(x, After(x.Cfg(), actions));
  }

  lemma {:induction false} StillTold(x: Push, s: Net, s': Net)
    requires x.Valid() && x.Cfg().Valid() && SecondTold(x, s) && Grew(x.Cfg(), s, s')
    ensures forall i :: x.n - 3 * x.F() < i <= x.n - x.F() ==> Told(x.Cfg(), s', i, x.M())
    ensures forall i :: x.n - x.F() < i <= x.n ==> Told(x.Cfg(), s', i, x.M'())
  {
  }

  // --- exactly how many --------------------------------------------------------------------------------------------

  /** In no run of n signers, at most b of them Byzantine and no number led twice, do two different data
      gather a quorum under one number, however late deliveries are, if all data name their number. */
  ghost predicate AgreesAnyDelay(n: nat, b: nat) {
    forall seqOf, byz, actions, q, d, d' :: SplitsLate(seqOf, Config(n, byz), b, actions, q, d, d') ==> d == d'
  }

  ghost predicate SplitsLate(seqOf: Data -> nat, cfg: Config, b: nat, actions: seq<Action>, q: nat, d: Data, d': Data) {
    && cfg.Valid() && |cfg.byz| <= b && Possible(cfg, actions) && Named(seqOf, actions)
    && !TriggeredTwice(After(cfg, actions), q)
    && Quorate(cfg, After(cfg, actions), q, d) && Quorate(cfg, After(cfg, actions), q, d')
  }

  /** None, or fewer than n - 3f if n divides the buffer size. */
  predicate Tolerable(n: nat, b: nat)
    requires n > 0
  {
    b == 0 || (BUFFER_SIZE % n == 0 && b < n - 3 * MaxFaulty(n))
  }

  lemma {:induction false} TolerableAgrees(seqOf: Data -> nat, cfg: Config, b: nat, actions: seq<Action>, q: nat, d: Data, d': Data)
    requires cfg.n > 0 && Tolerable(cfg.n, b) && SplitsLate(seqOf, cfg, b, actions, q, d, d')
    ensures d == d'
  {
    if b == 0 {
      HonestAgrees(seqOf, cfg, actions, q, d, d');
    } else {
      DividingAgrees(seqOf, cfg, actions, q, d, d');
    }
  }

  /** More than that can be split. */
  lemma {:induction false} IntolerableSplits(n: nat, b: nat) returns (seqOf: Data -> nat, byz: set<nat>, actions: seq<Action>, q: nat)
    requires n > 0 && !Tolerable(n, b)
    ensures SplitsLate(seqOf, Config(n, byz), b, actions, q, "a", "b")
  {
    if n == 3 {
      TrioFacts();
      actions := TrioRun();
      seqOf, byz, q := TrioNames(), {1}, 3;
    } else if BUFFER_SIZE % n != 0 {
      seqOf, byz, actions, q := LateSplits(n, b);
    } else if MaxFaulty(n) == 0 {
      seqOf, byz, actions, q := AllByzantine(n, b);
    } else {
      assert "a" != "e" && "b" != "e";
      seqOf, byz, actions, q := PushSplits(Push(n, "a", "e", "b"), b);
    }
  }

  lemma {:induction false} LateSplits(n: nat, b: nat) returns (seqOf: Data -> nat, byz: set<nat>, actions: seq<Action>, q: nat)
    requires n >= 4 && BUFFER_SIZE % n != 0 && b >= 1
    ensures SplitsLate(seqOf, Config(n, byz), b, actions, q, "a", "b")
  {
    var t := if Mod(n + BUFFER_SIZE, n) + 1 == n then 2 else n;
    var x := Late(n, t, "a", "e", "b");
    actions := LateRun(x);
    LedOnce(x, After(x.Cfg(), actions));
    seqOf, byz, q := x.SeqOf(), {t}, n;
  }

  lemma {:induction false} LedOnce(x: Late, s: Net)
    requires x.Valid() && s.triggers == [(1, x.A()), (x.Next(), x.B())]
    ensures !TriggeredTwice(s, x.n)
  {
  }

  lemma {:induction false} AllByzantine(n: nat, b: nat) returns (seqOf: Data -> nat, byz: set<nat>, actions: seq<Action>, q: nat)
    requires 0 < n <= b
    ensures SplitsLate(seqOf, Config(n, byz), b, actions, q, "a", "b")
  {
    seqOf, byz, actions, q := (x: Data) => 0, Ids(n), [], 0;
    AllBack(Config(n, byz), After(Config(n, byz), []), 0, "a");
    AllBack(Config(n, byz), After(Config(n, byz), []), 0, "b");
  }

  lemma {:induction false} PushSplits(x: Push, b: nat) returns (seqOf: Data -> nat, byz: set<nat>, actions: seq<Action>, q: nat)
    requires x.Valid() && b >= x.n - 3 * x.F()
    ensures SplitsLate(seqOf, Config(x.n, byz), b, actions, q, x.d, x.d')
  {
    actions := PushRun(x);
    NothingTriggered(After(x.Cfg(), actions), x.n);
    PushIsLate(x, b, actions);
    seqOf, byz, q := x.SeqOf(), Ids(x.n - 3 * x.F()), x.n;
  }

  lemma {:induction false} PushIsLate(x: Push, b: nat, actions: seq<Action>)
    requires x.Valid() && x.Cfg().Valid() && b >= x.n - 3 * x.F() && Possible(x.Cfg(), actions) && Named(x.SeqOf(), actions)
    requires !TriggeredTwice(After(x.Cfg(), actions), x.n)
    requires Quorate(x.Cfg(), After(x.Cfg(), actions), x.n, x.d) && Quorate(x.Cfg(), After(x.Cfg(), actions), x.n, x.d')
    ensures SplitsLate(x.SeqOf(), x.Cfg(), b, actions, x.n, x.d, x.d')
  {
  }

  lemma {:induction false} NothingTriggered(s: Net, q: nat)
    requires s.triggers == []
    ensures !TriggeredTwice(s, q)
  {
  }

  /** Exactly how many Byzantine signers agreement survives when deliveries have no bound: none, unless n
      divides the buffer size; then fewer than n - 3f. */
  lemma {:induction false} AgreesAnyDelayIff(n: nat, b: nat)
    requires n > 0
    ensures AgreesAnyDelay(n, b) <==> Tolerable(n, b)
  {
    if Tolerable(n, b) {
      forall seqOf, byz, actions, q, d, d' | SplitsLate(seqOf, Config(n, byz), b, actions, q, d, d') ensures d == d' {
        TolerableAgrees(seqOf, Config(n, byz), b, actions, q, d, d');
      }
    } else {
      var seqOf, byz, actions, q := IntolerableSplits(n, b);
      assert SplitsLate(seqOf, Config(n, byz), b, actions, q, "a", "b");
    }
  }

  lemma {:induction false} NamedHoldersBack(seqOf: Data -> nat, cfg: Config, s: Net, d: Data)
    requires NamedNet(seqOf, cfg, s) && Derivable(cfg, s, d)
    ensures Quorate(cfg, s, seqOf(d), d)
  {
    forall i | i in Holders(cfg, s, d) ensures i in Backers(cfg, s, seqOf(d), d) {
      if cfg.Honest(i) {
        var q :| SignedAt(cfg, s, i, q, d);
        SignedAsNamed(seqOf, cfg, s, i, q, d);
      }
    }
    SubsetSize(Holders(cfg, s, d), Backers(cfg, s, seqOf(d), d));
  }

  /** So as many valid signatures as a quorum has, made or derived, never circulate for two data that name
      one number, however late deliveries are. */
  lemma {:induction false} SignaturesAgreeAnyDelay(seqOf: Data -> nat, cfg: Config, actions: seq<Action>, d: Data, d': Data)
    requires cfg.Valid() && Possible(cfg, actions) && Named(seqOf, actions) && Tolerable(cfg.n, |cfg.byz|)
    requires seqOf(d) == seqOf(d') && !TriggeredTwice(After(cfg, actions), seqOf(d))
    requires |Gathered(cfg, After(cfg, actions), d)| >= Threshold(cfg.n)
    requires |Gathered(cfg, After(cfg, actions), d')| >= Threshold(cfg.n)
    ensures d == d'
  {
    var s := After(cfg, actions);
    InvHolds(cfg, actions);
    NamedHolds(seqOf, cfg, actions);
    GatheredNeedsHolders(cfg, s, d);
    GatheredNeedsHolders(cfg, s, d');
    NamedHoldersBack(seqOf, cfg, s, d);
    NamedHoldersBack(seqOf, cfg, s, d');
    TolerableAgrees(seqOf, cfg, |cfg.byz|, actions, seqOf(d), d, d');
  }
}

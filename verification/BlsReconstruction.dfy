/** From the protocol to the mathematics: when what signers reconstruct verifies under the network's
    public key. */
module BlsReconstruction {
  import opened PrimeField
  import opened Interpolation
  import opened ThresholdKeys
  import opened Quorum
  import opened BlsNode
  import opened BlsSigning
  import opened BlsNetwork
  import opened BlsGuarantees

  // --- any network -----------------------------------------------------------------------------------

  /** Each part of a reconstructed report is a signature that the signer it stands for made itself. */
  ghost predicate OwnParts(cfg: Config, parts: map<nat, Sig>) {
    forall k :: k in parts ==> 1 <= k <= cfg.n && parts[k].Partial? && parts[k].maker == k
  }

  lemma {:induction false} KnownIsOwn(cfg: Config, s: Net, i: nat, k: nat, r: SignedReport)
    requires cfg.Valid() && Inv(cfg, s) && cfg.Honest(i) && Known(cfg.ShareOf(i), s.Given(i), k, r)
    ensures 1 <= k <= cfg.n && r.body.sig == Partial(k, r.body.data)
  {
    assert GivenWell(cfg, s, i);
    var share, mine := cfg.ShareOf(i), Local(cfg, s, i).mine;
    if j :| 0 <= j < |s.Given(i)| && s.Given(i)[j].report == r && r.body.signer == k {
      assert share.Validate(s.Given(i)[j].report);
    } else {
      var j :| 0 <= j < |mine| && mine[j] == r;
      MineAreSigned(share, s.Given(i), j);
    }
  }

  lemma {:induction false} MineAreSigned(share: Share, inputs: seq<Input>, j: nat)
    requires share.Valid() && j < |Run(share, inputs).mine|
    ensures var r := Run(share, inputs).mine[j]; r.body.sig == Partial(share.id, r.body.data) && r.body.signer == share.id
    decreases |inputs|
  {
    var n := |inputs| - 1;
    var t := Run(share, inputs[..n]);
    if j < |t.mine| {
      MineAreSigned(share, inputs[..n], j);
    } else {
      HandleIsAdds(share, t.buf, inputs[n].report, inputs[n].sent);
    }
  }

  /** In every run, with any Byzantine members and any delays, a reconstructed report combines more than
      a quorum of signatures, each made by the signer it stands for. */
  lemma {:induction false} PartsAreOwn(cfg: Config, actions: seq<Action>, i: nat, n: nat)
    requires cfg.Valid() && Possible(cfg, actions) && cfg.Honest(i) && n < |Local(cfg, After(cfg, actions), i).recovered|
    ensures var rep := Local(cfg, After(cfg, actions), i).recovered[n];
            rep.body.sig.Recovered? && OwnParts(cfg, rep.body.sig.parts) && |rep.body.sig.parts| > Threshold(cfg.n)
  {
    var s := After(cfg, actions);
    InvHolds(cfg, actions);
    var share, rep := cfg.ShareOf(i), Local(cfg, s, i).recovered[n];
    RecoveredIsKnown(share, s.Given(i), n);
    forall k | k in rep.body.sig.parts
      ensures 1 <= k <= cfg.n && rep.body.sig.parts[k].Partial? && rep.body.sig.parts[k].maker == k
    {
      assert PartIsKnown(share, s.Given(i), k, rep.body.sig.parts[k], rep.seqNo);
      var r :| Known(share, s.Given(i), k, r) && r.seqNo == rep.seqNo && r.body.sig == rep.body.sig.parts[k];
      KnownIsOwn(cfg, s, i, k, r);
    }
  }

  /** The group elements behind the parts of a reconstructed report, for shares dealt from `msk`. */
  function PartValues(p: int, msk: seq<int>, hash: Data -> int, parts: map<nat, Sig>): map<int, int>
    requires p > 0
  {
    map k: int | k in parts && parts[k].Partial? :: Sign(p, Eval(msk, k) % p, hash(parts[k].over))
  }

  /** What combining the parts in the given order makes of a report, and whether it verifies. */
  ghost predicate Verifies(p: int, msk: seq<int>, hash: Data -> int, parts: map<nat, Sig>, d: Data, order: seq<int>)
    requires IsPrime(p) && msk != [] && Enumerates(order, PartValues(p, msk, hash, parts).Keys)
  {
    var sig := Recover(p, order, ValuesAt(PartValues(p, msk, hash, parts), order));
    sig.Some? && Verify(p, msk[0], hash(d), sig.value)
  }

  /** How far the parts are off from signatures on `d`, in all. */
  function Dissent(p: int, msk: seq<int>, hash: Data -> int, parts: map<nat, Sig>, d: Data, order: seq<int>): int
    requires IsPrime(p) && Enumerates(order, PartValues(p, msk, hash, parts).Keys)
  {
    TotalError(p, msk, hash(d), PartValues(p, msk, hash, parts), order)
  }

  /** Exactly when combined parts verify, whatever data each of them covers. */
  lemma {:induction false} PartsVerifyIff(cfg: Config, p: int, msk: seq<int>, hash: Data -> int, parts: map<nat, Sig>, d: Data, order: seq<int>)
    requires IsPrime(p) && cfg.n < p && 0 < |msk| <= |parts| && OwnParts(cfg, parts)
    requires Enumerates(order, PartValues(p, msk, hash, parts).Keys)
    ensures Verifies(p, msk, hash, parts, d, order) <==> Cong(p, Dissent(p, msk, hash, parts, d, order), 0)
  {
    var values := PartValues(p, msk, hash, parts);
    SameSize(parts.Keys, values.Keys);
    RecoversIffErrorsCancel(p, msk, hash(d), values, order);
  }

  /** End to end, with any Byzantine members: in every run in which keys were dealt with the quorum as
      threshold, a reconstructed report verifies under the network's public key if and only if the
      errors of the parts that cover other data cancel. */
  lemma {:induction false} ReconstructedVerifiesIff(cfg: Config, actions: seq<Action>, i: nat, n: nat,
                             p: int, msk: seq<int>, hash: Data -> int, order: seq<int>)
    requires cfg.Valid() && Possible(cfg, actions) && cfg.Honest(i) && n < |Local(cfg, After(cfg, actions), i).recovered|
    requires IsPrime(p) && cfg.n < p && |msk| == Threshold(cfg.n)
    requires var rep := Local(cfg, After(cfg, actions), i).recovered[n];
             rep.body.sig.Recovered? ==> Enumerates(order, PartValues(p, msk, hash, rep.body.sig.parts).Keys)
    ensures var rep := Local(cfg, After(cfg, actions), i).recovered[n];
            && rep.body.sig.Recovered?
            && (Verifies(p, msk, hash, rep.body.sig.parts, rep.body.data, order)
                <==> Cong(p, Dissent(p, msk, hash, rep.body.sig.parts, rep.body.data, order), 0))
  {
    PartsAreOwn(cfg, actions, i, n);
    var rep := Local(cfg, After(cfg, actions), i).recovered[n];
    PartsVerifyIff(cfg, p, msk, hash, rep.body.sig.parts, rep.body.data, order);
  }

  ghost predicate AllCover(parts: map<nat, Sig>, d: Data) {
    forall k :: k in parts ==> parts[k].Partial? && parts[k].over == d
  }

  /** In particular it verifies whenever all its parts cover its data, Byzantine members or not. */
  lemma {:induction false} CoveredReportsVerify(cfg: Config, actions: seq<Action>, i: nat, n: nat,
                             p: int, msk: seq<int>, hash: Data -> int, order: seq<int>)
    requires cfg.Valid() && Possible(cfg, actions) && cfg.Honest(i) && n < |Local(cfg, After(cfg, actions), i).recovered|
    requires IsPrime(p) && cfg.n < p && |msk| == Threshold(cfg.n)
    requires var rep := Local(cfg, After(cfg, actions), i).recovered[n];
             rep.body.sig.Recovered? ==> Enumerates(order, PartValues(p, msk, hash, rep.body.sig.parts).Keys)
    ensures var rep := Local(cfg, After(cfg, actions), i).recovered[n];
            && rep.body.sig.Recovered?
            && (AllCover(rep.body.sig.parts, rep.body.data) ==> Verifies(p, msk, hash, rep.body.sig.parts, rep.body.data, order))
  {
    PartsAreOwn(cfg, actions, i, n);
    var rep := Local(cfg, After(cfg, actions), i).recovered[n];
    if AllCover(rep.body.sig.parts, rep.body.data) {
      PartsRecover(cfg, p, msk, hash, rep.body.sig.parts, rep.body.data, order);
    }
  }

  lemma {:induction false} PartsRecover(cfg: Config, p: int, msk: seq<int>, hash: Data -> int, parts: map<nat, Sig>, d: Data, order: seq<int>)
    requires IsPrime(p) && 0 < cfg.n < p && 0 < |msk| <= |parts|
    requires OwnParts(cfg, parts) && AllCover(parts, d)
    requires Enumerates(order, PartValues(p, msk, hash, parts).Keys)
    ensures Verifies(p, msk, hash, parts, d, order)
  {
    var values := PartValues(p, msk, hash, parts);
    SameSize(parts.Keys, values.Keys);
    RecoversMasterSignature(p, msk, hash(d), values, order);
  }

  lemma {:induction false} SameSize(a: set<nat>, b: set<int>)
    requires forall k: int :: k in b <==> k in a
    ensures |a| == |b|
    decreases |a|
  {
    if a == {} {
      forall k | k in b ensures k in a {}
      assert b == {};
    } else {
      var k :| k in a;
      SameSize(a - {k}, b - {k});
    }
  }

  // --- networks without Byzantine members --------------------------------------------------------------

  /** A known report of an honest network carries data that its leader started under its number. */
  lemma {:induction false} KnownWasStarted(seqOf: Data -> nat, cfg: Config, actions: seq<Action>, i: nat, k: nat, r: SignedReport)
    requires cfg.Valid() && cfg.byz == {} && Possible(cfg, actions) && Named(seqOf, actions) && cfg.Honest(i)
    requires Known(cfg.ShareOf(i), After(cfg, actions).Given(i), k, r)
    ensures Started(seqOf, cfg, After(cfg, actions), r.body.data) && Names(seqOf, r)
  {
    var s := After(cfg, actions);
    InvHolds(cfg, actions);
    NamedHolds(seqOf, cfg, actions);
    var h: nat;
    if j :| 0 <= j < |s.Given(i)| && s.Given(i)[j].report == r && r.body.signer == k {
      assert GivenWell(cfg, s, i) && NamedGiven(seqOf, s.Given(i));
      ValidIsObtainable(cfg, s, i, r);
      h := HonestHolder(cfg, s, k, r.body.data);
    } else {
      var j :| 0 <= j < |Local(cfg, s, i).mine| && Local(cfg, s, i).mine[j] == r;
      assert AnsweredAt(Local(cfg, s, i).mine, j, r.seqNo, r.body.data);
      assert SignedAt(cfg, s, i, r.seqNo, r.body.data);
      SignedAsNamed(seqOf, cfg, s, i, r.seqNo, r.body.data);
      h := i;
    }
    HonestSignWhatWasStarted(seqOf, cfg, actions, h, r.body.data);
  }

  lemma {:induction false} StartedOnce(seqOf: Data -> nat, cfg: Config, s: Net, d: Data, d': Data)
    requires cfg.Valid() && Started(seqOf, cfg, s, d) && Started(seqOf, cfg, s, d') && seqOf(d) == seqOf(d') && !TriggeredTwice(s, seqOf(d))
    ensures d == d'
  {
    var a :| TriggeredAt(s, a, cfg.Leader(seqOf(d)), seqOf(d), d);
    var b :| TriggeredAt(s, b, cfg.Leader(seqOf(d)), seqOf(d), d');
  }

  /** Every part of a reconstructed report is a signature on the report's own data. */
  lemma {:induction false} PartsAgree(seqOf: Data -> nat, cfg: Config, actions: seq<Action>, i: nat, rep: SignedReport)
    requires cfg.Valid() && cfg.byz == {} && Possible(cfg, actions) && Named(seqOf, actions) && cfg.Honest(i)
    requires WellRecovered(cfg.ShareOf(i), After(cfg, actions).Given(i), rep) && !TriggeredTwice(After(cfg, actions), rep.seqNo)
    ensures AllCover(rep.body.sig.parts, rep.body.data)
  {
    var s, share, q := After(cfg, actions), cfg.ShareOf(i), rep.seqNo;
    var given := s.Given(i);
    InvHolds(cfg, actions);
    var j :| 0 <= j < |given| && given[j].report.seqNo == q && given[j].report.body.data == rep.body.data;
    assert Known(share, given, given[j].report.body.signer, given[j].report);
    KnownWasStarted(seqOf, cfg, actions, i, given[j].report.body.signer, given[j].report);
    forall k | k in rep.body.sig.parts ensures rep.body.sig.parts[k].Partial? && rep.body.sig.parts[k].over == rep.body.data {
      assert PartIsKnown(share, given, k, rep.body.sig.parts[k], q);
      var r :| Known(share, given, k, r) && r.seqNo == q && r.body.sig == rep.body.sig.parts[k];
      KnownIsOwn(cfg, s, i, k, r);
      KnownWasStarted(seqOf, cfg, actions, i, k, r);
      StartedOnce(seqOf, cfg, s, r.body.data, rep.body.data);
    }
  }

  /** Honest signers whose leader starts each number once reconstruct only reports that verify, with any
      delays. */
  lemma {:induction false} HonestReportsVerify(seqOf: Data -> nat, cfg: Config, actions: seq<Action>, i: nat, n: nat,
                             p: int, msk: seq<int>, hash: Data -> int, order: seq<int>)
    requires cfg.Valid() && cfg.byz == {} && Possible(cfg, actions) && Named(seqOf, actions)
    requires cfg.Honest(i) && n < |Local(cfg, After(cfg, actions), i).recovered|
    requires !TriggeredTwice(After(cfg, actions), Local(cfg, After(cfg, actions), i).recovered[n].seqNo)
    requires IsPrime(p) && cfg.n < p && |msk| == Threshold(cfg.n)
    requires var rep := Local(cfg, After(cfg, actions), i).recovered[n];
             rep.body.sig.Recovered? ==> Enumerates(order, PartValues(p, msk, hash, rep.body.sig.parts).Keys)
    ensures var rep := Local(cfg, After(cfg, actions), i).recovered[n];
            rep.body.sig.Recovered? && Verifies(p, msk, hash, rep.body.sig.parts, rep.body.data, order)
  {
    var s := After(cfg, actions);
    RecoveredIsKnown(cfg.ShareOf(i), s.Given(i), n);
    PartsAgree(seqOf, cfg, actions, i, Local(cfg, s, i).recovered[n]);
    CoveredReportsVerify(cfg, actions, i, n, p, msk, hash, order);
  }

  // --- what can be derived ---------------------------------------------------------------------------------

  /** Why the network lets anyone say a signature that a quorum stands behind: for keys dealt with the
      quorum as threshold, the parts of a quorum on `d` give the part of every other signer on `d`. */
  lemma {:induction false} QuorumDerives(cfg: Config, p: int, msk: seq<int>, hash: Data -> int, parts: map<nat, Sig>, d: Data, order: seq<int>, k: nat)
    requires cfg.Valid() && IsPrime(p) && cfg.n < p && |msk| == Threshold(cfg.n) <= |parts| && OwnParts(cfg, parts) && AllCover(parts, d)
    requires Enumerates(order, PartValues(p, msk, hash, parts).Keys) && 1 <= k <= cfg.n && k !in parts
    ensures var sigs, at := ValuesAt(PartValues(p, msk, hash, parts), order), From(p, order, k);
            WeightedSum(p, at, sigs, at) % p == Sign(p, Eval(msk, k) % p, hash(d))
  {
    var values := PartValues(p, msk, hash, parts);
    SameSize(parts.Keys, values.Keys);
    EnumerationLength(order, values.Keys);
    forall i | 0 <= i < |order| ensures 0 < order[i] < p && order[i] != k && order[i] in values {}
    OthersDetermine(p, msk, hash(d), order, ValuesAt(values, order), k);
  }
}

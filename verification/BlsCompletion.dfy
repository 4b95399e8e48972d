/** When a node reconstructs a report: exactly when what it then holds for the number is more than a
    quorum of readable signatures, its own included. */
module BlsCompletion {
  import opened Options
  import opened Modular
  import opened Ring
  import opened Quorum
  import opened BlsNode
  import opened BlsSigning

  /** The reports held for a number, by signer. */
  function Held(b: Buffer<nat, Body>, q: nat): (m: map<nat, SignedReport>)
    requires b.Valid()
    ensures m.Keys == b.Lookup(q)
  {
    map k | k in b.Lookup(q) :: b.Get(k, q).value
  }

  function Signatures(held: map<nat, SignedReport>): map<nat, Sig> {
    map k | k in held && held[k].body.sig != Malformed :: held[k].body.sig
  }

  lemma {:induction false} CollectsHeld(b: Buffer<nat, Body>, q: nat)
    requires b.Valid()
    ensures Collect(b, q, b.Lookup(q)) == Signatures(Held(b, q))
  {
  }

  lemma {:induction false} AddHeld(b: Buffer<nat, Body>, k: nat, r: SignedReport)
    requires b.Valid() && r.seqNo > 0 && b.InWindow(r.seqNo) && k !in b.Lookup(r.seqNo)
    ensures var b' := b.Add(k, r).0; b.Add(k, r).1 && b'.InWindow(r.seqNo) && Held(b', r.seqNo) == Held(b, r.seqNo)[k := r]
  {
    var b', q := b.Add(k, r).0, r.seqNo;
    WindowedAddSucceeds(b, k, r);
    WindowedAdd(b, k, r, q);
    assert Held(b', q).Keys == Held(b, q)[k := r].Keys;
  }

  /** Adding the own report makes at most this node a holder. */
  lemma {:induction false} OwnAddHolds(b: Buffer<nat, Body>, k: nat, r: SignedReport, q: nat)
    requires b.Valid() && q > 0 && r.seqNo == q
    ensures b.Add(k, r).0.Lookup(q) <= b.Lookup(q) + {k}
  {
    forall j | j in b.Add(k, r).0.Lookup(q) ensures j in b.Lookup(q) + {k} {
      AddHolds(b, k, r, j, q);
    }
  }

  /** Collecting from more signers than hold the number collects the same. */
  lemma {:induction false} CollectsAll(b: Buffer<nat, Body>, q: nat, signers: set<nat>)
    requires b.Valid() && b.Lookup(q) <= signers
    ensures Collect(b, q, signers) == Signatures(Held(b, q))
    ensures |Signatures(Held(b, q))| <= |Held(b, q)| <= |signers|
  {
    SubsetSize(Signatures(Held(b, q)).Keys, Held(b, q).Keys);
    SubsetSize(b.Lookup(q), signers);
  }

  /** Exactly when a node reconstructs, inside the window or not: the report is new to it, its own
      broadcast, if it answered, succeeded, at least a quorum holds the number, and more than a quorum of the
      signatures then held are readable. All of them are parts, and the report goes out without a signer id
      under its network, number and data. */
  lemma {:induction false} RecoversIff(share: Share, b: Buffer<nat, Body>, sr: SignedReport, sent: bool)
    requires share.Valid() && b.Valid()
    ensures var h, q := Handle(share, b, sr, sent), sr.seqNo;
      && (h.recovered.Some? <==>
            && b.Add(sr.body.signer, sr).1 && (h.mine.Some? ==> sent)
            && |Held(h.buf, q)| >= share.QuorumCount() && |Signatures(Held(h.buf, q))| > share.QuorumCount())
      && (h.recovered.Some? ==>
            h.recovered.value == Stamped(q, Body(sr.body.network, sr.body.data, Recovered(Signatures(Held(h.buf, q))), 0)))
  {
    var b1, q := b.Add(sr.body.signer, sr).0, sr.seqNo;
    if b.Add(sr.body.signer, sr).1 {
      RespondCases(share, b1, sr, sent);
      CollectsAll(b1, q, b1.Lookup(q));
      if Processable(share, b1, q) {
        OwnAddHolds(b1, share.id, share.Sign(sr), q);
        CollectsAll(b1.Add(share.id, share.Sign(sr)).0, q, b1.Lookup(q) + {share.id});
      }
    }
  }

  /** What is held inside the window after a new report: all that was, the report, and the answer if the
      node gave one. */
  lemma {:induction false} HeldAfter(share: Share, b: Buffer<nat, Body>, sr: SignedReport, sent: bool)
    requires share.Valid() && b.Valid() && sr.seqNo > 0 && b.InWindow(sr.seqNo) && sr.body.signer !in b.Lookup(sr.seqNo)
    ensures var h, q, held := Handle(share, b, sr, sent), sr.seqNo, Held(b, sr.seqNo)[sr.body.signer := sr];
      && b.Add(sr.body.signer, sr).1 && h.buf.InWindow(q)
      && (h.mine.Some? <==> share.Leader(q) in held && share.id !in held)
      && Held(h.buf, q) == if h.mine.Some? then held[share.id := share.Sign(sr)] else held
  {
    var b1, q := b.Add(sr.body.signer, sr).0, sr.seqNo;
    AddHeld(b, sr.body.signer, sr);
    assert b1.Lookup(q) == Held(b1, q).Keys;
    HandleIsAdds(share, b, sr, sent);
    if Handle(share, b, sr, sent).mine.Some? {
      AddHeld(b1, share.id, share.Sign(sr));
    }
  }

  /** A report that does not make the node answer is kept. */
  lemma {:induction false} RunHolds(share: Share, inputs: seq<Input>, sr: SignedReport, held: map<nat, SignedReport>)
    requires share.Valid() && sr.seqNo > 0 && Run(share, inputs).buf.InWindow(sr.seqNo)
    requires Held(Run(share, inputs).buf, sr.seqNo) == held && sr.body.signer !in held
    requires share.Leader(sr.seqNo) !in held && share.Leader(sr.seqNo) != sr.body.signer
    ensures var b := Run(share, inputs + [Input(sr, true)]).buf; b.InWindow(sr.seqNo) && Held(b, sr.seqNo) == held[sr.body.signer := sr]
  {
    var b := Run(share, inputs).buf;
    assert b.Lookup(sr.seqNo) == held.Keys;
    RunAppend(share, inputs, Input(sr, true));
    HeldAfter(share, b, sr, true);
  }

  /** A report that makes the node answer: with the answer it reconstructs exactly if more than a quorum of
      readable signatures, its own among them, come together. */
  lemma {:induction false} AnswerRecoversIff(share: Share, b: Buffer<nat, Body>, sr: SignedReport, held: map<nat, SignedReport>)
    requires share.Valid() && b.Valid() && sr.seqNo > 0 && b.InWindow(sr.seqNo) && Held(b, sr.seqNo) == held
    requires sr.body.signer !in held && share.id !in held && share.id != sr.body.signer
    requires share.Leader(sr.seqNo) in held || share.Leader(sr.seqNo) == sr.body.signer
    ensures var h, all := Handle(share, b, sr, true), held[sr.body.signer := sr][share.id := share.Sign(sr)];
      && h.mine.Some?
      && (h.recovered.Some? <==> |all| >= share.QuorumCount() && |Signatures(all)| > share.QuorumCount())
      && (h.recovered.Some? ==> h.recovered.value == Stamped(sr.seqNo, Body(sr.body.network, sr.body.data, Recovered(Signatures(all)), 0)))
  {
    assert b.Lookup(sr.seqNo) == held.Keys;
    HeldAfter(share, b, sr, true);
    RecoversIff(share, b, sr, true);
  }

  // --- the own signature completes the count ---------------------------------------------------------------

  /** Signers 1 to 4; node 1 follows leader 2. */
  const NODE := Share(1, {1, 2, 3, 4})

  function Signed(k: nat, d: Data): SignedReport {
    Stamped(1, Body("", d, Partial(k, d), k))
  }

  lemma {:induction false} NodeFacts()
    ensures NODE.Valid() && NODE.QuorumCount() == 3 && NODE.Leader(1) == 2
  {
    ModIsRemainder(1, 4);
    assert NODE.signers == {1, 2, 3} + {4};
  }

  function Early(d: Data): seq<Input> {
    [] + [Input(Signed(3, d), true)] + [Input(Signed(4, d), true)]
  }

  lemma {:induction false} KeepsEarly(d: Data)
    ensures NODE.Valid()
    ensures var b := Run(NODE, Early(d)).buf; b.InWindow(1) && Held(b, 1) == map[3 := Signed(3, d)][4 := Signed(4, d)]
  {
    NodeFacts();
    assert Held(Run(NODE, []).buf, 1) == map[];
    RunHolds(NODE, [], Signed(3, d), map[]);
    assert map[][3 := Signed(3, d)] == map[3 := Signed(3, d)];
    RunHolds(NODE, [] + [Input(Signed(3, d), true)], Signed(4, d), map[3 := Signed(3, d)]);
  }

  function AllFour(d: Data): map<nat, Sig> {
    map[1 := Partial(1, d), 2 := Partial(2, d), 3 := Partial(3, d), 4 := Partial(4, d)]
  }

  lemma {:induction false} FourSignatures(d: Data)
    ensures var all := map[3 := Signed(3, d)][4 := Signed(4, d)][2 := Signed(2, d)][1 := NODE.Sign(Signed(2, d))];
      |all| == 4 && Signatures(all) == AllFour(d) && |AllFour(d)| == 4
  {
    var all := map[3 := Signed(3, d)][4 := Signed(4, d)][2 := Signed(2, d)][1 := NODE.Sign(Signed(2, d))];
    assert all.Keys == {1, 2, 3, 4} && AllFour(d).Keys == {1, 2, 3, 4};
    assert Signatures(all).Keys == {1, 2, 3, 4};
  }

  /** The leader's report comes last: the node answers it, and the answer is the fourth signature, so the
      node broadcasts the reconstructed report in the same step. */
  lemma {:induction false} AnswerCompletes(d: Data)
    ensures NODE.Valid()
    ensures var h := Handle(NODE, Run(NODE, Early(d)).buf, Signed(2, d), true);
      h.mine.Some? && h.recovered == Some(Stamped(1, Body("", d, Recovered(AllFour(d)), 0)))
  {
    NodeFacts();
    KeepsEarly(d);
    AnswerRecoversIff(NODE, Run(NODE, Early(d)).buf, Signed(2, d), map[3 := Signed(3, d)][4 := Signed(4, d)]);
    FourSignatures(d);
  }
}

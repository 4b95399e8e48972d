/** Runs that leave the window: exactly when a node signs a number a second time, a run where it
    does, and the network sizes for which it never does. */
module BlsResigning {
  import opened Options
  import opened Modular
  import opened Ring
  import opened BlsNode
  import opened BlsSigning

  /** Everything a node offers to its buffer: the delivered reports and its own answers. */
  ghost function Offers(share: Share, inputs: seq<Input>): seq<Offer<nat, Body>>
    requires share.Valid()
  {
    if inputs == [] then [] else
      var n := |inputs| - 1;
      var i, t := inputs[n], Run(share, inputs[..n]);
      Offers(share, inputs[..n]) + Offering(share, t.buf, i.report, i.sent)
  }

  ghost function Offering(share: Share, b: Buffer<nat, Body>, sr: SignedReport, sent: bool): seq<Offer<nat, Body>>
    requires share.Valid() && b.Valid()
  {
    [Offer(sr.body.signer, sr)] +
      match Handle(share, b, sr, sent).mine case None => [] case Some(mine) => [Offer(share.id, mine)]
  }

  lemma {:induction false} ReplayTwo(h: seq<Offer<nat, Body>>, a: Offer<nat, Body>, b: Offer<nat, Body>)
    ensures Replay(BUFFER_SIZE, ZERO, h + [a]) == Replay(BUFFER_SIZE, ZERO, h).Add(a.key, a.report).0
    ensures Replay(BUFFER_SIZE, ZERO, h + [a, b]) == Replay(BUFFER_SIZE, ZERO, h + [a]).Add(b.key, b.report).0
  {
    var one, two := h + [a], h + [a, b];
    assert one[..|one| - 1] == h && one[|one| - 1] == a;
    assert two[..|two| - 1] == one && two[|two| - 1] == b;
  }

  lemma {:induction false} ReplayHandles(h: seq<Offer<nat, Body>>, share: Share, sr: SignedReport, sent: bool)
    requires share.Valid()
    ensures var b := Replay(BUFFER_SIZE, ZERO, h);
            Handle(share, b, sr, sent).buf == Replay(BUFFER_SIZE, ZERO, h + Offering(share, b, sr, sent))
  {
    var b := Replay(BUFFER_SIZE, ZERO, h);
    HandleIsAdds(share, b, sr, sent);
    ReplayTwo(h, Offer(sr.body.signer, sr), Offer(share.id, share.Sign(sr)));
    assert Offering(share, b, sr, sent) ==
      if Handle(share, b, sr, sent).mine.Some? then [Offer(sr.body.signer, sr), Offer(share.id, share.Sign(sr))]
      else [Offer(sr.body.signer, sr)];
  }

  /** The node's buffer is the ring of everything it was offered. */
  lemma {:induction false} RunIsReplay(share: Share, inputs: seq<Input>)
    requires share.Valid()
    ensures Run(share, inputs).buf == Replay(BUFFER_SIZE, ZERO, Offers(share, inputs))
    decreases |inputs|
  {
    if inputs != [] {
      var n := |inputs| - 1;
      RunIsReplay(share, inputs[..n]);
      ReplayHandles(Offers(share, inputs[..n]), share, inputs[n].report, inputs[n].sent);
    }
  }

  lemma {:induction false} SignedWasOffered(share: Share, inputs: seq<Input>, q: nat)
    requires share.Valid() && HasSigned(Run(share, inputs), q)
    ensures Offered(Offers(share, inputs), share.id, q)
    decreases |inputs|
  {
    if inputs != [] {
      var n := |inputs| - 1;
      var t, i := Run(share, inputs[..n]), inputs[n];
      var h, h' := Offers(share, inputs[..n]), Offers(share, inputs);
      HasSignedStep(share, t, i, q);
      HandleIsAdds(share, t.buf, i.report, i.sent);
      if HasSigned(t, q) {
        SignedWasOffered(share, inputs[..n], q);
        var j :| OfferedAt(h, j, share.id, q);
        assert OfferedAt(h', j, share.id, q);
      } else {
        assert OfferedAt(h', |h| + 1, share.id, q);
      }
    }
  }

  ghost predicate Retained(h: seq<Offer<nat, Body>>, k: nat, q: nat) {
    Offered(h, k, q) && !Overtaken(BUFFER_SIZE, h, k, q)
  }

  /** Exactly when a number that was signed before is signed again: the delivered report is new and
      not too old for its sender, the own report has been pushed out by a later one, and the leader's
      report has not. */
  lemma {:induction false} ResignsIff(share: Share, inputs: seq<Input>, sr: SignedReport, sent: bool)
    requires share.Valid() && HasSigned(Run(share, inputs), sr.seqNo) && sr.seqNo > 0
    ensures var h, q, from := Offers(share, inputs), sr.seqNo, sr.body.signer;
            Handle(share, Run(share, inputs).buf, sr, sent).mine.Some? <==>
              && !Offered(h, from, q) && !Overtaken(BUFFER_SIZE, h, from, q)
              && Overtaken(BUFFER_SIZE, h, share.id, q)
              && (from == share.Leader(q) || Retained(h, share.Leader(q), q))
  {
    var h, q, from := Offers(share, inputs), sr.seqNo, sr.body.signer;
    RunIsReplay(share, inputs);
    SignedWasOffered(share, inputs, q);
    HandleSignsIff(share, Run(share, inputs).buf, sr, sent);
    AddedIff(BUFFER_SIZE, ZERO, h, Offer(from, sr));
    HeldIff(h, share.id, q);
    HeldIff(h, share.Leader(q), q);
  }

  lemma {:induction false} HeldIff(h: seq<Offer<nat, Body>>, k: nat, q: nat)
    requires q > 0
    ensures k in Replay(BUFFER_SIZE, ZERO, h).Lookup(q) <==> Retained(h, k, q)
  {
    GetRefinesHistory(BUFFER_SIZE, ZERO, h, k, q);
  }

  /** When a node signs, with or without the window. */
  lemma {:induction false} HandleSignsIff(share: Share, b: Buffer<nat, Body>, sr: SignedReport, sent: bool)
    requires share.Valid() && b.Valid() && sr.seqNo > 0
    ensures var held := b.Lookup(sr.seqNo) + {sr.body.signer};
            Handle(share, b, sr, sent).mine.Some? <==>
              b.Add(sr.body.signer, sr).1 && share.Leader(sr.seqNo) in held && share.id !in held
  {
    HandleIsAdds(share, b, sr, sent);
    if b.Add(sr.body.signer, sr).1 {
      AddLookup(b, sr.body.signer, sr);
    }
  }

  /** A successful `Add` makes its key the only new holder of the number. */
  lemma {:induction false} AddLookup(b: Buffer<nat, Body>, k: nat, r: SignedReport)
    requires b.Valid() && r.seqNo > 0 && b.Add(k, r).1
    ensures b.Add(k, r).0.Lookup(r.seqNo) == b.Lookup(r.seqNo) + {k}
  {
  }

  // --- a run that signs twice ---------------------------------------------------------------------------

  /** Two leaders' reports whose numbers compete for one slot, and a late report of a third signer. */
  predicate Competing(share: Share, a: SignedReport, b: SignedReport, late: SignedReport)
    requires share.Valid()
  {
    && 0 < a.seqNo == late.seqNo < b.seqNo && Mod(a.seqNo, BUFFER_SIZE) == Mod(b.seqNo, BUFFER_SIZE)
    && a.body.signer == share.Leader(a.seqNo) && b.body.signer == share.Leader(b.seqNo)
    && a.body.signer != b.body.signer
    && share.id !in {a.body.signer, b.body.signer, late.body.signer}
    && late.body.signer !in {a.body.signer, b.body.signer}
  }

  /** Outside the window a node may sign twice: after a later number with another leader has taken the
      own slot, any late report for the first number is signed again. */
  lemma {:induction false} SignsTwice(share: Share, a: SignedReport, b: SignedReport, late: SignedReport)
    requires share.Valid() && Competing(share, a, b, late)
    ensures Run(share, [Input(a, true), Input(b, true), Input(late, true)]).mine == [share.Sign(a), share.Sign(b), share.Sign(late)]
  {
    var i1, i2, i3 := Input(a, true), Input(b, true), Input(late, true);
    AfterLeader(share, a);
    assert [i1] + [i2] == [i1, i2] && [i1, i2] + [i3] == [i1, i2, i3];
    SecondStep(share, [i1], a, b);
    LateStep(share, [i1, i2], a, b, late);
  }

  lemma {:induction false} SecondStep(share: Share, inputs: seq<Input>, a: SignedReport, b: SignedReport)
    requires share.Valid() && a.seqNo < b.seqNo && b.body.signer == share.Leader(b.seqNo) != share.id
    requires Run(share, inputs).mine == [share.Sign(a)]
    requires Offers(share, inputs) == [Offer(a.body.signer, a), Offer(share.id, share.Sign(a))]
    ensures Run(share, inputs + [Input(b, true)]).mine == [share.Sign(a), share.Sign(b)]
    ensures Offers(share, inputs + [Input(b, true)]) ==
              [Offer(a.body.signer, a), Offer(share.id, share.Sign(a)), Offer(b.body.signer, b), Offer(share.id, share.Sign(b))]
  {
    NewNumberStep(share, inputs, b);
  }

  lemma {:induction false} LateStep(share: Share, inputs: seq<Input>, a: SignedReport, b: SignedReport, late: SignedReport)
    requires share.Valid() && Competing(share, a, b, late)
    requires Run(share, inputs).mine == [share.Sign(a), share.Sign(b)]
    requires Offers(share, inputs) == [Offer(a.body.signer, a), Offer(share.id, share.Sign(a)), Offer(b.body.signer, b), Offer(share.id, share.Sign(b))]
    ensures Run(share, inputs + [Input(late, true)]).mine == [share.Sign(a), share.Sign(b), share.Sign(late)]
  {
    OwnSlotIsTaken(share, a, b, late, Offers(share, inputs));
    assert Run(share, inputs).mine[0].seqNo == a.seqNo;
    ResignsIff(share, inputs, late, true);
    HandleIsAdds(share, Run(share, inputs).buf, late, true);
    AppendInput(share, inputs, Input(late, true));
  }

  lemma {:induction false} NewNumberStep(share: Share, inputs: seq<Input>, sr: SignedReport)
    requires share.Valid() && sr.seqNo > 0 && sr.body.signer == share.Leader(sr.seqNo) != share.id
    requires forall j :: 0 <= j < |Offers(share, inputs)| ==> Offers(share, inputs)[j].report.seqNo < sr.seqNo
    ensures Run(share, inputs + [Input(sr, true)]).mine == Run(share, inputs).mine + [share.Sign(sr)]
    ensures Offers(share, inputs + [Input(sr, true)]) == Offers(share, inputs) + [Offer(sr.body.signer, sr), Offer(share.id, share.Sign(sr))]
  {
    SignsNewNumber(share, inputs, sr);
    AppendInput(share, inputs, Input(sr, true));
    OfferingOfAnswer(share, Run(share, inputs).buf, sr);
  }

  lemma {:induction false} OfferingOfAnswer(share: Share, b: Buffer<nat, Body>, sr: SignedReport)
    requires share.Valid() && b.Valid()
    requires var mine := Handle(share, b, sr, true).mine; mine.Some? && mine.value == share.Sign(sr)
    ensures Offering(share, b, sr, true) == [Offer(sr.body.signer, sr), Offer(share.id, share.Sign(sr))]
  {
  }

  lemma {:induction false} OwnSlotIsTaken(share: Share, a: SignedReport, b: SignedReport, late: SignedReport, h: seq<Offer<nat, Body>>)
    requires share.Valid() && Competing(share, a, b, late)
    requires h == [Offer(a.body.signer, a), Offer(share.id, share.Sign(a)), Offer(b.body.signer, b), Offer(share.id, share.Sign(b))]
    ensures var q := a.seqNo;
            && !Offered(h, late.body.signer, q) && !Overtaken(BUFFER_SIZE, h, late.body.signer, q)
            && Overtaken(BUFFER_SIZE, h, share.id, q) && Retained(h, share.Leader(q), q)
  {
    assert OfferedAt(h, 0, a.body.signer, a.seqNo);
    assert h[3].key == share.id && h[3].report.seqNo == b.seqNo;
  }

  /** For instance numbers 1 and 129 among five signers. */
  lemma {:induction false} SignsTwiceAmongFive(a: SignedReport, b: SignedReport, late: SignedReport)
    requires a.seqNo == late.seqNo == 1 && b.seqNo == 129
    requires a.body.signer == 2 && b.body.signer == 5 && late.body.signer == 3
    ensures var mine := Run(Share(4, {1, 2, 3, 4, 5}), [Input(a, true), Input(b, true), Input(late, true)]).mine;
            |mine| == 3 && mine[0].seqNo == mine[2].seqNo == 1
  {
    var share := Share(4, {1, 2, 3, 4, 5});
    ModIsRemainder(129, 128);
    ModIsRemainder(129, 5);
    assert share.signers == {1, 2, 3, 4} + {5};
    SignsTwice(share, a, b, late);
  }

  lemma {:induction false} AppendInput(share: Share, inputs: seq<Input>, i: Input)
    requires share.Valid()
    ensures var all, t := inputs + [i], Run(share, inputs);
            && Run(share, all).mine == Append(t.mine, Handle(share, t.buf, i.report, i.sent).mine)
            && Offers(share, all) == Offers(share, inputs) + Offering(share, t.buf, i.report, i.sent)
  {
    assert (inputs + [i])[..|inputs|] == inputs;
  }

  /** The leader's report with a number above everything offered so far is signed. */
  lemma {:induction false} SignsNewNumber(share: Share, inputs: seq<Input>, sr: SignedReport)
    requires share.Valid() && sr.seqNo > 0 && sr.body.signer == share.Leader(sr.seqNo) != share.id
    requires forall j :: 0 <= j < |Offers(share, inputs)| ==> Offers(share, inputs)[j].report.seqNo < sr.seqNo
    ensures var mine := Handle(share, Run(share, inputs).buf, sr, true).mine; mine.Some? && mine.value == share.Sign(sr)
  {
    var h, b := Offers(share, inputs), Run(share, inputs).buf;
    RunIsReplay(share, inputs);
    HandleSignsIff(share, b, sr, true);
    HandleIsAdds(share, b, sr, true);
    AddedIff(BUFFER_SIZE, ZERO, h, Offer(sr.body.signer, sr));
    HeldIff(h, share.id, sr.seqNo);
  }

  // --- networks that never do ---------------------------------------------------------------------------

  function SlotNo(b: Buffer<nat, Body>, k: nat, q: nat): nat
    requires b.Valid()
  {
    b.Row(k)[Mod(q, b.size)].seqNo
  }

  /** What the own row holds, the row of that number's leader holds as well, or something later. */
  ghost predicate Shielded(share: Share, b: Buffer<nat, Body>)
    requires share.Valid() && b.Valid()
  {
    forall i :: 0 <= i < b.size ==>
      var s := b.Row(share.id)[i].seqNo;
      s > 0 && share.Leader(s) != share.id ==> s <= b.Row(share.Leader(s))[i].seqNo
  }

  /** A signed number has reached both the own slot and the leader's. */
  ghost predicate Reached(share: Share, b: Buffer<nat, Body>, q: nat)
    requires share.Valid() && b.Valid()
  {
    q > 0 && share.Leader(q) != share.id && q <= SlotNo(b, share.id, q) && q <= SlotNo(b, share.Leader(q), q)
  }

  lemma {:induction false} RowsGrow(b: Buffer<nat, Body>, k: nat, r: SignedReport, j: nat, i: nat)
    requires b.Valid() && i < b.size
    ensures b.Row(j)[i].seqNo <= b.Add(k, r).0.Row(j)[i].seqNo
    ensures r.seqNo <= SlotNo(b.Add(k, r).0, k, r.seqNo)
    ensures b.Add(k, r).0.Row(j)[i] == b.Row(j)[i] || (j == k && i == Mod(r.seqNo, b.size) && b.Add(k, r).0.Row(j)[i] == r)
  {
  }

  lemma {:induction false} ShieldedAdd(share: Share, b: Buffer<nat, Body>, k: nat, r: SignedReport)
    requires share.Valid() && b.Valid() && Shielded(share, b)
    requires k == share.id && share.Leader(r.seqNo) != share.id ==> r.seqNo <= SlotNo(b, share.Leader(r.seqNo), r.seqNo)
    ensures Shielded(share, b.Add(k, r).0)
  {
    var b' := b.Add(k, r).0;
    forall i | 0 <= i < b'.size
      ensures var s := b'.Row(share.id)[i].seqNo;
              s > 0 && share.Leader(s) != share.id ==> s <= b'.Row(share.Leader(s))[i].seqNo
    {
      var s := b'.Row(share.id)[i].seqNo;
      RowsGrow(b, k, r, share.id, i);
      RowsGrow(b, k, r, share.Leader(s), i);
    }
  }

  lemma {:induction false} ReachedAdd(share: Share, b: Buffer<nat, Body>, k: nat, r: SignedReport, q: nat)
    requires share.Valid() && b.Valid() && Reached(share, b, q)
    ensures Reached(share, b.Add(k, r).0, q)
  {
    RowsGrow(b, k, r, share.id, Mod(q, b.size));
    RowsGrow(b, k, r, share.Leader(q), Mod(q, b.size));
  }

  lemma {:induction false} SameLeader(share: Share, q: nat, s: nat)
    requires share.Valid() && BUFFER_SIZE % |share.signers| == 0 && Mod(q, BUFFER_SIZE) == Mod(s, BUFFER_SIZE)
    ensures share.Leader(q) == share.Leader(s)
  {
    var n := |share.signers|;
    assert BUFFER_SIZE == (BUFFER_SIZE / n) * n;
    RemainderOfRemainder(q, BUFFER_SIZE, BUFFER_SIZE / n, n);
    RemainderOfRemainder(s, BUFFER_SIZE, BUFFER_SIZE / n, n);
  }

  lemma {:induction false} RemainderOfRemainder(q: nat, m: nat, k: nat, n: nat)
    requires n > 0 && m > 0 && m == k * n
    ensures Mod(q, n) == Mod(Mod(q, m), n)
    decreases q
  {
    if q >= m {
      RemainderOfRemainder(q - m, m, k, n);
      ModMultiple(q - m, k, n);
    }
  }

  lemma {:induction false} ModMultiple(q: nat, k: nat, n: nat)
    requires n > 0
    ensures k * n >= 0 && Mod(q + k * n, n) == Mod(q, n)
    decreases k
  {
    if k > 0 {
      ModMultiple(q, k - 1, n);
      assert k * n == (k - 1) * n + n;
    }
  }

  /** If the number of signers divides the buffer size, a signed number is never signed again. */
  lemma {:induction false} NeverAgain(share: Share, b: Buffer<nat, Body>, sr: SignedReport, sent: bool)
    requires share.Valid() && b.Valid() && b.size == BUFFER_SIZE && BUFFER_SIZE % |share.signers| == 0
    requires Shielded(share, b) && Reached(share, b, sr.seqNo)
    ensures Handle(share, b, sr, sent).mine == None
  {
    var q := sr.seqNo;
    HandleSignsIff(share, b, sr, sent);
    var s := SlotNo(b, share.id, q);
    SameLeader(share, q, s);
    assert b.Row(share.id)[Mod(q, b.size)].seqNo == s;
  }

  /** Once the leader's report is held, so is the own one, with no window around it. */
  ghost predicate AnsweredAnyway(share: Share, b: Buffer<nat, Body>, q: nat)
    requires share.Valid() && b.Valid()
  {
    q > 0 && share.Leader(q) in b.Lookup(q) ==> share.id in b.Lookup(q)
  }

  /** Who holds a number after a successful `Add`. */
  lemma {:induction false} LookupAfter(b: Buffer<nat, Body>, k: nat, r: SignedReport, j: nat, q: nat)
    requires b.Valid() && q > 0 && b.Add(k, r).1
    ensures j in b.Add(k, r).0.Lookup(q) <==>
      if j == k && Mod(q, b.size) == Mod(r.seqNo, b.size) then q == r.seqNo else j in b.Lookup(q)
  {
  }

  /** An `Add` under another number leaves a number answered, if the own slot only goes to numbers that
      the node leads or whose leader is held. */
  lemma {:induction false} AddAnswers(share: Share, b: Buffer<nat, Body>, k: nat, r: SignedReport, q: nat)
    requires share.Valid() && b.Valid() && b.size == BUFFER_SIZE && BUFFER_SIZE % |share.signers| == 0 && AnsweredAnyway(share, b, q)
    requires b.Add(k, r).1 && q != r.seqNo
    requires k == share.id ==> share.Leader(r.seqNo) == share.id || share.Leader(r.seqNo) in b.Lookup(r.seqNo)
    ensures AnsweredAnyway(share, b.Add(k, r).0, q)
  {
    if q > 0 {
      LookupAfter(b, k, r, share.Leader(q), q);
      LookupAfter(b, k, r, share.id, q);
      if Mod(q, b.size) == Mod(r.seqNo, b.size) {
        SameLeader(share, q, r.seqNo);
      }
    }
  }

  /** If the number of signers divides the buffer size, the leader's report is answered as soon as it
      is taken. */
  lemma {:induction false} NewNumberAnswered(share: Share, b: Buffer<nat, Body>, sr: SignedReport, sent: bool)
    requires share.Valid() && b.Valid() && b.size == BUFFER_SIZE && BUFFER_SIZE % |share.signers| == 0
    requires b.Add(sr.body.signer, sr).1 && Shielded(share, b.Add(sr.body.signer, sr).0)
    ensures AnsweredAnyway(share, Handle(share, b, sr, sent).buf, sr.seqNo)
  {
    var b1, q := b.Add(sr.body.signer, sr).0, sr.seqNo;
    HandleIsAdds(share, b, sr, sent);
    if Handle(share, b, sr, sent).mine.Some? {
      var i := Mod(q, b1.size);
      var s := b1.Row(share.id)[i].seqNo;
      OwnSlotBelow(share, b1, q, s);
      assert b1.Add(share.id, share.Sign(sr)).1;
      LookupAfter(b1, share.id, share.Sign(sr), share.id, q);
    }
  }

  lemma {:induction false} OwnSlotBelow(share: Share, b: Buffer<nat, Body>, q: nat, s: nat)
    requires share.Valid() && b.Valid() && b.size == BUFFER_SIZE && BUFFER_SIZE % |share.signers| == 0 && Shielded(share, b)
    requires q > 0 && share.Leader(q) in b.Lookup(q) && share.id !in b.Lookup(q) && s == b.Row(share.id)[Mod(q, b.size)].seqNo
    ensures s < q
  {
    if s > 0 {
      SameLeader(share, q, s);
    }
    assert s != q;
  }

  lemma {:induction false} HandleAnswers(share: Share, b: Buffer<nat, Body>, sr: SignedReport, sent: bool, q: nat)
    requires share.Valid() && b.Valid() && b.size == BUFFER_SIZE && BUFFER_SIZE % |share.signers| == 0
    requires Shielded(share, b) && AnsweredAnyway(share, b, q)
    requires sr.body.signer == share.id && share.Leader(sr.seqNo) != share.id ==> Reached(share, b, sr.seqNo)
    ensures AnsweredAnyway(share, Handle(share, b, sr, sent).buf, q)
  {
    var b1 := b.Add(sr.body.signer, sr).0;
    HandleIsAdds(share, b, sr, sent);
    if b.Add(sr.body.signer, sr).1 {
      ShieldedAdd(share, b, sr.body.signer, sr);
      if q == sr.seqNo {
        NewNumberAnswered(share, b, sr, sent);
      } else {
        AddAnswers(share, b, sr.body.signer, sr, q);
        if Handle(share, b, sr, sent).mine.Some? && b1.Add(share.id, share.Sign(sr)).1 {
          AddAnswers(share, b1, share.id, share.Sign(sr), q);
        }
      }
    }
  }

  ghost predicate SafeWithoutWindow(share: Share, t: Trace)
    requires share.Valid() && t.buf.Valid()
  {
    && Shielded(share, t.buf)
    && (forall q: nat :: AnsweredAnyway(share, t.buf, q))
    && AllReached(share, t.buf, t.mine)
    && DistinctNumbers(t.mine)
  }

  ghost predicate AllReached(share: Share, b: Buffer<nat, Body>, mine: seq<SignedReport>)
    requires share.Valid() && b.Valid()
  {
    forall i :: 0 <= i < |mine| ==> Reached(share, b, mine[i].seqNo)
  }

  /** When the number of signers divides the buffer size (as for the four of the example's networks),
      no window is needed: in every run a node signs each number at most once. */
  lemma {:induction false} SignsOnceWithoutWindow(share: Share, inputs: seq<Input>)
    requires share.Valid() && BUFFER_SIZE % |share.signers| == 0 && Authentic(share, inputs)
    ensures SafeWithoutWindow(share, Run(share, inputs))
    decreases |inputs|
  {
    if inputs != [] {
      var n := |inputs| - 1;
      SignsOnceWithoutWindow(share, inputs[..n]);
      StepWithoutWindow(share, Run(share, inputs[..n]), inputs[n]);
    }
  }

  lemma {:induction false} StepWithoutWindow(share: Share, t: Trace, i: Input)
    requires share.Valid() && t.buf.Valid() && t.buf.size == BUFFER_SIZE && BUFFER_SIZE % |share.signers| == 0 && SafeWithoutWindow(share, t)
    requires i.report.body.signer == share.id && share.Leader(i.report.seqNo) != share.id ==> HasSigned(t, i.report.seqNo)
    ensures SafeWithoutWindow(share, Step(share, t, i))
  {
    HandleShielded(share, t.buf, i.report, i.sent);
    forall q: nat ensures AnsweredAnyway(share, Step(share, t, i).buf, q) {
      assert AnsweredAnyway(share, t.buf, q);
      HandleAnswers(share, t.buf, i.report, i.sent, q);
    }
    HandleAllReached(share, t.buf, i.report, i.sent, t.mine);
    var h := Handle(share, t.buf, i.report, i.sent);
    AppendReached(share, h.buf, t.mine, h.mine);
  }

  lemma {:induction false} AppendReached(share: Share, b: Buffer<nat, Body>, mine: seq<SignedReport>, o: Option<SignedReport>)
    requires share.Valid() && b.Valid() && AllReached(share, b, mine) && DistinctNumbers(mine)
    requires o.Some? ==> Reached(share, b, o.value.seqNo) && forall j :: 0 <= j < |mine| ==> mine[j].seqNo != o.value.seqNo
    ensures AllReached(share, b, Append(mine, o)) && DistinctNumbers(Append(mine, o))
  {
  }

  lemma {:induction false} HandleAllReached(share: Share, b: Buffer<nat, Body>, sr: SignedReport, sent: bool, mine: seq<SignedReport>)
    requires share.Valid() && b.Valid() && b.size == BUFFER_SIZE && BUFFER_SIZE % |share.signers| == 0
    requires Shielded(share, b) && AllReached(share, b, mine)
    ensures AllReached(share, Handle(share, b, sr, sent).buf, mine)
    ensures Handle(share, b, sr, sent).mine.Some? ==> forall j :: 0 <= j < |mine| ==> mine[j].seqNo != sr.seqNo
  {
    forall j | 0 <= j < |mine|
      ensures Reached(share, Handle(share, b, sr, sent).buf, mine[j].seqNo)
      ensures mine[j].seqNo == sr.seqNo ==> Handle(share, b, sr, sent).mine == None
    {
      HandleReached(share, b, sr, sent, mine[j].seqNo);
      if mine[j].seqNo == sr.seqNo {
        NeverAgain(share, b, sr, sent);
      }
    }
  }

  lemma {:induction false} HandleReached(share: Share, b: Buffer<nat, Body>, sr: SignedReport, sent: bool, q: nat)
    requires share.Valid() && b.Valid() && Reached(share, b, q)
    ensures Reached(share, Handle(share, b, sr, sent).buf, q)
  {
    HandleIsAdds(share, b, sr, sent);
    ReachedAdd(share, b, sr.body.signer, sr, q);
    ReachedAdd(share, b.Add(sr.body.signer, sr).0, share.id, share.Sign(sr), q);
  }

  lemma {:induction false} HandleShielded(share: Share, b: Buffer<nat, Body>, sr: SignedReport, sent: bool)
    requires share.Valid() && b.Valid() && Shielded(share, b)
    requires sr.body.signer == share.id && share.Leader(sr.seqNo) != share.id ==> Reached(share, b, sr.seqNo)
    ensures var h := Handle(share, b, sr, sent);
            Shielded(share, h.buf) && (h.mine.Some? ==> h.mine.value.seqNo == sr.seqNo && Reached(share, h.buf, sr.seqNo))
  {
    var q, b1, mine := sr.seqNo, b.Add(sr.body.signer, sr).0, share.Sign(sr);
    HandleIsAdds(share, b, sr, sent);
    ShieldedAdd(share, b, sr.body.signer, sr);
    if Handle(share, b, sr, sent).mine.Some? {
      assert share.Leader(q) in b1.Lookup(q);
      assert SlotNo(b1, share.Leader(q), q) == q;
      ShieldedAdd(share, b1, share.id, mine);
      RowsGrow(b1, share.id, mine, share.Leader(q), Mod(q, b1.size));
    }
  }

  /** And it signs only what the leader sent. */
  lemma {:induction false} FollowsLeaderWithoutWindow(share: Share, inputs: seq<Input>, i: nat)
    requires share.Valid() && BUFFER_SIZE % |share.signers| == 0 && Authentic(share, inputs) && i < |Run(share, inputs).mine|
    ensures FollowsLeader(share, inputs, Run(share, inputs).mine[i])
    decreases |inputs|
  {
    var n := |inputs| - 1;
    var t, sr := Run(share, inputs[..n]), inputs[n].report;
    if i < |t.mine| {
      FollowsLeaderWithoutWindow(share, inputs[..n], i);
      FollowsLeaderStays(share, inputs, t.mine[i]);
    } else {
      SignsOnceWithoutWindow(share, inputs[..n]);
      HandleIsAdds(share, t.buf, sr, inputs[n].sent);
      HandleSignsIff(share, t.buf, sr, inputs[n].sent);
      assert AnsweredAnyway(share, t.buf, sr.seqNo);
    }
  }

  /** When the number of signers divides the buffer size, the discipline needs no window. */
  lemma {:induction false} DisciplinedWithoutWindow(share: Share, inputs: seq<Input>)
    requires share.Valid() && BUFFER_SIZE % |share.signers| == 0 && Authentic(share, inputs)
    ensures Disciplined(share, inputs)
  {
    SignsOnceWithoutWindow(share, inputs);
    var mine := Run(share, inputs).mine;
    forall i | 0 <= i < |mine| ensures FollowsLeader(share, inputs, mine[i]) {
      FollowsLeaderWithoutWindow(share, inputs, i);
    }
  }

  // --- exactly which networks ------------------------------------------------------------------------------

  /** Signers are numbered 1..n, as the keys are dealt. */
  ghost predicate Numbered(share: Share) {
    share.Valid() && forall k :: k in share.signers <==> 1 <= k <= |share.signers|
  }

  /** Valid reports of signers, own ones only for numbers that the node signed or leads. */
  ghost predicate Genuine(share: Share, inputs: seq<Input>)
    requires share.Valid()
  {
    Authentic(share, inputs) && AllValid(share, inputs)
  }

  ghost predicate AllValid(share: Share, inputs: seq<Input>) {
    forall i :: 0 <= i < |inputs| ==> share.Validate(inputs[i].report)
  }

  lemma {:induction false} ThreeAreValid(share: Share, a: SignedReport, b: SignedReport, late: SignedReport)
    requires share.Validate(a) && share.Validate(b) && share.Validate(late)
    ensures AllValid(share, Three(a, b, late))
  {
  }

  /** A leader's report, a report under the own id that competes for the slot, and a late report of a
      third signer. */
  predicate CompetingOwn(share: Share, a: SignedReport, b: SignedReport, late: SignedReport)
    requires share.Valid()
  {
    && 0 < a.seqNo == late.seqNo < b.seqNo && Mod(a.seqNo, BUFFER_SIZE) == Mod(b.seqNo, BUFFER_SIZE)
    && a.body.signer == share.Leader(a.seqNo) != share.id == b.body.signer
    && late.body.signer !in {share.id, a.body.signer}
  }

  /** A report under the own id is kept, never answered. */
  lemma {:induction false} OwnStep(share: Share, inputs: seq<Input>, b: SignedReport)
    requires share.Valid() && b.body.signer == share.id
    ensures Run(share, inputs + [Input(b, true)]).mine == Run(share, inputs).mine
    ensures Offers(share, inputs + [Input(b, true)]) == Offers(share, inputs) + [Offer(share.id, b)]
  {
    HandleIsAdds(share, Run(share, inputs).buf, b, true);
    AppendInput(share, inputs, Input(b, true));
    assert Offering(share, Run(share, inputs).buf, b, true) == [Offer(share.id, b)];
  }

  lemma {:induction false} OwnSlotIsLed(share: Share, a: SignedReport, b: SignedReport, late: SignedReport, h: seq<Offer<nat, Body>>)
    requires share.Valid() && CompetingOwn(share, a, b, late)
    requires h == [Offer(a.body.signer, a), Offer(share.id, share.Sign(a)), Offer(share.id, b)]
    ensures var q := a.seqNo;
            && !Offered(h, late.body.signer, q) && !Overtaken(BUFFER_SIZE, h, late.body.signer, q)
            && Overtaken(BUFFER_SIZE, h, share.id, q) && Retained(h, share.Leader(q), q)
  {
    assert OfferedAt(h, 0, a.body.signer, a.seqNo);
    assert h[2].key == share.id && h[2].report.seqNo == b.seqNo;
  }

  lemma {:induction false} SignsAgainStep(share: Share, inputs: seq<Input>, a: SignedReport, b: SignedReport, late: SignedReport)
    requires share.Valid() && CompetingOwn(share, a, b, late) && Run(share, inputs).mine == [share.Sign(a)]
    requires Offers(share, inputs) == [Offer(a.body.signer, a), Offer(share.id, share.Sign(a)), Offer(share.id, b)]
    ensures Run(share, inputs + [Input(late, true)]).mine == [share.Sign(a), share.Sign(late)]
  {
    OwnSlotIsLed(share, a, b, late, Offers(share, inputs));
    assert Run(share, inputs).mine[0].seqNo == a.seqNo;
    ResignsIff(share, inputs, late, true);
    HandleIsAdds(share, Run(share, inputs).buf, late, true);
    AppendInput(share, inputs, Input(late, true));
  }

  function Three(a: SignedReport, b: SignedReport, late: SignedReport): seq<Input> {
    [Input(a, true), Input(b, true), Input(late, true)]
  }

  lemma {:induction false} LeaderThenOwn(share: Share, a: SignedReport, b: SignedReport)
    requires share.Valid() && 0 < a.seqNo && a.body.signer == share.Leader(a.seqNo) != share.id == b.body.signer
    ensures var two := [Input(a, true), Input(b, true)];
      Run(share, two).mine == [share.Sign(a)] && Offers(share, two) == [Offer(a.body.signer, a), Offer(share.id, share.Sign(a)), Offer(share.id, b)]
  {
    AfterLeader(share, a);
    OwnStep(share, [Input(a, true)], b);
    assert [Input(a, true)] + [Input(b, true)] == [Input(a, true), Input(b, true)];
  }

  lemma {:induction false} AfterLeader(share: Share, a: SignedReport)
    requires share.Valid() && 0 < a.seqNo && a.body.signer == share.Leader(a.seqNo) != share.id
    ensures Run(share, [Input(a, true)]).mine == [share.Sign(a)]
    ensures Offers(share, [Input(a, true)]) == [Offer(a.body.signer, a), Offer(share.id, share.Sign(a))]
  {
    NewNumberStep(share, [], a);
    assert [] + [Input(a, true)] == [Input(a, true)];
  }

  /** A report under the own id that takes the slot, be it the node's own leading report or one derived
      from others' signatures, makes the node sign the first number twice. */
  lemma {:induction false} SignsTwiceAfterOwn(share: Share, a: SignedReport, b: SignedReport, late: SignedReport)
    requires share.Valid() && CompetingOwn(share, a, b, late)
    ensures Run(share, Three(a, b, late)).mine == [share.Sign(a), share.Sign(late)]
  {
    LeaderThenOwn(share, a, b);
    SignsAgainStep(share, [Input(a, true), Input(b, true)], a, b, late);
    assert [Input(a, true), Input(b, true)] + [Input(late, true)] == Three(a, b, late);
  }

  lemma {:induction false} ThreeAreAuthentic(share: Share, a: SignedReport, b: SignedReport, late: SignedReport)
    requires share.Valid() && CompetingOwn(share, a, b, late) && share.Leader(b.seqNo) == share.id
    ensures Authentic(share, Three(a, b, late))
  {
    var i1, i2 := Input(a, true), Input(b, true);
    assert Three(a, b, late)[..2] == [i1, i2] && [i1, i2][..1] == [i1] && [i1][..0] == [];
    assert Authentic(share, [i1]);
    assert Authentic(share, [i1, i2]);
  }

  function By(k: nat, q: nat): SignedReport {
    Stamped(q, Body("", "", Partial(k, ""), k))
  }

  /** Numbers a buffer size apart have different leaders unless the signers divide the size. */
  lemma {:induction false} LeadersDiffer(share: Share, q: nat)
    requires share.Valid() && share.Leader(q) == share.Leader(q + BUFFER_SIZE)
    ensures BUFFER_SIZE % |share.signers| == 0
  {
    var n := |share.signers|;
    ModIsRemainder(q, n);
    ModIsRemainder(q + BUFFER_SIZE, n);
    Multiple(q, BUFFER_SIZE, n);
  }

  lemma {:induction false} Multiple(q: nat, m: nat, n: nat)
    requires n > 0 && q % n == (q + m) % n
    ensures m % n == 0
  {
    var k := (q + m) / n - q / n;
    assert m == k * n + 0;
    ModUnique(n, m, k, 0);
  }

  /** A number such that the node leads the next one of its slot. */
  lemma {:induction false} LeadsNext(share: Share) returns (q: nat)
    requires Numbered(share)
    ensures q > 0 && share.Leader(q + BUFFER_SIZE) == share.id
  {
    var n := |share.signers|;
    q := share.id - 1 + 129 * n - BUFFER_SIZE;
    ModMultiple(share.id - 1, 129, n);
  }

  lemma {:induction false} ResigningRun(share: Share) returns (inputs: seq<Input>)
    requires Numbered(share) && BUFFER_SIZE % |share.signers| != 0
    ensures Genuine(share, inputs) && !DistinctNumbers(Run(share, inputs).mine)
  {
    var q := LeadsNext(share);
    var leader := share.Leader(q);
    if leader == share.id {
      LeadersDiffer(share, q);
    }
    assert |share.signers| >= 3;
    var t := Third(share, leader);
    inputs := Three(By(leader, q), By(share.id, q + BUFFER_SIZE), By(t, q));
    ThreeResign(share, q, leader, t);
  }

  lemma {:induction false} ThreeResign(share: Share, q: nat, leader: nat, t: nat)
    requires Numbered(share) && q > 0 && leader == share.Leader(q) != share.id == share.Leader(q + BUFFER_SIZE)
    requires t in share.signers && t !in {share.id, leader}
    ensures var inputs := Three(By(leader, q), By(share.id, q + BUFFER_SIZE), By(t, q));
      Genuine(share, inputs) && !DistinctNumbers(Run(share, inputs).mine)
  {
    ThreeCompete(share, q, leader, t);
    ResignsGenuinely(share, By(leader, q), By(share.id, q + BUFFER_SIZE), By(t, q));
  }

  lemma {:induction false} ThreeCompete(share: Share, q: nat, leader: nat, t: nat)
    requires Numbered(share) && q > 0 && leader == share.Leader(q) != share.id == share.Leader(q + BUFFER_SIZE)
    requires t in share.signers && t !in {share.id, leader}
    ensures var a, b, late := By(leader, q), By(share.id, q + BUFFER_SIZE), By(t, q);
      CompetingOwn(share, a, b, late) && share.Leader(b.seqNo) == share.id
      && share.Validate(a) && share.Validate(b) && share.Validate(late)
  {
    SlotRecurs(q);
  }

  lemma {:induction false} ResignsGenuinely(share: Share, a: SignedReport, b: SignedReport, late: SignedReport)
    requires share.Valid() && CompetingOwn(share, a, b, late) && share.Leader(b.seqNo) == share.id
    requires share.Validate(a) && share.Validate(b) && share.Validate(late)
    ensures Genuine(share, Three(a, b, late)) && !DistinctNumbers(Run(share, Three(a, b, late)).mine)
  {
    SignsTwiceAfterOwn(share, a, b, late);
    ThreeAreAuthentic(share, a, b, late);
    ThreeAreValid(share, a, b, late);
    SameNumbers(Run(share, Three(a, b, late)).mine, share.Sign(a), share.Sign(late));
  }

  lemma {:induction false} SameNumbers(mine: seq<SignedReport>, r: SignedReport, r': SignedReport)
    requires mine == [r, r'] && r.seqNo == r'.seqNo
    ensures !DistinctNumbers(mine)
  {
    assert mine[0].seqNo == mine[1].seqNo;
  }

  lemma {:induction false} Third(share: Share, leader: nat) returns (t: nat)
    requires Numbered(share) && |share.signers| >= 3
    ensures t in share.signers && t !in {share.id, leader}
  {
    t := if 1 !in {leader, share.id} then 1 else if 2 !in {leader, share.id} then 2 else 3;
  }

  lemma {:induction false} SlotRecurs(q: nat)
    ensures Mod(q + BUFFER_SIZE, BUFFER_SIZE) == Mod(q, BUFFER_SIZE)
  {
  }

  ghost predicate AlwaysSignsOnce(share: Share)
    requires share.Valid()
  {
    forall inputs :: Genuine(share, inputs) ==> DistinctNumbers(Run(share, inputs).mine)
  }

  /** Exactly which networks sign once whatever the order of deliveries: those whose number of signers
      divides the buffer size. */
  lemma {:induction false} AlwaysSignsOnceIff(share: Share)
    requires Numbered(share)
    ensures AlwaysSignsOnce(share) <==> BUFFER_SIZE % |share.signers| == 0
  {
    if BUFFER_SIZE % |share.signers| == 0 {
      forall inputs | Genuine(share, inputs) ensures DistinctNumbers(Run(share, inputs).mine) {
        SignsOnceWithoutWindow(share, inputs);
      }
    } else {
      var inputs := ResigningRun(share);
    }
  }

  // --- reports under the own id that the node did not sign --------------------------------------------------

  /** In every run, what was signed has reached the own slot and the leader's. */
  lemma {:induction false} SignedIsReached(share: Share, inputs: seq<Input>)
    requires share.Valid()
    ensures AllReached(share, Run(share, inputs).buf, Run(share, inputs).mine)
    decreases |inputs|
  {
    if inputs != [] {
      var n := |inputs| - 1;
      var t, i := Run(share, inputs[..n]), inputs[n];
      var h := Handle(share, t.buf, i.report, i.sent);
      SignedIsReached(share, inputs[..n]);
      forall j | 0 <= j < |t.mine| ensures Reached(share, h.buf, t.mine[j].seqNo) {
        HandleReached(share, t.buf, i.report, i.sent, t.mine[j].seqNo);
      }
      if h.mine.Some? {
        AnswerReaches(share, t.buf, i.report, i.sent);
      }
      AppendAllReached(share, h.buf, t.mine, h.mine);
    }
  }

  lemma {:induction false} AnswerReaches(share: Share, b: Buffer<nat, Body>, sr: SignedReport, sent: bool)
    requires share.Valid() && b.Valid() && Handle(share, b, sr, sent).mine.Some?
    ensures Handle(share, b, sr, sent).mine.value.seqNo == sr.seqNo && Reached(share, Handle(share, b, sr, sent).buf, sr.seqNo)
  {
    var q, b1, mine := sr.seqNo, b.Add(sr.body.signer, sr).0, share.Sign(sr);
    HandleIsAdds(share, b, sr, sent);
    assert share.Leader(q) in b1.Lookup(q);
    assert SlotNo(b1, share.Leader(q), q) == q;
    RowsGrow(b1, share.id, mine, share.Leader(q), Mod(q, b1.size));
  }

  lemma {:induction false} AppendAllReached(share: Share, b: Buffer<nat, Body>, mine: seq<SignedReport>, o: Option<SignedReport>)
    requires share.Valid() && b.Valid() && AllReached(share, b, mine)
    requires o.Some? ==> Reached(share, b, o.value.seqNo)
    ensures AllReached(share, b, Append(mine, o))
  {
  }

  /** A number signed before is signed again only if the leader's report is held and the own slot has
      moved on. */
  lemma {:induction false} ResignsPast(share: Share, inputs: seq<Input>, sr: SignedReport, sent: bool)
    requires share.Valid() && HasSigned(Run(share, inputs), sr.seqNo)
    requires Handle(share, Run(share, inputs).buf, sr, sent).mine.Some?
    ensures var b, q := Run(share, inputs).buf, sr.seqNo;
      && q > 0 && share.Leader(q) != share.id && sr.body.signer !in {share.id, share.Leader(q)}
      && SlotNo(b, share.Leader(q), q) == q < SlotNo(b, share.id, q)
  {
    var t, q := Run(share, inputs), sr.seqNo;
    SignedIsReached(share, inputs);
    var j :| 0 <= j < |t.mine| && t.mine[j].seqNo == q;
    assert Reached(share, t.buf, t.mine[j].seqNo);
    HandleIsAdds(share, t.buf, sr, sent);
    HandleSignsIff(share, t.buf, sr, sent);
  }

  /** Two signers never sign a number twice, whatever valid reports they are given. */
  lemma {:induction false} TwoSignOnce(share: Share, inputs: seq<Input>)
    requires Numbered(share) && |share.signers| <= 2 && AllValid(share, inputs)
    ensures DistinctNumbers(Run(share, inputs).mine)
    decreases |inputs|
  {
    if inputs != [] {
      var n := |inputs| - 1;
      var init, last := inputs[..n], inputs[n];
      TwoSignOnce(share, init);
      assert share.Validate(last.report);
      var h := Handle(share, Run(share, init).buf, last.report, last.sent);
      if h.mine.Some? {
        HandleIsAdds(share, Run(share, init).buf, last.report, last.sent);
        if HasSigned(Run(share, init), last.report.seqNo) {
          ResignsPast(share, init, last.report, last.sent);
          LeaderIsSigner(share, last.report.seqNo);
        }
      }
    }
  }

  lemma {:induction false} LeaderIsSigner(share: Share, q: nat)
    requires Numbered(share)
    ensures share.Leader(q) in share.signers
  {
  }

  ghost predicate SignsOnceUnguarded(share: Share)
    requires share.Valid()
  {
    forall inputs :: AllValid(share, inputs) ==> DistinctNumbers(Run(share, inputs).mine)
  }

  lemma {:induction false} NotLed(share: Share) returns (q: nat)
    requires Numbered(share) && |share.signers| >= 2
    ensures q > 0 && share.Leader(q) != share.id
  {
    q := share.id;
    ModIsRemainder(q, |share.signers|);
  }

  lemma {:induction false} UnguardedRun(share: Share) returns (inputs: seq<Input>)
    requires Numbered(share) && |share.signers| >= 3
    ensures AllValid(share, inputs) && !DistinctNumbers(Run(share, inputs).mine)
  {
    var q := NotLed(share);
    var leader := share.Leader(q);
    LeaderIsSigner(share, q);
    var t := Third(share, leader);
    var a, b, late := By(leader, q), By(share.id, q + BUFFER_SIZE), By(t, q);
    SlotRecurs(q);
    inputs := Three(a, b, late);
    ThreeAreValid(share, a, b, late);
    SignsTwiceAfterOwn(share, a, b, late);
    SameNumbers(Run(share, inputs).mine, share.Sign(a), share.Sign(late));
  }

  /** Without a check on reports under the own id, exactly the networks of at most two sign once whatever
      valid reports they are given. */
  lemma {:induction false} SignsOnceUnguardedIff(share: Share)
    requires Numbered(share)
    ensures SignsOnceUnguarded(share) <==> |share.signers| <= 2
  {
    if |share.signers| <= 2 {
      forall inputs | AllValid(share, inputs) ensures DistinctNumbers(Run(share, inputs).mine) {
        TwoSignOnce(share, inputs);
      }
    } else {
      var inputs := UnguardedRun(share);
    }
  }

  /** What the own row holds, the row of that number's leader holds as well, or something later, unless
      it was given to the node under its own id. */
  ghost predicate Explained(share: Share, inputs: seq<Input>, b: Buffer<nat, Body>)
    requires share.Valid() && b.Valid()
  {
    forall i :: 0 <= i < b.size ==>
      var s := b.Row(share.id)[i].seqNo;
      s > 0 && share.Leader(s) != share.id ==> s <= b.Row(share.Leader(s))[i].seqNo || OwnGiven(share, inputs, s)
  }

  lemma {:induction false} ExplainedAdd(share: Share, inputs: seq<Input>, b: Buffer<nat, Body>, k: nat, r: SignedReport)
    requires share.Valid() && b.Valid() && Explained(share, inputs, b)
    requires k == share.id && share.Leader(r.seqNo) != share.id ==>
      r.seqNo <= SlotNo(b, share.Leader(r.seqNo), r.seqNo) || OwnGiven(share, inputs, r.seqNo)
    ensures Explained(share, inputs, b.Add(k, r).0)
  {
    var b' := b.Add(k, r).0;
    forall i | 0 <= i < b'.size
      ensures var s := b'.Row(share.id)[i].seqNo;
              s > 0 && share.Leader(s) != share.id ==> s <= b'.Row(share.Leader(s))[i].seqNo || OwnGiven(share, inputs, s)
    {
      var s := b'.Row(share.id)[i].seqNo;
      RowsGrow(b, k, r, share.id, i);
      RowsGrow(b, k, r, share.Leader(s), i);
    }
  }

  lemma {:induction false} RunExplained(share: Share, inputs: seq<Input>)
    requires share.Valid()
    ensures Explained(share, inputs, Run(share, inputs).buf)
    decreases |inputs|
  {
    if inputs != [] {
      var n := |inputs| - 1;
      var init, last := inputs[..n], inputs[n];
      assert inputs == init + [last];
      RunExplained(share, init);
      MoreGiven(share, init, last, Run(share, init).buf);
      HandleExplained(share, inputs, Run(share, init).buf, last.report, last.sent);
    }
  }

  lemma {:induction false} MoreGiven(share: Share, inputs: seq<Input>, i: Input, b: Buffer<nat, Body>)
    requires share.Valid() && b.Valid() && Explained(share, inputs, b)
    ensures Explained(share, inputs + [i], b)
    ensures i.report.body.signer == share.id ==> OwnGiven(share, inputs + [i], i.report.seqNo)
  {
    OwnGivenStep(share, inputs, i, i.report.seqNo);
    forall s | OwnGiven(share, inputs, s) ensures OwnGiven(share, inputs + [i], s) {
      OwnGivenStep(share, inputs, i, s);
    }
  }

  lemma {:induction false} HandleExplained(share: Share, inputs: seq<Input>, b: Buffer<nat, Body>, sr: SignedReport, sent: bool)
    requires share.Valid() && b.Valid() && Explained(share, inputs, b)
    requires sr.body.signer == share.id ==> OwnGiven(share, inputs, sr.seqNo)
    ensures Explained(share, inputs, Handle(share, b, sr, sent).buf)
  {
    var q, b1 := sr.seqNo, b.Add(sr.body.signer, sr).0;
    HandleIsAdds(share, b, sr, sent);
    ExplainedAdd(share, inputs, b, sr.body.signer, sr);
    if Handle(share, b, sr, sent).mine.Some? {
      assert share.Leader(q) in b1.Lookup(q);
      assert SlotNo(b1, share.Leader(q), q) == q;
      ExplainedAdd(share, inputs, b1, share.id, share.Sign(sr));
    }
  }

  /** If the number of signers divides the buffer size, a number is signed again only after a report with
      a larger number of its slot was given under the own id, which the node never signed. */
  lemma {:induction false} ResignNeedsOwn(share: Share, inputs: seq<Input>, sr: SignedReport, sent: bool) returns (s: nat)
    requires share.Valid() && BUFFER_SIZE % |share.signers| == 0 && HasSigned(Run(share, inputs), sr.seqNo)
    requires Handle(share, Run(share, inputs).buf, sr, sent).mine.Some?
    ensures s > sr.seqNo && share.Leader(s) == share.Leader(sr.seqNo) != share.id && Mod(s, BUFFER_SIZE) == Mod(sr.seqNo, BUFFER_SIZE)
    ensures OwnGiven(share, inputs, s) && !HasSigned(Run(share, inputs), s)
  {
    var t, q := Run(share, inputs), sr.seqNo;
    ResignsPast(share, inputs, sr, sent);
    s := SlotNo(t.buf, share.id, q);
    SlotsMatch(t.buf, share.id, q);
    SameLeader(share, q, s);
    RunExplained(share, inputs);
    assert t.buf.Row(share.id)[Mod(q, t.buf.size)].seqNo == s;
    SignedIsReached(share, inputs);
  }

  lemma {:induction false} SlotsMatch(b: Buffer<nat, Body>, k: nat, q: nat)
    requires b.Valid() && SlotNo(b, k, q) > 0
    ensures Mod(SlotNo(b, k, q), b.size) == Mod(q, b.size)
  {
  }
}

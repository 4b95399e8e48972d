/** A signer of the BLS example (examples/bls/share.go, node.go, node_internalnet.go).

    Signatures are symbolic: a partial signature names the share that made it and the data it
    covers, and a recovered one the parts it was built from. */
module BlsNode {
  import opened Options
  import opened Collections
  import opened Modular
  import opened Ring
  import opened ReportCache
  import opened Quorum

  type Data = string

  datatype Sig = Malformed | Partial(maker: nat, over: Data) | Recovered(parts: map<nat, Sig>)

  datatype Body = Body(network: string, data: Data, sig: Sig, signer: nat)

  type SignedReport = Stamped<Body>

  const ZERO := Body("", "", Malformed, 0)
  const BUFFER_SIZE: nat := 128

  /** A node's share of a network key: its id and the ids of all signers. */
  datatype Share = Share(id: nat, signers: set<nat>)
  {
    predicate Valid() { id in signers }

    function QuorumCount(): nat { Threshold(|signers|) }

    /** The signer that may start sequence number `q`. */
    function Leader(q: nat): nat
      requires Valid()
    {
      Mod(q, |signers|) + 1
    }

    /** Signing covers only the data, and puts the own id on the report. */
    function Sign(sr: SignedReport): SignedReport {
      sr.(body := sr.body.(sig := Partial(id, sr.body.data), signer := id))
    }

    /** The signature is that of the claimed signer, who is one of the signers. */
    predicate Validate(sr: SignedReport) {
      sr.body.signer in signers && sr.body.sig == Partial(sr.body.signer, sr.body.data)
    }
  }

  /** What handling one report leaves behind: the buffer, the own partial signature if it was
      issued, and the reconstructed report if it was broadcast. */
  datatype Handled = Handled(buf: Buffer<nat, Body>, mine: Option<SignedReport>, recovered: Option<SignedReport>)

  /** The signatures held for `q` by the given signers, as far as they deserialize. */
  function Collect(b: Buffer<nat, Body>, q: nat, signers: set<nat>): (sigs: map<nat, Sig>)
    requires b.Valid()
    ensures sigs.Keys <= signers
  {
    map k | k in signers && b.Get(k, q).Some? && b.Get(k, q).value.body.sig != Malformed :: b.Get(k, q).value.body.sig
  }

  /** The reconstructed report carries no signer id. */
  function Prepare(sigs: map<nat, Sig>, sr: SignedReport): SignedReport {
    sr.(body := sr.body.(sig := Recovered(sigs), signer := 0))
  }

  /** At least a quorum of signers starts the collection; strictly more signatures than the quorum
      are needed to broadcast. */
  function Reconstruct(share: Share, b: Buffer<nat, Body>, signers: set<nat>, sr: SignedReport): Option<SignedReport>
    requires b.Valid()
  {
    var sigs := Collect(b, sr.seqNo, signers);
    if |signers| >= share.QuorumCount() && |sigs| > share.QuorumCount() then Some(Prepare(sigs, sr)) else None
  }

  /** One report from the internal network, handled to completion. `sent` says whether the broadcast
      of the own signature succeeds. */
  function Handle(share: Share, b: Buffer<nat, Body>, sr: SignedReport, sent: bool): (h: Handled)
    requires share.Valid() && b.Valid()
    ensures h.buf.Valid() && h.buf.size == b.size
  {
    var (b1, ok) := b.Add(sr.body.signer, sr);
    if ok then Respond(share, b1, sr, sent) else Handled(b1, None, None)
  }

  /** The leader of the report's sequence number has signed and this node has not. */
  predicate Processable(share: Share, b: Buffer<nat, Body>, q: nat)
    requires share.Valid() && b.Valid()
  {
    share.Leader(q) in b.Lookup(q) && share.id !in b.Lookup(q)
  }

  /** What follows once the report is new to the buffer. */
  function Respond(share: Share, b: Buffer<nat, Body>, sr: SignedReport, sent: bool): (h: Handled)
    requires share.Valid() && b.Valid()
    ensures h.buf.Valid() && h.buf.size == b.size
  {
    var signers := b.Lookup(sr.seqNo);
    if Processable(share, b, sr.seqNo) then
      var mine := share.Sign(sr);
      var b' := b.Add(share.id, mine).0;
      Handled(b', Some(mine), if sent then Reconstruct(share, b', signers + {share.id}, mine) else None)
    else
      Handled(b, None, Reconstruct(share, b, signers, sr))
  }

  // --- the same step as the program takes it ------------------------------------------------------

  /** Sign once, and only when the leader has signed. */
  method IsProcessable(id: nat, leader: nat, signers: seq<nat>) returns (b: bool)
    ensures b <==> leader in signers && id !in signers
  {
    var leaderSigned, signed := false, false;
    for i := 0 to |signers|
      invariant leaderSigned <==> leader in signers[..i]
      invariant signed <==> id in signers[..i]
    {
      assert signers[..i + 1] == signers[..i] + [signers[i]];
      if leader == signers[i] { leaderSigned := true; }
      if id == signers[i] { signed := true; }
    }
    assert signers[..|signers|] == signers;
    b := leaderSigned && !signed;
  }

  lemma {:induction false} CollectOneMore(b: Buffer<nat, Body>, q: nat, signers: set<nat>, k: nat)
    requires b.Valid()
    ensures var got := b.Get(k, q);
            Collect(b, q, signers + {k}) ==
              if got.Some? && got.value.body.sig != Malformed then Collect(b, q, signers)[k := got.value.body.sig]
              else Collect(b, q, signers)
  {
  }

  method CollectSignatures(q: nat, reports: ReportBuffer<nat, Body>, signers: seq<nat>) returns (sigs: map<nat, Sig>)
    requires reports.Valid()
    ensures sigs == Collect(reports.View(), q, SetOf(signers))
  {
    sigs := map[];
    ghost var b := reports.View();
    for i := 0 to |signers|
      invariant sigs == Collect(b, q, SetOf(signers[..i]))
    {
      assert signers[..i + 1] == signers[..i] + [signers[i]];
      SetOfAppend(signers[..i], signers[i]);
      CollectOneMore(b, q, SetOf(signers[..i]), signers[i]);
      var rep := reports.Get(signers[i], q);
      assert rep == b.Get(signers[i], q);
      if rep.Some? && rep.value.body.sig != Malformed {
        sigs := sigs[signers[i] := rep.value.body.sig];
      }
    }
    assert signers[..|signers|] == signers;
  }

  method TryReconstruct(share: Share, reports: ReportBuffer<nat, Body>, signers: seq<nat>, sr: SignedReport)
    returns (recovered: Option<SignedReport>)
    requires reports.Valid() && forall i, j :: 0 <= i < j < |signers| ==> signers[i] != signers[j]
    ensures recovered == Reconstruct(share, reports.View(), SetOf(signers), sr)
  {
    DistinctLength(signers);
    recovered := None;
    if |signers| >= share.QuorumCount() {
      var signatures := CollectSignatures(sr.seqNo, reports, signers);
      if |signatures| > share.QuorumCount() {
        recovered := Some(Prepare(signatures, sr));
      }
    }
  }

  method HandleReport(share: Share, reports: ReportBuffer<nat, Body>, sr: SignedReport, sent: bool)
    returns (mine: Option<SignedReport>, recovered: Option<SignedReport>)
    requires share.Valid() && reports.Valid()
    modifies reports, reports.reports.Values
    ensures reports.Valid()
    ensures var h := Handle(share, old(reports.View()), sr, sent);
            reports.View() == h.buf && mine == h.mine && recovered == h.recovered
    ensures forall a :: a in reports.reports.Values ==> a in old(reports.reports.Values) || fresh(a)
  {
    mine, recovered := None, None;
    var ok := reports.Add(sr.body.signer, sr);
    if ok {
      mine, recovered := RespondToReport(share, reports, sr, sent);
    }
  }

  method SignReport(share: Share, reports: ReportBuffer<nat, Body>, sr: SignedReport, sent: bool, signers: seq<nat>)
    returns (mine: Option<SignedReport>, recovered: Option<SignedReport>)
    requires reports.Valid() && share.id !in signers && forall i, j :: 0 <= i < j < |signers| ==> signers[i] != signers[j]
    modifies reports, reports.reports.Values
    ensures reports.Valid() && reports.View() == old(reports.View()).Add(share.id, share.Sign(sr)).0
    ensures mine == Some(share.Sign(sr))
    ensures recovered == if sent then Reconstruct(share, reports.View(), SetOf(signers) + {share.id}, share.Sign(sr)) else None
    ensures forall a :: a in reports.reports.Values ==> a in old(reports.reports.Values) || fresh(a)
  {
    var signed := share.Sign(sr);
    var _ := reports.Add(share.id, signed);
    mine, recovered := Some(signed), None;
    if sent {
      SetOfAppend(signers, share.id);
      recovered := TryReconstruct(share, reports, signers + [share.id], signed);
    }
  }

  lemma {:induction false} RespondCases(share: Share, b: Buffer<nat, Body>, sr: SignedReport, sent: bool)
    requires share.Valid() && b.Valid()
    ensures var h, signers, mine := Respond(share, b, sr, sent), b.Lookup(sr.seqNo), share.Sign(sr);
            if Processable(share, b, sr.seqNo) then
              && h.buf == b.Add(share.id, mine).0 && h.mine == Some(mine)
              && h.recovered == if sent then Reconstruct(share, h.buf, signers + {share.id}, mine) else None
            else
              h.buf == b && h.mine == None && h.recovered == Reconstruct(share, b, signers, sr)
  {
  }

  method RespondToReport(share: Share, reports: ReportBuffer<nat, Body>, sr: SignedReport, sent: bool)
    returns (mine: Option<SignedReport>, recovered: Option<SignedReport>)
    requires share.Valid() && reports.Valid()
    modifies reports, reports.reports.Values
    ensures reports.Valid()
    ensures var h := Respond(share, old(reports.View()), sr, sent);
            reports.View() == h.buf && mine == h.mine && recovered == h.recovered
    ensures forall a :: a in reports.reports.Values ==> a in old(reports.reports.Values) || fresh(a)
  {
    ghost var b := reports.View();
    var signers := reports.Lookup(sr.seqNo);
    assert SetOf(signers) == b.Lookup(sr.seqNo);
    var leader := share.Leader(sr.seqNo);
    var processable := IsProcessable(share.id, leader, signers);
    assert leader in signers <==> leader in SetOf(signers);
    assert share.id in signers <==> share.id in SetOf(signers);
    assert reports.View() == b;
    RespondCases(share, b, sr, sent);
    if processable {
      mine, recovered := SignReport(share, reports, sr, sent, signers);
    } else {
      mine := None;
      recovered := TryReconstruct(share, reports, signers, sr);
      assert reports.View() == b;
    }
  }
}

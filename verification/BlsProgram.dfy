/** The entry points of a BLS node (examples/bls/node.go): validation, consumption and triggering of
    reports, on buffers that are updated in place. */
module BlsProgram {
  import opened Options
  import opened Ring
  import opened ReportCache
  import opened Admission
  import opened BlsNode
  import opened BlsCompletion
  import BlsAdmission

  /** Whether a signature on some data verifies under a network's public key. */
  type NetworkKey = (Data, Sig) -> bool

  type Internal = ReportBuffer<nat, Body>

  class Node {
    const pubstore: map<string, NetworkKey>
    const shares: map<string, Share>
    const reports: ReportBuffer<string, Body>
    var internalReports: map<string, Internal>

    /** The arrays of all internal buffers. */
    ghost function Arrays(): set<array<SignedReport>>
      reads this, internalReports.Values
    {
      set net, a | net in internalReports && a in internalReports[net].reports.Values :: a
    }

    /** No two buffers share memory. */
    ghost predicate Separate()
      reads this, internalReports.Values, reports
    {
      && (forall net :: net in internalReports ==> internalReports[net].reports.Values !! reports.reports.Values)
      && (forall m, n :: m in internalReports && n in internalReports && m != n ==>
            internalReports[m] != internalReports[n] && internalReports[m].reports.Values !! internalReports[n].reports.Values)
    }

    ghost predicate Valid()
      reads this, reports, reports.reports.Values, internalReports.Values, Arrays()
    {
      && Separate()
      && (forall net :: net in shares ==> shares[net].Valid())
      && OuterValid() && InnerValid()
    }

    ghost predicate OuterValid()
      reads reports, reports.reports.Values
    {
      reports.Valid() && reports.size == BUFFER_SIZE
    }

    ghost predicate InnerValid()
      reads this, internalReports.Values, Arrays()
    {
      forall net :: net in internalReports ==> ValidBuffer(net)
    }

    ghost predicate ValidBuffer(net: string)
      requires net in internalReports
      reads this, internalReports.Values, internalReports[net].reports.Values
    {
      internalReports[net].Valid() && internalReports[net].size == BUFFER_SIZE
    }

    /** The reports held for a network, none before the first one arrives. */
    ghost function Held(net: string): Buffer<nat, Body>
      reads this, internalReports.Values, Arrays()
    {
      if net in internalReports then internalReports[net].View() else New(BUFFER_SIZE, ZERO)
    }

    constructor (pubstore: map<string, NetworkKey>, shares: map<string, Share>)
      requires forall net :: net in shares ==> shares[net].Valid()
      ensures Valid() && this.pubstore == pubstore && this.shares == shares
      ensures internalReports == map[] && reports.View() == New(BUFFER_SIZE, ZERO)
      ensures fresh(reports)
    {
      this.pubstore := pubstore;
      this.shares := shares;
      reports := new ReportBuffer(BUFFER_SIZE, ZERO);
      internalReports := map[];
    }

    /** The buffer of a network, created and stored at its first report. */
    method GetOrCreate(net: string) returns (buf: Internal)
      requires Valid()
      modifies this`internalReports
      ensures Valid() && net in internalReports && buf == internalReports[net]
      ensures forall n :: Held(n) == old(Held(n))
      ensures if net in old(internalReports) then buf == old(internalReports)[net] else fresh(buf)
      ensures buf.reports.Values <= old(Arrays())
    {
      if net in internalReports {
        buf := internalReports[net];
      } else {
        buf := new ReportBuffer(BUFFER_SIZE, ZERO);
        AddInternal(net, buf);
      }
    }

    /** The buffers of all networks but those in `changed` are as before. */
    twostate predicate SameExcept(changed: set<string>)
      reads this, internalReports.Values, Arrays()
    {
      forall n :: n in old(internalReports) && n !in changed ==>
        && n in internalReports && internalReports[n] == old(internalReports)[n]
        && unchanged(internalReports[n]) && unchanged(internalReports[n].reports.Values)
    }

    twostate lemma OthersStillValid(changed: set<string>)
      requires old(InnerValid()) && SameExcept(changed)
      ensures forall n :: n in old(internalReports) && n !in changed ==> n in internalReports && ValidBuffer(n) && Held(n) == old(Held(n))
    {
      forall n | n in old(internalReports) && n !in changed ensures n in internalReports && ValidBuffer(n) && Held(n) == old(Held(n)) {
        assert old(ValidBuffer(n));
      }
    }

    /** A buffer that grew by new arrays is still apart from the others. */
    twostate lemma SeparateAfterGrowth(net: string)
      requires old(Separate()) && internalReports == old(internalReports) && net in internalReports
      requires SameExcept({net}) && reports.reports == old(reports.reports)
      requires forall a :: a in internalReports[net].reports.Values ==> a in old(internalReports[net].reports.Values) || fresh(a)
      ensures Separate()
    {
    }

    twostate lemma OuterStays()
      requires old(OuterValid()) && unchanged(reports) && unchanged(reports.reports.Values)
      ensures OuterValid() && reports.View() == old(reports.View())
    {
    }

    twostate lemma SeparateAfterOuterGrowth()
      requires old(Separate()) && internalReports == old(internalReports) && SameExcept({})
      requires forall a :: a in reports.reports.Values ==> a in old(reports.reports.Values) || fresh(a)
      ensures Separate()
    {
    }

    /** The store takes a new, empty buffer. */
    method AddInternal(net: string, buf: Internal)
      requires Valid() && net !in internalReports && buf !in internalReports.Values
      requires buf.Valid() && buf.View() == New(BUFFER_SIZE, ZERO) && buf.reports == map[]
      modifies this`internalReports
      ensures Valid() && internalReports == old(internalReports)[net := buf]
      ensures forall n :: Held(n) == old(Held(n))
    {
      internalReports := internalReports[net := buf];
      OthersStillValid({});
      assert ValidBuffer(net);
    }

    /** Handles a report in the buffer of its network, next to buffers that share nothing with it. */
    method HandleIn(net: string, sr: SignedReport, sent: bool)
      returns (mine: Option<SignedReport>, recovered: Option<SignedReport>)
      requires Valid() && net in shares && net in internalReports
      modifies internalReports[net], internalReports[net].reports.Values
      ensures Valid() && reports.View() == old(reports.View())
      ensures forall n :: n != net ==> Held(n) == old(Held(n))
      ensures var h := Handle(shares[net], old(Held(net)), sr, sent);
        Held(net) == h.buf && mine == h.mine && recovered == h.recovered
    {
      var buf := internalReports[net];
      assert ValidBuffer(net);
      mine, recovered := HandleReport(shares[net], buf, sr, sent);
      SeparateAfterGrowth(net);
      OthersStillValid({net});
      assert ValidBuffer(net);
      OuterStays();
    }

    /** One report of the internal network. Only the buffer of its network changes. */
    method ConsumeInternalNet(sr: SignedReport, sent: bool)
      returns (mine: Option<SignedReport>, recovered: Option<SignedReport>)
      requires Valid()
      modifies this`internalReports, internalReports.Values, Arrays()
      ensures Valid() && reports.View() == old(reports.View())
      ensures forall n :: n != sr.body.network || n !in shares ==> Held(n) == old(Held(n))
      ensures sr.body.network !in shares ==> mine == recovered == None
      ensures sr.body.network in shares ==>
        var h := Handle(shares[sr.body.network], old(Held(sr.body.network)), sr, sent);
        Held(sr.body.network) == h.buf && mine == h.mine && recovered == h.recovered
    {
      var net := sr.body.network;
      if net !in shares { return None, None; }
      var buf := GetOrCreate(net);
      assert buf in old(internalReports.Values) || fresh(buf);
      mine, recovered := HandleIn(net, sr, sent);
    }

    /** An incoming message; `None` is one that does not decode. A report without a signer id is a
        reconstructed one and goes to the outer buffer. */
    method Consume(msg: Option<SignedReport>, sent: bool)
      returns (mine: Option<SignedReport>, recovered: Option<SignedReport>)
      requires Valid()
      modifies this`internalReports, internalReports.Values, Arrays(), reports, reports.reports.Values
      ensures Valid()
      ensures reports.View() == if msg.Some? && msg.value.body.signer == 0
                                then old(reports.View()).Add(msg.value.body.network, msg.value).0 else old(reports.View())
      ensures forall n :: Untouched(msg, n) ==> Held(n) == old(Held(n))
      ensures if msg.Some? && !Untouched(msg, msg.value.body.network) then
                var sr := msg.value;
                var h := Handle(shares[sr.body.network], old(Held(sr.body.network)), sr, sent);
                Held(sr.body.network) == h.buf && mine == h.mine && recovered == h.recovered
              else
                mine == recovered == None
    {
      if msg.None? { return None, None; }
      if msg.value.body.signer > 0 {
        mine, recovered := ConsumeInternalNet(msg.value, sent);
        return;
      }
      var _ := AddReport(msg.value);
      mine, recovered := None, None;
    }

    /** The message is no partial signature for a network `net` that this node signs for. */
    predicate Untouched(msg: Option<SignedReport>, net: string) {
      msg.None? || msg.value.body.signer == 0 || msg.value.body.network != net || net !in shares
    }

    /** A reconstructed report has no signer id and keeps its network, so a node that consumes it puts it
        into its outer buffer and handles nothing. */
    lemma {:induction false} RecoveredIsOuter(share: Share, b: Buffer<nat, Body>, sr: SignedReport, sent: bool)
      requires share.Valid() && b.Valid() && Handle(share, b, sr, sent).recovered.Some?
      ensures var rep := Handle(share, b, sr, sent).recovered.value;
        && rep.body.signer == 0 && rep.body.network == sr.body.network && rep.body.data == sr.body.data && rep.seqNo == sr.seqNo
        && forall net :: Untouched(Some(rep), net)
    {
      RecoversIff(share, b, sr, sent);
    }

    /** Adds to the outer buffer, which shares nothing with the internal ones. */
    method AddReport(sr: SignedReport) returns (ok: bool)
      requires Valid()
      modifies reports, reports.reports.Values
      ensures Valid() && (reports.View(), ok) == old(reports.View()).Add(sr.body.network, sr)
      ensures forall n :: Held(n) == old(Held(n))
    {
      ok := reports.Add(sr.body.network, sr);
      SeparateAfterOuterGrowth();
      OthersStillValid({});
    }

    /** A partial signature is accepted exactly when it is a valid one of a signer and new to this
        node; a reconstructed report exactly when it verifies under the network key and follows the
        sequence rule. Only what is provably wrong is rejected. */
    method Validate(topic: string, msg: Option<SignedReport>) returns (v: ValidationResult)
      requires Valid()
      requires msg.Some? ==> msg.value.seqNo < BlsAdmission.UINT64 && LatestNo(reports.View(), msg.value.body.network) < BlsAdmission.UINT64
      ensures topic !in pubstore ==> v == IGNORE
      ensures topic in pubstore && msg.None? ==> v == REJECT
      ensures topic in pubstore && msg.Some? && msg.value.body.signer > 0 ==>
                var sr, net := msg.value, msg.value.body.network;
                && (v == ACCEPT <==> net in shares && shares[net].Validate(sr) && sr.body.signer !in Held(net).Lookup(sr.seqNo))
                && (v == REJECT <==> net in shares && !shares[net].Validate(sr))
                && v != NIL
      ensures topic in pubstore && msg.Some? && msg.value.body.signer == 0 ==>
                var sr := msg.value;
                v == if sr.body.sig != Malformed && pubstore[topic](sr.body.data, sr.body.sig)
                     then BlsAdmission.Validate(reports.View(), sr.body.network, sr.seqNo) else REJECT
    {
      if topic !in pubstore { return IGNORE; }
      if msg.None? { return REJECT; }
      var sr := msg.value;
      if sr.body.signer > 0 {
        v := ValidateInternalNet(sr);
        return;
      }
      if sr.body.sig == Malformed { return REJECT; }
      if !pubstore[topic](sr.body.data, sr.body.sig) { return REJECT; }
      v := BlsAdmission.ValidateSequence(reports, sr.body.network, sr.seqNo);
    }

    method ValidateInternalNet(sr: SignedReport) returns (v: ValidationResult)
      requires Valid()
      ensures var net := sr.body.network;
              && (v == ACCEPT <==> net in shares && shares[net].Validate(sr) && sr.body.signer !in Held(net).Lookup(sr.seqNo))
              && (v == REJECT <==> net in shares && !shares[net].Validate(sr))
              && v != NIL
    {
      var net := sr.body.network;
      if net !in shares { return IGNORE; }
      if !shares[net].Validate(sr) { return REJECT; }
      if net in internalReports {
        assert ValidBuffer(net);
        var held := internalReports[net].Get(sr.body.signer, sr.seqNo);
        if held.Some? { return IGNORE; }
      }
      v := ACCEPT;
    }

    /** Only the leader of the sequence number signs a triggered report; it goes to the outer buffer
        and out to the network, not to the internal one. */
    method TriggerReport(report: SignedReport) returns (out: Option<SignedReport>)
      requires Valid()
      modifies reports, reports.reports.Values
      ensures Valid() && forall n :: Held(n) == old(Held(n))
      ensures var net := report.body.network;
              if net in shares && shares[net].Leader(report.seqNo) == shares[net].id then
                out == Some(shares[net].Sign(report)) && reports.View() == old(reports.View()).Add(net, shares[net].Sign(report)).0
              else
                out == None && reports.View() == old(reports.View())
    {
      var net := report.body.network;
      if net !in shares { return None; }
      var share := shares[net];
      if share.Leader(report.seqNo) != share.id { return None; }
      var signed := share.Sign(report);
      var _ := AddReport(signed);
      out := Some(signed);
    }
  }
}

/** The DON example (examples/don): the same cache with signed 64-bit sequence numbers, its
    sequence rule, and the quorum check of a report's signatures. */
module DonVerifier {
  import opened Options
  import opened Collections
  import opened Modular
  import opened Ring
  import opened ReportCache
  import opened Admission
  import opened Quorum

  const INT63 := 0x8000_0000_0000_0000

  type Int64 = x: int | -INT63 <= x < INT63

  /** Go's slice indexing panics on a negative index. */
  datatype Access<+T> = Value(value: T) | IndexPanic

  /** Go's remainder keeps the sign of the dividend, so a negative number that is no multiple of the
      size indexes outside the buffer. */
  predicate Indexable(size: nat, q: Int64)
    requires size > 0
  {
    q >= 0 || q % size == 0
  }

  /** Signed 64-bit overflow. */
  function Wrap(x: int): (r: Int64)
    ensures -INT63 <= x < INT63 ==> r == x
  {
    (x + INT63) % (2 * INT63) - INT63
  }

  function Add<P>(b: Buffer<string, P>, don: string, q: Int64, body: P): Access<(Buffer<string, P>, bool)>
    requires b.Valid()
  {
    if q >= 0 then Value(b.Add(don, Stamped(q, body)))
    else if Indexable(b.size, q) then Value((b, false))
    else IndexPanic
  }

  function Get<P>(b: Buffer<string, P>, don: string, q: Int64): Access<Option<Stamped<P>>>
    requires b.Valid()
  {
    if don !in b.rows then Value(None)
    else if q >= 0 then Value(b.Get(don, q))
    else if Indexable(b.size, q) then Value(None)
    else IndexPanic
  }

  function Validate<P>(b: Buffer<string, P>, don: string, q: Int64): Access<ValidationResult>
    requires b.Valid()
  {
    var diff := match b.Latest(don) case None => 0 case Some(latest) => Wrap(q - latest.seqNo);
    if Decide(diff, false) != ACCEPT then Value(Decide(diff, false)) else
      match Get(b, don, q)
      case IndexPanic => IndexPanic
      case Value(seen) => Value(Decide(diff, seen.Some?))
  }

  method ValidateSequence<P>(rb: ReportBuffer<string, P>, don: string, q: Int64) returns (v: Access<ValidationResult>)
    requires rb.Valid()
    ensures v == Validate(rb.View(), don, q)
  {
    var latest := rb.GetLatest(don);
    if latest.Some? {
      var diff := Wrap(q - latest.value.seqNo);
      if diff > INVALID_THRESHOLD {
        return Value(REJECT);
      } else if diff > SKIP_THRESHOLD {
        return Value(IGNORE);
      }
    }
    if latest.Some? && !Indexable(rb.size, q) { return IndexPanic; }
    if q < 0 { return Value(ACCEPT); }
    var seen := rb.Get(don, q);
    v := Value(if seen.Some? then IGNORE else ACCEPT);
  }

  /** A DON of which nothing is held yet: every number is accepted, negative ones included. */
  lemma {:induction false} UnknownIsAccepted<P>(b: Buffer<string, P>, don: string, q: Int64)
    requires b.Valid() && don !in b.rows
    ensures Validate(b, don, q) == Value(ACCEPT)
  {
  }

  /** The whole rule for a known DON, the signed difference wrapping around. */
  lemma {:induction false} ValidateExact<P>(b: Buffer<string, P>, don: string, q: Int64)
    requires b.Valid() && don in b.rows && b.Latest(don).value.seqNo < INT63
    ensures var far, v := q - b.Latest(don).value.seqNo, Validate(b, don, q);
            var ahead := if far >= -0x8000_0000_0000_0000 then far else far + 0x1_0000_0000_0000_0000;
            && (v == IndexPanic <==> ahead <= 5 && q < 0 && q % b.size != 0)
            && (v == Value(REJECT) <==> ahead > 25)
            && (v == Value(ACCEPT) <==> ahead <= 5 && if q >= 0 then don !in b.Lookup(q) else q % b.size == 0)
            && v != Value(NIL)
  {
    WrapCases(q - b.Latest(don).value.seqNo);
  }

  /** The rule on numbers that are not negative: more than twenty-five ahead of the latest is
      rejected, six to twenty-five ahead or seen is ignored, everything else, however old, accepted. */
  lemma {:induction false} ValidateMeans<P>(b: Buffer<string, P>, don: string, q: Int64)
    requires b.Valid() && q >= 0 && don in b.rows && b.Latest(don).value.seqNo < INT63
    ensures var latest, v := b.Latest(don).value.seqNo, Validate(b, don, q);
      && v.Value?
      && (v.value == REJECT <==> q > latest + 25)
      && (v.value == ACCEPT <==> q <= latest + 5 && don !in b.Lookup(q))
      && v.value != NIL
  {
    assert Wrap(q - b.Latest(don).value.seqNo) == q - b.Latest(don).value.seqNo;
  }

  /** The sequence rule panics exactly on the negative numbers that are no multiple of the size,
      except those so far below the latest one that their distance wraps around to more than five. */
  lemma {:induction false} PanicsIff<P>(b: Buffer<string, P>, don: string, q: Int64)
    requires b.Valid() && (don in b.rows ==> b.Latest(don).value.seqNo < INT63)
    ensures Validate(b, don, q) == IndexPanic
       <==> don in b.rows && q < 0 && q % b.size != 0 &&
            var diff := q - b.Latest(don).value.seqNo; diff >= -INT63 || diff + 2 * INT63 <= SKIP_THRESHOLD
  {
    if don in b.rows {
      WrapCases(q - b.Latest(don).value.seqNo);
    }
  }

  lemma {:induction false} WrapCases(diff: int)
    requires -2 * INT63 < diff < INT63
    ensures Wrap(diff) == if diff >= -INT63 then diff else diff + 2 * INT63
  {
  }

  /** Exactly what adding a negative number does, whatever is held: it panics unless it is a multiple of the
      size, and is never recorded. */
  lemma {:induction false} AddNegative<P>(b: Buffer<string, P>, don: string, q: Int64, body: P)
    requires b.Valid() && q < 0
    ensures Add(b, don, q, body) == if q % b.size == 0 then Value((b, false)) else IndexPanic
  {
  }

  // --- runs of validate-then-add ------------------------------------------------------------------

  /** An accepted report less than a buffer size below the latest one is always taken. */
  lemma {:induction false} AcceptedIsAdded<P>(b: Buffer<string, P>, don: string, q: Int64, body: P)
    requires b.Valid() && 0 < q && LatestNo(b, don) < q + b.size
    requires Validate(b, don, q) == Value(ACCEPT)
    ensures Add(b, don, q, body).value.1
  {
    if don in b.rows {
      LatestIsPositive(b, don);
      var held := b.rows[don][Mod(q, b.size)];
      assert held.seqNo != q;
      if held.seqNo > q {
        NextCongruent(b.size, q, held.seqNo);
      }
    }
  }

  /** One report is validated and, if accepted, added. The second result says whether it was
      recorded; a panic records nothing. */
  function AdmitOne<P>(b: Buffer<string, P>, don: string, q: Int64, body: P): (res: (Buffer<string, P>, bool))
    requires b.Valid()
    ensures res.0.Valid() && res.0.size == b.size
    ensures res.1 ==> q > 0 && b.Add(don, Stamped(q, body)) == (res.0, true) && Validate(b, don, q) == Value(ACCEPT)
    ensures !res.1 ==> res.0 == b
  {
    if Validate(b, don, q) != Value(ACCEPT) then (b, false) else
      match Add(b, don, q, body) case Value(res) => res case IndexPanic => (b, false)
  }

  /** The cache after offering every report in turn to an empty one, with the recorded numbers. */
  function Admit<P>(size: nat, zero: P, don: string, reports: seq<(Int64, P)>): (res: (Buffer<string, P>, seq<nat>))
    requires size > 0
    ensures res.0.Valid() && res.0.size == size
  {
    if reports == [] then (New(size, zero), []) else
      var n := |reports| - 1;
      var (b, recorded) := Admit(size, zero, don, reports[..n]);
      var (q, body) := reports[n];
      var (b', ok) := AdmitOne(b, don, q, body);
      (b', if ok then recorded + [q as nat] else recorded)
  }

  /** Every number above the first one has another one within the five below it. */
  ghost predicate Linked(recorded: seq<nat>) {
    forall i :: 0 <= i < |recorded| && recorded[i] > recorded[0] ==> HasPredecessor(recorded, recorded[i])
  }

  ghost predicate HasPredecessor(recorded: seq<nat>, q: nat) {
    exists i :: 0 <= i < |recorded| && recorded[i] < q <= recorded[i] + SKIP_THRESHOLD
  }

  predicate NoRepeats(s: seq<nat>) {
    forall i, j :: 0 <= i < j < |s| ==> s[i] != s[j]
  }

  /** Walking down from a recorded number above `q` reaches one just below it. */
  lemma {:induction false} WalkDown(recorded: seq<nat>, q: nat, i: nat)
    requires Linked(recorded) && i < |recorded| && recorded[0] < q < recorded[i] && q !in recorded
    ensures HasPredecessor(recorded, q)
    decreases recorded[i]
  {
    assert HasPredecessor(recorded, recorded[i]);
    var j :| 0 <= j < |recorded| && recorded[j] < recorded[i] <= recorded[j] + SKIP_THRESHOLD;
    assert recorded[j] in recorded;
    if recorded[j] > q {
      WalkDown(recorded, q, j);
    }
  }

  lemma {:induction false} LinkedAppend(recorded: seq<nat>, q: nat)
    requires Linked(recorded) && (recorded != [] && q > recorded[0] ==> HasPredecessor(recorded, q))
    ensures Linked(recorded + [q])
  {
    var r' := recorded + [q];
    forall i | 0 <= i < |r'| && r'[i] > r'[0] ensures HasPredecessor(r', r'[i]) {
      assert HasPredecessor(recorded, r'[i]);
      var j :| 0 <= j < |recorded| && recorded[j] < r'[i] <= recorded[j] + SKIP_THRESHOLD;
      assert r'[j] == recorded[j];
    }
  }

  /** What every run keeps between the cache and the recorded numbers. */
  ghost predicate Tracks<P>(b: Buffer<string, P>, don: string, recorded: seq<nat>)
    requires b.Valid()
  {
    && (don in b.rows <==> recorded != [])
    && (recorded != [] ==> LatestNo(b, don) in recorded)
    && (forall i :: 0 <= i < |recorded| ==> 0 < recorded[i] <= LatestNo(b, don))
    && (forall i :: 0 <= i < |recorded| ==> recorded[i] <= b.Row(don)[Mod(recorded[i], b.size)].seqNo)
  }

  lemma {:induction false} SlotsGrow<P>(b: Buffer<string, P>, don: string, r: Stamped<P>)
    requires b.Valid() && b.Add(don, r).1
    ensures forall i :: 0 <= i < b.size ==> b.Row(don)[i].seqNo <= b.Add(don, r).0.Row(don)[i].seqNo
    ensures b.Add(don, r).0.Row(don)[Mod(r.seqNo, b.size)] == r && b.Row(don)[Mod(r.seqNo, b.size)].seqNo < r.seqNo
  {
  }

  lemma {:induction false} TracksAdd<P>(b: Buffer<string, P>, don: string, recorded: seq<nat>, r: Stamped<P>)
    requires b.Valid() && Tracks(b, don, recorded) && b.Add(don, r).1
    ensures Tracks(b.Add(don, r).0, don, recorded + [r.seqNo]) && r.seqNo !in recorded
  {
    LatestAfterAdd(b, don, r);
    SlotsGrow(b, don, r);
    assert forall i :: 0 <= i < |recorded| ==> recorded[i] != r.seqNo;
    var recorded' := recorded + [r.seqNo];
    assert recorded'[|recorded|] == r.seqNo;
    if recorded != [] {
      var i :| 0 <= i < |recorded| && recorded[i] == LatestNo(b, don);
      assert recorded'[i] == LatestNo(b, don);
    }
  }

  /** An accepted number is at most five above the latest. */
  lemma {:induction false} AcceptedIsNear<P>(b: Buffer<string, P>, don: string, q: Int64)
    requires b.Valid() && q >= 0 && don in b.rows && LatestNo(b, don) < INT63 && Validate(b, don, q) == Value(ACCEPT)
    ensures q <= LatestNo(b, don) + SKIP_THRESHOLD
  {
    assert Wrap(q - LatestNo(b, don)) == q - LatestNo(b, don);
  }

  ghost predicate WellRecorded<P>(b: Buffer<string, P>, don: string, recorded: seq<nat>)
    requires b.Valid()
  {
    Tracks(b, don, recorded) && NoRepeats(recorded) && Linked(recorded) && LatestNo(b, don) < INT63
  }

  lemma {:induction false} RecordedStep<P>(b: Buffer<string, P>, don: string, recorded: seq<nat>, q: Int64, body: P)
    requires b.Valid() && WellRecorded(b, don, recorded) && AdmitOne(b, don, q, body).1
    ensures WellRecorded(AdmitOne(b, don, q, body).0, don, recorded + [q as nat])
  {
    TracksAdd(b, don, recorded, Stamped(q, body));
    LatestAfterAdd(b, don, Stamped(q, body));
    if recorded != [] && q > recorded[0] {
      AcceptedIsNear(b, don, q);
      NearHasPredecessor(recorded, q, LatestNo(b, don));
    }
    LinkedAppend(recorded, q);
  }

  /** A new number at most five above a recorded one has another within the five below it. */
  lemma {:induction false} NearHasPredecessor(recorded: seq<nat>, q: nat, latest: nat)
    requires Linked(recorded) && latest in recorded && q !in recorded && recorded[0] < q <= latest + SKIP_THRESHOLD
    ensures HasPredecessor(recorded, q)
  {
    var i :| 0 <= i < |recorded| && recorded[i] == latest;
    if q < latest {
      WalkDown(recorded, q, i);
    } else {
      assert recorded[i] < q <= recorded[i] + SKIP_THRESHOLD;
    }
  }

  /** In every run from an empty cache, no number is recorded twice, the latest number is the
      largest recorded one, and every recorded number above the first has another within the five
      below it. */
  lemma {:induction false} AdmittedIsLinked<P>(size: nat, zero: P, don: string, reports: seq<(Int64, P)>)
    requires size > 0
    ensures var (b, recorded) := Admit(size, zero, don, reports); WellRecorded(b, don, recorded)
    decreases |reports|
  {
    if reports != [] {
      var n := |reports| - 1;
      var (q, body) := reports[n];
      AdmittedIsLinked(size, zero, don, reports[..n]);
      var (b, recorded) := Admit(size, zero, don, reports[..n]);
      if AdmitOne(b, don, q, body).1 {
        RecordedStep(b, don, recorded, q, body);
      }
    }
  }

  /** The first number of a DON is recorded if and only if it is positive. */
  lemma {:induction false} FirstStep<P>(b: Buffer<string, P>, don: string, q: Int64, body: P)
    requires b.Valid() && don !in b.rows
    ensures var (b', ok) := AdmitOne(b, don, q, body); (ok <==> q > 0) && (don in b'.rows <==> ok)
  {
    UnknownIsAccepted(b, don, q);
    if q > 0 {
      AboveLatestIsAdded(b, don, Stamped(q, body));
    }
  }

  predicate FirstPositive(numbers: seq<int>, i: int) {
    0 <= i < |numbers| && numbers[i] > 0 && forall j :: 0 <= j < i ==> numbers[j] <= 0
  }

  function Numbers<P>(reports: seq<(Int64, P)>): (numbers: seq<int>)
    ensures |numbers| == |reports|
  {
    seq(|reports|, i requires 0 <= i < |reports| => reports[i].0)
  }

  /** The recorded numbers start with the first positive one offered, if there is any. */
  ghost predicate StartsRight(numbers: seq<int>, recorded: seq<nat>) {
    && (recorded == [] <==> forall i :: 0 <= i < |numbers| ==> numbers[i] <= 0)
    && (recorded != [] ==> exists i :: FirstPositive(numbers, i) && numbers[i] == recorded[0])
  }

  lemma {:induction false} StartsStep(numbers: seq<int>, recorded: seq<nat>, recorded': seq<nat>)
    requires numbers != [] && StartsRight(numbers[..|numbers| - 1], recorded)
    requires recorded == [] ==> recorded' == if numbers[|numbers| - 1] > 0 then [numbers[|numbers| - 1] as nat] else []
    requires recorded != [] ==> recorded' != [] && recorded'[0] == recorded[0]
    ensures StartsRight(numbers, recorded')
  {
    var n := |numbers| - 1;
    assert forall i :: 0 <= i < n ==> numbers[i] == numbers[..n][i];
    if recorded != [] {
      var i :| FirstPositive(numbers[..n], i) && numbers[..n][i] == recorded[0];
      assert FirstPositive(numbers, i);
    } else if numbers[n] > 0 {
      assert FirstPositive(numbers, n);
    }
  }

  /** In every run from an empty cache something is recorded as soon as any number is positive, and the first
      recorded number is the first positive one. */
  lemma {:induction false} FirstIsRecorded<P>(size: nat, zero: P, don: string, reports: seq<(Int64, P)>)
    requires size > 0
    ensures StartsRight(Numbers(reports), Admit(size, zero, don, reports).1)
    decreases |reports|
  {
    if reports != [] {
      var n := |reports| - 1;
      var (b, recorded) := Admit(size, zero, don, reports[..n]);
      FirstIsRecorded(size, zero, don, reports[..n]);
      KnownIffRecorded(size, zero, don, reports[..n]);
      assert Numbers(reports)[..n] == Numbers(reports[..n]);
      AdmitNext(size, zero, don, reports);
      NextStarts(b, don, recorded, reports[n].0, reports[n].1);
      StartsStep(Numbers(reports), recorded, Admit(size, zero, don, reports).1);
    }
  }

  lemma {:induction false} KnownIffRecorded<P>(size: nat, zero: P, don: string, reports: seq<(Int64, P)>)
    requires size > 0
    ensures var (b, recorded) := Admit(size, zero, don, reports); don in b.rows <==> recorded != []
  {
    AdmittedIsLinked(size, zero, don, reports);
  }

  lemma {:induction false} NextStarts<P>(b: Buffer<string, P>, don: string, recorded: seq<nat>, q: Int64, body: P)
    requires b.Valid() && (don in b.rows <==> recorded != [])
    ensures var ok := AdmitOne(b, don, q, body).1;
            && (recorded == [] ==> (ok <==> q > 0))
            && (recorded != [] && ok ==> (recorded + [q as nat])[0] == recorded[0])
  {
    if recorded == [] {
      FirstStep(b, don, q, body);
    }
  }

  lemma {:induction false} AdmitNext<P>(size: nat, zero: P, don: string, reports: seq<(Int64, P)>)
    requires size > 0 && reports != []
    ensures var n, (b, recorded) := |reports| - 1, Admit(size, zero, don, reports[..|reports| - 1]);
            var (b', ok) := AdmitOne(b, don, reports[n].0, reports[n].1);
            && Admit(size, zero, don, reports).1 == (if ok then recorded + [reports[n].0 as nat] else recorded)
            && (ok ==> reports[n].0 > 0)
  {
  }

  // --- the signature quorum ------------------------------------------------------------------------

  /** The index of an oracle; its width plays no role here. */
  type OracleID = int

  /** Which known oracles signed the report. */
  function Present<K, S>(pubkeys: map<OracleID, K>, sigs: map<OracleID, S>): set<OracleID> {
    pubkeys.Keys * sigs.Keys
  }

  predicate Signed<K, S>(pubkeys: map<OracleID, K>, sigs: map<OracleID, S>, verifies: (K, S) -> bool, oid: OracleID)
    requires oid in pubkeys && oid in sigs
  {
    verifies(pubkeys[oid], sigs[oid])
  }

  /** Every known oracle that signed did so validly, and enough of them signed. */
  ghost predicate Quorate<K, S>(pubkeys: map<OracleID, K>, sigs: map<OracleID, S>, verifies: (K, S) -> bool) {
    && (forall oid :: oid in Present(pubkeys, sigs) ==> Signed(pubkeys, sigs, verifies, oid))
    && |Present(pubkeys, sigs)| >= Threshold(|pubkeys|)
  }

  datatype Report<S> = Report(src: string, seqNo: Int64, sigs: map<OracleID, S>)

  /** Processes an incoming report; `None` is one that does not decode. The oracles are visited in
      the map's order and an invalid signature ends the loop. */
  method Process<K, S, P>(rb: ReportBuffer<string, P>, dons: map<string, map<OracleID, K>>, msg: Option<Report<S>>, verifies: (K, S) -> bool)
    returns (v: Access<ValidationResult>)
    requires rb.Valid()
    ensures msg.None? ==> v == Value(REJECT)
    ensures msg.Some? && msg.value.src !in dons ==> v == Value(IGNORE)
    ensures msg.Some? && msg.value.src in dons ==>
              v == if Quorate(dons[msg.value.src], msg.value.sigs, verifies)
                   then Validate(rb.View(), msg.value.src, msg.value.seqNo)
                   else Value(REJECT)
  {
    if msg.None? { return Value(REJECT); }
    var r := msg.value;
    if r.src !in dons { return Value(IGNORE); }
    var pubkeys := dons[r.src];
    var valid := CountValid(pubkeys, r.sigs, verifies);
    if valid.None? || valid.value < Threshold(|pubkeys|) { return Value(REJECT); }
    v := ValidateSequence(rb, r.src, r.seqNo);
  }

  /** Counts the valid signatures of known oracles; `None` as soon as one is invalid. */
  method CountValid<K, S>(pubkeys: map<OracleID, K>, sigs: map<OracleID, S>, verifies: (K, S) -> bool) returns (count: Option<nat>)
    ensures count.Some? <==> forall oid :: oid in Present(pubkeys, sigs) ==> Signed(pubkeys, sigs, verifies, oid)
    ensures count.Some? ==> count.value == |Present(pubkeys, sigs)|
  {
    var valid := 0;
    var left := pubkeys.Keys;
    ghost var counted: set<OracleID> := {};
    while left != {}
      invariant left <= pubkeys.Keys
      invariant counted == Present(pubkeys, sigs) - left && valid == |counted|
      invariant forall oid :: oid in counted ==> Signed(pubkeys, sigs, verifies, oid)
    {
      var oid := Pick(left);
      left := left - {oid};
      if oid in sigs {
        if !Signed(pubkeys, sigs, verifies, oid) {
          assert oid in Present(pubkeys, sigs);
          return None;
        }
        valid := valid + 1;
        counted := counted + {oid};
      }
    }
    assert counted == Present(pubkeys, sigs);
    count := Some(valid);
  }

  /** Two reports that pass the quorum check of the same DON were signed by more oracles in common
      than may be faulty. */
  lemma {:induction false} QuoratesIntersect<K, S>(pubkeys: map<OracleID, K>, sigs: map<OracleID, S>, sigs': map<OracleID, S>, verifies: (K, S) -> bool)
    requires pubkeys != map[] && Quorate(pubkeys, sigs, verifies) && Quorate(pubkeys, sigs', verifies)
    ensures |Present(pubkeys, sigs) * Present(pubkeys, sigs')| > MaxFaulty(|pubkeys|)
  {
    assert pubkeys.Keys != {};
    QuorumsIntersect(pubkeys.Keys, Present(pubkeys, sigs), Present(pubkeys, sigs'));
  }
}

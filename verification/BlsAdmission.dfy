/** Admission of reconstructed reports in the BLS example, with its unsigned 64-bit difference. */
module BlsAdmission {
  import opened Ring
  import opened ReportCache
  import opened Admission

  const UINT64 := 0x1_0000_0000_0000_0000

  /** Subtraction of unsigned 64-bit numbers, which wraps around. */
  function Diff(q: nat, latest: nat): (d: nat)
    requires q < UINT64 && latest < UINT64
    ensures d == if q >= latest then q - latest else q - latest + UINT64
  {
    (q - latest) % UINT64
  }

  function Validate<P>(b: Buffer<string, P>, net: string, q: nat): ValidationResult
    requires b.Valid() && q < UINT64 && LatestNo(b, net) < UINT64
  {
    var seen := b.Get(net, q).Some?;
    match b.Latest(net)
    case None => Decide(0, seen)
    case Some(latest) => Decide(Diff(q, latest.seqNo), seen)
  }

  method ValidateSequence<P>(rb: ReportBuffer<string, P>, net: string, q: nat) returns (v: ValidationResult)
    requires rb.Valid() && q < UINT64 && LatestNo(rb.View(), net) < UINT64
    ensures v == Validate(rb.View(), net, q)
  {
    var latest := rb.GetLatest(net);
    if latest.Some? {
      var diff := Diff(q, latest.value.seqNo);
      if diff > INVALID_THRESHOLD {
        return REJECT;
      } else if diff > SKIP_THRESHOLD {
        return IGNORE;
      }
    }
    var seen := rb.Get(net, q);
    v := if seen.Some? then IGNORE else ACCEPT;
  }

  /** The rule on numbers that do not wrap: one to five ahead is taken, the latest one and six to
      twenty-five ahead are ignored, older ones and ones further ahead are rejected. */
  function Intended(latest: nat, q: nat): ValidationResult {
    if latest < q <= latest + SKIP_THRESHOLD then ACCEPT
    else if latest <= q <= latest + INVALID_THRESHOLD then IGNORE
    else REJECT
  }

  /** A network of which nothing is held yet: every number is accepted. */
  lemma {:induction false} UnknownIsAccepted<P>(b: Buffer<string, P>, net: string, q: nat)
    requires b.Valid() && net !in b.rows && q < UINT64
    ensures Validate(b, net, q) == ACCEPT
  {
  }

  /** The rule for every 64-bit number and every latest one, wrapping included: the distance forward is at
      most 5 and the number is not held, or 6 to 25, or more. */
  lemma {:induction false} ValidateExact<P>(b: Buffer<string, P>, net: string, q: nat)
    requires b.Valid() && net in b.rows && q < UINT64 && LatestNo(b, net) < UINT64
    ensures var latest, v := LatestNo(b, net), Validate(b, net, q);
            var ahead := if q >= latest then q - latest else q - latest + 0x1_0000_0000_0000_0000;
            && (v == REJECT <==> ahead > 25)
            && (v == ACCEPT <==> ahead <= 5 && b.Get(net, q).None?)
            && v != NIL
  {
  }

  lemma {:induction false} ValidateBelowWrap<P>(b: Buffer<string, P>, net: string, q: nat)
    requires b.Valid() && net in b.rows && q < UINT64
    requires LatestNo(b, net) + INVALID_THRESHOLD < UINT64
    ensures Validate(b, net, q) == Intended(LatestNo(b, net), q)
    ensures var latest := LatestNo(b, net);
            && (Validate(b, net, q) == ACCEPT <==> latest + 1 <= q <= latest + 5)
            && (Validate(b, net, q) == REJECT <==> q < latest || q > latest + 25)
  {
    var latest := LatestNo(b, net);
    LatestIsPositive(b, net);
    if q > latest {
      AboveLatestIsAdded(b, net, Stamped(q, b.zero));
    }
  }

  /** The code follows the intended rule for every 64-bit number exactly when the latest one is
      more than twenty-five below the wrap-around. */
  lemma {:induction false} ValidateIsIntendedIff<P>(b: Buffer<string, P>, net: string)
    requires b.Valid() && net in b.rows && LatestNo(b, net) < UINT64
    ensures (forall q: nat :: q < UINT64 ==> Validate(b, net, q) == Intended(LatestNo(b, net), q))
       <==> LatestNo(b, net) + INVALID_THRESHOLD < UINT64
  {
    var latest := LatestNo(b, net);
    if latest + INVALID_THRESHOLD < UINT64 {
      forall q: nat | q < UINT64 ensures Validate(b, net, q) == Intended(latest, q) {
        ValidateBelowWrap(b, net, q);
      }
    } else {
      var q: nat := latest + INVALID_THRESHOLD - UINT64;
      assert Diff(q, latest) == INVALID_THRESHOLD;
      assert Validate(b, net, q) == IGNORE && Intended(latest, q) == REJECT;
    }
  }

  /** One report is validated and, if accepted, added. The second result says whether it was
      recorded. */
  function AdmitOne<P>(b: Buffer<string, P>, net: string, r: Stamped<P>): (res: (Buffer<string, P>, bool))
    requires b.Valid() && r.seqNo < UINT64 && LatestNo(b, net) < UINT64
    ensures res.0.Valid() && LatestNo(res.0, net) < UINT64
    ensures LatestNo(b, net) <= LatestNo(res.0, net)
    ensures net in b.rows ==> net in res.0.rows
  {
    if Validate(b, net, r.seqNo) == ACCEPT && b.Add(net, r).1 then
      LatestAfterAdd(b, net, r);
      (b.Add(net, r).0, true)
    else
      (b, false)
  }

  /** A whole run of validate-then-add, with the recorded numbers. */
  function Admit<P>(b: Buffer<string, P>, net: string, reports: seq<Stamped<P>>): (res: (Buffer<string, P>, seq<nat>))
    requires b.Valid() && LatestNo(b, net) < UINT64
    requires forall i :: 0 <= i < |reports| ==> reports[i].seqNo < UINT64
    ensures res.0.Valid() && LatestNo(res.0, net) < UINT64
    ensures net in b.rows ==> net in res.0.rows
  {
    if reports == [] then (b, []) else
      var n := |reports| - 1;
      var (b', recorded) := Admit(b, net, reports[..n]);
      var (b'', ok) := AdmitOne(b', net, reports[n]);
      (b'', if ok then recorded + [reports[n].seqNo] else recorded)
  }

  lemma {:induction false} AdmitOneStep<P>(b: Buffer<string, P>, net: string, r: Stamped<P>)
    requires b.Valid() && net in b.rows && r.seqNo < UINT64 && LatestNo(b, net) + INVALID_THRESHOLD < UINT64
    ensures var (b', ok) := AdmitOne(b, net, r);
            && LatestNo(b', net) == (if ok then r.seqNo else LatestNo(b, net))
            && (ok <==> LatestNo(b, net) < r.seqNo <= LatestNo(b, net) + SKIP_THRESHOLD)
  {
    ValidateBelowWrap(b, net, r.seqNo);
    if r.seqNo > LatestNo(b, net) {
      AboveLatestIsAdded(b, net, r);
      LatestAfterAdd(b, net, r);
    }
  }

  /** Numbers from `start` to `end`, increasing strictly by steps of one to five. */
  predicate SmallSteps(start: nat, s: seq<nat>, end: nat) {
    if s == [] then end == start else
      var n := |s| - 1;
      var previous := if n == 0 then start else s[n - 1];
      end == s[n] && previous < end <= previous + SKIP_THRESHOLD && SmallSteps(start, s[..n], previous)
  }

  lemma {:induction false} StepsAppend(start: nat, s: seq<nat>, end: nat, q: nat)
    requires SmallSteps(start, s, end) && end < q <= end + SKIP_THRESHOLD
    ensures SmallSteps(start, s + [q], q)
  {
    assert (s + [q])[..|s|] == s;
  }

  lemma {:induction false} StepsBound(start: nat, s: seq<nat>, end: nat)
    requires SmallSteps(start, s, end)
    ensures start + |s| <= end <= start + SKIP_THRESHOLD * |s|
    decreases |s|
  {
    if s != [] {
      var n := |s| - 1;
      StepsBound(start, s[..n], if n == 0 then start else s[n - 1]);
    }
  }

  /** In every run of validate-then-add on a non-empty cache the recorded numbers increase by steps
      of one to five, so that k of them move the latest number by between k and 5k. */
  lemma {:induction false} AdmittedInSmallSteps<P>(b: Buffer<string, P>, net: string, reports: seq<Stamped<P>>)
    requires b.Valid() && net in b.rows && LatestNo(b, net) < UINT64
    requires forall i :: 0 <= i < |reports| ==> reports[i].seqNo < UINT64
    requires LatestNo(Admit(b, net, reports).0, net) + INVALID_THRESHOLD < UINT64
    ensures var (b', recorded) := Admit(b, net, reports);
            && SmallSteps(LatestNo(b, net), recorded, LatestNo(b', net))
            && LatestNo(b, net) + |recorded| <= LatestNo(b', net) <= LatestNo(b, net) + SKIP_THRESHOLD * |recorded|
  {
    AdmitSteps(b, net, reports);
    var (b', recorded) := Admit(b, net, reports);
    StepsBound(LatestNo(b, net), recorded, LatestNo(b', net));
  }

  lemma {:induction false} AdmitSteps<P>(b: Buffer<string, P>, net: string, reports: seq<Stamped<P>>)
    requires b.Valid() && net in b.rows && LatestNo(b, net) < UINT64
    requires forall i :: 0 <= i < |reports| ==> reports[i].seqNo < UINT64
    requires LatestNo(Admit(b, net, reports).0, net) + INVALID_THRESHOLD < UINT64
    ensures var (b', recorded) := Admit(b, net, reports); SmallSteps(LatestNo(b, net), recorded, LatestNo(b', net))
    decreases |reports|
  {
    if reports != [] {
      var n := |reports| - 1;
      AdmitSteps(b, net, reports[..n]);
      var (b', recorded) := Admit(b, net, reports[..n]);
      AdmitOneStep(b', net, reports[n]);
      if AdmitOne(b', net, reports[n]).1 {
        StepsAppend(LatestNo(b, net), recorded, LatestNo(b', net), reports[n].seqNo);
      }
    }
  }

  // --- runs from an empty cache ------------------------------------------------------------------------------

  /** The numbers to be recorded of a list: the first positive one, then each that is one to five ahead of
      the last recorded. */
  function Taken(numbers: seq<nat>): seq<nat> {
    if numbers == [] then [] else
      Take(Taken(numbers[..|numbers| - 1]), numbers[|numbers| - 1])
  }

  function Take(before: seq<nat>, q: nat): seq<nat> {
    if before == [] then (if q > 0 then [q] else [])
    else if before[|before| - 1] < q <= before[|before| - 1] + 5 then before + [q]
    else before
  }

  /** What the cache knows of the recorded numbers. */
  ghost predicate Follows<P>(b: Buffer<string, P>, net: string, recorded: seq<nat>) {
    && (net in b.rows <==> recorded != []) && (recorded != [] ==> LatestNo(b, net) == recorded[|recorded| - 1])
  }

  lemma {:induction false} FollowsStep<P>(b: Buffer<string, P>, net: string, recorded: seq<nat>, r: Stamped<P>)
    requires b.Valid() && Follows(b, net, recorded) && r.seqNo < UINT64 && LatestNo(b, net) + INVALID_THRESHOLD < UINT64
    ensures var (b', ok) := AdmitOne(b, net, r);
            (if ok then recorded + [r.seqNo] else recorded) == Take(recorded, r.seqNo) && Follows(b', net, Take(recorded, r.seqNo))
  {
    if net in b.rows {
      AdmitOneStep(b, net, r);
      RowsStay(b, net, r);
    } else {
      FirstStep(b, net, r);
    }
  }

  function Numbers<P>(reports: seq<Stamped<P>>): (numbers: seq<nat>)
    ensures |numbers| == |reports|
  {
    seq(|reports|, i requires 0 <= i < |reports| => reports[i].seqNo)
  }

  /** The first number of a network is recorded if it is positive. */
  lemma {:induction false} FirstStep<P>(b: Buffer<string, P>, net: string, r: Stamped<P>)
    requires b.Valid() && net !in b.rows && r.seqNo < UINT64
    ensures var (b', ok) := AdmitOne(b, net, r);
            && (ok <==> r.seqNo > 0) && (net in b'.rows <==> ok) && (ok ==> LatestNo(b', net) == r.seqNo)
  {
    UnknownIsAccepted(b, net, r.seqNo);
    if r.seqNo > 0 {
      AboveLatestIsAdded(b, net, r);
      LatestAfterAdd(b, net, r);
    }
  }

  /** Exactly what a run of validate-then-add on an empty cache records. */
  lemma {:induction false} AdmitsFromEmpty<P>(size: nat, zero: P, net: string, reports: seq<Stamped<P>>)
    requires size > 0 && forall i :: 0 <= i < |reports| ==> reports[i].seqNo < UINT64
    requires LatestNo(Admit(New(size, zero), net, reports).0, net) + INVALID_THRESHOLD < UINT64
    ensures var (b, recorded) := Admit(New(size, zero), net, reports);
            recorded == Taken(Numbers(reports)) && Follows(b, net, recorded)
    decreases |reports|
  {
    if reports == [] {
      assert Follows(New<string, P>(size, zero), net, []);
    } else {
      var n := |reports| - 1;
      var (b, recorded) := Admit(New(size, zero), net, reports[..n]);
      AdmitsFromEmpty(size, zero, net, reports[..n]);
      assert Numbers(reports)[..n] == Numbers(reports[..n]);
      FollowsStep(b, net, recorded, reports[n]);
    }
  }

  lemma {:induction false} RowsStay<P>(b: Buffer<string, P>, net: string, r: Stamped<P>)
    requires b.Valid() && net in b.rows && r.seqNo < UINT64 && LatestNo(b, net) < UINT64
    ensures net in AdmitOne(b, net, r).0.rows
  {
  }

  /** Numbers that start with the first positive one offered, if there is any, and increase from there by
      steps of one to five. */
  ghost predicate StepsFromFirst(numbers: seq<nat>, taken: seq<nat>) {
    if taken == [] then forall i :: 0 <= i < |numbers| ==> numbers[i] == 0
    else Climbs(taken) && exists i :: FirstPositive(numbers, i) && numbers[i] == taken[0]
  }

  lemma {:induction false} TakeStep(numbers: seq<nat>, before: seq<nat>)
    requires numbers != [] && StepsFromFirst(numbers[..|numbers| - 1], before)
    ensures StepsFromFirst(numbers, Take(before, numbers[|numbers| - 1]))
  {
    var n := |numbers| - 1;
    var q := numbers[n];
    assert forall i :: 0 <= i < n ==> numbers[i] == numbers[..n][i];
    if before != [] {
      var i :| FirstPositive(numbers[..n], i) && numbers[..n][i] == before[0];
      assert FirstPositive(numbers, i);
      TakeSteps(before, q);
    } else if q > 0 {
      assert FirstPositive(numbers, n);
      assert [q][1..] == [];
    }
  }

  lemma {:induction false} TakeSteps(before: seq<nat>, q: nat)
    requires before != [] && Climbs(before)
    ensures var t := Take(before, q); t != [] && t[0] == before[0] && Climbs(t)
  {
    var last := before[|before| - 1];
    if last < q <= last + 5 {
      var t := before + [q];
      StepsAppend(before[0], before[1..], last, q);
      assert t[1..] == before[1..] + [q] && t[0] == before[0] && t[|t| - 1] == q;
    }
  }

  /** From the first number on, steps of one to five. */
  predicate Climbs(taken: seq<nat>)
    requires taken != []
  {
    SmallSteps(taken[0], taken[1..], taken[|taken| - 1])
  }

  lemma {:induction false} TakenSteps(numbers: seq<nat>)
    ensures StepsFromFirst(numbers, Taken(numbers))
    decreases |numbers|
  {
    if numbers != [] {
      TakenSteps(numbers[..|numbers| - 1]);
      TakeStep(numbers, Taken(numbers[..|numbers| - 1]));
    }
  }

  predicate FirstPositive(numbers: seq<nat>, i: int) {
    0 <= i < |numbers| && numbers[i] > 0 && forall j :: 0 <= j < i ==> numbers[j] == 0
  }
}

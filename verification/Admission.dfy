/** The sequence rule on top of the cache: how far ahead of the latest report a new one may be
    (examples/bls/reportbuf.go, examples/don/verifier.go). */
module Admission {
  import opened Modular
  import opened Ring

  /** The reply of a validator, as the wire protocol names it. */
  datatype ValidationResult = NIL | ACCEPT | IGNORE | REJECT

  const SKIP_THRESHOLD := 5
  const INVALID_THRESHOLD := 25

  /** The decision once the distance to the latest report and the presence of this one are known. */
  function Decide(diff: int, seen: bool): ValidationResult {
    if diff > INVALID_THRESHOLD then REJECT
    else if diff > SKIP_THRESHOLD then IGNORE
    else if seen then IGNORE
    else ACCEPT
  }

  /** The number of the latest report of a key, 0 if there is none. */
  function LatestNo<K(!new), P>(b: Buffer<K, P>, k: K): nat {
    match b.Latest(k) case Some(r) => r.seqNo case None => 0
  }

  // --- facts about the latest report ----------------------------------------------------------------

  lemma {:induction false} LatestIsPositive<K(!new), P>(b: Buffer<K, P>, k: K)
    requires b.Valid() && k in b.rows
    ensures b.Latest(k).value.seqNo > 0
    ensures forall i :: 0 <= i < b.size ==> b.rows[k][i].seqNo <= b.Latest(k).value.seqNo
    ensures b.Get(k, b.Latest(k).value.seqNo).Some?
  {
    var m := b.Latest(k).value;
    var i :| 0 <= i < b.size && b.rows[k][i].seqNo > 0;
    var j :| 0 <= j < b.size && b.rows[k][j] == m;
  }

  /** A successful `Add` moves the latest number to the maximum; a failed one leaves it. */
  lemma {:induction false} LatestAfterAdd<K(!new), P>(b: Buffer<K, P>, k: K, r: Stamped<P>)
    requires b.Valid() && b.Add(k, r).1
    ensures var b' := b.Add(k, r).0;
            k in b'.rows && b'.Latest(k).value.seqNo ==
              if k in b.rows && b.Latest(k).value.seqNo > r.seqNo then b.Latest(k).value.seqNo else r.seqNo
  {
    var b', i := b.Add(k, r).0, Mod(r.seqNo, b.size);
    var row, row' := b.Row(k), b'.rows[k];
    assert row' == row[i := r];
    var m' := b'.Latest(k).value;
    LatestIsPositive(b', k);
    assert row'[i].seqNo <= m'.seqNo;
    var j :| 0 <= j < b.size && row'[j] == m';
    if k in b.rows {
      LatestIsPositive(b, k);
      var m := b.Latest(k).value;
      var l :| 0 <= l < b.size && row[l] == m;
      assert row'[l].seqNo >= m.seqNo;
      assert j != i ==> row[j] == m';
    } else {
      assert forall l :: 0 <= l < b.size ==> row[l].seqNo == 0;
    }
  }

  /** A report numbered above the latest one is never present and always taken. */
  lemma {:induction false} AboveLatestIsAdded<K(!new), P>(b: Buffer<K, P>, k: K, r: Stamped<P>)
    requires b.Valid() && r.seqNo > 0 && (k in b.rows ==> r.seqNo > b.Latest(k).value.seqNo)
    ensures b.Get(k, r.seqNo).None? && b.Add(k, r).1
  {
    if k in b.rows {
      LatestIsPositive(b, k);
    }
  }
}

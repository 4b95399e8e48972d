/** The report cache of both examples (examples/bls/reportbuf.go, examples/don/reportbuf.go): per
    key a fixed number of slots, a report going to the slot of its sequence number modulo the size.
    Sequence number 0 marks an empty slot. */
module Ring {
  import opened Options
  import opened Modular

  /** A report as the cache sees it: its sequence number and the rest. */
  datatype Stamped<+P> = Stamped(seqNo: nat, body: P)

  datatype Buffer<!K(!new), P> = Buffer(size: nat, zero: P, rows: map<K, seq<Stamped<P>>>)
  {
    ghost predicate Valid() {
      && size > 0
      && (forall k :: k in rows ==> ValidRow(rows[k]))
    }

    ghost predicate ValidRow(row: seq<Stamped<P>>) {
      && |row| == size
      && (exists i :: 0 <= i < size && row[i].seqNo > 0)
      && (forall i :: 0 <= i < size ==> Mod(row[i].seqNo, size) == i || row[i] == Stamped(0, zero))
    }

    function EmptyRow(): seq<Stamped<P>> {
      seq(size, _ => Stamped(0, zero))
    }

    function Row(k: K): (row: seq<Stamped<P>>)
      requires Valid()
      ensures |row| == size
      ensures forall i :: 0 <= i < size ==> Mod(row[i].seqNo, size) == i || row[i] == Stamped(0, zero)
    {
      if k in rows then rows[k] else EmptyRow()
    }

    /** Keeps the report if it is newer than what its slot holds, and says whether it did. */
    function Add(k: K, r: Stamped<P>): (res: (Buffer<K, P>, bool))
      requires Valid()
      ensures res.0.Valid() && res.0.size == size && res.0.zero == zero
      ensures !res.1 ==> res.0 == this
      ensures res.1 ==> res.0.Get(k, r.seqNo) == Some(r)
    {
      var i := Mod(r.seqNo, size);
      if Row(k)[i].seqNo < r.seqNo then
        var row := Row(k)[i := r];
        assert ValidRow(row) by { assert row[i].seqNo > 0; }
        (this.(rows := rows[k := row]), true)
      else
        (this, false)
    }

    function Get(k: K, q: nat): Option<Stamped<P>>
      requires Valid()
    {
      if k in rows && rows[k][Mod(q, size)].seqNo == q then Some(rows[k][Mod(q, size)]) else None
    }

    /** The keys that hold a report with sequence number `q`. */
    function Lookup(q: nat): (ids: set<K>)
      requires Valid()
      ensures forall k :: k in ids <==> Get(k, q).Some?
    {
      set k | k in rows && rows[k][Mod(q, size)].seqNo == q
    }

    function Latest(k: K): Option<Stamped<P>> {
      if k in rows then Some(Newest(Stamped(0, zero), rows[k])) else None
    }

    /** Everything held is less than `size` above `q`. */
    ghost predicate InWindow(q: nat) {
      forall k, i :: k in rows && 0 <= i < |rows[k]| ==> rows[k][i].seqNo < q + size
    }
  }

  function New<K(!new), P>(size: nat, zero: P): (b: Buffer<K, P>)
    requires size > 0
    ensures b.Valid() && b.size == size
  {
    Buffer(size, zero, map[])
  }

  /** The first report of the row with the highest sequence number, starting from `latest`. */
  function Newest<P>(latest: Stamped<P>, row: seq<Stamped<P>>): (m: Stamped<P>)
    ensures m == latest || m in row
    ensures latest.seqNo <= m.seqNo
    ensures forall i :: 0 <= i < |row| ==> row[i].seqNo <= m.seqNo
  {
    if row == [] then latest else
      var n := |row| - 1;
      var m := Newest(latest, row[..n]);
      if row[n].seqNo > m.seqNo then row[n] else m
  }

  // --- refinement of the history of offers --------------------------------------------------------

  datatype Offer<!K(!new), P> = Offer(key: K, report: Stamped<P>)

  /** The cache after offering every report of `h` in order. */
  function Replay<K(!new), P>(size: nat, zero: P, h: seq<Offer<K, P>>): (b: Buffer<K, P>)
    requires size > 0
    ensures b.Valid() && b.size == size && b.zero == zero
  {
    if h == [] then New(size, zero) else
      var n := |h| - 1;
      Replay(size, zero, h[..n]).Add(h[n].key, h[n].report).0
  }

  ghost predicate OfferedAt<K(!new), P>(h: seq<Offer<K, P>>, j: int, k: K, q: nat) {
    0 <= j < |h| && h[j].key == k && h[j].report.seqNo == q
  }

  ghost predicate Offered<K(!new), P>(h: seq<Offer<K, P>>, k: K, q: nat) {
    exists j :: OfferedAt(h, j, k, q)
  }

  ghost predicate FirstOfferedAt<K(!new), P>(h: seq<Offer<K, P>>, j: int, k: K, q: nat) {
    OfferedAt(h, j, k, q) && forall i :: i < j ==> !OfferedAt(h, i, k, q)
  }

  /** A later report competes for the slot of `q`: a larger congruent sequence number. */
  ghost predicate Overtaken<K(!new), P>(size: nat, h: seq<Offer<K, P>>, k: K, q: nat)
    requires size > 0
  {
    exists j :: 0 <= j < |h| && h[j].key == k && h[j].report.seqNo > q && Mod(h[j].report.seqNo, size) == Mod(q, size)
  }

  /** What slot `i` of key `k` must hold after `h`. */
  ghost predicate SlotHolds<K(!new), P>(size: nat, zero: P, h: seq<Offer<K, P>>, k: K, i: nat, r: Stamped<P>)
    requires size > 0
  {
    if r.seqNo == 0 then
      r == Stamped(0, zero) && forall j :: 0 <= j < |h| && h[j].key == k && Mod(h[j].report.seqNo, size) == i ==> h[j].report.seqNo == 0
    else
      Mod(r.seqNo, size) == i && !Overtaken(size, h, k, r.seqNo) && exists j :: FirstOfferedAt(h, j, k, r.seqNo) && h[j].report == r
  }

  lemma {:induction false} RowAfterAdd<K(!new), P>(b: Buffer<K, P>, o: Offer<K, P>, k: K, i: nat)
    requires b.Valid() && i < b.size
    ensures b.Add(o.key, o.report).0.Row(k)[i] == Contest(b.size, k, i, o, b.Row(k)[i])
  {
  }

  /** The winner of slot `i` of key `k` between what it holds and one more offer. */
  ghost function Contest<K(!new), P>(size: nat, k: K, i: nat, o: Offer<K, P>, held: Stamped<P>): Stamped<P>
    requires size > 0
  {
    if o.key == k && Mod(o.report.seqNo, size) == i && held.seqNo < o.report.seqNo then o.report else held
  }

  lemma {:induction false} SlotStep<K(!new), P>(size: nat, zero: P, h: seq<Offer<K, P>>, o: Offer<K, P>, k: K, i: nat, held: Stamped<P>)
    requires i < size && SlotHolds(size, zero, h, k, i, held)
    ensures SlotHolds(size, zero, h + [o], k, i, Contest(size, k, i, o, held))
  {
    var h', n := h + [o], |h|;
    if held.seqNo > 0 {
      var j :| FirstOfferedAt(h, j, k, held.seqNo) && h[j].report == held;
      FirstOfferStays(h, o, j, k, held.seqNo);
    }
    if Contest(size, k, i, o, held) != held {
      var q := o.report.seqNo;
      assert FirstOfferedAt(h', n, k, q) by {
        forall j | j < n ensures !OfferedAt(h', j, k, q) {
          if 0 <= j { assert h'[j] == h[j]; }
        }
      }
    }
  }

  lemma {:induction false} FirstOfferStays<K(!new), P>(h: seq<Offer<K, P>>, o: Offer<K, P>, j: int, k: K, q: nat)
    requires FirstOfferedAt(h, j, k, q)
    ensures FirstOfferedAt(h + [o], j, k, q)
  {
    assert forall i :: i < j ==> (OfferedAt(h + [o], i, k, q) <==> OfferedAt(h, i, k, q));
  }

  /** Every slot holds the first report offered with the largest sequence number of its class. */
  lemma {:induction false} SlotRefinesHistory<K(!new), P>(size: nat, zero: P, h: seq<Offer<K, P>>, k: K, i: nat)
    requires i < size
    ensures SlotHolds(size, zero, h, k, i, Replay(size, zero, h).Row(k)[i])
    decreases |h|
  {
    if h != [] {
      var n := |h| - 1;
      var b := Replay(size, zero, h[..n]);
      SlotRefinesHistory(size, zero, h[..n], k, i);
      RowAfterAdd(b, h[n], k, i);
      SlotStep(size, zero, h[..n], h[n], k, i, b.Row(k)[i]);
      assert h == h[..n] + [h[n]];
    }
  }

  /** Retrieval agrees with the whole history: a report is found exactly when one with that number
      was offered and none with a larger congruent number, and it is the first one offered. */
  lemma {:induction false} GetRefinesHistory<K(!new), P>(size: nat, zero: P, h: seq<Offer<K, P>>, k: K, q: nat)
    requires size > 0 && q > 0
    ensures var got := Replay(size, zero, h).Get(k, q);
            && (got.Some? <==> Offered(h, k, q) && !Overtaken(size, h, k, q))
            && (got.Some? ==> exists j :: FirstOfferedAt(h, j, k, q) && h[j].report == got.value)
  {
    var b := Replay(size, zero, h);
    var i := Mod(q, size);
    SlotRefinesHistory(size, zero, h, k, i);
    var r := b.Row(k)[i];
    assert b.Get(k, q) == if r.seqNo == q then Some(r) else None;
    if Offered(h, k, q) && !Overtaken(size, h, k, q) {
      var j :| OfferedAt(h, j, k, q);
      assert r.seqNo > 0;
      var l :| FirstOfferedAt(h, l, k, r.seqNo) && h[l].report == r;
    }
  }

  /** The next offer is taken exactly when no congruent number at least as large was offered. */
  lemma {:induction false} AddedIff<K(!new), P>(size: nat, zero: P, h: seq<Offer<K, P>>, o: Offer<K, P>)
    requires size > 0
    ensures Replay(size, zero, h).Add(o.key, o.report).1
       <==> o.report.seqNo > 0 && !Offered(h, o.key, o.report.seqNo) && !Overtaken(size, h, o.key, o.report.seqNo)
  {
    var q := o.report.seqNo;
    SlotRefinesHistory(size, zero, h, o.key, Mod(q, size));
    SlotBelow(size, zero, h, o.key, q, Replay(size, zero, h).Row(o.key)[Mod(q, size)]);
  }

  lemma {:induction false} SlotBelow<K(!new), P>(size: nat, zero: P, h: seq<Offer<K, P>>, k: K, q: nat, r: Stamped<P>)
    requires size > 0 && SlotHolds(size, zero, h, k, Mod(q, size), r)
    ensures r.seqNo < q <==> q > 0 && !Offered(h, k, q) && !Overtaken(size, h, k, q)
  {
    if r.seqNo > 0 {
      var l :| FirstOfferedAt(h, l, k, r.seqNo) && h[l].report == r;
    }
    if Offered(h, k, q) {
      var j :| OfferedAt(h, j, k, q);
    }
  }

  /** Under any order of the locked `Add`s, at most one per key and sequence number succeeds. */
  lemma {:induction false} AddedOnce<K(!new), P>(size: nat, zero: P, h: seq<Offer<K, P>>, i: nat, j: nat)
    requires size > 0 && i < j < |h| && h[i].key == h[j].key && h[i].report.seqNo == h[j].report.seqNo
    ensures !Replay(size, zero, h[..j]).Add(h[j].key, h[j].report).1
  {
    AddedIff(size, zero, h[..j], h[j]);
    assert OfferedAt(h[..j], i, h[j].key, h[j].report.seqNo);
  }

  lemma {:induction false} KeysOfHistory<K(!new), P>(size: nat, zero: P, h: seq<Offer<K, P>>, k: K)
    requires size > 0
    ensures k in Replay(size, zero, h).rows <==> exists j :: 0 <= j < |h| && h[j].key == k && h[j].report.seqNo > 0
  {
    if h != [] {
      var n := |h| - 1;
      KeysOfHistory(size, zero, h[..n], k);
      if h[n].key == k && h[n].report.seqNo > 0 && k !in Replay(size, zero, h[..n]).rows {
        assert Replay(size, zero, h[..n]).Row(k)[Mod(h[n].report.seqNo, size)].seqNo == 0;
      }
    }
  }

  /** The latest report of a key has the largest number ever offered for it; there is none exactly
      when no positive number was offered. */
  lemma {:induction false} LatestRefinesHistory<K(!new), P>(size: nat, zero: P, h: seq<Offer<K, P>>, k: K)
    requires size > 0
    ensures var latest := Replay(size, zero, h).Latest(k);
            && (latest.Some? <==> exists j :: 0 <= j < |h| && h[j].key == k && h[j].report.seqNo > 0)
            && (latest.Some? ==>
                  && latest.value.seqNo > 0
                  && (forall j :: 0 <= j < |h| && h[j].key == k ==> h[j].report.seqNo <= latest.value.seqNo)
                  && (exists j :: FirstOfferedAt(h, j, k, latest.value.seqNo) && h[j].report == latest.value))
  {
    var b := Replay(size, zero, h);
    KeysOfHistory(size, zero, h, k);
    if k in b.rows {
      var row := b.rows[k];
      var m := b.Latest(k).value;
      assert m.seqNo > 0;
      var i :| 0 <= i < |row| && row[i] == m;
      SlotRefinesHistory(size, zero, h, k, i);
      forall j | 0 <= j < |h| && h[j].key == k
        ensures h[j].report.seqNo <= m.seqNo
      {
        var q := h[j].report.seqNo;
        SlotRefinesHistory(size, zero, h, k, Mod(q, size));
        assert q <= row[Mod(q, size)].seqNo;
      }
    }
  }

  /** Everything offered within one buffer size of the latest is still retrievable. */
  lemma {:induction false} WindowIsComplete<K(!new), P>(size: nat, zero: P, h: seq<Offer<K, P>>, k: K, q: nat)
    requires size > 0 && q > 0 && Offered(h, k, q)
    ensures var b := Replay(size, zero, h);
            b.Latest(k).Some? && (b.Latest(k).value.seqNo < q + size ==> b.Get(k, q).Some?)
  {
    LatestRefinesHistory(size, zero, h, k);
    GetRefinesHistory(size, zero, h, k, q);
    var i :| OfferedAt(h, i, k, q);
    if Overtaken(size, h, k, q) {
      var j :| 0 <= j < |h| && h[j].key == k && h[j].report.seqNo > q && Mod(h[j].report.seqNo, size) == Mod(q, size);
      NextCongruent(size, q, h[j].report.seqNo);
    }
  }

  ghost predicate SameOffers<K(!new), P>(h: seq<Offer<K, P>>, h': seq<Offer<K, P>>) {
    && (forall j :: 0 <= j < |h| ==> h[j] in h')
    && (forall j :: 0 <= j < |h'| ==> h'[j] in h)
  }

  ghost predicate NumberFixesReport<K(!new), P>(h: seq<Offer<K, P>>) {
    forall i, j :: 0 <= i < |h| && 0 <= j < |h| && h[i].key == h[j].key && h[i].report.seqNo == h[j].report.seqNo
      ==> h[i] == h[j]
  }

  /** The order and the repetition of offers do not matter when key and number fix the report. */
  lemma {:induction false} OrderIndependent<K(!new), P>(size: nat, zero: P, h: seq<Offer<K, P>>, h': seq<Offer<K, P>>)
    requires size > 0 && SameOffers(h, h')
    requires NumberFixesReport(h)
    ensures Replay(size, zero, h) == Replay(size, zero, h')
  {
    var b, b' := Replay(size, zero, h), Replay(size, zero, h');
    forall k ensures (k in b.rows <==> k in b'.rows) && (k in b.rows ==> b.rows[k] == b'.rows[k]) {
      RowsAgree(size, zero, h, h', k);
    }
    assert b.rows == b'.rows;
  }

  lemma {:induction false} RowsAgree<K(!new), P>(size: nat, zero: P, h: seq<Offer<K, P>>, h': seq<Offer<K, P>>, k: K)
    requires size > 0 && SameOffers(h, h')
    requires NumberFixesReport(h)
    ensures var rows, rows' := Replay(size, zero, h).rows, Replay(size, zero, h').rows;
            (k in rows <==> k in rows') && (k in rows ==> rows[k] == rows'[k])
  {
    var row, row' := Replay(size, zero, h).Row(k), Replay(size, zero, h').Row(k);
    KeysOfHistory(size, zero, h, k);
    KeysOfHistory(size, zero, h', k);
    forall i | 0 <= i < size ensures row[i] == row'[i] {
      SlotRefinesHistory(size, zero, h, k, i);
      SlotRefinesHistory(size, zero, h', k, i);
      SlotsAgree(size, zero, h, h', k, i, row[i], row'[i]);
    }
  }

  lemma {:induction false} SlotsAgree<K(!new), P>(size: nat, zero: P, h: seq<Offer<K, P>>, h': seq<Offer<K, P>>, k: K, i: nat, r: Stamped<P>, r': Stamped<P>)
    requires i < size && SameOffers(h, h')
    requires NumberFixesReport(h)
    requires SlotHolds(size, zero, h, k, i, r) && SlotHolds(size, zero, h', k, i, r')
    ensures r == r'
  {
    if r.seqNo > 0 {
      var j :| FirstOfferedAt(h, j, k, r.seqNo) && h[j].report == r;
      assert h[j] in h';
    }
    if r'.seqNo > 0 {
      var j :| FirstOfferedAt(h', j, k, r'.seqNo) && h'[j].report == r';
      assert h'[j] in h;
    }
  }

  // --- inside the window ----------------------------------------------------------------------------

  /** While everything held stays less than a size above `q`, a further `Add` keeps every report
      with number `q`, and adds at most its own key to the keys that hold one. */
  lemma {:induction false} WindowedAdd<K(!new), P>(b: Buffer<K, P>, k: K, r: Stamped<P>, q: nat)
    requires b.Valid() && q > 0 && b.Add(k, r).0.InWindow(q)
    ensures var b' := b.Add(k, r).0;
            && (forall j :: j in b.Lookup(q) ==> b'.Get(j, q) == b.Get(j, q))
            && b'.Lookup(q) == if r.seqNo == q then b.Lookup(q) + {k} else b.Lookup(q)
  {
    var b' := b.Add(k, r).0;
    if b.Add(k, r).1 {
      var i := Mod(r.seqNo, b.size);
      assert b'.rows[k][i] == r;
      if k in b.Lookup(q) && Mod(q, b.size) == i {
        NextCongruent(b.size, q, r.seqNo);
        assert false;
      }
    } else if r.seqNo == q {
      assert k in b.rows;
      assert b.rows[k][Mod(q, b.size)].seqNo >= q;
      if b.rows[k][Mod(q, b.size)].seqNo > q {
        NextCongruent(b.size, q, b.rows[k][Mod(q, b.size)].seqNo);
        assert false;
      }
    }
  }

  /** Inside the window a report is taken exactly when its key holds none with that number. */
  lemma {:induction false} WindowedAddSucceeds<K(!new), P>(b: Buffer<K, P>, k: K, r: Stamped<P>)
    requires b.Valid() && r.seqNo > 0 && b.InWindow(r.seqNo)
    ensures b.Add(k, r).1 <==> k !in b.Lookup(r.seqNo)
    ensures b.Add(k, r).0.InWindow(r.seqNo)
  {
    var held := b.Row(k)[Mod(r.seqNo, b.size)];
    if held.seqNo > r.seqNo {
      NextCongruent(b.size, r.seqNo, held.seqNo);
      assert false;
    }
  }

  /** The window only moves forward. */
  lemma {:induction false} WindowShrinks<K(!new), P>(b: Buffer<K, P>, k: K, r: Stamped<P>, q: nat)
    requires b.Valid() && b.Add(k, r).0.InWindow(q)
    ensures b.InWindow(q)
  {
    var b' := b.Add(k, r).0;
    forall j, i | j in b.rows && 0 <= i < |b.rows[j]|
      ensures b.rows[j][i].seqNo < q + b.size
    {
      assert b.rows[j][i].seqNo <= b'.rows[j][i].seqNo;
    }
  }
}

/** The cache as the program keeps it: a map of fixed-size arrays updated in place. Every method is
    proved against the value model of module Ring. */
module ReportCache {
  import opened Options
  import opened Collections
  import opened Modular
  import opened Ring

  class ReportBuffer<K(!new, ==), P> {
    const size: nat
    const zero: P
    var reports: map<K, array<Stamped<P>>>

    ghost predicate Separate()
      reads this, reports.Values
    {
      && (forall k :: k in reports ==> reports[k].Length == size)
      && (forall j, k :: j in reports && k in reports && j != k ==> reports[j] != reports[k])
    }

    ghost predicate Valid()
      reads this, reports.Values
    {
      Separate() && View().Valid()
    }

    ghost function View(): Buffer<K, P>
      reads this, reports.Values
    {
      Buffer(size, zero, map k | k in reports :: reports[k][..])
    }

    constructor (size: nat, zero: P)
      requires size > 0
      ensures Valid() && View() == New(size, zero) && reports == map[]
    {
      this.size := size;
      this.zero := zero;
      reports := map[];
    }

    method Add(k: K, r: Stamped<P>) returns (ok: bool)
      requires Valid()
      modifies this, reports.Values
      ensures Valid() && (View(), ok) == old(View()).Add(k, r)
      ensures forall a :: a in reports.Values ==> a in old(reports.Values) || fresh(a)
    {
      ghost var before := View();
      var buf := Buf(k);
      var i := Mod(r.seqNo, size);
      ok := buf[i].seqNo < r.seqNo;
      if ok {
        Store(k, buf, i, r);
        assert View() == before.Add(k, r).0;
      }
    }

    /** The buffer of a key, or a new one with empty slots, not yet in the map. */
    method Buf(k: K) returns (buf: array<Stamped<P>>)
      requires Valid()
      ensures buf[..] == View().Row(k)
      ensures if k in reports then buf == reports[k] else fresh(buf)
    {
      if k in reports {
        buf := reports[k];
      } else {
        var z := zero;
        buf := new Stamped<P>[size](_ => Stamped(0, z));
        assert buf[..] == View().EmptyRow();
      }
    }

    method Store(k: K, buf: array<Stamped<P>>, i: nat, r: Stamped<P>)
      requires Separate() && buf.Length == size && i < size
      requires if k in reports then buf == reports[k] else buf !in reports.Values
      modifies this, buf
      ensures Separate() && reports == old(reports)[k := buf]
      ensures View() == old(View()).(rows := old(View().rows)[k := old(buf[..])[i := r]])
    {
      assert forall j :: j in reports && j != k ==> reports[j] in reports.Values && reports[j] != buf;
      buf[i] := r;
      reports := reports[k := buf];
      assert buf[..] == old(buf[..])[i := r];
      assert View().rows == old(View().rows)[k := buf[..]];
    }

    method Get(k: K, q: nat) returns (r: Option<Stamped<P>>)
      requires Valid()
      ensures r == View().Get(k, q)
    {
      if k !in reports { return None; }
      var i := Mod(q, size);
      assert View().rows[k][i] == reports[k][i];
      if reports[k][i].seqNo == q {
        return Some(reports[k][i]);
      }
      return None;
    }

    /** The keys holding a report numbered `q`, in the map's order and without repetition. */
    method Lookup(q: nat) returns (ids: seq<K>)
      requires Valid()
      ensures SetOf(ids) == View().Lookup(q)
      ensures forall i, j :: 0 <= i < j < |ids| ==> ids[i] != ids[j]
    {
      ids := [];
      var i := Mod(q, size);
      var left := reports.Keys;
      while left != {}
        invariant left <= reports.Keys
        invariant forall k :: k in ids <==> k in reports && k !in left && View().rows[k][i].seqNo == q
        invariant forall a, b :: 0 <= a < b < |ids| ==> ids[a] != ids[b]
      {
        var id := Pick(left);
        assert View().rows[id][i] == reports[id][i];
        if reports[id][i].seqNo == q {
          assert id !in ids;
          ids := ids + [id];
        }
        left := left - {id};
      }
    }

    method GetLatest(k: K) returns (r: Option<Stamped<P>>)
      requires Valid()
      ensures r == View().Latest(k)
    {
      if k !in reports { return None; }
      var buf := reports[k];
      var latest := Stamped(0, zero);
      for i := 0 to buf.Length
        invariant latest == Newest(Stamped(0, zero), buf[..i])
      {
        assert buf[..i + 1][..i] == buf[..i];
        if buf[i].seqNo > latest.seqNo {
          latest := buf[i];
        }
      }
      assert buf[..buf.Length] == buf[..] == View().rows[k];
      return Some(latest);
    }
  }
}

/** The finite map that an ascending sequence of records stands for. */
module BTreeMap {
  import opened BTreeShape
  import opened BTreePath
  import opened BTreeNode

  ghost function AsMap(recs: seq<Record>): map<int, Mmid> {
    if recs == [] then map[] else AsMap(Up(recs))[Last(recs).hkey := Last(recs).mmid]
  }

  lemma {:induction false} AsMapAppend(a: seq<Record>, b: seq<Record>)
    ensures AsMap(a + b) == AsMap(a) + AsMap(b)
  {
    if b == [] {
      assert a + b == a;
    } else {
      assert Up(a + b) == a + Up(b) && Last(a + b) == Last(b);
      AsMapAppend(a, Up(b));
    }
  }

  lemma {:induction false} AsMapHas(recs: seq<Record>, k: int)
    ensures k in AsMap(recs) <==> exists i :: 0 <= i < |recs| && recs[i].hkey == k
  {
    if recs != [] {
      AsMapHas(Up(recs), k);
      if k in AsMap(Up(recs)) {
        var i :| 0 <= i < |Up(recs)| && Up(recs)[i].hkey == k;
        assert recs[i].hkey == k;
      }
      if i :| 0 <= i < |recs| && recs[i].hkey == k {
        assert i < |recs| - 1 ==> Up(recs)[i].hkey == k;
      }
    }
  }

  lemma AsMapAround(a: seq<Record>, x: Record, b: seq<Record>)
    ensures AsMap(a + [x] + b) == AsMap(a)[x.hkey := x.mmid] + AsMap(b)
  {
    AsMapAppend(a + [x], b);
    assert Up(a + [x]) == a;
  }

  lemma AsMapMissing(recs: seq<Record>, hkey: int)
    requires forall j :: 0 <= j < |recs| ==> recs[j].hkey != hkey
    ensures hkey !in AsMap(recs) && AsMap(recs) - {hkey} == AsMap(recs)
  {
    AsMapHas(recs, hkey);
  }

  lemma MergeSet<K, V>(p: map<K, V>, q: map<K, V>, k: K, v: V)
    requires k !in q
    ensures p[k := v] + q == (p + q)[k := v]
  {
  }

  lemma MergeDrop<K, V>(p: map<K, V>, q: map<K, V>, k: K, v: V)
    requires k !in p && k !in q
    ensures (p[k := v] + q) - {k} == p + q
  {
  }

  lemma AsMapSet(recs: seq<Record>, i: nat, rec: Record)
    requires Ascending(recs) && i < |recs| && recs[i].hkey == rec.hkey
    ensures AsMap(recs[i := rec]) == AsMap(recs)[rec.hkey := rec.mmid]
  {
    hide AsMap;
    var a, b := recs[..i], recs[i + 1..];
    assert recs == a + [recs[i]] + b && recs[i := rec] == a + [rec] + b;
    AsMapAround(a, recs[i], b);
    AsMapAround(a, rec, b);
    AsMapMissing(b, rec.hkey);
    MergeSet(AsMap(a), AsMap(b), rec.hkey, rec.mmid);
    MergeSet(AsMap(a), AsMap(b), rec.hkey, recs[i].mmid);
  }

  lemma AsMapInsert(recs: seq<Record>, i: nat, rec: Record)
    requires i <= |recs| && forall j :: i <= j < |recs| ==> recs[j].hkey > rec.hkey
    ensures AsMap(InsertAt(recs, i, rec)) == AsMap(recs)[rec.hkey := rec.mmid]
  {
    hide AsMap;
    var a, b := recs[..i], recs[i..];
    assert recs == a + b;
    AsMapAround(a, rec, b);
    AsMapAppend(a, b);
    AsMapMissing(b, rec.hkey);
    MergeSet(AsMap(a), AsMap(b), rec.hkey, rec.mmid);
  }

  lemma AsMapRemove(recs: seq<Record>, i: nat)
    requires Ascending(recs) && i < |recs|
    ensures recs[i].hkey in AsMap(recs) && AsMap(RemoveAt(recs, i)) == AsMap(recs) - {recs[i].hkey}
  {
    hide AsMap;
    var a, b := recs[..i], recs[i + 1..];
    assert recs == a + [recs[i]] + b;
    AsMapAround(a, recs[i], b);
    AsMapAppend(a, b);
    AsMapMissing(a, recs[i].hkey);
    AsMapMissing(b, recs[i].hkey);
    MergeDrop(AsMap(a), AsMap(b), recs[i].hkey, recs[i].mmid);
  }

  /** A map has only one ascending sequence of records. */
  lemma {:induction false} SortedUnique(a: seq<Record>, b: seq<Record>)
    requires Ascending(a) && Ascending(b) && AsMap(a) == AsMap(b)
    ensures a == b
  {
    if a == [] {
      if b != [] { AsMapHas(b, b[0].hkey); }
    } else {
      hide AsMap;
      LastIsLargest(a, b);
      LastIsLargest(b, a);
      assert Last(a) == Last(b);
      AsMapRemove(a, |a| - 1);
      AsMapRemove(b, |b| - 1);
      assert RemoveAt(a, |a| - 1) == Up(a) && RemoveAt(b, |b| - 1) == Up(b);
      SortedUnique(Up(a), Up(b));
      assert a == Up(a) + [Last(a)] && b == Up(b) + [Last(b)];
    }
  }

  lemma LastIsLargest(a: seq<Record>, b: seq<Record>)
    requires Ascending(b) && AsMap(a) == AsMap(b) && a != []
    ensures b != [] && Last(a).hkey <= Last(b).hkey
    ensures AsMap(a)[Last(a).hkey] == Last(a).mmid
  {
    AsMapHas(b, Last(a).hkey);
    assert Last(a).hkey in AsMap(a);
    var j :| 0 <= j < |b| && b[j].hkey == Last(a).hkey;
  }
}

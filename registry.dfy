// What the registries of dvb/services.c, dvb/multiplexes.c, dvb/platforms.c
// and dvb/networks.c have in common: records kept in insertion order in a
// growing array and found by a linear search on a key (a string compared
// with strcmp, or the (lcn, sublcn) pair of a network's service slots).
module Registry {
  import opened Wrappers
  import opened Format

  /** The index of the first record whose key is k. */
  function IndexOf<R, K(==)>(rs: seq<R>, key: R -> K, k: K): (r: Option<nat>)
    ensures r.Some? ==> r.value < |rs| && key(rs[r.value]) == k
    ensures r.Some? ==> forall j :: 0 <= j < r.value ==> key(rs[j]) != k
    ensures r.None? <==> forall j :: 0 <= j < |rs| ==> key(rs[j]) != k
  {
    if rs == [] then None
    else if key(rs[0]) == k then Some(0)
    else match IndexOf(rs[1..], key, k)
      case None => None
      case Some(i) => Some(i + 1)
  }

  /** No two records share a key. */
  predicate Unique<R, K(==)>(rs: seq<R>, key: R -> K)
  {
    forall i, j :: 0 <= i < j < |rs| ==> key(rs[i]) != key(rs[j])
  }

  /** With unique keys, each record is the one found by its key. */
  lemma UniqueIndex<R, K>(rs: seq<R>, key: R -> K, i: nat)
    requires Unique(rs, key) && i < |rs|
    ensures IndexOf(rs, key, key(rs[i])) == Some(i)
  {
  }

  /** Replacing a record by one with the same key changes no search result. */
  lemma ReplaceKeepsIndex<R, K>(rs: seq<R>, key: R -> K, i: nat, x: R)
    requires i < |rs| && key(x) == key(rs[i])
    ensures forall k :: IndexOf(rs[i := x], key, k) == IndexOf(rs, key, k)
    ensures Unique(rs, key) ==> Unique(rs[i := x], key)
  {
    forall k
      ensures IndexOf(rs[i := x], key, k) == IndexOf(rs, key, k)
    {
      var r := IndexOf(rs, key, k);
      if r.Some? {
        assert rs[i := x][r.value] == rs[r.value] || r.value == i;
      }
    }
  }

  /** Appending a record with a new key finds it at the end and changes no
      other search result. */
  lemma AppendKeepsIndex<R, K>(rs: seq<R>, key: R -> K, x: R)
    requires IndexOf(rs, key, key(x)).None?
    ensures IndexOf(rs + [x], key, key(x)) == Some(|rs|)
    ensures forall k :: k != key(x) ==> IndexOf(rs + [x], key, k) == IndexOf(rs, key, k)
    ensures Unique(rs, key) ==> Unique(rs + [x], key)
  {
    AppendFindsLast(rs, key, x);
    forall k | k != key(x)
      ensures IndexOf(rs + [x], key, k) == IndexOf(rs, key, k)
    {
      AppendKeepsOthers(rs, key, x, k);
    }
  }

  lemma AppendFindsLast<R, K>(rs: seq<R>, key: R -> K, x: R)
    requires IndexOf(rs, key, key(x)).None?
    ensures IndexOf(rs + [x], key, key(x)) == Some(|rs|)
  {
    var ys := rs + [x];
    assert forall j :: 0 <= j < |rs| ==> key(ys[j]) == key(rs[j]);
    assert ys[|rs|] == x;
  }

  lemma AppendKeepsOthers<R, K>(rs: seq<R>, key: R -> K, x: R, k: K)
    requires k != key(x)
    ensures IndexOf(rs + [x], key, k) == IndexOf(rs, key, k)
  {
    var ys := rs + [x];
    assert forall j :: 0 <= j < |rs| ==> key(ys[j]) == key(rs[j]);
    assert key(ys[|rs|]) != k;
    var r, q := IndexOf(rs, key, k), IndexOf(ys, key, k);
    if r.Some? {
      assert q.Some?;
      assert !(q.value < r.value) && !(r.value < q.value);
    } else {
      assert forall j :: 0 <= j < |ys| ==> key(ys[j]) != k;
    }
  }

  /** Replacing a record whose key is not k by another whose key is not k
      leaves the search for k unchanged. */
  lemma ReplaceKeepsOthers<R, K>(rs: seq<R>, key: R -> K, i: nat, x: R, k: K)
    requires i < |rs| && key(x) != k && key(rs[i]) != k
    ensures IndexOf(rs[i := x], key, k) == IndexOf(rs, key, k)
  {
    var ys := rs[i := x];
    assert forall j :: 0 <= j < |rs| && j != i ==> key(ys[j]) == key(rs[j]);
    var r, q := IndexOf(rs, key, k), IndexOf(ys, key, k);
    if r.Some? {
      assert q.Some?;
      assert !(q.value < r.value) && !(r.value < q.value);
    } else {
      assert forall j :: 0 <= j < |ys| ==> key(ys[j]) != k;
    }
  }

  /** What service_foreach and mux_foreach return: the first non-zero result
      of fn, in insertion order, or 0. */
  function FirstNonZero<R>(ss: seq<R>, fn: R -> int): (r: int)
    ensures r != 0 ==> exists i :: 0 <= i < |ss| && fn(ss[i]) == r
    ensures r == 0 <==> forall i :: 0 <= i < |ss| ==> fn(ss[i]) == 0
  {
    if ss == [] then 0
    else if fn(ss[0]) != 0 then fn(ss[0])
    else
      var r := FirstNonZero(ss[1..], fn);
      assert forall i :: 1 <= i < |ss| ==> ss[i] == ss[1..][i - 1];
      r
  }

  /** The foreach loops stop at the first non-zero result: the records before
      it all gave 0. */
  lemma {:induction false} ForeachStopsAtFirst<R>(ss: seq<R>, fn: R -> int, i: nat)
    requires i < |ss| && fn(ss[i]) != 0 && forall j :: 0 <= j < i ==> fn(ss[j]) == 0
    ensures FirstNonZero(ss, fn) == fn(ss[i])
    decreases i
  {
    if i > 0 {
      ForeachStopsAtFirst(ss[1..], fn, i - 1);
    }
  }

  /** The char[128] name buffers of the records. */
  const TextSize: nat := 128

  /** strncpy(field, text, 127) into a buffer that ends in NUL. */
  function Clip(text: string): (r: string)
    ensures |r| < TextSize && r <= text
    ensures |text| < TextSize ==> r == text
  {
    Take(text, TextSize - 1)
  }

  /** The getters: NULL when the buffer is empty. */
  function Text(field: string): (r: Option<string>)
    ensures r.None? <==> field == []
    ensures r.Some? ==> r.value == field
  {
    if field == [] then None else Some(field)
  }
}

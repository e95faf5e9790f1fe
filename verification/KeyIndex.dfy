/** Index maps from a key to a position, filled by assignment so that the last position wins. */
module KeyIndex {
  import opened Results

  function LastIndex<K>(keys: seq<Option<K>>): map<K, nat> {
    if keys == [] then map[]
    else
      var m := LastIndex(keys[..|keys| - 1]);
      var last := keys[|keys| - 1];
      if last.Some? then m[last.value := |keys| - 1] else m
  }

  lemma {:induction false} LastIndexIs<K>(keys: seq<Option<K>>, k: K)
    ensures k in LastIndex(keys) <==> Some(k) in keys
    ensures k in LastIndex(keys) ==>
      var i := LastIndex(keys)[k];
      i < |keys| && keys[i] == Some(k) && forall j :: i < j < |keys| ==> keys[j] != Some(k)
  {
    if keys != [] {
      LastIndexIs(keys[..|keys| - 1], k);
    }
  }

  ghost predicate AllDistinct<K>(keys: seq<Option<K>>) {
    && (forall i :: 0 <= i < |keys| ==> keys[i].Some?)
    && (forall i, j :: 0 <= i < j < |keys| ==> keys[i] != keys[j])
  }

  /** Comparing the two sizes, as the validity checks do, finds null entries and repeated keys. */
  lemma {:induction false} SizeTellsDistinct<K>(keys: seq<Option<K>>)
    ensures |LastIndex(keys)| <= |keys|
    ensures |LastIndex(keys)| == |keys| <==> AllDistinct(keys)
  {
    if keys != [] {
      var init, last := keys[..|keys| - 1], keys[|keys| - 1];
      SizeTellsDistinct(init);
      if last.Some? {
        LastIndexIs(init, last.value);
        if last in init {
          var i :| 0 <= i < |init| && init[i] == last;
          assert keys[i] == keys[|keys| - 1];
        } else {
          assert forall i :: 0 <= i < |init| ==> keys[i] == init[i] && init[i] in init;
        }
      }
    }
  }

  /** With distinct keys the index finds exactly the positions that hold them. */
  lemma IndexFinds<K>(keys: seq<Option<K>>, i: nat)
    requires AllDistinct(keys) && i < |keys|
    ensures keys[i].value in LastIndex(keys) && LastIndex(keys)[keys[i].value] == i
  {
    LastIndexIs(keys, keys[i].value);
  }

  method FillIndex<K(==)>(keys: seq<Option<K>>) returns (m: map<K, nat>)
    ensures m == LastIndex(keys)
  {
    m := map[];
    for i := 0 to |keys|
      invariant m == LastIndex(keys[..i])
    {
      assert keys[..i + 1][..i] == keys[..i];
      if keys[i].Some? {
        m := m[keys[i].value := i];
      }
    }
    assert keys[..|keys|] == keys;
  }

  lemma AppendDistinct<K>(keys: seq<Option<K>>, k: K)
    requires AllDistinct(keys) && k !in LastIndex(keys)
    ensures AllDistinct(keys + [Some(k)])
  {
    LastIndexIs(keys, k);
  }
}

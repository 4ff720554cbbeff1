/** A JavaScript plain object with string keys, as an association list in
    key order.  Keys that do not look like array indices keep their
    insertion order, which is the order `Object.keys`, `Object.values` and
    `Object.entries` report; every key the carts use is of that kind. */
module JsObject {
  import opened Common

  type Obj<V> = seq<(string, V)>

  /** `Object.keys(o)` */
  function Keys<V>(o: Obj<V>): (ks: seq<string>)
    ensures |ks| == |o|
  {
    if o == [] then [] else [o[0].0] + Keys(o[1..])
  }

  /** No key occurs twice. */
  predicate UniqueKeys<V>(o: Obj<V>) {
    o == [] || (o[0].0 !in Keys(o[1..]) && UniqueKeys(o[1..]))
  }

  /** `o[k]`, `None` standing for `undefined`. */
  function Get<V>(o: Obj<V>, k: string): (r: Option<V>)
    ensures r.None? <==> k !in Keys(o)
    ensures r.Some? ==> (k, r.value) in o
  {
    if o == [] then None
    else if o[0].0 == k then Some(o[0].1)
    else Get(o[1..], k)
  }

  /** `{...o, [k]: v}`: an existing key keeps its place, a new one goes last. */
  function Set<V>(o: Obj<V>, k: string, v: V): (r: Obj<V>)
    ensures |r| == if k in Keys(o) then |o| else |o| + 1
  {
    if o == [] then [(k, v)]
    else if o[0].0 == k then [(k, v)] + o[1..]
    else [o[0]] + Set(o[1..], k, v)
  }

  /** `delete o[k]` on a copy. */
  function Delete<V>(o: Obj<V>, k: string): (r: Obj<V>)
    ensures |r| <= |o|
  {
    if o == [] then []
    else (if o[0].0 == k then [] else [o[0]]) + Delete(o[1..], k)
  }

  /** After `Set`, `k` holds `v` and every other key holds what it held. */
  lemma {:induction false} SetGet<V>(o: Obj<V>, k: string, v: V)
    ensures Get(Set(o, k, v), k) == Some(v)
    ensures forall k' :: k' != k ==> Get(Set(o, k, v), k') == Get(o, k')
  {
    if o != [] && o[0].0 != k {
      SetGet(o[1..], k, v);
      assert Set(o, k, v)[1..] == Set(o[1..], k, v);
    }
  }

  /** `Set` keeps the key order, appending `k` when it is new. */
  lemma {:induction false} SetKeys<V>(o: Obj<V>, k: string, v: V)
    ensures k in Keys(o) ==> Keys(Set(o, k, v)) == Keys(o)
    ensures k !in Keys(o) ==> Keys(Set(o, k, v)) == Keys(o) + [k]
  {
    if o != [] && o[0].0 != k {
      SetKeys(o[1..], k, v);
      assert Set(o, k, v)[1..] == Set(o[1..], k, v);
    }
  }

  /** `Set` keeps the keys unique. */
  lemma {:induction false} SetUnique<V>(o: Obj<V>, k: string, v: V)
    requires UniqueKeys(o)
    ensures UniqueKeys(Set(o, k, v))
  {
    if o != [] && o[0].0 != k {
      SetUnique(o[1..], k, v);
      SetKeys(o[1..], k, v);
      assert Set(o, k, v)[1..] == Set(o[1..], k, v);
    }
  }

  /** After `Delete`, `k` is gone and every other key holds what it held. */
  lemma {:induction false} DeleteGet<V>(o: Obj<V>, k: string)
    ensures Get(Delete(o, k), k).None?
    ensures forall k' :: k' != k ==> Get(Delete(o, k), k') == Get(o, k')
  {
    if o != [] {
      DeleteGet(o[1..], k);
      if o[0].0 != k {
        assert Delete(o, k)[1..] == Delete(o[1..], k);
      } else {
        assert Delete(o, k) == Delete(o[1..], k);
      }
    }
  }

  /** `Delete` keeps exactly the other keys. */
  lemma {:induction false} DeleteKeys<V>(o: Obj<V>, k: string)
    ensures forall k' :: k' in Keys(Delete(o, k)) <==> k' in Keys(o) && k' != k
  {
    if o != [] {
      DeleteKeys(o[1..], k);
      var rest := Delete(o[1..], k);
      if o[0].0 != k {
        assert Delete(o, k) == [o[0]] + rest;
        assert ([o[0]] + rest)[1..] == rest;
        assert Keys(Delete(o, k)) == [o[0].0] + Keys(rest);
      } else {
        assert Delete(o, k) == rest;
      }
    }
  }

  /** `Delete` keeps the keys unique. */
  lemma {:induction false} DeleteUnique<V>(o: Obj<V>, k: string)
    requires UniqueKeys(o)
    ensures UniqueKeys(Delete(o, k))
  {
    if o != [] {
      DeleteUnique(o[1..], k);
      var rest := Delete(o[1..], k);
      if o[0].0 != k {
        DeleteKeys(o[1..], k);
        assert Delete(o, k) == [o[0]] + rest;
        assert ([o[0]] + rest)[1..] == rest;
      } else {
        assert Delete(o, k) == rest;
      }
    }
  }

  /** `Object.entries(o).reduce((acc, [k, v]) => acc + f(k, v), 0)` */
  function SumBy<V>(o: Obj<V>, f: (string, V) -> int): int {
    if o == [] then 0 else f(o[0].0, o[0].1) + SumBy(o[1..], f)
  }

  /** What a key contributes to a sum: nothing when it is absent. */
  function Contribution<V>(o: Obj<V>, k: string, f: (string, V) -> int): int {
    match Get(o, k)
    case Some(v) => f(k, v)
    case None => 0
  }

  /** Setting a key replaces its contribution to every sum. */
  lemma {:induction false} SumSet<V>(o: Obj<V>, k: string, v: V, f: (string, V) -> int)
    requires UniqueKeys(o)
    ensures SumBy(Set(o, k, v), f) == SumBy(o, f) - Contribution(o, k, f) + f(k, v)
  {
    if o != [] {
      if o[0].0 == k {
        assert Set(o, k, v)[1..] == o[1..];
      } else {
        SumSet(o[1..], k, v, f);
        assert Set(o, k, v)[1..] == Set(o[1..], k, v);
      }
    }
  }

  /** Deleting a key removes its contribution to every sum. */
  lemma {:induction false} SumDelete<V>(o: Obj<V>, k: string, f: (string, V) -> int)
    requires UniqueKeys(o)
    ensures SumBy(Delete(o, k), f) == SumBy(o, f) - Contribution(o, k, f)
  {
    if o != [] {
      SumDelete(o[1..], k, f);
      if o[0].0 == k {
        DeleteGone(o[1..], k);
        assert Delete(o, k) == Delete(o[1..], k);
      } else {
        assert Delete(o, k) == [o[0]] + Delete(o[1..], k);
        assert ([o[0]] + Delete(o[1..], k))[1..] == Delete(o[1..], k);
      }
    }
  }

  /** Deleting an absent key changes nothing. */
  lemma {:induction false} DeleteGone<V>(o: Obj<V>, k: string)
    requires k !in Keys(o)
    ensures Delete(o, k) == o
  {
    if o != [] {
      DeleteGone(o[1..], k);
      assert [o[0]] + o[1..] == o;
    }
  }
}

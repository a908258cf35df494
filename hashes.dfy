/** Ruby's Hash keyed by names: a map that remembers insertion order.
    Assigning an existing key keeps its position; a new key goes last. */
module Hashes {

  datatype Hash<V> = Hash(keys: seq<string>, vals: map<string, V>)

  ghost predicate Valid<V>(h: Hash<V>) {
    && (forall i, j :: 0 <= i < j < |h.keys| ==> h.keys[i] != h.keys[j])
    && (forall k :: k in h.vals <==> k in h.keys)
  }

  function Empty<V>(): (r: Hash<V>)
    ensures Valid(r) && r.keys == [] && r.vals == map[]
  {
    Hash([], map[])
  }

  /** `h[k] = v`. */
  function Put<V>(h: Hash<V>, k: string, v: V): (r: Hash<V>)
    requires Valid(h)
    ensures Valid(r)
    ensures r.vals == h.vals[k := v]
    ensures k in h.vals ==> r.keys == h.keys
    ensures k !in h.vals ==> r.keys == h.keys + [k]
  {
    if k in h.vals then Hash(h.keys, h.vals[k := v]) else Hash(h.keys + [k], h.vals[k := v])
  }

  /** Assigns `v` to every key of `ks`, first to last. */
  function Assign<V>(h: Hash<V>, ks: seq<string>, v: V): Hash<V>
    requires Valid(h)
    decreases |ks|
  {
    if ks == [] then h else Put(Assign(h, ks[..|ks| - 1], v), ks[|ks| - 1], v)
  }

  /** After assigning `v` to the keys `ks`, each of them maps to `v`, the
      other entries are unchanged, and the old keys keep their order. */
  lemma {:induction false} AssignSpec<V>(h: Hash<V>, ks: seq<string>, v: V)
    requires Valid(h)
    ensures Valid(Assign(h, ks, v))
    ensures Assign(h, ks, v).vals.Keys == h.vals.Keys + set k | k in ks
    ensures forall k :: k in ks ==> Assign(h, ks, v).vals[k] == v
    ensures forall k :: k in h.vals && k !in ks ==> Assign(h, ks, v).vals[k] == h.vals[k]
    ensures h.keys <= Assign(h, ks, v).keys
    decreases |ks|
  {
    if ks != [] {
      var p := ks[..|ks| - 1];
      AssignSpec(h, p, v);
      assert forall k :: k in ks <==> k in p || k == ks[|ks| - 1];
    }
  }

  /** Assigns `vals[k]` to every key `k` of `ks`, first to last; the keys
      of `ks` are added and the old keys keep their order. */
  function PutAll<V>(h: Hash<V>, ks: seq<string>, vals: map<string, V>): (r: Hash<V>)
    requires Valid(h)
    requires forall k :: k in ks ==> k in vals
    ensures Valid(r)
    ensures r.vals.Keys == h.vals.Keys + set k | k in ks
    ensures h.keys <= r.keys
    decreases |ks|
  {
    if ks == [] then h
    else
      var p, last := ks[..|ks| - 1], ks[|ks| - 1];
      assert forall k :: k in ks <==> k in p || k == last;
      Put(PutAll(h, p, vals), last, vals[last])
  }

  /** The keys a run of assignments appends: each key of `ks` that is
      neither in `present` nor earlier in `ks`, in the order of `ks`. */
  function Appended(ks: seq<string>, present: set<string>): (r: seq<string>)
    ensures forall k :: k in r <==> k in ks && k !in present
    ensures forall i, j :: 0 <= i < j < |r| ==> r[i] != r[j]
    decreases |ks|
  {
    if ks == [] then []
    else
      var p, last := ks[..|ks| - 1], ks[|ks| - 1];
      assert forall k :: k in ks <==> k in p || k == last;
      Appended(p, present) + (if last in present || last in p then [] else [last])
  }

  /** After PutAll, each key of `ks` holds its value from `vals`; the other
      entries are unchanged. */
  lemma {:induction false} PutAllValues<V>(h: Hash<V>, ks: seq<string>, vals: map<string, V>)
    requires Valid(h)
    requires forall k :: k in ks ==> k in vals
    ensures forall k :: k in ks ==> PutAll(h, ks, vals).vals[k] == vals[k]
    ensures forall k :: k in h.vals && k !in ks ==> PutAll(h, ks, vals).vals[k] == h.vals[k]
    decreases |ks|
  {
    if ks != [] {
      var p, last := ks[..|ks| - 1], ks[|ks| - 1];
      assert forall k :: k in ks <==> k in p || k == last;
      PutAllValues(h, p, vals);
    }
  }

  /** PutAll appends the keys of `ks` that were not there, in the order of `ks`. */
  lemma {:induction false} PutAllOrder<V>(h: Hash<V>, ks: seq<string>, vals: map<string, V>)
    requires Valid(h)
    requires forall k :: k in ks ==> k in vals
    ensures PutAll(h, ks, vals).keys == h.keys + Appended(ks, h.vals.Keys)
    decreases |ks|
  {
    if ks != [] {
      var p, last := ks[..|ks| - 1], ks[|ks| - 1];
      PutAllOrder(h, p, vals);
      var q := PutAll(h, p, vals);
      assert PutAll(h, ks, vals) == Put(q, last, vals[last]);
      if last in h.vals || last in p {
        assert last in q.vals;
        assert Appended(ks, h.vals.Keys) == Appended(p, h.vals.Keys);
      } else {
        assert last !in q.vals;
        assert Appended(ks, h.vals.Keys) == Appended(p, h.vals.Keys) + [last];
      }
    }
  }

  /** `a.merge(b)`: on a shared key the value of `b` wins; the keys of `a`
      keep their order and come first. */
  function Merge<V>(a: Hash<V>, b: Hash<V>): (r: Hash<V>)
    requires Valid(a) && Valid(b)
    ensures Valid(r)
    ensures r.vals == a.vals + b.vals
    ensures a.keys <= r.keys
    ensures r.keys == a.keys + Appended(b.keys, a.vals.Keys)
  {
    MergeValues(a, b);
    PutAllOrder(a, b.keys, b.vals);
    PutAll(a, b.keys, b.vals)
  }

  /** Assigning every key of `b` onto `a` gives `a.vals + b.vals`. */
  lemma MergeValues<V>(a: Hash<V>, b: Hash<V>)
    requires Valid(a) && Valid(b)
    ensures PutAll(a, b.keys, b.vals).vals == a.vals + b.vals
  {
    PutAllValues(a, b.keys, b.vals);
    UnionByKeys(a.vals, b.vals, PutAll(a, b.keys, b.vals).vals, b.keys);
  }

  /** A map that agrees with `hb` on the keys `kb` and with `ha` elsewhere
      is `ha + hb`. */
  lemma UnionByKeys<V>(ha: map<string, V>, hb: map<string, V>, r: map<string, V>, kb: seq<string>)
    requires forall k :: k in hb <==> k in kb
    requires forall k :: k in r <==> k in ha || k in kb
    requires forall k :: k in kb ==> r[k] == hb[k]
    requires forall k :: k in ha && k !in kb ==> r[k] == ha[k]
    ensures r == ha + hb
  {
  }
}

/** Plain JavaScript objects used as dictionaries: an ordered list of own
    properties. Assigning to a property that exists replaces its value where it
    stands; assigning to a new one appends it, so iteration (`forOwn`,
    `Object.keys`) follows first-insertion order. */
module Objects {
  import opened Js

  datatype Field<+V> = Field(key: string, value: V)

  /** The property names, in iteration order. */
  function Keys<V>(fs: seq<Field<V>>): (ks: seq<string>)
    ensures |ks| == |fs|
    ensures forall i :: 0 <= i < |fs| ==> ks[i] == fs[i].key
  {
    if fs == [] then [] else [fs[0].key] + Keys(fs[1..])
  }

  lemma KeysSnoc<V>(fs: seq<Field<V>>, f: Field<V>)
    ensures Keys(fs + [f]) == Keys(fs) + [f.key]
  {
  }

  /** `obj[key]` for an own property, or `None` when there is none. */
  function Lookup<V>(fs: seq<Field<V>>, key: string): (r: Option<V>)
    ensures r.None? <==> key !in Keys(fs)
  {
    if fs == [] then None
    else if fs[0].key == key then Some(fs[0].value)
    else Lookup(fs[1..], key)
  }

  /** Every property name occurs once, as in any JavaScript object. */
  predicate WellFormed<V>(fs: seq<Field<V>>) {
    Distinct(Keys(fs))
  }

  /** `obj[key] = v`. */
  function Put<V>(fs: seq<Field<V>>, key: string, v: V): (r: seq<Field<V>>)
    ensures Keys(r) == if key in Keys(fs) then Keys(fs) else Keys(fs) + [key]
  {
    if fs == [] then [Field(key, v)]
    else if fs[0].key == key then [Field(key, v)] + fs[1..]
    else [fs[0]] + Put(fs[1..], key, v)
  }

  /** After `obj[key] = v`, reading `key` gives `v` and every other property
      reads as before. */
  lemma {:induction false} PutLookup<V>(fs: seq<Field<V>>, key: string, v: V, k: string)
    ensures Lookup(Put(fs, key, v), k) == if k == key then Some(v) else Lookup(fs, k)
  {
    if fs != [] && fs[0].key != key {
      PutLookup(fs[1..], key, v, k);
      assert Put(fs, key, v)[1..] == Put(fs[1..], key, v);
    }
  }

  /** Assignment keeps the property names distinct. */
  lemma PutWellFormed<V>(fs: seq<Field<V>>, key: string, v: V)
    requires WellFormed(fs)
    ensures WellFormed(Put(fs, key, v))
  {
    var ks := Keys(fs);
    if key !in ks {
      forall i, j | 0 <= i < j < |ks| + 1
        ensures (ks + [key])[i] != (ks + [key])[j]
      {
        if j == |ks| {
          assert (ks + [key])[i] == ks[i];
        }
      }
    }
  }
}

/** JavaScript objects with string keys, as the pages use them for CSV rows,
    column mappings and a record's `data`: a value per key, and the keys in
    insertion order, which is the order `Object.keys` and `Object.entries`
    enumerate (for keys that are not array indices). */
module Objects {
  import opened Wrappers
  import opened Seqs

  datatype Dict<V> = Dict(keys: seq<string>, values: map<string, V>)

  /** The shape every object built by `{}` and assignments has: each key
      listed once, and listed exactly when it holds a value. */
  ghost predicate Valid<V>(d: Dict<V>) {
    Distinct(d.keys) && (forall k :: k in d.values <==> k in d.keys)
  }

  function Empty<V>(): (r: Dict<V>)
    ensures Valid(r) && r.keys == []
  {
    Dict([], map[])
  }

  /** `d[k]`, with `undefined` as `None`. */
  function Get<V>(d: Dict<V>, k: string): Option<V>
  {
    if k in d.values then Some(d.values[k]) else None
  }

  /** `d[k] = v`: a new key goes to the end of the key order, an existing
      key keeps its place and takes the new value. */
  function Put<V>(d: Dict<V>, k: string, v: V): (r: Dict<V>)
    ensures Get(r, k) == Some(v)
    ensures forall k' :: k' != k ==> Get(r, k') == Get(d, k')
    ensures Valid(d) ==> Valid(r)
    ensures Valid(d) ==> r.keys == if k in d.keys then d.keys else d.keys + [k]
  {
    Dict(if k in d.values then d.keys else d.keys + [k], d.values[k := v])
  }

  function RemoveKey(keys: seq<string>, k: string): (r: seq<string>)
    ensures forall x :: x in r <==> x in keys && x != k
    ensures Distinct(keys) ==> Distinct(r)
    ensures r == Filter(keys, (x: string) => x != k)
  {
    if keys == [] then []
    else if keys[0] == k then RemoveKey(keys[1..], k)
    else
      var rest := RemoveKey(keys[1..], k);
      if Distinct(keys) then
        assert keys[0] !in keys[1..];
        DistinctCons(keys[0], rest);
        [keys[0]] + rest
      else [keys[0]] + rest
  }

  /** `delete d[k]`: every other key keeps its value and its place. */
  function Delete<V>(d: Dict<V>, k: string): (r: Dict<V>)
    ensures Get(r, k) == None
    ensures forall k' :: k' != k ==> Get(r, k') == Get(d, k')
    ensures Valid(d) ==> Valid(r)
  {
    Dict(RemoveKey(d.keys, k), d.values - {k})
  }

  /** The `[key, value]` pairs of `keys`, in the order of `keys`. */
  function PairsOf<V>(keys: seq<string>, d: Dict<V>): (r: seq<(string, V)>)
    requires forall k :: k in keys ==> k in d.values
    ensures |r| == |keys|
    ensures forall i :: 0 <= i < |r| ==> r[i] == (keys[i], d.values[keys[i]])
    decreases |keys|
  {
    if keys == [] then [] else [(keys[0], d.values[keys[0]])] + PairsOf(keys[1..], d)
  }

  /** `Object.entries(d)`. */
  function Entries<V>(d: Dict<V>): (r: seq<(string, V)>)
    requires Valid(d)
    ensures |r| == |d.keys|
    ensures forall i :: 0 <= i < |r| ==> r[i].0 == d.keys[i] && Get(d, r[i].0) == Some(r[i].1)
  {
    seq(|d.keys|, i requires 0 <= i < |d.keys| => (d.keys[i], d.values[d.keys[i]]))
  }

  /** The object built by assigning each value under its key in turn: a
      later duplicate key overwrites the value but keeps the first position. */
  function FromPairs<V>(keys: seq<string>, vals: seq<V>): (r: Dict<V>)
    requires |keys| == |vals|
    ensures Valid(r)
    ensures r.keys == Dedup(keys)
    decreases |keys|
  {
    if keys == [] then Empty()
    else
      var n := |keys| - 1;
      var init := FromPairs(keys[..n], vals[..n]);
      DedupOfAppend(keys[..n], keys[n]);
      DedupMember(keys[..n], keys[n]);
      assert keys == keys[..n] + [keys[n]];
      Put(init, keys[n], vals[n])
  }

  /** Assigning one more pair extends the object by `Put`. */
  lemma FromPairsStep<V>(keys: seq<string>, vals: seq<V>, i: nat)
    requires |keys| == |vals| && i < |keys|
    ensures FromPairs(keys[..i + 1], vals[..i + 1]) == Put(FromPairs(keys[..i], vals[..i]), keys[i], vals[i])
  {
    assert keys[..i + 1][..i] == keys[..i];
    assert vals[..i + 1][..i] == vals[..i];
  }

  /** The value `FromPairs` keeps for a key is the one of its LAST
      occurrence. */
  lemma {:induction false} FromPairsLastWins<V>(keys: seq<string>, vals: seq<V>, i: nat)
    requires |keys| == |vals| && i < |keys|
    requires keys[i] !in keys[i + 1..]
    ensures Get(FromPairs(keys, vals), keys[i]) == Some(vals[i])
    decreases |keys|
  {
    if i < |keys| - 1 {
      var n := |keys| - 1;
      assert keys[n] in keys[i + 1..];
      assert keys[..n][i + 1..] == keys[i + 1..n];
      FromPairsLastWins(keys[..n], vals[..n], i);
    }
  }

  lemma {:induction false} FromPairsKeys<V>(keys: seq<string>, vals: seq<V>, k: string)
    requires |keys| == |vals|
    ensures Get(FromPairs(keys, vals), k).Some? <==> k in keys
  {
    var r := FromPairs(keys, vals);
    assert k in r.values <==> k in r.keys;
    DedupMember(keys, k);
  }

  /** When every value is a function of its key, each listed key holds
      `f(k)` and no other key holds anything. */
  lemma {:induction false} FromPairsUniform<V>(keys: seq<string>, vals: seq<V>, f: string -> V, k: string)
    requires |keys| == |vals|
    requires forall i :: 0 <= i < |keys| ==> vals[i] == f(keys[i])
    ensures Get(FromPairs(keys, vals), k) == if k in keys then Some(f(k)) else None
    decreases |keys|
  {
    if keys != [] {
      var n := |keys| - 1;
      var init := FromPairs(keys[..n], vals[..n]);
      assert forall i :: 0 <= i < n ==> vals[..n][i] == f(keys[..n][i]);
      FromPairsUniform(keys[..n], vals[..n], f, k);
      assert FromPairs(keys, vals) == Put(init, keys[n], vals[n]);
      MemberOfInitOrLast(keys, k);
    }
  }
}

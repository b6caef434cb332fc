/**
 * The values every part of the tool passes around.
 *
 * A feature dictionary is an insertion-ordered association list from feature name to number
 * (Python dictionaries keep insertion order, and the statistics and similarity code iterate over
 * them). An index maps a key (an artist name, a track id, a genre key) to its list of entries; it is
 * kept as an ordered dictionary (`Dict`) while it is being built and read as the ordered list of its
 * items (`Index`) by the statistics and similarity code.
 */
module Features {
  import opened Wrappers

  type FeatureVector = seq<(string, real)>

  /** The feature names of `fv`, in order. */
  function Keys(fv: FeatureVector): (ks: seq<string>)
    ensures |ks| == |fv|
    ensures forall i :: 0 <= i < |fv| ==> ks[i] == fv[i].0
  {
    seq(|fv|, i requires 0 <= i < |fv| => fv[i].0)
  }

  predicate HasKey(fv: FeatureVector, k: string)
  {
    k in Keys(fv)
  }

  /** No feature name occurs twice, as in any dictionary. */
  predicate DistinctKeys(fv: FeatureVector)
  {
    forall i, j :: 0 <= i < j < |fv| ==> fv[i].0 != fv[j].0
  }

  /** The position of the first feature named `k` at or after `i`, or `|fv|`. */
  function KeyIndexFrom(fv: FeatureVector, k: string, i: nat): (j: nat)
    requires i <= |fv|
    ensures i <= j <= |fv|
    ensures j < |fv| ==> fv[j].0 == k
    ensures forall m :: i <= m < j ==> fv[m].0 != k
    decreases |fv| - i
  {
    if i == |fv| then |fv| else if fv[i].0 == k then i else KeyIndexFrom(fv, k, i + 1)
  }

  /** `fv[k]`: the value of feature `k` (0.0 when absent; every caller checks `HasKey` first). */
  function ValueOf(fv: FeatureVector, k: string): (v: real)
    ensures forall i :: 0 <= i < |fv| && fv[i].0 == k && DistinctKeys(fv) ==> v == fv[i].1
  {
    var j := KeyIndexFrom(fv, k, 0);
    if j < |fv| then fv[j].1 else 0.0
  }

  /** One record of an index: a track of an artist, or one genre of a track. */
  datatype Entry =
    | Track(name: string, id: string, features: FeatureVector)
    | Genre(genreName: string, features: FeatureVector)

  /** The items of a dictionary from keys to entry lists, in insertion order. */
  type Index = seq<(string, seq<Entry>)>

  /** `data[k]` when `k in data`, for a dictionary given by its items. */
  function Lookup<V>(data: seq<(string, V)>, k: string): (r: Option<V>)
    ensures r.None? <==> forall i :: 0 <= i < |data| ==> data[i].0 != k
    ensures r.Some? ==> exists i :: 0 <= i < |data| && data[i] == (k, r.value)
    decreases |data|
  {
    if data == [] then None
    else if data[0].0 == k then Some(data[0].1)
    else
      var r := Lookup(data[1..], k);
      assert r.Some? ==> exists i :: 1 <= i < |data| && data[i] == (k, r.value) by {
        if r.Some? {
          var i :| 0 <= i < |data[1..]| && data[1..][i] == (k, r.value);
          assert data[i + 1] == (k, r.value);
        }
      }
      r
  }

  /** Every entry of every key, each with its key: the order of the nested `for key, items in data.items(): for entry in items` loops. */
  function Flatten(data: Index): (all: seq<(string, Entry)>)
    decreases |data|
  {
    if data == [] then []
    else
      var last := data[|data| - 1];
      Flatten(data[..|data| - 1]) + Tag(last.0, last.1)
  }

  /** The entries of one key, each with the key. */
  function Tag(k: string, es: seq<Entry>): (tagged: seq<(string, Entry)>)
    ensures |tagged| == |es|
    ensures forall j :: 0 <= j < |es| ==> tagged[j] == (k, es[j])
  {
    seq(|es|, j requires 0 <= j < |es| => (k, es[j]))
  }

  /** A Python dictionary from keys to entry lists: its contents and the order in which its keys were first inserted. */
  datatype Dict = Dict(entries: map<string, seq<Entry>>, order: seq<string>)
  {
    /** Each key is listed once, and exactly the keys present are listed. */
    ghost predicate Valid()
    {
      (forall i, j :: 0 <= i < j < |order| ==> order[i] != order[j])
      && (forall k :: k in entries <==> k in order)
    }

    /** The dictionary's `items()`: its keys in insertion order, and a lookup in them finds exactly its entries. */
    function Items(): (items: Index)
      requires Valid()
      ensures |items| == |order| && forall i :: 0 <= i < |items| ==> items[i].0 == order[i]
      ensures forall k :: Lookup(items, k) == if k in entries then Some(entries[k]) else None
    {
      var items := seq(|order|, i requires 0 <= i < |order| => (order[i], entries[order[i]]));
      assert forall k :: Lookup(items, k) == if k in entries then Some(entries[k]) else None by {
        forall k
          ensures Lookup(items, k) == if k in entries then Some(entries[k]) else None
        {
          LookupListed(this, items, k);
        }
      }
      items
    }

    /** `d[k] = v`: a new key goes last, an existing key keeps its place. */
    function Put(k: string, v: seq<Entry>): (d: Dict)
      requires Valid()
      ensures d.Valid()
      ensures d.entries == entries[k := v]
      ensures d.order == if k in entries then order else order + [k]
    {
      Dict(entries[k := v], if k in entries then order else order + [k])
    }

    /** `d.setdefault(k, []).append(e)`. */
    function Append(k: string, e: Entry): (d: Dict)
      requires Valid()
      ensures d.Valid()
      ensures d.entries == entries[k := (if k in entries then entries[k] else []) + [e]]
      ensures d.order == if k in entries then order else order + [k]
    {
      Put(k, (if k in entries then entries[k] else []) + [e])
    }
  }

  const EmptyDict: Dict := Dict(map[], [])

  /** Appending under a key that was just set extends the value that was set. */
  lemma PutThenAppend(d: Dict, k: string, xs: seq<Entry>, e: Entry)
    requires d.Valid()
    ensures d.Put(k, xs).Append(k, e) == d.Put(k, xs + [e])
  {
    assert d.entries[k := xs][k := xs + [e]] == d.entries[k := xs + [e]];
  }

  /** Looking a key up in the listed pairs of a dictionary finds exactly its entry. */
  lemma LookupListed(d: Dict, items: Index, k: string)
    requires d.Valid()
    requires |items| == |d.order| && forall i :: 0 <= i < |items| ==> items[i] == (d.order[i], d.entries[d.order[i]])
    ensures Lookup(items, k) == if k in d.entries then Some(d.entries[k]) else None
  {
    var r := Lookup(items, k);
    if k in d.entries {
      assert k in d.order;
      var i :| 0 <= i < |d.order| && d.order[i] == k;
      assert items[i].0 == k;
      var j :| 0 <= j < |items| && items[j] == (k, r.value);
      assert d.order[j] == k;
    }
  }
}

/**
 * A Python `dict` from paths to texts, as the service uses it for
 * `repo_data["files"]`: the items in insertion order. Assigning to a key that
 * is already present keeps the key where it is and replaces its value;
 * assigning to a new key puts it last.
 */
module Dict {
  import opened Wrappers

  type Dict = seq<(string, string)>

  function Keys(d: Dict): seq<string> {
    seq(|d|, i requires 0 <= i < |d| => d[i].0)
  }

  predicate Distinct(ks: seq<string>) {
    forall i, j :: 0 <= i < j < |ks| ==> ks[i] != ks[j]
  }

  /** `d.get(k)`: the value of the first item whose key is `k`. */
  function Get(d: Dict, k: string): Option<string> {
    if d == [] then None else if d[0].0 == k then Some(d[0].1) else Get(d[1..], k)
  }

  lemma KeysCons(e: (string, string), d: Dict)
    ensures Keys([e] + d) == [e.0] + Keys(d)
  {
  }

  /**
   * `d[k] = v`: the order of the keys is kept and a new key comes last, `k`
   * now reads `v`, every other key reads what it read before, and no item
   * other than `(k, v)` appears that was not there.
   */
  function Put(d: Dict, k: string, v: string): (r: Dict)
    ensures Keys(r) == if k in Keys(d) then Keys(d) else Keys(d) + [k]
    ensures Get(r, k) == Some(v)
    ensures forall k' :: k' != k ==> Get(r, k') == Get(d, k')
    ensures forall e :: e in r ==> e == (k, v) || e in d
    decreases |d|
  {
    if d == [] then [(k, v)]
    else if d[0].0 == k then
      KeysCons((k, v), d[1..]);
      KeysCons(d[0], d[1..]);
      assert d == [d[0]] + d[1..];
      [(k, v)] + d[1..]
    else
      var rest := Put(d[1..], k, v);
      KeysCons(d[0], rest);
      KeysCons(d[0], d[1..]);
      assert d == [d[0]] + d[1..];
      assert k in Keys(d) <==> k in Keys(d[1..]);
      [d[0]] + rest
  }

  /** Assignment keeps the keys of a dict pairwise different. */
  lemma PutDistinct(d: Dict, k: string, v: string)
    requires Distinct(Keys(d))
    ensures Distinct(Keys(Put(d, k, v)))
  {
  }
}

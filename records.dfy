/** The Python dicts the measurers fill and hand to `CSV_logger`: keys in
    insertion order, assigning an existing key keeps its position. */
module Records {
  import opened Wrappers

  /** A CSV cell: the value types the records hold. */
  datatype Cell = IntCell(i: int) | RealCell(x: real) | TimeCell(t: int) | TextCell(s: string)

  type Record = seq<(string, Cell)>

  function Keys(d: Record): (ks: seq<string>)
    ensures |ks| == |d| && forall i :: 0 <= i < |d| ==> ks[i] == d[i].0
  {
    if d == [] then [] else [d[0].0] + Keys(d[1..])
  }

  function Values(d: Record): (vs: seq<Cell>)
    ensures |vs| == |d| && forall i :: 0 <= i < |d| ==> vs[i] == d[i].1
  {
    seq(|d|, i requires 0 <= i < |d| => d[i].1)
  }

  /** `d.get(k)`: the value of the first entry with key `k`. */
  function Get(d: Record, k: string): (r: Option<Cell>)
    ensures r.None? <==> k !in Keys(d)
    decreases |d|
  {
    if d == [] then None
    else if d[0].0 == k then Some(d[0].1)
    else
      Get(d[1..], k)
  }

  /** `d[k] = v`. */
  function Put(d: Record, k: string, v: Cell): (r: Record)
    ensures Keys(r) == if k in Keys(d) then Keys(d) else Keys(d) + [k]
    ensures Get(r, k) == Some(v)
    ensures forall k' :: k' != k ==> Get(r, k') == Get(d, k')
    decreases |d|
  {
    if d == [] then [(k, v)]
    else if d[0].0 == k then [(k, v)] + d[1..]
    else
      var t := Put(d[1..], k, v);
      var r := [d[0]] + t;
      assert r[0] == d[0] && r[1..] == t;
      assert k in Keys(d) <==> k in Keys(d[1..]);
      r
  }
}

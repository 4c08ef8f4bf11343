/** The parsed record: a hash from field names to values, filled by assignments. */
module Records {
  import opened Wrappers

  /** A field value: a string, an integer (`threadid`, `line`), a string list, or `nil`. */
  datatype Value = Str(s: string) | Int(n: int) | List(items: seq<string>) | Nil

  type Record = map<string, Value>

  type Pair = (string, Value)

  function KeysOf(ps: seq<Pair>): set<string> {
    set i | 0 <= i < |ps| :: ps[i].0
  }

  /** The value of the last pair of `ps` whose key is `k`, if there is one. */
  function LastValue(ps: seq<Pair>, k: string): (r: Option<Value>)
    ensures r.None? <==> k !in KeysOf(ps)
    ensures r.Some? ==> (k, r.value) in ps
    decreases |ps|
  {
    if ps == [] then None
    else if ps[|ps| - 1].0 == k then Some(ps[|ps| - 1].1)
    else
      var r := LastValue(ps[..|ps| - 1], k);
      assert KeysOf(ps) == KeysOf(ps[..|ps| - 1]) + {ps[|ps| - 1].0};
      r
  }

  /** `record[key] = value` for each pair, from left to right. */
  function Store(rec: Record, ps: seq<Pair>): Record
    decreases |ps|
  {
    if ps == [] then rec else Store(rec[ps[0].0 := ps[0].1], ps[1..])
  }

  /** The last pair wins over earlier ones in `ps`, seen from its first pair. */
  lemma {:induction false} LastValueCons(p: Pair, ps: seq<Pair>, k: string)
    ensures LastValue([p] + ps, k) ==
      (if LastValue(ps, k).Some? then LastValue(ps, k) else if p.0 == k then Some(p.1) else None)
    decreases |ps|
  {
    var qs := [p] + ps;
    if ps != [] {
      assert qs[|qs| - 1] == ps[|ps| - 1];
      if ps[|ps| - 1].0 != k {
        assert qs[..|qs| - 1] == [p] + ps[..|ps| - 1];
        LastValueCons(p, ps[..|ps| - 1], k);
      }
    } else {
      assert qs == [p];
    }
  }

  /**
   * Storing pairs adds exactly their keys; a key gets the value of its last pair, and
   * a key no pair names keeps the value it had.
   */
  lemma {:induction false} StoreSpec(rec: Record, ps: seq<Pair>)
    ensures Store(rec, ps).Keys == rec.Keys + KeysOf(ps)
    ensures forall k :: LastValue(ps, k).Some? ==> Store(rec, ps)[k] == LastValue(ps, k).value
    ensures forall k :: k in rec && k !in KeysOf(ps) ==> Store(rec, ps)[k] == rec[k]
    decreases |ps|
  {
    if ps != [] {
      var rec' := rec[ps[0].0 := ps[0].1];
      StoreSpec(rec', ps[1..]);
      assert ps == [ps[0]] + ps[1..];
      assert KeysOf(ps) == {ps[0].0} + KeysOf(ps[1..]);
      forall k
        ensures LastValue(ps, k) ==
          (if LastValue(ps[1..], k).Some? then LastValue(ps[1..], k)
           else if ps[0].0 == k then Some(ps[0].1) else None)
      {
        LastValueCons(ps[0], ps[1..], k);
      }
    }
  }
}

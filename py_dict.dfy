/**
 * Python's insertion-ordered `dict`, restricted to string keys and JSON values,
 * as a sequence of (key, value) entries.
 */
module PyDict {
  import opened Wrappers
  import opened JsonValue

  type Entries = seq<(string, Json)>

  /** The keys in insertion order (`list(d)`). */
  function Keys(e: Entries): seq<string> {
    seq(|e|, i requires 0 <= i < |e| => e[i].0)
  }

  /** The keys of a non-empty dict are its first key followed by the keys of the rest. */
  lemma KeysCons(e: Entries)
    requires e != []
    ensures Keys(e) == [e[0].0] + Keys(e[1..])
  {
  }

  /** No key occurs twice: every `dict` satisfies this. */
  ghost predicate DistinctKeys(e: Entries) {
    forall i, j :: 0 <= i < j < |e| ==> e[i].0 != e[j].0
  }

  /** `d[k]`: the value stored under `k`, or `None` where Python raises `KeyError`. */
  function Lookup(e: Entries, k: string): (r: Option<Json>)
    ensures r.None? <==> k !in Keys(e)
    ensures r.Some? ==> (k, r.value) in e
  {
    if e == [] then None
    else
      KeysCons(e);
      if e[0].0 == k then Some(e[0].1) else Lookup(e[1..], k)
  }

  /**
   * `d[k] = v`: an existing key keeps its position and gets the new value;
   * a new key is appended at the end.
   */
  function Put(e: Entries, k: string, v: Json): (r: Entries)
    ensures Keys(r) == if k in Keys(e) then Keys(e) else Keys(e) + [k]
  {
    if e == [] then [(k, v)]
    else
      KeysCons(e);
      if e[0].0 == k then
        KeysCons([(k, v)] + e[1..]);
        assert ([(k, v)] + e[1..])[1..] == e[1..];
        [(k, v)] + e[1..]
      else
        var rest := Put(e[1..], k, v);
        KeysCons([e[0]] + rest);
        assert ([e[0]] + rest)[1..] == rest;
        [e[0]] + rest
  }

  /** The value of a dict display `{k1: v1, ..., kn: vn}`: the pairs inserted left to right. */
  function FromPairs(ps: Entries): (r: Entries)
    ensures DistinctKeys(r)
    ensures forall k :: k in Keys(r) <==> k in Keys(ps)
  {
    if ps == [] then []
    else
      var init := ps[..|ps| - 1];
      assert forall k :: k in Keys(ps) <==> k in Keys(init) || k == ps[|ps| - 1].0 by {
        assert forall i :: 0 <= i < |ps| - 1 ==> Keys(init)[i] == Keys(ps)[i];
        assert Keys(ps)[|ps| - 1] == ps[|ps| - 1].0;
      }
      PutDistinct(FromPairs(init), ps[|ps| - 1].0, ps[|ps| - 1].1);
      Put(FromPairs(init), ps[|ps| - 1].0, ps[|ps| - 1].1)
  }

  /** Assigning a key not yet present appends exactly one entry. */
  lemma {:induction false} PutFresh(e: Entries, k: string, v: Json)
    requires k !in Keys(e)
    ensures Put(e, k, v) == e + [(k, v)]
  {
    if e != [] {
      assert e[0].0 == Keys(e)[0];
      assert k !in Keys(e[1..]) by {
        assert forall i :: 0 <= i < |e| - 1 ==> Keys(e[1..])[i] == Keys(e)[i + 1];
      }
      PutFresh(e[1..], k, v);
      assert e == [e[0]] + e[1..];
    }
  }

  /** A display whose keys are pairwise distinct evaluates to exactly its pairs, in order. */
  lemma {:induction false} FromDistinctPairs(ps: Entries)
    requires DistinctKeys(ps)
    ensures FromPairs(ps) == ps
  {
    if ps != [] {
      var n := |ps| - 1;
      var init := ps[..n];
      assert DistinctKeys(init) by {
        forall a, b | 0 <= a < b < n ensures init[a].0 != init[b].0 {
          assert init[a] == ps[a] && init[b] == ps[b];
        }
      }
      FromDistinctPairs(init);
      NotInKeys(init, ps[n].0);
      PutFresh(init, ps[n].0, ps[n].1);
      assert init + [ps[n]] == ps;
    }
  }

  /** A key no entry carries is not among the keys. */
  lemma NotInKeys(e: Entries, k: string)
    requires forall i :: 0 <= i < |e| ==> e[i].0 != k
    ensures k !in Keys(e)
  {
  }

  /** In a dict, looking up the key of any entry yields that entry's value. */
  lemma {:induction false} LookupAt(e: Entries, i: nat)
    requires DistinctKeys(e)
    requires i < |e|
    ensures Lookup(e, e[i].0) == Some(e[i].1)
  {
    if i > 0 {
      assert e[0].0 != e[i].0;
      assert DistinctKeys(e[1..]) by {
        forall a, b | 0 <= a < b < |e| - 1 ensures e[1..][a].0 != e[1..][b].0 {
          assert e[1..][a] == e[a + 1] && e[1..][b] == e[b + 1];
        }
      }
      LookupAt(e[1..], i - 1);
      assert e[1..][i - 1] == e[i];
    }
  }

  /** After `d[k] = v`, reading `k` gives `v` and every other key reads as before. */
  lemma {:induction false} LookupPut(e: Entries, k: string, v: Json, k': string)
    ensures Lookup(Put(e, k, v), k') == if k' == k then Some(v) else Lookup(e, k')
  {
    if e != [] && e[0].0 != k {
      LookupPut(e[1..], k, v, k');
      assert ([e[0]] + Put(e[1..], k, v))[1..] == Put(e[1..], k, v);
    }
  }

  /** Appending an entry under a key not yet present keeps the keys distinct. */
  lemma AppendFresh(e: Entries, k: string, v: Json)
    requires DistinctKeys(e) && k !in Keys(e)
    ensures DistinctKeys(e + [(k, v)])
    ensures Keys(e + [(k, v)]) == Keys(e) + [k]
  {
    forall i | 0 <= i < |e| ensures (e + [(k, v)])[i].0 != k {
      assert (e + [(k, v)])[i].0 == Keys(e)[i];
    }
  }

  /** `d[k] = v` never duplicates a key. */
  lemma PutDistinct(e: Entries, k: string, v: Json)
    requires DistinctKeys(e)
    ensures DistinctKeys(Put(e, k, v))
  {
    var r := Put(e, k, v);
    forall i, j | 0 <= i < j < |r| ensures r[i].0 != r[j].0 {
      assert r[i].0 == Keys(r)[i] && r[j].0 == Keys(r)[j];
      if j < |e| {
        assert Keys(e)[i] == e[i].0 && Keys(e)[j] == e[j].0;
      } else {
        assert Keys(e)[i] == e[i].0;
      }
    }
  }
}

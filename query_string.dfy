/**
 * A query string as an ordered list of key/value pairs: what the client's
 * `URLSearchParams` holds and what the server's `request.query_params` reads.
 * Percent-encoding is not part of this model; the pairs are kept as they are.
 */
module QueryString {
  import opened Wrappers

  datatype Param = Param(key: string, value: string)

  /** Some pair of `ps` is for `key`. */
  predicate HasKey(ps: seq<Param>, key: string) {
    exists i | 0 <= i < |ps| :: ps[i].key == key
  }

  /** The pair at `i` is the last pair of `ps` for `key`. */
  predicate LastFor(ps: seq<Param>, key: string, i: int) {
    0 <= i < |ps| && ps[i].key == key && forall j | i < j < |ps| :: ps[j].key != key
  }

  /** `request.query_params.get(key)`: Django's `QueryDict.get` gives the LAST value given
      for a key, or nothing when the key is absent. */
  function Get(ps: seq<Param>, key: string): (r: Option<string>)
    ensures r.None? <==> !HasKey(ps, key)
    ensures r.Some? ==> exists i :: LastFor(ps, key, i) && ps[i].value == r.value
  {
    if ps == [] then None
    else if ps[|ps| - 1].key == key then Some(ps[|ps| - 1].value)
    else
      var init := ps[..|ps| - 1];
      var r := Get(init, key);
      assert forall i | 0 <= i < |init| :: init[i] == ps[i];
      assert r.Some? ==> exists i :: LastFor(ps, key, i) && ps[i].value == r.value by {
        if r.Some? {
          var i :| LastFor(init, key, i) && init[i].value == r.value;
          assert LastFor(ps, key, i);
        }
      }
      r
  }

  /** The value of the last pair for a key is the value `Get` finds. */
  lemma GetIsLast(ps: seq<Param>, key: string, i: int)
    requires LastFor(ps, key, i)
    ensures Get(ps, key) == Some(ps[i].value)
  {
    assert HasKey(ps, key) by {
      assert ps[i].key == key;
    }
    var k :| LastFor(ps, key, k) && ps[k].value == Get(ps, key).value;
    assert LastFor(ps, key, k);
    assert ps[i].key == key;
    assert k == i;
  }

  /** Pairs appended after the last pair for `key` do not change what `Get` finds, as long
      as they use other keys. */
  lemma {:induction false} GetSkipsOtherKeys(ps: seq<Param>, rest: seq<Param>, key: string)
    requires !HasKey(rest, key)
    ensures Get(ps + rest, key) == Get(ps, key)
  {
    if rest != [] {
      var all := ps + rest;
      var init := rest[..|rest| - 1];
      assert all[|all| - 1] == rest[|rest| - 1];
      assert all[..|all| - 1] == ps + init;
      assert forall i | 0 <= i < |init| :: init[i] == rest[i];
      GetSkipsOtherKeys(ps, init, key);
    } else {
      assert ps + rest == ps;
    }
  }
}

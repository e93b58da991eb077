/** Machine integer ranges, the Option/Result wrappers and map helpers shared by
    every other module. */
module Base {

  const U64_LIMIT: int := 0x1_0000_0000_0000_0000

  /** Rust's `u64` (and `usize`, which the model takes to be 64 bits wide). */
  type U64 = x: int | 0 <= x < U64_LIMIT

  /** Rust's `i64`. */
  type I64 = x: int | -0x8000_0000_0000_0000 <= x < 0x8000_0000_0000_0000

  datatype Option<+T> = None | Some(value: T) {
    function GetOr(default: T): T {
      match this
      case Some(v) => v
      case None => default
    }
  }

  datatype Result<+T, +E> = Ok(value: T) | Err(error: E)

  /** `HashMap::get` as an Option. */
  function Get<K, V>(m: map<K, V>, k: K): (r: Option<V>)
    ensures r.Some? <==> k in m
    ensures r.Some? ==> r.value == m[k]
  {
    if k in m then Some(m[k]) else None
  }

  /** The entries of a map as key/value pairs: what iterating a `HashMap` and
      collecting into a `Vec` yields, with the (unspecified) order forgotten. */
  function Entries<K, V(==)>(m: map<K, V>): (r: set<(K, V)>)
    ensures forall e :: e in r ==> e.0 in m && m[e.0] == e.1
    ensures forall k :: k in m ==> (k, m[k]) in r
    ensures |r| == |m|
  {
    EntriesCardinality(m);
    set k | k in m :: (k, m[k])
  }

  lemma {:induction false} EntriesCardinality<K, V>(m: map<K, V>)
    ensures |(set k | k in m :: (k, m[k]))| == |m|
    decreases |m|
  {
    if |m| == 0 {
      assert m == map[];
    } else {
      var k :| k in m;
      var m' := m - {k};
      assert m'.Keys == m.Keys - {k};
      assert |m'| == |m| - 1;
      EntriesCardinality(m');
      var s := set j | j in m :: (j, m[j]);
      var s' := set j | j in m' :: (j, m'[j]);
      forall e | e in s
        ensures e in s' + {(k, m[k])}
      {
        var j :| j in m && e == (j, m[j]);
        if j != k {
          assert j in m';
        }
      }
      assert s == s' + {(k, m[k])};
      assert (k, m[k]) !in s';
    }
  }

  /** No element occurs twice. */
  predicate Distinct<T(==)>(s: seq<T>) {
    forall i, j :: 0 <= i < j < |s| ==> s[i] != s[j]
  }

  /** A common prefix cancels. */
  lemma PrefixCancel<T>(prefix: seq<T>, a: seq<T>, b: seq<T>)
    requires prefix + a == prefix + b
    ensures a == b
  {
    assert a == (prefix + a)[|prefix|..];
    assert b == (prefix + b)[|prefix|..];
  }
}

/**
 * The ordering every list view of the server uses: `.sort({ createdAt: -1 })`,
 * newest document first. Documents with equal timestamps may come in any
 * order, as they may from MongoDB.
 */
module Listing {

  /** `s` is ordered by the key `at`, largest (newest) first. */
  ghost predicate NewestFirst<T>(s: seq<T>, at: T -> int)
  {
    forall i, j :: 0 <= i < j < |s| ==> at(s[i]) >= at(s[j])
  }

  /** `r` holds every element of `docs` exactly once and nothing else. */
  ghost predicate ListsExactly<T>(r: seq<T>, docs: set<T>)
  {
    multiset(r) == multiset(docs)
  }

  /** Inserts `x` into a newest-first list, before the first element that
      is not newer than it. */
  function InsertNewestFirst<T(==)>(x: T, s: seq<T>, at: T -> int): (r: seq<T>)
    requires NewestFirst(s, at)
    ensures NewestFirst(r, at)
    ensures multiset(r) == multiset(s) + multiset{x}
    ensures |r| == |s| + 1
  {
    if s == [] || at(x) >= at(s[0]) then [x] + s
    else
      var rest := InsertNewestFirst(x, s[1..], at);
      assert s == [s[0]] + s[1..];
      assert forall k :: 0 <= k < |rest| ==> at(rest[k]) <= at(s[0]) by {
        forall k | 0 <= k < |rest| ensures at(rest[k]) <= at(s[0]) {
          assert rest[k] in multiset(rest);
          assert rest[k] == x || rest[k] in s[1..];
        }
      }
      [s[0]] + rest
  }

  /** The documents stored under `keys`. */
  ghost function Documents<K, V>(m: map<K, V>, keys: set<K>): set<V>
    requires keys <= m.Keys
  {
    set k | k in keys :: m[k]
  }

  /** A collection keyed by its documents' own ids holds one document per
      key: the documents under `keys` are as many as the keys. */
  lemma {:induction false} DocumentsPerKey<K, V>(m: map<K, V>, keys: set<K>, idOf: V -> K)
    requires keys <= m.Keys
    requires forall k :: k in keys ==> idOf(m[k]) == k
    ensures |Documents(m, keys)| == |keys|
    decreases keys
  {
    if keys != {} {
      var k :| k in keys;
      var rest := keys - {k};
      DocumentsPerKey(m, rest, idOf);
      assert Documents(m, keys) == Documents(m, rest) + {m[k]};
      assert m[k] !in Documents(m, rest);
    }
  }
}

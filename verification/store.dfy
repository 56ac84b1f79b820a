/** The registry store's list logic, generic in the record type: each document
    is a sequence of records, and `key` picks the natural key compared by exact
    string equality (no case folding, no trailing-slash handling). */
module Store {
  import opened Wrappers

  /** Some record of `s` has key `k`. */
  predicate HasKey<T>(s: seq<T>, key: T -> string, k: string)
  {
    exists i :: 0 <= i < |s| && key(s[i]) == k
  }

  /** At most one record per key. */
  predicate KeysUnique<T>(s: seq<T>, key: T -> string)
  {
    forall i, j :: 0 <= i < j < |s| ==> key(s[i]) != key(s[j])
  }

  /** Number of records of `s` whose key is `k`. */
  function CountKey<T>(s: seq<T>, key: T -> string, k: string): nat
  {
    if |s| == 0 then 0
    else (if key(s[0]) == k then 1 else 0) + CountKey(s[1..], key, k)
  }

  /** `a` can be obtained from `b` by deleting records. */
  ghost predicate Subsequence<T>(a: seq<T>, b: seq<T>)
    decreases |b|
  {
    |a| == 0 || (|b| > 0 && ((a[0] == b[0] && Subsequence(a[1..], b[1..])) || Subsequence(a, b[1..])))
  }

  /** Every record whose key equals that of `rec` is replaced by `rec`; the
      others stay as they are, where they are. */
  function ReplaceMatching<T>(s: seq<T>, rec: T, key: T -> string): (r: seq<T>)
    ensures |r| == |s|
    ensures forall i :: 0 <= i < |s| ==> r[i] == (if key(s[i]) == key(rec) then rec else s[i])
  {
    if |s| == 0 then []
    else [if key(s[0]) == key(rec) then rec else s[0]] + ReplaceMatching(s[1..], rec, key)
  }

  /** The non-empty-store branch of an upsert: replace in place, or append when
      no stored record has the key. */
  function Merge<T>(s: seq<T>, rec: T, key: T -> string): (r: seq<T>)
    ensures |r| == if HasKey(s, key, key(rec)) then |s| else |s| + 1
    ensures forall i :: 0 <= i < |s| ==> r[i] == (if key(s[i]) == key(rec) then rec else s[i])
    ensures !HasKey(s, key, key(rec)) ==> r == s + [rec]
    ensures HasKey(r, key, key(rec))
  {
    var replaced := ReplaceMatching(s, rec, key);
    if HasKey(s, key, key(rec)) then replaced
    else
      assert replaced == s;
      assert (replaced + [rec])[|s|] == rec;
      replaced + [rec]
  }

  /** Replace-or-append by key, with the empty-store branch that writes the
      one-record list directly. */
  function Upsert<T>(s: seq<T>, rec: T, key: T -> string): (r: seq<T>)
    ensures r == Merge(s, rec, key)
  {
    if |s| == 0 then [rec] else Merge(s, rec, key)
  }

  /** The record-by-record loop with a found flag, as the installer runs it on a
      non-empty store; it computes `Merge`. */
  method MergeLoop<T>(s: seq<T>, rec: T, key: T -> string) returns (updated: seq<T>)
    ensures updated == Merge(s, rec, key)
  {
    updated := [];
    var found := false;
    var n := 0;
    while n < |s|
      invariant 0 <= n <= |s|
      invariant |updated| == n
      invariant forall i :: 0 <= i < n ==> updated[i] == (if key(s[i]) == key(rec) then rec else s[i])
      invariant found <==> exists i :: 0 <= i < n && key(s[i]) == key(rec)
    {
      if key(s[n]) == key(rec) {
        updated := updated + [rec];
        found := true;
      } else {
        updated := updated + [s[n]];
      }
      n := n + 1;
    }
    if !found {
      updated := updated + [rec];
    }
  }

  /** The records of `s` whose key is `k`, in stored order. */
  function Filter<T(!new)>(s: seq<T>, key: T -> string, k: string): (r: seq<T>)
    ensures forall i :: 0 <= i < |r| ==> key(r[i]) == k
    ensures forall x :: multiset(r)[x] == if key(x) == k then multiset(s)[x] else 0
  {
    if |s| == 0 then []
    else
      assert s == [s[0]] + s[1..];
      (if key(s[0]) == k then [s[0]] else []) + Filter(s[1..], key, k)
  }

  /** The first record of `s` whose key is `k`, if any. */
  function FindFirst<T>(s: seq<T>, key: T -> string, k: string): (r: Option<T>)
    ensures r.None? <==> !HasKey(s, key, k)
    ensures r.Some? ==> exists i :: 0 <= i < |s| && s[i] == r.value && key(s[i]) == k
                                    && forall j :: 0 <= j < i ==> key(s[j]) != k
  {
    if |s| == 0 then None
    else if key(s[0]) == k then Some(s[0])
    else
      var r := FindFirst(s[1..], key, k);
      assert HasKey(s[1..], key, k) ==> HasKey(s, key, k);
      r
  }

  /* ---- uniqueness, counted ---- */

  lemma {:induction false} CountPresent<T>(s: seq<T>, key: T -> string, k: string)
    requires HasKey(s, key, k)
    ensures CountKey(s, key, k) >= 1
  {
    if key(s[0]) != k {
      var i :| 0 <= i < |s| && key(s[i]) == k;
      assert key(s[1..][i - 1]) == k;
      CountPresent(s[1..], key, k);
    }
  }

  lemma {:induction false} CountTwo<T>(s: seq<T>, key: T -> string, i: nat, j: nat)
    requires i < j < |s| && key(s[i]) == key(s[j])
    ensures CountKey(s, key, key(s[i])) >= 2
  {
    if i == 0 {
      assert key(s[1..][j - 1]) == key(s[0]);
      CountPresent(s[1..], key, key(s[0]));
    } else {
      assert s[1..][i - 1] == s[i] && s[1..][j - 1] == s[j];
      CountTwo(s[1..], key, i - 1, j - 1);
    }
  }

  /** In a store with unique keys, a key is held by exactly one record when it
      is present and by none otherwise. */
  lemma {:induction false} UniqueCount<T>(s: seq<T>, key: T -> string, k: string)
    requires KeysUnique(s, key)
    ensures CountKey(s, key, k) == if HasKey(s, key, k) then 1 else 0
  {
    if |s| > 0 {
      assert KeysUnique(s[1..], key) by {
        forall i, j | 0 <= i < j < |s[1..]|
          ensures key(s[1..][i]) != key(s[1..][j])
        {
          assert s[1..][i] == s[i + 1] && s[1..][j] == s[j + 1];
        }
      }
      UniqueCount(s[1..], key, k);
      if key(s[0]) == k {
        forall i | 0 <= i < |s[1..]|
          ensures key(s[1..][i]) != k
        {
          assert s[1..][i] == s[i + 1];
        }
      } else {
        if HasKey(s, key, k) {
          var i :| 0 <= i < |s| && key(s[i]) == k;
          assert key(s[1..][i - 1]) == k;
        }
      }
    }
  }

  /** "At most one record per key" read both ways: pairwise distinct keys, or
      every key counted at most once. */
  lemma KeysUniqueIffCountAtMostOne<T>(s: seq<T>, key: T -> string)
    ensures KeysUnique(s, key) <==> forall k :: CountKey(s, key, k) <= 1
  {
    if KeysUnique(s, key) {
      forall k ensures CountKey(s, key, k) <= 1 {
        UniqueCount(s, key, k);
      }
    } else {
      var i, j :| 0 <= i < j < |s| && key(s[i]) == key(s[j]);
      CountTwo(s, key, i, j);
    }
  }

  /* ---- upsert ---- */

  /** Upsert never loses a key: the keys afterwards are the keys before plus
      the new record's. */
  lemma UpsertKeys<T>(s: seq<T>, rec: T, key: T -> string, k: string)
    ensures HasKey(Upsert(s, rec, key), key, k) <==> HasKey(s, key, k) || k == key(rec)
  {
    var r := Upsert(s, rec, key);
    if HasKey(s, key, k) {
      var i :| 0 <= i < |s| && key(s[i]) == k;
      assert key(r[i]) == k;
    }
    if HasKey(r, key, k) && k != key(rec) {
      var i :| 0 <= i < |r| && key(r[i]) == k;
      if i < |s| {
        assert key(s[i]) == k;
      }
    }
  }

  /** An upsert into a store with at most one record per key keeps it so, and
      leaves exactly one record with the new record's key. */
  lemma UpsertKeepsUnique<T>(s: seq<T>, rec: T, key: T -> string)
    requires KeysUnique(s, key)
    ensures KeysUnique(Upsert(s, rec, key), key)
    ensures CountKey(Upsert(s, rec, key), key, key(rec)) == 1
  {
    var r := Upsert(s, rec, key);
    forall i, j | 0 <= i < j < |r|
      ensures key(r[i]) != key(r[j])
    {
      if j == |s| {
        assert key(s[i]) != key(rec);
      }
    }
    UniqueCount(r, key, key(rec));
  }

  /** The second of two upserts with the same key wins outright: the first
      leaves no trace. */
  lemma UpsertLastWins<T>(s: seq<T>, a: T, b: T, key: T -> string)
    requires key(a) == key(b)
    ensures Upsert(Upsert(s, a, key), b, key) == Upsert(s, b, key)
  {
    var s1 := Upsert(s, a, key);
    var lhs := Upsert(s1, b, key);
    var rhs := Upsert(s, b, key);
    assert |lhs| == |rhs|;
    forall i | 0 <= i < |lhs|
      ensures lhs[i] == rhs[i]
    {
      if i < |s| {
        assert lhs[i] == (if key(s1[i]) == key(b) then b else s1[i]);
      } else {
        assert key(s1[i]) == key(b);
      }
    }
  }

  /** Re-submitting the same record changes nothing. */
  lemma UpsertIdempotent<T>(s: seq<T>, rec: T, key: T -> string)
    ensures Upsert(Upsert(s, rec, key), rec, key) == Upsert(s, rec, key)
  {
    UpsertLastWins(s, rec, rec, key);
  }

  /* ---- queries ---- */

  /** Every list is a subsequence of itself. */
  lemma {:induction false} SubsequenceOfSelf<T>(s: seq<T>)
    ensures Subsequence(s, s)
  {
    if |s| > 0 {
      SubsequenceOfSelf(s[1..]);
    }
  }

  /** A filtered list keeps the stored order. */
  lemma {:induction false} FilterIsSubsequence<T(!new)>(s: seq<T>, key: T -> string, k: string)
    ensures Subsequence(Filter(s, key, k), s)
  {
    if |s| > 0 {
      FilterIsSubsequence(s[1..], key, k);
      var r := Filter(s, key, k);
      if key(s[0]) == k {
        assert r[0] == s[0] && r[1..] == Filter(s[1..], key, k);
      } else {
        assert r == Filter(s[1..], key, k);
      }
    }
  }

  /** After an upsert, looking the key up finds the new record, and every other
      key finds what it found before. */
  lemma UpsertThenFind<T>(s: seq<T>, rec: T, key: T -> string, k: string)
    ensures FindFirst(Upsert(s, rec, key), key, k) ==
              if k == key(rec) then Some(rec) else FindFirst(s, key, k)
  {
    var r := Upsert(s, rec, key);
    UpsertKeys(s, rec, key, k);
    var after := FindFirst(r, key, k);
    var before := FindFirst(s, key, k);
    if after.Some? {
      var i :| 0 <= i < |r| && r[i] == after.value && key(r[i]) == k
               && forall j :: 0 <= j < i ==> key(r[j]) != k;
      if k != key(rec) {
        assert i < |s| && r[i] == s[i];
        var i' :| 0 <= i' < |s| && s[i'] == before.value && key(s[i']) == k
                  && forall j :: 0 <= j < i' ==> key(s[j]) != k;
        assert r[i'] == s[i'];
        assert key(s[i]) == k;
      }
    }
  }
}

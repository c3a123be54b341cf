/** The chained hash table.

    For any hash function and any positive number of buckets, the table refines a finite map. */
module HashTable {
  import opened Wrappers

  type Bucket<K, V> = seq<(K, V)>

  // ---- Buckets as association lists ----

  predicate UniqueKeys<K(==), V>(b: Bucket<K, V>) {
    forall i, j :: 0 <= i < j < |b| ==> b[i].0 != b[j].0
  }

  predicate HasKey<K(==), V>(b: Bucket<K, V>, key: K) {
    exists i :: 0 <= i < |b| && b[i].0 == key
  }

  function KeysOf<K, V>(b: Bucket<K, V>): set<K> {
    set i | 0 <= i < |b| :: b[i].0
  }

  /** The map an association list stands for. */
  function MapOf<K, V>(b: Bucket<K, V>): (m: map<K, V>)
    ensures m.Keys == KeysOf(b)
  {
    if b == [] then map[]
    else
      var n := |b| - 1;
      var m := MapOf(b[..n])[b[n].0 := b[n].1];
      assert KeysOf(b) == KeysOf(b[..n]) + {b[n].0};
      m
  }

  lemma {:induction false} MapOfAt<K, V>(b: Bucket<K, V>, i: nat)
    requires UniqueKeys(b) && i < |b|
    ensures b[i].0 in MapOf(b) && MapOf(b)[b[i].0] == b[i].1
  {
    var n := |b| - 1;
    if i < n {
      MapOfAt(b[..n], i);
      assert b[..n][i] == b[i];
    }
  }

  /** Maps are equal when an association list with unique keys describes both. */
  lemma MapOfIs<K, V>(b: Bucket<K, V>, m: map<K, V>)
    requires UniqueKeys(b) && m.Keys == KeysOf(b)
    requires forall i :: 0 <= i < |b| ==> m[b[i].0] == b[i].1
    ensures MapOf(b) == m
  {
    forall k | k in m ensures MapOf(b)[k] == m[k] {
      var i :| 0 <= i < |b| && b[i].0 == k;
      MapOfAt(b, i);
    }
  }

  lemma {:induction false} UniqueCount<K, V>(b: Bucket<K, V>)
    requires UniqueKeys(b)
    ensures |MapOf(b)| == |b|
  {
    if b != [] {
      var n := |b| - 1;
      UniqueCount(b[..n]);
      assert b[n].0 !in KeysOf(b[..n]);
    }
  }

  /** All entries, bucket after bucket: the order in which getAll lists them. */
  function Entries<K, V>(buckets: seq<Bucket<K, V>>): Bucket<K, V> {
    if buckets == [] then [] else Entries(buckets[..|buckets| - 1]) + buckets[|buckets| - 1]
  }

  lemma {:induction false} InEntries<K, V>(buckets: seq<Bucket<K, V>>, e: (K, V))
    ensures e in Entries(buckets) <==> exists i :: 0 <= i < |buckets| && e in buckets[i]
  {
    if buckets != [] {
      var n := |buckets| - 1;
      InEntries(buckets[..n], e);
      assert e in Entries(buckets[..n]) ==> exists i :: 0 <= i < n && e in buckets[..n][i];
    }
  }

  /** Each entry is in the bucket its key hashes to, and keys within a bucket differ. */
  predicate WellPlaced<K(==), V>(buckets: seq<Bucket<K, V>>, hash: K -> nat) {
    && |buckets| > 0
    && (forall i :: 0 <= i < |buckets| ==> UniqueKeys(buckets[i]))
    && forall i, j :: 0 <= i < |buckets| && 0 <= j < |buckets[i]| ==> hash(buckets[i][j].0) % |buckets| == i
  }

  predicate PlacedBelow<K(==), V>(buckets: seq<Bucket<K, V>>, hash: K -> nat, m: nat) {
    && m > 0
    && (forall i :: 0 <= i < |buckets| ==> UniqueKeys(buckets[i]))
    && forall i, j :: 0 <= i < |buckets| && 0 <= j < |buckets[i]| ==> hash(buckets[i][j].0) % m == i
  }

  lemma {:induction false} EntriesUnique<K, V>(buckets: seq<Bucket<K, V>>, hash: K -> nat, m: nat)
    requires PlacedBelow(buckets, hash, m)
    ensures UniqueKeys(Entries(buckets))
  {
    if buckets != [] {
      var n := |buckets| - 1;
      var front, last := buckets[..n], buckets[n];
      assert forall i :: 0 <= i < n ==> front[i] == buckets[i];
      EntriesUnique(front, hash, m);
      var all := Entries(buckets);
      forall i, j | 0 <= i < j < |all| ensures all[i].0 != all[j].0 {
        if i < |Entries(front)| && j >= |Entries(front)| {
          InEntries(front, all[i]);
          var b :| 0 <= b < n && all[i] in front[b];
          assert hash(all[i].0) % m == b;
          assert all[j] in last && hash(all[j].0) % m == n;
        }
      }
    }
  }

  /** A key is in the table exactly if it is in its own bucket, with the same value. */
  lemma OwnBucket<K, V>(buckets: seq<Bucket<K, V>>, hash: K -> nat, key: K)
    requires WellPlaced(buckets, hash)
    ensures var b := buckets[hash(key) % |buckets|]; var all := Entries(buckets);
            && (key in MapOf(all) <==> key in MapOf(b))
            && (key in MapOf(b) ==> MapOf(all)[key] == MapOf(b)[key])
  {
    var idx := hash(key) % |buckets|;
    var b, all := buckets[idx], Entries(buckets);
    EntriesUnique(buckets, hash, |buckets|);
    if key in MapOf(b) {
      var j :| 0 <= j < |b| && b[j].0 == key;
      MapOfAt(b, j);
      InEntries(buckets, b[j]);
      var k :| 0 <= k < |all| && all[k] == b[j];
      MapOfAt(all, k);
    }
    if key in MapOf(all) {
      var k :| 0 <= k < |all| && all[k].0 == key;
      InEntries(buckets, all[k]);
      var i :| 0 <= i < |buckets| && all[k] in buckets[i];
      var j :| 0 <= j < |buckets[i]| && buckets[i][j] == all[k];
      assert i == idx;
    }
  }

  /** Changing one bucket changes the table's map at the keys of that bucket only. */
  lemma BucketUpdate<K, V>(buckets: seq<Bucket<K, V>>, hash: K -> nat, idx: nat, b: Bucket<K, V>, k: K)
    requires WellPlaced(buckets, hash) && idx < |buckets|
    requires UniqueKeys(b) && forall j :: 0 <= j < |b| ==> hash(b[j].0) % |buckets| == idx
    ensures WellPlaced(buckets[idx := b], hash)
    ensures var old', new' := MapOf(Entries(buckets)), MapOf(Entries(buckets[idx := b]));
            if hash(k) % |buckets| == idx then
              (k in new' <==> k in MapOf(b)) && (k in MapOf(b) ==> new'[k] == MapOf(b)[k])
            else
              (k in new' <==> k in old') && (k in old' ==> new'[k] == old'[k])
  {
    var after := buckets[idx := b];
    forall i | 0 <= i < |after| ensures UniqueKeys(after[i]) {
    }
    OwnBucket(buckets, hash, k);
    OwnBucket(after, hash, k);
  }

  class HashTable<K(==), V> {
    const hash: K -> nat
    var buckets: seq<Bucket<K, V>>
    var entryCount: int

    /** The map that the table stands for. */
    ghost function Model(): map<K, V>
      reads this
    {
      MapOf(Entries(buckets))
    }

    ghost predicate Valid()
      reads this
    {
      WellPlaced(buckets, hash) && entryCount == |Model()|
    }

    constructor (hash: K -> nat, bucketCount: nat)
      requires bucketCount > 0
      ensures Valid() && Model() == map[] && this.hash == hash && |buckets| == bucketCount
    {
      this.hash := hash;
      this.buckets := seq(bucketCount, _ => []);
      this.entryCount := 0;
      new;
      NoEntries(buckets);
    }

    function BucketIndex(key: K): (i: nat)
      requires |buckets| > 0
      reads this
      ensures i < |buckets|
    {
      hash(key) % |buckets|
    }

    method Insert(key: K, value: V)
      requires Valid()
      modifies this
      ensures Valid() && Model() == old(Model())[key := value]
      ensures |buckets| == old(|buckets|)
    {
      hide MapOf, Entries, UniqueKeys, Stores;
      var idx := BucketIndex(key);
      var bucket := buckets[idx];
      ghost var before := buckets;
      ghost var m := Model();
      assert UniqueKeys(bucket);
      OwnBucket(before, hash, key);
      BucketHasKey(bucket, key);
      hide WellPlaced;
      var i := 0;
      while i < |bucket|
        invariant 0 <= i <= |bucket|
        invariant forall j :: 0 <= j < i ==> bucket[j].0 != key
        invariant buckets == before && entryCount == |m|
      {
        if bucket[i].0 == key {
          buckets := buckets[idx := bucket[i := (key, value)]];
          ReplaceEntry(bucket, i, value);
          StoreLemma(before, hash, key, value, bucket[i := (key, value)]);
          return;
        }
        i := i + 1;
      }
      buckets := buckets[idx := bucket + [(key, value)]];
      entryCount := entryCount + 1;
      AppendEntry(bucket, key, value);
      StoreLemma(before, hash, key, value, bucket + [(key, value)]);
    }

    method Find(key: K) returns (r: Option<V>)
      requires Valid()
      ensures r == if key in Model() then Some(Model()[key]) else None
    {
      hide MapOf, Entries, UniqueKeys;
      OwnBucket(buckets, hash, key);
      var bucket := buckets[BucketIndex(key)];
      BucketHasKey(bucket, key);
      for i := 0 to |bucket|
        invariant forall j :: 0 <= j < i ==> bucket[j].0 != key
      {
        if bucket[i].0 == key {
          MapOfAt(bucket, i);
          return Some(bucket[i].1);
        }
      }
      return None;
    }

    method Remove(key: K) returns (found: bool)
      requires Valid()
      modifies this
      ensures Valid() && found == (key in old(Model())) && Model() == old(Model()) - {key}
    {
      hide MapOf, Entries, UniqueKeys;
      var idx := BucketIndex(key);
      var bucket := buckets[idx];
      ghost var before := buckets;
      ghost var m := Model();
      assert UniqueKeys(bucket);
      OwnBucket(buckets, hash, key);
      BucketHasKey(bucket, key);
      hide WellPlaced;
      for i := 0 to |bucket|
        invariant forall j :: 0 <= j < i ==> bucket[j].0 != key
        invariant buckets == before && entryCount == |m|
      {
        if bucket[i].0 == key {
          var rest := bucket[..i] + bucket[i + 1..];
          buckets := buckets[idx := rest];
          entryCount := entryCount - 1;
          RemoveLemma(before, hash, key, i);
          return true;
        }
      }
      assert m - {key} == m;
      return false;
    }

    method Contains(key: K) returns (r: bool)
      requires Valid()
      ensures r <==> key in Model()
    {
      var v := Find(key);
      r := v.Some?;
    }

    method Size() returns (n: int)
      requires Valid()
      ensures n == |Model()|
    {
      n := entryCount;
    }

    /** getAll: each entry of the map exactly once. */
    method GetAll() returns (result: seq<(K, V)>)
      requires Valid()
      ensures UniqueKeys(result) && MapOf(result) == Model() && |result| == |Model()|
    {
      result := [];
      assert buckets[..0] == [];
      for i := 0 to |buckets|
        invariant result == Entries(buckets[..i])
      {
        ghost var done := result;
        assert buckets[..i + 1][..i] == buckets[..i];
        for j := 0 to |buckets[i]|
          invariant result == done + buckets[i][..j]
        {
          result := result + [buckets[i][j]];
        }
        assert buckets[i][..|buckets[i]|] == buckets[i];
      }
      assert buckets[..|buckets|] == buckets;
      EntriesUnique(buckets, hash, |buckets|);
      UniqueCount(result);
    }
  }

  lemma {:induction false} NoEntries<K, V>(buckets: seq<Bucket<K, V>>)
    requires forall i :: 0 <= i < |buckets| ==> buckets[i] == []
    ensures Entries(buckets) == []
  {
    if buckets != [] {
      NoEntries(buckets[..|buckets| - 1]);
    }
  }

  lemma BucketHasKey<K, V>(b: Bucket<K, V>, key: K)
    ensures key in MapOf(b) <==> exists j :: 0 <= j < |b| && b[j].0 == key
  {
  }

  /** A bucket that stores one more association for `key`, in place or at the end. */
  ghost predicate Stores<K, V>(b: Bucket<K, V>, key: K, value: V, after: Bucket<K, V>) {
    && UniqueKeys(after)
    && (forall j :: 0 <= j < |after| ==> after[j].0 == key || HasKey(b, after[j].0))
    && MapOf(after) == MapOf(b)[key := value]
  }

  lemma ReplaceEntry<K, V>(b: Bucket<K, V>, i: nat, value: V)
    requires UniqueKeys(b) && i < |b|
    ensures Stores(b, b[i].0, value, b[i := (b[i].0, value)])
  {
    var key := b[i].0;
    var after := b[i := (key, value)];
    forall j | 0 <= j < |b| ensures after[j].0 == b[j].0 {
    }
    assert KeysOf(after) == KeysOf(b);
    forall j | 0 <= j < |after| ensures MapOf(b)[key := value][after[j].0] == after[j].1 {
      MapOfAt(b, j);
    }
    MapOfIs(after, MapOf(b)[key := value]);
  }

  lemma AppendEntry<K, V>(b: Bucket<K, V>, key: K, value: V)
    requires UniqueKeys(b) && forall j :: 0 <= j < |b| ==> b[j].0 != key
    ensures Stores(b, key, value, b + [(key, value)])
  {
    var after := b + [(key, value)];
    assert after[..|b|] == b;
  }

  lemma StoreLemma<K, V>(buckets: seq<Bucket<K, V>>, hash: K -> nat, key: K, value: V, after: Bucket<K, V>)
    requires WellPlaced(buckets, hash)
    requires Stores(buckets[hash(key) % |buckets|], key, value, after)
    ensures var new' := buckets[hash(key) % |buckets| := after];
            WellPlaced(new', hash) && MapOf(Entries(new')) == MapOf(Entries(buckets))[key := value]
  {
    hide MapOf, Entries, UniqueKeys;
    var idx := hash(key) % |buckets|;
    var b := buckets[idx];
    var m := MapOf(Entries(buckets));
    var new' := MapOf(Entries(buckets[idx := after]));
    BucketUpdate(buckets, hash, idx, after, key);
    forall k ensures k in new' <==> k in m[key := value]
      ensures k in new' ==> new'[k] == m[key := value][k]
    {
      BucketUpdate(buckets, hash, idx, after, k);
      OwnBucket(buckets, hash, k);
    }
  }

  lemma RemoveEntry<K, V>(b: Bucket<K, V>, i: nat)
    requires UniqueKeys(b) && i < |b|
    ensures var rest := b[..i] + b[i + 1..];
            UniqueKeys(rest) && MapOf(rest) == MapOf(b) - {b[i].0} &&
            forall j :: 0 <= j < |rest| ==> HasKey(b, rest[j].0)
  {
    var rest := b[..i] + b[i + 1..];
    forall j | 0 <= j < |rest| ensures rest[j] == b[if j < i then j else j + 1] {
    }
    assert KeysOf(rest) == KeysOf(b) - {b[i].0} by {
      forall k | k in KeysOf(b) - {b[i].0} ensures k in KeysOf(rest) {
        var j :| 0 <= j < |b| && b[j].0 == k;
        assert rest[if j < i then j else j - 1] == b[j];
      }
    }
    forall j | 0 <= j < |rest| ensures (MapOf(b) - {b[i].0})[rest[j].0] == rest[j].1 {
      MapOfAt(b, if j < i then j else j + 1);
    }
    MapOfIs(rest, MapOf(b) - {b[i].0});
  }

  lemma StayInBucket<K, V>(buckets: seq<Bucket<K, V>>, hash: K -> nat, idx: nat, rest: Bucket<K, V>)
    requires WellPlaced(buckets, hash) && idx < |buckets| && forall j :: 0 <= j < |rest| ==>
             HasKey(buckets[idx], rest[j].0)
    ensures forall j :: 0 <= j < |rest| ==> hash(rest[j].0) % |buckets| == idx
  {
    hide UniqueKeys;
  }

  lemma RemoveLemma<K, V>(buckets: seq<Bucket<K, V>>, hash: K -> nat, key: K, i: nat)
    requires WellPlaced(buckets, hash)
    requires var b := buckets[hash(key) % |buckets|]; i < |b| && b[i].0 == key
    ensures var idx := hash(key) % |buckets|;
            var new' := buckets[idx := buckets[idx][..i] + buckets[idx][i + 1..]];
            WellPlaced(new', hash) && MapOf(Entries(new')) == MapOf(Entries(buckets)) - {key}
  {
    hide MapOf, Entries, UniqueKeys, HasKey;
    var idx := hash(key) % |buckets|;
    var b := buckets[idx];
    var rest := b[..i] + b[i + 1..];
    RemoveEntry(b, i);
    StayInBucket(buckets, hash, idx, rest);
    var m := MapOf(Entries(buckets));
    var new' := MapOf(Entries(buckets[idx := rest]));
    BucketUpdate(buckets, hash, idx, rest, key);
    hide WellPlaced;
    forall k ensures k in new' <==> k in m - {key}
      ensures k in new' ==> new'[k] == m[k]
    {
      BucketUpdate(buckets, hash, idx, rest, k);
      OwnBucket(buckets, hash, k);
    }
  }
}

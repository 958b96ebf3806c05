/** Properties of the storage-accounting store that relate several calls:
    round trips, the counters each operation moves, and the invariant every
    store built from the empty store keeps. */
module ApiProps {
  import opened Common
  import opened Api

  // ---------------------------------------------------------------- sequences of calls

  /** One call of the store's mutating interface, with the values the source
      takes from the clock and the random generator supplied as arguments. */
  datatype Op =
    | CreateOp(name: string, now: string)
    | DeleteBucketOp(name: string)
    | UploadOp(bucket: string, file: FileDesc, now: string, etag: string)
    | DeleteObjectOp(bucket: string, key: string)

  /** The store after one call; a call that throws changes nothing. */
  function Step(s: Store, op: Op): Store
  {
    match op
    case CreateOp(n, t) => var r := CreateBucket(s, n, t); if r.Ok? then r.store else s
    case DeleteBucketOp(n) => var r := DeleteBucket(s, n); if r.Ok? then r.store else s
    case UploadOp(b, f, t, e) => var r := UploadObject(s, b, f, t, e); if r.Ok? then r.store else s
    case DeleteObjectOp(b, k) => var r := DeleteObject(s, b, k); if r.Ok? then r.store else s
  }

  function Run(s: Store, ops: seq<Op>): Store
    decreases |ops|
  {
    if |ops| == 0 then s else Run(Step(s, ops[0]), ops[1..])
  }

  /** A store with no buckets and `total` bytes of capacity, all free. */
  function EmptyStore(total: int): Store
  {
    Store([], map[], Usage(total, 0, total))
  }

  // ---------------------------------------------------------------- invariants

  function ObjectBytes(o: StorageObject): int { o.size }

  function BucketBytes(b: Bucket): int { b.size }

  /** Bytes held by a list of objects. */
  function TotalSize(os: seq<StorageObject>): int
  {
    SumOf(os, ObjectBytes)
  }

  /** Bytes the bucket records claim, summed over all buckets. */
  function ClaimedBytes(bs: seq<Bucket>): int
  {
    SumOf(bs, BucketBytes)
  }

  function Names(bs: seq<Bucket>): seq<string>
  {
    seq(|bs|, i requires 0 <= i < |bs| => bs[i].name)
  }

  ghost predicate UniqueNames(bs: seq<Bucket>)
  {
    forall i, j :: 0 <= i < j < |bs| ==> bs[i].name != bs[j].name
  }

  ghost predicate Balanced(u: Usage)
  {
    u.used + u.free == u.total
  }

  /** Each bucket has an object list, and its cached count and size agree with it. */
  ghost predicate CountersMatch(bs: seq<Bucket>, objs: map<string, seq<StorageObject>>)
  {
    forall i :: 0 <= i < |bs| ==>
      && bs[i].name in objs
      && bs[i].objectCount == |objs[bs[i].name]|
      && bs[i].size == TotalSize(objs[bs[i].name])
  }

  /** Every object list belongs to a bucket record. */
  ghost predicate NoOrphanLists(bs: seq<Bucket>, objs: map<string, seq<StorageObject>>)
  {
    forall n :: n in objs ==> HasBucket(bs, n)
  }

  /** What every store built from the empty store satisfies. `used` may exceed
      the bytes the buckets claim, because deleting a bucket keeps its bytes
      counted as used. */
  ghost predicate Consistent(s: Store)
  {
    && UniqueNames(s.buckets)
    && NoOrphanLists(s.buckets, s.objects)
    && CountersMatch(s.buckets, s.objects)
    && Balanced(s.usage)
    && s.usage.used >= ClaimedBytes(s.buckets)
  }

  lemma {:induction false} TotalSizeNonNegative(os: seq<StorageObject>)
    ensures TotalSize(os) >= 0
  {
    if |os| > 0 {
      TotalSizeNonNegative(os[1..]);
    }
  }

  lemma TotalSizeAppend(os: seq<StorageObject>, o: StorageObject)
    ensures TotalSize(os + [o]) == TotalSize(os) + o.size
  {
    SumOfConcat(os, [o], ObjectBytes);
    assert [o][1..] == [];
  }

  /** Two bucket lists with the same names, position by position. */
  ghost predicate SameNames(bs: seq<Bucket>, cs: seq<Bucket>)
  {
    |cs| == |bs| && forall k :: 0 <= k < |bs| ==> cs[k].name == bs[k].name
  }

  lemma SameNamesKeepLookups(bs: seq<Bucket>, cs: seq<Bucket>, name: string, i: nat)
    requires SameNames(bs, cs)
    ensures UniqueNames(bs) ==> UniqueNames(cs)
    ensures HasBucket(bs, name) ==> HasBucket(cs, name)
    ensures FirstNamed(bs, name, i) ==> FirstNamed(cs, name, i)
  {
    if HasBucket(bs, name) {
      var k :| 0 <= k < |bs| && bs[k].name == name;
      assert cs[k].name == name;
    }
  }

  // ---------------------------------------------------------------- appending a bucket

  lemma AppendKeepsUnique(bs: seq<Bucket>, b: Bucket)
    requires UniqueNames(bs) && !HasBucket(bs, b.name)
    ensures UniqueNames(bs + [b])
  {
    var cs := bs + [b];
    forall p, q | 0 <= p < q < |cs| ensures cs[p].name != cs[q].name
    {
      assert cs[p] == bs[p];
      if q < |bs| { assert cs[q] == bs[q]; }
    }
  }

  lemma AppendKeepsOwners(bs: seq<Bucket>, objs: map<string, seq<StorageObject>>, b: Bucket)
    requires NoOrphanLists(bs, objs)
    ensures NoOrphanLists(bs + [b], objs[b.name := []])
  {
    var cs := bs + [b];
    forall m | m in objs[b.name := []] ensures HasBucket(cs, m)
    {
      if m == b.name {
        assert cs[|bs|].name == m;
      } else {
        var k :| 0 <= k < |bs| && bs[k].name == m;
        assert cs[k].name == m;
      }
    }
  }

  lemma AppendKeepsCounters(bs: seq<Bucket>, objs: map<string, seq<StorageObject>>, b: Bucket)
    requires CountersMatch(bs, objs) && !HasBucket(bs, b.name)
    requires b.objectCount == 0 && b.size == 0
    ensures CountersMatch(bs + [b], objs[b.name := []])
  {
    var cs, t := bs + [b], objs[b.name := []];
    forall k | 0 <= k < |cs|
      ensures cs[k].name in t
      ensures cs[k].objectCount == |t[cs[k].name]|
      ensures cs[k].size == TotalSize(t[cs[k].name])
    {
      if k < |bs| {
        assert cs[k] == bs[k];
        assert bs[k].name != b.name;
      }
    }
  }

  /** A consistent store stays consistent when a fresh, empty bucket is appended. */
  lemma AppendKeepsConsistent(s: Store, b: Bucket)
    requires Consistent(s)
    requires !HasBucket(s.buckets, b.name)
    requires b.objectCount == 0 && b.size == 0
    ensures Consistent(Store(s.buckets + [b], s.objects[b.name := []], s.usage))
  {
    AppendKeepsUnique(s.buckets, b);
    AppendKeepsOwners(s.buckets, s.objects, b);
    AppendKeepsCounters(s.buckets, s.objects, b);
    SumOfConcat(s.buckets, [b], BucketBytes);
    assert [b][1..] == [];
  }

  // ---------------------------------------------------------------- removing a bucket

  /** Position `k` of the list without entry `i` holds entry `Skip(i, k)`. */
  function Skip(i: nat, k: nat): nat
  {
    if k < i then k else k + 1
  }

  lemma RemoveAt(bs: seq<Bucket>, i: nat)
    requires i < |bs|
    ensures |bs[..i] + bs[i+1..]| == |bs| - 1
    ensures forall k :: 0 <= k < |bs| - 1 ==> (bs[..i] + bs[i+1..])[k] == bs[Skip(i, k)]
  {
  }

  lemma RemoveKeepsUnique(bs: seq<Bucket>, i: nat)
    requires i < |bs| && UniqueNames(bs)
    ensures UniqueNames(bs[..i] + bs[i+1..])
  {
    RemoveAt(bs, i);
    var cs := bs[..i] + bs[i+1..];
    forall p, q | 0 <= p < q < |cs| ensures cs[p].name != cs[q].name
    {
      assert cs[p] == bs[Skip(i, p)] && cs[q] == bs[Skip(i, q)];
    }
  }

  lemma RemoveKeepsOwners(bs: seq<Bucket>, objs: map<string, seq<StorageObject>>, i: nat)
    requires i < |bs| && NoOrphanLists(bs, objs)
    ensures NoOrphanLists(bs[..i] + bs[i+1..], objs - {bs[i].name})
  {
    RemoveAt(bs, i);
    var cs := bs[..i] + bs[i+1..];
    forall m | m in objs - {bs[i].name} ensures HasBucket(cs, m)
    {
      var k :| 0 <= k < |bs| && bs[k].name == m;
      if k < i {
        assert cs[k] == bs[k];
      } else {
        assert cs[k - 1] == bs[k];
      }
    }
  }

  lemma RemoveKeepsCounters(bs: seq<Bucket>, objs: map<string, seq<StorageObject>>, i: nat)
    requires i < |bs| && UniqueNames(bs) && CountersMatch(bs, objs)
    ensures CountersMatch(bs[..i] + bs[i+1..], objs - {bs[i].name})
  {
    RemoveAt(bs, i);
    var cs, t := bs[..i] + bs[i+1..], objs - {bs[i].name};
    forall k | 0 <= k < |cs|
      ensures cs[k].name in t
      ensures cs[k].objectCount == |t[cs[k].name]|
      ensures cs[k].size == TotalSize(t[cs[k].name])
    {
      assert cs[k] == bs[Skip(i, k)];
      assert bs[i].name != bs[Skip(i, k)].name;
    }
  }

  /** A consistent store stays consistent when bucket `i` and its object list
      are dropped together, whatever the list held. */
  lemma RemoveKeepsConsistent(s: Store, i: nat)
    requires i < |s.buckets|
    requires Consistent(s)
    ensures Consistent(Store(s.buckets[..i] + s.buckets[i+1..], s.objects - {s.buckets[i].name}, s.usage))
  {
    RemoveKeepsUnique(s.buckets, i);
    RemoveKeepsOwners(s.buckets, s.objects, i);
    RemoveKeepsCounters(s.buckets, s.objects, i);
    SumOfRemove(s.buckets, i, BucketBytes);
    TotalSizeNonNegative(s.objects[s.buckets[i].name]);
  }

  // ---------------------------------------------------------------- moving one bucket's counters

  lemma BumpKeepsCounters(bs: seq<Bucket>, objs: map<string, seq<StorageObject>>, i: nat,
                          os: seq<StorageObject>, dCount: int, dSize: int)
    requires i < |bs| && UniqueNames(bs) && CountersMatch(bs, objs)
    requires |os| == |objs[bs[i].name]| + dCount
    requires TotalSize(os) == TotalSize(objs[bs[i].name]) + dSize
    ensures CountersMatch(bs[i := Bump(bs[i], dCount, dSize)], objs[bs[i].name := os])
  {
    var cs, t := bs[i := Bump(bs[i], dCount, dSize)], objs[bs[i].name := os];
    forall k | 0 <= k < |cs|
      ensures cs[k].name in t
      ensures cs[k].objectCount == |t[cs[k].name]|
      ensures cs[k].size == TotalSize(t[cs[k].name])
    {
      if k != i {
        assert cs[k] == bs[k];
        assert bs[k].name != bs[i].name;
      }
    }
  }

  /** A consistent store stays consistent when bucket `i` gets a new object
      list and its counters and `used` move by exactly the list's change. */
  lemma BumpKeepsConsistent(s: Store, i: nat, os: seq<StorageObject>, dCount: int, dSize: int, u: Usage)
    requires i < |s.buckets|
    requires Consistent(s)
    requires |os| == |s.objects[s.buckets[i].name]| + dCount
    requires TotalSize(os) == TotalSize(s.objects[s.buckets[i].name]) + dSize
    requires Balanced(u) && u.used == s.usage.used + dSize
    ensures Consistent(Store(s.buckets[i := Bump(s.buckets[i], dCount, dSize)], s.objects[s.buckets[i].name := os], u))
  {
    var bs, name := s.buckets, s.buckets[i].name;
    var cs, t := bs[i := Bump(bs[i], dCount, dSize)], s.objects[name := os];
    assert SameNames(bs, cs);
    SameNamesKeepLookups(bs, cs, name, i);
    forall m | m in t ensures HasBucket(cs, m)
    {
      SameNamesKeepLookups(bs, cs, m, i);
    }
    BumpKeepsCounters(bs, s.objects, i, os, dCount, dSize);
    SumOfReplace(bs, i, Bump(bs[i], dCount, dSize), BucketBytes);
  }

  // ---------------------------------------------------------------- what each successful call produces

  lemma CreateShape(s: Store, name: string, now: string)
    requires !HasBucket(s.buckets, name)
    ensures Step(s, CreateOp(name, now)) == Store(s.buckets + [Bucket(name, now, 0, 0)], s.objects[name := []], s.usage)
  {
  }

  lemma DeleteBucketShape(s: Store, name: string) returns (i: nat)
    requires HasBucket(s.buckets, name)
    ensures FirstNamed(s.buckets, name, i)
    ensures Step(s, DeleteBucketOp(name)) == Store(s.buckets[..i] + s.buckets[i+1..], s.objects - {name}, s.usage)
  {
    i := BucketIndex(s.buckets, name).value;
  }

  lemma UploadShape(s: Store, bucket: string, file: FileDesc, now: string, etag: string) returns (i: nat)
    requires HasBucket(s.buckets, bucket)
    ensures FirstNamed(s.buckets, bucket, i)
    ensures var o := StorageObject(file.name, now, file.size, etag, file.mimeType);
      UploadObject(s, bucket, file, now, etag) == Ok(Deposit(s, bucket, i, o), o)
  {
    i := BucketIndex(s.buckets, bucket).value;
  }

  /** The store a successful object delete produces, with the indices it used. */
  lemma DeleteObjectShape(s: Store, bucket: string, key: string) returns (i: nat, j: nat)
    requires HasBucket(s.buckets, bucket) && HasKey(FetchObjects(s, bucket), key)
    ensures bucket in s.objects
    ensures FirstNamed(s.buckets, bucket, i) && FirstKeyed(s.objects[bucket], key, j)
    ensures DeleteObject(s, bucket, key) == Ok(Withdraw(s, bucket, i, j), ())
  {
    i := BucketIndex(s.buckets, bucket).value;
    j := ObjectIndex(s.objects[bucket], key).value;
  }

  // ---------------------------------------------------------------- per-operation invariants

  lemma CreatePreservesConsistent(s: Store, name: string, now: string)
    requires Consistent(s)
    ensures Consistent(Step(s, CreateOp(name, now)))
  {
    if !HasBucket(s.buckets, name) {
      CreateShape(s, name, now);
      AppendKeepsConsistent(s, Bucket(name, now, 0, 0));
    }
  }

  lemma DeleteBucketPreservesConsistent(s: Store, name: string)
    requires Consistent(s)
    ensures Consistent(Step(s, DeleteBucketOp(name)))
  {
    if HasBucket(s.buckets, name) {
      var i := DeleteBucketShape(s, name);
      RemoveKeepsConsistent(s, i);
    }
  }

  lemma UploadPreservesConsistent(s: Store, bucket: string, file: FileDesc, now: string, etag: string)
    requires Consistent(s)
    ensures Consistent(Step(s, UploadOp(bucket, file, now, etag)))
  {
    if HasBucket(s.buckets, bucket) {
      var i := UploadShape(s, bucket, file, now, etag);
      var o := StorageObject(file.name, now, file.size, etag, file.mimeType);
      var os := s.objects[bucket];
      TotalSizeAppend(os, o);
      BumpKeepsConsistent(s, i, os + [o], 1, file.size,
        Usage(s.usage.total, s.usage.used + file.size, s.usage.free - file.size));
    }
  }

  /** Taking object `j` out of a bucket keeps a consistent store consistent. */
  lemma WithdrawKeepsConsistent(s: Store, bucket: string, i: nat, j: nat)
    requires Consistent(s)
    requires FirstNamed(s.buckets, bucket, i)
    requires bucket in s.objects && j < |s.objects[bucket]|
    ensures Consistent(Withdraw(s, bucket, i, j))
  {
    var os := s.objects[bucket];
    var size: int := os[j].size;
    var u := Usage(s.usage.total, s.usage.used - size, s.usage.free + size);
    SumOfRemove(os, j, ObjectBytes);
    BumpKeepsConsistent(s, i, os[..j] + os[j+1..], -1, -size, u);
    assert Withdraw(s, bucket, i, j)
        == Store(s.buckets[i := Bump(s.buckets[i], -1, -size)], s.objects[bucket := os[..j] + os[j+1..]], u);
  }

  lemma DeleteObjectPreservesConsistent(s: Store, bucket: string, key: string)
    requires Consistent(s)
    ensures Consistent(Step(s, DeleteObjectOp(bucket, key)))
  {
    if HasBucket(s.buckets, bucket) && HasKey(FetchObjects(s, bucket), key) {
      var i, j := DeleteObjectShape(s, bucket, key);
      WithdrawKeepsConsistent(s, bucket, i, j);
      assert Step(s, DeleteObjectOp(bucket, key)) == Withdraw(s, bucket, i, j);
    }
  }

  lemma StepPreservesConsistent(s: Store, op: Op)
    requires Consistent(s)
    ensures Consistent(Step(s, op))
  {
    match op
    case CreateOp(n, t) => CreatePreservesConsistent(s, n, t);
    case DeleteBucketOp(n) => DeleteBucketPreservesConsistent(s, n);
    case UploadOp(b, f, t, e) => UploadPreservesConsistent(s, b, f, t, e);
    case DeleteObjectOp(b, k) => DeleteObjectPreservesConsistent(s, b, k);
  }

  /** Any sequence of calls on a store built from empty keeps bucket counters
      equal to their objects' count and bytes, and `used + free == total`. */
  lemma {:induction false} RunFromEmptyConsistent(total: int, ops: seq<Op>)
    ensures Consistent(Run(EmptyStore(total), ops))
  {
    RunPreservesConsistent(EmptyStore(total), ops);
  }

  lemma {:induction false} RunPreservesConsistent(s: Store, ops: seq<Op>)
    requires Consistent(s)
    ensures Consistent(Run(s, ops))
    decreases |ops|
  {
    if |ops| > 0 {
      StepPreservesConsistent(s, ops[0]);
      RunPreservesConsistent(Step(s, ops[0]), ops[1..]);
    }
  }

  /** `used + free == total` survives every call, on any store; nothing stops
      `free` from going negative. */
  lemma {:induction false} RunKeepsBalance(s: Store, ops: seq<Op>)
    requires Balanced(s.usage)
    ensures Balanced(Run(s, ops).usage)
    ensures Run(s, ops).usage.total == s.usage.total
    decreases |ops|
  {
    if |ops| > 0 {
      StepKeepsBalance(s, ops[0]);
      RunKeepsBalance(Step(s, ops[0]), ops[1..]);
    }
  }

  /** What `fetchUsage` reports after any calls from an empty store: the
      capacity it started with, split into used and free, with `used`
      covering every byte the bucket records claim. */
  lemma FetchUsageAfterRun(total: int, ops: seq<Op>)
    ensures var u := FetchUsage(Run(EmptyStore(total), ops));
      && u.total == total
      && u.used + u.free == total
      && u.used >= ClaimedBytes(FetchBuckets(Run(EmptyStore(total), ops)))
  {
    RunKeepsBalance(EmptyStore(total), ops);
    RunFromEmptyConsistent(total, ops);
  }

  /** What `fetchUsage` reports after any calls from the seed data the page
      ships with: the seed's 100 GiB capacity, still split into used and free. */
  lemma FetchUsageAfterSeedRun(ops: seq<Op>)
    ensures var u := FetchUsage(Run(SeedStore(), ops));
      && u.total == 107374182400
      && u.used + u.free == u.total
  {
    RunKeepsBalance(SeedStore(), ops);
  }

  lemma StepKeepsBalance(s: Store, op: Op)
    requires Balanced(s.usage)
    ensures Balanced(Step(s, op).usage)
    ensures Step(s, op).usage.total == s.usage.total
  {
  }

  /** An upload larger than the free space still succeeds and drives `free`
      below zero. */
  lemma UploadIgnoresCapacity(s: Store, bucket: string, file: FileDesc, now: string, etag: string)
    requires HasBucket(s.buckets, bucket)
    requires file.size > s.usage.free
    ensures UploadObject(s, bucket, file, now, etag).Ok?
    ensures Step(s, UploadOp(bucket, file, now, etag)).usage.free < 0
  {
  }

  /** The seed data is not a consistent store: `documentos` claims 152 objects
      but lists three. */
  lemma SeedNotConsistent()
    ensures !CountersMatch(SeedStore().buckets, SeedStore().objects)
    ensures !Consistent(SeedStore())
  {
    var s := SeedStore();
    assert s.buckets[0].name == "documentos";
    assert |s.objects["documentos"]| == 3;
  }

  // ---------------------------------------------------------------- round trips and deltas

  /** A second create of the same name fails and the first bucket survives. */
  lemma CreateTwiceFails(s: Store, name: string, now: string, later: string)
    requires CreateBucket(s, name, now).Ok?
    ensures var t := CreateBucket(s, name, now).store;
      && CreateBucket(t, name, later) == Err(BucketExists(name))
      && Step(t, CreateOp(name, later)) == t
  {
    var t := CreateBucket(s, name, now).store;
    assert t.buckets[|s.buckets|].name == name;
  }

  /** Creating a fresh name and deleting it again restores the bucket list and
      usage, and every object list other than that name's. */
  lemma CreateThenDeleteBucket(s: Store, name: string, now: string)
    requires !HasBucket(s.buckets, name)
    ensures var t := CreateBucket(s, name, now).store;
      DeleteBucket(t, name) == Ok(Store(s.buckets, s.objects - {name}, s.usage), ())
  {
    var t := CreateBucket(s, name, now).store;
    var n := |s.buckets|;
    assert t.buckets[n].name == name;
    assert BucketIndex(t.buckets, name) == Some(n);
    assert t.buckets[..n] + t.buckets[n+1..] == s.buckets;
    assert t.objects - {name} == s.objects - {name};
  }

  /** The store an upload of `o` into bucket `i` produces. */
  function Deposit(s: Store, bucket: string, i: nat, o: StorageObject): Store
    requires i < |s.buckets|
  {
    Store(s.buckets[i := Bump(s.buckets[i], 1, o.size)],
          s.objects[bucket := FetchObjects(s, bucket) + [o]],
          Usage(s.usage.total, s.usage.used + o.size, s.usage.free - o.size))
  }

  /** Taking back the object a deposit appended restores the store exactly. */
  lemma WithdrawUndoesDeposit(s: Store, bucket: string, i: nat, o: StorageObject)
    requires FirstNamed(s.buckets, bucket, i) && bucket in s.objects
    ensures FirstNamed(Deposit(s, bucket, i, o).buckets, bucket, i)
    ensures Withdraw(Deposit(s, bucket, i, o), bucket, i, |s.objects[bucket]|) == s
  {
    var t := Deposit(s, bucket, i, o);
    var os := s.objects[bucket];
    var ts := os + [o];
    assert t.objects[bucket] == ts && ts[|os|] == o;
    assert ts[..|os|] + ts[|os|+1..] == os;
    var size: int := o.size;
    assert Bump(t.buckets[i], -1, -size) == s.buckets[i];
    assert t.buckets[i := s.buckets[i]] == s.buckets;
    assert t.objects[bucket := os] == s.objects;
  }

  /** Uploading a file whose name is not yet a key in the bucket and then
      deleting that key gives back exactly the store before the upload. */
  lemma UploadThenDeleteRestores(s: Store, bucket: string, file: FileDesc, now: string, etag: string)
    requires HasBucket(s.buckets, bucket)
    requires bucket in s.objects
    requires !HasKey(s.objects[bucket], file.name)
    ensures var t := UploadObject(s, bucket, file, now, etag).store;
      DeleteObject(t, bucket, file.name) == Ok(s, ())
  {
    var i := UploadShape(s, bucket, file, now, etag);
    var o := StorageObject(file.name, now, file.size, etag, file.mimeType);
    var os := s.objects[bucket];
    var t := Deposit(s, bucket, i, o);
    WithdrawUndoesDeposit(s, bucket, i, o);
    var ts := t.objects[bucket];
    assert ts == os + [o];
    assert HasKey(FetchObjects(t, bucket), file.name) by { assert ts[|os|].key == file.name; }
    var i2, j := DeleteObjectShape(t, bucket, file.name);
    assert i2 == i;
    assert forall k :: 0 <= k < |os| ==> ts[k].key != file.name;
    assert j == |os|;
    assert UploadObject(s, bucket, file, now, etag).store == t;
    assert DeleteObject(t, bucket, file.name) == Ok(s, ());
  }

  /** Dropping an old entry of a list that just grew keeps the new entry last. */
  lemma DropBeforeAppended<T>(xs: seq<T>, x: T, j: nat)
    requires j < |xs|
    ensures (xs + [x])[..j] + (xs + [x])[j+1..] == xs[..j] + xs[j+1..] + [x]
  {
    assert (xs + [x])[j+1..] == xs[j+1..] + [x];
  }

  /** A deposit keeps the first bucket with its name and the first object
      with a key that was already present where they were. */
  lemma DepositKeepsLookups(s: Store, bucket: string, i: nat, o: StorageObject, key: string, j: nat)
    requires FirstNamed(s.buckets, bucket, i)
    requires FirstKeyed(FetchObjects(s, bucket), key, j)
    ensures var t := Deposit(s, bucket, i, o);
      && FirstNamed(t.buckets, bucket, i)
      && bucket in t.objects
      && t.objects[bucket] == FetchObjects(s, bucket) + [o]
      && FirstKeyed(t.objects[bucket], key, j)
  {
    var t := Deposit(s, bucket, i, o);
    assert SameNames(s.buckets, t.buckets);
    SameNamesKeepLookups(s.buckets, t.buckets, bucket, i);
    var os := FetchObjects(s, bucket);
    assert forall k :: 0 <= k <= j ==> (os + [o])[k] == os[k];
  }

  /** Uploading a key that is already present does not replace it: the list
      grows, and a later delete of that key removes the older entry and
      keeps the new one. */
  lemma DuplicateKeyIsAppended(s: Store, bucket: string, file: FileDesc, now: string, etag: string)
    requires HasBucket(s.buckets, bucket)
    requires HasKey(FetchObjects(s, bucket), file.name)
    ensures var t := UploadObject(s, bucket, file, now, etag).store;
      var os := FetchObjects(s, bucket);
      var j := ObjectIndex(os, file.name).value;
      && |FetchObjects(t, bucket)| == |os| + 1
      && DeleteObject(t, bucket, file.name).Ok?
      && FetchObjects(DeleteObject(t, bucket, file.name).store, bucket)
           == os[..j] + os[j+1..] + [StorageObject(file.name, now, file.size, etag, file.mimeType)]
  {
    var i := UploadShape(s, bucket, file, now, etag);
    var os := FetchObjects(s, bucket);
    var o := StorageObject(file.name, now, file.size, etag, file.mimeType);
    var t := Deposit(s, bucket, i, o);
    assert UploadObject(s, bucket, file, now, etag).store == t;
    var j := ObjectIndex(os, file.name).value;
    DepositKeepsLookups(s, bucket, i, o, file.name, j);
    var i2, j2 := DeleteObjectShape(t, bucket, file.name);
    assert j2 == j;
    DropBeforeAppended(os, o, j);
  }

  lemma NamesAppend(bs: seq<Bucket>, b: Bucket)
    ensures Names(bs + [b]) == Names(bs) + [b.name]
  {
  }

  lemma NamesRemove(bs: seq<Bucket>, i: nat)
    requires i < |bs|
    ensures Names(bs[..i] + bs[i+1..]) == Names(bs)[..i] + Names(bs)[i+1..]
  {
    RemoveAt(bs, i);
  }

  lemma NamesReplace(bs: seq<Bucket>, i: nat, b: Bucket)
    requires i < |bs| && b.name == bs[i].name
    ensures Names(bs[i := b]) == Names(bs)
  {
  }

  lemma UploadKeepsNames(s: Store, b: string, f: FileDesc, now: string, e: string)
    ensures Names(Step(s, UploadOp(b, f, now, e)).buckets) == Names(s.buckets)
  {
    if HasBucket(s.buckets, b) {
      var i := UploadShape(s, b, f, now, e);
      var o := StorageObject(f.name, now, f.size, e, f.mimeType);
      assert Step(s, UploadOp(b, f, now, e)) == Deposit(s, b, i, o);
      NamesReplace(s.buckets, i, Bump(s.buckets[i], 1, f.size));
    }
  }

  lemma WithdrawKeepsNames(s: Store, bucket: string, i: nat, j: nat)
    requires FirstNamed(s.buckets, bucket, i)
    requires bucket in s.objects && j < |s.objects[bucket]|
    ensures Names(Withdraw(s, bucket, i, j).buckets) == Names(s.buckets)
  {
    var size: int := s.objects[bucket][j].size;
    NamesReplace(s.buckets, i, Bump(s.buckets[i], -1, -size));
  }

  lemma DeleteObjectKeepsNames(s: Store, b: string, k: string)
    ensures Names(Step(s, DeleteObjectOp(b, k)).buckets) == Names(s.buckets)
  {
    if HasBucket(s.buckets, b) && HasKey(FetchObjects(s, b), k) {
      var i, j := DeleteObjectShape(s, b, k);
      assert Step(s, DeleteObjectOp(b, k)) == Withdraw(s, b, i, j);
      WithdrawKeepsNames(s, b, i, j);
    }
  }

  /** The bucket order callers see: object calls keep it, a create appends,
      a bucket delete drops one entry and keeps the rest in order. */
  lemma StepKeepsBucketOrder(s: Store, op: Op)
    ensures op.UploadOp? || op.DeleteObjectOp? ==> Names(FetchBuckets(Step(s, op))) == Names(FetchBuckets(s))
    ensures op.CreateOp? && !HasBucket(s.buckets, op.name) ==> Names(FetchBuckets(Step(s, op))) == Names(FetchBuckets(s)) + [op.name]
    ensures op.DeleteBucketOp? && HasBucket(s.buckets, op.name) ==>
      exists i :: 0 <= i < |s.buckets| && Names(FetchBuckets(Step(s, op))) == Names(FetchBuckets(s))[..i] + Names(FetchBuckets(s))[i+1..]
  {
    match op
    case CreateOp(n, now) =>
      if !HasBucket(s.buckets, n) {
        CreateShape(s, n, now);
        NamesAppend(s.buckets, Bucket(n, now, 0, 0));
      }
    case DeleteBucketOp(n) =>
      if HasBucket(s.buckets, n) {
        var i := DeleteBucketShape(s, n);
        NamesRemove(s.buckets, i);
        assert Names(FetchBuckets(Step(s, op))) == Names(FetchBuckets(s))[..i] + Names(FetchBuckets(s))[i+1..];
      }
    case UploadOp(b, f, now, e) => UploadKeepsNames(s, b, f, now, e);
    case DeleteObjectOp(b, k) => DeleteObjectKeepsNames(s, b, k);
  }

  /** Deleting a bucket that holds bytes leaves them counted as used: the gap
      between `used` and the bytes the buckets claim grows by the bucket's size. */
  lemma DeleteBucketKeepsUsedBytes(s: Store, name: string)
    requires Consistent(s)
    requires HasBucket(s.buckets, name)
    ensures var t := Step(s, DeleteBucketOp(name));
      && t.usage == s.usage
      && t.usage.used - ClaimedBytes(t.buckets)
           == s.usage.used - ClaimedBytes(s.buckets) + TotalSize(s.objects[name])
  {
    var i := BucketIndex(s.buckets, name).value;
    SumOfRemove(s.buckets, i, BucketBytes);
  }
}

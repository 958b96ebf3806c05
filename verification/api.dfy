/** The in-memory storage-accounting store behind the dashboard: an ordered
    list of bucket records, a map from bucket name to that bucket's ordered
    objects, and one global usage record. Every operation is an atomic,
    pure transition that either yields the next store and a value or fails
    with an error that leaves the store as it was. */
module Api {
  import opened Common

  datatype Bucket = Bucket(name: string, creationDate: string, objectCount: int, size: int)

  /** `type` in the source; `type` is a Dafny keyword. */
  datatype StorageObject = StorageObject(key: string, lastModified: string, size: nat, etag: string, mimeType: string)

  datatype Usage = Usage(total: int, used: int, free: int)

  datatype Store = Store(buckets: seq<Bucket>, objects: map<string, seq<StorageObject>>, usage: Usage)

  /** The parts of a browser `File` the store reads. */
  datatype FileDesc = FileDesc(name: string, size: nat, mimeType: string)

  datatype ApiError =
    | BucketExists(name: string)
    | BucketNotFound(name: string)
    | ObjectNotFound(bucket: string, key: string)

  datatype Outcome<T> = Ok(store: Store, value: T) | Err(error: ApiError)

  /** The text of the `Error` each failure throws. */
  function Message(e: ApiError): string
  {
    match e
    case BucketExists(n) => "Bucket '" + n + "' já existe"
    case BucketNotFound(n) => "Bucket '" + n + "' não encontrado"
    case ObjectNotFound(b, k) => "Objeto '" + k + "' não encontrado no bucket '" + b + "'"
  }

  /** How the promise of a store call settles: it resolves on success and
      otherwise rejects with an `Error` whose message is the failure's text,
      so whatever catches it shows that text and never its own fallback. */
  function Settle<T>(o: Outcome<T>): (r: Settled)
    ensures r.Resolved? <==> o.Ok?
    ensures o.Err? ==> forall fallback :: CaughtMessage(r.reason, fallback) == Message(o.error)
  {
    if o.Ok? then Resolved else Rejected(ErrorValue(Message(o.error)))
  }

  /** Lookups are by exact string equality; no normalisation. */
  predicate HasBucket(bs: seq<Bucket>, name: string)
  {
    exists i | 0 <= i < |bs| :: bs[i].name == name
  }

  predicate HasKey(os: seq<StorageObject>, key: string)
  {
    exists i | 0 <= i < |os| :: os[i].key == key
  }

  /** `i` is the index `findIndex` returns for `name`. */
  ghost predicate FirstNamed(bs: seq<Bucket>, name: string, i: int)
  {
    0 <= i < |bs| && bs[i].name == name && forall j :: 0 <= j < i ==> bs[j].name != name
  }

  /** `i` is the index `findIndex` returns for `key`. */
  ghost predicate FirstKeyed(os: seq<StorageObject>, key: string, i: int)
  {
    0 <= i < |os| && os[i].key == key && forall j :: 0 <= j < i ==> os[j].key != key
  }

  /** The bucket record with its counters moved by the given amounts. */
  function Bump(b: Bucket, dCount: int, dSize: int): Bucket
  {
    b.(objectCount := b.objectCount + dCount, size := b.size + dSize)
  }

  /** `after` is `before` with only the first bucket named `name` bumped. */
  ghost predicate BumpedFirst(before: seq<Bucket>, after: seq<Bucket>, name: string, dCount: int, dSize: int)
  {
    && |after| == |before|
    && exists i :: FirstNamed(before, name, i)
         && after[i] == Bump(before[i], dCount, dSize)
         && forall j :: 0 <= j < |before| && j != i ==> after[j] == before[j]
  }

  /** Every object list other than `name`'s reads the same in both stores. */
  ghost predicate OthersUnchanged(s: Store, t: Store, name: string)
  {
    forall n :: n != name ==> FetchObjects(t, n) == FetchObjects(s, n)
  }

  /** `findIndex` by bucket name. */
  function BucketIndex(bs: seq<Bucket>, name: string): (r: Option<nat>)
    ensures r.None? <==> !HasBucket(bs, name)
    ensures forall i :: FirstNamed(bs, name, i) <==> r == Some(i)
  {
    var r := FindIndex(bs, (b: Bucket) => b.name == name);
    assert r.Some? ==> FirstNamed(bs, name, r.value);
    r
  }

  /** `findIndex` by object key. */
  function ObjectIndex(os: seq<StorageObject>, key: string): (r: Option<nat>)
    ensures r.None? <==> !HasKey(os, key)
    ensures forall i :: FirstKeyed(os, key, i) <==> r == Some(i)
  {
    var r := FindIndex(os, (o: StorageObject) => o.key == key);
    assert r.Some? ==> FirstKeyed(os, key, r.value);
    r
  }

  // ---------------------------------------------------------------- reads

  /** A new list of the live bucket records, in insertion order. */
  function FetchBuckets(s: Store): seq<Bucket>
  {
    s.buckets
  }

  /** The bucket's objects; an unknown bucket reads as empty, not as an error. */
  function FetchObjects(s: Store, bucket: string): (r: seq<StorageObject>)
    ensures bucket !in s.objects ==> r == []
    ensures bucket in s.objects ==> r == s.objects[bucket]
  {
    if bucket in s.objects then s.objects[bucket] else []
  }

  function FetchUsage(s: Store): Usage
  {
    s.usage
  }

  // ---------------------------------------------------------------- writes

  /** Creates an empty bucket stamped `now`, unless one with that name exists. */
  function CreateBucket(s: Store, name: string, now: string): (r: Outcome<Bucket>)
    ensures r.Err? <==> HasBucket(s.buckets, name)
    ensures r.Err? ==> r.error == BucketExists(name)
    ensures r.Ok? ==> r.value == Bucket(name, now, 0, 0)
    ensures r.Ok? ==> FetchBuckets(r.store) == FetchBuckets(s) + [r.value]
    ensures r.Ok? ==> name in r.store.objects && FetchObjects(r.store, name) == []
    ensures r.Ok? ==> OthersUnchanged(s, r.store, name)
    ensures r.Ok? ==> r.store.usage == s.usage
  {
    match BucketIndex(s.buckets, name)
    case Some(_) => Err(BucketExists(name))
    case None =>
      var b := Bucket(name, now, 0, 0);
      Ok(Store(s.buckets + [b], s.objects[name := []], s.usage), b)
  }

  /** Removes the first bucket with that name and its whole object list.
      Global usage is left as it was, even when the bucket held objects. */
  function DeleteBucket(s: Store, name: string): (r: Outcome<()>)
    ensures r.Err? <==> !HasBucket(s.buckets, name)
    ensures r.Err? ==> r.error == BucketNotFound(name)
    ensures r.Ok? ==> exists i :: FirstNamed(s.buckets, name, i)
                        && r.store.buckets == s.buckets[..i] + s.buckets[i+1..]
    ensures r.Ok? ==> name !in r.store.objects && OthersUnchanged(s, r.store, name)
    ensures r.Ok? ==> r.store.usage == s.usage
  {
    match BucketIndex(s.buckets, name)
    case None => Err(BucketNotFound(name))
    case Some(i) =>
      assert FirstNamed(s.buckets, name, i);
      Ok(Store(s.buckets[..i] + s.buckets[i+1..], s.objects - {name}, s.usage), ())
  }

  /** Appends a new object keyed by the file name to the bucket, bumping the
      bucket's counters and moving `file.size` bytes from free to used.
      There is no capacity check and no replacement of an existing key. */
  function UploadObject(s: Store, bucket: string, file: FileDesc, now: string, etag: string): (r: Outcome<StorageObject>)
    ensures r.Err? <==> !HasBucket(s.buckets, bucket)
    ensures r.Err? ==> r.error == BucketNotFound(bucket)
    ensures r.Ok? ==> r.value == StorageObject(file.name, now, file.size, etag, file.mimeType)
    ensures r.Ok? ==> FetchObjects(r.store, bucket) == FetchObjects(s, bucket) + [r.value]
    ensures r.Ok? ==> bucket in r.store.objects && OthersUnchanged(s, r.store, bucket)
    ensures r.Ok? ==> BumpedFirst(s.buckets, r.store.buckets, bucket, 1, file.size)
    ensures r.Ok? ==> r.store.usage == Usage(s.usage.total, s.usage.used + file.size, s.usage.free - file.size)
  {
    match BucketIndex(s.buckets, bucket)
    case None => Err(BucketNotFound(bucket))
    case Some(i) =>
      var o := StorageObject(file.name, now, file.size, etag, file.mimeType);
      var bs := s.buckets[i := Bump(s.buckets[i], 1, file.size)];
      var u := Usage(s.usage.total, s.usage.used + file.size, s.usage.free - file.size);
      assert FirstNamed(s.buckets, bucket, i);
      Ok(Store(bs, s.objects[bucket := FetchObjects(s, bucket) + [o]], u), o)
  }

  /** The store once object `j` of `bucket` is gone, with its bytes taken off
      the bucket record at `i` and handed back from used to free. */
  function Withdraw(s: Store, bucket: string, i: nat, j: nat): (t: Store)
    requires FirstNamed(s.buckets, bucket, i)
    requires bucket in s.objects && j < |s.objects[bucket]|
    ensures var os := s.objects[bucket];
      && FetchObjects(t, bucket) == os[..j] + os[j+1..]
      && BumpedFirst(s.buckets, t.buckets, bucket, -1, -(os[j].size as int))
      && t.usage == Usage(s.usage.total, s.usage.used - os[j].size, s.usage.free + os[j].size)
    ensures bucket in t.objects && OthersUnchanged(s, t, bucket)
  {
    var os := s.objects[bucket];
    var size: int := os[j].size;
    Store(s.buckets[i := Bump(s.buckets[i], -1, -size)],
          s.objects[bucket := os[..j] + os[j+1..]],
          Usage(s.usage.total, s.usage.used - size, s.usage.free + size))
  }

  /** Removes the first object with that key from the bucket, undoing its
      accounting on the bucket's counters and on global usage. */
  function DeleteObject(s: Store, bucket: string, key: string): (r: Outcome<()>)
    ensures r.Err? <==> !HasBucket(s.buckets, bucket) || !HasKey(FetchObjects(s, bucket), key)
    ensures r.Err? && !HasBucket(s.buckets, bucket) ==> r.error == BucketNotFound(bucket)
    ensures r.Err? && HasBucket(s.buckets, bucket) ==> r.error == ObjectNotFound(bucket, key)
    ensures r.Ok? ==>
      var os := FetchObjects(s, bucket);
      exists j :: FirstKeyed(os, key, j)
        && FetchObjects(r.store, bucket) == os[..j] + os[j+1..]
        && BumpedFirst(s.buckets, r.store.buckets, bucket, -1, -(os[j].size as int))
        && r.store.usage == Usage(s.usage.total, s.usage.used - os[j].size, s.usage.free + os[j].size)
    ensures r.Ok? ==> bucket in r.store.objects && OthersUnchanged(s, r.store, bucket)
  {
    match BucketIndex(s.buckets, bucket)
    case None => Err(BucketNotFound(bucket))
    case Some(i) =>
      if bucket !in s.objects then Err(ObjectNotFound(bucket, key))
      else
        match ObjectIndex(s.objects[bucket], key)
        case None => Err(ObjectNotFound(bucket, key))
        case Some(j) =>
          assert FirstNamed(s.buckets, bucket, i);
          assert FirstKeyed(s.objects[bucket], key, j);
          Ok(Withdraw(s, bucket, i, j), ())
  }

  // ---------------------------------------------------------------- seed data

  /** The store the module starts with. Its records are not mutually
      consistent: counters and usage were written by hand. */
  function SeedStore(): Store
  {
    Store(
      [ Bucket("documentos", "2023-05-15T09:24:00Z", 152, 1073741824),
        Bucket("imagens", "2023-06-22T14:30:00Z", 567, 5368709120),
        Bucket("backups", "2023-04-10T11:15:00Z", 42, 10737418240),
        Bucket("logs", "2023-07-05T08:45:00Z", 1243, 536870912) ],
      map[
        "documentos" := [
          StorageObject("relatorio-2023.pdf", "2023-08-15T09:24:00Z", 5242880, "abc123", "application/pdf"),
          StorageObject("contrato.docx", "2023-08-10T14:30:00Z", 2097152, "def456", "application/vnd.openxmlformats-officedocument.wordprocessingml.document"),
          StorageObject("apresentacao.pptx", "2023-07-22T11:15:00Z", 10485760, "ghi789", "application/vnd.openxmlformats-officedocument.presentationml.presentation") ],
        "imagens" := [
          StorageObject("perfil.jpg", "2023-08-20T15:45:00Z", 1048576, "jkl012", "image/jpeg"),
          StorageObject("banner.png", "2023-08-18T12:30:00Z", 2097152, "mno345", "image/png"),
          StorageObject("logo.svg", "2023-08-05T09:15:00Z", 524288, "pqr678", "image/svg+xml") ],
        "backups" := [
          StorageObject("database-2023-08-20.sql", "2023-08-20T00:00:00Z", 1073741824, "stu901", "application/sql"),
          StorageObject("arquivos-2023-08-13.zip", "2023-08-13T00:00:00Z", 2147483648, "vwx234", "application/zip") ],
        "logs" := [
          StorageObject("acesso-2023-08-20.log", "2023-08-20T23:59:59Z", 10485760, "yza567", "text/plain"),
          StorageObject("erro-2023-08-20.log", "2023-08-20T23:59:59Z", 5242880, "bcd890", "text/plain") ]
      ],
      Usage(107374182400, 17179869184, 90194313216))
  }
}

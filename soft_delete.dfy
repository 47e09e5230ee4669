/** The pattern the brand, instruments, organization and users repositories
    share: a table of rows that are never removed but marked with a
    `deleted_at` time, each row possibly referring by URL to one object in
    the shared bucket. Each operation is specified by a step function from
    the old state to its result and the new state; the `Table` class
    performs the same operation statement by statement. */
module SoftDelete {
  import opened Common
  import opened S3Objects

  const NotFound := "Not found"

  /** One table row: its id, the entity's own columns, the URL column of its
      stored object (`logo`, `picture` or `profile_image`) and the three
      timestamps. */
  datatype Row<A> = Row(id: int, attrs: A, file: Option<string>,
                        createdAt: Time, updatedAt: Time, deletedAt: Option<Time>)

  /** A row every query with `deleted_at IS NULL` sees. */
  predicate IsLive<A>(r: Row<A>) {
    r.deletedAt.None?
  }

  /** The table and the bucket together; `nextId` is the next auto-increment value. */
  datatype Store<A> = Store(rows: map<int, Row<A>>, nextId: int, objects: set<string>)

  /** Every row sits under its own id, and ids are below the auto-increment counter. */
  predicate WellFormed<A>(s: Store<A>) {
    s.nextId >= 1 && forall k :: k in s.rows ==> 1 <= k < s.nextId && s.rows[k].id == k
  }

  /** The result of one operation and the state after it. */
  datatype Outcome<A, T> = Outcome(result: Result<T, string>, store: Store<A>)

  // ---------------------------------------------------------------- queries

  /** `findById`: the live row with this id, or null. */
  function Find<A>(s: Store<A>, id: int): Option<Row<A>> {
    if id in s.rows && IsLive(s.rows[id]) then Some(s.rows[id]) else None
  }

  /** The live rows with ids below `n`, in increasing id order. */
  function LiveUpTo<A>(rows: map<int, Row<A>>, n: int): (s: seq<Row<A>>)
    requires forall k :: k in rows ==> rows[k].id == k
    ensures forall i :: 0 <= i < |s| ==> s[i].id in rows && rows[s[i].id] == s[i] && IsLive(s[i]) && s[i].id < n
    ensures forall i, j :: 0 <= i < j < |s| ==> s[i].id < s[j].id
    ensures forall k :: k in rows && 1 <= k < n && IsLive(rows[k]) ==> rows[k] in s
    decreases n
  {
    if n <= 1 then []
    else
      var prefix := LiveUpTo(rows, n - 1);
      if n - 1 in rows && IsLive(rows[n - 1]) then prefix + [rows[n - 1]] else prefix
  }

  /** `findAll`: every live row, in id order. */
  function Listing<A>(s: Store<A>): seq<Row<A>>
    requires WellFormed(s)
  {
    LiveUpTo(s.rows, s.nextId)
  }

  /** A row is listed exactly when looking up its id finds it. */
  lemma ListingIsFind<A>(s: Store<A>, r: Row<A>)
    requires WellFormed(s)
    ensures r in Listing(s) <==> Find(s, r.id) == Some(r)
  {
    if Find(s, r.id) == Some(r) {
      assert r == s.rows[r.id];
    }
  }

  /** The listing holds no row twice. */
  lemma ListingHasDistinctIds<A>(s: Store<A>, i: int, j: int)
    requires WellFormed(s)
    requires 0 <= i < |Listing(s)| && 0 <= j < |Listing(s)| && i != j
    ensures Listing(s)[i].id != Listing(s)[j].id
  {
    if i > j {
      assert Listing(s)[j].id < Listing(s)[i].id;
    }
  }

  // ---------------------------------------------------------------- objects

  /** `deleteS3File(getS3KeyFromUrl(url))`: the bucket without the object the
      URL refers to; an error when the key cannot be read from the URL. */
  function Release(objects: set<string>, url: Option<string>): (r: Result<set<string>, string>)
    ensures !Truthy(url) ==> r == Success(objects)
    ensures r.Success? ==> r.value <= objects
  {
    match KeyFromUrl(url)
    case Failure(e) => Failure(e)
    case Success(key) => Success(Removed(objects, key))
  }

  /** The rule of every update: the old object goes only when a new one is
      supplied and an old one exists. */
  function ReplaceObject(objects: set<string>, oldFile: Option<string>, newFile: Option<string>): Result<set<string>, string> {
    if Truthy(newFile) && Truthy(oldFile) then Release(objects, oldFile) else Success(objects)
  }

  // ---------------------------------------------------------------- steps

  /** `INSERT` with the given columns and `file || null`, then the new row read back. */
  function CreateStep<A>(s: Store<A>, attrs: A, file: Option<string>, now: Time): Outcome<A, Row<A>> {
    var row := Row(s.nextId, attrs, OrNull(file), now, now, None);
    Outcome(Success(row), Store(s.rows[s.nextId := row], s.nextId + 1, s.objects))
  }

  /** `updateX(id, …)`: 'Not found' unless the row is live; otherwise the old
      object is released when a new one replaces it, and the row gets the new
      columns, `file || null` and a new `updated_at`. */
  function UpdateStep<A>(s: Store<A>, id: int, attrs: A, file: Option<string>, now: Time): Outcome<A, Row<A>> {
    if Find(s, id).None? then Outcome(Failure(NotFound), s)
    else
      var existing := s.rows[id];
      match ReplaceObject(s.objects, existing.file, file)
      case Failure(e) => Outcome(Failure(e), s)
      case Success(objects) =>
        var row := existing.(attrs := attrs, file := OrNull(file), updatedAt := now);
        Outcome(Success(row), Store(s.rows[id := row], s.nextId, objects))
  }

  /** `deleteX(id)`: 'Not found' unless the row is live; otherwise its object
      is released and the row is marked deleted. */
  function DeleteStep<A>(s: Store<A>, id: int, now: Time): Outcome<A, bool> {
    if Find(s, id).None? then Outcome(Failure(NotFound), s)
    else
      var existing := s.rows[id];
      match Release(s.objects, existing.file)
      case Failure(e) => Outcome(Failure(e), s)
      case Success(objects) =>
        Outcome(Success(true), Store(s.rows[id := existing.(deletedAt := Some(now))], s.nextId, objects))
  }

  // ---------------------------------------------------------------- properties of the steps

  /** A `Store` changed at one existing row keeps its shape. */
  lemma SetRowKeepsWellFormed<A>(s: Store<A>, row: Row<A>, objects: set<string>)
    requires WellFormed(s) && row.id in s.rows
    ensures WellFormed(Store(s.rows[row.id := row], s.nextId, objects))
  {
  }

  /** Create adds one live row under a fresh id, with `file || null`, and
      changes nothing else. */
  lemma CreateAddsLiveRow<A>(s: Store<A>, attrs: A, file: Option<string>, now: Time)
    requires WellFormed(s)
    ensures var o := CreateStep(s, attrs, file, now);
      && o.result.Success?
      && var row := o.result.value;
      && WellFormed(o.store)
      && row.id !in s.rows && row.attrs == attrs && row.file == OrNull(file)
      && row.createdAt == now && row.updatedAt == now && IsLive(row)
      && Find(o.store, row.id) == Some(row)
      && (forall k :: k != row.id ==> Find(o.store, k) == Find(s, k))
      && o.store.objects == s.objects
  {
  }

  /** The created row is listed, after every row listed before it. */
  lemma CreateAppendsToListing<A>(s: Store<A>, attrs: A, file: Option<string>, now: Time)
    requires WellFormed(s)
    ensures var o := CreateStep(s, attrs, file, now);
      WellFormed(o.store) && Listing(o.store) == Listing(s) + [o.result.value]
  {
    var o := CreateStep(s, attrs, file, now);
    var n := s.nextId;
    LiveUpToAgree(s.rows, o.store.rows, n);
  }

  lemma {:induction false} LiveUpToAgree<A>(rows: map<int, Row<A>>, rows': map<int, Row<A>>, n: int)
    requires forall k :: k in rows ==> rows[k].id == k
    requires forall k :: k in rows' ==> rows'[k].id == k
    requires forall k :: k < n ==> (k in rows <==> k in rows') && (k in rows ==> rows[k] == rows'[k])
    ensures LiveUpTo(rows, n) == LiveUpTo(rows', n)
    decreases n
  {
    if n > 1 {
      LiveUpToAgree(rows, rows', n - 1);
    }
  }

  /** Every failed operation leaves the table and the bucket as they were. */
  lemma FailedUpdateChangesNothing<A>(s: Store<A>, id: int, attrs: A, file: Option<string>, now: Time)
    ensures UpdateStep(s, id, attrs, file, now).result.Failure? ==> UpdateStep(s, id, attrs, file, now).store == s
    ensures Find(s, id).None? ==> UpdateStep(s, id, attrs, file, now) == Outcome(Failure(NotFound), s)
  {
  }

  /** A successful update rewrites the columns, the URL column and
      `updated_at` of its row, keeps its id, `created_at` and `deleted_at`,
      and leaves every other row alone. */
  lemma UpdateRewritesRow<A>(s: Store<A>, id: int, attrs: A, file: Option<string>, now: Time)
    requires WellFormed(s)
    requires UpdateStep(s, id, attrs, file, now).result.Success?
    ensures var o := UpdateStep(s, id, attrs, file, now);
      var row := o.result.value;
      && WellFormed(o.store)
      && Find(s, id).Some?
      && row.id == id && row.attrs == attrs && row.file == OrNull(file) && row.updatedAt == now
      && row.createdAt == s.rows[id].createdAt && row.deletedAt == s.rows[id].deletedAt
      && Find(o.store, id) == Some(row)
      && (forall k :: k != id ==> (k in o.store.rows <==> k in s.rows) && (k in s.rows ==> o.store.rows[k] == s.rows[k]))
      && o.store.nextId == s.nextId
  {
    var o := UpdateStep(s, id, attrs, file, now);
    SetRowKeepsWellFormed(s, o.result.value, o.store.objects);
  }

  /** The old object leaves the bucket exactly when a new object is supplied
      and an old one exists; no other object is touched. */
  lemma UpdateReleasesOldObject<A>(s: Store<A>, id: int, attrs: A, file: Option<string>, now: Time)
    requires UpdateStep(s, id, attrs, file, now).result.Success?
    ensures var o := UpdateStep(s, id, attrs, file, now);
      var oldFile := s.rows[id].file;
      && (Truthy(file) && Truthy(oldFile) ==>
            KeyFromUrl(oldFile).Success? && o.store.objects == Removed(s.objects, KeyFromUrl(oldFile).value))
      && (!(Truthy(file) && Truthy(oldFile)) ==> o.store.objects == s.objects)
  {
  }

  /** The object just uploaded for the update stays, unless it has the old object's key. */
  lemma UpdateKeepsNewObject<A>(s: Store<A>, id: int, attrs: A, file: Option<string>, now: Time, newKey: string)
    requires UpdateStep(s, id, attrs, file, now).result.Success?
    requires newKey in s.objects
    requires KeyFromUrl(s.rows[id].file) != Success(Some(newKey))
    ensures newKey in UpdateStep(s, id, attrs, file, now).store.objects
  {
  }

  /** Updating a live row without a new file always succeeds, empties its URL
      column and leaves the old object in the bucket. */
  lemma UpdateWithoutFileOrphansObject<A>(s: Store<A>, id: int, attrs: A, file: Option<string>, now: Time)
    requires Find(s, id).Some? && !Truthy(file)
    ensures var o := UpdateStep(s, id, attrs, file, now);
      o.result.Success? && o.result.value.file == None && o.store.objects == s.objects
  {
  }

  /** Delete of a live row: on success the row is marked deleted at `now`,
      its object is released, it is no longer found or listed, and deleting
      it again is 'Not found'; a failure changes nothing. */
  lemma DeleteSoftDeletes<A>(s: Store<A>, id: int, now: Time, later: Time)
    requires WellFormed(s)
    ensures Find(s, id).None? ==> DeleteStep(s, id, now) == Outcome(Failure(NotFound), s)
    ensures var o := DeleteStep(s, id, now);
      && (o.result.Failure? ==> o.store == s)
      && (o.result.Success? ==>
            && o.result.value
            && WellFormed(o.store)
            && id in o.store.rows && o.store.rows[id].deletedAt == Some(now)
            && o.store.rows[id] == s.rows[id].(deletedAt := Some(now))
            && Release(s.objects, s.rows[id].file) == Success(o.store.objects)
            && Find(o.store, id).None?
            && (forall r :: r in Listing(o.store) ==> r.id != id)
            && DeleteStep(o.store, id, later) == Outcome(Failure(NotFound), o.store))
  {
    var o := DeleteStep(s, id, now);
    if o.result.Success? {
      SetRowKeepsWellFormed(s, o.store.rows[id], o.store.objects);
      forall r | r in Listing(o.store)
        ensures r.id != id
      {
        ListingIsFind(o.store, r);
      }
    }
  }

  /** A row whose object was recorded at its object URL can always be deleted,
      and exactly that object leaves the bucket. */
  lemma DeleteReleasesUploadedObject<A>(s: Store<A>, id: int, now: Time, host: string, key: string)
    requires Find(s, id).Some? && s.rows[id].file == Some(ObjectUrl(host, key))
    requires IsHost(host) && NoDotSegments(key)
    ensures var o := DeleteStep(s, id, now);
      o.result == Success(true) && o.store.objects == Removed(s.objects, Some(key))
  {
    KeyFromObjectUrl(host, key);
  }

  /** As written, `getS3KeyFromUrl` throws on a URL column that does not
      parse, such as a bare file name: the live row can then never be
      deleted, and its object never replaced, and each attempt changes
      nothing. */
  lemma UnparsableUrlBlocksDeleteAndUpdate<A>(s: Store<A>, id: int, now: Time, attrs: A, file: Option<string>)
    requires Find(s, id).Some? && Truthy(s.rows[id].file) && Pathname(s.rows[id].file.value).None?
    requires Truthy(file)
    ensures DeleteStep(s, id, now) == Outcome(Failure(InvalidUrl), s)
    ensures UpdateStep(s, id, attrs, file, now) == Outcome(Failure(InvalidUrl), s)
  {
  }

  /** `deleteS3File(getS3KeyFromUrl(url))` with the key read as documented. */
  function ReleaseAsDocumented(objects: set<string>, url: Option<string>): (r: Result<set<string>, string>)
    ensures KeyFromUrl(url) == Failure(InvalidUrl) ==> r == Success(objects)
    ensures KeyFromUrl(url) != Failure(InvalidUrl) ==> r == Release(objects, url)
  {
    match KeyFromUrlAsDocumented(url)
    case Failure(e) => Failure(e)
    case Success(key) => Success(Removed(objects, key))
  }

  /** `deleteX(id)` with the object released as documented. */
  function DeleteStepAsDocumented<A>(s: Store<A>, id: int, now: Time): Outcome<A, bool> {
    if Find(s, id).None? then Outcome(Failure(NotFound), s)
    else
      var existing := s.rows[id];
      match ReleaseAsDocumented(s.objects, existing.file)
      case Failure(e) => Outcome(Failure(e), s)
      case Success(objects) =>
        Outcome(Success(true), Store(s.rows[id := existing.(deletedAt := Some(now))], s.nextId, objects))
  }

  /** With the key read as documented, a live row whose URL does not parse is
      soft-deleted and the bucket is left alone; for every other row the
      delete is the one the code performs. */
  lemma DeleteAsDocumentedSkipsUnparsableUrl<A>(s: Store<A>, id: int, now: Time)
    ensures Find(s, id).Some? && KeyFromUrl(s.rows[id].file) == Failure(InvalidUrl) ==>
      DeleteStepAsDocumented(s, id, now)
        == Outcome(Success(true), Store(s.rows[id := s.rows[id].(deletedAt := Some(now))], s.nextId, s.objects))
    ensures Find(s, id).None? || KeyFromUrl(s.rows[id].file) != Failure(InvalidUrl) ==>
      DeleteStepAsDocumented(s, id, now) == DeleteStep(s, id, now)
  {
  }

  /** A row whose URL column holds only a file name, `logo.png`: as written
      its delete fails with 'Invalid URL'; as documented it succeeds. */
  lemma BareFileNameBlocksDelete<A>(s: Store<A>, id: int, now: Time, name: string)
    requires name == "logo.png" && Find(s, id).Some? && s.rows[id].file == Some(name)
    ensures DeleteStep(s, id, now) == Outcome(Failure(InvalidUrl), s)
    ensures DeleteStepAsDocumented(s, id, now).result == Success(true)
  {
    KeyFromUrlRejectsPlainText(name);
  }

  // ---------------------------------------------------------------- the table

  /** One repository's table, with the bucket its objects live in. */
  class Table<A> {
    var rows: map<int, Row<A>>
    var nextId: int
    const bucket: Bucket

    function Snapshot(): Store<A>
      reads this, bucket
    {
      Store(rows, nextId, bucket.objects)
    }

    predicate Valid()
      reads this, bucket
    {
      WellFormed(Snapshot())
    }

    constructor(bucket: Bucket)
      ensures Valid() && this.bucket == bucket && rows == map[] && nextId == 1
    {
      this.bucket := bucket;
      rows := map[];
      nextId := 1;
    }

    /** Removes the object `url` refers to; returns the error, changing
        nothing, when the key cannot be read from `url`. */
    method ReleaseObject(url: Option<string>) returns (err: Option<string>)
      modifies bucket
      ensures match Release(old(bucket.objects), url)
              case Failure(e) => err == Some(e) && bucket.objects == old(bucket.objects)
              case Success(objects) => err == None && bucket.objects == objects
    {
      var key := KeyFromUrl(url);
      if key.Failure? {
        return Some(key.error);
      }
      bucket.DeleteFile(key.value);
      return None;
    }

    method Insert(attrs: A, file: Option<string>, now: Time) returns (row: Row<A>)
      requires Valid()
      modifies this
      ensures Valid()
      ensures var o := CreateStep(old(Snapshot()), attrs, file, now);
        o.result == Success(row) && Snapshot() == o.store
    {
      row := Row(nextId, attrs, OrNull(file), now, now, None);
      rows := rows[nextId := row];
      nextId := nextId + 1;
    }

    method Update(id: int, attrs: A, file: Option<string>, now: Time) returns (r: Result<Row<A>, string>)
      requires Valid()
      modifies this, bucket
      ensures Valid()
      ensures var o := UpdateStep(old(Snapshot()), id, attrs, file, now);
        r == o.result && Snapshot() == o.store
    {
      if !(id in rows && IsLive(rows[id])) {
        return Failure(NotFound);
      }
      var existing := rows[id];
      if Truthy(file) && Truthy(existing.file) {
        var err := ReleaseObject(existing.file);
        if err.Some? {
          return Failure(err.value);
        }
      }
      var row := existing.(attrs := attrs, file := OrNull(file), updatedAt := now);
      rows := rows[id := row];
      r := Success(row);
    }

    method Delete(id: int, now: Time) returns (r: Result<bool, string>)
      requires Valid()
      modifies this, bucket
      ensures Valid()
      ensures var o := DeleteStep(old(Snapshot()), id, now);
        r == o.result && Snapshot() == o.store
    {
      ghost var s := Snapshot();
      if !(id in rows && IsLive(rows[id])) {
        return Failure(NotFound);
      }
      var existing := rows[id];
      if Truthy(existing.file) {
        var err := ReleaseObject(existing.file);
        if err.Some? {
          return Failure(err.value);
        }
      }
      assert Release(s.objects, existing.file) == Success(bucket.objects);
      var row := existing.(deletedAt := Some(now));
      rows := rows[id := row];
      SetRowKeepsWellFormed(s, row, bucket.objects);
      r := Success(true);
    }
  }
}

/** The package store (src/store/packageStore.ts): the sweep that archives packages
    picked up more than fifteen days ago, and the assembly of the package list from the
    package query, the owners' profiles and the photos. The database answers are
    parameters; times are milliseconds since the epoch. */
module PackageStore {
  import opened JsBuiltins
  import opened Domain
  import opened Cloudinary

  // ---------------------------------------------------------------- archive sweep

  /** Fifteen days, in milliseconds. */
  const ArchiveAgeMs: int := 15 * 24 * 60 * 60 * 1000

  /** A stored package with its last update time. */
  datatype StoredPackage = StoredPackage(pkg: Package, updatedAtMs: int)

  /** The sweep's filter: picked up, not yet archived, and last updated no later than
      fifteen days before `nowMs`. */
  predicate ShouldArchive(p: StoredPackage, nowMs: int) {
    p.pkg.status == PickedUp && !p.pkg.archived && p.updatedAtMs <= nowMs - ArchiveAgeMs
  }

  /** The table after the sweep: the matching rows get `archived` set, nothing else
      changes. */
  function ArchiveSweep(rows: seq<StoredPackage>, nowMs: int): (r: seq<StoredPackage>)
    ensures |r| == |rows|
    ensures forall i | 0 <= i < |rows| ::
      r[i].updatedAtMs == rows[i].updatedAtMs && r[i].pkg == rows[i].pkg.(archived := r[i].pkg.archived)
    ensures forall i | 0 <= i < |rows| :: r[i].pkg.archived <==> rows[i].pkg.archived || ShouldArchive(rows[i], nowMs)
  {
    if rows == [] then []
    else
      var p := rows[0];
      [if ShouldArchive(p, nowMs) then p.(pkg := p.pkg.(archived := true)) else p] + ArchiveSweep(rows[1..], nowMs)
  }

  /** A package is archived by the sweep exactly when it is picked up and its last
      update is at least 1,296,000,000 ms old. */
  lemma ArchivedIffOldPickedUp(p: StoredPackage, nowMs: int)
    requires !p.pkg.archived
    ensures ArchiveSweep([p], nowMs)[0].pkg.archived <==> p.pkg.status == PickedUp && nowMs - p.updatedAtMs >= 1296000000
  {
  }

  /** Running the sweep again at the same time archives nothing more. */
  lemma ArchiveSweepIdempotent(rows: seq<StoredPackage>, nowMs: int)
    ensures ArchiveSweep(ArchiveSweep(rows, nowMs), nowMs) == ArchiveSweep(rows, nowMs)
  {
    var once := ArchiveSweep(rows, nowMs);
    var twice := ArchiveSweep(once, nowMs);
    forall i | 0 <= i < |rows| ensures twice[i] == once[i] {
      assert twice[i].pkg == once[i].pkg.(archived := twice[i].pkg.archived);
    }
  }

  // ---------------------------------------------------------------- client ids

  /** `Array.from(new Set(data.map(p => p.client_id).filter(Boolean)))`: the non-empty
      owner ids, each once, in order of first appearance. */
  function ClientIds(ps: seq<Package>): (ids: seq<string>)
    ensures forall i, j | 0 <= i < j < |ids| :: ids[i] != ids[j]
    ensures forall id :: id in ids <==> id != "" && exists k | 0 <= k < |ps| :: ps[k].clientId == id
  {
    if ps == [] then []
    else
      var init := ps[..|ps| - 1];
      var last := ps[|ps| - 1].clientId;
      var ids := ClientIds(init);
      assert forall k | 0 <= k < |init| :: init[k] == ps[k];
      if last == "" || last in ids then ids else ids + [last]
  }

  // ---------------------------------------------------------------- profiles

  /** A `profiles` row as the package query reads it. */
  datatype ProfileContact = ProfileContact(
    id: string,
    email: Option<string>,
    phone: Option<string>,
    firstName: Option<string>,
    lastName: Option<string>,
    company: Option<string>)

  /** The owner details attached to a package. */
  datatype Client = Client(
    email: Option<string>,
    phone: Option<string>,
    firstName: Option<string>,
    lastName: Option<string>,
    company: Option<string>)

  /** The record used when the owner has no profile. */
  const NoClient: Client := Client(None, None, None, None, None)

  /** `x || null`: an empty value reads as null. */
  function OrNull(x: Option<string>): (r: Option<string>)
    ensures r.Some? <==> x.Some? && x.value != ""
    ensures r.Some? ==> r == x
  {
    if x.Some? && x.value != "" then x else None
  }

  /** The owner details of a profile: the email as read, the other fields with empty
      values read as null. */
  function ClientOf(pr: ProfileContact): Client {
    Client(pr.email, OrNull(pr.phone), OrNull(pr.firstName), OrNull(pr.lastName), OrNull(pr.company))
  }

  /** Row `k` is the last row carrying profile id `id`. */
  predicate LastWithId(rows: seq<ProfileContact>, id: string, k: int) {
    0 <= k < |rows| && rows[k].id == id && forall j | k < j < |rows| :: rows[j].id != id
  }

  /** `Object.fromEntries(...)`: the profiles by id, a later row winning over an earlier
      one with the same id. */
  function ProfilesMap(rows: seq<ProfileContact>): (m: map<string, Client>)
    ensures forall id :: id in m <==> exists k | 0 <= k < |rows| :: rows[k].id == id
    ensures |rows| > 0 ==> m[rows[|rows| - 1].id] == ClientOf(rows[|rows| - 1])
    ensures forall id | id in m :: exists k :: LastWithId(rows, id, k) && m[id] == ClientOf(rows[k])
  {
    if rows == [] then map[]
    else
      var init := rows[..|rows| - 1];
      assert forall k | 0 <= k < |init| :: init[k] == rows[k];
      assert rows == init + [rows[|rows| - 1]];
      var m := ProfilesMap(init);
      LaterRowWins(init, rows[|rows| - 1], m);
      m[rows[|rows| - 1].id := ClientOf(rows[|rows| - 1])]
  }

  /** Adding one row to the entries: its id now maps to it, and every other id keeps
      the last earlier row that carries it. */
  lemma LaterRowWins(init: seq<ProfileContact>, last: ProfileContact, m: map<string, Client>)
    requires forall id | id in m :: exists k :: LastWithId(init, id, k) && m[id] == ClientOf(init[k])
    ensures var m' := m[last.id := ClientOf(last)];
      forall id | id in m' :: exists k :: LastWithId(init + [last], id, k) && m'[id] == ClientOf((init + [last])[k])
  {
    var rows := init + [last];
    var m' := m[last.id := ClientOf(last)];
    forall id | id in m'
      ensures exists k :: LastWithId(rows, id, k) && m'[id] == ClientOf(rows[k])
    {
      if id == last.id {
        assert LastWithId(rows, id, |init|);
      } else {
        var k :| LastWithId(init, id, k) && m[id] == ClientOf(init[k]);
        assert rows[k] == init[k];
        assert LastWithId(rows, id, k);
      }
    }
  }

  // ---------------------------------------------------------------- photos

  /** A `package_photos` row; `is_primary` may be null. */
  datatype PhotoRow = PhotoRow(packageId: string, storagePath: string, isPrimary: Option<bool>)

  /** A photo as kept per package: `!!ph.is_primary` makes null false. */
  datatype PhotoEntry = PhotoEntry(storagePath: string, isPrimary: bool)

  function EntryOf(ph: PhotoRow): PhotoEntry {
    PhotoEntry(ph.storagePath, ph.isPrimary == Some(true))
  }

  /** The photos of package `id`, in the order of the rows. */
  function Bucket(rows: seq<PhotoRow>, id: string): (b: seq<PhotoEntry>)
    ensures |b| <= |rows|
  {
    if rows == [] then []
    else
      var ph := rows[|rows| - 1];
      Bucket(rows[..|rows| - 1], id) + (if ph.packageId == id then [EntryOf(ph)] else [])
  }

  /** Whether some row belongs to package `id`. */
  predicate HasPhotoFor(rows: seq<PhotoRow>, id: string) {
    exists k | 0 <= k < |rows| :: rows[k].packageId == id
  }

  /** No row is dropped and none is misplaced: a row's entry is in a bucket exactly
      when some row of that package carries it. */
  lemma {:induction false} BucketMembers(rows: seq<PhotoRow>, id: string, e: PhotoEntry)
    ensures e in Bucket(rows, id) <==> exists k | 0 <= k < |rows| :: rows[k].packageId == id && EntryOf(rows[k]) == e
  {
    if rows != [] {
      var init := rows[..|rows| - 1];
      BucketMembers(init, id, e);
      assert forall k | 0 <= k < |init| :: init[k] == rows[k];
      assert rows == init + [rows[|rows| - 1]];
    }
  }

  /** Grouping keeps the row order: for two batches of rows, each package's photos
      are those of the first batch followed by those of the second. */
  lemma {:induction false} BucketAppend(a: seq<PhotoRow>, b: seq<PhotoRow>, id: string)
    ensures Bucket(a + b, id) == Bucket(a, id) + Bucket(b, id)
    decreases |b|
  {
    if b == [] {
      assert a + b == a;
    } else {
      var init := b[..|b| - 1];
      assert (a + b)[..|a + b| - 1] == a + init;
      BucketAppend(a, init, id);
    }
  }

  /** The `for` loop over the photo rows: each row is pushed onto its package's array. */
  method GroupPhotos(rows: seq<PhotoRow>) returns (m: map<string, seq<PhotoEntry>>)
    ensures forall id :: id in m <==> HasPhotoFor(rows, id)
    ensures forall id | id in m :: m[id] == Bucket(rows, id)
  {
    m := map[];
    for i := 0 to |rows|
      invariant forall id :: id in m <==> HasPhotoFor(rows[..i], id)
      invariant forall id | id in m :: m[id] == Bucket(rows[..i], id)
    {
      var ph := rows[i];
      var arr := if ph.packageId in m then m[ph.packageId] else [];
      m := m[ph.packageId := arr + [EntryOf(ph)]];
      assert rows[..i + 1][..i] == rows[..i];
      assert forall k | 0 <= k < i :: rows[..i + 1][k] == rows[..i][k];
      forall id | !HasPhotoFor(rows[..i], id) ensures Bucket(rows[..i], id) == [] {
        NoPhotoEmptyBucket(rows[..i], id);
      }
    }
    assert rows[..|rows|] == rows;
  }

  lemma {:induction false} NoPhotoEmptyBucket(rows: seq<PhotoRow>, id: string)
    requires !HasPhotoFor(rows, id)
    ensures Bucket(rows, id) == []
  {
    if rows != [] {
      var init := rows[..|rows| - 1];
      assert forall k | 0 <= k < |init| :: init[k] == rows[k];
      NoPhotoEmptyBucket(init, id);
    }
  }

  // ---------------------------------------------------------------- package list

  /** A photo as shown: a delivery URL only when a cloud is configured. */
  datatype Photo = Photo(storagePath: string, isPrimary: bool, url: Option<string>)

  /** A package as listed: the row, its owner and its photos. */
  datatype PackageView = PackageView(pkg: Package, client: Client, photos: seq<Photo>)

  function PhotoOf(e: PhotoEntry, cloudName: string): (ph: Photo)
    ensures ph.url.None? <==> cloudName == ""
    ensures ph.url.Some? ==> ph.url.value == CloudinaryUrlFromPublicId(cloudName, e.storagePath)
    ensures ph.storagePath == e.storagePath && ph.isPrimary == e.isPrimary
  {
    Photo(e.storagePath, e.isPrimary, if cloudName != "" then Some(CloudinaryUrlFromPublicId(cloudName, e.storagePath)) else None)
  }

  /** `withClient`: each package with its owner's details (or the all-null record) and
      its photos, in the order of the query. */
  function WithClient(ps: seq<Package>, profiles: map<string, Client>, photos: map<string, seq<PhotoEntry>>,
                      cloudName: string): (r: seq<PackageView>)
    ensures |r| == |ps|
    ensures forall i | 0 <= i < |ps| :: r[i].pkg == ps[i]
    ensures forall i | 0 <= i < |ps| :: r[i].client == (if ps[i].clientId in profiles then profiles[ps[i].clientId] else NoClient)
    ensures forall i | 0 <= i < |ps| :: ps[i].id !in photos ==> r[i].photos == []
    ensures forall i | 0 <= i < |ps| :: ps[i].id in photos ==>
      |r[i].photos| == |photos[ps[i].id]|
      && forall j | 0 <= j < |r[i].photos| :: r[i].photos[j] == PhotoOf(photos[ps[i].id][j], cloudName)
  {
    seq(|ps|, i requires 0 <= i < |ps| => ViewOf(ps[i], profiles, photos, cloudName))
  }

  function ViewOf(p: Package, profiles: map<string, Client>, photos: map<string, seq<PhotoEntry>>,
                  cloudName: string): PackageView {
    var entries := if p.id in photos then photos[p.id] else [];
    PackageView(p,
        (if p.clientId in profiles then profiles[p.clientId] else NoClient),
        seq(|entries|, j requires 0 <= j < |entries| => PhotoOf(entries[j], cloudName)))
  }

  /** An owner id that no profile row carries is not in the profiles map, so the
      package gets the all-null record. */
  lemma NotProfiled(rows: seq<ProfileContact>, id: string)
    requires forall k | 0 <= k < |rows| :: rows[k].id != id
    ensures id !in ProfilesMap(rows)
  {
  }

  class Store {
    var packages: seq<PackageView>
    var loading: bool
    var error: Option<string>

    constructor ()
      ensures packages == [] && !loading && error == None
    {
      packages := [];
      loading := false;
      error := None;
    }

    /** `fetchPackages`, from the query's answer on: `failure` is its error message, if
        any, and `data` its rows. The profiles are read only when some package has an
        owner, and `profileRows`/`photoRows` are those reads' rows (`None` when they
        came back empty-handed). */
    method FetchPackages(failure: Option<string>, data: seq<Package>, profileRows: Option<seq<ProfileContact>>,
                         photoRows: Option<seq<PhotoRow>>, cloudName: string)
      modifies this`packages, this`loading, this`error
      ensures !loading
      ensures failure.Some? ==> packages == old(packages) && error == failure
      ensures failure.None? && data == [] ==> packages == [] && error == None
      ensures failure.None? && data != [] ==>
        var profiles := if |ClientIds(data)| > 0 && profileRows.Some? then ProfilesMap(profileRows.value) else map[];
        var photos := if photoRows.Some? then photoRows.value else [];
        && error == None
        && |packages| == |data|
        && (forall i | 0 <= i < |data| :: packages[i].pkg == data[i])
        && (forall i | 0 <= i < |data| ::
              packages[i].client == (if data[i].clientId in profiles then profiles[data[i].clientId] else NoClient))
        && (forall i | 0 <= i < |data| ::
              |packages[i].photos| == |Bucket(photos, data[i].id)|
              && forall j | 0 <= j < |packages[i].photos| ::
                   packages[i].photos[j] == PhotoOf(Bucket(photos, data[i].id)[j], cloudName))
    {
      loading, error := true, None;
      if failure.Some? {
        error, loading := failure, false;
        return;
      }
      if data == [] {
        packages, loading := [], false;
        return;
      }
      var profiles: map<string, Client> := map[];
      if |ClientIds(data)| > 0 && profileRows.Some? {
        profiles := ProfilesMap(profileRows.value);
      }
      var photosMap: map<string, seq<PhotoEntry>> := map[];
      if photoRows.Some? {
        photosMap := GroupPhotos(photoRows.value);
      }
      ghost var photos := if photoRows.Some? then photoRows.value else [];
      forall id | id !in photosMap ensures Bucket(photos, id) == [] {
        NoPhotoEmptyBucket(photos, id);
      }
      packages := WithClient(data, profiles, photosMap, cloudName);
      loading := false;
    }
  }
}

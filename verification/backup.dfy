/** The backup command's planning logic: flag validation, destination
    dispatch, the per-snapshot sync of a local snapshot directory against
    the remote store (upload what is missing, delete orphans), and how a run
    over several snapshots reports errors. Local directory walks, file
    opens, the snapshot service and the remote store's failures are
    inputs. */
module Backup {
  import opened Wrappers
  import opened Seqs
  import opened Paths
  import opened RemoteStore
  import opened TimeDir

  /** The data catalogs a snapshot belongs to. */
  datatype Catalog = StreamCatalog | MeasureCatalog | PropertyCatalog

  /** A catalog's directory name under a time directory. */
  function CatalogName(c: Catalog): string {
    match c
    case StreamCatalog => "stream"
    case MeasureCatalog => "measure"
    case PropertyCatalog => "property"
  }

  /** The foreign operations whose failure a run passes on. */
  datatype Source = SnapshotDir | WalkDir | OpenFile | ListRemote | UploadRemote

  /** The errors a run reports: the command's own, and a foreign failure
      identified by its operation and subject. */
  datatype Error =
    | DestRequired
    | InvalidDestURL(cause: string)
    | UnsupportedScheme(scheme: string)
    | FlagRequired(flag: string)
    | Foreign(source: Source, subject: string)

  /** The text of the command's own errors; a foreign error's text is the
      foreign code's. */
  function Message(e: Error): Option<string> {
    match e
    case DestRequired => Some("dest is required")
    case InvalidDestURL(cause) => Some("invalid dest URL: " + cause)
    case UnsupportedScheme(scheme) => Some("unsupported scheme: " + scheme)
    case FlagRequired(flag) => Some(flag + " is required")
    case Foreign(_, _) => None
  }

  // ---------------------------------------------------------------------
  // Flag validation

  /** The S3 settings the command takes as flags. */
  datatype S3Config = S3Config(
    measureBucket: string, streamBucket: string, propertyBucket: string,
    region: string, keyID: string, secretKey: string)

  /** The settings an S3 destination requires, in the order they are
      checked, each with the flag name its error reports. */
  function RequiredFields(cfg: S3Config): (fs: seq<(string, string)>)
    ensures |fs| == 6
  {
    [ ("measure-bucket", cfg.measureBucket), ("stream-bucket", cfg.streamBucket),
      ("property-bucket", cfg.propertyBucket), ("aws-region", cfg.region),
      ("aws-access-key", cfg.keyID), ("aws-secret-key", cfg.secretKey) ]
  }

  /** The pre-run check: a destination starting with "s3://" needs every S3
      setting, and the first one missing is reported; any other destination
      passes. */
  function PreRun(dest: string, cfg: S3Config): (r: Option<Error>)
    ensures r.Some? ==> HasPrefix(dest, "s3://") && r.value.FlagRequired?
  {
    if !HasPrefix(dest, "s3://") then None
    else if cfg.measureBucket == "" then Some(FlagRequired("measure-bucket"))
    else if cfg.streamBucket == "" then Some(FlagRequired("stream-bucket"))
    else if cfg.propertyBucket == "" then Some(FlagRequired("property-bucket"))
    else if cfg.region == "" then Some(FlagRequired("aws-region"))
    else if cfg.keyID == "" then Some(FlagRequired("aws-access-key"))
    else if cfg.secretKey == "" then Some(FlagRequired("aws-secret-key"))
    else None
  }

  /** The name of the first field with an empty value, if any. */
  function FirstMissing(fields: seq<(string, string)>): (r: Option<string>)
    ensures r.None? <==> forall i :: 0 <= i < |fields| ==> fields[i].1 != ""
    ensures r.Some? ==> exists i :: 0 <= i < |fields| && fields[i].1 == ""
                         && (forall j :: 0 <= j < i ==> fields[j].1 != "")
                         && r.value == fields[i].0
  {
    if |fields| == 0 then None
    else if fields[0].1 == "" then Some(fields[0].0)
    else
      var rest := FirstMissing(fields[1..]);
      assert forall i :: 0 < i < |fields| ==> fields[i] == fields[1..][i - 1];
      rest
  }

  /** The pre-run check reports exactly the first missing S3 setting, in
      the checked order, and only for an "s3://" destination. */
  lemma PreRunFirstMissing(dest: string, cfg: S3Config)
    ensures PreRun(dest, cfg)
         == if !HasPrefix(dest, "s3://") then None
            else match FirstMissing(RequiredFields(cfg))
                 case None => None
                 case Some(flag) => Some(FlagRequired(flag))
  {
    var fs := RequiredFields(cfg);
    assert fs[1..][1..] == fs[2..] && fs[2..][1..] == fs[3..] && fs[3..][1..] == fs[4..];
    assert fs[4..][1..] == fs[5..] && fs[5..][1..] == [];
    assert FirstMissing(fs[5..]) == if cfg.secretKey == "" then Some("aws-secret-key") else None;
    assert FirstMissing(fs[4..]) == if cfg.keyID == "" then Some("aws-access-key") else FirstMissing(fs[5..]);
    assert FirstMissing(fs[3..]) == if cfg.region == "" then Some("aws-region") else FirstMissing(fs[4..]);
    assert FirstMissing(fs[2..]) == if cfg.propertyBucket == "" then Some("property-bucket") else FirstMissing(fs[3..]);
    assert FirstMissing(fs[1..]) == if cfg.streamBucket == "" then Some("stream-bucket") else FirstMissing(fs[2..]);
  }

  // ---------------------------------------------------------------------
  // Destination dispatch

  /** The parts of a parsed destination URL the command uses. */
  datatype URL = URL(scheme: string, path: string)

  /** The remote file systems a destination selects. */
  datatype FSKind = LocalFS(root: string) | AwsFS

  /** `newFS`: "file" selects a local file system rooted at the URL's path,
      "s3" the S3 file system; any other scheme, and a destination that does
      not parse, is an error. The URL parser and the two file-system
      constructors are foreign: the parser's result or error text, and the
      error the selected constructor fails with (`None` when it succeeds),
      are inputs. */
  function NewFS(parsed: Result<URL, string>, built: Option<Error>): (r: Result<FSKind, Error>)
    ensures r.Success? <==> parsed.Success? && parsed.value.scheme in {"file", "s3"} && built.None?
    ensures parsed.Failure? ==> r.Failure? && Message(r.error) == Some("invalid dest URL: " + parsed.error)
    ensures parsed.Success? && parsed.value.scheme !in {"file", "s3"}
        ==> r.Failure? && Message(r.error) == Some("unsupported scheme: " + parsed.value.scheme)
    ensures parsed.Success? && parsed.value.scheme in {"file", "s3"} && built.Some? ==> r == Failure(built.value)
    ensures r.Success? && parsed.value.scheme == "file" ==> r.value == LocalFS(parsed.value.path)
    ensures r.Success? && parsed.value.scheme == "s3" ==> r.value == AwsFS
  {
    match parsed
    case Failure(cause) => Failure(InvalidDestURL(cause))
    case Success(u) =>
      if u.scheme != "file" && u.scheme != "s3" then Failure(UnsupportedScheme(u.scheme))
      else if built.Some? then Failure(built.value)
      else if u.scheme == "file" then Success(LocalFS(u.path))
      else Success(AwsFS)
  }

  // ---------------------------------------------------------------------
  // One snapshot

  /** `contains`: whether `s` occurs in `slice`. */
  function Contains(slice: seq<string>, s: string): (b: bool)
    ensures b <==> exists i :: 0 <= i < |slice| && slice[i] == s
  {
    if |slice| == 0 then false
    else if slice[0] == s then true
    else
      assert forall i :: 0 < i < |slice| ==> slice[i] == slice[1..][i - 1];
      Contains(slice[1..], s)
  }

  /** The remote directory prefix of a catalog's files in a time directory:
      `join(timeDir, catalog) + "/"`. */
  function RemotePrefix(timeDir: string, catalog: string): string {
    DirPrefix(Join(timeDir, catalog))
  }

  /** The remote path of a local file: `join(timeDir, catalog, rel)`. */
  function RemotePath(timeDir: string, catalog: string, rel: string): string {
    Join(Join(timeDir, catalog), rel)
  }

  /** A remote path is the remote prefix followed by the relative path, so
      it lies under the prefix and distinct files have distinct paths. */
  lemma RemotePathUnder(timeDir: string, catalog: string, rel: string)
    ensures RemotePath(timeDir, catalog, rel) == RemotePrefix(timeDir, catalog) + rel
    ensures HasPrefix(RemotePath(timeDir, catalog, rel), RemotePrefix(timeDir, catalog))
  {
    JoinUnder(Join(timeDir, catalog), rel);
  }

  /** A local snapshot directory: the walk's result (the files' relative
      paths, or its error) and the content of each file that can be
      opened. */
  datatype LocalSnapshot = LocalSnapshot(files: Result<seq<string>, Error>, contents: map<string, Bytes>)

  /** The remote store's failures: listings under these prefixes, uploads and
      deletes of these paths fail. */
  datatype Faults = Faults(listFails: set<string>, uploadFails: set<string>, deleteFails: set<string>)

  /** A remote store that never fails. */
  function NoFaults(): Faults {
    Faults({}, {}, {})
  }

  /** The store after an operation, and the error it returns (None for
      nil). */
  datatype Outcome = Outcome(store: Store, err: Option<Error>)

  /** What a backup run needs about one snapshot directory. */
  datatype Sync = Sync(timeDir: string, catalog: string, contents: map<string, Bytes>, listing: seq<string>, uploadFails: set<string>)

  /** Whether the file `rel` must be uploaded: its remote path is absent
      from the listing. */
  predicate Missing(sync: Sync, rel: string) {
    !Contains(sync.listing, RemotePath(sync.timeDir, sync.catalog, rel))
  }

  /** Whether uploading the missing file `rel` fails: it cannot be opened,
      or the store refuses the upload. */
  predicate Blocked(sync: Sync, rel: string) {
    Missing(sync, rel)
    && (rel !in sync.contents || RemotePath(sync.timeDir, sync.catalog, rel) in sync.uploadFails)
  }

  /** The error a blocked upload returns. */
  function BlockedError(sync: Sync, rel: string): Error {
    if rel !in sync.contents then Foreign(OpenFile, rel)
    else Foreign(UploadRemote, RemotePath(sync.timeDir, sync.catalog, rel))
  }

  /** The upload loop of `backupSnapshot`: in file order, each missing file
      is uploaded to its remote path; the first failing upload ends the loop
      with its error. */
  function UploadMissing(st: Store, sync: Sync, files: seq<string>): (o: Outcome)
    requires Valid(st)
    ensures Valid(o.store)
    decreases |files|
  {
    if |files| == 0 then Outcome(st, None)
    else
      var rel := files[0];
      var rp := RemotePath(sync.timeDir, sync.catalog, rel);
      if !Missing(sync, rel) then UploadMissing(st, sync, files[1..])
      else if Blocked(sync, rel) then Outcome(st, Some(BlockedError(sync, rel)))
      else UploadMissing(Upload(st, rp, sync.contents[rel]), sync, files[1..])
  }

  /** The remote paths the local files should have. */
  function Expected(files: seq<string>, timeDir: string, catalog: string): set<string> {
    set i | 0 <= i < |files| :: RemotePath(timeDir, catalog, files[i])
  }

  /** `deleteOrphanedFiles`: every listed path that no local file expects is
      deleted; a failing delete is only logged. */
  function DeleteOrphans(st: Store, listing: seq<string>, expected: set<string>, deleteFails: set<string>): (r: Store)
    requires Valid(st)
    ensures Valid(r)
    decreases |listing|
  {
    if |listing| == 0 then st
    else
      var p := listing[0];
      var next := if p !in expected && p !in deleteFails then Delete(st, p) else st;
      DeleteOrphans(next, listing[1..], expected, deleteFails)
  }

  /** Orphan deletion removes exactly the listed, unexpected paths whose
      delete succeeds; everything else, content included, is untouched. */
  lemma {:induction false} DeleteOrphansSpec(st: Store, listing: seq<string>, expected: set<string>, deleteFails: set<string>)
    requires Valid(st)
    ensures forall k :: k in DeleteOrphans(st, listing, expected, deleteFails).objects
                        <==> k in st.objects && (k !in listing || k in expected || k in deleteFails)
    ensures forall k :: k in DeleteOrphans(st, listing, expected, deleteFails).objects
                        ==> DeleteOrphans(st, listing, expected, deleteFails).objects[k] == st.objects[k]
    decreases |listing|
  {
    if |listing| > 0 {
      var p := listing[0];
      var next := if p !in expected && p !in deleteFails then Delete(st, p) else st;
      DeleteOrphansSpec(next, listing[1..], expected, deleteFails);
      assert listing == [p] + listing[1..];
    }
  }

  /** `backupSnapshot`: walk the snapshot directory, list the remote catalog
      directory, upload the missing files, then delete the orphans. Any
      failure before the deletion ends the sync with that error. */
  function BackupSnapshot(st: Store, local: LocalSnapshot, timeDir: string, catalog: string, faults: Faults): (o: Outcome)
    requires Valid(st)
    ensures Valid(o.store)
  {
    match local.files
    case Failure(e) => Outcome(st, Some(e))
    case Success(files) =>
      var prefix := RemotePrefix(timeDir, catalog);
      if prefix in faults.listFails then Outcome(st, Some(Foreign(ListRemote, prefix)))
      else
        var listing := List(st, prefix);
        var sync := Sync(timeDir, catalog, local.contents, listing, faults.uploadFails);
        var up := UploadMissing(st, sync, files);
        if up.err.Some? then up
        else Outcome(DeleteOrphans(up.store, listing, Expected(files, timeDir, catalog), faults.deleteFails), None)
  }

  /** Distinct local files have distinct remote paths. */
  lemma RemotePathInjective(timeDir: string, catalog: string, a: string, b: string)
    requires RemotePath(timeDir, catalog, a) == RemotePath(timeDir, catalog, b)
    ensures a == b
  {
    JoinInjective(Join(timeDir, catalog), a, b);
  }

  /** The upload loop fails exactly when some file's upload is blocked. */
  lemma {:induction false} UploadMissingFails(st: Store, sync: Sync, files: seq<string>)
    requires Valid(st)
    ensures UploadMissing(st, sync, files).err.None?
        <==> forall i :: 0 <= i < |files| ==> !Blocked(sync, files[i])
    decreases |files|
  {
    if |files| > 0 {
      var rel := files[0];
      var rp := RemotePath(sync.timeDir, sync.catalog, rel);
      assert forall i :: 0 < i < |files| ==> files[i] == files[1..][i - 1];
      if !Missing(sync, rel) {
        UploadMissingFails(st, sync, files[1..]);
      } else if !Blocked(sync, rel) {
        UploadMissingFails(Upload(st, rp, sync.contents[rel]), sync, files[1..]);
      }
    }
  }

  /** The remote paths the upload loop writes: those of the missing files. */
  function Targets(sync: Sync, files: seq<string>): set<string> {
    set i | 0 <= i < |files| && Missing(sync, files[i]) :: RemotePath(sync.timeDir, sync.catalog, files[i])
  }

  /** The upload targets of a non-empty file list: the first file's remote
      path when it is missing, and the targets of the rest. */
  lemma TargetsCons(sync: Sync, files: seq<string>)
    requires |files| > 0
    ensures Targets(sync, files)
         == (if Missing(sync, files[0]) then {RemotePath(sync.timeDir, sync.catalog, files[0])} else {})
            + Targets(sync, files[1..])
  {
    var rest := files[1..];
    forall k | k in Targets(sync, files)
      ensures k in Targets(sync, rest) || (Missing(sync, files[0]) && k == RemotePath(sync.timeDir, sync.catalog, files[0]))
    {
      var i :| 0 <= i < |files| && Missing(sync, files[i]) && k == RemotePath(sync.timeDir, sync.catalog, files[i]);
      if i > 0 {
        assert rest[i - 1] == files[i];
      }
    }
    forall k | k in Targets(sync, rest)
      ensures k in Targets(sync, files)
    {
      var i :| 0 <= i < |rest| && Missing(sync, rest[i]) && k == RemotePath(sync.timeDir, sync.catalog, rest[i]);
      assert files[i + 1] == rest[i];
    }
  }

  /** A successful upload loop adds exactly the missing files, each with its
      local content, and leaves every other object as it was. */
  lemma {:induction false} UploadMissingEffect(st: Store, sync: Sync, files: seq<string>)
    requires Valid(st) && UploadMissing(st, sync, files).err.None?
    ensures forall k :: k in UploadMissing(st, sync, files).store.objects <==> k in st.objects || k in Targets(sync, files)
    ensures forall i :: 0 <= i < |files| && Missing(sync, files[i]) ==>
              files[i] in sync.contents
              && RemotePath(sync.timeDir, sync.catalog, files[i]) in UploadMissing(st, sync, files).store.objects
              && UploadMissing(st, sync, files).store.objects[RemotePath(sync.timeDir, sync.catalog, files[i])] == sync.contents[files[i]]
    ensures forall k :: k in st.objects && k !in Targets(sync, files) ==>
              UploadMissing(st, sync, files).store.objects[k] == st.objects[k]
    decreases |files|
  {
    if |files| > 0 {
      var rel := files[0];
      var rp := RemotePath(sync.timeDir, sync.catalog, rel);
      var rest := files[1..];
      assert forall i :: 0 < i < |files| ==> files[i] == rest[i - 1];
      var o := UploadMissing(st, sync, files);
      TargetsCons(sync, files);
      if !Missing(sync, rel) {
        assert o == UploadMissing(st, sync, rest);
        UploadMissingEffect(st, sync, rest);
      } else {
        var next := Upload(st, rp, sync.contents[rel]);
        assert o == UploadMissing(next, sync, rest);
        UploadMissingEffect(next, sync, rest);
        assert Targets(sync, files) == {rp} + Targets(sync, rest);
        forall i | 0 <= i < |files| && Missing(sync, files[i])
          ensures o.store.objects[RemotePath(sync.timeDir, sync.catalog, files[i])] == sync.contents[files[i]]
        {
          var k := RemotePath(sync.timeDir, sync.catalog, files[i]);
          if k in Targets(sync, rest) {
            var j :| 0 <= j < |rest| && Missing(sync, rest[j]) && k == RemotePath(sync.timeDir, sync.catalog, rest[j]);
            RemotePathInjective(sync.timeDir, sync.catalog, files[i], rest[j]);
          } else {
            if i > 0 {
              assert rest[i - 1] == files[i];
            }
          }
        }
      }
    }
  }

  /** A failing upload loop stops at the first blocked file: it reports that
      file's error, and the store is what the files before it made of it,
      so no later file is uploaded. */
  lemma {:induction false} UploadMissingStops(st: Store, sync: Sync, files: seq<string>)
    requires Valid(st) && UploadMissing(st, sync, files).err.Some?
    ensures exists i :: 0 <= i < |files| && Blocked(sync, files[i])
              && (forall j :: 0 <= j < i ==> !Blocked(sync, files[j]))
              && UploadMissing(st, sync, files).err == Some(BlockedError(sync, files[i]))
              && UploadMissing(st, sync, files).store == UploadMissing(st, sync, files[..i]).store
    decreases |files|
  {
    var rel := files[0];
    var rp := RemotePath(sync.timeDir, sync.catalog, rel);
    var rest := files[1..];
    if Blocked(sync, rel) {
      assert files[..0] == [];
    } else {
      var next := if Missing(sync, rel) then Upload(st, rp, sync.contents[rel]) else st;
      assert UploadMissing(st, sync, files) == UploadMissing(next, sync, rest);
      UploadMissingStops(next, sync, rest);
      var i :| 0 <= i < |rest| && Blocked(sync, rest[i])
               && (forall j :: 0 <= j < i ==> !Blocked(sync, rest[j]))
               && UploadMissing(next, sync, rest).err == Some(BlockedError(sync, rest[i]))
               && UploadMissing(next, sync, rest).store == UploadMissing(next, sync, rest[..i]).store;
      var pre := files[..i + 1];
      assert pre[0] == rel && pre[1..] == rest[..i];
      assert UploadMissing(st, sync, pre) == UploadMissing(next, sync, rest[..i]);
      assert forall j :: 0 < j < i + 1 ==> files[j] == rest[j - 1];
      assert files[i + 1] == rest[i];
    }
  }

  /** A file's remote path is in the catalog listing exactly when the store
      holds it. */
  lemma ListedIffStored(st: Store, timeDir: string, catalog: string, rel: string)
    requires Valid(st)
    ensures Contains(List(st, RemotePrefix(timeDir, catalog)), RemotePath(timeDir, catalog, rel))
        <==> RemotePath(timeDir, catalog, rel) in st.objects
  {
    ListSpec(st, RemotePrefix(timeDir, catalog));
    RemotePathUnder(timeDir, catalog, rel);
  }

  /** The sync state `backupSnapshot` builds from a listing of `st`. */
  function SyncOf(st: Store, local: LocalSnapshot, timeDir: string, catalog: string, faults: Faults): Sync {
    Sync(timeDir, catalog, local.contents, List(st, RemotePrefix(timeDir, catalog)), faults.uploadFails)
  }

  /** Under a listing of the store, a file is missing exactly when the store
      lacks its remote path, and then the upload targets are exactly those
      absent remote paths. */
  lemma MissingIffAbsent(st: Store, local: LocalSnapshot, timeDir: string, catalog: string, faults: Faults, files: seq<string>)
    requires Valid(st)
    ensures forall rel :: Missing(SyncOf(st, local, timeDir, catalog, faults), rel)
                          <==> RemotePath(timeDir, catalog, rel) !in st.objects
    ensures forall k :: k in Targets(SyncOf(st, local, timeDir, catalog, faults), files)
                        <==> k in Expected(files, timeDir, catalog) && k !in st.objects
  {
    forall rel {
      ListedIffStored(st, timeDir, catalog, rel);
    }
  }

  /** A snapshot sync succeeds exactly when the walk and the listing succeed
      and every file the store lacks can be opened and uploaded. */
  lemma BackupSnapshotFails(st: Store, local: LocalSnapshot, timeDir: string, catalog: string, faults: Faults)
    requires Valid(st)
    ensures BackupSnapshot(st, local, timeDir, catalog, faults).err.None?
        <==> local.files.Success? && RemotePrefix(timeDir, catalog) !in faults.listFails
             && forall i :: 0 <= i < |local.files.value| ==>
                  var rp := RemotePath(timeDir, catalog, local.files.value[i]);
                  rp in st.objects || (local.files.value[i] in local.contents && rp !in faults.uploadFails)
  {
    if local.files.Success? && RemotePrefix(timeDir, catalog) !in faults.listFails {
      var sync := SyncOf(st, local, timeDir, catalog, faults);
      UploadMissingFails(st, sync, local.files.value);
      MissingIffAbsent(st, local, timeDir, catalog, faults, local.files.value);
    }
  }

  /** After a successful snapshot sync the catalog directory mirrors the
      snapshot: under the remote prefix the store holds exactly the expected
      paths, plus the orphans whose delete failed; a file already stored
      keeps its stored content (it is not uploaded again) and a new one gets
      its local content; nothing outside the prefix changes. */
  lemma BackupSnapshotSync(st: Store, local: LocalSnapshot, timeDir: string, catalog: string, faults: Faults)
    requires Valid(st) && BackupSnapshot(st, local, timeDir, catalog, faults).err.None?
    ensures local.files.Success?
    ensures var r := BackupSnapshot(st, local, timeDir, catalog, faults).store;
            forall k :: HasPrefix(k, RemotePrefix(timeDir, catalog)) ==>
              (k in r.objects <==> k in Expected(local.files.value, timeDir, catalog) || (k in st.objects && k in faults.deleteFails))
    ensures var r := BackupSnapshot(st, local, timeDir, catalog, faults).store;
            forall k :: !HasPrefix(k, RemotePrefix(timeDir, catalog)) ==> (k in r.objects <==> k in st.objects)
    ensures var r := BackupSnapshot(st, local, timeDir, catalog, faults).store;
            forall k :: k in r.objects && k in st.objects ==> r.objects[k] == st.objects[k]
    ensures var r := BackupSnapshot(st, local, timeDir, catalog, faults).store;
            forall i :: 0 <= i < |local.files.value| && RemotePath(timeDir, catalog, local.files.value[i]) !in st.objects ==>
              RemotePath(timeDir, catalog, local.files.value[i]) in r.objects
              && local.files.value[i] in local.contents
              && r.objects[RemotePath(timeDir, catalog, local.files.value[i])] == local.contents[local.files.value[i]]
  {
    var files := local.files.value;
    var prefix := RemotePrefix(timeDir, catalog);
    var sync := SyncOf(st, local, timeDir, catalog, faults);
    var listing := sync.listing;
    var expected := Expected(files, timeDir, catalog);
    var up := UploadMissing(st, sync, files);
    var r := BackupSnapshot(st, local, timeDir, catalog, faults).store;
    assert r == DeleteOrphans(up.store, listing, expected, faults.deleteFails);
    UploadMissingEffect(st, sync, files);
    MissingIffAbsent(st, local, timeDir, catalog, faults, files);
    DeleteOrphansSpec(up.store, listing, expected, faults.deleteFails);
    ListSpec(st, prefix);
    forall k | k in expected
      ensures HasPrefix(k, prefix)
    {
      var i :| 0 <= i < |files| && k == RemotePath(timeDir, catalog, files[i]);
      RemotePathUnder(timeDir, catalog, files[i]);
    }
  }

  /** Uploading the files before `i`, none of them blocked, keeps every
      stored object and adds only remote paths of those files. */
  lemma UploadPrefix(st: Store, sync: Sync, files: seq<string>, i: nat)
    requires Valid(st) && i <= |files|
    requires forall j :: 0 <= j < i ==> !Blocked(sync, files[j])
    requires forall rel :: Missing(sync, rel) ==> RemotePath(sync.timeDir, sync.catalog, rel) !in st.objects
    ensures var r := UploadMissing(st, sync, files[..i]).store;
            forall k :: k in st.objects ==> k in r.objects && r.objects[k] == st.objects[k]
    ensures var r := UploadMissing(st, sync, files[..i]).store;
            forall k :: k in r.objects && k !in st.objects ==>
              exists j :: 0 <= j < i && k == RemotePath(sync.timeDir, sync.catalog, files[j])
  {
    var pre := files[..i];
    UploadMissingFails(st, sync, pre);
    UploadMissingEffect(st, sync, pre);
    var r := UploadMissing(st, sync, pre).store;
    forall k | k in r.objects && k !in st.objects
      ensures exists j :: 0 <= j < i && k == RemotePath(sync.timeDir, sync.catalog, files[j])
    {
      var j :| 0 <= j < |pre| && Missing(sync, pre[j]) && k == RemotePath(sync.timeDir, sync.catalog, pre[j]);
      assert pre[j] == files[j];
    }
  }

  /** The first blocked file of an upload loop, restated against the store
      the listing was taken from. */
  lemma FirstBlockedInStore(st: Store, sync: Sync, files: seq<string>, i: nat)
    requires i < |files| && Blocked(sync, files[i]) && forall j :: 0 <= j < i ==> !Blocked(sync, files[j])
    requires forall rel :: Missing(sync, rel) <==> RemotePath(sync.timeDir, sync.catalog, rel) !in st.objects
    ensures RemotePath(sync.timeDir, sync.catalog, files[i]) !in st.objects
    ensures files[i] !in sync.contents || RemotePath(sync.timeDir, sync.catalog, files[i]) in sync.uploadFails
    ensures forall j :: 0 <= j < i ==>
              RemotePath(sync.timeDir, sync.catalog, files[j]) in st.objects
              || (files[j] in sync.contents && RemotePath(sync.timeDir, sync.catalog, files[j]) !in sync.uploadFails)
    ensures BlockedError(sync, files[i])
         == if files[i] !in sync.contents then Foreign(OpenFile, files[i])
            else Foreign(UploadRemote, RemotePath(sync.timeDir, sync.catalog, files[i]))
  {
  }

  /** The upload loop of a snapshot sync stopped at file `i`, restated
      against the store and the snapshot: file `i` is absent and cannot be
      opened or uploaded, every earlier file is present or uploadable, the
      loop's error is file `i`'s, and the earlier files make up all the new
      objects. */
  lemma SyncStopsAt(st: Store, local: LocalSnapshot, timeDir: string, catalog: string, faults: Faults, i: nat)
    requires Valid(st) && local.files.Success? && i < |local.files.value|
    requires Blocked(SyncOf(st, local, timeDir, catalog, faults), local.files.value[i])
    requires forall j :: 0 <= j < i ==> !Blocked(SyncOf(st, local, timeDir, catalog, faults), local.files.value[j])
    ensures var files := local.files.value;
            RemotePath(timeDir, catalog, files[i]) !in st.objects
            && (files[i] !in local.contents || RemotePath(timeDir, catalog, files[i]) in faults.uploadFails)
            && (forall j :: 0 <= j < i ==>
                  RemotePath(timeDir, catalog, files[j]) in st.objects
                  || (files[j] in local.contents && RemotePath(timeDir, catalog, files[j]) !in faults.uploadFails))
            && BlockedError(SyncOf(st, local, timeDir, catalog, faults), files[i])
               == (if files[i] !in local.contents then Foreign(OpenFile, files[i])
                   else Foreign(UploadRemote, RemotePath(timeDir, catalog, files[i])))
    ensures var r := UploadMissing(st, SyncOf(st, local, timeDir, catalog, faults), local.files.value[..i]).store;
            (forall k :: k in st.objects ==> k in r.objects && r.objects[k] == st.objects[k])
            && forall k :: k in r.objects && k !in st.objects ==>
                 exists j :: 0 <= j < i && k == RemotePath(timeDir, catalog, local.files.value[j])
  {
    var files := local.files.value;
    var sync := SyncOf(st, local, timeDir, catalog, faults);
    MissingIffAbsent(st, local, timeDir, catalog, faults, files);
    UploadPrefix(st, sync, files, i);
    FirstBlockedInStore(st, sync, files, i);
  }

  /** An upload failure ends the sync at the first missing file that could
      not be opened or uploaded, with that file's error: the earlier objects
      are kept and the only new ones are those of the files before it. */
  lemma UploadFailureStops(st: Store, local: LocalSnapshot, timeDir: string, catalog: string, faults: Faults)
    requires Valid(st) && BackupSnapshot(st, local, timeDir, catalog, faults).err.Some?
    requires local.files.Success? && RemotePrefix(timeDir, catalog) !in faults.listFails
    ensures var r := BackupSnapshot(st, local, timeDir, catalog, faults).store;
            forall k :: k in st.objects ==> k in r.objects && r.objects[k] == st.objects[k]
    ensures var files := local.files.value;
            var r := BackupSnapshot(st, local, timeDir, catalog, faults).store;
            exists i :: 0 <= i < |files|
              && RemotePath(timeDir, catalog, files[i]) !in st.objects
              && (files[i] !in local.contents || RemotePath(timeDir, catalog, files[i]) in faults.uploadFails)
              && (forall j :: 0 <= j < i ==>
                    RemotePath(timeDir, catalog, files[j]) in st.objects
                    || (files[j] in local.contents && RemotePath(timeDir, catalog, files[j]) !in faults.uploadFails))
              && BackupSnapshot(st, local, timeDir, catalog, faults).err
                 == Some(if files[i] !in local.contents then Foreign(OpenFile, files[i])
                         else Foreign(UploadRemote, RemotePath(timeDir, catalog, files[i])))
              && forall k :: k in r.objects && k !in st.objects ==>
                   exists j :: 0 <= j < i && k == RemotePath(timeDir, catalog, files[j])
  {
    var files := local.files.value;
    var sync := SyncOf(st, local, timeDir, catalog, faults);
    var o := BackupSnapshot(st, local, timeDir, catalog, faults);
    assert o == UploadMissing(st, sync, files);
    UploadMissingStops(st, sync, files);
    var i :| 0 <= i < |files| && Blocked(sync, files[i])
             && (forall j :: 0 <= j < i ==> !Blocked(sync, files[j]))
             && UploadMissing(st, sync, files).err == Some(BlockedError(sync, files[i]))
             && UploadMissing(st, sync, files).store == UploadMissing(st, sync, files[..i]).store;
    SyncStopsAt(st, local, timeDir, catalog, faults, i);
  }

  /** A failing snapshot sync deletes nothing and overwrites nothing; when
      the walk or the listing fails it changes nothing at all, and when an
      upload fails, the run ends at the first missing file that could not be
      opened or uploaded, with that file's error, and the only new objects
      are those of the files before it. */
  lemma BackupSnapshotStops(st: Store, local: LocalSnapshot, timeDir: string, catalog: string, faults: Faults)
    requires Valid(st) && BackupSnapshot(st, local, timeDir, catalog, faults).err.Some?
    ensures var r := BackupSnapshot(st, local, timeDir, catalog, faults).store;
            forall k :: k in st.objects ==> k in r.objects && r.objects[k] == st.objects[k]
    ensures local.files.Failure? || RemotePrefix(timeDir, catalog) in faults.listFails ==>
              BackupSnapshot(st, local, timeDir, catalog, faults).store == st
    ensures local.files.Success? && RemotePrefix(timeDir, catalog) !in faults.listFails ==>
              var files := local.files.value;
              var r := BackupSnapshot(st, local, timeDir, catalog, faults).store;
              exists i :: 0 <= i < |files|
                && RemotePath(timeDir, catalog, files[i]) !in st.objects
                && (files[i] !in local.contents || RemotePath(timeDir, catalog, files[i]) in faults.uploadFails)
                && (forall j :: 0 <= j < i ==>
                      RemotePath(timeDir, catalog, files[j]) in st.objects
                      || (files[j] in local.contents && RemotePath(timeDir, catalog, files[j]) !in faults.uploadFails))
                && BackupSnapshot(st, local, timeDir, catalog, faults).err
                   == Some(if files[i] !in local.contents then Foreign(OpenFile, files[i])
                           else Foreign(UploadRemote, RemotePath(timeDir, catalog, files[i])))
                && forall k :: k in r.objects && k !in st.objects ==>
                     exists j :: 0 <= j < i && k == RemotePath(timeDir, catalog, files[j])
  {
    if local.files.Success? && RemotePrefix(timeDir, catalog) !in faults.listFails {
      UploadFailureStops(st, local, timeDir, catalog, faults);
    }
  }

  /** With no file missing, the upload loop uploads nothing and succeeds. */
  lemma {:induction false} UploadNothingMissing(st: Store, sync: Sync, files: seq<string>)
    requires Valid(st)
    requires forall i :: 0 <= i < |files| ==> !Missing(sync, files[i])
    ensures UploadMissing(st, sync, files) == Outcome(st, None)
    decreases |files|
  {
    if |files| > 0 {
      assert !Missing(sync, files[0]);
      assert forall i :: 0 < i < |files| ==> files[i] == files[1..][i - 1];
      UploadNothingMissing(st, sync, files[1..]);
    }
  }

  /** With every listed path expected or undeletable, orphan deletion leaves
      the store as it is. */
  lemma {:induction false} DeleteNothing(st: Store, listing: seq<string>, expected: set<string>, deleteFails: set<string>)
    requires Valid(st)
    requires forall i :: 0 <= i < |listing| ==> listing[i] in expected || listing[i] in deleteFails
    ensures DeleteOrphans(st, listing, expected, deleteFails) == st
    decreases |listing|
  {
    if |listing| > 0 {
      assert listing[0] in expected || listing[0] in deleteFails;
      assert forall i :: 0 < i < |listing| ==> listing[i] == listing[1..][i - 1];
      DeleteNothing(st, listing[1..], expected, deleteFails);
    }
  }

  /** Syncing the same snapshot again, against the same store behaviour,
      changes nothing and succeeds: every file is now listed, and the only
      orphans left are those whose delete fails again. */
  lemma BackupSnapshotIdempotent(st: Store, local: LocalSnapshot, timeDir: string, catalog: string, faults: Faults)
    requires Valid(st) && BackupSnapshot(st, local, timeDir, catalog, faults).err.None?
    ensures var r := BackupSnapshot(st, local, timeDir, catalog, faults).store;
            BackupSnapshot(r, local, timeDir, catalog, faults) == Outcome(r, None)
  {
    BackupSnapshotSync(st, local, timeDir, catalog, faults);
    var files := local.files.value;
    var r := BackupSnapshot(st, local, timeDir, catalog, faults).store;
    var prefix := RemotePrefix(timeDir, catalog);
    var sync := SyncOf(r, local, timeDir, catalog, faults);
    var expected := Expected(files, timeDir, catalog);
    MissingIffAbsent(r, local, timeDir, catalog, faults, files);
    forall i | 0 <= i < |files|
      ensures !Missing(sync, files[i])
    {
      RemotePathUnder(timeDir, catalog, files[i]);
      assert RemotePath(timeDir, catalog, files[i]) in expected;
    }
    UploadNothingMissing(r, sync, files);
    ListSpec(r, prefix);
    forall i | 0 <= i < |sync.listing|
      ensures sync.listing[i] in expected || sync.listing[i] in faults.deleteFails
    {
      assert sync.listing[i] in List(r, prefix);
    }
    DeleteNothing(r, sync.listing, expected, faults.deleteFails);
  }

  // ---------------------------------------------------------------------
  // The run over all snapshots

  /** A snapshot the snapshot service reports: its catalog, and where its
      directory lookup leads — the local snapshot, or the lookup's error. */
  datatype Snapshot = Snapshot(catalog: Catalog, dir: Result<LocalSnapshot, Error>)

  /** One iteration of the snapshot loop: a failed directory lookup yields
      its error and touches nothing; otherwise the snapshot is synced. */
  function Visit(st: Store, snap: Snapshot, timeDir: string, faults: Faults): (o: Outcome)
    requires Valid(st)
    ensures Valid(o.store)
    ensures snap.dir.Failure? ==> o == Outcome(st, Some(snap.dir.error))
  {
    match snap.dir
    case Failure(e) => Outcome(st, Some(e))
    case Success(local) => BackupSnapshot(st, local, timeDir, CatalogName(snap.catalog), faults)
  }

  /** The store after visiting the snapshots in order. */
  function StoreAfter(st: Store, snaps: seq<Snapshot>, timeDir: string, faults: Faults): (r: Store)
    requires Valid(st)
    ensures Valid(r)
    decreases |snaps|
  {
    if |snaps| == 0 then st
    else Visit(StoreAfter(st, snaps[..|snaps| - 1], timeDir, faults), snaps[|snaps| - 1], timeDir, faults).store
  }

  /** Visiting a first snapshot, then the rest, is visiting them all. */
  lemma {:induction false} StoreAfterCons(st: Store, snaps: seq<Snapshot>, timeDir: string, faults: Faults)
    requires Valid(st) && |snaps| > 0
    ensures StoreAfter(st, snaps, timeDir, faults)
         == StoreAfter(Visit(st, snaps[0], timeDir, faults).store, snaps[1..], timeDir, faults)
    decreases |snaps|
  {
    var first := Visit(st, snaps[0], timeDir, faults).store;
    if |snaps| == 1 {
      assert snaps[..0] == [] && snaps[1..] == [];
    } else {
      var n := |snaps|;
      StoreAfterCons(st, snaps[..n - 1], timeDir, faults);
      assert snaps[..n - 1][..n - 2] == snaps[..n - 2];
      assert snaps[..n - 1][1..] == snaps[1..][..n - 2];
      assert snaps[1..][n - 2] == snaps[n - 1];
    }
  }

  /** The snapshot loop of `backupAction` as written: each iteration assigns
      the directory lookup's error to `err`, and on success the snapshot
      sync's error is appended to that just-cleared `err`, so each iteration
      overwrites what the previous one reported. */
  function SnapshotsAsWritten(st: Store, snaps: seq<Snapshot>, timeDir: string, faults: Faults, err: Option<Error>): (o: Outcome)
    requires Valid(st)
    ensures Valid(o.store)
    ensures |snaps| == 0 ==> o == Outcome(st, err)
    decreases |snaps|
  {
    if |snaps| == 0 then Outcome(st, err)
    else
      var v := Visit(st, snaps[0], timeDir, faults);
      SnapshotsAsWritten(v.store, snaps[1..], timeDir, faults, v.err)
  }

  /** As written, the loop visits every snapshot, and only the last one
      decides the error returned: a failed lookup or sync of an earlier
      snapshot is lost. */
  lemma {:induction false} LastSnapshotDecides(st: Store, snaps: seq<Snapshot>, timeDir: string, faults: Faults, err: Option<Error>)
    requires Valid(st)
    ensures SnapshotsAsWritten(st, snaps, timeDir, faults, err).store == StoreAfter(st, snaps, timeDir, faults)
    ensures |snaps| > 0 ==>
              SnapshotsAsWritten(st, snaps, timeDir, faults, err).err
              == Visit(StoreAfter(st, snaps[..|snaps| - 1], timeDir, faults), snaps[|snaps| - 1], timeDir, faults).err
    decreases |snaps|
  {
    if |snaps| > 0 {
      var n := |snaps|;
      var v := Visit(st, snaps[0], timeDir, faults);
      var rest := snaps[1..];
      assert SnapshotsAsWritten(st, snaps, timeDir, faults, err) == SnapshotsAsWritten(v.store, rest, timeDir, faults, v.err);
      LastSnapshotDecides(v.store, rest, timeDir, faults, v.err);
      StoreAfterCons(st, snaps, timeDir, faults);
      if n > 1 {
        var init := snaps[..n - 1];
        StoreAfterCons(st, init, timeDir, faults);
        assert init[0] == snaps[0];
        assert init[1..] == rest[..n - 2];
        assert StoreAfter(st, init, timeDir, faults) == StoreAfter(v.store, rest[..n - 2], timeDir, faults);
        assert rest[n - 2] == snaps[n - 1];
      } else {
        assert snaps[..0] == [];
      }
    }
  }

  /** What the corrected run reports: the final store and the error of
      every snapshot sync that failed. */
  datatype Report = Report(store: Store, errs: seq<Error>)

  /** The snapshot loop as evidently intended: a failed directory lookup is
      logged and skipped, and every snapshot sync's error is accumulated. */
  function SnapshotsAccumulated(st: Store, snaps: seq<Snapshot>, timeDir: string, faults: Faults): (r: Report)
    requires Valid(st)
    ensures Valid(r.store)
    decreases |snaps|
  {
    if |snaps| == 0 then Report(st, [])
    else
      var v := Visit(st, snaps[0], timeDir, faults);
      var rest := SnapshotsAccumulated(v.store, snaps[1..], timeDir, faults);
      var own := if snaps[0].dir.Success? && v.err.Some? then [v.err.value] else [];
      Report(rest.store, own + rest.errs)
  }

  /** The error of syncing snapshot `i` of the run, if its lookup
      succeeded. */
  function SyncError(st: Store, snaps: seq<Snapshot>, timeDir: string, faults: Faults, i: nat): Option<Error>
    requires Valid(st) && i < |snaps|
  {
    if snaps[i].dir.Failure? then None
    else Visit(StoreAfter(st, snaps[..i], timeDir, faults), snaps[i], timeDir, faults).err
  }

  /** The sync errors of the snapshots after the first, run from the store
      the first leaves, are those of the whole run shifted by one. */
  lemma SyncErrorShift(st: Store, snaps: seq<Snapshot>, timeDir: string, faults: Faults)
    requires Valid(st) && |snaps| > 0
    ensures forall i :: 0 <= i < |snaps| - 1 ==>
              SyncError(Visit(st, snaps[0], timeDir, faults).store, snaps[1..], timeDir, faults, i)
              == SyncError(st, snaps, timeDir, faults, i + 1)
  {
    var v := Visit(st, snaps[0], timeDir, faults);
    var rest := snaps[1..];
    forall i | 0 <= i < |rest|
      ensures SyncError(v.store, rest, timeDir, faults, i) == SyncError(st, snaps, timeDir, faults, i + 1)
    {
      StoreAfterCons(st, snaps[..i + 1], timeDir, faults);
      assert snaps[..i + 1][1..] == rest[..i];
      assert rest[i] == snaps[i + 1];
    }
  }

  /** The corrected run leaves the same store as the loop as written, and
      reports exactly the errors of the snapshot syncs that failed. */
  lemma {:induction false} AccumulatedReportsAll(st: Store, snaps: seq<Snapshot>, timeDir: string, faults: Faults)
    requires Valid(st)
    ensures SnapshotsAccumulated(st, snaps, timeDir, faults).store == StoreAfter(st, snaps, timeDir, faults)
    ensures forall e :: e in SnapshotsAccumulated(st, snaps, timeDir, faults).errs
              <==> exists i :: 0 <= i < |snaps| && SyncError(st, snaps, timeDir, faults, i) == Some(e)
    decreases |snaps|
  {
    if |snaps| > 0 {
      var v := Visit(st, snaps[0], timeDir, faults);
      var rest := snaps[1..];
      AccumulatedReportsAll(v.store, rest, timeDir, faults);
      StoreAfterCons(st, snaps, timeDir, faults);
      assert snaps[..0] == [];
      assert SyncError(st, snaps, timeDir, faults, 0) == (if snaps[0].dir.Success? then v.err else None);
      SyncErrorShift(st, snaps, timeDir, faults);
      forall e | e in SnapshotsAccumulated(st, snaps, timeDir, faults).errs
        ensures exists i :: 0 <= i < |snaps| && SyncError(st, snaps, timeDir, faults, i) == Some(e)
      {
        if e !in SnapshotsAccumulated(v.store, rest, timeDir, faults).errs {
          assert SyncError(st, snaps, timeDir, faults, 0) == Some(e);
        } else {
          var i :| 0 <= i < |rest| && SyncError(v.store, rest, timeDir, faults, i) == Some(e);
          assert SyncError(st, snaps, timeDir, faults, i + 1) == Some(e);
        }
      }
      forall e, i | 0 <= i < |snaps| && SyncError(st, snaps, timeDir, faults, i) == Some(e)
        ensures e in SnapshotsAccumulated(st, snaps, timeDir, faults).errs
      {
        if i > 0 {
          assert SyncError(v.store, rest, timeDir, faults, i - 1) == Some(e);
        }
      }
    }
  }

  /** `backupAction` as written: an empty destination, a destination the
      file system cannot be built for (bad URL, unsupported scheme, or a
      failing file-system constructor), and a failing snapshot service end
      the run before anything is touched; otherwise every snapshot is
      visited under the time directory of `now`, and the error of the last
      iteration is returned. The snapshot service's answer is an input. */
  function BackupAction(dest: string, parsed: Result<URL, string>, built: Option<Error>, snapshots: Result<seq<Snapshot>, Error>,
                        style: string, now: Clock, st: Store, faults: Faults): (o: Outcome)
    requires Valid(st) && ValidClock(now)
    ensures dest == "" ==> o == Outcome(st, Some(DestRequired))
    ensures dest != "" && NewFS(parsed, built).Failure? ==> o == Outcome(st, Some(NewFS(parsed, built).error))
    ensures dest != "" && parsed.Success? && parsed.value.scheme in {"file", "s3"} && built.Some? ==> o == Outcome(st, built)
    ensures dest != "" && NewFS(parsed, built).Success? && snapshots.Failure? ==> o == Outcome(st, Some(snapshots.error))
    ensures dest != "" && NewFS(parsed, built).Success? && snapshots == Success([]) ==> o == Outcome(st, None)
  {
    if dest == "" then Outcome(st, Some(DestRequired))
    else match NewFS(parsed, built)
      case Failure(e) => Outcome(st, Some(e))
      case Success(_) =>
        match snapshots
        case Failure(e) => Outcome(st, Some(e))
        case Success(snaps) => SnapshotsAsWritten(st, snaps, GetTimeDir(style, now), faults, None)
  }

  /** `backupAction` with the snapshot loop corrected to accumulate every
      sync error. */
  function BackupActionAccumulated(dest: string, parsed: Result<URL, string>, built: Option<Error>, snapshots: Result<seq<Snapshot>, Error>,
                                   style: string, now: Clock, st: Store, faults: Faults): (r: Report)
    requires Valid(st) && ValidClock(now)
    ensures dest == "" ==> r == Report(st, [DestRequired])
    ensures dest != "" && NewFS(parsed, built).Failure? ==> r == Report(st, [NewFS(parsed, built).error])
    ensures dest != "" && NewFS(parsed, built).Success? && snapshots.Failure? ==> r == Report(st, [snapshots.error])
  {
    if dest == "" then Report(st, [DestRequired])
    else match NewFS(parsed, built)
      case Failure(e) => Report(st, [e])
      case Success(_) =>
        match snapshots
        case Failure(e) => Report(st, [e])
        case Success(snaps) => SnapshotsAccumulated(st, snaps, GetTimeDir(style, now), faults)
  }

  /** Once the run starts, the corrected action leaves the same store as
      the one as written and reports no error exactly when every snapshot
      whose directory was found synced without error. */
  lemma ActionAccumulatedSpec(dest: string, parsed: Result<URL, string>, built: Option<Error>, snaps: seq<Snapshot>,
                              style: string, now: Clock, st: Store, faults: Faults)
    requires Valid(st) && ValidClock(now) && dest != "" && NewFS(parsed, built).Success?
    ensures BackupActionAccumulated(dest, parsed, built, Success(snaps), style, now, st, faults).store
         == BackupAction(dest, parsed, built, Success(snaps), style, now, st, faults).store
    ensures BackupActionAccumulated(dest, parsed, built, Success(snaps), style, now, st, faults).errs == []
        <==> forall i :: 0 <= i < |snaps| ==> SyncError(st, snaps, GetTimeDir(style, now), faults, i).None?
  {
    var timeDir := GetTimeDir(style, now);
    AccumulatedReportsAll(st, snaps, timeDir, faults);
    LastSnapshotDecides(st, snaps, timeDir, faults, None);
    var errs := SnapshotsAccumulated(st, snaps, timeDir, faults).errs;
    if errs != [] {
      assert errs[0] in errs;
    }
  }

  /** A snapshot whose directory walk fails with `e`. */
  function Unreadable(e: Error): Snapshot {
    Snapshot(StreamCatalog, Success(LocalSnapshot(Failure(e), map[])))
  }

  /** A snapshot with no files. */
  function EmptySnapshot(): Snapshot {
    Snapshot(MeasureCatalog, Success(LocalSnapshot(Success([]), map[])))
  }

  /** As written, a failed sync followed by a successful one is reported as
      success; the corrected loop reports the failure. */
  lemma LostSyncError(timeDir: string)
    ensures SnapshotsAsWritten(Empty(), [Unreadable(Foreign(WalkDir, "a")), EmptySnapshot()], timeDir, NoFaults(), None).err == None
    ensures SnapshotsAccumulated(Empty(), [Unreadable(Foreign(WalkDir, "a")), EmptySnapshot()], timeDir, NoFaults()).errs
         == [Foreign(WalkDir, "a")]
  {
    var snaps := [Unreadable(Foreign(WalkDir, "a")), EmptySnapshot()];
    assert snaps[1..] == [EmptySnapshot()] && snaps[1..][1..] == [];
    var after := Visit(Empty(), snaps[0], timeDir, NoFaults());
    assert after == Outcome(Empty(), Some(Foreign(WalkDir, "a")));
    var second := Visit(Empty(), EmptySnapshot(), timeDir, NoFaults());
    assert List(Empty(), RemotePrefix(timeDir, "measure")) == [];
    assert second == Outcome(Empty(), None);
  }

  /** As written, a skipped snapshot whose directory lookup failed is
      reported as the run's error when it comes last; the corrected loop
      only logs it. */
  lemma SkippedLookupReported(timeDir: string)
    ensures SnapshotsAsWritten(Empty(), [Snapshot(StreamCatalog, Failure(Foreign(SnapshotDir, "s")))], timeDir, NoFaults(), None).err
         == Some(Foreign(SnapshotDir, "s"))
    ensures SnapshotsAccumulated(Empty(), [Snapshot(StreamCatalog, Failure(Foreign(SnapshotDir, "s")))], timeDir, NoFaults()).errs == []
  {
    var snaps := [Snapshot(StreamCatalog, Failure(Foreign(SnapshotDir, "s")))];
    assert snaps[1..] == [];
  }
}

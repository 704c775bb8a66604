/** Restoring a catalog from the remote store into a local data directory:
    the catalog's remote directory for a time directory is mirrored into
    `<root>/<catalog>/data/`, local files there that the remote does not
    hold are deleted, and nothing outside that directory is taken to change
    (an assumption about the restore, not something its tests check). The
    local file system is a map from path to content; the remote store and
    the local files are the same whichever back end serves the store. */
module Restore {
  import opened Wrappers
  import opened Paths
  import opened RemoteStore
  import opened Backup

  /** The name of a catalog's data directory under its local root. */
  const DataDir := "data"

  /** The local directory prefix a catalog is restored into:
      `join(root, catalog, DataDir) + "/"`. */
  function LocalPrefix(root: string, cat: Catalog): string {
    DirPrefix(Join(Join(root, CatalogName(cat)), DataDir))
  }

  /** The local paths the remote catalog directory maps to. */
  function Mirrored(st: Store, remote: string, lp: string): set<string> {
    set r | r in st.objects && HasPrefix(r, remote) :: lp + Rel(r, remote)
  }

  /** The content a restored local path gets: that of the remote object at
      the same relative path. */
  function Fetched(st: Store, remote: string, lp: string, k: string): Bytes
    requires HasPrefix(k, lp)
  {
    match Download(st, remote + Rel(k, lp))
    case Success(content) => content
    case Failure(_) => []
  }

  /** `restoreCatalog`: the local files after restoring catalog `cat` of
      time directory `timeDir` under `root`. */
  function RestoreCatalog(st: Store, timeDir: string, root: string, cat: Catalog, local: map<string, Bytes>): (r: map<string, Bytes>)
    ensures forall k :: k in r ==> k in local || HasPrefix(k, LocalPrefix(root, cat))
  {
    var remote := RemotePrefix(timeDir, CatalogName(cat));
    var lp := LocalPrefix(root, cat);
    var keep := set k | k in local && !HasPrefix(k, lp);
    map k | k in keep + Mirrored(st, remote, lp) ::
      if HasPrefix(k, lp) then Fetched(st, remote, lp, k) else local[k]
  }

  /** Inside the catalog's data directory the restore mirrors the remote
      catalog directory: a local path exists exactly when the remote holds
      the same relative path, with the remote content; extra local files
      are gone. */
  lemma RestoreMirrors(st: Store, timeDir: string, root: string, cat: Catalog, local: map<string, Bytes>, rel: string)
    ensures var remote := RemotePrefix(timeDir, CatalogName(cat));
            var r := RestoreCatalog(st, timeDir, root, cat, local);
            (LocalPrefix(root, cat) + rel in r <==> remote + rel in st.objects)
            && (remote + rel in st.objects ==> r[LocalPrefix(root, cat) + rel] == st.objects[remote + rel])
  {
    var remote := RemotePrefix(timeDir, CatalogName(cat));
    var lp := LocalPrefix(root, cat);
    var r := RestoreCatalog(st, timeDir, root, cat, local);
    RelOfAppend(lp, rel);
    if lp + rel in r {
      assert lp + rel in Mirrored(st, remote, lp);
      var q :| q in st.objects && HasPrefix(q, remote) && lp + rel == lp + Rel(q, remote);
      assert Rel(q, remote) == (lp + rel)[|lp|..] == rel;
    }
    if remote + rel in st.objects {
      RelOfAppend(remote, rel);
      assert lp + rel in Mirrored(st, remote, lp);
    }
  }

  /** Outside the catalog's data directory the local files are untouched:
      the model's assumed frame for the restore of one catalog. */
  lemma RestoreKeepsOutside(st: Store, timeDir: string, root: string, cat: Catalog, local: map<string, Bytes>, k: string)
    requires !HasPrefix(k, LocalPrefix(root, cat))
    ensures var r := RestoreCatalog(st, timeDir, root, cat, local);
            (k in r <==> k in local) && (k in local ==> r[k] == local[k])
  {
    var remote := RemotePrefix(timeDir, CatalogName(cat));
    var lp := LocalPrefix(root, cat);
    if k in Mirrored(st, remote, lp) {
      var q :| q in st.objects && HasPrefix(q, remote) && k == lp + Rel(q, remote);
      assert false;
    }
  }

  /** Restoring from an empty remote directory empties the local data
      directory. */
  lemma RestoreFromNothing(timeDir: string, root: string, cat: Catalog, local: map<string, Bytes>, k: string)
    requires HasPrefix(k, LocalPrefix(root, cat))
    ensures k !in RestoreCatalog(Empty(), timeDir, root, cat, local)
  {
  }

  /** A snapshot backed up into a catalog directory that held nothing
      restores to exactly its files with their contents. */
  lemma BackupThenRestore(st: Store, snap: LocalSnapshot, timeDir: string, cat: Catalog, faults: Faults,
                          root: string, local: map<string, Bytes>, rel: string)
    requires Valid(st) && BackupSnapshot(st, snap, timeDir, CatalogName(cat), faults).err.None?
    requires forall k :: k in st.objects ==> !HasPrefix(k, RemotePrefix(timeDir, CatalogName(cat)))
    ensures snap.files.Success?
    ensures var restored := RestoreCatalog(BackupSnapshot(st, snap, timeDir, CatalogName(cat), faults).store, timeDir, root, cat, local);
            (LocalPrefix(root, cat) + rel in restored <==> rel in snap.files.value)
            && (rel in snap.files.value ==> rel in snap.contents && restored[LocalPrefix(root, cat) + rel] == snap.contents[rel])
  {
    var catalog := CatalogName(cat);
    var remote := RemotePrefix(timeDir, catalog);
    var stored := BackupSnapshot(st, snap, timeDir, catalog, faults).store;
    BackupSnapshotSync(st, snap, timeDir, catalog, faults);
    RestoreMirrors(stored, timeDir, root, cat, local, rel);
    RelOfAppend(remote, rel);
    RemotePathUnder(timeDir, catalog, rel);
    var files := snap.files.value;
    if remote + rel in stored.objects {
      var i :| 0 <= i < |files| && remote + rel == RemotePath(timeDir, catalog, files[i]);
      RemotePathUnder(timeDir, catalog, files[i]);
      assert files[i] == rel;
    }
    if rel in files {
      var i :| 0 <= i < |files| && files[i] == rel;
      assert RemotePath(timeDir, catalog, files[i]) in Expected(files, timeDir, catalog);
    }
  }

  /** The content "hello". */
  const Hello: Bytes := [104, 101, 108, 108, 111]

  /** A file uploaded to `2023-10-10/stream/test.txt` is restored to
      `<root>/stream/data/test.txt` with its content. */
  lemma RestoreDownloadVector(root: string)
    ensures RemotePath("2023-10-10", CatalogName(StreamCatalog), "test.txt") == "2023-10-10/stream/test.txt"
    ensures var st := Upload(Empty(), "2023-10-10/stream/test.txt", Hello);
            var r := RestoreCatalog(st, "2023-10-10", root, StreamCatalog, map[]);
            Join(Join(Join(root, "stream"), DataDir), "test.txt") in r
            && r[Join(Join(Join(root, "stream"), DataDir), "test.txt")] == Hello
  {
    var st := Upload(Empty(), "2023-10-10/stream/test.txt", Hello);
    var remote := RemotePrefix("2023-10-10", "stream");
    assert remote + "test.txt" == "2023-10-10/stream/test.txt";
    RestoreMirrors(st, "2023-10-10", root, StreamCatalog, map[], "test.txt");
    JoinUnder(Join(Join(root, "stream"), DataDir), "test.txt");
  }

  /** A stale local file in the stream data directory is deleted when the
      remote time directory is empty. */
  lemma RestoreDeleteVector(root: string)
    ensures var stale := Join(Join(Join(root, "stream"), DataDir), "old.txt");
            stale !in RestoreCatalog(Empty(), "2023-10-10", root, StreamCatalog, map[stale := [115, 116, 97, 108, 101]])
  {
    var stale := Join(Join(Join(root, "stream"), DataDir), "old.txt");
    JoinUnder(Join(Join(root, "stream"), DataDir), "old.txt");
    RestoreFromNothing("2023-10-10", root, StreamCatalog, map[stale := [115, 116, 97, 108, 101]], stale);
  }
}

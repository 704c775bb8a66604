/** The remote file system the backup writes to and the restore reads from,
    abstracted from its local-directory and S3 back ends: objects keyed by
    path, listed in a fixed order. */
module RemoteStore {
  import opened Wrappers
  import opened Seqs
  import opened Paths

  /** An octet. */
  type byte = b: int | 0 <= b < 256

  /** An object's content. */
  type Bytes = seq<byte>

  /** The store: the objects by path, and the order in which a listing
      returns them. */
  datatype Store = Store(objects: map<string, Bytes>, order: seq<string>)

  /** A download can fail only because nothing is stored at the path. */
  datatype StoreError = NotFound(path: string)

  /** The listing order names every object exactly once. */
  ghost predicate Valid(st: Store) {
    (forall p :: p in st.order <==> p in st.objects)
    && forall i, j :: 0 <= i < j < |st.order| ==> st.order[i] != st.order[j]
  }

  /** The store with nothing in it. */
  function Empty(): (st: Store)
    ensures Valid(st) && st.objects == map[]
  {
    Store(map[], [])
  }

  /** `Upload(path, content)`: the object at `path` becomes `content`, created
      or overwritten. */
  function Upload(st: Store, path: string, content: Bytes): (r: Store)
    requires Valid(st)
    ensures Valid(r)
    ensures Download(r, path) == Success(content)
    ensures forall p :: p != path ==> Download(r, p) == Download(st, p)
  {
    Store(st.objects[path := content], if path in st.objects then st.order else st.order + [path])
  }

  /** `Download(path)`: the stored content, or an error when nothing is
      stored at `path`. */
  function Download(st: Store, path: string): (r: Result<Bytes, StoreError>)
    ensures r.Success? <==> path in st.objects
    ensures r.Success? ==> r.value == st.objects[path]
    ensures r.Failure? ==> r.error == NotFound(path)
  {
    if path in st.objects then Success(st.objects[path]) else Failure(NotFound(path))
  }

  /** Paths other than `path`. */
  function Other(path: string): string -> bool {
    (p: string) => p != path
  }

  /** `Delete(path)`: the object at `path` is removed. */
  function Delete(st: Store, path: string): (r: Store)
    requires Valid(st)
    ensures Valid(r)
    ensures Download(r, path) == Failure(NotFound(path))
    ensures forall p :: p != path ==> Download(r, p) == Download(st, p)
  {
    DeleteKeepsOrder(st, path);
    Store(st.objects - {path}, Keep(st.order, Other(path)))
  }

  /** Dropping a path from the listing order keeps it naming every remaining
      object exactly once. */
  lemma DeleteKeepsOrder(st: Store, path: string)
    requires Valid(st)
    ensures Valid(Store(st.objects - {path}, Keep(st.order, Other(path))))
  {
    KeepInjective(st.order, Other(path), (p: string) => p);
    forall p | p in st.objects - {path}
      ensures p in Keep(st.order, Other(path))
    {
      KeepComplete(st.order, Other(path), p);
    }
  }

  /** Paths that start with `prefix`. */
  function Under(prefix: string): string -> bool {
    (p: string) => HasPrefix(p, prefix)
  }

  /** `List(prefix)`: the stored paths that start with `prefix`, in listing
      order. */
  function List(st: Store, prefix: string): (r: seq<string>)
    ensures forall p :: p in r ==> p in st.order && HasPrefix(p, prefix)
  {
    Keep(st.order, Under(prefix))
  }

  /** A listing holds exactly the stored paths under the prefix, each once. */
  lemma ListSpec(st: Store, prefix: string)
    requires Valid(st)
    ensures forall p :: p in List(st, prefix) <==> p in st.objects && HasPrefix(p, prefix)
    ensures forall i, j :: 0 <= i < j < |List(st, prefix)| ==> List(st, prefix)[i] != List(st, prefix)[j]
  {
    forall p | p in st.objects && HasPrefix(p, prefix)
      ensures p in List(st, prefix)
    {
      KeepComplete(st.order, Under(prefix), p);
    }
    KeepInjective(st.order, Under(prefix), (p: string) => p);
  }

  /** Under a prefix, a path can be downloaded exactly when the listing of
      that prefix names it, and then with the content stored there. */
  lemma DownloadIffListed(st: Store, prefix: string, p: string)
    requires Valid(st) && HasPrefix(p, prefix)
    ensures Download(st, p).Success? <==> p in List(st, prefix)
    ensures p in List(st, prefix) ==> Download(st, p) == Success(st.objects[p])
  {
    ListSpec(st, prefix);
  }
}

/**
 * `FileInterface` (cloudvolume/storage.py), the local-filesystem backend.  The
 * filesystem is a map from full file paths to their bytes; directories are not
 * stored.  A file `f` of the layer lives at `join(bucket, path, f)`, and its
 * gzip-compressed form at the same name with ".gz" appended.
 */
module FileBackend {
  import opened Wrappers
  import opened Blobs
  import opened PathOps
  import opened Radix
  import opened Collecting

  /** The files on disk: full path to contents. */
  type Store = map<string, Bytes>

  /**
   * What decompressing a file's bytes can raise.  `IOFailure` stands for an
   * `IOError` (which `get_file` turns into `None`); any other failure escapes.
   */
  datatype ReadFailure = IOFailure | DecodeFailure(reason: string)

  /** `compression.decompress(data, 'gzip' if gz else None)`, an oracle. */
  type Decompressor = (Bytes, bool) -> Result<Bytes, ReadFailure>

  /** The name of the compressed sibling of `key`. */
  function GzName(key: string): string {
    key + ".gz"
  }

  // ---------------------------------------------------------------------------
  // The store effect of each operation, as functions on the map.

  /** `put_file`: the bytes go to `key`, or to its ".gz" sibling when compressing. */
  function Write(store: Store, key: string, content: Bytes, compress: bool): Store {
    store[(if compress then GzName(key) else key) := content]
  }

  /** The result of decompressing: `IOError` reads as a missing file. */
  function Decoded(d: Result<Bytes, ReadFailure>): Result<Option<Bytes>, ReadFailure> {
    match d
    case Ok(data) => Ok(Some(data))
    case Err(IOFailure) => Ok(None)
    case Err(e) => Err(e)
  }

  /** `get_file`: the ".gz" sibling is read (and gunzipped) when it exists, else the plain file; a missing file is `None`. */
  function Read(store: Store, key: string, decompress: Decompressor): Result<Option<Bytes>, ReadFailure> {
    if GzName(key) in store then Decoded(decompress(store[GzName(key)], true))
    else if key in store then Decoded(decompress(store[key], false))
    else Ok(None)
  }

  /** `exists`: the plain file or its ".gz" sibling is present. */
  predicate Present(store: Store, key: string) {
    key in store || GzName(key) in store
  }

  /** `delete_file`: the plain file is removed if present, otherwise the ".gz" sibling. */
  function Remove(store: Store, key: string): Store {
    if key in store then store - {key}
    else if GzName(key) in store then store - {GzName(key)}
    else store
  }

  // ---------------------------------------------------------------------------
  // Properties of the store effects.

  /** A write touches exactly one key, the plain or the ".gz" name as `compress` says. */
  lemma WriteTouchesOneKey(store: Store, key: string, content: Bytes, compress: bool, k: string)
    ensures var target := if compress then key + ".gz" else key;
      var s := Write(store, key, content, compress);
      target in s && s[target] == content
      && (k != target ==> (k in s <==> k in store) && (k in store ==> s[k] == store[k]))
  {
  }

  /**
   * Reading back what was written gives the decoded content: always for a
   * compressed write; for a plain write as long as no ".gz" sibling is present.
   */
  lemma ReadAfterWrite(store: Store, key: string, content: Bytes, compress: bool, decompress: Decompressor)
    requires compress || GzName(key) !in store
    ensures Read(Write(store, key, content, compress), key, decompress) == Decoded(decompress(content, compress))
  {
    var s := Write(store, key, content, compress);
    if !compress {
      assert GzName(key) != key;
      assert GzName(key) !in s;
    }
  }

  /** A stale ".gz" sibling shadows a plain write: `get_file` still returns the old compressed file. */
  lemma StaleCompressedShadowsPlainWrite(store: Store, key: string, content: Bytes, decompress: Decompressor)
    requires GzName(key) in store
    ensures Read(Write(store, key, content, false), key, decompress) == Read(store, key, decompress)
  {
    assert GzName(key) != key;
  }

  /**
   * The round trip through `Storage.put_file` and `get_file`: content that the
   * codec gives back after compression is read back unchanged.
   */
  lemma PutGetRoundTrip(store: Store, key: string, x: Bytes, compress: bool,
                        compressor: (Bytes, bool) -> Bytes, decompress: Decompressor)
    requires decompress(compressor(x, compress), compress) == Ok(x)
    requires compress || GzName(key) !in store
    ensures Read(Write(store, key, compressor(x, compress), compress), key, decompress) == Ok(Some(x))
  {
    ReadAfterWrite(store, key, compressor(x, compress), compress, decompress);
  }

  /** After a write the file exists. */
  lemma WriteMakesPresent(store: Store, key: string, content: Bytes, compress: bool)
    ensures Present(Write(store, key, content, compress), key)
  {
  }

  /** With a codec that never raises `IOError`, `exists` holds exactly when `get_file` does not answer `None`. */
  lemma PresentIffReadable(store: Store, key: string, decompress: Decompressor)
    requires forall data: Bytes, gz: bool :: decompress(data, gz) != Err(IOFailure)
    ensures Present(store, key) <==> Read(store, key, decompress) != Ok(None)
  {
    if GzName(key) in store {
      assert decompress(store[GzName(key)], true) != Err(IOFailure);
    } else if key in store {
      assert decompress(store[key], false) != Err(IOFailure);
    }
  }

  /** A delete removes at most one key, never both names, and nothing else. */
  lemma RemoveTakesAtMostOne(store: Store, key: string)
    ensures var s := Remove(store, key);
      s.Keys <= store.Keys
      && (s == store - {key} || s == store - {GzName(key)})
      && (key in store ==> key !in s && (GzName(key) in store ==> GzName(key) in s))
      && (forall k :: k in s ==> s[k] == store[k])
  {
    assert GzName(key) != key;
  }

  /** Deleting a file that does not exist changes nothing; deleting twice removes both names. */
  lemma RemoveAbsentIsNoop(store: Store, key: string)
    ensures !Present(store, key) ==> Remove(store, key) == store
    ensures !Present(Remove(Remove(store, key), key), key)
  {
    assert GzName(key) != key;
  }

  // ---------------------------------------------------------------------------
  // Listing.

  /** The part of `p` after its last '/': the basename pattern glob sees. */
  function BaseName(p: string): string {
    p[LastIndexOf(p, '/') + 1..]
  }

  /**
   * `glob(pattern + '*')` selects `key` (a file): it starts with the pattern
   * text, the rest holds no '/', and a name starting with '.' is skipped when
   * the '*' stands for the whole last component (glob hides dot files unless
   * the basename pattern itself starts with '.').
   */
  predicate GlobSelects(pattern: string, key: string) {
    IsPrefix(pattern, key)
    && '/' !in key[|pattern|..]
    && !(BaseName(pattern) == "" && |key| > |pattern| && key[|pattern|] == '.')
  }

  /** The directory `os.walk(top)` lists files under, with the separator `join` adds. */
  function WalkRoot(top: string): string {
    if EndsWithSlash(top) then top else top + "/"
  }

  /** `os.walk(top)` reaches `key`: it lies below `top` (a missing or empty top yields nothing). */
  predicate WalkReaches(top: string, key: string) {
    top != "" && IsPrefix(WalkRoot(top), key) && |key| > |WalkRoot(top)|
  }

  /** The layer directory, `get_path_to_file("")`. */
  function LayerPath(bucket: string, path: string): string {
    Join3(bucket, path, "")
  }

  /** The text `list_files` strips from every path: the layer path with a trailing '/'. */
  function RemovePrefix(layer: string): string {
    if |layer| > 0 && layer[|layer| - 1] != '/' then layer + "/" else layer
  }

  /** The name `list_files` reports for a selected `key`, before sorting. */
  function ListedName(layer: string, key: string): string {
    StripGz(RemoveAll(key, RemovePrefix(layer)))
  }

  /** `list_files` selects `key`: the flat glob test, or the recursive walk and prefix test. */
  predicate Listed(layer: string, prefix: string, flat: bool, key: string) {
    if flat then GlobSelects(Join(layer, prefix), key)
    else
      WalkReaches(Join(layer, Dirname(prefix)), key)
      && IsPrefix(prefix, RemoveAll(key, RemovePrefix(layer)))
  }

  /** What `list_files` collects for `key`: its reported name, or nothing. */
  function Entry(layer: string, prefix: string, flat: bool, key: string): Option<string> {
    if Listed(layer, prefix, flat, key) then Some(ListedName(layer, key)) else None
  }

  /** The names `list_files` collects, before sorting, when the walk visits `keys` in this order. */
  function ListedNames(layer: string, prefix: string, flat: bool, keys: seq<string>): seq<string> {
    Collect(key => Entry(layer, prefix, flat, key), keys)
  }

  /**
   * The listing does not depend on the order the walk visits the files: two
   * visiting orders of the same files give the same sorted answer.
   */
  lemma ListingIndependentOfWalkOrder(layer: string, prefix: string, flat: bool, a: seq<string>, b: seq<string>)
    requires multiset(a) == multiset(b)
    requires !SortRaises(ListedNames(layer, prefix, flat, a), 0) && !SortRaises(ListedNames(layer, prefix, flat, b), 0)
    ensures RadixSort(ListedNames(layer, prefix, flat, a), 0) == RadixSort(ListedNames(layer, prefix, flat, b), 0)
  {
    var na, nb := ListedNames(layer, prefix, flat, a), ListedNames(layer, prefix, flat, b);
    CollectPermute(key => Entry(layer, prefix, flat, key), a, b);
    RadixSortCorrect(na);
    RadixSortCorrect(nb);
  }

  /** Whether the listing raises `IndexError` does not depend on the order the walk visits the files either. */
  lemma ListingFailureIndependentOfWalkOrder(layer: string, prefix: string, flat: bool, a: seq<string>, b: seq<string>)
    requires multiset(a) == multiset(b)
    ensures SortRaises(ListedNames(layer, prefix, flat, a), 0) == SortRaises(ListedNames(layer, prefix, flat, b), 0)
  {
    CollectPermute(key => Entry(layer, prefix, flat, key), a, b);
    SortRaisesPermute(ListedNames(layer, prefix, flat, a), ListedNames(layer, prefix, flat, b), 0);
  }

  /** A file and its ".gz" sibling are both listed, under the same name: the listing is not de-duplicated. */
  lemma ListingKeepsDuplicates(layer: string, name: string)
    requires EndsWithSlash(layer) && |name| > 0 && name[0] != '.' && '/' !in name && !EndsWith(name, ".gz")
    requires !Occurs(layer, name) && !Occurs(layer, name + ".gz")
    ensures ListedNames(layer, "", true, [layer + name, layer + name + ".gz"]) == [name, name]
  {
    SiblingsShareName(layer, name);
    CollectPair(key => Entry(layer, "", true, key), layer + name, layer + name + ".gz");
  }

  /** `name` and `name + ".gz"` in the layer directory are both listed flat, as `name`. */
  lemma SiblingsShareName(layer: string, name: string)
    requires EndsWithSlash(layer) && |name| > 0 && name[0] != '.' && '/' !in name && !EndsWith(name, ".gz")
    requires !Occurs(layer, name) && !Occurs(layer, name + ".gz")
    ensures Entry(layer, "", true, layer + name) == Some(name)
    ensures Entry(layer, "", true, layer + name + ".gz") == Some(name)
  {
    assert layer + name + ".gz" == layer + (name + ".gz");
    FlatEntry(layer, name);
    FlatEntry(layer, name + ".gz");
    StripGzOfCompressedName(name, 0);
  }

  /** A file directly inside the layer directory is listed flat, under its name relative to the layer, less a ".gz". */
  lemma FlatEntry(layer: string, name: string)
    requires EndsWithSlash(layer) && |name| > 0 && name[0] != '.' && '/' !in name
    requires !Occurs(layer, name)
    ensures Entry(layer, "", true, layer + name) == Some(StripGz(name))
  {
    var key := layer + name;
    assert key[..|layer|] == layer;
    assert key[|layer|..] == name;
    assert BaseName(layer) == "";
    RemoveAllLeading(layer, name);
    assert Listed(layer, "", true, key);
  }

  /** The result of listing: the sorted names, or the `IndexError` of the sort. */
  datatype ListError = IndexError

  /** One record of `get_files`. */
  datatype FileRecord = FileRecord(filename: string, content: Option<Bytes>, error: Option<ReadFailure>)

  /** The record `get_files` builds from one `get_file` outcome. */
  function RecordOf(filename: string, r: Result<Option<Bytes>, ReadFailure>): FileRecord {
    match r
    case Ok(content) => FileRecord(filename, content, None)
    case Err(e) => FileRecord(filename, None, Some(e))
  }

  /** A record names its path; a failed read carries its failure and no content, a successful one its content. */
  lemma RecordOfOutcome(filename: string, r: Result<Option<Bytes>, ReadFailure>)
    ensures RecordOf(filename, r).filename == filename
    ensures RecordOf(filename, r).error.Some? <==> r.Err?
    ensures r.Err? ==> RecordOf(filename, r).content.None? && RecordOf(filename, r).error == Some(r.error)
    ensures r.Ok? ==> RecordOf(filename, r).content == r.value
  {
  }

  /** The records `get_files` reports for `paths`, each read from `store` at `keyOf` of its path. */
  function Records(store: Store, keyOf: string -> string, decompress: Decompressor, paths: seq<string>): seq<FileRecord> {
    if paths == [] then []
    else [RecordOf(paths[0], Read(store, keyOf(paths[0]), decompress))] + Records(store, keyOf, decompress, paths[1..])
  }

  /** One record per path, in input order, each capturing the outcome of reading that path. */
  lemma {:induction false} RecordsInOrder(store: Store, keyOf: string -> string, decompress: Decompressor, paths: seq<string>)
    ensures |Records(store, keyOf, decompress, paths)| == |paths|
    ensures forall i :: 0 <= i < |paths| ==>
      Records(store, keyOf, decompress, paths)[i] == RecordOf(paths[i], Read(store, keyOf(paths[i]), decompress))
  {
    if paths != [] {
      RecordsInOrder(store, keyOf, decompress, paths[1..]);
    }
  }

  // ---------------------------------------------------------------------------
  // The class.

  class FileInterface {
    const bucket: string
    const path: string
    const decompress: Decompressor
    var files: Store

    constructor (bucket: string, path: string, decompress: Decompressor, files: Store)
      ensures this.bucket == bucket && this.path == path && this.decompress == decompress && this.files == files
    {
      this.bucket := bucket;
      this.path := path;
      this.decompress := decompress;
      this.files := files;
    }

    /** `get_path_to_file`. */
    function PathToFile(file: string): (r: string)
      ensures EndsWith(r, file)
    {
      Join3(bucket, path, file)
    }

    method PutFile(file: string, content: Bytes, compress: bool)
      modifies this
      ensures files == Write(old(files), PathToFile(file), content, compress)
    {
      var key := PathToFile(file);
      if compress {
        key := key + ".gz";
      }
      files := files[key := content];
    }

    method GetFile(file: string) returns (r: Result<Option<Bytes>, ReadFailure>)
      ensures r == Read(files, PathToFile(file), decompress)
    {
      var key := PathToFile(file);
      var compressed := key + ".gz" in files;
      if compressed {
        key := key + ".gz";
      }
      if key !in files {
        return Ok(None);
      }
      var d := decompress(files[key], compressed);
      match d {
        case Ok(data) => r := Ok(Some(data));
        case Err(IOFailure) => r := Ok(None);
        case Err(e) => r := Err(e);
      }
    }

    method Exists(file: string) returns (b: bool)
      ensures b <==> Present(files, PathToFile(file))
    {
      var key := PathToFile(file);
      b := key in files || key + ".gz" in files;
    }

    /** `files_exist`: one answer per distinct input path. */
    method FilesExist(paths: seq<string>) returns (m: map<string, bool>)
      ensures m.Keys == set p | p in paths
      ensures forall p :: p in m ==> m[p] == Present(files, PathToFile(p))
    {
      m := map p | p in paths :: Present(files, PathToFile(p));
    }

    method DeleteFile(file: string)
      modifies this
      ensures files == Remove(old(files), PathToFile(file))
    {
      var key := PathToFile(file);
      if key in files {
        files := files - {key};
      } else if key + ".gz" in files {
        files := files - {key + ".gz"};
      }
    }

    /** One step of `get_files`: the read of `file`, captured as a record. */
    method GetRecord(file: string) returns (rec: FileRecord)
      ensures rec == RecordOf(file, Read(files, PathToFile(file), decompress))
    {
      var r := GetFile(file);
      rec := RecordOf(file, r);
    }

    /** `get_files`: the records of `paths`, read from the current files. */
    method GetFiles(paths: seq<string>) returns (results: seq<FileRecord>)
      ensures results == Records(files, PathToFile, decompress, paths)
    {
      ghost var want := Records(files, PathToFile, decompress, paths);
      results := [];
      var rest := paths;
      while rest != []
        invariant results + Records(files, PathToFile, decompress, rest) == want
      {
        var rec := GetRecord(rest[0]);
        results := results + [rec];
        rest := rest[1..];
      }
    }

    /**
     * `list_files(prefix, flat)`.  The walk visits the files in an order the
     * filesystem chooses (`visited` is that order); the radix sort
     * makes the answer independent of it unless the sort raises.
     */
    method ListFiles(prefix: string, flat: bool) returns (r: Result<seq<string>, ListError>, ghost visited: seq<string>)
      ensures forall i, j :: 0 <= i < j < |visited| ==> visited[i] != visited[j]
      ensures forall k :: k in visited <==> k in files
      ensures var names := ListedNames(LayerPath(bucket, path), prefix, flat, visited);
        r == if SortRaises(names, 0) then Err(IndexError) else Ok(RadixSort(names, 0))
      ensures var names := ListedNames(LayerPath(bucket, path), prefix, flat, visited);
        r.Ok? ==> Sorted(r.value) && multiset(r.value) == multiset(names)
    {
      var layer := PathToFile("");
      var names;
      names, visited := WalkListing(files, key => Entry(layer, prefix, flat, key));
      if SortRaises(names, 0) {
        r := Err(IndexError);
      } else {
        RadixSortCorrect(names);
        r := Ok(RadixSort(names, 0));
      }
    }
  }

  /**
   * The walk of `list_files`: every stored key is visited once, in an order
   * the filesystem chooses, and `entry` says which are selected and under
   * what name (the glob or prefix test of `list_files`).
   */
  method WalkListing(files: Store, entry: string -> Option<string>) returns (names: seq<string>, ghost visited: seq<string>)
    ensures forall i, j :: 0 <= i < j < |visited| ==> visited[i] != visited[j]
    ensures forall k :: k in visited <==> k in files
    ensures names == Collect(entry, visited)
  {
    names := [];
    var todo := files.Keys;
    visited := [];
    while todo != {}
      invariant forall i, j :: 0 <= i < j < |visited| ==> visited[i] != visited[j]
      invariant forall k :: k in visited <==> k in files && k !in todo
      invariant todo <= files.Keys
      invariant names == Collect(entry, visited)
      decreases |todo|
    {
      var k :| k in todo;
      names := names + Emit(entry(k));
      CollectConcat(entry, visited, [k]);
      CollectOne(entry, k);
      visited := visited + [k];
      todo := todo - {k};
    }
  }
}

/**
 * The backend chosen by `Storage.__init__` (cloudvolume/storage.py): the parsed
 * protocol of the layer path decides the interface class, and the HTTP
 * interface, which is not thread-safe, turns the worker threads off.
 */
module Facade {
  import opened Wrappers

  /** The four interface classes. */
  datatype Interface = FileInterface | GoogleCloudStorageInterface | S3Interface | HttpInterface

  /** What the constructor settles: the interface class and the number of worker threads. */
  datatype Storage = Storage(interface: Interface, nThreads: nat)

  /** The parsed layer path that `extract_bucket_path` returns: its protocol, bucket and path within the bucket. */
  datatype BucketPath = BucketPath(protocol: string, bucket: string, path: string)

  /** Raised for a protocol no interface serves; it carries the whole parsed path, as `str(self._path)` does. */
  datatype UnsupportedProtocolError = UnsupportedProtocolError(path: BucketPath)

  /** The protocols some interface serves. */
  const SUPPORTED: set<string> := {"file", "gs", "s3", "matrix", "http", "https"}

  /** `Storage.__init__`, from the path that `extract_bucket_path` parsed and the requested thread count. */
  function SelectInterface(spec: BucketPath, nThreads: nat): (r: Result<Storage, UnsupportedProtocolError>)
    ensures r.Ok? <==> spec.protocol in SUPPORTED
    ensures r.Err? ==> r.error == UnsupportedProtocolError(spec)
    ensures r.Ok? ==> (r.value.interface == HttpInterface <==> spec.protocol in {"http", "https"})
    ensures r.Ok? && r.value.interface == HttpInterface ==> r.value.nThreads == 0
    ensures r.Ok? && r.value.interface != HttpInterface ==> r.value.nThreads == nThreads
  {
    var protocol := spec.protocol;
    if protocol == "file" then Ok(Storage(FileInterface, nThreads))
    else if protocol == "gs" then Ok(Storage(GoogleCloudStorageInterface, nThreads))
    else if protocol in {"s3", "matrix"} then Ok(Storage(S3Interface, nThreads))
    else if protocol in {"http", "https"} then Ok(Storage(HttpInterface, 0))
    else Err(UnsupportedProtocolError(spec))
  }

  /** Which class serves which protocol: each class is chosen by exactly its own protocols, whatever the bucket and path. */
  lemma InterfaceFor(spec: BucketPath, nThreads: nat)
    ensures SelectInterface(spec, nThreads) == Ok(Storage(FileInterface, nThreads)) <==> spec.protocol == "file"
    ensures SelectInterface(spec, nThreads) == Ok(Storage(GoogleCloudStorageInterface, nThreads)) <==> spec.protocol == "gs"
    ensures SelectInterface(spec, nThreads) == Ok(Storage(S3Interface, nThreads)) <==> spec.protocol in {"s3", "matrix"}
    ensures SelectInterface(spec, nThreads) == Ok(Storage(HttpInterface, 0)) <==> spec.protocol in {"http", "https"}
  {
  }

  /** `matrix` is another name for S3, and `https` is served like `http`. */
  lemma Aliases(bucket: string, path: string, nThreads: nat)
    ensures SelectInterface(BucketPath("matrix", bucket, path), nThreads) == SelectInterface(BucketPath("s3", bucket, path), nThreads)
    ensures SelectInterface(BucketPath("https", bucket, path), nThreads) == SelectInterface(BucketPath("http", bucket, path), nThreads)
  {
  }
}

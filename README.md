# cloud-volume storage core and graphene codec, in Dafny

This project models the storage layer of cloud-volume (`cloudvolume/storage.py`)
and the graphene metadata helpers (`cloudvolume/datasource/graphene/metadata.py`,
`cloudvolume/datasource/graphene/sharding.py`), and proves properties of the model.

The modelled parts are:

- **Listing order.** `_radix_sort` is modelled as a recursive function. `SortRaises`
  states exactly when the source's 255 buckets make it raise `IndexError`.
- **Local backend.** `FileInterface` is a class over a map from full paths to bytes.
  - `put_file`, `get_file`, `exists`, `delete_file`, `get_files`, `files_exist`
    and `list_files` are methods.
  - The walk or glob of `list_files` is an order the filesystem chooses, passed
    to the model as a ghost sequence.
- **Object-store listings.** The GCS and S3 `list_files` generators are filters
  over the keys the store returns. S3 pagination is a loop over the pages.
- **HTTP backend.** `HttpInterface.get_files` and `files_exist` keep one
  connection's pipe full, consuming `available` from its end and `running` as
  a FIFO, while the connection admits `limit` streams.
  - The server is an oracle that maps a verb, a URL and an attempt number to a
    response, which carries the class of error `exceptions.from_http_status`
    gives it.
  - `get_file` and `exists` retry server errors under the retry budget.
- **Facade logic.** This covers the protocol dispatch of `Storage.__init__`,
  `keydefaultdict` (a class) and the `MAX_RETRIES = 7` retry budget.
- **Graphene.** This covers:
  - `GrapheneApiVersion`;
  - the endpoint paths (`base_path`, `table_path`, `info_path`);
  - `supported_api_versions`, `supports_api` and the version resolution of
    `GrapheneMetadata.__init__`;
  - the 64-bit label codec (`decode_level`, `decode_segid`,
    `decode_chunk_position`, `spatial_bit_masks`, `level_segid_bits`,
    `decode_chunk_id`, `decode_label`);
  - `extract_graphene_path` (three regular expressions tried in order);
  - `get_draco_grid_size`;
  - `GrapheneShardReader.compute_shard_location`.

Modelling choices:

- **Integers.** numpy's `uint64` is a natural number below 2^64 (`Uint64.U64`).
  - `&` is defined bit by bit.
  - `<<` multiplies and wraps at 2^64.
  - `>>` divides.
- **Text.** Strings are `seq<char>`, and file contents are byte sequences.
- **Exceptions.** A raised exception is the `Err` or `Raised` case of a result
  datatype, carrying the exception's data.

Some behaviours of the code that a reader might not expect, all modelled as
written:

- **FileInterface listings are not de-duplicated.** A file and its `.gz`
  sibling are both listed, under the same name (`FileBackend.ListingKeepsDuplicates`).
- **Object-store listings are not sorted.** The GCS and S3 listings are
  generators in store order, and only the filesystem listing is radix-sorted.
- **A flat object-store listing reports no subdirectories.** Flat listing of
  `a/` over `a/b/c`, `a/b/d`, `a/e` yields only `a/e`
  (`ObjectStoreListing.FlatListingSkipsSubdirectories`).
- **HTTP `get_files` answers in reverse input order.** `available` is consumed
  from its end and the answers are read in request order.
- **A client error makes HTTP `files_exist` raise.** It is not isolated to
  its item (`HttpBackend.FilesExistClientErrorRaises`).
- **A connection that admits no stream sends no request.** HTTP `get_files`
  then returns `[]`, and `files_exist` answers `None` for every path.
- **A graphene host without a `.` gains one in `base_path`.** The subdomain
  becomes the whole host and the domain is empty, so `https://localhost:8000`
  gets the base `https://localhost:8000./` (`GrapheneApi.BasePathDotlessHost`).

## Model

| member | source | states |
|---|---|---|
| Radix.RadixSortCorrect | cloudvolume/storage.py:981-995 | When the sort does not raise, from depth 0 it returns a permutation of its input in lexicographic order, with a prefix before its extensions. That arrangement is the only sorted permutation, and a list of at most one string comes back unchanged. |
| Radix.RadixSortPermutes | cloudvolume/storage.py:985-995 | At any depth the result holds the input's strings with their multiplicities. |
| Radix.RadixSortOrders | cloudvolume/storage.py:985-995 | Strings sharing a prefix of length `i`, sorted from depth `i`, come out sorted. |
| Radix.SortedUnique | cloudvolume/storage.py:981-995 | Two sorted arrangements of one multiset are equal, so the listing order is determined by the listed names alone. |
| Radix.SortRaisesPermute | cloudvolume/storage.py:985-995 | Whether the sort raises `IndexError` depends only on the multiset of strings it is given, not on their order. |
| Radix.FittingCodesNeverRaise | cloudvolume/storage.py:988-993 | Strings whose character codes are all below 255 never make the sort raise. |
| Radix.OutOfRangeCodeRaises | cloudvolume/storage.py:988-993 | A character of code 255 in a list of two strings raises `IndexError`. |
| Radix.BucketPotential | cloudvolume/storage.py:994 | Each recursive call on a bucket is on a smaller problem, so the sort terminates. |
| Radix.DoneMembers | cloudvolume/storage.py:989-991 | The done bucket holds only input strings of length at most `i`. |
| Radix.BucketMembers | cloudvolume/storage.py:992-993 | Bucket `c` holds only input strings whose character at `i` has code `c`. |
| Retry.RetryFromIsFirstDecisive | cloudvolume/storage.py:46-51 | The caller sees the first attempt that returns or raises a non-retried error, or the last attempt the budget of 7 allows. |
| Retry.SuccessWithinBudget | cloudvolume/storage.py:46-51 | A success after fewer than 7 retried failures is what the caller gets. |
| Retry.BudgetExhaustedReraisesLast | cloudvolume/storage.py:46-51 | After 7 retried failures the seventh error is re-raised. |
| Retry.NonRetryableSurfaces | cloudvolume/storage.py:46-51 | An error the policy does not retry surfaces at once. |
| Retry.OnlyBudgetedAttemptsMatter | cloudvolume/storage.py:46-51 | No attempt past the seventh is ever made. |
| KeyDefaultDict.KeyDefaultDict.Get | cloudvolume/storage.py:25-31 | A present key is looked up and nothing changes. A missing key with no factory raises `KeyError(key)` and nothing changes. A missing key with a factory is stored as `factory(key)`, which is returned; the factory is called once per key. |
| KeyDefaultDict.KeyDefaultDict.constructor | cloudvolume/storage.py:25-31 | A new dictionary is empty and keeps its factory. |
| Facade.SelectInterface | cloudvolume/storage.py:223-234 | Dispatch succeeds exactly for the six served protocols and otherwise raises `UnsupportedProtocolError` carrying the whole parsed path. HTTP is chosen exactly for `http`/`https` and forces 0 threads; every other interface keeps the thread count. |
| Facade.InterfaceFor | cloudvolume/storage.py:223-234 | Each interface class is chosen by exactly its own protocols. |
| Facade.Aliases | cloudvolume/storage.py:227-229 | `matrix` is served as `s3` and `https` as `http`. |
| PathOps.JoinShape | cloudvolume/storage.py:423-426 | `os.path.join(a, b)` ends with `b`. An absolute `b` replaces `a`. Otherwise `a` is kept in front, and a '/' is added only when `a` is non-empty and does not end in one. |
| PathOps.StripGz | cloudvolume/storage.py:535-540 | `stripgz` removes a trailing `.gz` or nothing, and leaves a name without `.gz` as it is. |
| PathOps.StripGzOfCompressedName | cloudvolume/storage.py:535-540 | A compressed sibling's name maps back to the plain name when the last component holds something besides dots. |
| PathOps.Dirname | cloudvolume/storage.py:526 | `os.path.dirname` is a prefix of its argument, and is empty for a name without '/'. |
| PathOps.RemoveAllUnchangedOrOccurs | cloudvolume/storage.py:523 | `str.replace(pattern, '')` changes the string only when the pattern occurs in it. |
| PathOps.RemoveAllLeading | cloudvolume/storage.py:646 | Replacing the layer path in a key that begins with it, and has no other occurrence, leaves the tail. |
| FileBackend.WriteTouchesOneKey | cloudvolume/storage.py:428-447 | `put_file` stores the content under the plain or the `.gz` name, as `compress` says, and leaves every other key unchanged. |
| FileBackend.ReadAfterWrite | cloudvolume/storage.py:428-463 | Reading back gives the decoded content: always after a compressed write, and after a plain write when no `.gz` sibling exists. |
| FileBackend.StaleCompressedShadowsPlainWrite | cloudvolume/storage.py:449-454 | After a plain write, an existing `.gz` sibling is still what `get_file` reads. |
| FileBackend.PutGetRoundTrip | cloudvolume/storage.py:428-463 | Content that the codec restores after compression is read back unchanged. |
| FileBackend.WriteMakesPresent | cloudvolume/storage.py:487-489 | After a write the file exists. |
| FileBackend.PresentIffReadable | cloudvolume/storage.py:449-463 | With a codec that never raises `IOError`, `exists` holds exactly when `get_file` does not answer `None`. |
| FileBackend.RemoveTakesAtMostOne | cloudvolume/storage.py:494-499 | `delete_file` removes the plain name if present, else the `.gz` name; never both, and nothing else. |
| FileBackend.RemoveAbsentIsNoop | cloudvolume/storage.py:494-499 | Deleting an absent file changes nothing. After two deletes, neither name exists. |
| FileBackend.RecordOfOutcome | cloudvolume/storage.py:469-483 | A record names its path; a failure carries the error and no content, and a success carries the content. |
| FileBackend.ListingIndependentOfWalkOrder | cloudvolume/storage.py:519-543 | Two orders of visiting the same files give the same sorted listing. |
| FileBackend.ListingFailureIndependentOfWalkOrder | cloudvolume/storage.py:519-543 | Two orders of visiting the same files agree on whether the listing raises `IndexError`. |
| FileBackend.ListingKeepsDuplicates | cloudvolume/storage.py:535-543 | `name` and `name.gz` are both listed, as `name` twice. |
| FileBackend.SiblingsShareName | cloudvolume/storage.py:519-542 | A file and its `.gz` sibling in the layer directory are both listed flat under the plain name. |
| FileBackend.FlatEntry | cloudvolume/storage.py:519-524 | A file directly inside the layer directory is listed flat under its relative name, less a `.gz`. |
| FileBackend.FileInterface.PathToFile | cloudvolume/storage.py:423-426 | The full path ends with the file's relative path. |
| FileBackend.FileInterface.PutFile | cloudvolume/storage.py:428-447 | The new store is the old one written under the plain or `.gz` name (see `WriteTouchesOneKey`). |
| FileBackend.FileInterface.GetFile | cloudvolume/storage.py:449-463 | The answer reads the `.gz` sibling when it exists, else the plain file. A missing file or an `IOError` gives `None`, and other decoding failures escape. |
| FileBackend.FileInterface.Exists | cloudvolume/storage.py:487-489 | True exactly when the plain or the `.gz` name is present. |
| FileBackend.FileInterface.FilesExist | cloudvolume/storage.py:491-492 | One entry per distinct input path, holding that path's `exists`. |
| FileBackend.FileInterface.DeleteFile | cloudvolume/storage.py:494-499 | The new store is the old one with at most one name removed (see `RemoveTakesAtMostOne`). |
| FileBackend.FileInterface.GetFiles | cloudvolume/storage.py:465-485 | The answer is the records of the paths read from the current files (`Records`). |
| FileBackend.RecordsInOrder | cloudvolume/storage.py:465-485 | `get_files` yields one record per input path, in input order, each that path's `get_file` outcome with any error captured. |
| FileBackend.FileInterface.ListFiles | cloudvolume/storage.py:501-543 | The walk visits every stored file once. The answer is the radix sort of the selected, `.gz`-stripped names, or `IndexError` exactly when the sort raises. A returned listing is sorted and a permutation of the names. |
| FileBackend.WalkListing | cloudvolume/storage.py:519-533 | Every stored key is visited exactly once; the names are those the selection test gives, in visit order. |
| ObjectStoreListing.FilterIsCollectBeforeFirstRaise | cloudvolume/storage.py:645-650 | The generator yields the names of the selected keys before the first key that raises, and ends raising exactly when there is such a key. |
| ObjectStoreListing.FilterRaisesIff | cloudvolume/storage.py:647 | The listing raises exactly when some key's stripped name is empty. |
| ObjectStoreListing.RecursiveVerdict | cloudvolume/storage.py:646-648 | Recursively, a key `layer + tail` is yielded as `tail` exactly when the tail is non-empty and does not end in '/'. It is skipped when the tail ends in '/' and raises when the tail is empty. |
| ObjectStoreListing.FlatVerdict | cloudvolume/storage.py:649-650 | Flat, a key `listed + tail` is yielded as `prefix + tail` exactly when the tail holds no '/'. |
| ObjectStoreListing.FlatListingSkipsSubdirectories | cloudvolume/storage.py:649-650 | Flat listing of `a/` over `a/b/c`, `a/b/d`, `a/e` yields `a/e` alone. |
| ObjectStoreListing.IterateKeys | cloudvolume/storage.py:951-961 | `iterate` judges the keys in order and stops at the first `IndexError`. |
| ObjectStoreListing.GcsListFiles | cloudvolume/storage.py:635-650 | The GCS listing is the filter over the store's keys for the listed path. |
| ObjectStoreListing.S3ListFiles | cloudvolume/storage.py:934-975 | The S3 listing is the filter over all pages' keys in order. Between 1 and all pages are requested, and all of them unless the filter raised. |
| ObjectStoreListing.FilterConcat | cloudvolume/storage.py:964-975 | Listing two pages in a row lists the second only when the first did not raise. |
| ObjectStoreListing.RaisedPrefixDecides | cloudvolume/storage.py:964-975 | Once the pages so far raise, later pages do not change the listing. |
| HttpBackend.ExistsFalseOnNotFound | cloudvolume/storage.py:758-772 | `exists` answers `false` for a `NotFound`/`Forbidden` response, after any run of server-error responses within the budget. |
| HttpBackend.ExistsFalseOn404 | cloudvolume/storage.py:758-772 | A first `exists` attempt answered 404 or 403 gives `false`, given only that `from_http_status` maps those statuses to `NotFound`/`Forbidden`. |
| HttpBackend.GetFileClientErrorSurfaces | cloudvolume/storage.py:676-690 | A client-error response (`NotFound` and `Forbidden` included) on `get_file` raises at once, without retrying. |
| HttpBackend.GetFileGivesUpAfterBudget | cloudvolume/storage.py:676-690 | Seven server-error responses make `get_file` raise the last one. |
| HttpBackend.PutFile | cloudvolume/storage.py:672-674 | Always raises `NotImplementedError`. |
| HttpBackend.DeleteFile | cloudvolume/storage.py:668-670 | Always raises `NotImplementedError`. |
| HttpBackend.ListFiles | cloudvolume/storage.py:826-827 | Always raises `NotImplementedError`. |
| HttpBackend.GetFilesCapturesClientError | cloudvolume/storage.py:714-754 | A client-error response of one item, `NotFound` included, is captured in its record with no content. |
| HttpBackend.RevAt | cloudvolume/storage.py:693-710 | The `i`-th request goes out for input path `|paths| - 1 - i`. |
| HttpBackend.RevMembers | cloudvolume/storage.py:693-710 | The request order holds exactly the input paths. |
| HttpBackend.SendNext | cloudvolume/storage.py:696-712 | A request is sent exactly when a path is available and fewer than `limit` streams are in flight. It takes the last available path to the back of `running`; otherwise nothing changes. |
| HttpBackend.SendKeepsQueues | cloudvolume/storage.py:696-712 | Sending keeps `available` the front of the input and `running` the next requests in order. |
| HttpBackend.AnswerKeepsQueues | cloudvolume/storage.py:737 | The oldest running request is the next path in request order. |
| HttpBackend.SendRound | cloudvolume/storage.py:733-735 | A send round keeps the queues in step and never raises the loop's measure. |
| HttpBackend.AnswerRound | cloudvolume/storage.py:736-754 | An answer round records the oldest request's answer, keeps the queues in step and lowers the measure. |
| HttpBackend.PipelineGets | cloudvolume/storage.py:730-756 | With a limit of at least 1, the loop ends with one record per path, answered in reverse input order. With limit 0 no request is made. |
| HttpBackend.GetFiles | cloudvolume/storage.py:692-756 | One captured record per path, in reverse input order; nothing with limit 0. |
| HttpBackend.HeadsRound | cloudvolume/storage.py:816-822 | An answer round of `files_exist` either raises the fold's error or keeps the queues and the fold in step, and lowers the measure. |
| HttpBackend.PipelineHeads | cloudvolume/storage.py:813-824 | The loop's result is the fold of the answers in request order over the all-`None` dictionary. With limit 0 it is that dictionary. |
| HttpBackend.FilesExist | cloudvolume/storage.py:774-824 | `files_exist` is the fold of the pipelined HEAD answers over the paths. |
| HttpBackend.FoldStep | cloudvolume/storage.py:820-821 | One step of the fold either raises with the answer's error or records the answer. |
| HttpBackend.FoldOkIff | cloudvolume/storage.py:816-824 | The fold returns exactly when no path's answer raises. |
| HttpBackend.FoldAnswers | cloudvolume/storage.py:813-824 | A fold that returns has answered every path in the order and left the other entries alone. |
| HttpBackend.PipelineHeadsAnswers | cloudvolume/storage.py:774-824 | With a limit of at least 1, `files_exist` returns exactly when no answer raises. Its keys are then exactly the input paths, each holding its own answer. |
| HttpBackend.AnsweredFalse | cloudvolume/storage.py:804-805 | A path answered `false` is `false` in the dictionary. |
| HttpBackend.AnswerRaises | cloudvolume/storage.py:808-809 | A path whose answer raises makes `files_exist` raise. |
| HttpBackend.FilesExistNotFound | cloudvolume/storage.py:804-805 | A path whose response is `NotFound`/`Forbidden` is answered `false`. |
| HttpBackend.FilesExistClientErrorRaises | cloudvolume/storage.py:808-809 | Another client error on one path makes the whole `files_exist` raise. |
| GrapheneApi.VersionMapEnumerates | cloudvolume/datasource/graphene/metadata.py:15-20 | `VERSION_MAP` is the inverse of `VERSION_ORDERING`. |
| GrapheneApi.LowerIdempotent | cloudvolume/datasource/graphene/metadata.py:28 | Lower-casing twice is lower-casing once. |
| GrapheneApi.MakeApiVersion | cloudvolume/datasource/graphene/metadata.py:27-32 | Construction succeeds exactly for `table` and the known versions, in any case, and holds a known version. Otherwise it raises with the lower-cased string. |
| GrapheneApi.MakeApiVersionNormalises | cloudvolume/datasource/graphene/metadata.py:27-32 | Accepted spellings are `1.0`, `v1`, `table` in any case, and `table` becomes `v1`. Construction ignores case, and rebuilding from `str(version)` gives the same version. |
| GrapheneApi.SequenceNumber | cloudvolume/datasource/graphene/metadata.py:51-52 | The sequence number is the version's position in `VERSION_ORDERING`. |
| GrapheneApi.ComparisonsAgree | cloudvolume/datasource/graphene/metadata.py:34-45 | On known versions, `==` on strings is `==` on sequence numbers. Exactly one of `<`, `==`, `>` holds, and `<=`, `>=`, `!=` mean what they say. |
| GrapheneApi.LegacyFirst | cloudvolume/datasource/graphene/metadata.py:38-39 | `1.0` is below `v1`. |
| GrapheneApi.PathShape | cloudvolume/datasource/graphene/metadata.py:54-57 | `path` is `MODALITY/1.0/DATASET` for version 1.0 and `MODALITY/api/VERSION/table/DATASET` otherwise. |
| GrapheneApi.LegacyPathShape | cloudvolume/datasource/graphene/metadata.py:62-64 | `legacy_path` is `MODALITY/1.0/DATASET`. |
| GrapheneApi.ApiVxPathShape | cloudvolume/datasource/graphene/metadata.py:66-74 | `api_vx_path` is `MODALITY/api/VERSION/table/DATASET`. |
| GrapheneApi.VersionTablePathShape | cloudvolume/datasource/graphene/metadata.py:59-60 | `table_path` of a version is `MODALITY/table/DATASET`. |
| GrapheneApi.ExtractedSegments | cloudvolume/datasource/graphene/metadata.py:305-307 | An extracted modality and dataset, like a known version, are non-empty and hold no '/'. |
| GrapheneApi.ExtractedFields | cloudvolume/datasource/graphene/metadata.py:319-335 | An extracted path keeps the URL's scheme and splits its host into subdomain and domain. |
| GrapheneApi.BasePathRestoresHost | cloudvolume/datasource/graphene/metadata.py:112-117 | For a host with a '.', `base_path` is `SCHEME://HOST/`, the host as parsed. |
| GrapheneApi.BasePathDotlessHost | cloudvolume/datasource/graphene/metadata.py:112-117 | For a host without a '.', `base_path` is `SCHEME://HOST./`. |
| GrapheneApi.BasePathEndsWithSlash | cloudvolume/datasource/graphene/metadata.py:112-117 | `base_path` ends in '/'. |
| GrapheneApi.TablePathShape | cloudvolume/datasource/graphene/metadata.py:119-121 | `table_path` is the base path followed by `MODALITY/table/DATASET`. |
| GrapheneApi.InfoPathShape | cloudvolume/datasource/graphene/metadata.py:123-126 | `info_path` is the base path followed by `MODALITY/table/DATASET/info`. |
| GrapheneApi.ListedVersions | cloudvolume/datasource/graphene/metadata.py:105-108 | The comprehension succeeds exactly when every index is valid, counting negatives from the end. It gives one version per index, `VERSION_ORDERING[i]`. |
| GrapheneApi.ListedVersionsAreMade | cloudvolume/datasource/graphene/metadata.py:105-108 | Building each listed version never raises and keeps its string. |
| GrapheneApi.SortSortsAndPermutes | cloudvolume/datasource/graphene/metadata.py:109 | The sort by sequence number permutes its input into sequence-number order. |
| GrapheneApi.SupportedVersionsSorted | cloudvolume/datasource/graphene/metadata.py:103-110 | `supported_api_versions` succeeds exactly when every index is valid. It then holds exactly the named versions, with multiplicity, oldest first. |
| GrapheneApi.SupportsApiIffNamed | cloudvolume/datasource/graphene/metadata.py:100-101 | A known version is supported exactly when some index of the info names it. |
| GrapheneApi.TableResolvesToNewest | cloudvolume/datasource/graphene/metadata.py:94-98 | With `table` in the URL, the chosen version is a supported one and no supported version is newer. |
| GrapheneApi.ExplicitVersionIgnoresInfo | cloudvolume/datasource/graphene/metadata.py:94-98 | Any other URL version is taken as written, whatever the info lists, and is accepted exactly when it is a valid version. |
| GrapheneLabel.SegidBits | cloudvolume/datasource/graphene/metadata.py:181-183 | Defined exactly for the levels in `spatial_bit_masks`; the layer bits, three coordinates and the segment id fill 64 bits. |
| GrapheneLabel.BuildMask | cloudvolume/datasource/graphene/metadata.py:160-163 | `k` rounds of `mask \|= 1; mask <<= 1` leave `LoopMask(k)`, which is `(2^k - 1) << 1` up to 63 rounds. |
| GrapheneLabel.LoopMaskIsNotLowOnes | cloudvolume/datasource/graphene/metadata.py:201-204 | The loop's mask is `(2^k - 1) * 2`: even, unlike the odd `2^k - 1`. |
| GrapheneLabel.DecodeSegid | cloudvolume/datasource/graphene/metadata.py:155-165 | `decode_segid` is the label under the loop's mask of `level_segid_bits` rounds. |
| GrapheneLabel.SegidAsWrittenIsShiftedField | cloudvolume/datasource/graphene/metadata.py:155-165 | `decode_segid` returns bits 1 to `s` of the label, left in place: `(lbl / 2 mod 2^s) * 2`. |
| GrapheneLabel.SpatialBitMasks | cloudvolume/datasource/graphene/metadata.py:198-212 | `spatial_bit_masks` returns the three masks built by the loop. |
| GrapheneLabel.MasksAsWrittenUnfolded | cloudvolume/datasource/graphene/metadata.py:198-212 | The masks are the loop's mask shifted to `s + 2ct`, `s + ct` and `s`. |
| GrapheneLabel.DecodeChunkPosition | cloudvolume/datasource/graphene/metadata.py:167-179 | `decode_chunk_position` reads x, y, z under those masks. |
| GrapheneLabel.PositionAsWrittenIsShiftedFields | cloudvolume/datasource/graphene/metadata.py:167-179 | Each coordinate is read one bit too high and comes out doubled, x from bits `s + 2ct + 1` to `s + 3ct`. |
| GrapheneLabel.DecodeLabel | cloudvolume/datasource/graphene/metadata.py:149-153 | `decode_label` succeeds exactly for a level in `spatial_bit_masks` and gathers the level, the position and the segment id. |
| GrapheneLabel.LevelIsTopByte | cloudvolume/datasource/graphene/metadata.py:185-186 | The level mask keeps the label's top byte; with the default 8 layer bits the level is that byte. |
| GrapheneLabel.ChunkIdIsField | cloudvolume/datasource/graphene/metadata.py:188-196 | `decode_chunk_id` is the label below the level byte shifted past the segment id, so it is below `2^(56 - s)`. |
| GrapheneLabel.ChunkIdIgnoresSegid | cloudvolume/datasource/graphene/metadata.py:188-196 | Labels differing only in their low `s` bits have the same level and chunk id. |
| GrapheneLabel.SegidIntendedIsLowBits | cloudvolume/datasource/graphene/metadata.py:155-165 | With the mask `2^s - 1`, the segment id is the label's low `s` bits. |
| GrapheneLabel.PositionIntendedIsFields | cloudvolume/datasource/graphene/metadata.py:167-179 | With the masks `(2^ct - 1) << p`, each coordinate is the `ct`-bit field at its place below the level byte. |
| GrapheneLabel.PositionIntendedIsLowFields | cloudvolume/datasource/graphene/metadata.py:167-179 | With at least 8 layer bits these fields read the same from the whole label. |
| GrapheneLabel.EncodedFields | cloudvolume/datasource/graphene/metadata.py:214-223 | A label packed as `layer \| X \| Y \| Z \| segid` holds each field at its place. |
| GrapheneLabel.IntendedRoundTrip | cloudvolume/datasource/graphene/metadata.py:149-179 | The intended decoders give back the level, x, y, z and segment id of an encoded label. |
| GrapheneLabel.ChunkIdRoundTrip | cloudvolume/datasource/graphene/metadata.py:188-196 | `decode_chunk_id` of an encoded label is its x, y, z packed together. |
| GrapheneLabel.SegidOffByOne | cloudvolume/datasource/graphene/metadata.py:155-165 | Label 1 at level 0 has segment id 1, but `decode_segid` returns 0. |
| GrapheneLabel.PositionOffByOne | cloudvolume/datasource/graphene/metadata.py:198-212 | Label `2^s` at level 0 has z = 1, but `decode_chunk_position` reads z as 0. |
| GrapheneMesh.DracoGridSize | cloudvolume/datasource/graphene/metadata.py:287-302 | No `mesh_metadata` raises. A uniform size is returned at any level. Otherwise the level is answered exactly when it does not exceed `max_meshed_layer` and `str(level)` has an entry, and the answer is that entry. `LevelNotMeshed` is raised exactly for a level above the maximum, with both numbers. |
| GrapheneMesh.UniformAtEveryLevel | cloudvolume/datasource/graphene/metadata.py:293-294 | A uniform size is the answer at every level, meshed or not. |
| GrapheneMesh.LevelsReadOwnEntry | cloudvolume/datasource/graphene/metadata.py:302 | Changing one level's entry leaves every other level's answer unchanged. |
| GrapheneMesh.MeshedLevelsAnswered | cloudvolume/datasource/graphene/metadata.py:295-302 | A level up to `max_meshed_layer` with an entry is answered with it. |
| GraphenePaths.Run | cloudvolume/datasource/graphene/metadata.py:305-307 | A greedy `[...]+` reads the longest prefix of its class. |
| GraphenePaths.RunHasNoSlash | cloudvolume/datasource/graphene/metadata.py:305-307 | No captured group can contain '/'. |
| GraphenePaths.Modality | cloudvolume/datasource/graphene/metadata.py:305-307 | The shared `/?(\w+)/` captures a run of word characters. |
| GraphenePaths.Dataset | cloudvolume/datasource/graphene/metadata.py:305-307 | The dataset group captures a run of `[\w\d\.\_\-]`. |
| GraphenePaths.Version | cloudvolume/datasource/graphene/metadata.py:305 | The legacy version group captures a run of `[\d\.]`. |
| GraphenePaths.FirstMatchIsFirst | cloudvolume/datasource/graphene/metadata.py:327-332 | The loop fails exactly when every scheme fails, and otherwise answers with the earliest matching scheme. |
| GraphenePaths.FirstMatchInOrder | cloudvolume/datasource/graphene/metadata.py:323-330 | The latest scheme wins, then `api/vX`, then legacy. |
| GraphenePaths.SchemesExclusive | cloudvolume/datasource/graphene/metadata.py:305-307 | No path matches two schemes, so the order of trying them never changes the result. |
| GraphenePaths.LatestMatch | cloudvolume/datasource/graphene/metadata.py:307 | `MODALITY/table/DATASET` matches the latest scheme with version `table`. |
| GraphenePaths.ApiMatch | cloudvolume/datasource/graphene/metadata.py:306 | `MODALITY/api/vX/DATASET` matches the `api/vX` scheme with version `vX` and not the latest one. |
| GraphenePaths.LegacyMatch | cloudvolume/datasource/graphene/metadata.py:305 | `MODALITY/1.0/DATASET` matches only the legacy scheme. |
| GraphenePaths.LatestPathMatches | cloudvolume/datasource/graphene/metadata.py:323-330 | A latest-endpoint path extracts its groups with version `table`. |
| GraphenePaths.ApiPathMatches | cloudvolume/datasource/graphene/metadata.py:323-330 | A newer endpoint's path extracts its groups with version `vX`. |
| GraphenePaths.LegacyPathMatches | cloudvolume/datasource/graphene/metadata.py:323-330 | A legacy path extracts its groups with its numeric version. |
| GraphenePaths.GroupsAreRuns | cloudvolume/datasource/graphene/metadata.py:334 | Any match gives non-empty runs of the groups' classes, with no '/' in modality or dataset. |
| GraphenePaths.HostParts | cloudvolume/datasource/graphene/metadata.py:320-321 | The subdomain holds no '.'. A host with a '.' is subdomain, '.', domain; without one, the subdomain is the host and the domain is empty. |
| GraphenePaths.SplitJoin | cloudvolume/datasource/graphene/metadata.py:320-321 | Joining the split pieces again gives the original string. |
| GraphenePaths.HostOf | cloudvolume/datasource/graphene/metadata.py:320-321 | `sub.domain` splits into `sub` and `domain` when `sub` has no '.'. |
| GraphenePaths.ExtractGraphenePath | cloudvolume/datasource/graphene/metadata.py:309-335 | The loop over the schemes with `break` gives the first match's path, or `UnsupportedFormatError`. |
| GraphenePaths.ApiUrlRoundTrip | cloudvolume/datasource/graphene/metadata.py:309-335 | A newer endpoint's URL is recovered whole: scheme, both halves of the host, and the groups. |
| GraphenePaths.LatestUrlRoundTrip | cloudvolume/datasource/graphene/metadata.py:309-335 | A latest endpoint's URL is recovered whole, with version `table`. |
| GraphenePaths.LegacyUrlRoundTrip | cloudvolume/datasource/graphene/metadata.py:309-335 | A legacy URL is recovered whole, with its numeric version. |
| GraphenePaths.UnmatchedIsUnsupported | cloudvolume/datasource/graphene/metadata.py:331-332 | A path no scheme reads raises `UnsupportedFormatError` with the URL. |
| GrapheneSharding.ComputeShardLocation | cloudvolume/datasource/graphene/sharding.py:4-8 | Succeeds exactly when `decode_chunk_id` does, passes on its error, and returns the specification's minishard unchanged. |
| GrapheneSharding.FilenameNamesChunkId | cloudvolume/datasource/graphene/sharding.py:6-7 | Parsing the filename gives back `decode_chunk_id(label)`. |
| GrapheneSharding.SameFileIffSameChunk | cloudvolume/datasource/graphene/sharding.py:6-7 | Two labels share a shard file exactly when their chunk ids are equal. |
| GrapheneSharding.FilenameIgnoresSegid | cloudvolume/datasource/graphene/sharding.py:6 | The label's segment id bits do not reach the filename. |
| Decimal.NatStringRoundTrip | cloudvolume/datasource/graphene/sharding.py:7 | `int(str(n)) == n`. |
| Decimal.NatStringDigits | cloudvolume/datasource/graphene/sharding.py:7 | `str(n)` is a non-empty run of digits whose first digit is 0 only for 0. |
| Decimal.NatStringInjective | cloudvolume/datasource/graphene/sharding.py:7 | Distinct numbers render differently. |
| Decimal.IntStringSign | cloudvolume/datasource/graphene/metadata.py:302 | `str(i)` starts with '-' exactly for a negative `i`, followed by the magnitude. |
| Decimal.IntStringInjective | cloudvolume/datasource/graphene/metadata.py:302 | Distinct levels have distinct keys `str(level)`. |

## Left out

- Threads, queues and the connection pools' contents (`ThreadedQueue`, `Storage`'s worker threads, `SimpleStorage`) are concurrency or duplicates; only the dispatch of `Storage.__init__` is modelled.
- The cloud SDK calls and the h2 connection are oracles: key sequences, pages, a response function, and a stream limit.
- The randomised exponential wait of the retry decorator is time only and is not modelled.
- `compression.compress` and `decompress` are oracles. `put_file`'s content-type encoding of `str` content is not modelled, since contents are bytes.
- `extract_bucket_path` and `urllib.parse.urlparse` are not modelled; the model starts from their results.
- `fetch_info` is a network call. The info's `supported_api_versions` indices and `mesh_metadata` fields are parameters.
- The `ShardingSpecification` of the precomputed format is not part of this model; its minishard number is a parameter.
- `manifest_endpoint`, `mesh_chunk_size`, `n_layers`, `mesh_path`, `cloudpath` and the other pass-through properties of `GrapheneMetadata` are not modelled.
- GoogleCloudStorageInterface and S3Interface `put_file`, `get_file`, `exists`, `files_exist` and `delete_file` are SDK calls and are not modelled.
- Facade.SelectInterface: the error carries the parsed path record itself; the text `str()` renders it as is not modelled.
- HttpBackend.FromHttpStatus: `exceptions.from_http_status` is not part of this model; each response carries the class of the exception it builds, and only 404/403 ↦ `NotFound`/`Forbidden` and the 4xx/5xx ranges of the client and server classes are stated about it.
- ObjectStoreListing.Page: a truncated S3 page without `NextContinuationToken` raises `KeyError` in the source; the model's pages always carry a token.
- Retry: only the `@retry(retry=...)` uses of the HTTP interface are tied to the seven-attempt budget; what tenacity makes of the bare `@retry` uses of the cloud interfaces is not modelled.
- FileBackend.FileInterface.PutFile: the `IOError` retry of the write is one write; `mkdir` of the directory is not modelled, since directories are not stored.
- FileBackend.Listed: `glob` and `os.walk` are approximated by a prefix test on stored keys. Symbolic links, directories without files and glob metacharacters in the prefix are left out.
- GrapheneLabel.Fits: the decoders require a layout whose shift counts lie in 0..63 and whose fields fit in 64 bits. numpy's behaviour for negative or oversized shift counts is not modelled.
- GrapheneLabel.GraphInfo: levels are keyed by number, not by the strings `str(level)` of the info; `int()` of a non-numeric entry is not modelled.
- GrapheneLabel.EncodeLabel: the encoder is a reference for the round trips; the source has none, and it covers the default 8-bit layer field only.
- GrapheneMesh.DracoGridSize: grid sizes and `max_meshed_layer` are integers; floating-point values and comparisons of other JSON types are not modelled.
- GraphenePaths.IsWordChar: `\w` and `\d` are ASCII only. Python's Unicode classes and `str.lower` beyond ASCII are not modelled.
- GraphenePaths.UnsupportedFormatError: the error carries the URL, not the message text.
- HttpBackend.FilesExistNotFound and HttpBackend.FilesExistClientErrorRaises are stated for any URL builder, of which `get_path_to_file` is one.

## Findings

| source | as written | input that shows it | evidently intended | confidence | as-written member | corrected member |
|---|---|---|---|---|---|---|
| cloudvolume/datasource/graphene/metadata.py:155-165 | `mask \|= 1; mask <<= 1` repeated `segid_bits` times gives `(2^s - 1) << 1`, so `decode_segid` drops bit 0 and keeps the lowest chunk-coordinate bit | label 1 at level 0 (segment id 1) decodes to segment id 0 | the mask `2^s - 1`, giving the label's low `s` bits | high, not executed | GrapheneLabel.SegidOffByOne | GrapheneLabel.SegidIntendedIsLowBits |
| cloudvolume/datasource/graphene/metadata.py:198-212 | the same loop gives `spatial_bit_masks` one bit too high, so `decode_chunk_position` loses each coordinate's low bit and doubles the rest | label `2^s` at level 0 (z = 1, default layout) decodes to z = 0 | masks `(2^ct - 1) << (s + k * ct)`, giving each coordinate's `ct`-bit field | high, not executed | GrapheneLabel.PositionOffByOne | GrapheneLabel.IntendedRoundTrip |

/**
 * The graphene API versions and the endpoint paths built from them
 * (`GrapheneApiVersion` and the path properties of `GrapheneMetadata`,
 * cloudvolume/datasource/graphene/metadata.py).
 */
module GrapheneApi {
  import opened Wrappers
  import opened PathOps
  import opened GraphenePaths

  /** The known versions, oldest first. */
  const VERSION_ORDERING: seq<string> := ["1.0", "v1"]

  /** Each known version's position in `VERSION_ORDERING`. */
  const VERSION_MAP: map<string, nat> := map["1.0" := 0, "v1" := 1]

  /** `VERSION_MAP` enumerates `VERSION_ORDERING`: the two are inverse. */
  lemma VersionMapEnumerates()
    ensures forall v :: v in VERSION_MAP <==> v in VERSION_ORDERING
    ensures forall i :: 0 <= i < |VERSION_ORDERING| ==> VERSION_MAP[VERSION_ORDERING[i]] == i
  {
  }

  // ---------------------------------------------------------------------------
  // Versions.

  /** `c.lower()` for ASCII letters. */
  function LowerChar(c: char): char {
    if 'A' <= c <= 'Z' then (c as int - 'A' as int + 'a' as int) as char else c
  }

  /** `s.lower()`. */
  function Lower(s: string): string {
    seq(|s|, i requires 0 <= i < |s| => LowerChar(s[i]))
  }

  /** Lower-casing twice is lower-casing once. */
  lemma LowerIdempotent(s: string)
    ensures Lower(Lower(s)) == Lower(s)
  {
  }

  /** A `GrapheneApiVersion`: the normalised version string. */
  datatype ApiVersion = ApiVersion(version: string)

  /** The ValueError of an unknown version, with the lower-cased string. */
  datatype ValueError = UnknownApiVersion(version: string)

  /** `GrapheneApiVersion(v)`. */
  function MakeApiVersion(v: string): (r: Result<ApiVersion, ValueError>)
    ensures r.Ok? <==> Lower(v) == "table" || Lower(v) in VERSION_MAP
    ensures r.Ok? ==> r.value.version in VERSION_MAP
    ensures r.Err? ==> r.error == UnknownApiVersion(Lower(v))
  {
    var version := Lower(v);
    if version == "table" then Ok(ApiVersion(VERSION_ORDERING[|VERSION_ORDERING| - 1]))
    else if version !in VERSION_MAP then Err(UnknownApiVersion(version))
    else Ok(ApiVersion(version))
  }

  /** The known version strings are already lower case. */
  lemma KnownVersionsAreLower()
    ensures Lower("1.0") == "1.0" && Lower("v1") == "v1" && Lower("table") == "table"
  {
    assert Lower("v1")[0] == 'v';
    assert Lower("table")[0] == 't';
  }

  /**
   * The accepted spellings are `1.0`, `v1` and `table` in any case; `table`
   * stands for the newest version; and the version string a
   * `GrapheneApiVersion` holds (its `str`) gives the same version again.
   */
  lemma MakeApiVersionNormalises(v: string)
    ensures MakeApiVersion(v).Ok? <==> Lower(v) in {"1.0", "v1", "table"}
    ensures Lower(v) == "table" ==> MakeApiVersion(v) == Ok(ApiVersion("v1"))
    ensures Lower(v) in VERSION_MAP ==> MakeApiVersion(v) == Ok(ApiVersion(Lower(v)))
    ensures MakeApiVersion(v).Ok? ==> MakeApiVersion(MakeApiVersion(v).value.version) == MakeApiVersion(v)
    ensures MakeApiVersion(v) == MakeApiVersion(Lower(v))
  {
    KnownVersionsAreLower();
    LowerIdempotent(v);
  }

  /** A version made by `MakeApiVersion`. */
  predicate Known(a: ApiVersion) {
    a.version in VERSION_MAP
  }

  /** `sequence_number`: the version's position in `VERSION_ORDERING`. */
  function SequenceNumber(a: ApiVersion): (n: nat)
    requires Known(a)
    ensures n < |VERSION_ORDERING| && VERSION_ORDERING[n] == a.version
  {
    VERSION_MAP[a.version]
  }

  /** `__eq__` and `__ne__` compare the version strings. */
  predicate Eq(a: ApiVersion, b: ApiVersion) {
    a.version == b.version
  }

  predicate Ne(a: ApiVersion, b: ApiVersion) {
    a.version != b.version
  }

  /** `__lt__`, `__gt__`, `__le__` and `__ge__` compare the sequence numbers. */
  predicate Lt(a: ApiVersion, b: ApiVersion)
    requires Known(a) && Known(b)
  {
    SequenceNumber(a) < SequenceNumber(b)
  }

  predicate Gt(a: ApiVersion, b: ApiVersion)
    requires Known(a) && Known(b)
  {
    SequenceNumber(a) > SequenceNumber(b)
  }

  predicate Le(a: ApiVersion, b: ApiVersion)
    requires Known(a) && Known(b)
  {
    SequenceNumber(a) <= SequenceNumber(b)
  }

  predicate Ge(a: ApiVersion, b: ApiVersion)
    requires Known(a) && Known(b)
  {
    SequenceNumber(a) >= SequenceNumber(b)
  }

  /**
   * On known versions the six comparisons agree with one another: equality of
   * the strings is equality of the sequence numbers, exactly one of `<`, `==`
   * and `>` holds, and `<=`, `>=`, `!=` are what their names say.  The legacy
   * version comes first.
   */
  lemma ComparisonsAgree(a: ApiVersion, b: ApiVersion)
    requires Known(a) && Known(b)
    ensures Eq(a, b) <==> SequenceNumber(a) == SequenceNumber(b)
    ensures Eq(a, b) <==> a == b
    ensures Ne(a, b) <==> !Eq(a, b)
    ensures Lt(a, b) || Eq(a, b) || Gt(a, b)
    ensures !(Lt(a, b) && Eq(a, b)) && !(Lt(a, b) && Gt(a, b)) && !(Eq(a, b) && Gt(a, b))
    ensures Le(a, b) <==> Lt(a, b) || Eq(a, b)
    ensures Ge(a, b) <==> Gt(a, b) || Eq(a, b)
    ensures Lt(a, b) <==> Gt(b, a)
  {
  }

  lemma LegacyFirst()
    ensures Known(ApiVersion("1.0")) && Known(ApiVersion("v1"))
    ensures Lt(ApiVersion("1.0"), ApiVersion("v1"))
  {
  }

  // ---------------------------------------------------------------------------
  // Endpoint paths.

  /** `legacy_path`: `MODALITY/1.0/DATASET`. */
  function LegacyPath(gp: GraphenePath): string {
    Join3(gp.modality, "1.0", gp.dataset)
  }

  /** `api_vx_path`: `MODALITY/api/VERSION/table/DATASET`. */
  function ApiVxPath(a: ApiVersion, gp: GraphenePath): string {
    Join(Join(Join(Join(gp.modality, "api"), a.version), "table"), gp.dataset)
  }

  /** `GrapheneApiVersion.table_path`: `MODALITY/table/DATASET`, whatever the version. */
  function VersionTablePath(a: ApiVersion, gp: GraphenePath): string {
    Join3(gp.modality, "table", gp.dataset)
  }

  /** `path`: the legacy layout for version 1.0, the api layout for any other. */
  function Path(a: ApiVersion, gp: GraphenePath): string {
    if a.version == "1.0" then LegacyPath(gp) else ApiVxPath(a, gp)
  }

  /** A path component: not empty, no '/'. */
  predicate Segment(s: string) {
    |s| > 0 && '/' !in s
  }

  /** Joining a segment onto a path that does not end in '/' puts exactly one '/' between. */
  lemma JoinSegment(a: string, b: string)
    requires |a| > 0 && !EndsWithSlash(a) && Segment(b)
    ensures Join(a, b) == a + "/" + b
    ensures !EndsWithSlash(Join(a, b))
  {
    JoinShape(a, b);
    assert b[0] in b;
    assert b[|b| - 1] in b;
    assert Join(a, b)[|Join(a, b)| - 1] == b[|b| - 1];
  }

  /** A segment does not end in '/'. */
  lemma SegmentNoSlash(s: string)
    requires Segment(s)
    ensures !EndsWithSlash(s)
  {
    assert s[|s| - 1] in s;
  }

  /** For segments, the legacy layout is `MODALITY/1.0/DATASET`. */
  lemma LegacyPathShape(gp: GraphenePath)
    requires Segment(gp.modality) && Segment(gp.dataset)
    ensures LegacyPath(gp) == gp.modality + "/1.0/" + gp.dataset
  {
    var m := gp.modality;
    SegmentNoSlash(m);
    JoinSegment(m, "1.0");
    JoinSegment(m + "/1.0", gp.dataset);
  }

  /** For segments, the api layout is `MODALITY/api/VERSION/table/DATASET`. */
  lemma ApiVxPathShape(a: ApiVersion, gp: GraphenePath)
    requires Segment(gp.modality) && Segment(gp.dataset) && Segment(a.version)
    ensures ApiVxPath(a, gp) == gp.modality + "/api/" + a.version + "/table/" + gp.dataset
  {
    var m := gp.modality;
    SegmentNoSlash(m);
    JoinSegment(m, "api");
    var p1 := Join(m, "api");
    JoinSegment(p1, a.version);
    var p2 := Join(p1, a.version);
    JoinSegment(p2, "table");
    var p3 := Join(p2, "table");
    JoinSegment(p3, gp.dataset);
  }

  /** For segments, `GrapheneApiVersion.table_path` is `MODALITY/table/DATASET`. */
  lemma VersionTablePathShape(a: ApiVersion, gp: GraphenePath)
    requires Segment(gp.modality) && Segment(gp.dataset)
    ensures VersionTablePath(a, gp) == gp.modality + "/table/" + gp.dataset
  {
    var m := gp.modality;
    SegmentNoSlash(m);
    JoinSegment(m, "table");
    JoinSegment(m + "/table", gp.dataset);
  }

  /** For segments, `path` chooses the legacy layout for version 1.0 alone. */
  lemma PathShape(a: ApiVersion, gp: GraphenePath)
    requires Segment(gp.modality) && Segment(gp.dataset) && Segment(a.version)
    ensures a.version == "1.0" ==> Path(a, gp) == gp.modality + "/1.0/" + gp.dataset
    ensures a.version != "1.0" ==> Path(a, gp) == gp.modality + "/api/" + a.version + "/table/" + gp.dataset
  {
    if a.version == "1.0" {
      LegacyPathShape(gp);
    } else {
      ApiVxPathShape(a, gp);
    }
  }

  /** A path extracted from a URL has segments for its modality and dataset, and so does a known version. */
  lemma ExtractedSegments(url: ParsedUrl, a: ApiVersion)
    requires Extracted(url).Ok? && Known(a)
    ensures Segment(Extracted(url).value.modality) && Segment(Extracted(url).value.dataset) && Segment(a.version)
  {
    GroupsAreRuns(url.path);
  }

  // ---------------------------------------------------------------------------
  // The server's base path.

  /** `base_path`: `SCHEME://SUBDOMAIN.DOMAIN/`, or `SCHEME://DOMAIN/` without a subdomain. */
  function BasePath(gp: GraphenePath): string {
    if gp.subdomain.None? then gp.scheme + "://" + gp.domain + "/"
    else gp.scheme + "://" + gp.subdomain.value + "." + gp.domain + "/"
  }

  /** `GrapheneMetadata.table_path`: the base path, then `MODALITY/table/DATASET`. */
  function TablePath(gp: GraphenePath): string {
    Join(Join(Join(BasePath(gp), gp.modality), "table"), gp.dataset)
  }

  /** `info_path`: the table path, then `info`. */
  function InfoPath(gp: GraphenePath): string {
    Join(TablePath(gp), "info")
  }

  /** What `extract_graphene_path` puts into each field. */
  lemma ExtractedFields(url: ParsedUrl)
    requires Extracted(url).Ok?
    ensures Extracted(url).value.scheme == url.scheme
    ensures Extracted(url).value.subdomain == Some(Subdomain(url.netloc))
    ensures Extracted(url).value.domain == Domain(url.netloc)
  {
  }

  /** A host with a '.', split at that '.', comes back as it was. */
  lemma BasePathOfHost(gp: GraphenePath, netloc: string)
    requires '.' in netloc && gp.subdomain == Some(Subdomain(netloc)) && gp.domain == Domain(netloc)
    ensures BasePath(gp) == gp.scheme + "://" + netloc + "/"
  {
    HostParts(netloc);
    var sub := Subdomain(netloc);
    assert gp.scheme + "://" + sub + "." + gp.domain == gp.scheme + "://" + (sub + "." + gp.domain);
  }

  /** A host without a '.' comes back with a '.' appended. */
  lemma BasePathOfDotlessHost(gp: GraphenePath, netloc: string)
    requires '.' !in netloc && gp.subdomain == Some(Subdomain(netloc)) && gp.domain == Domain(netloc)
    ensures BasePath(gp) == gp.scheme + "://" + netloc + "./"
  {
    HostParts(netloc);
  }

  /** A host with a '.' is given back as it was parsed. */
  lemma BasePathRestoresHost(url: ParsedUrl)
    requires Extracted(url).Ok? && '.' in url.netloc
    ensures BasePath(Extracted(url).value) == url.scheme + "://" + url.netloc + "/"
  {
    ExtractedFields(url);
    BasePathOfHost(Extracted(url).value, url.netloc);
  }

  /** A host without a '.' comes back with one appended: `https://localhost:8000` gives the base `https://localhost:8000./`. */
  lemma BasePathDotlessHost(url: ParsedUrl)
    requires Extracted(url).Ok? && '.' !in url.netloc
    ensures BasePath(Extracted(url).value) == url.scheme + "://" + url.netloc + "./"
  {
    ExtractedFields(url);
    BasePathOfDotlessHost(Extracted(url).value, url.netloc);
  }

  /** The base path ends in '/'. */
  lemma BasePathEndsWithSlash(gp: GraphenePath)
    ensures EndsWithSlash(BasePath(gp))
  {
  }

  /** Joining a segment onto a path that ends in '/' appends it. */
  lemma JoinAfterSlash(a: string, b: string)
    requires EndsWithSlash(a) && Segment(b)
    ensures Join(a, b) == a + b
    ensures !EndsWithSlash(a + b) && |a + b| > 0
  {
    assert b[0] in b;
    SegmentNoSlash(b);
    assert (a + b)[|a + b| - 1] == b[|b| - 1];
  }

  /** For segments, the table path is the base path followed by `MODALITY/table/DATASET`, with no trailing '/'. */
  lemma TablePathShape(gp: GraphenePath)
    requires Segment(gp.modality) && Segment(gp.dataset)
    ensures TablePath(gp) == BasePath(gp) + gp.modality + "/table/" + gp.dataset
    ensures |TablePath(gp)| > 0 && !EndsWithSlash(TablePath(gp))
  {
    var base := BasePath(gp);
    BasePathEndsWithSlash(gp);
    JoinAfterSlash(base, gp.modality);
    var p1 := base + gp.modality;
    JoinSegment(p1, "table");
    JoinSegment(p1 + "/table", gp.dataset);
  }

  /** `info` is a segment, and `/info` is `/` followed by it. */
  lemma InfoSegment()
    ensures Segment("info") && "/" + "info" == "/info"
  {
    assert "info"[0] == 'i';
  }

  /** For segments, the info path is the base path followed by `MODALITY/table/DATASET/info`. */
  lemma InfoPathShape(gp: GraphenePath)
    requires Segment(gp.modality) && Segment(gp.dataset)
    ensures InfoPath(gp) == BasePath(gp) + gp.modality + "/table/" + gp.dataset + "/info"
  {
    TablePathShape(gp);
    InfoSegment();
    JoinSegment(TablePath(gp), "info");
    assert TablePath(gp) + "/" + "info" == TablePath(gp) + ("/" + "info");
  }

  // ---------------------------------------------------------------------------
  // The versions a server supports.

  /** The errors of the version logic of `GrapheneMetadata`. */
  datatype MetadataError = ValueErr(error: ValueError) | IndexError(index: int)

  /** Whether `VERSION_ORDERING[i]` is defined, counting negative indices from the end as Python does. */
  predicate ValidIndex(i: int) {
    -|VERSION_ORDERING| <= i < |VERSION_ORDERING|
  }

  /** `VERSION_ORDERING[i]`. */
  function VersionAt(i: int): string
    requires ValidIndex(i)
  {
    if i < 0 then VERSION_ORDERING[|VERSION_ORDERING| + i] else VERSION_ORDERING[i]
  }

  /** The list comprehension of `supported_api_versions`, before sorting; the first bad index raises. */
  function ListedVersions(indices: seq<int>): (r: Result<seq<ApiVersion>, MetadataError>)
    ensures r.Ok? <==> forall j :: 0 <= j < |indices| ==> ValidIndex(indices[j])
    ensures r.Ok? ==> |r.value| == |indices|
    ensures r.Ok? ==> forall j :: 0 <= j < |indices| ==> r.value[j] == ApiVersion(VersionAt(indices[j]))
  {
    if |indices| == 0 then Ok([])
    else if !ValidIndex(indices[0]) then Err(IndexError(indices[0]))
    else
      match ListedVersions(indices[1..])
      case Err(e) => Err(e)
      case Ok(rest) => Ok([ApiVersion(VersionAt(indices[0]))] + rest)
  }

  /** Building each listed version through `GrapheneApiVersion` never raises and changes nothing. */
  lemma ListedVersionsAreMade(i: int)
    requires ValidIndex(i)
    ensures MakeApiVersion(VersionAt(i)) == Ok(ApiVersion(VersionAt(i)))
  {
    KnownVersionsAreLower();
  }

  /** Ordered by sequence number. */
  predicate SortedBySequence(s: seq<ApiVersion>)
    requires forall j :: 0 <= j < |s| ==> Known(s[j])
  {
    forall j, k :: 0 <= j < k < |s| ==> SequenceNumber(s[j]) <= SequenceNumber(s[k])
  }

  predicate AllKnown(s: seq<ApiVersion>) {
    forall j :: 0 <= j < |s| ==> Known(s[j])
  }

  /** Inserts `a` before the first element with a larger sequence number. */
  function InsertBySequence(a: ApiVersion, s: seq<ApiVersion>): (r: seq<ApiVersion>)
    requires Known(a) && AllKnown(s)
    ensures |r| == |s| + 1 && AllKnown(r)
  {
    if |s| == 0 then [a]
    else if SequenceNumber(a) <= SequenceNumber(s[0]) then [a] + s
    else [s[0]] + InsertBySequence(a, s[1..])
  }

  /** `list.sort(key=sequence_number)`, as a stable insertion sort. */
  function SortBySequence(s: seq<ApiVersion>): (r: seq<ApiVersion>)
    requires AllKnown(s)
    ensures |r| == |s| && AllKnown(r)
  {
    if |s| == 0 then [] else InsertBySequence(s[0], SortBySequence(s[1..]))
  }

  /** Insertion adds `a` to the elements. */
  lemma {:induction false} InsertPermutes(a: ApiVersion, s: seq<ApiVersion>)
    requires Known(a) && AllKnown(s)
    ensures multiset(InsertBySequence(a, s)) == multiset(s) + multiset{a}
  {
    if |s| > 0 && SequenceNumber(a) > SequenceNumber(s[0]) {
      InsertPermutes(a, s[1..]);
      assert s == [s[0]] + s[1..];
    }
  }

  /** A bound below `a` and every element of `s` is a bound below every element after insertion. */
  lemma {:induction false} InsertBounded(a: ApiVersion, s: seq<ApiVersion>, lo: nat)
    requires Known(a) && AllKnown(s)
    requires lo <= SequenceNumber(a) && forall k :: 0 <= k < |s| ==> lo <= SequenceNumber(s[k])
    ensures forall k :: 0 <= k < |s| + 1 ==> lo <= SequenceNumber(InsertBySequence(a, s)[k])
  {
    if |s| > 0 && SequenceNumber(a) > SequenceNumber(s[0]) {
      InsertBounded(a, s[1..], lo);
    }
  }

  /** Insertion into a sorted sequence leaves it sorted. */
  lemma {:induction false} InsertSorted(a: ApiVersion, s: seq<ApiVersion>)
    requires Known(a) && AllKnown(s) && SortedBySequence(s)
    ensures SortedBySequence(InsertBySequence(a, s))
  {
    if |s| > 0 {
      if SequenceNumber(a) > SequenceNumber(s[0]) {
        InsertSorted(a, s[1..]);
        InsertBounded(a, s[1..], SequenceNumber(s[0]));
      }
    }
  }

  /** Insertion keeps the elements, adds `a`, keeps the order. */
  lemma InsertKeeps(a: ApiVersion, s: seq<ApiVersion>)
    requires Known(a) && AllKnown(s) && SortedBySequence(s)
    ensures multiset(InsertBySequence(a, s)) == multiset(s) + multiset{a}
    ensures AllKnown(InsertBySequence(a, s)) && SortedBySequence(InsertBySequence(a, s))
  {
    InsertPermutes(a, s);
    InsertSorted(a, s);
  }

  /** The elements of a non-empty sequence are those of its tail and its head. */
  lemma HeadAndTail(s: seq<ApiVersion>)
    requires |s| > 0
    ensures multiset(s) == multiset(s[1..]) + multiset{s[0]}
  {
    assert s == [s[0]] + s[1..];
  }

  /** The sort permutes its input into sequence-number order. */
  lemma {:induction false} SortSortsAndPermutes(s: seq<ApiVersion>)
    requires AllKnown(s)
    ensures multiset(SortBySequence(s)) == multiset(s)
    ensures AllKnown(SortBySequence(s)) && SortedBySequence(SortBySequence(s))
  {
    if |s| > 0 {
      SortSortsAndPermutes(s[1..]);
      InsertKeeps(s[0], SortBySequence(s[1..]));
      HeadAndTail(s);
    }
  }

  /** `supported_api_versions`: the versions the info lists, oldest first. */
  function SupportedApiVersions(indices: seq<int>): Result<seq<ApiVersion>, MetadataError> {
    match ListedVersions(indices)
    case Err(e) => Err(e)
    case Ok(vs) => Ok(SortBySequence(vs))
  }

  /**
   * The supported versions are exactly the ones the info's indices name,
   * each as often as it is named, oldest first; a bad index raises.
   */
  lemma SupportedVersionsSorted(indices: seq<int>)
    ensures SupportedApiVersions(indices).Ok? <==> forall j :: 0 <= j < |indices| ==> ValidIndex(indices[j])
    ensures SupportedApiVersions(indices).Ok? ==>
      multiset(SupportedApiVersions(indices).value) == multiset(ListedVersions(indices).value)
      && AllKnown(SupportedApiVersions(indices).value) && SortedBySequence(SupportedApiVersions(indices).value)
  {
    if ListedVersions(indices).Ok? {
      SortSortsAndPermutes(ListedVersions(indices).value);
    }
  }

  /** `supports_api(version)`: the version is made first, then looked for among the supported ones. */
  function SupportsApi(version: string, indices: seq<int>): Result<bool, MetadataError> {
    match MakeApiVersion(version)
    case Err(e) => Err(ValueErr(e))
    case Ok(a) =>
      match SupportedApiVersions(indices)
      case Err(e) => Err(e)
      case Ok(vs) => Ok(a in vs)
  }

  /** A known version is supported exactly when one of the info's indices names it. */
  lemma SupportsApiIffNamed(version: string, indices: seq<int>)
    requires MakeApiVersion(version).Ok? && forall j :: 0 <= j < |indices| ==> ValidIndex(indices[j])
    ensures SupportsApi(version, indices).Ok?
    ensures SupportsApi(version, indices).value <==>
      exists j :: 0 <= j < |indices| && VersionAt(indices[j]) == MakeApiVersion(version).value.version
  {
    SupportedVersionsSorted(indices);
    var a := MakeApiVersion(version).value;
    var listed := ListedVersions(indices).value;
    var vs := SupportedApiVersions(indices).value;
    assert a in vs <==> a in listed by {
      assert a in vs <==> a in multiset(vs);
      assert a in listed <==> a in multiset(listed);
    }
    if a in listed {
      var j :| 0 <= j < |listed| && listed[j] == a;
      assert VersionAt(indices[j]) == a.version;
    }
  }

  /**
   * The version `GrapheneMetadata.__init__` settles on: the server path's
   * own, or for `table` the newest supported one (an empty list raises
   * IndexError at `[-1]`); then it goes through `GrapheneApiVersion`.  The
   * supported versions are only consulted for `table`.
   */
  function ResolveApiVersion(pathVersion: string, indices: seq<int>): Result<ApiVersion, MetadataError> {
    if pathVersion == "table" then
      match SupportedApiVersions(indices)
      case Err(e) => Err(e)
      case Ok(vs) =>
        if |vs| == 0 then Err(IndexError(-1))
        else
          match MakeApiVersion(vs[|vs| - 1].version)
          case Err(e) => Err(ValueErr(e))
          case Ok(a) => Ok(a)
    else
      match MakeApiVersion(pathVersion)
      case Err(e) => Err(ValueErr(e))
      case Ok(a) => Ok(a)
  }

  /** Making a version from a known version's string gives that version back. */
  lemma RemakeKnown(a: ApiVersion)
    requires Known(a)
    ensures MakeApiVersion(a.version) == Ok(a)
  {
    KnownVersionsAreLower();
    assert a.version == "1.0" || a.version == "v1";
  }

  /** In a list sorted by sequence number no element is newer than the last. */
  lemma LastIsNewest(vs: seq<ApiVersion>)
    requires |vs| > 0 && AllKnown(vs) && SortedBySequence(vs)
    ensures forall w :: w in vs ==> Known(w) && Le(w, vs[|vs| - 1])
  {
    forall w | w in vs
      ensures Known(w) && Le(w, vs[|vs| - 1])
    {
      var j :| 0 <= j < |vs| && vs[j] == w;
      if j < |vs| - 1 {
        assert SequenceNumber(vs[j]) <= SequenceNumber(vs[|vs| - 1]);
      }
    }
  }

  /** With `table` in the URL the newest version the server supports is chosen. */
  lemma TableResolvesToNewest(indices: seq<int>)
    requires ResolveApiVersion("table", indices).Ok?
    ensures ResolveApiVersion("table", indices).value in SupportedApiVersions(indices).value
    ensures Known(ResolveApiVersion("table", indices).value)
    ensures forall w :: w in SupportedApiVersions(indices).value ==>
      Known(w) && Le(w, ResolveApiVersion("table", indices).value)
  {
    SupportedVersionsSorted(indices);
    var vs := SupportedApiVersions(indices).value;
    RemakeKnown(vs[|vs| - 1]);
    LastIsNewest(vs);
  }

  /** Any other version in the URL is taken as written, whatever the info lists. */
  lemma ExplicitVersionIgnoresInfo(pathVersion: string, indices: seq<int>, others: seq<int>)
    requires pathVersion != "table"
    ensures ResolveApiVersion(pathVersion, indices) == ResolveApiVersion(pathVersion, others)
    ensures ResolveApiVersion(pathVersion, indices).Ok? <==> MakeApiVersion(pathVersion).Ok?
  {
  }
}

/**
 * `extract_graphene_path` (cloudvolume/datasource/graphene/metadata.py): a
 * graphene server URL split into scheme, subdomain and domain, and the
 * modality, version and dataset that the first of three URL schemes to match
 * its path names.
 */
module GraphenePaths {
  import opened Wrappers
  import opened PathOps

  /** `GraphenePath`.  The subdomain is `None` only in paths built by hand. */
  datatype GraphenePath = GraphenePath(
    scheme: string, subdomain: Option<string>, domain: string,
    modality: string, version: string, dataset: string)

  /** The parts of `urllib.parse.urlparse(url)` that are read. */
  datatype ParsedUrl = ParsedUrl(scheme: string, netloc: string, path: string)

  /** `UnsupportedFormatError`, raised when no scheme matches. */
  datatype UnsupportedFormatError = UnsupportedFormatError(url: ParsedUrl)

  /** The three groups every scheme captures. */
  datatype Groups = Groups(modality: string, version: string, dataset: string)

  // ---------------------------------------------------------------------------
  // Character classes and greedy runs.

  /** The classes the patterns use: `\w`, `[\d\.]` and `[\w\d\.\_\-]`. */
  datatype CharClass = Word | VersionChar | DatasetChar

  predicate IsWordChar(c: char) {
    'a' <= c <= 'z' || 'A' <= c <= 'Z' || '0' <= c <= '9' || c == '_'
  }

  predicate InClass(k: CharClass, c: char) {
    match k
    case Word => IsWordChar(c)
    case VersionChar => '0' <= c <= '9' || c == '.'
    case DatasetChar => IsWordChar(c) || c == '.' || c == '-'
  }

  /** A non-empty run of class `k`: what a `[...]+` group captures. */
  predicate IsRun(k: CharClass, s: string) {
    |s| > 0 && forall i :: 0 <= i < |s| ==> InClass(k, s[i])
  }

  /** How far a greedy `[...]+` of class `k` reads into `s`. */
  function Run(k: CharClass, s: string): (n: nat)
    ensures n <= |s|
    ensures forall i :: 0 <= i < n ==> InClass(k, s[i])
    ensures n < |s| ==> !InClass(k, s[n])
  {
    if |s| > 0 && InClass(k, s[0]) then 1 + Run(k, s[1..]) else 0
  }

  /** A greedy run stops exactly at the end of a run followed by a character outside the class. */
  lemma {:induction false} RunOfRun(k: CharClass, a: string, b: string)
    requires forall i :: 0 <= i < |a| ==> InClass(k, a[i])
    requires |b| == 0 || !InClass(k, b[0])
    ensures Run(k, a + b) == |a|
  {
    if |a| > 0 {
      assert (a + b)[1..] == a[1..] + b;
      RunOfRun(k, a[1..], b);
    } else {
      assert a + b == b;
    }
  }

  /** No class contains '/', so no captured group does. */
  lemma RunHasNoSlash(k: CharClass, s: string)
    requires IsRun(k, s)
    ensures '/' !in s
  {
  }

  // ---------------------------------------------------------------------------
  // The three schemes, as `re.match` runs them on the URL's path.

  /**
   * The part the three patterns share, `/?(\w+)/`: the modality and the text
   * after its '/'.  Every character class is closed under greedy reading and
   * none contains '/', so the first successful way to match is the greedy one.
   */
  function Modality(p: string): (r: Option<(string, string)>)
    ensures r.Some? ==> IsRun(Word, r.value.0)
  {
    var rest := if |p| > 0 && p[0] == '/' then p[1..] else p;
    var m := Run(Word, rest);
    if 0 < m < |rest| && rest[m] == '/' then Some((rest[..m], rest[m + 1..])) else None
  }

  /** The closing `([\w\d\.\_\-]+)/?`: the dataset, with whatever follows it ignored. */
  function Dataset(s: string): (r: Option<string>)
    ensures r.Some? ==> IsRun(DatasetChar, r.value)
  {
    var d := Run(DatasetChar, s);
    if d > 0 then Some(s[..d]) else None
  }

  /** A `[\d\.]+` up to a '/': the version and the text after the '/'. */
  function Version(s: string): (r: Option<(string, string)>)
    ensures r.Some? ==> IsRun(VersionChar, r.value.0)
  {
    var k := Run(VersionChar, s);
    if 0 < k < |s| && s[k] == '/' then Some((s[..k], s[k + 1..])) else None
  }

  /** `LATEST_API_EXTRACTION_RE`, `/?(\w+)/(table)/([\w\d\.\_\-]+)/?`. */
  function MatchLatest(p: string): Option<Groups> {
    match Modality(p)
    case None => None
    case Some((m, after)) =>
      if IsPrefix("table/", after) then
        match Dataset(after[6..])
        case None => None
        case Some(d) => Some(Groups(m, "table", d))
      else None
  }

  /** `API_VX_EXTRACTION_RE`, `/?(\w+)/api/(v[\d\.]+)/([\w\d\.\_\-]+)/?`. */
  function MatchApi(p: string): Option<Groups> {
    match Modality(p)
    case None => None
    case Some((m, after)) =>
      if IsPrefix("api/v", after) then
        match Version(after[5..])
        case None => None
        case Some((v, tail)) =>
          match Dataset(tail)
          case None => None
          case Some(d) => Some(Groups(m, "v" + v, d))
      else None
  }

  /** `LEGACY_EXTRACTION_RE`, `/?(\w+)/([\d\.]+)/([\w\d\.\_\-]+)/?`. */
  function MatchLegacy(p: string): Option<Groups> {
    match Modality(p)
    case None => None
    case Some((m, after)) =>
      match Version(after)
      case None => None
      case Some((v, tail)) =>
        match Dataset(tail)
        case None => None
        case Some(d) => Some(Groups(m, v, d))
  }

  /** The three patterns. */
  datatype Scheme = LatestApi | ApiVx | Legacy

  /** The order `extract_graphene_path` tries them in. */
  const SCHEMES: seq<Scheme> := [LatestApi, ApiVx, Legacy]

  function Match(scheme: Scheme, p: string): Option<Groups> {
    match scheme
    case LatestApi => MatchLatest(p)
    case ApiVx => MatchApi(p)
    case Legacy => MatchLegacy(p)
  }

  /** The groups of the first scheme in `schemes` that matches `p`. */
  function FirstMatch(schemes: seq<Scheme>, p: string): Option<Groups> {
    if |schemes| == 0 then None
    else if Match(schemes[0], p).Some? then Match(schemes[0], p)
    else FirstMatch(schemes[1..], p)
  }

  /** `FirstMatch` fails only when every scheme fails, and otherwise answers with the earliest scheme that matches. */
  lemma {:induction false} FirstMatchIsFirst(schemes: seq<Scheme>, p: string)
    ensures FirstMatch(schemes, p).None? <==> forall i :: 0 <= i < |schemes| ==> Match(schemes[i], p).None?
    ensures FirstMatch(schemes, p).Some? ==>
      exists i :: 0 <= i < |schemes| && Match(schemes[i], p) == FirstMatch(schemes, p)
                  && forall j :: 0 <= j < i ==> Match(schemes[j], p).None?
  {
    if |schemes| == 0 {
    } else if Match(schemes[0], p).Some? {
      assert FirstMatch(schemes, p) == Match(schemes[0], p);
    } else {
      var rest := schemes[1..];
      FirstMatchIsFirst(rest, p);
      assert FirstMatch(schemes, p) == FirstMatch(rest, p);
      assert forall i :: 1 <= i < |schemes| ==> schemes[i] == rest[i - 1];
      if FirstMatch(rest, p).Some? {
        var i :| 0 <= i < |rest| && Match(rest[i], p) == FirstMatch(rest, p)
                 && forall j :: 0 <= j < i ==> Match(rest[j], p).None?;
        assert Match(schemes[i + 1], p) == FirstMatch(schemes, p);
      }
    }
  }

  /** For the source's order: a latest-endpoint match wins, then a newer-endpoint one, then a legacy one. */
  lemma FirstMatchInOrder(p: string)
    ensures FirstMatch(SCHEMES, p) ==
      if MatchLatest(p).Some? then MatchLatest(p)
      else if MatchApi(p).Some? then MatchApi(p)
      else MatchLegacy(p)
  {
    var later := SCHEMES[1..];
    var last := later[1..];
    assert SCHEMES[0] == LatestApi && later == [ApiVx, Legacy];
    assert later[0] == ApiVx && last == [Legacy];
    assert last[0] == Legacy && last[1..] == [];
    assert FirstMatch(last, p) == if MatchLegacy(p).Some? then MatchLegacy(p) else FirstMatch(last[1..], p);
    assert FirstMatch(later, p) == if MatchApi(p).Some? then MatchApi(p) else FirstMatch(last, p);
  }

  /** `pre + rest` starts with `pre`, and what follows it is `rest`. */
  lemma PrefixOf(pre: string, rest: string)
    ensures IsPrefix(pre, pre + rest) && (pre + rest)[|pre|..] == rest
  {
    assert (pre + rest)[..|pre|] == pre;
  }

  /** A string whose first character differs from that of `pre` does not start with `pre`. */
  lemma NotPrefix(pre: string, s: string)
    requires |pre| > 0 && |s| > 0 && s[0] != pre[0]
    ensures !IsPrefix(pre, s)
  {
    if |pre| <= |s| {
      assert s[..|pre|][0] == s[0];
    }
  }

  // ---------------------------------------------------------------------------
  // The host.

  /** Index of the first `c` in `s`, or -1. */
  function IndexOf(s: string, c: char): (r: int)
    ensures -1 <= r < |s|
    ensures r >= 0 ==> s[r] == c
    ensures forall j :: 0 <= j < |s| && (r < 0 || j < r) ==> s[j] != c
  {
    if |s| == 0 then -1
    else if s[0] == c then 0
    else
      var r := IndexOf(s[1..], c);
      if r < 0 then -1 else r + 1
  }

  /** `s.split(c)`: the pieces between the occurrences of `c`, at least one. */
  function Split(s: string, c: char): (parts: seq<string>)
    ensures |parts| >= 1
    decreases |s|
  {
    var i := IndexOf(s, c);
    if i < 0 then [s] else [s[..i]] + Split(s[i + 1..], c)
  }

  /** `c.join(parts)`. */
  function JoinWith(c: char, parts: seq<string>): string {
    if |parts| == 0 then ""
    else if |parts| == 1 then parts[0]
    else parts[0] + [c] + JoinWith(c, parts[1..])
  }

  /** A string is cut around one of its characters. */
  lemma CutAt(s: string, i: int, c: char)
    requires 0 <= i < |s| && s[i] == c
    ensures s == s[..i] + [c] + s[i + 1..]
  {
  }

  /** When `c` occurs, the first piece ends at its first occurrence and the rest is the split of what follows. */
  lemma SplitAtFirst(s: string, c: char)
    requires IndexOf(s, c) >= 0
    ensures Split(s, c)[0] == s[..IndexOf(s, c)]
    ensures Split(s, c)[1..] == Split(s[IndexOf(s, c) + 1..], c)
  {
    var i := IndexOf(s, c);
    assert Split(s, c) == [s[..i]] + Split(s[i + 1..], c);
  }

  /** The first piece holds no separator. */
  lemma FirstPieceHasNoSeparator(s: string, c: char)
    ensures c !in Split(s, c)[0]
  {
    if IndexOf(s, c) >= 0 {
      SplitAtFirst(s, c);
    }
  }

  /** Joining at least two pieces puts one separator after the first. */
  lemma JoinFirst(c: char, parts: seq<string>)
    requires |parts| >= 2
    ensures JoinWith(c, parts) == parts[0] + [c] + JoinWith(c, parts[1..])
  {
  }

  /** Splitting and joining again restores the string. */
  lemma {:induction false} SplitJoin(s: string, c: char)
    ensures JoinWith(c, Split(s, c)) == s
    decreases |s|
  {
    var i := IndexOf(s, c);
    if i >= 0 {
      var parts := Split(s, c);
      SplitAtFirst(s, c);
      SplitJoin(s[i + 1..], c);
      JoinFirst(c, parts);
      CutAt(s, i, c);
    }
  }

  /** `netloc.split('.')[0]`. */
  function Subdomain(netloc: string): string {
    Split(netloc, '.')[0]
  }

  /** `'.'.join(netloc.split('.')[1:])`. */
  function Domain(netloc: string): string {
    JoinWith('.', Split(netloc, '.')[1..])
  }

  /** The subdomain is the host up to its first '.', the domain everything after that '.'. */
  lemma HostParts(netloc: string)
    ensures '.' !in Subdomain(netloc)
    ensures '.' in netloc ==> netloc == Subdomain(netloc) + "." + Domain(netloc)
    ensures '.' !in netloc ==> Subdomain(netloc) == netloc && Domain(netloc) == ""
  {
    FirstPieceHasNoSeparator(netloc, '.');
    var i := IndexOf(netloc, '.');
    if i >= 0 {
      SplitAtFirst(netloc, '.');
      SplitJoin(netloc[i + 1..], '.');
      CutAt(netloc, i, '.');
    }
  }

  // ---------------------------------------------------------------------------
  // extract_graphene_path.

  /** What `extract_graphene_path` returns for a URL that parses to `url`. */
  function Extracted(url: ParsedUrl): Result<GraphenePath, UnsupportedFormatError> {
    match FirstMatch(SCHEMES, url.path)
    case None => Err(UnsupportedFormatError(url))
    case Some(g) =>
      Ok(GraphenePath(url.scheme, Some(Subdomain(url.netloc)), Domain(url.netloc), g.modality, g.version, g.dataset))
  }

  /** `extract_graphene_path`: the schemes are tried in order and the first match is taken. */
  method ExtractGraphenePath(url: ParsedUrl) returns (r: Result<GraphenePath, UnsupportedFormatError>)
    ensures r == Extracted(url)
  {
    var found: Option<Groups> := None;
    var i := 0;
    while i < |SCHEMES|
      invariant 0 <= i <= |SCHEMES|
      invariant found.None? ==> FirstMatch(SCHEMES, url.path) == FirstMatch(SCHEMES[i..], url.path)
      invariant found.Some? ==> found == FirstMatch(SCHEMES, url.path)
    {
      var m := Match(SCHEMES[i], url.path);
      if m.Some? {
        assert FirstMatch(SCHEMES[i..], url.path) == m;
        found := m;
        break;
      }
      assert SCHEMES[i..][1..] == SCHEMES[i + 1..];
      i := i + 1;
    }
    if found.None? {
      assert SCHEMES[i..] == [];
      return Err(UnsupportedFormatError(url));
    }
    var g := found.value;
    r := Ok(GraphenePath(url.scheme, Some(Subdomain(url.netloc)), Domain(url.netloc), g.modality, g.version, g.dataset));
  }

  // ---------------------------------------------------------------------------
  // What the schemes accept.

  /** The pieces of a URL path: an optional leading '/' and the text after it. */
  predicate Lead(lead: string) {
    lead == "" || lead == "/"
  }

  /** A character that ends the dataset group: the end of the path or anything outside `[\w\d\.\_\-]`. */
  predicate EndsDataset(tail: string) {
    |tail| == 0 || !InClass(DatasetChar, tail[0])
  }

  lemma ModalityOf(lead: string, m: string, after: string)
    requires Lead(lead) && IsRun(Word, m)
    ensures Modality(lead + m + "/" + after) == Some((m, after))
  {
    var p := lead + m + "/" + after;
    var rest := m + "/" + after;
    assert (if |p| > 0 && p[0] == '/' then p[1..] else p) == rest by {
      if lead == "/" {
        assert p == "/" + rest;
      } else {
        assert p == rest;
      }
    }
    RunOfRun(Word, m, "/" + after);
    assert m + "/" + after == m + ("/" + after);
    assert rest[..|m|] == m;
    assert rest[|m| + 1..] == after;
  }

  lemma DatasetOf(d: string, tail: string)
    requires IsRun(DatasetChar, d) && EndsDataset(tail)
    ensures Dataset(d + tail) == Some(d)
  {
    RunOfRun(DatasetChar, d, tail);
    assert (d + tail)[..|d|] == d;
  }

  lemma VersionOf(v: string, after: string)
    requires IsRun(VersionChar, v)
    ensures Version(v + "/" + after) == Some((v, after))
  {
    RunOfRun(VersionChar, v, "/" + after);
    assert v + "/" + after == v + ("/" + after);
    assert (v + "/" + after)[..|v|] == v;
    assert (v + "/" + after)[|v| + 1..] == after;
  }

  /** The latest-endpoint scheme reads `MODALITY/table/DATASET`. */
  lemma LatestMatch(p: string, lead: string, m: string, d: string, tail: string)
    requires Lead(lead) && IsRun(Word, m) && IsRun(DatasetChar, d) && EndsDataset(tail)
    requires p == lead + m + "/" + ("table/" + (d + tail))
    ensures MatchLatest(p) == Some(Groups(m, "table", d))
  {
    var after := "table/" + (d + tail);
    ModalityOf(lead, m, after);
    PrefixOf("table/", d + tail);
    DatasetOf(d, tail);
  }

  /** The newer-endpoint scheme reads `MODALITY/api/vX/DATASET`, which the latest-endpoint scheme rejects. */
  lemma ApiMatch(p: string, lead: string, m: string, v: string, d: string, tail: string)
    requires Lead(lead) && IsRun(Word, m) && IsRun(VersionChar, v) && IsRun(DatasetChar, d) && EndsDataset(tail)
    requires p == lead + m + "/" + ("api/v" + (v + "/" + (d + tail)))
    ensures MatchLatest(p).None?
    ensures MatchApi(p) == Some(Groups(m, "v" + v, d))
  {
    var after := "api/v" + (v + "/" + (d + tail));
    ModalityOf(lead, m, after);
    NotPrefix("table/", after);
    PrefixOf("api/v", v + "/" + (d + tail));
    VersionOf(v, d + tail);
    DatasetOf(d, tail);
  }

  /** The legacy scheme reads `MODALITY/1.0/DATASET`, which both newer schemes reject. */
  lemma LegacyMatch(p: string, lead: string, m: string, v: string, d: string, tail: string)
    requires Lead(lead) && IsRun(Word, m) && IsRun(VersionChar, v) && IsRun(DatasetChar, d) && EndsDataset(tail)
    requires p == lead + m + "/" + (v + "/" + (d + tail))
    ensures MatchLatest(p).None? && MatchApi(p).None?
    ensures MatchLegacy(p) == Some(Groups(m, v, d))
  {
    var after := v + "/" + (d + tail);
    ModalityOf(lead, m, after);
    assert after[0] == v[0];
    NotPrefix("table/", after);
    NotPrefix("api/v", after);
    VersionOf(v, d + tail);
    DatasetOf(d, tail);
  }

  /** A latest-endpoint path, `/MODALITY/table/DATASET`, names its modality and dataset, with version `table`. */
  lemma LatestPathMatches(lead: string, m: string, d: string, tail: string)
    requires Lead(lead) && IsRun(Word, m) && IsRun(DatasetChar, d) && EndsDataset(tail)
    ensures FirstMatch(SCHEMES, lead + m + "/table/" + d + tail) == Some(Groups(m, "table", d))
  {
    var p := lead + m + "/table/" + d + tail;
    assert p == lead + m + "/" + ("table/" + (d + tail));
    LatestMatch(p, lead, m, d, tail);
    FirstMatchInOrder(p);
  }

  /** A newer endpoint's path, `/MODALITY/api/vX/DATASET`, is not taken for a latest one and names its version `vX`. */
  lemma ApiPathMatches(lead: string, m: string, v: string, d: string, tail: string)
    requires Lead(lead) && IsRun(Word, m) && IsRun(VersionChar, v) && IsRun(DatasetChar, d) && EndsDataset(tail)
    ensures FirstMatch(SCHEMES, lead + m + "/api/v" + v + "/" + d + tail) == Some(Groups(m, "v" + v, d))
  {
    var p := lead + m + "/api/v" + v + "/" + d + tail;
    assert p == lead + m + "/" + ("api/v" + (v + "/" + (d + tail)));
    ApiMatch(p, lead, m, v, d, tail);
    FirstMatchInOrder(p);
  }

  /** A legacy path, `/MODALITY/1.0/DATASET`, is taken by neither newer scheme and names its numeric version. */
  lemma LegacyPathMatches(lead: string, m: string, v: string, d: string, tail: string)
    requires Lead(lead) && IsRun(Word, m) && IsRun(VersionChar, v) && IsRun(DatasetChar, d) && EndsDataset(tail)
    ensures FirstMatch(SCHEMES, lead + m + "/" + v + "/" + d + tail) == Some(Groups(m, v, d))
  {
    var p := lead + m + "/" + v + "/" + d + tail;
    assert p == lead + m + "/" + (v + "/" + (d + tail));
    LegacyMatch(p, lead, m, v, d, tail);
    FirstMatchInOrder(p);
  }

  /** A host with a '.' splits at its first '.'. */
  lemma HostOf(sub: string, domain: string)
    requires '.' !in sub
    ensures Subdomain(sub + "." + domain) == sub && Domain(sub + "." + domain) == domain
  {
    var netloc := sub + "." + domain;
    assert netloc[|sub|] == '.';
    var i := IndexOf(netloc, '.');
    assert i == |sub|;
    assert netloc[..i] == sub;
    assert netloc[i + 1..] == domain;
    SplitJoin(domain, '.');
    assert Split(netloc, '.')[1..] == Split(domain, '.');
  }

  /** The whole of a newer endpoint's URL is recovered: scheme, both halves of the host, and the three groups. */
  lemma ApiUrlRoundTrip(scheme: string, sub: string, domain: string, m: string, v: string, d: string)
    requires '.' !in sub && IsRun(Word, m) && IsRun(VersionChar, v) && IsRun(DatasetChar, d)
    ensures Extracted(ParsedUrl(scheme, sub + "." + domain, "/" + m + "/api/v" + v + "/" + d))
            == Ok(GraphenePath(scheme, Some(sub), domain, m, "v" + v, d))
  {
    HostOf(sub, domain);
    assert "/" + m + "/api/v" + v + "/" + d == "/" + m + "/api/v" + v + "/" + d + "";
    ApiPathMatches("/", m, v, d, "");
  }

  /** What a group of the three schemes holds: a modality of word characters, a version, a dataset, none with a '/'. */
  predicate WellFormedGroups(g: Groups) {
    IsRun(Word, g.modality) && IsRun(DatasetChar, g.dataset)
    && |g.version| > 0 && '/' !in g.version
  }

  lemma LatestGroups(p: string)
    requires MatchLatest(p).Some?
    ensures WellFormedGroups(MatchLatest(p).value)
  {
  }

  lemma ApiGroups(p: string)
    requires MatchApi(p).Some?
    ensures WellFormedGroups(MatchApi(p).value)
  {
    var after := Modality(p).value.1;
    var v := Version(after[5..]).value.0;
    RunHasNoSlash(VersionChar, v);
    assert MatchApi(p).value.version == "v" + v;
  }

  lemma LegacyGroups(p: string)
    requires MatchLegacy(p).Some?
    ensures WellFormedGroups(MatchLegacy(p).value)
  {
    var after := Modality(p).value.1;
    RunHasNoSlash(VersionChar, Version(after).value.0);
  }

  /** Whatever the scheme, the captured groups are non-empty runs of their classes, and none holds a '/'. */
  lemma GroupsAreRuns(p: string)
    requires FirstMatch(SCHEMES, p).Some?
    ensures WellFormedGroups(FirstMatch(SCHEMES, p).value)
    ensures '/' !in FirstMatch(SCHEMES, p).value.modality && '/' !in FirstMatch(SCHEMES, p).value.dataset
  {
    FirstMatchInOrder(p);
    var g := FirstMatch(SCHEMES, p).value;
    if MatchLatest(p).Some? {
      LatestGroups(p);
    } else if MatchApi(p).Some? {
      ApiGroups(p);
    } else {
      LegacyGroups(p);
    }
    RunHasNoSlash(Word, g.modality);
    RunHasNoSlash(DatasetChar, g.dataset);
  }

  /** A prefix fixes the first character. */
  lemma PrefixHead(pre: string, s: string)
    requires |pre| > 0 && IsPrefix(pre, s)
    ensures s[0] == pre[0]
  {
    assert s[..|pre|][0] == s[0];
  }

  /**
   * No path matches two of the schemes: after the modality a latest-endpoint
   * path goes on with 't', a newer one with 'a', a legacy one with a digit or
   * '.'.  So the order in which the schemes are tried never decides the result.
   */
  lemma SchemesExclusive(p: string)
    ensures MatchLatest(p).Some? ==> MatchApi(p).None? && MatchLegacy(p).None?
    ensures MatchApi(p).Some? ==> MatchLegacy(p).None?
  {
    if Modality(p).Some? {
      var after := Modality(p).value.1;
      if IsPrefix("table/", after) {
        PrefixHead("table/", after);
        NotPrefix("api/v", after);
      }
      if IsPrefix("api/v", after) {
        PrefixHead("api/v", after);
      }
    }
  }

  /** The latest endpoint's URL is recovered whole, with version `table`. */
  lemma LatestUrlRoundTrip(scheme: string, sub: string, domain: string, m: string, d: string)
    requires '.' !in sub && IsRun(Word, m) && IsRun(DatasetChar, d)
    ensures Extracted(ParsedUrl(scheme, sub + "." + domain, "/" + m + "/table/" + d))
            == Ok(GraphenePath(scheme, Some(sub), domain, m, "table", d))
  {
    HostOf(sub, domain);
    assert "/" + m + "/table/" + d == "/" + m + "/table/" + d + "";
    LatestPathMatches("/", m, d, "");
  }

  /** A legacy URL is recovered whole, with its numeric version. */
  lemma LegacyUrlRoundTrip(scheme: string, sub: string, domain: string, m: string, v: string, d: string)
    requires '.' !in sub && IsRun(Word, m) && IsRun(VersionChar, v) && IsRun(DatasetChar, d)
    ensures Extracted(ParsedUrl(scheme, sub + "." + domain, "/" + m + "/" + v + "/" + d))
            == Ok(GraphenePath(scheme, Some(sub), domain, m, v, d))
  {
    HostOf(sub, domain);
    assert "/" + m + "/" + v + "/" + d == "/" + m + "/" + v + "/" + d + "";
    LegacyPathMatches("/", m, v, d, "");
  }

  /** A path that none of the schemes reads is refused with the URL. */
  lemma UnmatchedIsUnsupported(url: ParsedUrl)
    requires MatchLatest(url.path).None? && MatchApi(url.path).None? && MatchLegacy(url.path).None?
    ensures Extracted(url) == Err(UnsupportedFormatError(url))
  {
    FirstMatchInOrder(url.path);
  }
}

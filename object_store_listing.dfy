/**
 * `list_files` of the cloud object stores (cloudvolume/storage.py,
 * `GoogleCloudStorageInterface` and `S3Interface`).  The store returns the keys
 * under `join(layer_path, prefix)`; the client strips the layer path from each
 * key and yields it, or skips it, by the flat or the recursive test.  The
 * listing is a generator: an `IndexError` raised for one key ends it, after the
 * names already yielded.  S3 answers in pages that are requested one after
 * another while the previous page says it was truncated.
 *
 * The store's answers are oracles: the sequence of keys (GCS) or of pages (S3).
 */
module ObjectStoreListing {
  import opened Wrappers
  import opened PathOps
  import opened Collecting

  /** `get_path_to_file("")` of both backends. */
  function LayerPath(path: string): string {
    Join(path, "")
  }

  /** What the listing filter does with one key. */
  datatype Verdict = Yield(name: string) | Skip | RaiseIndexError

  /**
   * The filter of both backends for `key`, with `layerPath` the layer path and
   * `listPath` the listed prefix `join(layer_path, prefix)`.  The recursive test
   * reads the last character of the stripped name, which raises `IndexError`
   * when the name is empty.
   */
  function Judge(layerPath: string, listPath: string, flat: bool, key: string): Verdict {
    var filename := RemoveAll(key, layerPath);
    if !flat then
      if filename == [] then RaiseIndexError
      else if filename[|filename| - 1] != '/' then Yield(filename)
      else Skip
    else if '/' !in RemoveAll(key, listPath) then Yield(filename)
    else Skip
  }

  /** What a consumer of the generator receives: the names yielded, and whether `IndexError` ended it. */
  datatype Listing = Listing(names: seq<string>, raised: bool)

  /** The generator over `keys`, judged one by one. */
  function Filter(judge: string -> Verdict, keys: seq<string>): Listing {
    if keys == [] then Listing([], false)
    else
      match judge(keys[0])
      case RaiseIndexError => Listing([], true)
      case Skip => Filter(judge, keys[1..])
      case Yield(n) => var rest := Filter(judge, keys[1..]); Listing([n] + rest.names, rest.raised)
  }

  /** The name a verdict yields, if any. */
  function YieldedName(v: Verdict): Option<string> {
    if v.Yield? then Some(v.name) else None
  }

  /** The position of the first key the filter raises on, or `|keys|`. */
  function FirstRaise(judge: string -> Verdict, keys: seq<string>): (j: nat)
    ensures j <= |keys|
    ensures forall i :: 0 <= i < j ==> !judge(keys[i]).RaiseIndexError?
    ensures j < |keys| ==> judge(keys[j]).RaiseIndexError?
  {
    if keys == [] then 0
    else if judge(keys[0]).RaiseIndexError? then 0
    else 1 + FirstRaise(judge, keys[1..])
  }

  /**
   * What the generator produces: the names of the selected keys before the
   * first key that raises, and whether there is such a key.
   */
  lemma {:induction false} FilterIsCollectBeforeFirstRaise(judge: string -> Verdict, keys: seq<string>)
    ensures var j := FirstRaise(judge, keys);
      Filter(judge, keys) == Listing(Collect(k => YieldedName(judge(k)), keys[..j]), j < |keys|)
  {
    var entry := k => YieldedName(judge(k));
    if keys != [] {
      var j := FirstRaise(judge, keys);
      if judge(keys[0]).RaiseIndexError? {
        assert keys[..j] == [];
      } else {
        var t := keys[..j];
        FilterIsCollectBeforeFirstRaise(judge, keys[1..]);
        assert FirstRaise(judge, keys[1..]) == j - 1;
        assert t[1..] == keys[1..][..j - 1];
        assert t[0] == keys[0];
        var rest := Filter(judge, keys[1..]);
        assert rest == Listing(Collect(entry, t[1..]), j < |keys|);
        assert Collect(entry, t) == Emit(entry(keys[0])) + Collect(entry, t[1..]);
        if judge(keys[0]).Skip? {
          assert Emit(entry(keys[0])) == [];
        } else {
          assert Emit(entry(keys[0])) == [judge(keys[0]).name];
        }
      }
    }
  }

  /** The generator raises exactly when some key raises. */
  lemma FilterRaisesIff(judge: string -> Verdict, keys: seq<string>)
    ensures Filter(judge, keys).raised <==> exists i :: 0 <= i < |keys| && judge(keys[i]).RaiseIndexError?
  {
    FilterIsCollectBeforeFirstRaise(judge, keys);
  }

  /** Listing the keys of two pages one after the other: the second is only listed when the first did not raise. */
  lemma {:induction false} FilterConcat(judge: string -> Verdict, a: seq<string>, b: seq<string>)
    ensures var la, lb := Filter(judge, a), Filter(judge, b);
      Filter(judge, a + b) == if la.raised then la else Listing(la.names + lb.names, lb.raised)
  {
    if a == [] {
      assert a + b == b;
    } else {
      assert (a + b)[0] == a[0];
      assert (a + b)[1..] == a[1..] + b;
      FilterConcat(judge, a[1..], b);
    }
  }

  // ---------------------------------------------------------------------------
  // The filter on keys of the shape the store returns.

  /**
   * Recursive listing: a key made of the layer path and a tail in which the
   * layer path does not recur is yielded under that tail exactly when the tail
   * does not end in '/'; a key equal to the layer path raises.
   */
  lemma RecursiveVerdict(layerPath: string, listPath: string, tail: string)
    requires |layerPath| > 0 && !Occurs(layerPath, tail)
    ensures var v := Judge(layerPath, listPath, false, layerPath + tail);
      (v == RaiseIndexError <==> tail == [])
      && (v == Yield(tail) <==> tail != [] && tail[|tail| - 1] != '/')
      && (v == Skip <==> EndsWithSlash(tail))
  {
    RemoveAllLeading(layerPath, tail);
  }

  /**
   * Flat listing: a key made of the listed path and a tail in which neither
   * path recurs is yielded, under the listed prefix and the tail, exactly when
   * the tail holds no '/'.
   */
  lemma FlatVerdict(layerPath: string, prefix: string, tail: string)
    requires |layerPath| > 0 && !Occurs(layerPath, prefix + tail) && !Occurs(layerPath + prefix, tail)
    ensures var v := Judge(layerPath, layerPath + prefix, true, layerPath + prefix + tail);
      (v == Yield(prefix + tail) <==> '/' !in tail)
      && (v == Skip <==> '/' in tail)
  {
    var key := layerPath + prefix + tail;
    assert key == layerPath + (prefix + tail);
    RemoveAllLeading(layerPath, prefix + tail);
    RemoveAllLeading(layerPath + prefix, tail);
  }

  /**
   * The flat listing of "a/" over the keys "a/b/c", "a/b/d" and "a/e" of the
   * layer yields only "a/e": subdirectories are not reported.
   */
  lemma FlatListingSkipsSubdirectories(layerPath: string)
    requires |layerPath| > 0
    requires !Occurs(layerPath, "a/b/c") && !Occurs(layerPath, "a/b/d") && !Occurs(layerPath, "a/e")
    requires !Occurs(layerPath + "a/", "b/c") && !Occurs(layerPath + "a/", "b/d") && !Occurs(layerPath + "a/", "e")
    ensures Filter(k => Judge(layerPath, layerPath + "a/", true, k),
                   [layerPath + "a/" + "b/c", layerPath + "a/" + "b/d", layerPath + "a/" + "e"])
            == Listing(["a/e"], false)
  {
    var judge := k => Judge(layerPath, layerPath + "a/", true, k);
    var k1, k2, k3 := layerPath + "a/" + "b/c", layerPath + "a/" + "b/d", layerPath + "a/" + "e";
    assert "a/" + "b/c" == "a/b/c" && "a/" + "b/d" == "a/b/d" && "a/" + "e" == "a/e";
    FlatVerdict(layerPath, "a/", "b/c");
    FlatVerdict(layerPath, "a/", "b/d");
    FlatVerdict(layerPath, "a/", "e");
    assert "b/c"[1] == '/' && "b/d"[1] == '/';
    assert judge(k1) == Skip && judge(k2) == Skip && judge(k3) == Yield("a/e");
    FilterConcat(judge, [k1, k2], [k3]);
    FilterConcat(judge, [k1], [k2]);
    FilterOne(judge, k1);
    FilterOne(judge, k2);
    FilterOne(judge, k3);
    assert [k1, k2] + [k3] == [k1, k2, k3] && [k1] + [k2] == [k1, k2];
  }

  lemma FilterOne(judge: string -> Verdict, key: string)
    ensures Filter(judge, [key]) == match judge(key)
      case RaiseIndexError => Listing([], true)
      case Skip => Listing([], false)
      case Yield(n) => Listing([n], false)
  {
    assert [key][1..] == [];
  }

  // ---------------------------------------------------------------------------
  // The generator loops.

  /** `iterate` over one answer of the store: the keys are judged in order; the first `IndexError` ends it. */
  method IterateKeys(judge: string -> Verdict, keys: seq<string>) returns (l: Listing)
    ensures l == Filter(judge, keys)
  {
    var names: seq<string> := [];
    var i := 0;
    while i < |keys|
      invariant 0 <= i <= |keys|
      invariant Filter(judge, keys) == Listing(names + Filter(judge, keys[i..]).names, Filter(judge, keys[i..]).raised)
    {
      var v := judge(keys[i]);
      assert keys[i..][0] == keys[i] && keys[i..][1..] == keys[i + 1..];
      if v.RaiseIndexError? {
        return Listing(names, true);
      }
      if v.Yield? {
        names := names + [v.name];
      }
      i := i + 1;
    }
    return Listing(names, false);
  }

  /** `GoogleCloudStorageInterface.list_files`: the filter over the keys the store returns for the listed path. */
  method GcsListFiles(path: string, prefix: string, flat: bool, blobs: seq<string>) returns (l: Listing)
    ensures var layerPath := LayerPath(path);
      l == Filter(k => Judge(layerPath, Join(layerPath, prefix), flat, k), blobs)
  {
    var layerPath := LayerPath(path);
    var listPath := Join(layerPath, prefix);
    l := IterateKeys(k => Judge(layerPath, listPath, flat, k), blobs);
  }

  /** One answer of `list_objects_v2`: the keys (the field may be missing), and the continuation. */
  datatype Page = Page(contents: Option<seq<string>>, isTruncated: bool, nextToken: string)

  /** The keys of a page; a missing `Contents` field counts as none. */
  function Keys(p: Page): seq<string> {
    if p.contents.Some? then p.contents.value else []
  }

  /** The client asks for another page after `p`. */
  predicate Continues(p: Page) {
    p.isTruncated && p.nextToken != ""
  }

  /** The pages the store hands out, one per request: every page but the last asks for a successor. */
  predicate Chain(pages: seq<Page>) {
    |pages| > 0
    && (forall i :: 0 <= i < |pages| - 1 ==> Continues(pages[i]))
    && !Continues(pages[|pages| - 1])
  }

  /** The keys of all pages, in order. */
  function AllKeys(pages: seq<Page>): seq<string> {
    if pages == [] then [] else AllKeys(pages[..|pages| - 1]) + Keys(pages[|pages| - 1])
  }

  /**
   * `S3Interface.list_files`: page after page is requested and listed until a
   * page does not continue or the filter raises.  `requests` counts the pages
   * asked for; a raise stops the requests.
   */
  method S3ListFiles(path: string, prefix: string, flat: bool, pages: seq<Page>) returns (l: Listing, requests: nat)
    requires Chain(pages)
    ensures var layerPath := LayerPath(path);
      l == Filter(k => Judge(layerPath, Join(layerPath, prefix), flat, k), AllKeys(pages))
    ensures 1 <= requests <= |pages|
    ensures !l.raised ==> requests == |pages|
  {
    var layerPath := LayerPath(path);
    var listPath := Join(layerPath, prefix);
    var judge := k => Judge(layerPath, listPath, flat, k);
    l := IterateKeys(judge, Keys(pages[0]));
    assert pages[..1][..0] == [];
    assert AllKeys(pages[..1]) == [] + Keys(pages[0]) == Keys(pages[0]);
    var i := 0;
    while !l.raised && Continues(pages[i])
      invariant 0 <= i < |pages|
      invariant l == Filter(judge, AllKeys(pages[..i + 1]))
      decreases |pages| - i
    {
      i := i + 1;
      var next := IterateKeys(judge, Keys(pages[i]));
      assert pages[..i + 1][..i] == pages[..i];
      FilterConcat(judge, AllKeys(pages[..i]), Keys(pages[i]));
      l := Listing(l.names + next.names, next.raised);
    }
    requests := i + 1;
    if l.raised {
      RaisedPrefixDecides(judge, pages, i + 1);
    } else {
      assert pages[..i + 1] == pages;
    }
  }

  /** Once the pages up to `n` raise, the later pages do not change the listing. */
  lemma {:induction false} RaisedPrefixDecides(judge: string -> Verdict, pages: seq<Page>, n: nat)
    requires n <= |pages| && Filter(judge, AllKeys(pages[..n])).raised
    ensures Filter(judge, AllKeys(pages)) == Filter(judge, AllKeys(pages[..n]))
    decreases |pages| - n
  {
    if n < |pages| {
      assert pages[..n + 1][..n] == pages[..n];
      FilterConcat(judge, AllKeys(pages[..n]), Keys(pages[n]));
      RaisedPrefixDecides(judge, pages, n + 1);
    } else {
      assert pages[..n] == pages;
    }
  }
}

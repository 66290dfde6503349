/**
 * The string and path helpers of the Python standard library that the storage
 * layer relies on: `os.path.join`, `os.path.dirname`, `os.path.splitext` (in the
 * form `stripgz` uses it) and `str.replace(old, '')`.  POSIX semantics, '/' as
 * the only separator.
 */
module PathOps {

  predicate IsPrefix(p: string, s: string) {
    |p| <= |s| && s[..|p|] == p
  }

  predicate EndsWith(s: string, suffix: string) {
    |suffix| <= |s| && s[|s| - |suffix|..] == suffix
  }

  predicate EndsWithSlash(s: string) {
    |s| > 0 && s[|s| - 1] == '/'
  }

  /** `os.path.join(a, b)`. */
  function Join(a: string, b: string): string {
    if |b| > 0 && b[0] == '/' then b
    else if a == "" || EndsWithSlash(a) then a + b
    else a + "/" + b
  }

  /** An absolute `b` replaces `a`; otherwise `a` is kept in front and exactly one '/' separates the two. */
  lemma JoinShape(a: string, b: string)
    ensures EndsWith(Join(a, b), b)
    ensures |b| > 0 && b[0] == '/' ==> Join(a, b) == b
    ensures !(|b| > 0 && b[0] == '/') ==> IsPrefix(a, Join(a, b))
    ensures !(|b| > 0 && b[0] == '/') && a != "" && !EndsWithSlash(a) ==> Join(a, b) == a + "/" + b
    ensures !(|b| > 0 && b[0] == '/') && EndsWithSlash(a) ==> Join(a, b) == a + b
  {
    var r := Join(a, b);
    assert r[|r| - |b|..] == b;
  }

  /** `os.path.join(a, b, c)`. */
  function Join3(a: string, b: string, c: string): string {
    Join(Join(a, b), c)
  }

  /** Index of the last occurrence of `c` in `s`, or -1 (Python's `str.rfind`). */
  function LastIndexOf(s: string, c: char): (r: int)
    ensures -1 <= r < |s|
    ensures r >= 0 ==> s[r] == c
    ensures forall j :: r < j < |s| ==> s[j] != c
  {
    if |s| == 0 then -1
    else if s[|s| - 1] == c then |s| - 1
    else LastIndexOf(s[..|s| - 1], c)
  }

  /** `s.rstrip('/')`. */
  function StripTrailingSlashes(s: string): (r: string)
    ensures IsPrefix(r, s)
    ensures !EndsWithSlash(r)
    ensures forall j :: |r| <= j < |s| ==> s[j] == '/'
  {
    if EndsWithSlash(s) then StripTrailingSlashes(s[..|s| - 1]) else s
  }

  predicate AllSlashes(s: string) {
    forall j :: 0 <= j < |s| ==> s[j] == '/'
  }

  /** `os.path.dirname(p)`: the text before the last '/', without trailing slashes unless it is all slashes. */
  function Dirname(p: string): (r: string)
    ensures IsPrefix(r, p)
    ensures '/' !in p ==> r == ""
  {
    var head := p[..LastIndexOf(p, '/') + 1];
    if head != "" && !AllSlashes(head) then StripTrailingSlashes(head) else head
  }

  /**
   * Python's `s.replace(pattern, '')`: every non-overlapping occurrence of
   * `pattern`, found left to right, is removed; an empty pattern changes nothing.
   */
  function RemoveAll(s: string, pattern: string): (r: string)
    ensures |r| <= |s|
    decreases |s|
  {
    if |pattern| == 0 || |s| < |pattern| then s
    else if s[..|pattern|] == pattern then RemoveAll(s[|pattern|..], pattern)
    else [s[0]] + RemoveAll(s[1..], pattern)
  }

  /** `pattern` occurs in `s` starting at index `j`. */
  predicate OccursAt(pattern: string, s: string, j: int) {
    0 <= j <= |s| - |pattern| && s[j..j + |pattern|] == pattern
  }

  /** `pattern` occurs somewhere inside `s`. */
  ghost predicate Occurs(pattern: string, s: string) {
    exists j :: OccursAt(pattern, s, j)
  }

  /** Removing a pattern leaves the string as it was, unless the pattern occurs in it. */
  lemma {:induction false} RemoveAllUnchangedOrOccurs(s: string, pattern: string)
    ensures RemoveAll(s, pattern) == s || Occurs(pattern, s)
    decreases |s|
  {
    if |pattern| == 0 || |s| < |pattern| {
    } else if s[..|pattern|] == pattern {
      assert OccursAt(pattern, s, 0);
    } else {
      RemoveAllUnchangedOrOccurs(s[1..], pattern);
      if Occurs(pattern, s[1..]) {
        var j :| OccursAt(pattern, s[1..], j);
        assert s[j + 1..j + 1 + |pattern|] == s[1..][j..j + |pattern|];
        assert OccursAt(pattern, s, j + 1);
      }
    }
  }

  /** Removing a pattern that does not occur leaves the string as it was. */
  lemma RemoveAllAbsent(s: string, pattern: string)
    requires !Occurs(pattern, s)
    ensures RemoveAll(s, pattern) == s
  {
    RemoveAllUnchangedOrOccurs(s, pattern);
  }

  /**
   * Stripping a leading occurrence of the layer path: when the key is the layer
   * path followed by a tail in which the layer path does not occur, the tail is
   * what `key.replace(layer_path, '')` yields.
   */
  lemma RemoveAllLeading(pattern: string, tail: string)
    requires |pattern| > 0
    requires !Occurs(pattern, tail)
    ensures RemoveAll(pattern + tail, pattern) == tail
  {
    var s := pattern + tail;
    assert s[..|pattern|] == pattern;
    assert s[|pattern|..] == tail;
    RemoveAllAbsent(tail, pattern);
  }

  /**
   * The `stripgz` helper of the filesystem listing: `os.path.splitext` splits off
   * the text from the last '.' of the last path component, unless everything
   * before that dot in the component is dots; the name loses that extension only
   * when it is exactly ".gz".
   */
  function StripGz(f: string): (r: string)
    ensures r == f || f == r + ".gz"
    ensures !EndsWith(f, ".gz") ==> r == f
  {
    var sep := LastIndexOf(f, '/');
    var dot := LastIndexOf(f, '.');
    if dot > sep && (exists j :: sep + 1 <= j < dot && f[j] != '.') && f[dot..] == ".gz" then
      assert f == f[..dot] + f[dot..];
      f[..dot]
    else
      f
  }

  /**
   * A name whose last component holds something other than dots gets its
   * compressed sibling's name mapped back onto it: `stripgz(name + '.gz') == name`.
   */
  lemma StripGzOfCompressedName(name: string, j: nat)
    requires LastIndexOf(name, '/') < j < |name| && name[j] != '.'
    ensures StripGz(name + ".gz") == name
  {
    var f := name + ".gz";
    assert f[|name|] == '.' && f[|name| + 1] == 'g' && f[|name| + 2] == 'z';
    assert LastIndexOf(f, '.') == |name|;
    LastIndexOfAppend(name, ".gz", '/');
    assert f[j] == name[j];
    assert f[|name|..] == ".gz";
    assert f[..|name|] == name;
  }

  lemma {:induction false} LastIndexOfAppend(s: string, t: string, c: char)
    requires c !in t
    ensures LastIndexOf(s + t, c) == LastIndexOf(s, c)
    decreases |t|
  {
    if |t| == 0 {
      assert s + t == s;
    } else {
      var u := s + t;
      assert u[|u| - 1] == t[|t| - 1];
      assert u[..|u| - 1] == s + t[..|t| - 1];
      LastIndexOfAppend(s, t[..|t| - 1], c);
    }
  }
}

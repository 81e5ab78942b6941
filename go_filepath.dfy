/**
 * Go's `filepath.Base` with the Unix separator '/': strip trailing slashes,
 * keep what follows the last remaining slash, answer "." for the empty path
 * and "/" for a path made only of slashes.
 */
module GoFilePath {

  /** `p` without its trailing slashes. */
  function TrimTrailingSlashes(p: string): (r: string)
    ensures r <= p
    ensures r == [] || r[|r| - 1] != '/'
    ensures forall i :: |r| <= i < |p| ==> p[i] == '/'
    decreases |p|
  {
    if |p| > 0 && p[|p| - 1] == '/' then TrimTrailingSlashes(p[..|p| - 1]) else p
  }

  /** The part of `p` after its last slash (all of `p` when it has none). */
  function LastElement(p: string): (r: string)
    ensures |r| <= |p| && r == p[|p| - |r|..]
    ensures forall i :: 0 <= i < |r| ==> r[i] != '/'
    ensures |r| < |p| ==> p[|p| - |r| - 1] == '/'
    decreases |p|
  {
    if |p| == 0 || p[|p| - 1] == '/' then [] else LastElement(p[..|p| - 1]) + [p[|p| - 1]]
  }

  /** `filepath.Base`. */
  function Base(p: string): string {
    if p == [] then "."
    else
      var e := LastElement(TrimTrailingSlashes(p));
      if e == [] then "/" else e
  }

  /** A string with no slash in it. */
  predicate NoSlash(s: string) {
    forall i :: 0 <= i < |s| ==> s[i] != '/'
  }

  /**
   * Base is never empty; it is "/" exactly for a non-empty path of slashes
   * only, and otherwise holds no slash at all.
   */
  lemma BaseShape(p: string)
    ensures Base(p) != []
    ensures Base(p) == "/" <==> p != [] && forall i :: 0 <= i < |p| ==> p[i] == '/'
    ensures Base(p) != "/" ==> NoSlash(Base(p))
  {
    if p != [] {
      var t := TrimTrailingSlashes(p);
      if t != [] {
        assert LastElement(t) != [];
        assert p[|t| - 1] != '/';
      }
    }
  }

  /** A name with no slash is its own base, and so is one followed by slashes. */
  lemma BaseOfName(dir: string, name: string, slashes: nat)
    requires name != [] && NoSlash(name)
    ensures Base(dir + "/" + name + seq(slashes, _ => '/')) == name
  {
    var p := dir + "/" + name + seq(slashes, _ => '/');
    var t := dir + "/" + name;
    TrimSlashesOff(t, slashes);
    assert TrimTrailingSlashes(p) == t;
    LastElementAfterSlash(dir, name);
  }

  lemma {:induction false} TrimSlashesOff(t: string, slashes: nat)
    requires t != [] && t[|t| - 1] != '/'
    ensures TrimTrailingSlashes(t + seq(slashes, _ => '/')) == t
    decreases slashes
  {
    var p := t + seq(slashes, _ => '/');
    if slashes == 0 {
      assert p == t;
    } else {
      assert p[..|p| - 1] == t + seq(slashes - 1, _ => '/');
      TrimSlashesOff(t, slashes - 1);
    }
  }

  lemma {:induction false} LastElementAfterSlash(dir: string, name: string)
    requires NoSlash(name)
    ensures LastElement(dir + "/" + name) == name
    decreases |name|
  {
    var p := dir + "/" + name;
    if name == [] {
      assert p[|p| - 1] == '/';
    } else {
      assert p[..|p| - 1] == dir + "/" + name[..|name| - 1];
      LastElementAfterSlash(dir, name[..|name| - 1]);
      assert name == name[..|name| - 1] + [name[|name| - 1]];
    }
  }

  /**
   * The base of a path that starts with a slash and then a non-slash is the
   * element between the last slash before it and the trailing slashes.
   */
  lemma BaseIsElement(p: string) returns (k: nat, end: nat)
    requires |p| >= 2 && p[0] == '/' && p[1] != '/'
    ensures 0 < k < end <= |p| && p[k - 1] == '/'
    ensures end == |p| || p[end] == '/'
    ensures Base(p) == p[k..end] && NoSlash(Base(p))
  {
    BaseShape(p);
    var t := TrimTrailingSlashes(p);
    assert |t| >= 2;
    var e := LastElement(t);
    k, end := |t| - |e|, |t|;
    assert e[0] == t[k] && t[0] == '/';
    assert p[k - 1] == t[k - 1];
    assert e == t[k..] == p[k..end];
  }
}

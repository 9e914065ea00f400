/** `setActiveNavLink` of js/script.js: the page name is the last
    `/`-separated segment of the location's path, and every `.nav-menu` link
    whose `href` ends in the same segment carries the "active" class. */
module NavLinks {
  import opened Wrappers

  /** `s.split('/').pop()`: the text after the last `/`, or all of `s`. */
  function LastSegment(s: string): (r: string)
    ensures |r| <= |s|
    ensures s != [] && s[|s| - 1] == '/' ==> r == []
  {
    if s == [] || s[|s| - 1] == '/' then []
    else LastSegment(s[..|s| - 1]) + [s[|s| - 1]]
  }

  /** The last segment is the longest suffix free of `/`: a suffix, without
      `/`, and either all of `s` or preceded by a `/`. */
  lemma {:induction false} LastSegmentIsSuffix(s: string)
    ensures '/' !in LastSegment(s)
    ensures |LastSegment(s)| <= |s| && LastSegment(s) == s[|s| - |LastSegment(s)|..]
    ensures LastSegment(s) == s || s[|s| - |LastSegment(s)| - 1] == '/'
  {
    var r := LastSegment(s);
    if s != [] && s[|s| - 1] != '/' {
      var t, c := s[..|s| - 1], s[|s| - 1];
      LastSegmentIsSuffix(t);
      var r' := LastSegment(t);
      assert r == r' + [c];
      var i := |t| - |r'|;
      assert s == t + [c];
      assert |s| - |r| == i;
      assert s[i..] == t[i..] + [c];
      assert '/' !in r by {
        forall k | 0 <= k < |r| ensures r[k] != '/' {
          if k < |r'| {
            assert r[k] == r'[k];
          }
        }
      }
      if r' != t {
        assert s[i - 1] == t[i - 1];
      }
    }
  }

  /** Whatever precedes the last `/` does not matter. */
  lemma {:induction false} LastSegmentAfterSlash(prefix: string, name: string)
    requires '/' !in name
    ensures LastSegment(prefix + "/" + name) == name
  {
    var s := prefix + "/" + name;
    if name != [] {
      assert s[..|s| - 1] == prefix + "/" + name[..|name| - 1];
      LastSegmentAfterSlash(prefix, name[..|name| - 1]);
    }
  }

  /** A name without `/` is its own last segment. */
  lemma {:induction false} LastSegmentOfName(name: string)
    requires '/' !in name
    ensures LastSegment(name) == name
  {
    if name != [] {
      assert name[..|name| - 1] + [name[|name| - 1]] == name;
      LastSegmentOfName(name[..|name| - 1]);
    }
  }

  const DefaultPage: string := "index.html"

  /** `path.split('/').pop() || 'index.html'`. */
  function CurrentPage(path: string): (r: string)
    ensures r != [] && '/' !in r
    ensures r == DefaultPage || r == LastSegment(path)
    ensures LastSegment(path) != [] ==> r == LastSegment(path)
  {
    var last := LastSegment(path);
    LastSegmentIsSuffix(path);
    if last == [] then DefaultPage else last
  }

  /** A link is marked when its own last segment names the current page. */
  predicate LinkMatches(href: string, path: string)
    ensures LinkMatches(href, path) ==> LastSegment(href) != []
    ensures LastSegment(path) != [] ==>
      (LinkMatches(href, path) <==> LastSegment(href) == LastSegment(path))
  {
    LastSegment(href) == CurrentPage(path)
  }

  /** A link whose `href` ends with `/` is never marked, since the current
      page is never empty. */
  lemma DirectoryLinkNeverActive(href: string, path: string)
    requires href != [] && href[|href| - 1] == '/'
    ensures !LinkMatches(href, path)
  {
    assert LastSegment(href) == [];
  }

  /** At the site root the page is "index.html". */
  lemma RootIsIndex()
    ensures CurrentPage("/") == DefaultPage
    ensures LinkMatches("index.html", "/")
    ensures LinkMatches("./index.html", "/site/")
  {
    LastSegmentAfterSlash("", "");
    assert "" + "/" + "" == "/";
    LastSegmentOfName(DefaultPage);
    LastSegmentAfterSlash("/site", "");
    assert "/site" + "/" + "" == "/site/";
    var link := "." + "/" + DefaultPage;
    LastSegmentAfterSlash(".", DefaultPage);
    assert |link| == |"./index.html"|;
    assert forall k :: 0 <= k < |link| ==> link[k] == "./index.html"[k];
    assert link == "./index.html";
  }

  /** Index of the first link without an `href`, or the number of links. */
  function FirstMissing(hrefs: seq<Option<string>>): (r: nat)
    ensures r <= |hrefs|
    ensures forall k :: 0 <= k < r ==> hrefs[k].Some?
    ensures r < |hrefs| ==> hrefs[r].None?
  {
    if hrefs == [] then 0
    else if hrefs[0].None? then 0
    else 1 + FirstMissing(hrefs[1..])
  }

  /** Walks the links in order, marking exactly the matching ones. A link
      without an `href` makes `getAttribute('href').split` throw, which ends
      the walk: the links after it keep their classes and `completed` is
      false. */
  method SetActiveNavLink(path: string, hrefs: seq<Option<string>>, active: array<bool>)
    returns (completed: bool)
    requires active.Length == |hrefs|
    modifies active
    ensures completed <==> FirstMissing(hrefs) == |hrefs|
    ensures forall k :: 0 <= k < FirstMissing(hrefs) ==>
      active[k] == LinkMatches(hrefs[k].value, path)
    ensures forall k :: FirstMissing(hrefs) <= k < |hrefs| ==> active[k] == old(active[k])
  {
    var page := CurrentPage(path);
    var i := 0;
    while i < |hrefs|
      invariant 0 <= i <= FirstMissing(hrefs)
      invariant forall k :: 0 <= k < i ==> active[k] == LinkMatches(hrefs[k].value, path)
      invariant forall k :: i <= k < |hrefs| ==> active[k] == old(active[k])
    {
      if hrefs[i].None? {
        return false;
      }
      active[i] := LastSegment(hrefs[i].value) == page;
      i := i + 1;
    }
    return true;
  }
}

/**
 * The breadcrumb trail of the dashboard sidebar: one link per non-empty
 * segment of the current pathname, each pointing at the path up to and
 * including its segment.
 */
module Breadcrumbs {
  import opened Text

  datatype Crumb = Crumb(caption: string, href: string)

  /** `parts.filter(Boolean)` on strings: the empty strings are dropped. */
  function DropEmpty(parts: seq<string>): (kept: seq<string>)
    ensures IsSubsequence(kept, parts)
    ensures forall x :: x in kept <==> x in parts && x != ""
  {
    if parts == [] then []
    else if parts[0] == "" then DropEmpty(parts[1..])
    else [parts[0]] + DropEmpty(parts[1..])
  }

  /** Each non-empty part is kept as many times as it occurs: "/a/a" has two segments. */
  lemma {:induction false} DropEmptyCounts(parts: seq<string>)
    ensures multiset(DropEmpty(parts)) == multiset(parts)["" := 0]
  {
    if parts != [] {
      assert parts == [parts[0]] + parts[1..];
      assert multiset(parts) == multiset{parts[0]} + multiset(parts[1..]);
      DropEmptyCounts(parts[1..]);
    }
  }

  /** `pathname.split("/").filter(Boolean)`. */
  function Segments(pathname: string): (segs: seq<string>)
    ensures forall i :: 0 <= i < |segs| ==> segs[i] != "" && '/' !in segs[i]
  {
    var parts := Split(pathname, '/');
    var segs := DropEmpty(parts);
    assert forall i :: 0 <= i < |segs| ==> segs[i] in parts;
    segs
  }

  /** `part.charAt(0).toUpperCase() + part.slice(1)`; `upper` is the case mapping, which is not interpreted. */
  function Label(part: string, upper: string -> string): string
  {
    if part == "" then "" else upper(part[..1]) + part[1..]
  }

  /** The path a crumb links to: a slash and the first `n` segments joined by slashes. */
  function PathOf(segs: seq<string>, n: nat): string
    requires n <= |segs|
  {
    "/" + Join(segs[..n], "/")
  }

  /** The trail `BreadcrumbSidebar` renders for `pathname`. */
  function Crumbs(pathname: string, upper: string -> string): (trail: seq<Crumb>)
    ensures var segs := Segments(pathname);
      && |trail| == |segs|
      && forall i :: 0 <= i < |trail| ==> trail[i] == Crumb(Label(segs[i], upper), PathOf(segs, i + 1))
  {
    var segs := Segments(pathname);
    seq(|segs|, i requires 0 <= i < |segs| => Crumb(Label(segs[i], upper), PathOf(segs, i + 1)))
  }

  /** Each crumb's link is the link of the crumb before it, a slash, and one more segment. */
  lemma HrefsNest(pathname: string, upper: string -> string, i: nat)
    requires i + 1 < |Crumbs(pathname, upper)|
    ensures var trail := Crumbs(pathname, upper);
      && trail[i + 1].href == trail[i].href + "/" + Segments(pathname)[i + 1]
      && |trail[i].href| < |trail[i + 1].href|
  {
    var segs := Segments(pathname);
    var trail := Crumbs(pathname, upper);
    assert trail[i].href == PathOf(segs, i + 1);
    assert trail[i + 1].href == PathOf(segs, i + 2);
    PathOfNext(segs, i + 1);
  }

  /** Links lengthen along the trail, strictly. */
  lemma HrefsGrow(pathname: string, upper: string -> string, i: nat, j: nat)
    requires i < j < |Crumbs(pathname, upper)|
    ensures |Crumbs(pathname, upper)[i].href| < |Crumbs(pathname, upper)[j].href|
  {
    var trail := Crumbs(pathname, upper);
    forall k | 0 <= k < |trail| - 1
      ensures |trail[k].href| < |trail[k + 1].href|
    {
      HrefsNest(pathname, upper, k);
    }
    LinksLengthen(trail, i, j);
  }

  /** Links that lengthen from each crumb to the next lengthen along the whole trail. */
  lemma {:induction false} LinksLengthen(trail: seq<Crumb>, i: nat, j: nat)
    requires forall k :: 0 <= k < |trail| - 1 ==> |trail[k].href| < |trail[k + 1].href|
    requires i < j < |trail|
    ensures |trail[i].href| < |trail[j].href|
    decreases j - i
  {
    if i + 1 < j {
      LinksLengthen(trail, i + 1, j);
    }
  }

  /** No two crumbs link to the same page (React keys them by link). */
  lemma HrefsDistinct(pathname: string, upper: string -> string, i: nat, j: nat)
    requires i < |Crumbs(pathname, upper)| && j < |Crumbs(pathname, upper)| && i != j
    ensures Crumbs(pathname, upper)[i].href != Crumbs(pathname, upper)[j].href
  {
    if i < j {
      HrefsGrow(pathname, upper, i, j);
    } else {
      HrefsGrow(pathname, upper, j, i);
    }
  }

  /** One more segment extends the path by a slash and that segment. */
  lemma PathOfNext(segs: seq<string>, n: nat)
    requires 1 <= n < |segs|
    ensures PathOf(segs, n + 1) == PathOf(segs, n) + "/" + segs[n]
  {
    assert segs[..n + 1] == segs[..n] + [segs[n]];
    JoinAppend(segs[..n], [segs[n]], "/");
    assert Join([segs[n]], "/") == segs[n];
  }

  /** Splitting a path that starts with a slash gives an empty first piece. */
  lemma SplitLeadingSlash(rest: string)
    ensures Split("/" + rest, '/') == [""] + Split(rest, '/')
  {
    assert ("/" + rest)[1..] == rest;
  }

  lemma {:induction false} DropEmptyKeeps(parts: seq<string>)
    requires forall i :: 0 <= i < |parts| ==> parts[i] != ""
    ensures DropEmpty(parts) == parts
  {
    if parts != [] {
      DropEmptyKeeps(parts[1..]);
      assert [parts[0]] + parts[1..] == parts;
    }
  }

  /**
   * A canonical path (a slash before each non-empty, slash-free segment)
   * gives back exactly its segments, and its last crumb links to the page
   * itself.
   */
  lemma CanonicalPath(segs: seq<string>, upper: string -> string)
    requires |segs| >= 1
    requires forall i :: 0 <= i < |segs| ==> segs[i] != "" && '/' !in segs[i]
    ensures Segments(PathOf(segs, |segs|)) == segs
    ensures var trail := Crumbs(PathOf(segs, |segs|), upper);
      trail[|trail| - 1].href == PathOf(segs, |segs|)
  {
    assert segs[..|segs|] == segs;
    var joined := Join(segs, "/");
    SplitLeadingSlash(joined);
    SplitJoin(segs, '/');
    assert Split(PathOf(segs, |segs|), '/') == [""] + segs;
    assert ([""] + segs)[1..] == segs;
    DropEmptyKeeps(segs);
  }

  /**
   * Following crumb `i` lands on a page whose trail is the first `i + 1`
   * crumbs of the current one.
   */
  lemma FollowingACrumb(pathname: string, upper: string -> string, i: nat)
    requires i < |Crumbs(pathname, upper)|
    ensures Crumbs(Crumbs(pathname, upper)[i].href, upper) == Crumbs(pathname, upper)[..i + 1]
  {
    var segs := Segments(pathname);
    var prefix := segs[..i + 1];
    CanonicalPath(prefix, upper);
    assert prefix[..|prefix|] == prefix;
    var trail := Crumbs(pathname, upper);
    var there := Crumbs(PathOf(prefix, |prefix|), upper);
    forall k | 0 <= k < i + 1
      ensures there[k] == trail[k]
    {
      assert prefix[..k + 1] == segs[..k + 1];
    }
  }

  /** Paths made of slashes only (the site root among them) show no crumbs. */
  lemma {:induction false} SlashesOnlyShowNothing(pathname: string, upper: string -> string)
    requires forall i :: 0 <= i < |pathname| ==> pathname[i] == '/'
    ensures Crumbs(pathname, upper) == []
  {
    SlashesSplitEmpty(pathname);
  }

  lemma {:induction false} SlashesSplitEmpty(pathname: string)
    requires forall i :: 0 <= i < |pathname| ==> pathname[i] == '/'
    ensures forall k :: 0 <= k < |Split(pathname, '/')| ==> Split(pathname, '/')[k] == ""
    ensures DropEmpty(Split(pathname, '/')) == []
  {
    if pathname != [] {
      SlashesSplitEmpty(pathname[1..]);
    }
  }
}

/**
 * The dashboard layout's breadcrumb trail (`getBreadcrumbItems`): one item per
 * path segment after the first, each labelled with the capitalised segment and,
 * except for the last, linked to the path up to that segment.
 */
module Breadcrumbs {
  import opened Wrappers
  import Text

  datatype Crumb = Crumb(text: string, href: Option<string>)

  /** `pathname.split('/').filter(Boolean)`. */
  function Segments(pathname: string): seq<string>
  {
    Text.NonEmpty(Text.Split(pathname, '/'))
  }

  /** `segments.slice(1)`: the first segment is skipped, whatever it is. */
  function PathSegments(pathname: string): (ps: seq<string>)
    ensures |ps| == if |Segments(pathname)| == 0 then 0 else |Segments(pathname)| - 1
  {
    var segments := Segments(pathname);
    if segments == [] then [] else segments[1..]
  }

  /** The link of item `index`: `/dashboard/` and the segments up to it joined by '/'. */
  function Href(pathSegments: seq<string>, index: nat): string
    requires index < |pathSegments|
  {
    "/dashboard/" + Text.Join(pathSegments[..index + 1], '/')
  }

  /** Item `index` of the trail. */
  function CrumbAt(pathSegments: seq<string>, index: nat): Crumb
    requires index < |pathSegments|
  {
    var caption := Text.Capitalize(pathSegments[index]);
    if index == |pathSegments| - 1 then Crumb(caption, None)
    else Crumb(caption, Some(Href(pathSegments, index)))
  }

  /** `getBreadcrumbItems`: push one item per path segment. */
  method GetBreadcrumbItems(pathname: string) returns (items: seq<Crumb>)
    ensures |items| == |PathSegments(pathname)|
    ensures forall i :: 0 <= i < |items| ==> items[i] == CrumbAt(PathSegments(pathname), i)
  {
    var pathSegments := PathSegments(pathname);
    items := [];
    var index := 0;
    while index < |pathSegments|
      invariant 0 <= index <= |pathSegments|
      invariant |items| == index
      invariant forall i :: 0 <= i < index ==> items[i] == CrumbAt(pathSegments, i)
    {
      var segment := pathSegments[index];
      var href := "/dashboard/" + Text.Join(pathSegments[..index + 1], '/');
      var caption := Text.Capitalize(segment);
      if index == |pathSegments| - 1 {
        items := items + [Crumb(caption, None)];
      } else {
        items := items + [Crumb(caption, Some(href))];
      }
      index := index + 1;
    }
  }

  /** Each label is its segment with the first letter upper-cased; only the last item has no link. */
  lemma CrumbShape(pathSegments: seq<string>, index: nat)
    requires index < |pathSegments|
    ensures |CrumbAt(pathSegments, index).text| == |pathSegments[index]|
    ensures pathSegments[index] != [] ==>
      CrumbAt(pathSegments, index).text[1..] == pathSegments[index][1..]
      && CrumbAt(pathSegments, index).text[0] == Text.UpperChar(pathSegments[index][0])
    ensures CrumbAt(pathSegments, index).href.None? <==> index == |pathSegments| - 1
  {
  }

  /** Each link extends the previous one by '/' and the next segment. */
  lemma HrefExtends(pathSegments: seq<string>, index: nat)
    requires index + 1 < |pathSegments|
    ensures Href(pathSegments, index + 1) == Href(pathSegments, index) + "/" + pathSegments[index + 1]
  {
    assert pathSegments[..index + 2] == pathSegments[..index + 1] + [pathSegments[index + 1]];
    Text.JoinSnoc(pathSegments[..index + 1], pathSegments[index + 1], '/');
  }

  /** A doubled slash is the same as a single one. */
  lemma RepeatedSlashIgnored(a: string, b: string)
    ensures Segments(a + "//" + b) == Segments(a + "/" + b)
  {
    assert a + "//" + b == a + ['/'] + ([] + ['/'] + b);
    Text.SplitAround(a, [] + ['/'] + b, '/');
    Text.SplitAround([], b, '/');
    Text.SplitAround(a, b, '/');
    assert [] + ['/'] + b == ['/'] + b;
    assert a + "/" + b == a + ['/'] + b;
    var sa, sb := Text.Split(a, '/'), Text.Split(b, '/');
    assert Text.Split([], '/') == [[]];
    Text.NonEmptyAppend(sa, [[]] + sb);
    Text.NonEmptyAppend([[]], sb);
    Text.NonEmptyAppend(sa, sb);
  }

  /** A trailing slash changes nothing. */
  lemma TrailingSlashIgnored(p: string)
    ensures Segments(p + "/") == Segments(p)
  {
    assert p + "/" == p + ['/'] + [];
    Text.SplitAround(p, [], '/');
    assert Text.Split([], '/') == [[]];
    Text.NonEmptyAppend(Text.Split(p, '/'), [[]]);
    assert Text.Split(p, '/') + [] == Text.Split(p, '/');
  }

  /** The trail is drawn on every page except the dashboard's own. */
  predicate ShowsBreadcrumbs(pathname: string)
  {
    pathname != "/dashboard"
  }

  /** A path of one segment, such as the dashboard's own, has no items. */
  lemma SingleSegmentNoItems(first: string)
    requires first != [] && '/' !in first
    ensures Segments("/" + first) == [first]
    ensures PathSegments("/" + first) == []
  {
    assert "/" + first == [] + ['/'] + first;
    Text.SplitAround([], first, '/');
    Text.SplitNoSeparator(first, '/');
    assert Text.Split([], '/') == [[]];
    var parts: seq<string> := [[], first];
    assert Text.Split("/" + first, '/') == parts;
    assert parts[1..] == [first] && [first][1..] == [];
    assert Text.NonEmpty([first]) == [first];
    assert Text.NonEmpty(parts) == [first];
  }

  /** The dashboard's own path has no items, and the trail is hidden there. */
  lemma DashboardHasNoItems()
    ensures Segments("/dashboard") == ["dashboard"]
    ensures PathSegments("/dashboard") == []
    ensures !ShowsBreadcrumbs("/dashboard")
  {
    assert "/dashboard" == "/" + "dashboard";
    SingleSegmentNoItems("dashboard");
  }
}

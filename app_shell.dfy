/**
 * The application shell's navigation: the breadcrumb trail built from the
 * current path, the label formatting of its segments, and the sidebar's
 * active-link test.
 */
module AppShell {
  import opened Seqs
  import opened Text

  /** `pathname.split("/").filter(x => x)`: the non-empty path segments. */
  function Segments(pathname: string): (r: seq<string>)
    ensures forall seg :: seg in r ==> seg != "" && '/' !in seg
    ensures forall seg :: seg in r <==> seg in Split(pathname, '/') && seg != ""
    ensures IsSubsequence(r, Split(pathname, '/'))
    ensures forall seg {:trigger multiset(r)[seg]} :: multiset(r)[seg] == if seg != "" then multiset(Split(pathname, '/'))[seg] else 0
  {
    Filter(Split(pathname, '/'), (x: string) => x != "")
  }

  /** Course-code segments (`cs…`, `math…`, `phys…`) are shown in capitals. */
  predicate IsCourseCode(value: string) {
    StartsWith(value, "cs") || StartsWith(value, "math") || StartsWith(value, "phys")
  }

  /** `charAt(0).toUpperCase() + slice(1)`. */
  function Capitalize(value: string): (r: string)
    ensures |r| == |value|
    ensures |value| > 0 ==> r[0] == UpperChar(value[0]) && r[1..] == value[1..]
  {
    if value == "" then "" else [UpperChar(value[0])] + value[1..]
  }

  /** The label shown for one segment. */
  function FormatLabel(value: string): (r: string)
    ensures |r| == |value|
    ensures IsCourseCode(value) ==> forall i :: 0 <= i < |r| ==> !IsLowerLetter(r[i])
    ensures !IsCourseCode(value) && |value| > 0 ==> !IsLowerLetter(r[0]) && r[1..] == value[1..]
  {
    if IsCourseCode(value) then Upper(value) else Capitalize(value)
  }

  /** Formatting a label only changes letter case. */
  lemma FormatLabelKeepsLetters(value: string)
    ensures Lower(FormatLabel(value)) == Lower(value)
  {
    var r := FormatLabel(value);
    forall i | 0 <= i < |value| ensures LowerChar(r[i]) == LowerChar(value[i]) {
      if IsCourseCode(value) || i == 0 {
        assert r[i] == UpperChar(value[i]);
      } else {
        assert r[i] == r[1..][i - 1];
      }
    }
  }

  /** The segments shown without a link because they have no page of their own. */
  const NonClickablePaths: seq<string> := ["files"]

  /** `"/" + pathnames.slice(0, index + 1).join("/")`. */
  function Href(segs: seq<string>, index: nat): string
    requires index < |segs|
  {
    "/" + Join(segs[..index + 1], '/')
  }

  datatype Item =
    | HomeLink
    | Separator
    | CrumbLink(caption: string, href: string)
    | CrumbPage(caption: string, muted: bool)

  /** The crumb for segment `index`: a plain page for the last and the non-clickable ones, a link otherwise. */
  function Crumb(segs: seq<string>, index: nat): Item
    requires index < |segs|
  {
    var value := segs[index];
    var isLast := index == |segs| - 1;
    var isNonClickable := value in NonClickablePaths;
    if isLast || isNonClickable then CrumbPage(FormatLabel(value), isNonClickable)
    else CrumbLink(FormatLabel(value), Href(segs, index))
  }

  /** `pathnames.map(...)`: one crumb per segment, in path order. */
  function Crumbs(segs: seq<string>): (r: seq<Item>)
    ensures |r| == |segs|
    ensures forall i :: 0 <= i < |segs| ==> r[i] == Crumb(segs, i)
  {
    seq(|segs|, i requires 0 <= i < |segs| => Crumb(segs, i))
  }

  /** Each crumb followed by a separator unless it is the last. */
  function Interleave(crumbs: seq<Item>): seq<Item>
    decreases |crumbs|
  {
    if crumbs == [] then []
    else [crumbs[0]] + (if |crumbs| > 1 then [Separator] else []) + Interleave(crumbs[1..])
  }

  /** The whole trail: Home, a separator when there are segments, then the crumbs. */
  function Trail(segs: seq<string>): seq<Item> {
    [HomeLink] + (if |segs| > 0 then [Separator] else []) + Interleave(Crumbs(segs))
  }

  /** Interleaving puts item `i` at offset `2 * i` and a separator at `2 * i + 1` between items. */
  lemma {:induction false} InterleaveLayout(crumbs: seq<Item>)
    ensures |Interleave(crumbs)| == if crumbs == [] then 0 else 2 * |crumbs| - 1
    ensures forall i :: 0 <= i < |crumbs| ==> Interleave(crumbs)[2 * i] == crumbs[i]
    ensures forall i :: 0 <= i < |crumbs| - 1 ==> Interleave(crumbs)[2 * i + 1] == Separator
    decreases |crumbs|
  {
    if |crumbs| > 1 {
      var rest := crumbs[1..];
      InterleaveLayout(rest);
      var c := [crumbs[0], Separator] + Interleave(rest);
      assert Interleave(crumbs) == c;
      forall i | 1 <= i < |crumbs| ensures c[2 * i] == crumbs[i] {
        assert c[2 * i] == Interleave(rest)[2 * (i - 1)];
      }
      forall i | 1 <= i < |crumbs| - 1 ensures c[2 * i + 1] == Separator {
        assert c[2 * i + 1] == Interleave(rest)[2 * (i - 1) + 1];
      }
    } else if |crumbs| == 1 {
      assert Interleave(crumbs) == [crumbs[0]] + Interleave(crumbs[1..]);
    }
  }

  /**
   * The trail has `2 * n + 1` items: Home first, then crumb `i` at position
   * `2 * i + 2`, each preceded by a separator.
   */
  lemma TrailLayout(segs: seq<string>)
    ensures |Trail(segs)| == 2 * |segs| + 1
    ensures Trail(segs)[0] == HomeLink
    ensures forall i :: 0 <= i < |segs| ==> Trail(segs)[2 * i + 1] == Separator
    ensures forall i :: 0 <= i < |segs| ==> Trail(segs)[2 * i + 2] == Crumb(segs, i)
  {
    var cs := Crumbs(segs);
    InterleaveLayout(cs);
    var t := Trail(segs);
    var c := Interleave(cs);
    if |segs| > 0 {
      assert t == [HomeLink, Separator] + c;
      forall i | 0 <= i < |segs| ensures t[2 * i + 2] == Crumb(segs, i) {
        assert t[2 * i + 2] == c[2 * i];
      }
      forall i | 1 <= i < |segs| ensures t[2 * i + 1] == Separator {
        assert t[2 * i + 1] == c[2 * (i - 1) + 1];
      }
    }
  }

  /** Only the last crumb and the `files` folders are shown without a link. */
  lemma CrumbIsLink(segs: seq<string>, index: nat)
    requires index < |segs|
    ensures Crumb(segs, index).CrumbLink? <==> index != |segs| - 1 && segs[index] != "files"
    ensures Crumb(segs, index).CrumbPage? ==> (Crumb(segs, index).muted <==> segs[index] == "files")
    ensures Crumb(segs, index).caption == FormatLabel(segs[index])
  {
  }

  lemma {:induction false} JoinSnoc(parts: seq<string>, x: string, d: char)
    requires |parts| >= 1
    ensures Join(parts + [x], d) == Join(parts, d) + [d] + x
    decreases |parts|
  {
    if |parts| == 1 {
      assert (parts + [x])[1..] == [x];
    } else {
      assert (parts + [x])[1..] == parts[1..] + [x];
      JoinSnoc(parts[1..], x, d);
    }
  }

  /** Each crumb's link extends the previous one by exactly one segment. */
  lemma HrefExtends(segs: seq<string>, index: nat)
    requires index + 1 < |segs|
    ensures Href(segs, index + 1) == Href(segs, index) + "/" + segs[index + 1]
  {
    assert segs[..index + 2] == segs[..index + 1] + [segs[index + 1]];
    JoinSnoc(segs[..index + 1], segs[index + 1], '/');
  }

  /**
   * For a path written as `/seg1/…/segN`, the segments are read back
   * exactly and the last crumb would link to the path itself.
   */
  lemma CanonicalPath(segs: seq<string>)
    requires |segs| >= 1
    requires forall seg :: seg in segs ==> seg != "" && '/' !in seg
    ensures Segments("/" + Join(segs, '/')) == segs
    ensures Href(segs, |segs| - 1) == "/" + Join(segs, '/')
  {
    var path := "/" + Join(segs, '/');
    var pieces := [""] + segs;
    assert Join(pieces, '/') == path by {
      assert pieces[1..] == segs;
    }
    SplitJoin(pieces, '/');
    assert Split(path, '/') == pieces;
    assert Filter(pieces, (x: string) => x != "") == Filter(segs, (x: string) => x != "") by {
      assert pieces[1..] == segs;
    }
    FilterKeepsAll(segs, (x: string) => x != "");
    assert segs[..|segs|] == segs;
  }

  /** `isActive`: the root is active only on the root, every other link on every path under it. */
  predicate IsActive(pathname: string, path: string) {
    if path == "/" then pathname == "/" else StartsWith(pathname, path)
  }

  /** A link stays active on every deeper path, except the root, which is exact. */
  lemma ActiveOnDeeperPaths(pathname: string, path: string, rest: string)
    requires path != "/" && IsActive(pathname, path)
    ensures IsActive(pathname + rest, path)
  {
    assert (pathname + rest)[..|path|] == pathname[..|path|];
  }

  /** The prefix test has no segment boundary: `/coursesX` lights up the Courses link. */
  lemma ActiveWithoutBoundary()
    ensures IsActive("/coursesX", "/courses")
  {
    assert "/coursesX"[..|"/courses"|] == "/courses";
  }
}

/** The navigation bar of src/react-app/components/Layout.tsx: which items are
    highlighted for the current location. The desktop and the mobile bar
    use the same rule, so it is defined once here. */
module Layout {
  import opened Ordering

  const Dashboard: string := "/dashboard"

  /** `navItems`, by path. */
  const NavPaths: seq<string> :=
    [Dashboard, "/clinics", "/manuals", "/routines", "/waste", "/health", "/partners"]

  /** `String.prototype.startsWith`. */
  predicate StartsWith(s: string, prefix: string)
  {
    |prefix| <= |s| && s[..|prefix|] == prefix
  }

  /** An item is highlighted on its own path, and, except for the dashboard,
      on every path that begins with it. */
  function IsActive(pathname: string, path: string): (b: bool)
    ensures pathname == path ==> b
    ensures path == Dashboard ==> (b <==> pathname == Dashboard)
    ensures path != Dashboard ==> (b <==> path <= pathname)
  {
    pathname == path || (path != Dashboard && StartsWith(pathname, path))
  }

  /** The highlighted items for a location. */
  function ActiveItems(pathname: string): seq<string>
  {
    Filter(NavPaths, (path: string) => IsActive(pathname, path))
  }

  /** Nested pages light their section; the match is a plain string prefix,
      so "/clinicsX" lights "/clinics" too; the dashboard needs an exact match. */
  lemma Examples()
    ensures IsActive("/clinics/3/equipment/5", "/clinics")
    ensures IsActive("/clinicsX", "/clinics")
    ensures !IsActive("/dashboard/x", Dashboard) && IsActive(Dashboard, Dashboard)
    ensures !IsActive("/clinic", "/clinics")
  {
    assert "/clinics" <= "/clinics/3/equipment/5";
    assert "/clinics" <= "/clinicsX";
  }

  /** No item's path begins with another's: they already differ in their
      first letter after the slash. */
  lemma NavPathsPrefixFree()
    ensures forall i, j :: 0 <= i < |NavPaths| && 0 <= j < |NavPaths| && i != j ==> !(NavPaths[i] <= NavPaths[j])
  {
    forall i, j | 0 <= i < |NavPaths| && 0 <= j < |NavPaths| && i != j
      ensures !(NavPaths[i] <= NavPaths[j])
    {
      var p, q := NavPaths[i], NavPaths[j];
      assert |p| >= 2 && |q| >= 2 && p[1] != q[1];
    }
  }

  /** Two paths that both begin some location are one the prefix of the other. */
  lemma PrefixesCompare(p: string, q: string, s: string)
    requires p <= s && q <= s
    ensures p <= q || q <= p
  {
    if |p| <= |q| {
      assert q[..|p|] == s[..|p|] == p;
    } else {
      assert p[..|q|] == s[..|q|] == q;
    }
  }

  /** Whatever the location, at most one item is highlighted. */
  lemma AtMostOneActive(pathname: string)
    ensures |ActiveItems(pathname)| <= 1
  {
    var act := ActiveItems(pathname);
    if |act| > 1 {
      var p, q := act[|act| - 2], act[|act| - 1];
      ActiveDistinct(pathname);
      assert p in act && q in act;
      NavPathsPrefixFree();
      var i :| 0 <= i < |NavPaths| && NavPaths[i] == p;
      var j :| 0 <= j < |NavPaths| && NavPaths[j] == q;
      assert p <= pathname && q <= pathname;
      PrefixesCompare(p, q, pathname);
      assert false;
    }
  }

  /** The highlighted items are distinct paths, in nav order. */
  lemma ActiveDistinct(pathname: string)
    ensures forall i, j :: 0 <= i < j < |ActiveItems(pathname)| ==> ActiveItems(pathname)[i] != ActiveItems(pathname)[j]
  {
    assert Increasing(NavPaths, PathRank);
    FilterIncreasing(NavPaths, (path: string) => IsActive(pathname, path), PathRank);
  }

  /** Position of a path in the nav, for telling items apart. */
  function PathRank(path: string): int
  {
    if path == Dashboard then 0
    else if path == "/clinics" then 1
    else if path == "/manuals" then 2
    else if path == "/routines" then 3
    else if path == "/waste" then 4
    else if path == "/health" then 5
    else 6
  }
}

/** The newest package per name: `Packages.add_package` of 2.12/tools/opkg-utils/opkg.py. */
module PackageIndex {
  import opened Wrappers
  import opened OpkgVersions

  datatype Package = Package(package: string, architecture: string, versionText: string, parsed: Version)

  function KeyOf(p: Package, optA: bool): string
  {
    p.package + ":" + p.architecture + if optA then ":" + p.versionText else ""
  }

  /** With names that hold no colon, packages share a key exactly if they share package and architecture, and version as
      well if old versions are kept. */
  lemma {:induction false} KeysExactly(p: Package, q: Package, optA: bool)
    requires ':' !in p.package && ':' !in q.package && ':' !in p.architecture && ':' !in q.architecture
    ensures KeyOf(p, optA) == KeyOf(q, optA) <==>
      p.package == q.package && p.architecture == q.architecture && (optA ==> p.versionText == q.versionText)
  {
    var tail := if optA then ":" + p.versionText else "";
    var tail' := if optA then ":" + q.versionText else "";
    assert KeyOf(p, optA) == p.package + [':'] + (p.architecture + tail);
    assert KeyOf(q, optA) == q.package + [':'] + (q.architecture + tail');
    if KeyOf(p, optA) == KeyOf(q, optA) {
      UpToColon(p.package, p.architecture + tail, q.package, q.architecture + tail');
      if optA {
        assert p.architecture + tail == p.architecture + [':'] + p.versionText;
        assert q.architecture + tail' == q.architecture + [':'] + q.versionText;
        UpToColon(p.architecture, p.versionText, q.architecture, q.versionText);
      } else {
        assert p.architecture + tail == p.architecture && q.architecture + tail' == q.architecture;
      }
    }
  }

  lemma {:induction false} UpToColon(a: string, r: string, b: string, t: string)
    requires ':' !in a && ':' !in b && a + [':'] + r == b + [':'] + t
    ensures a == b && r == t
  {
    var x := a + [':'] + r;
    assert x[|a|] == ':' && forall k :: 0 <= k < |a| ==> x[k] == a[k] && a[k] in a;
    assert x == b + [':'] + t;
    assert x[|b|] == ':' && forall k :: 0 <= k < |b| ==> x[k] == b[k] && b[k] in b;
    assert |a| == |b|;
    assert x[..|a|] == a && x[..|b|] == b && x[|a| + 1..] == r && x[|b| + 1..] == t;
  }

  /** `p` is at least as new as `q`. */
  ghost predicate AtLeast(p: Package, q: Package)
  {
    CompareVersions(p.parsed, q.parsed) >= 0
  }

  ghost predicate AllUsable(pkgs: seq<Package>)
  {
    forall k :: 0 <= k < |pkgs| ==> Usable(pkgs[k].parsed)
  }

  /** Under every key used, one of the packages added under it that is at least as new as all of them; under no other
      key. */
  ghost predicate Newest(packages: map<string, Package>, added: seq<Package>, optA: bool)
  {
    && (forall name :: name in packages ==> packages[name] in added && KeyOf(packages[name], optA) == name)
    && (forall p :: p in added ==> KeyOf(p, optA) in packages && AtLeast(packages[KeyOf(p, optA)], p))
  }

  lemma {:induction false} NewestAdded(packages: map<string, Package>, added: seq<Package>, optA: bool, p: Package)
    requires Newest(packages, added, optA) && AllUsable(added) && Usable(p.parsed)
    requires KeyOf(p, optA) !in packages || AtLeast(p, packages[KeyOf(p, optA)])
    ensures Newest(packages[KeyOf(p, optA) := p], added + [p], optA)
  {
    hide CompareVersions, Usable, KeyOf;
    var name := KeyOf(p, optA);
    var packages' := packages[name := p];
    CompareVersionsIsPreorder(p.parsed, p.parsed, p.parsed);
    forall q | q in added + [p]
      ensures KeyOf(q, optA) in packages' && AtLeast(packages'[KeyOf(q, optA)], q)
    {
      if q in added && KeyOf(q, optA) == name {
        var was := packages[name];
        assert was in added && q in added;
        CompareVersionsIsPreorder(was.parsed, q.parsed, p.parsed);
        CompareVersionsIsPreorder(p.parsed, was.parsed, q.parsed);
        CompareVersionsIsPreorder(q.parsed, p.parsed, was.parsed);
        CompareVersionsIsPreorder(q.parsed, was.parsed, p.parsed);
      }
    }
  }

  lemma {:induction false} NewestKept(packages: map<string, Package>, added: seq<Package>, optA: bool, p: Package)
    requires Newest(packages, added, optA) && Usable(p.parsed) && AllUsable(added)
    requires KeyOf(p, optA) in packages && !AtLeast(p, packages[KeyOf(p, optA)])
    ensures Newest(packages, added + [p], optA)
  {
    hide CompareVersions, Usable, KeyOf;
    var was := packages[KeyOf(p, optA)];
    CompareVersionsIsPreorder(p.parsed, was.parsed, was.parsed);
  }

  class Packages {
    var packages: map<string, Package>

    constructor ()
      ensures packages == map[]
    {
      packages := map[];
    }

    /** `add_package`: 0 if the package is now the one under its name, else 1. */
    method AddPackage(pkg: Package, optA: bool, ghost added: seq<Package>) returns (code: int)
      requires Usable(pkg.parsed) && AllUsable(added) && Newest(packages, added, optA)
      modifies this
      ensures Newest(packages, added + [pkg], optA)
      ensures code == if KeyOf(pkg, optA) in old(packages) && !AtLeast(pkg, old(packages)[KeyOf(pkg, optA)]) then 1 else 0
      ensures packages == if code == 0 then old(packages)[KeyOf(pkg, optA) := pkg] else old(packages)
    {
      hide CompareVersions, Usable, KeyOf;
      var name := KeyOf(pkg, optA);
      CompareVersionsIsPreorder(pkg.parsed, pkg.parsed, pkg.parsed);
      if name !in packages {
        NewestAdded(packages, added, optA, pkg);
        packages := packages[name := pkg];
      } else if AtLeast(pkg, packages[name]) {
        NewestAdded(packages, added, optA, pkg);
      } else {
        NewestKept(packages, added, optA, pkg);
      }
      assert Usable(packages[name].parsed);
      var c := VersionCompare(pkg.parsed, packages[name].parsed);
      if c >= 0 {
        packages := packages[name := pkg];
        return 0;
      } else {
        return 1;
      }
    }

    /** The loop of `read_packages_file` over packages that were read. */
    method AddAll(pkgs: seq<Package>, optA: bool)
      requires AllUsable(pkgs) && packages == map[]
      modifies this
      ensures Newest(packages, pkgs, optA)
    {
      for k := 0 to |pkgs|
        invariant Newest(packages, pkgs[..k], optA)
      {
        assert pkgs[..k + 1] == pkgs[..k] + [pkgs[k]];
        var code := AddPackage(pkgs[k], optA, pkgs[..k]);
      }
      assert pkgs[..|pkgs|] == pkgs;
    }
  }

  /** The order of adding does not matter, up to packages of the same version. */
  lemma {:induction false} OrderIndependent(a: map<string, Package>, b: map<string, Package>, added: seq<Package>,
                                            added': seq<Package>, optA: bool)
    requires AllUsable(added) && multiset(added) == multiset(added')
    requires Newest(a, added, optA) && Newest(b, added', optA)
    ensures a.Keys == b.Keys
    ensures forall name :: name in a ==> CompareVersions(a[name].parsed, b[name].parsed) == 0
  {
    hide CompareVersions, Usable, KeyOf;
    assert forall p :: p in added <==> p in multiset(added);
    assert forall p :: p in added' <==> p in multiset(added');
    forall name | name in a
      ensures name in b && CompareVersions(a[name].parsed, b[name].parsed) == 0
    {
      assert a[name] in added' && KeyOf(a[name], optA) == name;
      assert b[name] in added && KeyOf(b[name], optA) == name;
      assert AtLeast(b[name], a[name]) && AtLeast(a[name], b[name]);
      CompareVersionsIsPreorder(a[name].parsed, b[name].parsed, a[name].parsed);
    }
    forall name | name in b
      ensures name in a
    {
      assert b[name] in added;
    }
  }
}

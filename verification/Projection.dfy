/** The part of the Munki repository one host may see: the packages effective for
    it and everything they pull in through requires and update_for. */
module Projection {
  import opened Basics
  import opened Packages

  datatype RepositoryProjection = RepositoryProjection(
    packages: seq<Package>,
    packageIDs: set<Id>,
    iconObjectIDs: set<Id>)

  // ------------------------------------------------------- what is to be included

  /** A reference names one package by id, or every version of some software. */
  ghost predicate Names(ref: Reference, repository: seq<Package>, id: Id) {
    if ref.packageID.number > 0 then id == ref.packageID
    else exists pkg :: pkg in repository && pkg.software.id == ref.softwareID && pkg.id == id
  }

  /** Package a pulls in package b: a refers to b, or b is an update for a. */
  ghost predicate PullsIn(repository: seq<Package>, a: Id, b: Id) {
    exists pkg :: pkg in repository && PullsInBy(repository, pkg, a, b)
  }

  ghost predicate PullsInBy(repository: seq<Package>, pkg: Package, a: Id, b: Id) {
    (pkg.id == a && NamedBySome(repository, pkg.requirements + pkg.updateFor, b))
    || (pkg.id == b && NamedBySome(repository, pkg.updateFor, a))
  }

  ghost predicate NamedBySome(repository: seq<Package>, refs: seq<Reference>, id: Id) {
    exists ref :: ref in refs && Names(ref, repository, id)
  }

  /** A chain of packages, each pulled in by the one before it. */
  ghost predicate Chain(repository: seq<Package>, chain: seq<Id>) {
    forall i :: 0 < i < |chain| ==> PullsIn(repository, chain[i - 1], chain[i])
  }

  ghost predicate ChainFrom(repository: seq<Package>, start: set<Id>, chain: seq<Id>, id: Id) {
    chain != [] && chain[0] in start && chain[|chain| - 1] == id && Chain(repository, chain)
  }

  /** The closure: every id a chain leads to from a starting id. */
  ghost predicate Reachable(repository: seq<Package>, start: set<Id>, id: Id) {
    exists chain :: ChainFrom(repository, start, chain, id)
  }

  ghost predicate Closed(repository: seq<Package>, ids: set<Id>) {
    forall a, b :: a in ids && PullsIn(repository, a, b) ==> b in ids
  }

  /** Ids that can ever be included. Effective and pinned ids need not be in the
      repository. */
  ghost function Universe(repository: seq<Package>, start: set<Id>): set<Id> {
    start
    + (set pkg | pkg in repository :: pkg.id)
    + (set pkg, ref | pkg in repository && ref in pkg.requirements + pkg.updateFor :: ref.packageID)
  }

  function Included(repository: seq<Package>, ids: set<Id>): (packages: seq<Package>)
    ensures forall pkg :: pkg in packages <==> pkg in repository && pkg.id in ids
  {
    if repository == [] then []
    else if repository[0].id in ids then [repository[0]] + Included(repository[1..], ids)
    else Included(repository[1..], ids)
  }

  lemma IncludedAppend(repository: seq<Package>, pkg: Package, ids: set<Id>)
    ensures Included(repository + [pkg], ids) == Included(repository, ids) + Included([pkg], ids)
  {
    if repository == [] {
      assert repository + [pkg] == [pkg];
    } else {
      assert (repository + [pkg])[1..] == repository[1..] + [pkg];
      IncludedAppend(repository[1..], pkg, ids);
    }
  }

  /** The packages are those at the given positions of the repository, in its order and
      each once, and the positions are all whose package has one of the ids. */
  ghost predicate ListsInOrder(repository: seq<Package>, ids: set<Id>, positions: seq<nat>, packages: seq<Package>) {
    Ascending(positions, |repository|) && |packages| == |positions|
    && (forall i :: 0 <= i < |packages| ==> packages[i] == repository[positions[i]])
    && forall k: nat :: k < |repository| ==> (k in positions <==> repository[k].id in ids)
  }

  lemma {:induction false} IncludedInOrder(
    repository: seq<Package>, ids: set<Id>, keep: Package -> bool, same: Package -> Package)
    requires forall pkg :: (keep(pkg) <==> pkg.id in ids) && same(pkg) == pkg
    ensures MapsKept(keep, same, repository, Included(repository, ids))
  {
    if repository != [] {
      var before, last := repository[..|repository| - 1], repository[|repository| - 1];
      IncludedInOrder(before, ids, keep, same);
      assert repository == before + [last];
      IncludedAppend(before, last, ids);
      MapsOneMore(keep, same, before, last, Included(before, ids));
    }
  }

  lemma IncludedIsListed(repository: seq<Package>, ids: set<Id>) returns (positions: seq<nat>)
    ensures ListsInOrder(repository, ids, positions, Included(repository, ids))
  {
    var keep := (pkg: Package) => pkg.id in ids;
    positions := Kept(keep, repository);
    IncludedInOrder(repository, ids, keep, pkg => pkg);
  }

  // ------------------------------------------------------------- the computation

  method IncludedSoftwareIDs(repository: seq<Package>, packageIDs: set<Id>) returns (ids: set<Id>)
    ensures forall id :: id in ids <==>
      exists pkg :: pkg in repository && pkg.id in packageIDs && pkg.software.id == id
  {
    ids := {};
    for i := 0 to |repository|
      invariant forall id :: id in ids <==>
        exists pkg :: pkg in repository[..i] && pkg.id in packageIDs && pkg.software.id == id
    {
      assert repository[..i + 1] == repository[..i] + [repository[i]];
      if repository[i].id in packageIDs {
        ids := ids + {repository[i].software.id};
      }
    }
    assert repository[..|repository|] == repository;
  }

  method AddReferences(packageIDs: set<Id>, repository: seq<Package>, references: seq<Reference>)
    returns (grown: set<Id>, changed: bool)
    ensures forall id :: id in grown <==> id in packageIDs || NamedBySome(repository, references, id)
    ensures packageIDs <= grown
    ensures changed <==> grown != packageIDs
  {
    grown, changed := packageIDs, false;
    for i := 0 to |references|
      invariant packageIDs <= grown
      invariant forall id :: id in grown <==> id in packageIDs || NamedBySome(repository, references[..i], id)
      invariant changed <==> grown != packageIDs
    {
      var ref := references[i];
      assert references[..i + 1] == references[..i] + [ref];
      ghost var before := grown;
      if ref.packageID.number > 0 {
        if ref.packageID !in grown {
          grown, changed := grown + {ref.packageID}, true;
        }
      } else {
        for j := 0 to |repository|
          invariant packageIDs <= before <= grown
          invariant forall id :: id in grown <==> (id in before
            || exists pkg :: pkg in repository[..j] && pkg.software.id == ref.softwareID && pkg.id == id)
          invariant changed <==> grown != packageIDs
        {
          var pkg := repository[j];
          assert repository[..j + 1] == repository[..j] + [pkg];
          if pkg.software.id == ref.softwareID && pkg.id !in grown {
            grown, changed := grown + {pkg.id}, true;
          }
        }
        assert repository[..|repository|] == repository;
      }
      assert forall id :: id in grown <==> id in before || Names(ref, repository, id);
    }
    assert references[..|references|] == references;
  }

  predicate ReferenceMatchesIncluded(ref: Reference, packageIDs: set<Id>, softwareIDs: set<Id>) {
    if ref.packageID.number > 0 then ref.packageID in packageIDs else ref.softwareID in softwareIDs
  }

  method MatchesIncluded(refs: seq<Reference>, packageIDs: set<Id>, softwareIDs: set<Id>)
    returns (found: bool)
    ensures found <==>
      exists ref :: ref in refs && ReferenceMatchesIncluded(ref, packageIDs, softwareIDs)
  {
    for i := 0 to |refs|
      invariant forall ref :: ref in refs[..i] ==> !ReferenceMatchesIncluded(ref, packageIDs, softwareIDs)
    {
      assert refs[..i + 1] == refs[..i] + [refs[i]];
      if ReferenceMatchesIncluded(refs[i], packageIDs, softwareIDs) {
        return true;
      }
    }
    assert refs[..|refs|] == refs;
    found := false;
  }

  /** One pass over the repository. The software ids are read once, before the
      pass, so later packages can meet a stale set. */
  method Pass(ghost start: set<Id>, before: set<Id>, repository: seq<Package>)
    returns (packageIDs: set<Id>, changed: bool)
    requires before <= Universe(repository, start)
    requires forall id :: id in before ==> Reachable(repository, start, id)
    ensures before <= packageIDs <= Universe(repository, start)
    ensures forall id :: id in packageIDs ==> Reachable(repository, start, id)
    ensures changed <==> packageIDs != before
    ensures !changed ==> Closed(repository, packageIDs)
  {
    packageIDs, changed := before, false;
    ghost var universe := Universe(repository, start);
    var softwareIDs := IncludedSoftwareIDs(repository, packageIDs);
    for i := 0 to |repository|
      invariant before <= packageIDs <= universe
      invariant changed <==> packageIDs != before
      invariant forall id :: id in packageIDs ==> Reachable(repository, start, id)
      invariant !changed ==> forall pkg, a, b ::
        pkg in repository[..i] && a in before && PullsInBy(repository, pkg, a, b) ==> b in before
    {
      var pkg := repository[i];
      ghost var atStart := packageIDs;
      assert repository[..i + 1] == repository[..i] + [pkg];
      if pkg.id in packageIDs {
        var grew;
        packageIDs, grew := AddReferences(packageIDs, repository, pkg.requirements);
        changed := grew || changed;
        packageIDs, grew := AddReferences(packageIDs, repository, pkg.updateFor);
        changed := grew || changed;
        AddedIsReachable(repository, start, universe, pkg, atStart, packageIDs);
      }
      if pkg.id !in packageIDs {
        var found := MatchesIncluded(pkg.updateFor, packageIDs, softwareIDs);
        if found {
          UpdateIsReachable(repository, start, pkg, packageIDs, softwareIDs);
          packageIDs, changed := packageIDs + {pkg.id}, true;
        }
      }
      assert !changed ==> forall a, b :: a in before && PullsInBy(repository, pkg, a, b) ==> b in before;
    }
    assert repository[..|repository|] == repository;
  }

  method Collect(packageIDs: set<Id>, repository: seq<Package>)
    returns (packages: seq<Package>, icons: set<Id>)
    ensures packages == Included(repository, packageIDs)
    ensures exists positions :: ListsInOrder(repository, packageIDs, positions, packages)
    ensures forall id :: id in icons <==>
      exists pkg :: pkg in packages && pkg.software.iconObjectID == Some(id)
  {
    packages, icons := [], {};
    for i := 0 to |repository|
      invariant packages == Included(repository[..i], packageIDs)
      invariant forall id :: id in icons <==>
        exists pkg :: pkg in packages && pkg.software.iconObjectID == Some(id)
    {
      var pkg := repository[i];
      assert repository[..i + 1] == repository[..i] + [pkg];
      IncludedAppend(repository[..i], pkg, packageIDs);
      if pkg.id in packageIDs {
        packages := packages + [pkg];
        if pkg.software.iconObjectID.Some? {
          icons := icons + {pkg.software.iconObjectID.value};
        }
      }
    }
    assert repository[..|repository|] == repository;
    ghost var positions := IncludedIsListed(repository, packageIDs);
  }

  /** buildRepositoryProjection: passes over the repository until one adds nothing. */
  method BuildRepositoryProjection(effective: seq<Id>, repository: seq<Package>)
    returns (projection: RepositoryProjection)
    ensures forall id :: id in projection.packageIDs <==>
      Reachable(repository, (set e | e in effective), id)
    ensures projection.packages == Included(repository, projection.packageIDs)
    ensures exists positions ::
      ListsInOrder(repository, projection.packageIDs, positions, projection.packages)
    ensures forall id :: id in projection.iconObjectIDs <==>
      exists pkg :: pkg in projection.packages && pkg.software.iconObjectID == Some(id)
  {
    var packageIDs := {};
    for i := 0 to |effective|
      invariant packageIDs == (set e | e in effective[..i])
    {
      assert effective[..i + 1] == effective[..i] + [effective[i]];
      packageIDs := packageIDs + {effective[i]};
    }
    assert effective[..|effective|] == effective;
    ghost var start := packageIDs;
    forall id | id in start ensures Reachable(repository, start, id) {
      assert ChainFrom(repository, start, [id], id);
    }
    var changed := true;
    while changed
      invariant start <= packageIDs <= Universe(repository, start)
      invariant forall id :: id in packageIDs ==> Reachable(repository, start, id)
      invariant !changed ==> Closed(repository, packageIDs)
      decreases Universe(repository, start) - packageIDs, changed
    {
      packageIDs, changed := Pass(start, packageIDs, repository);
    }
    forall id | Reachable(repository, start, id) ensures id in packageIDs {
      ReachableIsLeast(repository, start, packageIDs, id);
    }
    var packages, icons := Collect(packageIDs, repository);
    projection := RepositoryProjection(packages, packageIDs, icons);
  }

  // ------------------------------------------------------------------- the proof

  lemma ReachableStep(repository: seq<Package>, start: set<Id>, a: Id, b: Id)
    requires Reachable(repository, start, a) && PullsIn(repository, a, b)
    ensures Reachable(repository, start, b)
  {
    var chain :| ChainFrom(repository, start, chain, a);
    assert ChainFrom(repository, start, chain + [b], b);
  }

  lemma NamedIsInUniverse(
    repository: seq<Package>, start: set<Id>, pkg: Package, ref: Reference, id: Id)
    requires pkg in repository && ref in pkg.requirements + pkg.updateFor && Names(ref, repository, id)
    ensures id in Universe(repository, start)
  {}

  lemma AddedIsReachable(
    repository: seq<Package>, start: set<Id>, universe: set<Id>,
    pkg: Package, before: set<Id>, after: set<Id>)
    requires pkg in repository && pkg.id in before
    requires universe == Universe(repository, start) && before <= universe
    requires forall id :: id in before ==> Reachable(repository, start, id)
    requires forall id :: id in after ==>
      id in before || NamedBySome(repository, pkg.requirements, id) || NamedBySome(repository, pkg.updateFor, id)
    ensures after <= universe
    ensures forall id :: id in after ==> Reachable(repository, start, id)
  {
    forall id | id in after ensures id in universe && Reachable(repository, start, id) {
      if id !in before {
        var ref :| ref in pkg.requirements + pkg.updateFor && Names(ref, repository, id);
        NamedIsInUniverse(repository, start, pkg, ref, id);
        assert NamedBySome(repository, pkg.requirements + pkg.updateFor, id);
        assert PullsInBy(repository, pkg, pkg.id, id);
        ReachableStep(repository, start, pkg.id, id);
      }
    }
  }

  lemma UpdateIsReachable(
    repository: seq<Package>, start: set<Id>, pkg: Package, packageIDs: set<Id>, softwareIDs: set<Id>)
    requires pkg in repository
    requires forall id :: id in packageIDs ==> Reachable(repository, start, id)
    requires forall id :: id in softwareIDs ==>
      exists p :: p in repository && p.id in packageIDs && p.software.id == id
    requires exists ref :: ref in pkg.updateFor && ReferenceMatchesIncluded(ref, packageIDs, softwareIDs)
    ensures Reachable(repository, start, pkg.id)
  {
    var ref :| ref in pkg.updateFor && ReferenceMatchesIncluded(ref, packageIDs, softwareIDs);
    var a :| a in packageIDs && Names(ref, repository, a);
    assert PullsInBy(repository, pkg, a, pkg.id);
    ReachableStep(repository, start, a, pkg.id);
  }

  /** The reachable ids lie in every closed set that holds the starting ids. */
  lemma ReachableIsLeast(repository: seq<Package>, start: set<Id>, closed: set<Id>, id: Id)
    requires start <= closed && Closed(repository, closed)
    requires Reachable(repository, start, id)
    ensures id in closed
  {
    var chain :| ChainFrom(repository, start, chain, id);
    ChainStaysIn(repository, closed, chain);
  }

  lemma {:induction false} ChainStaysIn(repository: seq<Package>, closed: set<Id>, chain: seq<Id>)
    requires Closed(repository, closed) && Chain(repository, chain)
    requires chain != [] && chain[0] in closed
    ensures chain[|chain| - 1] in closed
  {
    if |chain| > 1 {
      ChainStaysIn(repository, closed, chain[..|chain| - 1]);
    }
  }

  // -------------------------------------------------------- laws of the projection

  /** A closed set of ids holds what its packages require and what they are updates for,
      and every update for one of its packages: by id, or where a reference has none, all
      packages of the software. */
  lemma ClosedByReference(repository: seq<Package>, ids: set<Id>)
    requires Closed(repository, ids)
    ensures forall pkg, ref | pkg in repository && pkg.id in ids && ref in pkg.requirements + pkg.updateFor ::
      if ref.packageID.number > 0 then ref.packageID in ids
      else forall other :: other in repository && other.software.id == ref.softwareID ==> other.id in ids
    ensures forall pkg, ref, other |
      pkg in repository && ref in pkg.updateFor && ref.packageID.number == 0
      && other in repository && other.id in ids && other.software.id == ref.softwareID :: pkg.id in ids
    ensures forall pkg, ref |
      pkg in repository && ref in pkg.updateFor && ref.packageID.number > 0 && ref.packageID in ids :: pkg.id in ids
  {}

  /** And a set of ids that holds them is closed: the closure is the least such set. */
  lemma ReferencesClose(repository: seq<Package>, ids: set<Id>)
    requires forall pkg, ref | pkg in repository && pkg.id in ids && ref in pkg.requirements + pkg.updateFor ::
      if ref.packageID.number > 0 then ref.packageID in ids
      else forall other :: other in repository && other.software.id == ref.softwareID ==> other.id in ids
    requires forall pkg, ref, other |
      pkg in repository && ref in pkg.updateFor && ref.packageID.number == 0
      && other in repository && other.id in ids && other.software.id == ref.softwareID :: pkg.id in ids
    requires forall pkg, ref |
      pkg in repository && ref in pkg.updateFor && ref.packageID.number > 0 && ref.packageID in ids :: pkg.id in ids
    ensures Closed(repository, ids)
  {}

  /** More effective packages never hide a package. */
  lemma ProjectionIsMonotone(repository: seq<Package>, fewer: set<Id>, more: set<Id>, id: Id)
    requires fewer <= more && Reachable(repository, fewer, id)
    ensures Reachable(repository, more, id)
  {
    var chain :| ChainFrom(repository, fewer, chain, id);
    assert ChainFrom(repository, more, chain, id);
  }

  /** Projecting the projected ids again adds nothing. */
  lemma ProjectionIsIdempotent(repository: seq<Package>, start: set<Id>, projected: set<Id>, id: Id)
    requires forall p :: p in projected <==> Reachable(repository, start, p)
    ensures Reachable(repository, projected, id) <==> id in projected
  {
    if id in projected {
      assert ChainFrom(repository, projected, [id], id);
    }
    if Reachable(repository, projected, id) {
      forall a, b | a in projected && PullsIn(repository, a, b) ensures b in projected {
        ReachableStep(repository, start, a, b);
      }
      ReachableIsLeast(repository, projected, projected, id);
    }
  }

  /** The projected ids do not depend on the order or repetition of the
      repository's packages. */
  lemma ProjectionIgnoresOrder(
    repository: seq<Package>, reordered: seq<Package>, start: set<Id>, id: Id)
    requires forall pkg :: pkg in repository <==> pkg in reordered
    ensures Reachable(repository, start, id) <==> Reachable(reordered, start, id)
  {
    forall a, b ensures PullsIn(repository, a, b) <==> PullsIn(reordered, a, b) {
      if PullsIn(repository, a, b) {
        SamePulls(repository, reordered, a, b);
      }
      if PullsIn(reordered, a, b) {
        SamePulls(reordered, repository, a, b);
      }
    }
    if Reachable(repository, start, id) {
      var chain :| ChainFrom(repository, start, chain, id);
      assert ChainFrom(reordered, start, chain, id);
    }
    if Reachable(reordered, start, id) {
      var chain :| ChainFrom(reordered, start, chain, id);
      assert ChainFrom(repository, start, chain, id);
    }
  }

  lemma SamePulls(repository: seq<Package>, reordered: seq<Package>, a: Id, b: Id)
    requires forall pkg :: pkg in repository <==> pkg in reordered
    requires PullsIn(repository, a, b)
    ensures PullsIn(reordered, a, b)
  {
    var pkg :| pkg in repository && PullsInBy(repository, pkg, a, b);
    forall ref: Reference, id ensures Names(ref, repository, id) == Names(ref, reordered, id) {}
    assert PullsInBy(reordered, pkg, a, b);
  }
}

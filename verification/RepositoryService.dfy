/** The Munki repository one host sees: its catalog, its downloads and its icons. */
module RepositoryService {
  import opened Basics
  import MergePatch
  import opened Packages
  import opened Pkginfo
  import opened Projection
  import opened Strings

  const CATALOG_NAME := "woodstar"

  datatype Failure = NotFound | NotFinalized(packageID: Id)

  /** The tables the service reads; an object is found under its id. */
  datatype Repository = Repository(packages: seq<Package>, objects: map<Id, StoredObject>) {
    /** Ids come from bigint sequences, and are primary keys. */
    ghost predicate Valid() {
      (forall i, j :: 0 <= i < j < |packages| ==> packages[i].id != packages[j].id)
      && (forall pkg :: pkg in packages ==> 0 < pkg.id.number <= MAX_INT64)
      && forall id :: id in objects ==> objects[id].id == id && 0 < id.number <= MAX_INT64
    }
  }

  // ----------------------------------------------------------- locations and icon names

  /** Go's strings.Split around a single character. */
  function Split(s: string, c: char): (parts: seq<string>)
    ensures parts != []
    decreases |s|
  {
    var cut := Cut(s, [c]);
    if cut.found then [cut.before] + Split(cut.after, c) else [s]
  }

  function ParseInstallerItemLocation(location: string): Option<Id> {
    var parts := Split(location, '/');
    if |parts| != 4 || parts[0] != "packages" || parts[2] != "installer" || parts[3] == "" then None
    else PositiveId(parts[1])
  }

  function ParseIconName(name: string): Option<Id> {
    var cut := Cut(name, "-");
    if !cut.found || cut.after == "" then None else PositiveId(cut.before)
  }

  function PositiveId(text: string): Option<Id> {
    match ParseInt(text) case None => None case Some(n) => if n > 0 then Some(Id(n)) else None
  }

  lemma SplitFirst(a: string, c: char, b: string)
    requires c !in a
    ensures Split(a + [c] + b, c) == [a] + Split(b, c)
  {
    CutCharFree(a, c, b);
  }

  lemma SplitLast(a: string, c: char)
    ensures c !in a <==> Split(a, c) == [a]
    ensures c in a ==> |Split(a, c)| > 1
  {
    var cut := Cut(a, [c]);
    if c in a {
      var i :| 0 <= i < |a| && a[i] == c;
      assert a[i..i + 1] == [c];
      assert OccursAt(a, [c], i);
    }
    if cut.found {
      var i := IndexFrom(a, [c], 0).value;
      assert a[i] == a[i..i + 1][0] == c;
    }
  }

  lemma Reassociated<T>(a: seq<T>, b: seq<T>, c: seq<T>, d: seq<T>, s: seq<T>)
    ensures a + s + b + s + c + s + d == a + s + (b + s + (c + s + d))
  {}

  lemma ThreeFirst<T>(a: T, b: T, c: T, rest: seq<T>)
    ensures [a] + ([b] + ([c] + rest)) == [a, b, c] + rest
  {}

  lemma SplitInFour(a: string, b: string, c: string, d: string, sep: char)
    requires sep !in a && sep !in b && sep !in c
    ensures Split(a + [sep] + b + [sep] + c + [sep] + d, sep) == [a, b, c] + Split(d, sep)
  {
    Reassociated(a, b, c, d, [sep]);
    SplitFirst(a, sep, b + [sep] + (c + [sep] + d));
    SplitFirst(b, sep, c + [sep] + d);
    SplitFirst(c, sep, d);
    ThreeFirst(a, b, c, Split(d, sep));
  }

  lemma LiteralsAreSlashFree()
    ensures '/' !in "packages" && '/' !in "installer"
    ensures "packages" + ['/'] == "packages/" && ['/'] + "installer" + ['/'] == "/installer/"
  {}

  lemma LocationParts(number: string, filename: string)
    requires '/' !in number
    ensures Split("packages/" + number + "/installer/" + filename, '/')
         == ["packages", number, "installer"] + Split(filename, '/')
  {
    LiteralsAreSlashFree();
    SplitInFour("packages", number, "installer", filename, '/');
    Joined("packages/", number, ['/'], "installer", ['/'], filename);
  }

  lemma Joined(a: string, b: string, c: string, d: string, e: string, f: string)
    ensures a + b + c + d + e + f == a + b + (c + d + e) + f
  {}

  /** An installer location parses to its package exactly when its file has a name
      without slashes. */
  lemma LocationParses(packageID: Id, stored: StoredObject)
    requires 0 < packageID.number <= MAX_INT64 && stored.id.number > 0
    ensures ParseInstallerItemLocation(InstallerItemLocationOf(packageID, stored)) == Some(packageID)
            <==> stored.filename != "" && '/' !in stored.filename
  {
    var number, filename := FormatInt(packageID.number), stored.filename;
    if filename == "" {
      SplitLast("", '/');
    } else {
      FormatIsDigits(packageID.number);
      LocationParts(number, filename);
      SplitLast(filename, '/');
      NumberParses(packageID);
    }
  }

  lemma NumberParses(id: Id)
    requires 0 < id.number <= MAX_INT64
    ensures PositiveId(FormatInt(id.number)) == Some(id)
  {
    DecimalRoundTrip(id.number);
  }

  /** An icon name parses to its object exactly when its file has a name. */
  lemma IconParses(stored: StoredObject)
    requires 0 < stored.id.number <= MAX_INT64
    ensures ParseIconName(IconNameOf(stored)) == Some(stored.id) <==> stored.filename != ""
  {
    if stored.filename != "" {
      FormatIsDigits(stored.id.number);
      CutCharFree(FormatInt(stored.id.number), '-', stored.filename);
      DecimalRoundTrip(stored.id.number);
    } else {
      assert IconNameOf(stored) == "";
    }
  }

  /** Two stored objects share an icon name only if they are one file of one object. */
  lemma IconNamesAreInjective(a: StoredObject, b: StoredObject)
    requires 0 < a.id.number <= MAX_INT64 && 0 < b.id.number <= MAX_INT64
    requires IconNameOf(a) == IconNameOf(b) != ""
    ensures a.id == b.id && a.filename == b.filename
  {
    IconParses(a);
    IconParses(b);
    FormatIsDigits(a.id.number);
    CutCharFree(FormatInt(a.id.number), '-', a.filename);
    CutCharFree(FormatInt(b.id.number), '-', b.filename);
  }

  // -------------------------------------------------------------------------- objects

  function ObjectByID(objects: map<Id, StoredObject>, id: Option<Id>): Option<StoredObject> {
    if id.Some? && id.value in objects then Some(objects[id.value]) else None
  }

  function ObjectsFor(objects: map<Id, StoredObject>, pkg: Package): Objects {
    Objects(ObjectByID(objects, pkg.installerObjectID), ObjectByID(objects, pkg.software.iconObjectID))
  }

  /** ListByIDs: the objects there are. */
  function ListByIDs(objects: map<Id, StoredObject>, ids: seq<Id>): map<Id, StoredObject> {
    map id | id in ids && id in objects :: objects[id]
  }

  function AppendObjectID(ids: seq<Id>, id: Option<Id>): seq<Id> {
    if id.None? then ids else ids + [id.value]
  }

  /** One query for the objects of all the packages finds each package's own. */
  method ObjectsForPackages(objects: map<Id, StoredObject>, pkgs: seq<Package>) returns (found: map<Id, StoredObject>)
    ensures forall pkg :: pkg in pkgs ==> ObjectsFor(found, pkg) == ObjectsFor(objects, pkg)
  {
    var ids := [];
    for i := 0 to |pkgs|
      invariant forall j :: 0 <= j < i ==> pkgs[j].installerObjectID.Some? ==> pkgs[j].installerObjectID.value in ids
      invariant forall j :: 0 <= j < i ==>
        pkgs[j].software.iconObjectID.Some? ==> pkgs[j].software.iconObjectID.value in ids
    {
      ids := AppendObjectID(ids, pkgs[i].installerObjectID);
      ids := AppendObjectID(ids, pkgs[i].software.iconObjectID);
    }
    found := ListByIDs(objects, ids);
  }

  // -------------------------------------------------------------------------- catalog

  /** The ids a host may see. */
  ghost predicate IsVisible(repository: Repository, effective: seq<Id>, id: Id) {
    Reachable(repository.packages, (set e | e in effective), id)
  }

  predicate NeedsInstaller(pkg: Package) {
    TextOf(pkg.metadata.texts, InstallerType) != INSTALLER_TYPE_NOPKG
  }

  /** The installer of a package, once it is finalized. */
  function FinalizedInstaller(repository: Repository, pkg: Package): Option<StoredObject> {
    var installer := ObjectByID(repository.objects, pkg.installerObjectID);
    if NeedsInstaller(pkg) && installer.Some? && installer.value.available then installer else None
  }

  predicate IsFinalized(repository: Repository, pkg: Package) {
    NeedsInstaller(pkg) ==> FinalizedInstaller(repository, pkg).Some?
  }

  ghost predicate IsItem(repository: Repository, pkg: Package, item: Fields) {
    IsRendering(pkg, ObjectsFor(repository.objects, pkg), item)
  }

  /** The packages are those at the given positions of the repository, in its order and
      each once, and the positions are all whose package is visible. */
  ghost predicate ListsVisible(
    repository: Repository, effective: seq<Id>, positions: seq<nat>, pkgs: seq<Package>)
  {
    Ascending(positions, |repository.packages|) && |pkgs| == |positions|
    && (forall i :: 0 <= i < |pkgs| ==> pkgs[i] == repository.packages[positions[i]])
    && forall k: nat :: k < |repository.packages| ==>
         (k in positions <==> IsVisible(repository, effective, repository.packages[k].id))
  }

  /** A catalog lists every visible package in repository order. */
  ghost predicate IsCatalog(repository: Repository, effective: seq<Id>, pkgs: seq<Package>, items: seq<Fields>) {
    |items| == |pkgs|
    && (exists positions :: ListsVisible(repository, effective, positions, pkgs))
    && (forall pkg :: pkg in pkgs <==> pkg in repository.packages && IsVisible(repository, effective, pkg.id))
    && forall i :: 0 <= i < |pkgs| ==> IsItem(repository, pkgs[i], items[i])
  }

  ghost predicate IsFirstUnfinalized(repository: Repository, pkgs: seq<Package>, i: int) {
    0 <= i < |pkgs| && !IsFinalized(repository, pkgs[i]) && forall j :: 0 <= j < i ==> IsFinalized(repository, pkgs[j])
  }

  /** The first visible package of the repository that is not finalized. */
  ghost predicate IsFirstMissing(repository: Repository, effective: seq<Id>, k: int) {
    0 <= k < |repository.packages|
    && IsVisible(repository, effective, repository.packages[k].id) && !IsFinalized(repository, repository.packages[k])
    && forall j :: 0 <= j < k && IsVisible(repository, effective, repository.packages[j].id) ==>
         IsFinalized(repository, repository.packages[j])
  }

  lemma FirstIsMissing(
    repository: Repository, effective: seq<Id>, positions: seq<nat>, pkgs: seq<Package>, i: nat)
    requires ListsVisible(repository, effective, positions, pkgs) && IsFirstUnfinalized(repository, pkgs, i)
    ensures IsFirstMissing(repository, effective, positions[i])
  {
    assert positions[i] in positions;
    forall j | 0 <= j < positions[i] && IsVisible(repository, effective, repository.packages[j].id)
      ensures IsFinalized(repository, repository.packages[j])
    {
      var n :| 0 <= n < |positions| && positions[n] == j;
      assert pkgs[n] == repository.packages[j];
    }
  }

  /** A package without an installer of its own is always finalized, and any other when
      its installer object is there and available. */
  lemma FinalizedMeans(repository: Repository, pkg: Package)
    ensures IsFinalized(repository, pkg) <==>
      (InstallerType in pkg.metadata.texts && pkg.metadata.texts[InstallerType] == "nopkg")
      || (pkg.installerObjectID.Some? && pkg.installerObjectID.value in repository.objects
          && repository.objects[pkg.installerObjectID.value].available)
  {}

  method CatalogItems(repository: Repository, pkgs: seq<Package>) returns (items: Result<seq<Fields>, Failure>)
    ensures items.Ok? <==> forall pkg :: pkg in pkgs ==> IsFinalized(repository, pkg)
    ensures items.Ok? ==>
      |items.value| == |pkgs| && forall i :: 0 <= i < |pkgs| ==> IsItem(repository, pkgs[i], items.value[i])
    ensures items.Err? ==>
      exists i :: IsFirstUnfinalized(repository, pkgs, i) && items.error == NotFinalized(pkgs[i].id)
  {
    var objects := ObjectsForPackages(repository.objects, pkgs);
    var rendered := [];
    for i := 0 to |pkgs|
      invariant |rendered| == i
      invariant forall j :: 0 <= j < i ==> IsFinalized(repository, pkgs[j])
      invariant forall j :: 0 <= j < i ==> IsItem(repository, pkgs[j], rendered[j])
    {
      assert ObjectsFor(objects, pkgs[i]) == ObjectsFor(repository.objects, pkgs[i]);
      var item := RenderPkginfo(pkgs[i], ObjectsFor(objects, pkgs[i]));
      if item.None? {
        assert IsFirstUnfinalized(repository, pkgs, i);
        return Err(NotFinalized(pkgs[i].id));
      }
      rendered := rendered + [item.value];
    }
    items := Ok(rendered);
  }

  /** Catalog: there is one, and it needs every visible installer to be finalized. */
  method Catalog(repository: Repository, effective: seq<Id>, name: string)
    returns (items: Result<seq<Fields>, Failure>, ghost pkgs: seq<Package>)
    ensures name != "woodstar" ==> items == Err(NotFound)
    ensures name == "woodstar" ==>
      (items.Ok? <==> forall pkg :: pkg in repository.packages && IsVisible(repository, effective, pkg.id) ==>
                        IsFinalized(repository, pkg))
    ensures items.Ok? ==> IsCatalog(repository, effective, pkgs, items.value)
    ensures name == "woodstar" && items.Err? ==>
      exists k :: IsFirstMissing(repository, effective, k) && items.error == NotFinalized(repository.packages[k].id)
  {
    pkgs := [];
    if name != CATALOG_NAME {
      return Err(NotFound), pkgs;
    }
    var projection := BuildRepositoryProjection(effective, repository.packages);
    pkgs := projection.packages;
    ghost var positions :| ListsInOrder(repository.packages, projection.packageIDs, positions, pkgs);
    assert ListsVisible(repository, effective, positions, pkgs);
    items := CatalogItems(repository, projection.packages);
    if items.Err? {
      ghost var i :| IsFirstUnfinalized(repository, pkgs, i) && items.error == NotFinalized(pkgs[i].id);
      FirstIsMissing(repository, effective, positions, pkgs, i);
    }
  }

  // ------------------------------------------------------------------------- downloads

  datatype PackageInstaller = PackageInstaller(packageID: Id, location: string, stored: StoredObject)

  /** The key is the location of a visible package's finalized installer. */
  ghost predicate Serves(repository: Repository, effective: seq<Id>, key: string, pkg: Package, stored: StoredObject) {
    pkg in repository.packages && IsVisible(repository, effective, pkg.id)
    && FinalizedInstaller(repository, pkg) == Some(stored)
    && key == InstallerItemLocationOf(pkg.id, stored)
    && stored.filename != "" && '/' !in stored.filename
  }

  /** A key serves a visible package that has an installer: the object is the package's
      own and available, and the key is written from the package's id and its file name. */
  lemma ServesMeans(repository: Repository, effective: seq<Id>, key: string, pkg: Package, stored: StoredObject)
    requires repository.Valid()
    ensures Serves(repository, effective, key, pkg, stored) <==>
      pkg in repository.packages && IsVisible(repository, effective, pkg.id)
      && !(InstallerType in pkg.metadata.texts && pkg.metadata.texts[InstallerType] == "nopkg")
      && pkg.installerObjectID.Some? && pkg.installerObjectID.value in repository.objects
      && repository.objects[pkg.installerObjectID.value] == stored && stored.available
      && stored.filename != "" && '/' !in stored.filename
      && key == "packages/" + FormatInt(pkg.id.number) + "/installer/" + stored.filename
  {}

  ghost predicate LacksInstaller(repository: Repository, effective: seq<Id>, key: string, pkg: Package) {
    pkg in repository.packages && IsVisible(repository, effective, pkg.id)
    && ParseInstallerItemLocation(key) == Some(pkg.id) && !IsFinalized(repository, pkg)
  }

  method PackageByID(repository: Repository, id: Id) returns (pkg: Option<Package>)
    ensures pkg.Some? ==> pkg.value in repository.packages && pkg.value.id == id
    ensures pkg.None? ==> forall p :: p in repository.packages ==> p.id != id
  {
    for i := 0 to |repository.packages|
      invariant forall j :: 0 <= j < i ==> repository.packages[j].id != id
    {
      if repository.packages[i].id == id {
        return Some(repository.packages[i]);
      }
    }
    pkg := None;
  }

  lemma IdNamesOnePackage(repository: Repository, a: Package, b: Package)
    requires repository.Valid() && a in repository.packages && b in repository.packages && a.id == b.id
    ensures a == b
  {
    var i :| 0 <= i < |repository.packages| && repository.packages[i] == a;
    var j :| 0 <= j < |repository.packages| && repository.packages[j] == b;
  }

  /** A key is resolved exactly to the visible package and object it is the canonical
      location of; an unfinalized installer is an error of its own. */
  method ResolvePackageFile(repository: Repository, effective: seq<Id>, key: string)
    returns (resolved: Result<PackageInstaller, Failure>)
    requires repository.Valid()
    ensures resolved.Ok? ==>
      exists pkg :: Serves(repository, effective, key, pkg, resolved.value.stored)
                    && resolved.value == PackageInstaller(pkg.id, key, resolved.value.stored)
    ensures forall pkg, stored :: Serves(repository, effective, key, pkg, stored) ==>
      resolved == Ok(PackageInstaller(pkg.id, key, stored))
    ensures forall id :: resolved == Err(NotFinalized(id)) <==>
      exists pkg :: LacksInstaller(repository, effective, key, pkg) && pkg.id == id
  {
    forall pkg, stored | Serves(repository, effective, key, pkg, stored)
      ensures ParseInstallerItemLocation(key) == Some(pkg.id)
    {
      LocationParses(pkg.id, stored);
    }
    var packageID := ParseInstallerItemLocation(key);
    if packageID.None? {
      return Err(NotFound);
    }
    var projection := BuildRepositoryProjection(effective, repository.packages);
    if packageID.value !in projection.packageIDs {
      return Err(NotFound);
    }
    var found := PackageByID(repository, packageID.value);
    if found.None? {
      return Err(NotFound);
    }
    var pkg := found.value;
    forall other | other in repository.packages && other.id == pkg.id ensures other == pkg {
      IdNamesOnePackage(repository, other, pkg);
    }
    resolved := ResolveInstaller(repository, effective, key, pkg);
  }

  method ResolveInstaller(repository: Repository, ghost effective: seq<Id>, key: string, pkg: Package)
    returns (resolved: Result<PackageInstaller, Failure>)
    requires repository.Valid() && pkg in repository.packages && IsVisible(repository, effective, pkg.id)
    requires ParseInstallerItemLocation(key) == Some(pkg.id)
    ensures resolved.Ok? ==>
      Serves(repository, effective, key, pkg, resolved.value.stored)
      && resolved.value == PackageInstaller(pkg.id, key, resolved.value.stored)
    ensures forall stored :: Serves(repository, effective, key, pkg, stored) ==>
      resolved == Ok(PackageInstaller(pkg.id, key, stored))
    ensures resolved.Err? ==>
      resolved.error == if IsFinalized(repository, pkg) then NotFound else NotFinalized(pkg.id)
  {
    if !NeedsInstaller(pkg) {
      return Err(NotFound);
    }
    var objects := ObjectsForPackages(repository.objects, [pkg]);
    assert ObjectsFor(objects, pkg) == ObjectsFor(repository.objects, pkg);
    var stored := ObjectByID(objects, pkg.installerObjectID);
    if stored.None? || !stored.value.available {
      return Err(NotFinalized(pkg.id));
    }
    if InstallerItemLocationOf(pkg.id, stored.value) != key {
      return Err(NotFound);
    }
    LocationParses(pkg.id, stored.value);
    resolved := Ok(PackageInstaller(pkg.id, key, stored.value));
  }

  /** The catalog and the download path agree: the locations in a catalog item are the
      keys that serve its package, as long as the file's name has no slash. */
  lemma ListedIsServed(repository: Repository, effective: seq<Id>, pkg: Package, item: Fields, key: string)
    requires repository.Valid() && pkg in repository.packages && IsVisible(repository, effective, pkg.id)
    requires IsItem(repository, pkg, item) && IsFinalized(repository, pkg)
    ensures Field(item, InstallerItemLocation) == Some(MergePatch.Text(key)) && !SlashInFile(repository, pkg)
            <==> exists stored :: Serves(repository, effective, key, pkg, stored)
  {
    var objects := ObjectsFor(repository.objects, pkg);
    assert RendersField(pkg, objects, item, InstallerItemLocation);
    LocationField(pkg, objects);
    var stored := FinalizedInstaller(repository, pkg);
    if stored.Some? {
      assert Serves(repository, effective, key, pkg, stored.value) <==>
        key == InstallerItemLocationOf(pkg.id, stored.value) && stored.value.filename != ""
        && '/' !in stored.value.filename;
    }
  }

  predicate SlashInFile(repository: Repository, pkg: Package) {
    var stored := FinalizedInstaller(repository, pkg);
    stored.Some? && '/' in stored.value.filename
  }

  lemma LocationField(pkg: Package, objects: Objects)
    ensures Rendered(pkg, objects, InstallerItemLocation) ==
      if RenderedInstaller(pkg, objects).None? then None
      else NonEmpty(InstallerItemLocationOf(pkg.id, RenderedInstaller(pkg, objects).value))
  {}

  /** Every key that resolves is a location some item of the catalog shows. */
  lemma ServedIsListed(
    repository: Repository, effective: seq<Id>, pkgs: seq<Package>, items: seq<Fields>, key: string, pkg: Package,
    stored: StoredObject)
    requires repository.Valid() && IsCatalog(repository, effective, pkgs, items)
    requires Serves(repository, effective, key, pkg, stored)
    ensures exists i :: 0 <= i < |items| && pkgs[i] == pkg
                        && Field(items[i], InstallerItemLocation) == Some(MergePatch.Text(key))
  {
    assert pkg in pkgs;
    var i :| 0 <= i < |pkgs| && pkgs[i] == pkg;
    ListedIsServed(repository, effective, pkg, items[i], key);
  }

  const SLASHED := StoredObject(Id(1), "a/b", true, "hash", 1)

  /** A package whose installer's file name has a slash: its catalog item shows a
      location, and no package is served under it. */
  lemma SlashedFileIsNotServed(pkg: Package, item: Fields)
    requires NeedsInstaller(pkg) && pkg.id == Id(1) && pkg.installerObjectID == Some(Id(1))
    requires IsItem(Repository([pkg], map[Id(1) := SLASHED]), pkg, item)
    ensures var repository, key := Repository([pkg], map[Id(1) := SLASHED]), InstallerItemLocationOf(Id(1), SLASHED);
      repository.Valid() && IsFinalized(repository, pkg) && IsVisible(repository, [Id(1)], pkg.id)
      && Field(item, InstallerItemLocation) == Some(MergePatch.Text(key))
      && forall stored :: !Serves(repository, [Id(1)], key, pkg, stored)
  {
    var repository := Repository([pkg], map[Id(1) := SLASHED]);
    assert [Id(1)][0] in [Id(1)];
    assert ChainFrom(repository.packages, (set e | e in [Id(1)]), [Id(1)], Id(1));
    assert SLASHED.filename[1] == '/';
    var objects := ObjectsFor(repository.objects, pkg);
    assert RendersField(pkg, objects, item, InstallerItemLocation);
    LocationField(pkg, objects);
  }

  // ----------------------------------------------------------------------------- icons

  ghost predicate IsIcon(repository: Repository, effective: seq<Id>, id: Id) {
    exists pkg :: pkg in repository.packages && IsVisible(repository, effective, pkg.id)
                  && pkg.software.iconObjectID == Some(id)
  }

  /** The key names an available icon of a visible package. */
  ghost predicate ServesIcon(repository: Repository, effective: seq<Id>, key: string, stored: StoredObject) {
    IsIcon(repository, effective, stored.id)
    && stored.id in repository.objects && repository.objects[stored.id] == stored && stored.available
    && key == IconNameOf(stored)
  }

  /** An icon's key is written from its id and its file name; a nameless one has none. */
  lemma ServesIconMeans(repository: Repository, effective: seq<Id>, key: string, stored: StoredObject)
    requires repository.Valid()
    ensures ServesIcon(repository, effective, key, stored) <==>
      (exists pkg :: pkg in repository.packages && IsVisible(repository, effective, pkg.id)
                     && pkg.software.iconObjectID == Some(stored.id))
      && stored.id in repository.objects && repository.objects[stored.id] == stored && stored.available
      && key == if stored.filename == "" then "" else FormatInt(stored.id.number) + "-" + stored.filename
  {}

  /** An icon is resolved exactly by the name it is rendered with. */
  method ResolveIconFile(repository: Repository, effective: seq<Id>, key: string)
    returns (resolved: Result<StoredObject, Failure>)
    requires repository.Valid()
    ensures resolved.Ok? ==> key != "" && ServesIcon(repository, effective, key, resolved.value)
    ensures forall stored :: key != "" && ServesIcon(repository, effective, key, stored) ==> resolved == Ok(stored)
    ensures resolved.Err? ==> resolved.error == NotFound
  {
    forall stored | key != "" && ServesIcon(repository, effective, key, stored)
      ensures ParseIconName(key) == Some(stored.id)
    {
      IconParses(stored);
    }
    var id := ParseIconName(key);
    if key == "" || id.None? {
      return Err(NotFound);
    }
    var projection := BuildRepositoryProjection(effective, repository.packages);
    IconsAreVisible(repository, effective, projection, id.value);
    if id.value !in projection.iconObjectIDs {
      return Err(NotFound);
    }
    var objects := ListByIDs(repository.objects, [id.value]);
    if id.value !in objects || !objects[id.value].available || IconNameOf(objects[id.value]) != key {
      return Err(NotFound);
    }
    resolved := Ok(objects[id.value]);
  }

  lemma IconsAreVisible(repository: Repository, effective: seq<Id>, projection: RepositoryProjection, id: Id)
    requires forall p :: p in projection.packageIDs <==> IsVisible(repository, effective, p)
    requires projection.packages == Included(repository.packages, projection.packageIDs)
    requires forall icon :: icon in projection.iconObjectIDs <==>
      exists pkg :: pkg in projection.packages && pkg.software.iconObjectID == Some(icon)
    ensures id in projection.iconObjectIDs <==> IsIcon(repository, effective, id)
  {}

  /** The last of the icons that share a name. Only files without a name share one. */
  ghost predicate IsLastIcon(repository: Repository, effective: seq<Id>, name: string, stored: StoredObject) {
    ServesIcon(repository, effective, name, stored)
    && forall other :: ServesIcon(repository, effective, name, other) ==> other.id.number <= stored.id.number
  }

  method SortIDs(ids: set<Id>) returns (sorted: seq<Id>)
    ensures forall id :: id in sorted <==> id in ids
    ensures forall i, j :: 0 <= i < j < |sorted| ==> sorted[i].number < sorted[j].number
  {
    sorted := [];
    var pending := ids;
    while pending != {}
      invariant pending <= ids
      invariant forall id :: id in sorted <==> id in ids && id !in pending
      invariant forall id, later :: id in sorted && later in pending ==> id.number < later.number
      invariant forall i, j :: 0 <= i < j < |sorted| ==> sorted[i].number < sorted[j].number
      decreases pending
    {
      var least := LeastID(pending);
      assert least !in sorted;
      sorted := sorted + [least];
      pending := pending - {least};
    }
  }

  method LeastID(ids: set<Id>) returns (least: Id)
    requires ids != {}
    ensures least in ids && forall id :: id in ids && id != least ==> least.number < id.number
  {
    least :| least in ids;
    var pending := ids - {least};
    while pending != {}
      invariant pending <= ids && least in ids && least !in pending
      invariant forall id :: id in ids && id !in pending && id != least ==> least.number < id.number
      decreases pending
    {
      var id :| id in pending;
      pending := pending - {id};
      if id.number < least.number {
        least := id;
      }
    }
  }

  ghost predicate ServesAmong(
    repository: Repository, effective: seq<Id>, ids: seq<Id>, name: string, stored: StoredObject)
  {
    ServesIcon(repository, effective, name, stored) && stored.id in ids
  }

  ghost predicate IsLastAmong(
    repository: Repository, effective: seq<Id>, ids: seq<Id>, name: string, stored: StoredObject)
  {
    ServesAmong(repository, effective, ids, name, stored)
    && forall other :: ServesAmong(repository, effective, ids, name, other) ==> other.id.number <= stored.id.number
  }

  /** The hashes of the icons with the given ids; the last one with a name wins. */
  ghost predicate AreHashes(repository: Repository, effective: seq<Id>, ids: seq<Id>, hashes: map<string, string>) {
    (forall name :: name in hashes <==> exists stored :: ServesAmong(repository, effective, ids, name, stored))
    && forall name, stored :: IsLastAmong(repository, effective, ids, name, stored) ==> hashes[name] == stored.sha256
  }

  lemma HashIsAdded(
    repository: Repository, effective: seq<Id>, ids: seq<Id>, hashes: map<string, string>, stored: StoredObject,
    more: map<string, string>)
    requires AreHashes(repository, effective, ids, hashes)
    requires ServesIcon(repository, effective, IconNameOf(stored), stored)
    requires forall id :: id in ids ==> id.number < stored.id.number
    requires more == hashes[IconNameOf(stored) := stored.sha256]
    ensures AreHashes(repository, effective, ids + [stored.id], more)
  {
    var added, key := ids + [stored.id], IconNameOf(stored);
    forall name, other
      ensures ServesAmong(repository, effective, added, name, other) <==>
        ServesAmong(repository, effective, ids, name, other) || (other == stored && name == key)
    {
      AmongAdded(repository, effective, ids, stored, name, other);
    }
    forall name ensures name in more <==> exists other :: ServesAmong(repository, effective, added, name, other) {
      NameIsAdded(repository, effective, ids, hashes, stored, more, name);
    }
    forall name, other | IsLastAmong(repository, effective, added, name, other) ensures more[name] == other.sha256 {
      if name != key {
        assert IsLastAmong(repository, effective, ids, name, other);
      } else {
        assert ServesAmong(repository, effective, added, key, stored);
      }
    }
  }

  lemma AmongAdded(
    repository: Repository, effective: seq<Id>, ids: seq<Id>, stored: StoredObject, name: string, other: StoredObject)
    requires ServesIcon(repository, effective, IconNameOf(stored), stored)
    ensures ServesAmong(repository, effective, ids + [stored.id], name, other) <==>
      ServesAmong(repository, effective, ids, name, other) || (other == stored && name == IconNameOf(stored))
  {}

  lemma NameIsAdded(
    repository: Repository, effective: seq<Id>, ids: seq<Id>, hashes: map<string, string>, stored: StoredObject,
    more: map<string, string>, name: string)
    requires AreHashes(repository, effective, ids, hashes)
    requires ServesIcon(repository, effective, IconNameOf(stored), stored)
    requires more == hashes[IconNameOf(stored) := stored.sha256]
    ensures name in more <==> exists other :: ServesAmong(repository, effective, ids + [stored.id], name, other)
  {
    AmongAdded(repository, effective, ids, stored, IconNameOf(stored), stored);
    if name in hashes {
      var other :| ServesAmong(repository, effective, ids, name, other);
      AmongAdded(repository, effective, ids, stored, name, other);
    }
    if other :| ServesAmong(repository, effective, ids + [stored.id], name, other) {
      AmongAdded(repository, effective, ids, stored, name, other);
    }
  }

  lemma NothingIsAdded(
    repository: Repository, effective: seq<Id>, ids: seq<Id>, hashes: map<string, string>, id: Id)
    requires AreHashes(repository, effective, ids, hashes)
    requires id !in repository.objects || !repository.objects[id].available
    ensures AreHashes(repository, effective, ids + [id], hashes)
  {
    forall name, other
      ensures ServesAmong(repository, effective, ids + [id], name, other) <==>
        ServesAmong(repository, effective, ids, name, other)
    {}
    forall name, other | IsLastAmong(repository, effective, ids + [id], name, other)
      ensures IsLastAmong(repository, effective, ids, name, other)
    {}
    forall name
      ensures name in hashes <==> exists other :: ServesAmong(repository, effective, ids + [id], name, other)
    {
      if other :| ServesAmong(repository, effective, ids, name, other) {
        assert ServesAmong(repository, effective, ids + [id], name, other);
      }
    }
  }

  /** The icon hashes hold one entry for every name of an available visible icon. */
  method IconHashes(repository: Repository, effective: seq<Id>) returns (hashes: map<string, string>)
    requires repository.Valid()
    ensures forall name :: name in hashes <==> exists stored :: ServesIcon(repository, effective, name, stored)
    ensures forall name, stored :: IsLastIcon(repository, effective, name, stored) ==> hashes[name] == stored.sha256
  {
    var projection := BuildRepositoryProjection(effective, repository.packages);
    var ids := SortIDs(projection.iconObjectIDs);
    forall id ensures id in ids <==> IsIcon(repository, effective, id) {
      IconsAreVisible(repository, effective, projection, id);
    }
    var objects := ListByIDs(repository.objects, ids);
    hashes := map[];
    for i := 0 to |ids|
      invariant AreHashes(repository, effective, ids[..i], hashes)
    {
      assert ids[..i + 1] == ids[..i] + [ids[i]];
      if ids[i] in objects && objects[ids[i]].available {
        ghost var before := hashes;
        hashes := hashes[IconNameOf(objects[ids[i]]) := objects[ids[i]].sha256];
        HashIsAdded(repository, effective, ids[..i], before, objects[ids[i]], hashes);
      } else {
        NothingIsAdded(repository, effective, ids[..i], hashes, ids[i]);
      }
    }
    assert ids[..|ids|] == ids;
    AllAreHashed(repository, effective, ids, hashes);
  }

  lemma AllAreHashed(repository: Repository, effective: seq<Id>, ids: seq<Id>, hashes: map<string, string>)
    requires AreHashes(repository, effective, ids, hashes)
    requires forall id :: id in ids <==> IsIcon(repository, effective, id)
    ensures forall name :: name in hashes <==> exists stored :: ServesIcon(repository, effective, name, stored)
    ensures forall name, stored :: IsLastIcon(repository, effective, name, stored) ==> hashes[name] == stored.sha256
  {
    forall name, stored
      ensures ServesIcon(repository, effective, name, stored) <==>
        ServesAmong(repository, effective, ids, name, stored)
    {}
    forall name, stored | IsLastIcon(repository, effective, name, stored)
      ensures IsLastAmong(repository, effective, ids, name, stored)
    {}
    forall name ensures name in hashes <==> exists stored :: ServesIcon(repository, effective, name, stored) {
      if stored :| ServesIcon(repository, effective, name, stored) {
        assert ServesAmong(repository, effective, ids, name, stored);
      }
    }
  }

  lemma NamedIconIsOne(repository: Repository, effective: seq<Id>, key: string, a: StoredObject, b: StoredObject)
    requires repository.Valid() && key != ""
    requires ServesIcon(repository, effective, key, a) && ServesIcon(repository, effective, key, b)
    ensures a == b
  {
    IconNamesAreInjective(a, b);
  }

  /** An entry of the icon hashes is one that downloads, with the same hash, exactly
      when it has a name; and then it is the only icon with that name. */
  lemma HashedIsServed(repository: Repository, effective: seq<Id>, hashes: map<string, string>, key: string)
    requires repository.Valid() && key in hashes
    requires forall name :: name in hashes <==> exists icon :: ServesIcon(repository, effective, name, icon)
    requires forall name, icon :: IsLastIcon(repository, effective, name, icon) ==> hashes[name] == icon.sha256
    ensures (exists stored ::
               key != "" && ServesIcon(repository, effective, key, stored) && hashes[key] == stored.sha256)
            <==> key != ""
    ensures key != "" ==>
      forall stored :: ServesIcon(repository, effective, key, stored) ==> hashes[key] == stored.sha256
  {
    if key != "" {
      var icon :| ServesIcon(repository, effective, key, icon);
      forall other | ServesIcon(repository, effective, key, other) ensures other == icon {
        NamedIconIsOne(repository, effective, key, icon, other);
      }
      assert IsLastIcon(repository, effective, key, icon);
    }
  }

  function WithIcon(pkg: Package, id: Id): Package {
    pkg.(id := id, software := pkg.software.(iconObjectID := Some(id)))
  }

  /** Two icons whose files have no name: one entry, and only one of the hashes. */
  function NamelessIcons(pkg: Package): Repository {
    Repository(
      [WithIcon(pkg, Id(1)), WithIcon(pkg, Id(2))],
      map[Id(1) := StoredObject(Id(1), "", true, "a", 1), Id(2) := StoredObject(Id(2), "", true, "b", 1)])
  }

  lemma NamelessIconIsVisible(pkg: Package, id: Id)
    requires id == Id(1) || id == Id(2)
    ensures var repository := NamelessIcons(pkg);
      repository.Valid() && ServesIcon(repository, [Id(1), Id(2)], "", repository.objects[id])
  {
    var repository, effective := NamelessIcons(pkg), [Id(1), Id(2)];
    assert id in effective by {
      assert effective[0] == Id(1) && effective[1] == Id(2);
    }
    assert ChainFrom(repository.packages, (set e | e in effective), [id], id);
    var at := if id == Id(1) then 0 else 1;
    assert repository.packages[at].id == id && repository.packages[at] in repository.packages;
    assert IsIcon(repository, effective, id);
  }

  lemma NamelessIconsShareAnEntry(pkg: Package, hashes: map<string, string>)
    requires var repository := NamelessIcons(pkg);
      (forall name :: name in hashes <==> exists icon :: ServesIcon(repository, [Id(1), Id(2)], name, icon))
      && forall name, icon :: IsLastIcon(repository, [Id(1), Id(2)], name, icon) ==> hashes[name] == icon.sha256
    ensures var repository := NamelessIcons(pkg);
      repository.Valid() && "" in hashes && hashes[""] == "b"
      && ServesIcon(repository, [Id(1), Id(2)], "", repository.objects[Id(1)])
      && repository.objects[Id(1)].sha256 == "a"
  {
    NamelessIconIsVisible(pkg, Id(1));
    NamelessIconIsVisible(pkg, Id(2));
    var repository := NamelessIcons(pkg);
    assert IsLastIcon(repository, [Id(1), Id(2)], "", repository.objects[Id(2)]);
  }
}

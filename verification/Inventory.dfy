/** The software inventory: the catalog of titles and versions that hosts share,
    and what each host has of it. */
module Inventory {
  import opened Basics

  datatype SoftwareSource =
    | Apps | HomebrewPackages | ChromeExtensions | FirefoxAddons | SafariExtensions
    | NPMPackages | VSCodeExtensions | JetBrainsPlugins | GoBinaries | PythonPackages
    | Unsupported(text: string)

  datatype Signature = Signature(
    signed: bool,
    identifier: string,
    authority: string,
    teamIdentifier: string,
    cdhash: string)

  /** One observation of a host's software. Times are instants. */
  datatype Entry = Entry(
    name: string,
    version: string,
    source: SoftwareSource,
    bundle: string,
    extensionID: string,
    extensionFor: string,
    vendor: string,
    arch: string,
    release: string,
    path: string,
    signature: Option<Signature>,
    executableSHA256: string,
    executablePath: string,
    lastOpened: Option<int>)

  datatype Title = Title(name: string, source: SoftwareSource, extensionFor: string, bundle: string, vendor: string)

  /** What makes two software rows one. */
  datatype VersionKey = VersionKey(
    title: Id,
    version: string,
    source: SoftwareSource,
    bundle: string,
    extensionID: string,
    extensionFor: string,
    vendor: string,
    arch: string,
    release: string)

  datatype Version = Version(key: VersionKey, name: string)

  datatype InstalledPath = InstalledPath(
    signed: Option<bool>,
    identifier: string,
    authority: string,
    teamIdentifier: string,
    cdhash: Option<string>,
    executableSHA256: Option<string>,
    executablePath: Option<string>)

  /** installed is host_software by host and version, paths
      host_software_installed_paths by host, version and path. */
  datatype Tables = Tables(
    hosts: set<Id>,
    titles: map<Id, Title>,
    versions: map<Id, Version>,
    installed: map<(Id, Id), Option<int>>,
    paths: map<(Id, Id, string), InstalledPath>,
    nextTitle: nat,
    nextVersion: nat)

  /** A title is known by its bundle identifier, or by its name if it has none. */
  datatype TitleKey =
    | ByBundle(bundle: string, source: SoftwareSource, extensionFor: string)
    | ByName(name: string, source: SoftwareSource, extensionFor: string)

  function KeyOf(e: Entry): TitleKey {
    if e.bundle != "" then ByBundle(e.bundle, e.source, e.extensionFor)
    else ByName(e.name, e.source, e.extensionFor)
  }

  function TitleKeyOf(title: Title): TitleKey {
    if title.bundle != "" then ByBundle(title.bundle, title.source, title.extensionFor)
    else ByName(title.name, title.source, title.extensionFor)
  }

  function VersionKeyOf(title: Id, e: Entry): VersionKey {
    VersionKey(title, e.version, e.source, e.bundle, e.extensionID, e.extensionFor, e.vendor, e.arch, e.release)
  }

  function NullString(s: string): Option<string> {
    if s == "" then None else Some(s)
  }

  function PathOf(e: Entry): InstalledPath {
    var signature := e.signature.GetOr(Signature(false, "", "", "", ""));
    InstalledPath(
      if e.signature.Some? then Some(signature.signed) else None,
      signature.identifier, signature.authority, signature.teamIdentifier,
      NullString(signature.cdhash), NullString(e.executableSHA256), NullString(e.executablePath))
  }

  function Named(entries: seq<Entry>): (named: seq<Entry>)
    ensures forall e :: e in named <==> e in entries && e.name != ""
  {
    if entries == [] then []
    else
      var rest := Named(entries[..|entries| - 1]);
      assert entries == entries[..|entries| - 1] + [entries[|entries| - 1]];
      if entries[|entries| - 1].name != "" then rest + [entries[|entries| - 1]] else rest
  }

  predicate HasName(e: Entry) {
    e.name != ""
  }

  /** The entries with a name, in order and as often as they were observed. */
  lemma {:induction false} NamedInOrder(entries: seq<Entry>)
    ensures var kept := Kept(HasName, entries);
      |Named(entries)| == |kept| && forall i :: 0 <= i < |kept| ==> Named(entries)[i] == entries[kept[i]]
  {
    if entries != [] {
      NamedInOrder(entries[..|entries| - 1]);
    }
  }

  /** The vendor a title takes from a snapshot: the last non-empty one. */
  function VendorOf(entries: seq<Entry>, key: TitleKey): string {
    if entries == [] then ""
    else
      var last := entries[|entries| - 1];
      if KeyOf(last) == key && last.vendor != "" then last.vendor else VendorOf(entries[..|entries| - 1], key)
  }

  /** The position that names a title: the first with its key. */
  ghost predicate Introduces(entries: seq<Entry>, i: int) {
    0 <= i < |entries| && forall j :: 0 <= j < i ==> KeyOf(entries[j]) != KeyOf(entries[i])
  }

  // --------------------------------------------------------------- what a row means

  /** The title and version an entry stands for. */
  ghost predicate IsTitleOf(titles: map<Id, Title>, e: Entry, title: Id) {
    title in titles && TitleKeyOf(titles[title]) == KeyOf(e)
  }

  ghost predicate IsVersionOf(titles: map<Id, Title>, versions: map<Id, Version>, e: Entry, version: Id) {
    version in versions
    && IsTitleOf(titles, e, versions[version].key.title)
    && versions[version].key == VersionKeyOf(versions[version].key.title, e)
  }

  ghost predicate TitlesDistinct(titles: map<Id, Title>) {
    forall a, b :: a in titles && b in titles && a != b ==> TitleKeyOf(titles[a]) != TitleKeyOf(titles[b])
  }

  ghost predicate VersionsDistinct(versions: map<Id, Version>) {
    forall a, b :: a in versions && b in versions && a != b ==> versions[a].key != versions[b].key
  }

  ghost predicate Consistent(s: Tables) {
    TitlesDistinct(s.titles) && VersionsDistinct(s.versions)
    && (forall id :: id in s.titles ==> id.number < s.nextTitle)
    && (forall id :: id in s.versions ==> id.number < s.nextVersion && s.versions[id].key.title in s.titles)
    && (forall at :: at in s.installed ==> at.0 in s.hosts && at.1 in s.versions)
    && (forall at :: at in s.paths ==> (at.0, at.1) in s.installed)
  }

  // -------------------------------------------------------------------- replacement

  /** The titles after those with a key in done are upserted: old ones keep all but
      perhaps their vendor, new ones are named by the entry that introduces them. */
  ghost predicate TitlesUpserted(
    s: map<Id, Title>, first: nat, entries: seq<Entry>, done: set<TitleKey>, t: map<Id, Title>)
  {
    TitlesKept(s, entries, done, t)
    && TitlesNew(s, first, entries, done, t)
    && (forall key :: key in done ==> TitleCovered(key, t))
    && TitlesDistinct(t)
  }

  function Revendored(title: Title, vendor: string): Title {
    if vendor != "" then title.(vendor := vendor) else title
  }

  ghost predicate TitlesKept(s: map<Id, Title>, entries: seq<Entry>, done: set<TitleKey>, t: map<Id, Title>) {
    forall id :: id in s ==>
      id in t
      && t[id] == if TitleKeyOf(s[id]) in done then Revendored(s[id], VendorOf(entries, TitleKeyOf(s[id]))) else s[id]
  }

  ghost predicate TitlesNew(
    s: map<Id, Title>, first: nat, entries: seq<Entry>, done: set<TitleKey>, t: map<Id, Title>)
  {
    forall id :: id in t && id !in s ==>
      id.number >= first && TitleKeyOf(t[id]) in done
      && exists i :: Introduces(entries, i) && t[id] == NewTitle(entries, i)
  }

  function NewTitle(entries: seq<Entry>, i: int): Title
    requires 0 <= i < |entries|
  {
    Title(entries[i].name, entries[i].source, entries[i].extensionFor, entries[i].bundle,
          VendorOf(entries, KeyOf(entries[i])))
  }

  ghost predicate TitleCovered(key: TitleKey, t: map<Id, Title>) {
    exists id :: id in t && TitleKeyOf(t[id]) == key
  }

  /** The versions after those of the first n entries are inserted; titleIDs are the
      entries' titles. */
  ghost predicate VersionsInserted(
    s: map<Id, Version>, first: nat, entries: seq<Entry>, titleIDs: seq<Id>, n: nat, t: map<Id, Version>)
    requires n <= |entries| == |titleIDs|
  {
    (forall id :: id in s ==> id in t && t[id] == s[id])
    && (forall id :: id in t && id !in s ==>
          id.number >= first
          && exists i :: 0 <= i < n && IntroducesVersion(entries, titleIDs, i)
                         && t[id] == Version(VersionKeyOf(titleIDs[i], entries[i]), entries[i].name))
    && (forall i :: 0 <= i < n ==> VersionCovered(VersionKeyOf(titleIDs[i], entries[i]), t))
    && VersionsDistinct(t)
  }

  ghost predicate VersionCovered(key: VersionKey, t: map<Id, Version>) {
    exists id :: id in t && t[id].key == key
  }

  ghost predicate IntroducesVersion(entries: seq<Entry>, titleIDs: seq<Id>, i: int)
    requires |entries| == |titleIDs|
  {
    0 <= i < |entries|
    && forall j :: 0 <= j < i ==> VersionKeyOf(titleIDs[j], entries[j]) != VersionKeyOf(titleIDs[i], entries[i])
  }

  ghost predicate Linked(titles: map<Id, Title>, entries: seq<Entry>, titleIDs: seq<Id>) {
    |entries| == |titleIDs| && forall i :: 0 <= i < |entries| ==> IsTitleOf(titles, entries[i], titleIDs[i])
  }

  /** Every entry is linked to its title, and every version inserted. */
  ghost predicate Catalogued(
    s: map<Id, Version>, first: nat, entries: seq<Entry>, titleIDs: seq<Id>,
    titles: map<Id, Title>, versions: map<Id, Version>)
  {
    Linked(titles, entries, titleIDs) && VersionsInserted(s, first, entries, titleIDs, |entries|, versions)
  }

  /** Position i is the last to name this version, or this version and path. */
  ghost predicate LastOf(titles: map<Id, Title>, versions: map<Id, Version>, entries: seq<Entry>, i: int, version: Id) {
    0 <= i < |entries| && IsVersionOf(titles, versions, entries[i], version)
    && forall j :: i < j < |entries| ==> !IsVersionOf(titles, versions, entries[j], version)
  }

  ghost predicate LastAt(
    titles: map<Id, Title>, versions: map<Id, Version>, entries: seq<Entry>, i: int, version: Id, path: string)
  {
    0 <= i < |entries| && IsVersionOf(titles, versions, entries[i], version) && entries[i].path == path
    && forall j :: i < j < |entries| && entries[j].path == path ==>
         !IsVersionOf(titles, versions, entries[j], version)
  }

  /** A host has exactly the versions of the entries, each with the times of the
      last entry for it; other hosts keep theirs. */
  ghost predicate InstalledReplaced(s: Tables, host: Id, entries: seq<Entry>, t: Tables) {
    (forall at: (Id, Id) :: at.0 != host ==> (at in t.installed <==> at in s.installed))
    && (forall at :: at in s.installed && at.0 != host ==> t.installed[at] == s.installed[at])
    && (forall version ::
          (host, version) in t.installed
          <==> exists i :: LastOf(t.titles, t.versions, entries, i, version))
    && (forall version, i :: LastOf(t.titles, t.versions, entries, i, version) ==>
          (host, version) in t.installed && t.installed[(host, version)] == entries[i].lastOpened)
  }

  /** The same for paths, of which an empty one is none. */
  ghost predicate PathsReplaced(s: Tables, host: Id, entries: seq<Entry>, t: Tables) {
    (forall at: (Id, Id, string) :: at.0 != host ==> (at in t.paths <==> at in s.paths))
    && (forall at :: at in s.paths && at.0 != host ==> t.paths[at] == s.paths[at])
    && (forall version, path ::
          (host, version, path) in t.paths
          <==> path != "" && exists i :: LastAt(t.titles, t.versions, entries, i, version, path))
    && (forall version, path, i :: path != "" && LastAt(t.titles, t.versions, entries, i, version, path) ==>
          (host, version, path) in t.paths && t.paths[(host, version, path)] == PathOf(entries[i]))
  }

  datatype Outcome = Done | UnsupportedSource | UnknownHost

  /** ReplaceHostSoftware. */
  ghost predicate Replaced(s: Tables, host: Id, observed: seq<Entry>, t: Tables, outcome: Outcome) {
    var entries := Named(observed);
    s.nextTitle <= t.nextTitle && s.nextVersion <= t.nextVersion
    && if exists e :: e in entries && e.source.Unsupported? then
         outcome == UnsupportedSource && t == s
       else if host !in s.hosts && entries != [] then
         outcome == UnknownHost && t == s.(nextTitle := t.nextTitle, nextVersion := t.nextVersion)
       else
         outcome == Done
         && TitlesUpserted(s.titles, s.nextTitle, entries, Keys(entries), t.titles)
         && (exists titleIDs ::
               Catalogued(s.versions, s.nextVersion, entries, titleIDs, t.titles, t.versions))
         && InstalledReplaced(s, host, entries, t)
         && PathsReplaced(s, host, entries, t)
         && t.hosts == s.hosts
         && Consistent(t)
  }

  function Keys(entries: seq<Entry>): set<TitleKey> {
    set e | e in entries :: KeyOf(e)
  }

  // ---------------------------------------------------------------- what it comes to

  /** Only entries with a name count: they are refused for an unknown source, and for a
      host that is not there. */
  lemma ReplacedOutcome(s: Tables, host: Id, observed: seq<Entry>, t: Tables, outcome: Outcome)
    requires Replaced(s, host, observed, t, outcome)
    ensures outcome == UnsupportedSource <==>
      exists e :: e in observed && e.name != "" && e.source.Unsupported?
    ensures outcome == UnknownHost <==>
      outcome != UnsupportedSource && host !in s.hosts && exists e :: e in observed && e.name != ""
    ensures outcome != Done ==> t == s.(nextTitle := t.nextTitle, nextVersion := t.nextVersion)
  {
    if Named(observed) != [] {
      assert Named(observed)[0] in Named(observed);
    }
  }

  /** Every entry stands for exactly one title and exactly one version. */
  lemma EntryHasOneVersion(s: Tables, host: Id, observed: seq<Entry>, t: Tables, e: Entry)
    requires Replaced(s, host, observed, t, Done) && e in Named(observed)
    ensures exists title :: IsTitleOf(t.titles, e, title)
    ensures exists version :: IsVersionOf(t.titles, t.versions, e, version)
    ensures forall a, b :: IsTitleOf(t.titles, e, a) && IsTitleOf(t.titles, e, b) ==> a == b
    ensures forall a, b ::
      IsVersionOf(t.titles, t.versions, e, a) && IsVersionOf(t.titles, t.versions, e, b) ==> a == b
  {
    var entries := Named(observed);
    var titleIDs :| Catalogued(s.versions, s.nextVersion, entries, titleIDs, t.titles, t.versions);
    var i :| 0 <= i < |entries| && entries[i] == e;
    assert VersionCovered(VersionKeyOf(titleIDs[i], entries[i]), t.versions);
    var version :| version in t.versions && t.versions[version].key == VersionKeyOf(titleIDs[i], e);
    assert IsTitleOf(t.titles, e, titleIDs[i]);
    assert IsVersionOf(t.titles, t.versions, e, version);
  }

  /** Two entries share a title exactly when their identity keys agree. */
  lemma TitlesSharedByKey(s: Tables, host: Id, observed: seq<Entry>, t: Tables, a: Entry, b: Entry)
    requires Replaced(s, host, observed, t, Done) && a in Named(observed) && b in Named(observed)
    ensures KeyOf(a) == KeyOf(b) <==> exists title :: IsTitleOf(t.titles, a, title) && IsTitleOf(t.titles, b, title)
  {
    EntryHasOneVersion(s, host, observed, t, a);
    var title :| IsTitleOf(t.titles, a, title);
    assert KeyOf(a) == KeyOf(b) ==> IsTitleOf(t.titles, b, title);
  }

  /** Entries are of one title when they have the same source and extension host and the
      same bundle identifier, or none and the same name; the title's row says so. */
  lemma StoredTitle(s: Tables, host: Id, observed: seq<Entry>, t: Tables, a: Entry, b: Entry, title: Id)
    requires Replaced(s, host, observed, t, Done) && IsTitleOf(t.titles, a, title)
    ensures t.titles[title].source == a.source && t.titles[title].extensionFor == a.extensionFor
    ensures t.titles[title].bundle == a.bundle && (a.bundle == "" ==> t.titles[title].name == a.name)
    ensures IsTitleOf(t.titles, b, title) <==>
      b.source == a.source && b.extensionFor == a.extensionFor && b.bundle == a.bundle
      && (a.bundle == "" ==> b.name == a.name)
  {}

  /** The stored version has all that the entry says of it, and another entry is of the
      same version exactly when it says the same and is of the same title. */
  lemma StoredVersion(s: Tables, host: Id, observed: seq<Entry>, t: Tables, a: Entry, b: Entry, v: Id)
    requires Replaced(s, host, observed, t, Done) && IsVersionOf(t.titles, t.versions, a, v)
    ensures var key := t.versions[v].key;
      IsTitleOf(t.titles, a, key.title)
      && key.version == a.version && key.source == a.source && key.bundle == a.bundle
      && key.extensionID == a.extensionID && key.extensionFor == a.extensionFor
      && key.vendor == a.vendor && key.arch == a.arch && key.release == a.release
    ensures IsVersionOf(t.titles, t.versions, b, v) <==>
      b.version == a.version && b.extensionID == a.extensionID && b.vendor == a.vendor
      && b.arch == a.arch && b.release == a.release
      && b.source == a.source && b.extensionFor == a.extensionFor && b.bundle == a.bundle
      && (a.bundle == "" ==> b.name == a.name)
  {}

  /** Entry i is the first to be of a version. */
  ghost predicate IsFirstOf(
    titles: map<Id, Title>, versions: map<Id, Version>, entries: seq<Entry>, i: int, version: Id)
  {
    0 <= i < |entries| && IsVersionOf(titles, versions, entries[i], version)
    && forall j :: 0 <= j < i ==> !IsVersionOf(titles, versions, entries[j], version)
  }

  lemma IntroducerIsFirst(
    titles: map<Id, Title>, versions: map<Id, Version>, entries: seq<Entry>, titleIDs: seq<Id>, i: int, version: Id)
    requires TitlesDistinct(titles) && Linked(titles, entries, titleIDs) && IntroducesVersion(entries, titleIDs, i)
    requires version in versions && versions[version].key == VersionKeyOf(titleIDs[i], entries[i])
    ensures IsFirstOf(titles, versions, entries, i, version)
  {
    assert IsTitleOf(titles, entries[i], titleIDs[i]);
    forall j | 0 <= j < i ensures !IsVersionOf(titles, versions, entries[j], version) {
      assert IsTitleOf(titles, entries[j], titleIDs[j]);
    }
  }

  /** A version that was not there is named by the first entry that is of it. */
  lemma NewVersionName(s: Tables, host: Id, observed: seq<Entry>, t: Tables, v: Id)
    requires Replaced(s, host, observed, t, Done) && v in t.versions
    ensures v in s.versions ==> t.versions[v] == s.versions[v]
    ensures v !in s.versions ==>
      exists i :: IsFirstOf(t.titles, t.versions, Named(observed), i, v)
                  && t.versions[v].name == Named(observed)[i].name
  {
    var entries := Named(observed);
    var titleIDs :| Catalogued(s.versions, s.nextVersion, entries, titleIDs, t.titles, t.versions);
    if v !in s.versions {
      var i :| 0 <= i < |entries| && IntroducesVersion(entries, titleIDs, i)
               && t.versions[v] == Version(VersionKeyOf(titleIDs[i], entries[i]), entries[i].name);
      IntroducerIsFirst(t.titles, t.versions, entries, titleIDs, i, v);
    }
  }

  /** The last entry of a title with a vendor, if one has any. */
  ghost predicate GivesVendor(titles: map<Id, Title>, entries: seq<Entry>, i: int, title: Id) {
    0 <= i < |entries| && IsTitleOf(titles, entries[i], title) && entries[i].vendor != ""
    && forall j :: i < j < |entries| && IsTitleOf(titles, entries[j], title) ==> entries[j].vendor == ""
  }

  /** The vendor is the one that entry i gives a title, or the given one if none does. */
  ghost predicate IsVendorOf(titles: map<Id, Title>, entries: seq<Entry>, title: Id, otherwise: string)
    requires title in titles
  {
    (forall i :: GivesVendor(titles, entries, i, title) ==> titles[title].vendor == entries[i].vendor)
    && ((forall i :: !GivesVendor(titles, entries, i, title)) ==> titles[title].vendor == otherwise)
  }

  ghost predicate IsLastVendor(entries: seq<Entry>, key: TitleKey, i: int) {
    0 <= i < |entries| && KeyOf(entries[i]) == key && entries[i].vendor != ""
    && forall j :: i < j < |entries| && KeyOf(entries[j]) == key ==> entries[j].vendor == ""
  }

  lemma {:induction false} LastVendor(entries: seq<Entry>, key: TitleKey)
    ensures VendorOf(entries, key) == "" ==>
      forall i :: 0 <= i < |entries| && KeyOf(entries[i]) == key ==> entries[i].vendor == ""
    ensures VendorOf(entries, key) != "" ==>
      exists i :: IsLastVendor(entries, key, i) && entries[i].vendor == VendorOf(entries, key)
  {
    if entries != [] {
      var before, last := entries[..|entries| - 1], entries[|entries| - 1];
      LastVendor(before, key);
      if KeyOf(last) == key && last.vendor != "" {
        assert IsLastVendor(entries, key, |entries| - 1);
      } else if VendorOf(before, key) != "" {
        var i :| IsLastVendor(before, key, i) && before[i].vendor == VendorOf(before, key);
        assert entries[i] == before[i] && IsLastVendor(entries, key, i);
      }
    }
  }

  lemma VendorIsGiven(titles: map<Id, Title>, entries: seq<Entry>, title: Id, otherwise: string)
    requires title in titles
    requires var vendor := VendorOf(entries, TitleKeyOf(titles[title]));
      titles[title].vendor == if vendor != "" then vendor else otherwise
    ensures IsVendorOf(titles, entries, title, otherwise)
  {
    var key := TitleKeyOf(titles[title]);
    LastVendor(entries, key);
    forall i ensures GivesVendor(titles, entries, i, title) <==> IsLastVendor(entries, key, i) {}
  }

  /** A title keeps its row but for the vendor, which is the last that its entries give. */
  lemma KeptTitle(s: Tables, host: Id, observed: seq<Entry>, t: Tables, title: Id)
    requires Replaced(s, host, observed, t, Done) && title in s.titles
    ensures title in t.titles && t.titles[title] == s.titles[title].(vendor := t.titles[title].vendor)
    ensures IsVendorOf(t.titles, Named(observed), title, s.titles[title].vendor)
  {
    var entries, key := Named(observed), TitleKeyOf(s.titles[title]);
    assert TitlesKept(s.titles, entries, Keys(entries), t.titles);
    LastVendor(entries, key);
    if key !in Keys(entries) {
      forall i | 0 <= i < |entries| ensures KeyOf(entries[i]) != key {
        assert KeyOf(entries[i]) in Keys(entries);
      }
    }
    VendorIsGiven(t.titles, entries, title, s.titles[title].vendor);
  }

  /** Entry i is the first to be of a title. */
  ghost predicate IsFirstTitled(titles: map<Id, Title>, entries: seq<Entry>, i: int, title: Id) {
    0 <= i < |entries| && IsTitleOf(titles, entries[i], title)
    && forall j :: 0 <= j < i ==> !IsTitleOf(titles, entries[j], title)
  }

  lemma NewTitleIs(titles: map<Id, Title>, entries: seq<Entry>, i: int, title: Id)
    requires Introduces(entries, i) && title in titles && titles[title] == NewTitle(entries, i)
    ensures IsFirstTitled(titles, entries, i, title) && titles[title].name == entries[i].name
    ensures IsVendorOf(titles, entries, title, "")
  {
    assert TitleKeyOf(titles[title]) == KeyOf(entries[i]);
    VendorIsGiven(titles, entries, title, "");
  }

  /** A title that was not there is named by its first entry. */
  lemma NewTitleRow(s: Tables, host: Id, observed: seq<Entry>, t: Tables, title: Id)
    requires Replaced(s, host, observed, t, Done) && title in t.titles && title !in s.titles
    ensures exists i :: IsFirstTitled(t.titles, Named(observed), i, title)
                        && t.titles[title].name == Named(observed)[i].name
    ensures IsVendorOf(t.titles, Named(observed), title, "")
  {
    var entries := Named(observed);
    assert TitlesNew(s.titles, s.nextTitle, entries, Keys(entries), t.titles);
    var i :| Introduces(entries, i) && t.titles[title] == NewTitle(entries, i);
    NewTitleIs(t.titles, entries, i, title);
  }

  /** A stored path says of a file what an entry says: a text that the entry does not
      give is absent, or empty where the column cannot be. */
  predicate Says(e: Entry, row: InstalledPath) {
    row.executableSHA256.GetOr("") == e.executableSHA256 && row.executableSHA256 != Some("")
    && row.executablePath.GetOr("") == e.executablePath && row.executablePath != Some("")
    && match e.signature
       case None =>
         row.signed.None? && row.identifier == "" && row.authority == "" && row.teamIdentifier == ""
         && row.cdhash.None?
       case Some(signature) =>
         row.signed == Some(signature.signed) && row.identifier == signature.identifier
         && row.authority == signature.authority && row.teamIdentifier == signature.teamIdentifier
         && row.cdhash.GetOr("") == signature.cdhash && row.cdhash != Some("")
  }

  lemma PathSays(e: Entry)
    ensures Says(e, PathOf(e))
  {}

  lemma PathHasEntry(s: Tables, host: Id, entries: seq<Entry>, t: Tables, version: Id, path: string) returns (i: nat)
    requires PathsReplaced(s, host, entries, t) && (host, version, path) in t.paths
    ensures LastAt(t.titles, t.versions, entries, i, version, path)
    ensures t.paths[(host, version, path)] == PathOf(entries[i])
  {
    i :| LastAt(t.titles, t.versions, entries, i, version, path);
  }

  /** A stored path says what the last entry of the version and path says. */
  lemma StoredPath(s: Tables, host: Id, observed: seq<Entry>, t: Tables, version: Id, path: string)
    requires Replaced(s, host, observed, t, Done) && (host, version, path) in t.paths
    ensures exists i :: LastAt(t.titles, t.versions, Named(observed), i, version, path)
                        && Says(Named(observed)[i], t.paths[(host, version, path)])
  {
    var i := PathHasEntry(s, host, Named(observed), t, version, path);
    PathSays(Named(observed)[i]);
  }

  // ------------------------------------------------------------------- idempotence

  lemma TitleKeptTwice(s: map<Id, Title>, first: nat, entries: seq<Entry>,
                       t: map<Id, Title>, u: map<Id, Title>, id: Id)
    requires TitlesKept(s, entries, Keys(entries), t) && TitlesNew(s, first, entries, Keys(entries), t)
    requires TitlesKept(t, entries, Keys(entries), u) && id in t
    ensures id in u && u[id] == t[id]
  {
    if id !in s {
      var i :| Introduces(entries, i) && t[id] == NewTitle(entries, i);
      assert TitleKeyOf(t[id]) == KeyOf(entries[i]);
    }
  }

  lemma NoNewTitleTwice(entries: seq<Entry>, t: map<Id, Title>, second: nat, u: map<Id, Title>, id: Id)
    requires forall key :: key in Keys(entries) ==> TitleCovered(key, t)
    requires TitlesUpserted(t, second, entries, Keys(entries), u) && id in u
    ensures id in t
  {
    if TitleKeyOf(u[id]) in Keys(entries) {
      assert TitleCovered(TitleKeyOf(u[id]), t);
      var same :| same in t && TitleKeyOf(t[same]) == TitleKeyOf(u[id]);
      assert same == id;
    }
  }

  lemma TitlesUpsertedTwice(s: map<Id, Title>, first: nat, entries: seq<Entry>,
                            t: map<Id, Title>, second: nat, u: map<Id, Title>)
    requires TitlesUpserted(s, first, entries, Keys(entries), t)
    requires TitlesUpserted(t, second, entries, Keys(entries), u)
    ensures u == t
  {
    forall id | id in t ensures id in u && u[id] == t[id] {
      TitleKeptTwice(s, first, entries, t, u, id);
    }
    forall id | id in u ensures id in t {
      NoNewTitleTwice(entries, t, second, u, id);
    }
  }

  lemma NoNewVersionTwice(
    entries: seq<Entry>, titleIDs: seq<Id>, t: map<Id, Version>, second: nat, u: map<Id, Version>, id: Id)
    requires |titleIDs| == |entries|
    requires forall i :: 0 <= i < |entries| ==> VersionCovered(VersionKeyOf(titleIDs[i], entries[i]), t)
    requires VersionsInserted(t, second, entries, titleIDs, |entries|, u) && id in u
    ensures id in t
  {
    if i :| 0 <= i < |entries| && u[id].key == VersionKeyOf(titleIDs[i], entries[i]) {
      assert VersionCovered(VersionKeyOf(titleIDs[i], entries[i]), t);
      var same :| same in t && t[same].key == u[id].key;
      assert same == id;
    }
  }

  lemma VersionsInsertedTwice(
    s: map<Id, Version>, first: nat, entries: seq<Entry>, before: seq<Id>, titles: map<Id, Title>,
    t: map<Id, Version>, second: nat, after: seq<Id>, u: map<Id, Version>)
    requires TitlesDistinct(titles)
    requires Catalogued(s, first, entries, before, titles, t)
    requires Catalogued(t, second, entries, after, titles, u)
    ensures u == t
  {
    assert before == after by {
      forall i | 0 <= i < |entries| ensures before[i] == after[i] {
        assert IsTitleOf(titles, entries[i], before[i]) && IsTitleOf(titles, entries[i], after[i]);
      }
    }
    forall id | id in u ensures id in t {
      NoNewVersionTwice(entries, after, t, second, u, id);
    }
  }

  lemma InstalledReplacedTwice(s: Tables, host: Id, entries: seq<Entry>, t: Tables, u: Tables)
    requires t.titles == u.titles && t.versions == u.versions
    requires InstalledReplaced(s, host, entries, t) && InstalledReplaced(t, host, entries, u)
    ensures u.installed == t.installed
  {
    forall at ensures at in u.installed <==> at in t.installed {
      assert at == (at.0, at.1);
    }
    forall at | at in t.installed ensures u.installed[at] == t.installed[at] {
      if at.0 == host {
        assert at == (host, at.1);
        var i :| LastOf(t.titles, t.versions, entries, i, at.1);
        assert LastOf(u.titles, u.versions, entries, i, at.1);
      }
    }
  }

  lemma PathsReplacedTwice(s: Tables, host: Id, entries: seq<Entry>, t: Tables, u: Tables)
    requires t.titles == u.titles && t.versions == u.versions
    requires PathsReplaced(s, host, entries, t) && PathsReplaced(t, host, entries, u)
    ensures u.paths == t.paths
  {
    forall at ensures at in u.paths <==> at in t.paths {
      assert at == (at.0, at.1, at.2);
    }
    forall at | at in t.paths ensures u.paths[at] == t.paths[at] {
      if at.0 == host {
        assert at == (host, at.1, at.2);
        var i :| LastAt(t.titles, t.versions, entries, i, at.1, at.2);
        assert LastAt(u.titles, u.versions, entries, i, at.1, at.2);
      }
    }
  }

  /** Reporting the same software again changes nothing but the sequences. */
  lemma ReplacementIsIdempotent(s: Tables, host: Id, observed: seq<Entry>, t: Tables, u: Tables, outcome: Outcome)
    requires Replaced(s, host, observed, t, Done) && Replaced(t, host, observed, u, outcome)
    ensures outcome == Done
    ensures u == t.(nextTitle := u.nextTitle, nextVersion := u.nextVersion)
  {
    var entries := Named(observed);
    TitlesUpsertedTwice(s.titles, s.nextTitle, entries, t.titles, t.nextTitle, u.titles);
    var before :| Catalogued(s.versions, s.nextVersion, entries, before, t.titles, t.versions);
    var after :| Catalogued(t.versions, t.nextVersion, entries, after, u.titles, u.versions);
    VersionsInsertedTwice(s.versions, s.nextVersion, entries, before, t.titles,
                          t.versions, t.nextVersion, after, u.versions);
    InstalledReplacedTwice(s, host, entries, t, u);
    PathsReplacedTwice(s, host, entries, t, u);
  }

  // ----------------------------------------------------------------------- pruning

  /** What is left when nothing unreferenced is: versions that some host has, titles
      that such a version has, and the paths of versions that are left. */
  ghost function Pruned(s: Tables): Tables {
    var versions := map id | id in s.versions && Referenced(s, id) :: s.versions[id];
    s.(versions := versions,
       titles := (map id | id in s.titles && HasVersion(versions, id) :: s.titles[id]),
       paths := (map at | at in s.paths && at.1 in versions :: s.paths[at]))
  }

  ghost predicate Referenced(s: Tables, version: Id) {
    exists host :: (host, version) in s.installed
  }

  ghost predicate HasVersion(versions: map<Id, Version>, title: Id) {
    exists version :: version in versions && versions[version].key.title == title
  }

  lemma HeldVersionsStay(s: Tables)
    requires Consistent(s)
    ensures var t := Pruned(s); forall at :: at in s.installed ==> at.1 in t.versions
    ensures var t := Pruned(s); forall id :: id in t.versions ==> t.versions[id].key.title in t.titles
    ensures Pruned(s).paths == s.paths
  {
    var t := Pruned(s);
    forall at | at in s.installed ensures at.1 in t.versions {
      assert (at.0, at.1) == at && Referenced(s, at.1);
    }
    forall id | id in t.versions ensures t.versions[id].key.title in t.titles {
      assert HasVersion(t.versions, t.versions[id].key.title);
    }
    HeldPathsStay(s);
  }

  lemma HeldPathsStay(s: Tables)
    requires Consistent(s)
    ensures Pruned(s).paths == s.paths
  {
    forall at | at in s.paths ensures at in Pruned(s).paths {
      assert (at.0, at.1) in s.installed;
      assert Referenced(s, at.1);
    }
  }

  lemma FewerStayDistinct(s: Tables)
    requires TitlesDistinct(s.titles) && VersionsDistinct(s.versions)
    ensures TitlesDistinct(Pruned(s).titles) && VersionsDistinct(Pruned(s).versions)
  {}

  /** Pruning leaves the store consistent, and the paths as they were. */
  lemma PrunedIsConsistent(s: Tables)
    requires Consistent(s)
    ensures Consistent(Pruned(s)) && Pruned(s).paths == s.paths
  {
    HeldVersionsStay(s);
    FewerStayDistinct(s);
  }

  lemma NothingIsLeftToPrune(s: Tables, t: Tables)
    requires Consistent(s) && t == Pruned(s)
    ensures forall id :: id in t.versions ==> Referenced(t, id)
    ensures forall id :: id in t.titles ==> HasVersion(t.versions, id)
  {}

  /** Pruning leaves nothing more to prune. */
  lemma PrunedIsFixpoint(s: Tables)
    requires Consistent(s)
    ensures Pruned(Pruned(s)) == Pruned(s)
  {
    var t := Pruned(s);
    NothingIsLeftToPrune(s, t);
    assert Pruned(t).versions == t.versions;
    assert Pruned(t).titles == t.titles;
    assert Pruned(t).paths == t.paths;
  }
}

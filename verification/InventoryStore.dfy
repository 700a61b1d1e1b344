/** The inventory store: one field per table, the statements of a snapshot
    replacement in order, and the batch pruner. */
module InventoryStore {
  import opened Basics
  import opened Inventory

  const CLEANUP_BATCH_SIZE := 1000

  class Store {
    var hosts: set<Id>
    var titles: map<Id, Title>
    var versions: map<Id, Version>
    var installed: map<(Id, Id), Option<int>>
    var paths: map<(Id, Id, string), InstalledPath>
    var nextTitle: nat
    var nextVersion: nat

    function State(): Tables reads this {
      Tables(hosts, titles, versions, installed, paths, nextTitle, nextVersion)
    }

    constructor ()
      ensures State() == Tables({}, map[], map[], map[], map[], 1, 1)
    {
      hosts, titles, versions, installed, paths := {}, map[], map[], map[], map[];
      nextTitle, nextVersion := 1, 1;
    }

    // --------------------------------------------------------------------- staging

    method StageSnapshot(observed: seq<Entry>) returns (staged: seq<Entry>)
      ensures staged == Named(observed)
    {
      staged := [];
      for i := 0 to |observed|
        invariant staged == Named(observed[..i])
      {
        assert observed[..i + 1][..i] == observed[..i];
        if observed[i].name != "" {
          staged := staged + [observed[i]];
        }
      }
      assert observed[..|observed|] == observed;
    }

    // --------------------------------------------------------------------- catalog

    /** (array_agg(name ORDER BY position))[1] of a group. */
    method Introducer(entries: seq<Entry>, key: TitleKey) returns (i: nat)
      requires key in Keys(entries)
      ensures Introduces(entries, i) && KeyOf(entries[i]) == key
    {
      i := 0;
      while KeyOf(entries[i]) != key
        invariant i < |entries|
        invariant forall j :: 0 <= j < i ==> KeyOf(entries[j]) != key
        invariant exists j :: i <= j < |entries| && KeyOf(entries[j]) == key
        decreases |entries| - i
      {
        i := i + 1;
      }
    }

    /** One group of a title upsert. */
    method UpsertTitle(ghost before: map<Id, Title>, ghost first: nat, entries: seq<Entry>,
                       ghost done: set<TitleKey>, key: TitleKey)
      requires key in Keys(entries) && key !in done
      requires first <= nextTitle && forall id :: id in titles ==> id.number < nextTitle
      requires forall id :: id in before ==> id in titles
      requires TitlesUpserted(before, first, entries, done, titles)
      modifies `titles, `nextTitle
      ensures first <= nextTitle && forall id :: id in titles ==> id.number < nextTitle
      ensures TitlesUpserted(before, first, entries, done + {key}, titles)
    {
      var id := Id(nextTitle);
      nextTitle := nextTitle + 1;
      var i := Introducer(entries, key);
      var vendor := VendorOf(entries, key);
      ghost var was := titles;
      if found :| found in titles && TitleKeyOf(titles[found]) == key {
        titles := titles[found := Revendored(titles[found], vendor)];
        TitleRevendored(before, first, entries, done, was, key, found);
      } else {
        titles := titles[id := Title(entries[i].name, entries[i].source, entries[i].extensionFor,
                                     entries[i].bundle, vendor)];
        TitleInserted(before, first, entries, done, was, key, id, i);
      }
    }

    /** A title upsert, its groups in any order. */
    method UpsertTitles(ghost before: map<Id, Title>, ghost first: nat, entries: seq<Entry>,
                        ghost done: set<TitleKey>, keys: set<TitleKey>)
      requires keys <= Keys(entries) && keys !! done
      requires first <= nextTitle && forall id :: id in titles ==> id.number < nextTitle
      requires TitlesUpserted(before, first, entries, done, titles)
      modifies `titles, `nextTitle
      ensures first <= nextTitle && forall id :: id in titles ==> id.number < nextTitle
      ensures TitlesUpserted(before, first, entries, done + keys, titles)
    {
      var pending := keys;
      ghost var reached := done;
      while pending != {}
        invariant pending <= keys && pending !! reached && pending + reached == done + keys
        invariant first <= nextTitle && forall id :: id in titles ==> id.number < nextTitle
        invariant TitlesUpserted(before, first, entries, reached, titles)
        decreases pending
      {
        var key :| key in pending;
        pending := pending - {key};
        assert forall id :: id in before ==> id in titles;
        UpsertTitle(before, first, entries, reached, key);
        reached := reached + {key};
      }
      assert reached == done + keys;
    }

    /** UPDATE ... FROM: every staged row gets the title of its key. */
    method LinkTitles(entries: seq<Entry>) returns (titleIDs: seq<Id>)
      requires forall e :: e in entries ==> TitleCovered(KeyOf(e), titles)
      ensures Linked(titles, entries, titleIDs)
    {
      titleIDs := [];
      for i := 0 to |entries|
        invariant |titleIDs| == i && forall j :: 0 <= j < i ==> IsTitleOf(titles, entries[j], titleIDs[j])
      {
        assert TitleCovered(KeyOf(entries[i]), titles);
        var id :| id in titles && TitleKeyOf(titles[id]) == KeyOf(entries[i]);
        titleIDs := titleIDs + [id];
      }
    }

    /** The version of one entry, unless an earlier entry or the catalog has it. */
    method InsertVersion(
      ghost before: map<Id, Version>, ghost first: nat, entries: seq<Entry>, titleIDs: seq<Id>, i: nat)
      requires i < |titleIDs| == |entries|
      requires first <= nextVersion && forall id :: id in versions ==> id.number < nextVersion
      requires VersionsInserted(before, first, entries, titleIDs, i, versions)
      modifies `versions, `nextVersion
      ensures old(nextVersion) <= nextVersion && forall id :: id in versions ==> id.number < nextVersion
      ensures VersionsInserted(before, first, entries, titleIDs, i + 1, versions)
    {
      var key := VersionKeyOf(titleIDs[i], entries[i]);
      if forall j :: 0 <= j < i ==> VersionKeyOf(titleIDs[j], entries[j]) != key {
        var id := Id(nextVersion);
        nextVersion := nextVersion + 1;
        if !exists found :: found in versions && versions[found].key == key {
          VersionInserted(before, first, entries, titleIDs, i, versions, id);
          versions := versions[id := Version(key, entries[i].name)];
        } else {
          VersionPresent(before, first, entries, titleIDs, i, versions);
        }
      } else {
        VersionPresent(before, first, entries, titleIDs, i, versions);
      }
    }

    /** The version upsert: the first position of each distinct key, in order. */
    method InsertVersions(entries: seq<Entry>, titleIDs: seq<Id>)
      requires |titleIDs| == |entries| && VersionsDistinct(versions)
      requires forall id :: id in versions ==> id.number < nextVersion
      modifies `versions, `nextVersion
      ensures VersionsInserted(old(versions), old(nextVersion), entries, titleIDs, |entries|, versions)
      ensures old(nextVersion) <= nextVersion && forall id :: id in versions ==> id.number < nextVersion
    {
      ghost var before, first := versions, nextVersion;
      for i := 0 to |entries|
        invariant first <= nextVersion && forall id :: id in versions ==> id.number < nextVersion
        invariant VersionsInserted(before, first, entries, titleIDs, i, versions)
      {
        InsertVersion(before, first, entries, titleIDs, i);
      }
    }

    method LinkVersions(entries: seq<Entry>, titleIDs: seq<Id>) returns (versionIDs: seq<Id>)
      requires |titleIDs| == |entries| && VersionsDistinct(versions)
      requires forall i :: 0 <= i < |entries| ==> VersionCovered(VersionKeyOf(titleIDs[i], entries[i]), versions)
      requires TitlesDistinct(titles) && Linked(titles, entries, titleIDs)
      ensures |versionIDs| == |entries|
      ensures forall i, version :: 0 <= i < |entries| ==>
        (IsVersionOf(titles, versions, entries[i], version) <==> version == versionIDs[i])
    {
      versionIDs := [];
      for i := 0 to |entries|
        invariant |versionIDs| == i
        invariant forall j, version :: 0 <= j < i ==>
          (IsVersionOf(titles, versions, entries[j], version) <==> version == versionIDs[j])
      {
        assert VersionCovered(VersionKeyOf(titleIDs[i], entries[i]), versions);
        var id :| id in versions && versions[id].key == VersionKeyOf(titleIDs[i], entries[i]);
        assert IsTitleOf(titles, entries[i], titleIDs[i]);
        versionIDs := versionIDs + [id];
      }
    }

    // --------------------------------------------------------------- host software

    /** Insert the last position of each version. */
    method InsertInstalled(host: Id, entries: seq<Entry>, versionIDs: seq<Id>)
      requires |versionIDs| == |entries| && forall version :: (host, version) !in installed
      modifies `installed
      ensures forall at: (Id, Id) :: at.0 != host ==> (at in installed <==> at in old(installed))
      ensures forall at :: at in old(installed) && at.0 != host ==> installed[at] == old(installed)[at]
      ensures forall version :: (host, version) in installed <==> version in versionIDs
      ensures forall i :: 0 <= i < |entries| && LastIn(versionIDs, i) ==>
        (host, versionIDs[i]) in installed && installed[(host, versionIDs[i])] == entries[i].lastOpened
    {
      for i := 0 to |entries|
        invariant forall at: (Id, Id) :: at.0 != host ==> (at in installed <==> at in old(installed))
        invariant forall at :: at in old(installed) && at.0 != host ==> installed[at] == old(installed)[at]
        invariant forall version :: (host, version) in installed ==> version in versionIDs
        invariant forall j :: 0 <= j < i && LastIn(versionIDs, j) ==>
          (host, versionIDs[j]) in installed && installed[(host, versionIDs[j])] == entries[j].lastOpened
      {
        if forall j :: i < j < |versionIDs| ==> versionIDs[j] != versionIDs[i] {
          installed := installed[(host, versionIDs[i]) := entries[i].lastOpened];
        }
      }
      forall version | version in versionIDs ensures (host, version) in installed {
        var i := LastPosition(versionIDs, version);
      }
    }

    /** Insert the last position of each version and non-empty path. */
    method InsertPaths(host: Id, entries: seq<Entry>, versionIDs: seq<Id>)
      requires |versionIDs| == |entries| && forall version, path :: (host, version, path) !in paths
      modifies `paths
      ensures forall at: (Id, Id, string) :: at.0 != host ==> (at in paths <==> at in old(paths))
      ensures forall at :: at in old(paths) && at.0 != host ==> paths[at] == old(paths)[at]
      ensures forall version, path :: (host, version, path) in paths ==>
        path != "" && exists i :: 0 <= i < |entries| && versionIDs[i] == version && entries[i].path == path
      ensures forall i :: 0 <= i < |entries| && entries[i].path != "" && LastWithPath(entries, versionIDs, i) ==>
        (host, versionIDs[i], entries[i].path) in paths
        && paths[(host, versionIDs[i], entries[i].path)] == PathOf(entries[i])
    {
      for i := 0 to |entries|
        invariant forall at: (Id, Id, string) :: at.0 != host ==> (at in paths <==> at in old(paths))
        invariant forall at :: at in old(paths) && at.0 != host ==> paths[at] == old(paths)[at]
        invariant forall version, path :: (host, version, path) in paths ==>
          path != "" && exists j :: 0 <= j < |entries| && versionIDs[j] == version && entries[j].path == path
        invariant forall j :: 0 <= j < i && entries[j].path != "" && LastWithPath(entries, versionIDs, j) ==>
          (host, versionIDs[j], entries[j].path) in paths
          && paths[(host, versionIDs[j], entries[j].path)] == PathOf(entries[j])
      {
        if entries[i].path != ""
           && forall j :: i < j < |entries| ==> versionIDs[j] != versionIDs[i] || entries[j].path != entries[i].path {
          paths := paths[(host, versionIDs[i], entries[i].path) := PathOf(entries[i])];
        }
      }
    }

    // ------------------------------------------------------------- the transaction

    /** Upsert the titles, those with a bundle identifier first. */
    method ReconcileTitles(entries: seq<Entry>)
      requires TitlesDistinct(titles) && forall id :: id in titles ==> id.number < nextTitle
      modifies `titles, `nextTitle
      ensures old(nextTitle) <= nextTitle && forall id :: id in titles ==> id.number < nextTitle
      ensures TitlesUpserted(old(titles), old(nextTitle), entries, Keys(entries), titles)
    {
      ghost var before, first := titles, nextTitle;
      var byBundle := set e | e in entries && e.bundle != "" :: KeyOf(e);
      var byName := set e | e in entries && e.bundle == "" :: KeyOf(e);
      assert byBundle !! byName;
      UpsertTitles(before, first, entries, {}, byBundle);
      assert {} + byBundle == byBundle;
      UpsertTitles(before, first, entries, byBundle, byName);
      assert byBundle + byName == Keys(entries);
    }

    method ReconcileCatalog(entries: seq<Entry>) returns (versionIDs: seq<Id>)
      requires Consistent(State())
      modifies `titles, `versions, `nextTitle, `nextVersion
      ensures old(nextTitle) <= nextTitle && old(nextVersion) <= nextVersion
      ensures forall id :: id in titles ==> id.number < nextTitle
      ensures forall id :: id in versions ==> id.number < nextVersion && versions[id].key.title in titles
      ensures TitlesUpserted(old(titles), old(nextTitle), entries, Keys(entries), titles)
      ensures exists titleIDs :: Catalogued(old(versions), old(nextVersion), entries, titleIDs, titles, versions)
      ensures |versionIDs| == |entries|
      ensures forall i, version :: 0 <= i < |entries| ==>
        (IsVersionOf(titles, versions, entries[i], version) <==> version == versionIDs[i])
    {
      ghost var s := State();
      ReconcileTitles(entries);
      TitlesCovered(s.titles, s.nextTitle, entries, titles);
      var titleIDs := LinkTitles(entries);
      InsertVersions(entries, titleIDs);
      VersionsHaveTitles(s, entries, titleIDs, titles, versions);
      assert Catalogued(s.versions, s.nextVersion, entries, titleIDs, titles, versions);
      versionIDs := LinkVersions(entries, titleIDs);
    }

    /** Delete the host's rows and insert the snapshot's. */
    method ReplaceRows(host: Id, entries: seq<Entry>, versionIDs: seq<Id>)
      requires |versionIDs| == |entries|
      requires forall i, version :: 0 <= i < |entries| ==>
        (IsVersionOf(titles, versions, entries[i], version) <==> version == versionIDs[i])
      modifies `installed, `paths
      ensures InstalledReplaced(old(State()), host, entries, State())
      ensures PathsReplaced(old(State()), host, entries, State())
    {
      paths := map at | at in paths && at.0 != host :: paths[at];
      installed := map at | at in installed && at.0 != host :: installed[at];
      InsertInstalled(host, entries, versionIDs);
      InsertPaths(host, entries, versionIDs);
      LastPositionsAgree(titles, versions, entries, versionIDs);
      forall version ensures version in versionIDs ==> exists i :: LastOf(titles, versions, entries, i, version) {
        if version in versionIDs {
          var i := LastPosition(versionIDs, version);
          assert LastOf(titles, versions, entries, i, version);
        }
      }
      forall i | 0 <= i < |entries|
        ensures exists j :: LastAt(titles, versions, entries, j, versionIDs[i], entries[i].path)
      {
        var j := LastPositionWithPath(entries, versionIDs, i);
        assert LastAt(titles, versions, entries, j, versionIDs[i], entries[i].path);
      }
    }

    method SourcesSupported(observed: seq<Entry>) returns (supported: bool)
      ensures supported <==> forall e :: e in Named(observed) ==> !e.source.Unsupported?
    {
      for i := 0 to |observed|
        invariant forall j :: 0 <= j < i && observed[j].name != "" ==> !observed[j].source.Unsupported?
      {
        if observed[i].name != "" && observed[i].source.Unsupported? {
          assert observed[i] in Named(observed);
          return false;
        }
      }
      supported := true;
    }

    method ReplaceHostSoftware(host: Id, observed: seq<Entry>) returns (r: Outcome)
      requires Consistent(State())
      modifies this
      ensures Replaced(old(State()), host, observed, State(), r)
    {
      var supported := SourcesSupported(observed);
      if !supported {
        return UnsupportedSource;
      }
      var saved := State();
      var staged := StageSnapshot(observed);
      var versionIDs := ReconcileCatalog(staged);
      if host !in hosts && staged != [] {
        titles, versions := saved.titles, saved.versions;
        return UnknownHost;
      }
      ReplaceRows(host, staged, versionIDs);
      ReplacedIsConsistent(saved, host, staged, State());
      r := Done;
    }

    // --------------------------------------------------------------------- pruning

    /** ORDER BY id LIMIT. */
    method SmallestIDs(candidates: set<Id>, limit: nat) returns (chosen: set<Id>)
      ensures chosen <= candidates
      ensures |chosen| <= limit && (|chosen| < limit ==> chosen == candidates)
      ensures forall a, b :: a in chosen && b in candidates - chosen ==> a.number < b.number
    {
      chosen := {};
      var pending := candidates;
      while pending != {} && |chosen| < limit
        invariant chosen + pending == candidates && chosen !! pending
        invariant |chosen| <= limit
        invariant forall a, b :: a in chosen && b in pending ==> a.number < b.number
        decreases pending
      {
        LeastExists(pending);
        var id :| id in pending && forall other :: other in pending && other != id ==> id.number < other.number;
        pending := pending - {id};
        chosen := chosen + {id};
      }
    }

    method PruneVersions(limit: nat) returns (removed: nat)
      modifies `versions, `paths
      ensures |old(versions)| == |versions| + removed && removed <= limit
      ensures forall id :: id in versions ==> id in old(versions) && versions[id] == old(versions)[id]
      ensures forall id :: id in old(versions) && Referenced(old(State()), id) ==> id in versions
      ensures removed < limit ==> forall id :: id in versions ==> Referenced(State(), id)
      ensures forall a, b :: a in old(versions) && a !in versions && b in versions && !Referenced(State(), b) ==>
        a.number < b.number
      ensures paths == map at | at in old(paths) && (at.1 in old(versions) ==> at.1 in versions) :: old(paths)[at]
    {
      var unreferenced := UnreferencedVersions();
      var candidates := SmallestIDs(unreferenced, limit);
      SizeAfter(versions, candidates);
      versions := versions - candidates;
      paths := map at | at in paths && at.1 !in candidates :: paths[at];
      removed := |candidates|;
    }

    method UnreferencedVersions() returns (unreferenced: set<Id>)
      ensures forall id :: id in unreferenced <==> id in versions && !Referenced(State(), id)
    {
      unreferenced := set id | id in versions && !exists at :: at in installed && at.1 == id;
      forall id ensures Referenced(State(), id) <==> exists at :: at in installed && at.1 == id {
        if at :| at in installed && at.1 == id {
          assert at == (at.0, id);
        }
      }
    }

    method PruneTitles(limit: nat) returns (removed: nat)
      modifies `titles
      ensures |old(titles)| == |titles| + removed && removed <= limit
      ensures forall id :: id in titles ==> id in old(titles) && titles[id] == old(titles)[id]
      ensures forall id :: id in old(titles) && HasVersion(versions, id) ==> id in titles
      ensures removed < limit ==> forall id :: id in titles ==> HasVersion(versions, id)
      ensures forall a, b :: a in old(titles) && a !in titles && b in titles && !HasVersion(versions, b) ==>
        a.number < b.number
    {
      var versionless := set id | id in titles
        && !exists version :: version in versions && versions[version].key.title == id;
      var candidates := SmallestIDs(versionless, limit);
      ghost var before := titles;
      titles := titles - candidates;
      removed := |candidates|;
      SizeAfter(before, candidates);
    }

    /** One batch, in the midst of pruning s. */
    method PruneBatch(ghost s: Tables) returns (v: nat, n: nat)
      requires State() == s.(versions := versions, titles := titles, paths := paths) && Between(s, State())
      modifies `versions, `titles, `paths
      ensures State() == s.(versions := versions, titles := titles, paths := paths) && Between(s, State())
      ensures |old(versions)| == |versions| + v && |old(titles)| == |titles| + n
      ensures v < CLEANUP_BATCH_SIZE ==> forall id :: id in versions ==> Referenced(s, id)
      ensures n < CLEANUP_BATCH_SIZE ==> forall id :: id in titles ==> HasVersion(versions, id)
    {
      ghost var t := State();
      v := PruneVersions(CLEANUP_BATCH_SIZE);
      n := PruneTitles(CLEANUP_BATCH_SIZE);
      BetweenSteps(s, t, State());
    }

    /** Batches until one removes less than it might of both. The result is the
        fixpoint, and the totals count what went. */
    method PruneUnreferencedSoftware() returns (prunedVersions: nat, prunedTitles: nat)
      requires forall at :: at in paths ==> at.1 in versions
      modifies this
      ensures State() == Pruned(old(State()))
      ensures |old(versions)| == |versions| + prunedVersions
      ensures |old(titles)| == |titles| + prunedTitles
    {
      prunedVersions, prunedTitles := 0, 0;
      ghost var s := State();
      var finished := false;
      while !finished
        invariant State() == s.(versions := versions, titles := titles, paths := paths)
        invariant |s.versions| == |versions| + prunedVersions && |s.titles| == |titles| + prunedTitles
        invariant Between(s, State())
        invariant finished ==>
          (forall id :: id in versions ==> Referenced(s, id)) && forall id :: id in titles ==> HasVersion(versions, id)
        decreases |versions| + |titles|, !finished
      {
        var v, n := PruneBatch(s);
        prunedVersions, prunedTitles := prunedVersions + v, prunedTitles + n;
        finished := v < CLEANUP_BATCH_SIZE && n < CLEANUP_BATCH_SIZE;
      }
      BetweenEnds(s, State());
    }
  }

  /** Some of what pruning removes is gone, and nothing else. */
  ghost predicate Between(s: Tables, t: Tables) {
    (forall id :: id in t.versions ==> id in s.versions && t.versions[id] == s.versions[id])
    && (forall id :: id in s.versions && Referenced(s, id) ==> id in t.versions)
    && (forall id :: id in t.titles ==> id in s.titles && t.titles[id] == s.titles[id])
    && (forall id :: id in s.titles && HasVersion(t.versions, id) ==> id in t.titles)
    && t.paths == map at | at in s.paths && (at.1 in s.versions ==> at.1 in t.versions) :: s.paths[at]
  }

  lemma BetweenSteps(s: Tables, t: Tables, u: Tables)
    requires t == s.(versions := t.versions, titles := t.titles, paths := t.paths) && Between(s, t)
    requires u == t.(versions := u.versions, titles := u.titles, paths := u.paths)
    requires forall id :: id in u.versions ==> id in t.versions && u.versions[id] == t.versions[id]
    requires forall id :: id in t.versions && Referenced(t, id) ==> id in u.versions
    requires forall id :: id in u.titles ==> id in t.titles && u.titles[id] == t.titles[id]
    requires forall id :: id in t.titles && HasVersion(u.versions, id) ==> id in u.titles
    requires u.paths == map at | at in t.paths && (at.1 in t.versions ==> at.1 in u.versions) :: t.paths[at]
    ensures Between(s, u)
  {
    forall id | id in s.versions && Referenced(s, id) ensures id in u.versions {
      assert Referenced(t, id);
    }
    forall id | id in s.titles && HasVersion(u.versions, id) ensures id in u.titles {
      var version :| version in u.versions && u.versions[version].key.title == id;
      assert version in t.versions && t.versions[version].key.title == id;
      assert HasVersion(t.versions, id);
    }
  }

  lemma BetweenEnds(s: Tables, t: Tables)
    requires t == s.(versions := t.versions, titles := t.titles, paths := t.paths) && Between(s, t)
    requires forall id :: id in t.versions ==> Referenced(s, id)
    requires forall id :: id in t.titles ==> HasVersion(t.versions, id)
    requires forall at :: at in s.paths ==> at.1 in s.versions
    ensures t == Pruned(s)
  {
    assert t.versions == Pruned(s).versions;
    assert t.titles == Pruned(s).titles;
    assert t.paths == Pruned(s).paths;
  }

  lemma {:induction false} LeastExists(ids: set<Id>)
    requires ids != {}
    ensures exists id :: id in ids && forall other :: other in ids && other != id ==> id.number < other.number
  {
    var some :| some in ids;
    var rest := ids - {some};
    if rest == {} {
      assert ids == {some};
    } else {
      LeastExists(rest);
      var least :| least in rest && forall other :: other in rest && other != least ==> least.number < other.number;
      var id := if some.number < least.number then some else least;
      forall other | other in ids && other != id ensures id.number < other.number {
        assert other == some || other in rest;
        assert some.number != least.number by {
          assert some == Id(some.number) && least == Id(least.number);
        }
      }
      assert id in ids;
    }
  }

  lemma SizeAfter<V>(rows: map<Id, V>, removed: set<Id>)
    requires removed <= rows.Keys
    ensures |rows| == |rows - removed| + |removed|
  {
    assert (rows - removed).Keys == rows.Keys - removed;
    assert |rows.Keys| == |rows| && |(rows - removed).Keys| == |rows - removed|;
  }

  lemma TitlesCovered(s: map<Id, Title>, first: nat, entries: seq<Entry>, t: map<Id, Title>)
    requires TitlesUpserted(s, first, entries, Keys(entries), t)
    ensures forall e :: e in entries ==> TitleCovered(KeyOf(e), t)
    ensures TitlesDistinct(t) && forall id :: id in s ==> id in t
  {
    forall e | e in entries ensures TitleCovered(KeyOf(e), t) {
      assert KeyOf(e) in Keys(entries);
    }
  }

  lemma VersionsHaveTitles(
    s: Tables, entries: seq<Entry>, titleIDs: seq<Id>, titles: map<Id, Title>, versions: map<Id, Version>)
    requires Consistent(s) && Linked(titles, entries, titleIDs)
    requires VersionsInserted(s.versions, s.nextVersion, entries, titleIDs, |entries|, versions)
    requires forall id :: id in s.titles ==> id in titles
    ensures forall id :: id in versions ==> versions[id].key.title in titles
  {
    forall id | id in versions ensures versions[id].key.title in titles {
      if id !in s.versions {
        var i :| 0 <= i < |entries| && IntroducesVersion(entries, titleIDs, i)
          && versions[id] == Version(VersionKeyOf(titleIDs[i], entries[i]), entries[i].name);
        assert IsTitleOf(titles, entries[i], titleIDs[i]);
      }
    }
  }

  lemma LastPositionsAgree(
    titles: map<Id, Title>, versions: map<Id, Version>, entries: seq<Entry>, versionIDs: seq<Id>)
    requires |versionIDs| == |entries|
    requires forall i, version :: 0 <= i < |entries| ==>
      (IsVersionOf(titles, versions, entries[i], version) <==> version == versionIDs[i])
    ensures forall i, version ::
      LastOf(titles, versions, entries, i, version) <==> LastIn(versionIDs, i) && versionIDs[i] == version
    ensures forall i, version, path ::
      LastAt(titles, versions, entries, i, version, path)
      <==> LastWithPath(entries, versionIDs, i) && versionIDs[i] == version && entries[i].path == path
  {
    forall i, version
      ensures LastOf(titles, versions, entries, i, version) <==> LastIn(versionIDs, i) && versionIDs[i] == version
    {
      if 0 <= i < |entries| && versionIDs[i] == version {
        forall j | i < j < |entries|
          ensures IsVersionOf(titles, versions, entries[j], version) <==> versionIDs[j] == versionIDs[i] {}
      }
    }
  }

  lemma LastPositionWithPath(entries: seq<Entry>, ids: seq<Id>, from: nat) returns (i: nat)
    requires from < |ids| == |entries|
    ensures i < |ids| && ids[i] == ids[from] && entries[i].path == entries[from].path
    ensures LastWithPath(entries, ids, i)
  {
    i := |ids| - 1;
    while ids[i] != ids[from] || entries[i].path != entries[from].path
      invariant from <= i < |ids|
      invariant forall j :: i < j < |ids| ==> ids[j] != ids[from] || entries[j].path != entries[from].path
      decreases i
    {
      i := i - 1;
    }
  }

  lemma ReplacedIsConsistent(s: Tables, host: Id, entries: seq<Entry>, t: Tables)
    requires Consistent(s) && (host in s.hosts || entries == []) && t.hosts == s.hosts
    requires TitlesDistinct(t.titles) && VersionsDistinct(t.versions)
    requires forall id :: id in t.titles ==> id.number < t.nextTitle
    requires forall id :: id in t.versions ==> id.number < t.nextVersion && t.versions[id].key.title in t.titles
    requires forall id :: id in s.versions ==> id in t.versions
    requires InstalledReplaced(s, host, entries, t) && PathsReplaced(s, host, entries, t)
    ensures Consistent(t)
  {
    forall at | at in t.installed ensures at.0 in t.hosts && at.1 in t.versions {
      if at.0 == host {
        assert at == (host, at.1);
      }
    }
    forall at | at in t.paths ensures (at.0, at.1) in t.installed {
      if at.0 == host {
        assert at == (host, at.1, at.2);
        var i :| LastAt(t.titles, t.versions, entries, i, at.1, at.2);
        LastExists(t.titles, t.versions, entries, i, at.1);
      } else {
        assert at in s.paths;
      }
    }
  }

  lemma {:induction false} LastExists(
    titles: map<Id, Title>, versions: map<Id, Version>, entries: seq<Entry>, i: nat, version: Id)
    requires i < |entries| && IsVersionOf(titles, versions, entries[i], version)
    ensures exists j :: LastOf(titles, versions, entries, j, version)
    decreases |entries| - i
  {
    if j :| i < j < |entries| && IsVersionOf(titles, versions, entries[j], version) {
      LastExists(titles, versions, entries, j, version);
    } else {
      assert LastOf(titles, versions, entries, i, version);
    }
  }

  ghost predicate LastIn(ids: seq<Id>, i: int) {
    0 <= i < |ids| && forall j :: i < j < |ids| ==> ids[j] != ids[i]
  }

  ghost predicate LastWithPath(entries: seq<Entry>, ids: seq<Id>, i: int)
    requires |entries| == |ids|
  {
    0 <= i < |ids| && forall j :: i < j < |ids| ==> ids[j] != ids[i] || entries[j].path != entries[i].path
  }

  lemma LastPosition(ids: seq<Id>, id: Id) returns (i: nat)
    requires id in ids
    ensures i < |ids| && ids[i] == id && LastIn(ids, i)
  {
    i := |ids| - 1;
    while ids[i] != id
      invariant i < |ids|
      invariant forall j :: i < j < |ids| ==> ids[j] != id
      invariant exists j :: 0 <= j <= i && ids[j] == id
      decreases i
    {
      i := i - 1;
    }
  }

  lemma VersionPresent(
    s: map<Id, Version>, first: nat, entries: seq<Entry>, titleIDs: seq<Id>, n: nat, t: map<Id, Version>)
    requires n < |entries| == |titleIDs| && VersionsInserted(s, first, entries, titleIDs, n, t)
    requires VersionCovered(VersionKeyOf(titleIDs[n], entries[n]), t)
             || exists j :: 0 <= j < n && VersionKeyOf(titleIDs[j], entries[j]) == VersionKeyOf(titleIDs[n], entries[n])
    ensures VersionsInserted(s, first, entries, titleIDs, n + 1, t)
  {
    if j :| 0 <= j < n && VersionKeyOf(titleIDs[j], entries[j]) == VersionKeyOf(titleIDs[n], entries[n]) {
      assert VersionCovered(VersionKeyOf(titleIDs[j], entries[j]), t);
    }
  }

  lemma VersionInserted(
    s: map<Id, Version>, first: nat, entries: seq<Entry>, titleIDs: seq<Id>, n: nat, t: map<Id, Version>, id: Id)
    requires n < |entries| == |titleIDs| && VersionsInserted(s, first, entries, titleIDs, n, t)
    requires IntroducesVersion(entries, titleIDs, n) && id !in t && id.number >= first
    requires !VersionCovered(VersionKeyOf(titleIDs[n], entries[n]), t)
    ensures var row := Version(VersionKeyOf(titleIDs[n], entries[n]), entries[n].name);
      VersionsInserted(s, first, entries, titleIDs, n + 1, t[id := row])
  {
    var u := t[id := Version(VersionKeyOf(titleIDs[n], entries[n]), entries[n].name)];
    forall i | 0 <= i < n + 1 ensures VersionCovered(VersionKeyOf(titleIDs[i], entries[i]), u) {
      if i < n {
        assert VersionCovered(VersionKeyOf(titleIDs[i], entries[i]), t);
        var at :| at in t && t[at].key == VersionKeyOf(titleIDs[i], entries[i]);
        assert at in u && u[at].key == VersionKeyOf(titleIDs[i], entries[i]);
      } else {
        assert u[id].key == VersionKeyOf(titleIDs[n], entries[n]);
      }
    }
  }

  lemma RevendoredStayDistinct(t: map<Id, Title>, id: Id, vendor: string)
    requires TitlesDistinct(t) && id in t
    ensures TitlesDistinct(t[id := Revendored(t[id], vendor)])
  {}

  lemma TitleRevendored(
    s: map<Id, Title>, first: nat, entries: seq<Entry>, done: set<TitleKey>, t: map<Id, Title>, key: TitleKey, id: Id)
    requires TitlesUpserted(s, first, entries, done, t) && key !in done
    requires id in t && TitleKeyOf(t[id]) == key
    ensures TitlesUpserted(s, first, entries, done + {key}, t[id := Revendored(t[id], VendorOf(entries, key))])
  {
    var u := t[id := Revendored(t[id], VendorOf(entries, key))];
    RevendoredStayDistinct(t, id, VendorOf(entries, key));
    forall k | k in done + {key} ensures TitleCovered(k, u) {
      var at :| at in t && TitleKeyOf(t[at]) == k;
      assert at in u && TitleKeyOf(u[at]) == k;
    }
    assert id in s;
    assert TitlesNew(s, first, entries, done + {key}, u);
  }

  lemma InsertedIsNew(
    s: map<Id, Title>, first: nat, entries: seq<Entry>, done: set<TitleKey>, t: map<Id, Title>, key: TitleKey,
    id: Id, i: nat)
    requires TitlesNew(s, first, entries, done, t)
    requires id !in t && id.number >= first && Introduces(entries, i) && KeyOf(entries[i]) == key
    ensures TitlesNew(s, first, entries, done + {key}, t[id := NewTitle(entries, i)])
  {}

  lemma InsertedKeeps(
    s: map<Id, Title>, entries: seq<Entry>, done: set<TitleKey>, t: map<Id, Title>, key: TitleKey, id: Id, row: Title)
    requires TitlesKept(s, entries, done, t) && key !in done && id !in t
    requires forall at :: at in t ==> TitleKeyOf(t[at]) != key
    ensures TitlesKept(s, entries, done + {key}, t[id := row])
  {
    forall at | at in s ensures TitleKeyOf(s[at]) != key {
      assert TitleKeyOf(t[at]) == TitleKeyOf(s[at]);
    }
  }

  lemma TitleInserted(
    s: map<Id, Title>, first: nat, entries: seq<Entry>, done: set<TitleKey>, t: map<Id, Title>, key: TitleKey,
    id: Id, i: nat)
    requires TitlesUpserted(s, first, entries, done, t) && key !in done
    requires forall at :: at in t ==> TitleKeyOf(t[at]) != key
    requires id !in t && id.number >= first
    requires Introduces(entries, i) && KeyOf(entries[i]) == key
    ensures TitlesUpserted(s, first, entries, done + {key}, t[id := NewTitle(entries, i)])
  {
    var u := t[id := NewTitle(entries, i)];
    InsertedIsNew(s, first, entries, done, t, key, id, i);
    InsertedKeeps(s, entries, done, t, key, id, NewTitle(entries, i));
    assert TitleKeyOf(u[id]) == key;
    forall k | k in done + {key} ensures TitleCovered(k, u) {
      if k != key {
        var at :| at in t && TitleKeyOf(t[at]) == k;
        assert at in u && TitleKeyOf(u[at]) == k;
      }
    }
  }
}

/** Reading a host's software back after it was replaced: the grouping of the joined
    rows says of every title, version and path what the snapshot said. */
module InventoryReadBack {
  import opened Basics
  import opened Inventory
  import opened InventoryGrouping

  // ------------------------------------------------------------------------- the join

  /** A row of the join of host_software, software and software_titles, with a path
      or, where the left join finds none, without. */
  function JoinRow(t: Tables, host: Id, version: Id, path: string, at: Option<InstalledPath>): Row
    requires (host, version) in t.installed && version in t.versions && t.versions[version].key.title in t.titles
  {
    var key := t.versions[version].key;
    var title := t.titles[key.title];
    var p := at.GetOr(InstalledPath(None, "", "", "", None, None, None));
    Row(key.title, title.name, title.source, title.extensionFor, version, key.version, key.bundle,
        t.installed[(host, version)], path, p.signed, p.identifier, p.authority, p.teamIdentifier,
        p.cdhash.GetOr(""), p.executableSHA256.GetOr(""), p.executablePath.GetOr(""))
  }

  ghost predicate HasPath(t: Tables, host: Id, version: Id) {
    exists path :: (host, version, path) in t.paths
  }

  ghost predicate IsJoinRow(t: Tables, host: Id, row: Row)
    requires Consistent(t)
  {
    (host, row.softwareID) in t.installed
    && if HasPath(t, host, row.softwareID) then
         (host, row.softwareID, row.path) in t.paths
         && row == JoinRow(t, host, row.softwareID, row.path, Some(t.paths[(host, row.softwareID, row.path)]))
       else row == JoinRow(t, host, row.softwareID, "", None)
  }

  /** The rows of the query, in any order. */
  ghost predicate AreJoined(t: Tables, host: Id, rows: seq<Row>)
    requires Consistent(t)
  {
    forall row :: row in rows <==> IsJoinRow(t, host, row)
  }

  // ------------------------------------------------------------ what the snapshot says

  /** A path as its entry gives it. */
  function PathViewOf(e: Entry): PathView {
    PathView(e.path, e.executableSHA256, e.executablePath, e.signature)
  }

  ghost predicate IsPathOf(t: Tables, entries: seq<Entry>, version: Id, view: PathView) {
    view.path != ""
    && exists i :: LastAt(t.titles, t.versions, entries, i, version, view.path) && view == PathViewOf(entries[i])
  }

  ghost predicate IsLastSeen(t: Tables, entries: seq<Entry>, version: Id, view: VersionView, i: int) {
    LastOf(t.titles, t.versions, entries, i, version)
    && view.version == entries[i].version && view.bundle == entries[i].bundle
    && view.lastOpened == entries[i].lastOpened
  }

  /** The view of a version is that of its last entry, with a path for the last entry
      of each path, as that entry gives it. */
  ghost predicate Describes(t: Tables, entries: seq<Entry>, version: Id, view: VersionView) {
    (exists i :: IsLastSeen(t, entries, version, view, i))
    && forall path :: path in view.paths <==> IsPathOf(t, entries, version, path)
  }

  // --------------------------------------------------------------------------- groups

  lemma {:induction false} PathsAreViews(rows: seq<Row>, view: PathView)
    ensures view in PathsOf(rows) <==> exists row :: row in rows && row.path != "" && View(row) == view
  {
    if rows != [] {
      var before, last := rows[..|rows| - 1], rows[|rows| - 1];
      PathsAreViews(before, view);
      assert rows == before + [last];
      if view in PathsOf(before) {
        var row :| row in before && row.path != "" && View(row) == view;
        assert row in rows;
      }
    }
  }

  /** A stored path, joined and viewed, is the entry's own. */
  lemma PathReturns(t: Tables, host: Id, version: Id, e: Entry)
    requires (host, version) in t.installed && version in t.versions && t.versions[version].key.title in t.titles
    ensures View(JoinRow(t, host, version, e.path, Some(PathOf(e)))) == PathViewOf(e)
  {}

  lemma JoinedPath(s: Tables, host: Id, observed: seq<Entry>, t: Tables, row: Row)
    requires Replaced(s, host, observed, t, Done) && IsJoinRow(t, host, row) && row.path != ""
    ensures IsPathOf(t, Named(observed), row.softwareID, View(row))
  {
    var entries := Named(observed);
    var i := PathHasEntry(s, host, entries, t, row.softwareID, row.path);
    PathReturns(t, host, row.softwareID, entries[i]);
  }

  lemma PathIsJoined(s: Tables, host: Id, observed: seq<Entry>, t: Tables, version: Id, view: PathView)
    returns (row: Row)
    requires Replaced(s, host, observed, t, Done) && IsPathOf(t, Named(observed), version, view)
    ensures IsJoinRow(t, host, row) && row.softwareID == version && row.path != "" && View(row) == view
  {
    var entries := Named(observed);
    var i :| LastAt(t.titles, t.versions, entries, i, version, view.path) && view == PathViewOf(entries[i]);
    assert (host, version, view.path) in t.paths;
    assert (host, version) in t.installed;
    row := JoinRow(t, host, version, view.path, Some(t.paths[(host, version, view.path)]));
    PathReturns(t, host, version, entries[i]);
  }

  /** The rows of a title and version. */
  function GroupOf(rows: seq<Row>, title: Id, version: Id): seq<Row> {
    OfVersion(OfTitle(rows, title), version)
  }

  lemma GroupPaths(
    s: Tables, host: Id, observed: seq<Entry>, t: Tables, rows: seq<Row>, title: Id, version: Id, view: PathView)
    requires Replaced(s, host, observed, t, Done) && AreJoined(t, host, rows)
    requires version in t.versions && t.versions[version].key.title == title
    ensures view in PathsOf(GroupOf(rows, title, version)) <==> IsPathOf(t, Named(observed), version, view)
  {
    var group := GroupOf(rows, title, version);
    PathsAreViews(group, view);
    if view in PathsOf(group) {
      var row :| row in group && row.path != "" && View(row) == view;
      JoinedPath(s, host, observed, t, row);
    }
    if IsPathOf(t, Named(observed), version, view) {
      var row := PathIsJoined(s, host, observed, t, version, view);
      assert row in rows && row in group;
    }
  }

  /** Every group of joined rows describes its version. */
  lemma GroupDescribes(
    s: Tables, host: Id, observed: seq<Entry>, t: Tables, rows: seq<Row>, title: Id, version: Id)
    requires Replaced(s, host, observed, t, Done) && AreJoined(t, host, rows)
    requires GroupOf(rows, title, version) != []
    ensures version in t.versions && t.versions[version].key.title == title
    ensures Describes(t, Named(observed), version, VersionOf(GroupOf(rows, title, version)))
  {
    var group := GroupOf(rows, title, version);
    var first := group[0];
    assert first in group;
    var entries := Named(observed);
    var i :| LastOf(t.titles, t.versions, entries, i, version);
    assert IsLastSeen(t, entries, version, VersionOf(group), i);
    forall view ensures view in VersionOf(group).paths <==> IsPathOf(t, entries, version, view) {
      GroupPaths(s, host, observed, t, rows, title, version, view);
    }
  }

  lemma InstalledIsJoined(t: Tables, host: Id, version: Id) returns (row: Row)
    requires Consistent(t) && (host, version) in t.installed
    ensures IsJoinRow(t, host, row) && row.softwareID == version
    ensures row.titleID == t.versions[version].key.title
  {
    if HasPath(t, host, version) {
      var path :| (host, version, path) in t.paths;
      row := JoinRow(t, host, version, path, Some(t.paths[(host, version, path)]));
    } else {
      row := JoinRow(t, host, version, "", None);
    }
  }

  lemma {:induction false} LastExists(t: Tables, entries: seq<Entry>, i: nat, version: Id) returns (last: nat)
    requires i < |entries| && IsVersionOf(t.titles, t.versions, entries[i], version)
    ensures LastOf(t.titles, t.versions, entries, last, version)
    decreases |entries| - i
  {
    if j: nat :| i < j < |entries| && IsVersionOf(t.titles, t.versions, entries[j], version) {
      last := LastExists(t, entries, j, version);
    } else {
      last := i;
    }
  }

  /** Every entry's version is installed, so some row of the join is about it. */
  lemma EntryIsJoined(s: Tables, host: Id, observed: seq<Entry>, t: Tables, rows: seq<Row>, e: Entry)
    returns (title: Id, version: Id)
    requires Replaced(s, host, observed, t, Done) && AreJoined(t, host, rows) && e in Named(observed)
    ensures IsVersionOf(t.titles, t.versions, e, version) && t.versions[version].key.title == title
    ensures GroupOf(rows, title, version) != []
  {
    EntryHasOneVersion(s, host, observed, t, e);
    version :| IsVersionOf(t.titles, t.versions, e, version);
    title := t.versions[version].key.title;
    var entries := Named(observed);
    var i: nat :| i < |entries| && entries[i] == e;
    var last := LastExists(t, entries, i, version);
    var row := InstalledIsJoined(t, host, version);
    assert row in rows && row in OfTitle(rows, title) && row in GroupOf(rows, title, version);
  }

  // -------------------------------------------------------------------- row by row

  lemma GroupAppend(rows: seq<Row>, last: Row, title: Id, version: Id)
    ensures GroupOf(rows + [last], title, version) ==
      GroupOf(rows, title, version) + if last.titleID == title && last.softwareID == version then [last] else []
  {
    OfTitleAppend(rows, last, title);
    if last.titleID == title {
      OfVersionAppend(OfTitle(rows, title), last, version);
    } else {
      assert OfTitle(rows, title) + [] == OfTitle(rows, title);
    }
  }

  lemma GroupPathsAppend(rows: seq<Row>, last: Row, title: Id, version: Id)
    ensures PathsOf(GroupOf(rows + [last], title, version)) ==
      PathsOf(GroupOf(rows, title, version))
      + if last.titleID == title && last.softwareID == version && last.path != "" then [View(last)] else []
  {
    GroupAppend(rows, last, title, version);
    var group := GroupOf(rows, title, version);
    if last.titleID == title && last.softwareID == version {
      PathsAppend(group, last);
    } else {
      assert group + [] == group;
    }
  }

  /** The rows of a group, in the order of the query. */
  lemma {:induction false} GroupInOrder(rows: seq<Row>, title: Id, version: Id, of: Row -> bool)
    requires forall row :: of(row) <==> row.titleID == title && row.softwareID == version
    ensures var kept, group := Kept(of, rows), GroupOf(rows, title, version);
      |group| == |kept| && forall i :: 0 <= i < |kept| ==> group[i] == rows[kept[i]]
  {
    if rows != [] {
      var before, last := rows[..|rows| - 1], rows[|rows| - 1];
      GroupInOrder(before, title, version, of);
      assert rows == before + [last];
      GroupAppend(before, last, title, version);
    }
  }

  /** The paths of a group, in the order of the query, each as its row gives it. */
  lemma {:induction false} GroupPathsInOrder(rows: seq<Row>, title: Id, version: Id, shown: Row -> bool)
    requires forall row :: shown(row) <==> row.titleID == title && row.softwareID == version && row.path != ""
    ensures MapsKept(shown, View, rows, PathsOf(GroupOf(rows, title, version)))
  {
    if rows != [] {
      var before, last := rows[..|rows| - 1], rows[|rows| - 1];
      GroupPathsInOrder(before, title, version, shown);
      assert rows == before + [last];
      GroupPathsAppend(before, last, title, version);
      MapsOneMore(shown, View, before, last, PathsOf(GroupOf(before, title, version)));
    }
  }

  /** A version is shown with what its first row says, and with the paths of its rows. */
  lemma VersionShows(
    rows: seq<Row>, title: Id, version: Id, of: Row -> bool, shown: Row -> bool, view: VersionView)
    requires forall row :: of(row) <==> row.titleID == title && row.softwareID == version
    requires forall row :: shown(row) <==> of(row) && row.path != ""
    requires GroupOf(rows, title, version) != [] && view == VersionOf(GroupOf(rows, title, version))
    ensures Kept(of, rows) != [] && |view.paths| == |Kept(shown, rows)|
    ensures var first := rows[Kept(of, rows)[0]];
      view.version == first.version && view.bundle == first.bundle && view.lastOpened == first.lastOpened
    ensures forall i :: 0 <= i < |view.paths| ==>
      var path, row := view.paths[i], rows[Kept(shown, rows)[i]];
      path.path == row.path && path.executableSHA256 == row.executableSHA256
      && path.executablePath == row.executablePath
      && if row.signed.None? then path.signature.None?
         else path.signature == Some(Signature(
           signed := row.signed.value, identifier := row.identifier, authority := row.authority,
           teamIdentifier := row.teamIdentifier, cdhash := row.cdhash))
  {
    GroupInOrder(rows, title, version, of);
    GroupPathsInOrder(rows, title, version, shown);
  }

  /** A title is shown with what its first row says. */
  lemma TitleShows(rows: seq<Row>, k: nat)
    requires k < |Grouped(rows)|
    ensures var view := Grouped(rows)[k];
      exists i ::
        0 <= i < |rows| && rows[i].titleID == view.id && (forall j :: 0 <= j < i ==> rows[j].titleID != view.id)
        && view.name == rows[i].titleName && view.source == rows[i].source
        && view.extensionFor == rows[i].extensionFor
  {
    ViewOfTitle(rows, k);
    var i := FirstOfTitle(rows, Grouped(rows)[k].id);
  }

  lemma {:induction false} FirstOfTitle(rows: seq<Row>, title: Id) returns (i: nat)
    requires OfTitle(rows, title) != []
    ensures i < |rows| && rows[i].titleID == title && OfTitle(rows, title)[0] == rows[i]
    ensures forall j :: 0 <= j < i ==> rows[j].titleID != title
  {
    var before := rows[..|rows| - 1];
    if OfTitle(before, title) != [] {
      i := FirstOfTitle(before, title);
    } else {
      i := |rows| - 1;
      forall j | 0 <= j < i ensures rows[j].titleID != title {
        assert rows[j] == before[j];
        assert before[j] in before;
        assert before[j] !in OfTitle(before, title);
      }
    }
  }

  // ---------------------------------------------------------------------- reading back

  lemma ViewOfTitle(rows: seq<Row>, k: nat)
    requires k < |Grouped(rows)|
    ensures var id := FirstSeen(TitlesOf(rows))[k];
      OfTitle(rows, id) != [] && Grouped(rows)[k] == TitleOf(OfTitle(rows, id)) && Grouped(rows)[k].id == id
  {
    var id := FirstSeen(TitlesOf(rows))[k];
    assert id in TitlesOf(rows);
    TitleHasRows(rows, id);
    assert OfTitle(rows, id)[0] in OfTitle(rows, id);
  }

  lemma ViewOfVersion(rows: seq<Row>, j: nat)
    requires j < |ByVersion(rows)|
    ensures var id := FirstSeen(VersionsOf(rows))[j];
      OfVersion(rows, id) != [] && ByVersion(rows)[j] == VersionOf(OfVersion(rows, id))
  {
    var id := FirstSeen(VersionsOf(rows))[j];
    assert id in VersionsOf(rows);
    VersionHasRows(rows, id);
  }

  lemma GroupHasView(rows: seq<Row>, title: Id, version: Id) returns (k: nat, j: nat)
    requires GroupOf(rows, title, version) != []
    ensures k < |Grouped(rows)| && Grouped(rows)[k].id == title && j < |Grouped(rows)[k].versions|
    ensures Grouped(rows)[k].versions[j] == VersionOf(GroupOf(rows, title, version))
  {
    var group := OfTitle(rows, title);
    RowsHaveVersion(group, version);
    assert group[0] in group;
    NoRowsNoTitle(rows, title);
    k := PositionOf(FirstSeen(TitlesOf(rows)), title);
    ViewOfTitle(rows, k);
    j := PositionOf(FirstSeen(VersionsOf(group)), version);
    ViewOfVersion(group, j);
  }

  ghost predicate ShowsEntry(t: Tables, entries: seq<Entry>, titles: seq<TitleView>, e: Entry, version: Id) {
    IsVersionOf(t.titles, t.versions, e, version)
    && exists k, j :: 0 <= k < |titles| && 0 <= j < |titles[k].versions|
                      && titles[k].id == t.versions[version].key.title
                      && Describes(t, entries, version, titles[k].versions[j])
  }

  lemma EntryIsShown(s: Tables, host: Id, observed: seq<Entry>, t: Tables, rows: seq<Row>, e: Entry)
    requires Replaced(s, host, observed, t, Done) && AreJoined(t, host, rows) && e in Named(observed)
    ensures exists version :: ShowsEntry(t, Named(observed), Grouped(rows), e, version)
  {
    var title, version := EntryIsJoined(s, host, observed, t, rows, e);
    GroupDescribes(s, host, observed, t, rows, title, version);
    var k, j := GroupHasView(rows, title, version);
    assert ShowsEntry(t, Named(observed), Grouped(rows), e, version);
  }

  ghost predicate IsShown(t: Tables, entries: seq<Entry>, title: Id, view: VersionView) {
    exists version ::
      version in t.versions && t.versions[version].key.title == title && Describes(t, entries, version, view)
  }

  lemma ShownIsDescribed(
    s: Tables, host: Id, observed: seq<Entry>, t: Tables, rows: seq<Row>, k: nat, j: nat)
    requires Replaced(s, host, observed, t, Done) && AreJoined(t, host, rows)
    requires k < |Grouped(rows)| && j < |Grouped(rows)[k].versions|
    ensures IsShown(t, Named(observed), Grouped(rows)[k].id, Grouped(rows)[k].versions[j])
  {
    ViewOfTitle(rows, k);
    var group := OfTitle(rows, Grouped(rows)[k].id);
    ViewOfVersion(group, j);
    GroupDescribes(s, host, observed, t, rows, Grouped(rows)[k].id, FirstSeen(VersionsOf(group))[j]);
  }

  /** Replace, then read back: what is shown are the titles and versions of the
      snapshot's entries, each as its last entry describes it, and nothing else. */
  lemma SnapshotReadsBack(s: Tables, host: Id, observed: seq<Entry>, t: Tables, rows: seq<Row>, titles: seq<TitleView>)
    requires Replaced(s, host, observed, t, Done) && AreJoined(t, host, rows) && titles == Grouped(rows)
    ensures forall e :: e in Named(observed) ==>
      exists version :: ShowsEntry(t, Named(observed), titles, e, version)
    ensures forall k, j :: 0 <= k < |titles| && 0 <= j < |titles[k].versions| ==>
      IsShown(t, Named(observed), titles[k].id, titles[k].versions[j])
  {
    forall e | e in Named(observed) ensures exists version :: ShowsEntry(t, Named(observed), titles, e, version) {
      EntryIsShown(s, host, observed, t, rows, e);
    }
    forall k: nat, j: nat | k < |titles| && j < |titles[k].versions|
      ensures IsShown(t, Named(observed), titles[k].id, titles[k].versions[j])
    {
      ShownIsDescribed(s, host, observed, t, rows, k, j);
    }
  }
}

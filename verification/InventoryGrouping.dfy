/** Reading a host's software back: the rows of a join are grouped by title and
    version in place, through an ordered group of pointers and a map of indices. */
module InventoryGrouping {
  import opened Basics
  import opened Inventory
  import opened Strings

  /** A row of the join, with '' for absent text. */
  datatype Row = Row(
    titleID: Id,
    titleName: string,
    source: SoftwareSource,
    extensionFor: string,
    softwareID: Id,
    version: string,
    bundle: string,
    lastOpened: Option<int>,
    path: string,
    signed: Option<bool>,
    identifier: string,
    authority: string,
    teamIdentifier: string,
    cdhash: string,
    executableSHA256: string,
    executablePath: string)

  datatype PathView = PathView(
    path: string,
    executableSHA256: string,
    executablePath: string,
    signature: Option<Signature>)

  datatype VersionView = VersionView(version: string, bundle: string, lastOpened: Option<int>, paths: seq<PathView>)

  datatype TitleView = TitleView(
    id: Id,
    name: string,
    source: SoftwareSource,
    extensionFor: string,
    versions: seq<VersionView>)

  // ------------------------------------------------------------------ the group-by

  /** The distinct keys of a list, in the order they first appear. */
  function FirstSeen(keys: seq<Id>): (distinct: seq<Id>)
    ensures forall key :: key in distinct <==> key in keys
    ensures forall i, j :: 0 <= i < j < |distinct| ==> distinct[i] != distinct[j]
  {
    if keys == [] then []
    else
      var before, last := FirstSeen(keys[..|keys| - 1]), keys[|keys| - 1];
      assert keys == keys[..|keys| - 1] + [last];
      if last in before then before else before + [last]
  }

  function TitlesOf(rows: seq<Row>): (ids: seq<Id>)
    ensures |ids| == |rows| && forall i :: 0 <= i < |rows| ==> ids[i] == rows[i].titleID
  {
    seq(|rows|, i requires 0 <= i < |rows| => rows[i].titleID)
  }

  function VersionsOf(rows: seq<Row>): (ids: seq<Id>)
    ensures |ids| == |rows| && forall i :: 0 <= i < |rows| ==> ids[i] == rows[i].softwareID
  {
    seq(|rows|, i requires 0 <= i < |rows| => rows[i].softwareID)
  }

  function OfTitle(rows: seq<Row>, id: Id): (of: seq<Row>)
    ensures forall row :: row in of <==> row in rows && row.titleID == id
  {
    if rows == [] then []
    else
      var before, last := OfTitle(rows[..|rows| - 1], id), rows[|rows| - 1];
      assert rows == rows[..|rows| - 1] + [last];
      if last.titleID == id then before + [last] else before
  }

  function OfVersion(rows: seq<Row>, id: Id): (of: seq<Row>)
    ensures forall row :: row in of <==> row in rows && row.softwareID == id
  {
    if rows == [] then []
    else
      var before, last := OfVersion(rows[..|rows| - 1], id), rows[|rows| - 1];
      assert rows == rows[..|rows| - 1] + [last];
      if last.softwareID == id then before + [last] else before
  }

  function View(row: Row): PathView {
    PathView(row.path, row.executableSHA256, row.executablePath,
             if row.signed.None? then None
             else Some(Signature(row.signed.value, row.identifier, row.authority, row.teamIdentifier, row.cdhash)))
  }

  /** The rows with a path, in order. */
  function PathsOf(rows: seq<Row>): seq<PathView> {
    if rows == [] then []
    else
      var before, last := PathsOf(rows[..|rows| - 1]), rows[|rows| - 1];
      if last.path == "" then before else before + [View(last)]
  }

  /** A version is described by its first row. */
  function VersionOf(rows: seq<Row>): VersionView
    requires rows != []
  {
    VersionView(rows[0].version, rows[0].bundle, rows[0].lastOpened, PathsOf(rows))
  }

  function ByVersion(rows: seq<Row>): (versions: seq<VersionView>)
    ensures |versions| == |FirstSeen(VersionsOf(rows))|
  {
    var ids := FirstSeen(VersionsOf(rows));
    seq(|ids|, i requires 0 <= i < |ids| =>
      assert ids[i] in VersionsOf(rows);
      assert OfVersion(rows, ids[i]) != [] by { VersionHasRows(rows, ids[i]); }
      VersionOf(OfVersion(rows, ids[i])))
  }

  function TitleOf(rows: seq<Row>): TitleView
    requires rows != []
  {
    TitleView(rows[0].titleID, rows[0].titleName, rows[0].source, rows[0].extensionFor, ByVersion(rows))
  }

  /** Group by title, and within a title by version. */
  function Grouped(rows: seq<Row>): (titles: seq<TitleView>)
    ensures |titles| == |FirstSeen(TitlesOf(rows))|
  {
    var ids := FirstSeen(TitlesOf(rows));
    seq(|ids|, i requires 0 <= i < |ids| =>
      assert OfTitle(rows, ids[i]) != [] by { TitleHasRows(rows, ids[i]); }
      TitleOf(OfTitle(rows, ids[i])))
  }

  lemma VersionHasRows(rows: seq<Row>, id: Id)
    requires id in VersionsOf(rows)
    ensures OfVersion(rows, id) != []
  {
    var i :| 0 <= i < |rows| && VersionsOf(rows)[i] == id;
    assert rows[i] in OfVersion(rows, id);
  }

  lemma TitleHasRows(rows: seq<Row>, id: Id)
    requires id in TitlesOf(rows)
    ensures OfTitle(rows, id) != []
  {
    var i :| 0 <= i < |rows| && TitlesOf(rows)[i] == id;
    assert rows[i] in OfTitle(rows, id);
  }

  // ----------------------------------------------------------- one more row, purely

  lemma SeenAppend(keys: seq<Id>, key: Id)
    ensures FirstSeen(keys + [key]) == if key in keys then FirstSeen(keys) else FirstSeen(keys) + [key]
  {
    assert (keys + [key])[..|keys|] == keys;
  }

  lemma TitlesAppend(rows: seq<Row>, row: Row)
    ensures FirstSeen(TitlesOf(rows + [row]))
         == if row.titleID in TitlesOf(rows) then FirstSeen(TitlesOf(rows))
            else FirstSeen(TitlesOf(rows)) + [row.titleID]
  {
    assert TitlesOf(rows + [row]) == TitlesOf(rows) + [row.titleID];
    SeenAppend(TitlesOf(rows), row.titleID);
  }

  lemma OfTitleAppend(rows: seq<Row>, row: Row, id: Id)
    ensures OfTitle(rows + [row], id) == OfTitle(rows, id) + if row.titleID == id then [row] else []
  {
    assert (rows + [row])[..|rows|] == rows;
  }

  lemma OfVersionAppend(rows: seq<Row>, row: Row, id: Id)
    ensures OfVersion(rows + [row], id) == OfVersion(rows, id) + if row.softwareID == id then [row] else []
  {
    assert (rows + [row])[..|rows|] == rows;
  }

  lemma PathsAppend(rows: seq<Row>, row: Row)
    ensures PathsOf(rows + [row]) == PathsOf(rows) + if row.path == "" then [] else [View(row)]
  {
    assert (rows + [row])[..|rows|] == rows;
  }

  /** A version with one more row. */
  function WithRow(version: VersionView, row: Row): VersionView {
    if row.path == "" then version else version.(paths := version.paths + [View(row)])
  }

  function Opened(row: Row): VersionView {
    VersionView(row.version, row.bundle, row.lastOpened, [])
  }

  lemma VersionAppend(rows: seq<Row>, row: Row)
    ensures VersionOf(rows + [row]) == if rows == [] then WithRow(Opened(row), row) else WithRow(VersionOf(rows), row)
  {
    PathsAppend(rows, row);
    if rows != [] {
      assert (rows + [row])[0] == rows[0];
    }
  }

  /** Where the row's version is among those of the rows before it. */
  ghost predicate VersionAt(rows: seq<Row>, id: Id, i: nat) {
    i < |FirstSeen(VersionsOf(rows))| && FirstSeen(VersionsOf(rows))[i] == id
  }

  lemma VersionsAppend(rows: seq<Row>, row: Row)
    ensures FirstSeen(VersionsOf(rows + [row]))
         == if row.softwareID in VersionsOf(rows) then FirstSeen(VersionsOf(rows))
            else FirstSeen(VersionsOf(rows)) + [row.softwareID]
  {
    assert VersionsOf(rows + [row]) == VersionsOf(rows) + [row.softwareID];
    SeenAppend(VersionsOf(rows), row.softwareID);
  }

  lemma VersionStays(rows: seq<Row>, row: Row, i: nat)
    requires i < |ByVersion(rows)|
    ensures i < |ByVersion(rows + [row])|
    ensures FirstSeen(VersionsOf(rows + [row]))[i] == FirstSeen(VersionsOf(rows))[i]
    ensures ByVersion(rows + [row])[i]
         == if FirstSeen(VersionsOf(rows))[i] == row.softwareID then WithRow(ByVersion(rows)[i], row)
            else ByVersion(rows)[i]
  {
    VersionsAppend(rows, row);
    var id := FirstSeen(VersionsOf(rows))[i];
    assert id in VersionsOf(rows);
    VersionHasRows(rows, id);
    OfVersionAppend(rows, row, id);
    VersionAppend(OfVersion(rows, id), row);
  }

  lemma RowsHaveVersion(rows: seq<Row>, id: Id)
    ensures OfVersion(rows, id) != [] ==> id in VersionsOf(rows)
  {
    if OfVersion(rows, id) != [] {
      var r := OfVersion(rows, id)[0];
      var i :| 0 <= i < |rows| && rows[i] == r;
      assert VersionsOf(rows)[i] == id;
    }
  }

  lemma NewVersionIsLast(rows: seq<Row>, row: Row)
    requires row.softwareID !in VersionsOf(rows)
    ensures |ByVersion(rows + [row])| == |ByVersion(rows)| + 1
    ensures VersionAt(rows + [row], row.softwareID, |ByVersion(rows)|)
    ensures ByVersion(rows + [row])[|ByVersion(rows)|] == WithRow(Opened(row), row)
  {
    VersionsAppend(rows, row);
    OfVersionAppend(rows, row, row.softwareID);
    RowsHaveVersion(rows, row.softwareID);
    assert OfVersion(rows + [row], row.softwareID) == [] + [row];
    VersionAppend([], row);
  }

  lemma OldVersionStays(rows: seq<Row>, row: Row, i: nat)
    requires row.softwareID !in VersionsOf(rows) && i < |ByVersion(rows)|
    ensures i < |ByVersion(rows + [row])| && ByVersion(rows + [row])[i] == ByVersion(rows)[i]
  {
    VersionStays(rows, row, i);
    assert FirstSeen(VersionsOf(rows))[i] in VersionsOf(rows);
  }

  /** A new version of the title goes to the end. */
  lemma NewVersionAppends(rows: seq<Row>, row: Row)
    requires row.softwareID !in VersionsOf(rows)
    ensures ByVersion(rows + [row]) == ByVersion(rows) + [WithRow(Opened(row), row)]
    ensures VersionAt(rows + [row], row.softwareID, |ByVersion(rows)|)
  {
    NewVersionIsLast(rows, row);
    var before, after := ByVersion(rows), ByVersion(rows + [row]);
    forall i: nat | i < |before| ensures after[i] == before[i] {
      OldVersionStays(rows, row, i);
    }
    OneMore(before, after, WithRow(Opened(row), row));
  }

  lemma VersionsKeepLength(rows: seq<Row>, row: Row, at: nat)
    requires VersionAt(rows, row.softwareID, at)
    ensures |ByVersion(rows + [row])| == |ByVersion(rows)|
  {
    VersionsAppend(rows, row);
    assert FirstSeen(VersionsOf(rows))[at] in VersionsOf(rows);
  }

  /** A known version grows in place, so indices of versions stay what they were. */
  lemma KnownVersionGrows(rows: seq<Row>, row: Row, at: nat)
    requires VersionAt(rows, row.softwareID, at)
    ensures ByVersion(rows + [row]) == ByVersion(rows)[at := WithRow(ByVersion(rows)[at], row)]
  {
    var before, after := ByVersion(rows), ByVersion(rows + [row]);
    VersionsKeepLength(rows, row, at);
    forall i: nat | i < |before|
      ensures after[i] == if i == at then WithRow(before[i], row) else before[i]
    {
      VersionStays(rows, row, i);
    }
  }

  lemma VersionAtStays(rows: seq<Row>, row: Row, id: Id, i: nat)
    requires VersionAt(rows, id, i)
    ensures VersionAt(rows + [row], id, i)
  {
    VersionsAppend(rows, row);
  }

  // ---------------------------------------------------------------------- in place

  /** Every title of the rows, as far as the rows go. */
  ghost function Expected(rows: seq<Row>): map<Id, TitleView> {
    map id | id in TitlesOf(rows) && OfTitle(rows, id) != [] :: TitleOf(OfTitle(rows, id))
  }

  /** Two maps that agree but for one key, which the second has. */
  lemma OneValueWritten<K, V>(before: map<K, V>, after: map<K, V>, key: K)
    requires key in after
    requires forall other :: other != key ==> (other in after <==> other in before)
    requires forall other :: other != key && other in before ==> after[other] == before[other]
    ensures after == before[key := after[key]]
  {}

  lemma ExpectedAt(rows: seq<Row>, row: Row, id: Id)
    requires id != row.titleID
    ensures id in Expected(rows + [row]) <==> id in Expected(rows)
    ensures id in Expected(rows) ==> Expected(rows + [row])[id] == Expected(rows)[id]
  {
    OfTitleAppend(rows, row, id);
    assert OfTitle(rows, id) + [] == OfTitle(rows, id);
    assert TitlesOf(rows + [row]) == TitlesOf(rows) + [row.titleID];
  }

  lemma ExpectedIs(rows: seq<Row>, id: Id)
    requires id in TitlesOf(rows) && OfTitle(rows, id) != []
    ensures id in Expected(rows) && Expected(rows)[id] == TitleOf(OfTitle(rows, id))
  {}

  lemma ExpectedHere(rows: seq<Row>, row: Row)
    ensures OfTitle(rows, row.titleID) + [row] != [] && row.titleID in Expected(rows + [row])
    ensures Expected(rows + [row])[row.titleID] == TitleOf(OfTitle(rows, row.titleID) + [row])
  {
    var whole := rows + [row];
    OfTitleAppend(rows, row, row.titleID);
    assert TitlesOf(whole)[|rows|] == row.titleID;
    ExpectedIs(whole, row.titleID);
  }

  lemma ExpectedAppend(rows: seq<Row>, row: Row)
    ensures OfTitle(rows, row.titleID) + [row] != []
    ensures Expected(rows + [row]) == Expected(rows)[row.titleID := TitleOf(OfTitle(rows, row.titleID) + [row])]
  {
    ExpectedHere(rows, row);
    var before, after := Expected(rows), Expected(rows + [row]);
    forall id | id != row.titleID
      ensures (id in after <==> id in before) && (id in before ==> after[id] == before[id])
    {
      ExpectedAt(rows, row, id);
    }
    OneValueWritten(before, after, row.titleID);
  }

  class Cell<V> {
    var value: V

    constructor (value: V)
      ensures this.value == value
    {
      this.value := value;
    }
  }

  /** Values by key, with pointers that stay valid, in the order the keys came. */
  class OrderedGroup<K(==, !new), V> {
    var byKey: map<K, Cell<V>>
    var order: seq<K>

    ghost predicate Valid()
      reads this
    {
      (forall key :: key in order <==> key in byKey)
      && (forall i, j :: 0 <= i < j < |order| ==> order[i] != order[j])
      && (forall a, b :: a in byKey && b in byKey && a != b ==> byKey[a] != byKey[b])
    }

    ghost function Cells(): set<object>
      reads this
    {
      set key | key in byKey :: byKey[key]
    }

    ghost function Contents(): map<K, V>
      reads this, Cells()
    {
      map key | key in byKey :: byKey[key].value
    }

    constructor ()
      ensures Valid() && order == [] && Cells() == {}
    {
      byKey, order := map[], [];
    }

    method Get(key: K, created: V) returns (value: Cell<V>)
      requires Valid()
      modifies this
      ensures Valid() && key in byKey && byKey[key] == value
      ensures if key in old(byKey) then byKey == old(byKey) && order == old(order)
              else byKey == old(byKey)[key := value] && order == old(order) + [key]
                   && fresh(value) && value.value == created
      ensures Contents() == old(Contents())[key := value.value]
      ensures fresh(Cells() - old(Cells()))
    {
      if key in byKey {
        assert Contents() == Contents()[key := byKey[key].value];
        return byKey[key];
      }
      value := new Cell(created);
      byKey := byKey[key := value];
      order := order + [key];
    }

    method Values() returns (values: seq<V>)
      requires Valid()
      ensures |values| == |order|
      ensures forall i :: 0 <= i < |order| ==> values[i] == byKey[order[i]].value
    {
      values := [];
      for n := 0 to |order|
        invariant |values| == n
        invariant forall i :: 0 <= i < n ==> values[i] == byKey[order[i]].value
      {
        assert order[n] in order;
        values := values + [byKey[order[n]].value];
      }
    }
  }

  function PairKey(title: Id, software: Id): string {
    FormatInt(title.number) + ":" + FormatInt(software.number)
  }

  /** No two pairs of ids share a key. */
  lemma PairKeyIsInjective(a: Id, b: Id, c: Id, d: Id)
    requires PairKey(a, b) == PairKey(c, d)
    ensures a == c && b == d
  {
    var left, right := FormatInt(a.number), FormatInt(c.number);
    FormatIsDigits(a.number);
    FormatIsDigits(c.number);
    CutCharFree(left, ':', FormatInt(b.number));
    CutCharFree(right, ':', FormatInt(d.number));
    ValueOfDigits(a.number);
    ValueOfDigits(b.number);
    ValueOfDigits(c.number);
    ValueOfDigits(d.number);
  }

  class Accumulator {
    const titles: OrderedGroup<Id, TitleView>
    var versionByKey: map<string, nat>

    /** The accumulator holds the group-by of these rows. */
    ghost predicate Holds(rows: seq<Row>)
      reads this, titles, titles.Cells()
    {
      titles.Valid()
      && titles.order == FirstSeen(TitlesOf(rows))
      && titles.Contents() == Expected(rows)
      && Indexes(rows, versionByKey)
    }

    constructor ()
      ensures fresh(titles) && Holds([]) && titles.Cells() == {}
    {
      titles := new OrderedGroup();
      versionByKey := map[];
    }

    /** The index of the row's version in its title, which is added if it is new. */
    method VersionIndex(title: Cell<TitleView>, row: Row) returns (index: nat)
      requires PairKey(row.titleID, row.softwareID) in versionByKey ==>
        versionByKey[PairKey(row.titleID, row.softwareID)] < |title.value.versions|
      modifies title, `versionByKey
      ensures var key := PairKey(row.titleID, row.softwareID);
        if key in old(versionByKey) then
          versionByKey == old(versionByKey) && title.value == old(title.value) && index == versionByKey[key]
        else
          index == |old(title.value.versions)| && versionByKey == old(versionByKey)[key := index]
          && title.value == old(title.value).(versions := old(title.value.versions) + [Opened(row)])
    {
      var key := PairKey(row.titleID, row.softwareID);
      if key in versionByKey {
        return versionByKey[key];
      }
      title.value := title.value.(versions := title.value.versions + [Opened(row)]);
      index := |title.value.versions| - 1;
      versionByKey := versionByKey[key := index];
    }

    /** Find or open the row's version and add its path, if it has one. */
    method Extend(title: Cell<TitleView>, row: Row) returns (index: nat)
      requires PairKey(row.titleID, row.softwareID) in versionByKey ==>
        versionByKey[PairKey(row.titleID, row.softwareID)] < |title.value.versions|
      modifies title, `versionByKey
      ensures var key, was := PairKey(row.titleID, row.softwareID), old(title.value);
        if key in old(versionByKey) then
          versionByKey == old(versionByKey) && index == versionByKey[key]
          && title.value == was.(versions := was.versions[index := WithRow(was.versions[index], row)])
        else
          versionByKey == old(versionByKey)[key := index] && index == |was.versions|
          && title.value == was.(versions := was.versions + [WithRow(Opened(row), row)])
    {
      index := VersionIndex(title, row);
      if row.path == "" {
        return;
      }
      var version := title.value.versions[index];
      var paths := version.paths + [View(row)];
      title.value := title.value.(versions := title.value.versions[index := version.(paths := paths)]);
    }

    /** The row's title grows in place; the other titles do not change. */
    method Grow(title: Cell<TitleView>, row: Row) returns (index: nat)
      requires titles.Valid() && row.titleID in titles.byKey && titles.byKey[row.titleID] == title
      requires PairKey(row.titleID, row.softwareID) in versionByKey ==>
        versionByKey[PairKey(row.titleID, row.softwareID)] < |title.value.versions|
      modifies this, title
      ensures titles.Valid() && unchanged(titles)
      ensures titles.Contents() == old(titles.Contents())[row.titleID := title.value]
      ensures Placed(row, old(title.value), old(versionByKey), index, title.value, versionByKey)
    {
      ghost var before := titles.Contents();
      index := Extend(title, row);
      OneValueWritten(before, titles.Contents(), row.titleID);
    }

    /** add, on the heap: the row's title found or opened, and in it its version. */
    method Place(row: Row) returns (ghost before: TitleView, ghost after: TitleView, ghost index: nat)
      requires titles.Valid()
      requires PairKey(row.titleID, row.softwareID) in versionByKey ==>
        row.titleID in titles.Contents()
        && versionByKey[PairKey(row.titleID, row.softwareID)] < |titles.Contents()[row.titleID].versions|
      modifies this, titles, titles.Cells()
      ensures titles.Valid() && fresh(titles.Cells() - old(titles.Cells()))
      ensures titles.order == if row.titleID in old(titles.Contents()) then old(titles.order)
                              else old(titles.order) + [row.titleID]
      ensures titles.Contents() == old(titles.Contents())[row.titleID := after]
      ensures before == if row.titleID in old(titles.Contents()) then old(titles.Contents())[row.titleID]
                        else TitleView(row.titleID, row.titleName, row.source, row.extensionFor, [])
      ensures Placed(row, before, old(versionByKey), index, after, versionByKey)
    {
      var title := titles.Get(row.titleID, TitleView(row.titleID, row.titleName, row.source, row.extensionFor, []));
      before := title.value;
      index := Grow(title, row);
      after := title.value;
    }

    /** One more row of the whole. */
    method Add(ghost rows: seq<Row>, row: Row, ghost whole: seq<Row>)
      requires Holds(rows) && whole == rows + [row]
      modifies this, titles, titles.Cells()
      ensures Holds(whole) && fresh(titles.Cells() - old(titles.Cells()))
    {
      TitlesAppend(rows, row);
      NoRowsNoTitle(rows, row.titleID);
      KeyTellsVersion(rows, row, versionByKey);
      ghost var known := versionByKey;
      ghost var before, after, index := Place(row);
      ContentsAfter(rows, row, before, known, index, after, versionByKey);
    }

    method Rows() returns (values: seq<TitleView>)
      requires titles.Valid()
      ensures |values| == |titles.order|
      ensures forall i :: 0 <= i < |values| ==>
        titles.order[i] in titles.Contents() && values[i] == titles.Contents()[titles.order[i]]
    {
      values := titles.Values();
      assert forall i :: 0 <= i < |values| ==> titles.order[i] in titles.order;
    }
  }

  /** What adding a row does to its title and to the indices. */
  ghost predicate Placed(
    row: Row, before: TitleView, known: map<string, nat>, index: nat, after: TitleView, versionByKey: map<string, nat>)
  {
    var key := PairKey(row.titleID, row.softwareID);
    if key in known then
      versionByKey == known && index == known[key] && index < |before.versions|
      && after == before.(versions := before.versions[index := WithRow(before.versions[index], row)])
    else
      versionByKey == known[key := index] && index == |before.versions|
      && after == before.(versions := before.versions + [WithRow(Opened(row), row)])
  }

  /** What versionByKey says about the rows so far. */
  ghost predicate Indexes(rows: seq<Row>, versionByKey: map<string, nat>) {
    (forall title, software :: PairKey(title, software) in versionByKey ==>
       VersionAt(OfTitle(rows, title), software, versionByKey[PairKey(title, software)]))
    && (forall row :: row in rows ==> PairKey(row.titleID, row.softwareID) in versionByKey)
  }

  lemma NoRowsNoTitle(rows: seq<Row>, id: Id)
    ensures id in TitlesOf(rows) <==> OfTitle(rows, id) != []
  {
    if id in TitlesOf(rows) {
      TitleHasRows(rows, id);
    }
    if OfTitle(rows, id) != [] {
      var row := OfTitle(rows, id)[0];
      var i :| 0 <= i < |rows| && rows[i] == row;
      assert TitlesOf(rows)[i] == id;
    }
  }

  /** The row's key is known exactly when its version is in its title. */
  lemma KeyTellsVersion(rows: seq<Row>, row: Row, versionByKey: map<string, nat>)
    requires Indexes(rows, versionByKey)
    ensures var group, key := OfTitle(rows, row.titleID), PairKey(row.titleID, row.softwareID);
      (key in versionByKey <==> row.softwareID in VersionsOf(group))
      && (key in versionByKey ==> versionByKey[key] < |ByVersion(group)|)
  {
    var group, key := OfTitle(rows, row.titleID), PairKey(row.titleID, row.softwareID);
    if key in versionByKey {
      var i := versionByKey[key];
      assert VersionAt(group, row.softwareID, i);
      assert FirstSeen(VersionsOf(group))[i] in VersionsOf(group);
    }
    if row.softwareID in VersionsOf(group) {
      var i :| 0 <= i < |group| && VersionsOf(group)[i] == row.softwareID;
      assert group[i] in group;
      assert PairKey(group[i].titleID, group[i].softwareID) == key;
    }
  }

  /** The title after the row: its version found or added at the index, and grown. */
  lemma TitleGrows(rows: seq<Row>, row: Row, before: TitleView, index: nat, after: TitleView)
    requires var group := OfTitle(rows, row.titleID);
      before == if group == [] then TitleView(row.titleID, row.titleName, row.source, row.extensionFor, [])
                else TitleOf(group)
    requires var group := OfTitle(rows, row.titleID);
      if row.softwareID in VersionsOf(group)
      then VersionAt(group, row.softwareID, index)
           && after == before.(versions := before.versions[index := WithRow(before.versions[index], row)])
      else index == |before.versions|
           && after == before.(versions := before.versions + [WithRow(Opened(row), row)])
    ensures after == TitleOf(OfTitle(rows, row.titleID) + [row])
  {
    var group := OfTitle(rows, row.titleID);
    if row.softwareID in VersionsOf(group) {
      KnownVersionGrows(group, row, index);
    } else {
      NewVersionAppends(group, row);
    }
    if group != [] {
      assert (group + [row])[0] == group[0];
    }
  }

  /** One row's worth of change keeps the group-by. */
  lemma ContentsAfter(
    rows: seq<Row>, row: Row, before: TitleView, known: map<string, nat>,
    index: nat, after: TitleView, versionByKey: map<string, nat>)
    requires Indexes(rows, known)
    requires before == if row.titleID in Expected(rows) then Expected(rows)[row.titleID]
                       else TitleView(row.titleID, row.titleName, row.source, row.extensionFor, [])
    requires Placed(row, before, known, index, after, versionByKey)
    ensures Expected(rows + [row]) == Expected(rows)[row.titleID := after]
    ensures Indexes(rows + [row], versionByKey)
  {
    NoRowsNoTitle(rows, row.titleID);
    KeyTellsVersion(rows, row, known);
    TitleGrows(rows, row, before, index, after);
    IndicesStay(rows, row, known, versionByKey, index);
    ExpectedAppend(rows, row);
  }

  lemma IndicesStay(
    rows: seq<Row>, row: Row, before: map<string, nat>, after: map<string, nat>, index: nat)
    requires Indexes(rows, before)
    requires var group, key := OfTitle(rows, row.titleID), PairKey(row.titleID, row.softwareID);
      if key in before then after == before
      else after == before[key := index] && index == |ByVersion(group)| && row.softwareID !in VersionsOf(group)
    ensures Indexes(rows + [row], after)
  {
    var key := PairKey(row.titleID, row.softwareID);
    forall title, software | PairKey(title, software) in after
      ensures VersionAt(OfTitle(rows + [row], title), software, after[PairKey(title, software)])
    {
      var group := OfTitle(rows, title);
      OfTitleAppend(rows, row, title);
      if PairKey(title, software) in before {
        assert VersionAt(group, software, before[PairKey(title, software)]);
        if title == row.titleID {
          VersionAtStays(group, row, software, before[PairKey(title, software)]);
        } else {
          assert group + [] == group;
        }
        if PairKey(title, software) == key {
          assert after == before;
        }
      } else {
        PairKeyIsInjective(title, software, row.titleID, row.softwareID);
        NewVersionAppends(group, row);
      }
    }
  }

  /** One row after the other. */
  method Accumulate(rows: seq<Row>) returns (accumulator: Accumulator)
    ensures accumulator.Holds(rows)
    ensures fresh(accumulator) && fresh(accumulator.titles) && fresh(accumulator.titles.Cells())
  {
    accumulator := new Accumulator();
    for i := 0 to |rows|
      invariant accumulator.Holds(rows[..i])
      invariant fresh(accumulator) && fresh(accumulator.titles) && fresh(accumulator.titles.Cells())
    {
      OneMore(rows[..i], rows[..i + 1], rows[i]);
      accumulator.Add(rows[..i], rows[i], rows[..i + 1]);
    }
    assert rows[..|rows|] == rows;
  }

  /** buildHostSoftwares: the in-place accumulation is the two-level group-by. */
  method BuildHostSoftwares(rows: seq<Row>) returns (grouped: seq<TitleView>)
    ensures grouped == Grouped(rows)
  {
    var accumulator := Accumulate(rows);
    grouped := accumulator.Rows();
    ExpectedIsGrouped(rows, accumulator.titles.Contents(), grouped);
  }

  lemma ExpectedIsGrouped(rows: seq<Row>, contents: map<Id, TitleView>, grouped: seq<TitleView>)
    requires contents == Expected(rows) && |grouped| == |FirstSeen(TitlesOf(rows))|
    requires forall i :: 0 <= i < |grouped| ==>
      FirstSeen(TitlesOf(rows))[i] in contents && grouped[i] == contents[FirstSeen(TitlesOf(rows))[i]]
    ensures grouped == Grouped(rows)
  {}

  // ------------------------------------------------------------- no path lost or twice

  function PathsIn(versions: seq<VersionView>): nat {
    if versions == [] then 0 else PathsIn(versions[..|versions| - 1]) + |versions[|versions| - 1].paths|
  }

  function TotalPaths(titles: seq<TitleView>): nat {
    if titles == [] then 0 else TotalPaths(titles[..|titles| - 1]) + PathsIn(titles[|titles| - 1].versions)
  }

  lemma {:induction false} PathsInUpdate(versions: seq<VersionView>, i: nat, version: VersionView)
    requires i < |versions|
    ensures PathsIn(versions[i := version]) == PathsIn(versions) - |versions[i].paths| + |version.paths|
  {
    var n := |versions| - 1;
    if i < n {
      PathsInUpdate(versions[..n], i, version);
      assert versions[i := version][..n] == versions[..n][i := version];
    } else {
      assert versions[i := version][..n] == versions[..n];
    }
  }

  lemma {:induction false} TotalPathsUpdate(titles: seq<TitleView>, i: nat, title: TitleView)
    requires i < |titles|
    ensures TotalPaths(titles[i := title])
         == TotalPaths(titles) - PathsIn(titles[i].versions) + PathsIn(title.versions)
  {
    var n := |titles| - 1;
    if i < n {
      TotalPathsUpdate(titles[..n], i, title);
      assert titles[i := title][..n] == titles[..n][i := title];
    } else {
      assert titles[i := title][..n] == titles[..n];
    }
  }

  /** One more row adds its path to its title and nothing else. */
  lemma TitlePathsAppend(group: seq<Row>, row: Row)
    ensures PathsIn(ByVersion(group + [row])) == PathsIn(ByVersion(group)) + if row.path == "" then 0 else 1
  {
    var before := ByVersion(group);
    if row.softwareID in VersionsOf(group) {
      var at := PositionOf(FirstSeen(VersionsOf(group)), row.softwareID);
      KnownVersionGrows(group, row, at);
      PathsInUpdate(before, at, WithRow(before[at], row));
    } else {
      NewVersionAppends(group, row);
      assert (before + [WithRow(Opened(row), row)])[..|before|] == before;
    }
  }

  lemma PositionOf(ids: seq<Id>, id: Id) returns (i: nat)
    requires id in ids
    ensures i < |ids| && ids[i] == id
  {
    i :| 0 <= i < |ids| && ids[i] == id;
  }

  lemma GroupedIsExpected(rows: seq<Row>, i: nat)
    requires i < |Grouped(rows)|
    ensures FirstSeen(TitlesOf(rows))[i] in Expected(rows)
    ensures Grouped(rows)[i] == Expected(rows)[FirstSeen(TitlesOf(rows))[i]]
  {
    assert FirstSeen(TitlesOf(rows))[i] in TitlesOf(rows);
    NoRowsNoTitle(rows, FirstSeen(TitlesOf(rows))[i]);
  }

  lemma GroupedStays(rows: seq<Row>, row: Row, i: nat)
    requires i < |Grouped(rows)|
    ensures i < |Grouped(rows + [row])|
    ensures Grouped(rows + [row])[i]
         == if FirstSeen(TitlesOf(rows))[i] == row.titleID then TitleOf(OfTitle(rows, row.titleID) + [row])
            else Grouped(rows)[i]
  {
    TitlesAppend(rows, row);
    ExpectedAppend(rows, row);
    GroupedIsExpected(rows, i);
    GroupedIsExpected(rows + [row], i);
  }

  lemma NewTitleIsLast(rows: seq<Row>, row: Row)
    requires row.titleID !in TitlesOf(rows)
    ensures OfTitle(rows, row.titleID) == [] && |Grouped(rows + [row])| == |Grouped(rows)| + 1
    ensures Grouped(rows + [row])[|Grouped(rows)|] == TitleOf(OfTitle(rows, row.titleID) + [row])
  {
    TitlesAppend(rows, row);
    ExpectedAppend(rows, row);
    NoRowsNoTitle(rows, row.titleID);
    GroupedIsExpected(rows + [row], |Grouped(rows)|);
  }

  lemma OldTitleStays(rows: seq<Row>, row: Row, i: nat)
    requires row.titleID !in TitlesOf(rows) && i < |Grouped(rows)|
    ensures i < |Grouped(rows + [row])| && Grouped(rows + [row])[i] == Grouped(rows)[i]
  {
    GroupedStays(rows, row, i);
    assert FirstSeen(TitlesOf(rows))[i] in TitlesOf(rows);
  }

  lemma NewTitleAppends(rows: seq<Row>, row: Row)
    requires row.titleID !in TitlesOf(rows)
    ensures OfTitle(rows, row.titleID) == []
    ensures Grouped(rows + [row]) == Grouped(rows) + [TitleOf(OfTitle(rows, row.titleID) + [row])]
  {
    NewTitleIsLast(rows, row);
    var before, after := Grouped(rows), Grouped(rows + [row]);
    forall i: nat | i < |before| ensures after[i] == before[i] {
      OldTitleStays(rows, row, i);
    }
    OneMore(before, after, TitleOf(OfTitle(rows, row.titleID) + [row]));
  }

  lemma TitlesKeepLength(rows: seq<Row>, row: Row, at: nat)
    requires at < |Grouped(rows)| && FirstSeen(TitlesOf(rows))[at] == row.titleID
    ensures OfTitle(rows, row.titleID) != [] && Grouped(rows)[at] == TitleOf(OfTitle(rows, row.titleID))
    ensures |Grouped(rows + [row])| == |Grouped(rows)|
  {
    TitlesAppend(rows, row);
    assert FirstSeen(TitlesOf(rows))[at] in TitlesOf(rows);
    NoRowsNoTitle(rows, row.titleID);
  }

  lemma KnownTitleGrows(rows: seq<Row>, row: Row, at: nat)
    requires at < |Grouped(rows)| && FirstSeen(TitlesOf(rows))[at] == row.titleID
    ensures Grouped(rows + [row]) == Grouped(rows)[at := TitleOf(OfTitle(rows, row.titleID) + [row])]
  {
    var before, after := Grouped(rows), Grouped(rows + [row]);
    var title := TitleOf(OfTitle(rows, row.titleID) + [row]);
    TitlesKeepLength(rows, row, at);
    forall i: nat | i < |before| ensures after[i] == if i == at then title else before[i] {
      GroupedStays(rows, row, i);
    }
  }

  lemma TotalPathsAppend(rows: seq<Row>, row: Row)
    ensures TotalPaths(Grouped(rows + [row])) == TotalPaths(Grouped(rows)) + if row.path == "" then 0 else 1
  {
    var group, before := OfTitle(rows, row.titleID), Grouped(rows);
    TitlePathsAppend(group, row);
    if row.titleID in TitlesOf(rows) {
      var at := PositionOf(FirstSeen(TitlesOf(rows)), row.titleID);
      TitlesKeepLength(rows, row, at);
      KnownTitleGrows(rows, row, at);
      TotalPathsUpdate(before, at, TitleOf(group + [row]));
    } else {
      NewTitleAppends(rows, row);
      assert (before + [TitleOf(group + [row])])[..|before|] == before;
    }
  }

  /** Grouping neither loses nor repeats a path: the paths in the result are as many
      as the rows that have one. */
  lemma {:induction false} PathsAreConserved(rows: seq<Row>)
    ensures TotalPaths(Grouped(rows)) == |PathsOf(rows)|
  {
    if rows == [] {
      NothingIsConserved(rows);
    } else {
      PathsAreConserved(rows[..|rows| - 1]);
      ConservedAppend(rows[..|rows| - 1], rows[|rows| - 1], rows);
    }
  }

  lemma NothingIsConserved(rows: seq<Row>)
    requires rows == []
    ensures TotalPaths(Grouped(rows)) == |PathsOf(rows)|
  {
    assert Grouped(rows) == [];
  }

  lemma ConservedAppend(rows: seq<Row>, row: Row, whole: seq<Row>)
    requires whole == rows + [row]
    requires TotalPaths(Grouped(rows)) == |PathsOf(rows)|
    ensures TotalPaths(Grouped(whole)) == |PathsOf(whole)|
  {
    PathsAppend(rows, row);
    TotalPathsAppend(rows, row);
  }
}

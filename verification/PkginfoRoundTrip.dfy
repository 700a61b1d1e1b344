/** Importing what was rendered gives the package's metadata back. */
module PkginfoRoundTrip {
  import opened Basics
  import opened MergePatch
  import opened PackageMutations
  import opened Packages
  import opened Pkginfo
  import opened PkginfoImport
  import opened Renaming
  import opened Strings

  // ------------------------------------------------------------- maps back to lists

  /** Launch arguments and environment variables alike: named values. */
  type Table<V> = seq<(string, V)>

  function NameSet<V>(table: Table<V>): set<string> {
    set i | 0 <= i < |table| :: table[i].0
  }

  ghost predicate NamesDistinct<V>(table: Table<V>) {
    forall i, j :: 0 <= i < j < |table| ==> table[i].0 != table[j].0
  }

  function ValueFor<V>(table: Table<V>, name: string): (value: V)
    requires name in NameSet(table)
    ensures exists i :: 0 <= i < |table| && table[i] == (name, value)
  {
    if table[|table| - 1].0 == name then table[|table| - 1].1
    else
      assert name in NameSet(table[..|table| - 1]) by {
        var i :| 0 <= i < |table| && table[i].0 == name;
        assert table[..|table| - 1][i].0 == name;
      }
      ValueFor(table[..|table| - 1], name)
  }

  /** The rows in the order of their names. */
  ghost function SortedTable<V>(table: Table<V>): (sorted: Table<V>)
    ensures |sorted| == |Sorted(NameSet(table))|
    ensures forall i :: 0 <= i < |sorted| ==>
      sorted[i].0 == Sorted(NameSet(table))[i] && sorted[i].0 in NameSet(table)
      && sorted[i].1 == ValueFor(table, sorted[i].0)
  {
    seq(|Sorted(NameSet(table))|, i requires 0 <= i < |Sorted(NameSet(table))| =>
      assert Sorted(NameSet(table))[i] in NameSet(table);
      (Sorted(NameSet(table))[i], ValueFor(table, Sorted(NameSet(table))[i])))
  }

  /** Sorting loses and repeats nothing: with distinct names the sorted rows are the
      rows, in increasing order. */
  lemma SortedTableKeepsRows<V>(table: Table<V>)
    requires NamesDistinct(table)
    ensures forall row :: row in SortedTable(table) <==> row in table
    ensures |SortedTable(table)| == |table|
    ensures forall i, j :: 0 <= i < j < |table| ==> Less(SortedTable(table)[i].0, SortedTable(table)[j].0)
  {
    SortedIncreases(NameSet(table));
    NameCount(table);
    forall row ensures row in SortedTable(table) <==> row in table {
      SortedRow(table, row);
    }
  }

  lemma SortedRow<V>(table: Table<V>, row: (string, V))
    requires NamesDistinct(table)
    ensures row in SortedTable(table) <==> row in table
  {
    var names := NameSet(table);
    if row in table {
      assert row.0 in Sorted(names);
      var i :| 0 <= i < |Sorted(names)| && Sorted(names)[i] == row.0;
      var k :| 0 <= k < |table| && table[k] == (row.0, ValueFor(table, row.0));
      assert SortedTable(table)[i] == table[k] == row;
    }
    if row in SortedTable(table) {
      var i :| 0 <= i < |SortedTable(table)| && SortedTable(table)[i] == row;
      var k :| 0 <= k < |table| && table[k] == (row.0, ValueFor(table, row.0));
    }
  }

  lemma {:induction false} SortedIncreases(names: set<string>)
    ensures forall i, j :: 0 <= i < j < |Sorted(names)| ==> Less(Sorted(names)[i], Sorted(names)[j])
  {
    if names != {} {
      var least := Least(names);
      SortedIncreases(names - {least});
      assert Sorted(names) == [least] + Sorted(names - {least});
      forall i, j | 0 <= i < j < |Sorted(names)| ensures Less(Sorted(names)[i], Sorted(names)[j]) {
        assert Sorted(names)[j] in Sorted(names - {least});
      }
    }
  }

  lemma {:induction false} NameCount<V>(table: Table<V>)
    requires NamesDistinct(table)
    ensures |NameSet(table)| == |table|
  {
    if table != [] {
      var before, last := table[..|table| - 1], table[|table| - 1];
      NameCount(before);
      forall name ensures name in NameSet(table) <==> name in NameSet(before) + {last.0} {
        if name in NameSet(before) {
          var i :| 0 <= i < |before| && before[i].0 == name;
          assert table[i].0 == name;
        }
      }
      assert NameSet(table) == NameSet(before) + {last.0};
    }
  }

  function LaunchTable(entries: seq<LaunchArguments>): (table: Table<seq<string>>)
    ensures |table| == |entries|
    ensures forall i :: 0 <= i < |entries| ==> table[i] == (entries[i].application, entries[i].arguments)
  {
    seq(|entries|, i requires 0 <= i < |entries| => (entries[i].application, entries[i].arguments))
  }

  function LaunchRows(table: Table<seq<string>>): (entries: seq<LaunchArguments>)
    ensures |entries| == |table|
    ensures forall i :: 0 <= i < |entries| ==> entries[i] == LaunchArguments(table[i].0, table[i].1)
  {
    seq(|table|, i requires 0 <= i < |table| => LaunchArguments(table[i].0, table[i].1))
  }

  ghost function SortedLaunch(entries: seq<LaunchArguments>): seq<LaunchArguments> {
    LaunchRows(SortedTable(LaunchTable(entries)))
  }

  lemma {:induction false} LaunchMembersAre(entries: seq<LaunchArguments>)
    ensures forall key :: key in LaunchMembers(entries) <==> key.Custom? && key.text in NameSet(LaunchTable(entries))
    ensures forall name :: name in NameSet(LaunchTable(entries)) ==>
      LaunchMembers(entries)[Custom(name)] == Texts(ValueFor(LaunchTable(entries), name))
  {
    if entries != [] {
      var before, last := entries[..|entries| - 1], entries[|entries| - 1];
      LaunchMembersAre(before);
      var table := LaunchTable(entries);
      assert table[..|table| - 1] == LaunchTable(before);
      forall name ensures name in NameSet(table) <==> name in NameSet(LaunchTable(before)) + {last.application} {
        NamesOfPrefix(table, name);
      }
    }
  }

  lemma NamesOfPrefix<V>(table: Table<V>, name: string)
    requires table != []
    ensures name in NameSet(table) <==> name in NameSet(table[..|table| - 1]) + {table[|table| - 1].0}
  {
    var before := table[..|table| - 1];
    if name in NameSet(before) {
      var i :| 0 <= i < |before| && before[i].0 == name;
      assert table[i].0 == name;
    }
    if name in NameSet(table) && name != table[|table| - 1].0 {
      var i :| 0 <= i < |table| && table[i].0 == name;
      assert before[i].0 == name;
    }
  }

  lemma TextsRoundTrip(values: seq<string>)
    ensures StringsIn(Texts(values)) == Some(values)
    ensures AreTexts(Texts(values)) && TextsOf(Some(Texts(values))) == values
  {
    assert StringsIn(Texts(values)).value == values;
  }

  /** Both kinds of object have the names of the table for members. */
  lemma NamesAreTable<V>(members: Fields, table: Table<V>)
    requires forall key :: key in members <==> key.Custom? && key.text in NameSet(table)
    ensures NamesOf(members) == NameSet(table)
  {
    forall name ensures name in NamesOf(members) <==> name in NameSet(table) {
      if name in NameSet(table) {
        assert Custom(name) in members && LabelOf(Custom(name)) == name;
      }
    }
  }

  lemma {:induction false} LaunchListIs(members: Fields, table: Table<seq<string>>, names: seq<string>)
    requires |names| == |table| && forall i :: 0 <= i < |table| ==> names[i] == table[i].0
    requires forall i :: 0 <= i < |table| ==>
      Custom(table[i].0) in members && members[Custom(table[i].0)] == Texts(table[i].1)
    ensures LaunchList(members, names) == Some(LaunchRows(table))
  {
    if table != [] {
      var before, last := table[..|table| - 1], table[|table| - 1];
      LaunchListIs(members, before, names[..|names| - 1]);
      TextsRoundTrip(last.1);
      assert LaunchRows(table) == LaunchRows(before) + [LaunchArguments(last.0, last.1)];
    }
  }

  /** The object of launch arguments parses to the entries in the order of names. */
  lemma LaunchRoundTrip(entries: seq<LaunchArguments>)
    ensures var members := LaunchMembers(entries);
      LaunchList(members, Sorted(NamesOf(members))) == Some(SortedLaunch(entries))
  {
    var members, table := LaunchMembers(entries), SortedTable(LaunchTable(entries));
    LaunchMembersAre(entries);
    NamesAreTable(members, LaunchTable(entries));
    LaunchListIs(members, table, Sorted(NamesOf(members)));
  }

  function VariableTable(variables: seq<Variable>): (table: Table<string>)
    ensures |table| == |variables|
    ensures forall i :: 0 <= i < |variables| ==> table[i] == (variables[i].name, variables[i].value)
  {
    seq(|variables|, i requires 0 <= i < |variables| => (variables[i].name, variables[i].value))
  }

  function VariableRows(table: Table<string>): (variables: seq<Variable>)
    ensures |variables| == |table|
    ensures forall i :: 0 <= i < |variables| ==> variables[i] == Variable(table[i].0, table[i].1)
  {
    seq(|table|, i requires 0 <= i < |table| => Variable(table[i].0, table[i].1))
  }

  ghost function SortedVariables(variables: seq<Variable>): seq<Variable> {
    VariableRows(SortedTable(VariableTable(variables)))
  }

  lemma {:induction false} EnvironmentMembersAre(variables: seq<Variable>)
    ensures forall key ::
      key in EnvironmentMembers(variables) <==> key.Custom? && key.text in NameSet(VariableTable(variables))
    ensures forall name :: name in NameSet(VariableTable(variables)) ==>
      EnvironmentMembers(variables)[Custom(name)] == Text(ValueFor(VariableTable(variables), name))
  {
    if variables != [] {
      var before, last := variables[..|variables| - 1], variables[|variables| - 1];
      EnvironmentMembersAre(before);
      var table := VariableTable(variables);
      assert table[..|table| - 1] == VariableTable(before);
      forall name ensures name in NameSet(table) <==> name in NameSet(VariableTable(before)) + {last.name} {
        NamesOfPrefix(table, name);
      }
    }
  }

  lemma {:induction false} EnvironmentListIs(members: Fields, table: Table<string>, names: seq<string>)
    requires |names| == |table| && forall i :: 0 <= i < |table| ==> names[i] == table[i].0
    requires forall i :: 0 <= i < |table| ==>
      Custom(table[i].0) in members && members[Custom(table[i].0)] == Text(table[i].1)
    ensures EnvironmentList(members, names) == Some(VariableRows(table))
  {
    if table != [] {
      var before, last := table[..|table| - 1], table[|table| - 1];
      EnvironmentListIs(members, before, names[..|names| - 1]);
      assert VariableRows(table) == VariableRows(before) + [Variable(last.0, last.1)];
    }
  }

  lemma EnvironmentRoundTrip(variables: seq<Variable>)
    ensures EnvironmentIn(Object(EnvironmentMembers(variables))) == Some(SortedVariables(variables))
  {
    var members, table := EnvironmentMembers(variables), SortedTable(VariableTable(variables));
    EnvironmentMembersAre(variables);
    NamesAreTable(members, VariableTable(variables));
    EnvironmentListIs(members, table, Sorted(NamesOf(members)));
  }

  /** Metadata lists come back as the same entries in the order of their names. */
  lemma SortedListsKeepEntries(m: Metadata)
    requires Distinct(Applications(m.launchArguments)) && NamesDistinct(VariableTable(m.environment))
    ensures forall entry :: entry in SortedLaunch(m.launchArguments) <==> entry in m.launchArguments
    ensures |SortedLaunch(m.launchArguments)| == |m.launchArguments|
    ensures forall variable :: variable in SortedVariables(m.environment) <==> variable in m.environment
    ensures |SortedVariables(m.environment)| == |m.environment|
  {
    forall i, j | 0 <= i < j < |m.launchArguments|
      ensures LaunchTable(m.launchArguments)[i].0 != LaunchTable(m.launchArguments)[j].0
    {
      assert Applications(m.launchArguments)[i] != Applications(m.launchArguments)[j];
    }
    SortedTableKeepsRows(LaunchTable(m.launchArguments));
    SortedTableKeepsRows(VariableTable(m.environment));
    forall entry ensures entry in SortedLaunch(m.launchArguments) <==> entry in m.launchArguments {
      assert (entry.application, entry.arguments) in SortedTable(LaunchTable(m.launchArguments))
        <==> (entry.application, entry.arguments) in LaunchTable(m.launchArguments);
      SameEntries(m.launchArguments, entry);
    }
    forall variable ensures variable in SortedVariables(m.environment) <==> variable in m.environment {
      assert (variable.name, variable.value) in SortedTable(VariableTable(m.environment))
        <==> (variable.name, variable.value) in VariableTable(m.environment);
      SameVariables(m.environment, variable);
    }
  }

  lemma SameEntries(entries: seq<LaunchArguments>, entry: LaunchArguments)
    ensures entry in entries <==> (entry.application, entry.arguments) in LaunchTable(entries)
    ensures entry in SortedLaunch(entries)
      <==> (entry.application, entry.arguments) in SortedTable(LaunchTable(entries))
  {
    var table := SortedTable(LaunchTable(entries));
    if i :| 0 <= i < |entries| && entries[i] == entry {
      assert LaunchTable(entries)[i] == (entry.application, entry.arguments);
    }
    if i :| 0 <= i < |table| && table[i] == (entry.application, entry.arguments) {
      assert LaunchRows(table)[i] == entry;
    }
  }

  lemma SameVariables(variables: seq<Variable>, variable: Variable)
    ensures variable in variables <==> (variable.name, variable.value) in VariableTable(variables)
    ensures variable in SortedVariables(variables)
      <==> (variable.name, variable.value) in SortedTable(VariableTable(variables))
  {
    var table := SortedTable(VariableTable(variables));
    if i :| 0 <= i < |variables| && variables[i] == variable {
      assert VariableTable(variables)[i] == (variable.name, variable.value);
    }
    if i :| 0 <= i < |table| && table[i] == (variable.name, variable.value) {
      assert VariableRows(table)[i] == variable;
    }
  }

  // --------------------------------------------------------------------- references

  /** "--" occurs in name--version nowhere before the end of the name. */
  ghost predicate IsPlainName(name: string, version: string) {
    if version == "" then !Contains(name, "--")
    else forall i: nat :: i < |name| ==> !OccursAt(name + "--" + version, "--", i)
  }

  lemma PlainNames(name: string, version: string)
    ensures IsPlainName(name, version) <==>
      !Contains(name, "--") && (version != "" && name != "" ==> name[|name| - 1] != '-')
  {
    var s := name + "--" + version;
    if version != "" {
      forall i: nat | i + 2 <= |name| ensures OccursAt(s, "--", i) <==> OccursAt(name, "--", i) {
        assert s[i..i + 2] == name[i..i + 2];
      }
      if name != "" {
        var i := |name| - 1;
        assert s[i..i + 2] == [name[i]] + "-" && s[i..i + 2][0] == name[i];
        assert name[i] == '-' ==> s[i..i + 2] == "--";
        assert OccursAt(s, "--", i) <==> name[i] == '-';
      }
      if Contains(name, "--") {
        var i: nat :| OccursAt(name, "--", i);
        assert OccursAt(s, "--", i);
      }
    }
  }

  lemma {:induction false} TrimLeftKeeps(s: string, i: nat)
    requires i < |s| && !IsSpace(s[i])
    ensures |TrimLeft(s)| >= |s| - i
    ensures TrimLeft(s) != "" && TrimLeft(s)[|TrimLeft(s)| - 1] == s[|s| - 1]
  {
    if IsSpace(s[0]) {
      TrimLeftKeeps(s[1..], i - 1);
    }
  }

  /** Text in front of a trimmed version survives trimming if it ends in a dash. */
  lemma DashSurvives(before: string, version: string)
    requires version != "" && Trimmed(version)
    ensures Trim(before + "-" + version) != version
  {
    var s := before + "-" + version;
    assert s[|before|] == '-';
    TrimLeftKeeps(s, |before|);
  }

  /** The name and version of a reference come back exactly when no "--" comes before
      the one between them. */
  lemma ReferenceRoundTrip(nfc: string -> string, name: string, version: string)
    requires Identity(nfc, name) == Some(name) && Trimmed(name) && Trimmed(version)
    ensures ParseReference(nfc, ReferenceName(name, version)) == Some(NativeReference(name, version))
            <==> IsPlainName(name, version)
  {
    TrimIsTrimmed(name);
    TrimIsTrimmed(version);
    var reference := ReferenceName(name, version);
    var cut := Cut(reference, "--");
    assert Trim("") == "";
    if version == "" {
      assert reference == name;
      assert !cut.found <==> !Contains(name, "--") by {
        var i := IndexFrom(name, "--", 0);
        if i.Some? {
          assert OccursAt(name, "--", i.value);
        }
      }
    } else {
      CutJoined(name, "--", version);
      if !IsPlainName(name, version) {
        EarlierCutShows(name, version);
      }
    }
  }

  lemma EarlierCutShows(name: string, version: string)
    requires version != "" && Trimmed(version) && !IsPlainName(name, version)
    ensures Trim(Cut(name + "--" + version, "--").after) != version
  {
    var s := name + "--" + version;
    var at := IndexFrom(s, "--", 0);
    var i: nat :| i < |name| && OccursAt(s, "--", i);
    assert at.Some? && at.value < |name|;
    var rest := s[at.value + 2..];
    if at.value == |name| - 1 {
      assert rest == "" + "-" + version;
      DashSurvives("", version);
    } else {
      assert rest == name[at.value + 2..] + "-" + "-" + version;
      assert rest == (name[at.value + 2..] + "-") + "-" + version;
      DashSurvives(name[at.value + 2..] + "-", version);
    }
  }

  // --------------------------------------------------------------- rows and objects

  lemma MemberNames(kind: RowKind, key: Key)
    requires MemberTypeOf(kind, key).Some?
    ensures MemberOf(kind, NativeMember(kind, key)) == key && !IsRenamed(kind, NativeMember(kind, key))
  {
    match kind
    case ReceiptRow =>
    case InstallRow =>
    case ChoiceRow =>
    case CopyRow =>
  }

  /** Renaming by a function that can be undone on the row, and back, is nothing. */
  lemma RenamedBack(rename: Key -> Key, back: Key -> Key, row: Fields)
    requires forall key :: key in row ==> back(rename(key)) == key
    ensures Renamed(back, rename, Renamed(rename, back, row)) == row
    ensures forall name :: name in Renamed(rename, back, row) ==> exists key :: key in row && rename(key) == name
  {
    var renamed := Renamed(rename, back, row);
    forall key | key in row ensures rename(key) in renamed && renamed[rename(key)] == row[key] {}
    var again := Renamed(back, rename, renamed);
    forall key ensures key in again <==> key in row {
      if key in row {
        assert back(rename(key)) == key;
      }
    }
    assert again == row;
  }

  /** A row's members are renamed there and back. */
  lemma RowRoundTrip(kind: RowKind, row: Fields)
    requires forall key :: key in row ==> MemberTypeOf(kind, key).Some?
    ensures ImportRow(kind, NativeRow(kind, row)) == Some(Object(row))
  {
    var rename, back := Nativized(kind), Denativized(kind);
    forall key | key in row ensures back(rename(key)) == key && !IsRenamed(kind, rename(key)) {
      MemberNames(kind, key);
    }
    RenamedBack(rename, back, row);
    forall name | name in Renamed(rename, back, row) ensures !IsRenamed(kind, name) {
      var key :| key in row && rename(key) == name;
    }
  }

  lemma RowDecodes(kind: RowKind, row: Fields)
    requires IsRow(kind, row)
    ensures DecodeRow(kind, row) == row
  {
    RowMembers(kind, row);
  }

  function ObjectsOf(rows: seq<Fields>): (documents: seq<Document>)
    ensures |documents| == |rows| && forall i :: 0 <= i < |rows| ==> documents[i] == Object(rows[i])
  {
    seq(|rows|, i requires 0 <= i < |rows| => Object(rows[i]))
  }

  lemma RowsRoundTrip(kind: RowKind, rows: seq<Fields>)
    requires AreRows(kind, rows)
    ensures RowsIn(kind, Array(NativeRows(kind, rows))) == Some(Array(ObjectsOf(rows)))
  {
    var native := NativeRows(kind, rows);
    forall i | 0 <= i < |rows| ensures RowImporter(kind)(native[i]) == Some(ObjectsOf(rows)[i]) {
      RowMembers(kind, rows[i]);
      RowRoundTrip(kind, rows[i]);
    }
    CollectIs(RowImporter(kind), native, ObjectsOf(rows));
  }

  lemma RowMembers(kind: RowKind, row: Fields)
    requires IsRow(kind, row)
    ensures forall key :: key in row ==> MemberTypeOf(kind, key).Some?
  {}

  lemma RowsDecode(kind: RowKind, rows: seq<Fields>)
    requires AreRows(kind, rows)
    ensures AcceptsRows(kind, Array(ObjectsOf(rows))) && DecodeRows(kind, Some(Array(ObjectsOf(rows)))) == rows
  {
    forall i | 0 <= i < |rows| ensures DecodeRow(kind, rows[i]) == rows[i] {
      RowDecodes(kind, rows[i]);
    }
  }

  lemma CopiesAreNative(rows: seq<Fields>)
    ensures NativeRows(CopyRow, rows) == ObjectsOf(rows)
  {
    forall i | 0 <= i < |rows| ensures NativeRow(CopyRow, rows[i]) == Object(rows[i]) {
      var native := Renamed(Nativized(CopyRow), Denativized(CopyRow), rows[i]);
      forall key ensures key in native <==> key in rows[i] {
        if key in rows[i] {
          assert Nativized(CopyRow)(key) == key;
        }
      }
      assert native == rows[i];
    }
  }

  lemma AlertNames(key: Key)
    requires IsAlertText(key)
    ensures AlertKey(NativeAlertKey(key)) == key && IsNativeAlertKey(NativeAlertKey(key))
  {}

  lemma AlertMembersAre(alert: Alert)
    requires IsAlert(alert)
    ensures Renamed(AlertKey, NativeAlertKey, AlertMembers(alert)) == TextMembers(alert.texts)
    ensures forall name :: name in AlertMembers(alert) ==> IsNativeAlertKey(name)
    ensures AlertMembers(alert) == map[] <==> alert.texts == map[]
  {
    var texts := TextMembers(alert.texts);
    forall key | key in texts ensures AlertKey(NativeAlertKey(key)) == key && IsNativeAlertKey(NativeAlertKey(key)) {
      AlertNames(key);
    }
    RenamedBack(NativeAlertKey, AlertKey, texts);
    if some :| some in alert.texts {
      assert some in texts;
      assert texts != map[];
    }
  }

  lemma ImportAlertIs(members: Fields, texts: Fields)
    requires Renamed(AlertKey, NativeAlertKey, members) == texts
    requires forall name :: name in members ==> IsNativeAlertKey(name)
    ensures ImportAlert(Object(members)) == Some(Object(texts[Enabled := Bool(true)]))
  {}

  /** An enabled alert that says something is rendered, and comes back enabled. */
  lemma AlertRoundTrip(alert: Alert)
    requires IsAlert(alert)
    ensures alert.enabled && alert.texts != map[] ==> RenderedAlert(alert).Some?
    ensures !alert.enabled || alert.texts == map[] ==> RenderedAlert(alert) == None
    ensures RenderedAlert(alert).Some? ==>
      ImportAlert(RenderedAlert(alert).value) == Some(Object(TextMembers(alert.texts)[Enabled := Bool(true)]))
  {
    AlertMembersAre(alert);
    ImportAlertIs(AlertMembers(alert), TextMembers(alert.texts));
  }

  lemma AlertDecodes(alert: Alert)
    requires IsAlert(alert) && alert.enabled
    ensures var imported := TextMembers(alert.texts)[Enabled := Bool(true)];
      AcceptsAlert(Object(imported)) && IsFlat(imported) && DecodeAlert(Some(Object(imported))) == alert
  {
    var imported := TextMembers(alert.texts)[Enabled := Bool(true)];
    assert TextsIn(imported) == alert.texts;
  }

  lemma LabelsRoundTrip(labels: map<Key, string>)
    requires forall key :: key in labels ==> IsLabel(key) && labels[key] != ""
    ensures IsFlat(TextMembers(labels)) && TextsIn(TextMembers(labels)) == labels
    ensures TextMembers(labels) == map[] <==> labels == map[]
  {
    assert TextsIn(TextMembers(labels)) == labels;
    if labels != map[] {
      var key :| key in labels;
      assert key in TextMembers(labels);
    }
  }

  // -------------------------------------------------------------- merging a patch

  predicate IsFlat(members: Fields) {
    forall key :: key in members ==> !members[key].Null? && !members[key].Object?
  }

  /** A patch of an empty mutation: null leaves nothing, and an object is merged into
      nothing. */
  lemma MergedField(patch: Fields, key: Key)
    ensures Field(Merged(Some(EMPTY), Object(patch)).members, key) ==
            match Field(patch, key)
            case None => if key.Version? then Some(Text("")) else None
            case Some(Null) => None
            case Some(Object(members)) => Some(Merged(None, Object(members)))
            case Some(value) => Some(value)
  {
    var merged := Merged(Some(EMPTY), Object(patch));
    assert key in merged.members <==>
      (key in EMPTY.members || key in patch) && (key in patch ==> patch[key] != Null);
    if key in patch && patch[key].Object? && key.Version? {
      MergeIntoText(patch[key]);
    }
  }

  lemma MergeIntoText(patch: Document)
    requires patch.Object?
    ensures Merged(Some(Text("")), patch) == Merged(None, patch)
  {}

  lemma FlatMerges(members: Fields)
    requires IsFlat(members)
    ensures Merged(None, Object(members)) == Object(members)
  {
    assert Merged(None, Object(members)).members == members;
  }

  // ------------------------------------------------------------------ the hypotheses

  ghost predicate IsRenderableReference(nfc: string -> string, ref: Reference) {
    Identity(nfc, ref.softwareName) == Some(ref.softwareName)
    && Trimmed(ref.softwareName) && Trimmed(ref.packageVersion)
  }

  /** A package as the server keeps it: valid, normalized metadata; names that software
      may have; and a hash for every stored installer. */
  ghost predicate IsManaged(
    nfc: string -> string, parseTime: string -> Option<string>, pkg: Package, objects: Objects)
  {
    ValidTags(parseTime, pkg.metadata)
    && ValidRelations(pkg.metadata, pkg.installerObjectID)
    && Normalized(parseTime, pkg.metadata) == pkg.metadata
    && Identity(nfc, pkg.software.name) == Some(pkg.software.name)
    && (forall ref :: ref in pkg.requirements + pkg.updateFor ==> IsRenderableReference(nfc, ref))
    && (objects.installer.Some? ==>
          Trim(objects.installer.value.sha256) != "" && objects.installer.value.sizeKB <= MAX_INT64)
  }

  // --------------------------------------------------------------- fields as rendered

  lemma IdentityFields(pkg: Package, objects: Objects, fields: Fields)
    requires IsRendering(pkg, objects, fields)
    ensures Field(fields, Name) == Some(Text(pkg.software.name))
    ensures Field(fields, InstallerObjectID) == None && Field(fields, Catalogs) == None
  {
    assert RendersField(pkg, objects, fields, Name);
    RepositoryFields(pkg, objects, fields);
  }

  lemma RepositoryFields(pkg: Package, objects: Objects, fields: Fields)
    requires IsRendering(pkg, objects, fields)
    ensures Field(fields, InstallerObjectID) == None && Field(fields, Catalogs) == None
  {
    assert RendersField(pkg, objects, fields, InstallerObjectID);
    assert RendersField(pkg, objects, fields, Catalogs);
  }

  lemma IconFields(pkg: Package, objects: Objects, fields: Fields)
    requires IsRendering(pkg, objects, fields)
    ensures Field(fields, IconName) == None && Field(fields, IconHash) == None <==> IsIconFree(pkg, objects)
  {
    assert RendersField(pkg, objects, fields, IconName);
    assert RendersField(pkg, objects, fields, IconHash);
  }

  lemma ApiFields(pkg: Package, objects: Objects, fields: Fields)
    requires IsRendering(pkg, objects, fields)
    ensures Field(fields, RestartAction) == None && Field(fields, RestartActionForUninstall) == None
    ensures Field(fields, OnDemand) == None && Field(fields, BlockingApplicationsNone) == None
  {
    assert RendersField(pkg, objects, fields, RestartAction);
    assert RendersField(pkg, objects, fields, RestartActionForUninstall);
    assert RendersField(pkg, objects, fields, OnDemand);
    assert RendersField(pkg, objects, fields, BlockingApplicationsNone);
  }

  lemma SoftwareField(pkg: Package, objects: Objects, fields: Fields, key: Key)
    requires IsRendering(pkg, objects, fields) && IsSoftware(key) && key in fields
    ensures fields[key].Text?
  {
    ClassesAreApart(key);
    assert RendersField(pkg, objects, fields, key);
  }

  lemma RowsAreOther(key: Key)
    requires IsRows(key)
    ensures ClassOf(key).Other?
  {}

  lemma ObjectsAreOther(key: Key)
    requires IsAlertField(key) || IsInstaller(key)
    ensures ClassOf(key).Other?
  {}

  lemma ClassesAreApart(key: Key)
    requires !ClassOf(key).Other?
    ensures !IsAlertField(key) && !IsRows(key) && !IsInstaller(key)
  {
    if IsRows(key) {
      RowsAreOther(key);
    } else if IsAlertField(key) || IsInstaller(key) {
      ObjectsAreOther(key);
    }
  }

  lemma PlainTextField(pkg: Package, objects: Objects, fields: Fields, key: Key)
    requires IsRendering(pkg, objects, fields) && ClassOf(key).PlainText?
    ensures Field(fields, key) == NonEmpty(TextOf(pkg.metadata.texts, key))
  {
    ClassesAreApart(key);
    assert RendersField(pkg, objects, fields, key);
  }

  lemma PlainSwitchField(pkg: Package, objects: Objects, fields: Fields, key: Key)
    requires IsRendering(pkg, objects, fields) && ClassOf(key).PlainSwitch?
    ensures Field(fields, key) == if key in pkg.metadata.switches then Some(Bool(true)) else None
  {
    ClassesAreApart(key);
    assert RendersField(pkg, objects, fields, key);
  }

  lemma OnDemandField(pkg: Package, objects: Objects, fields: Fields)
    requires IsRendering(pkg, objects, fields)
    ensures Field(fields, NativeOnDemand) == if OnDemand in pkg.metadata.switches then Some(Bool(true)) else None
  {
    assert RendersField(pkg, objects, fields, NativeOnDemand);
  }

  lemma DownloadField(pkg: Package, objects: Objects, fields: Fields)
    requires IsRendering(pkg, objects, fields)
    ensures Field(fields, DownloadOnLowData) ==
      if TextOf(pkg.metadata.texts, DownloadOnLowData) == DOWNLOAD_AUTO then None
      else NonEmpty(TextOf(pkg.metadata.texts, DownloadOnLowData))
  {
    assert RendersField(pkg, objects, fields, DownloadOnLowData);
  }

  lemma RestartFields(pkg: Package, objects: Objects, fields: Fields)
    requires IsRendering(pkg, objects, fields)
    ensures Field(fields, NativeRestartAction) == NonEmpty(TextOf(pkg.metadata.texts, RestartAction))
    ensures Field(fields, NativeRestartActionForUninstall)
         == NonEmpty(TextOf(pkg.metadata.texts, RestartActionForUninstall))
  {
    assert RendersField(pkg, objects, fields, NativeRestartAction);
    assert RendersField(pkg, objects, fields, NativeRestartActionForUninstall);
  }

  lemma VersionFields(pkg: Package, objects: Objects, fields: Fields)
    requires IsRendering(pkg, objects, fields)
    ensures Field(fields, Version) == Some(Text(TextOf(pkg.metadata.texts, Version)))
    ensures Field(fields, InstallerType) ==
      if TextOf(pkg.metadata.texts, InstallerType) == INSTALLER_TYPE_PKG then None
      else NonEmpty(TextOf(pkg.metadata.texts, InstallerType))
    ensures Field(fields, UninstallMethod) == NonEmpty(TextOf(pkg.metadata.texts, UninstallMethod))
  {
    assert RendersField(pkg, objects, fields, Version);
    assert RendersField(pkg, objects, fields, InstallerType);
    assert RendersField(pkg, objects, fields, UninstallMethod);
  }

  lemma BlockingFields(pkg: Package, objects: Objects, fields: Fields)
    requires IsRendering(pkg, objects, fields)
    ensures Field(fields, LaunchArgs) ==
      if pkg.metadata.launchArguments == [] then None else Some(Object(LaunchMembers(pkg.metadata.launchArguments)))
    ensures Field(fields, BlockingApplications) ==
      if BlockingApplicationsNone in pkg.metadata.switches then Some(Array([]))
      else OptionalList(Texts(pkg.metadata.blockingApplications).items)
  {
    assert RendersField(pkg, objects, fields, LaunchArgs);
    assert RendersField(pkg, objects, fields, BlockingApplications);
  }

  lemma RowFields(pkg: Package, objects: Objects, fields: Fields)
    requires IsRendering(pkg, objects, fields)
    ensures Field(fields, InstallerChoicesXML) == OptionalList(NativeRows(ChoiceRow, pkg.metadata.choices))
    ensures Field(fields, Installs) == OptionalList(NativeRows(InstallRow, pkg.metadata.installs))
    ensures Field(fields, Receipts) == OptionalList(NativeRows(ReceiptRow, pkg.metadata.receipts))
  {
    assert RendersField(pkg, objects, fields, InstallerChoicesXML);
    assert RendersField(pkg, objects, fields, Installs);
    assert RendersField(pkg, objects, fields, Receipts);
  }

  lemma CopyFields(pkg: Package, objects: Objects, fields: Fields)
    requires IsRendering(pkg, objects, fields)
    ensures Field(fields, ItemsToCopy) == OptionalList(NativeRows(CopyRow, pkg.metadata.itemsToCopy))
    ensures Field(fields, ItemsToRemove) ==
      if TextOf(pkg.metadata.texts, UninstallMethod) != REMOVE_COPIED_ITEMS then None
      else OptionalList(Removals(pkg.metadata.itemsToCopy))
  {
    assert RendersField(pkg, objects, fields, ItemsToCopy);
    assert RendersField(pkg, objects, fields, ItemsToRemove);
  }

  lemma EnvironmentField(pkg: Package, objects: Objects, fields: Fields)
    requires IsRendering(pkg, objects, fields)
    ensures Field(fields, InstallerEnvironment) ==
      if pkg.metadata.environment == [] then None else Some(Object(EnvironmentMembers(pkg.metadata.environment)))
  {
    assert RendersField(pkg, objects, fields, InstallerEnvironment);
  }

  lemma AlertFields(pkg: Package, objects: Objects, fields: Fields)
    requires IsRendering(pkg, objects, fields)
    ensures Field(fields, PreinstallAlert) == RenderedAlert(pkg.metadata.preinstallAlert)
    ensures Field(fields, PreuninstallAlert) == RenderedAlert(pkg.metadata.preuninstallAlert)
  {
    AlertIsRendered(pkg, objects, fields, PreinstallAlert, pkg.metadata.preinstallAlert);
    AlertIsRendered(pkg, objects, fields, PreuninstallAlert, pkg.metadata.preuninstallAlert);
  }

  lemma AlertIsRendered(pkg: Package, objects: Objects, fields: Fields, key: Key, alert: Alert)
    requires IsRendering(pkg, objects, fields) && IsAlertField(key) && alert == AlertOf(pkg.metadata, key)
    ensures Field(fields, key) == RenderedAlert(alert)
  {
    assert RendersField(pkg, objects, fields, key);
  }

  lemma InstallerTextFields(pkg: Package, objects: Objects, fields: Fields)
    requires IsRendering(pkg, objects, fields)
    ensures var installer := RenderedInstaller(pkg, objects);
      Field(fields, InstallerItemLocation) ==
        (if installer.None? then None else NonEmpty(InstallerItemLocationOf(pkg.id, installer.value)))
      && Field(fields, InstallerItemHash) == (if installer.None? then None else NonEmpty(installer.value.sha256))
  {
    assert RendersField(pkg, objects, fields, InstallerItemLocation);
    assert RendersField(pkg, objects, fields, InstallerItemHash);
  }

  lemma InstallerSizeField(pkg: Package, objects: Objects, fields: Fields)
    requires IsRendering(pkg, objects, fields)
    ensures var installer := RenderedInstaller(pkg, objects);
      Field(fields, InstallerItemSize) == if installer.None? then None else OptionalSizeOf(installer.value.sizeKB)
  {
    assert RendersField(pkg, objects, fields, InstallerItemSize);
  }

  lemma ArchitecturesField(pkg: Package, objects: Objects, fields: Fields)
    requires IsRendering(pkg, objects, fields)
    ensures Field(fields, SupportedArchitectures) == OptionalList(Texts(pkg.metadata.architectures).items)
  {
    assert RendersField(pkg, objects, fields, SupportedArchitectures);
  }

  lemma ActionLabelsField(pkg: Package, objects: Objects, fields: Fields)
    requires IsRendering(pkg, objects, fields)
    ensures Field(fields, CustomActionLabels) ==
      if TextMembers(pkg.metadata.actionLabels) == map[] then None
      else Some(Object(TextMembers(pkg.metadata.actionLabels)))
  {
    assert RendersField(pkg, objects, fields, CustomActionLabels);
  }

  lemma ScalarFields(pkg: Package, objects: Objects, fields: Fields)
    requires IsRendering(pkg, objects, fields)
    ensures Field(fields, ForceInstallAfterDate) ==
      if pkg.metadata.forceInstallAfter.None? then None else Some(Text(pkg.metadata.forceInstallAfter.value))
    ensures Field(fields, InstalledSize) == OptionalSizeOf(pkg.metadata.installedSize)
  {
    assert RendersField(pkg, objects, fields, ForceInstallAfterDate);
    assert RendersField(pkg, objects, fields, InstalledSize);
  }

  lemma ReferenceFields(pkg: Package, objects: Objects, fields: Fields)
    requires IsRendering(pkg, objects, fields)
    ensures Field(fields, Requires) == OptionalList(ReferenceNames(pkg.requirements))
    ensures Field(fields, UpdateFor) == OptionalList(ReferenceNames(pkg.updateFor))
  {
    assert RendersField(pkg, objects, fields, Requires);
    assert RendersField(pkg, objects, fields, UpdateFor);
  }

  // ---------------------------------------------------------------------- text fields

  /** A text field of the patch: only the default download mode is left out. */
  function TextField(texts: map<Key, string>, key: Key): Option<Document> {
    if key.DownloadOnLowData? && TextOf(texts, key) == DOWNLOAD_AUTO then None else NonEmpty(TextOf(texts, key))
  }

  lemma NormalizedHaveDefaults(m: Metadata)
    requires NormalizedTexts(m.texts) == m.texts
    ensures TextOf(m.texts, InstallerType) != "" && TextOf(m.texts, DownloadOnLowData) != ""
  {
    NormalizedTextTwice(m.texts, InstallerType);
    NormalizedTextTwice(m.texts, DownloadOnLowData);
  }

  /** The part of validity that concerns texts. */
  ghost predicate TextsFit(texts: map<Key, string>) {
    Trim(TextOf(texts, Version)) != "" && TextOf(texts, InstallerType) != ""
    && (RestartAction in texts ==> IsRestartAction(texts[RestartAction]))
  }

  lemma ValidTextsFit(parseTime: string -> Option<string>, m: Metadata)
    requires ValidTags(parseTime, m) && NormalizedTexts(m.texts) == m.texts
    ensures TextsFit(m.texts)
  {
    NormalizedHaveDefaults(m);
    if RestartAction in m.texts {
      assert AcceptsText(RestartAction, m.texts[RestartAction]);
    }
  }

  // -------------------------------------------------------------------------- blocking

  /** What the document says about blocking applications, and what comes of it. */
  lemma ImportedBlocking(m: Metadata, fields: Fields)
    requires Field(fields, LaunchArgs) ==
      if m.launchArguments == [] then None else Some(Object(LaunchMembers(m.launchArguments)))
    requires Field(fields, BlockingApplications) ==
      if BlockingApplicationsNone in m.switches then Some(Array([]))
      else OptionalList(Texts(m.blockingApplications).items)
    requires BlockingApplicationsNone in m.switches ==> m.blockingApplications == [] && m.launchArguments == []
    requires Distinct(Applications(m.launchArguments))
    ensures BlockingFits(fields)
    ensures LaunchIn(fields) == Some(SortedLaunch(m.launchArguments))
    ensures ImportedNone(fields) ==
      if BlockingApplicationsNone in m.switches then Some(Bool(true))
      else if m.blockingApplications != [] || m.launchArguments != [] then Some(Bool(false)) else None
    ensures SortedLaunch(m.launchArguments) == [] <==> m.launchArguments == []
  {
    LaunchRoundTrip(m.launchArguments);
    SortedLaunchSize(m.launchArguments);
    TextsRoundTrip(m.blockingApplications);
    TextsRoundTrip([]);
    assert Texts([]) == Array([]);
    if m.launchArguments == [] {
      assert SortedLaunch(m.launchArguments) == [];
    }
  }

  lemma SortedLaunchSize(entries: seq<LaunchArguments>)
    requires Distinct(Applications(entries))
    ensures |SortedLaunch(entries)| == |entries|
  {
    forall i, j | 0 <= i < j < |entries| ensures LaunchTable(entries)[i].0 != LaunchTable(entries)[j].0 {
      assert Applications(entries)[i] != Applications(entries)[j];
    }
    SortedTableKeepsRows(LaunchTable(entries));
  }

  lemma LaunchDecodes(entries: seq<LaunchArguments>)
    requires entries != [] && forall i :: 0 <= i < |entries| ==> entries[i].application != ""
    ensures AcceptsLaunches(LaunchDocument(entries))
    ensures DecodeLaunch(Some(LaunchDocument(entries))) == entries
  {
    forall i | 0 <= i < |entries| ensures AcceptsLaunch(LaunchEntry(entries[i])) {
      TextsRoundTrip(entries[i].arguments);
    }
    forall i | 0 <= i < |entries| ensures DecodeLaunch(Some(LaunchDocument(entries)))[i] == entries[i] {
      TextsRoundTrip(entries[i].arguments);
    }
  }

  lemma EnvironmentDecodes(variables: seq<Variable>)
    requires forall i :: 0 <= i < |variables| ==> variables[i].name != ""
    ensures AcceptsVariables(EnvironmentDocument(variables))
    ensures DecodeEnvironment(Some(EnvironmentDocument(variables))) == variables
  {
    forall i | 0 <= i < |variables| ensures AcceptsVariable(EnvironmentEntry(variables[i])) {}
    assert DecodeEnvironment(Some(EnvironmentDocument(variables))) == variables;
  }

  // ------------------------------------------------------------------------ references

  function NativeReferences(refs: seq<Reference>): (native: seq<NativeReference>)
    ensures |native| == |refs|
    ensures forall i :: 0 <= i < |refs| ==>
      native[i] == NativeReference(refs[i].softwareName, refs[i].packageVersion)
  {
    seq(|refs|, i requires 0 <= i < |refs| => NativeReference(refs[i].softwareName, refs[i].packageVersion))
  }

  ghost predicate ArePlain(refs: seq<Reference>) {
    forall i :: 0 <= i < |refs| ==> IsPlainName(refs[i].softwareName, refs[i].packageVersion)
  }

  function NamesOfReferences(refs: seq<Reference>): (names: seq<string>)
    ensures |names| == |refs|
    ensures forall i :: 0 <= i < |refs| ==> names[i] == ReferenceName(refs[i].softwareName, refs[i].packageVersion)
  {
    seq(|refs|, i requires 0 <= i < |refs| => ReferenceName(refs[i].softwareName, refs[i].packageVersion))
  }

  /** Expected in the import: nothing when there are no references. */
  function Expected(refs: seq<Reference>): Option<seq<NativeReference>> {
    if refs == [] then None else Some(NativeReferences(refs))
  }

  lemma ReferencesCollect(parse: string -> Option<NativeReference>, refs: seq<Reference>)
    requires forall i :: 0 <= i < |refs| ==>
      (parse(NamesOfReferences(refs)[i]) == Some(NativeReferences(refs)[i])
       <==> IsPlainName(refs[i].softwareName, refs[i].packageVersion))
    ensures Collect(parse, NamesOfReferences(refs)) == Some(NativeReferences(refs)) <==> ArePlain(refs)
  {
    CollectIs(parse, NamesOfReferences(refs), NativeReferences(refs));
  }

  lemma ReferenceParses(nfc: string -> string, ref: Reference)
    requires IsRenderableReference(nfc, ref)
    ensures Parser(nfc)(ReferenceName(ref.softwareName, ref.packageVersion))
            == Some(NativeReference(ref.softwareName, ref.packageVersion))
            <==> IsPlainName(ref.softwareName, ref.packageVersion)
  {
    ReferenceRoundTrip(nfc, ref.softwareName, ref.packageVersion);
  }

  lemma ReferencesAreTexts(nfc: string -> string, refs: seq<Reference>)
    ensures ReferencesOf(nfc, OptionalList(ReferenceNames(refs)))
         == if refs == [] then None else Collect(Parser(nfc), NamesOfReferences(refs))
  {
    TextsRoundTrip(NamesOfReferences(refs));
    assert ReferenceNames(refs) == Texts(NamesOfReferences(refs)).items;
  }

  /** References come back exactly when all their names are plain. */
  lemma ReferencesReturn(nfc: string -> string, refs: seq<Reference>)
    requires forall ref :: ref in refs ==> IsRenderableReference(nfc, ref)
    ensures ReferencesOf(nfc, OptionalList(ReferenceNames(refs))) == Expected(refs) <==> ArePlain(refs)
  {
    ReferencesAreTexts(nfc, refs);
    forall i | 0 <= i < |refs|
      ensures Parser(nfc)(NamesOfReferences(refs)[i]) == Some(NativeReferences(refs)[i])
              <==> IsPlainName(refs[i].softwareName, refs[i].packageVersion)
    {
      ReferenceParses(nfc, refs[i]);
    }
    ReferencesCollect(Parser(nfc), refs);
  }

  // ------------------------------------------------------------------- accepted at all

  /** No icon is rendered. */
  predicate IsIconFree(pkg: Package, objects: Objects) {
    objects.icon.None? || (IconNameOf(objects.icon.value) == "" && objects.icon.value.sha256 == "")
  }

  lemma NamesFit(nfc: string -> string, pkg: Package, objects: Objects, fields: Fields)
    requires IsRendering(pkg, objects, fields) && Identity(nfc, pkg.software.name) == Some(pkg.software.name)
    ensures NameFits(nfc, fields) && Identity(nfc, fields[Name].text) == Some(pkg.software.name)
    ensures NamesAreNative(fields) <==> IsIconFree(pkg, objects)
    ensures SoftwareFits(fields)
  {
    IdentityFields(pkg, objects, fields);
    IconFields(pkg, objects, fields);
    ApiFields(pkg, objects, fields);
    forall key | key in fields && IsSoftware(key) ensures fields[key].Text? {
      SoftwareField(pkg, objects, fields, key);
    }
  }

  lemma VersionFitsRendering(texts: map<Key, string>, fields: Fields)
    requires Field(fields, Version) == Some(Text(TextOf(texts, Version)))
    requires Field(fields, InstallerType) ==
      if TextOf(texts, InstallerType) == INSTALLER_TYPE_PKG then None else NonEmpty(TextOf(texts, InstallerType))
    requires Trim(TextOf(texts, Version)) != ""
    requires InstallerType in texts ==> Trim(texts[InstallerType]) != ""
    ensures VersionFits(fields)
  {}

  lemma NormalizedInstallerType(m: Metadata)
    requires NormalizedTexts(m.texts) == m.texts
    ensures InstallerType in m.texts && Trim(m.texts[InstallerType]) != ""
  {
    NormalizedTextTwice(m.texts, InstallerType);
    TrimTwice(TextOf(m.texts, InstallerType));
    NormalizedHaveDefaults(m);
  }

  lemma RowsReturn(kind: RowKind, rows: seq<Fields>)
    requires AreRows(kind, rows)
    ensures Rows(kind, OptionalList(NativeRows(kind, rows))) == OptionalList(ObjectsOf(rows))
    ensures rows != [] ==> RowsIn(kind, Array(NativeRows(kind, rows))).Some?
  {
    RowsRoundTrip(kind, rows);
  }

  lemma RowsFitRendering(m: Metadata, fields: Fields)
    requires Field(fields, InstallerChoicesXML) == OptionalList(NativeRows(ChoiceRow, m.choices))
    requires Field(fields, Installs) == OptionalList(NativeRows(InstallRow, m.installs))
    requires Field(fields, Receipts) == OptionalList(NativeRows(ReceiptRow, m.receipts))
    requires AreRows(ChoiceRow, m.choices) && AreRows(InstallRow, m.installs) && AreRows(ReceiptRow, m.receipts)
    ensures RowsFit(fields)
  {
    RowsReturn(ChoiceRow, m.choices);
    RowsReturn(InstallRow, m.installs);
    RowsReturn(ReceiptRow, m.receipts);
  }

  lemma ImportedEnvironment(variables: seq<Variable>, fields: Fields)
    requires Field(fields, InstallerEnvironment) ==
      if variables == [] then None else Some(Object(EnvironmentMembers(variables)))
    ensures EnvironmentFits(fields)
    ensures Imported(fields, InstallerEnvironment) ==
      if variables == [] then None else Some(EnvironmentDocument(SortedVariables(variables)))
  {
    EnvironmentRoundTrip(variables);
  }

  function AlertField(alert: Alert): Option<Document> {
    if alert.enabled && alert.texts != map[] then Some(Object(TextMembers(alert.texts)[Enabled := Bool(true)]))
    else None
  }

  lemma AlertReturns(alert: Alert)
    requires IsAlert(alert)
    ensures ImportedAlert(RenderedAlert(alert)) == AlertField(alert)
    ensures RenderedAlert(alert).Some? ==> ImportAlert(RenderedAlert(alert).value).Some?
  {
    AlertRoundTrip(alert);
  }

  lemma SizeRoundTrip(size: int)
    requires 0 <= size <= MAX_INT64
    ensures NumberIn(Number(FormatInt(size))) == Some(size)
  {
    DecimalRoundTrip(size);
  }

  lemma InstallerFitsRendering(pkg: Package, objects: Objects, fields: Fields)
    requires IsRendering(pkg, objects, fields)
    requires objects.installer.Some? ==>
      Trim(objects.installer.value.sha256) != "" && objects.installer.value.sizeKB <= MAX_INT64
    ensures InstallerFits(fields)
  {
    InstallerTextFields(pkg, objects, fields);
    InstallerSizeField(pkg, objects, fields);
    if objects.installer.Some? {
      SizeRoundTrip(objects.installer.value.sizeKB);
    }
  }

  lemma RemovalsFitRendering(m: Metadata, fields: Fields)
    requires Field(fields, ItemsToCopy) == OptionalList(NativeRows(CopyRow, m.itemsToCopy))
    requires Field(fields, ItemsToRemove) ==
      if TextOf(m.texts, UninstallMethod) != REMOVE_COPIED_ITEMS then None else OptionalList(Removals(m.itemsToCopy))
    requires Field(fields, UninstallMethod) == NonEmpty(TextOf(m.texts, UninstallMethod))
    ensures RemovalsFit(fields)
  {
    CopiesAreNative(m.itemsToCopy);
  }

  lemma ListsFitRendering(pkg: Package, objects: Objects, fields: Fields)
    requires IsRendering(pkg, objects, fields)
    requires AreRows(ChoiceRow, pkg.metadata.choices) && AreRows(InstallRow, pkg.metadata.installs)
    requires AreRows(ReceiptRow, pkg.metadata.receipts)
    ensures RowsFit(fields) && EnvironmentFits(fields) && RemovalsFit(fields)
  {
    RowFields(pkg, objects, fields);
    RowsFitRendering(pkg.metadata, fields);
    EnvironmentField(pkg, objects, fields);
    ImportedEnvironment(pkg.metadata.environment, fields);
    CopyFields(pkg, objects, fields);
    VersionFields(pkg, objects, fields);
    RemovalsFitRendering(pkg.metadata, fields);
  }

  lemma AlertsFitRendering(pkg: Package, objects: Objects, fields: Fields)
    requires IsRendering(pkg, objects, fields)
    requires IsAlert(pkg.metadata.preinstallAlert) && IsAlert(pkg.metadata.preuninstallAlert)
    ensures AlertsFit(fields)
  {
    AlertFields(pkg, objects, fields);
    AlertReturns(pkg.metadata.preinstallAlert);
    AlertReturns(pkg.metadata.preuninstallAlert);
  }

  lemma VersionAndBlockingFit(pkg: Package, objects: Objects, fields: Fields)
    requires IsRendering(pkg, objects, fields) && ValidRelations(pkg.metadata, pkg.installerObjectID)
    requires NormalizedTexts(pkg.metadata.texts) == pkg.metadata.texts
    requires Trim(TextOf(pkg.metadata.texts, Version)) != ""
    ensures VersionFits(fields) && BlockingFits(fields)
  {
    VersionFields(pkg, objects, fields);
    NormalizedInstallerType(pkg.metadata);
    VersionFitsRendering(pkg.metadata.texts, fields);
    BlockingFields(pkg, objects, fields);
    ImportedBlocking(pkg.metadata, fields);
  }

  /** Everything but the references fits, unless an icon is rendered. */
  lemma RenderingFits(
    nfc: string -> string, parseTime: string -> Option<string>, pkg: Package, objects: Objects, fields: Fields)
    requires IsManaged(nfc, parseTime, pkg, objects) && IsRendering(pkg, objects, fields)
    ensures Importable(nfc, fields) <==> IsIconFree(pkg, objects) && ReferencesFit(nfc, fields)
  {
    NamesFit(nfc, pkg, objects, fields);
    VersionAndBlockingFit(pkg, objects, fields);
    ListsFitRendering(pkg, objects, fields);
    AlertsFitRendering(pkg, objects, fields);
    InstallerFitsRendering(pkg, objects, fields);
  }
}

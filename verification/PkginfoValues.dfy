/** The loops that convert single values of a native document. */
module PkginfoValues {
  import opened Basics
  import opened MergePatch
  import opened PackageMutations
  import opened Packages
  import opened Pkginfo
  import opened PkginfoImport
  import opened Renaming
  import opened Strings

  // ---------------------------------------------------------------- loops over values

  /** pkginfoArray into strings. */
  method ReadTexts(value: Document) returns (texts: Option<seq<string>>)
    ensures texts == StringsIn(value)
  {
    if !value.Array? {
      return None;
    }
    var read := [];
    for i := 0 to |value.items|
      invariant |read| == i
      invariant forall j :: 0 <= j < i ==> value.items[j].Text? || value.items[j].Null?
      invariant forall j :: 0 <= j < i ==> read[j] == if value.items[j].Text? then value.items[j].text else ""
    {
      if value.items[i].Text? {
        read := read + [value.items[i].text];
      } else if value.items[i].Null? {
        read := read + [""];
      } else {
        return None;
      }
    }
    texts := Some(read);
    assert read == StringsIn(value).value;
  }

  lemma {:induction false} LaunchListFails(members: Fields, names: seq<string>, n: nat)
    requires n <= |names| && LaunchList(members, names[..n]) == None
    ensures LaunchList(members, names) == None
    decreases |names|
  {
    if n < |names| {
      assert names[..|names| - 1][..n] == names[..n];
      LaunchListFails(members, names[..|names| - 1], n);
    } else {
      assert names[..n] == names;
    }
  }

  lemma LaunchListStep(members: Fields, names: seq<string>, n: nat)
    requires n < |names|
    ensures LaunchList(members, names[..n + 1]) ==
      var rest := LaunchList(members, names[..n]);
      var arguments := if Custom(names[n]) in members then StringsIn(members[Custom(names[n])]) else None;
      if rest.None? || arguments.None? then None
      else Some(rest.value + [LaunchArguments(names[n], arguments.value)])
  {
    assert names[..n + 1][..n] == names[..n];
  }

  /** The launch arguments of the named members, in order. */
  method LaunchOfNames(members: Fields, names: seq<string>) returns (entries: Option<seq<LaunchArguments>>)
    requires forall name :: name in names ==> Custom(name) in members
    ensures entries == LaunchList(members, names)
  {
    var read := [];
    for i := 0 to |names|
      invariant LaunchList(members, names[..i]) == Some(read)
    {
      LaunchListStep(members, names, i);
      var arguments := ReadTexts(members[Custom(names[i])]);
      if arguments.None? {
        LaunchListFails(members, names, i + 1);
        return None;
      }
      read := read + [LaunchArguments(names[i], arguments.value)];
    }
    assert names[..|names|] == names;
    entries := Some(read);
  }

  method ReadLaunch(members: Fields) returns (entries: Option<seq<LaunchArguments>>)
    requires IsNamed(Object(members))
    ensures entries == LaunchList(members, Sorted(NamesOf(members)))
  {
    var names := SortNames(NamesOf(members));
    forall name | name in names ensures Custom(name) in members {
      NameIsMember(members, name);
    }
    entries := LaunchOfNames(members, names);
  }

  lemma NameIsMember(members: Fields, name: string)
    requires IsNamed(Object(members)) && name in NamesOf(members)
    ensures Custom(name) in members
  {
    var key :| key in members && LabelOf(key) == name;
    assert key == Custom(name);
  }

  lemma {:induction false} EnvironmentListFails(members: Fields, names: seq<string>, n: nat)
    requires n <= |names| && EnvironmentList(members, names[..n]) == None
    ensures EnvironmentList(members, names) == None
    decreases |names|
  {
    if n < |names| {
      assert names[..|names| - 1][..n] == names[..n];
      EnvironmentListFails(members, names[..|names| - 1], n);
    } else {
      assert names[..n] == names;
    }
  }

  lemma EnvironmentListStep(members: Fields, names: seq<string>, n: nat)
    requires n < |names|
    ensures EnvironmentList(members, names[..n + 1]) ==
      var rest := EnvironmentList(members, names[..n]);
      if rest.None? || Custom(names[n]) !in members || !members[Custom(names[n])].Text? then None
      else Some(rest.value + [Variable(names[n], members[Custom(names[n])].text)])
  {
    assert names[..n + 1][..n] == names[..n];
  }

  method EnvironmentOfNames(members: Fields, names: seq<string>) returns (variables: Option<seq<Variable>>)
    requires forall name :: name in names ==> Custom(name) in members
    ensures variables == EnvironmentList(members, names)
  {
    var read := [];
    for i := 0 to |names|
      invariant EnvironmentList(members, names[..i]) == Some(read)
    {
      EnvironmentListStep(members, names, i);
      if !members[Custom(names[i])].Text? {
        EnvironmentListFails(members, names, i + 1);
        return None;
      }
      read := read + [Variable(names[i], members[Custom(names[i])].text)];
    }
    assert names[..|names|] == names;
    variables := Some(read);
  }

  method ReadEnvironment(members: Fields) returns (variables: Option<seq<Variable>>)
    requires IsNamed(Object(members))
    ensures variables == EnvironmentList(members, Sorted(NamesOf(members)))
  {
    var names := SortNames(NamesOf(members));
    forall name | name in names ensures Custom(name) in members {
      NameIsMember(members, name);
    }
    variables := EnvironmentOfNames(members, names);
  }

  lemma {:induction false} CollectFails<A, B>(f: A -> Option<B>, xs: seq<A>, n: nat)
    requires n < |xs| && f(xs[n]) == None
    ensures Collect(f, xs) == None
    decreases |xs|
  {
    if n < |xs| - 1 {
      CollectFails(f, xs[..|xs| - 1], n);
    }
  }

  /** The loop that stops at the first failure. */
  method CollectAll<A, B>(f: A -> Option<B>, xs: seq<A>) returns (ys: Option<seq<B>>)
    ensures ys == Collect(f, xs)
  {
    var read := [];
    for i := 0 to |xs|
      invariant |read| == i && forall j :: 0 <= j < i ==> f(xs[j]) == Some(read[j])
    {
      var y := f(xs[i]);
      if y.None? {
        CollectFails(f, xs, i);
        return None;
      }
      read := read + [y.value];
    }
    CollectIs(f, xs, read);
    ys := Some(read);
  }

  method ReadReferences(nfc: string -> string, value: Document) returns (references: Option<seq<NativeReference>>)
    ensures references == ReferencesIn(nfc, value)
  {
    var texts := ReadTexts(value);
    if texts.None? {
      return None;
    }
    references := CollectAll(Parser(nfc), texts.value);
  }

  /** The API names of a kind of row that have a native name of their own. */
  function Aliases(kind: RowKind): (keys: set<Key>)
    ensures forall key :: key in keys <==> IsRenamed(kind, key)
  {
    match kind
    case ReceiptRow => {ReceiptPackageID}
    case InstallRow => {BundleIdentifier, BundleName, BundleShortVersion, BundleVersion, RowMinimumOSVersion}
    case ChoiceRow => {ChoiceIdentifier, ChoiceAttribute, AttributeSetting}
    case CopyRow => {}
  }

  lemma ReceiptAlias(key: Key)
    ensures IsAliasing(Nativized(ReceiptRow), Denativized(ReceiptRow), Aliases(ReceiptRow), key)
  {}

  lemma NativeNames(kind: RowKind, key: Key)
    requires kind.InstallRow? || kind.ChoiceRow?
    requires IsRenamed(kind, key)
    ensures MemberOf(kind, NativeMember(kind, key)) == key && MemberOf(kind, key) == key
    ensures !IsRenamed(kind, NativeMember(kind, key))
  {
    match kind
    case InstallRow =>
    case ChoiceRow =>
  }

  lemma ApiNames(kind: RowKind, key: Key)
    requires kind.InstallRow? || kind.ChoiceRow?
    requires MemberOf(kind, key) != key
    ensures IsRenamed(kind, MemberOf(kind, key)) && NativeMember(kind, MemberOf(kind, key)) == key
    ensures !IsRenamed(kind, key)
  {
    match kind
    case InstallRow =>
    case ChoiceRow =>
  }

  lemma RenamedAlias(native: Key -> Key, api: Key -> Key, aliases: set<Key>, key: Key)
    requires key in aliases <==> native(key) != key
    requires native(native(key)) == native(key) <==> native(key) !in aliases
    requires api(key) in aliases <==> native(api(key)) != api(key)
    requires native(key) != key ==> api(native(key)) == key && api(key) == key && native(native(key)) == native(key)
    requires api(key) != key ==> native(api(key)) == key && native(key) == key
    ensures IsAliasing(native, api, aliases, key)
  {}

  lemma CopyAlias(key: Key)
    ensures IsAliasing(Nativized(CopyRow), Denativized(CopyRow), Aliases(CopyRow), key)
  {}

  lemma RowAliases(kind: RowKind)
    ensures AreAliases(Nativized(kind), Denativized(kind), Aliases(kind))
  {
    forall key ensures IsAliasing(Nativized(kind), Denativized(kind), Aliases(kind), key) {
      match kind
      case ReceiptRow => ReceiptAlias(key);
      case CopyRow => CopyAlias(key);
      case _ => {
        if IsRenamed(kind, key) {
          NativeNames(kind, key);
        } else if MemberOf(kind, key) != key {
          ApiNames(kind, key);
        }
        RenamedAlias(Nativized(kind), Denativized(kind), Aliases(kind), key);
      }
    }
  }

  method ReadRows(kind: RowKind, value: Document) returns (rows: Option<Document>)
    ensures rows == RowsIn(kind, value)
  {
    if !value.Array? {
      return None;
    }
    var read := [];
    for i := 0 to |value.items|
      invariant |read| == i
      invariant forall j :: 0 <= j < i ==> RowImporter(kind)(value.items[j]) == Some(read[j])
    {
      var mapped := ReadRow(kind, value.items[i]);
      if mapped.None? {
        CollectFails(RowImporter(kind), value.items, i);
        return None;
      }
      read := read + [mapped.value];
    }
    CollectIs(RowImporter(kind), value.items, read);
    rows := Some(Array(read));
  }

  method ReadRow(kind: RowKind, entry: Document) returns (mapped: Option<Document>)
    ensures mapped == ImportRow(kind, entry)
  {
    if !entry.Object? {
      return None;
    }
    RowAliases(kind);
    var renamed := RenameMembers(Nativized(kind), Denativized(kind), Aliases(kind), entry.members);
    mapped := if renamed.None? then None else Some(Object(renamed.value));
  }

  /** A null alert is a disabled one; any other is enabled. */
  method ReadAlert(value: Document) returns (alert: Option<Document>)
    ensures alert == ImportAlert(value)
  {
    if value.Null? {
      return Some(Object(map[Enabled := Bool(false)]));
    }
    if !value.Object? || exists key :: key in value.members && !IsNativeAlertKey(key) {
      return None;
    }
    var fields := RenameAlert(value.members);
    alert := Some(Object(fields[Enabled := Bool(true)]));
  }

  lemma AlertAlias(key: Key)
    ensures IsAliasing(NativeAlertKey, AlertKey, {Title, Detail}, key)
  {}

  method RenameAlert(members: Fields) returns (fields: Fields)
    requires forall key :: key in members ==> IsNativeAlertKey(key)
    ensures fields == Renamed(AlertKey, NativeAlertKey, members)
  {
    forall key ensures IsAliasing(NativeAlertKey, AlertKey, {Title, Detail}, key) {
      AlertAlias(key);
    }
    var renamed := RenameMembers(NativeAlertKey, AlertKey, {Title, Detail}, members);
    fields := renamed.value;
  }
}

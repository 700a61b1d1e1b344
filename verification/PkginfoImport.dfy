/** ImportPkginfo: a native Munki document as a sparse patch of a package. */
module PkginfoImport {
  import opened Basics
  import opened MergePatch
  import opened PackageMutations
  import opened Packages
  import opened Pkginfo
  import opened Renaming
  import opened Strings

  // ------------------------------------------------------------------ sorted names

  /** Go's order on strings; by code point, which for UTF-8 is by byte. */
  predicate Less(a: string, b: string) {
    if b == "" then false
    else if a == "" then true
    else a[0] < b[0] || (a[0] == b[0] && Less(a[1..], b[1..]))
  }

  lemma {:induction false} LessIsTotal(a: string, b: string)
    ensures a == b || Less(a, b) || Less(b, a)
    ensures !(Less(a, b) && Less(b, a)) && (a == b ==> !Less(a, b))
  {
    if a != "" && b != "" {
      LessIsTotal(a[1..], b[1..]);
      assert a == [a[0]] + a[1..] && b == [b[0]] + b[1..];
    }
  }

  lemma {:induction false} LessIsTransitive(a: string, b: string, c: string)
    requires Less(a, b) && Less(b, c)
    ensures Less(a, c)
  {
    if a != "" && a[0] == b[0] == c[0] {
      LessIsTransitive(a[1..], b[1..], c[1..]);
    }
  }

  ghost predicate IsLeast(names: set<string>, name: string) {
    name in names && forall other :: other in names && other != name ==> Less(name, other)
  }

  lemma {:induction false} LeastExists(names: set<string>) returns (least: string)
    requires names != {}
    ensures IsLeast(names, least)
  {
    least :| least in names;
    if names != {least} {
      var rest := LeastExists(names - {least});
      LessIsTotal(least, rest);
      var some := least;
      if Less(rest, least) {
        least := rest;
      }
      forall other | other in names && other != least ensures Less(least, other) {
        if other != some && least == some {
          if other != rest {
            LessIsTransitive(least, rest, other);
          }
        }
      }
    }
  }

  /** slices.Sorted of a set of names. */
  ghost function Sorted(names: set<string>): (sorted: seq<string>)
    ensures forall name :: name in sorted <==> name in names
    ensures |sorted| == |names|
  {
    if names == {} then []
    else
      var least := Least(names);
      [least] + Sorted(names - {least})
  }

  ghost function Least(names: set<string>): (least: string)
    requires names != {}
    ensures IsLeast(names, least)
  {
    assert exists l :: IsLeast(names, l) by {
      var l := LeastExists(names);
    }
    var l :| IsLeast(names, l);
    l
  }

  lemma LeastIsUnique(names: set<string>, a: string, b: string)
    requires IsLeast(names, a) && IsLeast(names, b)
    ensures a == b
  {
    LessIsTotal(a, b);
  }

  lemma SortedStep(before: seq<string>, pending: set<string>, least: string)
    requires IsLeast(pending, least)
    ensures before + Sorted(pending) == before + [least] + Sorted(pending - {least})
  {
    LeastIsUnique(pending, least, Least(pending));
  }

  method SortNames(names: set<string>) returns (sorted: seq<string>)
    ensures sorted == Sorted(names)
  {
    sorted := [];
    var pending := names;
    while pending != {}
      invariant sorted + Sorted(pending) == Sorted(names)
      decreases pending
    {
      var least := FirstName(pending);
      SortedStep(sorted, pending, least);
      sorted := sorted + [least];
      pending := pending - {least};
    }
    assert sorted + [] == sorted;
  }

  method FirstName(names: set<string>) returns (first: string)
    requires names != {}
    ensures IsLeast(names, first)
  {
    first :| first in names;
    var pending := names - {first};
    while pending != {}
      invariant pending <= names && first in names && first !in pending
      invariant forall other :: other in names && other !in pending && other != first ==> Less(first, other)
      decreases pending
    {
      var other :| other in pending;
      pending := pending - {other};
      LessIsTotal(first, other);
      if Less(other, first) {
        forall third | third in names && third !in pending && third != first && third != other
          ensures Less(other, third)
        {
          LessIsTransitive(other, first, third);
        }
        first := other;
      }
    }
  }

  // ----------------------------------------------------------- what a value may be

  /** Decoding into []string: an array of strings, a null element being empty. */
  function StringsIn(value: Document): Option<seq<string>> {
    if !value.Array? || (exists i :: 0 <= i < |value.items| && !value.items[i].Text? && !value.items[i].Null?)
    then None
    else Some(seq(|value.items|, i requires 0 <= i < |value.items| =>
                if value.items[i].Text? then value.items[i].text else ""))
  }

  function LabelOf(key: Key): string {
    if key.Custom? then key.text else ""
  }

  function NamesOf(members: Fields): (names: set<string>) {
    set key | key in members :: LabelOf(key)
  }

  /** Objects keyed by application or variable have those names for members. */
  ghost predicate IsNamed(value: Document) {
    value.Object? ==> forall key :: key in value.members ==> key.Custom?
  }

  ghost predicate IsTree(fields: Fields) {
    (LaunchArgs in fields ==> IsNamed(fields[LaunchArgs]))
    && (InstallerEnvironment in fields ==> IsNamed(fields[InstallerEnvironment]))
  }

  // ------------------------------------------------------------------------- names

  predicate EndsInDigits(last: string) {
    last != "" && IsDigit(last[0])
  }

  /** What follows the last "--", reading from the left. */
  function AfterDashes(name: string): string
    decreases |name|
  {
    var cut := Cut(name, "--");
    if !cut.found then name else AfterDashes(cut.after)
  }

  function AfterDash(name: string): string {
    match LastIndex(name, '-') case None => name case Some(i) => name[i + 1..]
  }

  /** validateName, and that the name is not blank. */
  predicate ValidName(name: string) {
    Trim(name) != "" && '/' !in name
    && !(Cut(name, "--").found && EndsInDigits(AfterDashes(name)))
    && !('-' in name && EndsInDigits(AfterDash(name)))
  }

  /** CreateMutation.Normalize and Validate of a name; nfc is Unicode's. */
  function Identity(nfc: string -> string, name: string): Option<string> {
    var identity := nfc(Trim(name));
    if ValidName(identity) then Some(identity) else None
  }

  datatype NativeReference = NativeReference(name: string, version: string)

  function ParseReference(nfc: string -> string, reference: string): Option<NativeReference> {
    var cut := Cut(reference, "--");
    var identity := Identity(nfc, cut.before);
    if identity.None? || (cut.found && Trim(cut.after) == "") then None
    else Some(NativeReference(identity.value, Trim(cut.after)))
  }

  /** All of the results, if there are all of them. */
  function Collect<A, B>(f: A -> Option<B>, xs: seq<A>): Option<seq<B>> {
    if xs == [] then Some([])
    else
      var rest, last := Collect(f, xs[..|xs| - 1]), f(xs[|xs| - 1]);
      if rest.None? || last.None? then None else Some(rest.value + [last.value])
  }

  lemma {:induction false} CollectIs<A, B>(f: A -> Option<B>, xs: seq<A>, ys: seq<B>)
    requires |xs| == |ys|
    ensures Collect(f, xs) == Some(ys) <==> forall i :: 0 <= i < |xs| ==> f(xs[i]) == Some(ys[i])
  {
    if xs != [] {
      var n := |xs| - 1;
      CollectIs(f, xs[..n], ys[..n]);
      assert ys == ys[..n] + [ys[n]];
      var rest, last := Collect(f, xs[..n]), f(xs[n]);
      if rest.Some? && last.Some? {
        SameEnds(rest.value, last.value, ys[..n], ys[n]);
      }
    }
  }

  lemma SameEnds<T>(xs: seq<T>, x: T, ys: seq<T>, y: T)
    ensures xs + [x] == ys + [y] <==> xs == ys && x == y
  {
    if xs + [x] == ys + [y] {
      assert (xs + [x])[..|xs|] == xs && (ys + [y])[..|ys|] == ys;
      assert (xs + [x])[|xs|] == x && (ys + [y])[|ys|] == y;
    }
  }

  function Parser(nfc: string -> string): string -> Option<NativeReference> {
    reference => ParseReference(nfc, reference)
  }

  function ReferencesIn(nfc: string -> string, value: Document): Option<seq<NativeReference>> {
    match StringsIn(value)
    case None => None
    case Some(references) => Collect(Parser(nfc), references)
  }

  // ---------------------------------------------------------------- converted fields

  /** The launch arguments of an object, in the order of names. */
  function LaunchList(members: Fields, names: seq<string>): Option<seq<LaunchArguments>> {
    if names == [] then Some([])
    else
      var name := names[|names| - 1];
      var rest := LaunchList(members, names[..|names| - 1]);
      var arguments := if Custom(name) in members then StringsIn(members[Custom(name)]) else None;
      if rest.None? || arguments.None? then None
      else Some(rest.value + [LaunchArguments(name, arguments.value)])
  }

  ghost function LaunchIn(fields: Fields): Option<seq<LaunchArguments>> {
    if LaunchArgs !in fields then Some([])
    else if !fields[LaunchArgs].Object? then None
    else LaunchList(fields[LaunchArgs].members, Sorted(NamesOf(fields[LaunchArgs].members)))
  }

  function LaunchEntry(entry: LaunchArguments): Document {
    Object(map[Application := Text(entry.application), Arguments := Texts(entry.arguments)])
  }

  /** A nil slice is null, which no list field accepts. */
  function LaunchDocument(entries: seq<LaunchArguments>): Document {
    if entries == [] then Null
    else Array(seq(|entries|, i requires 0 <= i < |entries| => LaunchEntry(entries[i])))
  }

  function EnvironmentList(members: Fields, names: seq<string>): Option<seq<Variable>> {
    if names == [] then Some([])
    else
      var name := names[|names| - 1];
      var rest := EnvironmentList(members, names[..|names| - 1]);
      if rest.None? || Custom(name) !in members || !members[Custom(name)].Text? then None
      else Some(rest.value + [Variable(name, members[Custom(name)].text)])
  }

  ghost function EnvironmentIn(value: Document): Option<seq<Variable>> {
    if !value.Object? then None else EnvironmentList(value.members, Sorted(NamesOf(value.members)))
  }

  function EnvironmentEntry(variable: Variable): Document {
    Object(map[VariableName := Text(variable.name), VariableValue := Text(variable.value)])
  }

  function EnvironmentDocument(variables: seq<Variable>): Document {
    Array(seq(|variables|, i requires 0 <= i < |variables| => EnvironmentEntry(variables[i])))
  }

  /** An entry of a list with its members renamed, unless it has an API name. */
  function ImportRow(kind: RowKind, entry: Document): Option<Document> {
    if !entry.Object? || (exists key :: key in entry.members && IsRenamed(kind, key)) then None
    else Some(Object(Renamed(Denativized(kind), Nativized(kind), entry.members)))
  }

  function RowImporter(kind: RowKind): Document -> Option<Document> {
    entry => ImportRow(kind, entry)
  }

  function RowsIn(kind: RowKind, value: Document): Option<Document> {
    if !value.Array? then None
    else match Collect(RowImporter(kind), value.items) case None => None case Some(rows) => Some(Array(rows))
  }

  predicate IsNativeAlertKey(key: Key) {
    key.NativeTitle? || key.NativeDetail? || key.OKLabel? || key.CancelLabel?
  }

  function ImportAlert(value: Document): Option<Document> {
    if value == Null then Some(Object(map[Enabled := Bool(false)]))
    else if !value.Object? || exists key :: key in value.members && !IsNativeAlertKey(key) then None
    else Some(Object(Renamed(AlertKey, NativeAlertKey, value.members)[Enabled := Bool(true)]))
  }

  // ------------------------------------------------------------- what is importable

  predicate IsNonblank(fields: Fields, key: Key) {
    key in fields && fields[key].Text? && Trim(fields[key].text) != ""
  }

  predicate NameFits(nfc: string -> string, fields: Fields) {
    Name in fields && fields[Name].Text? && Identity(nfc, fields[Name].text).Some?
  }

  /** None of the names that only the API has. */
  predicate HasNoApiNames(fields: Fields) {
    RestartAction !in fields && RestartActionForUninstall !in fields && OnDemand !in fields
    && BlockingApplicationsNone !in fields && InstallerObjectID !in fields
  }

  /** No repository configuration. */
  predicate HasNoRepositoryNames(fields: Fields) {
    Catalogs !in fields && IconName !in fields && IconHash !in fields
  }

  predicate NamesAreNative(fields: Fields) {
    HasNoApiNames(fields) && HasNoRepositoryNames(fields)
  }

  predicate VersionFits(fields: Fields) {
    IsNonblank(fields, Version) && (InstallerType in fields ==> IsNonblank(fields, InstallerType))
  }

  ghost predicate BlockingFits(fields: Fields) {
    LaunchIn(fields).Some? && (BlockingApplications in fields ==> StringsIn(fields[BlockingApplications]).Some?)
  }

  predicate ReferencesFit(nfc: string -> string, fields: Fields) {
    (Requires in fields ==> ReferencesIn(nfc, fields[Requires]).Some?)
    && (UpdateFor in fields ==> ReferencesIn(nfc, fields[UpdateFor]).Some?)
  }

  predicate RowsFit(fields: Fields) {
    (Receipts in fields ==> RowsIn(ReceiptRow, fields[Receipts]).Some?)
    && (Installs in fields ==> RowsIn(InstallRow, fields[Installs]).Some?)
    && (InstallerChoicesXML in fields ==> RowsIn(ChoiceRow, fields[InstallerChoicesXML]).Some?)
  }

  ghost predicate EnvironmentFits(fields: Fields) {
    InstallerEnvironment in fields ==> EnvironmentIn(fields[InstallerEnvironment]).Some?
  }

  predicate AlertsFit(fields: Fields) {
    (PreinstallAlert in fields ==> ImportAlert(fields[PreinstallAlert]).Some?)
    && (PreuninstallAlert in fields ==> ImportAlert(fields[PreuninstallAlert]).Some?)
  }

  predicate InstallerFits(fields: Fields) {
    (InstallerItemLocation in fields ==> fields[InstallerItemLocation].Text?)
    && (InstallerItemHash in fields ==> IsNonblank(fields, InstallerItemHash))
    && (InstallerItemSize in fields ==> NumberIn(fields[InstallerItemSize]).GetOr(-1) >= 0)
  }

  /** Null decodes as a nil map, which encodes as null again. */
  predicate AreMaps(value: Document) {
    value.Array? && forall i :: 0 <= i < |value.items| ==> value.items[i].Object? || value.items[i].Null?
  }

  function RemovalOf(copy: Document): Document {
    if copy.Object? then Removal(copy.members) else copy
  }

  /** Items to remove are exactly the copied items that remove_copied_items manages. */
  predicate RemovalsFit(fields: Fields) {
    ItemsToRemove in fields ==>
      AreMaps(fields[ItemsToRemove])
      && ItemsToCopy in fields && AreMaps(fields[ItemsToCopy])
      && |fields[ItemsToRemove].items| == |fields[ItemsToCopy].items|
      && (forall i :: 0 <= i < |fields[ItemsToCopy].items| ==>
            RemovalOf(fields[ItemsToCopy].items[i]) == fields[ItemsToRemove].items[i])
      && Field(fields, UninstallMethod) == Some(Text(REMOVE_COPIED_ITEMS))
  }

  predicate SoftwareFits(fields: Fields) {
    forall key :: key in fields && IsSoftware(key) ==> fields[key].Text? || fields[key].Null?
  }

  ghost predicate Importable(nfc: string -> string, fields: Fields) {
    NameFits(nfc, fields) && NamesAreNative(fields) && VersionFits(fields) && BlockingFits(fields)
    && ReferencesFit(nfc, fields) && RowsFit(fields) && EnvironmentFits(fields) && AlertsFit(fields)
    && InstallerFits(fields) && RemovalsFit(fields) && SoftwareFits(fields)
  }

  // --------------------------------------------------------------- what is imported

  predicate IsConsumed(key: Key) {
    key.Name? || IsSoftware(key) || key.NativeRestartAction? || key.NativeRestartActionForUninstall?
    || key.NativeOnDemand? || key.Requires? || key.UpdateFor? || key.InstallerItemLocation?
    || key.InstallerItemHash? || key.InstallerItemSize? || key.ItemsToRemove?
  }

  /** Without blockers Munki infers them; an empty list means none. */
  ghost function ImportedNone(fields: Fields): Option<Document> {
    var launch := LaunchIn(fields).GetOr([]);
    if BlockingApplications in fields then
      Some(Bool(StringsIn(fields[BlockingApplications]).GetOr([]) == [] && launch == []))
    else if launch != [] then Some(Bool(false))
    else None
  }

  function Rows(kind: RowKind, field: Option<Document>): Option<Document> {
    if field.None? then None else RowsIn(kind, field.value)
  }

  function ImportedAlert(field: Option<Document>): Option<Document> {
    if field.None? then None else ImportAlert(field.value)
  }

  predicate IsConverted(key: Key) {
    key.RestartAction? || key.RestartActionForUninstall? || key.OnDemand? || key.InstallerType?
    || key.BlockingApplicationsNone? || key.LaunchArgs? || key.Receipts? || key.Installs?
    || key.InstallerChoicesXML? || key.InstallerEnvironment? || key.PreinstallAlert? || key.PreuninstallAlert?
  }

  ghost function Converted(fields: Fields, key: Key): Option<Document>
    requires IsConverted(key)
  {
    match key
    case RestartAction =>
      // Native None after installation is the API's absent action.
      if Field(fields, NativeRestartAction) == Some(Text("None")) then Some(Null)
      else Field(fields, NativeRestartAction)
    case RestartActionForUninstall => Field(fields, NativeRestartActionForUninstall)
    case OnDemand => Field(fields, NativeOnDemand)
    case InstallerType =>
      if InstallerType in fields then Field(fields, InstallerType) else Some(Text(INSTALLER_TYPE_PKG))
    case BlockingApplicationsNone => ImportedNone(fields)
    case LaunchArgs =>
      if LaunchArgs in fields then Some(LaunchDocument(LaunchIn(fields).GetOr([]))) else None
    case Receipts => Rows(ReceiptRow, Field(fields, Receipts))
    case Installs => Rows(InstallRow, Field(fields, Installs))
    case InstallerChoicesXML => Rows(ChoiceRow, Field(fields, InstallerChoicesXML))
    case InstallerEnvironment =>
      if InstallerEnvironment in fields
      then Some(EnvironmentDocument(EnvironmentIn(fields[InstallerEnvironment]).GetOr([]))) else None
    case PreinstallAlert => ImportedAlert(Field(fields, PreinstallAlert))
    case PreuninstallAlert => ImportedAlert(Field(fields, PreuninstallAlert))
  }

  /** Each field of the patch. */
  ghost function Imported(fields: Fields, key: Key): Option<Document> {
    if IsConverted(key) then Converted(fields, key)
    else if IsConsumed(key) then None
    else Field(fields, key)
  }

  // Imported, key by key.

  lemma ImportedAsIs(fields: Fields, key: Key)
    requires !IsConverted(key) && !IsConsumed(key)
    ensures Imported(fields, key) == Field(fields, key)
  {}

  lemma ImportedRestarts(fields: Fields)
    ensures Imported(fields, RestartAction) ==
      if Field(fields, NativeRestartAction) == Some(Text("None")) then Some(Null)
      else Field(fields, NativeRestartAction)
    ensures Imported(fields, RestartActionForUninstall) == Field(fields, NativeRestartActionForUninstall)
  {}

  lemma ImportedInstallerType(fields: Fields)
    ensures Imported(fields, InstallerType) ==
      if InstallerType in fields then Field(fields, InstallerType) else Some(Text(INSTALLER_TYPE_PKG))
  {}

  lemma ImportedOnDemand(fields: Fields)
    ensures Imported(fields, OnDemand) == Field(fields, NativeOnDemand)
  {}

  lemma ImportedRows(fields: Fields)
    ensures Imported(fields, InstallerChoicesXML) == Rows(ChoiceRow, Field(fields, InstallerChoicesXML))
    ensures Imported(fields, Installs) == Rows(InstallRow, Field(fields, Installs))
    ensures Imported(fields, Receipts) == Rows(ReceiptRow, Field(fields, Receipts))
  {}

  lemma ImportedAlerts(fields: Fields)
    ensures Imported(fields, PreinstallAlert) == ImportedAlert(Field(fields, PreinstallAlert))
    ensures Imported(fields, PreuninstallAlert) == ImportedAlert(Field(fields, PreuninstallAlert))
  {}

  lemma ImportedLaunch(fields: Fields)
    ensures Imported(fields, BlockingApplicationsNone) == ImportedNone(fields)
    ensures Imported(fields, LaunchArgs) ==
      if LaunchArgs in fields then Some(LaunchDocument(LaunchIn(fields).GetOr([]))) else None
  {}

  lemma ImportedEnvironmentIs(fields: Fields)
    ensures Imported(fields, InstallerEnvironment) ==
      if InstallerEnvironment in fields
      then Some(EnvironmentDocument(EnvironmentIn(fields[InstallerEnvironment]).GetOr([]))) else None
  {}

  lemma ConsumedIsNotConverted(key: Key)
    requires IsConsumed(key)
    ensures !IsConverted(key)
  {}

  lemma ConsumedIsNothing(fields: Fields, key: Key)
    requires IsConsumed(key)
    ensures Imported(fields, key) == None
  {
    ConsumedIsNotConverted(key);
  }

  ghost predicate PatchesField(fields: Fields, patch: Fields, key: Key) {
    Field(patch, key) == Imported(fields, key)
  }

  /** A document with exactly the imported fields. */
  ghost predicate IsPatch(fields: Fields, patch: Fields) {
    forall key :: PatchesField(fields, patch, key)
  }

  ghost predicate PatchFits(parseTime: string -> Option<string>, fields: Fields) {
    forall key :: Imported(fields, key).Some? ==> AcceptsField(parseTime, key, Imported(fields, key).value)
  }

  datatype Import = Import(
    name: string,
    software: Fields,
    package: Fields,
    requirements: Option<seq<NativeReference>>,
    updateFor: Option<seq<NativeReference>>,
    installerItemHash: string)

  function ReferencesOf(nfc: string -> string, field: Option<Document>): Option<seq<NativeReference>> {
    if field.None? then None else ReferencesIn(nfc, field.value)
  }

  function HashIn(fields: Fields): string {
    if InstallerItemHash in fields && fields[InstallerItemHash].Text? then fields[InstallerItemHash].text else ""
  }

  /** What an accepted document is imported as. */
  ghost predicate IsImport(nfc: string -> string, fields: Fields, imported: Import) {
    NameFits(nfc, fields) && imported.name == Identity(nfc, fields[Name].text).value
    && (forall key :: Field(imported.software, key) == (if IsSoftware(key) then Field(fields, key) else None))
    && IsPatch(fields, imported.package)
    && imported.requirements == ReferencesOf(nfc, Field(fields, Requires))
    && imported.updateFor == ReferencesOf(nfc, Field(fields, UpdateFor))
    && imported.installerItemHash == HashIn(fields)
  }
}

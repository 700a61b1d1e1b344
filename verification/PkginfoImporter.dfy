/** ImportPkginfo as the server runs it: one map of fields, rewritten step by step. */
module PkginfoImporter {
  import opened Basics
  import opened MergePatch
  import opened PackageMutations
  import opened Packages
  import opened Pkginfo
  import opened PkginfoImport
  import opened PkginfoValues
  import opened Renaming
  import opened Strings

  // ------------------------------------------------------------- what each step settles

  /** The step of ImportPkginfo that settles a field; 0 where none touches it. */
  function StepOf(key: Key): nat {
    match key
    case Name => 1
    case DisplayName => 1
    case Description => 1
    case Category => 1
    case Developer => 1
    case RestartAction => 2
    case RestartActionForUninstall => 2
    case OnDemand => 2
    case NativeRestartAction => 2
    case NativeRestartActionForUninstall => 2
    case NativeOnDemand => 2
    case InstallerType => 3
    case LaunchArgs => 4
    case BlockingApplicationsNone => 4
    case Requires => 5
    case UpdateFor => 5
    case Receipts => 6
    case Installs => 6
    case InstallerChoicesXML => 6
    case InstallerEnvironment => 7
    case PreinstallAlert => 8
    case PreuninstallAlert => 8
    case InstallerItemLocation => 9
    case InstallerItemHash => 9
    case InstallerItemSize => 9
    case ItemsToRemove => 9
    case _ => 0
  }

  const LAST_STEP := 9

  ghost predicate IsSettled(document: Fields, n: nat, fields: Fields, key: Key) {
    Field(fields, key) == if StepOf(key) <= n then Imported(document, key) else Field(document, key)
  }

  /** The fields after n steps on a document. */
  ghost predicate HasRun(document: Fields, n: nat, fields: Fields) {
    forall key :: IsSettled(document, n, fields, key)
  }

  ghost predicate IsKept(before: Fields, after: Fields, n: nat, key: Key) {
    StepOf(key) == n || Field(after, key) == Field(before, key)
  }

  /** The step changed only its own fields. */
  ghost predicate OnlyStep(before: Fields, after: Fields, n: nat) {
    forall key :: IsKept(before, after, n, key)
  }

  ghost predicate IsImported(document: Fields, after: Fields, n: nat, key: Key) {
    StepOf(key) == n ==> Field(after, key) == Imported(document, key)
  }

  lemma UntouchedIsImported(document: Fields, key: Key)
    requires StepOf(key) == 0
    ensures Imported(document, key) == Field(document, key)
  {
    UntouchedKeys(key);
    ImportedAsIs(document, key);
  }

  lemma ConvertedKeys(key: Key)
    requires IsConverted(key)
    ensures StepOf(key) > 0
  {}

  lemma ConsumedKeys(key: Key)
    requires IsConsumed(key)
    ensures StepOf(key) > 0
  {
    if IsSoftware(key) {
      SoftwareKeySteps(key);
    }
  }

  lemma SoftwareKeySteps(key: Key)
    requires IsSoftware(key)
    ensures StepOf(key) == 1
  {}

  lemma UntouchedKeys(key: Key)
    requires StepOf(key) == 0
    ensures !IsConverted(key) && !IsConsumed(key)
  {
    if IsConverted(key) {
      ConvertedKeys(key);
    } else if IsConsumed(key) {
      ConsumedKeys(key);
    }
  }

  lemma NothingHasRun(document: Fields)
    ensures HasRun(document, 0, document)
  {
    forall key ensures IsSettled(document, 0, document, key) {
      if StepOf(key) == 0 {
        UntouchedIsImported(document, key);
      }
    }
  }

  /** A field that no earlier step touched. */
  lemma Unsettled(document: Fields, n: nat, fields: Fields, key: Key)
    requires HasRun(document, n, fields) && (StepOf(key) > n || StepOf(key) == 0)
    ensures Field(fields, key) == Field(document, key)
  {
    assert IsSettled(document, n, fields, key);
    if StepOf(key) == 0 {
      UntouchedIsImported(document, key);
    }
  }

  lemma StepHasRun(document: Fields, n: nat, before: Fields, after: Fields)
    requires n > 0 && HasRun(document, n - 1, before)
    requires OnlyStep(before, after, n)
    requires forall key :: IsImported(document, after, n, key)
    ensures HasRun(document, n, after)
  {
    forall key ensures IsSettled(document, n, after, key) {
      assert IsSettled(document, n - 1, before, key);
      assert IsKept(before, after, n, key);
      assert IsImported(document, after, n, key);
    }
  }

  lemma AllHasRun(document: Fields, fields: Fields)
    requires HasRun(document, LAST_STEP, fields)
    ensures IsPatch(document, fields)
  {
    forall key ensures PatchesField(document, fields, key) {
      assert IsSettled(document, LAST_STEP, fields, key);
    }
  }

  lemma KeysOfStep(key: Key)
    ensures StepOf(key) == 1 ==> key.Name? || key.DisplayName? || key.Description? || key.Category? || key.Developer?
    ensures StepOf(key) == 2 ==>
      key.RestartAction? || key.RestartActionForUninstall? || key.OnDemand? || key.NativeRestartAction?
      || key.NativeRestartActionForUninstall? || key.NativeOnDemand?
    ensures StepOf(key) == 3 ==> key.InstallerType?
    ensures StepOf(key) == 4 ==> key.LaunchArgs? || key.BlockingApplicationsNone?
    ensures StepOf(key) == 5 ==> key.Requires? || key.UpdateFor?
    ensures StepOf(key) == 6 ==> key.Receipts? || key.Installs? || key.InstallerChoicesXML?
    ensures StepOf(key) == 7 ==> key.InstallerEnvironment?
    ensures StepOf(key) == 8 ==> key.PreinstallAlert? || key.PreuninstallAlert?
    ensures StepOf(key) == 9 ==>
      key.InstallerItemLocation? || key.InstallerItemHash? || key.InstallerItemSize? || key.ItemsToRemove?
    ensures StepOf(key) <= LAST_STEP
  {}

  lemma FirstStepSettles(document: Fields, after: Fields)
    requires Field(after, Name) == None
    requires forall key :: IsSoftware(key) ==> Field(after, key) == None
    ensures forall key :: IsImported(document, after, 1, key)
  {
    forall key | StepOf(key) == 1 ensures IsImported(document, after, 1, key) {
      FirstKey(key);
      ConsumedIsNothing(document, key);
    }
  }

  lemma FirstKey(key: Key)
    requires StepOf(key) == 1
    ensures (key.Name? || IsSoftware(key)) && IsConsumed(key)
  {}

  lemma NamesStepSettles(document: Fields, after: Fields)
    requires Field(after, NativeRestartAction) == None && Field(after, NativeRestartActionForUninstall) == None
    requires Field(after, NativeOnDemand) == None
    requires Field(after, RestartAction) ==
      if Field(document, NativeRestartAction) == Some(Text("None")) then Some(Null)
      else Field(document, NativeRestartAction)
    requires Field(after, RestartActionForUninstall) == Field(document, NativeRestartActionForUninstall)
    requires Field(after, OnDemand) == Field(document, NativeOnDemand)
    ensures forall key :: IsImported(document, after, 2, key)
  {
    ImportedRestarts(document);
    ImportedOnDemand(document);
    ConsumedIsNothing(document, NativeRestartAction);
    ConsumedIsNothing(document, NativeRestartActionForUninstall);
    ConsumedIsNothing(document, NativeOnDemand);
    forall key | StepOf(key) == 2 ensures IsImported(document, after, 2, key) {
      KeysOfStep(key);
    }
  }

  lemma TypeStepSettles(document: Fields, after: Fields)
    requires Field(after, InstallerType) ==
      if InstallerType in document then Field(document, InstallerType) else Some(Text(INSTALLER_TYPE_PKG))
    ensures forall key :: IsImported(document, after, 3, key)
  {
    ImportedInstallerType(document);
    forall key | StepOf(key) == 3 ensures IsImported(document, after, 3, key) {
      KeysOfStep(key);
    }
  }

  lemma BlockingStepSettles(document: Fields, after: Fields)
    requires Field(after, BlockingApplicationsNone) == ImportedNone(document)
    requires Field(after, LaunchArgs) ==
      if LaunchArgs in document then Some(LaunchDocument(LaunchIn(document).GetOr([]))) else None
    ensures forall key :: IsImported(document, after, 4, key)
  {
    ImportedLaunch(document);
    forall key | StepOf(key) == 4 ensures IsImported(document, after, 4, key) {
      KeysOfStep(key);
    }
  }

  lemma ReferencesStepSettles(document: Fields, after: Fields)
    requires Field(after, Requires) == None && Field(after, UpdateFor) == None
    ensures forall key :: IsImported(document, after, 5, key)
  {
    ConsumedIsNothing(document, Requires);
    ConsumedIsNothing(document, UpdateFor);
    forall key | StepOf(key) == 5 ensures IsImported(document, after, 5, key) {
      KeysOfStep(key);
    }
  }

  lemma ListsStepSettles(document: Fields, after: Fields)
    requires Field(after, Receipts) == Rows(ReceiptRow, Field(document, Receipts))
    requires Field(after, Installs) == Rows(InstallRow, Field(document, Installs))
    requires Field(after, InstallerChoicesXML) == Rows(ChoiceRow, Field(document, InstallerChoicesXML))
    ensures forall key :: IsImported(document, after, 6, key)
  {
    ImportedRows(document);
    forall key | StepOf(key) == 6 ensures IsImported(document, after, 6, key) {
      KeysOfStep(key);
    }
  }

  lemma EnvironmentStepSettles(document: Fields, after: Fields)
    requires Field(after, InstallerEnvironment) ==
      if InstallerEnvironment in document
      then Some(EnvironmentDocument(EnvironmentIn(document[InstallerEnvironment]).GetOr([]))) else None
    ensures forall key :: IsImported(document, after, 7, key)
  {
    ImportedEnvironmentIs(document);
    forall key | StepOf(key) == 7 ensures IsImported(document, after, 7, key) {
      KeysOfStep(key);
    }
  }

  lemma AlertsStepSettles(document: Fields, after: Fields)
    requires Field(after, PreinstallAlert) == ImportedAlert(Field(document, PreinstallAlert))
    requires Field(after, PreuninstallAlert) == ImportedAlert(Field(document, PreuninstallAlert))
    ensures forall key :: IsImported(document, after, 8, key)
  {
    ImportedAlerts(document);
    forall key | StepOf(key) == 8 ensures IsImported(document, after, 8, key) {
      KeysOfStep(key);
    }
  }

  lemma ObjectsStepSettles(document: Fields, after: Fields)
    requires Field(after, InstallerItemLocation) == None && Field(after, InstallerItemHash) == None
    requires Field(after, InstallerItemSize) == None && Field(after, ItemsToRemove) == None
    ensures forall key :: IsImported(document, after, 9, key)
  {
    ConsumedIsNothing(document, InstallerItemLocation);
    ConsumedIsNothing(document, InstallerItemHash);
    ConsumedIsNothing(document, InstallerItemSize);
    ConsumedIsNothing(document, ItemsToRemove);
    forall key | StepOf(key) == 9 ensures IsImported(document, after, 9, key) {
      KeysOfStep(key);
    }
  }

  function SoftwareKeys(): (keys: set<Key>)
    ensures forall key :: key in keys <==> IsSoftware(key)
  {
    {DisplayName, Description, Category, Developer}
  }

  lemma KeptBut(before: Fields, after: Fields, from: Key, to: Key)
    requires StepOf(from) == StepOf(to)
    requires forall other :: other != from && other != to ==> Field(after, other) == Field(before, other)
    ensures OnlyStep(before, after, StepOf(from))
  {
    forall key ensures IsKept(before, after, StepOf(from), key) {
      if StepOf(key) != StepOf(from) {
        assert key != from && key != to;
      }
    }
  }

  lemma FieldIsRenamed(before: Fields, from: Key, to: Key, after: Fields)
    requires from != to && Field(before, to) == None
    requires after == if from in before then before[to := before[from]] - {from} else before
    ensures Field(after, to) == Field(before, from) && Field(after, from) == None
    ensures forall other :: other != from && other != to ==> Field(after, other) == Field(before, other)
  {}

  lemma StillOnly(before: Fields, between: Fields, after: Fields, n: nat)
    requires OnlyStep(before, between, n) && OnlyStep(between, after, n)
    ensures OnlyStep(before, after, n)
  {
    forall key ensures IsKept(before, after, n, key) {
      assert IsKept(before, between, n, key) && IsKept(between, after, n, key);
    }
  }

  lemma SameIsKept(fields: Fields, n: nat)
    ensures OnlyStep(fields, fields, n)
  {}

  // ------------------------------------------------------------------- single fields

  lemma SameField(a: Fields, b: Fields, key: Key)
    requires Field(a, key) == Field(b, key)
    ensures (key in a <==> key in b) && (key in a ==> a[key] == b[key])
  {}

  method LaunchOf(fields: Fields) returns (launch: Option<seq<LaunchArguments>>)
    requires LaunchArgs in fields ==> IsNamed(fields[LaunchArgs])
    ensures launch == LaunchIn(fields)
  {
    if LaunchArgs !in fields {
      return Some([]);
    }
    if !fields[LaunchArgs].Object? {
      return None;
    }
    launch := ReadLaunch(fields[LaunchArgs].members);
  }

  ghost predicate IsNone(launch: seq<LaunchArguments>, blocking: Option<Document>, none: Option<Document>)
    requires blocking.Some? ==> StringsIn(blocking.value).Some?
  {
    none == if blocking.Some? then Some(Bool(StringsIn(blocking.value).value == [] && launch == []))
            else if launch != [] then Some(Bool(false)) else None
  }

  /** Whether there are explicitly no blocking applications. */
  method NoneOf(launch: seq<LaunchArguments>, blocking: Option<Document>) returns (ok: bool, none: Option<Document>)
    ensures ok <==> (blocking.Some? ==> StringsIn(blocking.value).Some?)
    ensures ok ==> IsNone(launch, blocking, none)
  {
    if blocking.Some? {
      var applications := ReadTexts(blocking.value);
      if applications.None? {
        return false, None;
      }
      return true, Some(Bool(|applications.value| == 0 && |launch| == 0));
    }
    ok := true;
    none := if |launch| > 0 then Some(Bool(false)) else None;
  }

  lemma NoneIsImported(document: Fields, launch: seq<LaunchArguments>, none: Option<Document>)
    requires LaunchIn(document) == Some(launch)
    requires var blocking := Field(document, BlockingApplications);
      (blocking.Some? ==> StringsIn(blocking.value).Some?) && IsNone(launch, blocking, none)
    ensures BlockingFits(document) && none == ImportedNone(document)
  {}

  predicate ReferenceFits(nfc: string -> string, field: Option<Document>) {
    field.Some? ==> ReferencesIn(nfc, field.value).Some?
  }

  lemma ReferenceFields(nfc: string -> string, document: Fields)
    ensures ReferencesFit(nfc, document) <==>
      ReferenceFits(nfc, Field(document, Requires)) && ReferenceFits(nfc, Field(document, UpdateFor))
  {}

  method ReadReferenceField(nfc: string -> string, field: Option<Document>)
    returns (ok: bool, references: Option<seq<NativeReference>>)
    ensures ok <==> ReferenceFits(nfc, field)
    ensures ok ==> references == ReferencesOf(nfc, field)
  {
    if field.None? {
      return true, None;
    }
    references := ReadReferences(nfc, field.value);
    ok := references.Some?;
  }

  method ReadRowsField(kind: RowKind, field: Option<Document>) returns (ok: bool, rows: Option<Document>)
    ensures ok <==> (field.Some? ==> RowsIn(kind, field.value).Some?)
    ensures ok ==> rows == Rows(kind, field) && (rows.Some? <==> field.Some?)
  {
    if field.None? {
      return true, None;
    }
    rows := ReadRows(kind, field.value);
    ok := rows.Some?;
  }

  ghost predicate IsEnvironment(field: Option<Document>, variables: Option<Document>) {
    variables == if field.Some? then Some(EnvironmentDocument(EnvironmentIn(field.value).GetOr([]))) else None
  }

  method ReadEnvironmentField(field: Option<Document>) returns (ok: bool, variables: Option<Document>)
    requires field.Some? ==> IsNamed(field.value)
    ensures ok <==> (field.Some? ==> EnvironmentIn(field.value).Some?)
    ensures ok ==> IsEnvironment(field, variables)
  {
    if field.None? {
      return true, None;
    }
    if !field.value.Object? {
      return false, None;
    }
    var read := ReadEnvironment(field.value.members);
    ok := read.Some?;
    variables := Some(EnvironmentDocument(read.GetOr([])));
  }

  predicate AlertFits(field: Option<Document>) {
    field.Some? ==> ImportAlert(field.value).Some?
  }

  lemma AlertFieldsFit(document: Fields)
    ensures AlertsFit(document) <==>
      AlertFits(Field(document, PreinstallAlert)) && AlertFits(Field(document, PreuninstallAlert))
  {}

  method ReadAlertField(field: Option<Document>) returns (ok: bool, alert: Option<Document>)
    ensures ok <==> AlertFits(field)
    ensures ok ==> alert == ImportedAlert(field) && (alert.Some? <==> field.Some?)
  {
    if field.None? {
      return true, None;
    }
    alert := ReadAlert(field.value);
    ok := alert.Some?;
  }

  method RemovalsOf(copies: seq<Document>) returns (removals: seq<Document>)
    ensures |removals| == |copies| && forall i :: 0 <= i < |copies| ==> removals[i] == RemovalOf(copies[i])
  {
    removals := [];
    for i := 0 to |copies|
      invariant |removals| == i && forall j :: 0 <= j < i ==> removals[j] == RemovalOf(copies[j])
    {
      var removal := copies[i];
      if removal.Object? {
        var kept := KeepOnly(removal.members, {SourceItem, DestinationPath, DestinationItem});
        RemovalIs(removal.members, kept);
        removal := Object(kept);
      }
      removals := removals + [removal];
    }
  }

  lemma RemovalIs(row: Fields, kept: Fields)
    requires kept == map key | key in row && key in {SourceItem, DestinationPath, DestinationItem} :: row[key]
    ensures Removal(row) == Object(kept)
  {
    assert Removal(row).members == kept;
  }

  /** importPkginfoRemovals. */
  method ReadRemovals(fields: Fields) returns (ok: bool)
    ensures ok <==> RemovalsFit(fields)
  {
    if ItemsToRemove !in fields {
      return true;
    }
    if !AreMaps(fields[ItemsToRemove]) || ItemsToCopy !in fields || !AreMaps(fields[ItemsToCopy]) {
      return false;
    }
    var removals := RemovalsOf(fields[ItemsToCopy].items);
    RemovalsAgree(removals, fields[ItemsToCopy].items, fields[ItemsToRemove].items);
    ok := removals == fields[ItemsToRemove].items && Field(fields, UninstallMethod) == Some(Text(REMOVE_COPIED_ITEMS));
  }

  lemma RemovalsAgree(removals: seq<Document>, copies: seq<Document>, items: seq<Document>)
    requires |removals| == |copies| && forall i :: 0 <= i < |copies| ==> removals[i] == RemovalOf(copies[i])
    ensures removals == items <==>
      |items| == |copies| && forall i :: 0 <= i < |copies| ==> RemovalOf(copies[i]) == items[i]
  {}

  // ------------------------------------------------------------------------ the steps

  class Importer {
    var fields: Fields

    constructor (document: Fields)
      ensures fields == document
    {
      fields := document;
    }

    method Put(key: Key, value: Document)
      modifies this
      ensures Field(fields, key) == Some(value)
      ensures forall other :: other != key ==> Field(fields, other) == Field(old(fields), other)
      ensures OnlyStep(old(fields), fields, StepOf(key))
    {
      fields := fields[key := value];
      KeptBut(old(fields), fields, key, key);
    }

    method Drop(key: Key)
      modifies this
      ensures Field(fields, key) == None
      ensures forall other :: other != key ==> Field(fields, other) == Field(old(fields), other)
      ensures OnlyStep(old(fields), fields, StepOf(key))
    {
      fields := fields - {key};
      KeptBut(old(fields), fields, key, key);
    }

    /** renamePkginfoField of a name the document does not have yet. */
    method Rename(from: Key, to: Key)
      requires from != to && Field(fields, to) == None && StepOf(from) == StepOf(to)
      modifies this
      ensures Field(fields, to) == Field(old(fields), from) && Field(fields, from) == None
      ensures forall other :: other != from && other != to ==> Field(fields, other) == Field(old(fields), other)
      ensures OnlyStep(old(fields), fields, StepOf(from))
    {
      ghost var before := fields;
      if from in fields {
        fields := fields[to := fields[from]];
        fields := fields - {from};
      }
      FieldIsRenamed(before, from, to, fields);
      KeptBut(before, fields, from, to);
    }

    /** The name identifies the software, and its other fields are the software's. */
    method ReadIdentity(nfc: string -> string, ghost document: Fields) returns (name: Option<string>, software: Fields)
      requires fields == document
      modifies this
      ensures name.Some? <==> NameFits(nfc, document)
      ensures name.Some? ==> name == Identity(nfc, document[Name].text) && HasRun(document, 1, fields)
      ensures name.Some? ==>
        forall key :: Field(software, key) == if IsSoftware(key) then Field(document, key) else None
    {
      software := map[];
      if Name !in fields || !fields[Name].Text? {
        return None, map[];
      }
      name := Identity(nfc, fields[Name].text);
      if name.None? {
        return;
      }
      Drop(Name);
      software := TakeSoftware();
      NothingHasRun(document);
      FirstStepSettles(document, fields);
      forall key ensures IsKept(document, fields, 1, key) {
        if StepOf(key) != 1 {
          SoftwareStep(key);
        }
      }
      StepHasRun(document, 1, document, fields);
    }

    method TakeSoftware() returns (software: Fields)
      modifies this
      ensures forall key :: Field(software, key) == if IsSoftware(key) then Field(old(fields), key) else None
      ensures forall key :: Field(fields, key) == if IsSoftware(key) then None else Field(old(fields), key)
    {
      var names := SoftwareKeys();
      var rest: Fields;
      software, rest := TakeFields(fields, names);
      SoftwareTaken(fields, names, software, rest);
      fields := rest;
    }

    /** Native names only; None after installation is no action. */
    method ReadNames(ghost document: Fields) returns (ok: bool)
      requires HasRun(document, 1, fields)
      modifies this
      ensures ok <==> HasNoApiNames(document)
      ensures ok ==> HasRun(document, 2, fields)
    {
      ghost var before := fields;
      ApiNamesUnsettled(document, fields);
      if RestartAction in fields || RestartActionForUninstall in fields || OnDemand in fields
         || BlockingApplicationsNone in fields || InstallerObjectID in fields
      {
        return false;
      }
      RenameActions(document);
      NamesStepSettles(document, fields);
      StepHasRun(document, 2, before, fields);
      ok := true;
    }

    method RenameActions(ghost document: Fields)
      requires Field(fields, NativeRestartAction) == Field(document, NativeRestartAction)
      requires Field(fields, NativeRestartActionForUninstall) == Field(document, NativeRestartActionForUninstall)
      requires Field(fields, NativeOnDemand) == Field(document, NativeOnDemand)
      requires Field(fields, RestartAction) == None && Field(fields, RestartActionForUninstall) == None
      requires Field(fields, OnDemand) == None
      modifies this
      ensures Field(fields, NativeRestartAction) == None && Field(fields, NativeRestartActionForUninstall) == None
      ensures Field(fields, NativeOnDemand) == None
      ensures Field(fields, RestartAction) ==
        if Field(document, NativeRestartAction) == Some(Text("None")) then Some(Null)
        else Field(document, NativeRestartAction)
      ensures Field(fields, RestartActionForUninstall) == Field(document, NativeRestartActionForUninstall)
      ensures Field(fields, OnDemand) == Field(document, NativeOnDemand)
      ensures OnlyStep(old(fields), fields, 2)
    {
      if Field(fields, NativeRestartAction) == Some(Text("None")) {
        Put(NativeRestartAction, Null);
      } else {
        SameIsKept(fields, 2);
      }
      ghost var after := fields;
      Rename(NativeRestartAction, RestartAction);
      StillOnly(old(fields), after, fields, 2);
      after := fields;
      RenameOthers();
      StillOnly(old(fields), after, fields, 2);
    }

    method RenameOthers()
      requires Field(fields, RestartActionForUninstall) == None && Field(fields, OnDemand) == None
      modifies this
      ensures Field(fields, RestartActionForUninstall) == Field(old(fields), NativeRestartActionForUninstall)
      ensures Field(fields, OnDemand) == Field(old(fields), NativeOnDemand)
      ensures Field(fields, NativeRestartActionForUninstall) == None && Field(fields, NativeOnDemand) == None
      ensures Field(fields, RestartAction) == Field(old(fields), RestartAction)
      ensures Field(fields, NativeRestartAction) == Field(old(fields), NativeRestartAction)
      ensures OnlyStep(old(fields), fields, 2)
    {
      Rename(NativeRestartActionForUninstall, RestartActionForUninstall);
      ghost var after := fields;
      Rename(NativeOnDemand, OnDemand);
      StillOnly(old(fields), after, fields, 2);
    }

    /** The default installer type, and that version and type are nonblank. */
    method ReadVersion(ghost document: Fields) returns (ok: bool)
      requires HasRun(document, 2, fields)
      modifies this
      ensures ok <==> VersionFits(document)
      ensures ok ==> HasRun(document, 3, fields)
    {
      ghost var before := fields;
      Unsettled(document, 2, fields, InstallerType);
      Unsettled(document, 2, fields, Version);
      if InstallerType !in fields {
        Put(InstallerType, Text(INSTALLER_TYPE_PKG));
        DefaultIsNonblank(fields);
      } else {
        SameIsKept(fields, 3);
      }
      ok := IsNonblank(fields, Version) && IsNonblank(fields, InstallerType);
      if ok {
        TypeStepSettles(document, fields);
        StepHasRun(document, 3, before, fields);
      }
    }

    /** Launch arguments become a list; an empty list of blocking applications is told
        from a missing one. */
    method ReadBlocking(ghost document: Fields) returns (ok: bool)
      requires HasRun(document, 3, fields) && IsTree(document) && HasNoApiNames(document)
      modifies this
      ensures ok <==> BlockingFits(document)
      ensures ok ==> HasRun(document, 4, fields)
    {
      ghost var before := fields;
      Unsettled(document, 3, fields, LaunchArgs);
      Unsettled(document, 3, fields, BlockingApplications);
      Unsettled(document, 3, fields, BlockingApplicationsNone);
      SameField(document, fields, LaunchArgs);
      var launch := LaunchOf(fields);
      if launch.None? {
        return false;
      }
      var none: Option<Document>;
      ok, none := NoneOf(launch.value, Field(fields, BlockingApplications));
      if ok {
        NoneIsImported(document, launch.value, none);
        PutLaunch(LaunchArgs in fields, LaunchDocument(launch.value));
        ghost var between := fields;
        PutNone(none);
        StillOnly(before, between, fields, 4);
        BlockingStepSettles(document, fields);
        StepHasRun(document, 4, before, fields);
      }
    }

    method PutLaunch(supplied: bool, launch: Document)
      requires supplied <==> LaunchArgs in fields
      modifies this
      ensures Field(fields, LaunchArgs) == if supplied then Some(launch) else None
      ensures Field(fields, BlockingApplicationsNone) == Field(old(fields), BlockingApplicationsNone)
      ensures OnlyStep(old(fields), fields, 4)
    {
      SameIsKept(fields, 4);
      if supplied {
        Put(LaunchArgs, launch);
      }
    }

    method PutNone(none: Option<Document>)
      requires Field(fields, BlockingApplicationsNone) == None
      modifies this
      ensures Field(fields, BlockingApplicationsNone) == none
      ensures Field(fields, LaunchArgs) == Field(old(fields), LaunchArgs)
      ensures OnlyStep(old(fields), fields, 4)
    {
      SameIsKept(fields, 4);
      if none.Some? {
        Put(BlockingApplicationsNone, none.value);
      }
    }

    method DropReferences()
      modifies this
      ensures Field(fields, Requires) == None && Field(fields, UpdateFor) == None && OnlyStep(old(fields), fields, 5)
    {
      Drop(Requires);
      ghost var between := fields;
      Drop(UpdateFor);
      StillOnly(old(fields), between, fields, 5);
    }

    /** References leave the fields. */
    method ReadRelations(nfc: string -> string, ghost document: Fields)
      returns (ok: bool, requirements: Option<seq<NativeReference>>, updates: Option<seq<NativeReference>>)
      requires HasRun(document, 4, fields)
      modifies this
      ensures ok <==> ReferencesFit(nfc, document)
      ensures ok ==> HasRun(document, 5, fields)
      ensures ok ==> requirements == ReferencesOf(nfc, Field(document, Requires))
      ensures ok ==> updates == ReferencesOf(nfc, Field(document, UpdateFor))
    {
      ghost var before := fields;
      Unsettled(document, 4, fields, Requires);
      Unsettled(document, 4, fields, UpdateFor);
      ReferenceFields(nfc, document);
      updates := None;
      ok, requirements := ReadReferenceField(nfc, Field(fields, Requires));
      if !ok {
        return;
      }
      ok, updates := ReadReferenceField(nfc, Field(fields, UpdateFor));
      if ok {
        DropReferences();
        ReferencesStepSettles(document, fields);
        StepHasRun(document, 5, before, fields);
      }
    }

    /** The rows of a list get their API names. */
    method ReadLists(ghost document: Fields) returns (ok: bool)
      requires HasRun(document, 5, fields)
      modifies this
      ensures ok <==> RowsFit(document)
      ensures ok ==> HasRun(document, 6, fields)
    {
      ghost var before := fields;
      Unsettled(document, 5, fields, Receipts);
      Unsettled(document, 5, fields, Installs);
      Unsettled(document, 5, fields, InstallerChoicesXML);
      var receipts, installs, choices: Option<Document>;
      ok, receipts := ReadRowsField(ReceiptRow, Field(fields, Receipts));
      if !ok {
        return;
      }
      ok, installs := ReadRowsField(InstallRow, Field(fields, Installs));
      if !ok {
        return;
      }
      ok, choices := ReadRowsField(ChoiceRow, Field(fields, InstallerChoicesXML));
      if ok {
        PutLists(receipts, installs, choices);
        ListsStepSettles(document, fields);
        StepHasRun(document, 6, before, fields);
      }
    }

    /** Replace a list field that is there. */
    method PutRows(key: Key, rows: Option<Document>)
      requires StepOf(key) == 6 && (rows.Some? <==> Field(fields, key).Some?)
      modifies this
      ensures Field(fields, key) == rows
      ensures forall other :: other != key ==> Field(fields, other) == Field(old(fields), other)
      ensures OnlyStep(old(fields), fields, 6)
    {
      SameIsKept(fields, 6);
      if rows.Some? {
        Put(key, rows.value);
      }
    }

    method PutLists(receipts: Option<Document>, installs: Option<Document>, choices: Option<Document>)
      requires receipts.Some? <==> Field(fields, Receipts).Some?
      requires installs.Some? <==> Field(fields, Installs).Some?
      requires choices.Some? <==> Field(fields, InstallerChoicesXML).Some?
      modifies this
      ensures Field(fields, Receipts) == receipts && Field(fields, Installs) == installs
      ensures Field(fields, InstallerChoicesXML) == choices
      ensures OnlyStep(old(fields), fields, 6)
    {
      PutRows(Receipts, receipts);
      ghost var between := fields;
      PutOtherLists(installs, choices);
      StillOnly(old(fields), between, fields, 6);
    }

    method PutOtherLists(installs: Option<Document>, choices: Option<Document>)
      requires installs.Some? <==> Field(fields, Installs).Some?
      requires choices.Some? <==> Field(fields, InstallerChoicesXML).Some?
      modifies this
      ensures Field(fields, Receipts) == Field(old(fields), Receipts)
      ensures Field(fields, Installs) == installs && Field(fields, InstallerChoicesXML) == choices
      ensures OnlyStep(old(fields), fields, 6)
    {
      PutRows(Installs, installs);
      ghost var between := fields;
      PutRows(InstallerChoicesXML, choices);
      StillOnly(old(fields), between, fields, 6);
    }

    method PutEnvironment(variables: Option<Document>)
      requires variables.Some? <==> InstallerEnvironment in fields
      modifies this
      ensures Field(fields, InstallerEnvironment) == variables && OnlyStep(old(fields), fields, 7)
    {
      SameIsKept(fields, 7);
      if variables.Some? {
        Put(InstallerEnvironment, variables.value);
      }
    }

    /** The environment becomes a list, in the order of its names. */
    method ReadVariables(ghost document: Fields) returns (ok: bool)
      requires HasRun(document, 6, fields) && IsTree(document)
      modifies this
      ensures ok <==> EnvironmentFits(document)
      ensures ok ==> HasRun(document, 7, fields)
    {
      ghost var before := fields;
      Unsettled(document, 6, fields, InstallerEnvironment);
      SameField(document, fields, InstallerEnvironment);
      var variables: Option<Document>;
      ok, variables := ReadEnvironmentField(Field(fields, InstallerEnvironment));
      if ok {
        PutEnvironment(variables);
        EnvironmentStepSettles(document, fields);
        StepHasRun(document, 7, before, fields);
      }
    }

    method PutAlert(key: Key, alert: Option<Document>)
      requires StepOf(key) == 8 && (alert.Some? <==> Field(fields, key).Some?)
      modifies this
      ensures Field(fields, key) == alert
      ensures forall other :: other != key ==> Field(fields, other) == Field(old(fields), other)
      ensures OnlyStep(old(fields), fields, 8)
    {
      SameIsKept(fields, 8);
      if alert.Some? {
        Put(key, alert.value);
      }
    }

    method ReadAlerts(ghost document: Fields) returns (ok: bool)
      requires HasRun(document, 7, fields)
      modifies this
      ensures ok <==> AlertsFit(document)
      ensures ok ==> HasRun(document, 8, fields)
    {
      ghost var before := fields;
      Unsettled(document, 7, fields, PreinstallAlert);
      Unsettled(document, 7, fields, PreuninstallAlert);
      AlertFieldsFit(document);
      var preinstall, preuninstall: Option<Document>;
      ok, preinstall := ReadAlertField(Field(fields, PreinstallAlert));
      if !ok {
        return;
      }
      ok, preuninstall := ReadAlertField(Field(fields, PreuninstallAlert));
      if ok {
        PutAlert(PreinstallAlert, preinstall);
        ghost var between := fields;
        PutAlert(PreuninstallAlert, preuninstall);
        StillOnly(before, between, fields, 8);
        AlertsStepSettles(document, fields);
        StepHasRun(document, 8, before, fields);
      }
    }

    /** Drop two fields of the last step. */
    method DropBoth(a: Key, b: Key)
      requires StepOf(a) == StepOf(b) == 9
      modifies this
      ensures Field(fields, a) == None && Field(fields, b) == None
      ensures forall other :: other != a && other != b ==> Field(fields, other) == Field(old(fields), other)
      ensures OnlyStep(old(fields), fields, 9)
    {
      Drop(a);
      ghost var between := fields;
      Drop(b);
      StillOnly(old(fields), between, fields, 9);
    }

    method DropObjects()
      modifies this
      ensures Field(fields, InstallerItemLocation) == None && Field(fields, InstallerItemHash) == None
      ensures Field(fields, InstallerItemSize) == None && Field(fields, ItemsToRemove) == None
      ensures OnlyStep(old(fields), fields, 9)
    {
      DropBoth(InstallerItemLocation, InstallerItemHash);
      ghost var between := fields;
      DropBoth(InstallerItemSize, ItemsToRemove);
      StillOnly(old(fields), between, fields, 9);
    }

    /** Stored objects are not part of the patch; their fields are checked and dropped. */
    method ReadObjects(ghost document: Fields) returns (ok: bool, hash: string)
      requires HasRun(document, 8, fields)
      modifies this
      ensures ok <==> HasNoRepositoryNames(document) && InstallerFits(document) && RemovalsFit(document)
      ensures ok ==> HasRun(document, 9, fields) && hash == HashIn(document)
      ensures ok && InstallerItemHash in document ==> document[InstallerItemHash] == Text(hash)
      ensures ok && InstallerItemHash !in document ==> hash == ""
    {
      ghost var before := fields;
      ObjectsUnsettled(document, fields);
      hash := HashIn(fields);
      if Catalogs in fields || IconName in fields || IconHash in fields {
        return false, "";
      }
      if !InstallerFits(fields) {
        return false, "";
      }
      ok := ReadRemovals(fields);
      if ok {
        DropObjects();
        ObjectsStepSettles(document, fields);
        StepHasRun(document, 9, before, fields);
      }
    }
  }

  lemma SoftwareTaken(fields: Fields, names: set<Key>, taken: Fields, rest: Fields)
    requires forall key :: key in names <==> IsSoftware(key)
    requires forall key :: Lookup(taken, key) == if key in names then Lookup(fields, key) else None
    requires forall key :: Lookup(rest, key) == if key in names then None else Lookup(fields, key)
    ensures forall key :: Field(taken, key) == if IsSoftware(key) then Field(fields, key) else None
    ensures forall key :: Field(rest, key) == if IsSoftware(key) then None else Field(fields, key)
  {
    forall key
      ensures Field(taken, key) == if IsSoftware(key) then Field(fields, key) else None
      ensures Field(rest, key) == if IsSoftware(key) then None else Field(fields, key)
    {
      assert Lookup(taken, key) == if key in names then Lookup(fields, key) else None;
      assert Lookup(rest, key) == if key in names then None else Lookup(fields, key);
    }
  }

  lemma DefaultIsNonblank(fields: Fields)
    requires Field(fields, InstallerType) == Some(Text(INSTALLER_TYPE_PKG))
    ensures IsNonblank(fields, InstallerType)
  {
    assert Trim("pkg") == "pkg";
  }

  lemma SoftwareStep(key: Key)
    requires StepOf(key) != 1
    ensures !IsSoftware(key) && !key.Name?
  {}

  lemma ApiNamesUnsettled(document: Fields, fields: Fields)
    requires HasRun(document, 1, fields)
    ensures HasNoApiNames(fields) <==> HasNoApiNames(document)
    ensures Field(fields, NativeRestartAction) == Field(document, NativeRestartAction)
    ensures Field(fields, NativeRestartActionForUninstall) == Field(document, NativeRestartActionForUninstall)
    ensures Field(fields, NativeOnDemand) == Field(document, NativeOnDemand)
  {
    Unsettled(document, 1, fields, RestartAction);
    Unsettled(document, 1, fields, RestartActionForUninstall);
    Unsettled(document, 1, fields, OnDemand);
    Unsettled(document, 1, fields, BlockingApplicationsNone);
    Unsettled(document, 1, fields, InstallerObjectID);
    Unsettled(document, 1, fields, NativeRestartAction);
    Unsettled(document, 1, fields, NativeRestartActionForUninstall);
    Unsettled(document, 1, fields, NativeOnDemand);
  }

  lemma ObjectsUnsettled(document: Fields, fields: Fields)
    requires HasRun(document, 8, fields)
    ensures HasNoRepositoryNames(fields) <==> HasNoRepositoryNames(document)
    ensures InstallerFits(fields) <==> InstallerFits(document)
    ensures RemovalsFit(fields) <==> RemovalsFit(document)
    ensures HashIn(fields) == HashIn(document)
  {
    RepositoryUnsettled(document, fields);
    InstallerUnsettled(document, fields);
    RemovalsUnsettled(document, fields);
  }

  lemma RepositoryUnsettled(document: Fields, fields: Fields)
    requires HasRun(document, 8, fields)
    ensures HasNoRepositoryNames(fields) <==> HasNoRepositoryNames(document)
  {
    Unsettled(document, 8, fields, Catalogs);
    Unsettled(document, 8, fields, IconName);
    Unsettled(document, 8, fields, IconHash);
  }

  lemma InstallerUnsettled(document: Fields, fields: Fields)
    requires HasRun(document, 8, fields)
    ensures InstallerFits(fields) <==> InstallerFits(document)
    ensures HashIn(fields) == HashIn(document)
  {
    Unsettled(document, 8, fields, InstallerItemLocation);
    Unsettled(document, 8, fields, InstallerItemHash);
    Unsettled(document, 8, fields, InstallerItemSize);
  }

  lemma RemovalsUnsettled(document: Fields, fields: Fields)
    requires HasRun(document, 8, fields)
    ensures RemovalsFit(fields) <==> RemovalsFit(document)
  {
    Unsettled(document, 8, fields, ItemsToRemove);
    Unsettled(document, 8, fields, ItemsToCopy);
    Unsettled(document, 8, fields, UninstallMethod);
    SameRemovals(document, fields);
  }

  lemma SameRemovals(a: Fields, b: Fields)
    requires Field(a, ItemsToRemove) == Field(b, ItemsToRemove) && Field(a, ItemsToCopy) == Field(b, ItemsToCopy)
    requires Field(a, UninstallMethod) == Field(b, UninstallMethod)
    ensures RemovalsFit(a) <==> RemovalsFit(b)
  {
    SameField(a, b, ItemsToRemove);
    SameField(a, b, ItemsToCopy);
  }

  /** The contract sees the patch as the document's import. */
  lemma ContractIs(parseTime: string -> Option<string>, document: Fields, patch: Fields)
    requires IsPatch(document, patch)
    ensures AcceptsPackage(parseTime, patch) <==> PatchFits(parseTime, document)
  {
    forall key ensures Field(patch, key) == Imported(document, key) {
      assert PatchesField(document, patch, key);
    }
    if PatchFits(parseTime, document) {
      forall key | key in patch ensures AcceptsField(parseTime, key, patch[key]) {
        assert Imported(document, key) == Some(patch[key]);
      }
    }
    if AcceptsPackage(parseTime, patch) {
      forall key | Imported(document, key).Some? ensures AcceptsField(parseTime, key, Imported(document, key).value) {
        assert Field(patch, key).Some?;
      }
    }
  }

  /** The software fields are texts, or null to clear them. */
  lemma SoftwareIs(document: Fields, software: Fields)
    requires forall key :: Field(software, key) == if IsSoftware(key) then Field(document, key) else None
    ensures SoftwareFits(document) <==> forall key :: key in software ==> software[key].Text? || software[key].Null?
  {
    forall key ensures key in software <==> key in document && IsSoftware(key)
      ensures key in software ==> software[key] == document[key]
    {
      assert Field(software, key) == if IsSoftware(key) then Field(document, key) else None;
    }
  }

  /** ImportPkginfo accepts exactly the importable documents, and its result is the
      specified import. nfc is Unicode's normalization, parseTime the time decoder. */
  method ImportPkginfo(nfc: string -> string, parseTime: string -> Option<string>, document: Fields)
    returns (result: Option<Import>)
    requires IsTree(document)
    ensures result.Some? <==> Importable(nfc, document) && PatchFits(parseTime, document)
    ensures result.Some? ==> IsImport(nfc, document, result.value)
    ensures result.Some? && InstallerItemHash in document ==>
      document[InstallerItemHash] == Text(result.value.installerItemHash)
    ensures result.Some? && InstallerItemHash !in document ==> result.value.installerItemHash == ""
  {
    result := None;
    var importer := new Importer(document);
    var name, software := importer.ReadIdentity(nfc, document);
    if name.None? {
      return;
    }
    var ok := importer.ReadNames(document);
    if !ok {
      return;
    }
    ok := importer.ReadVersion(document);
    if !ok {
      return;
    }
    ok := importer.ReadBlocking(document);
    if !ok {
      return;
    }
    var requirements, updates: Option<seq<NativeReference>>;
    ok, requirements, updates := importer.ReadRelations(nfc, document);
    if !ok {
      return;
    }
    ok := importer.ReadLists(document);
    if !ok {
      return;
    }
    ok := importer.ReadVariables(document);
    if !ok {
      return;
    }
    ok := importer.ReadAlerts(document);
    if !ok {
      return;
    }
    var hash: string;
    ok, hash := importer.ReadObjects(document);
    if !ok {
      return;
    }
    AllHasRun(document, importer.fields);
    ContractIs(parseTime, document, importer.fields);
    SoftwareIs(document, software);
    if forall key :: key in software ==> software[key].Text? || software[key].Null? {
      if AcceptsPackage(parseTime, importer.fields) {
        result := Some(Import(name.value, software, importer.fields, requirements, updates, hash));
      }
    }
  }
}

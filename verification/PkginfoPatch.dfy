/** The patch that comes of importing a rendered package: what its fields are, that
    the package contract accepts them, and what they decode to. */
module PkginfoPatch {
  import opened Basics
  import opened MergePatch
  import opened PackageMutations
  import opened Packages
  import opened Pkginfo
  import opened PkginfoImport
  import opened PkginfoRoundTrip
  import opened Strings

  // ------------------------------------------------------------- the patch, per key

  lemma PatchedAsIs(fields: Fields, patch: Fields, key: Key)
    requires IsPatch(fields, patch) && !IsConverted(key) && !IsConsumed(key)
    ensures Field(patch, key) == Field(fields, key)
  {
    assert PatchesField(fields, patch, key);
  }

  lemma PatchedRestarts(pkg: Package, objects: Objects, fields: Fields, patch: Fields)
    requires TextsFit(pkg.metadata.texts) && IsRendering(pkg, objects, fields) && IsPatch(fields, patch)
    ensures Field(patch, RestartAction) == TextField(pkg.metadata.texts, RestartAction)
    ensures Field(patch, RestartActionForUninstall) == TextField(pkg.metadata.texts, RestartActionForUninstall)
  {
    RestartFields(pkg, objects, fields);
    ImportedRestarts(fields);
    assert PatchesField(fields, patch, RestartAction);
    assert PatchesField(fields, patch, RestartActionForUninstall);
  }

  lemma PatchedVersion(pkg: Package, objects: Objects, fields: Fields, patch: Fields)
    requires TextsFit(pkg.metadata.texts) && IsRendering(pkg, objects, fields) && IsPatch(fields, patch)
    ensures Field(patch, Version) == TextField(pkg.metadata.texts, Version)
    ensures Field(patch, InstallerType) == TextField(pkg.metadata.texts, InstallerType)
  {
    assert Trim("") == "";
    VersionFields(pkg, objects, fields);
    PatchedAsIs(fields, patch, Version);
    ImportedInstallerType(fields);
    assert PatchesField(fields, patch, InstallerType);
  }

  lemma PlainIsAsIs(key: Key)
    requires ClassOf(key).PlainText? || ClassOf(key).PlainSwitch? || key.DownloadOnLowData?
    ensures !IsConverted(key) && !IsConsumed(key)
  {}

  lemma SpecialTexts(key: Key)
    requires ClassOf(key).SpecialText?
    ensures key.Version? || key.InstallerType? || key.DownloadOnLowData? || key.RestartAction?
            || key.RestartActionForUninstall?
  {}

  lemma PatchedText(pkg: Package, objects: Objects, fields: Fields, patch: Fields, key: Key)
    requires TextsFit(pkg.metadata.texts) && IsRendering(pkg, objects, fields) && IsPatch(fields, patch)
    requires IsText(key)
    ensures Field(patch, key) == TextField(pkg.metadata.texts, key)
  {
    if ClassOf(key).PlainText? {
      PlainTextField(pkg, objects, fields, key);
      PlainIsAsIs(key);
      PatchedAsIs(fields, patch, key);
    } else {
      SpecialTexts(key);
      PatchedVersion(pkg, objects, fields, patch);
      PatchedRestarts(pkg, objects, fields, patch);
      DownloadField(pkg, objects, fields);
      PlainIsAsIs(DownloadOnLowData);
      PatchedAsIs(fields, patch, DownloadOnLowData);
    }
  }

  function SwitchField(switches: set<Key>, key: Key): Option<Document> {
    if key in switches then Some(Bool(true)) else None
  }

  lemma SpecialSwitches(key: Key)
    requires ClassOf(key).SpecialSwitch?
    ensures key.OnDemand? || key.BlockingApplicationsNone?
  {}

  lemma PatchedSwitch(pkg: Package, objects: Objects, fields: Fields, patch: Fields, key: Key)
    requires IsRendering(pkg, objects, fields) && IsPatch(fields, patch)
    requires IsSwitch(key) && !key.BlockingApplicationsNone?
    ensures Field(patch, key) == SwitchField(pkg.metadata.switches, key)
  {
    if ClassOf(key).PlainSwitch? {
      PlainSwitchField(pkg, objects, fields, key);
      PlainIsAsIs(key);
      PatchedAsIs(fields, patch, key);
    } else {
      SpecialSwitches(key);
      OnDemandField(pkg, objects, fields);
      ImportedOnDemand(fields);
      assert PatchesField(fields, patch, OnDemand);
    }
  }

  function NoneField(m: Metadata): Option<Document> {
    if BlockingApplicationsNone in m.switches then Some(Bool(true))
    else if m.blockingApplications != [] || m.launchArguments != [] then Some(Bool(false))
    else None
  }

  function BlockingField(m: Metadata): Option<Document> {
    if BlockingApplicationsNone in m.switches then Some(Array([])) else TextsField(m.blockingApplications)
  }

  function TextsField(values: seq<string>): Option<Document> {
    OptionalList(Texts(values).items)
  }

  ghost function LaunchField(entries: seq<LaunchArguments>): Option<Document> {
    if entries == [] then None else Some(LaunchDocument(SortedLaunch(entries)))
  }

  lemma PatchedBlocking(pkg: Package, objects: Objects, fields: Fields, patch: Fields)
    requires IsRendering(pkg, objects, fields) && IsPatch(fields, patch)
    requires ValidRelations(pkg.metadata, pkg.installerObjectID)
    ensures Field(patch, BlockingApplicationsNone) == NoneField(pkg.metadata)
    ensures Field(patch, BlockingApplications) == BlockingField(pkg.metadata)
    ensures Field(patch, LaunchArgs) == LaunchField(pkg.metadata.launchArguments)
  {
    BlockingFields(pkg, objects, fields);
    ImportedBlocking(pkg.metadata, fields);
    ImportedLaunch(fields);
    PatchedAsIs(fields, patch, BlockingApplications);
    assert PatchesField(fields, patch, BlockingApplicationsNone);
    assert PatchesField(fields, patch, LaunchArgs);
  }

  function TimeField(time: Option<string>): Option<Document> {
    if time.None? then None else Some(Text(time.value))
  }

  function LabelsField(labels: map<Key, string>): Option<Document> {
    if TextMembers(labels) == map[] then None else Some(Object(TextMembers(labels)))
  }

  lemma PatchedScalars(pkg: Package, objects: Objects, fields: Fields, patch: Fields)
    requires IsRendering(pkg, objects, fields) && IsPatch(fields, patch)
    ensures Field(patch, InstalledSize) == OptionalSizeOf(pkg.metadata.installedSize)
    ensures Field(patch, ForceInstallAfterDate) == TimeField(pkg.metadata.forceInstallAfter)
    ensures Field(patch, SupportedArchitectures) == TextsField(pkg.metadata.architectures)
    ensures Field(patch, CustomActionLabels) == LabelsField(pkg.metadata.actionLabels)
  {
    ScalarFields(pkg, objects, fields);
    ArchitecturesField(pkg, objects, fields);
    ActionLabelsField(pkg, objects, fields);
    PatchedAsIs(fields, patch, InstalledSize);
    PatchedAsIs(fields, patch, ForceInstallAfterDate);
    PatchedAsIs(fields, patch, SupportedArchitectures);
    PatchedAsIs(fields, patch, CustomActionLabels);
  }

  function RowsField(rows: seq<Fields>): Option<Document> {
    OptionalList(ObjectsOf(rows))
  }

  lemma PatchedRows(pkg: Package, objects: Objects, fields: Fields, patch: Fields)
    requires IsRendering(pkg, objects, fields) && IsPatch(fields, patch)
    requires AreRows(ChoiceRow, pkg.metadata.choices) && AreRows(InstallRow, pkg.metadata.installs)
    requires AreRows(ReceiptRow, pkg.metadata.receipts)
    ensures Field(patch, InstallerChoicesXML) == RowsField(pkg.metadata.choices)
    ensures Field(patch, Installs) == RowsField(pkg.metadata.installs)
    ensures Field(patch, Receipts) == RowsField(pkg.metadata.receipts)
  {
    RowFields(pkg, objects, fields);
    RowsReturn(ChoiceRow, pkg.metadata.choices);
    RowsReturn(InstallRow, pkg.metadata.installs);
    RowsReturn(ReceiptRow, pkg.metadata.receipts);
    RowsPatch(fields, patch);
  }

  lemma RowsPatch(fields: Fields, patch: Fields)
    requires IsPatch(fields, patch)
    ensures Field(patch, InstallerChoicesXML) == Rows(ChoiceRow, Field(fields, InstallerChoicesXML))
    ensures Field(patch, Installs) == Rows(InstallRow, Field(fields, Installs))
    ensures Field(patch, Receipts) == Rows(ReceiptRow, Field(fields, Receipts))
  {
    ImportedRows(fields);
    assert PatchesField(fields, patch, InstallerChoicesXML);
    assert PatchesField(fields, patch, Installs);
    assert PatchesField(fields, patch, Receipts);
  }

  ghost function VariablesField(variables: seq<Variable>): Option<Document> {
    if variables == [] then None else Some(EnvironmentDocument(SortedVariables(variables)))
  }

  lemma PatchedMaps(pkg: Package, objects: Objects, fields: Fields, patch: Fields)
    requires IsRendering(pkg, objects, fields) && IsPatch(fields, patch)
    ensures Field(patch, InstallerEnvironment) == VariablesField(pkg.metadata.environment)
    ensures Field(patch, ItemsToCopy) == RowsField(pkg.metadata.itemsToCopy)
  {
    EnvironmentField(pkg, objects, fields);
    ImportedEnvironment(pkg.metadata.environment, fields);
    assert PatchesField(fields, patch, InstallerEnvironment);
    CopyFields(pkg, objects, fields);
    CopiesAreNative(pkg.metadata.itemsToCopy);
    PatchedAsIs(fields, patch, ItemsToCopy);
  }

  lemma PatchedAlerts(pkg: Package, objects: Objects, fields: Fields, patch: Fields)
    requires IsRendering(pkg, objects, fields) && IsPatch(fields, patch)
    requires IsAlert(pkg.metadata.preinstallAlert) && IsAlert(pkg.metadata.preuninstallAlert)
    ensures Field(patch, PreinstallAlert) == AlertField(pkg.metadata.preinstallAlert)
    ensures Field(patch, PreuninstallAlert) == AlertField(pkg.metadata.preuninstallAlert)
  {
    AlertFields(pkg, objects, fields);
    AlertReturns(pkg.metadata.preinstallAlert);
    AlertReturns(pkg.metadata.preuninstallAlert);
    ImportedAlerts(fields);
    assert PatchesField(fields, patch, PreinstallAlert);
    assert PatchesField(fields, patch, PreuninstallAlert);
  }

  predicate IsPatched(key: Key) {
    key.InstalledSize? || key.ForceInstallAfterDate? || key.SupportedArchitectures? || key.BlockingApplications?
    || key.LaunchArgs? || key.CustomActionLabels? || key.InstallerChoicesXML? || key.InstallerEnvironment?
    || key.Installs? || key.Receipts? || key.ItemsToCopy? || IsAlertField(key)
  }

  lemma RenderedNothing(pkg: Package, objects: Objects, key: Key)
    requires IsIconFree(pkg, objects) && !IsConsumed(key)
    requires !IsText(key) && !IsSwitch(key) && !IsPatched(key)
    ensures Rendered(pkg, objects, key) == None
  {}

  lemma OnlyPatchedAreConverted(key: Key)
    requires !IsText(key) && !IsSwitch(key) && !IsPatched(key)
    ensures !IsConverted(key)
  {}

  lemma NothingElseIsPatched(pkg: Package, objects: Objects, fields: Fields, patch: Fields, key: Key)
    requires IsRendering(pkg, objects, fields) && IsPatch(fields, patch) && IsIconFree(pkg, objects)
    requires !IsText(key) && !IsSwitch(key) && !IsPatched(key)
    ensures Field(patch, key) == None
  {
    if IsConsumed(key) {
      assert PatchesField(fields, patch, key);
      ConsumedIsNothing(fields, key);
    } else {
      OnlyPatchedAreConverted(key);
      PatchedAsIs(fields, patch, key);
      assert RendersField(pkg, objects, fields, key);
      RenderedNothing(pkg, objects, key);
    }
  }

  // -------------------------------------------------------------- what is accepted

  /** The package contract accepts a field that is there. */
  predicate IsAccepted(parseTime: string -> Option<string>, key: Key, field: Option<Document>) {
    field.Some? ==> AcceptsField(parseTime, key, field.value)
  }

  lemma TextIsAccepted(parseTime: string -> Option<string>, texts: map<Key, string>, key: Key)
    requires IsText(key) && (key in texts ==> AcceptsText(key, texts[key]))
    ensures IsAccepted(parseTime, key, TextField(texts, key))
  {}

  /** What makes a list acceptable, apart from where it stands. */
  lemma LaunchIsAcceptable(entries: seq<LaunchArguments>)
    requires forall i :: 0 <= i < |entries| ==> entries[i].application != ""
    requires Distinct(Applications(entries))
    ensures entries != [] ==>
      SortedLaunch(entries) != [] && AcceptsLaunches(LaunchDocument(SortedLaunch(entries)))
      && DecodeLaunch(Some(LaunchDocument(SortedLaunch(entries)))) == SortedLaunch(entries)
  {
    SortedLaunchSize(entries);
    SortedLaunchEntries(entries);
    if entries != [] {
      LaunchDecodes(SortedLaunch(entries));
    }
  }

  lemma SortedLaunchEntries(entries: seq<LaunchArguments>)
    requires Distinct(Applications(entries))
    ensures forall i :: 0 <= i < |SortedLaunch(entries)| ==> SortedLaunch(entries)[i] in entries
  {
    forall i, j | 0 <= i < j < |entries| ensures LaunchTable(entries)[i].0 != LaunchTable(entries)[j].0 {
      assert Applications(entries)[i] != Applications(entries)[j];
    }
    SortedTableKeepsRows(LaunchTable(entries));
    forall i | 0 <= i < |SortedLaunch(entries)| ensures SortedLaunch(entries)[i] in entries {
      var entry := SortedLaunch(entries)[i];
      SameEntries(entries, entry);
      assert entry in SortedLaunch(entries);
    }
  }

  lemma VariablesAreAcceptable(variables: seq<Variable>)
    requires NamesDistinct(VariableTable(variables))
    requires forall i :: 0 <= i < |variables| ==> variables[i].name != ""
    ensures AcceptsVariables(EnvironmentDocument(SortedVariables(variables)))
    ensures DecodeEnvironment(Some(EnvironmentDocument(SortedVariables(variables)))) == SortedVariables(variables)
  {
    SortedVariablesEntries(variables);
    EnvironmentDecodes(SortedVariables(variables));
  }

  lemma SortedVariablesEntries(variables: seq<Variable>)
    requires NamesDistinct(VariableTable(variables))
    ensures forall i :: 0 <= i < |SortedVariables(variables)| ==> SortedVariables(variables)[i] in variables
  {
    SortedTableKeepsRows(VariableTable(variables));
    forall i | 0 <= i < |SortedVariables(variables)| ensures SortedVariables(variables)[i] in variables {
      var variable := SortedVariables(variables)[i];
      SameVariables(variables, variable);
      assert variable in SortedVariables(variables);
    }
  }

  lemma AlertIsAccepted(parseTime: string -> Option<string>, key: Key, alert: Alert)
    requires IsAlertField(key) && (AlertField(alert).Some? ==> AcceptsAlert(AlertField(alert).value))
    ensures IsAccepted(parseTime, key, AlertField(alert))
  {}

  lemma RowsAreAccepted(parseTime: string -> Option<string>, key: Key, rows: seq<Fields>)
    requires IsRowList(key) && AcceptsRows(KindOf(key), Array(ObjectsOf(rows)))
    ensures IsAccepted(parseTime, key, RowsField(rows))
  {}

  lemma LaunchIsAccepted(parseTime: string -> Option<string>, field: Option<Document>)
    requires field.Some? ==> AcceptsLaunches(field.value)
    ensures IsAccepted(parseTime, LaunchArgs, field)
  {}

  lemma VariablesAreAccepted(parseTime: string -> Option<string>, field: Option<Document>)
    requires field.Some? ==> AcceptsVariables(field.value)
    ensures IsAccepted(parseTime, InstallerEnvironment, field)
  {}

  lemma LabelsAreAccepted(parseTime: string -> Option<string>, field: Option<Document>)
    requires field.Some? ==> AcceptsLabels(field.value)
    ensures IsAccepted(parseTime, CustomActionLabels, field)
  {}

  lemma TextsAreAccepted(parseTime: string -> Option<string>, key: Key, field: Option<Document>)
    requires key.SupportedArchitectures? || key.BlockingApplications?
    requires field.Some? ==> AreTexts(field.value)
    ensures IsAccepted(parseTime, key, field)
  {}

  lemma SizeIsAccepted(parseTime: string -> Option<string>, size: int)
    requires 0 <= size <= MAX_INT64
    ensures IsAccepted(parseTime, InstalledSize, OptionalSizeOf(size))
  {
    SizeRoundTrip(size);
  }

  lemma TimeIsAccepted(parseTime: string -> Option<string>, time: Option<string>)
    requires time.Some? ==> parseTime(time.value).Some?
    ensures IsAccepted(parseTime, ForceInstallAfterDate, TimeField(time))
  {}

  lemma SwitchIsAccepted(parseTime: string -> Option<string>, key: Key, field: Option<Document>)
    requires IsSwitch(key) && (field.Some? ==> field.value.Bool?)
    ensures IsAccepted(parseTime, key, field)
  {}

  /** The names of trimmed, valid metadata are not empty and not repeated. */
  lemma ManagedNames(parseTime: string -> Option<string>, m: Metadata, installerObjectID: Option<Id>)
    requires ValidTags(parseTime, m) && ValidRelations(m, installerObjectID)
    requires TrimVariables(m.environment) == m.environment
    ensures forall i :: 0 <= i < |m.launchArguments| ==> m.launchArguments[i].application != ""
    ensures forall i :: 0 <= i < |m.environment| ==> m.environment[i].name != ""
    ensures NamesDistinct(VariableTable(m.environment))
  {
    assert Trim("") == "";
    forall i, j | 0 <= i < j < |m.environment|
      ensures VariableTable(m.environment)[i].0 != VariableTable(m.environment)[j].0
    {
      assert VariableNames(m.environment)[i] != VariableNames(m.environment)[j];
      assert TrimVariables(m.environment)[i] == m.environment[i];
      assert TrimVariables(m.environment)[j] == m.environment[j];
    }
  }

  lemma NormalizedParts(parseTime: string -> Option<string>, m: Metadata)
    requires Normalized(parseTime, m) == m
    ensures NormalizedTexts(m.texts) == m.texts
    ensures NormalizedTime(parseTime, m.forceInstallAfter) == m.forceInstallAfter
    ensures TrimAll(m.architectures) == m.architectures && TrimAll(m.blockingApplications) == m.blockingApplications
    ensures TrimLaunch(m.launchArguments) == m.launchArguments && TrimVariables(m.environment) == m.environment
    ensures TrimRows(ChoiceRow, m.choices) == m.choices && TrimRows(InstallRow, m.installs) == m.installs
    ensures TrimRows(ReceiptRow, m.receipts) == m.receipts && TrimRows(CopyRow, m.itemsToCopy) == m.itemsToCopy
  {}

  lemma ManagedTexts(
    nfc: string -> string, parseTime: string -> Option<string>, pkg: Package, objects: Objects, key: Key)
    requires IsManaged(nfc, parseTime, pkg, objects)
    ensures TextsFit(pkg.metadata.texts)
    ensures key in pkg.metadata.texts ==> AcceptsText(key, pkg.metadata.texts[key])
  {
    NormalizedParts(parseTime, pkg.metadata);
    ValidTextsFit(parseTime, pkg.metadata);
  }

  lemma NothingIsAccepted(parseTime: string -> Option<string>, key: Key)
    ensures IsAccepted(parseTime, key, None)
  {}

  lemma TextFieldIsAccepted(
    parseTime: string -> Option<string>, pkg: Package, objects: Objects, fields: Fields, patch: Fields, key: Key)
    requires TextsFit(pkg.metadata.texts) && IsRendering(pkg, objects, fields) && IsPatch(fields, patch)
    requires IsText(key) && (key in pkg.metadata.texts ==> AcceptsText(key, pkg.metadata.texts[key]))
    ensures IsAccepted(parseTime, key, Field(patch, key))
  {
    PatchedText(pkg, objects, fields, patch, key);
    TextIsAccepted(parseTime, pkg.metadata.texts, key);
  }

  /** The patch of a managed package passes the contract, field by field. */
  lemma FieldIsAccepted(
    nfc: string -> string, parseTime: string -> Option<string>, pkg: Package, objects: Objects, fields: Fields,
    patch: Fields, key: Key)
    requires IsManaged(nfc, parseTime, pkg, objects) && IsRendering(pkg, objects, fields) && IsPatch(fields, patch)
    requires IsIconFree(pkg, objects)
    ensures IsAccepted(parseTime, key, Field(patch, key))
  {
    if IsText(key) {
      ManagedTexts(nfc, parseTime, pkg, objects, key);
      TextFieldIsAccepted(parseTime, pkg, objects, fields, patch, key);
    } else if IsSwitch(key) && !key.BlockingApplicationsNone? {
      PatchedSwitch(pkg, objects, fields, patch, key);
      SwitchIsAccepted(parseTime, key, Field(patch, key));
    } else if IsPatched(key) || key.BlockingApplicationsNone? {
      NormalizedParts(parseTime, pkg.metadata);
      ListIsAccepted(parseTime, pkg, objects, fields, patch, key);
    } else {
      NothingElseIsPatched(pkg, objects, fields, patch, key);
      NothingIsAccepted(parseTime, key);
    }
  }

  lemma ListIsAccepted(
    parseTime: string -> Option<string>, pkg: Package, objects: Objects, fields: Fields, patch: Fields, key: Key)
    requires IsRendering(pkg, objects, fields) && IsPatch(fields, patch)
    requires ValidTags(parseTime, pkg.metadata) && ValidRelations(pkg.metadata, pkg.installerObjectID)
    requires TrimVariables(pkg.metadata.environment) == pkg.metadata.environment
    requires IsPatched(key) || key.BlockingApplicationsNone?
    ensures IsAccepted(parseTime, key, Field(patch, key))
  {
    var m := pkg.metadata;
    if key.BlockingApplicationsNone? || key.BlockingApplications? || key.LaunchArgs? {
      PatchedBlocking(pkg, objects, fields, patch);
      BlockingIsAccepted(parseTime, m, pkg.installerObjectID, key, Field(patch, key));
    } else if IsRowList(key) {
      RowListIsAccepted(parseTime, pkg, objects, fields, patch, key);
    } else if key.InstallerEnvironment? {
      PatchedMaps(pkg, objects, fields, patch);
      ManagedNames(parseTime, m, pkg.installerObjectID);
      VariablesAreAcceptable(m.environment);
      VariablesAreAccepted(parseTime, VariablesField(m.environment));
    } else if IsAlertField(key) {
      PatchedAlerts(pkg, objects, fields, patch);
      AlertIsAcceptable(AlertOf(m, key));
      AlertIsAccepted(parseTime, key, AlertOf(m, key));
    } else {
      PatchedScalars(pkg, objects, fields, patch);
      ScalarIsAccepted(parseTime, m, key, Field(patch, key));
    }
  }

  lemma AlertIsAcceptable(alert: Alert)
    requires IsAlert(alert)
    ensures AlertField(alert).Some? ==> AcceptsAlert(AlertField(alert).value)
  {
    if alert.enabled {
      AlertDecodes(alert);
    }
  }

  lemma BlockingIsAccepted(
    parseTime: string -> Option<string>, m: Metadata, installerObjectID: Option<Id>, key: Key, field: Option<Document>)
    requires ValidTags(parseTime, m) && ValidRelations(m, installerObjectID)
    requires TrimVariables(m.environment) == m.environment
    requires key.BlockingApplicationsNone? || key.BlockingApplications? || key.LaunchArgs?
    requires field == if key.BlockingApplicationsNone? then NoneField(m)
                      else if key.BlockingApplications? then BlockingField(m) else LaunchField(m.launchArguments)
    ensures IsAccepted(parseTime, key, field)
  {
    if key.BlockingApplicationsNone? {
      SwitchIsAccepted(parseTime, key, field);
    } else if key.BlockingApplications? {
      TextsRoundTrip(m.blockingApplications);
      TextsAreAccepted(parseTime, key, field);
    } else {
      ManagedNames(parseTime, m, installerObjectID);
      LaunchIsAcceptable(m.launchArguments);
      LaunchIsAccepted(parseTime, field);
    }
  }

  lemma RowListIsAccepted(
    parseTime: string -> Option<string>, pkg: Package, objects: Objects, fields: Fields, patch: Fields, key: Key)
    requires IsRendering(pkg, objects, fields) && IsPatch(fields, patch) && ValidTags(parseTime, pkg.metadata)
    requires IsRowList(key)
    ensures IsAccepted(parseTime, key, Field(patch, key))
  {
    var m := pkg.metadata;
    PatchedRows(pkg, objects, fields, patch);
    PatchedMaps(pkg, objects, fields, patch);
    var rows := match key
                case InstallerChoicesXML => m.choices
                case Installs => m.installs
                case Receipts => m.receipts
                case ItemsToCopy => m.itemsToCopy;
    RowsDecode(KindOf(key), rows);
    RowsAreAccepted(parseTime, key, rows);
  }

  lemma ScalarIsAccepted(parseTime: string -> Option<string>, m: Metadata, key: Key, field: Option<Document>)
    requires ValidTags(parseTime, m)
    requires key.InstalledSize? || key.ForceInstallAfterDate? || key.SupportedArchitectures? || key.CustomActionLabels?
    requires field == if key.InstalledSize? then OptionalSizeOf(m.installedSize)
                      else if key.ForceInstallAfterDate? then TimeField(m.forceInstallAfter)
                      else if key.SupportedArchitectures? then TextsField(m.architectures)
                      else LabelsField(m.actionLabels)
    ensures IsAccepted(parseTime, key, field)
  {
    if key.InstalledSize? {
      SizeIsAccepted(parseTime, m.installedSize);
    } else if key.ForceInstallAfterDate? {
      TimeIsAccepted(parseTime, m.forceInstallAfter);
    } else if key.SupportedArchitectures? {
      TextsRoundTrip(m.architectures);
      TextsAreAccepted(parseTime, key, field);
    } else {
      LabelsRoundTrip(m.actionLabels);
      LabelsAreAccepted(parseTime, field);
    }
  }

  lemma PatchIsAccepted(
    nfc: string -> string, parseTime: string -> Option<string>, pkg: Package, objects: Objects, fields: Fields,
    patch: Fields)
    requires IsManaged(nfc, parseTime, pkg, objects) && IsRendering(pkg, objects, fields) && IsPatch(fields, patch)
    requires IsIconFree(pkg, objects)
    ensures PatchFits(parseTime, fields)
  {
    forall key | Imported(fields, key).Some?
      ensures AcceptsField(parseTime, key, Imported(fields, key).value)
    {
      FieldIsAccepted(nfc, parseTime, pkg, objects, fields, patch, key);
      AcceptedAsImported(parseTime, fields, patch, key);
    }
  }

  lemma AcceptedAsImported(parseTime: string -> Option<string>, fields: Fields, patch: Fields, key: Key)
    requires IsPatch(fields, patch) && IsAccepted(parseTime, key, Field(patch, key))
    ensures IsAccepted(parseTime, key, Imported(fields, key))
  {
    assert PatchesField(fields, patch, key);
  }
}

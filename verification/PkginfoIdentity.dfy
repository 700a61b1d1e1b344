/** Render then import is the identity on metadata, exactly when nothing is rendered
    that the native document cannot carry back. */
module PkginfoIdentity {
  import opened Basics
  import opened MergePatch
  import opened PackageMutations
  import opened Packages
  import opened Pkginfo
  import opened PkginfoAccepted
  import opened PkginfoDocument
  import opened PkginfoImport
  import opened PkginfoPatch
  import opened PkginfoRoundTrip
  import opened Strings

  // ------------------------------------------------------------ the merged document

  /** The patch applied to an empty mutation, before decoding. */
  ghost function MergedDocument(patch: Fields): Fields {
    Merged(Some(EMPTY), Object(patch)).members
  }

  /** A field that is no object, and not null, is what the patch says. */
  lemma MergedAsIs(patch: Fields, key: Key, field: Option<Document>)
    requires Field(patch, key) == field && (field.Some? ==> !field.value.Object? && !field.value.Null?)
    requires key.Version? ==> field.Some?
    ensures Field(MergedDocument(patch), key) == field
  {
    MergedField(patch, key);
  }

  lemma MergedFlat(patch: Fields, key: Key, members: Fields)
    requires Field(patch, key) == Some(Object(members)) && IsFlat(members)
    ensures Field(MergedDocument(patch), key) == Some(Object(members))
  {
    MergedField(patch, key);
    FlatMerges(members);
  }

  lemma MergedNothing(patch: Fields, key: Key)
    requires Field(patch, key) == None && !key.Version?
    ensures Field(MergedDocument(patch), key) == None
  {
    MergedField(patch, key);
  }

  // ----------------------------------------------------------------- what it decodes to

  /** Only the default download mode is lost, and normalizing puts it back. */
  lemma DecodedTexts(texts: map<Key, string>, merged: Fields)
    requires forall key :: IsText(key) ==> Field(merged, key) == TextField(texts, key)
    requires forall key :: key in texts ==> IsText(key) && texts[key] != ""
    requires NormalizedTexts(texts) == texts
    ensures NormalizedTexts(DecodeTexts(merged)) == texts
  {
    var decoded := DecodeTexts(merged);
    forall key ensures NormalizedText(decoded, key) == NormalizedText(texts, key) {
      DecodedText(texts, merged, key);
      SameNormalizedText(texts, decoded, key);
    }
    forall key | key in texts && key !in decoded ensures key.DownloadOnLowData? {
      DecodedText(texts, merged, key);
    }
    forall key | key in decoded ensures key in texts {
      DecodedText(texts, merged, key);
    }
    assert NormalizedTexts(decoded) == NormalizedTexts(texts);
  }

  predicate IsDefaultDownload(texts: map<Key, string>, key: Key) {
    key.DownloadOnLowData? && TextOf(texts, key) == DOWNLOAD_AUTO
  }

  lemma DecodedText(texts: map<Key, string>, merged: Fields, key: Key)
    requires IsText(key) ==> Field(merged, key) == TextField(texts, key)
    requires key in texts ==> IsText(key) && texts[key] != ""
    ensures var decoded := DecodeTexts(merged);
      (key in decoded ==> key in texts)
      && (key in texts && key !in decoded ==> key.DownloadOnLowData?)
      && TextOf(decoded, key) == if IsDefaultDownload(texts, key) then "" else TextOf(texts, key)
  {}

  lemma SameNormalizedText(texts: map<Key, string>, decoded: map<Key, string>, key: Key)
    requires TextOf(decoded, key) == if IsDefaultDownload(texts, key) then "" else TextOf(texts, key)
    ensures NormalizedText(decoded, key) == NormalizedText(texts, key)
  {
    assert Trim("auto") == "auto" && Trim("") == "";
  }

  lemma DecodedSwitches(parseTime: string -> Option<string>, switches: set<Key>, merged: Fields)
    requires forall key :: IsSwitch(key) ==> (Field(merged, key) == Some(Bool(true)) <==> key in switches)
    requires forall key :: key in switches ==> IsSwitch(key)
    ensures Decode(parseTime, merged).switches == switches
  {
    forall key ensures key in Decode(parseTime, merged).switches <==> key in switches {
      assert IsSwitch(key) ==> (Field(merged, key) == Some(Bool(true)) <==> key in switches);
    }
  }

  lemma DecodedScalars(parseTime: string -> Option<string>, m: Metadata, merged: Fields)
    requires Field(merged, InstalledSize) == OptionalSizeOf(m.installedSize) && 0 <= m.installedSize <= MAX_INT64
    requires Field(merged, ForceInstallAfterDate) == TimeField(m.forceInstallAfter)
    requires m.forceInstallAfter.Some? ==> parseTime(m.forceInstallAfter.value) == m.forceInstallAfter
    ensures Decode(parseTime, merged).installedSize == m.installedSize
    ensures Decode(parseTime, merged).forceInstallAfter == m.forceInstallAfter
  {
    SizeRoundTrip(m.installedSize);
  }

  lemma DecodedLists(parseTime: string -> Option<string>, m: Metadata, merged: Fields)
    requires Field(merged, SupportedArchitectures) == TextsField(m.architectures)
    requires Field(merged, BlockingApplications) == BlockingField(m)
    requires BlockingApplicationsNone in m.switches ==> m.blockingApplications == []
    requires Field(merged, CustomActionLabels) == LabelsField(m.actionLabels)
    requires forall key :: key in m.actionLabels ==> IsLabel(key) && m.actionLabels[key] != ""
    ensures Decode(parseTime, merged).architectures == m.architectures
    ensures Decode(parseTime, merged).blockingApplications == m.blockingApplications
    ensures Decode(parseTime, merged).actionLabels == m.actionLabels
  {
    TextsRoundTrip(m.architectures);
    TextsRoundTrip(m.blockingApplications);
    LabelsRoundTrip(m.actionLabels);
  }

  lemma DecodedNamed(parseTime: string -> Option<string>, m: Metadata, merged: Fields)
    requires Field(merged, LaunchArgs) == LaunchField(m.launchArguments)
    requires Field(merged, InstallerEnvironment) == VariablesField(m.environment)
    requires forall i :: 0 <= i < |m.launchArguments| ==> m.launchArguments[i].application != ""
    requires Distinct(Applications(m.launchArguments))
    requires forall i :: 0 <= i < |m.environment| ==> m.environment[i].name != ""
    requires NamesDistinct(VariableTable(m.environment))
    ensures Decode(parseTime, merged).launchArguments == SortedLaunch(m.launchArguments)
    ensures Decode(parseTime, merged).environment == SortedVariables(m.environment)
  {
    LaunchIsAcceptable(m.launchArguments);
    SortedLaunchSize(m.launchArguments);
    VariablesAreAcceptable(m.environment);
    SortedTableKeepsRows(VariableTable(m.environment));
  }

  lemma DecodedRows(parseTime: string -> Option<string>, m: Metadata, merged: Fields)
    requires Field(merged, InstallerChoicesXML) == RowsField(m.choices) && AreRows(ChoiceRow, m.choices)
    requires Field(merged, Installs) == RowsField(m.installs) && AreRows(InstallRow, m.installs)
    requires Field(merged, Receipts) == RowsField(m.receipts) && AreRows(ReceiptRow, m.receipts)
    requires Field(merged, ItemsToCopy) == RowsField(m.itemsToCopy) && AreRows(CopyRow, m.itemsToCopy)
    ensures Decode(parseTime, merged).choices == m.choices && Decode(parseTime, merged).installs == m.installs
    ensures Decode(parseTime, merged).receipts == m.receipts
    ensures Decode(parseTime, merged).itemsToCopy == m.itemsToCopy
  {
    RowsDecode(ChoiceRow, m.choices);
    RowsDecode(InstallRow, m.installs);
    RowsDecode(ReceiptRow, m.receipts);
    RowsDecode(CopyRow, m.itemsToCopy);
  }

  /** What comes back of an alert. */
  function Shown(alert: Alert): Alert {
    if alert.enabled && alert.texts != map[] then alert else Alert(false, map[])
  }

  lemma DecodedAlert(alert: Alert, field: Option<Document>)
    requires IsAlert(alert) && field == AlertField(alert)
    ensures DecodeAlert(field) == Shown(alert)
    ensures field.Some? ==> field.value.Object? && IsFlat(field.value.members)
  {
    if alert.enabled {
      AlertDecodes(alert);
    }
  }

  // ---------------------------------------------------------- every field of the patch

  lemma MergedTexts(pkg: Package, objects: Objects, fields: Fields, patch: Fields)
    requires TextsFit(pkg.metadata.texts) && IsRendering(pkg, objects, fields) && IsPatch(fields, patch)
    ensures forall key :: IsText(key) ==> Field(MergedDocument(patch), key) == TextField(pkg.metadata.texts, key)
  {
    forall key | IsText(key) ensures Field(MergedDocument(patch), key) == TextField(pkg.metadata.texts, key) {
      PatchedText(pkg, objects, fields, patch, key);
      assert Trim("") == "";
      MergedAsIs(patch, key, TextField(pkg.metadata.texts, key));
    }
  }

  lemma MergedSwitches(pkg: Package, objects: Objects, fields: Fields, patch: Fields)
    requires IsRendering(pkg, objects, fields) && IsPatch(fields, patch)
    requires ValidRelations(pkg.metadata, pkg.installerObjectID)
    ensures forall key :: IsSwitch(key) ==>
      (Field(MergedDocument(patch), key) == Some(Bool(true)) <==> key in pkg.metadata.switches)
  {
    forall key | IsSwitch(key)
      ensures Field(MergedDocument(patch), key) == Some(Bool(true)) <==> key in pkg.metadata.switches
    {
      if key.BlockingApplicationsNone? {
        PatchedBlocking(pkg, objects, fields, patch);
        MergedAsIs(patch, key, NoneField(pkg.metadata));
      } else {
        PatchedSwitch(pkg, objects, fields, patch, key);
        MergedAsIs(patch, key, SwitchField(pkg.metadata.switches, key));
      }
    }
  }

  lemma MergedScalars(pkg: Package, objects: Objects, fields: Fields, patch: Fields)
    requires IsRendering(pkg, objects, fields) && IsPatch(fields, patch)
    requires forall key :: key in pkg.metadata.actionLabels ==>
      IsLabel(key) && pkg.metadata.actionLabels[key] != ""
    ensures Field(MergedDocument(patch), InstalledSize) == OptionalSizeOf(pkg.metadata.installedSize)
    ensures Field(MergedDocument(patch), ForceInstallAfterDate) == TimeField(pkg.metadata.forceInstallAfter)
    ensures Field(MergedDocument(patch), SupportedArchitectures) == TextsField(pkg.metadata.architectures)
    ensures Field(MergedDocument(patch), CustomActionLabels) == LabelsField(pkg.metadata.actionLabels)
  {
    var m := pkg.metadata;
    PatchedScalars(pkg, objects, fields, patch);
    MergedAsIs(patch, InstalledSize, OptionalSizeOf(m.installedSize));
    MergedAsIs(patch, ForceInstallAfterDate, TimeField(m.forceInstallAfter));
    MergedAsIs(patch, SupportedArchitectures, TextsField(m.architectures));
    LabelsRoundTrip(m.actionLabels);
    if LabelsField(m.actionLabels).Some? {
      MergedFlat(patch, CustomActionLabels, TextMembers(m.actionLabels));
    } else {
      MergedNothing(patch, CustomActionLabels);
    }
  }

  lemma MergedLists(pkg: Package, objects: Objects, fields: Fields, patch: Fields)
    requires IsRendering(pkg, objects, fields) && IsPatch(fields, patch)
    requires ValidRelations(pkg.metadata, pkg.installerObjectID)
    requires SortedLaunch(pkg.metadata.launchArguments) == [] ==> pkg.metadata.launchArguments == []
    ensures Field(MergedDocument(patch), BlockingApplications) == BlockingField(pkg.metadata)
    ensures Field(MergedDocument(patch), LaunchArgs) == LaunchField(pkg.metadata.launchArguments)
    ensures Field(MergedDocument(patch), InstallerEnvironment) == VariablesField(pkg.metadata.environment)
  {
    PatchedBlocking(pkg, objects, fields, patch);
    PatchedMaps(pkg, objects, fields, patch);
    MergedAsIs(patch, BlockingApplications, BlockingField(pkg.metadata));
    MergedAsIs(patch, LaunchArgs, LaunchField(pkg.metadata.launchArguments));
    MergedAsIs(patch, InstallerEnvironment, VariablesField(pkg.metadata.environment));
  }

  lemma MergedRows(pkg: Package, objects: Objects, fields: Fields, patch: Fields)
    requires IsRendering(pkg, objects, fields) && IsPatch(fields, patch)
    requires AreRows(ChoiceRow, pkg.metadata.choices) && AreRows(InstallRow, pkg.metadata.installs)
    requires AreRows(ReceiptRow, pkg.metadata.receipts)
    ensures Field(MergedDocument(patch), InstallerChoicesXML) == RowsField(pkg.metadata.choices)
    ensures Field(MergedDocument(patch), Installs) == RowsField(pkg.metadata.installs)
    ensures Field(MergedDocument(patch), Receipts) == RowsField(pkg.metadata.receipts)
    ensures Field(MergedDocument(patch), ItemsToCopy) == RowsField(pkg.metadata.itemsToCopy)
  {
    PatchedRows(pkg, objects, fields, patch);
    PatchedMaps(pkg, objects, fields, patch);
    MergedAsIs(patch, InstallerChoicesXML, RowsField(pkg.metadata.choices));
    MergedAsIs(patch, Installs, RowsField(pkg.metadata.installs));
    MergedAsIs(patch, Receipts, RowsField(pkg.metadata.receipts));
    MergedAsIs(patch, ItemsToCopy, RowsField(pkg.metadata.itemsToCopy));
  }

  lemma MergedAlert(patch: Fields, key: Key, alert: Alert)
    requires IsAlertField(key) && IsAlert(alert) && Field(patch, key) == AlertField(alert)
    ensures DecodeAlert(Field(MergedDocument(patch), key)) == Shown(alert)
  {
    DecodedAlert(alert, AlertField(alert));
    if AlertField(alert).Some? {
      MergedFlat(patch, key, AlertField(alert).value.members);
    } else {
      MergedNothing(patch, key);
    }
  }

  // --------------------------------------------------------------------- the identity

  /** A disabled alert says nothing, whatever its texts. */
  function Kept(alert: Alert): Alert {
    if alert.enabled then alert else Alert(false, map[])
  }

  /** The metadata up to what a map of names and a missing alert cannot tell. */
  ghost function Canonical(m: Metadata): Metadata {
    m.(launchArguments := SortedLaunch(m.launchArguments),
       environment := SortedVariables(m.environment),
       preinstallAlert := Kept(m.preinstallAlert),
       preuninstallAlert := Kept(m.preuninstallAlert))
  }

  /** An enabled alert without texts is rendered as no alert. */
  predicate AlertsSpeak(m: Metadata) {
    (m.preinstallAlert.enabled ==> m.preinstallAlert.texts != map[])
    && (m.preuninstallAlert.enabled ==> m.preuninstallAlert.texts != map[])
  }

  lemma DecodedMetadata(
    nfc: string -> string, parseTime: string -> Option<string>, pkg: Package, objects: Objects, fields: Fields,
    patch: Fields)
    requires IsManaged(nfc, parseTime, pkg, objects) && IsRendering(pkg, objects, fields) && IsPatch(fields, patch)
    ensures NormalizedTexts(Applied(parseTime, patch).texts) == pkg.metadata.texts
    ensures Applied(parseTime, patch) ==
      pkg.metadata.(texts := Applied(parseTime, patch).texts,
                    launchArguments := SortedLaunch(pkg.metadata.launchArguments),
                    environment := SortedVariables(pkg.metadata.environment),
                    preinstallAlert := Shown(pkg.metadata.preinstallAlert),
                    preuninstallAlert := Shown(pkg.metadata.preuninstallAlert))
  {
    var m, merged := pkg.metadata, MergedDocument(patch);
    NormalizedParts(parseTime, m);
    ValidTextsFit(parseTime, m);
    MergedTexts(pkg, objects, fields, patch);
    DecodedTexts(m.texts, merged);
    MergedSwitches(pkg, objects, fields, patch);
    DecodedSwitches(parseTime, m.switches, merged);
    MergedScalars(pkg, objects, fields, patch);
    DecodedScalars(parseTime, m, merged);
    SortedLaunchSize(m.launchArguments);
    MergedLists(pkg, objects, fields, patch);
    DecodedLists(parseTime, m, merged);
    ManagedNames(parseTime, m, pkg.installerObjectID);
    DecodedNamed(parseTime, m, merged);
    MergedRows(pkg, objects, fields, patch);
    DecodedRows(parseTime, m, merged);
    PatchedAlerts(pkg, objects, fields, patch);
    MergedAlert(patch, PreinstallAlert, m.preinstallAlert);
    MergedAlert(patch, PreuninstallAlert, m.preuninstallAlert);
  }

  lemma TrimmedEntries(m: Metadata)
    requires TrimLaunch(m.launchArguments) == m.launchArguments && TrimVariables(m.environment) == m.environment
    requires Distinct(Applications(m.launchArguments)) && NamesDistinct(VariableTable(m.environment))
    ensures TrimLaunch(SortedLaunch(m.launchArguments)) == SortedLaunch(m.launchArguments)
    ensures TrimVariables(SortedVariables(m.environment)) == SortedVariables(m.environment)
  {
    SortedLaunchEntries(m.launchArguments);
    SortedVariablesEntries(m.environment);
    var launch, variables := SortedLaunch(m.launchArguments), SortedVariables(m.environment);
    forall i | 0 <= i < |launch| ensures TrimLaunch(launch)[i] == launch[i] {
      var j :| 0 <= j < |m.launchArguments| && m.launchArguments[j] == launch[i];
      assert TrimLaunch(m.launchArguments)[j] == m.launchArguments[j];
    }
    forall i | 0 <= i < |variables| ensures TrimVariables(variables)[i] == variables[i] {
      var j :| 0 <= j < |m.environment| && m.environment[j] == variables[i];
      assert TrimVariables(m.environment)[j] == m.environment[j];
    }
  }

  lemma NormalizedBack(parseTime: string -> Option<string>, m: Metadata, decoded: Metadata)
    requires NormalizedTexts(decoded.texts) == m.texts && Normalized(parseTime, m) == m
    requires decoded ==
      m.(texts := decoded.texts,
         launchArguments := SortedLaunch(m.launchArguments),
         environment := SortedVariables(m.environment),
         preinstallAlert := Shown(m.preinstallAlert),
         preuninstallAlert := Shown(m.preuninstallAlert))
    requires TrimLaunch(SortedLaunch(m.launchArguments)) == SortedLaunch(m.launchArguments)
    requires TrimVariables(SortedVariables(m.environment)) == SortedVariables(m.environment)
    ensures Normalized(parseTime, decoded) == Canonical(m) <==> AlertsSpeak(m)
  {
    NormalizedParts(parseTime, m);
    assert AlertsSpeak(m) <==>
      Shown(m.preinstallAlert) == Kept(m.preinstallAlert) && Shown(m.preuninstallAlert) == Kept(m.preuninstallAlert);
    assert Normalized(parseTime, decoded) ==
      Canonical(m).(preinstallAlert := Shown(m.preinstallAlert), preuninstallAlert := Shown(m.preuninstallAlert));
  }

  /** The patch applied to nothing is the metadata again, unless an enabled alert is empty. */
  lemma MetadataReturns(
    nfc: string -> string, parseTime: string -> Option<string>, pkg: Package, objects: Objects, fields: Fields,
    patch: Fields)
    requires IsManaged(nfc, parseTime, pkg, objects) && IsRendering(pkg, objects, fields) && IsPatch(fields, patch)
    ensures Normalized(parseTime, Applied(parseTime, patch)) == Canonical(pkg.metadata) <==> AlertsSpeak(pkg.metadata)
  {
    DecodedMetadata(nfc, parseTime, pkg, objects, fields, patch);
    NormalizedParts(parseTime, pkg.metadata);
    ManagedNames(parseTime, pkg.metadata, pkg.installerObjectID);
    TrimmedEntries(pkg.metadata);
    NormalizedBack(parseTime, pkg.metadata, Applied(parseTime, patch));
  }

  /** The software patch carries what was rendered of the software. */
  ghost predicate IsSoftwarePatch(software: Software, patch: Fields) {
    Field(patch, DisplayName)
      == (if software.displayName.None? then None else Some(Text(software.displayName.value)))
    && Field(patch, Description) == (if software.description == "" then None else Some(Text(software.description)))
    && Field(patch, Category) == (if software.category == "" then None else Some(Text(software.category)))
    && Field(patch, Developer) == (if software.developer == "" then None else Some(Text(software.developer)))
    && forall key :: key in patch ==> key in {DisplayName, Description, Category, Developer}
  }

  /** The hash of the installer, which a nopkg package does not have. */
  function InstallerHash(pkg: Package, objects: Objects): string {
    if objects.installer.None? || TextOf(pkg.metadata.texts, InstallerType) == "nopkg" then ""
    else objects.installer.value.sha256
  }

  lemma HashReturns(nfc: string -> string, pkg: Package, objects: Objects, fields: Fields, imported: Import)
    requires IsRendering(pkg, objects, fields) && IsImport(nfc, fields, imported)
    ensures imported.installerItemHash == InstallerHash(pkg, objects)
  {
    InstallerIsWritten(pkg, objects, fields);
  }

  /** The import says what the package says, in the names the native document has. */
  ghost predicate GivesBack(
    parseTime: string -> Option<string>, pkg: Package, objects: Objects, imported: Import)
  {
    imported.name == pkg.software.name
    && imported.installerItemHash == InstallerHash(pkg, objects)
    && IsSoftwarePatch(pkg.software, imported.software)
    && Normalized(parseTime, Applied(parseTime, imported.package)) == Canonical(pkg.metadata)
    && imported.requirements == Expected(pkg.requirements)
    && imported.updateFor == Expected(pkg.updateFor)
  }

  /** Render then import is the identity: a rendered package is importable, and its
      import gives the package back, if and only if no icon was rendered, every enabled
      alert says something, and no reference has a second "--" in its name. */
  lemma RenderThenImport(
    nfc: string -> string, parseTime: string -> Option<string>, pkg: Package, objects: Objects, fields: Fields,
    imported: Import)
    requires IsManaged(nfc, parseTime, pkg, objects) && IsRendering(pkg, objects, fields)
    requires IsImport(nfc, fields, imported)
    ensures Importable(nfc, fields) && PatchFits(parseTime, fields)
            && GivesBack(parseTime, pkg, objects, imported)
            <==> IsIconFree(pkg, objects) && AlertsSpeak(pkg.metadata)
                 && ArePlain(pkg.requirements) && ArePlain(pkg.updateFor)
  {
    RenderingFits(nfc, parseTime, pkg, objects, fields);
    NamesFit(nfc, pkg, objects, fields);
    MetadataReturns(nfc, parseTime, pkg, objects, fields, imported.package);
    SoftwareReturns(pkg, objects, fields, imported.software);
    HashReturns(nfc, pkg, objects, fields, imported);
    ReferencesGiveBack(nfc, pkg, objects, fields, imported);
    if IsIconFree(pkg, objects) {
      PatchIsAccepted(nfc, parseTime, pkg, objects, fields, imported.package);
    }
  }

  lemma SoftwareReturns(pkg: Package, objects: Objects, fields: Fields, patch: Fields)
    requires IsRendering(pkg, objects, fields)
    requires forall key :: Field(patch, key) == if IsSoftware(key) then Field(fields, key) else None
    ensures IsSoftwarePatch(pkg.software, patch)
  {
    SoftwareIsWritten(pkg, objects, fields);
    assert IsSoftware(DisplayName) && IsSoftware(Description) && IsSoftware(Category) && IsSoftware(Developer);
    forall key | key in patch ensures key in {DisplayName, Description, Category, Developer} {
      assert Field(patch, key) == if IsSoftware(key) then Field(fields, key) else None;
      SoftwareKeysAre(key);
    }
  }

  lemma ReferencesGiveBack(nfc: string -> string, pkg: Package, objects: Objects, fields: Fields, imported: Import)
    requires IsRendering(pkg, objects, fields)
    requires forall ref :: ref in pkg.requirements + pkg.updateFor ==> IsRenderableReference(nfc, ref)
    requires imported.requirements == ReferencesOf(nfc, Field(fields, Requires))
    requires imported.updateFor == ReferencesOf(nfc, Field(fields, UpdateFor))
    ensures imported.requirements == Expected(pkg.requirements) <==> ArePlain(pkg.requirements)
    ensures imported.updateFor == Expected(pkg.updateFor) <==> ArePlain(pkg.updateFor)
    ensures ArePlain(pkg.requirements) && ArePlain(pkg.updateFor) ==> ReferencesFit(nfc, fields)
  {
    ReferenceFields(pkg, objects, fields);
    ReferencesReturn(nfc, pkg.requirements);
    ReferencesReturn(nfc, pkg.updateFor);
  }

  // --------------------------------------------------------- packages that do not return

  const TEXTS: map<Key, string> :=
    map[Version := "1", InstallerType := INSTALLER_TYPE_NOPKG, DownloadOnLowData := DOWNLOAD_AUTO]

  function MinimalMetadata(alert: Alert): Metadata {
    Metadata(TEXTS, {}, 0, None, [], [], [], map[], [], [], [], [], [], alert, Alert(false, map[]))
  }

  function MinimalPackage(alert: Alert, requirements: seq<Reference>): Package {
    Package(Id(1), Software(Id(1), "Firefox", None, "", "", "", None), MinimalMetadata(alert), requirements, [], None)
  }

  lemma MinimalTextsAreTrimmed(key: Key)
    ensures Trimmed(TextOf(TEXTS, key)) && (TextOf(TEXTS, key) == "" <==> key !in TEXTS)
    ensures key !in TEXTS ==> !key.InstallerType? && !key.DownloadOnLowData?
  {}

  lemma MinimalTextsAreNormal()
    ensures NormalizedTexts(TEXTS) == TEXTS
  {
    forall key ensures TextOf(NormalizedTexts(TEXTS), key) == TextOf(TEXTS, key) {
      MinimalTextsAreTrimmed(key);
      if key in TEXTS {
        NormalizedTextIsClean(TEXTS, key);
      } else {
        NormalizedTextTwice(TEXTS, key);
        NormalOfNothing(key);
      }
    }
    SameTexts(NormalizedTexts(TEXTS), TEXTS);
  }

  lemma MinimalIsNormal(parseTime: string -> Option<string>, alert: Alert)
    ensures Normalized(parseTime, MinimalMetadata(alert)) == MinimalMetadata(alert)
  {
    MinimalTextsAreNormal();
  }

  lemma MinimalIsValid(parseTime: string -> Option<string>, alert: Alert)
    requires IsAlert(alert)
    ensures ValidTags(parseTime, MinimalMetadata(alert)) && ValidRelations(MinimalMetadata(alert), None)
  {
    assert Trim("1") == "1";
  }

  lemma MinimalIsManaged(
    nfc: string -> string, parseTime: string -> Option<string>, alert: Alert, requirements: seq<Reference>,
    objects: Objects)
    requires IsAlert(alert) && objects.installer.None? && Identity(nfc, "Firefox") == Some("Firefox")
    requires forall ref :: ref in requirements ==> IsRenderableReference(nfc, ref)
    ensures IsManaged(nfc, parseTime, MinimalPackage(alert, requirements), objects)
  {
    MinimalIsNormal(parseTime, alert);
    MinimalIsValid(parseTime, alert);
  }

  /** An enabled alert without texts, and nothing else in the way. */
  lemma SilentAlertIsLost(nfc: string -> string, parseTime: string -> Option<string>)
    requires Identity(nfc, "Firefox") == Some("Firefox")
    ensures var pkg, objects := MinimalPackage(Alert(true, map[]), []), Objects(None, None);
      IsManaged(nfc, parseTime, pkg, objects) && !AlertsSpeak(pkg.metadata)
      && IsIconFree(pkg, objects) && ArePlain(pkg.requirements) && ArePlain(pkg.updateFor)
  {
    MinimalIsManaged(nfc, parseTime, Alert(true, map[]), [], Objects(None, None));
  }

  lemma DashedNameIsCut()
    ensures Contains("a--b", "--") && AfterDashes("a--b") == "b" && AfterDash("a--b") == "b"
  {
    var name := "a--b";
    assert name[1..3] == "--";
    assert OccursAt(name, "--", 1);
    assert name == "a" + "--" + "b";
    CutFirst("a", "--", "b");
    assert AfterDashes("b") == "b";
    LastIndexJoined("a-", '-', "b");
    assert name == "a-" + ['-'] + "b";
  }

  lemma DashedNameIsValid()
    ensures ValidName("a--b") && Trim("a--b") == "a--b" && Contains("a--b", "--")
  {
    DashedNameIsCut();
    TrimmedNameIsValid("a--b");
  }

  lemma TrimmedNameIsValid(name: string)
    requires name != "" && Trimmed(name) && '/' !in name
    requires !EndsInDigits(AfterDashes(name)) && !EndsInDigits(AfterDash(name))
    ensures ValidName(name) && Trim(name) == name
  {
    TrimIsTrimmed(name);
  }

  /** A reference to software with a double dash in its name. */
  lemma DashedReferenceIsLost(nfc: string -> string, parseTime: string -> Option<string>)
    requires Identity(nfc, "Firefox") == Some("Firefox") && nfc("a--b") == "a--b"
    ensures var dashed := Reference(Id(2), Id(0), "a--b", "");
      var pkg, objects := MinimalPackage(Alert(false, map[]), [dashed]), Objects(None, None);
      IsManaged(nfc, parseTime, pkg, objects) && !ArePlain(pkg.requirements)
      && IsIconFree(pkg, objects) && AlertsSpeak(pkg.metadata) && ArePlain(pkg.updateFor)
  {
    var dashed := Reference(Id(2), Id(0), "a--b", "");
    DashedIsRenderable(nfc, dashed);
    MinimalIsManaged(nfc, parseTime, Alert(false, map[]), [dashed], Objects(None, None));
    assert [dashed][0] == dashed;
  }

  lemma DashedIsRenderable(nfc: string -> string, dashed: Reference)
    requires nfc("a--b") == "a--b" && dashed == Reference(Id(2), Id(0), "a--b", "")
    ensures IsRenderableReference(nfc, dashed) && !IsPlainName("a--b", "")
  {
    DashedNameIsValid();
    TrimIsTrimmed("a--b");
    PlainNames("a--b", "");
  }

  /** An icon. */
  lemma IconIsLost(nfc: string -> string, parseTime: string -> Option<string>)
    requires Identity(nfc, "Firefox") == Some("Firefox")
    ensures var icon := StoredObject(Id(3), "icon.png", true, "hash", 1);
      var pkg, objects := MinimalPackage(Alert(false, map[]), []), Objects(None, Some(icon));
      IsManaged(nfc, parseTime, pkg, objects) && !IsIconFree(pkg, objects)
      && AlertsSpeak(pkg.metadata) && ArePlain(pkg.requirements) && ArePlain(pkg.updateFor)
  {
    var icon := StoredObject(Id(3), "icon.png", true, "hash", 1);
    MinimalIsManaged(nfc, parseTime, Alert(false, map[]), [], Objects(None, Some(icon)));
  }
}

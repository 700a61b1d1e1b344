/** A managed package as the native Munki document of its pkginfo. */
module Pkginfo {
  import opened Basics
  import opened MergePatch
  import opened Packages
  import opened Renaming
  import opened Strings

  // ------------------------------------------------------------------ field classes

  /** What a field is, under its API name or its native one. */
  datatype Class =
    | PlainText      // text with one name, passed on as it is
    | SpecialText    // text with a default or a native name
    | PlainSwitch
    | SpecialSwitch
    | SoftwareText   // metadata of the software, not of the package
    | LabelText
    | AlertText
    | Other

  function ClassOf(key: Key): Class {
    match key
    case UninstallMethod => PlainText
    case MinimumMunkiVersion => PlainText
    case MinimumOSVersion => PlainText
    case MaximumOSVersion => PlainText
    case InstallableCondition => PlainText
    case QuitScript => PlainText
    case PackagePath => PlainText
    case Notes => PlainText
    case InstallcheckScript => PlainText
    case UninstallcheckScript => PlainText
    case PreinstallScript => PlainText
    case PostinstallScript => PlainText
    case PreuninstallScript => PlainText
    case PostuninstallScript => PlainText
    case UninstallScript => PlainText
    case VersionScript => PlainText
    case Version => SpecialText
    case InstallerType => SpecialText
    case DownloadOnLowData => SpecialText
    case RestartAction => SpecialText
    case RestartActionForUninstall => SpecialText
    case UnattendedInstall => PlainSwitch
    case UnattendedUninstall => PlainSwitch
    case Uninstallable => PlainSwitch
    case ManualQuitOnly => PlainSwitch
    case Precache => PlainSwitch
    case Autoremove => PlainSwitch
    case AppleItem => PlainSwitch
    case OnDemand => SpecialSwitch
    case BlockingApplicationsNone => SpecialSwitch
    case DisplayName => SoftwareText
    case Description => SoftwareText
    case Category => SoftwareText
    case Developer => SoftwareText
    case LabelInstall => LabelText
    case LabelInstalling => LabelText
    case LabelInstalled => LabelText
    case LabelRemove => LabelText
    case LabelRemoving => LabelText
    case LabelUpdate => LabelText
    case Title => AlertText
    case Detail => AlertText
    case OKLabel => AlertText
    case CancelLabel => AlertText
    case _ => Other
  }

  /** The text fields of a package. */
  predicate IsText(key: Key) {
    ClassOf(key).PlainText? || ClassOf(key).SpecialText?
  }

  predicate IsSwitch(key: Key) {
    ClassOf(key).PlainSwitch? || ClassOf(key).SpecialSwitch?
  }

  predicate IsLabel(key: Key) {
    ClassOf(key).LabelText?
  }

  predicate IsAlertText(key: Key) {
    ClassOf(key).AlertText?
  }

  predicate IsSoftware(key: Key) {
    ClassOf(key).SoftwareText?
  }

  function TextOf(texts: map<Key, string>, key: Key): string {
    if key in texts then texts[key] else ""
  }

  // --------------------------------------------------------------------------- rows

  datatype RowKind = ReceiptRow | InstallRow | ChoiceRow | CopyRow

  /** What the native document calls a member of a row. */
  function NativeMember(kind: RowKind, key: Key): Key {
    match kind
    case ReceiptRow => if key.ReceiptPackageID? then NativeReceiptPackageID else key
    case InstallRow =>
      if key.BundleIdentifier? then NativeBundleIdentifier
      else if key.BundleName? then NativeBundleName
      else if key.BundleShortVersion? then NativeBundleShortVersion
      else if key.BundleVersion? then NativeBundleVersion
      else if key.RowMinimumOSVersion? then NativeMinimumOSVersion
      else key
    case ChoiceRow =>
      if key.ChoiceIdentifier? then NativeChoiceIdentifier
      else if key.ChoiceAttribute? then NativeChoiceAttribute
      else if key.AttributeSetting? then NativeAttributeSetting
      else key
    case CopyRow => key
  }

  /** The API name behind a native name. */
  function MemberOf(kind: RowKind, native: Key): Key {
    match kind
    case ReceiptRow => if native.NativeReceiptPackageID? then ReceiptPackageID else native
    case InstallRow =>
      if native.NativeBundleIdentifier? then BundleIdentifier
      else if native.NativeBundleName? then BundleName
      else if native.NativeBundleShortVersion? then BundleShortVersion
      else if native.NativeBundleVersion? then BundleVersion
      else if native.NativeMinimumOSVersion? then RowMinimumOSVersion
      else native
    case ChoiceRow =>
      if native.NativeChoiceIdentifier? then ChoiceIdentifier
      else if native.NativeChoiceAttribute? then ChoiceAttribute
      else if native.NativeAttributeSetting? then AttributeSetting
      else native
    case CopyRow => native
  }

  /** A member the API renames. */
  predicate IsRenamed(kind: RowKind, key: Key) {
    NativeMember(kind, key) != key
  }

  /** The kinds of member a row may have. Required members are always there;
      an optional one is left out when it is empty, zero or false. */
  datatype MemberType = RequiredText | OptionalText | OptionalSize | Setting | Flag

  function MemberTypeOf(kind: RowKind, key: Key): Option<MemberType> {
    match kind
    case ReceiptRow =>
      if key.ReceiptPackageID? then Some(RequiredText)
      else if key.RowVersion? || key.RowName? then Some(OptionalText)
      else if key.RowInstalledSize? then Some(OptionalSize)
      else if key.Optional? then Some(Flag)
      else None
    case InstallRow =>
      if key.RowType? || key.RowPath? then Some(RequiredText)
      else if key.BundleIdentifier? || key.BundleName? || key.BundleShortVersion? || key.BundleVersion?
              || key.VersionComparisonKey? || key.MinimumUpdateVersion? || key.MD5Checksum?
              || key.RowMinimumOSVersion? || key.RowInstallerItemLocation? then Some(OptionalText)
      else None
    case ChoiceRow =>
      if key.ChoiceIdentifier? then Some(RequiredText)
      else if key.ChoiceAttribute? then Some(OptionalText)
      else if key.AttributeSetting? then Some(Setting)
      else None
    case CopyRow =>
      if key.SourceItem? || key.DestinationPath? then Some(RequiredText)
      else if key.DestinationItem? || key.User? || key.Group? || key.Mode? then Some(OptionalText)
      else None
  }

  function Nativized(kind: RowKind): Key -> Key {
    key => NativeMember(kind, key)
  }

  function Denativized(kind: RowKind): Key -> Key {
    key => MemberOf(kind, key)
  }

  /** A row is renamed member by member. */
  function NativeRow(kind: RowKind, row: Fields): Document {
    Object(Renamed(Nativized(kind), Denativized(kind), row))
  }

  function NativeRows(kind: RowKind, rows: seq<Fields>): seq<Document> {
    seq(|rows|, i requires 0 <= i < |rows| => NativeRow(kind, rows[i]))
  }

  /** The part of a copied item that says what to remove. */
  function Removal(row: Fields): Document {
    Object(map key | key in row && (key.SourceItem? || key.DestinationPath? || key.DestinationItem?) :: row[key])
  }

  function Removals(rows: seq<Fields>): seq<Document> {
    seq(|rows|, i requires 0 <= i < |rows| => Removal(rows[i]))
  }

  // ---------------------------------------------------------------- names and paths

  /** MunkiVersionedSoftwareName. */
  function ReferenceName(softwareName: string, packageVersion: string): string {
    if Trim(packageVersion) == "" then Trim(softwareName)
    else Trim(softwareName) + "--" + Trim(packageVersion)
  }

  function InstallerItemLocationOf(packageID: Id, stored: StoredObject): string {
    if packageID.number == 0 || stored.id.number == 0 || stored.filename == "" then ""
    else "packages/" + FormatInt(packageID.number) + "/installer/" + stored.filename
  }

  function IconNameOf(stored: StoredObject): string {
    if stored.id.number == 0 || stored.filename == "" then ""
    else FormatInt(stored.id.number) + "-" + stored.filename
  }

  // --------------------------------------------------------------------- conversion

  function NonEmpty(text: string): Option<Document> {
    if text == "" then None else Some(Text(text))
  }

  function Texts(values: seq<string>): Document {
    Array(seq(|values|, i requires 0 <= i < |values| => Text(values[i])))
  }

  /** omitempty on a list. */
  function OptionalList(items: seq<Document>): Option<Document> {
    if items == [] then None else Some(Array(items))
  }

  function ReferenceNames(refs: seq<Reference>): seq<Document> {
    seq(|refs|, i requires 0 <= i < |refs| => NameOf(refs[i]))
  }

  function NameOf(ref: Reference): Document {
    Text(ReferenceName(ref.softwareName, ref.packageVersion))
  }

  /** The map of a list of launch arguments; a repeated application keeps its last. */
  function LaunchMembers(entries: seq<LaunchArguments>): Fields {
    if entries == [] then map[]
    else
      var last := entries[|entries| - 1];
      LaunchMembers(entries[..|entries| - 1])[Custom(last.application) := Texts(last.arguments)]
  }

  function EnvironmentMembers(variables: seq<Variable>): Fields {
    if variables == [] then map[]
    else
      var last := variables[|variables| - 1];
      EnvironmentMembers(variables[..|variables| - 1])[Custom(last.name) := Text(last.value)]
  }

  function TextMembers(texts: map<Key, string>): Fields {
    map key | key in texts && texts[key] != "" :: Text(texts[key])
  }

  function NativeAlertKey(key: Key): Key {
    match key case Title => NativeTitle case Detail => NativeDetail case _ => key
  }

  function AlertKey(native: Key): Key {
    match native case NativeTitle => Title case NativeDetail => Detail case _ => native
  }

  function AlertMembers(alert: Alert): Fields {
    Renamed(NativeAlertKey, AlertKey, TextMembers(alert.texts))
  }

  /** An alert is rendered only when it is enabled and says something. */
  function RenderedAlert(alert: Alert): Option<Document> {
    if !alert.enabled || AlertMembers(alert) == map[] then None else Some(Object(AlertMembers(alert)))
  }

  function OptionalSizeOf(size: int): Option<Document> {
    if size == 0 then None else Some(Number(FormatInt(size)))
  }

  // -------------------------------------------------------------------------- render

  datatype Objects = Objects(installer: Option<StoredObject>, icon: Option<StoredObject>)

  function RenderedInstaller(pkg: Package, objects: Objects): Option<StoredObject> {
    if TextOf(pkg.metadata.texts, InstallerType) == INSTALLER_TYPE_NOPKG then None else objects.installer
  }

  predicate IsRows(key: Key) {
    key.Requires? || key.UpdateFor? || key.InstallerChoicesXML? || key.Installs? || key.Receipts?
    || key.ItemsToCopy? || key.ItemsToRemove? || key.LaunchArgs? || key.InstallerEnvironment?
  }

  predicate IsInstaller(key: Key) {
    key.InstallerItemLocation? || key.InstallerItemHash? || key.InstallerItemSize? || key.IconName? || key.IconHash?
  }

  /** Each field of the document, or nothing where the document leaves it out. */
  function Rendered(pkg: Package, objects: Objects, key: Key): Option<Document> {
    if IsAlertField(key) then RenderedAlert(AlertOf(pkg.metadata, key))
    else if IsRows(key) then RenderedRows(pkg, key)
    else if IsInstaller(key) then RenderedObject(pkg, objects, key)
    else
      match ClassOf(key)
      case PlainText => NonEmpty(TextOf(pkg.metadata.texts, key))
      case PlainSwitch => if key in pkg.metadata.switches then Some(Bool(true)) else None
      case SoftwareText => RenderedSoftware(pkg.software, key)
      case _ => RenderedSpecial(pkg, key)
  }

  predicate IsAlertField(key: Key) {
    key.PreinstallAlert? || key.PreuninstallAlert?
  }

  function AlertOf(m: Metadata, key: Key): Alert {
    if key.PreinstallAlert? then m.preinstallAlert else m.preuninstallAlert
  }

  function RenderedSoftware(software: Software, key: Key): Option<Document> {
    match key
    case DisplayName => if software.displayName.None? then None else Some(Text(software.displayName.value))
    case Description => NonEmpty(software.description)
    case Category => NonEmpty(software.category)
    case Developer => NonEmpty(software.developer)
    case _ => None
  }

  /** The fields of rows and maps. */
  function RenderedRows(pkg: Package, key: Key): Option<Document> {
    var m := pkg.metadata;
    match key
    case Requires => OptionalList(ReferenceNames(pkg.requirements))
    case UpdateFor => OptionalList(ReferenceNames(pkg.updateFor))
    case InstallerChoicesXML => OptionalList(NativeRows(ChoiceRow, m.choices))
    case Installs => OptionalList(NativeRows(InstallRow, m.installs))
    case Receipts => OptionalList(NativeRows(ReceiptRow, m.receipts))
    case ItemsToCopy => OptionalList(NativeRows(CopyRow, m.itemsToCopy))
    case ItemsToRemove =>
      if TextOf(m.texts, UninstallMethod) != REMOVE_COPIED_ITEMS then None else OptionalList(Removals(m.itemsToCopy))
    case LaunchArgs => if m.launchArguments == [] then None else Some(Object(LaunchMembers(m.launchArguments)))
    case InstallerEnvironment => if m.environment == [] then None else Some(Object(EnvironmentMembers(m.environment)))
    case _ => None
  }

  /** The fields of stored objects. */
  function RenderedObject(pkg: Package, objects: Objects, key: Key): Option<Document> {
    var installer := RenderedInstaller(pkg, objects);
    match key
    case InstallerItemLocation =>
      if installer.None? then None else NonEmpty(InstallerItemLocationOf(pkg.id, installer.value))
    case InstallerItemHash => if installer.None? then None else NonEmpty(installer.value.sha256)
    case InstallerItemSize => if installer.None? then None else OptionalSizeOf(installer.value.sizeKB)
    case IconName => if objects.icon.None? then None else NonEmpty(IconNameOf(objects.icon.value))
    case IconHash => if objects.icon.None? then None else NonEmpty(objects.icon.value.sha256)
    case _ => None
  }

  function RenderedSpecial(pkg: Package, key: Key): Option<Document> {
    var m := pkg.metadata;
    match key
    case Name => Some(Text(pkg.software.name))
    case Version => Some(Text(TextOf(m.texts, Version)))
    case InstallerType =>
      if TextOf(m.texts, InstallerType) == INSTALLER_TYPE_PKG then None else NonEmpty(TextOf(m.texts, InstallerType))
    case DownloadOnLowData =>
      if TextOf(m.texts, DownloadOnLowData) == DOWNLOAD_AUTO then None
      else NonEmpty(TextOf(m.texts, DownloadOnLowData))
    case NativeRestartAction => NonEmpty(TextOf(m.texts, RestartAction))
    case NativeRestartActionForUninstall => NonEmpty(TextOf(m.texts, RestartActionForUninstall))
    case NativeOnDemand => if OnDemand in m.switches then Some(Bool(true)) else None
    case SupportedArchitectures => OptionalList(Texts(m.architectures).items)
    case BlockingApplications =>
      if BlockingApplicationsNone in m.switches then Some(Array([]))
      else OptionalList(Texts(m.blockingApplications).items)
    case CustomActionLabels =>
      if TextMembers(m.actionLabels) == map[] then None else Some(Object(TextMembers(m.actionLabels)))
    case ForceInstallAfterDate => if m.forceInstallAfter.None? then None else Some(Text(m.forceInstallAfter.value))
    case InstalledSize => OptionalSizeOf(m.installedSize)
    case _ => None
  }

  ghost predicate RendersField(pkg: Package, objects: Objects, fields: Fields, key: Key) {
    Field(fields, key) == Rendered(pkg, objects, key)
  }

  /** A document with exactly the rendered fields. */
  ghost predicate IsRendering(pkg: Package, objects: Objects, fields: Fields) {
    forall key :: RendersField(pkg, objects, fields, key)
  }

  function Field(fields: Fields, key: Key): Option<Document> {
    if key in fields then Some(fields[key]) else None
  }

  // ------------------------------------------------------------------ field by field

  predicate IsIdentity(key: Key) {
    key.Name? || IsSoftware(key) || IsInstaller(key)
  }

  predicate IsNativeText(key: Key) {
    (IsText(key) && !key.RestartAction? && !key.RestartActionForUninstall?)
    || key.NativeRestartAction? || key.NativeRestartActionForUninstall?
  }

  predicate IsNativeSwitch(key: Key) {
    (IsSwitch(key) && !key.OnDemand? && !key.BlockingApplicationsNone?) || key.NativeOnDemand?
  }

  predicate IsSmall(key: Key) {
    key.SupportedArchitectures? || key.BlockingApplications? || key.CustomActionLabels?
    || key.ForceInstallAfterDate? || key.InstalledSize? || key.PreinstallAlert? || key.PreuninstallAlert?
  }

  function IdentityKeys(): (keys: set<Key>)
    ensures forall key :: key in keys <==> IsIdentity(key)
  {
    {Name, DisplayName, Description, Category, Developer, IconName, IconHash,
     InstallerItemLocation, InstallerItemHash, InstallerItemSize}
  }

  function TextKeys(): (keys: set<Key>)
    ensures forall key :: key in keys <==> IsNativeText(key) && !IsScript(key)
  {
    {Version, InstallerType, UninstallMethod, NativeRestartAction, NativeRestartActionForUninstall,
     MinimumMunkiVersion, MinimumOSVersion, MaximumOSVersion, InstallableCondition, QuitScript,
     DownloadOnLowData, PackagePath, Notes}
  }

  predicate IsScript(key: Key) {
    key.InstallcheckScript? || key.UninstallcheckScript? || key.PreinstallScript? || key.PostinstallScript?
    || key.PreuninstallScript? || key.PostuninstallScript? || key.UninstallScript? || key.VersionScript?
  }

  function ScriptKeys(): (keys: set<Key>)
    ensures forall key :: key in keys <==> IsScript(key)
  {
    {InstallcheckScript, UninstallcheckScript, PreinstallScript, PostinstallScript,
     PreuninstallScript, PostuninstallScript, UninstallScript, VersionScript}
  }

  function SwitchKeys(): (keys: set<Key>)
    ensures forall key :: key in keys <==> IsNativeSwitch(key)
  {
    {UnattendedInstall, UnattendedUninstall, Uninstallable, ManualQuitOnly, NativeOnDemand,
     Precache, Autoremove, AppleItem}
  }

  function SmallKeys(): (keys: set<Key>)
    ensures forall key :: key in keys <==> IsSmall(key)
  {
    {SupportedArchitectures, BlockingApplications, CustomActionLabels, ForceInstallAfterDate,
     InstalledSize, PreinstallAlert, PreuninstallAlert}
  }

  /** Marshal the fields that have a value. */
  method Marshal(keys: set<Key>, value: Key -> Option<Document>) returns (fields: Fields)
    ensures forall key :: Field(fields, key) == (if key in keys then value(key) else None)
  {
    fields := map[];
    var pending := keys;
    while pending != {}
      invariant pending <= keys
      invariant forall key :: key in keys && key !in pending ==> Field(fields, key) == value(key)
      invariant forall key :: key !in keys || key in pending ==> Field(fields, key) == None
      decreases pending
    {
      var key :| key in pending;
      pending := pending - {key};
      if value(key).Some? {
        fields := fields[key := value(key).value];
      }
    }
  }

  method ReferenceList(refs: seq<Reference>) returns (names: seq<Document>)
    ensures names == ReferenceNames(refs)
  {
    names := AppendAll(NameOf, refs);
  }

  method LaunchMap(entries: seq<LaunchArguments>) returns (members: Fields)
    ensures members == LaunchMembers(entries)
  {
    members := map[];
    for i := 0 to |entries|
      invariant members == LaunchMembers(entries[..i])
    {
      assert entries[..i + 1][..i] == entries[..i];
      members := members[Custom(entries[i].application) := Texts(entries[i].arguments)];
    }
    assert entries[..|entries|] == entries;
  }

  method EnvironmentMap(variables: seq<Variable>) returns (members: Fields)
    ensures members == EnvironmentMembers(variables)
  {
    members := map[];
    for i := 0 to |variables|
      invariant members == EnvironmentMembers(variables[..i])
    {
      assert variables[..i + 1][..i] == variables[..i];
      members := members[Custom(variables[i].name) := Text(variables[i].value)];
    }
    assert variables[..|variables|] == variables;
  }

  method RowList(kind: RowKind, rows: seq<Fields>) returns (native: seq<Document>)
    ensures native == NativeRows(kind, rows)
  {
    native := AppendAll(row => NativeRow(kind, row), rows);
  }

  method RemovalList(rows: seq<Fields>) returns (removals: seq<Document>)
    ensures removals == Removals(rows)
  {
    removals := AppendAll(Removal, rows);
  }

  function RowKeys(): (keys: set<Key>)
    ensures forall key :: key in keys <==> IsRows(key)
  {
    {Requires, UpdateFor, InstallerChoicesXML, Installs, Receipts, ItemsToCopy, ItemsToRemove, LaunchArgs,
     InstallerEnvironment}
  }

  function NativeKeys(): set<Key> {
    IdentityKeys() + TextKeys() + ScriptKeys() + SwitchKeys() + SmallKeys() + RowKeys()
  }

  lemma RenderedIsNative(pkg: Package, objects: Objects, key: Key)
    requires !IsIdentity(key) && !IsNativeText(key) && !IsNativeSwitch(key) && !IsSmall(key) && !IsRows(key)
    ensures Rendered(pkg, objects, key) == None
  {}

  /** The lists and maps that are built for the document. */
  datatype Converted = Converted(
    requirements: seq<Document>,
    updates: seq<Document>,
    arguments: Fields,
    environment: Fields,
    choices: seq<Document>,
    installs: seq<Document>,
    receipts: seq<Document>,
    copies: seq<Document>,
    removals: seq<Document>)

  method Convert(pkg: Package) returns (c: Converted)
    ensures IsConversion(pkg, c)
  {
    var m := pkg.metadata;
    var requirements := ReferenceList(pkg.requirements);
    var updates := ReferenceList(pkg.updateFor);
    var arguments := LaunchMap(m.launchArguments);
    var environment := EnvironmentMap(m.environment);
    var choices := RowList(ChoiceRow, m.choices);
    var installs := RowList(InstallRow, m.installs);
    var receipts := RowList(ReceiptRow, m.receipts);
    var copies := RowList(CopyRow, m.itemsToCopy);
    var removals := RemovalList(m.itemsToCopy);
    c := Converted(requirements, updates, arguments, environment, choices, installs, receipts, copies, removals);
  }

  function ValueOf(pkg: Package, objects: Objects, c: Converted, key: Key): Option<Document> {
    var m := pkg.metadata;
    match key
    case Requires => OptionalList(c.requirements)
    case UpdateFor => OptionalList(c.updates)
    case LaunchArgs => if m.launchArguments == [] then None else Some(Object(c.arguments))
    case InstallerEnvironment => if m.environment == [] then None else Some(Object(c.environment))
    case InstallerChoicesXML => OptionalList(c.choices)
    case Installs => OptionalList(c.installs)
    case Receipts => OptionalList(c.receipts)
    case ItemsToCopy => OptionalList(c.copies)
    case ItemsToRemove =>
      if TextOf(m.texts, UninstallMethod) != REMOVE_COPIED_ITEMS then None else OptionalList(c.removals)
    case _ => Rendered(pkg, objects, key)
  }

  /** munkiPkginfoFromPackage: convert the lists, then marshal field by field. */
  method Render(pkg: Package, objects: Objects) returns (fields: Fields)
    ensures IsRendering(pkg, objects, fields)
  {
    var converted := Convert(pkg);
    fields := Marshal(NativeKeys(), key => ValueOf(pkg, objects, converted, key));
    forall key ensures RendersField(pkg, objects, fields, key) {
      FieldIsRendered(pkg, objects, converted, key, Field(fields, key));
    }
  }

  ghost predicate IsConversion(pkg: Package, c: Converted) {
    c == Converted(
      ReferenceNames(pkg.requirements), ReferenceNames(pkg.updateFor),
      LaunchMembers(pkg.metadata.launchArguments), EnvironmentMembers(pkg.metadata.environment),
      NativeRows(ChoiceRow, pkg.metadata.choices), NativeRows(InstallRow, pkg.metadata.installs),
      NativeRows(ReceiptRow, pkg.metadata.receipts), NativeRows(CopyRow, pkg.metadata.itemsToCopy),
      Removals(pkg.metadata.itemsToCopy))
  }

  lemma ValueIsRendered(pkg: Package, objects: Objects, c: Converted, key: Key)
    requires IsConversion(pkg, c)
    ensures ValueOf(pkg, objects, c, key) == Rendered(pkg, objects, key)
  {}

  lemma FieldIsRendered(pkg: Package, objects: Objects, c: Converted, key: Key, field: Option<Document>)
    requires IsConversion(pkg, c)
    requires field == if key in NativeKeys() then ValueOf(pkg, objects, c, key) else None
    ensures field == Rendered(pkg, objects, key)
  {
    ValueIsRendered(pkg, objects, c, key);
    if key !in NativeKeys() {
      RenderedIsNative(pkg, objects, key);
    }
  }

  /** Pkginfo: an installer-backed package needs its finalized installer. */
  method RenderPkginfo(pkg: Package, objects: Objects) returns (fields: Option<Fields>)
    ensures fields.Some? <==> TextOf(pkg.metadata.texts, InstallerType) == INSTALLER_TYPE_NOPKG
                              || (objects.installer.Some? && objects.installer.value.available)
    ensures fields.Some? ==> IsRendering(pkg, objects, fields.value)
  {
    if TextOf(pkg.metadata.texts, InstallerType) != INSTALLER_TYPE_NOPKG {
      if objects.installer.None? || !objects.installer.value.available {
        return None;
      }
    }
    var rendered := Render(pkg, objects);
    fields := Some(rendered);
  }
}

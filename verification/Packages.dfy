/** Munki packages as the repository stores them. */
module Packages {
  import opened Basics
  import opened MergePatch

  /** The member names of a package document. The native Munki name of a field is a
      name of its own only where it differs from the name the API uses. Custom
      covers every other name: applications, environment variables and names no
      package document may have. */
  datatype Key =
    // identity and software
    | Name | DisplayName | Description | Category | Developer
    // plain text
    | Version | InstallerType | UninstallMethod | RestartAction | RestartActionForUninstall
    | MinimumMunkiVersion | MinimumOSVersion | MaximumOSVersion | InstallableCondition
    | QuitScript | DownloadOnLowData | PackagePath | Notes
    | InstallcheckScript | UninstallcheckScript | PreinstallScript | PostinstallScript
    | PreuninstallScript | PostuninstallScript | UninstallScript | VersionScript
    | NativeRestartAction | NativeRestartActionForUninstall
    // switches
    | UnattendedInstall | UnattendedUninstall | Uninstallable | BlockingApplicationsNone
    | ManualQuitOnly | OnDemand | NativeOnDemand | Precache | Autoremove | AppleItem
    // other scalars
    | ForceInstallAfterDate | InstalledSize | InstallerObjectID
    // lists and objects
    | SupportedArchitectures | BlockingApplications | LaunchArgs | CustomActionLabels
    | Requires | UpdateFor | InstallerChoicesXML | InstallerEnvironment | Installs | Receipts
    | ItemsToCopy | ItemsToRemove | PreinstallAlert | PreuninstallAlert
    // stored objects and repository fields
    | InstallerItemLocation | InstallerItemHash | InstallerItemSize
    | IconName | IconHash | Catalogs
    // members of nested objects
    | Application | Arguments | VariableName | VariableValue
    | Enabled | Title | Detail | OKLabel | CancelLabel | NativeTitle | NativeDetail
    | LabelInstall | LabelInstalling | LabelInstalled | LabelRemove | LabelRemoving | LabelUpdate
    | ReceiptPackageID | NativeReceiptPackageID | RowVersion | RowName | RowInstalledSize | Optional
    | RowType | RowPath | BundleIdentifier | BundleName | BundleShortVersion | BundleVersion
    | NativeBundleIdentifier | NativeBundleName | NativeBundleShortVersion | NativeBundleVersion
    | VersionComparisonKey | MinimumUpdateVersion | MD5Checksum
    | RowMinimumOSVersion | NativeMinimumOSVersion | RowInstallerItemLocation
    | ChoiceIdentifier | ChoiceAttribute | AttributeSetting
    | NativeChoiceIdentifier | NativeChoiceAttribute | NativeAttributeSetting
    | SourceItem | DestinationPath | DestinationItem | User | Group | Mode
    | Custom(text: string)

  type Document = Json<Key>
  type Fields = map<Key, Json<Key>>

  /** A hydrated relation to software and optionally to one of its versions. */
  datatype Reference = Reference(
    softwareID: Id,
    packageID: Id,
    softwareName: string,
    packageVersion: string)

  datatype Software = Software(
    id: Id,
    name: string,
    displayName: Option<string>,
    description: string,
    category: string,
    developer: string,
    iconObjectID: Option<Id>)

  datatype LaunchArguments = LaunchArguments(application: string, arguments: seq<string>)

  datatype Variable = Variable(name: string, value: string)

  /** texts are those of Title, Detail, OKLabel and CancelLabel that are not empty. */
  datatype Alert = Alert(enabled: bool, texts: map<Key, string>)

  /** The editable metadata of a package version. Text and switch fields are kept
      under their API names: texts holds those that are not empty, switches those
      that are on. An installer choice, installs item, receipt or item to copy is the
      object its json tags give. A nil list is an empty one. */
  datatype Metadata = Metadata(
    texts: map<Key, string>,
    switches: set<Key>,
    installedSize: int,
    forceInstallAfter: Option<string>,
    architectures: seq<string>,
    blockingApplications: seq<string>,
    launchArguments: seq<LaunchArguments>,
    actionLabels: map<Key, string>,
    choices: seq<Fields>,
    environment: seq<Variable>,
    installs: seq<Fields>,
    receipts: seq<Fields>,
    itemsToCopy: seq<Fields>,
    preinstallAlert: Alert,
    preuninstallAlert: Alert)

  datatype Package = Package(
    id: Id,
    software: Software,
    metadata: Metadata,
    requirements: seq<Reference>,
    updateFor: seq<Reference>,
    installerObjectID: Option<Id>)

  /** An object of the blob store: opaque content behind an id, a filename and,
      once finalized, a hash and a size in KiB. */
  datatype StoredObject = StoredObject(
    id: Id,
    filename: string,
    available: bool,
    sha256: string,
    sizeKB: nat)

  const INSTALLER_TYPE_PKG := "pkg"
  const INSTALLER_TYPE_NOPKG := "nopkg"
  const COPY_FROM_DMG := "copy_from_dmg"
  const DOWNLOAD_AUTO := "auto"
  const REMOVE_COPIED_ITEMS := "remove_copied_items"
}

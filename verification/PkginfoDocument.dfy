/** What a rendered document says, field by field and in the texts it is written in. */
module PkginfoDocument {
  import opened Basics
  import opened MergePatch
  import opened Packages
  import opened Pkginfo
  import opened PkginfoRoundTrip
  import opened Renaming
  import opened Strings

  /** What a rendering says of the installer: nothing for a package without one, and
      otherwise its hash and size as far as they are known. */
  lemma InstallerIsWritten(pkg: Package, objects: Objects, fields: Fields)
    requires IsRendering(pkg, objects, fields)
    ensures objects.installer.None? || TextOf(pkg.metadata.texts, InstallerType) == "nopkg" ==>
      InstallerItemLocation !in fields && InstallerItemHash !in fields && InstallerItemSize !in fields
    ensures objects.installer.Some? && TextOf(pkg.metadata.texts, InstallerType) != "nopkg" ==>
      Field(fields, InstallerItemHash)
        == (if objects.installer.value.sha256 == "" then None else Some(Text(objects.installer.value.sha256)))
      && Field(fields, InstallerItemSize)
        == (if objects.installer.value.sizeKB == 0 then None
            else Some(Number(FormatInt(objects.installer.value.sizeKB))))
  {
    assert RendersField(pkg, objects, fields, InstallerItemLocation);
    assert RendersField(pkg, objects, fields, InstallerItemHash);
    assert RendersField(pkg, objects, fields, InstallerItemSize);
  }

  lemma LocationIsWritten(pkg: Package, objects: Objects, fields: Fields)
    requires IsRendering(pkg, objects, fields)
    ensures objects.installer.Some? && TextOf(pkg.metadata.texts, InstallerType) != "nopkg" ==>
      Field(fields, InstallerItemLocation)
        == if pkg.id.number == 0 || objects.installer.value.id.number == 0 || objects.installer.value.filename == ""
           then None
           else Some(Text("packages/" + FormatInt(pkg.id.number) + "/installer/" + objects.installer.value.filename))
  {
    assert RendersField(pkg, objects, fields, InstallerItemLocation);
  }

  /** And of the icon. */
  lemma IconIsWritten(pkg: Package, objects: Objects, fields: Fields)
    requires IsRendering(pkg, objects, fields)
    ensures objects.icon.None? ==> IconName !in fields && IconHash !in fields
    ensures objects.icon.Some? ==>
      Field(fields, IconHash)
        == (if objects.icon.value.sha256 == "" then None else Some(Text(objects.icon.value.sha256)))
      && Field(fields, IconName)
        == if objects.icon.value.id.number == 0 || objects.icon.value.filename == "" then None
           else Some(Text(FormatInt(objects.icon.value.id.number) + "-" + objects.icon.value.filename))
  {
    assert RendersField(pkg, objects, fields, IconName);
    assert RendersField(pkg, objects, fields, IconHash);
  }

  /** Munki's own defaults are left out. */
  lemma DefaultsAreLeftOut(pkg: Package, objects: Objects, fields: Fields)
    requires IsRendering(pkg, objects, fields)
    ensures var text := TextOf(pkg.metadata.texts, InstallerType);
      Field(fields, InstallerType) == if text == "" || text == "pkg" then None else Some(Text(text))
    ensures var text := TextOf(pkg.metadata.texts, DownloadOnLowData);
      Field(fields, DownloadOnLowData) == if text == "" || text == "auto" then None else Some(Text(text))
  {
    assert RendersField(pkg, objects, fields, InstallerType);
    assert RendersField(pkg, objects, fields, DownloadOnLowData);
  }

  /** The software's own fields; an empty one is left out, but not a display name. */
  lemma SoftwareIsWritten(pkg: Package, objects: Objects, fields: Fields)
    requires IsRendering(pkg, objects, fields)
    ensures Field(fields, Name) == Some(Text(pkg.software.name))
    ensures Field(fields, DisplayName)
         == if pkg.software.displayName.None? then None else Some(Text(pkg.software.displayName.value))
    ensures Field(fields, Description)
         == if pkg.software.description == "" then None else Some(Text(pkg.software.description))
    ensures Field(fields, Category) == if pkg.software.category == "" then None else Some(Text(pkg.software.category))
    ensures Field(fields, Developer)
         == if pkg.software.developer == "" then None else Some(Text(pkg.software.developer))
  {
    assert RendersField(pkg, objects, fields, Name);
    assert RendersField(pkg, objects, fields, DisplayName);
    assert RendersField(pkg, objects, fields, Description);
    assert RendersField(pkg, objects, fields, Category);
    assert RendersField(pkg, objects, fields, Developer);
  }

  /** A reference is written as the software's name, and the version after two dashes if
      there is one. */
  lemma ReferencesAreWritten(pkg: Package, objects: Objects, fields: Fields)
    requires IsRendering(pkg, objects, fields)
    ensures Requires in fields <==> pkg.requirements != []
    ensures UpdateFor in fields <==> pkg.updateFor != []
    ensures Requires in fields ==>
      fields[Requires].Array? && |fields[Requires].items| == |pkg.requirements|
      && forall i :: 0 <= i < |pkg.requirements| ==> IsNameOf(pkg.requirements[i], fields[Requires].items[i])
    ensures UpdateFor in fields ==>
      fields[UpdateFor].Array? && |fields[UpdateFor].items| == |pkg.updateFor|
      && forall i :: 0 <= i < |pkg.updateFor| ==> IsNameOf(pkg.updateFor[i], fields[UpdateFor].items[i])
  {
    assert RendersField(pkg, objects, fields, Requires);
    assert RendersField(pkg, objects, fields, UpdateFor);
  }

  predicate IsNameOf(ref: Reference, name: Document) {
    name == Text(if Trim(ref.packageVersion) == "" then Trim(ref.softwareName)
                 else Trim(ref.softwareName) + "--" + Trim(ref.packageVersion))
  }

  /** Only remove_copied_items has items to remove: of every copied item what it copied and
      where to, under the same names. */
  lemma RemovalsAreWritten(pkg: Package, objects: Objects, fields: Fields)
    requires IsRendering(pkg, objects, fields)
    ensures ItemsToRemove in fields <==>
      TextOf(pkg.metadata.texts, UninstallMethod) == "remove_copied_items" && pkg.metadata.itemsToCopy != []
    ensures ItemsToRemove in fields ==>
      fields[ItemsToRemove].Array? && |fields[ItemsToRemove].items| == |pkg.metadata.itemsToCopy|
      && forall i :: 0 <= i < |pkg.metadata.itemsToCopy| ==>
           IsRemovalOf(pkg.metadata.itemsToCopy[i], fields[ItemsToRemove].items[i])
  {
    assert RendersField(pkg, objects, fields, ItemsToRemove);
    forall row: Fields ensures IsRemovalOf(row, Removal(row)) {}
  }

  ghost predicate IsRemovalOf(row: Fields, removal: Document) {
    removal.Object?
    && Field(removal.members, SourceItem) == Field(row, SourceItem)
    && Field(removal.members, DestinationPath) == Field(row, DestinationPath)
    && Field(removal.members, DestinationItem) == Field(row, DestinationItem)
    && forall key :: key in removal.members ==> key == SourceItem || key == DestinationPath || key == DestinationItem
  }

  /** A repeated application keeps the arguments of its last entry. */
  lemma {:induction false} LaunchKeepsLast(entries: seq<LaunchArguments>, i: nat)
    requires i < |entries|
    requires forall j :: i < j < |entries| ==> entries[j].application != entries[i].application
    ensures Custom(entries[i].application) in LaunchMembers(entries)
    ensures var value := LaunchMembers(entries)[Custom(entries[i].application)];
      value.Array? && |value.items| == |entries[i].arguments|
      && forall k :: 0 <= k < |value.items| ==> value.items[k] == Text(entries[i].arguments[k])
  {
    if i < |entries| - 1 {
      LaunchKeepsLast(entries[..|entries| - 1], i);
    }
  }

  /** And a repeated variable its last value. */
  lemma {:induction false} EnvironmentKeepsLast(variables: seq<Variable>, i: nat)
    requires i < |variables|
    requires forall j :: i < j < |variables| ==> variables[j].name != variables[i].name
    ensures Field(EnvironmentMembers(variables), Custom(variables[i].name)) == Some(Text(variables[i].value))
  {
    if i < |variables| - 1 {
      EnvironmentKeepsLast(variables[..|variables| - 1], i);
    }
  }

  lemma RenamedHas<K(!new), V>(rename: K -> K, back: K -> K, row: map<K, V>, key: K)
    requires key in row && back(rename(key)) == key
    ensures Lookup(Renamed(rename, back, row), rename(key)) == Some(row[key])
  {
    assert rename(key) in set k | k in row :: rename(k);
  }

  /** What the members of rows are called in the document. */
  lemma NativeNamesAre()
    ensures NativeMember(ReceiptRow, ReceiptPackageID) == NativeReceiptPackageID
    ensures NativeMember(ReceiptRow, RowVersion) == RowVersion && NativeMember(ReceiptRow, RowName) == RowName
    ensures NativeMember(ReceiptRow, RowInstalledSize) == RowInstalledSize
    ensures NativeMember(ReceiptRow, Optional) == Optional
    ensures NativeMember(InstallRow, BundleIdentifier) == NativeBundleIdentifier
    ensures NativeMember(InstallRow, BundleName) == NativeBundleName
    ensures NativeMember(InstallRow, BundleShortVersion) == NativeBundleShortVersion
    ensures NativeMember(InstallRow, BundleVersion) == NativeBundleVersion
    ensures NativeMember(InstallRow, RowMinimumOSVersion) == NativeMinimumOSVersion
    ensures NativeMember(InstallRow, RowType) == RowType && NativeMember(InstallRow, RowPath) == RowPath
    ensures NativeMember(InstallRow, VersionComparisonKey) == VersionComparisonKey
    ensures NativeMember(InstallRow, MinimumUpdateVersion) == MinimumUpdateVersion
    ensures NativeMember(InstallRow, MD5Checksum) == MD5Checksum
    ensures NativeMember(InstallRow, RowInstallerItemLocation) == RowInstallerItemLocation
    ensures NativeMember(ChoiceRow, ChoiceIdentifier) == NativeChoiceIdentifier
    ensures NativeMember(ChoiceRow, ChoiceAttribute) == NativeChoiceAttribute
    ensures NativeMember(ChoiceRow, AttributeSetting) == NativeAttributeSetting
    ensures NativeMember(CopyRow, SourceItem) == SourceItem && NativeMember(CopyRow, DestinationPath) == DestinationPath
    ensures NativeMember(CopyRow, DestinationItem) == DestinationItem && NativeMember(CopyRow, User) == User
    ensures NativeMember(CopyRow, Group) == Group && NativeMember(CopyRow, Mode) == Mode
  {}

  /** A row's members keep their values under their native names. */
  lemma RowKeepsValues(kind: RowKind, row: Fields, key: Key)
    requires key in row && MemberTypeOf(kind, key).Some?
    ensures NativeRow(kind, row).Object?
    ensures Field(NativeRow(kind, row).members, NativeMember(kind, key)) == Some(row[key])
  {
    MemberNames(kind, key);
    RenamedHas(Nativized(kind), Denativized(kind), row, key);
  }
}

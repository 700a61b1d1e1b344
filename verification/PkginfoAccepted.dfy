/** What a document must be to be imported, in the texts and values it may have, and what
    its names and references are read as. */
module PkginfoAccepted {
  import opened Basics
  import opened MergePatch
  import opened PackageMutations
  import opened Packages
  import opened Pkginfo
  import opened PkginfoImport
  import opened Strings

  // ------------------------------------------------------------------------- names

  lemma OccursLater(s: string, sep: string, k: nat, i: nat)
    requires k <= |s|
    ensures OccursAt(s[k..], sep, i) <==> OccursAt(s, sep, k + i)
    ensures i + |sep| <= |s| - k ==> s[k..][i + |sep|..] == s[k + i + |sep|..]
  {
    if i + |sep| <= |s| - k {
      assert s[k..][i..i + |sep|] == s[k + i..k + i + |sep|];
    }
  }

  /** What follows the last double dash has none itself and ends the name. */
  lemma {:induction false} AfterDashesEnds(name: string) returns (i: nat)
    ensures !Contains(AfterDashes(name), "--")
    ensures !Contains(name, "--") ==> AfterDashes(name) == name
    ensures Contains(name, "--") ==> OccursAt(name, "--", i) && AfterDashes(name) == name[i + 2..]
    decreases |name|
  {
    i := 0;
    var first := IndexFrom(name, "--", 0);
    if first.Some? {
      var k := first.value + 2;
      assert Cut(name, "--").after == name[k..];
      assert AfterDashes(name) == AfterDashes(name[k..]);
      i := AfterDashesEnds(name[k..]);
      OccursLater(name, "--", k, i);
      i := if Contains(name[k..], "--") then k + i else first.value;
    }
  }

  lemma AfterDashEnds(name: string)
    ensures '-' !in AfterDash(name)
    ensures if '-' in name then exists i :: 0 <= i < |name| && name[i] == '-' && AfterDash(name) == name[i + 1..]
            else AfterDash(name) == name
  {}

  /** A name is valid when it is not blank, has no slash, and does not end in a dash or a
      double dash and something that starts with a digit, as a version does. */
  lemma ValidNames(name: string)
    ensures ValidName(name) <==>
      Trim(name) != "" && '/' !in name
      && !('-' in name && AfterDash(name) != "" && '0' <= AfterDash(name)[0] <= '9')
      && !(Contains(name, "--") && AfterDashes(name) != "" && '0' <= AfterDashes(name)[0] <= '9')
  {
    var found := IndexFrom(name, "--", 0);
    assert found.Some? <==> Contains(name, "--");
  }

  lemma CutAt(text: string, sep: string, i: nat)
    requires OccursAt(text, sep, i) && forall j: nat :: j < i ==> !OccursAt(text, sep, j)
    ensures Cut(text, sep) == CutResult(text[..i], text[i + |sep|..], true)
  {
    var found := IndexFrom(text, sep, 0);
    assert found == Some(i);
  }

  /** A reference without a double dash is a name alone. */
  lemma NameAloneIsRead(nfc: string -> string, text: string)
    requires !Contains(text, "--")
    ensures ParseReference(nfc, text) ==
      if ValidName(nfc(Trim(text))) then Some(NativeReference(nfc(Trim(text)), "")) else None
  {
    assert IndexFrom(text, "--", 0).None?;
    assert Trim("") == "";
  }

  /** Otherwise the name ends at the first one, and the rest is a version that may not be
      blank. */
  lemma ReferenceIsRead(nfc: string -> string, text: string, i: nat)
    requires OccursAt(text, "--", i) && forall j: nat :: j < i ==> !OccursAt(text, "--", j)
    ensures ParseReference(nfc, text) ==
      if ValidName(nfc(Trim(text[..i]))) && Trim(text[i + 2..]) != ""
      then Some(NativeReference(nfc(Trim(text[..i])), Trim(text[i + 2..]))) else None
  {
    CutAt(text, "--", i);
  }

  /** A list of references is read when all of its texts are, in order. */
  lemma ReferencesAreRead(nfc: string -> string, value: Document, references: seq<NativeReference>)
    ensures ReferencesIn(nfc, value) == Some(references) <==>
      value.Array? && |value.items| == |references|
      && forall i :: 0 <= i < |references| ==>
           (value.items[i].Text? && ParseReference(nfc, value.items[i].text) == Some(references[i]))
           || (value.items[i].Null? && ParseReference(nfc, "") == Some(references[i]))
  {
    StringsAreRead(value);
    var texts := StringsIn(value);
    if texts.Some? && |texts.value| == |references| {
      CollectIs(Parser(nfc), texts.value, references);
    }
    if texts.Some? && Collect(Parser(nfc), texts.value) == Some(references) {
      CollectSize(Parser(nfc), texts.value);
    }
  }

  lemma {:induction false} CollectSize<A, B>(f: A -> Option<B>, xs: seq<A>)
    ensures Collect(f, xs).Some? ==> |Collect(f, xs).value| == |xs|
  {
    if xs != [] {
      CollectSize(f, xs[..|xs| - 1]);
    }
  }

  /** A list of strings may have nulls, which are empty. */
  lemma StringsAreRead(value: Document)
    ensures StringsIn(value).Some? <==>
      value.Array? && forall i :: 0 <= i < |value.items| ==> value.items[i].Text? || value.items[i].Null?
    ensures StringsIn(value).Some? ==>
      |StringsIn(value).value| == |value.items|
      && forall i :: 0 <= i < |value.items| ==>
           (value.items[i].Text? ==> StringsIn(value).value[i] == value.items[i].text)
           && (value.items[i].Null? ==> StringsIn(value).value[i] == "")
  {}

  // -------------------------------------------------------------- the importable document

  /** The fields that must be there and the ones that must not. */
  lemma ImportableNames(nfc: string -> string, document: Fields)
    requires Importable(nfc, document)
    ensures Name in document && document[Name].Text? && ValidName(nfc(Trim(document[Name].text)))
    ensures RestartAction !in document && RestartActionForUninstall !in document && OnDemand !in document
    ensures BlockingApplicationsNone !in document && InstallerObjectID !in document
    ensures Catalogs !in document && IconName !in document && IconHash !in document
    ensures Version in document && document[Version].Text? && Trim(document[Version].text) != ""
    ensures InstallerType in document ==> document[InstallerType].Text? && Trim(document[InstallerType].text) != ""
  {}

  /** What the stored object and the software may be described by. */
  lemma InstallerFitsMeans(document: Fields)
    ensures InstallerFits(document) <==>
      (InstallerItemLocation in document ==> document[InstallerItemLocation].Text?)
      && (InstallerItemHash in document ==>
            document[InstallerItemHash].Text? && Trim(document[InstallerItemHash].text) != "")
      && (InstallerItemSize in document ==>
            document[InstallerItemSize].Number?
            && ParseInt(document[InstallerItemSize].literal).Some?
            && ParseInt(document[InstallerItemSize].literal).value >= 0)
  {}

  lemma SoftwareFitsMeans(document: Fields)
    ensures SoftwareFits(document) <==>
      (DisplayName in document ==> document[DisplayName].Text? || document[DisplayName].Null?)
      && (Description in document ==> document[Description].Text? || document[Description].Null?)
      && (Category in document ==> document[Category].Text? || document[Category].Null?)
      && (Developer in document ==> document[Developer].Text? || document[Developer].Null?)
  {
    assert IsSoftware(DisplayName) && IsSoftware(Description) && IsSoftware(Category) && IsSoftware(Developer);
    forall key | IsSoftware(key) ensures key in {DisplayName, Description, Category, Developer} {
      SoftwareKeysAre(key);
    }
  }

  lemma SoftwareKeysAre(key: Key)
    requires IsSoftware(key)
    ensures key in {DisplayName, Description, Category, Developer}
  {}

  /** Items to remove are accepted when remove_copied_items copies exactly them: of each
      copied item its source, destination path and destination item, in order. */
  lemma RemovalsFitMeans(document: Fields)
    requires ItemsToRemove in document
    ensures RemovalsFit(document) <==>
      UninstallMethod in document && document[UninstallMethod] == Text("remove_copied_items")
      && ItemsToCopy in document && AreMaps(document[ItemsToCopy]) && AreMaps(document[ItemsToRemove])
      && |document[ItemsToCopy].items| == |document[ItemsToRemove].items|
      && forall i :: 0 <= i < |document[ItemsToCopy].items| ==>
           Copies(document[ItemsToCopy].items[i], document[ItemsToRemove].items[i])
  {
    forall copy: Document, item: Document ensures RemovalOf(copy) == item <==> Copies(copy, item) {
      RemovalCopies(copy, item);
    }
  }

  ghost predicate Copies(copy: Document, item: Document) {
    if copy.Object? then
      item.Object?
      && Field(item.members, SourceItem) == Field(copy.members, SourceItem)
      && Field(item.members, DestinationPath) == Field(copy.members, DestinationPath)
      && Field(item.members, DestinationItem) == Field(copy.members, DestinationItem)
      && forall key :: key in item.members ==> key == SourceItem || key == DestinationPath || key == DestinationItem
    else item == copy
  }

  lemma RemovalCopies(copy: Document, item: Document)
    ensures RemovalOf(copy) == item <==> Copies(copy, item)
  {
    if copy.Object? && Copies(copy, item) {
      var removal := Removal(copy.members).members;
      forall key ensures key in removal <==> key in item.members {}
      assert removal == item.members;
    }
  }

  /** The lists of maps that decoding allows. */
  lemma MapsMean(value: Document)
    ensures AreMaps(value) <==>
      value.Array? && forall item :: item in value.items ==> item.Object? || item == Null
  {}

  /** An alert is null, or an object of native members, and comes back with Munki's names
      undone and enabled. */
  lemma AlertsAreRead(value: Document)
    requires value != Null
    ensures ImportAlert(value).Some? <==>
      value.Object? && forall key :: key in value.members ==>
        key == NativeTitle || key == NativeDetail || key == OKLabel || key == CancelLabel
    ensures ImportAlert(value).Some? ==>
      ImportAlert(value).value.Object? && Field(ImportAlert(value).value.members, Enabled) == Some(Bool(true))
  {}

  lemma NullAlertIsRead()
    ensures ImportAlert(Null) == Some(Object(map[Enabled := Bool(false)]))
  {}

  /** Two texts first differ at i, where the first has the lesser character. */
  ghost predicate IsLessAt(a: string, b: string, i: int) {
    0 <= i < |a| && i < |b| && a[..i] == b[..i] && a[i] < b[i]
  }

  lemma LessLater(a: string, b: string, i: nat)
    requires a != "" && b != ""
    ensures IsLessAt(a, b, i + 1) <==> a[0] == b[0] && IsLessAt(a[1..], b[1..], i)
  {
    if i + 1 < |a| && i + 1 < |b| {
      assert a[..i + 1] == [a[0]] + a[1..][..i] && b[..i + 1] == [b[0]] + b[1..][..i];
      assert a[..i + 1][1..] == a[1..][..i] && b[..i + 1][1..] == b[1..][..i];
    }
  }

  lemma BeginsLater(a: string, b: string)
    requires a != "" && b != "" && |a| < |b|
    ensures a == b[..|a|] <==> a[0] == b[0] && a[1..] == b[1..][..|a| - 1]
  {
    assert a == [a[0]] + a[1..] && b[..|a|] == [b[0]] + b[1..][..|a| - 1];
  }

  /** Names are sorted as a dictionary does: a text comes before another that it begins,
      or that has a greater character where the two first differ. */
  lemma {:induction false} LessByPosition(a: string, b: string)
    ensures Less(a, b) <==> (|a| < |b| && a == b[..|a|]) || exists i :: IsLessAt(a, b, i)
  {
    if a != "" && b != "" {
      LessByPosition(a[1..], b[1..]);
      if |a| < |b| {
        BeginsLater(a, b);
      }
      assert IsLessAt(a, b, 0) <==> a[0] < b[0];
      if i :| IsLessAt(a, b, i) {
        if i > 0 {
          LessLater(a, b, i - 1);
        }
      }
      if i :| IsLessAt(a[1..], b[1..], i) {
        LessLater(a, b, i);
      }
    }
  }

  lemma {:induction false} LaunchListSize(members: Fields, names: seq<string>)
    ensures LaunchList(members, names).Some? ==> |LaunchList(members, names).value| == |names|
  {
    if names != [] {
      LaunchListSize(members, names[..|names| - 1]);
    }
  }

  lemma LaunchIsEmpty(document: Fields)
    requires LaunchIn(document).Some?
    ensures LaunchIn(document).value == [] <==> LaunchArgs in document ==> document[LaunchArgs] == Object(map[])
  {
    if LaunchArgs in document {
      var members := document[LaunchArgs].members;
      LaunchListSize(members, Sorted(NamesOf(members)));
      if key :| key in members {
        assert LabelOf(key) in NamesOf(members);
      } else {
        assert members == map[] && NamesOf(members) == {};
      }
    }
  }

  /** There are explicitly no blocking applications when their list is there and empty and
      nothing has launch arguments. */
  lemma BlockingIsRead(document: Fields)
    requires BlockingFits(document)
    ensures BlockingApplications in document ==>
      Imported(document, BlockingApplicationsNone) ==
        Some(Bool(document[BlockingApplications] == Array([])
                  && (LaunchArgs in document ==> document[LaunchArgs] == Object(map[]))))
    ensures BlockingApplications !in document ==>
      Imported(document, BlockingApplicationsNone) ==
        if LaunchArgs in document && document[LaunchArgs] != Object(map[]) then Some(Bool(false)) else None
  {
    ImportedLaunch(document);
    LaunchIsEmpty(document);
  }

  /** Launch arguments of no application at all are refused. */
  lemma EmptyLaunchIsRefused(parseTime: string -> Option<string>, document: Fields)
    requires LaunchArgs in document && document[LaunchArgs] == Object(map[])
    ensures !PatchFits(parseTime, document)
  {
    ImportedLaunch(document);
    assert NamesOf(map[]) == {};
    assert LaunchIn(document) == Some([]);
    assert Imported(document, LaunchArgs) == Some(Null);
    LaunchContract(parseTime, Null);
  }

  /** The hash of an accepted document is carried over as it is. */
  lemma HashIsCarried(nfc: string -> string, document: Fields, imported: Import)
    requires IsImport(nfc, document, imported) && InstallerFits(document)
    ensures InstallerItemHash in document ==> document[InstallerItemHash] == Text(imported.installerItemHash)
    ensures InstallerItemHash !in document ==> imported.installerItemHash == ""
  {}

  // ------------------------------------------------------------------- the contract

  /** The texts with values of their own. */
  lemma TextContract(parseTime: string -> Option<string>, value: Document)
    ensures AcceptsField(parseTime, Version, value) <==> value.Text? && value.text != ""
    ensures AcceptsField(parseTime, InstallerType, value) <==>
      value == Text("pkg") || value == Text("nopkg") || value == Text("copy_from_dmg")
    ensures AcceptsField(parseTime, UninstallMethod, value) <==>
      value == Null || value == Text("removepackages") || value == Text("remove_copied_items")
      || value == Text("uninstall_script")
    ensures AcceptsField(parseTime, RestartAction, value) <==>
      value == Null || value == Text("RequireLogout") || value == Text("RecommendRestart")
      || value == Text("RequireRestart") || value == Text("RequireShutdown")
    ensures AcceptsField(parseTime, RestartActionForUninstall, value) <==>
      value == Null || value == Text("None") || value == Text("RequireLogout") || value == Text("RecommendRestart")
      || value == Text("RequireRestart") || value == Text("RequireShutdown")
    ensures AcceptsField(parseTime, DownloadOnLowData, value) <==>
      value == Text("auto") || value == Text("always") || value == Text("never")
  {}

  /** Other texts may be anything and be cleared, and switches are on or off. */
  lemma PlainContract(parseTime: string -> Option<string>, key: Key, value: Document)
    requires ClassOf(key).PlainText? && !key.UninstallMethod?
    ensures AcceptsField(parseTime, key, value) <==> value.Text? || value.Null?
  {}

  lemma SwitchContract(parseTime: string -> Option<string>, key: Key, value: Document)
    requires IsSwitch(key)
    ensures AcceptsField(parseTime, key, value) <==> value.Bool?
  {}

  /** A field that the contract does not have is never accepted. */
  lemma ContractFields(parseTime: string -> Option<string>, key: Key, value: Document)
    requires AcceptsField(parseTime, key, value)
    ensures IsText(key) || IsSwitch(key)
            || key in {InstallerChoicesXML, Installs, Receipts, ItemsToCopy, PreinstallAlert, PreuninstallAlert,
                       InstalledSize, ForceInstallAfterDate, SupportedArchitectures, BlockingApplications,
                       LaunchArgs, CustomActionLabels, InstallerEnvironment}
  {}

  lemma ScalarContract(parseTime: string -> Option<string>, value: Document)
    ensures AcceptsField(parseTime, InstalledSize, value) <==>
      value.Number? && ParseInt(value.literal).Some? && ParseInt(value.literal).value >= 0
    ensures AcceptsField(parseTime, ForceInstallAfterDate, value) <==>
      value == Null || (value.Text? && parseTime(value.text).Some?)
  {}

  lemma ListContract(parseTime: string -> Option<string>, value: Document)
    ensures AcceptsField(parseTime, SupportedArchitectures, value) <==>
      value.Array? && forall item :: item in value.items ==> item.Text?
    ensures AcceptsField(parseTime, BlockingApplications, value) <==>
      value.Array? && forall item :: item in value.items ==> item.Text?
  {}

  /** Lists of objects with two members, of which the first names the entry. */
  lemma LaunchContract(parseTime: string -> Option<string>, value: Document)
    ensures AcceptsField(parseTime, LaunchArgs, value) <==>
      value.Array? && forall item :: item in value.items ==>
        item.Object? && item.members.Keys == {Application, Arguments}
        && item.members[Application].Text? && item.members[Application].text != ""
        && item.members[Arguments].Array?
        && forall argument :: argument in item.members[Arguments].items ==> argument.Text?
  {}

  lemma VariableContract(parseTime: string -> Option<string>, value: Document)
    ensures AcceptsField(parseTime, InstallerEnvironment, value) <==>
      value.Array? && forall item :: item in value.items ==>
        item.Object? && item.members.Keys == {VariableName, VariableValue}
        && item.members[VariableName].Text? && item.members[VariableName].text != ""
        && item.members[VariableValue].Text?
  {}

  /** The members of a receipt. */
  lemma ReceiptContract(value: Document)
    ensures AcceptsMember(ReceiptRow, ReceiptPackageID, value) <==> value.Text? && value.text != ""
    ensures AcceptsMember(ReceiptRow, RowVersion, value) <==> value.Text? || value.Null?
    ensures AcceptsMember(ReceiptRow, RowName, value) <==> value.Text? || value.Null?
    ensures AcceptsMember(ReceiptRow, RowInstalledSize, value) <==> NumberIn(value).GetOr(-1) >= 0
    ensures AcceptsMember(ReceiptRow, Optional, value) <==> value.Bool?
  {}

  lemma ReceiptKeys(key: Key, value: Document)
    requires AcceptsMember(ReceiptRow, key, value)
    ensures key in {ReceiptPackageID, RowVersion, RowName, RowInstalledSize, Optional}
  {}

  /** Of an installer choice. */
  lemma ChoiceContract(value: Document)
    ensures AcceptsMember(ChoiceRow, ChoiceIdentifier, value) <==> value.Text? && value.text != ""
    ensures AcceptsMember(ChoiceRow, ChoiceAttribute, value) <==> value.Text? || value.Null?
    ensures AcceptsMember(ChoiceRow, AttributeSetting, value) <==>
      NumberIn(value).Some? && -0x8000_0000 <= NumberIn(value).value <= 0x7FFF_FFFF
  {}

  lemma ChoiceKeys(key: Key, value: Document)
    requires AcceptsMember(ChoiceRow, key, value)
    ensures key in {ChoiceIdentifier, ChoiceAttribute, AttributeSetting}
  {}

  /** Of a copied item. */
  lemma CopyContract(value: Document)
    ensures AcceptsMember(CopyRow, SourceItem, value) <==> value.Text? && value.text != ""
    ensures AcceptsMember(CopyRow, DestinationPath, value) <==> value.Text? && value.text != ""
    ensures AcceptsMember(CopyRow, DestinationItem, value) <==> value.Text? || value.Null?
    ensures AcceptsMember(CopyRow, User, value) <==> value.Text? || value.Null?
    ensures AcceptsMember(CopyRow, Group, value) <==> value.Text? || value.Null?
    ensures AcceptsMember(CopyRow, Mode, value) <==> value.Text? || value.Null?
  {}

  lemma CopyKeys(key: Key, value: Document)
    requires AcceptsMember(CopyRow, key, value)
    ensures key in {SourceItem, DestinationPath, DestinationItem, User, Group, Mode}
  {}

  /** Of an installs item. */
  lemma InstallContract(value: Document)
    ensures AcceptsMember(InstallRow, RowType, value) <==>
      value == Text("application") || value == Text("bundle") || value == Text("plist") || value == Text("file")
    ensures AcceptsMember(InstallRow, RowPath, value) <==> value.Text? && value.text != ""
    ensures AcceptsMember(InstallRow, BundleIdentifier, value) <==> value.Text? || value.Null?
    ensures AcceptsMember(InstallRow, BundleName, value) <==> value.Text? || value.Null?
    ensures AcceptsMember(InstallRow, BundleShortVersion, value) <==> value.Text? || value.Null?
    ensures AcceptsMember(InstallRow, BundleVersion, value) <==> value.Text? || value.Null?
    ensures AcceptsMember(InstallRow, VersionComparisonKey, value) <==> value.Text? || value.Null?
    ensures AcceptsMember(InstallRow, MinimumUpdateVersion, value) <==> value.Text? || value.Null?
    ensures AcceptsMember(InstallRow, MD5Checksum, value) <==> value.Text? || value.Null?
    ensures AcceptsMember(InstallRow, RowMinimumOSVersion, value) <==> value.Text? || value.Null?
    ensures AcceptsMember(InstallRow, RowInstallerItemLocation, value) <==> value.Text? || value.Null?
  {}

  lemma InstallKeys(key: Key, value: Document)
    requires AcceptsMember(InstallRow, key, value)
    ensures key in {RowType, RowPath, BundleIdentifier, BundleName, BundleShortVersion, BundleVersion,
                    VersionComparisonKey, MinimumUpdateVersion, MD5Checksum, RowMinimumOSVersion,
                    RowInstallerItemLocation}
  {}

  /** What no row may leave out. */
  lemma RequiredMembers(row: Fields)
    ensures AcceptsRow(ReceiptRow, row) ==> ReceiptPackageID in row
    ensures AcceptsRow(InstallRow, row) ==> RowType in row && RowPath in row
    ensures AcceptsRow(ChoiceRow, row) ==> AttributeSetting in row
    ensures AcceptsRow(CopyRow, row) ==> SourceItem in row && DestinationPath in row
  {}

  /** Rows are lists of objects whose members are all allowed. */
  lemma RowsContract(kind: RowKind, value: Document)
    requires AcceptsRows(kind, value)
    ensures value.Array?
    ensures forall item :: item in value.items ==>
      item.Object? && forall key :: key in item.members ==> AcceptsMember(kind, key, item.members[key])
  {}

  lemma RowField(parseTime: string -> Option<string>, key: Key, value: Document)
    requires key == Receipts || key == Installs || key == InstallerChoicesXML || key == ItemsToCopy
    ensures AcceptsField(parseTime, key, value) ==>
      match key
      case Receipts => AcceptsRows(ReceiptRow, value)
      case Installs => AcceptsRows(InstallRow, value)
      case InstallerChoicesXML => AcceptsRows(ChoiceRow, value)
      case _ => AcceptsRows(CopyRow, value)
  {}

  /** Objects of texts that may be cleared: an alert's, which also says whether it is
      enabled, and the action labels. */
  lemma AlertContract(parseTime: string -> Option<string>, value: Document)
    requires AcceptsField(parseTime, PreinstallAlert, value) || AcceptsField(parseTime, PreuninstallAlert, value)
    ensures value.Object?
    ensures forall key :: key in value.members ==>
      (key == Enabled && value.members[key].Bool?)
      || (key in {Title, Detail, OKLabel, CancelLabel} && (value.members[key].Text? || value.members[key].Null?))
  {
    forall key | IsAlertText(key) ensures key in {Title, Detail, OKLabel, CancelLabel} {
      AlertTextsAre(key);
    }
  }

  lemma AlertTextsAre(key: Key)
    requires IsAlertText(key)
    ensures key in {Title, Detail, OKLabel, CancelLabel}
  {}

  lemma LabelContract(parseTime: string -> Option<string>, value: Document)
    requires AcceptsField(parseTime, CustomActionLabels, value)
    ensures value.Object?
    ensures forall key :: key in value.members ==>
      key in {LabelInstall, LabelInstalling, LabelInstalled, LabelRemove, LabelRemoving, LabelUpdate}
      && (value.members[key].Text? || value.members[key].Null?)
  {
    forall key | IsLabel(key)
      ensures key in {LabelInstall, LabelInstalling, LabelInstalled, LabelRemove, LabelRemoving, LabelUpdate}
    {
      LabelsAre(key);
    }
  }

  lemma LabelsAre(key: Key)
    requires IsLabel(key)
    ensures key in {LabelInstall, LabelInstalling, LabelInstalled, LabelRemove, LabelRemoving, LabelUpdate}
  {}
}

/** Which fields an import manages that the document does not name. */
module PkginfoOmissions {
  import opened Basics
  import opened MergePatch
  import opened PackageMutations
  import opened Packages
  import opened Pkginfo
  import opened PkginfoImport
  import opened PkginfoRoundTrip
  import opened Strings

  /** The native field that a field of the patch is about. */
  function NativeSource(key: Key): Key {
    match key
    case RestartAction => NativeRestartAction
    case RestartActionForUninstall => NativeRestartActionForUninstall
    case OnDemand => NativeOnDemand
    case BlockingApplicationsNone => BlockingApplications
    case _ => key
  }

  ghost predicate IsGiven(fields: Fields, key: Key) {
    Imported(fields, key).Some? ==> NativeSource(key) in fields
  }

  /** No omitted metadata field becomes managed. */
  ghost predicate ManagesOnlyGiven(fields: Fields) {
    forall key :: IsGiven(fields, key)
  }

  lemma OthersAreGiven(fields: Fields, key: Key)
    requires !key.InstallerType? && !key.BlockingApplicationsNone?
    ensures IsGiven(fields, key)
  {
    if IsConverted(key) {
      ConvertedIsGiven(fields, key);
    } else if IsConsumed(key) {
      ConsumedIsNothing(fields, key);
    } else {
      ImportedAsIs(fields, key);
      AsIsHasItsOwnSource(key);
    }
  }

  lemma ConvertedIsGiven(fields: Fields, key: Key)
    requires IsConverted(key) && !key.InstallerType? && !key.BlockingApplicationsNone?
    ensures IsGiven(fields, key)
  {}

  lemma AsIsHasItsOwnSource(key: Key)
    requires !IsConverted(key)
    ensures NativeSource(key) == key
  {}

  /** The promise holds exactly for documents with an installer type whose launch
      arguments, if there are any, come with blocking applications. */
  lemma OmittedStayUnmanaged(fields: Fields)
    ensures ManagesOnlyGiven(fields) <==>
      InstallerType in fields && (BlockingApplications in fields || LaunchIn(fields).GetOr([]) == [])
  {
    ImportedInstallerType(fields);
    ImportedLaunch(fields);
    assert IsGiven(fields, InstallerType) <==> InstallerType in fields;
    assert IsGiven(fields, BlockingApplicationsNone) <==>
      BlockingApplications in fields || LaunchIn(fields).GetOr([]) == [];
    forall key: Key | !key.InstallerType? && !key.BlockingApplicationsNone? ensures IsGiven(fields, key) {
      OthersAreGiven(fields, key);
    }
  }

  lemma {:induction false} LaunchListSize(members: Fields, names: seq<string>)
    requires LaunchList(members, names).Some?
    ensures |LaunchList(members, names).value| == |names|
  {
    if names != [] {
      LaunchListSize(members, names[..|names| - 1]);
    }
  }

  /** For documents that are accepted, the condition in terms of the document. */
  lemma AcceptedOmissions(nfc: string -> string, fields: Fields)
    requires Importable(nfc, fields)
    ensures ManagesOnlyGiven(fields) <==>
      InstallerType in fields
      && (BlockingApplications in fields || LaunchArgs !in fields || fields[LaunchArgs] == Object(map[]))
  {
    OmittedStayUnmanaged(fields);
    if LaunchArgs in fields {
      var members := fields[LaunchArgs].members;
      LaunchListSize(members, Sorted(NamesOf(members)));
      if members != map[] {
        var key :| key in members;
        assert LabelOf(key) in NamesOf(members);
      } else {
        assert NamesOf(members) == {};
      }
    }
  }

  // ------------------------------------------------------------- documents that fail

  const UNTYPED: Fields := map[Name := Text("Firefox"), Version := Text("1")]

  const LAUNCHING: Fields :=
    map[Name := Text("Firefox"), Version := Text("1"), InstallerType := Text("pkg"),
        LaunchArgs := Object(map[Custom("Firefox") := Array([])])]

  lemma LaunchingIsRead()
    ensures LaunchIn(LAUNCHING) == Some([LaunchArguments("Firefox", [])])
  {
    var entries := [LaunchArguments("Firefox", [])];
    assert Texts([]) == Array([]);
    assert entries[..0] == [];
    assert LaunchMembers(entries) == map[Custom("Firefox") := Array([])];
    LaunchRoundTrip(entries);
    SortedLaunchSize(entries);
    SortedListsKeepOne(entries);
  }

  lemma SortedListsKeepOne(entries: seq<LaunchArguments>)
    requires |entries| == 1
    ensures SortedLaunch(entries) == entries
  {
    SortedLaunchSize(entries);
    var table := LaunchTable(entries);
    SortedTableKeepsRows(table);
    assert SortedTable(table)[0] in SortedTable(table);
  }

  /** A document with little more than a name and a version. */
  ghost predicate IsSparse(fields: Fields) {
    Field(fields, Name) == Some(Text("Firefox")) && Field(fields, Version) == Some(Text("1"))
    && (InstallerType in fields ==> fields[InstallerType] == Text("pkg"))
    && LaunchIn(fields).Some?
    && forall key :: key in fields ==> key.Name? || key.Version? || key.InstallerType? || key.LaunchArgs?
  }

  lemma SparseNamesFit(nfc: string -> string, fields: Fields)
    requires IsSparse(fields) && Identity(nfc, "Firefox").Some?
    ensures NameFits(nfc, fields) && NamesAreNative(fields) && SoftwareFits(fields)
  {
    forall key ensures key in fields ==> !IsSoftware(key) {
      if IsSoftware(key) {
        SoftwareIsNotSparse(key);
      }
    }
  }

  lemma SoftwareIsNotSparse(key: Key)
    requires IsSoftware(key)
    ensures !key.Name? && !key.Version? && !key.InstallerType? && !key.LaunchArgs?
  {}

  lemma SparseVersionFits(fields: Fields)
    requires IsSparse(fields)
    ensures VersionFits(fields) && BlockingFits(fields)
  {
    assert Trim("1") == "1";
    assert Trim("pkg") == "pkg";
  }

  lemma SparseListsFit(nfc: string -> string, fields: Fields)
    requires IsSparse(fields)
    ensures ReferencesFit(nfc, fields) && RowsFit(fields) && EnvironmentFits(fields)
    ensures AlertsFit(fields) && InstallerFits(fields) && RemovalsFit(fields)
  {}

  lemma SparsePatch(fields: Fields, key: Key)
    requires IsSparse(fields)
    requires !key.Version? && !key.InstallerType? && !key.LaunchArgs? && !key.BlockingApplicationsNone?
    ensures Imported(fields, key) == None
  {
    if key.Name? {
      ConsumedIsNothing(fields, key);
    } else {
      OtherSourcesAreAbsent(fields, key);
      OthersAreGiven(fields, key);
    }
  }

  lemma OtherSourcesAreAbsent(fields: Fields, key: Key)
    requires IsSparse(fields)
    requires !key.Version? && !key.InstallerType? && !key.LaunchArgs? && !key.BlockingApplicationsNone? && !key.Name?
    ensures NativeSource(key) !in fields
  {}

  lemma SparseTextFits(parseTime: string -> Option<string>, fields: Fields)
    requires IsSparse(fields)
    ensures Imported(fields, Version) == Some(Text("1")) && AcceptsField(parseTime, Version, Text("1"))
    ensures Imported(fields, InstallerType) == Some(Text("pkg")) && AcceptsField(parseTime, InstallerType, Text("pkg"))
  {
    ImportedAsIs(fields, Version);
    ImportedInstallerType(fields);
  }

  lemma SparseLaunchFits(parseTime: string -> Option<string>, fields: Fields)
    requires IsSparse(fields)
    requires LaunchArgs in fields ==>
      LaunchIn(fields).value != []
      && forall i :: 0 <= i < |LaunchIn(fields).value| ==> LaunchIn(fields).value[i].application != ""
    ensures Imported(fields, LaunchArgs).Some? ==>
      AcceptsField(parseTime, LaunchArgs, Imported(fields, LaunchArgs).value)
    ensures Imported(fields, BlockingApplicationsNone).Some? ==>
      AcceptsField(parseTime, BlockingApplicationsNone, Imported(fields, BlockingApplicationsNone).value)
  {
    ImportedLaunch(fields);
    if LaunchArgs in fields {
      LaunchDecodes(LaunchIn(fields).value);
      LaunchesAreAccepted(parseTime, LaunchDocument(LaunchIn(fields).value));
    }
    FlagIsAccepted(parseTime, true);
    FlagIsAccepted(parseTime, false);
  }

  lemma LaunchesAreAccepted(parseTime: string -> Option<string>, value: Document)
    requires AcceptsLaunches(value)
    ensures AcceptsField(parseTime, LaunchArgs, value)
  {}

  lemma FlagIsAccepted(parseTime: string -> Option<string>, flag: bool)
    ensures AcceptsField(parseTime, BlockingApplicationsNone, Bool(flag))
  {}

  lemma SparseIsAccepted(nfc: string -> string, parseTime: string -> Option<string>, fields: Fields)
    requires IsSparse(fields) && Identity(nfc, "Firefox").Some?
    requires LaunchArgs in fields ==>
      LaunchIn(fields).value != []
      && forall i :: 0 <= i < |LaunchIn(fields).value| ==> LaunchIn(fields).value[i].application != ""
    ensures Importable(nfc, fields) && PatchFits(parseTime, fields)
  {
    SparseNamesFit(nfc, fields);
    SparseVersionFits(fields);
    SparseListsFit(nfc, fields);
    SparseTextFits(parseTime, fields);
    SparseLaunchFits(parseTime, fields);
    forall key | Imported(fields, key).Some? ensures AcceptsField(parseTime, key, Imported(fields, key).value) {
      if !key.Version? && !key.InstallerType? && !key.LaunchArgs? && !key.BlockingApplicationsNone? {
        SparsePatch(fields, key);
      }
    }
  }

  /** An accepted document without an installer type: the type becomes managed. */
  lemma OmittedTypeIsManaged(nfc: string -> string, parseTime: string -> Option<string>)
    requires Identity(nfc, "Firefox").Some?
    ensures Importable(nfc, UNTYPED) && PatchFits(parseTime, UNTYPED)
    ensures InstallerType !in UNTYPED && Imported(UNTYPED, InstallerType) == Some(Text("pkg"))
  {
    UntypedIsSparse();
    SparseIsAccepted(nfc, parseTime, UNTYPED);
    SparseTextFits(parseTime, UNTYPED);
  }

  lemma UntypedIsSparse()
    ensures IsSparse(UNTYPED) && LaunchArgs !in UNTYPED && InstallerType !in UNTYPED
  {}

  /** An accepted document with launch arguments only: that there are blockers
      becomes managed. */
  lemma OmittedBlockersAreManaged(nfc: string -> string, parseTime: string -> Option<string>)
    requires Identity(nfc, "Firefox").Some?
    ensures Importable(nfc, LAUNCHING) && PatchFits(parseTime, LAUNCHING)
    ensures BlockingApplications !in LAUNCHING
    ensures Imported(LAUNCHING, BlockingApplicationsNone) == Some(Bool(false))
  {
    LaunchingIsRead();
    LaunchingIsSparse();
    SparseIsAccepted(nfc, parseTime, LAUNCHING);
    LaunchingIsManaged();
  }

  lemma LaunchingIsSparse()
    requires LaunchIn(LAUNCHING).Some?
    ensures IsSparse(LAUNCHING) && LaunchArgs in LAUNCHING && BlockingApplications !in LAUNCHING
  {}

  lemma LaunchingIsManaged()
    requires LaunchIn(LAUNCHING) == Some([LaunchArguments("Firefox", [])])
    ensures Imported(LAUNCHING, BlockingApplicationsNone) == Some(Bool(false))
  {
    ImportedLaunch(LAUNCHING);
  }
}

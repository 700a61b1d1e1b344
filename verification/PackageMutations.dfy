/** The editable metadata of a package: what a patch of it may contain, how a merged
    document decodes, how metadata is normalized and when it is valid. */
module PackageMutations {
  import opened Basics
  import opened MergePatch
  import opened Packages
  import opened Pkginfo
  import opened Strings

  // ------------------------------------------------------------------- the contract

  predicate IsInstallerType(text: string) {
    text == "pkg" || text == "nopkg" || text == "copy_from_dmg"
  }

  predicate IsUninstallMethod(text: string) {
    text == "removepackages" || text == "remove_copied_items" || text == "uninstall_script"
  }

  predicate IsRestartAction(text: string) {
    text == "RequireLogout" || text == "RecommendRestart" || text == "RequireRestart" || text == "RequireShutdown"
  }

  predicate IsDownload(text: string) {
    text == "auto" || text == "always" || text == "never"
  }

  predicate IsInstallType(text: string) {
    text == "application" || text == "bundle" || text == "plist" || text == "file"
  }

  predicate IsArchitecture(text: string) {
    text == "arm64" || text == "x86_64"
  }

  predicate AcceptsText(key: Key, text: string) {
    match key
    case Version => text != ""
    case InstallerType => IsInstallerType(text)
    case UninstallMethod => IsUninstallMethod(text)
    case RestartAction => IsRestartAction(text)
    case RestartActionForUninstall => text == "None" || IsRestartAction(text)
    case DownloadOnLowData => IsDownload(text)
    case _ => true
  }

  /** Null clears a text, unless it is one that must have a value. */
  predicate IsClearable(key: Key) {
    IsText(key) && !key.Version? && !key.InstallerType? && !key.DownloadOnLowData?
  }

  predicate AreTexts(value: Document) {
    value.Array? && forall i :: 0 <= i < |value.items| ==> value.items[i].Text?
  }

  function NumberIn(value: Document): Option<int> {
    if value.Number? then ParseInt(value.literal) else None
  }

  const MAX_INT32: int := 0x7FFF_FFFF
  const MIN_INT32: int := -0x8000_0000

  predicate AcceptsMember(kind: RowKind, key: Key, value: Document) {
    match MemberTypeOf(kind, key)
    case None => false
    case Some(RequiredText) =>
      value.Text? && if kind.InstallRow? && key.RowType? then IsInstallType(value.text) else value.text != ""
    case Some(OptionalText) => value.Text? || value.Null?
    case Some(OptionalSize) => NumberIn(value).Some? && NumberIn(value).value >= 0
    case Some(Setting) => NumberIn(value).Some? && MIN_INT32 <= NumberIn(value).value <= MAX_INT32
    case Some(Flag) => value.Bool?
  }

  /** The members that no row of the kind may leave out. */
  predicate IsComplete(kind: RowKind, row: Fields) {
    match kind
    case ReceiptRow => ReceiptPackageID in row
    case InstallRow => RowType in row && RowPath in row
    case ChoiceRow => AttributeSetting in row
    case CopyRow => SourceItem in row && DestinationPath in row
  }

  predicate AcceptsRow(kind: RowKind, row: Fields) {
    IsComplete(kind, row) && forall key :: key in row ==> AcceptsMember(kind, key, row[key])
  }

  predicate AcceptsRows(kind: RowKind, value: Document) {
    value.Array?
    && forall i :: 0 <= i < |value.items| ==> value.items[i].Object? && AcceptsRow(kind, value.items[i].members)
  }

  predicate AcceptsLaunch(value: Document) {
    value.Object? && value.members.Keys == {Application, Arguments}
    && value.members[Application].Text? && value.members[Application].text != ""
    && AreTexts(value.members[Arguments])
  }

  predicate AcceptsVariable(value: Document) {
    value.Object? && value.members.Keys == {VariableName, VariableValue}
    && value.members[VariableName].Text? && value.members[VariableName].text != ""
    && value.members[VariableValue].Text?
  }

  predicate AcceptsAlert(value: Document) {
    value.Object?
    && forall key :: key in value.members ==>
         (key.Enabled? && value.members[key].Bool?)
         || (IsAlertText(key) && (value.members[key].Text? || value.members[key].Null?))
  }

  predicate IsRowList(key: Key) {
    key.InstallerChoicesXML? || key.Installs? || key.Receipts? || key.ItemsToCopy?
  }

  function KindOf(key: Key): RowKind
    requires IsRowList(key)
  {
    match key
    case InstallerChoicesXML => ChoiceRow
    case Installs => InstallRow
    case Receipts => ReceiptRow
    case ItemsToCopy => CopyRow
  }

  predicate AcceptsLaunches(value: Document) {
    value.Array? && forall i :: 0 <= i < |value.items| ==> AcceptsLaunch(value.items[i])
  }

  predicate AcceptsVariables(value: Document) {
    value.Array? && forall i :: 0 <= i < |value.items| ==> AcceptsVariable(value.items[i])
  }

  predicate AcceptsLabels(value: Document) {
    value.Object?
    && forall key :: key in value.members ==>
         IsLabel(key) && (value.members[key].Text? || value.members[key].Null?)
  }

  predicate AcceptsTime(parseTime: string -> Option<string>, value: Document) {
    value.Null? || (value.Text? && parseTime(value.text).Some?)
  }

  /** What the patch contract of a package allows in a field. parseTime gives the
      canonical form of a timestamp. */
  predicate AcceptsField(parseTime: string -> Option<string>, key: Key, value: Document) {
    if IsText(key) then
      if value.Null? then IsClearable(key) else value.Text? && AcceptsText(key, value.text)
    else if IsSwitch(key) then value.Bool?
    else if IsRowList(key) then AcceptsRows(KindOf(key), value)
    else if IsAlertField(key) then AcceptsAlert(value)
    else
      match key
      case InstalledSize => NumberIn(value).Some? && NumberIn(value).value >= 0
      case ForceInstallAfterDate => AcceptsTime(parseTime, value)
      case SupportedArchitectures => AreTexts(value)
      case BlockingApplications => AreTexts(value)
      case LaunchArgs => AcceptsLaunches(value)
      case CustomActionLabels => AcceptsLabels(value)
      case InstallerEnvironment => AcceptsVariables(value)
      case _ => false
  }

  predicate AcceptsPackage(parseTime: string -> Option<string>, fields: Fields) {
    forall key :: key in fields ==> AcceptsField(parseTime, key, fields[key])
  }

  // ------------------------------------------------------------------------- decode

  function TextsOf(value: Option<Document>): seq<string> {
    if value.Some? && AreTexts(value.value)
    then seq(|value.value.items|, i requires 0 <= i < |value.value.items| => value.value.items[i].text)
    else []
  }

  /** What a decoded member is encoded as again. */
  function CanonicalMember(kind: MemberType, value: Document): Option<Document> {
    match kind
    case RequiredText => if value.Text? && value.text != "" then Some(value) else None
    case OptionalText => if value.Text? && value.text != "" then Some(value) else None
    case OptionalSize => if NumberIn(value).GetOr(0) == 0 then None else Some(Number(FormatInt(NumberIn(value).value)))
    case Setting => if NumberIn(value).None? then None else Some(Number(FormatInt(NumberIn(value).value)))
    case Flag => if value == Bool(true) then Some(value) else None
  }

  function DecodeRow(kind: RowKind, row: Fields): Fields {
    map key | key in row && MemberTypeOf(kind, key).Some?
              && CanonicalMember(MemberTypeOf(kind, key).value, row[key]).Some?
      :: CanonicalMember(MemberTypeOf(kind, key).value, row[key]).value
  }

  function DecodeRows(kind: RowKind, value: Option<Document>): seq<Fields> {
    if value.None? || !AcceptsRows(kind, value.value) then []
    else seq(|value.value.items|, i requires 0 <= i < |value.value.items| =>
               DecodeRow(kind, value.value.items[i].members))
  }

  function DecodeLaunch(value: Option<Document>): seq<LaunchArguments> {
    if value.None? || !AcceptsLaunches(value.value) then []
    else seq(|value.value.items|, i requires 0 <= i < |value.value.items| =>
               LaunchArguments(value.value.items[i].members[Application].text,
                               TextsOf(Some(value.value.items[i].members[Arguments]))))
  }

  function DecodeEnvironment(value: Option<Document>): seq<Variable> {
    if value.None? || !AcceptsVariables(value.value) then []
    else seq(|value.value.items|, i requires 0 <= i < |value.value.items| =>
               Variable(value.value.items[i].members[VariableName].text,
                        value.value.items[i].members[VariableValue].text))
  }

  function TextsIn(members: Fields): map<Key, string> {
    map key | key in members && members[key].Text? && members[key].text != "" :: members[key].text
  }

  function DecodeLabels(value: Option<Document>): map<Key, string> {
    if value.Some? && value.value.Object? then TextsIn(value.value.members) else map[]
  }

  function DecodeAlert(value: Option<Document>): Alert {
    if value.Some? && value.value.Object?
    then Alert(Field(value.value.members, Enabled) == Some(Bool(true)), TextsIn(value.value.members))
    else Alert(false, map[])
  }

  function DecodeTime(parseTime: string -> Option<string>, value: Option<Document>): Option<string> {
    if value.Some? && value.value.Text? then parseTime(value.value.text) else None
  }

  function DecodeTexts(fields: Fields): map<Key, string> {
    map key | key in fields && IsText(key) && fields[key].Text? && fields[key].text != "" :: fields[key].text
  }

  /** Decoding a document into a mutation. */
  function Decode(parseTime: string -> Option<string>, fields: Fields): Metadata {
    Metadata(
      DecodeTexts(fields),
      set key | key in fields && IsSwitch(key) && fields[key] == Bool(true),
      if InstalledSize in fields then NumberIn(fields[InstalledSize]).GetOr(0) else 0,
      DecodeTime(parseTime, Field(fields, ForceInstallAfterDate)),
      TextsOf(Field(fields, SupportedArchitectures)),
      TextsOf(Field(fields, BlockingApplications)),
      DecodeLaunch(Field(fields, LaunchArgs)),
      DecodeLabels(Field(fields, CustomActionLabels)),
      DecodeRows(ChoiceRow, Field(fields, InstallerChoicesXML)),
      DecodeEnvironment(Field(fields, InstallerEnvironment)),
      DecodeRows(InstallRow, Field(fields, Installs)),
      DecodeRows(ReceiptRow, Field(fields, Receipts)),
      DecodeRows(CopyRow, Field(fields, ItemsToCopy)),
      DecodeAlert(Field(fields, PreinstallAlert)),
      DecodeAlert(Field(fields, PreuninstallAlert)))
  }

  /** The JSON of an empty mutation: its version is never left out. */
  const EMPTY: Document := Object(map[Version := Text("")])

  /** Apply a patch to an empty mutation. */
  ghost function Applied(parseTime: string -> Option<string>, fields: Fields): Metadata {
    Decode(parseTime, Merged(Some(EMPTY), Object(fields)).members)
  }

  // -------------------------------------------------------------------- normalizing

  predicate IsTrimmed(key: Key) {
    key.InstallerType? || key.Version? || key.UninstallMethod? || key.RestartAction?
    || key.RestartActionForUninstall? || key.DownloadOnLowData? || key.MinimumMunkiVersion?
    || key.MinimumOSVersion? || key.MaximumOSVersion? || key.PackagePath?
  }

  /** Trim what is trimmed, then apply the defaults. */
  function Normal(key: Key, value: string): string {
    var text := if IsTrimmed(key) then Trim(value) else value;
    if text != "" then text
    else if key.InstallerType? then INSTALLER_TYPE_PKG
    else if key.DownloadOnLowData? then DOWNLOAD_AUTO
    else ""
  }

  function NormalizedText(texts: map<Key, string>, key: Key): string {
    Normal(key, TextOf(texts, key))
  }

  function NormalizedTexts(texts: map<Key, string>): map<Key, string> {
    map key | key in texts.Keys + {InstallerType, DownloadOnLowData} && NormalizedText(texts, key) != ""
      :: NormalizedText(texts, key)
  }

  function TrimAll(values: seq<string>): (trimmed: seq<string>)
    ensures |trimmed| == |values| && forall i :: 0 <= i < |values| ==> trimmed[i] == Trim(values[i])
  {
    seq(|values|, i requires 0 <= i < |values| => Trim(values[i]))
  }

  predicate IsTrimmedMember(kind: RowKind, key: Key) {
    match kind
    case ReceiptRow => key.ReceiptPackageID?
    case InstallRow => key.RowType? || key.RowPath?
    case ChoiceRow => key.ChoiceIdentifier?
    case CopyRow => key.SourceItem? || key.DestinationPath?
  }

  function TrimRow(kind: RowKind, row: Fields): Fields {
    map key | key in row ::
      if IsTrimmedMember(kind, key) && row[key].Text? then Text(Trim(row[key].text)) else row[key]
  }

  function TrimRows(kind: RowKind, rows: seq<Fields>): (trimmed: seq<Fields>)
    ensures |trimmed| == |rows| && forall i :: 0 <= i < |rows| ==> trimmed[i] == TrimRow(kind, rows[i])
  {
    seq(|rows|, i requires 0 <= i < |rows| => TrimRow(kind, rows[i]))
  }

  function TrimLaunch(entries: seq<LaunchArguments>): (trimmed: seq<LaunchArguments>)
    ensures |trimmed| == |entries|
    ensures forall i :: 0 <= i < |entries| ==>
      trimmed[i] == LaunchArguments(Trim(entries[i].application), entries[i].arguments)
  {
    seq(|entries|, i requires 0 <= i < |entries| =>
      LaunchArguments(Trim(entries[i].application), entries[i].arguments))
  }

  function TrimVariables(variables: seq<Variable>): (trimmed: seq<Variable>)
    ensures |trimmed| == |variables|
    ensures forall i :: 0 <= i < |variables| ==> trimmed[i] == Variable(Trim(variables[i].name), variables[i].value)
  {
    seq(|variables|, i requires 0 <= i < |variables| => Variable(Trim(variables[i].name), variables[i].value))
  }

  /** A date in UTC and microseconds, as parseTime gives it. */
  function NormalizedTime(parseTime: string -> Option<string>, time: Option<string>): Option<string> {
    if time.Some? && parseTime(time.value).Some? then parseTime(time.value) else time
  }

  function Normalized(parseTime: string -> Option<string>, m: Metadata): Metadata {
    m.(texts := NormalizedTexts(m.texts),
       forceInstallAfter := NormalizedTime(parseTime, m.forceInstallAfter),
       architectures := TrimAll(m.architectures),
       blockingApplications := TrimAll(m.blockingApplications),
       launchArguments := TrimLaunch(m.launchArguments),
       choices := TrimRows(ChoiceRow, m.choices),
       environment := TrimVariables(m.environment),
       installs := TrimRows(InstallRow, m.installs),
       receipts := TrimRows(ReceiptRow, m.receipts),
       itemsToCopy := TrimRows(CopyRow, m.itemsToCopy))
  }

  lemma TrimTwice(s: string)
    ensures Trim(Trim(s)) == Trim(s)
  {
    TrimIsTrimmed(s);
    TrimIsTrimmed(Trim(s));
  }

  lemma DefaultsAreTrimmed()
    ensures Trim(INSTALLER_TYPE_PKG) == INSTALLER_TYPE_PKG != "" && Trim(DOWNLOAD_AUTO) == DOWNLOAD_AUTO != ""
  {
    assert Trim("pkg") == "pkg";
    assert Trim("auto") == "auto";
  }

  lemma NormalTwice(key: Key, value: string)
    ensures Normal(key, Normal(key, value)) == Normal(key, value)
  {
    DefaultsAreTrimmed();
    if Normal(key, value) == Trim(value) {
      TrimTwice(value);
    }
  }

  lemma NormalOfNothing(key: Key)
    requires !key.InstallerType? && !key.DownloadOnLowData?
    ensures Normal(key, "") == ""
  {
    assert Trim("") == "";
  }

  lemma NormalizedTextTwice(texts: map<Key, string>, key: Key)
    ensures TextOf(NormalizedTexts(texts), key) == NormalizedText(texts, key)
    ensures NormalizedText(NormalizedTexts(texts), key) == NormalizedText(texts, key)
  {
    if !key.InstallerType? && !key.DownloadOnLowData? {
      NormalOfNothing(key);
    }
    NormalTwice(key, TextOf(texts, key));
  }

  lemma NormalizedTextsTwice(texts: map<Key, string>)
    ensures NormalizedTexts(NormalizedTexts(texts)) == NormalizedTexts(texts)
  {
    var once := NormalizedTexts(texts);
    forall key ensures key in NormalizedTexts(once) <==> key in once {
      NormalizedTextTwice(texts, key);
    }
    forall key | key in once ensures NormalizedTexts(once)[key] == once[key] {
      NormalizedTextTwice(texts, key);
    }
  }

  lemma TrimRowsTwice(kind: RowKind, rows: seq<Fields>)
    ensures TrimRows(kind, TrimRows(kind, rows)) == TrimRows(kind, rows)
  {
    forall i | 0 <= i < |rows| ensures TrimRow(kind, TrimRow(kind, rows[i])) == TrimRow(kind, rows[i]) {
      forall key | key in rows[i] && rows[i][key].Text?
        ensures Trim(Trim(rows[i][key].text)) == Trim(rows[i][key].text)
      {
        TrimTwice(rows[i][key].text);
      }
    }
  }

  /** What is trimmed has no space at its ends, nothing else changes, and the fields
      with a default have a value. */
  lemma NormalizedTextIsClean(texts: map<Key, string>, key: Key)
    ensures IsTrimmed(key) ==> Trimmed(TextOf(NormalizedTexts(texts), key))
    ensures !IsTrimmed(key) ==> TextOf(NormalizedTexts(texts), key) == TextOf(texts, key)
    ensures key.InstallerType? || key.DownloadOnLowData? ==> TextOf(NormalizedTexts(texts), key) != ""
    ensures Trimmed(TextOf(texts, key)) && TextOf(texts, key) != "" ==>
      TextOf(NormalizedTexts(texts), key) == TextOf(texts, key)
  {
    NormalizedTextTwice(texts, key);
    TrimIsTrimmed(TextOf(texts, key));
  }

  /** The fields that are trimmed and the defaults; everything else stays. */
  lemma NormalizedFields(texts: map<Key, string>, key: Key)
    ensures TextOf(NormalizedTexts(texts), key) ==
      match key
      case InstallerType => if Trim(TextOf(texts, key)) == "" then "pkg" else Trim(TextOf(texts, key))
      case DownloadOnLowData => if Trim(TextOf(texts, key)) == "" then "auto" else Trim(TextOf(texts, key))
      case Version => Trim(TextOf(texts, key))
      case UninstallMethod => Trim(TextOf(texts, key))
      case RestartAction => Trim(TextOf(texts, key))
      case RestartActionForUninstall => Trim(TextOf(texts, key))
      case MinimumMunkiVersion => Trim(TextOf(texts, key))
      case MinimumOSVersion => Trim(TextOf(texts, key))
      case MaximumOSVersion => Trim(TextOf(texts, key))
      case PackagePath => Trim(TextOf(texts, key))
      case _ => TextOf(texts, key)
  {
    NormalizedTextTwice(texts, key);
  }

  /** The members of rows that are trimmed. */
  lemma NormalizedMembers(kind: RowKind, row: Fields, key: Key)
    requires key in row && row[key].Text?
    ensures key in TrimRow(kind, row)
    ensures (kind == ReceiptRow && key == ReceiptPackageID)
            || (kind == InstallRow && (key == RowType || key == RowPath))
            || (kind == ChoiceRow && key == ChoiceIdentifier)
            || (kind == CopyRow && (key == SourceItem || key == DestinationPath)) ==>
      TrimRow(kind, row)[key] == Text(Trim(row[key].text))
  {}

  /** A time that parses takes its canonical form; the rest is left to validation. */
  lemma NormalizedTimes(parseTime: string -> Option<string>, m: Metadata)
    ensures m.forceInstallAfter.None? ==> Normalized(parseTime, m).forceInstallAfter.None?
    ensures m.forceInstallAfter.Some? && parseTime(m.forceInstallAfter.value).Some? ==>
      Normalized(parseTime, m).forceInstallAfter == parseTime(m.forceInstallAfter.value)
    ensures Normalized(parseTime, m).switches == m.switches
    ensures Normalized(parseTime, m).installedSize == m.installedSize
    ensures Normalized(parseTime, m).preinstallAlert == m.preinstallAlert
    ensures Normalized(parseTime, m).preuninstallAlert == m.preuninstallAlert
    ensures Normalized(parseTime, m).actionLabels == m.actionLabels
  {}

  /** So have the names in lists and the required texts of rows. */
  lemma NormalizedListsAreClean(parseTime: string -> Option<string>, m: Metadata)
    ensures forall text :: text in Normalized(parseTime, m).architectures ==> Trimmed(text)
    ensures forall text :: text in Normalized(parseTime, m).blockingApplications ==> Trimmed(text)
    ensures forall entry :: entry in Normalized(parseTime, m).launchArguments ==> Trimmed(entry.application)
    ensures forall variable :: variable in Normalized(parseTime, m).environment ==> Trimmed(variable.name)
  {
    forall text: string ensures Trimmed(Trim(text)) {
      TrimIsTrimmed(text);
    }
  }

  lemma NormalizedRowIsClean(kind: RowKind, row: Fields, key: Key)
    requires key in row && row[key].Text?
    ensures key in TrimRow(kind, row) && TrimRow(kind, row)[key].Text?
    ensures IsTrimmedMember(kind, key) ==> Trimmed(TrimRow(kind, row)[key].text)
    ensures !IsTrimmedMember(kind, key) || Trimmed(row[key].text) ==> TrimRow(kind, row)[key] == row[key]
  {
    TrimIsTrimmed(row[key].text);
  }

  /** Normalizing twice is normalizing once, when canonical times stay canonical. */
  lemma NormalizedIsIdempotent(parseTime: string -> Option<string>, m: Metadata)
    requires forall time :: parseTime(time).Some? ==> parseTime(parseTime(time).value) == parseTime(time)
    ensures Normalized(parseTime, Normalized(parseTime, m)) == Normalized(parseTime, m)
  {
    var n := Normalized(parseTime, m);
    NormalizedTextsTwice(m.texts);
    TrimRowsTwice(ChoiceRow, m.choices);
    TrimRowsTwice(InstallRow, m.installs);
    TrimRowsTwice(ReceiptRow, m.receipts);
    TrimRowsTwice(CopyRow, m.itemsToCopy);
    forall i | 0 <= i < |m.architectures| ensures TrimAll(n.architectures)[i] == n.architectures[i] {
      TrimTwice(m.architectures[i]);
    }
    forall i | 0 <= i < |m.blockingApplications|
      ensures TrimAll(n.blockingApplications)[i] == n.blockingApplications[i]
    {
      TrimTwice(m.blockingApplications[i]);
    }
    forall i | 0 <= i < |m.launchArguments| ensures TrimLaunch(n.launchArguments)[i] == n.launchArguments[i] {
      TrimTwice(m.launchArguments[i].application);
    }
    forall i | 0 <= i < |m.environment| ensures TrimVariables(n.environment)[i] == n.environment[i] {
      TrimTwice(m.environment[i].name);
    }
  }

  // ---------------------------------------------------------------- normalizing, in place

  method NormalizeRows(kind: RowKind, rows: array<Fields>)
    modifies rows
    ensures rows[..] == TrimRows(kind, old(rows[..]))
  {
    for i := 0 to rows.Length
      invariant forall j :: 0 <= j < i ==> rows[j] == TrimRow(kind, old(rows[j]))
      invariant forall j :: i <= j < rows.Length ==> rows[j] == old(rows[j])
    {
      rows[i] := TrimRow(kind, rows[i]);
    }
  }

  method NormalizeTexts(values: array<string>)
    modifies values
    ensures values[..] == TrimAll(old(values[..]))
  {
    for i := 0 to values.Length
      invariant forall j :: 0 <= j < i ==> values[j] == Trim(old(values[j]))
      invariant forall j :: i <= j < values.Length ==> values[j] == old(values[j])
    {
      values[i] := Trim(values[i]);
    }
  }

  /** The texts after an assignment to one field; an empty field is none. */
  function WithText(texts: map<Key, string>, key: Key, value: string): map<Key, string> {
    if value == "" then texts - {key} else texts[key := value]
  }

  predicate NoneEmpty(texts: map<Key, string>) {
    forall key :: key in texts ==> texts[key] != ""
  }

  /** The field once those in done are normalized. */
  ghost predicate IsPartlyNormal(was: map<Key, string>, texts: map<Key, string>, done: set<Key>, key: Key) {
    TextOf(texts, key) == if key in done then NormalizedText(was, key) else TextOf(was, key)
  }

  ghost predicate PartlyNormal(was: map<Key, string>, texts: map<Key, string>, done: set<Key>) {
    NoneEmpty(texts) && forall key :: IsPartlyNormal(was, texts, done, key)
  }

  lemma NothingIsNormal(was: map<Key, string>)
    requires NoneEmpty(was)
    ensures PartlyNormal(was, was, {})
  {}

  lemma OneMoreIsNormal(was: map<Key, string>, texts: map<Key, string>, done: set<Key>, key: Key, value: string)
    requires PartlyNormal(was, texts, done) && value == NormalizedText(was, key)
    ensures PartlyNormal(was, WithText(texts, key, value), done + {key})
  {
    forall other ensures IsPartlyNormal(was, WithText(texts, key, value), done + {key}, other) {
      assert IsPartlyNormal(was, texts, done, other);
      assert TextOf(WithText(texts, key, value), other) == if other == key then value else TextOf(texts, other);
    }
  }

  function TrimmedKeys(): (keys: set<Key>)
    ensures forall key :: key in keys <==> IsTrimmed(key)
  {
    {InstallerType, Version, UninstallMethod, RestartAction, RestartActionForUninstall, DownloadOnLowData,
     MinimumMunkiVersion, MinimumOSVersion, MaximumOSVersion, PackagePath}
  }

  lemma UntrimmedIsNormal(was: map<Key, string>, key: Key)
    requires !IsTrimmed(key)
    ensures NormalizedText(was, key) == TextOf(was, key)
  {}

  lemma AllIsNormal(was: map<Key, string>, texts: map<Key, string>)
    requires PartlyNormal(was, texts, TrimmedKeys())
    ensures texts == NormalizedTexts(was)
  {
    forall key ensures TextOf(texts, key) == TextOf(NormalizedTexts(was), key) {
      assert IsPartlyNormal(was, texts, TrimmedKeys(), key);
      if !IsTrimmed(key) {
        UntrimmedIsNormal(was, key);
      }
      NormalizedTextTwice(was, key);
    }
    SameTexts(texts, NormalizedTexts(was));
  }

  lemma SameTexts(a: map<Key, string>, b: map<Key, string>)
    requires NoneEmpty(a) && NoneEmpty(b) && forall key :: TextOf(a, key) == TextOf(b, key)
    ensures a == b
  {
    forall key ensures key in a <==> key in b {
      assert TextOf(a, key) == TextOf(b, key);
    }
    forall key | key in a ensures a[key] == b[key] {
      assert TextOf(a, key) == TextOf(b, key);
    }
  }

  /** A mutation as the server edits it: its slices are shared, not copied. */
  class Draft {
    var texts: map<Key, string>
    var forceInstallAfter: Option<string>
    const architectures: array<string>
    const blockingApplications: array<string>
    const launchArguments: array<LaunchArguments>
    const choices: array<Fields>
    const environment: array<Variable>
    const installs: array<Fields>
    const receipts: array<Fields>
    const itemsToCopy: array<Fields>
    /** The fields that normalizing leaves alone. */
    const rest: Metadata

    ghost predicate Valid()
      reads this
    {
      NoneEmpty(texts) && architectures != blockingApplications
      && choices != installs && choices != receipts && choices != itemsToCopy
      && installs != receipts && installs != itemsToCopy && receipts != itemsToCopy
    }

    ghost function Value(): Metadata
      reads this, architectures, blockingApplications, launchArguments, choices, environment,
            installs, receipts, itemsToCopy
    {
      rest.(texts := texts,
            forceInstallAfter := forceInstallAfter,
            architectures := architectures[..],
            blockingApplications := blockingApplications[..],
            launchArguments := launchArguments[..],
            choices := choices[..],
            environment := environment[..],
            installs := installs[..],
            receipts := receipts[..],
            itemsToCopy := itemsToCopy[..])
    }

    constructor (m: Metadata)
      requires NoneEmpty(m.texts)
      ensures Valid() && Value() == m
      ensures fresh(architectures) && fresh(blockingApplications) && fresh(launchArguments) && fresh(choices)
      ensures fresh(environment) && fresh(installs) && fresh(receipts) && fresh(itemsToCopy)
    {
      rest, texts, forceInstallAfter := m, m.texts, m.forceInstallAfter;
      architectures := new string[|m.architectures|](i requires 0 <= i < |m.architectures| => m.architectures[i]);
      blockingApplications := new string[|m.blockingApplications|](
        i requires 0 <= i < |m.blockingApplications| => m.blockingApplications[i]);
      launchArguments := new LaunchArguments[|m.launchArguments|](
        i requires 0 <= i < |m.launchArguments| => m.launchArguments[i]);
      choices := new Fields[|m.choices|](i requires 0 <= i < |m.choices| => m.choices[i]);
      environment := new Variable[|m.environment|](i requires 0 <= i < |m.environment| => m.environment[i]);
      installs := new Fields[|m.installs|](i requires 0 <= i < |m.installs| => m.installs[i]);
      receipts := new Fields[|m.receipts|](i requires 0 <= i < |m.receipts| => m.receipts[i]);
      itemsToCopy := new Fields[|m.itemsToCopy|](i requires 0 <= i < |m.itemsToCopy| => m.itemsToCopy[i]);
    }

    /** m.F = strings.TrimSpace(m.F). */
    method TrimText(key: Key, ghost was: map<Key, string>, ghost done: set<Key>)
      requires PartlyNormal(was, texts, done) && key !in done
      requires IsTrimmed(key) && !key.InstallerType? && !key.DownloadOnLowData?
      modifies `texts
      ensures PartlyNormal(was, texts, done + {key})
    {
      assert IsPartlyNormal(was, texts, done, key);
      OneMoreIsNormal(was, texts, done, key, Trim(TextOf(texts, key)));
      texts := WithText(texts, key, Trim(TextOf(texts, key)));
    }

    /** The same, with a default for an empty field. */
    method TrimOrDefault(key: Key, default: string, ghost was: map<Key, string>, ghost done: set<Key>)
      requires PartlyNormal(was, texts, done) && key !in done
      requires (key.InstallerType? && default == INSTALLER_TYPE_PKG)
               || (key.DownloadOnLowData? && default == DOWNLOAD_AUTO)
      modifies `texts
      ensures PartlyNormal(was, texts, done + {key})
    {
      assert IsPartlyNormal(was, texts, done, key);
      ghost var before := texts;
      var trimmed := Trim(TextOf(texts, key));
      OneMoreIsNormal(was, texts, done, key, if trimmed == "" then default else trimmed);
      texts := WithText(texts, key, trimmed);
      if trimmed == "" {
        texts := WithText(texts, key, default);
        assert texts == WithText(before, key, default);
      }
    }

    method NormalizeFields()
      requires NoneEmpty(texts)
      modifies `texts
      ensures texts == NormalizedTexts(old(texts)) && NoneEmpty(texts)
    {
      ghost var was, done := texts, {};
      NothingIsNormal(was);
      TrimOrDefault(InstallerType, INSTALLER_TYPE_PKG, was, done);
      done := done + {InstallerType};
      TrimText(Version, was, done);
      done := done + {Version};
      TrimText(UninstallMethod, was, done);
      done := done + {UninstallMethod};
      TrimText(RestartAction, was, done);
      done := done + {RestartAction};
      TrimText(RestartActionForUninstall, was, done);
      done := done + {RestartActionForUninstall};
      TrimOrDefault(DownloadOnLowData, DOWNLOAD_AUTO, was, done);
      done := done + {DownloadOnLowData};
      TrimText(MinimumMunkiVersion, was, done);
      done := done + {MinimumMunkiVersion};
      TrimText(MinimumOSVersion, was, done);
      done := done + {MinimumOSVersion};
      TrimText(MaximumOSVersion, was, done);
      done := done + {MaximumOSVersion};
      TrimText(PackagePath, was, done);
      assert done + {PackagePath} == TrimmedKeys();
      AllIsNormal(was, texts);
    }

    method Normalize(parseTime: string -> Option<string>)
      requires Valid()
      modifies this, architectures, blockingApplications, launchArguments, choices, environment,
               installs, receipts, itemsToCopy
      ensures Valid() && Value() == Normalized(parseTime, old(Value()))
    {
      NormalizeFields();
      forceInstallAfter := NormalizedTime(parseTime, forceInstallAfter);
      NormalizeTexts(architectures);
      NormalizeTexts(blockingApplications);
      NormalizeLaunch(launchArguments);
      NormalizeRows(ChoiceRow, choices);
      NormalizeVariables(environment);
      NormalizeRows(InstallRow, installs);
      NormalizeRows(ReceiptRow, receipts);
      NormalizeRows(CopyRow, itemsToCopy);
    }
  }

  method NormalizeLaunch(entries: array<LaunchArguments>)
    modifies entries
    ensures entries[..] == TrimLaunch(old(entries[..]))
  {
    for i := 0 to entries.Length
      invariant forall j :: 0 <= j < i ==>
        entries[j] == LaunchArguments(Trim(old(entries[j]).application), old(entries[j]).arguments)
      invariant forall j :: i <= j < entries.Length ==> entries[j] == old(entries[j])
    {
      entries[i] := entries[i].(application := Trim(entries[i].application));
    }
  }

  method NormalizeVariables(variables: array<Variable>)
    modifies variables
    ensures variables[..] == TrimVariables(old(variables[..]))
  {
    for i := 0 to variables.Length
      invariant forall j :: 0 <= j < i ==>
        variables[j] == Variable(Trim(old(variables[j]).name), old(variables[j]).value)
      invariant forall j :: i <= j < variables.Length ==> variables[j] == old(variables[j])
    {
      variables[i] := variables[i].(name := Trim(variables[i].name));
    }
  }

  // ----------------------------------------------------------------------- validity

  /** A row as its json tags give it. */
  predicate IsRow(kind: RowKind, row: Fields) {
    AcceptsRow(kind, row)
    && (forall key :: key in row ==> CanonicalMember(MemberTypeOf(kind, key).value, row[key]) == Some(row[key]))
    && (kind.ChoiceRow? ==> ChoiceIdentifier in row)
    && forall key :: key in row && MemberTypeOf(kind, key) == Some(RequiredText) ==> Trim(row[key].text) != ""
  }

  predicate AreRows(kind: RowKind, rows: seq<Fields>) {
    forall i :: 0 <= i < |rows| ==> IsRow(kind, rows[i])
  }

  predicate IsAlert(alert: Alert) {
    forall key :: key in alert.texts ==> IsAlertText(key) && alert.texts[key] != ""
  }

  /** The struct tags' rules, on metadata as this model keeps it. */
  predicate ValidTags(parseTime: string -> Option<string>, m: Metadata) {
    (forall key :: key in m.texts ==> IsText(key) && m.texts[key] != "" && AcceptsText(key, m.texts[key]))
    && Trim(TextOf(m.texts, Version)) != ""
    && (forall key :: key in m.switches ==> IsSwitch(key))
    && 0 <= m.installedSize <= MAX_INT64
    && (m.forceInstallAfter.Some? ==> parseTime(m.forceInstallAfter.value).Some?)
    && (forall i :: 0 <= i < |m.architectures| ==> IsArchitecture(m.architectures[i]))
    && (forall i :: 0 <= i < |m.blockingApplications| ==> Trim(m.blockingApplications[i]) != "")
    && (forall i :: 0 <= i < |m.launchArguments| ==> Trim(m.launchArguments[i].application) != "")
    && (forall key :: key in m.actionLabels ==> IsLabel(key) && m.actionLabels[key] != "")
    && (forall i :: 0 <= i < |m.environment| ==> Trim(m.environment[i].name) != "")
    && AreRows(ChoiceRow, m.choices) && AreRows(InstallRow, m.installs)
    && AreRows(ReceiptRow, m.receipts) && AreRows(CopyRow, m.itemsToCopy)
    && IsAlert(m.preinstallAlert) && IsAlert(m.preuninstallAlert)
  }

  predicate ValidUninstall(m: Metadata) {
    Uninstallable in m.switches ==>
      TextOf(m.texts, UninstallMethod) != ""
      && (TextOf(m.texts, UninstallMethod) == "removepackages" ==> m.receipts != [])
      && (TextOf(m.texts, UninstallMethod) == REMOVE_COPIED_ITEMS ==> m.itemsToCopy != [])
      && (TextOf(m.texts, UninstallMethod) == "uninstall_script" ==> Trim(TextOf(m.texts, UninstallScript)) != "")
  }

  function VariableNames(variables: seq<Variable>): (names: seq<string>)
    ensures |names| == |variables| && forall i :: 0 <= i < |names| ==> names[i] == Trim(variables[i].name)
  {
    seq(|variables|, i requires 0 <= i < |variables| => Trim(variables[i].name))
  }

  function Applications(entries: seq<LaunchArguments>): (names: seq<string>)
    ensures |names| == |entries| && forall i :: 0 <= i < |names| ==> names[i] == entries[i].application
  {
    seq(|entries|, i requires 0 <= i < |entries| => entries[i].application)
  }

  predicate Distinct(names: seq<string>) {
    forall i, j :: 0 <= i < j < |names| ==> names[i] != names[j]
  }

  /** The rules that relate fields. */
  predicate ValidRelations(m: Metadata, installerObjectID: Option<Id>) {
    !(TextOf(m.texts, InstallerType) == INSTALLER_TYPE_NOPKG && installerObjectID.Some?)
    && !(TextOf(m.texts, InstallerType) == COPY_FROM_DMG && m.itemsToCopy == [])
    && ValidUninstall(m)
    && Distinct(VariableNames(m.environment))
    && !(BlockingApplicationsNone in m.switches && (m.blockingApplications != [] || m.launchArguments != []))
    && Distinct(Applications(m.launchArguments))
  }

  /** The loop with a map of the names seen so far. */
  method AreDistinct(names: seq<string>) returns (distinct: bool)
    ensures distinct <==> Distinct(names)
  {
    var seen: set<string> := {};
    for i := 0 to |names|
      invariant forall name :: name in seen <==> exists j :: 0 <= j < i && names[j] == name
      invariant forall a, b :: 0 <= a < b < i ==> names[a] != names[b]
    {
      if names[i] in seen {
        return false;
      }
      seen := seen + {names[i]};
    }
    distinct := true;
  }

  method ValidateRelations(m: Metadata, installerObjectID: Option<Id>) returns (valid: bool)
    ensures valid <==> ValidRelations(m, installerObjectID)
    ensures valid <==>
      (TextOf(m.texts, InstallerType) == "nopkg" ==> installerObjectID.None?)
      && (TextOf(m.texts, InstallerType) == "copy_from_dmg" ==> m.itemsToCopy != [])
      && (Uninstallable in m.switches ==>
            TextOf(m.texts, UninstallMethod) != ""
            && (TextOf(m.texts, UninstallMethod) == "removepackages" ==> m.receipts != [])
            && (TextOf(m.texts, UninstallMethod) == "remove_copied_items" ==> m.itemsToCopy != [])
            && (TextOf(m.texts, UninstallMethod) == "uninstall_script" ==>
                  Trim(TextOf(m.texts, UninstallScript)) != ""))
      && (BlockingApplicationsNone in m.switches ==> m.blockingApplications == [] && m.launchArguments == [])
      && (forall i, j :: 0 <= i < j < |m.environment| ==> Trim(m.environment[i].name) != Trim(m.environment[j].name))
      && (forall i, j :: 0 <= i < j < |m.launchArguments| ==>
            m.launchArguments[i].application != m.launchArguments[j].application)
  {
    if TextOf(m.texts, InstallerType) == INSTALLER_TYPE_NOPKG && installerObjectID.Some? {
      return false;
    }
    if TextOf(m.texts, InstallerType) == COPY_FROM_DMG && |m.itemsToCopy| == 0 {
      return false;
    }
    if Uninstallable in m.switches {
      var uninstall := TextOf(m.texts, UninstallMethod);
      if uninstall == "" {
        return false;
      }
      if uninstall == "removepackages" {
        if |m.receipts| == 0 {
          return false;
        }
      } else if uninstall == REMOVE_COPIED_ITEMS {
        if |m.itemsToCopy| == 0 {
          return false;
        }
      } else if uninstall == "uninstall_script" {
        if Trim(TextOf(m.texts, UninstallScript)) == "" {
          return false;
        }
      }
    }
    valid := AreDistinct(VariableNames(m.environment));
    if !valid {
      return;
    }
    if BlockingApplicationsNone in m.switches && (|m.blockingApplications| > 0 || |m.launchArguments| > 0) {
      return false;
    }
    valid := AreDistinct(Applications(m.launchArguments));
  }
}

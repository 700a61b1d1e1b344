/** The names under which queries go out to osquery agents and come back. */
module QueryNames {
  import opened Basics
  import opened Strings

  datatype Kind = Detail | Label | Policy | Live | Report

  const PREFIX := "woodstar_"
  const SEPARATOR := "_query_"
  const HASH_LENGTH := 64

  function KindText(kind: Kind): string {
    match kind
    case Detail => "detail"
    case Label => "label"
    case Policy => "policy"
    case Live => "live"
    case Report => "report"
  }

  function KindOf(text: string): Option<Kind> {
    if text == "detail" then Some(Detail)
    else if text == "label" then Some(Label)
    else if text == "policy" then Some(Policy)
    else if text == "live" then Some(Live)
    else None
  }

  /** One evaluation of a policy on a host. */
  datatype Evaluation = Evaluation(policyID: int, hash: string, revision: int, sequence: int)

  // ------------------------------------------------------------------------ print

  function Name(kind: Kind, suffix: string): string {
    PREFIX + (KindText(kind) + SEPARATOR + suffix)
  }

  function NameOfID(kind: Kind, id: int): string {
    Name(kind, FormatInt(id))
  }

  function EvaluationSuffix(e: Evaluation): string {
    FormatInt(e.policyID) + "_" + e.hash + "_" + FormatInt(e.revision) + "_" + FormatInt(e.sequence)
  }

  function NameOfEvaluation(e: Evaluation): string {
    Name(Policy, EvaluationSuffix(e))
  }

  // ------------------------------------------------------------------------ parse

  function ParseName(name: string): Option<(Kind, string)> {
    if |name| < |PREFIX| || name[..|PREFIX|] != PREFIX then None
    else
      var cut := Cut(name[|PREFIX|..], SEPARATOR);
      if !cut.found || cut.after == "" then None
      else
        match KindOf(cut.before)
        case None => None
        case Some(kind) => Some((kind, cut.after))
  }

  function ParsePositive(suffix: string): Option<int> {
    match ParseInt(suffix)
    case None => None
    case Some(id) => if id <= 0 then None else Some(id)
  }

  predicate IsHex(c: char) {
    '0' <= c <= '9' || 'a' <= c <= 'f' || 'A' <= c <= 'F'
  }

  function ParseIdentity(suffix: string): Option<(int, string)> {
    var cut := Cut(suffix, "_");
    if !cut.found || |cut.after| != HASH_LENGTH then None
    else
      var id := ParsePositive(cut.before);
      if id.None? || !(forall c :: c in cut.after ==> IsHex(c)) then None else Some((id.value, cut.after))
  }

  function ParseEvaluation(suffix: string): Option<Evaluation> {
    var separator := LastIndex(suffix, '_');
    if separator.None? || separator.value == 0 || separator.value == |suffix| - 1 then None
    else
      var revisionIdentity, sequenceRaw := suffix[..separator.value], suffix[separator.value + 1..];
      var second := LastIndex(revisionIdentity, '_');
      if second.None? || second.value == 0 || second.value == |revisionIdentity| - 1 then None
      else
        var identity := ParseIdentity(revisionIdentity[..second.value]);
        var revision := ParsePositive(revisionIdentity[second.value + 1..]);
        var sequence := ParsePositive(sequenceRaw);
        if identity.None? || revision.None? || sequence.None? then None
        else Some(Evaluation(identity.value.0, identity.value.1, revision.value, sequence.value))
  }

  /** The texts that names are made of. */
  lemma NamesAreWritten(suffix: string)
    ensures Name(Detail, suffix) == "woodstar_detail_query_" + suffix
    ensures Name(Label, suffix) == "woodstar_label_query_" + suffix
    ensures Name(Policy, suffix) == "woodstar_policy_query_" + suffix
    ensures Name(Live, suffix) == "woodstar_live_query_" + suffix
  {
    assert "woodstar_" + "detail" + "_query_" == "woodstar_detail_query_";
    assert "woodstar_" + "label" + "_query_" == "woodstar_label_query_";
    assert "woodstar_" + "policy" + "_query_" == "woodstar_policy_query_";
    assert "woodstar_" + "live" + "_query_" == "woodstar_live_query_";
    Joins(PREFIX, "detail", SEPARATOR, suffix);
    Joins(PREFIX, "label", SEPARATOR, suffix);
    Joins(PREFIX, "policy", SEPARATOR, suffix);
    Joins(PREFIX, "live", SEPARATOR, suffix);
  }

  lemma Joins(a: string, b: string, c: string, d: string)
    ensures a + (b + c + d) == a + b + c + d
  {}

  lemma CutsAtUnderscore(s: string)
    requires Cut(s, "_").found
    ensures s == Cut(s, "_").before + "_" + Cut(s, "_").after && '_' !in Cut(s, "_").before
  {
    var first := IndexFrom(s, "_", 0).value;
    assert s[first..first + 1] == "_";
    forall k: nat | k < first ensures s[k] != '_' {
      assert !OccursAt(s, "_", k);
      assert s[k..k + 1] == [s[k]];
    }
  }

  /** What parses as an identity is an id and a hash of 64 hexadecimal digits. */
  lemma ParsedIdentity(suffix: string) returns (policy: string)
    requires ParseIdentity(suffix).Some?
    ensures var (id, hash) := ParseIdentity(suffix).value;
      suffix == policy + "_" + hash && '_' !in policy && ParseInt(policy) == Some(id) && id > 0
      && |hash| == 64 && forall c :: c in hash ==> '0' <= c <= '9' || 'a' <= c <= 'f' || 'A' <= c <= 'F'
  {
    CutsAtUnderscore(suffix);
    policy := Cut(suffix, "_").before;
  }

  lemma SplitsAtLast(s: string)
    requires LastIndex(s, '_').Some?
    ensures var i := LastIndex(s, '_').value; s == s[..i] + "_" + s[i + 1..] && '_' !in s[i + 1..]
  {}

  /** What parses as an evaluation is one, written as its identity, revision and sequence. */
  lemma ParsedEvaluation(suffix: string) returns (policy: string, revision: string, sequence: string)
    requires ParseEvaluation(suffix).Some?
    ensures var e := ParseEvaluation(suffix).value;
      suffix == policy + "_" + e.hash + "_" + revision + "_" + sequence
      && ParseInt(policy) == Some(e.policyID) && e.policyID > 0
      && ParseInt(revision) == Some(e.revision) && e.revision > 0
      && ParseInt(sequence) == Some(e.sequence) && e.sequence > 0
      && |e.hash| == 64 && forall c :: c in e.hash ==> '0' <= c <= '9' || 'a' <= c <= 'f' || 'A' <= c <= 'F'
    ensures '_' !in policy && '_' !in revision && '_' !in sequence
  {
    var last := LastIndex(suffix, '_').value;
    var revisionIdentity := suffix[..last];
    var second := LastIndex(revisionIdentity, '_').value;
    SplitsAtLast(suffix);
    SplitsAtLast(revisionIdentity);
    policy := ParsedIdentity(revisionIdentity[..second]);
    revision, sequence := revisionIdentity[second + 1..], suffix[last + 1..];
  }

  // ------------------------------------------------------------------- round trips

  predicate IsID(id: int) {
    0 < id <= MAX_INT64
  }

  predicate IsEvaluation(e: Evaluation) {
    IsID(e.policyID) && IsID(e.revision) && IsID(e.sequence)
    && |e.hash| == HASH_LENGTH && forall c :: c in e.hash ==> IsHex(c)
  }

  lemma KindTextIsPlain(kind: Kind)
    ensures SEPARATOR[0] !in KindText(kind)
    ensures KindOf(KindText(kind)) == if kind == Report then None else Some(kind)
  {}

  /** A name parses to its kind and suffix, unless it is a report's or has none. */
  lemma NameRoundTrip(kind: Kind, suffix: string)
    ensures ParseName(Name(kind, suffix)) == if kind == Report || suffix == "" then None else Some((kind, suffix))
  {
    var name := Name(kind, suffix);
    var raw := KindText(kind) + SEPARATOR + suffix;
    assert name[..|PREFIX|] == PREFIX;
    assert name[|PREFIX|..] == raw;
    KindTextIsPlain(kind);
    CutFirst(KindText(kind), SEPARATOR, suffix);
  }

  /** Parsing a name that is accepted and printing it again gives it back. */
  lemma ParsePrints(name: string)
    requires ParseName(name).Some?
    ensures Name(ParseName(name).value.0, ParseName(name).value.1) == name
  {
    var raw := name[|PREFIX|..];
    var cut := Cut(raw, SEPARATOR);
    assert name == PREFIX + raw;
    assert raw == cut.before + SEPARATOR + cut.after;
    assert KindText(KindOf(cut.before).value) == cut.before;
  }

  /** No two names are the same unless their kinds and suffixes are. */
  lemma NamesAreInjective(a: Kind, x: string, b: Kind, y: string)
    requires Name(a, x) == Name(b, y)
    ensures a == b && x == y
  {
    var left, right := KindText(a) + SEPARATOR + x, KindText(b) + SEPARATOR + y;
    assert Name(a, x)[|PREFIX|..] == left;
    assert Name(b, y)[|PREFIX|..] == right;
    KindTextIsPlain(a);
    KindTextIsPlain(b);
    CutFirst(KindText(a), SEPARATOR, x);
    CutFirst(KindText(b), SEPARATOR, y);
  }

  lemma IDRoundTrip(id: int)
    requires IsID(id)
    ensures ParsePositive(FormatInt(id)) == Some(id) && FormatInt(id) != ""
  {
    DecimalRoundTrip(id);
    FormatIsDigits(id);
  }

  lemma IdentityRoundTrip(id: int, hash: string)
    requires IsID(id) && |hash| == HASH_LENGTH && forall c :: c in hash ==> IsHex(c)
    ensures ParseIdentity(FormatInt(id) + "_" + hash) == Some((id, hash))
  {
    FormatIsDigits(id);
    CutCharFree(FormatInt(id), '_', hash);
    IDRoundTrip(id);
  }

  /** Every evaluation survives printing and parsing. */
  lemma EvaluationRoundTrip(e: Evaluation)
    requires IsEvaluation(e)
    ensures ParseEvaluation(EvaluationSuffix(e)) == Some(e)
  {
    var identity := FormatInt(e.policyID) + "_" + e.hash;
    var revision, sequence := FormatInt(e.revision), FormatInt(e.sequence);
    var revisionIdentity := identity + ['_'] + revision;
    var suffix := revisionIdentity + ['_'] + sequence;
    assert suffix == EvaluationSuffix(e);
    FormatIsDigits(e.revision);
    FormatIsDigits(e.sequence);
    LastIndexJoined(revisionIdentity, '_', sequence);
    assert suffix[..|revisionIdentity|] == revisionIdentity && suffix[|revisionIdentity| + 1..] == sequence;
    LastIndexJoined(identity, '_', revision);
    assert revisionIdentity[..|identity|] == identity && revisionIdentity[|identity| + 1..] == revision;
    IdentityRoundTrip(e.policyID, e.hash);
    IDRoundTrip(e.revision);
    IDRoundTrip(e.sequence);
  }

  /** The name of an evaluation tells which it is. */
  lemma EvaluationNamesAreInjective(a: Evaluation, b: Evaluation)
    requires IsEvaluation(a) && IsEvaluation(b) && NameOfEvaluation(a) == NameOfEvaluation(b)
    ensures a == b
  {
    NamesAreInjective(Policy, EvaluationSuffix(a), Policy, EvaluationSuffix(b));
    EvaluationRoundTrip(a);
    EvaluationRoundTrip(b);
  }

  lemma IDNamesAreInjective(kind: Kind, a: int, b: int)
    requires IsID(a) && IsID(b) && NameOfID(kind, a) == NameOfID(kind, b)
    ensures a == b
  {
    NamesAreInjective(kind, FormatInt(a), kind, FormatInt(b));
    IDRoundTrip(a);
    IDRoundTrip(b);
  }

  /** A label name an agent sends back stands for the same label as a different name
      the server issued exactly when its suffix is not the printed id. */
  lemma ForeignNameCollides(suffix: string)
    requires ParsePositive(suffix).Some?
    ensures (exists issued :: IsID(issued) && ParsePositive(suffix) == Some(issued)
               && Name(Label, suffix) != NameOfID(Label, issued))
            <==> suffix != FormatInt(ParsePositive(suffix).value)
  {
    var id := ParsePositive(suffix).value;
    assert IsID(id);
    if Name(Label, suffix) == NameOfID(Label, id) {
      NamesAreInjective(Label, suffix, Label, FormatInt(id));
    }
  }

  /** Such suffixes exist: a sign or a leading zero. */
  lemma SignedSuffixIsAccepted(id: int)
    requires IsID(id)
    ensures ParsePositive("+" + FormatInt(id)) == Some(id) && "+" + FormatInt(id) != FormatInt(id)
  {
    IDRoundTrip(id);
    FormatIsDigits(id);
    ValueOfDigits(id);
    assert ("+" + FormatInt(id))[1..] == FormatInt(id);
  }
}

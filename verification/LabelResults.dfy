/** The label results of an agent on their way into the derived-label store. */
module LabelResults {
  import opened Basics
  import opened DirectorySteps
  import opened QueryDispatch
  import opened QueryNames
  import opened Strings
  import Directory

  /** A label id that was parsed is positive. */
  function MembershipOf(result: LabelResult): DynamicMembership {
    DynamicMembership(Id(if result.labelID > 0 then result.labelID else 0), result.matched)
  }

  /** A membership is of the label and the match of the result. */
  lemma MembershipKeepsResult(result: LabelResult)
    requires result.labelID > 0
    ensures MembershipOf(result).labelID.number == result.labelID && MembershipOf(result).matched == result.matched
  {}

  function Memberships(results: seq<LabelResult>): (memberships: seq<DynamicMembership>)
    ensures |memberships| == |results|
    ensures forall i :: 0 <= i < |results| ==> memberships[i] == MembershipOf(results[i])
  {
    seq(|results|, i requires 0 <= i < |results| => MembershipOf(results[i]))
  }

  lemma ParsedIsPositive(isZero: string -> bool, request: Request, name: string)
    requires name in request.queries && LabelOutcome(isZero, request, name).Some?
    ensures LabelOutcome(isZero, request, name).value.labelID > 0
  {}

  /** Answers under issued names are never refused as repeating a label. */
  lemma EchoedLabelsAreAccepted(isZero: string -> bool, request: Request, names: seq<string>)
    requires forall name :: name in names ==> name in request.queries && Canonical(name)
    requires forall i, j :: 0 <= i < j < |names| ==> names[i] != names[j]
    ensures !Duplicated(Memberships(LabelsFrom(isZero, request, names)))
  {
    EchoedLabelsAreDistinct(isZero, request, names);
    var labels := LabelsFrom(isZero, request, names);
    forall i: nat | i < |labels| ensures labels[i].labelID > 0 {
      var name := LabelResultsHaveNames(isZero, request, names, i);
      ParsedIsPositive(isZero, request, name);
    }
    var memberships := Memberships(labels);
    forall i, j | 0 <= i < j < |memberships| ensures memberships[i].labelID != memberships[j].labelID {
      assert labels[i].labelID != labels[j].labelID;
      assert memberships[i] == MembershipOf(labels[i]) && memberships[j] == MembershipOf(labels[j]);
    }
  }

  lemma LabelAnswer(isZero: string -> bool, request: Request, suffix: string, id: int)
    requires suffix != "" && ParsePositive(suffix) == Some(id)
    requires Name(Label, suffix) in request.queries && Succeeded(isZero, request, Name(Label, suffix))
    ensures LabelOutcome(isZero, request, Name(Label, suffix))
         == Some(LabelResult(id, |request.queries[Name(Label, suffix)]| > 0))
  {
    NameRoundTrip(Label, suffix);
  }

  lemma TwoAnswers(isZero: string -> bool, request: Request, a: string, b: string)
    requires a in request.queries && b in request.queries
    requires LabelOutcome(isZero, request, a).Some? && LabelOutcome(isZero, request, b).Some?
    ensures LabelsFrom(isZero, request, [a, b])
         == [LabelOutcome(isZero, request, a).value, LabelOutcome(isZero, request, b).value]
  {
    assert [a, b][..1] == [a] && [a][..0] == [];
    assert LabelsFrom(isZero, request, [a]) == [LabelOutcome(isZero, request, a).value];
  }

  /** An agent that answers for a label under its own name and under the same id with
      a sign has all its label results refused. */
  lemma SignedNameIsRefused(isZero: string -> bool, request: Request, id: int, s: Directory.Tables, host: Id)
    requires IsID(id)
    requires var issued, signed := NameOfID(Label, id), Name(Label, "+" + FormatInt(id));
      issued in request.queries && signed in request.queries
      && Succeeded(isZero, request, issued) && Succeeded(isZero, request, signed)
    ensures var names := [NameOfID(Label, id), Name(Label, "+" + FormatInt(id))];
      names[0] != names[1]
      && Duplicated(Memberships(LabelsFrom(isZero, request, names)))
      && DynamicSet(s, host, Memberships(LabelsFrom(isZero, request, names))) == (s, Failed(InvalidInput))
  {
    var issued, signed := NameOfID(Label, id), Name(Label, "+" + FormatInt(id));
    IDRoundTrip(id);
    SignedSuffixIsAccepted(id);
    LabelAnswer(isZero, request, FormatInt(id), id);
    LabelAnswer(isZero, request, "+" + FormatInt(id), id);
    TwoAnswers(isZero, request, issued, signed);
    if issued == signed {
      NamesAreInjective(Label, FormatInt(id), Label, "+" + FormatInt(id));
    }
    var results := Memberships(LabelsFrom(isZero, request, [issued, signed]));
    assert results[0].labelID == results[1].labelID;
  }
}

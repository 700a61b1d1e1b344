/** JSON documents and the typed merge patch of internal/patch. Objects are maps
    because Go decodes them into maps; numbers keep their literal text because
    the merge never decodes them. */
module MergePatch {
  import opened Basics

  datatype Json<K(==)> =
    | Null
    | Bool(flag: bool)
    | Number(literal: string)
    | Text(text: string)
    | Array(items: seq<Json<K>>)
    | Object(members: map<K, Json<K>>)

  /** The member of a document, if it is an object that has one. */
  function Member<K>(document: Json<K>, key: K): Option<Json<K>> {
    if document.Object? && key in document.members then Some(document.members[key]) else None
  }

  /** Section 2 of RFC 7396: the members of an object patch are merged into the
      target (or into an empty object), null removes, anything else replaces. */
  ghost function Merged<K>(target: Option<Json<K>>, patch: Json<K>): Json<K>
    decreases patch
  {
    if !patch.Object? then patch
    else
      var base := if target.Some? && target.value.Object? then target.value.members else map[];
      Object(map key | key in base.Keys + patch.members.Keys
                       && (key in patch.members ==> patch.members[key] != Null)
             :: if key in patch.members
                then Merged(if key in base then Some(base[key]) else None, patch.members[key])
                else base[key])
  }

  /** merge: walk the patch's members in whatever order the map yields them and
      update the target in place. */
  method Merge<K>(current: Option<Json<K>>, document: Json<K>) returns (merged: Json<K>)
    ensures merged == Merged(current, document)
    decreases document
  {
    if !document.Object? {
      return document;
    }
    var fields := document.members;
    var target := map[];
    if current.Some? && current.value.Object? {
      target := current.value.members;
    }
    ghost var base := target;
    var pending := fields.Keys;
    while pending != {}
      invariant pending <= fields.Keys
      invariant forall key :: key in target <==>
        if key in fields.Keys - pending then fields[key] != Null else key in base
      invariant forall key :: key in target ==>
        (target[key] == if key in fields.Keys - pending
                        then Merged(if key in base then Some(base[key]) else None, fields[key])
                        else base[key])
      decreases pending
    {
      var key :| key in pending;
      pending := pending - {key};
      var value := fields[key];
      if value == Null {
        target := target - {key};
      } else {
        var member := Merge(if key in target then Some(target[key]) else None, value);
        target := target[key := member];
      }
    }
    merged := Object(target);
    assert merged.members.Keys == Merged(current, document).members.Keys;
  }

  // ------------------------------------------------------- what a patch changes

  /** The value a path of member names leads to. */
  ghost function At<K>(document: Option<Json<K>>, path: seq<K>): Option<Json<K>>
    decreases path
  {
    if document.None? || path == [] then document
    else At(Member(document.value, path[0]), path[1..])
  }

  /** How a patch treats a path: it may leave it alone, give a value to be merged
      there, or replace or remove a value above it. */
  datatype Effect<K(==)> = Untouched | MergesWith(value: Json<K>) | Replaced(above: Json<K>, rest: seq<K>)

  ghost function EffectAt<K>(patch: Json<K>, path: seq<K>): Effect<K>
    decreases path
  {
    if path == [] then MergesWith(patch)
    else if !patch.Object? then Replaced(patch, path)
    else if path[0] !in patch.members then Untouched
    else EffectAt(patch.members[path[0]], path[1..])
  }

  /** Every path of the merged document is accounted for: a path the patch does
      not name keeps its old value, a null clears the path, another value is
      merged into the old one, and nothing survives below a replaced value. */
  lemma {:induction false} MergedAt<K>(target: Option<Json<K>>, patch: Json<K>, path: seq<K>)
    requires patch.Object?
    ensures At(Some(Merged(target, patch)), path) ==
            match EffectAt(patch, path)
            case Untouched => At(target, path)
            case MergesWith(Null) => None
            case MergesWith(value) => Some(Merged(At(target, path), value))
            case Replaced(_, _) => None
    decreases path
  {
    if path != [] && path[0] in patch.members {
      var key, value := path[0], patch.members[path[0]];
      var was := if target.Some? then Member(target.value, key) else None;
      assert Member(Merged(target, patch), key) ==
             if value == Null then None else Some(Merged(was, value));
      if value.Object? {
        MergedAt(was, value, path[1..]);
      } else if path[1..] == [] {
        assert EffectAt(patch, path) == EffectAt(value, []) == MergesWith(value);
        assert At(target, path) == At(was, []) == was;
      } else {
        assert EffectAt(patch, path) == EffectAt(value, path[1..]) == Replaced(value, path[1..]);
        assert At(Some(value), path[1..]) == At(Member(value, path[1..][0]), path[1..][1..]) == None;
        assert Merged(was, value) == value;
      }
    }
  }

  /** An empty object changes no object. */
  lemma EmptyPatchIsIdentity<K>(target: Json<K>)
    requires target.Object?
    ensures Merged(Some(target), Object(map[])) == target
  {
    assert Merged(Some(target), Object(map[])).members == target.members;
  }

  /** Applying a patch twice is applying it once. */
  lemma {:induction false} MergeIsIdempotent<K>(target: Option<Json<K>>, patch: Json<K>)
    ensures Merged(Some(Merged(target, patch)), patch) == Merged(target, patch)
    decreases patch
  {
    if patch.Object? {
      var once := Merged(target, patch);
      var twice := Merged(Some(once), patch);
      forall key | key in patch.members && patch.members[key] != Null
        ensures twice.members[key] == once.members[key]
      {
        var was := if target.Some? then Member(target.value, key) else None;
        MergeIsIdempotent(was, patch.members[key]);
      }
      assert twice.members == once.members;
    }
  }

  /** No null member at any depth of nested objects; arrays are opaque. */
  ghost predicate NullFree<K>(document: Json<K>) {
    document.Object? ==>
      forall key :: key in document.members ==>
        document.members[key] != Null && NullFree(document.members[key])
  }

  /** Merging an object patch creates no null member. */
  lemma {:induction false} MergeAddsNoNull<K>(target: Option<Json<K>>, patch: Json<K>)
    requires target.Some? ==> NullFree(target.value)
    ensures patch != Null ==> Merged(target, patch) != Null
    ensures NullFree(Merged(target, patch))
    decreases patch
  {
    if patch.Object? {
      var merged := Merged(target, patch);
      forall key | key in merged.members
        ensures merged.members[key] != Null && NullFree(merged.members[key])
      {
        if key in patch.members {
          var was := if target.Some? then Member(target.value, key) else None;
          MergeAddsNoNull(was, patch.members[key]);
        }
      }
    }
  }

  // ------------------------------------------------------------ field contracts

  datatype Kind = StringKind | BooleanKind | IntegerKind | ArrayKind | ObjectKind

  /** The part of a patch schema that this model reads. checkFields itself looks
      at everything but the kind. */
  datatype Contract<K(==)> = Contract(
    kind: Kind,
    nullable: bool,
    properties: map<K, Contract<K>>,
    items: Option<Contract<K>>)

  /** checkFields: null only where the contract allows it, no unknown member, and
      the same for every member and, where the contract has an element schema,
      for every element. */
  predicate CheckFields<K>(contract: Contract<K>, value: Json<K>)
    decreases value
  {
    (value == Null ==> contract.nullable)
    && (value.Object? ==>
          forall key :: key in value.members ==>
            key in contract.properties
            && CheckFields(contract.properties[key], value.members[key]))
    && (value.Array? && contract.items.Some? ==>
          forall i :: 0 <= i < |value.items| ==> CheckFields(contract.items.value, value.items[i]))
  }

  // checkFields by path: members and elements.

  datatype Step<K(==)> = MemberStep(key: K) | ItemStep(index: nat)

  /** The value at the end of a path through members and elements. */
  ghost function ValueAt<K>(value: Json<K>, path: seq<Step<K>>): Option<Json<K>>
    decreases path
  {
    if path == [] then Some(value)
    else
      match path[0]
      case MemberStep(key) =>
        if value.Object? && key in value.members then ValueAt(value.members[key], path[1..]) else None
      case ItemStep(i) =>
        if value.Array? && i < |value.items| then ValueAt(value.items[i], path[1..]) else None
  }

  /** The contract for it. */
  ghost function ContractAt<K>(contract: Contract<K>, path: seq<Step<K>>): Option<Contract<K>>
    decreases path
  {
    if path == [] then Some(contract)
    else
      match path[0]
      case MemberStep(key) =>
        if key in contract.properties then ContractAt(contract.properties[key], path[1..]) else None
      case ItemStep(_) => if contract.items.Some? then ContractAt(contract.items.value, path[1..]) else None
  }

  /** Elements are looked at only where the contract has one for them. */
  ghost predicate IsRead<K>(contract: Contract<K>, path: seq<Step<K>>)
    decreases path
  {
    path != [] ==>
      match path[0]
      case MemberStep(key) => key in contract.properties ==> IsRead(contract.properties[key], path[1..])
      case ItemStep(_) => contract.items.Some? && IsRead(contract.items.value, path[1..])
  }

  ghost predicate IsAllowed<K>(contract: Contract<K>, value: Json<K>, path: seq<Step<K>>) {
    ValueAt(value, path).Some? && IsRead(contract, path) ==>
      ContractAt(contract, path).Some?
      && (ValueAt(value, path) == Some(Null) ==> ContractAt(contract, path).value.nullable)
  }

  lemma {:induction false} FieldsAllow<K>(contract: Contract<K>, value: Json<K>, path: seq<Step<K>>)
    requires CheckFields(contract, value)
    ensures IsAllowed(contract, value, path)
    decreases path
  {
    if path != [] && ValueAt(value, path).Some? && IsRead(contract, path) {
      match path[0]
      case MemberStep(key) => FieldsAllow(contract.properties[key], value.members[key], path[1..]);
      case ItemStep(i) => FieldsAllow(contract.items.value, value.items[i], path[1..]);
    }
  }

  lemma {:induction false} AllowedFields<K(!new)>(contract: Contract<K>, value: Json<K>)
    requires forall path :: IsAllowed(contract, value, path)
    ensures CheckFields(contract, value)
    decreases value
  {
    assert IsAllowed(contract, value, []);
    if value.Object? {
      forall key | key in value.members
        ensures key in contract.properties && CheckFields(contract.properties[key], value.members[key])
      {
        AllowedMember(contract, value, key);
        AllowedFields(contract.properties[key], value.members[key]);
      }
    } else if value.Array? && contract.items.Some? {
      forall i: nat | i < |value.items| ensures CheckFields(contract.items.value, value.items[i]) {
        AllowedItem(contract, value, i);
        AllowedFields(contract.items.value, value.items[i]);
      }
    }
  }

  lemma AllowedMember<K(!new)>(contract: Contract<K>, value: Json<K>, key: K)
    requires forall path :: IsAllowed(contract, value, path)
    requires value.Object? && key in value.members
    ensures key in contract.properties
    ensures forall path :: IsAllowed(contract.properties[key], value.members[key], path)
  {
    var step := [MemberStep(key)];
    assert step[1..] == [] && ValueAt(value, step) == Some(value.members[key]);
    assert IsAllowed(contract, value, step);
    forall path ensures IsAllowed(contract.properties[key], value.members[key], path) {
      var longer := [MemberStep(key)] + path;
      assert longer[1..] == path;
      assert IsAllowed(contract, value, longer);
    }
  }

  lemma AllowedItem<K(!new)>(contract: Contract<K>, value: Json<K>, i: nat)
    requires forall path :: IsAllowed(contract, value, path)
    requires value.Array? && i < |value.items| && contract.items.Some?
    ensures forall path :: IsAllowed(contract.items.value, value.items[i], path)
  {
    forall path ensures IsAllowed(contract.items.value, value.items[i], path) {
      var longer := [ItemStep(i)] + path;
      assert longer[1..] == path;
      assert IsAllowed(contract, value, longer);
    }
  }

  /** checkFields, path by path: wherever the value leads and the contract looks, the
      contract has a place for it, and a null only where that place is nullable. */
  lemma FieldsByPath<K(!new)>(contract: Contract<K>, value: Json<K>)
    ensures CheckFields(contract, value) <==> forall path :: IsAllowed(contract, value, path)
  {
    if CheckFields(contract, value) {
      forall path ensures IsAllowed(contract, value, path) {
        FieldsAllow(contract, value, path);
      }
    }
    if forall path :: IsAllowed(contract, value, path) {
      AllowedFields(contract, value);
    }
  }

  /** A document conforms when it passes checkFields, objects stand only where the
      contract has an object, and every other value meets a rule of its own
      contract: the type, enum and length checks that the schema validator makes
      after checkFields. */
  ghost predicate Conforms<K>(rule: (Contract<K>, Json<K>) -> bool, contract: Contract<K>, value: Json<K>)
    decreases value
  {
    CheckFields(contract, value)
    && (!value.Object? ==> rule(contract, value))
    && (value.Object? ==>
          contract.kind.ObjectKind?
          && forall key :: key in value.members && key in contract.properties ==>
            Conforms(rule, contract.properties[key], value.members[key]))
  }

  /** A conforming document stays conforming under every accepted patch, at every
      depth, including where an object is merged into a missing or non-object
      value. The rule is arbitrary. */
  lemma {:induction false} MergeKeepsContract<K>(
    rule: (Contract<K>, Json<K>) -> bool, contract: Contract<K>, target: Option<Json<K>>, patch: Json<K>)
    requires target.Some? && target.value.Object? ==> Conforms(rule, contract, target.value)
    requires Conforms(rule, contract, patch)
    ensures Conforms(rule, contract, Merged(target, patch))
    decreases patch
  {
    if patch.Object? {
      var merged := Merged(target, patch);
      forall key | key in merged.members
        ensures key in contract.properties
        ensures Conforms(rule, contract.properties[key], merged.members[key])
      {
        var was := if target.Some? then Member(target.value, key) else None;
        if key in patch.members {
          MergeKeepsContract(rule, contract.properties[key], was, patch.members[key]);
        } else {
          assert was == Some(merged.members[key]);
        }
      }
    }
  }

  /** checkFields alone is kept as well, without any further rule. */
  lemma {:induction false} MergeKeepsFields<K>(
    contract: Contract<K>, target: Option<Json<K>>, patch: Json<K>)
    requires target.Some? && target.value.Object? ==> CheckFields(contract, target.value)
    requires CheckFields(contract, patch)
    ensures CheckFields(contract, Merged(target, patch))
    decreases patch
  {
    if patch.Object? {
      var merged := Merged(target, patch);
      forall key | key in merged.members
        ensures key in contract.properties
        ensures CheckFields(contract.properties[key], merged.members[key])
      {
        var was := if target.Some? then Member(target.value, key) else None;
        if key in patch.members {
          MergeKeepsFields(contract.properties[key], was, patch.members[key]);
        } else {
          assert was == Some(merged.members[key]);
        }
      }
    }
  }
}

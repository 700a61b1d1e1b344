/** Renaming the members of an object. */
module Renaming {
  import opened Basics

  function Lookup<K, V>(row: map<K, V>, key: K): Option<V> {
    if key in row then Some(row[key]) else None
  }

  /** The members under other names; back undoes the renaming. */
  function Renamed<K(!new), V>(rename: K -> K, back: K -> K, row: map<K, V>): map<K, V> {
    var names := set key | key in row :: rename(key);
    map name | name in names && back(name) in row :: row[back(name)]
  }

  /** aliases has the names with another native name, and api knows them by it. */
  ghost predicate IsAliasing<K(!new)>(native: K -> K, api: K -> K, aliases: set<K>, key: K) {
    (key in aliases <==> native(key) != key)
    && (key in aliases ==> api(native(key)) == key && native(key) !in aliases)
    && (api(key) != key ==> api(key) in aliases && native(api(key)) == key)
  }

  ghost predicate AreAliases<K(!new)>(native: K -> K, api: K -> K, aliases: set<K>) {
    forall key :: IsAliasing(native, api, aliases, key)
  }

  /** The member once the aliases in done are renamed. */
  ghost predicate IsPartlyRenamed<K, V>(
    native: K -> K, api: K -> K, row: map<K, V>, done: set<K>, fields: map<K, V>, key: K)
  {
    Lookup(fields, key) ==
      if key in done then Lookup(row, native(key)) else if api(key) in done then None else Lookup(row, key)
  }

  /** The loop over the aliases, in whatever order the map yields them. */
  method RenameMembers<K(==, !new), V>(native: K -> K, api: K -> K, aliases: set<K>, row: map<K, V>)
    returns (mapped: Option<map<K, V>>)
    requires AreAliases(native, api, aliases)
    ensures mapped.None? <==> exists key :: key in row && key in aliases
    ensures mapped.Some? ==> mapped.value == Renamed(api, native, row)
  {
    var fields := row;
    var pending := aliases;
    while pending != {}
      invariant pending <= aliases
      invariant forall key :: key in row && key in aliases ==> key in pending
      invariant forall key :: IsPartlyRenamed(native, api, row, aliases - pending, fields, key)
      decreases pending
    {
      var alias :| alias in pending;
      AliasIsPending(native, api, aliases, row, aliases - pending, fields, alias);
      if alias in fields {
        return None;
      }
      ghost var before, done := fields, aliases - pending;
      fields := RenameField(fields, native(alias), alias);
      pending := pending - {alias};
      forall key ensures IsPartlyRenamed(native, api, row, aliases - pending, fields, key) {
        assert IsPartlyRenamed(native, api, row, done, before, key);
        assert aliases - pending == done + {alias};
        AliasIsRenamed(native, api, aliases, row, done, alias, before, fields, key);
      }
    }
    assert aliases - pending == aliases;
    FullyRenamed(native, api, aliases, row, fields);
    mapped := Some(fields);
  }

  lemma AliasIsPending<K(!new), V>(
    native: K -> K, api: K -> K, aliases: set<K>, row: map<K, V>, done: set<K>, fields: map<K, V>, alias: K)
    requires AreAliases(native, api, aliases) && alias in aliases - done && done <= aliases
    requires forall key :: IsPartlyRenamed(native, api, row, done, fields, key)
    ensures native(alias) != alias && (alias in fields <==> alias in row)
  {
    assert IsAliasing(native, api, aliases, alias);
    assert IsPartlyRenamed(native, api, row, done, fields, alias);
    if api(alias) != alias {
      assert IsAliasing(native, api, aliases, api(alias));
    }
  }

  lemma AliasIsRenamed<K(!new), V>(
    native: K -> K, api: K -> K, aliases: set<K>, row: map<K, V>, done: set<K>, alias: K,
    before: map<K, V>, after: map<K, V>, key: K)
    requires AreAliases(native, api, aliases) && alias in aliases - done && done <= aliases
    requires IsPartlyRenamed(native, api, row, done, before, key)
    requires IsPartlyRenamed(native, api, row, done, before, native(alias))
    requires Lookup(after, key) ==
      if key == alias then Lookup(before, native(alias)) else if key == native(alias) then None else Lookup(before, key)
    ensures IsPartlyRenamed(native, api, row, done + {alias}, after, key)
  {
    assert IsAliasing(native, api, aliases, alias);
    assert IsAliasing(native, api, aliases, key);
    assert IsAliasing(native, api, aliases, native(alias));
  }

  /** renamePkginfoField. */
  method RenameField<K(==, !new), V>(fields: map<K, V>, from: K, to: K) returns (renamed: map<K, V>)
    requires from != to && to !in fields
    ensures Lookup(renamed, to) == Lookup(fields, from) && Lookup(renamed, from) == None
    ensures forall key :: key != to && key != from ==> Lookup(renamed, key) == Lookup(fields, key)
  {
    renamed := fields;
    if from in fields {
      renamed := renamed[to := fields[from]];
      renamed := renamed - {from};
    }
  }

  lemma FullyRenamed<K(!new), V>(native: K -> K, api: K -> K, aliases: set<K>, row: map<K, V>, fields: map<K, V>)
    requires AreAliases(native, api, aliases)
    requires forall key :: key in row ==> key !in aliases
    requires forall key :: IsPartlyRenamed(native, api, row, aliases, fields, key)
    ensures fields == Renamed(api, native, row)
  {
    var renamed := Renamed(api, native, row);
    forall key ensures Lookup(renamed, key) == Lookup(fields, key) {
      assert IsPartlyRenamed(native, api, row, aliases, fields, key);
      assert IsAliasing(native, api, aliases, key);
      MemberIsRenamed(native, api, aliases, row, key);
    }
    SameMaps(renamed, fields);
  }

  lemma SameMaps<K(!new), V>(a: map<K, V>, b: map<K, V>)
    requires forall key :: Lookup(a, key) == Lookup(b, key)
    ensures a == b
  {
    forall key ensures key in a <==> key in b {
      assert Lookup(a, key) == Lookup(b, key);
    }
    forall key | key in a ensures a[key] == b[key] {
      assert Lookup(a, key) == Lookup(b, key);
    }
  }

  lemma MemberIsRenamed<K(!new), V>(native: K -> K, api: K -> K, aliases: set<K>, row: map<K, V>, key: K)
    requires AreAliases(native, api, aliases)
    requires forall k :: k in row ==> k !in aliases
    ensures IsPartlyRenamed(native, api, row, aliases, Renamed(api, native, row), key)
  {
    assert IsAliasing(native, api, aliases, key);
    assert IsAliasing(native, api, aliases, native(key));
    assert IsAliasing(native, api, aliases, api(key));
    var renamed := Renamed(api, native, row);
    if key in renamed {
      var from :| from in row && api(from) == key;
      assert IsAliasing(native, api, aliases, from);
    } else if native(key) in row {
      assert api(native(key)) != key;
    }
  }

  /** Move the fields with the given names out of a map. */
  method TakeFields<K(==, !new), V>(fields: map<K, V>, names: set<K>) returns (taken: map<K, V>, rest: map<K, V>)
    ensures forall key :: Lookup(taken, key) == if key in names then Lookup(fields, key) else None
    ensures forall key :: Lookup(rest, key) == if key in names then None else Lookup(fields, key)
  {
    taken, rest := map[], fields;
    var pending := names;
    while pending != {}
      invariant pending <= names
      invariant forall key :: key in taken <==> key in fields && key in names && key !in pending
      invariant forall key :: key in rest <==> key in fields && (key in pending || key !in names)
      invariant forall key :: key in taken ==> taken[key] == fields[key]
      invariant forall key :: key in rest ==> rest[key] == fields[key]
      decreases pending
    {
      var key :| key in pending;
      pending := pending - {key};
      if key in rest {
        taken := taken[key := rest[key]];
        rest := rest - {key};
      }
    }
  }

  /** Delete every field without one of the given names. */
  method KeepOnly<K(==, !new), V>(row: map<K, V>, names: set<K>) returns (kept: map<K, V>)
    ensures kept == map key | key in row && key in names :: row[key]
  {
    kept := row;
    var pending := row.Keys;
    while pending != {}
      invariant pending <= row.Keys
      invariant forall key :: key in kept <==> key in row && (key in pending || key in names)
      invariant forall key :: key in kept ==> kept[key] == row[key]
      decreases pending
    {
      var key :| key in pending;
      pending := pending - {key};
      if key !in names {
        kept := kept - {key};
      }
    }
  }
}

/** The convention pass of kemi's `DeclarativeMeta`: when a class is defined,
    four features edit its attribute dictionary in a fixed order before the
    mapped class is built from it.  Each feature is a method that changes a
    `ClassDict` in place and is proved against a function of the old
    dictionary (`WithIdColumn`, `WithTablename`, `WithForeignKeyColumns`,
    `WithPrimaryjoins`); the lemmas state what those functions promise. */
module Declarative {
  import opened Naming
  import opened Attributes

  const IdKey := "id"
  const TablenameKey := "__tablename__"
  /** Present only in the dictionary of the declarative base itself. */
  const RegistryKey := "_decl_class_registry"

  // ---------------------------------------------------------------------
  // Names

  /** The table-name convention: the snake-case class name plus `s`. */
  function ConventionalTablename(classname: string): (r: string)
    ensures |r| == |CamelCaseToName(classname)| + 1 && r[|r| - 1] == 's'
    ensures r[..|r| - 1] == CamelCaseToName(classname)
    ensures forall i :: 0 <= i < |r| ==> !IsUpper(r[i])
  {
    CamelCaseToName(classname) + "s"
  }

  /** `_get_names`: the class name and the table name of a relationship
      target.  A bare name is assumed to follow the table-name convention. */
  function GetNames(target: Target): (r: (string, string))
    ensures r.0 == target.name
    ensures target.ClassRef? ==> r.1 == target.tablename
    ensures target.NameRef? ==> r.1 == ConventionalTablename(target.name)
  {
    match target
    case ClassRef(name, tablename) => (name, tablename)
    case NameRef(name) => (name, ConventionalTablename(name))
  }

  /** `_get_relationships`: the entries whose value is a relationship. */
  function GetRelationships(m: map<string, Attr>): (r: map<string, Attr>)
    ensures forall name :: name in r <==> name in m && m[name].Relationship?
    ensures forall name :: name in r ==> r[name] == m[name]
  {
    map name | name in m && m[name].Relationship? :: m[name]
  }

  // ---------------------------------------------------------------------
  // id_column

  predicate IsPrimaryKeyColumn(a: Attr) {
    a.Column? && a.primaryKey
  }

  predicate HasPrimaryKey(m: map<string, Attr>) {
    exists a :: a in m.Values && IsPrimaryKeyColumn(a)
  }

  /** The keys whose value is a primary-key column. */
  function PrimaryKeyNames(m: map<string, Attr>): set<string> {
    set k | k in m && IsPrimaryKeyColumn(m[k])
  }

  /** `Column(Integer, primary_key=True)`. */
  const NewIdColumn: Attr := Column(None, IntegerType, true, [])

  function WithIdColumn(m: map<string, Attr>): map<string, Attr> {
    if HasPrimaryKey(m) then m else m[IdKey := NewIdColumn]
  }

  /** `id_column`: stop at the first value that is a primary-key column;
      when there is none, store a new integer primary key under `id`. */
  method IdColumn(classname: string, d: ClassDict)
    modifies d
    ensures d.entries == WithIdColumn(old(d.entries))
  {
    var rest := d.entries.Values;
    while rest != {}
      invariant rest <= d.entries.Values
      invariant d.entries == old(d.entries)
      invariant forall a :: a in d.entries.Values - rest ==> !IsPrimaryKeyColumn(a)
      decreases rest
    {
      var value :| value in rest;
      if value.Column? && value.primaryKey {
        return;
      }
      rest := rest - {value};
    }
    d.entries := d.entries[IdKey := NewIdColumn];
  }

  /** An existing primary key, whatever its name and type, is kept and no
      `id` is added; otherwise `id` becomes the one primary-key column and
      every other entry stays as it was. */
  lemma IdColumnSpec(m: map<string, Attr>)
    ensures HasPrimaryKey(WithIdColumn(m))
    ensures HasPrimaryKey(m) ==> WithIdColumn(m) == m
    ensures !HasPrimaryKey(m) ==>
      && WithIdColumn(m).Keys == m.Keys + {IdKey}
      && WithIdColumn(m)[IdKey] == NewIdColumn
      && PrimaryKeyNames(WithIdColumn(m)) == {IdKey}
      && forall k :: k in m && k != IdKey ==> WithIdColumn(m)[k] == m[k]
  {
    var r := WithIdColumn(m);
    if !HasPrimaryKey(m) {
      assert r[IdKey] in r.Values;
    }
  }

  // ---------------------------------------------------------------------
  // tablename

  function WithTablename(classname: string, m: map<string, Attr>): map<string, Attr> {
    if TablenameKey in m then m else m[TablenameKey := StrValue(ConventionalTablename(classname))]
  }

  /** `tablename`. */
  method Tablename(classname: string, d: ClassDict)
    modifies d
    ensures d.entries == WithTablename(classname, old(d.entries))
  {
    if TablenameKey !in d.entries {
      d.entries := d.entries[TablenameKey := StrValue(ConventionalTablename(classname))];
    }
  }

  /** A missing table name becomes the conventional one, an explicit one is
      kept, and nothing else changes. */
  lemma TablenameSpec(classname: string, m: map<string, Attr>)
    ensures WithTablename(classname, m).Keys == m.Keys + {TablenameKey}
    ensures TablenameKey !in m ==>
      WithTablename(classname, m)[TablenameKey] == StrValue(CamelCaseToName(classname) + "s")
    ensures forall k :: k in m ==> WithTablename(classname, m)[k] == m[k]
  {
  }

  // ---------------------------------------------------------------------
  // foreign_key_columns

  /** The values that are columns with at least one foreign key. */
  function ForeignKeyColumnValues(m: map<string, Attr>): set<Attr> {
    set a | a in m.Values && a.Column? && |a.foreignKeys| > 0
  }

  predicate HasForeignKeyColumn(m: map<string, Attr>) {
    ForeignKeyColumnValues(m) != {}
  }

  /** A relationship with neither a join condition nor a secondary table. */
  predicate Unjoined(a: Attr) {
    a.Relationship? && a.primaryjoin.None? && !a.secondary
  }

  function FkColumnName(name: string): string {
    name + "_id"
  }

  /** The relationship name that a `<name>_id` key was made from. */
  function Stem(k: string): string {
    if |k| >= 3 then k[..|k| - 3] else k
  }

  lemma StemOfFkColumnName(name: string)
    ensures Stem(FkColumnName(name)) == name
  {
    assert FkColumnName(name)[..|name|] == name;
  }

  lemma FkColumnNameInjective(a: string, b: string)
    ensures FkColumnName(a) == FkColumnName(b) ==> a == b
  {
    StemOfFkColumnName(a);
    StemOfFkColumnName(b);
  }

  /** `Column(fk_colname, Integer, ForeignKey('<table>.id'))`. */
  function FkColumn(name: string, tablename: string): Attr {
    Column(Some(FkColumnName(name)), IntegerType, false, [tablename + ".id"])
  }

  /** The foreign-key column synthesised for the unjoined relationship stored
      under `name`. */
  function FkColumnFor(m: map<string, Attr>, name: string): Attr
    requires name in m && m[name].Relationship?
  {
    FkColumn(name, GetNames(m[name].argument).1)
  }

  /** The keys `<name>_id` of the unjoined relationships among `names`. */
  function FkKeys(m: map<string, Attr>, names: set<string>): set<string> {
    set n | n in names && n in m && Unjoined(m[n]) :: FkColumnName(n)
  }

  /** Which keys are added, stated key by key. */
  lemma FkKeysMember(m: map<string, Attr>, names: set<string>, k: string)
    ensures k in FkKeys(m, names) <==>
      k == FkColumnName(Stem(k)) && Stem(k) in names && Stem(k) in m && Unjoined(m[Stem(k)])
  {
    if k in FkKeys(m, names) {
      var n :| n in names && n in m && Unjoined(m[n]) && k == FkColumnName(n);
      StemOfFkColumnName(n);
    }
  }

  lemma FkKeysStems(m: map<string, Attr>, names: set<string>)
    ensures forall k :: k in FkKeys(m, names) ==> Stem(k) in m && Unjoined(m[Stem(k)])
  {
    forall k | k in FkKeys(m, names) ensures Stem(k) in m && Unjoined(m[Stem(k)]) {
      FkKeysMember(m, names, k);
    }
  }

  /** The columns synthesised for the unjoined relationships among `names`. */
  function SynthesizedColumns(m: map<string, Attr>, names: set<string>): map<string, Attr> {
    FkKeysStems(m, names);
    map k | k in FkKeys(m, names) :: FkColumnFor(m, Stem(k))
  }

  function WithForeignKeyColumns(m: map<string, Attr>): map<string, Attr> {
    if HasForeignKeyColumn(m) then m else m + SynthesizedColumns(m, m.Keys)
  }

  /** Taking one relationship name off those still to be processed. */
  lemma SynthesizedColumnsStep(m: map<string, Attr>, names: set<string>, todo: set<string>, n: string)
    requires n in names && n in todo && n in m && m[n].Relationship?
    ensures Unjoined(m[n]) ==>
      m + SynthesizedColumns(m, names - (todo - {n})) ==
      (m + SynthesizedColumns(m, names - todo))[FkColumnName(n) := FkColumnFor(m, n)]
    ensures !Unjoined(m[n]) ==>
      SynthesizedColumns(m, names - (todo - {n})) == SynthesizedColumns(m, names - todo)
  {
    var before := names - todo;
    var after := names - (todo - {n});
    StemOfFkColumnName(n);
    forall k ensures k in FkKeys(m, after) <==> k in FkKeys(m, before) || (Unjoined(m[n]) && k == FkColumnName(n)) {
      FkKeysMember(m, before, k);
      FkKeysMember(m, after, k);
    }
    var s1 := SynthesizedColumns(m, before);
    var s2 := SynthesizedColumns(m, after);
    if Unjoined(m[n]) {
      assert s2 == s1[FkColumnName(n) := FkColumnFor(m, n)];
    } else {
      assert s2 == s1;
    }
  }

  /** Only the relationships matter to the synthesis. */
  lemma SynthesizedColumnsOfRelationships(m: map<string, Attr>)
    ensures SynthesizedColumns(m, GetRelationships(m).Keys) == SynthesizedColumns(m, m.Keys)
  {
    forall k ensures k in FkKeys(m, GetRelationships(m).Keys) <==> k in FkKeys(m, m.Keys) {
      FkKeysMember(m, GetRelationships(m).Keys, k);
      FkKeysMember(m, m.Keys, k);
    }
    assert FkKeys(m, GetRelationships(m).Keys) == FkKeys(m, m.Keys);
  }

  /** `foreign_key_columns`: nothing when some column already has a foreign
      key; otherwise one integer foreign-key column `<name>_id` per
      relationship without a join condition or secondary table, visiting the
      relationships found before the first column is stored. */
  method ForeignKeyColumns(classname: string, d: ClassDict)
    modifies d
    ensures d.entries == WithForeignKeyColumns(old(d.entries))
  {
    var foreignKeyCols := ForeignKeyColumnValues(d.entries);
    if foreignKeyCols != {} {
      return;
    }
    ghost var m := d.entries;
    var relationships := GetRelationships(d.entries);
    var todo := relationships.Keys;
    while todo != {}
      invariant todo <= relationships.Keys
      invariant d.entries == m + SynthesizedColumns(m, relationships.Keys - todo)
      decreases todo
    {
      var name :| name in todo;
      var prop := relationships[name];
      if prop.primaryjoin.None? && !prop.secondary {
        var (otherClassname, otherTablename) := GetNames(prop.argument);
        var fkColname := FkColumnName(name);
        d.entries := d.entries[fkColname := FkColumn(name, otherTablename)];
      }
      assert d.entries == m + SynthesizedColumns(m, relationships.Keys - (todo - {name})) by {
        assert prop == m[name];
        SynthesizedColumnsStep(m, relationships.Keys, todo, name);
      }
      todo := todo - {name};
    }
    assert d.entries == m + SynthesizedColumns(m, m.Keys) by {
      assert relationships.Keys - todo == GetRelationships(m).Keys;
      SynthesizedColumnsOfRelationships(m);
    }
  }

  /** Where the synthesised columns go. */
  lemma SynthesizedColumnsSpec(m: map<string, Attr>)
    ensures SynthesizedColumns(m, m.Keys).Keys == set n | n in m && Unjoined(m[n]) :: FkColumnName(n)
    ensures forall n :: n in m && Unjoined(m[n]) ==>
      FkColumnName(n) in SynthesizedColumns(m, m.Keys) &&
      SynthesizedColumns(m, m.Keys)[FkColumnName(n)] == FkColumnFor(m, n)
    ensures forall n :: n in m && !Unjoined(m[n]) ==> FkColumnName(n) !in SynthesizedColumns(m, m.Keys)
  {
    forall n | n in m
      ensures Unjoined(m[n]) ==> (FkColumnName(n) in SynthesizedColumns(m, m.Keys) &&
        SynthesizedColumns(m, m.Keys)[FkColumnName(n)] == FkColumnFor(m, n))
      ensures !Unjoined(m[n]) ==> FkColumnName(n) !in SynthesizedColumns(m, m.Keys)
    {
      StemOfFkColumnName(n);
      FkKeysMember(m, m.Keys, FkColumnName(n));
    }
  }

  /** What `foreign_key_columns` promises.  A foreign-key column anywhere in
      the class suppresses all synthesis.  Otherwise every relationship
      without a join condition or secondary table gets `<name>_id`, an
      integer column with a foreign key to the target's table; a relationship
      with either gets no column; every other entry is kept. */
  lemma ForeignKeyColumnsSpec(m: map<string, Attr>)
    ensures HasForeignKeyColumn(m) ==> WithForeignKeyColumns(m) == m
    ensures !HasForeignKeyColumn(m) ==>
      && WithForeignKeyColumns(m).Keys ==
           m.Keys + (set n | n in m && Unjoined(m[n]) :: FkColumnName(n))
      && (forall n :: n in m && Unjoined(m[n]) ==>
            WithForeignKeyColumns(m)[FkColumnName(n)] ==
              Column(Some(n + "_id"), IntegerType, false, [GetNames(m[n].argument).1 + ".id"]))
      && (forall n :: n in m && m[n].Relationship? && !Unjoined(m[n]) ==>
            && (FkColumnName(n) in WithForeignKeyColumns(m) <==> FkColumnName(n) in m)
            && (FkColumnName(n) in m ==> WithForeignKeyColumns(m)[FkColumnName(n)] == m[FkColumnName(n)]))
      && (forall k :: k in m && k !in (set n | n in m && Unjoined(m[n]) :: FkColumnName(n)) ==>
            WithForeignKeyColumns(m)[k] == m[k])
  {
    SynthesizedColumnsSpec(m);
  }

  // ---------------------------------------------------------------------
  // primaryjoins

  /** The join condition `'<Other>.id == <Class>.<fk>'`. */
  function JoinCondition(otherClassname: string, classname: string, fkColname: string): string {
    otherClassname + ".id == " + classname + "." + fkColname
  }

  /** Whether the relationship stored under `name` gets a join condition:
      it has neither a join condition nor a secondary table, and
      `classdict.get('<name>_id')` is not `None`. */
  predicate GetsJoin(m: map<string, Attr>, name: string) {
    name in m && Unjoined(m[name]) && !DictGet(m, FkColumnName(name)).NoneValue?
  }

  /** The relationship stored under `name` with its join condition filled in. */
  function Joined(classname: string, m: map<string, Attr>, name: string): Attr
    requires name in m && m[name].Relationship?
  {
    var otherClassname := GetNames(m[name].argument).0;
    m[name].(primaryjoin := Some(JoinCondition(otherClassname, classname, FkColumnName(name))))
  }

  /** The dictionary once the relationships among `names` are processed. */
  function JoinedFor(classname: string, m: map<string, Attr>, names: set<string>): map<string, Attr> {
    map k | k in m :: if k in names && GetsJoin(m, k) then Joined(classname, m, k) else m[k]
  }

  function WithPrimaryjoins(classname: string, m: map<string, Attr>): map<string, Attr> {
    JoinedFor(classname, m, m.Keys)
  }

  /** Filling in join conditions never turns a value into `None` and never
      adds or removes a key, so each relationship sees the same
      `<name>_id` lookup as in the original dictionary. */
  lemma JoinedForLookup(classname: string, m: map<string, Attr>, names: set<string>, key: string)
    ensures DictGet(JoinedFor(classname, m, names), key).NoneValue? == DictGet(m, key).NoneValue?
  {
  }

  /** `primaryjoins`: for each relationship without a join condition or
      secondary table whose `<name>_id` entry is not `None`, set the
      relationship's join condition. */
  method Primaryjoins(classname: string, d: ClassDict)
    modifies d
    ensures d.entries == WithPrimaryjoins(classname, old(d.entries))
  {
    var relationships := GetRelationships(d.entries);
    var todo := relationships.Keys;
    while todo != {}
      invariant todo <= relationships.Keys
      invariant d.entries == JoinedFor(classname, old(d.entries), relationships.Keys - todo)
      decreases todo
    {
      var name :| name in todo;
      var prop := relationships[name];
      ghost var done := relationships.Keys - todo;
      assert done + {name} == relationships.Keys - (todo - {name});
      if prop.primaryjoin.None? && !prop.secondary {
        var (otherClassname, otherTablename) := GetNames(prop.argument);
        var fkColname := FkColumnName(name);
        var column := DictGet(d.entries, fkColname);
        JoinedForLookup(classname, old(d.entries), done, fkColname);
        if !column.NoneValue? {
          d.entries := d.entries[name := prop.(primaryjoin := Some(JoinCondition(otherClassname, classname, fkColname)))];
        }
      }
      todo := todo - {name};
    }
    assert JoinedFor(classname, old(d.entries), relationships.Keys)
        == JoinedFor(classname, old(d.entries), old(d.entries).Keys);
  }

  /** What `primaryjoins` promises: the keys stay the same; a relationship
      without a join condition or secondary table whose `<name>_id` entry is
      present and not `None` gets `'<Other>.id == <Class>.<name>_id'`; every
      other entry, including relationships with an explicit join condition or
      a secondary table, is kept. */
  lemma PrimaryjoinsSpec(classname: string, m: map<string, Attr>)
    ensures WithPrimaryjoins(classname, m).Keys == m.Keys
    ensures forall n :: n in m && Unjoined(m[n]) && FkColumnName(n) in m && !m[FkColumnName(n)].NoneValue? ==>
      WithPrimaryjoins(classname, m)[n] ==
        Relationship(m[n].argument,
                     Some(m[n].argument.name + ".id == " + classname + "." + n + "_id"),
                     false)
    ensures forall k :: k in m && !GetsJoin(m, k) ==> WithPrimaryjoins(classname, m)[k] == m[k]
    ensures forall k :: k in m && !m[k].Relationship? ==> WithPrimaryjoins(classname, m)[k] == m[k]
  {
    forall n | n in m && Unjoined(m[n])
      ensures JoinCondition(m[n].argument.name, classname, FkColumnName(n))
           == m[n].argument.name + ".id == " + classname + "." + n + "_id"
    {
      var prefix := m[n].argument.name + ".id == " + classname + ".";
      assert prefix + (n + "_id") == prefix + n + "_id";
    }
  }

  // ---------------------------------------------------------------------
  // __new__

  /** The names in `DeclarativeMeta.features`. */
  datatype Feature = IdColumnFeature | TablenameFeature | ForeignKeyColumnsFeature | PrimaryjoinsFeature

  const Features: seq<Feature> :=
    [IdColumnFeature, TablenameFeature, ForeignKeyColumnsFeature, PrimaryjoinsFeature]

  function ApplyFeature(f: Feature, classname: string, m: map<string, Attr>): map<string, Attr> {
    match f
    case IdColumnFeature => WithIdColumn(m)
    case TablenameFeature => WithTablename(classname, m)
    case ForeignKeyColumnsFeature => WithForeignKeyColumns(m)
    case PrimaryjoinsFeature => WithPrimaryjoins(classname, m)
  }

  /** The features of `fs`, applied one after the other. */
  function ApplyFeatures(fs: seq<Feature>, classname: string, m: map<string, Attr>): map<string, Attr>
    decreases |fs|
  {
    if fs == [] then m else ApplyFeature(fs[|fs| - 1], classname, ApplyFeatures(fs[..|fs| - 1], classname, m))
  }

  /** The dictionary from which `__new__` builds the class. */
  function Resolved(classname: string, m: map<string, Attr>): map<string, Attr> {
    if RegistryKey in m then m else ApplyFeatures(Features, classname, m)
  }

  /** `getattr(meta, featurename)(meta, classname, bases, classdict)`. */
  method RunFeature(f: Feature, classname: string, d: ClassDict)
    modifies d
    ensures d.entries == ApplyFeature(f, classname, old(d.entries))
  {
    match f
    case IdColumnFeature => IdColumn(classname, d);
    case TablenameFeature => Tablename(classname, d);
    case ForeignKeyColumnsFeature => ForeignKeyColumns(classname, d);
    case PrimaryjoinsFeature => Primaryjoins(classname, d);
  }

  /** `DeclarativeMeta.__new__`: unless the dictionary is that of the
      declarative base, run every feature in order; return the dictionary the
      class is built from. */
  method New(classname: string, d: ClassDict) returns (classdict: map<string, Attr>)
    modifies d
    ensures d.entries == Resolved(classname, old(d.entries))
    ensures classdict == d.entries
  {
    if RegistryKey !in d.entries {
      for i := 0 to |Features|
        invariant d.entries == ApplyFeatures(Features[..i], classname, old(d.entries))
      {
        assert Features[..i + 1][..i] == Features[..i];
        RunFeature(Features[i], classname, d);
      }
      assert Features[..|Features|] == Features;
    }
    classdict := d.entries;
  }

  /** The features run in the order id column, table name, foreign-key
      columns, join conditions, and not at all for the declarative base. */
  lemma ResolvedOrder(classname: string, m: map<string, Attr>)
    ensures RegistryKey in m ==> Resolved(classname, m) == m
    ensures RegistryKey !in m ==>
      Resolved(classname, m) ==
        WithPrimaryjoins(classname, WithForeignKeyColumns(WithTablename(classname, WithIdColumn(m))))
  {
    if RegistryKey !in m {
      var m1 := ApplyFeatures(Features[..1], classname, m);
      var m2 := ApplyFeatures(Features[..2], classname, m);
      var m3 := ApplyFeatures(Features[..3], classname, m);
      assert Features[..1] == [IdColumnFeature];
      assert ApplyFeatures([], classname, m) == m;
      assert m1 == WithIdColumn(m);
      assert Features[..2][..1] == Features[..1];
      assert m2 == WithTablename(classname, m1);
      assert Features[..3][..2] == Features[..2];
      assert m3 == WithForeignKeyColumns(m2);
      assert Features[..3] == Features[..4][..3];
      assert Features[..4] == Features;
    }
  }

  // ---------------------------------------------------------------------
  // The whole pass

  /** The keys the pass can add never collide with one another. */
  lemma AddedKeysDistinct(name: string)
    ensures FkColumnName(name) != IdKey
    ensures FkColumnName(name) != TablenameKey
    ensures FkColumnName(name) != RegistryKey
    ensures IdKey != TablenameKey && IdKey != RegistryKey && TablenameKey != RegistryKey
  {
    var k := FkColumnName(name);
    assert k[|k| - 1] == 'd';
  }

  /** After the id column and table name steps, the relationships without a
      join condition are those of the original dictionary, except one named
      `id` that the new primary key replaced. */
  lemma PrefixStepsKeepRelationships(classname: string, m: map<string, Attr>)
    ensures var m2 := WithTablename(classname, WithIdColumn(m));
      && m.Keys <= m2.Keys
      && (forall n :: n in m2 && m2[n].Relationship? ==> n in m && m2[n] == m[n])
      && (forall n :: n in m && (n != IdKey || HasPrimaryKey(m)) ==> m2[n] == m[n])
      && (HasForeignKeyColumn(m2) ==> HasForeignKeyColumn(m))
      && (forall a :: a in m2.Values && IsPrimaryKeyColumn(a) ==> a in m.Values || a == NewIdColumn)
  {
    IdColumnSpec(m);
    TablenameSpec(classname, WithIdColumn(m));
    var m2 := WithTablename(classname, WithIdColumn(m));
    if HasForeignKeyColumn(m2) {
      var a :| a in ForeignKeyColumnValues(m2);
      var k :| k in m2 && m2[k] == a;
      assert k in m && m[k] == a;
      assert a in ForeignKeyColumnValues(m);
    }
  }

  /** The declarative base is left alone; every other class ends up with a
      table name: the conventional one when none was declared, else the
      declared one (a declared `__tablename__` that is itself a relationship
      aside). */
  lemma ResolvedTablename(classname: string, m: map<string, Attr>)
    ensures RegistryKey in m ==> Resolved(classname, m) == m
    ensures RegistryKey !in m ==> TablenameKey in Resolved(classname, m)
    ensures RegistryKey !in m && TablenameKey !in m ==>
      Resolved(classname, m)[TablenameKey] == StrValue(CamelCaseToName(classname) + "s")
    ensures RegistryKey !in m && TablenameKey in m && !m[TablenameKey].Relationship? ==>
      Resolved(classname, m)[TablenameKey] == m[TablenameKey]
  {
    ResolvedOrder(classname, m);
    if RegistryKey !in m {
      var m1 := WithIdColumn(m);
      var m2 := WithTablename(classname, m1);
      var m3 := WithForeignKeyColumns(m2);
      IdColumnSpec(m);
      TablenameSpec(classname, m1);
      ForeignKeyColumnsSpec(m2);
      PrimaryjoinsSpec(classname, m3);
      forall n | n in m2 && Unjoined(m2[n]) ensures FkColumnName(n) != TablenameKey {
        AddedKeysDistinct(n);
      }
      assert m3[TablenameKey] == m2[TablenameKey];
    }
  }

  /** A relationship that names its target by a bare class name assumes the
      target's table follows the convention; that is the table name the pass
      gives a class of that name which declares none. */
  lemma NameRefMatchesConvention(classname: string, m: map<string, Attr>)
    requires RegistryKey !in m && TablenameKey !in m
    ensures TablenameKey in Resolved(classname, m)
    ensures Resolved(classname, m)[TablenameKey] == StrValue(GetNames(NameRef(classname)).1)
  {
    ResolvedTablename(classname, m);
  }

  /** Every relationship without a join condition or secondary table ends
      linked: `<name>_id` is the synthesised foreign-key column and the
      relationship carries the join condition through it.  This needs that no
      column of the class has a foreign key already, that the relationship is
      not named `id` in a class whose new primary key takes that key, and
      that it is not itself named `<other>_id` after another such
      relationship, whose column would replace it. */
  lemma ResolvedLinksRelationship(classname: string, m: map<string, Attr>, n: string)
    requires RegistryKey !in m && !HasForeignKeyColumn(m)
    requires n in m && Unjoined(m[n])
    requires n != IdKey || HasPrimaryKey(m)
    requires forall p :: p in m && Unjoined(m[p]) ==> n != FkColumnName(p)
    ensures n in Resolved(classname, m) && FkColumnName(n) in Resolved(classname, m)
    ensures Resolved(classname, m)[n + "_id"] ==
      Column(Some(n + "_id"), IntegerType, false, [GetNames(m[n].argument).1 + ".id"])
    ensures Resolved(classname, m)[n] ==
      Relationship(m[n].argument, Some(m[n].argument.name + ".id == " + classname + "." + n + "_id"), false)
  {
    ResolvedOrder(classname, m);
    var m2 := WithTablename(classname, WithIdColumn(m));
    var m3 := WithForeignKeyColumns(m2);
    PrefixStepsKeepRelationships(classname, m);
    ForeignKeyColumnsSpec(m2);
    assert m2[n] == m[n];
    assert m3[FkColumnName(n)] == FkColumnFor(m2, n);
    assert n !in SynthesizedColumns(m2, m2.Keys) by {
      SynthesizedColumnsSpec(m2);
    }
    assert m3[n] == m[n];
    PrimaryjoinsSpec(classname, m3);
  }

  /** The hypothesis under which the pass keeps a primary key: some column
      already has a foreign key, which suppresses the synthesis or sits
      under the `id` key that the new primary key takes, or no relationship
      without a join condition has a primary key under its `<name>_id`. */
  predicate KeepsPrimaryKey(m: map<string, Attr>) {
    || HasForeignKeyColumn(m)
    || forall n :: n in m && Unjoined(m[n]) ==>
         !(FkColumnName(n) in m && IsPrimaryKeyColumn(m[FkColumnName(n)]))
  }

  /** A primary-key column is always there after the pass, unless the
      foreign-key column of a relationship replaces it. */
  lemma ResolvedPrimaryKey(classname: string, m: map<string, Attr>)
    requires RegistryKey !in m && KeepsPrimaryKey(m)
    ensures HasPrimaryKey(Resolved(classname, m))
  {
    ResolvedOrder(classname, m);
    var m1 := WithIdColumn(m);
    var m2 := WithTablename(classname, m1);
    var m3 := WithForeignKeyColumns(m2);
    var r := WithPrimaryjoins(classname, m3);
    IdColumnSpec(m);
    var k, a;
    if HasPrimaryKey(m) {
      a :| a in m.Values && IsPrimaryKeyColumn(a);
      k :| k in m && m[k] == a;
    } else {
      k, a := IdKey, NewIdColumn;
    }
    assert k in m1 && m1[k] == a;
    assert k in m2 && m2[k] == a by {
      TablenameSpec(classname, m1);
    }
    assert HasForeignKeyColumn(m2) || k !in SynthesizedColumns(m2, m2.Keys) by {
      FkKeysMember(m2, m2.Keys, k);
      PrefixStepsKeepRelationships(classname, m);
      AddedKeysDistinct(Stem(k));
      if HasPrimaryKey(m) && HasForeignKeyColumn(m) {
        var c :| c in ForeignKeyColumnValues(m);
        var j :| j in m && m[j] == c;
        TablenameSpec(classname, m1);
        assert c in ForeignKeyColumnValues(m2);
      }
    }
    assert k in m3 && m3[k] == a by {
      ForeignKeyColumnsSpec(m2);
      SynthesizedColumnsSpec(m2);
    }
    assert k in r && r[k] == a by {
      PrimaryjoinsSpec(classname, m3);
    }
    assert a in r.Values;
  }

  /** The pass never adds the key that marks the declarative base. */
  lemma ResolvedKeepsRegistryAbsent(classname: string, m: map<string, Attr>)
    requires RegistryKey !in m
    ensures RegistryKey !in Resolved(classname, m)
  {
    ResolvedOrder(classname, m);
    var m1 := WithIdColumn(m);
    var m2 := WithTablename(classname, m1);
    var m3 := WithForeignKeyColumns(m2);
    AddedKeysDistinct("");
    assert RegistryKey !in m1 by {
      IdColumnSpec(m);
    }
    assert RegistryKey !in m2 by {
      TablenameSpec(classname, m1);
    }
    assert RegistryKey !in m3 by {
      FkKeysMember(m2, m2.Keys, RegistryKey);
      AddedKeysDistinct(Stem(RegistryKey));
    }
    assert WithPrimaryjoins(classname, m3).Keys == m3.Keys;
  }

  /** No relationship lacks both a join condition and a secondary table. */
  predicate NoneUnjoined(m: map<string, Attr>) {
    forall n :: n in m ==> !Unjoined(m[n])
  }

  lemma SynthesizedColumnsNone(m: map<string, Attr>)
    requires NoneUnjoined(m)
    ensures SynthesizedColumns(m, m.Keys) == map[]
  {
    forall k ensures k !in FkKeys(m, m.Keys) {
      FkKeysMember(m, m.Keys, k);
    }
  }

  /** `foreign_key_columns` leaves the class without any foreign-key column
      only when there was nothing to do. */
  lemma ForeignKeyColumnsAllJoined(m: map<string, Attr>)
    ensures !HasForeignKeyColumn(WithForeignKeyColumns(m)) ==>
      NoneUnjoined(m) && WithForeignKeyColumns(m) == m
  {
    var r := WithForeignKeyColumns(m);
    forall n | n in m && Unjoined(m[n]) && !HasForeignKeyColumn(m)
      ensures HasForeignKeyColumn(r)
    {
      SynthesizedColumnsSpec(m);
      assert r[FkColumnName(n)] in ForeignKeyColumnValues(r);
    }
    if !HasForeignKeyColumn(r) {
      SynthesizedColumnsNone(m);
    }
  }

  /** `primaryjoins` turns relationships into relationships, so the
      foreign-key columns stay as they are. */
  lemma PrimaryjoinsForeignKeyColumns(classname: string, m: map<string, Attr>)
    ensures ForeignKeyColumnValues(WithPrimaryjoins(classname, m)) == ForeignKeyColumnValues(m)
  {
    var r := WithPrimaryjoins(classname, m);
    forall a | a in ForeignKeyColumnValues(r) ensures a in ForeignKeyColumnValues(m) {
      var k :| k in r && r[k] == a;
      assert !GetsJoin(m, k);
    }
    forall a | a in ForeignKeyColumnValues(m) ensures a in ForeignKeyColumnValues(r) {
      var k :| k in m && m[k] == a;
      assert r[k] == a;
    }
  }

  /** With nothing unjoined, `primaryjoins` has nothing to do. */
  lemma PrimaryjoinsNoneUnjoined(classname: string, m: map<string, Attr>)
    requires NoneUnjoined(m)
    ensures WithPrimaryjoins(classname, m) == m
  {
  }

  /** After the pass no relationship is left for the foreign-key step: each
      one without a join condition either got its column, and with it a
      join condition, or the step was suppressed for the whole class. */
  lemma ResolvedNothingToSynthesize(classname: string, m: map<string, Attr>)
    requires RegistryKey !in m
    ensures WithForeignKeyColumns(Resolved(classname, m)) == Resolved(classname, m)
  {
    ResolvedOrder(classname, m);
    var m2 := WithTablename(classname, WithIdColumn(m));
    var m3 := WithForeignKeyColumns(m2);
    var r := WithPrimaryjoins(classname, m3);
    if !HasForeignKeyColumn(r) {
      PrimaryjoinsForeignKeyColumns(classname, m3);
      ForeignKeyColumnsAllJoined(m2);
      PrimaryjoinsNoneUnjoined(classname, m3);
      SynthesizedColumnsNone(r);
    }
  }

  /** After the pass every relationship still without a join condition was
      skipped by the join step, and would be skipped again. */
  lemma ResolvedNothingToJoin(classname: string, m: map<string, Attr>)
    requires RegistryKey !in m
    ensures WithPrimaryjoins(classname, Resolved(classname, m)) == Resolved(classname, m)
  {
    ResolvedOrder(classname, m);
    var m3 := WithForeignKeyColumns(WithTablename(classname, WithIdColumn(m)));
    var r := WithPrimaryjoins(classname, m3);
    forall n | n in r && Unjoined(r[n]) ensures !GetsJoin(r, n) {
      assert !GetsJoin(m3, n);
      JoinedForLookup(classname, m3, m3.Keys, FkColumnName(n));
    }
    var r2 := WithPrimaryjoins(classname, r);
    assert r2.Keys == r.Keys;
    forall k | k in r ensures r2[k] == r[k] {
      assert !GetsJoin(r, k);
    }
  }

  /** Running the pass on its own output changes nothing, under the
      hypothesis of `ResolvedPrimaryKey`. */
  lemma ResolvedIdempotent(classname: string, m: map<string, Attr>)
    requires KeepsPrimaryKey(m)
    ensures Resolved(classname, Resolved(classname, m)) == Resolved(classname, m)
  {
    if RegistryKey !in m {
      var r := Resolved(classname, m);
      ResolvedPrimaryKey(classname, m);
      ResolvedTablename(classname, m);
      ResolvedKeepsRegistryAbsent(classname, m);
      ResolvedOrder(classname, r);
      IdColumnSpec(r);
      assert WithTablename(classname, WithIdColumn(r)) == r;
      ResolvedNothingToSynthesize(classname, m);
      ResolvedNothingToJoin(classname, m);
    }
  }

  /** After the pass a class without a primary key has the new integer
      primary key under `id`; a class with one keeps its `id` entry, or its
      lack of one. */
  lemma ResolvedIdColumn(classname: string, m: map<string, Attr>)
    requires RegistryKey !in m
    ensures !HasPrimaryKey(m) ==> IdKey in Resolved(classname, m) && Resolved(classname, m)[IdKey] == NewIdColumn
    ensures HasPrimaryKey(m) ==> (IdKey in Resolved(classname, m) <==> IdKey in m)
    ensures HasPrimaryKey(m) && IdKey in m && !m[IdKey].Relationship? ==> Resolved(classname, m)[IdKey] == m[IdKey]
  {
    ResolvedOrder(classname, m);
    var m1 := WithIdColumn(m);
    var m2 := WithTablename(classname, m1);
    var m3 := WithForeignKeyColumns(m2);
    assert (IdKey in m2 <==> IdKey in m1) && (IdKey in m1 ==> m2[IdKey] == m1[IdKey]) by {
      TablenameSpec(classname, m1);
    }
    assert IdKey !in SynthesizedColumns(m2, m2.Keys) by {
      FkKeysMember(m2, m2.Keys, IdKey);
      AddedKeysDistinct(Stem(IdKey));
    }
    assert (IdKey in m3 <==> IdKey in m2) && (IdKey in m2 ==> m3[IdKey] == m2[IdKey]) by {
      ForeignKeyColumnsSpec(m2);
    }
    assert IdKey in m3 && !m3[IdKey].Relationship? ==> WithPrimaryjoins(classname, m3)[IdKey] == m3[IdKey] by {
      PrimaryjoinsSpec(classname, m3);
    }
    assert WithPrimaryjoins(classname, m3).Keys == m3.Keys;
  }

  /** An explicit foreign-key column (under any key but `id`) suppresses
      the synthesis for the whole class: the column is kept and the pass adds
      no key besides `id` and `__tablename__`. */
  lemma ResolvedKeepsExplicitForeignKey(classname: string, m: map<string, Attr>, k: string)
    requires RegistryKey !in m
    requires k in m && k != IdKey && m[k].Column? && |m[k].foreignKeys| > 0
    ensures forall n :: n in Resolved(classname, m) ==> n in m || n == IdKey || n == TablenameKey
    ensures k in Resolved(classname, m) && Resolved(classname, m)[k] == m[k]
  {
    ResolvedOrder(classname, m);
    var m1 := WithIdColumn(m);
    var m2 := WithTablename(classname, m1);
    PrefixStepsKeepRelationships(classname, m);
    IdColumnSpec(m);
    TablenameSpec(classname, m1);
    assert m2[k] == m[k];
    assert m2[k] in ForeignKeyColumnValues(m2);
    ForeignKeyColumnsSpec(m2);
    PrimaryjoinsSpec(classname, m2);
  }

  /** A relationship with an explicit join condition or a secondary table
      comes out of the pass as it went in, and it gets a `<name>_id` entry
      only if the class declared one.  This needs that it is not named `id`
      in a class whose new primary key takes that key, and that it is not
      named `<other>_id` after a relationship whose column would replace it. */
  lemma ResolvedKeepsJoinedRelationship(classname: string, m: map<string, Attr>, n: string)
    requires RegistryKey !in m
    requires n in m && m[n].Relationship? && !Unjoined(m[n])
    requires n != IdKey || HasPrimaryKey(m)
    requires forall p :: p in m && Unjoined(m[p]) ==> n != FkColumnName(p)
    ensures n in Resolved(classname, m) && Resolved(classname, m)[n] == m[n]
    ensures FkColumnName(n) in Resolved(classname, m) <==> FkColumnName(n) in m
  {
    ResolvedOrder(classname, m);
    var m1 := WithIdColumn(m);
    var m2 := WithTablename(classname, m1);
    var m3 := WithForeignKeyColumns(m2);
    PrefixStepsKeepRelationships(classname, m);
    IdColumnSpec(m);
    TablenameSpec(classname, m1);
    AddedKeysDistinct(n);
    assert m2[n] == m[n];
    assert m3[n] == m[n] && (FkColumnName(n) in m3 <==> FkColumnName(n) in m2) by {
      ForeignKeyColumnsSpec(m2);
      StemOfFkColumnName(n);
      FkKeysMember(m2, m2.Keys, FkColumnName(n));
    }
    PrimaryjoinsSpec(classname, m3);
  }

  /** The synthesised columns are no primary keys: `foreign_key_columns`
      takes away exactly the primary keys stored under a `<name>_id` key. */
  lemma ForeignKeyColumnsPrimaryKeyNames(m: map<string, Attr>)
    requires !HasForeignKeyColumn(m)
    ensures PrimaryKeyNames(WithForeignKeyColumns(m)) ==
      PrimaryKeyNames(m) - (set p | p in m && Unjoined(m[p]) :: FkColumnName(p))
  {
    var syn := SynthesizedColumns(m, m.Keys);
    var r := WithForeignKeyColumns(m);
    assert r == m + syn;
    SynthesizedColumnsSpec(m);
    forall k | k in r
      ensures IsPrimaryKeyColumn(r[k]) <==> k !in syn && IsPrimaryKeyColumn(m[k])
    {
      if k in syn {
        var p :| p in m && Unjoined(m[p]) && k == FkColumnName(p);
        assert r[k] == FkColumnFor(m, p);
      }
    }
  }

  /** `primaryjoins` only edits relationships, so the primary keys stay. */
  lemma PrimaryjoinsPrimaryKeyNames(classname: string, m: map<string, Attr>)
    ensures PrimaryKeyNames(WithPrimaryjoins(classname, m)) == PrimaryKeyNames(m)
  {
    var r := WithPrimaryjoins(classname, m);
    forall k | k in m
      ensures IsPrimaryKeyColumn(r[k]) <==> IsPrimaryKeyColumn(m[k])
    {
      if GetsJoin(m, k) {
        assert r[k].Relationship?;
      }
    }
  }

  /** When no column has a foreign key, the primary keys after the pass are
      those after the id column step, less every key that a relationship's
      synthesised `<name>_id` column takes over. */
  lemma ResolvedPrimaryKeyNames(classname: string, m: map<string, Attr>)
    requires RegistryKey !in m && !HasForeignKeyColumn(m)
    ensures PrimaryKeyNames(Resolved(classname, m)) ==
      PrimaryKeyNames(WithIdColumn(m)) - (set p | p in m && Unjoined(m[p]) :: FkColumnName(p))
  {
    ResolvedOrder(classname, m);
    var m1 := WithIdColumn(m);
    var m2 := WithTablename(classname, m1);
    var m3 := WithForeignKeyColumns(m2);
    var r := WithPrimaryjoins(classname, m3);
    var s := set p | p in m && Unjoined(m[p]) :: FkColumnName(p);
    var s2 := set p | p in m2 && Unjoined(m2[p]) :: FkColumnName(p);
    PrefixStepsKeepRelationships(classname, m);
    assert PrimaryKeyNames(m2) == PrimaryKeyNames(m1) by {
      TablenameSpec(classname, m1);
    }
    assert PrimaryKeyNames(m3) == PrimaryKeyNames(m2) - s2 by {
      ForeignKeyColumnsPrimaryKeyNames(m2);
    }
    PrimaryjoinsPrimaryKeyNames(classname, m3);
    forall k | k in PrimaryKeyNames(m1)
      ensures k in s <==> k in s2
    {
      IdColumnSpec(m);
      if k in s {
        var p :| p in m && Unjoined(m[p]) && k == FkColumnName(p);
        if p == IdKey && !HasPrimaryKey(m) {
          AddedKeysDistinct(p);
          assert false;
        }
        assert m2[p] == m[p];
      }
    }
  }

  /** A relationship named `<name>_id` next to a relationship `<name>` is
      replaced by the latter's foreign-key column; it still gets a column
      `<name>_id_id` of its own, because the relationships are collected
      before any column is stored. */
  lemma RelationshipShadowedByFkColumn(m: map<string, Attr>, n: string)
    requires !HasForeignKeyColumn(m)
    requires n in m && Unjoined(m[n])
    requires FkColumnName(n) in m && Unjoined(m[FkColumnName(n)])
    ensures FkColumnName(FkColumnName(n)) in WithForeignKeyColumns(m)
    ensures !WithForeignKeyColumns(m)[FkColumnName(n)].Relationship?
    ensures WithForeignKeyColumns(m)[FkColumnName(n)] == FkColumnFor(m, n)
    ensures WithForeignKeyColumns(m)[FkColumnName(FkColumnName(n))] == FkColumnFor(m, FkColumnName(n))
  {
    SynthesizedColumnsSpec(m);
  }
}

/** The class definitions of kemi/test.py, run through the convention pass.
    Each lemma builds the attribute dictionary of one test class and states
    what the test asserts about the mapped class. */
module Scenarios {
  import opened Naming
  import opened Attributes
  import opened Declarative

  /** The fixture class `Dummy`, which declares nothing. */
  const DummyClass: Target := ClassRef("Dummy", "dummys")

  /** `relationship(target)` with no further arguments. */
  function Rel(target: Target): Attr {
    Relationship(target, None, false)
  }

  lemma ValuesOfOne(k: string, v: Attr)
    ensures map[k := v].Values == {v}
  {
    assert map[k := v][k] == v;
  }

  lemma ValuesOfTwo(k1: string, v1: Attr, k2: string, v2: Attr)
    requires k1 != k2
    ensures map[k1 := v1, k2 := v2].Values == {v1, v2}
  {
    var m := map[k1 := v1, k2 := v2];
    assert m[k1] == v1 && m[k2] == v2;
  }

  /** `Dummy` gets the table `dummys`, the table name `DummyClass` carries. */
  lemma DummyTable()
    ensures TablenameKey in Resolved("Dummy", map[])
    ensures Resolved("Dummy", map[])[TablenameKey] == StrValue(DummyClass.tablename)
  {
    assert Substitute("Dummy", 2) == "Du";
    assert Substitute("Dummy", 4) == "Dumm";
    assert Substitute("Dummy", 5) == "Dummy";
    ResolvedTablename("Dummy", map[]);
  }

  /** test_default_id_column: a class declaring only `__tablename__` gets an
      integer primary key `id`. */
  lemma DefaultIdColumn(classname: string)
    ensures var r := Resolved(classname, map[TablenameKey := StrValue("noid")]);
      IdKey in r && r[IdKey] == Column(None, IntegerType, true, [])
  {
    ValuesOfOne(TablenameKey, StrValue("noid"));
    ResolvedIdColumn(classname, map[TablenameKey := StrValue("noid")]);
  }

  /** test_custom_id_column: an `id` primary key of type String stays. */
  lemma CustomIdColumn(classname: string)
    ensures var r := Resolved(classname, map[TablenameKey := StrValue("hasid"), IdKey := Column(None, StringType, true, [])]);
      IdKey in r && r[IdKey] == Column(None, StringType, true, [])
  {
    var m := map[TablenameKey := StrValue("hasid"), IdKey := Column(None, StringType, true, [])];
    assert m[IdKey] in m.Values;
    ResolvedIdColumn(classname, m);
  }

  /** test_custom_primary_key_column: no `id` is added next to a primary key
      of another name. */
  lemma CustomPrimaryKeyColumn(classname: string)
    ensures IdKey !in Resolved(classname, map[TablenameKey := StrValue("hasid"), "name" := Column(None, StringType, true, [])])
  {
    var m := map[TablenameKey := StrValue("hasid"), "name" := Column(None, StringType, true, [])];
    assert m["name"] in m.Values;
    ResolvedIdColumn(classname, m);
  }

  lemma NoWord()
    ensures CamelCaseToName("No") == "no"
  {
    CamelCaseToNameOneWord("No");
  }

  lemma TableWord()
    ensures CamelCaseToName("Table") == "table"
  {
    CamelCaseToNameOneWord("Table");
  }

  lemma NameWord()
    ensures CamelCaseToName("Name") == "name"
  {
    CamelCaseToNameOneWord("Name");
  }

  /** The conventional table name of `NoTableName`, one word at a time. */
  lemma NoTableNameTable()
    ensures ConventionalTablename("NoTableName") == "no_table_names"
  {
    NoWord();
    TableWord();
    NameWord();
    assert "TableName" == "Table" + "Name";
    CamelCaseToNameAppendWord("Table", "Name");
    assert "NoTableName" == "No" + "TableName";
    CamelCaseToNameAppendWord("No", "TableName");
  }

  /** test_default_table_name. */
  lemma DefaultTableName()
    ensures TablenameKey in Resolved("NoTableName", map[])
    ensures Resolved("NoTableName", map[])[TablenameKey] == StrValue("no_table_names")
  {
    ResolvedTablename("NoTableName", map[]);
    NoTableNameTable();
  }

  /** test_custom_table_name. */
  lemma CustomTableName(classname: string)
    ensures var r := Resolved(classname, map[TablenameKey := StrValue("fancy_table_name")]);
      TablenameKey in r && r[TablenameKey] == StrValue("fancy_table_name")
  {
    ResolvedTablename(classname, map[TablenameKey := StrValue("fancy_table_name")]);
  }

  /** test_default_foreign_key: `related = relationship(Dummy)`. */
  lemma DefaultForeignKey(classname: string)
    ensures var r := Resolved(classname, map["related" := Rel(DummyClass)]);
      "related_id" in r && r["related_id"] == Column(Some("related_id"), IntegerType, false, ["dummys.id"])
  {
    var m := map["related" := Rel(DummyClass)];
    ValuesOfOne("related", Rel(DummyClass));
    ResolvedLinksRelationship(classname, m, "related");
    assert FkColumnName("related") == "related_id";
    assert "dummys" + ".id" == "dummys.id";
  }

  /** test_default_foreign_key_classname: a relationship to a bare class
      name points at the table a class of that name gets by convention. */
  lemma DefaultForeignKeyClassname(classname: string, target: string)
    ensures var r := Resolved(classname, map["related" := Rel(NameRef(target))]);
      "related_id" in r &&
      r["related_id"] == Column(Some("related_id"), IntegerType, false, [ConventionalTablename(target) + ".id"])
    ensures TablenameKey in Resolved(target, map[])
    ensures Resolved(target, map[])[TablenameKey] == StrValue(ConventionalTablename(target))
  {
    var m := map["related" := Rel(NameRef(target))];
    ValuesOfOne("related", Rel(NameRef(target)));
    ResolvedLinksRelationship(classname, m, "related");
    assert FkColumnName("related") == "related_id";
    ResolvedTablename(target, map[]);
  }

  /** test_custom_foreign_key: an explicit foreign-key column suppresses the
      synthesised `related_id`. */
  lemma CustomForeignKey(classname: string)
    ensures var fk := Column(None, IntegerType, false, ["has_foreign_keys.id"]);
      var r := Resolved(classname, map["some_related_id" := fk, "related" := Rel(NameRef("HasForeignKey"))]);
      "related_id" !in r && "some_related_id" in r && r["some_related_id"] == fk
  {
    var fk := Column(None, IntegerType, false, ["has_foreign_keys.id"]);
    var m := map["some_related_id" := fk, "related" := Rel(NameRef("HasForeignKey"))];
    ResolvedKeepsExplicitForeignKey(classname, m, "some_related_id");
  }

  /** test_two_relations: two relationships to the same target, one by class
      and one by name, each get their own join condition. */
  lemma TwoRelations(classname: string)
    ensures var r := Resolved(classname, map["related1" := Rel(DummyClass), "related2" := Rel(NameRef("Dummy"))]);
      && "related1" in r && r["related1"].Relationship?
      && r["related1"].primaryjoin == Some("Dummy.id == " + classname + ".related1_id")
      && "related2" in r && r["related2"].Relationship?
      && r["related2"].primaryjoin == Some("Dummy.id == " + classname + ".related2_id")
  {
    var m := map["related1" := Rel(DummyClass), "related2" := Rel(NameRef("Dummy"))];
    ValuesOfTwo("related1", Rel(DummyClass), "related2", Rel(NameRef("Dummy")));
    assert FkColumnName("related1") == "related1_id" && FkColumnName("related2") == "related2_id";
    ResolvedLinksRelationship(classname, m, "related1");
    ResolvedLinksRelationship(classname, m, "related2");
    var prefix := "Dummy" + ".id == " + classname;
    assert prefix + "." + "related1" + "_id" == prefix + ".related1_id";
    assert prefix + "." + "related2" + "_id" == prefix + ".related2_id";
    assert "Dummy" + ".id == " + classname == "Dummy.id == " + classname;
  }

  /** test_relation_with_secondary_do_nothing: no column and no join
      condition for a relationship through an association table. */
  lemma RelationWithSecondary(classname: string)
    ensures var r := Resolved(classname, map["related" := Relationship(DummyClass, None, true)]);
      "related_id" !in r && "related" in r && r["related"] == Relationship(DummyClass, None, true)
  {
    var m := map["related" := Relationship(DummyClass, None, true)];
    assert FkColumnName("related") == "related_id";
    ResolvedKeepsJoinedRelationship(classname, m, "related");
  }

  /** test_relation_with_primaryjoin_do_nothing: an explicit join condition
      and its column are kept as they are. */
  lemma RelationWithPrimaryjoin(classname: string)
    ensures var fk := Column(None, IntegerType, false, ["dummys.id"]);
      var rel := Relationship(DummyClass, Some("Dummy.id == RelationWithPrimaryjoin.related_id"), false);
      var r := Resolved(classname, map["related_id" := fk, "related" := rel]);
      "related" in r && r["related"] == rel && "related_id" in r && r["related_id"] == fk
  {
    var fk := Column(None, IntegerType, false, ["dummys.id"]);
    var rel := Relationship(DummyClass, Some("Dummy.id == RelationWithPrimaryjoin.related_id"), false);
    var m := map["related_id" := fk, "related" := rel];
    ResolvedKeepsExplicitForeignKey(classname, m, "related_id");
    ResolvedKeepsJoinedRelationship(classname, m, "related");
  }

  /** A primary key stored under the `<name>_id` key of a relationship is
      replaced by that relationship's foreign-key column, and the class ends
      up without a primary key. */
  lemma PrimaryKeyReplacedByFkColumn(classname: string)
    ensures PrimaryKeyNames(Resolved(classname, map["related_id" := Column(None, IntegerType, true, []), "related" := Rel(DummyClass)])) == {}
  {
    var pk := Column(None, IntegerType, true, []);
    var m := map["related_id" := pk, "related" := Rel(DummyClass)];
    ValuesOfTwo("related_id", pk, "related", Rel(DummyClass));
    assert m["related_id"] in m.Values;
    IdColumnSpec(m);
    assert PrimaryKeyNames(m) == {"related_id"};
    assert FkColumnName("related") == "related_id";
    assert (set p | p in m && Unjoined(m[p]) :: FkColumnName(p)) == {"related_id"};
    ResolvedPrimaryKeyNames(classname, m);
  }

  /** A declared foreign-key column suppresses the synthesis, so a primary
      key stored under `a_id` next to a relationship `a` survives, and a
      second pass changes nothing. */
  lemma PrimaryKeyKeptBesideDeclaredForeignKey(classname: string)
    ensures var fk := Column(None, IntegerType, false, ["ds.id"]);
      var m := map["a" := Rel(NameRef("D")), "a_id" := Column(None, IntegerType, true, []), "b" := fk];
      && HasPrimaryKey(Resolved(classname, m))
      && Resolved(classname, Resolved(classname, m)) == Resolved(classname, m)
  {
    var fk := Column(None, IntegerType, false, ["ds.id"]);
    var m := map["a" := Rel(NameRef("D")), "a_id" := Column(None, IntegerType, true, []), "b" := fk];
    assert m["b"] in m.Values;
    assert fk in ForeignKeyColumnValues(m);
    ResolvedPrimaryKey(classname, m);
    ResolvedIdempotent(classname, m);
  }
}

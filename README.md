# kemi conventions, modelled in Dafny

kemi is a small extension of SQLAlchemy's declarative layer. Its metaclass
`DeclarativeMeta` edits the attribute dictionary of each entity class while
the class is being defined, before SQLAlchemy maps it. The edit is made of
four conventions, run in a fixed order:

- `id_column` adds an integer primary key `id` when the class declares no
  primary key.
- `tablename` adds the table name `camel_case_to_name(classname) + 's'`
  when the class declares none.
- `foreign_key_columns` adds an integer foreign-key column `<name>_id` for
  each relationship that has neither a join condition nor a secondary
  table. It does nothing when some column of the class already has a
  foreign key.
- `primaryjoins` gives each such relationship the join condition
  `'<Other>.id == <Class>.<name>_id'`, provided an entry `<name>_id` is
  present.

The project has four modules:

- `Attributes` (`attributes.dfy`) defines the values of the class
  dictionary. It also defines `ClassDict`, the mutable dictionary the
  conventions edit.
- `Naming` (`naming.dfy`) models `camel_case_to_name` character by
  character. An underscore goes before each upper-case letter that matches
  the source's regular expression (`StartsWord`), and then the result is
  lower-cased. The lemmas cover three things:
  - the full shape of the output;
  - the doctests;
  - idempotence, and how the function behaves on one word and on words
    joined together.
- `Declarative` (`declarative.dfy`) holds the conventions:
  - Each convention is a method that changes a `ClassDict` in place. Each is
    proved equal to a function of the old dictionary: `WithIdColumn`,
    `WithTablename`, `WithForeignKeyColumns` and `WithPrimaryjoins`.
  - The two loops over the relationships visit them in any order. Each
    loop is proved to give the same result for every order. This is
    because the relationships are collected before the loop starts, and
    each step writes only its own key.
  - `New` is `__new__`. `Resolved` is the dictionary it hands on to build
    the class.
  - Lemmas about `Resolved` cover the whole pass:
    - table names;
    - primary keys;
    - links between relationships and their columns;
    - the base-class guard;
    - idempotence.
- `Scenarios` (`scenarios.dfy`) restates the class definitions of
  `kemi/test.py` as dictionaries. It proves what each test asserts about
  the mapped class.

Consequences of the code that are easy to miss:

- Every existing primary key column is kept, so a class can end with
  several primary keys. It can also end with none: a relationship's
  synthesised `<name>_id` column replaces a primary key stored under that
  key (`Scenarios.PrimaryKeyReplacedByFkColumn`).
- A relationship gets a join condition when `classdict.get('<name>_id')`
  is not `None`. The value there need not be a foreign-key column.
- A relationship does not always end up with a column. When any column
  already has a foreign key, synthesis is suppressed for the whole class.
  A relationship with no column of its own then gets no join condition.
- `camel_case_to_name` is total. The empty string maps to the empty string.

## Model

| member | source | states |
|---|---|---|
| Attributes.DictGet | kemi/__init__.py:97 | `classdict.get(key)` is the stored value when the key is present and `None` otherwise |
| Naming.Lower | kemi/__init__.py:24 | lower-casing maps each upper-case ASCII letter to the lower-case letter at the same place in the alphabet and leaves every other character alone, so no upper-case letter remains |
| Naming.LowerString | kemi/__init__.py:24 | `lower()` keeps the length and lower-cases each character in place |
| Naming.Substitute | kemi/__init__.py:23-24 | the substitution over a prefix is as long as the prefix plus the number of matches in it |
| Naming.CamelCaseToName | kemi/__init__.py:23-24 | the output is as long as the input plus the number of matches, has no upper-case letter, and starts with the lower-cased first input character |
| Naming.SubstitutePrefix | kemi/__init__.py:23-24 | substituting a shorter prefix gives a prefix of the longer result |
| Naming.SubstituteShape | kemi/__init__.py:23-24 | each input character lands at its `Position`, with an underscore right before it exactly where the pattern matches |
| Naming.CamelCaseToNameShape | kemi/__init__.py:23-24 | characterisation: each input character appears lower-cased at its position, an underscore precedes each match, and positions grow by one plus one per match, so no underscore is put at position 0 |
| Naming.SubstituteOneWord | kemi/__init__.py:23-24 | with no upper-case letter after the first character nothing is inserted |
| Naming.CamelCaseToNameOneWord | kemi/__init__.py:23-24 | a word capitalised only at its start, if at all, is only lower-cased |
| Naming.NoUpperUnchanged | kemi/__init__.py:23-24 | a text without upper-case letters comes back unchanged |
| Naming.CamelCaseToNameIdempotent | kemi/__init__.py:23-24 | normalising twice is the same as normalising once |
| Naming.LowerStringAppend | kemi/__init__.py:24 | `lower()` distributes over concatenation |
| Naming.SubstituteAppendPrefix | kemi/__init__.py:23-24 | text appended after a prefix, and not starting with a lower-case letter, does not change the substitution of the prefix |
| Naming.SubstituteAppendWord | kemi/__init__.py:23-24 | a capitalised word after a non-empty text is substituted on its own, behind one underscore |
| Naming.CamelCaseToNameAppendWord | kemi/__init__.py:23-24 | the name of `a + B…` is the name of `a`, an underscore, and the name of the capitalised word `B…` |
| Naming.CamelCaseToNameFooBar | kemi/__init__.py:12-13 | `FooBar` maps to `foo_bar` |
| Naming.CamelCaseToNameTXTFile | kemi/__init__.py:14-15 | `TXTFile` maps to `txt_file` |
| Naming.CamelCaseToNameMyTXTFile | kemi/__init__.py:16-17 | `MyTXTFile` maps to `my_txt_file` |
| Naming.CamelCaseToNameFroBOZ | kemi/__init__.py:18-19 | `froBOZ` maps to `fro_boz` |
| Naming.CamelCaseToNameF | kemi/__init__.py:20-21 | `f` maps to `f` |
| Declarative.ConventionalTablename | kemi/__init__.py:68 | the conventional table name is `camel_case_to_name(classname)` followed by one `s`, with no upper-case letter |
| Declarative.GetNames | kemi/__init__.py:47-56 | a class target yields its own name and `__tablename__`; a bare name yields itself and its conventional table name |
| Declarative.GetRelationships | kemi/__init__.py:42-44 | exactly the entries whose value is a relationship, with their values |
| Declarative.IdColumn | kemi/__init__.py:59-63 | the loop stops at a primary-key column; the new dictionary is `WithIdColumn` of the old one |
| Declarative.IdColumnSpec | kemi/__init__.py:59-63 | afterwards there is a primary key; an existing one of any name or type leaves the dictionary unchanged; otherwise `id` is added as the only primary key and every other entry is kept |
| Declarative.Tablename | kemi/__init__.py:66-68 | the new dictionary is `WithTablename` of the old one |
| Declarative.TablenameSpec | kemi/__init__.py:66-68 | `__tablename__` is present afterwards, is `camel_case_to_name(classname) + 's'` when it was missing, and every old entry is kept |
| Declarative.StemOfFkColumnName | kemi/__init__.py:82 | the relationship name can be recovered from `<name>_id` |
| Declarative.FkColumnNameInjective | kemi/__init__.py:82 | two relationships never get the same `<name>_id` key |
| Declarative.FkKeysMember | kemi/__init__.py:78-83 | a key is synthesised exactly when it is `<name>_id` of a processed relationship without a join condition or secondary table |
| Declarative.SynthesizedColumnsStep | kemi/__init__.py:78-87 | processing one more relationship adds its column, or nothing when the relationship is skipped |
| Declarative.SynthesizedColumnsOfRelationships | kemi/__init__.py:77-78 | visiting only the relationships gives the same columns as visiting every entry |
| Declarative.ForeignKeyColumns | kemi/__init__.py:71-87 | for any visiting order, the new dictionary is `WithForeignKeyColumns` of the old one |
| Declarative.SynthesizedColumnsSpec | kemi/__init__.py:78-87 | the synthesised keys are exactly the `<name>_id` of the relationships without a join condition or secondary table; each holds the column for its relationship; skipped relationships get none |
| Declarative.ForeignKeyColumnsSpec | kemi/__init__.py:71-87 | an existing foreign-key column suppresses everything; otherwise each unjoined relationship gets an integer column `<name>_id` with a foreign key to `<table>.id`, a skipped one gets no column beyond what was declared, and all other entries are kept |
| Declarative.JoinedForLookup | kemi/__init__.py:97-98 | filling in join conditions never changes whether a lookup finds `None` |
| Declarative.Primaryjoins | kemi/__init__.py:90-100 | for any visiting order, the new dictionary is `WithPrimaryjoins` of the old one |
| Declarative.PrimaryjoinsSpec | kemi/__init__.py:90-100 | the keys stay the same; an unjoined relationship whose `<name>_id` entry is present and not `None` gets `'<Other>.id == <Class>.<name>_id'`; every other entry, including non-relationships, is kept |
| Declarative.RunFeature | kemi/__init__.py:38 | calling a feature by name applies that feature to the dictionary |
| Declarative.New | kemi/__init__.py:35-39 | `__new__` leaves the dictionary as `Resolved` of the old one and builds the class from it |
| Declarative.ResolvedOrder | kemi/__init__.py:28-38 | the base class is left alone; any other class goes through id column, table name, foreign-key columns and join conditions in that order |
| Declarative.AddedKeysDistinct | kemi/__init__.py:36-87 | `id`, `__tablename__`, the registry key and every `<name>_id` key are pairwise different |
| Declarative.PrefixStepsKeepRelationships | kemi/__init__.py:59-68 | the id column and table name steps keep every old entry (except `id`, which a new primary key replaces), add no relationship, no foreign-key column and no primary key other than the new one |
| Declarative.ResolvedTablename | kemi/__init__.py:35-68 | after the pass every non-base class has a table name: the conventional one when none was declared, otherwise the declared one |
| Declarative.NameRefMatchesConvention | kemi/__init__.py:47-68 | the table name a bare-name relationship assumes is the name the pass gives a class of that name that declares none |
| Declarative.ResolvedLinksRelationship | kemi/__init__.py:35-100 | with no foreign-key column declared, an unjoined relationship ends with its synthesised `<name>_id` column and a join condition through it |
| Declarative.ResolvedPrimaryKey | kemi/__init__.py:35-87 | after the pass there is a primary key whenever some column has a foreign key, or no relationship without a join condition has a primary key stored under its `<name>_id` |
| Declarative.ResolvedKeepsRegistryAbsent | kemi/__init__.py:35-100 | the pass never adds the key that marks the declarative base |
| Declarative.SynthesizedColumnsNone | kemi/__init__.py:78-80 | with every relationship joined, nothing is synthesised |
| Declarative.ForeignKeyColumnsAllJoined | kemi/__init__.py:71-87 | a dictionary still lacking a foreign-key column afterwards had nothing to synthesise, and is unchanged |
| Declarative.PrimaryjoinsForeignKeyColumns | kemi/__init__.py:90-100 | filling in join conditions keeps the set of foreign-key columns |
| Declarative.PrimaryjoinsNoneUnjoined | kemi/__init__.py:92-94 | with every relationship joined, `primaryjoins` changes nothing |
| Declarative.ResolvedNothingToSynthesize | kemi/__init__.py:35-100 | after the pass `foreign_key_columns` has nothing left to do |
| Declarative.ResolvedNothingToJoin | kemi/__init__.py:35-100 | after the pass `primaryjoins` has nothing left to do |
| Declarative.ResolvedIdempotent | kemi/__init__.py:35-100 | running the pass on its own output changes nothing, under the same hypothesis as `ResolvedPrimaryKey` |
| Declarative.ResolvedIdColumn | kemi/__init__.py:59-63 | after the pass a class without a primary key has the new integer key `id`; a class with one has `id` exactly when it declared it, with the declared value |
| Declarative.ResolvedKeepsExplicitForeignKey | kemi/__init__.py:72-75 | an explicit foreign-key column is kept and the pass adds no key besides `id` and `__tablename__` |
| Declarative.ResolvedKeepsJoinedRelationship | kemi/__init__.py:79-80 | a relationship with a join condition or secondary table comes out unchanged, with a `<name>_id` entry only if one was declared |
| Declarative.ForeignKeyColumnsPrimaryKeyNames | kemi/__init__.py:82-87 | synthesis removes exactly the primary keys stored under a synthesised `<name>_id` key and adds none |
| Declarative.PrimaryjoinsPrimaryKeyNames | kemi/__init__.py:99-100 | filling in join conditions keeps the primary keys |
| Declarative.ResolvedPrimaryKeyNames | kemi/__init__.py:35-100 | with no foreign-key column declared, the primary keys after the pass are those after the id column step, minus the synthesised `<name>_id` keys |
| Declarative.RelationshipShadowedByFkColumn | kemi/__init__.py:77-87 | a relationship stored under `<name>_id` is overwritten by the column for `<name>`, yet still gets its own `<name>_id_id` column |
| Scenarios.DummyTable | kemi/test.py:31-35 | the fixture class `Dummy` gets the table `dummys` |
| Scenarios.DefaultIdColumn | kemi/test.py:39-45 | a class with only `__tablename__` gets an integer primary key `id` |
| Scenarios.CustomIdColumn | kemi/test.py:47-53 | a String primary key `id` stays as declared |
| Scenarios.CustomPrimaryKeyColumn | kemi/test.py:55-60 | no `id` is added next to a primary key `name` |
| Scenarios.NoWord | kemi/test.py:64-68 | `No` maps to `no` |
| Scenarios.TableWord | kemi/test.py:64-68 | `Table` maps to `table` |
| Scenarios.NameWord | kemi/test.py:64-68 | `Name` maps to `name` |
| Scenarios.NoTableNameTable | kemi/test.py:64-68 | the conventional table name of `NoTableName` is `no_table_names` |
| Scenarios.DefaultTableName | kemi/test.py:64-68 | class `NoTableName` gets the table `no_table_names` |
| Scenarios.CustomTableName | kemi/test.py:70-74 | a declared `__tablename__` is kept |
| Scenarios.DefaultForeignKey | kemi/test.py:83-90 | `related = relationship(Dummy)` yields an integer column `related_id` with a foreign key to `dummys.id` |
| Scenarios.DefaultForeignKeyClassname | kemi/test.py:92-99 | a relationship to a bare class name yields `related_id` with a foreign key to the conventional table of that name, the one a class of that name gets |
| Scenarios.CustomForeignKey | kemi/test.py:114-127 | an explicit foreign-key column suppresses `related_id` and is kept |
| Scenarios.TwoRelations | kemi/test.py:131-138 | two relationships to `Dummy`, by class and by name, each get their own join condition |
| Scenarios.RelationWithSecondary | kemi/test.py:140-151 | a relationship through an association table gets no column and stays without a join condition |
| Scenarios.RelationWithPrimaryjoin | kemi/test.py:153-161 | an explicit join condition and its column are kept |
| Scenarios.PrimaryKeyReplacedByFkColumn | kemi/__init__.py:82-87 | a primary key declared under `related_id` next to `related` is replaced, and the class ends with no primary key |
| Scenarios.PrimaryKeyKeptBesideDeclaredForeignKey | kemi/__init__.py:72-75 | a declared foreign-key column suppresses the synthesis, so a primary key under `a_id` next to a relationship `a` survives, and a second pass changes nothing |

## Left out

- Naming.Lower: lower-cases ASCII letters only. Python's `str.lower()` also lower-cases letters outside ASCII. The pattern's `[a-z]` and `[A-Z]` classes are ASCII either way.
- Naming.LowerString: ASCII only, as for `Naming.Lower`.
- The regular-expression engine itself: the model states the rule it applies at each index instead.
- Declarative.ForeignKeyColumns: dictionary order is not modelled. Relationships are visited in an unspecified order. This is exact here, because the relationships are collected before any column is written.
- Declarative.Primaryjoins: relationships are values. The source mutates `RelationshipProperty` objects in place, so one object stored under two keys would be processed once. The model processes each key on its own.
- `type.__new__`, SQLAlchemy's mapping, and the `meta` and `bases` arguments: these are library calls, and `New` returns the dictionary the class would be built from. A class target that was declared without a `__tablename__` (an `AttributeError` in the source) is not modelled: `ClassRef` always carries a table name.
- A relationship argument given as a callable, and relationship options other than `primaryjoin` and `secondary`, are not modelled.
- Scenarios.CustomForeignKey: does not state `nullable=False`. Column nullability is not part of the model.
- Scenarios.DefaultForeignKeyClassname: states the table name `camel_case_to_name('NoForeignKeyWithClassName') + 's'` for any class name instead of computing the literal `no_foreign_key_with_class_names`.
- Scenarios.TwoRelations: the test checks only that each join condition is present. The lemma gives its text.
- The integration test at kemi/test.py:163-189 needs a database and ORM loading, so it is not modelled. The disabled test at kemi/test.py:101-112 returns at once and is not modelled either. A bare target name always maps to its conventional table name (`Declarative.GetNames`).
- setup.py is packaging metadata and is not part of this model.

/** The values a declarative class body puts into its attribute dictionary,
    as far as the conventions of kemi/__init__.py look at them. */
module Attributes {

  datatype Option<T> = None | Some(value: T)

  /** The SQL type a column is declared with. */
  datatype ColumnType = IntegerType | StringType | OtherType(typeName: string)

  /** The first argument of a relationship: either a mapped class, which has
      a `__name__` and a `__tablename__`, or the bare name of a class. */
  datatype Target = ClassRef(name: string, tablename: string) | NameRef(name: string)

  /** One value of the class dictionary.
      - `Column`: an SQL column; `name` is the explicit column name given to
        the constructor, if any; `foreignKeys` holds the target of each
        foreign key (`table.column`), so the column has foreign keys exactly
        when the sequence is non-empty.
      - `Relationship`: a relationship property; `primaryjoin` is the explicit
        join condition (`None` when not given) and `secondary` says whether an
        association table was given.
      - `StrValue`: a plain string, such as `__tablename__ = 'noid'`.
      - `NoneValue`: the value `None`.
      - `OtherValue`: anything else (methods, constants, a registry...). */
  datatype Attr =
    | Column(name: Option<string>, colType: ColumnType, primaryKey: bool, foreignKeys: seq<string>)
    | Relationship(argument: Target, primaryjoin: Option<string>, secondary: bool)
    | StrValue(value: string)
    | NoneValue
    | OtherValue

  /** The pending attribute dictionary of a class being defined, which the
      conventions edit in place before the mapped class is built from it. */
  class ClassDict {
    var entries: map<string, Attr>

    constructor (entries: map<string, Attr>)
      ensures this.entries == entries
    {
      this.entries := entries;
    }
  }

  /** `classdict.get(key)`: the value stored under `key`, or `None`. */
  function DictGet(m: map<string, Attr>, key: string): (r: Attr)
    ensures key !in m ==> r == NoneValue
    ensures key in m ==> r == m[key]
  {
    if key in m then m[key] else NoneValue
  }
}

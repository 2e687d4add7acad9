/** The DDL text of schema values, and a parser that recovers the schema from it. */
module Schema {
  import opened Text
  import Decimal

  datatype Field = Field(name: string, typ: string, len: int)
  datatype Reference = Reference(table: string, fields: seq<string>)
  datatype ForeignKey = ForeignKey(fields: seq<string>, reference: Reference)
  datatype Constraint = Constraint(primaryKey: seq<string>, foreignKeys: seq<ForeignKey>)
  datatype Table = Table(name: string, fields: seq<Field>, constraints: Constraint)

  // ---------------------------------------------------------------- the text, as functions

  function Names(a: seq<string>): string
  {
    if a == [] then "" else if |a| == 1 then a[0] else a[0] + ", " + Names(a[1..])
  }

  function FieldText(f: Field): string
  {
    ToLower(f.name) + " " + f.typ + if f.len > 0 then "(" + Decimal.OfInt(f.len) + ")" else ""
  }

  /** The texts of the elements of a list, and their concatenation. */
  function Texts<T>(text: T -> string, a: seq<T>): (r: seq<string>)
    ensures |r| == |a|
  {
    if a == [] then [] else [text(a[0])] + Texts(text, a[1..])
  }

  function Glue(parts: seq<string>): string
  {
    if parts == [] then "" else parts[0] + Glue(parts[1..])
  }

  function FieldsText(fs: seq<Field>): string
  {
    Names(Texts(FieldText, fs))
  }

  function ReferenceText(r: Reference): string
  {
    r.table + "(" + Names(r.fields) + ")"
  }

  function ForeignKeyText(c: ForeignKey): string
  {
    "FOREIGN KEY (" + Names(c.fields) + ") REFERENCES " + ReferenceText(c.reference)
  }

  function NextForeignKeyText(c: ForeignKey): string
  {
    ", " + ForeignKeyText(c)
  }

  function ForeignKeysText(cs: seq<ForeignKey>): string
  {
    Glue(Texts(NextForeignKeyText, cs))
  }

  function ConstraintText(c: Constraint): string
  {
    "PRIMARY KEY (" + Names(c.primaryKey) + ")" + ForeignKeysText(c.foreignKeys)
  }

  function TableText(t: Table): string
  {
    "CREATE TABLE IF NOT EXISTS " + ToLower(t.name) + " (" + (FieldsText(t.fields) + ", " + ConstraintText(t.constraints)) + ");"
  }

  function TablesText(ts: seq<Table>): string
  {
    Glue(Texts(TableText, ts))
  }

  // ---------------------------------------------------------------- the builders of the source

  lemma {:induction false} NamesSnoc(a: seq<string>, x: string)
    ensures Names(a + [x]) == (if a == [] then x else Names(a) + ", " + x)
  {
    if |a| > 1 {
      NamesSnoc(a[1..], x);
      assert (a + [x])[1..] == a[1..] + [x];
    } else if |a| == 1 {
      assert (a + [x])[1..] == [x];
    }
  }

  lemma {:induction false} TextsSnoc<T>(text: T -> string, a: seq<T>, x: T)
    ensures Texts(text, a + [x]) == Texts(text, a) + [text(x)]
  {
    if a == [] {
      assert ([] + [x])[1..] == [];
    } else {
      TextsSnoc(text, a[1..], x);
      assert (a + [x])[1..] == a[1..] + [x];
    }
  }

  lemma {:induction false} GlueSnoc(parts: seq<string>, x: string)
    ensures Glue(parts + [x]) == Glue(parts) + x
  {
    if parts == [] {
      assert ([] + [x])[1..] == [];
    } else {
      GlueSnoc(parts[1..], x);
      assert (parts + [x])[1..] == parts[1..] + [x];
    }
  }

  /** Appending one element to what has been printed so far. */
  lemma TextsStep<T>(text: T -> string, a: seq<T>, i: nat)
    requires i < |a|
    ensures Glue(Texts(text, a[..i + 1])) == Glue(Texts(text, a[..i])) + text(a[i])
    ensures Names(Texts(text, a[..i + 1])) == (if i == 0 then "" else Names(Texts(text, a[..i])) + ", ") + text(a[i])
  {
    assert a[..i + 1] == a[..i] + [a[i]];
    TextsSnoc(text, a[..i], a[i]);
    GlueSnoc(Texts(text, a[..i]), text(a[i]));
    NamesSnoc(Texts(text, a[..i]), text(a[i]));
  }

  method Join(a: seq<string>) returns (sb: string)
    ensures sb == Names(a)
  {
    sb := "";
    for i := 0 to |a|
      invariant sb == Names(a[..i])
    {
      NamesSnoc(a[..i], a[i]);
      assert a[..i + 1] == a[..i] + [a[i]];
      if i > 0 {
        sb := sb + ", ";
      }
      sb := sb + a[i];
    }
    assert a[..|a|] == a;
  }

  method FieldString(f: Field) returns (sb: string)
    ensures sb == FieldText(f)
  {
    sb := ToLower(f.name);
    sb := sb + " ";
    sb := sb + f.typ;
    if f.len > 0 {
      sb := sb + "(" + Decimal.OfInt(f.len) + ")";
      assert sb == ToLower(f.name) + " " + f.typ + ("(" + Decimal.OfInt(f.len) + ")");
    }
  }

  method ConstraintString(c: Constraint) returns (sb: string)
    ensures sb == ConstraintText(c)
  {
    var keys := Join(c.primaryKey);
    sb := "PRIMARY KEY (" + keys + ")";
    if |c.foreignKeys| == 0 {
      return;
    }
    var rest := ForeignKeyList(c.foreignKeys);
    sb := sb + rest;
  }

  /** The loop of DBConstraint.String over the foreign keys. */
  method ForeignKeyList(foreignKeys: seq<ForeignKey>) returns (sb: string)
    ensures sb == ForeignKeysText(foreignKeys)
  {
    sb := "";
    for i := 0 to |foreignKeys|
      invariant sb == ForeignKeysText(foreignKeys[..i])
    {
      TextsStep(NextForeignKeyText, foreignKeys, i);
      sb := sb + NextForeignKeyText(foreignKeys[i]);
    }
    assert foreignKeys[..|foreignKeys|] == foreignKeys;
  }

  method TableString(t: Table) returns (s: string)
    ensures s == TableText(t)
  {
    var sb := FieldList(t.fields);
    sb := sb + ", ";
    var constraints := ConstraintString(t.constraints);
    sb := sb + constraints;
    s := "CREATE TABLE IF NOT EXISTS " + ToLower(t.name) + " (" + sb + ");";
  }

  /** The loop of DBTable.String over the fields. */
  method FieldList(fields: seq<Field>) returns (sb: string)
    ensures sb == FieldsText(fields)
  {
    sb := "";
    var fLen := |fields| - 1;
    for i := 0 to |fields|
      invariant sb == FieldsText(fields[..i]) + if 0 < i <= fLen then ", " else ""
    {
      TextsStep(FieldText, fields, i);
      var field := FieldString(fields[i]);
      sb := sb + field;
      if i < fLen {
        sb := sb + ", ";
      }
    }
    assert fields[..|fields|] == fields;
  }

  /** The source indexes the first table, so it panics on an empty list. */
  method BuildCreateTableSQL(tables: seq<Table>) returns (sb: string)
    requires tables != []
    ensures sb == TablesText(tables)
  {
    sb := TableString(tables[0]);
    TextsStep(TableText, tables, 0);
    assert tables[..0] == [];
    if |tables| < 2 {
      assert tables[..1] == tables;
      return;
    }
    for i := 1 to |tables|
      invariant sb == TablesText(tables[..i])
    {
      TextsStep(TableText, tables, i);
      var table := TableString(tables[i]);
      sb := sb + table;
    }
    assert tables[..|tables|] == tables;
  }
}

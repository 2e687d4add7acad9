/** The printed schema, spelled out: how lengths and names appear, and the whole text of a
    table, so that the text means what it says and is not only readable by the parser. */
module SchemaText {
  import opened Text
  import opened Schema
  import Decimal

  /** A field with a length is printed as its lower-cased name, its type, and the length in
      decimal; the other fields end with their type. */
  lemma FieldSpelled(f: Field, name: string, digits: string)
    requires |name| == |f.name| && forall i :: 0 <= i < |name| ==> name[i] == Small(f.name[i])
    ensures f.len <= 0 ==> FieldText(f) == name + " " + f.typ
    ensures f.len > 0 && Decimal.Spells(f.len, digits) ==> FieldText(f) == name + " " + f.typ + "(" + digits + ")"
  {
    SmallName(f.name, name);
    if f.len > 0 && Decimal.Spells(f.len, digits) {
      Decimal.OfIntSpells(f.len);
      Decimal.SpellsOne(f.len, Decimal.OfInt(f.len), digits);
      assert FieldText(f) == name + " " + f.typ + ("(" + digits + ")");
    } else if f.len <= 0 {
      assert FieldText(f) == name + " " + f.typ + "";
    }
  }

  /** The small form of a capital letter, and any other character itself. */
  function Small(c: char): char
  {
    if 'A' <= c <= 'Z' then ((c as int) - ('A' as int) + ('a' as int)) as char else c
  }

  lemma SmallName(s: string, name: string)
    requires |name| == |s| && forall i :: 0 <= i < |name| ==> name[i] == Small(s[i])
    ensures ToLower(s) == name
  {
    ToLowerSpelled(s);
  }

  lemma TwoNames(a: string, b: string)
    ensures Names([a, b]) == a + ", " + b
    ensures Names([a]) == a
  {
    assert [a, b][1..] == [b];
  }

  lemma TwoFields(f: Field, g: Field)
    ensures FieldsText([f, g]) == FieldText(f) + ", " + FieldText(g)
  {
    assert [f, g][1..] == [g] && [g][1..] == [];
    assert Texts(FieldText, [g]) == [FieldText(g)];
    assert Texts(FieldText, [f, g]) == [FieldText(f), FieldText(g)];
    TwoNames(FieldText(f), FieldText(g));
  }

  lemma ForeignKeySpelled(a: string, b: string, table: string, c: string, d: string)
    ensures ForeignKeyText(ForeignKey([a, b], Reference(table, [c, d]))) ==
            "FOREIGN KEY (" + a + ", " + b + ") REFERENCES " + table + "(" + c + ", " + d + ")"
  {
    TwoNames(a, b);
    TwoNames(c, d);
    var cols, refs := a + ", " + b, c + ", " + d;
    assert ForeignKeyText(ForeignKey([a, b], Reference(table, [c, d]))) == "FOREIGN KEY (" + cols + ") REFERENCES " + (table + "(" + refs + ")");
    assert "FOREIGN KEY (" + cols == "FOREIGN KEY (" + a + ", " + b;
    assert table + "(" + refs == table + "(" + c + ", " + d;
  }

  /** A constraint with two foreign keys. */
  lemma ConstraintSpelled(a: string, b: string, k: ForeignKey, l: ForeignKey)
    ensures ConstraintText(Constraint([a, b], [k, l])) ==
            "PRIMARY KEY (" + a + ", " + b + "), " + ForeignKeyText(k) + ", " + ForeignKeyText(l)
    ensures ConstraintText(Constraint([a], [])) == "PRIMARY KEY (" + a + ")"
  {
    TwoNames(a, b);
    var x, y := NextForeignKeyText(k), NextForeignKeyText(l);
    assert [k, l][1..] == [l] && [l][1..] == [];
    assert Texts(NextForeignKeyText, [l]) == [y];
    assert Texts(NextForeignKeyText, [k, l]) == [x, y];
    TwoGlued(x, y);
    var cols := a + ", " + b;
    assert ForeignKeysText([k, l]) == ", " + ForeignKeyText(k) + ", " + ForeignKeyText(l);
    assert ConstraintText(Constraint([a, b], [k, l])) == "PRIMARY KEY (" + cols + ")" + (", " + ForeignKeyText(k) + ", " + ForeignKeyText(l));
    assert "PRIMARY KEY (" + cols + ")" + ", " == "PRIMARY KEY (" + a + ", " + b + "), ";
    assert ForeignKeysText([]) == "";
    assert ConstraintText(Constraint([a], [])) == "PRIMARY KEY (" + a + ")" + "";
  }

  lemma TwoGlued(x: string, y: string)
    ensures Glue([x, y]) == x + y
  {
    assert [x, y][1..] == [y] && [y][1..] == [];
    assert Glue([y]) == y + "";
  }

  /** The text of a table with two fields, or with one. */
  lemma TableSpelled(t: Table, f: Field, g: Field)
    ensures t.fields == [f, g] ==> (TableText(t) ==
      "CREATE TABLE IF NOT EXISTS " + ToLower(t.name) + " (" + (FieldText(f) + ", " + FieldText(g)) + ", " + ConstraintText(t.constraints) + ");")
    ensures t.fields == [f] ==> (TableText(t) ==
      "CREATE TABLE IF NOT EXISTS " + ToLower(t.name) + " (" + FieldText(f) + ", " + ConstraintText(t.constraints) + ");")
  {
    TwoFields(f, g);
    OneField(f);
    TableIs(t, FieldsText(t.fields));
  }

  lemma OneField(f: Field)
    ensures FieldsText([f]) == FieldText(f)
  {
    assert [f][1..] == [];
    assert Texts(FieldText, [f]) == [FieldText(f)];
  }

  /** Tables follow one another without a separator. */
  lemma TwoTables(t: Table, u: Table)
    ensures TablesText([t, u]) == TableText(t) + TableText(u)
  {
    assert [t, u][1..] == [u] && [u][1..] == [];
    assert Texts(TableText, [u]) == [TableText(u)];
    assert Texts(TableText, [t, u]) == [TableText(t), TableText(u)];
    TwoGlued(TableText(t), TableText(u));
  }

  lemma TableIs(t: Table, fields: string)
    requires FieldsText(t.fields) == fields
    ensures TableText(t) == "CREATE TABLE IF NOT EXISTS " + ToLower(t.name) + " (" + fields + ", " + ConstraintText(t.constraints) + ");"
  {
    Unbracket("CREATE TABLE IF NOT EXISTS " + ToLower(t.name) + " (", fields, ", ", ConstraintText(t.constraints), ");");
  }

  lemma Unbracket(a: string, b: string, c: string, d: string, e: string)
    ensures a + (b + c + d) + e == a + b + c + d + e
  {
  }
}

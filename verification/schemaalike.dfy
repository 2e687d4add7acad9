/** Which schemas the printed text identifies, said without a normal form. */
module SchemaAlike {
  import opened Text
  import opened Schema
  import opened SchemaParser

  /** Equal, or both without any name but the empty one. */
  predicate SameNames(a: seq<string>, b: seq<string>)
  {
    a == b || ((a == [] || a == [""]) && (b == [] || b == [""]))
  }

  predicate SameField(f: Field, g: Field)
  {
    DifferInCase(f.name, g.name) && f.typ == g.typ && (f.len == g.len || (f.len <= 0 && g.len <= 0))
  }

  predicate SameForeignKey(k: ForeignKey, l: ForeignKey)
  {
    && SameNames(k.fields, l.fields) && k.reference.table == l.reference.table
    && SameNames(k.reference.fields, l.reference.fields)
  }

  predicate Alike(t: Table, u: Table)
  {
    && DifferInCase(t.name, u.name)
    && |t.fields| == |u.fields| && (forall i :: 0 <= i < |t.fields| ==> SameField(t.fields[i], u.fields[i]))
    && SameNames(t.constraints.primaryKey, u.constraints.primaryKey)
    && |t.constraints.foreignKeys| == |u.constraints.foreignKeys|
    && (forall i :: 0 <= i < |t.constraints.foreignKeys| ==>
         SameForeignKey(t.constraints.foreignKeys[i], u.constraints.foreignKeys[i]))
  }

  lemma {:induction false} FieldsAlike(fs: seq<Field>, gs: seq<Field>)
    ensures NormFields(fs) == NormFields(gs) <==>
            |fs| == |gs| && forall i :: 0 <= i < |fs| ==> SameField(fs[i], gs[i])
  {
    if fs != [] && gs != [] {
      FieldsAlike(fs[1..], gs[1..]);
      ToLowerSame(fs[0].name, gs[0].name);
      assert NormFields(fs)[1..] == NormFields(fs[1..]) && NormFields(gs)[1..] == NormFields(gs[1..]);
      assert NormFields(fs)[0] == NormFields(gs)[0] <==> SameField(fs[0], gs[0]);
      assert NormFields(fs) == NormFields(gs) <==>
             NormFields(fs)[0] == NormFields(gs)[0] && NormFields(fs)[1..] == NormFields(gs)[1..];
      if |fs| == |gs| && forall i :: 0 <= i < |fs[1..]| ==> SameField(fs[1..][i], gs[1..][i]) {
        forall i | 0 < i < |fs|
          ensures SameField(fs[i], gs[i])
        {
          var j := i - 1;
          assert SameField(fs[1..][j], gs[1..][j]);
        }
      }
    }
  }

  lemma {:induction false} ForeignKeysAlike(ks: seq<ForeignKey>, ls: seq<ForeignKey>)
    ensures NormForeignKeys(ks) == NormForeignKeys(ls) <==>
            |ks| == |ls| && forall i :: 0 <= i < |ks| ==> SameForeignKey(ks[i], ls[i])
  {
    if ks != [] && ls != [] {
      ForeignKeysAlike(ks[1..], ls[1..]);
      assert NormForeignKeys(ks)[1..] == NormForeignKeys(ks[1..]) && NormForeignKeys(ls)[1..] == NormForeignKeys(ls[1..]);
      assert NormForeignKeys(ks)[0] == NormForeignKeys(ls)[0] <==> SameForeignKey(ks[0], ls[0]);
      assert NormForeignKeys(ks) == NormForeignKeys(ls) <==>
             NormForeignKeys(ks)[0] == NormForeignKeys(ls)[0] && NormForeignKeys(ks)[1..] == NormForeignKeys(ls)[1..];
      if |ks| == |ls| && forall i :: 0 <= i < |ks[1..]| ==> SameForeignKey(ks[1..][i], ls[1..][i]) {
        forall i | 0 < i < |ks|
          ensures SameForeignKey(ks[i], ls[i])
        {
          var j := i - 1;
          assert SameForeignKey(ks[1..][j], ls[1..][j]);
        }
      }
    }
  }

  lemma TablesAlike(t: Table, u: Table)
    ensures NormTable(t) == NormTable(u) <==> Alike(t, u)
  {
    ToLowerSame(t.name, u.name);
    FieldsAlike(t.fields, u.fields);
    ForeignKeysAlike(t.constraints.foreignKeys, u.constraints.foreignKeys);
  }

  lemma {:induction false} ListsAlike(a: seq<Table>, b: seq<Table>)
    ensures NormTables(a) == NormTables(b) <==> |a| == |b| && forall i :: 0 <= i < |a| ==> Alike(a[i], b[i])
  {
    if a != [] && b != [] {
      ListsAlike(a[1..], b[1..]);
      TablesAlike(a[0], b[0]);
      assert NormTables(a)[1..] == NormTables(a[1..]) && NormTables(b)[1..] == NormTables(b[1..]);
      assert NormTables(a) == NormTables(b) <==> NormTables(a)[0] == NormTables(b)[0] && NormTables(a)[1..] == NormTables(b)[1..];
      if |a| == |b| && forall i :: 0 <= i < |a[1..]| ==> Alike(a[1..][i], b[1..][i]) {
        forall i | 0 < i < |a|
          ensures Alike(a[i], b[i])
        {
          var j := i - 1;
          assert Alike(a[1..][j], b[1..][j]);
        }
      }
    }
  }

  /** The printed text determines the schema: two clean lists of tables print alike exactly
      when they agree up to the case of table and field names, the size of non-positive
      lengths, and lists that hold only the empty name. */
  lemma TextDeterminesSchema(a: seq<Table>, b: seq<Table>)
    requires CleanTables(a) && CleanTables(b)
    ensures TablesText(a) == TablesText(b) <==> |a| == |b| && forall i :: 0 <= i < |a| ==> Alike(a[i], b[i])
  {
    PrinterIsInjective(a, b);
    ListsAlike(a, b);
  }
}

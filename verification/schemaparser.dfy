/** A parser for the DDL text, and the proof that the text determines the schema. */
module SchemaParser {
  import opened Text
  import opened Schema
  import Decimal

  predicate Delimiter(c: char) { c in " ,();" }

  /** Free of spaces, commas, parentheses and semicolons. */
  predicate Clean(s: string)
  {
    forall i :: 0 <= i < |s| ==> !Delimiter(s[i])
  }

  // ---------------------------------------------------------------- the parser

  /** The text up to the next delimiter, and the rest. */
  function Word(s: string): (r: (string, string))
    ensures |r.1| <= |s|
  {
    if s == "" || Delimiter(s[0]) then ("", s)
    else var r := Word(s[1..]); ([s[0]] + r.0, r.1)
  }

  function Skip(literal: string, s: string): (r: Option<string>)
    ensures r.Some? ==> |r.value| == |s| - |literal|
  {
    if literal <= s then Some(s[|literal|..]) else None
  }

  /** Names separated by ", " up to and including the closing parenthesis. */
  function NamesFrom(s: string): (r: Option<(seq<string>, string)>)
    ensures r.Some? ==> |r.value.1| < |s|
    decreases |s|
  {
    var w := Word(s);
    match Skip(")", w.1)
    case Some(rest) => Some(([w.0], rest))
    case None =>
      match Skip(", ", w.1)
      case None => None
      case Some(more) =>
        match NamesFrom(more)
        case None => None
        case Some(tail) => Some(([w.0] + tail.0, tail.1))
  }

  function ParseNames(s: string): (r: Option<(seq<string>, string)>)
    ensures r.Some? ==> |r.value.1| < |s|
  {
    match Skip(")", s)
    case Some(rest) => Some(([], rest))
    case None => NamesFrom(s)
  }

  function ParseLength(s: string): (r: Option<(int, string)>)
    ensures r.Some? ==> |r.value.1| <= |s|
  {
    var d := Word(s);
    if forall i :: 0 <= i < |d.0| ==> Decimal.IsDigit(d.0[i]) then
      match Skip(")", d.1)
      case None => None
      case Some(rest) => Some((Decimal.ToNat(d.0), rest))
    else None
  }

  function ParseField(s: string): (r: Option<(Field, string)>)
    ensures r.Some? ==> |r.value.1| <= |s|
  {
    var name := Word(s);
    match Skip(" ", name.1)
    case None => None
    case Some(afterName) =>
      var typ := Word(afterName);
      match Skip("(", typ.1)
      case None => Some((Field(name.0, typ.0, 0), typ.1))
      case Some(inside) =>
        match ParseLength(inside)
        case None => None
        case Some(len) => Some((Field(name.0, typ.0, len.0), len.1))
  }

  /** Fields, each followed by ", ", up to the primary key clause. */
  function FieldsFrom(s: string): (r: Option<(seq<Field>, string)>)
    ensures r.Some? ==> |r.value.1| < |s|
    decreases |s|
  {
    match Skip("PRIMARY KEY (", s)
    case Some(rest) => Some(([], rest))
    case None =>
      match ParseField(s)
      case None => None
      case Some(f) =>
        match Skip(", ", f.1)
        case None => None
        case Some(more) =>
          match FieldsFrom(more)
          case None => None
          case Some(tail) => Some(([f.0] + tail.0, tail.1))
  }

  function ParseFields(s: string): (r: Option<(seq<Field>, string)>)
    ensures r.Some? ==> |r.value.1| < |s|
  {
    match Skip(", PRIMARY KEY (", s)
    case Some(rest) => Some(([], rest))
    case None => FieldsFrom(s)
  }

  function ParseReference(s: string): (r: Option<(Reference, string)>)
    ensures r.Some? ==> |r.value.1| < |s|
  {
    var table := Word(s);
    match Skip("(", table.1)
    case None => None
    case Some(inside) =>
      match ParseNames(inside)
      case None => None
      case Some(fields) => Some((Reference(table.0, fields.0), fields.1))
  }

  /** One foreign key, after its keywords and opening parenthesis. */
  function ParseForeignKey(s: string): (r: Option<(ForeignKey, string)>)
    ensures r.Some? ==> |r.value.1| < |s|
  {
    match ParseNames(s)
    case None => None
    case Some(fields) =>
      match Skip(" REFERENCES ", fields.1)
      case None => None
      case Some(target) =>
        match ParseReference(target)
        case None => None
        case Some(ref) => Some((ForeignKey(fields.0, ref.0), ref.1))
  }

  function ParseForeignKeys(s: string): (r: Option<(seq<ForeignKey>, string)>)
    ensures r.Some? ==> |r.value.1| <= |s|
    decreases |s|
  {
    match Skip(", FOREIGN KEY (", s)
    case None => Some(([], s))
    case Some(inside) =>
      match ParseForeignKey(inside)
      case None => None
      case Some(fk) =>
        match ParseForeignKeys(fk.1)
        case None => None
        case Some(tail) => Some(([fk.0] + tail.0, tail.1))
  }

  /** The body of a table, after its opening parenthesis. */
  function ParseBody(name: string, s: string): (r: Option<(Table, string)>)
    ensures r.Some? ==> |r.value.1| < |s|
  {
    match ParseFields(s)
    case None => None
    case Some(fields) =>
      match ParseNames(fields.1)
      case None => None
      case Some(keys) =>
        match ParseForeignKeys(keys.1)
        case None => None
        case Some(fks) =>
          match Skip(");", fks.1)
          case None => None
          case Some(rest) => Some((Table(name, fields.0, Constraint(keys.0, fks.0)), rest))
  }

  function ParseTable(s: string): (r: Option<(Table, string)>)
    ensures r.Some? ==> |r.value.1| < |s|
  {
    match Skip("CREATE TABLE IF NOT EXISTS ", s)
    case None => None
    case Some(named) =>
      var name := Word(named);
      match Skip(" (", name.1)
      case None => None
      case Some(body) => ParseBody(name.0, body)
  }

  function ParseTables(s: string): Option<seq<Table>>
    decreases |s|
  {
    if s == "" then Some([])
    else match ParseTable(s)
      case None => None
      case Some(t) =>
        match ParseTables(t.1)
        case None => None
        case Some(ts) => Some([t.0] + ts)
  }

  // ---------------------------------------------------------------- what the text keeps

  function NormNames(a: seq<string>): seq<string> { if a == [""] then [] else a }

  function NormField(f: Field): Field { Field(ToLower(f.name), f.typ, if f.len > 0 then f.len else 0) }

  function NormFields(fs: seq<Field>): (r: seq<Field>)
    ensures |r| == |fs|
  {
    if fs == [] then [] else [NormField(fs[0])] + NormFields(fs[1..])
  }

  function NormForeignKey(c: ForeignKey): ForeignKey
  {
    ForeignKey(NormNames(c.fields), Reference(c.reference.table, NormNames(c.reference.fields)))
  }

  function NormForeignKeys(cs: seq<ForeignKey>): seq<ForeignKey>
  {
    if cs == [] then [] else [NormForeignKey(cs[0])] + NormForeignKeys(cs[1..])
  }

  /** A table up to the case of its name and field names, the size of non-positive
      lengths, and the list that holds only the empty name. */
  function NormTable(t: Table): Table
  {
    Table(ToLower(t.name), NormFields(t.fields),
          Constraint(NormNames(t.constraints.primaryKey), NormForeignKeys(t.constraints.foreignKeys)))
  }

  function NormTables(ts: seq<Table>): seq<Table>
  {
    if ts == [] then [] else [NormTable(ts[0])] + NormTables(ts[1..])
  }

  predicate CleanNames(a: seq<string>) { forall i :: 0 <= i < |a| ==> Clean(a[i]) }

  predicate CleanForeignKey(c: ForeignKey)
  {
    CleanNames(c.fields) && Clean(c.reference.table) && CleanNames(c.reference.fields)
  }

  predicate CleanTable(t: Table)
  {
    && Clean(t.name) && CleanNames(t.constraints.primaryKey)
    && (forall i :: 0 <= i < |t.fields| ==> Clean(t.fields[i].name) && Clean(t.fields[i].typ))
    && (forall i :: 0 <= i < |t.constraints.foreignKeys| ==> CleanForeignKey(t.constraints.foreignKeys[i]))
  }

  predicate CleanTables(ts: seq<Table>) { forall i :: 0 <= i < |ts| ==> CleanTable(ts[i]) }

  // ---------------------------------------------------------------- parsing inverts printing

  lemma {:induction false} WordOf(w: string, r: string)
    requires Clean(w) && (r == "" || Delimiter(r[0]))
    ensures Word(w + r) == (w, r)
  {
    if w == "" {
      assert w + r == r;
    } else {
      WordOf(w[1..], r);
      assert (w + r)[1..] == w[1..] + r;
      assert w == [w[0]] + w[1..];
    }
  }

  lemma SkipOf(literal: string, r: string)
    ensures Skip(literal, literal + r) == Some(r)
  {
  }

  lemma {:induction false} NamesFromOf(a: seq<string>, r: string)
    requires a != [] && CleanNames(a)
    ensures NamesFrom(Names(a) + (")" + r)) == Some((a, r))
    decreases |a|
  {
    if |a| == 1 {
      assert a == [a[0]];
      WordOf(a[0], ")" + r);
      SkipOf(")", r);
    } else {
      var more := Names(a[1..]) + (")" + r);
      assert Names(a) + (")" + r) == a[0] + (", " + more);
      WordOf(a[0], ", " + more);
      SkipOf(", ", more);
      assert (", " + more)[0] == ',';
      NamesFromOf(a[1..], r);
      assert [a[0]] + a[1..] == a;
    }
  }

  lemma ParseNamesOf(a: seq<string>, r: string)
    requires CleanNames(a)
    ensures ParseNames(Names(a) + (")" + r)) == Some((NormNames(a), r))
  {
    if Names(a) == "" {
      assert a == [] || a == [""];
      assert Names(a) + (")" + r) == ")" + r;
      SkipOf(")", r);
    } else {
      assert Names(a)[0] != ')' by {
        if a[0] != "" { assert Names(a)[0] == a[0][0]; } else { assert Names(a)[0] == ','; }
      }
      NamesFromOf(a, r);
    }
  }

  lemma {:induction false} LowerClean(s: string)
    requires Clean(s)
    ensures Clean(ToLower(s))
  {
    forall i | 0 <= i < |s|
      ensures !Delimiter(ToLower(s)[i])
    {
      ToLowerAt(s, i);
    }
  }

  lemma DigitsClean(n: nat)
    ensures Clean(Decimal.OfNat(n))
  {
  }

  lemma ParseLengthOf(n: nat, r: string)
    ensures ParseLength(Decimal.OfNat(n) + (")" + r)) == Some((n, r))
  {
    DigitsClean(n);
    WordOf(Decimal.OfNat(n), ")" + r);
    SkipOf(")", r);
    Decimal.ToNatOfNat(n);
  }

  lemma ParseFieldOf(f: Field, r: string)
    requires Clean(f.name) && Clean(f.typ) && r != "" && r[0] == ','
    ensures ParseField(FieldText(f) + r) == Some((NormField(f), r))
  {
    LowerClean(f.name);
    var len := if f.len > 0 then "(" + Decimal.OfInt(f.len) + ")" else "";
    var afterName := f.typ + (len + r);
    assert FieldText(f) + r == ToLower(f.name) + (" " + afterName);
    WordOf(ToLower(f.name), " " + afterName);
    SkipOf(" ", afterName);
    WordOf(f.typ, len + r);
    if f.len > 0 {
      var inside := Decimal.OfNat(f.len) + (")" + r);
      assert len + r == "(" + inside;
      SkipOf("(", inside);
      ParseLengthOf(f.len, r);
    } else {
      assert len + r == r;
    }
  }

  /** The text of a field cannot be taken for the start of the primary key clause. */
  lemma FieldIsNotKey(f: Field, r: string)
    requires Clean(f.name)
    ensures Skip("PRIMARY KEY (", FieldText(f) + r) == None
    ensures Skip(", PRIMARY KEY (", FieldText(f) + r) == None
  {
    LowerClean(f.name);
    var s := FieldText(f) + r;
    if f.name == "" {
      assert s[0] == ' ';
    } else {
      ToLowerAt(f.name, 0);
      assert s[0] == ToLower(f.name)[0];
    }
    assert "PRIMARY KEY ("[0] == 'P' && ", PRIMARY KEY ("[0] == ',';
  }

  predicate CleanFields(fs: seq<Field>)
  {
    forall i :: 0 <= i < |fs| ==> Clean(fs[i].name) && Clean(fs[i].typ)
  }

  /** One more field in front. */
  lemma FieldsFromStep(f: Field, more: string, tail: seq<Field>, r: string)
    requires Clean(f.name) && Clean(f.typ) && FieldsFrom(more) == Some((tail, r))
    ensures FieldsFrom(FieldText(f) + (", " + more)) == Some(([NormField(f)] + tail, r))
  {
    FieldIsNotKey(f, ", " + more);
    ParseFieldOf(f, ", " + more);
    SkipOf(", ", more);
  }

  lemma FieldsHead(fs: seq<Field>, x: string)
    requires fs != []
    ensures |fs| == 1 ==> FieldsText(fs) + x == FieldText(fs[0]) + x
    ensures |fs| > 1 ==> FieldsText(fs) + x == FieldText(fs[0]) + (", " + (FieldsText(fs[1..]) + x))
  {
    var texts := Texts(FieldText, fs);
    assert texts[1..] == Texts(FieldText, fs[1..]);
    if |fs| > 1 { Reassociate(texts[0], ", ", Names(texts[1..]), x, ""); assert x + "" == x; }
  }

  lemma KeyLiteral(x: string)
    ensures ", PRIMARY KEY (" + x == ", " + ("PRIMARY KEY (" + x)
  {
    assert ", PRIMARY KEY (" == ", " + "PRIMARY KEY (";
  }

  lemma Reassociate(a: string, b: string, c: string, d: string, e: string)
    ensures a + b + c + d + e == a + (b + (c + (d + e)))
  {
  }

  lemma {:induction false} FieldsFromOf(fs: seq<Field>, r: string)
    requires CleanFields(fs) && fs != []
    ensures FieldsFrom(FieldsText(fs) + (", PRIMARY KEY (" + r)) == Some((NormFields(fs), r))
    decreases |fs|
  {
    FieldsHead(fs, ", PRIMARY KEY (" + r);
    if |fs| == 1 {
      KeyLiteral(r);
      NoFields(r);
      FieldsFromStep(fs[0], "PRIMARY KEY (" + r, [], r);
      assert NormFields(fs[1..]) == [];
    } else {
      FieldsFromOf(fs[1..], r);
      FieldsFromStep(fs[0], FieldsText(fs[1..]) + (", PRIMARY KEY (" + r), NormFields(fs[1..]), r);
    }
  }

  lemma NoFields(r: string)
    ensures FieldsFrom("PRIMARY KEY (" + r) == Some(([], r))
  {
    SkipOf("PRIMARY KEY (", r);
  }

  lemma ParseFieldsOf(fs: seq<Field>, r: string)
    requires CleanFields(fs)
    ensures ParseFields(FieldsText(fs) + (", PRIMARY KEY (" + r)) == Some((NormFields(fs), r))
  {
    if fs == [] {
      assert FieldsText(fs) + (", PRIMARY KEY (" + r) == ", PRIMARY KEY (" + r;
      SkipOf(", PRIMARY KEY (", r);
    } else {
      var tail := FieldsTail(fs, ", PRIMARY KEY (" + r);
      FieldIsNotKey(fs[0], tail);
      FieldsFromOf(fs, r);
    }
  }

  /** The text of a list of fields starts with the text of the first. */
  lemma FieldsTail(fs: seq<Field>, x: string) returns (tail: string)
    requires fs != []
    ensures FieldsText(fs) + x == FieldText(fs[0]) + tail
  {
    FieldsHead(fs, x);
    tail := if |fs| == 1 then x else ", " + (FieldsText(fs[1..]) + x);
  }

  lemma ParseForeignKeyOf(c: ForeignKey, r: string)
    requires CleanForeignKey(c)
    ensures ParseForeignKey(Names(c.fields) + (") REFERENCES " + (ReferenceText(c.reference) + r))) == Some((NormForeignKey(c), r))
  {
    var target := ReferenceText(c.reference) + r;
    ReferencesLiteral(target);
    ParseNamesOf(c.fields, " REFERENCES " + target);
    SkipOf(" REFERENCES ", target);
    ParseReferenceOf(c.reference, r);
  }

  lemma ReferencesLiteral(x: string)
    ensures ") REFERENCES " + x == ")" + (" REFERENCES " + x)
  {
    assert ") REFERENCES " == ")" + " REFERENCES ";
  }

  lemma ParseReferenceOf(ref: Reference, r: string)
    requires Clean(ref.table) && CleanNames(ref.fields)
    ensures ParseReference(ReferenceText(ref) + r) == Some((Reference(ref.table, NormNames(ref.fields)), r))
  {
    var inside := Names(ref.fields) + (")" + r);
    Reassociate(ref.table, "(", Names(ref.fields), ")", r);
    WordOf(ref.table, "(" + inside);
    SkipOf("(", inside);
    ParseNamesOf(ref.fields, r);
  }

  lemma {:induction false} ParseForeignKeysOf(cs: seq<ForeignKey>, r: string)
    requires forall i :: 0 <= i < |cs| ==> CleanForeignKey(cs[i])
    requires r != "" && r[0] == ')'
    ensures ParseForeignKeys(ForeignKeysText(cs) + r) == Some((NormForeignKeys(cs), r))
    decreases |cs|
  {
    if cs == [] {
      assert ForeignKeysText(cs) + r == r;
      assert ", FOREIGN KEY ("[0] == ',';
    } else {
      var rest := ForeignKeysText(cs[1..]) + r;
      var inside := Names(cs[0].fields) + (") REFERENCES " + (ReferenceText(cs[0].reference) + rest));
      ForeignKeysSplit(cs, r, rest, inside);
      SkipOf(", FOREIGN KEY (", inside);
      ParseForeignKeyOf(cs[0], rest);
      ParseForeignKeysOf(cs[1..], r);
    }
  }

  lemma ForeignKeysSplit(cs: seq<ForeignKey>, r: string, rest: string, inside: string)
    requires cs != [] && rest == ForeignKeysText(cs[1..]) + r
    requires inside == Names(cs[0].fields) + (") REFERENCES " + (ReferenceText(cs[0].reference) + rest))
    ensures ForeignKeysText(cs) + r == ", FOREIGN KEY (" + inside
  {
    ForeignKeySplit(cs[0], rest);
    FirstForeignKey(cs, r);
    CommaForeignKey(inside);
  }

  lemma FirstForeignKey(cs: seq<ForeignKey>, r: string)
    requires cs != []
    ensures ForeignKeysText(cs) + r == ", " + (ForeignKeyText(cs[0]) + (ForeignKeysText(cs[1..]) + r))
  {
    var texts := Texts(NextForeignKeyText, cs);
    assert texts[1..] == Texts(NextForeignKeyText, cs[1..]);
    Reassociate(", ", ForeignKeyText(cs[0]), Glue(texts[1..]), r, "");
    assert r + "" == r;
  }

  lemma CommaForeignKey(s: string)
    ensures ", " + ("FOREIGN KEY (" + s) == ", FOREIGN KEY (" + s
  {
    assert ", " + "FOREIGN KEY (" == ", FOREIGN KEY (";
  }

  lemma ForeignKeySplit(c: ForeignKey, rest: string)
    ensures ForeignKeyText(c) + rest == "FOREIGN KEY (" + (Names(c.fields) + (") REFERENCES " + (ReferenceText(c.reference) + rest)))
  {
    Reassociate("FOREIGN KEY (", Names(c.fields), ") REFERENCES ", ReferenceText(c.reference), rest);
  }

  lemma ParseTableOf(t: Table, r: string)
    requires CleanTable(t)
    ensures ParseTable(TableText(t) + r) == Some((NormTable(t), r))
  {
    var c := t.constraints;
    var afterFks := ");" + r;
    var afterKeys := ForeignKeysText(c.foreignKeys) + afterFks;
    var afterFields := Names(c.primaryKey) + (")" + afterKeys);
    var body := FieldsText(t.fields) + (", PRIMARY KEY (" + afterFields);
    TableSplit(t, r, afterFks, afterKeys, afterFields, body);
    SkipOf("CREATE TABLE IF NOT EXISTS ", ToLower(t.name) + (" (" + body));
    LowerClean(t.name);
    WordOf(ToLower(t.name), " (" + body);
    SkipOf(" (", body);
    ParseFieldsOf(t.fields, afterFields);
    ParseNamesOf(c.primaryKey, afterKeys);
    ParseForeignKeysOf(c.foreignKeys, afterFks);
    SkipOf(");", r);
  }

  lemma TableSplit(t: Table, r: string, afterFks: string, afterKeys: string, afterFields: string, body: string)
    requires afterFks == ");" + r && afterKeys == ForeignKeysText(t.constraints.foreignKeys) + afterFks
    requires afterFields == Names(t.constraints.primaryKey) + (")" + afterKeys)
    requires body == FieldsText(t.fields) + (", PRIMARY KEY (" + afterFields)
    ensures TableText(t) + r == "CREATE TABLE IF NOT EXISTS " + (ToLower(t.name) + (" (" + body))
  {
    var c := t.constraints;
    var fields := FieldsText(t.fields);
    ConstraintSplit(c, afterFks, afterKeys, afterFields);
    KeyLiteral(afterFields);
    Reassociate(fields, ", ", ConstraintText(c), ");", r);
    assert body == fields + (", " + (ConstraintText(c) + (");" + r)));
    Reassociate("CREATE TABLE IF NOT EXISTS ", ToLower(t.name), " (", fields + ", " + ConstraintText(c) + ");", r);
    TableShape(t, fields);
  }

  lemma TableShape(t: Table, fields: string)
    requires fields == FieldsText(t.fields)
    ensures TableText(t) == "CREATE TABLE IF NOT EXISTS " + ToLower(t.name) + " (" + (fields + ", " + ConstraintText(t.constraints) + ");")
  {
    Reassociate("CREATE TABLE IF NOT EXISTS " + ToLower(t.name), " (", fields + ", " + ConstraintText(t.constraints), ");", "");
    assert ");" + "" == ");";
    assert TableText(t) + "" == TableText(t);
  }

  lemma ConstraintSplit(c: Constraint, afterFks: string, afterKeys: string, afterFields: string)
    requires afterKeys == ForeignKeysText(c.foreignKeys) + afterFks
    requires afterFields == Names(c.primaryKey) + (")" + afterKeys)
    ensures ConstraintText(c) + afterFks == "PRIMARY KEY (" + afterFields
  {
    Reassociate("PRIMARY KEY (", Names(c.primaryKey), ")", ForeignKeysText(c.foreignKeys), afterFks);
  }

  /** The parser recovers every list of tables from its text, up to normal form. */
  lemma {:induction false} ParseTablesOf(ts: seq<Table>)
    requires CleanTables(ts)
    ensures ParseTables(TablesText(ts)) == Some(NormTables(ts))
  {
    if ts != [] {
      ParseTablesOf(ts[1..]);
      ParseTablesStep(ts[0], TablesText(ts[1..]), NormTables(ts[1..]));
      FirstTable(ts);
    }
  }

  lemma FirstTable(ts: seq<Table>)
    requires ts != []
    ensures TablesText(ts) == TableText(ts[0]) + TablesText(ts[1..])
  {
    assert Texts(TableText, ts)[1..] == Texts(TableText, ts[1..]);
  }

  lemma ParseTablesStep(t: Table, rest: string, ts: seq<Table>)
    requires CleanTable(t) && ParseTables(rest) == Some(ts)
    ensures ParseTables(TableText(t) + rest) == Some([NormTable(t)] + ts)
  {
    ParseTableOf(t, rest);
    SomeText(t, rest);
  }

  lemma SomeText(t: Table, rest: string)
    ensures TableText(t) + rest != ""
  {
    assert |TableText(t)| > 0;
  }

  /** The printer is injective: two lists of tables have the same text exactly when they
      have the same normal form. */
  lemma PrinterIsInjective(a: seq<Table>, b: seq<Table>)
    requires CleanTables(a) && CleanTables(b)
    ensures TablesText(a) == TablesText(b) <==> NormTables(a) == NormTables(b)
  {
    ParseTablesOf(a);
    ParseTablesOf(b);
    TextOfNorm(a);
    TextOfNorm(b);
  }

  // The text depends on the normal form only.

  lemma {:induction false} FieldsTextOfNorm(fs: seq<Field>)
    ensures FieldsText(NormFields(fs)) == FieldsText(fs)
  {
    if fs != [] {
      ToLowerIdempotent(fs[0].name);
      assert FieldText(NormField(fs[0])) == FieldText(fs[0]);
      FieldsTextOfNorm(fs[1..]);
      assert NormFields(fs)[1..] == NormFields(fs[1..]);
    }
  }

  lemma {:induction false} ForeignKeysTextOfNorm(cs: seq<ForeignKey>)
    ensures ForeignKeysText(NormForeignKeys(cs)) == ForeignKeysText(cs)
  {
    if cs != [] {
      assert ForeignKeyText(NormForeignKey(cs[0])) == ForeignKeyText(cs[0]);
      ForeignKeysTextOfNorm(cs[1..]);
      assert NormForeignKeys(cs)[1..] == NormForeignKeys(cs[1..]);
    }
  }

  lemma {:induction false} TextOfNorm(ts: seq<Table>)
    ensures TablesText(NormTables(ts)) == TablesText(ts)
  {
    if ts != [] {
      ToLowerIdempotent(ts[0].name);
      FieldsTextOfNorm(ts[0].fields);
      ForeignKeysTextOfNorm(ts[0].constraints.foreignKeys);
      assert TableText(NormTable(ts[0])) == TableText(ts[0]);
      TextOfNorm(ts[1..]);
      assert NormTables(ts)[1..] == NormTables(ts[1..]);
    }
  }
}

/**
 Composing the SELECT text and reading it back with a scanner for delimited identifiers
 (ISO/IEC 9075-2 section 5.2; backticks for MySQL).
 */
module SqlText {
  import opened Common

  datatype Scheme = Postgres | Mysql | Snowflake | Databricks

  datatype Uri = Uri(scheme: Scheme, database: Option<string>, schema: Option<string>, table: string)

  function Delimiter(scheme: Scheme): char { if scheme.Mysql? then '`' else '"' }

  /** Every delimiter inside the identifier is doubled. */
  function Escape(s: string, q: char): string {
    if s == "" then "" else (if s[0] == q then [q, q] else [s[0]]) + Escape(s[1..], q)
  }

  function Quote(s: string, q: char): string { [q] + Escape(s, q) + [q] }

  /** Quoted identifiers joined by a separator. */
  function Join(names: seq<string>, separator: string, q: char): string
    requires names != []
  {
    if |names| == 1 then Quote(names[0], q) else Quote(names[0], q) + separator + Join(names[1..], separator, q)
  }

  /** A field counts only when it is there and not empty. */
  function Given(field: Option<string>): seq<string> {
    if field.Some? && field.value != "" then [field.value] else []
  }

  /** The parts of the table reference this dialect spells out. */
  function Parts(uri: Uri): (parts: seq<string>)
    ensures parts != []
  {
    (if uri.scheme.Snowflake? || uri.scheme.Databricks? then Given(uri.database) else [])
    + Given(uri.schema) + [uri.table]
  }

  function QualifiedTable(uri: Uri): string { Join(Parts(uri), ".", Delimiter(uri.scheme)) }

  function Projection(columns: Option<seq<string>>, q: char): string {
    if columns.Some? && columns.value != [] then Join(columns.value, ", ", q) else "*"
  }

  function Condition(where: Option<string>): string {
    if where.Some? && where.value != "" then " WHERE " + where.value else ""
  }

  function BuildQuery(uri: Uri, where: Option<string>, columns: Option<seq<string>>): string {
    "SELECT " + Projection(columns, Delimiter(uri.scheme)) + " FROM " + QualifiedTable(uri) + Condition(where)
  }

  // ---------------------------------------------------------------------------------------------
  // The scanner
  // ---------------------------------------------------------------------------------------------

  /** What is left to read, and what was read. */
  datatype Scan<T> = Read(value: T, rest: string) | Fail

  /** The body of a delimited identifier, up to a delimiter that is not doubled. */
  function ScanBody(text: string, q: char): Scan<string> {
    if text == "" then Fail
    else if text[0] != q then
      match ScanBody(text[1..], q)
      case Read(s, rest) => Read([text[0]] + s, rest)
      case Fail => Fail
    else if |text| > 1 && text[1] == q then
      match ScanBody(text[2..], q)
      case Read(s, rest) => Read([q] + s, rest)
      case Fail => Fail
    else Read("", text[1..])
  }

  function ScanIdentifier(text: string, q: char): Scan<string> {
    if text != "" && text[0] == q then ScanBody(text[1..], q) else Fail
  }

  predicate Starts(text: string, word: string) {
    |word| <= |text| && text[..|word|] == word
  }

  /** Identifiers with a separator between them; it stops where no separator follows. */
  function ScanList(text: string, separator: string, q: char): Scan<seq<string>>
    decreases |text|
  {
    match ScanIdentifier(text, q)
    case Fail => Fail
    case Read(name, rest) =>
      ScanShrinks(text, q);
      if !Starts(rest, separator) then Read([name], rest)
      else match ScanList(rest[|separator|..], separator, q)
        case Read(names, after) => Read([name] + names, after)
        case Fail => Fail
  }

  lemma {:induction false} BodyShrinks(text: string, q: char)
    ensures ScanBody(text, q).Read? ==> |ScanBody(text, q).rest| < |text|
  {
    if text != "" && text[0] != q { BodyShrinks(text[1..], q); }
    if |text| > 1 && text[0] == q && text[1] == q { BodyShrinks(text[2..], q); }
  }

  lemma ScanShrinks(text: string, q: char)
    ensures ScanIdentifier(text, q).Read? ==> |ScanIdentifier(text, q).rest| < |text|
  {
    if text != "" && text[0] == q { BodyShrinks(text[1..], q); }
  }

  /** What a query says, with absent and empty told as one. */
  datatype Query = Query(columns: seq<string>, parts: seq<string>, where: string)

  function ScanProjection(text: string, q: char): Scan<seq<string>> {
    if Starts(text, "*") then Read([], text[1..]) else ScanList(text, ", ", q)
  }

  function ScanTail(columns: seq<string>, text: string, q: char): Option<Query> {
    match ScanList(text, ".", q)
    case Fail => None
    case Read(parts, rest) =>
      if rest == "" then Some(Query(columns, parts, ""))
      else if Starts(rest, " WHERE ") then Some(Query(columns, parts, rest[7..]))
      else None
  }

  function ScanQuery(text: string, q: char): Option<Query> {
    if !Starts(text, "SELECT ") then None
    else match ScanProjection(text[7..], q)
      case Fail => None
      case Read(columns, rest) => if Starts(rest, " FROM ") then ScanTail(columns, rest[6..], q) else None
  }

  // ---------------------------------------------------------------------------------------------
  // Printing and scanning
  // ---------------------------------------------------------------------------------------------

  lemma {:induction false} BodyRoundTrip(s: string, q: char, rest: string)
    requires rest == "" || rest[0] != q
    ensures ScanBody(Escape(s, q) + [q] + rest, q) == Read(s, rest)
  {
    var text := Escape(s, q) + [q] + rest;
    if s == "" {
      assert text == [q] + rest;
    } else {
      BodyRoundTrip(s[1..], q, rest);
      assert [s[0]] + s[1..] == s;
      var more := Escape(s[1..], q) + [q] + rest;
      if s[0] == q {
        assert text == [q, q] + more;
        assert text[2..] == more;
      } else {
        assert text == [s[0]] + more;
        assert text[1..] == more;
      }
    }
  }

  /** A quoted identifier is read back whatever characters it holds. */
  lemma IdentifierRoundTrip(s: string, q: char, rest: string)
    requires rest == "" || rest[0] != q
    ensures ScanIdentifier(Quote(s, q) + rest, q) == Read(s, rest)
  {
    var text := Quote(s, q) + rest;
    assert text[1..] == Escape(s, q) + [q] + rest;
    BodyRoundTrip(s, q, rest);
  }

  lemma StartsHead(text: string, word: string)
    requires word != ""
    ensures Starts(text, word) ==> text != "" && text[0] == word[0]
  {
    if Starts(text, word) { assert text[..|word|][0] == text[0]; }
  }

  lemma StartsAppend(word: string, rest: string)
    ensures Starts(word + rest, word) && (word + rest)[|word|..] == rest
  {}

  lemma JoinCons(names: seq<string>, separator: string, q: char, rest: string)
    requires |names| > 1
    ensures Join(names, separator, q) + rest
         == Quote(names[0], q) + (separator + (Join(names[1..], separator, q) + rest))
  {
    hide Quote;
  }

  lemma {:induction false} ListRoundTrip(names: seq<string>, separator: string, q: char, rest: string)
    requires names != [] && separator != "" && separator[0] != q
    requires rest == "" || rest[0] != q
    requires !Starts(rest, separator)
    ensures ScanList(Join(names, separator, q) + rest, separator, q) == Read(names, rest)
    decreases |names|
  {
    hide Quote, ScanIdentifier, Starts;
    if |names| == 1 {
      IdentifierRoundTrip(names[0], q, rest);
      assert [names[0]] == names;
    } else {
      var others := Join(names[1..], separator, q) + rest;
      JoinCons(names, separator, q, rest);
      IdentifierRoundTrip(names[0], q, separator + others);
      StartsAppend(separator, others);
      ListRoundTrip(names[1..], separator, q, rest);
      assert [names[0]] + names[1..] == names;
    }
  }

  function Columns(columns: Option<seq<string>>): seq<string> { if columns.Some? then columns.value else [] }

  function Where(where: Option<string>): string { if where.Some? then where.value else "" }

  lemma ProjectionRoundTrip(columns: Option<seq<string>>, q: char, rest: string)
    requires q == '"' || q == '`'
    ensures ScanProjection(Projection(columns, q) + (" FROM " + rest), q) == Read(Columns(columns), " FROM " + rest)
  {
    var text := Projection(columns, q) + (" FROM " + rest);
    if columns.Some? && columns.value != [] {
      JoinOpens(columns.value, ", ", q);
      StartsHead(text, "*");
      StartsHead(" FROM " + rest, ", ");
      ListRoundTrip(columns.value, ", ", q, " FROM " + rest);
    } else {
      StartsAppend("*", " FROM " + rest);
    }
  }

  lemma JoinOpens(names: seq<string>, separator: string, q: char)
    requires names != []
    ensures Join(names, separator, q) != "" && Join(names, separator, q)[0] == q
  {}

  lemma TailRoundTrip(columns: seq<string>, uri: Uri, where: Option<string>)
    ensures ScanTail(columns, QualifiedTable(uri) + Condition(where), Delimiter(uri.scheme))
      == Some(Query(columns, Parts(uri), Where(where)))
  {
    var q, rest := Delimiter(uri.scheme), Condition(where);
    if rest != "" {
      StartsAppend(" WHERE ", where.value);
      assert rest[0] == ' ';
    }
    StartsHead(rest, ".");
    ListRoundTrip(Parts(uri), ".", q, rest);
  }

  /** Columns, table parts and the condition are all recovered, verbatim. */
  lemma QueryRoundTrip(uri: Uri, where: Option<string>, columns: Option<seq<string>>)
    ensures ScanQuery(BuildQuery(uri, where, columns), Delimiter(uri.scheme))
      == Some(Query(Columns(columns), Parts(uri), Where(where)))
  {
    hide Projection, QualifiedTable, Condition, ScanProjection, ScanTail;
    var q := Delimiter(uri.scheme);
    var tail := QualifiedTable(uri) + Condition(where);
    var middle := Projection(columns, q) + (" FROM " + tail);
    assert BuildQuery(uri, where, columns) == "SELECT " + middle;
    StartsAppend("SELECT ", middle);
    ProjectionRoundTrip(columns, q, tail);
    StartsAppend(" FROM ", tail);
    TailRoundTrip(Columns(columns), uri, where);
  }

  /** Two requests to one kind of database share their text exactly when they ask for the same. */
  lemma PrintingIsInjective(u: Uri, w: Option<string>, c: Option<seq<string>>,
    u': Uri, w': Option<string>, c': Option<seq<string>>)
    requires u.scheme == u'.scheme
    ensures BuildQuery(u, w, c) == BuildQuery(u', w', c')
      <==> Columns(c) == Columns(c') && Parts(u) == Parts(u') && Where(w) == Where(w')
  {
    QueryRoundTrip(u, w, c);
    QueryRoundTrip(u', w', c');
    hide QualifiedTable, Projection, Condition;
    if Columns(c) == Columns(c') && Parts(u) == Parts(u') && Where(w) == Where(w') {
      SameText(u, w, c, u', w', c');
    }
  }

  lemma SameText(u: Uri, w: Option<string>, c: Option<seq<string>>,
    u': Uri, w': Option<string>, c': Option<seq<string>>)
    requires u.scheme == u'.scheme && Columns(c) == Columns(c') && Parts(u) == Parts(u') && Where(w) == Where(w')
    ensures BuildQuery(u, w, c) == BuildQuery(u', w', c')
  {
    assert Projection(c, Delimiter(u.scheme)) == Projection(c', Delimiter(u.scheme));
    assert Condition(w) == Condition(w');
  }

  /** The parts do not say which field a lone qualifier came from. */
  lemma LoneQualifierIsAmbiguous(name: string, table: string)
    requires name != ""
    ensures Parts(Uri(Snowflake, Some(name), None, table)) == Parts(Uri(Snowflake, None, Some(name), table))
  {
    assert [] + [name] + [table] == [name] + [] + [table];
  }

  /** Fields are recovered exactly up to that ambiguity, and up to a database the text leaves out. */
  lemma PartsTell(u: Uri, u': Uri)
    requires u.scheme == u'.scheme
    ensures Parts(u) == Parts(u') <==>
      && u.table == u'.table
      && (if u.scheme.Snowflake? || u.scheme.Databricks?
            then Given(u.database) + Given(u.schema) == Given(u'.database) + Given(u'.schema)
          else Given(u.schema) == Given(u'.schema))
  {
    var front := if u.scheme.Snowflake? || u.scheme.Databricks? then Given(u.database) + Given(u.schema)
      else Given(u.schema);
    var front' := if u.scheme.Snowflake? || u.scheme.Databricks? then Given(u'.database) + Given(u'.schema)
      else Given(u'.schema);
    assert Parts(u) == front + [u.table] && Parts(u') == front' + [u'.table];
    if Parts(u) == Parts(u') {
      assert |front| == |front'| && Parts(u)[|front|] == Parts(u')[|front|];
      assert front == Parts(u)[..|front|] && front' == Parts(u')[..|front|];
    }
  }

  // ---------------------------------------------------------------------------------------------
  // The text of plain requests, dialect by dialect
  // ---------------------------------------------------------------------------------------------

  ghost predicate Plain(s: string) { '"' !in s && '`' !in s }

  lemma {:induction false} PlainQuotes(s: string, q: char)
    requires Plain(s) && (q == '"' || q == '`')
    ensures Escape(s, q) == s && Quote(s, q) == [q] + s + [q]
  {
    if s != "" {
      assert s == [s[0]] + s[1..];
      assert s[0] in s && forall c | c in s[1..] :: c in s;
      PlainQuotes(s[1..], q);
    }
  }

  lemma JoinTwo(a: string, b: string, separator: string, q: char)
    ensures Join([a, b], separator, q) == Quote(a, q) + separator + Quote(b, q)
  {
    assert [a, b][1..] == [b];
  }

  lemma JoinThree(a: string, b: string, c: string, separator: string, q: char)
    ensures Join([a, b, c], separator, q) == Quote(a, q) + separator + (Quote(b, q) + separator + Quote(c, q))
  {
    assert [a, b, c][1..] == [b, c];
    JoinTwo(b, c, separator, q);
  }

  /** Postgres: double quotes, schema and table, the database left to the connection. */
  lemma PostgresText(db: Option<string>, schema: string, table: string, a: string, b: string, w: string)
    requires schema != "" && w != "" && Plain(schema) && Plain(table) && Plain(a) && Plain(b)
    ensures BuildQuery(Uri(Postgres, db, Some(schema), table), Some(w), Some([a, b]))
         == "SELECT " + ("\"" + a + "\"" + ", " + ("\"" + b + "\"")) + " FROM "
            + ("\"" + schema + "\"" + "." + ("\"" + table + "\"")) + (" WHERE " + w)
  {
    PlainQuotes(schema, '"'); PlainQuotes(table, '"'); PlainQuotes(a, '"'); PlainQuotes(b, '"');
    JoinTwo(a, b, ", ", '"');
    JoinTwo(schema, table, ".", '"');
    assert Parts(Uri(Postgres, db, Some(schema), table)) == [schema, table];
  }

  /** MySQL: backticks. */
  lemma MysqlText(db: Option<string>, schema: string, table: string, a: string, b: string, w: string)
    requires schema != "" && w != "" && Plain(schema) && Plain(table) && Plain(a) && Plain(b)
    ensures BuildQuery(Uri(Mysql, db, Some(schema), table), Some(w), Some([a, b]))
         == "SELECT " + ("`" + a + "`" + ", " + ("`" + b + "`")) + " FROM "
            + ("`" + schema + "`" + "." + ("`" + table + "`")) + (" WHERE " + w)
  {
    PlainQuotes(schema, '`'); PlainQuotes(table, '`'); PlainQuotes(a, '`'); PlainQuotes(b, '`');
    JoinTwo(a, b, ", ", '`');
    JoinTwo(schema, table, ".", '`');
    assert Parts(Uri(Mysql, db, Some(schema), table)) == [schema, table];
  }

  /** Snowflake and Databricks: double quotes, database, schema and table. */
  lemma WarehouseText(scheme: Scheme, db: string, schema: string, table: string)
    requires scheme.Snowflake? || scheme.Databricks?
    requires db != "" && schema != "" && Plain(db) && Plain(schema) && Plain(table)
    ensures BuildQuery(Uri(scheme, Some(db), Some(schema), table), None, None)
         == "SELECT " + "*" + " FROM "
            + ("\"" + db + "\"" + "." + ("\"" + schema + "\"" + "." + ("\"" + table + "\""))) + ""
  {
    PlainQuotes(db, '"'); PlainQuotes(schema, '"'); PlainQuotes(table, '"');
    JoinThree(db, schema, table, ".", '"');
    assert Parts(Uri(scheme, Some(db), Some(schema), table)) == [db, schema, table];
  }

  /** An unqualified table of the connection's own database, and no restriction. */
  lemma BareText(scheme: Scheme, table: string)
    requires Plain(table)
    ensures BuildQuery(Uri(scheme, None, None, table), None, Some([]))
         == "SELECT " + "*" + " FROM " + (if scheme.Mysql? then "`" + table + "`" else "\"" + table + "\"") + ""
  {
    PlainQuotes(table, Delimiter(scheme));
    assert Parts(Uri(scheme, None, None, table)) == [table];
  }
}

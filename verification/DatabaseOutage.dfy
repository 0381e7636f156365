/**
 The outage of one Postgres connection without its neighbours: what the validation of the declaration accepts is exactly what
 makes every cut reach one connection only.
*/
module DatabaseOutage {

  /** A field of the declaration: absent, null, a string, or anything else (known by its identity). */
  datatype Field = Missing | Null | Text(text: string) | Other(identity: nat)

  datatype Connection = Connection(name: Field, database: Field, schema: Field)

  datatype Problem =
    | NoConnections
    | BadName(index: nat) | NameTwice(index: nat) | BadDatabase(index: nat) | BadSchema(index: nat)
    | WithoutSchema(database: string) | SchemaTwice(database: string)

  // ---- Validation ----

  predicate Letter(c: char) {
    'A' <= c <= 'Z' || 'a' <= c <= 'z'
  }

  predicate Word(c: char) {
    Letter(c) || '0' <= c <= '9' || c == '_'
  }

  /** The identifiers of a declaration: a letter, then letters, digits and underscores. */
  predicate Identifier(s: string) {
    s != "" && Letter(s[0]) && forall i :: 0 <= i < |s| ==> Word(s[i])
  }

  predicate NameOk(f: Field) {
    f.Text? && Identifier(f.text)
  }

  predicate DatabaseOk(f: Field) {
    f.Missing? || NameOk(f)
  }

  predicate SchemaOk(f: Field) {
    f.Missing? || (NameOk(f) && f.text != "public" && !("pg_" <= f.text))
  }

  /** The logical database of a connection: the one it names, or (absent or null) its own. */
  function LogicalDatabase(c: Connection): Field {
    if c.database.Missing? || c.database.Null? then c.name else c.database
  }

  predicate Space(c: char) {
    c == ' ' || c == '\t' || c == '\n' || c == '\r' || c == '\U{000B}' || c == '\U{000C}' || c == '\U{00A0}' || c == '\U{FEFF}'
  }

  /** A group is keyed by a text that is more than white space. */
  predicate Groups(f: Field) {
    f.Text? && exists i :: 0 <= i < |f.text| && !Space(f.text[i])
  }

  /** The fields of the first `n` connections are well formed. */
  ghost predicate FieldsOk(cs: seq<Connection>, n: nat)
    requires n <= |cs|
  {
    forall i :: 0 <= i < n ==> NameOk(cs[i].name) && DatabaseOk(cs[i].database) && SchemaOk(cs[i].schema)
  }

  ghost predicate NamesDiffer(cs: seq<Connection>, n: nat)
    requires n <= |cs|
  {
    forall i, j :: 0 <= i < j < n ==> cs[i].name != cs[j].name
  }

  predicate NoDatabase(c: Connection) {
    c.database.Missing? || c.database.Null?
  }

  /** Two connections live in one database: they name the same one, or one names the other, or they bear the same name. */
  predicate ShareDatabase(a: Connection, b: Connection) {
    || (a.database.Text? && b.database.Text? && a.database.text == b.database.text)
    || (a.database.Text? && NoDatabase(b) && b.name == a.database)
    || (NoDatabase(a) && b.database.Text? && a.name == b.database)
    || (NoDatabase(a) && NoDatabase(b) && a.name == b.name)
  }

  /** What the declaration promises of its connections. */
  ghost predicate Acceptable(cs: seq<Connection>) {
    && cs != []
    && FieldsOk(cs, |cs|)
    && NamesDiffer(cs, |cs|)
    && (forall i, j :: 0 <= i < j < |cs| && ShareDatabase(cs[i], cs[j]) ==>
          !cs[i].schema.Missing? && !cs[j].schema.Missing? && cs[i].schema != cs[j].schema)
  }

  /** What each problem of a field says of the first `n` connections. */
  ghost predicate FieldProblem(cs: seq<Connection>, n: nat, p: Problem)
    requires n <= |cs|
  {
    match p
    case BadName(i) => i < n && !NameOk(cs[i].name)
    case NameTwice(i) => i < n && NameOk(cs[i].name) && exists j :: 0 <= j < i && cs[j].name == cs[i].name
    case BadDatabase(i) => i < n && !DatabaseOk(cs[i].database)
    case BadSchema(i) => i < n && !SchemaOk(cs[i].schema)
    case _ => false
  }

  /** The first loop: the fields of each connection, and the names seen so far. */
  method CheckFields(cs: seq<Connection>) returns (problems: seq<Problem>)
    ensures forall p :: p in problems <==> FieldProblem(cs, |cs|, p)
    ensures problems == [] <==> FieldsOk(cs, |cs|) && NamesDiffer(cs, |cs|)
  {
    hide Identifier;
    problems := [];
    var seen: set<string> := {};
    for index := 0 to |cs|
      invariant forall s :: s in seen ==> exists i :: 0 <= i < index && cs[i].name == Text(s)
      invariant forall i :: 0 <= i < index && NameOk(cs[i].name) ==> cs[i].name.text in seen
      invariant problems == [] <==> FieldsOk(cs, index) && NamesDiffer(cs, index)
      invariant forall p :: p in problems <==> FieldProblem(cs, index, p)
    {
      var c := cs[index];
      if !NameOk(c.name) {
        problems := problems + [BadName(index)];
      } else if c.name.text in seen {
        problems := problems + [NameTwice(index)];
      } else {
        seen := seen + {c.name.text};
      }
      if !DatabaseOk(c.database) { problems := problems + [BadDatabase(index)]; }
      if !SchemaOk(c.schema) { problems := problems + [BadSchema(index)]; }
      assert NameOk(c.name) && NamesDiffer(cs, index) ==>
        (NamesDiffer(cs, index + 1) <==> forall i :: 0 <= i < index ==> cs[i].name != c.name);
    }
  }

  /** The schemas of the connections of one database, in order of declaration. */
  function Members(cs: seq<Connection>, database: Field): (schemas: seq<Field>)
    ensures |schemas| <= |cs|
  {
    if cs == [] then []
    else
      var front := Members(cs[..|cs| - 1], database);
      if LogicalDatabase(cs[|cs| - 1]) == database then front + [cs[|cs| - 1].schema] else front
  }

  lemma MembersStep(cs: seq<Connection>, index: nat, database: Field)
    requires index < |cs|
    ensures Members(cs[..index + 1], database) ==
            Members(cs[..index], database) + (if LogicalDatabase(cs[index]) == database then [cs[index].schema] else [])
  {
    assert cs[..index + 1][..index] == cs[..index];
  }

  /** The place of a connection among the members is the number of members before it. */
  lemma {:induction false} MemberAt(cs: seq<Connection>, database: Field, i: nat)
    requires i < |cs| && LogicalDatabase(cs[i]) == database
    ensures |Members(cs[..i], database)| < |Members(cs, database)|
    ensures Members(cs, database)[|Members(cs[..i], database)|] == cs[i].schema
    decreases |cs|
  {
    var front := cs[..|cs| - 1];
    if i < |front| {
      MemberAt(front, database, i);
      assert front[..i] == cs[..i];
    } else {
      assert cs[..i] == front;
    }
  }

  lemma {:induction false} MemberFrom(cs: seq<Connection>, database: Field, k: nat) returns (i: nat)
    requires k < |Members(cs, database)|
    ensures i < |cs| && LogicalDatabase(cs[i]) == database && Members(cs, database)[k] == cs[i].schema
    ensures |Members(cs[..i], database)| == k
    decreases |cs|
  {
    var front := cs[..|cs| - 1];
    if k < |Members(front, database)| {
      i := MemberFrom(front, database, k);
      assert front[..i] == cs[..i];
    } else {
      i := |cs| - 1;
    }
  }

  lemma {:induction false} MembersGrow(cs: seq<Connection>, database: Field, i: nat, j: nat)
    requires i <= j <= |cs|
    ensures |Members(cs[..i], database)| <= |Members(cs[..j], database)|
    decreases j - i
  {
    if i < j {
      MembersGrow(cs, database, i, j - 1);
      MembersStep(cs, j - 1, database);
    }
  }

  predicate Separate(schemas: seq<Field>) {
    |schemas| < 2 ||
    ((forall i :: 0 <= i < |schemas| ==> !schemas[i].Missing?) && forall i, j :: 0 <= i < j < |schemas| ==> schemas[i] != schemas[j])
  }

  predicate Unschemed(schemas: seq<Field>) {
    |schemas| >= 2 && exists i :: 0 <= i < |schemas| && schemas[i].Missing?
  }

  predicate Repeats(schemas: seq<Field>) {
    exists i, j :: 0 <= i < j < |schemas| && schemas[i] == schemas[j] && !schemas[j].Missing?
  }

  /** What every problem says of a declaration. */
  ghost predicate IsProblem(cs: seq<Connection>, p: Problem) {
    match p
    case NoConnections => cs == []
    case WithoutSchema(d) => Groups(Text(d)) && Unschemed(Members(cs, Text(d)))
    case SchemaTwice(d) => Groups(Text(d)) && Repeats(Members(cs, Text(d)))
    case _ => FieldProblem(cs, |cs|, p)
  }

  ghost predicate ApartIn(cs: seq<Connection>, database: Field) {
    forall i, j :: 0 <= i < j < |cs| && LogicalDatabase(cs[i]) == database && LogicalDatabase(cs[j]) == database ==>
      !cs[i].schema.Missing? && !cs[j].schema.Missing? && cs[i].schema != cs[j].schema
  }

  /** The members of a database are separate exactly when any two connections of it are. */
  lemma SeparateMembers(cs: seq<Connection>, database: Field)
    ensures Separate(Members(cs, database)) <==> ApartIn(cs, database)
  {
    var schemas := Members(cs, database);
    if Separate(schemas) {
      forall i, j | 0 <= i < j < |cs| && LogicalDatabase(cs[i]) == database && LogicalDatabase(cs[j]) == database
        ensures !cs[i].schema.Missing? && !cs[j].schema.Missing? && cs[i].schema != cs[j].schema
      {
        MemberAt(cs, database, i);
        MemberAt(cs, database, j);
        MemberAt(cs[..j], database, i);
        assert cs[..j][..i] == cs[..i];
      }
    }
    if ApartIn(cs, database) && |schemas| >= 2 {
      forall k, m | 0 <= k < m < |schemas|
        ensures !schemas[k].Missing? && !schemas[m].Missing? && schemas[k] != schemas[m]
      {
        var i := MemberFrom(cs, database, k);
        var j := MemberFrom(cs, database, m);
        if j <= i { MembersGrow(cs, database, j, i); }
      }
      forall k | 0 <= k < |schemas| ensures !schemas[k].Missing? {
        assert schemas[if k == 0 then 1 else 0] == schemas[if k == 0 then 1 else 0];
        if k == 0 { assert schemas[0] != schemas[1]; } else { assert schemas[0] != schemas[k]; }
      }
    }
  }

  ghost predicate Grouped(cs: seq<Connection>, byDatabase: map<string, seq<Field>>) {
    forall d: string ::
      if d in byDatabase then Groups(Text(d)) && byDatabase[d] == Members(cs, Text(d))
      else Groups(Text(d)) ==> Members(cs, Text(d)) == []
  }

  /** The grouping loop: the members of every database, in order of declaration. */
  method GroupByDatabase(cs: seq<Connection>) returns (byDatabase: map<string, seq<Field>>)
    ensures Grouped(cs, byDatabase)
  {
    byDatabase := map[];
    for index := 0 to |cs|
      invariant Grouped(cs[..index], byDatabase)
    {
      forall d: string { MembersStep(cs, index, Text(d)); }
      var key := LogicalDatabase(cs[index]);
      if Groups(key) {
        var members := if key.text in byDatabase then byDatabase[key.text] else [];
        byDatabase := byDatabase[key.text := members + [cs[index].schema]];
      }
    }
    assert cs[..|cs|] == cs;
  }

  /** The check of one group. */
  method CheckGroup(database: string, schemas: seq<Field>) returns (problems: seq<Problem>)
    ensures problems == [] <==> Separate(schemas)
    ensures forall p :: p in problems <==>
              (p == WithoutSchema(database) && Unschemed(schemas)) || (p == SchemaTwice(database) && Repeats(schemas))
  {
    problems := [];
    if |schemas| < 2 { return; }
    var unschemed, twice := false, false;
    for at := 0 to |schemas|
      invariant unschemed <==> exists i :: 0 <= i < at && schemas[i].Missing?
      invariant twice <==> exists i, j :: 0 <= i < j < at && schemas[i] == schemas[j] && !schemas[j].Missing?
    {
      if schemas[at].Missing? { unschemed := true; }
      else if schemas[at] in schemas[..at] { twice := true; }
    }
    if unschemed { problems := problems + [WithoutSchema(database)]; }
    if twice { problems := problems + [SchemaTwice(database)]; }
  }

  /** A problem of one of the given groups. */
  ghost predicate GroupProblem(byDatabase: map<string, seq<Field>>, which: set<string>, p: Problem) {
    match p
    case WithoutSchema(d) => d in which && d in byDatabase && Unschemed(byDatabase[d])
    case SchemaTwice(d) => d in which && d in byDatabase && Repeats(byDatabase[d])
    case _ => false
  }

  /** The connection part of `validateDeclaration`: every problem there is and no other, and none exactly in the acceptable declarations. */
  method ValidateConnections(cs: seq<Connection>) returns (problems: seq<Problem>)
    ensures forall p :: p in problems <==> IsProblem(cs, p)
    ensures problems == [] <==> Acceptable(cs)
  {
    if cs == [] { return [NoConnections]; }
    problems := CheckFields(cs);
    var byDatabase := GroupByDatabase(cs);
    ghost var fieldsOk := problems == [];
    ghost var fields := problems;
    var todo := byDatabase.Keys;
    while todo != {}
      invariant todo <= byDatabase.Keys
      invariant problems == [] <==> fieldsOk && forall d :: d in byDatabase && d !in todo ==> Separate(byDatabase[d])
      invariant forall p :: p in problems <==> p in fields || GroupProblem(byDatabase, byDatabase.Keys - todo, p)
    {
      var d :| d in todo;
      var more := CheckGroup(d, byDatabase[d]);
      problems := problems + more;
      todo := todo - {d};
    }
    if fieldsOk { GroupsDecide(cs, byDatabase); }
  }

  /** Of well-formed connections the key of the grouping tells exactly which share a database. */
  lemma SharedIsLogical(a: Connection, b: Connection)
    requires NameOk(a.name) && DatabaseOk(a.database) && NameOk(b.name) && DatabaseOk(b.database)
    ensures ShareDatabase(a, b) <==> LogicalDatabase(a) == LogicalDatabase(b)
  {
  }

  lemma GroupsDecide(cs: seq<Connection>, byDatabase: map<string, seq<Field>>)
    requires Grouped(cs, byDatabase)
    requires FieldsOk(cs, |cs|)
    ensures (forall d :: d in byDatabase ==> Separate(byDatabase[d])) <==> (forall d: string :: ApartIn(cs, Text(d)))
    ensures (forall d: string :: ApartIn(cs, Text(d))) <==>
            (forall i, j :: 0 <= i < j < |cs| && ShareDatabase(cs[i], cs[j]) ==>
               !cs[i].schema.Missing? && !cs[j].schema.Missing? && cs[i].schema != cs[j].schema)
  {
    forall i, j | 0 <= i < j < |cs| ensures ShareDatabase(cs[i], cs[j]) <==> LogicalDatabase(cs[i]) == LogicalDatabase(cs[j]) {
      SharedIsLogical(cs[i], cs[j]);
    }
    forall i | 0 <= i < |cs| ensures Groups(LogicalDatabase(cs[i])) {
      var name := LogicalDatabase(cs[i]).text;
      assert Letter(name[0]) && !Space(name[0]);
    }
    forall d: string ensures ApartIn(cs, Text(d)) <==> (d in byDatabase ==> Separate(byDatabase[d])) {
      SeparateMembers(cs, Text(d));
      if Members(cs, Text(d)) != [] { var _ := MemberFrom(cs, Text(d), 0); }
    }
    forall i, j | 0 <= i < j < |cs| && LogicalDatabase(cs[i]) == LogicalDatabase(cs[j]) && ApartIn(cs, Text(LogicalDatabase(cs[i]).text))
      ensures !cs[i].schema.Missing? && !cs[j].schema.Missing? && cs[i].schema != cs[j].schema
    {
    }
  }

  /** The connection is grouped under this database. */
  predicate Inside(c: Connection, d: string) {
    c.database == Text(d) || (NoDatabase(c) && c.name == Text(d))
  }

  /** Somebody shares a database without a schema: the problem of a group, on the connections themselves. */
  lemma UnschemedInPlainWords(cs: seq<Connection>, d: string)
    ensures IsProblem(cs, WithoutSchema(d)) <==>
              Groups(Text(d)) && exists i, j :: 0 <= i < |cs| && 0 <= j < |cs| && i != j
                                                && Inside(cs[i], d) && Inside(cs[j], d) && cs[i].schema.Missing?
  {
    assert forall c: Connection :: Inside(c, d) <==> LogicalDatabase(c) == Text(d);
    var schemas := Members(cs, Text(d));
    hide LogicalDatabase, Inside, Groups, Members;
    if Unschemed(schemas) {
      var k :| 0 <= k < |schemas| && schemas[k].Missing?;
      var i := MemberFrom(cs, Text(d), k);
      var j := MemberFrom(cs, Text(d), if k == 0 then 1 else 0);
      assert i != j && Inside(cs[i], d) && Inside(cs[j], d);
    }
    if i, j :| 0 <= i < |cs| && 0 <= j < |cs| && i != j && Inside(cs[i], d) && Inside(cs[j], d) && cs[i].schema.Missing? {
      TwoMembers(cs, d, if i < j then i else j, if i < j then j else i);
    }
  }

  /** Two connections of a database have the same schema: the other problem of a group. */
  lemma RepeatsInPlainWords(cs: seq<Connection>, d: string)
    ensures IsProblem(cs, SchemaTwice(d)) <==>
              Groups(Text(d)) && exists i, j :: 0 <= i < j < |cs| && Inside(cs[i], d) && Inside(cs[j], d)
                                                && !cs[i].schema.Missing? && cs[i].schema == cs[j].schema
  {
    assert forall c: Connection :: Inside(c, d) <==> LogicalDatabase(c) == Text(d);
    var schemas := Members(cs, Text(d));
    hide LogicalDatabase, Inside, Groups, Members;
    if Repeats(schemas) {
      var k, m :| 0 <= k < m < |schemas| && schemas[k] == schemas[m] && !schemas[m].Missing?;
      var i := MemberFrom(cs, Text(d), k);
      var j := MemberFrom(cs, Text(d), m);
      if j <= i { MembersGrow(cs, Text(d), j, i); }
      assert i < j && Inside(cs[i], d) && Inside(cs[j], d);
    }
    if i, j :| 0 <= i < j < |cs| && Inside(cs[i], d) && Inside(cs[j], d) && !cs[i].schema.Missing? && cs[i].schema == cs[j].schema {
      TwoMembers(cs, d, i, j);
    }
  }

  lemma TwoMembers(cs: seq<Connection>, d: string, i: nat, j: nat)
    requires i < j < |cs| && Inside(cs[i], d) && Inside(cs[j], d)
    ensures var schemas, k, m := Members(cs, Text(d)), |Members(cs[..i], Text(d))|, |Members(cs[..j], Text(d))|;
            k < m < |schemas| && schemas[k] == cs[i].schema && schemas[m] == cs[j].schema
  {
    MemberAt(cs, Text(d), i);
    MemberAt(cs, Text(d), j);
    MemberAt(cs[..j], Text(d), i);
    assert cs[..j][..i] == cs[..i];
  }

  /** A shared database is found whatever names it: of two connections in one, without two different schemas, something is reported. */
  lemma SharedWithoutSchemasIsReported(cs: seq<Connection>, problems: seq<Problem>, i: nat, j: nat)
    requires problems == [] <==> Acceptable(cs)
    requires i < j < |cs| && !(cs[i].schema.Text? && cs[j].schema.Text? && cs[i].schema != cs[j].schema)
    requires || (cs[i].database.Text? && cs[i].database == cs[j].database)
             || (cs[i].database.Text? && cs[j].database.Missing? && cs[j].name == cs[i].database)
             || (cs[j].database.Text? && cs[i].database.Missing? && cs[i].name == cs[j].database)
    ensures problems != []
  {
    if problems == [] {
      PlacesDiffer(cs, i, j);
    }
  }

  /** What counts as a name, a database or a schema, on examples of every kind. */
  lemma FieldExamples()
    ensures NameOk(Text("orders")) && NameOk(Text("a_1")) && NameOk(Text("Z"))
    ensures !NameOk(Text("")) && !NameOk(Text("1a")) && !NameOk(Text("_a")) && !NameOk(Text("a-b")) && !NameOk(Missing) && !NameOk(Null)
    ensures forall n :: !NameOk(Other(n)) && !DatabaseOk(Other(n)) && !SchemaOk(Other(n))
    ensures DatabaseOk(Missing) && !DatabaseOk(Null) && DatabaseOk(Text("shop")) && !DatabaseOk(Text("sh op"))
    ensures SchemaOk(Missing) && !SchemaOk(Null) && SchemaOk(Text("sales")) && !SchemaOk(Text("public")) && !SchemaOk(Text("pg_x"))
    ensures !Groups(Text("")) && !Groups(Text(" \t")) && Groups(Text(" x")) && !Groups(Missing) && !Groups(Null)
  {
    assert "a-b"[1] == '-' && "sh op"[2] == ' ' && " x"[1] == 'x' && "pg_" <= "pg_x";
  }

  // ---- Provisioning ----

  /** The login of a connection with a schema of its own. */
  datatype Login = Login(schema: string, user: string)

  /** What the provisioning recorded: each connection's stored database, and the logins of those with a schema. */
  datatype Run = Run(databases: map<string, string>, schemas: map<string, Login>)

  function Prefixed(snake: string, name: string): string {
    snake + "_" + name
  }

  lemma PrefixedIsInjective(snake: string, a: string, b: string)
    requires Prefixed(snake, a) == Prefixed(snake, b)
    ensures a == b
  {
    assert Prefixed(snake, a)[|snake| + 1..] == a && Prefixed(snake, b)[|snake| + 1..] == b;
  }

  function TextOf(f: Field): string {
    if f.Text? then f.text else ""
  }

  /** What the provisioning recorded of one connection. */
  predicate Recorded(c: Connection, snake: string, run: Run) {
    var n := TextOf(c.name);
    && n in run.databases && run.databases[n] == Prefixed(snake, if c.database.Text? then c.database.text else n)
    && (n in run.schemas <==> !c.schema.Missing?)
    && (n in run.schemas ==> run.schemas[n] == Login(TextOf(c.schema), Prefixed(snake, n)))
  }

  /** The run of a provisioned declaration. */
  ghost predicate Provisioned(cs: seq<Connection>, snake: string, run: Run) {
    && (forall i :: 0 <= i < |cs| ==> Recorded(cs[i], snake, run))
    && (forall n :: n in run.databases || n in run.schemas ==> exists i :: 0 <= i < |cs| && cs[i].name == Text(n))
  }

  /** What makes cuts reach one connection: a database without schemas has one connection, and logins are never shared. */
  predicate Isolated(run: Run) {
    && (forall n :: n in run.schemas ==> n in run.databases)
    && (forall m, n :: m in run.databases && n in run.databases && m != n && run.databases[m] == run.databases[n] ==>
          m in run.schemas && n in run.schemas && run.schemas[m].schema != run.schemas[n].schema)
    && (forall m, n :: m in run.schemas && n in run.schemas && m != n ==> run.schemas[m].user != run.schemas[n].user)
  }

  predicate Apart(run: Run, m: string, n: string)
    requires m in run.databases && n in run.databases
  {
    && (run.databases[m] == run.databases[n] ==> m in run.schemas && n in run.schemas && run.schemas[m].schema != run.schemas[n].schema)
    && (m in run.schemas && n in run.schemas ==> run.schemas[m].user != run.schemas[n].user)
  }

  /** Where an accepted connection keeps its tables, on the fields of the declaration: (database or name, schema or public). */
  function Place(c: Connection): (string, string)
    requires NameOk(c.name) && DatabaseOk(c.database) && SchemaOk(c.schema)
  {
    (if c.database.Text? then c.database.text else c.name.text, if c.schema.Text? then c.schema.text else "public")
  }

  /** Acceptance makes the places of connections differ, and two connections of one database both have a schema of their own. */
  lemma PlacesDiffer(cs: seq<Connection>, i: nat, j: nat)
    requires Acceptable(cs) && i < j < |cs|
    ensures Place(cs[i]) != Place(cs[j])
    ensures Place(cs[i]).0 == Place(cs[j]).0 ==> cs[i].schema.Text? && cs[j].schema.Text? && cs[i].schema != cs[j].schema
  {
    if Place(cs[i]).0 == Place(cs[j]).0 {
      assert ShareDatabase(cs[i], cs[j]);
    }
  }

  lemma TwoAreApart(cs: seq<Connection>, snake: string, run: Run, i: nat, j: nat)
    requires Acceptable(cs) && i < j < |cs| && Recorded(cs[i], snake, run) && Recorded(cs[j], snake, run)
    ensures Apart(run, TextOf(cs[i].name), TextOf(cs[j].name))
  {
    var m, n := TextOf(cs[i].name), TextOf(cs[j].name);
    assert cs[i].name != cs[j].name;
    if Prefixed(snake, m) == Prefixed(snake, n) { PrefixedIsInjective(snake, m, n); }
    if run.databases[m] == run.databases[n] {
      PrefixedIsInjective(snake, if cs[i].database.Text? then cs[i].database.text else m,
                          if cs[j].database.Text? then cs[j].database.text else n);
      assert ShareDatabase(cs[i], cs[j]);
    }
  }

  lemma IndexOf(cs: seq<Connection>, snake: string, run: Run, n: string) returns (i: nat)
    requires Provisioned(cs, snake, run) && (n in run.databases || n in run.schemas)
    ensures i < |cs| && cs[i].name == Text(n) && Recorded(cs[i], snake, run)
  {
    i :| i < |cs| && cs[i].name == Text(n);
  }

  /** An accepted declaration provisions an isolated run: (database, schema or public) tells its connections apart. */
  lemma AcceptedIsIsolated(cs: seq<Connection>, snake: string, run: Run)
    requires Acceptable(cs) && Provisioned(cs, snake, run)
    ensures Isolated(run)
  {
    hide Acceptable, Provisioned, Apart, Recorded;
    forall n | n in run.schemas ensures n in run.databases {
      InDatabases(cs, snake, run, n);
    }
    forall m, n | m in run.databases && n in run.databases && m != n ensures Apart(run, m, n) {
      var i := IndexOf(cs, snake, run, m);
      var j := IndexOf(cs, snake, run, n);
      if i < j {
        TwoAreApart(cs, snake, run, i, j);
      } else {
        TwoAreApart(cs, snake, run, j, i);
        ApartIsSymmetric(run, n, m);
      }
    }
    ApartIsIsolated(run);
  }

  lemma InDatabases(cs: seq<Connection>, snake: string, run: Run, n: string)
    requires Provisioned(cs, snake, run) && n in run.schemas
    ensures n in run.databases
  {
    var i := IndexOf(cs, snake, run, n);
  }

  lemma ApartIsSymmetric(run: Run, m: string, n: string)
    requires m in run.databases && n in run.databases && Apart(run, m, n)
    ensures Apart(run, n, m)
  {
  }

  lemma ApartIsIsolated(run: Run)
    requires forall n :: n in run.schemas ==> n in run.databases
    requires forall m, n :: m in run.databases && n in run.databases && m != n ==> Apart(run, m, n)
    ensures Isolated(run)
  {
    forall m, n | m in run.databases && n in run.databases && m != n && run.databases[m] == run.databases[n]
      ensures m in run.schemas && n in run.schemas && run.schemas[m].schema != run.schemas[n].schema
    {
      assert Apart(run, m, n);
    }
    forall m, n | m in run.schemas && n in run.schemas && m != n ensures run.schemas[m].user != run.schemas[n].user {
      assert Apart(run, m, n);
    }
  }

  // ---- The server ----

  /** A session is known by its login (none for the superuser) and its database. */
  datatype Session = Session(user: string, database: string, id: nat)

  datatype Flags = Flags(closed: set<string>, noLogin: set<string>)

  /** The connection cannot be opened. */
  predicate Blocked(run: Run, f: Flags, n: string)
    requires n in run.databases
  {
    run.databases[n] in f.closed || (n in run.schemas && run.schemas[n].user in f.noLogin)
  }

  function Cut(run: Run, f: Flags, n: string): Flags
    requires n in run.databases
  {
    if n in run.schemas then f.(noLogin := f.noLogin + {run.schemas[n].user}) else f.(closed := f.closed + {run.databases[n]})
  }

  function Uncut(run: Run, f: Flags, n: string): Flags
    requires n in run.databases
  {
    if n in run.schemas then f.(noLogin := f.noLogin - {run.schemas[n].user}) else f.(closed := f.closed - {run.databases[n]})
  }

  function UncutAll(run: Run, f: Flags, names: seq<string>): Flags
    requires forall i :: 0 <= i < |names| ==> names[i] in run.databases
  {
    if names == [] then f else Uncut(run, UncutAll(run, f, names[..|names| - 1]), names[|names| - 1])
  }

  predicate Declared(run: Run, names: seq<string>) {
    forall i :: 0 <= i < |names| ==> names[i] in run.databases
  }

  /** The order of the statements of `restoreConnections`: databases first, then logins. */
  function RestoreOrder(run: Run, names: seq<string>): seq<string> {
    Unshared(run, names) + Shared(run, names)
  }

  function Unshared(run: Run, names: seq<string>): seq<string> {
    if names == [] then []
    else Unshared(run, names[..|names| - 1]) + (if names[|names| - 1] in run.schemas then [] else [names[|names| - 1]])
  }

  function Shared(run: Run, names: seq<string>): seq<string> {
    if names == [] then []
    else Shared(run, names[..|names| - 1]) + (if names[|names| - 1] in run.schemas then [names[|names| - 1]] else [])
  }

  lemma {:induction false} OrderKeepsNames(run: Run, names: seq<string>)
    ensures forall n :: n in RestoreOrder(run, names) <==> n in names
    ensures forall n :: n in Unshared(run, names) <==> n in names && n !in run.schemas
    ensures forall n :: n in Shared(run, names) <==> n in names && n in run.schemas
    decreases |names|
  {
    if names != [] {
      OrderKeepsNames(run, names[..|names| - 1]);
      assert names == names[..|names| - 1] + [names[|names| - 1]];
    }
  }

  /** One call: a cut, or a restore of several connections, and how many of its statements took effect. */
  datatype Call = CutCall(connection: string, reached: nat) | RestoreCall(names: seq<string>, reached: nat)

  /** The connections a restore brings back, in the order of its statements. */
  function Reached(run: Run, names: seq<string>, reached: nat): (order: seq<string>)
    ensures forall i :: 0 <= i < |order| ==> order[i] in run.databases
  {
    if !Declared(run, names) then []
    else
      OrderKeepsNames(run, names);
      var order := RestoreOrder(run, names);
      assert forall i :: 0 <= i < |order| ==> order[i] in names;
      order[..if reached < |order| then reached else |order|]
  }

  /** The flags a call leaves. */
  function FlagsOf(run: Run, f: Flags, call: Call): Flags {
    match call
    case CutCall(n, reached) => if n in run.databases && reached >= 1 then Cut(run, f, n) else f
    case RestoreCall(names, reached) => UncutAll(run, f, Reached(run, names, reached))
  }

  /** The session is one that a cut of the connection ends. */
  predicate IsOf(run: Run, n: string, s: Session)
    requires n in run.databases
  {
    s.database == run.databases[n] && (n in run.schemas ==> s.user == run.schemas[n].user)
  }

  /** Every statement may fail; the ones before it took effect. */
  class Postgres {
    var closed: set<string>
    var noLogin: set<string>
    var sessions: set<Session>

    constructor ()
      ensures View() == Flags({}, {}) && sessions == {}
    {
      closed, noLogin, sessions := {}, {}, {};
    }

    function View(): Flags
      reads this
    {
      Flags(closed, noLogin)
    }

    /** Takes one declared connection down. `reached` says how many of the two statements took effect. */
    method CutConnection(run: Run, n: string, reached: nat) returns (ok: bool)
      modifies this
      ensures ok == (n in run.databases && reached >= 2)
      ensures View() == FlagsOf(run, old(View()), CutCall(n, reached))
      ensures sessions == if ok then set s | s in old(sessions) && !IsOf(run, n, s) else old(sessions)
      ensures ok ==> forall s :: s in sessions <==>
                s in old(sessions) && !(s.database == run.databases[n] && (n in run.schemas ==> s.user == run.schemas[n].user))
    {
      ok := false;
      if n !in run.databases { return; }
      var database := run.databases[n];
      if n !in run.schemas {
        if reached < 1 { return; }
        closed := closed + {database};
        if reached < 2 { return; }
        sessions := set s | s in sessions && s.database != database;
      } else {
        var login := run.schemas[n];
        if reached < 1 { return; }
        noLogin := noLogin + {login.user};
        if reached < 2 { return; }
        sessions := set s | s in sessions && !(s.user == login.user && s.database == database);
      }
      ok := true;
    }

    method RestoreDatabases(run: Run, names: seq<string>, reached: nat) returns (ok: bool)
      requires forall i :: 0 <= i < |names| ==> names[i] in run.databases && names[i] !in run.schemas
      modifies this
      ensures ok == (reached >= |names|) && noLogin == old(noLogin) && sessions == old(sessions)
      ensures View() == UncutAll(run, old(View()), names[..if ok then |names| else reached])
    {
      for i := 0 to |names|
        invariant i <= reached && noLogin == old(noLogin) && sessions == old(sessions)
        invariant View() == UncutAll(run, old(View()), names[..i])
      {
        if i >= reached { return false; }
        assert names[..i + 1][..i] == names[..i];
        closed := closed - {run.databases[names[i]]};
      }
      ok := true;
    }

    /** The logins at the end of `order`, from `done` on, log in again. */
    method RestoreLogins(run: Run, order: seq<string>, done: nat, reached: nat) returns (ok: bool)
      requires done <= |order| && done <= reached && forall i :: 0 <= i < |order| ==> order[i] in run.databases
      requires forall i :: done <= i < |order| ==> order[i] in run.schemas
      modifies this
      ensures ok == (reached >= |order|) && sessions == old(sessions)
      ensures forall f: Flags :: old(View()) == UncutAll(run, f, order[..done]) ==>
                View() == UncutAll(run, f, order[..if ok then |order| else reached])
    {
      for i := done to |order|
        invariant i <= reached && sessions == old(sessions)
        invariant forall f: Flags :: old(View()) == UncutAll(run, f, order[..done]) ==> View() == UncutAll(run, f, order[..i])
      {
        if i >= reached { return false; }
        assert order[..i + 1][..i] == order[..i];
        noLogin := noLogin - {run.schemas[order[i]].user};
      }
      ok := true;
    }

    /** Brings connections back. `reached` says how many statements took effect; a name that is not declared fails before the first. */
    method RestoreConnections(run: Run, names: seq<string>, reached: nat) returns (ok: bool)
      modifies this
      ensures sessions == old(sessions)
      ensures ok == (Declared(run, names) && reached >= |RestoreOrder(run, names)|)
      ensures View() == FlagsOf(run, old(View()), RestoreCall(names, reached))
    {
      if !Declared(run, names) { return false; }
      hide UncutAll;
      var databases, order := Unshared(run, names), RestoreOrder(run, names);
      OrderKeepsNames(run, names);
      assert forall i :: 0 <= i < |order| ==> order[i] in names;
      assert order[..|databases|] == databases && databases[..|databases|] == databases;
      ok := RestoreDatabases(run, databases, reached);
      if !ok {
        assert order[..reached] == databases[..reached];
        return;
      }
      assert forall i :: |databases| <= i < |order| ==> order[i] in Shared(run, names);
      ok := RestoreLogins(run, order, |databases|, reached);
    }
  }

  // ---- Every sequence of outages ----

  /** A statement that took effect: the flag of one connection set or cleared. */
  datatype Event = Down(connection: string) | Up(connection: string)

  function FlagsAfter(run: Run, events: seq<Event>): Flags
    requires forall i :: 0 <= i < |events| ==> events[i].connection in run.databases
  {
    if events == [] then Flags({}, {})
    else
      var f := FlagsAfter(run, events[..|events| - 1]);
      match events[|events| - 1]
      case Down(n) => Cut(run, f, n)
      case Up(n) => Uncut(run, f, n)
  }

  /** The connections whose last statement took them down. */
  function DownAfter(events: seq<Event>): set<string> {
    if events == [] then {}
    else match events[|events| - 1]
      case Down(n) => DownAfter(events[..|events| - 1]) + {n}
      case Up(n) => DownAfter(events[..|events| - 1]) - {n}
  }

  /** Isolation: after any cuts and restores, exactly the connections that are down are blocked, and never a neighbour. */
  lemma {:induction false} BlockedIsDown(run: Run, events: seq<Event>, n: string)
    requires Isolated(run) && n in run.databases
    requires forall i :: 0 <= i < |events| ==> events[i].connection in run.databases
    ensures Blocked(run, FlagsAfter(run, events), n) <==> n in DownAfter(events)
    decreases |events|
  {
    if events != [] {
      BlockedIsDown(run, events[..|events| - 1], n);
      OwnFlagOnly(run, FlagsAfter(run, events[..|events| - 1]), events[|events| - 1].connection, n);
      FlagsOnlyOfUnshared(run, events[..|events| - 1]);
    }
  }

  /** Setting or clearing the flag of one connection decides that connection and no other. */
  lemma OwnFlagOnly(run: Run, f: Flags, m: string, n: string)
    requires Isolated(run) && m in run.databases && n in run.databases
    ensures Blocked(run, Cut(run, f, m), m)
    ensures m != n ==> Blocked(run, Cut(run, f, m), n) == Blocked(run, f, n)
    ensures m != n ==> Blocked(run, Uncut(run, f, m), n) == Blocked(run, f, n)
  {
  }

  /** Only databases without schemas are ever closed. */
  lemma {:induction false} FlagsOnlyOfUnshared(run: Run, events: seq<Event>)
    requires Isolated(run) && forall i :: 0 <= i < |events| ==> events[i].connection in run.databases
    ensures forall n :: n in run.schemas ==> run.databases[n] !in FlagsAfter(run, events).closed
    decreases |events|
  {
    if events != [] { FlagsOnlyOfUnshared(run, events[..|events| - 1]); }
  }

  /** A cut ends every session of its connection and no session of another. */
  lemma CutEndsOwnSessionsOnly(run: Run, n: string, m: string, s: Session)
    requires Isolated(run) && n in run.databases && m in run.databases && m != n
    requires IsOf(run, m, s)
    ensures !IsOf(run, n, s)
  {
  }

  /** From the declaration to the outage: what validation accepts, and only the provisioning in between, keeps neighbours up. */
  lemma AcceptedNeighboursStayUp(cs: seq<Connection>, snake: string, run: Run, events: seq<Event>, n: string)
    requires Acceptable(cs) && Provisioned(cs, snake, run) && n in run.databases
    requires forall i :: 0 <= i < |events| ==> events[i].connection in run.databases
    ensures Blocked(run, FlagsAfter(run, events), n) <==> n in DownAfter(events)
  {
    hide Acceptable, Provisioned, Isolated, FlagsAfter, DownAfter;
    AcceptedIsIsolated(cs, snake, run);
    BlockedIsDown(run, events, n);
  }

  // ---- Every sequence of calls ----

  function FlagsAfterCalls(run: Run, calls: seq<Call>): Flags {
    if calls == [] then Flags({}, {}) else FlagsOf(run, FlagsAfterCalls(run, calls[..|calls| - 1]), calls[|calls| - 1])
  }

  function Ups(names: seq<string>): (events: seq<Event>)
    ensures |events| == |names| && forall i :: 0 <= i < |names| ==> events[i] == Up(names[i])
  {
    if names == [] then [] else Ups(names[..|names| - 1]) + [Up(names[|names| - 1])]
  }

  /** The statements of a call that took effect. */
  function Statements(run: Run, call: Call): (events: seq<Event>)
    ensures forall i :: 0 <= i < |events| ==> events[i].connection in run.databases
  {
    match call
    case CutCall(n, reached) => if n in run.databases && reached >= 1 then [Down(n)] else []
    case RestoreCall(names, reached) => Ups(Reached(run, names, reached))
  }

  function AllStatements(run: Run, calls: seq<Call>): (events: seq<Event>)
    ensures forall i :: 0 <= i < |events| ==> events[i].connection in run.databases
  {
    if calls == [] then [] else AllStatements(run, calls[..|calls| - 1]) + Statements(run, calls[|calls| - 1])
  }

  lemma {:induction false} UpsAreUncuts(run: Run, events: seq<Event>, names: seq<string>)
    requires forall i :: 0 <= i < |events| ==> events[i].connection in run.databases
    requires forall i :: 0 <= i < |names| ==> names[i] in run.databases
    ensures FlagsAfter(run, events + Ups(names)) == UncutAll(run, FlagsAfter(run, events), names)
    decreases |names|
  {
    if names == [] {
      assert events + Ups(names) == events;
    } else {
      var front := names[..|names| - 1];
      UpsAreUncuts(run, events, front);
      var all := events + Ups(names);
      assert all[..|all| - 1] == events + Ups(front) && all[|all| - 1] == Up(names[|names| - 1]);
    }
  }

  /** Calls leave the flags that their statements leave, one after the other. */
  lemma {:induction false} CallsAreStatements(run: Run, calls: seq<Call>)
    ensures FlagsAfterCalls(run, calls) == FlagsAfter(run, AllStatements(run, calls))
    decreases |calls|
  {
    if calls != [] {
      var front, last := calls[..|calls| - 1], calls[|calls| - 1];
      CallsAreStatements(run, front);
      var before := AllStatements(run, front);
      match last {
        case CutCall(n, reached) =>
          if n in run.databases && reached >= 1 {
            var all := before + [Down(n)];
            assert all[..|all| - 1] == before;
          } else {
            assert before + [] == before;
          }
        case RestoreCall(names, reached) => UpsAreUncuts(run, before, Reached(run, names, reached));
      }
    }
  }

  /** The connections a sequence of calls leaves down: those whose last statement, in any call, took them down. */
  function DownAfterCalls(run: Run, calls: seq<Call>): set<string> {
    if calls == [] then {}
    else
      var before := DownAfterCalls(run, calls[..|calls| - 1]);
      match calls[|calls| - 1]
      case CutCall(n, reached) => if n in run.databases && reached >= 1 then before + {n} else before
      case RestoreCall(names, reached) => before - (set n | n in Reached(run, names, reached))
  }

  lemma ElementsLast(front: seq<string>, last: string)
    ensures (set n | n in front + [last]) == (set n | n in front) + {last}
  {
  }

  lemma {:induction false} UpsAreUp(events: seq<Event>, names: seq<string>)
    ensures DownAfter(events + Ups(names)) == DownAfter(events) - (set n | n in names)
    decreases |names|
  {
    if names == [] {
      assert events + Ups(names) == events;
    } else {
      var front, last := names[..|names| - 1], names[|names| - 1];
      UpsAreUp(events, front);
      var all := events + Ups(names);
      assert Ups(names) == Ups(front) + [Up(last)];
      hide Ups;
      assert all[..|all| - 1] == events + Ups(front) && all[|all| - 1] == Up(last);
      ElementsLast(front, last);
      assert front + [last] == names;
    }
  }

  lemma {:induction false} DownByCalls(run: Run, calls: seq<Call>)
    ensures DownAfterCalls(run, calls) == DownAfter(AllStatements(run, calls))
    decreases |calls|
  {
    if calls != [] {
      var front, last := calls[..|calls| - 1], calls[|calls| - 1];
      DownByCalls(run, front);
      var before := AllStatements(run, front);
      match last {
        case CutCall(n, reached) =>
          if n in run.databases && reached >= 1 {
            var all := before + [Down(n)];
            assert all[..|all| - 1] == before;
          } else {
            assert before + [] == before;
          }
        case RestoreCall(names, reached) => UpsAreUp(before, Reached(run, names, reached));
      }
    }
  }

  /**
   Isolation of whole calls: in every accepted declaration, after any cuts and restores, each stopped by a failure anywhere or not,
   a connection is blocked exactly when it is left down itself.
  */
  lemma CallsBlockExactly(cs: seq<Connection>, snake: string, run: Run, calls: seq<Call>, n: string)
    requires Acceptable(cs) && Provisioned(cs, snake, run) && n in run.databases
    ensures Blocked(run, FlagsAfterCalls(run, calls), n) <==> n in DownAfterCalls(run, calls)
  {
    hide Acceptable, Provisioned, Isolated, FlagsAfter, DownAfter, Blocked;
    CallsAreStatements(run, calls);
    DownByCalls(run, calls);
    AcceptedNeighboursStayUp(cs, snake, run, AllStatements(run, calls), n);
  }

  /** The server after a sequence of calls, the flags as the calls say. */
  method PerformCalls(server: Postgres, run: Run, calls: seq<Call>)
    requires server.View() == Flags({}, {})
    modifies server
    ensures server.View() == FlagsAfterCalls(run, calls)
  {
    for i := 0 to |calls|
      invariant server.View() == FlagsAfterCalls(run, calls[..i])
    {
      assert calls[..i + 1][..i] == calls[..i];
      match calls[i] {
        case CutCall(n, reached) => var _ := server.CutConnection(run, n, reached);
        case RestoreCall(names, reached) => var _ := server.RestoreConnections(run, names, reached);
      }
    }
    assert calls[..|calls|] == calls;
  }

  lemma CountOneMore(u: seq<string>, s: seq<string>, x: string)
    ensures multiset(u + [x] + s) == multiset(u + s) + multiset{x}
    ensures multiset((u + s) + [x]) == multiset(u + s) + multiset{x}
  {
  }

  lemma OrderLast(run: Run, front: seq<string>, last: string)
    ensures RestoreOrder(run, front + [last])
         == if last in run.schemas then (Unshared(run, front) + Shared(run, front)) + [last]
            else Unshared(run, front) + [last] + Shared(run, front)
  {
    assert (front + [last])[..|front|] == front;
  }

  lemma {:induction false} OrderCounts(run: Run, names: seq<string>)
    ensures multiset(RestoreOrder(run, names)) == multiset(names)
    decreases |names|
  {
    if names != [] {
      var front, last := names[..|names| - 1], names[|names| - 1];
      OrderCounts(run, front);
      OrderLast(run, front, last);
      hide Unshared, Shared;
      assert names == front + [last];
      CountOneMore(Unshared(run, front), Shared(run, front), last);
    }
  }

  /** A restore that is not stopped takes one statement a connection, those of databases before those of logins. */
  lemma RestoreOrderIsComplete(run: Run, names: seq<string>)
    ensures multiset(RestoreOrder(run, names)) == multiset(names) && |RestoreOrder(run, names)| == |names|
    ensures forall i, j :: 0 <= i < j < |names| && RestoreOrder(run, names)[i] in run.schemas ==> RestoreOrder(run, names)[j] in run.schemas
  {
    OrderCounts(run, names);
    OrderKeepsNames(run, names);
    hide Unshared, Shared;
    var a, b := Unshared(run, names), Shared(run, names);
    var order := RestoreOrder(run, names);
    assert |multiset(order)| == |order| && |multiset(names)| == |names|;
    forall i, j | 0 <= i < j < |names| && order[i] in run.schemas ensures order[j] in run.schemas {
      assert order[j] == b[j - |a|] && b[j - |a|] in b;
    }
  }

  /** After a restore that was not stopped none of its connections is down; before it has any effect all are as they were. */
  lemma RestoreBringsAllBack(run: Run, calls: seq<Call>, names: seq<string>, reached: nat, n: string)
    requires Declared(run, names)
    ensures reached >= |names| && n in names ==> n !in DownAfterCalls(run, calls + [RestoreCall(names, reached)])
    ensures n !in names || reached == 0 ==>
              (n in DownAfterCalls(run, calls + [RestoreCall(names, reached)]) <==> n in DownAfterCalls(run, calls))
  {
    var all := calls + [RestoreCall(names, reached)];
    assert all[..|all| - 1] == calls;
    RestoreOrderIsComplete(run, names);
    OrderKeepsNames(run, names);
    var order := RestoreOrder(run, names);
    if reached >= |names| { assert order[..|order|] == order; }
  }

  /** A cut that took effect leaves its connection down, and no other. */
  lemma CutTakesDown(run: Run, calls: seq<Call>, c: string, reached: nat, n: string)
    requires c in run.databases
    ensures n in DownAfterCalls(run, calls + [CutCall(c, reached)]) <==> n in DownAfterCalls(run, calls) || (n == c && reached >= 1)
  {
    var all := calls + [CutCall(c, reached)];
    assert all[..|all| - 1] == calls;
  }
}

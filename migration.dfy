/** src/Generator/Model/GeneratorMigration.php without the database and the file write: which
  * columns and indexes a create migration declares, and the diff an update migration applies
  * (columns to add and to remove, indexes to add and to change, the file name, the no-change
  * check). The table's column list and its index map are inputs. */
module Migration {
  import opened Wrappers
  import opened Text
  import opened Seqs
  import opened Keyed
  import opened Errors
  import opened Enums
  import opened Collaborators
  import opened Definitions
  import opened Properties
  import opened PropertyCollection
  import opened Layout

  // ---- column statements ----

  /** `('name', precision: 6)` and the like: the column's name and the options its type needs (:47-50). */
  function ColumnArguments(p: PropertyDefinition): string {
    "('" + p.name + "'"
    + (if p.propertyType == Timestamp then ", precision: 6" else "")
    + (if p.propertyType == Ulid then ", length: 30" else "")
    + ")"
  }

  function Nullability(p: PropertyDefinition): string {
    if p.isRequired then "" else "->nullable()"
  }

  /** `$table->type('name'…)->nullable()` for a property, without the closing `;` (:44-51). */
  function ColumnStatement(env: Environment, p: PropertyDefinition): Result<string, Error> {
    var t :- ToColumnType(env, p);
    Ok("$table->" + t + ColumnArguments(p) + Nullability(p))
  }

  predicate EndsNullable(stmt: string) {
    |stmt| >= 12 && stmt[|stmt| - 12..] == "->nullable()"
  }

  /** The arguments close with a `)` that does not follow a `(`. */
  lemma {:induction false} ColumnArgumentsEnd(p: PropertyDefinition)
    ensures |ColumnArguments(p)| >= 4
    ensures ColumnArguments(p)[|ColumnArguments(p)| - 2] != '('
  {
    var head := "('" + p.name + "'"
      + (if p.propertyType == Timestamp then ", precision: 6" else "")
      + (if p.propertyType == Ulid then ", length: 30" else "");
    assert ColumnArguments(p) == head + ")";
    assert head[|head| - 1] in {'\'', '6', '0'};
  }

  /** A column is declared nullable iff its property is not required, with the type
    * `toColumnType` gives. */
  lemma {:induction false} ColumnStatementShape(env: Environment, p: PropertyDefinition)
    requires ColumnStatement(env, p).Ok?
    ensures EndsNullable(ColumnStatement(env, p).value) <==> !p.isRequired
    ensures ToColumnType(env, p).Ok?
    ensures ColumnStatement(env, p).value[..8 + |ToColumnType(env, p).value|] == "$table->" + ToColumnType(env, p).value
  {
    var t := ToColumnType(env, p).value;
    var args := ColumnArguments(p);
    var stmt := ColumnStatement(env, p).value;
    assert stmt == ("$table->" + t) + args + Nullability(p);
    ColumnArgumentsEnd(p);
    if p.isRequired {
      assert stmt == ("$table->" + t) + args;
      assert stmt[|stmt| - 2] == args[|args| - 2];
    }
  }

  /** The line the migration body gets for a column: after the previous column, when there is one (:114-127). */
  function ColumnLine(env: Environment, p: PropertyDefinition, previous: Option<PropertyDefinition>): Result<string, Error> {
    var stmt :- ColumnStatement(env, p);
    Ok(Indent(3) + stmt + (match previous case Some(q) => "->after('" + q.name + "')" case None => "") + ";" + Eol)
  }

  // ---- the create migration ----

  /** A property that has a column: neither computed nor media. */
  predicate Stored(p: PropertyDefinition) {
    !p.isComputed && !IsMedia(p)
  }

  /** `getNonComputed()->getNonMedia()`. */
  function StoredProperties(ps: seq<PropertyDefinition>): (r: seq<PropertyDefinition>)
    ensures forall p :: p in r <==> p in ps && Stored(p)
  {
    GetNonMedia(GetNonComputed(ps))
  }

  /** The column lines of `Schema::create`, one per property that has a column (:35-53). */
  function CreateColumnLines(env: Environment, ps: seq<PropertyDefinition>): Result<seq<string>, Error>
    decreases |ps|
  {
    if |ps| == 0 then Ok([])
    else
      var lines :- CreateColumnLines(env, ps[..|ps| - 1]);
      var p := ps[|ps| - 1];
      if !Stored(p) then Ok(lines)
      else
        var line :- ColumnLine(env, p, None);
        Ok(lines + [line])
  }

  /** The properties one after another, in collection order, with a column each. */
  predicate LinesFor(env: Environment, qs: seq<PropertyDefinition>, lines: seq<string>) {
    |lines| == |qs| && forall i :: 0 <= i < |qs| ==> ColumnLine(env, qs[i], None) == Ok(lines[i])
  }

  /** Adding a property adds it to the properties with a column when it has one. */
  lemma {:induction false} StoredSnoc(ps: seq<PropertyDefinition>, p: PropertyDefinition)
    ensures StoredProperties(ps + [p]) == StoredProperties(ps) + if Stored(p) then [p] else []
  {
    FilterSnoc(ps, p, NotComputed);
    if !p.isComputed {
      FilterSnoc(GetNonComputed(ps), p, NotMedia);
    } else {
      assert GetNonComputed(ps + [p]) == GetNonComputed(ps);
    }
  }

  /** The create migration declares one column per non-computed, non-media property, in
    * collection order. */
  lemma {:induction false} CreateColumnsSelect(env: Environment, ps: seq<PropertyDefinition>)
    requires CreateColumnLines(env, ps).Ok?
    ensures LinesFor(env, StoredProperties(ps), CreateColumnLines(env, ps).value)
    decreases |ps|
  {
    if |ps| > 0 {
      var init, p := ps[..|ps| - 1], ps[|ps| - 1];
      assert ps == init + [p];
      CreateColumnsSelect(env, init);
      StoredSnoc(init, p);
    }
  }

  /** A property whose column line cannot be built. */
  function NoColumn(env: Environment): PropertyDefinition -> bool {
    (q: PropertyDefinition) => ColumnLine(env, q, None).Err?
  }

  /** Building the create migration fails iff a non-computed, non-media property has no column type. */
  lemma {:induction false} CreateColumnsFail(env: Environment, ps: seq<PropertyDefinition>)
    ensures CreateColumnLines(env, ps).Err? <==> Any(StoredProperties(ps), NoColumn(env))
    decreases |ps|
  {
    if |ps| > 0 {
      var init, p := ps[..|ps| - 1], ps[|ps| - 1];
      assert ps == init + [p];
      CreateColumnsFail(env, init);
      StoredSnoc(init, p);
      if Stored(p) {
        AnySnoc(StoredProperties(init), p, NoColumn(env));
      } else {
        assert StoredProperties(ps) == StoredProperties(init) + [] == StoredProperties(init);
      }
    }
  }

  /** An index group on `id` alone is the primary key, which the table already has. */
  predicate PrimaryOnly(g: (string, seq<string>)) {
    g.1 == ["id"]
  }

  predicate NotPrimaryOnly(g: (string, seq<string>)) {
    !PrimaryOnly(g)
  }

  /** `unique` for a name in the table's unique list, else `index` (:68-72). */
  function IndexMethod(table: TableDefinition, name: string): string {
    if name in table.allUniqueIndexName then "unique" else "index"
  }

  /** The line declaring an index group (:66-75). */
  function IndexLine(table: TableDefinition, g: (string, seq<string>)): string {
    Indent(3) + "$table->" + IndexMethod(table, g.0) + "(['" + Join(g.1, "', '") + "'], '" + g.0 + "');" + Eol
  }

  function IndexLineOf(table: TableDefinition): ((string, seq<string>)) -> string {
    (g: (string, seq<string>)) => IndexLine(table, g)
  }

  /** Reading an index line back: it declares a unique index iff the group's name is in the
    * table's unique list. */
  lemma {:induction false} IndexLineUnique(table: TableDefinition, g: (string, seq<string>))
    ensures |IndexLine(table, g)| >= 26
    ensures IndexLine(table, g)[20..26] == "unique" <==> g.0 in table.allUniqueIndexName
  {
    var line := IndexLine(table, g);
    var rest := "(['" + Join(g.1, "', '") + "'], '" + g.0 + "');" + Eol;
    assert |Indent(3)| == 12;
    assert line == Indent(3) + "$table->" + IndexMethod(table, g.0) + rest;
    var head := Indent(3) + "$table->";
    assert |head| == 20;
    if g.0 !in table.allUniqueIndexName {
      assert line == head + ("index" + rest);
      assert line[20] == 'i';
    } else {
      assert line == head + ("unique" + rest);
      assert line[20..26] == "unique";
    }
  }

  /** The index lines of `Schema::create`: one per group, in group order, skipping `['id']` (:61-76). */
  function CreateIndexLines(table: TableDefinition, pairs: seq<(string, seq<string>)>): seq<string> {
    Map(Filter(pairs, NotPrimaryOnly), IndexLineOf(table))
  }

  /** What `Schema::create` declares: the columns, a blank line when there is any index group
    * (even one on `id` alone) and the indexes (:35-76). */
  function CreateBody(env: Environment, ps: seq<PropertyDefinition>, table: TableDefinition): Result<seq<string>, Error> {
    var columns :- CreateColumnLines(env, ps);
    var pairs := IndexPairs(ps);
    Ok(columns + (if |pairs| > 0 then [Eol] else []) + CreateIndexLines(table, pairs))
  }

  /** An error part-way through the column loop is the error of the whole. */
  lemma {:induction false} CreateColumnsAbort(env: Environment, ps: seq<PropertyDefinition>, n: nat)
    requires n <= |ps| && CreateColumnLines(env, ps[..n]).Err?
    ensures CreateColumnLines(env, ps) == CreateColumnLines(env, ps[..n])
    decreases |ps| - n
  {
    if n < |ps| {
      TakeNext(ps, n);
      assert ps[..n + 1][..n] == ps[..n];
      CreateColumnsAbort(env, ps, n + 1);
    } else {
      assert ps[..n] == ps;
    }
  }

  /** The column loop of `generateMigrationCreateIfNeeded`. */
  method AddCreateColumns(env: Environment, ps: seq<PropertyDefinition>) returns (r: Result<seq<string>, Error>)
    ensures r == CreateColumnLines(env, ps)
  {
    var lines: seq<string> := [];
    var i := 0;
    while i < |ps|
      invariant 0 <= i <= |ps|
      invariant CreateColumnLines(env, ps[..i]) == Ok(lines)
    {
      assert ps[..i + 1][..i] == ps[..i];
      var p := ps[i];
      if Stored(p) {
        var line := ColumnLine(env, p, None);
        if line.Err? {
          CreateColumnsAbort(env, ps, i + 1);
          return Err(line.error);
        }
        lines := lines + [line.value];
      }
      i := i + 1;
    }
    assert ps[..i] == ps;
    r := Ok(lines);
  }

  /** The index loop of `generateMigrationCreateIfNeeded`. */
  method AddCreateIndexes(table: TableDefinition, pairs: seq<(string, seq<string>)>) returns (lines: seq<string>)
    ensures lines == CreateIndexLines(table, pairs)
  {
    lines := [];
    var i := 0;
    while i < |pairs|
      invariant 0 <= i <= |pairs|
      invariant lines == CreateIndexLines(table, pairs[..i])
    {
      TakeNext(pairs, i);
      FilterSnoc(pairs[..i], pairs[i], NotPrimaryOnly);
      if pairs[i].1 != ["id"] {
        lines := lines + [IndexLine(table, pairs[i])];
      }
      i := i + 1;
    }
    TakeAll(pairs);
  }

  /** The schema part of `generateMigrationCreateIfNeeded` (:35-76), line by line. */
  method GenerateCreateBody(env: Environment, ps: seq<PropertyDefinition>, table: TableDefinition)
    returns (r: Result<seq<string>, Error>)
    ensures r == CreateBody(env, ps, table)
  {
    var columns := AddCreateColumns(env, ps);
    if columns.Err? {
      return Err(columns.error);
    }
    var pairs := IndexPairs(ps);
    var lines := columns.value;
    if |pairs| > 0 {
      lines := lines + [Eol];
    }
    assert lines == columns.value + if |pairs| > 0 then [Eol] else [];
    var indexes := AddCreateIndexes(table, pairs);
    r := Ok(lines + indexes);
  }

  // ---- columns to add and to remove ----

  /** A column to add, with the property before it. */
  datatype ColumnToAdd = ColumnToAdd(property: PropertyDefinition, previous: Option<PropertyDefinition>)

  /** The property before position `i`, or `null` for the first. */
  function PreviousOf(qs: seq<PropertyDefinition>, i: nat): Option<PropertyDefinition>
    requires i < |qs|
  {
    if i == 0 then None else Some(qs[i - 1])
  }

  /** The columns to add among the first `n` properties. */
  function AddsUpTo(qs: seq<PropertyDefinition>, columns: seq<string>, n: nat): seq<ColumnToAdd>
    requires n <= |qs|
  {
    if n == 0 then []
    else AddsUpTo(qs, columns, n - 1) + (if qs[n - 1].name !in columns then [ColumnToAdd(qs[n - 1], PreviousOf(qs, n - 1))] else [])
  }

  /** The first loop of `determineColumnsToAddAndRemove` over the properties with a column. */
  function ColumnsToAdd(qs: seq<PropertyDefinition>, columns: seq<string>): seq<ColumnToAdd> {
    AddsUpTo(qs, columns, |qs|)
  }

  function Stale(ps: seq<PropertyDefinition>): string -> bool {
    (c: string) => !Exists(ps, c)
  }

  /** The second loop: the existing columns no property is named after. */
  function ColumnsToRemove(ps: seq<PropertyDefinition>, columns: seq<string>): seq<string> {
    Filter(columns, Stale(ps))
  }

  /** A column is added for exactly the properties whose name is not an existing column, each
    * paired with the property just before it (whether or not that one is added too). */
  lemma {:induction false} AddsMeans(qs: seq<PropertyDefinition>, columns: seq<string>, n: nat, a: ColumnToAdd)
    requires n <= |qs|
    ensures a in AddsUpTo(qs, columns, n) <==>
      exists i :: 0 <= i < n && qs[i].name !in columns && a == ColumnToAdd(qs[i], PreviousOf(qs, i))
  {
    if n > 0 {
      AddsMeans(qs, columns, n - 1, a);
    }
  }

  function PropertyOf(a: ColumnToAdd): PropertyDefinition {
    a.property
  }

  function Missing(columns: seq<string>): PropertyDefinition -> bool {
    (p: PropertyDefinition) => p.name !in columns
  }

  /** The columns are added in property order. */
  lemma {:induction false} AddsInOrder(qs: seq<PropertyDefinition>, columns: seq<string>, n: nat)
    requires n <= |qs|
    ensures Map(AddsUpTo(qs, columns, n), PropertyOf) == Filter(qs[..n], Missing(columns))
  {
    if n > 0 {
      AddsInOrder(qs, columns, n - 1);
      AddsInOrderNext(qs, columns, n);
    }
  }

  lemma {:induction false} AddsInOrderNext(qs: seq<PropertyDefinition>, columns: seq<string>, n: nat)
    requires 0 < n <= |qs|
    requires Map(AddsUpTo(qs, columns, n - 1), PropertyOf) == Filter(qs[..n - 1], Missing(columns))
    ensures Map(AddsUpTo(qs, columns, n), PropertyOf) == Filter(qs[..n], Missing(columns))
  {
    var init := AddsUpTo(qs, columns, n - 1);
    TakeNext(qs, n - 1);
    FilterSnoc(qs[..n - 1], qs[n - 1], Missing(columns));
    if qs[n - 1].name !in columns {
      var a := ColumnToAdd(qs[n - 1], PreviousOf(qs, n - 1));
      MapConcat(init, [a], PropertyOf);
      assert Map([a], PropertyOf) == [qs[n - 1]];
    } else {
      assert AddsUpTo(qs, columns, n) == init + [] == init;
      assert Filter(qs[..n - 1], Missing(columns)) + [] == Filter(qs[..n - 1], Missing(columns));
    }
  }

  /** The first loop of `determineColumnsToAddAndRemove` (:216-225). */
  method DetermineColumnsToAdd(qs: seq<PropertyDefinition>, columns: seq<string>) returns (adds: seq<ColumnToAdd>)
    ensures adds == ColumnsToAdd(qs, columns)
  {
    adds := [];
    var previous: Option<PropertyDefinition> := None;
    var i := 0;
    while i < |qs|
      invariant 0 <= i <= |qs|
      invariant adds == AddsUpTo(qs, columns, i)
      invariant previous == if i == 0 then None else Some(qs[i - 1])
    {
      if qs[i].name !in columns {
        adds := adds + [ColumnToAdd(qs[i], previous)];
      }
      previous := Some(qs[i]);
      i := i + 1;
    }
  }

  /** The second loop of `determineColumnsToAddAndRemove` (:227-231). */
  method DetermineColumnsToRemove(ps: seq<PropertyDefinition>, columns: seq<string>) returns (removes: seq<string>)
    ensures removes == ColumnsToRemove(ps, columns)
  {
    removes := [];
    var i := 0;
    while i < |columns|
      invariant 0 <= i <= |columns|
      invariant removes == Filter(columns[..i], Stale(ps))
    {
      TakeNext(columns, i);
      FilterSnoc(columns[..i], columns[i], Stale(ps));
      if !Exists(ps, columns[i]) {
        removes := removes + [columns[i]];
      }
      i := i + 1;
    }
    TakeAll(columns);
  }

  /** `determineColumnsToAddAndRemove` (:210-234). */
  method DetermineColumnsToAddAndRemove(ps: seq<PropertyDefinition>, columns: seq<string>)
    returns (adds: seq<ColumnToAdd>, removes: seq<string>)
    ensures adds == ColumnsToAdd(StoredProperties(ps), columns)
    ensures removes == ColumnsToRemove(ps, columns)
  {
    adds := DetermineColumnsToAdd(GetNonMedia(GetNonComputed(ps)), columns);
    removes := DetermineColumnsToRemove(ps, columns);
  }

  /** After the migration every property with a column has one: it is kept or added. */
  lemma {:induction false} MigratedColumnsCover(ps: seq<PropertyDefinition>, columns: seq<string>, p: PropertyDefinition)
    requires p in StoredProperties(ps)
    ensures (p.name in columns && p.name !in ColumnsToRemove(ps, columns))
         || exists a :: a in ColumnsToAdd(StoredProperties(ps), columns) && a.property == p
  {
    var qs := StoredProperties(ps);
    if p.name !in columns {
      var i :| 0 <= i < |qs| && qs[i] == p;
      AddsMeans(qs, columns, |qs|, ColumnToAdd(p, PreviousOf(qs, i)));
    } else {
      assert p.name == p.name && p in ps;
      var i :| 0 <= i < |ps| && ps[i] == p;
      assert Exists(ps, p.name);
    }
  }

  /** After the migration every column is named after a property: a column is kept only when
    * some property (even a computed or media one) has its name. */
  lemma {:induction false} MigratedColumnsSound(ps: seq<PropertyDefinition>, columns: seq<string>, c: string)
    requires (c in columns && c !in ColumnsToRemove(ps, columns))
          || exists a :: a in ColumnsToAdd(StoredProperties(ps), columns) && a.property.name == c
    ensures Exists(ps, c)
  {
    var qs := StoredProperties(ps);
    if !(c in columns && c !in ColumnsToRemove(ps, columns)) {
      var a :| a in ColumnsToAdd(qs, columns) && a.property.name == c;
      AddsMeans(qs, columns, |qs|, a);
      var i :| 0 <= i < |qs| && qs[i].name !in columns && a == ColumnToAdd(qs[i], PreviousOf(qs, i));
      assert qs[i] in qs;
      var j :| 0 <= j < |ps| && ps[j] == qs[i];
    }
  }

  // ---- indexes to add and to change ----

  /** The name a group is compared under: `primary` for a group on `id` alone (:247-249). */
  function EffectiveName(g: (string, seq<string>)): string {
    if g.1 == ["id"] then "primary" else g.0
  }

  /** `array_diff($a, $b) === []`: every column of `a` is one of `b`. */
  predicate Within(a: seq<string>, b: seq<string>) {
    forall x :: x in a ==> x in b
  }

  /** Both `array_diff`s empty: the same column set, in any order and multiplicity. */
  predicate SameColumns(a: seq<string>, b: seq<string>) {
    Within(a, b) && Within(b, a)
  }

  datatype IndexDiff = IndexDiff(toAdd: seq<(string, seq<string>)>, toChange: seq<(string, seq<string>)>)

  /** One step of `determineIndexesToAddAndChange` (:247-262). */
  function IndexStep(current: map<string, seq<string>>, d: IndexDiff, g: (string, seq<string>)): IndexDiff {
    var k := EffectiveName(g);
    if k in current then
      if SameColumns(current[k], g.1) then d else d.(toChange := Put(d.toChange, GroupName, (k, g.1)))
    else d.(toAdd := Put(d.toAdd, GroupName, (k, g.1)))
  }

  /** `determineIndexesToAddAndChange`: the groups, in order, against the table's indexes. */
  function IndexesToAddAndChange(current: map<string, seq<string>>, pairs: seq<(string, seq<string>)>): (d: IndexDiff)
    ensures UniqueKeys(d.toAdd, GroupName) && UniqueKeys(d.toChange, GroupName)
    decreases |pairs|
  {
    if |pairs| == 0 then IndexDiff([], [])
    else
      var d := IndexesToAddAndChange(current, pairs[..|pairs| - 1]);
      PutUnique(d.toAdd, GroupName, (EffectiveName(pairs[|pairs| - 1]), pairs[|pairs| - 1].1));
      PutUnique(d.toChange, GroupName, (EffectiveName(pairs[|pairs| - 1]), pairs[|pairs| - 1].1));
      IndexStep(current, d, pairs[|pairs| - 1])
  }

  /** The columns of the last group compared under name `k`. */
  function LastNamed(pairs: seq<(string, seq<string>)>, k: string): Option<seq<string>>
    decreases |pairs|
  {
    if |pairs| == 0 then None
    else if EffectiveName(pairs[|pairs| - 1]) == k then Some(pairs[|pairs| - 1].1)
    else LastNamed(pairs[..|pairs| - 1], k)
  }

  /** The columns of the last group compared under name `k` whose column set differs from `cur`. */
  function LastDiffering(pairs: seq<(string, seq<string>)>, k: string, cur: seq<string>): Option<seq<string>>
    decreases |pairs|
  {
    if |pairs| == 0 then None
    else if EffectiveName(pairs[|pairs| - 1]) == k && !SameColumns(cur, pairs[|pairs| - 1].1) then Some(pairs[|pairs| - 1].1)
    else LastDiffering(pairs[..|pairs| - 1], k, cur)
  }

  function Under(k: string, o: Option<seq<string>>): Option<(string, seq<string>)> {
    match o
    case None => None
    case Some(c) => Some((k, c))
  }

  /** An index the table lacks is added with the columns of the last group compared under its
    * name, and never changed; an index the table has is never added, and is changed to the
    * columns of the last group under its name whose column set differs from the table's. */
  lemma {:induction false} IndexDiffLookup(current: map<string, seq<string>>, pairs: seq<(string, seq<string>)>, k: string)
    ensures Lookup(IndexesToAddAndChange(current, pairs).toAdd, GroupName, k) ==
      if k in current then None else Under(k, LastNamed(pairs, k))
    ensures Lookup(IndexesToAddAndChange(current, pairs).toChange, GroupName, k) ==
      if k in current then Under(k, LastDiffering(pairs, k, current[k])) else None
    decreases |pairs|
  {
    if |pairs| > 0 {
      var init, g := pairs[..|pairs| - 1], pairs[|pairs| - 1];
      IndexDiffLookup(current, init, k);
      var d := IndexesToAddAndChange(current, init);
      LookupPut(d.toAdd, GroupName, (EffectiveName(g), g.1), k);
      LookupPut(d.toChange, GroupName, (EffectiveName(g), g.1), k);
    }
  }

  /** Nothing is added or changed iff every group is already an index of the table, under the
    * name it is compared under, with the same column set. */
  lemma {:induction false} IndexDiffEmpty(current: map<string, seq<string>>, pairs: seq<(string, seq<string>)>)
    ensures (|IndexesToAddAndChange(current, pairs).toAdd| == 0 && |IndexesToAddAndChange(current, pairs).toChange| == 0)
      <==> forall g :: g in pairs ==> EffectiveName(g) in current && SameColumns(current[EffectiveName(g)], g.1)
    decreases |pairs|
  {
    if |pairs| > 0 {
      var init, g := pairs[..|pairs| - 1], pairs[|pairs| - 1];
      assert pairs == init + [g];
      IndexDiffEmpty(current, init);
      var d := IndexesToAddAndChange(current, init);
      var k := EffectiveName(g);
      if k in current && !SameColumns(current[k], g.1) {
        PutKeys(d.toChange, GroupName, (k, g.1), k);
      } else if k !in current {
        PutKeys(d.toAdd, GroupName, (k, g.1), k);
      }
    }
  }

  /** One group of the index loop. */
  method CompareIndex(current: map<string, seq<string>>, pairs: seq<(string, seq<string>)>, i: nat, d: IndexDiff)
    returns (d': IndexDiff)
    requires i < |pairs| && d == IndexesToAddAndChange(current, pairs[..i])
    ensures d' == IndexesToAddAndChange(current, pairs[..i + 1])
  {
    assert pairs[..i + 1][..i] == pairs[..i];
    var name := pairs[i].0;
    var columns := pairs[i].1;
    if columns == ["id"] {
      name := "primary";
    }
    if name in current {
      if Within(current[name], columns) && Within(columns, current[name]) {
        d' := d;
      } else {
        d' := d.(toChange := Put(d.toChange, GroupName, (name, columns)));
      }
    } else {
      d' := d.(toAdd := Put(d.toAdd, GroupName, (name, columns)));
    }
  }

  /** `determineIndexesToAddAndChange` (:239-266). */
  method DetermineIndexesToAddAndChange(current: map<string, seq<string>>, pairs: seq<(string, seq<string>)>)
    returns (d: IndexDiff)
    ensures d == IndexesToAddAndChange(current, pairs)
  {
    d := IndexDiff([], []);
    var i := 0;
    while i < |pairs|
      invariant 0 <= i <= |pairs|
      invariant d == IndexesToAddAndChange(current, pairs[..i])
    {
      d := CompareIndex(current, pairs, i, d);
      i := i + 1;
    }
    TakeAll(pairs);
  }

  // ---- the update migration ----

  /** `generateMigrationFileName` (:272-283), without the date prefix. */
  function MigrationFileName(table: string, adds: seq<ColumnToAdd>, removes: seq<string>): string {
    if |adds| == 1 then "add_" + adds[0].property.name + "_to_" + table + "_table.php"
    else if |removes| == 1 then "remove_" + removes[0] + "_from_" + table + "_table.php"
    else "update_" + table + "_table.php"
  }

  predicate StartsWith(s: string, prefix: string) {
    |prefix| <= |s| && s[..|prefix|] == prefix
  }

  /** The file name tells the three cases apart: `add_` iff exactly one column is added,
    * otherwise `remove_` iff exactly one is removed, otherwise `update_`. */
  lemma {:induction false} MigrationFileNameKind(table: string, adds: seq<ColumnToAdd>, removes: seq<string>)
    ensures StartsWith(MigrationFileName(table, adds, removes), "add_") <==> |adds| == 1
    ensures StartsWith(MigrationFileName(table, adds, removes), "remove_") <==> |adds| != 1 && |removes| == 1
    ensures StartsWith(MigrationFileName(table, adds, removes), "update_") <==> |adds| != 1 && |removes| != 1
  {
    var f := MigrationFileName(table, adds, removes);
    if |adds| == 1 {
      assert f == "add_" + adds[0].property.name + ("_to_" + table + "_table.php");
      assert f[..4] == "add_";
      assert f[..7] != "remove_" && f[..7] != "update_" by { assert f[0] == 'a'; }
    } else if |removes| == 1 {
      assert f == "remove_" + removes[0] + ("_from_" + table + "_table.php");
      assert f[..7] == "remove_";
      assert f[..4] != "add_" && f[..7] != "update_" by { assert f[0] == 'r'; }
    } else {
      assert f == "update_" + (table + "_table.php");
      assert f[..7] == "update_";
      assert f[..4] != "add_" && f[..7] != "remove_" by { assert f[0] == 'u'; }
    }
  }

  /** The file name names the added or the removed column when there is exactly one, always
    * names the table, and ends in `_table.php`. */
  lemma {:induction false} MigrationFileNameParts(table: string, adds: seq<ColumnToAdd>, removes: seq<string>)
    ensures |adds| == 1 ==> MigrationFileName(table, adds, removes)[4..4 + |adds[0].property.name|] == adds[0].property.name
    ensures |adds| != 1 && |removes| == 1 ==> MigrationFileName(table, adds, removes)[7..7 + |removes[0]|] == removes[0]
    ensures |table| + 10 <= |MigrationFileName(table, adds, removes)|
    ensures var f := MigrationFileName(table, adds, removes); f[|f| - |table| - 10..] == table + "_table.php"
  {
    var f := MigrationFileName(table, adds, removes);
    if |adds| == 1 {
      assert f == "add_" + adds[0].property.name + ("_to_" + table + "_table.php");
    } else if |removes| == 1 {
      assert f == "remove_" + removes[0] + ("_from_" + table + "_table.php");
    } else {
      assert f == "update_" + (table + "_table.php");
    }
  }

  /** What an update migration applies, and the name of its file. */
  datatype UpdatePlan = UpdatePlan(
    toAdd: seq<ColumnToAdd>,
    toRemove: seq<string>,
    indexes: IndexDiff,
    fileName: string)

  /** `generateMigrationUpdateIfNeeded` up to the body: nothing when there is nothing to migrate
    * (:95-104, :183-187). */
  function UpdatePlanOf(ps: seq<PropertyDefinition>, table: TableDefinition, columns: seq<string>,
                        current: map<string, seq<string>>): Option<UpdatePlan>
  {
    var adds := ColumnsToAdd(StoredProperties(ps), columns);
    var removes := ColumnsToRemove(ps, columns);
    var d := IndexesToAddAndChange(current, IndexPairs(ps));
    if |adds| == 0 && |removes| == 0 && |d.toAdd| == 0 && |d.toChange| == 0 then None
    else Some(UpdatePlan(adds, removes, d, MigrationFileName(table.name, adds, removes)))
  }

  /** The table already matches the model: every property with a column has one, every column
    * is named after a property, and every index group is an index with the same columns. */
  predicate InSync(ps: seq<PropertyDefinition>, columns: seq<string>, current: map<string, seq<string>>) {
    (forall p :: p in StoredProperties(ps) ==> p.name in columns)
    && (forall c :: c in columns ==> Exists(ps, c))
    && forall g :: g in IndexPairs(ps) ==> EffectiveName(g) in current && SameColumns(current[EffectiveName(g)], g.1)
  }

  /** No column is added iff every property with a column already has one. */
  lemma {:induction false} NoAddsIff(qs: seq<PropertyDefinition>, columns: seq<string>)
    ensures |ColumnsToAdd(qs, columns)| == 0 <==> forall p :: p in qs ==> p.name in columns
  {
    var adds := ColumnsToAdd(qs, columns);
    if |adds| > 0 {
      AddsMeans(qs, columns, |qs|, adds[0]);
    }
    if exists p :: p in qs && p.name !in columns {
      var p :| p in qs && p.name !in columns;
      var i :| 0 <= i < |qs| && qs[i] == p;
      AddsMeans(qs, columns, |qs|, ColumnToAdd(p, PreviousOf(qs, i)));
    }
  }

  /** No column is removed iff every column is named after a property. */
  lemma {:induction false} NoRemovesIff(ps: seq<PropertyDefinition>, columns: seq<string>)
    ensures |ColumnsToRemove(ps, columns)| == 0 <==> forall c :: c in columns ==> Exists(ps, c)
  {
    var removes := ColumnsToRemove(ps, columns);
    if |removes| > 0 {
      assert removes[0] in removes;
    }
    if exists c :: c in columns && !Exists(ps, c) {
      var c :| c in columns && !Exists(ps, c);
      assert Stale(ps)(c);
      assert c in removes;
    }
  }

  /** No update migration is produced iff the table is already in sync with the model. */
  lemma {:induction false} NoUpdateIffInSync(ps: seq<PropertyDefinition>, table: TableDefinition, columns: seq<string>,
                                             current: map<string, seq<string>>)
    ensures UpdatePlanOf(ps, table, columns, current).None? <==> InSync(ps, columns, current)
  {
    IndexDiffEmpty(current, IndexPairs(ps));
    NoAddsIff(StoredProperties(ps), columns);
    NoRemovesIff(ps, columns);
  }

  /** `generateMigrationUpdateIfNeeded` up to the body. */
  method PlanMigrationUpdate(ps: seq<PropertyDefinition>, table: TableDefinition, columns: seq<string>,
                             current: map<string, seq<string>>) returns (plan: Option<UpdatePlan>)
    ensures plan == UpdatePlanOf(ps, table, columns, current)
  {
    var adds, removes := DetermineColumnsToAddAndRemove(ps, columns);
    var d := DetermineIndexesToAddAndChange(current, IndexPairs(ps));
    if |adds| == 0 && |removes| == 0 && |d.toAdd| == 0 && |d.toChange| == 0 {
      return None;
    }
    plan := Some(UpdatePlan(adds, removes, d, MigrationFileName(table.name, adds, removes)));
  }
}

/**
 * The two request handlers of server/src/index.js that hold logic of their
 * own: the create handler's priority default and the PATCH handler's dynamic
 * `UPDATE … SET` builder with its running placeholder counter.
 */
module Server {
  import opened Wrappers
  import opened Decimal

  /** A JSON value from a request body; a field missing from the body is `None`. */
  datatype Json = JNull | JBool(b: bool) | JNum(n: real) | JStr(s: string) | JArr(items: seq<Json>) | JObj(fields: seq<(string, Json)>)

  /** JavaScript truthiness of a body field: `undefined`, `null`, `false`, `0` and `""` are falsy. */
  predicate Truthy(v: Option<Json>) {
    match v
    case None => false
    case Some(JNull) => false
    case Some(JBool(b)) => b
    case Some(JNum(n)) => n != 0.0
    case Some(JStr(s)) => s != ""
    case Some(_) => true
  }

  /** `priority || 1` in the create handler's INSERT parameters. */
  function PriorityOrDefault(priority: Option<Json>): (p: Json)
    ensures Truthy(Some(p))
    ensures Truthy(priority) ==> p == priority.value
    ensures !Truthy(priority) ==> p == JNum(1.0)
  {
    if Truthy(priority) then priority.value else JNum(1.0)
  }

  /** Defaulting twice is defaulting once. */
  lemma PriorityDefaultIdempotent(priority: Option<Json>)
    ensures PriorityOrDefault(Some(PriorityOrDefault(priority))) == PriorityOrDefault(priority)
  {
  }

  /** The updatable columns, in the order the handler tests them. */
  const COLUMNS: seq<string> := ["title", "priority", "is_completed"]

  /** The body field a column is filled from. */
  function Column(name: string, title: Option<Json>, priority: Option<Json>, isCompleted: Option<Json>): Option<Json> {
    if name == "title" then title
    else if name == "priority" then priority
    else if name == "is_completed" then isCompleted
    else None
  }

  /** The columns that are given (`!== undefined`, so `null` counts), paired with their values. */
  function Given(title: Option<Json>, priority: Option<Json>, isCompleted: Option<Json>): seq<(string, Json)> {
    (if title.Some? then [("title", title.value)] else [])
    + (if priority.Some? then [("priority", priority.value)] else [])
    + (if isCompleted.Some? then [("is_completed", isCompleted.value)] else [])
  }

  function ColumnRank(name: string): nat {
    if name == "title" then 0 else if name == "priority" then 1 else 2
  }

  /**
   * The SET clause lists exactly the given fields, each with its own value,
   * each once, in the fixed order title, priority, is_completed.
   */
  lemma GivenExactly(title: Option<Json>, priority: Option<Json>, isCompleted: Option<Json>)
    ensures var given := Given(title, priority, isCompleted);
      (forall k :: 0 <= k < |given| ==> given[k].0 in COLUMNS && Column(given[k].0, title, priority, isCompleted) == Some(given[k].1))
      && (forall c :: c in COLUMNS ==> (Column(c, title, priority, isCompleted).Some? <==> exists k :: 0 <= k < |given| && given[k].0 == c))
      && (forall i, j :: 0 <= i < j < |given| ==> ColumnRank(given[i].0) < ColumnRank(given[j].0))
  {
    var given := Given(title, priority, isCompleted);
    forall c | c in COLUMNS && Column(c, title, priority, isCompleted).Some?
      ensures exists k :: 0 <= k < |given| && given[k].0 == c
    {
      var k := if c == "title" then 0
        else if c == "priority" then (if title.Some? then 1 else 0)
        else (if title.Some? then 1 else 0) + (if priority.Some? then 1 else 0);
      assert given[k].0 == c;
    }
  }

  /** `fields.join(sep)`. */
  function Join(parts: seq<string>, sep: string): string {
    if |parts| == 0 then ""
    else if |parts| == 1 then parts[0]
    else parts[0] + sep + Join(parts[1..], sep)
  }

  /** One `column = $n` assignment of the SET clause. */
  function Assignment(column: string, n: nat): string {
    column + " = $" + NatToString(n)
  }

  /** The statement text for a SET list and the WHERE placeholder number. */
  function UpdateText(fields: seq<string>, counter: nat): string {
    "UPDATE nodes SET " + Join(fields, ", ") + " WHERE id = $" + NatToString(counter) + " RETURNING *"
  }

  /**
   * The PATCH handler: three guarded pushes with `$${counter++}`, then `id` as
   * the last value. The k-th assignment names the k-th given column and the
   * placeholder `$k+1`, which binds `values[k]`, that column's value; the WHERE
   * placeholder is `$counter` with `counter == |values|`, which binds `id`.
   */
  method BuildUpdate(id: string, title: Option<Json>, priority: Option<Json>, isCompleted: Option<Json>)
    returns (fields: seq<string>, values: seq<Json>, counter: nat, sql: string)
    ensures var given := Given(title, priority, isCompleted);
      && |fields| == |given|
      && |values| == |given| + 1
      && (forall k :: 0 <= k < |given| ==> fields[k] == Assignment(given[k].0, k + 1) && values[k] == given[k].1)
      && values[|given|] == JStr(id)
      && counter == |values|
      && sql == UpdateText(fields, counter)
  {
    fields := [];
    values := [];
    counter := 1;
    if title.Some? {
      fields := fields + [Assignment("title", counter)];
      counter := counter + 1;
      values := values + [title.value];
    }
    if priority.Some? {
      fields := fields + [Assignment("priority", counter)];
      counter := counter + 1;
      values := values + [priority.value];
    }
    if isCompleted.Some? {
      fields := fields + [Assignment("is_completed", counter)];
      counter := counter + 1;
      values := values + [isCompleted.value];
    }
    values := values + [JStr(id)];
    sql := UpdateText(fields, counter);
  }

  /** Reading the number back out of an assignment's placeholder gives the number written. */
  lemma AssignmentPlaceholder(column: string, n: nat)
    ensures Assignment(column, n)[..|column|] == column
    ensures AllDigits(Assignment(column, n)[|column| + 4..])
    ensures ParseNat(Assignment(column, n)[|column| + 4..]) == n
  {
    var a := Assignment(column, n);
    assert a[|column| + 4..] == NatToString(n);
    ParseNatToString(n);
  }

  /** The three columns differ in their first letter. */
  lemma ColumnsByInitial(column1: string, column2: string)
    requires column1 in COLUMNS && column2 in COLUMNS && column1[0] == column2[0]
    ensures column1 == column2
  {
  }

  /** Distinct placeholder numbers give distinct assignments, so no two clauses share a placeholder. */
  lemma AssignmentsDistinct(column1: string, n1: nat, column2: string, n2: nat)
    requires column1 in COLUMNS && column2 in COLUMNS
    ensures Assignment(column1, n1) == Assignment(column2, n2) <==> column1 == column2 && n1 == n2
  {
    var a1, a2 := Assignment(column1, n1), Assignment(column2, n2);
    if a1 == a2 {
      assert column1[0] == a1[0] && column2[0] == a2[0];
      ColumnsByInitial(column1, column2);
      AssignmentPlaceholder(column1, n1);
      AssignmentPlaceholder(column2, n2);
    }
  }

  /**
   * With no field in the body the SET list is empty, and the handler, having no
   * guard, sends the malformed `UPDATE nodes SET  WHERE id = $1 RETURNING *`;
   * `BuildUpdate`'s own contract then gives `[JStr(id)]` as the only value.
   */
  lemma EmptyPatchIsMalformed()
    ensures Given(None, None, None) == []
    ensures UpdateText([], 1) == "UPDATE nodes SET  WHERE id = $1 RETURNING *"
  {
    var one := NatToString(1);
    assert one == "1";
    assert Join([], ", ") == "";
    calc {
      UpdateText([], 1);
      "UPDATE nodes SET " + "" + " WHERE id = $" + one + " RETURNING *";
      "UPDATE nodes SET  WHERE id = $1 RETURNING *";
    }
  }
}

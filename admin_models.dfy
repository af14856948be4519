/**
 * The `addModelRow` server action: a role check, a required-field check, the
 * choice of columns and bound values, the text of a parameterised
 * `INSERT ... RETURNING *`, and one row appended to the named table.
 */
module AdminModels {
  import opened Wrappers
  import opened Text
  import opened JsValues
  import opened Schema

  const AdminRole := "ADMIN"
  const NotAdminError := "Vous devez être administrateur pour effectuer cette action"
  const NoValidDataError := "Aucune donnée valide à insérer"
  const FallbackError := "Une erreur est survenue lors de l'ajout"

  function MissingFieldError(field: string): string
  {
    "Le champ " + field + " est obligatoire"
  }

  /** The names of the fields whose `is_nullable` is `'NO'`, in field order. */
  function RequiredFields(fields: seq<ModelColumn>): (names: seq<string>)
    ensures |names| <= |fields|
    ensures forall n :: n in names <==> exists f :: f in fields && f.isNullable == "NO" && f.columnName == n
  {
    if fields == [] then []
    else
      var rest := RequiredFields(fields[1..]);
      assert forall f :: f in fields <==> f == fields[0] || f in fields[1..];
      (if fields[0].isNullable == "NO" then [fields[0].columnName] else []) + rest
  }

  /** The server's test for a missing required value: null, undefined or the empty string. */
  predicate IsBlank(v: JsValue)
  {
    v == Null || v == Undefined || v == Str("")
  }

  /** The position of the first required field whose value is blank, as the `for` loop meets them. */
  function FirstBlank(required: seq<string>, data: Entries): (r: Option<nat>)
    ensures r.Some? ==> r.value < |required| && IsBlank(Get(data, required[r.value]))
    ensures r.Some? ==> forall j :: 0 <= j < r.value ==> !IsBlank(Get(data, required[j]))
    ensures r.None? <==> forall j :: 0 <= j < |required| ==> !IsBlank(Get(data, required[j]))
  {
    var values := seq(|required|, j requires 0 <= j < |required| => Get(data, required[j]));
    assert forall j :: 0 <= j < |required| ==> values[j] == Get(data, required[j]);
    FirstBlankFrom(values, 0)
  }

  /** The loop from position `k` on, over the values read for the required fields. */
  function FirstBlankFrom(values: seq<JsValue>, k: nat): (r: Option<nat>)
    requires k <= |values|
    ensures r.Some? ==> k <= r.value < |values| && IsBlank(values[r.value])
    ensures r.Some? ==> forall j :: k <= j < r.value ==> !IsBlank(values[j])
    ensures r.None? <==> forall j :: k <= j < |values| ==> !IsBlank(values[j])
    decreases |values| - k
  {
    if k == |values| then None
    else if IsBlank(values[k]) then Some(k)
    else FirstBlankFrom(values, k + 1)
  }

  /** A value that survives `data[key] !== null && data[key] !== ''`. */
  predicate Insertable(v: JsValue)
  {
    v != Null && v != Str("")
  }

  /** `keys.filter(key => data[key] !== null && data[key] !== '')`. */
  function KeepInsertable(keys: seq<string>, data: Entries): (kept: seq<string>)
    ensures IsSubsequence(kept, keys)
    ensures forall k :: k in kept <==> k in keys && Insertable(Get(data, k))
  {
    if keys == [] then []
    else
      var rest := KeepInsertable(keys[1..], data);
      assert forall k :: k in keys <==> k == keys[0] || k in keys[1..];
      if Insertable(Get(data, keys[0])) then
        var kept := [keys[0]] + rest;
        assert kept[1..] == rest;
        kept
      else rest
  }

  /** The insert columns: the keys of `data`, in key order, whose value is neither null nor ''. */
  function InsertColumns(data: Entries): seq<string>
  {
    KeepInsertable(Keys(data), data)
  }

  /** `columns.map(col => data[col])`. */
  function BoundValues(columns: seq<string>, data: Entries): (values: seq<JsValue>)
    ensures |values| == |columns|
    ensures forall i :: 0 <= i < |columns| ==> values[i] == Get(data, columns[i])
  {
    seq(|columns|, i requires 0 <= i < |columns| => Get(data, columns[i]))
  }

  /** `$1` ... `$n`, one per column. */
  function PlaceholderList(n: nat): (ps: seq<string>)
    ensures |ps| == n
    ensures forall i :: 0 <= i < n ==> ps[i] == "$" + Decimal(i + 1)
  {
    if n == 0 then [] else PlaceholderList(n - 1) + ["$" + Decimal(n)]
  }

  function Placeholders(n: nat): string
  {
    Join(PlaceholderList(n), ", ")
  }

  /** An identifier in double quotes, spliced as is: quotes inside `name` are not escaped. */
  function Quote(name: string): string
  {
    "\"" + name + "\""
  }

  function QuoteAll(names: seq<string>): (quoted: seq<string>)
    ensures |quoted| == |names|
  {
    seq(|names|, i requires 0 <= i < |names| => Quote(names[i]))
  }

  /** The query text of the template literal, whitespace included. */
  function QueryText(model: string, columns: seq<string>): string
  {
    "\n        INSERT INTO " + Quote(model) + " (" + Join(QuoteAll(columns), ", ") + ")\n        VALUES ("
      + Placeholders(|columns|) + ")\n        RETURNING *\n      "
  }

  datatype Insert = Insert(columns: seq<string>, values: seq<JsValue>, placeholders: string, query: string)

  /**
   * Everything `addModelRow` does before the query runs. `model` is not checked
   * against any list of tables: it is spliced into the query text.
   */
  function PrepareInsert(role: string, model: string, fields: seq<ModelColumn>, data: Entries): (r: Result<Insert>)
    ensures role != AdminRole ==> r == Err(NotAdminError)
    ensures role == AdminRole && FirstBlank(RequiredFields(fields), data).Some? ==>
      r == Err(MissingFieldError(RequiredFields(fields)[FirstBlank(RequiredFields(fields), data).value]))
    ensures role == AdminRole && FirstBlank(RequiredFields(fields), data).None? && InsertColumns(data) == [] ==>
      r == Err(NoValidDataError)
    ensures r.Ok? <==>
      && role == AdminRole
      && (forall f :: f in RequiredFields(fields) ==> !IsBlank(Get(data, f)))
      && (exists k :: k in Keys(data) && Insertable(Get(data, k)))
    ensures r.Ok? ==>
      && IsSubsequence(r.value.columns, Keys(data))
      && (forall k :: k in r.value.columns <==> k in Keys(data) && Insertable(Get(data, k)))
      && |r.value.values| == |r.value.columns|
      && (forall i :: 0 <= i < |r.value.columns| ==> r.value.values[i] == Get(data, r.value.columns[i]))
      && r.value.placeholders == Placeholders(|r.value.columns|)
      && r.value.query == QueryText(model, r.value.columns)
  {
    if role != AdminRole then Err(NotAdminError)
    else
      var required := RequiredFields(fields);
      match FirstBlank(required, data)
      case Some(i) =>
        assert required[i] in required && IsBlank(Get(data, required[i]));
        Err(MissingFieldError(required[i]))
      case None =>
        var columns := InsertColumns(data);
        if |columns| == 0 then
          assert forall k :: k in Keys(data) ==> !Insertable(Get(data, k));
          Err(NoValidDataError)
        else
          assert columns[0] in Keys(data) && Insertable(Get(data, columns[0]));
          Ok(Insert(columns, BoundValues(columns, data), Placeholders(|columns|), QueryText(model, columns)))
  }

  /**
   * The error names the first field, in the table's column order, that is
   * NOT NULL and has a blank value: the `for` loop stops at it.
   */
  lemma MissingFieldIsEarliest(model: string, fields: seq<ModelColumn>, data: Entries, k: nat)
    requires k < |fields| && fields[k].isNullable == "NO" && IsBlank(Get(data, fields[k].columnName))
    requires forall j :: 0 <= j < k ==> !(fields[j].isNullable == "NO" && IsBlank(Get(data, fields[j].columnName)))
    ensures PrepareInsert(AdminRole, model, fields, data) == Err(MissingFieldError(fields[k].columnName))
  {
    var before := fields[..k];
    assert fields == before + [fields[k]] + fields[k + 1..];
    RequiredFieldsAppend(before + [fields[k]], fields[k + 1..]);
    RequiredFieldsAppend(before, [fields[k]]);
    assert RequiredFields([fields[k]]) == [fields[k].columnName] by {
      assert [fields[k]][1..] == [];
    }
    var required := RequiredFields(fields);
    var p := |RequiredFields(before)|;
    assert required[p] == fields[k].columnName;
    forall j | 0 <= j < p
      ensures !IsBlank(Get(data, required[j]))
    {
      var n := required[j];
      assert n == RequiredFields(before)[j];
      assert n in RequiredFields(before);
      var f :| f in before && f.isNullable == "NO" && f.columnName == n;
      var i :| 0 <= i < |before| && before[i] == f;
      assert fields[i] == f;
    }
    var first := FirstBlank(required, data);
    assert first.Some?;
    assert first.value == p;
  }

  lemma {:induction false} RequiredFieldsAppend(a: seq<ModelColumn>, b: seq<ModelColumn>)
    ensures RequiredFields(a + b) == RequiredFields(a) + RequiredFields(b)
  {
    if a == [] {
      assert a + b == b;
    } else {
      var head := if a[0].isNullable == "NO" then [a[0].columnName] else [];
      assert (a + b)[0] == a[0] && (a + b)[1..] == a[1..] + b;
      assert RequiredFields(a + b) == head + RequiredFields(a[1..] + b);
      RequiredFieldsAppend(a[1..], b);
      assert RequiredFields(a) == head + RequiredFields(a[1..]);
    }
  }

  /**
   * The query names the table exactly as given, between double quotes
   * (nothing checks `model` against the known tables or escapes a quote in
   * it), lists the quoted columns, and ends by returning the inserted row.
   */
  lemma QueryShape(model: string, columns: seq<string>)
    ensures var q := QueryText(model, columns);
      var head := "\n        INSERT INTO \"" + model + "\" (";
      var tail := ")\n        RETURNING *\n      ";
      && StartsWith(q, head)
      && |tail| <= |q| && q[|q| - |tail|..] == tail
  {
    var q := QueryText(model, columns);
    var head := "\n        INSERT INTO \"" + model + "\" (";
    var tail := ")\n        RETURNING *\n      ";
    var opening := "\n        INSERT INTO " + Quote(model) + " (";
    assert opening == head;
    var withColumns := opening + Join(QuoteAll(columns), ", ");
    ConcatEnds(opening, Join(QuoteAll(columns), ", "));
    var withValues := withColumns + ")\n        VALUES (";
    PrefixExtends(withColumns, opening, ")\n        VALUES (");
    var body := withValues + Placeholders(|columns|);
    PrefixExtends(withValues, opening, Placeholders(|columns|));
    assert q == body + tail;
    PrefixExtends(body, opening, tail);
    ConcatEnds(body, tail);
  }

  /** The placeholder text holds exactly one `$` per column. */
  lemma PlaceholderCount(n: nat)
    ensures Count('$', Placeholders(n)) == n
  {
    PlaceholderNumbers(n);
    DollarsInJoin(PlaceholderList(n));
  }

  lemma {:induction false} DollarsInJoin(ps: seq<string>)
    requires forall i :: 0 <= i < |ps| ==> Count('$', ps[i]) == 1
    ensures Count('$', Join(ps, ", ")) == |ps|
  {
    if |ps| > 1 {
      DollarsInJoin(ps[1..]);
      CountAppend('$', ps[0], ", ");
      CountAppend('$', ps[0] + ", ", Join(ps[1..], ", "));
      assert Count('$', ", ") == 0;
    }
  }

  /** Each placeholder is `$` followed by its 1-based position in decimal. */
  lemma PlaceholderNumbers(n: nat)
    ensures forall i :: 0 <= i < n ==>
      |PlaceholderList(n)[i]| >= 2 && PlaceholderList(n)[i][0] == '$' &&
      DecimalValue(PlaceholderList(n)[i][1..]) == i + 1 && Count('$', PlaceholderList(n)[i]) == 1
  {
    var ps := PlaceholderList(n);
    forall i | 0 <= i < n
      ensures |ps[i]| >= 2 && ps[i][0] == '$' && DecimalValue(ps[i][1..]) == i + 1 && Count('$', ps[i]) == 1
    {
      assert ps[i][1..] == Decimal(i + 1);
      DecimalRoundTrip(i + 1);
      DigitsHaveNo('$', Decimal(i + 1));
    }
  }

  /** The row the insert binds: each column with its value from `data`. */
  function Project(columns: seq<string>, data: Entries): (row: Entries)
    ensures Keys(row) == columns
    ensures forall i :: 0 <= i < |columns| ==> row[i] == (columns[i], Get(data, columns[i]))
  {
    if columns == [] then []
    else
      var row := [(columns[0], Get(data, columns[0]))] + Project(columns[1..], data);
      assert Keys(row) == [columns[0]] + Keys(row[1..]);
      row
  }

  lemma {:induction false} ProjectGet(columns: seq<string>, data: Entries, k: string)
    ensures Get(Project(columns, data), k) == if k in columns then Get(data, k) else Undefined
  {
    if columns != [] {
      ProjectGet(columns[1..], data, k);
      assert Project(columns, data)[1..] == Project(columns[1..], data);
      assert k in columns <==> k == columns[0] || k in columns[1..];
    }
  }

  /** The stored row holds exactly the submitted values that are neither null nor ''. */
  lemma StoredRowKeepsInsertableValues(role: string, model: string, fields: seq<ModelColumn>, data: Entries, k: string)
    requires PrepareInsert(role, model, fields, data).Ok?
    ensures var row := Project(PrepareInsert(role, model, fields, data).value.columns, data);
      Get(row, k) == if k in Keys(data) && Insertable(Get(data, k)) then Get(data, k) else Undefined
  {
    ProjectGet(PrepareInsert(role, model, fields, data).value.columns, data, k);
  }

  /** `error.message || "..."`. */
  function ErrorMessage(message: string): string
  {
    if message == "" then FallbackError else message
  }

  /** What the storage engine does with the query: run it, or throw with a message. */
  datatype EngineOutcome = Accepted | Rejected(message: string)

  /** `{ success: true, data }` or `{ success: false, error }`. */
  datatype AddModelRowResult = Added(data: seq<Entries>) | Failed(error: string)

  /** The database as the raw insert sees it: each table name with its rows. */
  class Database {
    var tables: map<string, seq<Entries>>

    constructor (initial: map<string, seq<Entries>>)
      ensures tables == initial
    {
      tables := initial;
    }

    function Rows(name: string): seq<Entries>
      reads this
    {
      if name in tables then tables[name] else []
    }

    /** The `addModelRow` handler body; every thrown error becomes `Failed(message)`. */
    method AddModelRow(role: string, model: string, fields: seq<ModelColumn>, data: Entries, engine: EngineOutcome)
      returns (result: AddModelRowResult)
      modifies this
      ensures PrepareInsert(role, model, fields, data).Err? ==>
        result == Failed(PrepareInsert(role, model, fields, data).error) && tables == old(tables)
      ensures PrepareInsert(role, model, fields, data).Ok? && engine.Rejected? ==>
        result == Failed(ErrorMessage(engine.message)) && tables == old(tables)
      ensures PrepareInsert(role, model, fields, data).Ok? && engine.Accepted? ==>
        var row := Project(PrepareInsert(role, model, fields, data).value.columns, data);
        result == Added([row]) && tables == old(tables)[model := old(Rows(model)) + [row]]
      ensures result.Added? <==> PrepareInsert(role, model, fields, data).Ok? && engine.Accepted?
    {
      var prepared := PrepareInsert(role, model, fields, data);
      if prepared.Err? {
        assert prepared.error != "";
        result := Failed(ErrorMessage(prepared.error));
        return;
      }
      var insert := prepared.value;
      match engine {
        case Rejected(message) =>
          result := Failed(ErrorMessage(message));
        case Accepted =>
          var row := Project(insert.columns, data);
          tables := tables[model := Rows(model) + [row]];
          result := Added([row]);
      }
    }
  }
}

/**
 * The add-row dialog of the admin console: which columns are editable, the
 * per-field state `formData` and `errors`, the client-side required check,
 * the per-type conversion done before the server action is called, and the
 * reset rules of the dialog.
 */
module AddModelRowModal {
  import opened Wrappers
  import opened Text
  import opened Feedback
  import opened JsValues
  import opened Schema
  import AdminModels

  const ProtectedColumns := ["id", "created_at", "updated_at"]
  const NumericTypes := ["integer", "bigint", "numeric", "decimal"]
  const RequiredMessage := "Ce champ est obligatoire"
  const AddedMessage := "Enregistrement ajouté avec succès"
  const AddFailedMessage := "Erreur lors de l'ajout"
  const UnexpectedMessage := "Une erreur est survenue"

  /** `columns.filter(col => !["id", "created_at", "updated_at"].includes(col.column_name))`. */
  function EditableColumns(columns: seq<ModelColumn>): (editable: seq<ModelColumn>)
    ensures IsSubsequence(editable, columns)
    ensures forall c :: c in editable <==> c in columns && c.columnName !in ProtectedColumns
    ensures DistinctNames(columns) ==> DistinctNames(editable)
  {
    if columns == [] then []
    else
      var rest := EditableColumns(columns[1..]);
      assert forall c :: c in columns <==> c == columns[0] || c in columns[1..];
      if columns[0].columnName !in ProtectedColumns then
        var editable := [columns[0]] + rest;
        assert editable[1..] == rest;
        assert DistinctNames(columns) ==> forall c :: c in rest ==> c.columnName != columns[0].columnName by {
          if DistinctNames(columns) {
            forall c | c in rest ensures c.columnName != columns[0].columnName {
              var j :| 0 <= j < |columns[1..]| && columns[1..][j] == c;
              assert columns[j + 1] == c;
            }
          }
        }
        editable
      else rest
  }

  /** The first column called `name`. */
  function ColumnNamed(columns: seq<ModelColumn>, name: string): (r: Option<ModelColumn>)
    ensures r.Some? ==> r.value in columns && r.value.columnName == name
    ensures r.None? <==> forall c :: c in columns ==> c.columnName != name
  {
    if columns == [] then None
    else if columns[0].columnName == name then Some(columns[0])
    else
      assert forall c :: c in columns <==> c == columns[0] || c in columns[1..];
      ColumnNamed(columns[1..], name)
  }

  lemma {:induction false} ColumnNamedUnique(columns: seq<ModelColumn>, c: ModelColumn)
    requires DistinctNames(columns) && c in columns
    ensures ColumnNamed(columns, c.columnName) == Some(c)
  {
    if columns[0] != c {
      assert c in columns[1..];
      var j :| 1 <= j < |columns| && columns[j] == c;
      assert columns[0].columnName != c.columnName;
      ColumnNamedUnique(columns[1..], c);
    }
  }

  lemma {:induction false} ColumnNamedSnoc(columns: seq<ModelColumn>, c: ModelColumn, name: string)
    ensures ColumnNamed(columns + [c], name) ==
      if ColumnNamed(columns, name).Some? then ColumnNamed(columns, name)
      else if c.columnName == name then Some(c) else None
  {
    if columns != [] {
      assert (columns + [c])[1..] == columns[1..] + [c];
      ColumnNamedSnoc(columns[1..], c, name);
    }
  }

  /** The client's test for a missing required value: undefined or "" (null is not tested). */
  predicate IsEmptyInput(v: JsValue)
  {
    v == Undefined || v == Str("")
  }

  /** The names of the required editable columns whose value is missing. */
  function MissingRequired(editable: seq<ModelColumn>, formData: Entries): set<string>
  {
    set c | c in editable && c.isNullable == "NO" && IsEmptyInput(Get(formData, c.columnName)) :: c.columnName
  }

  lemma MissingSnoc(editable: seq<ModelColumn>, col: ModelColumn, formData: Entries)
    ensures MissingRequired(editable + [col], formData) ==
      MissingRequired(editable, formData) +
      (if col.isNullable == "NO" && IsEmptyInput(Get(formData, col.columnName)) then {col.columnName} else {})
  {
    assert forall c :: c in editable + [col] <==> c in editable || c == col;
  }

  /** The error map `validateForm` builds: one message per missing required column. */
  function RequiredErrors(editable: seq<ModelColumn>, formData: Entries): map<string, string>
  {
    map n | n in MissingRequired(editable, formData) :: RequiredMessage
  }

  lemma ErrorMapIsRequiredErrors(m: map<string, string>, editable: seq<ModelColumn>, formData: Entries)
    requires m.Keys == MissingRequired(editable, formData)
    requires forall k :: k in m ==> m[k] == RequiredMessage
    ensures m == RequiredErrors(editable, formData)
    ensures m == map[] <==> MissingRequired(editable, formData) == {}
  {
    if m != map[] {
      var n :| n in m;
    }
  }

  /** The `forEach` of `validateForm`, filling `newErrors` and clearing `isValid`. */
  method CollectErrors(editable: seq<ModelColumn>, formData: Entries) returns (newErrors: map<string, string>, isValid: bool)
    ensures newErrors == RequiredErrors(editable, formData)
    ensures isValid <==> MissingRequired(editable, formData) == {}
  {
    newErrors := map[];
    isValid := true;
    for i := 0 to |editable|
      invariant newErrors.Keys == MissingRequired(editable[..i], formData)
      invariant forall k :: k in newErrors ==> newErrors[k] == RequiredMessage
      invariant isValid <==> newErrors == map[]
    {
      var col := editable[i];
      assert editable[..i + 1] == editable[..i] + [col];
      MissingSnoc(editable[..i], col, formData);
      if col.isNullable == "NO" && IsEmptyInput(Get(formData, col.columnName)) {
        newErrors := newErrors[col.columnName := RequiredMessage];
        isValid := false;
      }
    }
    assert editable[..|editable|] == editable;
    ErrorMapIsRequiredErrors(newErrors, editable, formData);
  }

  /** The conversion applied to one editable column before submitting. */
  function CoerceValue(dataType: string, v: JsValue): JsValue
  {
    if v == Str("") || v == Undefined then Null
    else if dataType in NumericTypes then NumberOf(v)
    else if dataType == "boolean" then Bool(v == Str("true"))
    else v
  }

  /** The submitted value under key `k`: converted when `k` names an editable column, untouched otherwise. */
  function Processed(editable: seq<ModelColumn>, formData: Entries, k: string): JsValue
  {
    match ColumnNamed(editable, k)
    case Some(c) => CoerceValue(c.dataType, Get(formData, k))
    case None => Get(formData, k)
  }

  /** Converting one more column changes the submitted value under its name only. */
  lemma ProcessedSnoc(editable: seq<ModelColumn>, col: ModelColumn, formData: Entries, k: string)
    requires forall c :: c in editable ==> c.columnName != col.columnName
    ensures Processed(editable + [col], formData, k) ==
      if k == col.columnName then CoerceValue(col.dataType, Get(formData, k)) else Processed(editable, formData, k)
  {
    ColumnNamedSnoc(editable, col, k);
  }

  lemma NameNotInPrefix(editable: seq<ModelColumn>, i: nat)
    requires DistinctNames(editable) && i < |editable|
    ensures forall c :: c in editable[..i] ==> c.columnName != editable[i].columnName
  {
    forall c | c in editable[..i] ensures c.columnName != editable[i].columnName {
      var j :| 0 <= j < i && editable[j] == c;
    }
  }

  /** An update of one key keeps the old keys as a prefix and, when they were distinct, distinct. */
  lemma SetKeepsPrefix(formData: Entries, obj: Entries, key: string, v: JsValue)
    requires Keys(formData) <= Keys(obj)
    requires DistinctKeys(formData) ==> DistinctKeys(obj)
    ensures Keys(formData) <= Keys(Set(obj, key, v))
    ensures DistinctKeys(formData) ==> DistinctKeys(Set(obj, key, v))
    ensures forall k :: k in Keys(Set(obj, key, v)) <==> k in Keys(obj) || k == key
  {
    SetKeys(obj, key, v);
    if DistinctKeys(formData) {
      SetKeepsKeysDistinct(obj, key, v);
    }
  }

  /** After column `i` is converted, the keys are the form's keys and the names of columns `0..i`. */
  lemma ProcessedKeysStep(formData: Entries, before: Entries, after: Entries, editable: seq<ModelColumn>, i: nat)
    requires i < |editable|
    requires forall k :: k in Keys(before) <==> k in Keys(formData) || ColumnNamed(editable[..i], k).Some?
    requires forall k :: k in Keys(after) <==> k in Keys(before) || k == editable[i].columnName
    ensures forall k :: k in Keys(after) <==> k in Keys(formData) || ColumnNamed(editable[..i + 1], k).Some?
  {
    assert editable[..i + 1] == editable[..i] + [editable[i]];
    forall k
      ensures ColumnNamed(editable[..i + 1], k).Some? <==> ColumnNamed(editable[..i], k).Some? || k == editable[i].columnName
    {
      ColumnNamedSnoc(editable[..i], editable[i], k);
    }
  }

  /** The `processedData` loop of `handleSubmit`, rewriting a copy of `formData` column by column. */
  method ProcessData(editable: seq<ModelColumn>, formData: Entries) returns (processed: Entries)
    requires DistinctNames(editable)
    ensures forall k :: Get(processed, k) == Processed(editable, formData, k)
    ensures Keys(formData) <= Keys(processed)
    ensures DistinctKeys(formData) ==> DistinctKeys(processed)
    ensures forall k :: k in Keys(processed) <==> k in Keys(formData) || ColumnNamed(editable, k).Some?
  {
    processed := formData;
    for i := 0 to |editable|
      invariant forall k :: Get(processed, k) == Processed(editable[..i], formData, k)
      invariant Keys(formData) <= Keys(processed)
      invariant DistinctKeys(formData) ==> DistinctKeys(processed)
      invariant forall k :: k in Keys(processed) <==> k in Keys(formData) || ColumnNamed(editable[..i], k).Some?
    {
      var col := editable[i];
      var name := col.columnName;
      NameNotInPrefix(editable, i);
      assert editable[..i + 1] == editable[..i] + [col];
      var value := Get(processed, name);
      assert value == Get(formData, name);
      var before := processed;
      if value == Str("") || value == Undefined {
        SetKeepsPrefix(formData, processed, name, Null);
        processed := Set(processed, name, Null);
      } else if col.dataType in NumericTypes {
        SetKeepsPrefix(formData, processed, name, NumberOf(value));
        processed := Set(processed, name, NumberOf(value));
      } else if col.dataType == "boolean" {
        SetKeepsPrefix(formData, processed, name, Bool(value == Str("true")));
        processed := Set(processed, name, Bool(value == Str("true")));
      } else {
        assert name in Keys(formData);
      }
      assert forall k :: k in Keys(processed) <==> k in Keys(before) || k == name;
      assert Get(processed, name) == CoerceValue(col.dataType, value);
      assert forall k :: k != name ==> Get(processed, k) == Get(before, k);
      forall k ensures Get(processed, k) == Processed(editable[..i + 1], formData, k) {
        ProcessedSnoc(editable[..i], col, formData, k);
      }
      ProcessedKeysStep(formData, before, processed, editable, i);
    }
    assert editable[..|editable|] == editable;
  }

  /** What `await addModelRow(...)` gives the form: the action's `data`, if any, or a thrown error. */
  datatype SubmitReply = Answered(data: Option<AdminModels.AddModelRowResult>) | Threw(message: string)

  /** The toast `handleSubmit` shows for the server's reply. */
  function ReplyToast(reply: SubmitReply): (t: Toast)
    ensures t.Success? <==> reply.Answered? && reply.data.Some? && reply.data.value.Added?
    ensures t.Failure? ==> t.message != ""
    ensures reply.Answered? && reply.data.Some? && reply.data.value.Failed? && reply.data.value.error != "" ==>
      t == Failure(reply.data.value.error)
    ensures reply.Answered? && (reply.data.None? || reply.data.value == AdminModels.Failed("")) ==>
      t == Failure(AddFailedMessage)
    ensures reply.Threw? ==> t == Failure(if reply.message != "" then reply.message else UnexpectedMessage)
  {
    match reply
    case Answered(data) =>
      if data.Some? && data.value.Added? then Success(AddedMessage)
      else if data.Some? && data.value.error != "" then Failure(data.value.error)
      else Failure(AddFailedMessage)
    case Threw(m) => Failure(if m != "" then m else UnexpectedMessage)
  }

  /** Every field the form holds belongs to an editable column: the inputs are rendered only for those. */
  predicate KeysEditable(formData: Entries, editable: seq<ModelColumn>)
  {
    forall k :: k in Keys(formData) ==> ColumnNamed(editable, k).Some?
  }

  /** Storing a value under an editable column keeps the form's keys distinct and editable. */
  lemma SetKeepsKeysEditable(formData: Entries, column: string, value: JsValue, editable: seq<ModelColumn>)
    requires DistinctKeys(formData) && KeysEditable(formData, editable) && ColumnNamed(editable, column).Some?
    ensures DistinctKeys(Set(formData, column, value)) && KeysEditable(Set(formData, column, value), editable)
  {
    SetKeepsKeysDistinct(formData, column, value);
    SetKeys(formData, column, value);
  }

  /** The dialog's React state. */
  class AddRowForm {
    const modelName: string
    const columns: seq<ModelColumn>
    var open: bool
    var formData: Entries
    var isSubmitting: bool
    var errors: map<string, string>

    ghost predicate Valid()
      reads this
    {
      && DistinctNames(columns)
      && DistinctKeys(formData)
      && KeysEditable(formData, EditableColumns(columns))
      && !isSubmitting
      && forall k :: k in errors ==> errors[k] != ""
    }

    constructor (modelName: string, columns: seq<ModelColumn>)
      requires DistinctNames(columns)
      ensures Valid()
      ensures this.modelName == modelName && this.columns == columns
      ensures !open && formData == [] && errors == map[]
    {
      this.modelName := modelName;
      this.columns := columns;
      open := false;
      formData := [];
      isSubmitting := false;
      errors := map[];
    }

    function Editable(): seq<ModelColumn>
    {
      EditableColumns(columns)
    }

    /** `handleInputChange(column, value)`, called by the input of an editable column. */
    method HandleInputChange(column: string, value: JsValue)
      requires Valid()
      requires ColumnNamed(Editable(), column).Some?
      modifies this
      ensures Valid()
      ensures Get(formData, column) == value
      ensures forall k :: k != column ==> Get(formData, k) == Get(old(formData), k)
      ensures errors == old(errors) - {column}
      ensures open == old(open)
    {
      SetKeepsKeysEditable(formData, column, value, Editable());
      formData := Set(formData, column, value);
      if column in errors && errors[column] != "" {
        errors := errors - {column};
      } else {
        assert column !in errors;
        assert errors - {column} == errors;
      }
    }

    /** `validateForm()`. */
    method ValidateForm() returns (isValid: bool)
      requires Valid()
      modifies this`errors
      ensures Valid()
      ensures errors == RequiredErrors(Editable(), formData)
      ensures isValid <==> MissingRequired(Editable(), formData) == {}
    {
      var newErrors;
      newErrors, isValid := CollectErrors(Editable(), formData);
      errors := newErrors;
    }

    /**
     * `handleSubmit`: validate, convert, call the server action with the
     * converted object (returned as `sent`; `None` when it is not called) and
     * react to its `reply`.
     */
    method HandleSubmit(reply: SubmitReply) returns (sent: Option<Entries>, toast: Option<Toast>)
      requires Valid()
      modifies this
      ensures Valid()
      ensures errors == RequiredErrors(Editable(), old(formData))
      ensures sent.None? <==> MissingRequired(Editable(), old(formData)) != {}
      ensures sent.None? ==> toast.None? && open == old(open) && formData == old(formData)
      ensures sent.Some? ==> forall k :: Get(sent.value, k) == Processed(Editable(), old(formData), k)
      ensures sent.Some? ==> forall k :: k in Keys(sent.value) <==> ColumnNamed(Editable(), k).Some?
      ensures sent.Some? ==> toast == Some(ReplyToast(reply))
      ensures sent.Some? && ReplyToast(reply).Success? ==> !open && formData == []
      ensures sent.Some? && ReplyToast(reply).Failure? ==> open == old(open) && formData == old(formData)
    {
      var isValid := ValidateForm();
      if !isValid {
        sent, toast := None, None;
        return;
      }
      isSubmitting := true;
      var processed := ProcessData(Editable(), formData);
      sent := Some(processed);
      var t := ReplyToast(reply);
      toast := Some(t);
      if t.Success? {
        open := false;
        formData := [];
      }
      isSubmitting := false;
    }

    /** `onOpenChange(o)`: closing the dialog this way clears the fields and the errors. */
    method OnOpenChange(o: bool)
      requires Valid()
      modifies this
      ensures Valid()
      ensures open == o
      ensures !o ==> formData == [] && errors == map[]
      ensures o ==> formData == old(formData) && errors == old(errors)
    {
      open := o;
      if !o {
        formData := [];
        errors := map[];
      }
    }

    /** The "Annuler" button: `setOpen(false)` alone, which keeps the fields and the errors. */
    method Cancel()
      requires Valid()
      modifies this`open
      ensures Valid()
      ensures !open
    {
      open := false;
    }
  }

  /** A boolean radio stores the JavaScript value `true`, and the conversion turns it into `false`. */
  lemma BooleanTrueSubmittedAsFalse(editable: seq<ModelColumn>, formData: Entries, c: ModelColumn)
    requires DistinctNames(editable) && c in editable && c.dataType == "boolean"
    requires Get(formData, c.columnName) == Bool(true)
    ensures Processed(editable, formData, c.columnName) == Bool(false)
  {
    ColumnNamedUnique(editable, c);
  }

  /** After the dialog is reset, validating reports every required editable column. */
  lemma EmptyFormMissesEveryRequired(editable: seq<ModelColumn>)
    ensures MissingRequired(editable, []) == set c | c in editable && c.isNullable == "NO" :: c.columnName
  {
  }

  /**
   * The form passes every column, `id` included, as `fields`, but never fills
   * `id`: when `id` is declared NOT NULL the server action rejects the
   * converted data, whatever the user typed.
   */
  lemma NotNullIdAlwaysRejected(columns: seq<ModelColumn>, formData: Entries, processed: Entries, model: string)
    requires DistinctNames(columns)
    requires exists c :: c in columns && c.columnName == "id" && c.isNullable == "NO"
    requires KeysEditable(formData, EditableColumns(columns))
    requires forall k :: Get(processed, k) == Processed(EditableColumns(columns), formData, k)
    ensures AdminModels.PrepareInsert(AdminModels.AdminRole, model, columns, processed).Err?
  {
    var editable := EditableColumns(columns);
    assert ColumnNamed(editable, "id").None?;
    assert "id" !in Keys(formData);
    assert Get(processed, "id") == Undefined;
    var required := AdminModels.RequiredFields(columns);
    assert "id" in required;
    assert !(forall f :: f in required ==> !AdminModels.IsBlank(Get(processed, f)));
  }
}

/** The store of custom field values of tasks (backend/app/api/tasks.py):
    one row per task and field, defaults for fields without a row. */
module CustomFields {
  import opened Prelude
  import opened BoardModel

  type FieldId = nat
  type Value = string  // the JSON text of a value that is not null

  datatype Definition = Definition(id: FieldId, required: bool, default: Option<Value>)

  type Definitions = map<string, Definition>
  type Payload = map<string, Option<Value>>  // an explicit null is `None`
  type Fields = map<string, Option<Value>>   // what a read answers

  datatype Row = Row(task: TaskId, field: FieldId, value: Value)

  datatype FieldError =
    | UnknownKeys(keys: set<string>)
    | InvalidValue(key: string)
    | MissingRequired(keys: set<string>)

  predicate DistinctIds(defs: Definitions) {
    forall k, l :: k in defs && l in defs && defs[k].id == defs[l].id ==> k == l
  }

  /** At most one row exists per task and field. */
  ghost predicate UniqueRows(rows: seq<Row>) {
    forall i, j :: 0 <= i < j < |rows| ==> rows[i].task != rows[j].task || rows[i].field != rows[j].field
  }

  predicate IsFieldOf(defs: Definitions, keys: set<string>, f: FieldId) {
    exists k :: k in keys && k in defs && defs[k].id == f
  }

  predicate HasRow(rows: seq<Row>, t: TaskId, f: FieldId) {
    exists r :: r in rows && r.task == t && r.field == f
  }

  ghost function Stored(rows: seq<Row>, t: TaskId, f: FieldId): Option<Value> {
    if HasRow(rows, t, f) then
      var r :| r in rows && r.task == t && r.field == f;
      Some(r.value)
    else None
  }

  ghost function View(defs: Definitions, rows: seq<Row>, t: TaskId): Fields {
    map k | k in defs :: var v := Stored(rows, t, defs[k].id); if v.Some? then v else defs[k].default
  }

  function Defaults(defs: Definitions): Fields {
    map k | k in defs :: defs[k].default
  }

  /** A payload laid over what was there; an explicit null means the default. */
  function Overlay(defs: Definitions, view: Fields, payload: Payload): Fields
    requires defs.Keys <= view.Keys
  {
    map k | k in defs ::
      if k !in payload then view[k]
      else if payload[k].Some? then payload[k]
      else defs[k].default
  }

  /** The value that the check for required fields looks at: here a null stays null. */
  function Effective(view: Fields, payload: Payload, k: string): Option<Value>
    requires k in view
  {
    if k in payload then payload[k] else view[k]
  }

  predicate Accepts(defs: Definitions, valid: (string, Option<Value>) -> bool, view: Fields, payload: Payload)
    requires defs.Keys <= view.Keys
  {
    && payload.Keys <= defs.Keys
    && (forall k :: k in payload ==> valid(k, payload[k]))
    && (forall k :: k in defs && defs[k].required ==> Effective(view, payload, k).Some?)
  }

  // ---- rows -------------------------------------------------------------------

  lemma StoredIs(rows: seq<Row>, r: Row)
    requires UniqueRows(rows) && r in rows
    ensures Stored(rows, r.task, r.field) == Some(r.value)
  {
  }

  lemma AddedRow(rows: seq<Row>, r: Row)
    requires UniqueRows(rows) && !HasRow(rows, r.task, r.field)
    ensures UniqueRows(rows + [r])
    ensures forall t, f :: Stored(rows + [r], t, f) == if t == r.task
      && f == r.field then Some(r.value) else Stored(rows, t, f)
  {
    var after := rows + [r];
    assert UniqueRows(after);
    forall t, f ensures Stored(after, t, f) == if t == r.task
      && f == r.field then Some(r.value) else Stored(rows, t, f) {
      if t == r.task && f == r.field {
        StoredIs(after, r);
      } else if HasRow(rows, t, f) {
        var q :| q in rows && q.task == t && q.field == f;
        StoredIs(rows, q);
        StoredIs(after, q);
      }
    }
  }

  lemma ChangedRow(rows: seq<Row>, i: nat, v: Value)
    requires UniqueRows(rows) && i < |rows|
    ensures var after := rows[i := rows[i].(value := v)];
      && UniqueRows(after)
      && forall t, f :: Stored(after, t, f) == if t == rows[i].task
        && f == rows[i].field then Some(v) else Stored(rows, t, f)
  {
    var after := rows[i := rows[i].(value := v)];
    forall t, f ensures Stored(after, t, f) == if t == rows[i].task
      && f == rows[i].field then Some(v) else Stored(rows, t, f) {
      if t == rows[i].task && f == rows[i].field {
        StoredIs(after, after[i]);
      } else if HasRow(rows, t, f) {
        var q :| q in rows && q.task == t && q.field == f;
        var j :| 0 <= j < |rows| && rows[j] == q;
        assert after[j] == q;
        StoredIs(rows, q);
        StoredIs(after, q);
      } else {
        assert forall q :: q in after ==> q in rows || q == after[i];
      }
    }
  }

  lemma RemovedRow(rows: seq<Row>, i: nat)
    requires UniqueRows(rows) && i < |rows|
    ensures var after := rows[..i] + rows[i + 1..];
      && UniqueRows(after)
      && forall t, f :: Stored(after, t, f) == if t == rows[i].task
        && f == rows[i].field then None else Stored(rows, t, f)
  {
    var after := rows[..i] + rows[i + 1..];
    assert rows == rows[..i] + [rows[i]] + rows[i + 1..];
    assert forall q :: q in rows <==> q in after || q == rows[i];
    assert forall j :: 0 <= j < |after| ==> after[j].task != rows[i].task || after[j].field != rows[i].field;
    assert UniqueRows(after);
    forall t, f ensures Stored(after, t, f) == if t == rows[i].task
      && f == rows[i].field then None else Stored(rows, t, f) {
      if HasRow(after, t, f) {
        var q :| q in after && q.task == t && q.field == f;
        StoredIs(after, q);
        StoredIs(rows, q);
      }
    }
  }

  /** One more row changes one field of what its task reads. */
  lemma ViewWithRow(defs: Definitions, rows: seq<Row>, r: Row, t: TaskId)
    requires DistinctIds(defs) && UniqueRows(rows) && !HasRow(rows, r.task, r.field)
    ensures t != r.task || !IsFieldOf(defs, defs.Keys, r.field) ==> View(defs, rows + [r], t) == View(defs, rows, t)
    ensures forall k :: k in defs && defs[k].id == r.field ==>
      View(defs, rows + [r], r.task) == View(defs, rows, r.task)[k := Some(r.value)]
  {
    AddedRow(rows, r);
    hide Stored, HasRow, UniqueRows;
    forall k | k in defs && defs[k].id == r.field
      ensures View(defs, rows + [r], r.task) == View(defs, rows, r.task)[k := Some(r.value)]
    {
      assert forall l :: l in defs && l != k ==> defs[l].id != r.field;
    }
    if t != r.task || !IsFieldOf(defs, defs.Keys, r.field) {
      assert forall k :: k in defs ==> t != r.task || defs[k].id != r.field;
    }
  }

  /** The values read of these tasks are what the rows say. */
  ghost predicate AllRead(defs: Definitions, values: map<TaskId, Fields>, tasks: seq<TaskId>, rows: seq<Row>) {
    values.Keys == Elements(tasks) && forall t :: t in tasks ==> values[t] == View(defs, rows, t)
  }

  ghost predicate IsKeyOf(defs: Definitions, keyOf: map<FieldId, string>) {
    && (forall k :: k in defs ==> defs[k].id in keyOf && keyOf[defs[k].id] == k)
    && (forall f :: f in keyOf ==> keyOf[f] in defs && defs[keyOf[f]].id == f)
  }

  /** `values_by_task_id[task_id][key] = value` for a known field of a listed task. */
  function WithRow(values: map<TaskId, Fields>, keyOf: map<FieldId, string>, r: Row): map<TaskId, Fields> {
    if r.task in values && r.field in keyOf then
      values[r.task := values[r.task][keyOf[r.field] := Some(r.value)]]
    else values
  }

  lemma KeysOf(defs: Definitions, keyOf: map<FieldId, string>)
    requires DistinctIds(defs) && keyOf == map k | k in defs :: defs[k].id := k
    ensures IsKeyOf(defs, keyOf)
  {
  }

  lemma NoRowsRead(defs: Definitions, values: map<TaskId, Fields>, tasks: seq<TaskId>)
    requires values == map t | t in tasks :: Defaults(defs)
    ensures AllRead(defs, values, tasks, [])
  {
    assert forall t :: View(defs, [], t) == Defaults(defs);
  }

  lemma AllReadMeans(defs: Definitions, values: map<TaskId, Fields>, tasks: seq<TaskId>, rows: seq<Row>)
    requires AllRead(defs, values, tasks, rows)
    ensures values.Keys == Elements(tasks) && forall t :: t in tasks ==> values[t] == View(defs, rows, t)
  {
  }

  lemma OneMoreRow(
    defs: Definitions, values: map<TaskId, Fields>, keyOf: map<FieldId, string>,
    tasks: seq<TaskId>, rows: seq<Row>, i: nat)
    requires DistinctIds(defs) && UniqueRows(rows) && IsKeyOf(defs, keyOf) && i < |rows|
    requires AllRead(defs, values, tasks, rows[..i])
    ensures AllRead(defs, WithRow(values, keyOf, rows[i]), tasks, rows[..i + 1])
  {
    var r := rows[i];
    assert rows[..i + 1] == rows[..i] + [r];
    assert !HasRow(rows[..i], r.task, r.field) && UniqueRows(rows[..i]);
    hide HasRow, UniqueRows, View, DistinctIds;
    assert r.field in keyOf <==> IsFieldOf(defs, defs.Keys, r.field);
    hide IsFieldOf;
    forall t | t in tasks ensures WithRow(values, keyOf, r)[t] == View(defs, rows[..i + 1], t) {
      ViewWithRow(defs, rows[..i], r, t);
    }
  }

  // ---- the store ----------------------------------------------------------------

  class FieldStore {
    const defs: Definitions
    var rows: seq<Row>

    ghost predicate Valid()
      reads this
    {
      DistinctIds(defs) && UniqueRows(rows)
    }

    constructor (defs: Definitions)
      requires DistinctIds(defs)
      ensures Valid() && this.defs == defs && rows == []
    {
      this.defs, rows := defs, [];
    }

    method Find(t: TaskId, f: FieldId) returns (i: int)
      requires Valid()
      ensures (0 <= i < |rows| && rows[i].task == t && rows[i].field == f) || (i == -1 && !HasRow(rows, t, f))
    {
      for j := 0 to |rows|
        invariant forall k :: 0 <= k < j ==> rows[k].task != t || rows[k].field != f
      {
        if rows[j].task == t && rows[j].field == f {
          return j;
        }
      }
      return -1;
    }

    /** Unknown keys first, then invalid values, then missing required values. */
    method Reject(valid: (string, Option<Value>) -> bool, payload: Payload, effective: Fields)
      returns (error: Option<FieldError>)
      requires effective.Keys == defs.Keys
      ensures error.None? <==>
        && payload.Keys <= defs.Keys
        && (forall k :: k in payload ==> valid(k, payload[k]))
        && (forall k :: k in defs && defs[k].required ==> effective[k].Some?)
      ensures payload.Keys - defs.Keys != {} ==> error == Some(UnknownKeys(payload.Keys - defs.Keys))
      ensures error.Some? && error.value.InvalidValue? ==>
        error.value.key in payload && payload.Keys <= defs.Keys && !valid(error.value.key, payload[error.value.key])
      ensures error.Some? && error.value.MissingRequired? ==>
        error.value.keys == set k | k in defs && defs[k].required && effective[k].None?
    {
      var unknown := payload.Keys - defs.Keys;
      if unknown != {} {
        return Some(UnknownKeys(unknown));
      }
      assert payload.Keys <= defs.Keys by {
        assert forall k :: k in payload && k !in defs ==> k in unknown;
      }
      var todo := payload.Keys;
      while todo != {}
        invariant todo <= payload.Keys
        invariant forall k :: k in payload && k !in todo ==> valid(k, payload[k])
      {
        var k :| k in todo;
        if !valid(k, payload[k]) {
          return Some(InvalidValue(k));
        }
        todo := todo - {k};
      }
      var missing := set k | k in defs && defs[k].required && effective[k].None?;
      if missing != {} {
        return Some(MissingRequired(missing));
      }
      assert forall k :: k in defs && defs[k].required && effective[k].None? ==> k in missing;
      return None;
    }

    /** Values of a new task: what the payload says, else the default; nulls get no row. */
    method SetForCreate(t: TaskId, valid: (string, Option<Value>) -> bool, payload: Payload)
      returns (error: Option<FieldError>)
      requires Valid() && forall f :: Stored(rows, t, f) == None
      modifies this
      ensures Valid()
      ensures error.None? <==> Accepts(defs, valid, Defaults(defs), payload)
      ensures View(defs, rows, t) == if error.None? then Overlay(defs, Defaults(defs), payload) else Defaults(defs)
      ensures forall u, f :: u != t || !IsFieldOf(defs, defs.Keys, f) ==> Stored(rows, u, f) == old(Stored(rows, u, f))
    {
      hide Stored, HasRow, UniqueRows, IsFieldOf, DistinctIds;
      var effective: Fields := map k | k in defs :: if k in payload then payload[k] else defs[k].default;
      error := Reject(valid, payload, effective);
      if error.Some? {
        assert View(defs, rows, t) == Defaults(defs);
        return;
      }
      AddRows(t, effective);
      assert View(defs, rows, t) == Overlay(defs, Defaults(defs), payload);
    }

    method AddRows(t: TaskId, effective: Fields)
      requires Valid() && forall f :: Stored(rows, t, f) == None
      requires effective.Keys == defs.Keys
      modifies this
      ensures Valid()
      ensures forall k :: k in defs ==> Stored(rows, t, defs[k].id) == effective[k]
      ensures forall u, f :: u != t || !IsFieldOf(defs, defs.Keys, f) ==> Stored(rows, u, f) == old(Stored(rows, u, f))
    {
      hide Stored, HasRow, UniqueRows;
      ghost var before := rows;
      var todo := defs.Keys;
      while todo != {}
        invariant todo <= defs.Keys && Valid()
        invariant forall k :: k in defs ==> Stored(rows, t, defs[k].id) == if k in todo then None else effective[k]
        invariant forall u, f :: u != t || !IsFieldOf(defs, defs.Keys, f) ==> Stored(rows, u, f) == Stored(before, u, f)
      {
        var k :| k in todo;
        todo := todo - {k};
        assert IsFieldOf(defs, defs.Keys, defs[k].id);
        hide IsFieldOf;
        if effective[k].Some? {
          AddRow(t, defs[k].id, effective[k].value);
        }
      }
    }

    method AddRow(t: TaskId, f: FieldId, value: Value)
      requires Valid() && Stored(rows, t, f) == None
      modifies this
      ensures Valid()
      ensures forall u, g :: Stored(rows, u, g) == if u == t && g == f then Some(value) else old(Stored(rows, u, g))
    {
      AddedRow(rows, Row(t, f, value));
      rows := rows + [Row(t, f, value)];
    }

    /** Changes of one task: a null takes the row away, a value adds or changes it. */
    method SetForUpdate(t: TaskId, valid: (string, Option<Value>) -> bool, payload: Payload)
      returns (error: Option<FieldError>)
      requires Valid()
      modifies this
      ensures Valid()
      ensures error.None? <==> Accepts(defs, valid, old(View(defs, rows, t)), payload)
      ensures View(defs, rows, t) == Applied(defs, valid, old(View(defs, rows, t)), payload)
      ensures forall u, f :: u != t || !IsFieldOf(defs, payload.Keys, f) ==>
        Stored(rows, u, f) == old(Stored(rows, u, f))
    {
      hide Stored, HasRow, UniqueRows, IsFieldOf, DistinctIds;
      ghost var before := rows;
      var current := Read(t);
      var effective: Fields := map k | k in defs :: if k in payload then payload[k] else current[k];
      error := Reject(valid, payload, effective);
      if error.Some? {
        return;
      }
      ChangeRows(t, payload);
      assert View(defs, rows, t) == Overlay(defs, View(defs, before, t), payload);
    }

    method ChangeRows(t: TaskId, payload: Payload)
      requires Valid() && payload.Keys <= defs.Keys
      modifies this
      ensures Valid()
      ensures forall k :: k in defs ==>
        Stored(rows, t, defs[k].id) == if k in payload then payload[k] else old(Stored(rows, t, defs[k].id))
      ensures forall u, f :: u != t || !IsFieldOf(defs, payload.Keys, f) ==>
        Stored(rows, u, f) == old(Stored(rows, u, f))
    {
      hide Stored, HasRow, UniqueRows;
      ghost var before := rows;
      var todo := payload.Keys;
      while todo != {}
        invariant todo <= payload.Keys && Valid()
        invariant forall k :: k in defs ==>
          Stored(rows, t, defs[k].id) == if k in payload
            && k !in todo then payload[k] else Stored(before, t, defs[k].id)
        invariant forall u, f :: u != t || !IsFieldOf(defs, payload.Keys, f) ==>
          Stored(rows, u, f) == Stored(before, u, f)
      {
        var k :| k in todo;
        todo := todo - {k};
        assert IsFieldOf(defs, payload.Keys, defs[k].id);
        hide IsFieldOf;
        SetOne(t, defs[k].id, payload[k]);
      }
    }

    method SetOne(t: TaskId, f: FieldId, value: Option<Value>)
      requires Valid()
      modifies this
      ensures Valid()
      ensures forall u, g :: Stored(rows, u, g) == if u == t && g == f then value else old(Stored(rows, u, g))
    {
      var i := Find(t, f);
      if value.None? {
        if i >= 0 {
          RemovedRow(rows, i);
          rows := rows[..i] + rows[i + 1..];
        }
      } else if i < 0 {
        AddedRow(rows, Row(t, f, value.value));
        rows := rows + [Row(t, f, value.value)];
      } else {
        ChangedRow(rows, i, value.value);
        rows := rows[i := rows[i].(value := value.value)];
      }
    }

    method Read(t: TaskId) returns (fields: Fields)
      requires Valid()
      ensures fields == View(defs, rows, t)
    {
      var all := ReadAll([t]);
      fields := all[t];
    }

    /** Starts from the defaults and lays the rows of the tasks over them. */
    method ReadAll(tasks: seq<TaskId>) returns (values: map<TaskId, Fields>)
      requires Valid()
      ensures values.Keys == Elements(tasks)
      ensures forall t :: t in tasks ==> values[t] == View(defs, rows, t)
    {
      hide AllRead, UniqueRows, IsKeyOf;
      var keyOf := map k | k in defs :: defs[k].id := k;
      values := map t | t in tasks :: Defaults(defs);
      KeysOf(defs, keyOf);
      NoRowsRead(defs, values, tasks);
      assert rows[..0] == [];
      for i := 0 to |rows|
        invariant AllRead(defs, values, tasks, rows[..i])
      {
        OneMoreRow(defs, values, keyOf, tasks, rows, i);
        values := WithRow(values, keyOf, rows[i]);
      }
      AllReadMeans(defs, values, tasks, rows[..|rows|]);
      assert rows[..|rows|] == rows;
    }
  }

  // ---- reads after any writes --------------------------------------------------------

  /** A rejected payload changes nothing. */
  function Applied(defs: Definitions, valid: (string, Option<Value>) -> bool, view: Fields,
      payload: Payload): (r: Fields)
    requires defs.Keys <= view.Keys
    ensures view.Keys == defs.Keys ==> r.Keys == defs.Keys
  {
    if Accepts(defs, valid, view, payload) then Overlay(defs, view, payload) else view
  }

  function Replayed(defs: Definitions, valid: (string, Option<Value>) -> bool, view: Fields,
      payloads: seq<Payload>): (r: Fields)
    requires defs.Keys == view.Keys
    ensures r.Keys == defs.Keys
  {
    if payloads == [] then view
    else Applied(defs, valid, Replayed(defs, valid, view, payloads[..|payloads| - 1]), payloads[|payloads| - 1])
  }

  /** The payload that wrote field k last, among those that were accepted. */
  function LastWriter(defs: Definitions, valid: (string, Option<Value>) -> bool, view: Fields,
      payloads: seq<Payload>, k: string): Option<Payload>
    requires defs.Keys == view.Keys
  {
    if payloads == [] then None
    else
      var front, last := payloads[..|payloads| - 1], payloads[|payloads| - 1];
      if k in last && Accepts(defs, valid, Replayed(defs, valid, view, front), last) then Some(last)
      else LastWriter(defs, valid, view, front, k)
  }

  /** A read answers what was written last: the default after a null, and what
      was there at first when nobody wrote the field. */
  lemma {:induction false} ReadsLastWrite(defs: Definitions, valid: (string, Option<Value>) -> bool,
      view: Fields, payloads: seq<Payload>, k: string)
    requires defs.Keys == view.Keys && k in defs
    ensures var w := LastWriter(defs, valid, view, payloads, k);
      && (w.Some? ==> w.value in payloads && k in w.value)
      && Replayed(defs, valid, view, payloads)[k] ==
         if w.None? then view[k] else if w.value[k].Some? then w.value[k] else defs[k].default
  {
    if payloads != [] {
      var front, last := payloads[..|payloads| - 1], payloads[|payloads| - 1];
      ReadsLastWrite(defs, valid, view, front, k);
      assert payloads == front + [last];
    }
  }

  /** Once a task exists, its required fields never read null. */
  lemma {:induction false} RequiredNeverNull(defs: Definitions, valid: (string, Option<Value>) -> bool,
      first: Payload, payloads: seq<Payload>, k: string)
    requires Accepts(defs, valid, Defaults(defs), first)
    requires k in defs && defs[k].required
    ensures Replayed(defs, valid, Overlay(defs, Defaults(defs), first), payloads)[k].Some?
  {
    assert Effective(Defaults(defs), first, k).Some?;
    if payloads != [] {
      var front, last := payloads[..|payloads| - 1], payloads[|payloads| - 1];
      RequiredNeverNull(defs, valid, first, front, k);
      var view := Replayed(defs, valid, Overlay(defs, Defaults(defs), first), front);
      if Accepts(defs, valid, view, last) {
        assert Effective(view, last, k).Some?;
      }
    }
  }

  /** Whatever is written: a field reads its first value, its default or a value
      that its definition accepts. */
  lemma {:induction false} ReadsAreValid(defs: Definitions, valid: (string, Option<Value>) -> bool,
      view: Fields, payloads: seq<Payload>, k: string)
    requires defs.Keys == view.Keys && k in defs
    ensures var read := Replayed(defs, valid, view, payloads)[k];
      read == view[k] || read == defs[k].default || (read.Some? && valid(k, read))
  {
    if payloads != [] {
      ReadsAreValid(defs, valid, view, payloads[..|payloads| - 1], k);
    }
  }

  /** A payload that names an unknown field, holds an invalid value or takes a
      required one away changes nothing; any other one is accepted. */
  lemma RejectedChangesNothing(defs: Definitions, valid: (string, Option<Value>) -> bool, view: Fields,
      payload: Payload, k: string)
    requires defs.Keys == view.Keys
    ensures k in payload && (k !in defs || !valid(k, payload[k])) ==> Applied(defs, valid, view, payload) == view
    ensures k in defs && defs[k].required && (if k in payload then payload[k] else view[k]).None? ==>
      Applied(defs, valid, view, payload) == view
    ensures Accepts(defs, valid, view, payload) ||
      exists l :: || (l in payload && (l !in defs || !valid(l, payload[l])))
                  || (l in defs && defs[l].required && (if l in payload then payload[l] else view[l]).None?)
  {
    assert k in defs ==> Effective(view, payload, k) == if k in payload then payload[k] else view[k];
  }
}

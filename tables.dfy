/**
 * The create / list / get / update / delete handlers of tcgindex/main.py, written
 * out once for any entity, as functions from one snapshot of a table to the next.
 * Each handler runs as one atomic step: it either commits all of its effect or
 * none of it.
 */
module Tables {
  import opened Wrappers
  import opened Models

  /** Why a request failed: no row has the id (HTTP 404), or the write was
      refused because a required column would be absent or null. On create the
      payload's validation refuses it (`from_orm`) before anything is added; on
      update the database refuses it at commit. */
  datatype Error = NotFound | Rejected

  /**
   * One table: its entity's schema, the rows by primary key, the key storage
   * hands out next, and the storage clock.
   */
  datatype Store = Store(schema: Schema, rows: map<int, Row>, nextId: int, clock: Stamp)

  /** The table after a request, and what the request returns. */
  datatype Step = Step(store: Store, result: Result<Row, Error>)

  /** A row as storage holds it under `key`. */
  ghost predicate StoredAt(row: Row, key: int, schema: Schema, clock: Stamp) {
    && row.id == Some(key)
    && row.createdAt.Some? && row.createdAt.value <= clock
    && (row.updatedAt.Some? ==> row.createdAt.value < row.updatedAt.value <= clock)
    && row.fields.Keys == schema.columns
    && Conforms(schema.required, row.fields)
  }

  /** The table invariant: keys start at 1 and lie below the next key; each row
      carries its own key and its storage stamps, holds exactly the declared
      columns, and keeps its NOT NULL columns non-null. */
  ghost predicate Valid(s: Store) {
    && 1 <= s.nextId
    && forall k :: k in s.rows ==> 1 <= k < s.nextId && StoredAt(s.rows[k], k, s.schema, s.clock)
  }

  /** `a` was stored before `b`. */
  predicate KeyBelow(a: Row, b: Row) {
    a.id.Some? && b.id.Some? && a.id.value < b.id.value
  }

  /** A freshly created, empty table. */
  function Empty(schema: Schema): (s: Store)
    ensures Valid(s) && s.schema == schema && s.rows == map[]
  {
    Store(schema, map[], 1, 0)
  }

  /** `read_<entity>`: the row stored under `id`, or NotFound; never a default row. */
  function Get(s: Store, id: int): (r: Result<Row, Error>)
    requires Valid(s)
    ensures r.Ok? <==> id in s.rows
    ensures r.Ok? ==> r.value == s.rows[id] && r.value.id == Some(id)
    ensures r.Err? ==> r.error == NotFound
  {
    if id in s.rows then Ok(s.rows[id]) else Err(NotFound)
  }

  /** The rows whose keys are at least `lo`, in key order. */
  function RowsFrom(s: Store, lo: int): (r: seq<Row>)
    requires Valid(s)
    ensures forall i :: 0 <= i < |r| ==> r[i].id.Some? && lo <= r[i].id.value && r[i].id.value in s.rows && s.rows[r[i].id.value] == r[i]
    ensures forall k :: k in s.rows && lo <= k ==> s.rows[k] in r
    ensures forall i, j :: 0 <= i < j < |r| ==> KeyBelow(r[i], r[j])
    decreases s.nextId - lo
  {
    if s.nextId <= lo then []
    else (if lo in s.rows then [s.rows[lo]] else []) + RowsFrom(s, lo + 1)
  }

  /** `read_<entity>s`: every row of the table, each once, and no other row. */
  function List(s: Store): (r: seq<Row>)
    requires Valid(s)
    ensures forall row :: row in r <==> row in s.rows.Values
    ensures forall i, j :: 0 <= i < j < |r| ==> KeyBelow(r[i], r[j])
  {
    RowsFrom(s, 1)
  }

  /**
   * `create_<entity>`: storage inserts the row built from the payload under a
   * key not yet in the table, stamps its creation and leaves `updatedAt` null.
   * A payload that leaves a required column unsupplied or null is refused and
   * nothing changes.
   */
  function Create(s: Store, payload: Fields): (r: Step)
    requires Valid(s)
    ensures Valid(r.store) && r.store.schema == s.schema
    ensures !Conforms(s.schema.required, Draft(payload, s.schema).fields) ==> r == Step(s, Err(Rejected))
    ensures Conforms(s.schema.required, Draft(payload, s.schema).fields) ==>
      && r.result.Ok?
      && s.nextId !in s.rows
      && r.result.value == Row(Some(s.nextId), Some(r.store.clock), None, Draft(payload, s.schema).fields)
      && s.clock < r.store.clock
      && r.store.rows == s.rows[s.nextId := r.result.value]
      && Get(r.store, s.nextId) == r.result
      && (forall k :: k != s.nextId ==> Get(r.store, k) == Get(s, k))
  {
    var draft := Draft(payload, s.schema);
    if !Conforms(s.schema.required, draft.fields) then Step(s, Err(Rejected))
    else
      var now := s.clock + 1;
      var row := draft.(id := Some(s.nextId), createdAt := Some(now));
      Step(Store(s.schema, s.rows[s.nextId := row], s.nextId + 1, now), Ok(row))
  }

  /** The row's attributes after the supplied fields are assigned onto them: every
      supplied field takes its supplied value, even `Null`; every other field keeps
      its prior value. */
  function Overlay(fields: Fields, patch: Fields): (r: Fields)
    ensures r.Keys == fields.Keys + patch.Keys
    ensures forall k :: k in patch ==> r[k] == patch[k]
    ensures forall k :: k in fields && k !in patch ==> r[k] == fields[k]
  {
    fields + patch
  }

  /**
   * `update_<entity>`: NotFound if the key is absent; otherwise the supplied
   * declared columns are assigned onto the row. When that changes the row, storage issues
   * an UPDATE and stamps `updatedAt`; when it changes nothing, no UPDATE is
   * issued and the row is returned as it was. The key and `createdAt` never
   * change, and no other row does.
   */
  function Update(s: Store, id: int, patch: Fields): (r: Step)
    requires Valid(s)
    ensures Valid(r.store) && r.store.schema == s.schema
    ensures id !in s.rows ==> r == Step(s, Err(NotFound))
    ensures r.result == Err(NotFound) <==> id !in s.rows
    ensures r.result.Err? ==> r.store == s
    ensures id in s.rows ==>
      var old_ := s.rows[id];
      var fields := Overlay(old_.fields, Supplied(patch, s.schema));
      && (r.result.Err? <==> !Conforms(s.schema.required, fields))
      && (r.result.Err? ==> r.result.error == Rejected)
      && (r.result.Ok? ==>
            && r.result.value.id == old_.id
            && r.result.value.createdAt == old_.createdAt
            && r.result.value.fields == fields
            && r.store.rows == s.rows[id := r.result.value]
            && r.store.rows.Keys == s.rows.Keys
            && Get(r.store, id) == r.result
            && (fields == old_.fields ==> r.store == s && r.result.value == old_)
            && (fields != old_.fields ==>
                  s.clock < r.store.clock && r.result.value.updatedAt == Some(r.store.clock)))
  {
    if id !in s.rows then Step(s, Err(NotFound))
    else
      var row := s.rows[id];
      var fields := Overlay(row.fields, Supplied(patch, s.schema));
      if !Conforms(s.schema.required, fields) then Step(s, Err(Rejected))
      else if fields == row.fields then Step(s, Ok(row))
      else
        var now := s.clock + 1;
        var row' := row.(fields := fields, updatedAt := Some(now));
        Step(s.(rows := s.rows[id := row'], clock := now), Ok(row'))
  }

  /**
   * `delete_<entity>`: NotFound if the key is absent; otherwise exactly that
   * key is removed and the row is returned as it was. Nothing else changes.
   */
  function Delete(s: Store, id: int): (r: Step)
    requires Valid(s)
    ensures Valid(r.store) && r.store.schema == s.schema
    ensures id !in s.rows ==> r == Step(s, Err(NotFound))
    ensures id in s.rows ==>
      && r.result == Ok(s.rows[id])
      && r.store.rows == s.rows - {id}
      && Get(r.store, id) == Err(NotFound)
      && (forall k :: k != id ==> Get(r.store, k) == Get(s, k))
  {
    if id !in s.rows then Step(s, Err(NotFound))
    else Step(s.(rows := s.rows - {id}), Ok(s.rows[id]))
  }

  /** Creating a row appends it to the listing: its key is larger than every stored key. */
  lemma ListAfterCreate(s: Store, payload: Fields)
    requires Valid(s)
    ensures var r := Create(s, payload);
            List(r.store) == if r.result.Ok? then List(s) + [r.result.value] else List(s)
  {
    var r := Create(s, payload);
    if r.result.Ok? {
      RowsFromAfterCreate(s, r.store, r.result.value, 1);
    }
  }

  lemma {:induction false} RowsFromAfterCreate(s: Store, s': Store, row: Row, lo: int)
    requires Valid(s) && Valid(s')
    requires s'.rows == s.rows[s.nextId := row] && s'.nextId == s.nextId + 1
    requires lo <= s.nextId
    ensures RowsFrom(s', lo) == RowsFrom(s, lo) + [row]
    decreases s.nextId - lo
  {
    if lo == s.nextId {
      assert RowsFrom(s', lo + 1) == [];
    } else {
      RowsFromAfterCreate(s, s', row, lo + 1);
    }
  }

  /** Updating a row keeps the listing's order and length and replaces only that row. */
  lemma ListAfterUpdate(s: Store, id: int, patch: Fields)
    requires Valid(s)
    ensures var r := Update(s, id, patch);
            var before, after := List(s), List(r.store);
            && |after| == |before|
            && forall i :: 0 <= i < |before| ==>
                 after[i] == if before[i].id == Some(id) && r.result.Ok? then r.result.value else before[i]
  {
    var r := Update(s, id, patch);
    if r.result.Ok? {
      RowsFromAfterUpdate(s, r.store, id, r.result.value, 1);
    }
  }

  lemma {:induction false} RowsFromAfterUpdate(s: Store, s': Store, id: int, row: Row, lo: int)
    requires Valid(s) && Valid(s')
    requires id in s.rows && s'.rows == s.rows[id := row] && s'.nextId == s.nextId
    ensures Replaced(RowsFrom(s, lo), RowsFrom(s', lo), id, row)
    decreases s.nextId - lo
  {
    if lo < s.nextId {
      RowsFromAfterUpdate(s, s', id, row, lo + 1);
      var head := if lo in s.rows then [s.rows[lo]] else [];
      var head' := if lo in s'.rows then [s'.rows[lo]] else [];
      assert RowsFrom(s, lo) == head + RowsFrom(s, lo + 1);
      assert RowsFrom(s', lo) == head' + RowsFrom(s', lo + 1);
      ReplacedConcat(head, head', RowsFrom(s, lo + 1), RowsFrom(s', lo + 1), id, row);
    }
  }

  /** `after` is `before` with every row stored under `id` replaced by `row`. */
  ghost predicate Replaced(before: seq<Row>, after: seq<Row>, id: int, row: Row) {
    && |after| == |before|
    && forall i :: 0 <= i < |before| ==> after[i] == if before[i].id == Some(id) then row else before[i]
  }

  /** Replacing a row in two listings replaces it in their concatenation. */
  lemma ReplacedConcat(a: seq<Row>, a': seq<Row>, b: seq<Row>, b': seq<Row>, id: int, row: Row)
    requires Replaced(a, a', id, row) && Replaced(b, b', id, row)
    ensures Replaced(a + b, a' + b', id, row)
  {
  }

  /** Sending the same patch twice has the effect of sending it once; the second
      request changes nothing and returns the same row or the same error. */
  lemma UpdateIdempotent(s: Store, id: int, patch: Fields)
    requires Valid(s)
    ensures var first := Update(s, id, patch);
            Update(first.store, id, patch) == Step(first.store, first.result)
  {
  }

  /** A patch that supplies each declared column with the value it already holds
      (`None` onto `None` included) is no net change: storage issues no UPDATE,
      so the table and the row, `updatedAt` included, stay as they were. Keys
      the schema does not declare are dropped and change nothing either. */
  lemma UpdateWithoutChange(s: Store, id: int, patch: Fields)
    requires Valid(s) && id in s.rows
    requires forall k :: k in patch && k in s.schema.columns ==> s.rows[id].fields[k] == patch[k]
    ensures Update(s, id, patch) == Step(s, Ok(s.rows[id]))
  {
  }

  /** Assigning the same fields a second time changes nothing. */
  lemma OverlayIdempotent(fields: Fields, patch: Fields)
    ensures Overlay(Overlay(fields, patch), patch) == Overlay(fields, patch)
  {
  }

  /** A Game table keeps a non-null `name` on every row, and a create that would
      leave it out or null is refused. */
  lemma GameNameRequired(s: Store, payload: Fields)
    requires Valid(s) && s.schema == SchemaOf(Game)
    ensures forall k :: k in s.rows ==> "name" in s.rows[k].fields && s.rows[k].fields["name"] != Null
    ensures ("name" !in payload || payload["name"] == Null) ==> Create(s, payload) == Step(s, Err(Rejected))
  {
  }
}

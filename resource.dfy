/**
 * The handler block of tcgindex/main.py as one object per table: the rows live
 * in a map the methods reassign, and each method is proved to leave the table
 * exactly as the matching function of module Tables says.
 */
module Resource {
  import opened Wrappers
  import opened Models
  import opened Tables

  /** `for key, value in data.items(): setattr(row, key, value)`: assigns each
      supplied field in turn. The order does not matter, since keys are distinct. */
  method ApplyPatch(fields: Fields, patch: Fields) returns (out: Fields)
    ensures out == Overlay(fields, patch)
  {
    out := fields;
    var pending := patch.Keys;
    while pending != {}
      invariant pending <= patch.Keys
      invariant out == fields + (patch - pending)
      decreases pending
    {
      var key :| key in pending;
      assert fields + (patch - (pending - {key})) == (fields + (patch - pending))[key := patch[key]];
      out := out[key := patch[key]];
      pending := pending - {key};
    }
    assert patch - {} == patch;
  }

  /** One entity's table. */
  class Table {
    const schema: Schema
    var rows: map<int, Row>
    var nextId: int
    var clock: Stamp

    /** The table as a value. */
    function State(): Store
      reads this
    {
      Store(schema, rows, nextId, clock)
    }

    ghost predicate Valid()
      reads this
    {
      Tables.Valid(State())
    }

    /** A new, empty table for an entity with the given schema. */
    constructor (schema: Schema)
      ensures Valid() && State() == Empty(schema)
    {
      this.schema := schema;
      rows := map[];
      nextId := 1;
      clock := 0;
    }

    /** `create_<entity>` (session.add, commit, refresh). */
    method Create(payload: Fields) returns (r: Result<Row, Error>)
      requires Valid()
      modifies this
      ensures Valid()
      ensures Step(State(), r) == Tables.Create(old(State()), payload)
    {
      var draft := Draft(payload, schema);
      if !Conforms(schema.required, draft.fields) {
        return Err(Rejected);
      }
      clock := clock + 1;
      var row := draft.(id := Some(nextId), createdAt := Some(clock));
      rows := rows[nextId := row];
      nextId := nextId + 1;
      r := Ok(row);
    }

    /** `update_<entity>` (session.get, the setattr loop, commit, refresh). */
    method Update(id: int, patch: Fields) returns (r: Result<Row, Error>)
      requires Valid()
      modifies this
      ensures Valid()
      ensures Step(State(), r) == Tables.Update(old(State()), id, patch)
    {
      ghost var spec := Tables.Update(State(), id, patch);
      if id !in rows {
        return Err(NotFound);
      }
      var row := rows[id];
      var fields := ApplyPatch(row.fields, Supplied(patch, schema));
      assert fields == Overlay(row.fields, Supplied(patch, schema));
      if !Conforms(schema.required, fields) {
        return Err(Rejected);
      }
      if fields == row.fields {
        return Ok(row);
      }
      clock := clock + 1;
      row := row.(fields := fields, updatedAt := Some(clock));
      rows := rows[id := row];
      r := Ok(row);
      assert spec == Step(State(), r);
    }

    /** `delete_<entity>` (session.get, session.delete, commit). */
    method Delete(id: int) returns (r: Result<Row, Error>)
      requires Valid()
      modifies this
      ensures Valid()
      ensures Step(State(), r) == Tables.Delete(old(State()), id)
    {
      if id !in rows {
        return Err(NotFound);
      }
      r := Ok(rows[id]);
      rows := rows - {id};
    }
  }

  /** One row of a LocalizedCardName table driven through a request of every kind. */
  method NameLifecycle() {
    var names := new Table(Schema({"name", "locale"}, {"name"}));
    var n := names.Create(map["name" := Str("Ilusión")]);
    assert n.Ok? && n.value.id == Some(1) && n.value.updatedAt == None;
    assert n.value.fields["locale"] == Null;
    assert Get(names.State(), 2) == Err(NotFound);
    // Supplying None for a column that is already None changes nothing.
    var same := names.Update(1, map["locale" := Null]);
    assert same == n;
    var u := names.Update(1, map["locale" := Str("es")]);
    assert u.Ok? && u.value.fields["locale"] == Str("es") && u.value.fields["name"] == Str("Ilusión");
    assert u.value.createdAt == n.value.createdAt && u.value.updatedAt.Some?;
    var d := names.Delete(1);
    assert d == u;
    var again := names.Delete(1);
    assert again == Err(NotFound);
  }

  /** The two handler blocks of tcgindex/main.py are two independent tables:
      keys are handed out per table, and a write to one leaves the other alone. */
  method TwoResources() {
    var names := new Table(Schema({"name", "locale"}, {"name"}));
    var reprs := new Table(Schema({"name"}, {"name"}));
    var c := reprs.Create(map["name" := Str("Illusion")]);
    var n := names.Create(map["name" := Str("Ilusión")]);
    assert c.Ok? && c.value.id == Some(1) && n.Ok? && n.value.id == Some(1);
    var nameless := names.Update(1, map["name" := Null]);
    assert nameless == Err(Rejected);
    var d := names.Delete(1);
    assert Get(reprs.State(), 1) == c;
  }
}

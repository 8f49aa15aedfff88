/**
 * The row shape every table entity shares (`TimestampModel` in tcgindex/models.py)
 * and the entity classes declared beside it.
 *
 * A row is an envelope of three storage-managed columns (the primary key, the
 * creation stamp and the last-update stamp) around the entity's own attribute
 * columns. Attribute columns are kept generic, as a map from column name to value,
 * so that one table model serves every entity.
 */
module Models {
  import opened Wrappers

  /** A column value as a client sends it. `Null` is a value in its own right:
      a field supplied as `None` is different from a field not supplied. */
  datatype Value = Null | Bool(b: bool) | Int(i: int) | Str(s: string)

  /** The attribute columns of a row, or the fields a client supplied. */
  type Fields = map<string, Value>

  /** Abstract time: the storage clock is modelled as a counter. */
  type Stamp = nat

  /**
   * `TimestampModel`: `id` is absent until storage assigns the primary key,
   * `createdAt` is filled by storage at insert, `updatedAt` is nullable and
   * set by storage when a row is updated.
   */
  datatype Row = Row(id: Option<int>, createdAt: Option<Stamp>, updatedAt: Option<Stamp>, fields: Fields)

  /** The table classes declared in tcgindex/models.py. */
  datatype Entity = Catalog | Game | Expansion | Card | Printing

  /** An entity's attribute columns beside the envelope, and those of them that
      are non-optional (NOT NULL). */
  datatype Schema = Schema(columns: set<string>, required: set<string>)

  /** The schema each class of tcgindex/models.py declares. */
  function SchemaOf(e: Entity): (r: Schema)
    ensures r.required <= r.columns
    ensures "name" in r.required <==> e == Game
    ensures e == Game ==> r.columns == {"name"}
    ensures e != Game ==> r == Schema({}, {})
  {
    match e
    case Game => Schema({"name"}, {"name"})
    case _ => Schema({}, {})
  }

  /** Every required column is present and not null. */
  predicate Conforms(required: set<string>, fields: Fields) {
    forall a :: a in required ==> a in fields && fields[a] != Null
  }

  /** `from_orm`: the row built from a client payload before storage has seen it.
      It has no key and no timestamps yet. Every declared column takes its
      supplied value, or `Null` when it was not supplied. Keys the schema does
      not declare are dropped. */
  function Draft(payload: Fields, schema: Schema): (r: Row)
    ensures r.id.None? && r.createdAt.None? && r.updatedAt.None?
    ensures r.fields.Keys == schema.columns
    ensures forall c :: c in schema.columns && c in payload ==> r.fields[c] == payload[c]
    ensures forall c :: c in schema.columns && c !in payload ==> r.fields[c] == Null
  {
    Row(None, None, None, map c | c in schema.columns :: if c in payload then payload[c] else Null)
  }

  /** `dict(exclude_unset=True)` of the Update projection: the declared columns
      the client supplied, with the supplied values (`Null` included). */
  function Supplied(patch: Fields, schema: Schema): (r: Fields)
    ensures r.Keys == patch.Keys * schema.columns
    ensures forall k :: k in r ==> r[k] == patch[k]
  {
    map k | k in patch && k in schema.columns :: patch[k]
  }
}

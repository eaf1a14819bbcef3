/**
 * A database table: rows keyed by an auto-incremented id, each carrying the
 * optional `external_id` column both tables share, and the
 * `find_by(external_id:)` / `find_or_initialize_by(external_id:)` lookups.
 */
module Tables {
  import opened Wrappers

  type Id = int
  type ExternalId = string

  datatype Row<R> = Row(record: R, externalId: Option<ExternalId>)

  /** The rows and the next id the table's sequence hands out (ids start at 1). */
  datatype Table<R> = Table(rows: map<Id, Row<R>>, nextId: Id)

  predicate WellFormed<R>(t: Table<R>) {
    t.nextId >= 1 && forall id :: id in t.rows ==> 1 <= id < t.nextId
  }

  function Empty<R>(): (t: Table<R>)
    ensures WellFormed(t) && t.rows == map[]
  {
    Table(map[], 1)
  }

  /** `save` of a new record: it gets the next id. */
  function Insert<R>(t: Table<R>, row: Row<R>): (r: Table<R>)
    requires WellFormed(t)
    ensures WellFormed(r) && t.nextId !in t.rows
    ensures r.rows == t.rows[t.nextId := row] && r.nextId == t.nextId + 1
  {
    Table(t.rows[t.nextId := row], t.nextId + 1)
  }

  /** `id` is the first row, by id, whose external id is `x`. */
  predicate IsFirstWith<R>(t: Table<R>, x: Option<ExternalId>, id: Id) {
    && id in t.rows && t.rows[id].externalId == x
    && forall j :: j in t.rows && j < id ==> t.rows[j].externalId != x
  }

  predicate NoneWith<R>(t: Table<R>, x: Option<ExternalId>) {
    forall j :: j in t.rows ==> t.rows[j].externalId != x
  }

  function FindFrom<R>(t: Table<R>, x: Option<ExternalId>, from: Id): (r: Option<Id>)
    ensures r.Some? ==> from <= r.value && IsFirstWithFrom(t, x, from, r.value)
    ensures r.None? ==> forall j :: j in t.rows && from <= j < t.nextId ==> t.rows[j].externalId != x
    decreases t.nextId - from
  {
    if from >= t.nextId then None
    else if from in t.rows && t.rows[from].externalId == x then Some(from)
    else FindFrom(t, x, from + 1)
  }

  predicate IsFirstWithFrom<R>(t: Table<R>, x: Option<ExternalId>, from: Id, id: Id) {
    && id in t.rows && t.rows[id].externalId == x
    && forall j :: j in t.rows && from <= j < id ==> t.rows[j].externalId != x
  }

  /**
   * `find_by(external_id: x)`, a query without `ORDER BY`, modelled as the row
   * with the least id. A nil `x` matches the rows whose external id is nil.
   */
  function FindByExternalId<R>(t: Table<R>, x: Option<ExternalId>): (r: Option<Id>)
    requires WellFormed(t)
    ensures r.Some? ==> IsFirstWith(t, x, r.value)
    ensures r.None? ==> NoneWith(t, x)
  {
    FindFrom(t, x, 1)
  }

  /** The first-match characterisation determines the lookup. */
  lemma FindDetermined<R>(t: Table<R>, x: Option<ExternalId>, r: Option<Id>)
    requires WellFormed(t)
    requires (r.Some? && IsFirstWith(t, x, r.value)) || (r.None? && NoneWith(t, x))
    ensures FindByExternalId(t, x) == r
  {
  }

  /** The id the record for `x` is saved under: the found row, or the next fresh id. */
  function UpsertTarget<R>(t: Table<R>, x: Option<ExternalId>): Id
    requires WellFormed(t)
  {
    match FindByExternalId(t, x)
    case Some(id) => id
    case None => t.nextId
  }

  /**
   * `find_or_initialize_by(external_id: x)`, assign the record's fields, `save!`
   * (once its validations have passed).
   */
  function Upsert<R>(t: Table<R>, x: Option<ExternalId>, rec: R): (r: Table<R>)
    requires WellFormed(t)
    ensures WellFormed(r)
    ensures r.rows == t.rows[UpsertTarget(t, x) := Row(rec, x)]
    ensures FindByExternalId(t, x).Some? ==> r.nextId == t.nextId
  {
    match FindByExternalId(t, x)
    case Some(id) => t.(rows := t.rows[id := Row(rec, x)])
    case None => Insert(t, Row(rec, x))
  }

  /** After the upsert, looking `x` up finds the saved record. */
  lemma UpsertHit<R>(t: Table<R>, x: Option<ExternalId>, rec: R)
    requires WellFormed(t)
    ensures var u := Upsert(t, x, rec);
            FindByExternalId(u, x) == Some(UpsertTarget(t, x)) && u.rows[UpsertTarget(t, x)] == Row(rec, x)
  {
    var u := Upsert(t, x, rec);
    var id := UpsertTarget(t, x);
    assert IsFirstWith(u, x, id);
    FindDetermined(u, x, Some(id));
  }

  /** The upsert for `x` changes neither what another external id finds nor any other row. */
  lemma UpsertFrame<R>(t: Table<R>, x: Option<ExternalId>, rec: R, y: Option<ExternalId>)
    requires WellFormed(t) && y != x
    ensures var u := Upsert(t, x, rec);
            && FindByExternalId(u, y) == FindByExternalId(t, y)
            && (forall id :: id in t.rows && id != UpsertTarget(t, x) ==> id in u.rows && u.rows[id] == t.rows[id])
  {
    var u := Upsert(t, x, rec);
    var f := FindByExternalId(t, y);
    if f.Some? {
      assert IsFirstWith(u, y, f.value);
    } else {
      assert NoneWith(u, y);
    }
    FindDetermined(u, y, f);
  }

  /** Saving a record that is already there, under the row its external id finds, changes nothing. */
  lemma UpsertSame<R>(t: Table<R>, x: Option<ExternalId>, rec: R)
    requires WellFormed(t)
    requires FindByExternalId(t, x).Some? && t.rows[FindByExternalId(t, x).value].record == rec
    ensures Upsert(t, x, rec) == t
  {
    var id := FindByExternalId(t, x).value;
    assert t.rows[id := Row(rec, x)] == t.rows;
  }

  /** At most one row carries external id `x`. */
  predicate AtMostOneWith<R>(t: Table<R>, x: Option<ExternalId>) {
    forall i, j :: i in t.rows && j in t.rows && t.rows[i].externalId == x && t.rows[j].externalId == x ==> i == j
  }

  /** An upsert never creates a second row with the same external id. */
  lemma UpsertKeepsAtMostOne<R>(t: Table<R>, y: Option<ExternalId>, rec: R, x: Option<ExternalId>)
    requires WellFormed(t) && AtMostOneWith(t, x)
    ensures AtMostOneWith(Upsert(t, y, rec), x)
  {
    var u := Upsert(t, y, rec);
    var target := UpsertTarget(t, y);
    forall i, j | i in u.rows && j in u.rows && u.rows[i].externalId == x && u.rows[j].externalId == x
      ensures i == j
    {
      if i != target && j != target {
        assert t.rows[i] == u.rows[i] && t.rows[j] == u.rows[j];
      }
    }
  }

  /** Two tables with the same ids and the same external ids answer every lookup alike. */
  lemma FindSameExternalIds<R, S>(t: Table<R>, u: Table<S>, x: Option<ExternalId>)
    requires WellFormed(t) && WellFormed(u) && t.rows.Keys == u.rows.Keys
    requires forall id :: id in t.rows ==> u.rows[id].externalId == t.rows[id].externalId
    ensures FindByExternalId(u, x) == FindByExternalId(t, x)
  {
    var f := FindByExternalId(t, x);
    if f.Some? {
      assert IsFirstWith(u, x, f.value);
    } else {
      assert NoneWith(u, x);
    }
    FindDetermined(u, x, f);
  }
}

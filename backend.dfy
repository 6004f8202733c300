/** `Condo::Backend::ActiveRecord`: the upload-tracking backend. The table
    behind it is a map from primary key to row plus the next key the
    database will hand out; `where`, `create!`, `update_attributes` and
    `destroy` are given by their effect on that map. */
module ActiveRecordBackend {
  import opened Outcomes
  import opened RubyValues
  import opened UploadRecord

  // ---------------------------------------------------------------------
  // check_exists: criteria normalisation and the query

  /** The first rewrite of `check_exists`: a present `user_id` is replaced
      by its `to_s`; a blank one and every other key are left as given. */
  function StringifyUserId(params: map<Key, Value>): (r: map<Key, Value>)
    ensures r.Keys == params.Keys
    ensures forall k :: k in params && k != UserId ==> r[k] == params[k]
    ensures UserId in params && Present(params[UserId]) ==> r[UserId].Str? && r[UserId].s == ToS(params[UserId])
    ensures UserId in params && !Present(params[UserId]) ==> r[UserId] == params[UserId]
  {
    if UserId in params && Present(params[UserId]) then params[UserId := Str(ToS(params[UserId]))]
    else params
  }

  /** The second rewrite of `check_exists`: a present `upload_id` is taken
      out and its `to_i` stored under `id`, replacing any `id` given; `to_i`
      raises for a boolean. A blank `upload_id` stays where it is. */
  function UploadIdToId(params: map<Key, Value>): (r: Result<map<Key, Value>>)
    ensures r.Err? <==> UploadId in params && Present(params[UploadId]) && params[UploadId].Bool?
    ensures r.Err? ==> r.error == NoMethodError
    ensures r.Ok? && UploadId in params && Present(params[UploadId]) ==>
      && r.value.Keys == params.Keys - {UploadId} + {Id}
      && r.value[Id].Int? && Ok(r.value[Id].i) == ToI(params[UploadId])
    ensures r.Ok? && !(UploadId in params && Present(params[UploadId])) ==> r.value == params
    ensures r.Ok? ==> forall k :: k in params && k != UploadId && k != Id ==> r.value[k] == params[k]
  {
    if UploadId in params && Present(params[UploadId]) then
      var id :- ToI(params[UploadId]);
      Ok((params - {UploadId})[Id := Int(id)])
    else
      Ok(params)
  }

  /** The criteria `check_exists` hands to `where`, worked out on a copy of
      the caller's hash: it raises only for `upload_id: true`; otherwise no
      present `upload_id` is left, a present `user_id` is a string, and every
      key other than `user_id`, `upload_id` and `id` keeps its value. */
  function Normalize(params: map<Key, Value>): (r: Result<map<Key, Value>>)
    ensures r.Err? <==> UploadId in params && params[UploadId] == Bool(true)
    ensures r.Ok? ==> !(UploadId in r.value && Present(r.value[UploadId]))
    ensures r.Ok? ==> forall k :: k in params && k != UploadId ==> k in r.value
    ensures r.Ok? ==> r.value.Keys == (if UploadId in params && Present(params[UploadId])
                                       then params.Keys - {UploadId} + {Id} else params.Keys)
    ensures r.Ok? && !(UploadId in params && Present(params[UploadId])) ==>
      forall k :: k in params && k != UserId ==> r.value[k] == params[k]
    ensures r.Ok? && UploadId in params && Present(params[UploadId]) ==>
      Id in r.value && ToI(params[UploadId]).Ok? && r.value[Id] == Int(ToI(params[UploadId]).value)
    ensures r.Ok? && UserId in params && Present(params[UserId]) ==> r.value[UserId] == Str(ToS(params[UserId]))
    ensures r.Ok? && UserId in params && !Present(params[UserId]) ==> r.value[UserId] == params[UserId]
    ensures r.Ok? ==> forall k :: k in params && k != UserId && k != UploadId && k != Id ==> r.value[k] == params[k]
  {
    UploadIdToId(StringifyUserId(params))
  }

  /** A query names only columns of `condo_uploads`; anything else makes the
      database reject the statement. */
  predicate Queryable(criteria: map<Key, Value>) {
    forall k :: k in criteria ==> IsColumn(k)
  }

  /** The ids of the rows `where(criteria)` selects for the criteria handed
      to `check_exists`, or the exception the call raises. */
  function Candidates(table: map<int, Record>, params: map<Key, Value>): (r: Result<set<int>>)
    ensures r.Ok? <==> Normalize(params).Ok? && Queryable(Normalize(params).value)
    ensures r.Ok? ==> forall i :: i in r.value <==> i in table && Matches(table[i], Normalize(params).value)
  {
    var criteria :- Normalize(params);
    if Queryable(criteria) then Ok(set i | i in table && Matches(table[i], criteria))
    else Err(StatementInvalid)
  }

  // ---------------------------------------------------------------------
  // add_entry: stripping server-assigned keys, then create!

  /** The keys `add_entry` deletes from the caller's hash when their value is present. */
  const ServerKeys: set<Key> := {UploadId, Id, ResumableId}

  /** The caller's hash after the three guarded deletes of `add_entry`. */
  function StripServerKeys(params: map<Key, Value>): (r: map<Key, Value>)
    ensures forall k :: k in r <==> k in params && !(k in ServerKeys && Present(params[k]))
    ensures forall k :: k in r ==> r[k] == params[k]
  {
    var p1 := if UploadId in params && Present(params[UploadId]) then params - {UploadId} else params;
    var p2 := if Id in p1 && Present(p1[Id]) then p1 - {Id} else p1;
    if ResumableId in p2 && Present(p2[ResumableId]) then p2 - {ResumableId} else p2
  }

  /** Mass assignment: only `attr_accessible` attributes reach the record;
      the rest are dropped. */
  function Sanitize(params: map<Key, Value>): (r: map<Key, Value>)
    ensures forall k :: k in r <==> k in params && Accessible(k)
    ensures forall k :: k in r ==> r[k] == params[k]
  {
    map k | k in params && Accessible(k) :: params[k]
  }

  /** What the string column `user_id` holds once `v` is written to it: an
      integer is stored as its decimal string, any other value as given. */
  function StoredUserId(v: Value): (w: Value)
    ensures v.Int? ==> w == Str(DecimalString(v.i))
    ensures !v.Int? ==> w == v
  {
    if v.Int? then Str(DecimalString(v.i)) else v
  }

  /** For every value but `true`, the stored `user_id` is exactly what
      `check_exists` compares a `user_id` of that value against. */
  lemma StoredUserIdIsLookupValue(v: Value)
    requires v != Bool(true)
    ensures StoredUserId(v) == if Present(v) then Str(ToS(v)) else v
  {
    if v.Int? {
      DecimalStringPresent(v.i);
    }
  }

  /** The attributes as the database writes them: `user_id` goes through
      its string column, the other attributes are written as given. */
  function Written(attrs: map<Key, Value>): (r: map<Key, Value>)
    ensures r.Keys == attrs.Keys
    ensures UserId in attrs ==> r[UserId] == StoredUserId(attrs[UserId])
    ensures forall k :: k in attrs && k != UserId ==> r[k] == attrs[k]
  {
    if UserId in attrs then attrs[UserId := StoredUserId(attrs[UserId])] else attrs
  }

  /** The row `create!` stores: the given attributes as written, nil for the
      columns not given, both timestamps set to `now`. */
  function NewRecord(id: int, attrs: map<Key, Value>, now: int): (r: Record)
    ensures r.WellFormed() && r.PrimaryKey() == id && r.DateCreated() == Int(now)
    ensures r.Field(UpdatedAt) == Int(now)
    ensures r.Field(UserId) == if UserId in attrs then StoredUserId(attrs[UserId]) else Nil
    ensures forall k :: Accessible(k) && k != UserId ==> r.Field(k) == if k in attrs then attrs[k] else Nil
    ensures forall k :: !Accessible(k) && k != Id && k != CreatedAt && k != UpdatedAt ==> r.Field(k) == Nil
  {
    Record(id, Written(Sanitize(attrs))[CreatedAt := Int(now)][UpdatedAt := Int(now)])
  }

  // ---------------------------------------------------------------------
  // update_entry: update_attributes

  /** The row after `update_attributes` assigns `params`, before the
      timestamp: every accessible attribute passed is written, every other
      column is kept. */
  function Assign(r: Record, params: map<Key, Value>): (r': Record)
    requires r.WellFormed()
    ensures r'.WellFormed() && r'.PrimaryKey() == r.PrimaryKey() && r'.DateCreated() == r.DateCreated()
    ensures UserId in params ==> r'.Field(UserId) == StoredUserId(params[UserId])
    ensures forall k :: Accessible(k) && k in params && k != UserId ==> r'.Field(k) == params[k]
    ensures forall k :: !(Accessible(k) && k in params) ==> r'.Field(k) == r.Field(k)
  {
    Record(r.id, r.fields + Written(Sanitize(params)))
  }

  /** The row `update_attributes` saves: the assigned row with `updated_at`
      set to `now`. ActiveRecord 3.2 writes the serialized attributes
      (`custom_params`, `object_options`) on every save, and with them the
      timestamp, so the refresh happens even when no column changed. */
  function Updated(r: Record, params: map<Key, Value>, now: int): (r': Record)
    requires r.WellFormed()
    ensures r'.WellFormed() && r'.PrimaryKey() == r.PrimaryKey() && r'.DateCreated() == r.DateCreated()
    ensures UserId in params ==> r'.Field(UserId) == StoredUserId(params[UserId])
    ensures forall k :: Accessible(k) && k in params && k != UserId ==> r'.Field(k) == params[k]
    ensures forall k :: !(Accessible(k) && k in params) && k != UpdatedAt ==> r'.Field(k) == r.Field(k)
    ensures r'.Field(UpdatedAt) == Int(now)
  {
    var updated := Assign(r, params);
    var saved := Record(r.id, updated.fields[UpdatedAt := Int(now)]);
    assert forall k :: k != UpdatedAt ==> saved.Field(k) == updated.Field(k);
    saved
  }

  /** The primary key of every row is the key it is stored under. */
  ghost predicate KeyedById(table: map<int, Record>) {
    forall i :: i in table ==> table[i].id == i && table[i].WellFormed()
  }

  // ---------------------------------------------------------------------
  // The objects

  /** A caller's params hash, which `add_entry` edits in place. */
  class Params {
    var entries: map<Key, Value>

    constructor (entries: map<Key, Value>)
      ensures this.entries == entries
    {
      this.entries := entries;
    }

    /** `delete(key) if self[key].present?` */
    method DeleteIfPresent(key: Key)
      modifies this
      ensures entries == if key in old(entries) && Present(old(entries)[key]) then old(entries) - {key} else old(entries)
    {
      if key in entries && Present(entries[key]) {
        entries := entries - {key};
      }
    }
  }

  /** The `condo_uploads` table as the backend class sees it. */
  class Store {
    var records: map<int, Record>
    var nextId: int

    /** Every row sits under its own id, ids lie below the next id handed
        out, and every row stores only columns (a column it does not store
        is NULL). */
    ghost predicate Valid()
      reads this
    {
      && nextId >= 1
      && KeyedById(records)
      && forall i :: i in records ==> 1 <= i < nextId
    }

    constructor ()
      ensures Valid() && records == map[] && nextId == 1
    {
      records := map[];
      nextId := 1;
    }

    /** `check_exists`: nil when no row matches every supplied criterion,
        otherwise one matching row (`first` fixes no order); raises when a
        criterion cannot be converted or names no column. The caller's hash
        is not touched: the method may not modify it. */
    method CheckExists(params: Params) returns (r: Result<Option<Record>>)
      requires Valid()
      ensures r.Err? <==> Candidates(records, params.entries).Err?
      ensures r.Err? ==> r.error == Candidates(records, params.entries).error
      ensures r.Ok? ==> (r.value.None? <==> Candidates(records, params.entries).value == {})
      ensures r.Ok? && r.value.Some? ==>
        r.value.value.id in Candidates(records, params.entries).value &&
        records[r.value.value.id] == r.value.value
    {
      var criteria := params.entries;
      if UserId in criteria && Present(criteria[UserId]) {
        criteria := criteria[UserId := Str(ToS(criteria[UserId]))];
      }
      assert criteria == StringifyUserId(params.entries);
      if UploadId in criteria && Present(criteria[UploadId]) {
        var uploadId := criteria[UploadId];
        criteria := criteria - {UploadId};
        var id := ToI(uploadId);
        if id.Err? {
          return Err(id.error);
        }
        criteria := criteria[Id := Int(id.value)];
      }
      assert Normalize(params.entries) == Ok(criteria);
      if !Queryable(criteria) {
        return Err(StatementInvalid);
      }
      if i :| i in records && Matches(records[i], criteria) {
        r := Ok(Some(records[i]));
      } else {
        assert forall i :: i !in Candidates(records, params.entries).value;
        r := Ok(None);
      }
    }

    /** `add_entry`: deletes the present server-assigned keys from the
        caller's hash, then `create!`s a row under a fresh id, or raises
        when validation rejects the attributes. */
    method AddEntry(params: Params, accepts: map<Key, Value> -> bool, now: int) returns (r: Result<Record>)
      requires Valid()
      modifies this, params
      ensures Valid()
      ensures params.entries == StripServerKeys(old(params.entries))
      ensures r.Ok? <==> accepts(Sanitize(params.entries))
      ensures r.Ok? ==>
        && r.value == NewRecord(old(nextId), Sanitize(params.entries), now)
        && r.value.PrimaryKey() !in old(records)
        && records == old(records)[r.value.PrimaryKey() := r.value]
        && nextId > old(nextId)
      ensures r.Err? ==> r.error == RecordInvalid && records == old(records) && nextId == old(nextId)
    {
      ghost var given := params.entries;
      params.DeleteIfPresent(UploadId);
      params.DeleteIfPresent(Id);
      params.DeleteIfPresent(ResumableId);
      assert params.entries == StripServerKeys(given);
      var attrs := Sanitize(params.entries);
      if !accepts(attrs) {
        return Err(RecordInvalid);
      }
      var row := NewRecord(nextId, attrs, now);
      records := records[nextId := row];
      nextId := nextId + 1;
      r := Ok(row);
    }

    /** `update_entry` on the row stored under `id`: saves the row with the
        passed attributes set and returns it, or raises, leaving the table
        as it was, when validation rejects the instance's attributes as
        assigned (the loaded row plus the passed accessible attributes,
        before the database writes them). */
    method UpdateEntry(id: int, params: map<Key, Value>, accepts: map<Key, Value> -> bool, now: int)
      returns (r: Result<Record>)
      requires Valid() && id in records
      modifies this
      ensures Valid() && nextId == old(nextId)
      ensures r.Ok? <==> accepts(old(records)[id].fields + Sanitize(params))
      ensures r.Ok? ==> r.value == Updated(old(records)[id], params, now) && records == old(records)[id := r.value]
      ensures r.Err? ==> r.error == ResourceInvalid && records == old(records)
    {
      var row := records[id];
      if !accepts(row.fields + Sanitize(params)) {
        return Err(ResourceInvalid);
      }
      var saved := Updated(row, params, now);
      records := records[id := saved];
      r := Ok(saved);
    }

    /** `remove_entry`: destroys the row stored under `id`. */
    method RemoveEntry(id: int)
      requires Valid()
      modifies this
      ensures Valid() && nextId == old(nextId)
      ensures records == old(records) - {id}
    {
      records := records - {id};
    }
  }
}

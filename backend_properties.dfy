/** What the backend's documented contract promises, proved of the model:
    lookups by `upload_id`, the string/integer equivalence of `user_id` and
    `upload_id`, and how creating and removing rows change what a lookup
    finds. */
module BackendProperties {
  import opened Outcomes
  import opened RubyValues
  import opened UploadRecord
  import opened ActiveRecordBackend

  /** `check_exists({user_id, upload_id})` selects the row stored under that
      id when its `user_id` equals the given one as a string, and nothing
      otherwise: ids are unique, so at most one row is found. */
  lemma LookupByUploadId(table: map<int, Record>, user: Value, id: int)
    requires KeyedById(table) && Present(user)
    ensures Candidates(table, map[UserId := user, UploadId := Int(id)]) ==
      Ok(if id in table && table[id].Field(UserId) == Str(ToS(user)) then {id} else {})
  {
    UserAndUploadIdCriteria(user, id);
    RowsWithUserAndId(table, Str(ToS(user)), id);
  }

  /** In a table keyed by id, the rows matching `{user_id: u, id: id}` are
      the row under `id` if its `user_id` is `u`, and no other. */
  lemma RowsWithUserAndId(table: map<int, Record>, u: Value, id: int)
    requires KeyedById(table)
    ensures (set i | i in table && Matches(table[i], map[UserId := u, Id := Int(id)])) ==
      if id in table && table[id].Field(UserId) == u then {id} else {}
  {
    var found := set i | i in table && Matches(table[i], map[UserId := u, Id := Int(id)]);
    forall i
      ensures i in found <==> i == id && id in table && table[id].Field(UserId) == u
    {
      if i in table {
        MatchesUserAndId(table[i], u, id);
      }
    }
    if id in table && table[id].Field(UserId) == u {
      assert found == {id};
    } else {
      assert found == {};
    }
  }

  lemma MatchesUserAndId(r: Record, user: Value, id: int)
    ensures Matches(r, map[UserId := user, Id := Int(id)]) <==> r.id == id && r.Field(UserId) == user
  {
    var criteria := map[UserId := user, Id := Int(id)];
    if r.id == id && r.Field(UserId) == user {
      assert forall k :: k in criteria ==> k == UserId || k == Id;
    } else {
      assert r.Field(Id) != criteria[Id] || r.Field(UserId) != criteria[UserId];
    }
  }

  /** `{user_id, upload_id}` becomes `{user_id: user_id.to_s, id: upload_id}`. */
  lemma UserAndUploadIdCriteria(user: Value, id: int)
    requires Present(user)
    ensures Normalize(map[UserId := user, UploadId := Int(id)]) == Ok(map[UserId := Str(ToS(user)), Id := Int(id)])
  {
    var stringified := StringifyUserId(map[UserId := user, UploadId := Int(id)]);
    assert stringified == map[UserId := Str(ToS(user)), UploadId := Int(id)];
    assert (stringified - {UploadId})[Id := Int(id)] == map[UserId := Str(ToS(user)), Id := Int(id)];
  }

  /** A `user_id` given as an integer finds exactly what its decimal string
      finds: `check_exists` compares user ids as strings. */
  lemma UserIdIntegerOrString(table: map<int, Record>, params: map<Key, Value>, n: int)
    ensures Candidates(table, params[UserId := Int(n)]) == Candidates(table, params[UserId := Str(DecimalString(n))])
  {
    DecimalStringPresent(n);
    SameUserIdSameCriteria(params, Int(n), Str(DecimalString(n)));
    SameCriteriaSameRows(table, params[UserId := Int(n)], params[UserId := Str(DecimalString(n))]);
  }

  /** Two present `user_id`s with the same `to_s` give the same criteria. */
  lemma SameUserIdSameCriteria(params: map<Key, Value>, v: Value, w: Value)
    requires Present(v) && Present(w) && ToS(v) == ToS(w)
    ensures Normalize(params[UserId := v]) == Normalize(params[UserId := w])
  {
    StringifyPresentUserId(params, v);
    StringifyPresentUserId(params, w);
  }

  /** A present `user_id` is replaced by the string of its `to_s`. */
  lemma StringifyPresentUserId(params: map<Key, Value>, v: Value)
    requires Present(v)
    ensures StringifyUserId(params[UserId := v]) == params[UserId := Str(ToS(v))]
  {
  }

  /** An `upload_id` given as the decimal string of `n` finds exactly what
      `n` finds: `check_exists` converts it with `to_i`. */
  lemma UploadIdIntegerOrString(table: map<int, Record>, params: map<Key, Value>, n: int)
    ensures Candidates(table, params[UploadId := Int(n)]) == Candidates(table, params[UploadId := Str(DecimalString(n))])
  {
    DecimalStringPresent(n);
    ToIOfDecimalString(n);
    SameUploadIdSameCriteria(params, Int(n), Str(DecimalString(n)));
    SameCriteriaSameRows(table, params[UploadId := Int(n)], params[UploadId := Str(DecimalString(n))]);
  }

  /** A lookup depends on the given hash only through its criteria. */
  lemma SameCriteriaSameRows(table: map<int, Record>, p: map<Key, Value>, q: map<Key, Value>)
    requires Normalize(p) == Normalize(q)
    ensures Candidates(table, p) == Candidates(table, q)
  {
  }

  /** `n.to_s.to_i` succeeds with `n`. */
  lemma ToIOfDecimalString(n: int)
    ensures ToI(Str(DecimalString(n))) == Ok(n)
  {
    StringToIntOfDecimalString(n);
  }

  /** Two present `upload_id`s with the same `to_i` give the same criteria. */
  lemma SameUploadIdSameCriteria(params: map<Key, Value>, v: Value, w: Value)
    requires Present(v) && Present(w) && ToI(v).Ok? && ToI(v) == ToI(w)
    ensures Normalize(params[UploadId := v]) == Normalize(params[UploadId := w])
  {
    var n := ToI(v).value;
    StringifyKeepsUploadId(params, v);
    StringifyKeepsUploadId(params, w);
    PresentUploadIdBecomesId(StringifyUserId(params[UploadId := v]), n);
    PresentUploadIdBecomesId(StringifyUserId(params[UploadId := w]), n);
  }

  /** Stringifying the user id keeps `upload_id` and does not depend on it. */
  lemma StringifyKeepsUploadId(params: map<Key, Value>, v: Value)
    ensures UploadId in StringifyUserId(params[UploadId := v])
    ensures StringifyUserId(params[UploadId := v])[UploadId] == v
    ensures StringifyUserId(params[UploadId := v]) - {UploadId} == StringifyUserId(params - {UploadId})
  {
    assert StringifyUserId(params[UploadId := v]) - {UploadId} == StringifyUserId(params - {UploadId});
  }

  lemma PresentUploadIdBecomesId(criteria: map<Key, Value>, n: int)
    requires UploadId in criteria && Present(criteria[UploadId]) && ToI(criteria[UploadId]) == Ok(n)
    ensures UploadIdToId(criteria) == Ok((criteria - {UploadId})[Id := Int(n)])
  {
  }

  /** A blank `upload_id` (nil, false, or whitespace) is not rewritten, so
      the query still names `upload_id`, which is no column: the lookup
      raises instead of returning nil. */
  lemma BlankUploadIdRaises(table: map<int, Record>, params: map<Key, Value>, v: Value)
    requires !Present(v)
    ensures Candidates(table, params[UploadId := v]) == Err(StatementInvalid)
  {
    var criteria := StringifyUserId(params[UploadId := v]);
    assert UploadId in criteria && !IsColumn(UploadId);
  }

  /** Removing a row leaves every other row where a lookup finds it, and
      takes only the removed id out of every lookup's result. */
  lemma RemoveTakesOnlyThatRow(table: map<int, Record>, id: int, params: map<Key, Value>)
    ensures Candidates(table - {id}, params) ==
      if Candidates(table, params).Ok? then Ok(Candidates(table, params).value - {id})
      else Candidates(table, params)
  {
    var before := Candidates(table, params);
    var after := Candidates(table - {id}, params);
    if before.Ok? {
      assert after.value == before.value - {id};
    }
  }

  /** After `remove_entry`, `check_exists` by that row's `upload_id` (with
      any present `user_id`) returns nil. */
  lemma RemovedRowNotFound(table: map<int, Record>, id: int, user: Value)
    requires KeyedById(table) && Present(user)
    ensures Candidates(table - {id}, map[UserId := user, UploadId := Int(id)]) == Ok({})
  {
    LookupByUploadId(table - {id}, user, id);
  }

  /** Storing a row under an unused id adds that id to exactly the lookups
      the row matches and changes no other lookup. */
  lemma InsertAddsOnlyThatRow(table: map<int, Record>, row: Record, params: map<Key, Value>)
    requires row.id !in table
    ensures Candidates(table[row.id := row], params) ==
      if Candidates(table, params).Ok? then
        Ok(Candidates(table, params).value + if Matches(row, Normalize(params).value) then {row.id} else {})
      else Candidates(table, params)
  {
    var before := Candidates(table, params);
    var after := Candidates(table[row.id := row], params);
    if before.Ok? {
      var added: set<int> := if Matches(row, Normalize(params).value) then {row.id} else {};
      forall i
        ensures i in after.value <==> i in before.value + added
      {
        if i != row.id {
          assert i in table[row.id := row] <==> i in table;
        }
      }
      assert after.value == before.value + added;
    }
  }

  /** Duplicate detection: when no earlier upload matches a query on the
      attributes the caller gave `add_entry`, the row `add_entry` creates is
      the one and only row that query finds. A `user_id` may be given as an
      integer or a string; only `true`, which the string column and the
      lookup spell differently, is excluded. */
  lemma CreatedRowIsFound(table: map<int, Record>, id: int, given: map<Key, Value>, now: int, query: map<Key, Value>)
    requires id !in table
    requires forall k :: k in query ==> Accessible(k) && k != ResumableId && k in given && query[k] == given[k]
    requires UserId in query ==> query[UserId] != Bool(true)
    requires Candidates(table, query) == Ok({})
    ensures Candidates(table[id := NewRecord(id, Sanitize(StripServerKeys(given)), now)], query) == Ok({id})
  {
    var row := NewRecord(id, Sanitize(StripServerKeys(given)), now);
    CreatedRowMatches(id, given, now, query);
    InsertAddsOnlyThatRow(table, row, query);
    assert {} + {id} == {id};
  }

  /** The row `add_entry` creates matches the criteria `check_exists` makes
      of every query on attributes the caller gave it, other than a stripped
      `resumable_id`; an integer `user_id` matches because the column stores
      it as the string the lookup compares against. */
  lemma CreatedRowMatches(id: int, given: map<Key, Value>, now: int, query: map<Key, Value>)
    requires forall k :: k in query ==> Accessible(k) && k != ResumableId && k in given && query[k] == given[k]
    requires UserId in query ==> query[UserId] != Bool(true)
    ensures Normalize(query) == Ok(StringifyUserId(query))
    ensures Matches(NewRecord(id, Sanitize(StripServerKeys(given)), now), StringifyUserId(query))
  {
    AttributeQueryKeepsUploadId(query);
    var criteria := StringifyUserId(query);
    var row := NewRecord(id, Sanitize(StripServerKeys(given)), now);
    forall k | k in criteria
      ensures row.Field(k) == criteria[k]
    {
      GivenAttributeKept(given, k);
      if k == UserId {
        StoredUserIdIsLookupValue(query[UserId]);
      }
    }
  }

  /** A query naming only accessible attributes has no `upload_id`, so only
      the `user_id` rewrite applies to it. */
  lemma AttributeQueryKeepsUploadId(query: map<Key, Value>)
    requires forall k :: k in query ==> Accessible(k)
    ensures Normalize(query) == Ok(StringifyUserId(query))
  {
    assert UploadId !in StringifyUserId(query);
  }

  /** A row `add_entry` creates with a present `user_id`, integer or
      string, is what `check_exists({user_id, upload_id})` finds afterwards. */
  lemma CreatedRowFoundByUploadId(table: map<int, Record>, id: int, given: map<Key, Value>, now: int)
    requires KeyedById(table) && id !in table
    requires UserId in given && Present(given[UserId]) && given[UserId] != Bool(true)
    ensures Candidates(table[id := NewRecord(id, Sanitize(StripServerKeys(given)), now)],
                       map[UserId := given[UserId], UploadId := Int(id)]) == Ok({id})
  {
    var row := NewRecord(id, Sanitize(StripServerKeys(given)), now);
    CreatedUserId(id, given, now);
    KeyedByIdAfterInsert(table, row);
    LookupByUploadId(table[id := row], given[UserId], id);
  }

  /** The created row's `user_id` column holds the string `check_exists`
      compares a given present `user_id` against. */
  lemma CreatedUserId(id: int, given: map<Key, Value>, now: int)
    requires UserId in given && Present(given[UserId]) && given[UserId] != Bool(true)
    ensures NewRecord(id, Sanitize(StripServerKeys(given)), now).Field(UserId) == Str(ToS(given[UserId]))
  {
    GivenAttributeKept(given, UserId);
    StoredUserIdIsLookupValue(given[UserId]);
  }

  /** Storing a well-formed row under its own id keeps a table keyed by id. */
  lemma KeyedByIdAfterInsert(table: map<int, Record>, row: Record)
    requires KeyedById(table) && row.WellFormed()
    ensures KeyedById(table[row.id := row])
  {
  }

  /** An accessible attribute other than `resumable_id` survives stripping
      and mass assignment with the value the caller gave. */
  lemma GivenAttributeKept(given: map<Key, Value>, k: Key)
    requires Accessible(k) && k != ResumableId && k in given
    ensures k in Sanitize(StripServerKeys(given)) && Sanitize(StripServerKeys(given))[k] == given[k]
  {
    assert k != UploadId && k != Id;
  }

  /** Criteria naming only accessible attributes, with a string user id,
      pass through `check_exists`'s rewrites unchanged. */
  lemma QueryOnAttributesIsItsOwnCriteria(query: map<Key, Value>)
    requires forall k :: k in query ==> Accessible(k)
    requires UserId in query ==> query[UserId].Str?
    ensures Normalize(query) == Ok(query)
  {
    assert StringifyUserId(query) == query;
    assert UploadId !in query;
  }
}

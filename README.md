# Condo upload-tracking backend, modelled in Dafny

Condo tracks resumable uploads to cloud storage providers. For every
upload attempt it keeps one row in the `condo_uploads` table: who uploads
(`user_id`), which file (`file_name`, `file_size`, `file_id`), where it goes
(`provider_*`, `bucket_name`, `object_key`), and the provider's multipart
session (`resumable_id`). The class `Condo::Backend::ActiveRecord` is the
backend over that table. It offers four operations:

- `check_exists` looks up a row matching given criteria. It first rewrites
  a copy of the criteria: `user_id` becomes a string, and `upload_id`
  becomes the integer primary key `id`.
- `add_entry` creates a row. It first deletes the server-assigned keys
  from the caller's hash.
- `update_entry` saves new attribute values on a row. It raises when
  validation rejects them.
- `remove_entry` destroys a row.

The model has five modules:

- `Outcomes` (`outcomes.dfy`): the exceptions that reach a caller, a
  `Result` for "returns or raises", and an `Option` for "value or nil".
- `RubyValues` (`ruby_values.dfy`): the values a params hash carries, and
  the Ruby and Rails methods the backend calls on them. These are Rails'
  `present?`, `Integer#to_s`, and `String#to_i` in base 10. `to_i` skips
  leading whitespace, reads a sign, skips a `0d` prefix, and reads digits
  with single underscores between them. The round trip `n.to_s.to_i == n`
  is proved.
- `UploadRecord` (`upload_record.dfy`): the attribute names, the columns,
  the `attr_accessible` list, a row, and the `upload_id` and
  `date_created` accessors.
- `ActiveRecordBackend` (`backend.dfy`): the pure rewrites are functions.
  These are the criteria normalisation, the key stripping, mass assignment
  and the row an update saves. The table is a class `Store`. It holds
  `records: map<int, Record>` and the next id the database hands out.
  `add_entry`, `update_entry` and `remove_entry` are methods on `Store`.
  The caller's hash is a class `Params`, because `add_entry` deletes keys
  from it in place. `CheckExists` has no `modifies` clause, so Dafny's
  frame rules prove that it leaves the caller's hash alone.
- `BackendProperties` (`backend_properties.dfy`): lemmas about how lookups
  behave before and after the other operations.

How ActiveRecord is modelled. The model follows ActiveRecord 3.2, the
last release in which `attr_accessible` is part of Rails:

- `where(criteria)` selects the rows whose every named column equals the
  criterion. It compares values exactly, with no type coercion, which is
  why `check_exists` must turn an integer `user_id` into a string.
- `user_id` is a string column (line 9). An integer written to it is
  stored as its decimal string (`StoredUserId`), so the string that
  `check_exists` builds from the same integer finds the row.
- A criterion that names something other than a column makes the
  statement fail (`StatementInvalid`).
- `first` returns one of the selected rows, or nil. ActiveRecord 3.2 puts
  no `ORDER BY` on `first`, so the model does not fix which row it returns.
- Mass assignment drops every key outside `attr_accessible`. This is
  Rails' default (logging) sanitizer.
- Validations are a predicate `accepts` that the caller supplies. It sees
  the instance's attributes as assigned, before the database writes them.
  For `create!` those are the accessible attributes passed. For
  `update_attributes` they are the loaded row plus the accessible
  attributes passed. `create!` raises `RecordInvalid` when it rejects them.
  `update_attributes` returns false, and `update_entry` raises.
- Timestamps come from a `now` parameter. ActiveRecord 3.2 writes a
  class's serialized attributes on every save, and refreshes `updated_at`
  with them. This class serializes `custom_params` and `object_options`
  (lines 48-49), so every successful `update_entry` sets `updated_at`,
  even when no column changed.
- Params hashes have symbol keys, the only keys lines 57-58 and 67-69
  look at. A symbol that names none of the table's attributes, and is not
  `upload_id`, is a key `Other(name)`. Such a `name` never spells a listed
  attribute.

The source's comments promise less than a reader might assume. The model
keeps to what the code does:

- The comment at line 28 promises "nil or an entry where all fields
  match". The code returns `first`, which may be any one of several
  matching rows.
- `add_entry` deletes `upload_id`, `id` and `resumable_id` only when their
  values are present. A blank `resumable_id` is stored. A blank `id` or
  `upload_id` is dropped only by mass assignment.
- `remove_entry` calls `destroy`, which raises nothing for a row that is
  already gone. So `RemoveEntry` of an absent id leaves the table as it was.
- A blank `upload_id` handed to `check_exists` is left in the criteria.
  The query then names a column that does not exist and raises, instead
  of returning nil (`BlankUploadIdRaises`).

## Model

| member | source | states |
|---|---|---|
| `UploadRecord.Record.PrimaryKey` | lib/condo/backend/active_record.rb:94-96 | the `upload_id` accessor returns the value of the row's `id` column |
| `UploadRecord.Record.DateCreated` | lib/condo/backend/active_record.rb:98-100 | the `date_created` accessor returns the value of the row's `created_at` column, nil while it is NULL |
| `UploadRecord.Accessible` | lib/condo/backend/active_record.rb:40-42 | every attribute open to mass assignment is a stored column, and neither the primary key nor a timestamp is one |
| `UploadRecord.AccessibleIsTheList` | lib/condo/backend/active_record.rb:40-42 | `Accessible` holds of exactly the thirteen attributes of the `attr_accessible` call |
| `RubyValues.PresentMeaning` | lib/condo/backend/active_record.rb:57-58 | `present?` is false for nil and false, true for `true` and every integer, and true for a string exactly when some character is not Unicode whitespace |
| `RubyValues.ToI` | lib/condo/backend/active_record.rb:58 | `to_i` raises exactly for booleans; an integer converts to itself |
| `RubyValues.StringToIntOfDecimalString` | lib/condo/backend/active_record.rb:58 | `String#to_i` reads back every integer's decimal string: `n.to_s.to_i == n` |
| `RubyValues.DecimalStringPresent` | lib/condo/backend/active_record.rb:57 | an integer's decimal string is never blank, so `present?` holds of it |
| `ActiveRecordBackend.StringifyUserId` | lib/condo/backend/active_record.rb:56-57 | on the copy, a present `user_id` becomes the string of its `to_s`; a blank one and every other key keep their values, and no key is added or removed |
| `ActiveRecordBackend.UploadIdToId` | lib/condo/backend/active_record.rb:58 | a present `upload_id` is removed and its `to_i` stored under `id`, overriding a given `id`; it raises `NoMethodError` exactly when that value is a boolean; without a present `upload_id` the criteria are unchanged |
| `ActiveRecordBackend.Normalize` | lib/condo/backend/active_record.rb:56-58 | the copied criteria raise only for `upload_id: true`; otherwise their keys are the given ones, with a present `upload_id` replaced by `id`, which holds its `to_i`; a present `user_id` becomes its `to_s` as a string, a blank one is kept, every other key keeps its value, and without a present `upload_id` so does a given `id` |
| `ActiveRecordBackend.Candidates` | lib/condo/backend/active_record.rb:53-60 | the lookup succeeds exactly when normalisation succeeds and names only columns; it then selects exactly the rows in which every supplied criterion equals the column, with absent columns unconstrained |
| `ActiveRecordBackend.Store.CheckExists` | lib/condo/backend/active_record.rb:55-61 | returns nil exactly when no row matches, otherwise a stored matching row; it raises exactly when the lookup does; with no `modifies` clause it cannot touch the caller's hash |
| `ActiveRecordBackend.StripServerKeys` | lib/condo/backend/active_record.rb:67-69 | a key stays exactly when it is not one of `upload_id`, `id` and `resumable_id` or its value is blank; kept values are unchanged |
| `ActiveRecordBackend.Params.DeleteIfPresent` | lib/condo/backend/active_record.rb:67-69 | `delete(key) if self[key].present?` removes the key exactly when its value is present |
| `ActiveRecordBackend.Sanitize` | lib/condo/backend/active_record.rb:40-42 | mass assignment keeps exactly the passed keys on the `attr_accessible` list, with their values, and drops every other key |
| `ActiveRecordBackend.StoredUserId` | lib/condo/backend/active_record.rb:9 | writing to the string column `user_id` stores an integer as its decimal string and any other value as given |
| `ActiveRecordBackend.StoredUserIdIsLookupValue` | lib/condo/backend/active_record.rb:57 | for every value but `true`, the stored `user_id` is exactly what `check_exists` compares a `user_id` of that value against |
| `ActiveRecordBackend.NewRecord` | lib/condo/backend/active_record.rb:71 | the created row has the assigned id as `upload_id`, `now` as `date_created` and `updated_at`, `user_id` as its string column stores it, every other accessible attribute as given or nil, and nil in every other column |
| `ActiveRecordBackend.Store.AddEntry` | lib/condo/backend/active_record.rb:66-72 | the caller's hash loses exactly the present server-assigned keys; when validation accepts, exactly one row is added, under an id no row had, and every other row is unchanged; otherwise it raises `RecordInvalid` and the table is unchanged |
| `ActiveRecordBackend.Assign` | lib/condo/backend/active_record.rb:40-42 | `update_attributes` writes exactly the `attr_accessible` attributes passed, with `user_id` as its string column stores it, and keeps every other column, so `upload_id` and `date_created` never change |
| `ActiveRecordBackend.Updated` | lib/condo/backend/active_record.rb:78 | the saved row keeps its `upload_id` and `date_created`, has the passed accessible attributes written (`user_id` as its string column stores it) and every other column but `updated_at` unchanged, and gets `updated_at = now` on every save |
| `ActiveRecordBackend.Store.UpdateEntry` | lib/condo/backend/active_record.rb:77-81 | when validation accepts, the row under the id becomes the updated row, which is returned, and no other row changes; otherwise it raises `ResourceInvalid` and the table is unchanged |
| `ActiveRecordBackend.Store.RemoveEntry` | lib/condo/backend/active_record.rb:86-88 | the row under the id is gone, and every other row and the id counter are unchanged |
| `BackendProperties.LookupByUploadId` | lib/condo/backend/active_record.rb:55-60 | `check_exists({user_id, upload_id})` selects the row stored under that id when its `user_id` equals the given one as a string, and nothing otherwise |
| `BackendProperties.SameUserIdSameCriteria` | lib/condo/backend/active_record.rb:57 | two present user ids with the same `to_s` give identical criteria |
| `BackendProperties.UserIdIntegerOrString` | lib/condo/backend/active_record.rb:57 | `user_id: 5` and `user_id: "5"` select the same rows |
| `BackendProperties.SameUploadIdSameCriteria` | lib/condo/backend/active_record.rb:58 | two present upload ids with the same `to_i` give identical criteria |
| `BackendProperties.UploadIdIntegerOrString` | lib/condo/backend/active_record.rb:58 | `upload_id: 5` and `upload_id: "5"` select the same rows |
| `BackendProperties.BlankUploadIdRaises` | lib/condo/backend/active_record.rb:58-60 | a blank `upload_id` stays in the criteria, and the lookup raises `StatementInvalid` |
| `BackendProperties.RemoveTakesOnlyThatRow` | lib/condo/backend/active_record.rb:86-88 | after removal every lookup selects what it selected before, minus the removed id |
| `BackendProperties.RemovedRowNotFound` | lib/condo/backend/active_record.rb:86-88 | after removal, a lookup by that row's `upload_id` returns nil |
| `BackendProperties.InsertAddsOnlyThatRow` | lib/condo/backend/active_record.rb:71 | a row stored under an unused id joins exactly the lookups it matches, and no other lookup changes |
| `BackendProperties.QueryOnAttributesIsItsOwnCriteria` | lib/condo/backend/active_record.rb:55-58 | criteria on accessible attributes with a string user id are not rewritten |
| `BackendProperties.CreatedRowMatches` | lib/condo/backend/active_record.rb:66-71 | the created row matches the criteria `check_exists` makes of every query on attributes the caller gave `add_entry`, with `user_id` as an integer or a string, except a stripped `resumable_id` and `user_id: true` |
| `BackendProperties.CreatedRowIsFound` | lib/condo/backend/active_record.rb:28-30 | duplicate detection: if no earlier row matched such a query, the created row is the only row it finds |
| `BackendProperties.CreatedRowFoundByUploadId` | lib/condo/backend/active_record.rb:28 | after `add_entry` with a present `user_id`, integer or string, `check_exists({user_id, upload_id})` with the new id finds exactly the created row |

## Left out

- The SQL behind `where`, `create!`, `update_attributes` and `destroy` is
  not modelled. Each is modelled by its effect on the map of rows.
- The table-name prefix (line 45) is left out. It only names the table.
- The YAML serialisation of `custom_params` and `object_options`
  (lines 48-49) is left out. Their values are opaque, and the value type
  covers nil, booleans, integers and strings only. Hashes, floats and
  other Ruby objects are not modelled.
- The database's type coercion in comparisons is not modelled, and
  neither is its coercion on write for any column but `user_id`. The
  types of the other columns come from the table's creation migration,
  which is not part of this model. A query on those columns matches only
  values of the same kind.
- A boolean written to `user_id` is stored as given. Each database
  adapter spells it differently (`'t'`, `1`). So `user_id: true` is left
  out of the duplicate-detection lemmas: the lookup compares it as
  `"true"`.
- ActiveRecordBackend.Store.AddEntry: returns the row as the table stores
  it. The instance that `create!` returns keeps an integer `user_id` as
  assigned until it is reloaded.
- Column defaults from the table's creation are not modelled. That
  migration is not part of this model, so unset columns hold nil.
- Which matching row `first` returns is left open. The database decides.
- The strict mass-assignment sanitizer, which raises instead of dropping
  keys, is not modelled.
- Validations have no visible definition. They are the caller-supplied
  predicate `accepts`.
- `update_entry` raises `ActiveResource::ResourceInvalid` (line 79), a
  class from another library, and the model raises `ResourceInvalid`.
  That library's exception constructor expects an HTTP response, and line
  79 passes none. So the bare `raise` would more likely end in an
  `ArgumentError`, or in a `NameError` when that library is not loaded.
  ActiveResource is not part of this model, so the model does not call
  this a bug in the source.
- String keys are not modelled. A string-keyed params hash passes through
  the rewrites at lines 57-58 and the deletes at lines 67-69 unchanged,
  but `where` and mass assignment still accept its keys. That includes the
  plain string-keyed hash that `{}.merge` builds from a
  `HashWithIndifferentAccess` at line 56. So `add_entry` stores a given
  `"resumable_id"`, and `check_exists` passes an integer `"user_id"` to
  `where` as it is.
- ActiveRecordBackend.Updated: follows ActiveRecord 3.2, where every save
  of this class refreshes `updated_at`. The rule that refreshes it only
  when some column changed applies to classes without serialized
  attributes, or to other releases. That rule is not modelled.
- ActiveRecordBackend.Store.UpdateEntry: it requires the row to be stored.
  The source calls it on a loaded instance, and an instance whose row was
  deleted by another caller is not modelled. The instance is identified
  with its stored row, which loses two things:
  - The `self` that line 80 returns keeps an integer `user_id` as
    assigned until it is reloaded, while the model returns the row as
    stored, with the string.
  - `update_attributes` assigns before it saves. So after a rejected save,
    and the raise at line 79, the caller's instance still holds the
    rejected values. The model keeps only the unchanged table.
- ActiveRecordBackend.Store.RemoveEntry: it does not return the destroyed, frozen instance
  that `destroy` returns.
- The clock is the `now` parameter.
- The migrations db/migrate/20111106022500_filepath.rb and
  db/migrate/20160214022500_parallel.rb contribute only the `file_path`,
  `part_list` and `part_data` columns. The migration drops
  `custom_params`, but the class still declares it, so it stays an
  attribute here.
- Part tracking, stale-record scanning and provider cleanup have no code
  in this backend. They are not modelled.
- Concurrency, row locking and network calls are not modelled.

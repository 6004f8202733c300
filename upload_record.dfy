/** One row of the `condo_uploads` table: the attribute names a params hash
    may use, the columns a row stores, the attributes open to mass
    assignment, and the two accessors the backend defines on a row. */
module UploadRecord {
  import opened RubyValues

  /** The symbols a params hash or a query may use. Every constructor but
      `UploadId` and `Other` names a column of `condo_uploads`; `UploadId` is
      the backend's name for the `id` column, not a column itself. `Other`
      stands for any other symbol: its `name` is never the name of one of
      the attributes listed here. */
  datatype Key =
    | Id
    | UserId | FileName | FileSize | FileId | CustomParams
    | ProviderNamespace | ProviderName | ProviderLocation | BucketName
    | ObjectKey | ObjectOptions | ResumableId | Resumable
    | FilePath | PartList | PartData
    | CreatedAt | UpdatedAt
    | UploadId
    | Other(name: string)

  predicate IsColumn(k: Key) {
    !k.UploadId? && !k.Other?
  }

  /** A column a row stores apart from its primary key `id`. */
  predicate IsStored(k: Key) {
    IsColumn(k) && !k.Id?
  }

  /** The `attr_accessible` list: the only attributes a params hash can
      set. Each is a stored column; neither the primary key (under either
      name) nor a timestamp is among them. */
  predicate Accessible(k: Key)
    ensures Accessible(k) ==> IsStored(k) && k != CreatedAt && k != UpdatedAt
  {
    match k
    case UserId | FileName | FileSize | FileId | CustomParams
      | ProviderNamespace | ProviderName | ProviderLocation | BucketName
      | ObjectKey | ObjectOptions | ResumableId | Resumable => true
    case _ => false
  }

  /** The thirteen attributes of the `attr_accessible` call, in its order. */
  const AttrAccessible: seq<Key> :=
    [UserId, FileName, FileSize, FileId, CustomParams,
     ProviderNamespace, ProviderName, ProviderLocation, BucketName,
     ObjectKey, ObjectOptions, ResumableId, Resumable]

  /** `Accessible` holds of exactly the listed attributes. */
  lemma AccessibleIsTheList(k: Key)
    ensures Accessible(k) <==> k in AttrAccessible
  {
  }

  /** A stored row: its primary key and the columns that hold a value; a
      column missing from `fields` is NULL. */
  datatype Record = Record(id: int, fields: map<Key, Value>) {

    predicate WellFormed() {
      forall k :: k in fields ==> IsStored(k)
    }

    /** The value a query on column `k` compares against. */
    function Field(k: Key): Value {
      if k == Id then Int(id) else if k in fields then fields[k] else Nil
    }

    /** The `upload_id` accessor: the value of the row's `id` column. */
    function PrimaryKey(): (r: int)
      ensures Field(Id) == Int(r)
    {
      id
    }

    /** The `date_created` accessor: the value of the row's `created_at`
        column, nil while it is NULL. */
    function DateCreated(): (v: Value)
      ensures v == Field(CreatedAt)
    {
      if CreatedAt in fields then fields[CreatedAt] else Nil
    }
  }

  /** True when every supplied criterion equals the row's column; columns
      absent from the criteria are not constrained. */
  predicate Matches(r: Record, criteria: map<Key, Value>) {
    forall k :: k in criteria ==> r.Field(k) == criteria[k]
  }
}

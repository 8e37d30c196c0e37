/**
 * Stored records and their rewriting before they are returned
 * (backend/app.py:149-153, and the unused helper at backend/app.py:44-47).
 * A record is a dictionary the helpers change in place; here it is an
 * object whose map field the methods reassign.
 */
module Records {

  import opened Bytes

  /** A field value: a MongoDB ObjectId (its twelve bytes) or a string. */
  datatype Value = ObjectId(bytes: seq<byte>) | Str(s: string)

  /** `str(v)`: an ObjectId is spelled in hexadecimal; a string is itself. */
  function ToStr(v: Value): string {
    match v
    case ObjectId(bs) => Hex(bs)
    case Str(s) => s
  }

  /** `str` keeps apart what it is given: distinct ObjectIds have distinct
      strings, and an ObjectId's string has twice as many characters as it
      has bytes. */
  lemma ToStrObjectIds(a: seq<byte>, b: seq<byte>)
    ensures ToStr(ObjectId(a)) == ToStr(ObjectId(b)) <==> a == b
    ensures |ToStr(ObjectId(a))| == 2 * |a|
  {
    HexInjective(a, b);
  }

  const IdKey: string := "_id"
  const PublicIdKey: string := "id"

  /** The fields after serialize_mongo_record: when `_id` is present, `id`
      is set to its string and `_id` is removed; otherwise nothing changes. */
  function Serialized(m: map<string, Value>): (r: map<string, Value>)
    ensures IdKey !in r
    ensures IdKey in m ==> r.Keys == m.Keys - {IdKey} + {PublicIdKey}
  {
    if IdKey in m then m[PublicIdKey := Str(ToStr(m[IdKey]))] - {IdKey} else m
  }

  /** The fields after object_id_to_str: an ObjectId under `_id` is replaced
      by its string; otherwise nothing changes. */
  function IdAsString(m: map<string, Value>): (r: map<string, Value>)
    ensures r.Keys == m.Keys
    ensures IdKey in r ==> !r[IdKey].ObjectId?
  {
    if IdKey in m && m[IdKey].ObjectId? then m[IdKey := Str(ToStr(m[IdKey]))] else m
  }

  class Record {
    var fields: map<string, Value>

    constructor (fields: map<string, Value>)
      ensures this.fields == fields
    {
      this.fields := fields;
    }

    /** serialize_mongo_record: rewrites the record in place and returns it. */
    method SerializeMongoRecord() returns (r: Record)
      modifies this
      ensures r == this
      ensures fields == Serialized(old(fields))
    {
      if IdKey in fields {
        fields := fields[PublicIdKey := Str(ToStr(fields[IdKey]))];
        fields := fields - {IdKey};
      }
      r := this;
    }

    /** object_id_to_str: rewrites the record in place and returns it. */
    method ObjectIdToStr() returns (r: Record)
      modifies this
      ensures r == this
      ensures fields == IdAsString(old(fields))
    {
      if IdKey in fields && fields[IdKey].ObjectId? {
        fields := fields[IdKey := Str(ToStr(fields[IdKey]))];
      }
      r := this;
    }
  }

  // --------------------------------------------------- serialize_mongo_record

  /** With `_id` present: afterwards there is no `_id`, `id` holds the
      string of the old `_id` (replacing any `id` there was), and every other
      key keeps its value. */
  lemma SerializedMovesId(m: map<string, Value>)
    requires IdKey in m
    ensures IdKey !in Serialized(m)
    ensures PublicIdKey in Serialized(m) && Serialized(m)[PublicIdKey] == Str(ToStr(m[IdKey]))
    ensures Serialized(m).Keys == m.Keys - {IdKey} + {PublicIdKey}
    ensures forall k :: k in m && k != IdKey && k != PublicIdKey ==> Serialized(m)[k] == m[k]
  {
  }

  /** Without `_id` the record is untouched. */
  lemma SerializedWithoutId(m: map<string, Value>)
    requires IdKey !in m
    ensures Serialized(m) == m
  {
  }

  /** Serializing twice is serializing once. */
  lemma SerializedIdempotent(m: map<string, Value>)
    ensures Serialized(Serialized(m)) == Serialized(m)
  {
    assert IdKey != PublicIdKey;
  }

  // -------------------------------------------------------- object_id_to_str

  /** object_id_to_str keeps the keys, leaves no ObjectId under `_id`,
      changes no other key, and a second call changes nothing. */
  lemma IdAsStringFacts(m: map<string, Value>)
    ensures IdAsString(m).Keys == m.Keys
    ensures IdKey in m ==> IdAsString(m)[IdKey] == Str(ToStr(m[IdKey]))
    ensures forall k :: k in m && k != IdKey ==> IdAsString(m)[k] == m[k]
    ensures IdAsString(IdAsString(m)) == IdAsString(m)
  {
  }

  /** Converting `_id` to a string first does not change what
      serialize_mongo_record produces. */
  lemma SerializedAfterIdAsString(m: map<string, Value>)
    ensures Serialized(IdAsString(m)) == Serialized(m)
  {
  }
}

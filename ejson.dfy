/**
 * The part of bson's EJSON that the codec relies on: ObjectIds travel as
 * `{$oid: hex}` objects, `undefined` becomes `null`, and `EJSON.deserialize`
 * goes through JSON text first. Other extended-JSON types (dates, long
 * numbers, ...) are not modelled; the round-trip lemmas exclude every field
 * name their codecs could act on.
 */
module Ejson {
  import opened Wrappers
  import opened JsonValue

  /** A JSON-safe value: no `undefined` and no ObjectId anywhere inside. */
  predicate IsPlain(v: Json) {
    match v
    case Undef => false
    case Oid(_) => false
    case Arr(items) => forall i | 0 <= i < |items| :: IsPlain(items[i])
    case Obj(m) => forall k | k in m :: IsPlain(m[k])
    case _ => true
  }

  /** The EJSON form of an ObjectId. */
  function OidWrapper(id: ObjectId): (w: Json)
    ensures w.Obj? && w.fields.Keys == {"$oid"}
  {
    Obj(map["$oid" := Str(id)])
  }

  /** `EJSON.serialize(v)`. */
  function Serialize(v: Json): (r: Json)
    ensures IsPlain(r)
    ensures v.Obj? ==> r.Obj? && r.fields.Keys == v.fields.Keys
    ensures v.Arr? ==> r.Arr? && |r.items| == |v.items|
    ensures v.Oid? ==> r == OidWrapper(v.id)
    ensures v.Undef? ==> r.Null?
    ensures IsPlain(v) && !v.Obj? && !v.Arr? ==> r == v
  {
    match v
    case Undef => Null
    case Oid(id) => OidWrapper(id)
    case Arr(items) => Arr(seq(|items|, i requires 0 <= i < |items| => Serialize(items[i])))
    case Obj(m) => Obj(map k | k in m :: Serialize(m[k]))
    case _ => v
  }

  /** The keys `JSON.stringify` writes for an object: those whose value is not undefined. */
  function DefinedKeys(m: map<string, Json>): set<string> {
    set k | k in m && !m[k].Undef?
  }

  /** An object that EJSON reads back as an ObjectId: it has a `$oid` field that is set. */
  predicate IsOidForm(m: map<string, Json>) {
    "$oid" in m && !IsNullish(m["$oid"])
  }

  /**
   * What `JSON.parse(JSON.stringify(v))` gives for a value held in an object
   * or an array: undefined fields are dropped, undefined elements become
   * null, and an ObjectId becomes its hex text (bson's `toJSON`).
   */
  function ViaText(v: Json): (r: Json)
    ensures IsPlain(r)
    ensures r.Null? <==> IsNullish(v)
    ensures v.Obj? ==> r.Obj? && r.fields.Keys == DefinedKeys(v.fields)
    ensures v.Obj? ==> (IsOidForm(r.fields) <==> IsOidForm(v.fields))
    ensures v.Arr? ==> r.Arr? && |r.items| == |v.items|
    ensures v.Oid? ==> r == Str(v.id)
    ensures !v.Obj? && !v.Arr? && !v.Oid? && !v.Undef? ==> r == v
  {
    match v
    case Undef => Null
    case Oid(id) => Str(id)
    case Arr(items) => Arr(seq(|items|, i requires 0 <= i < |items| => ViaText(items[i])))
    case Obj(m) => Obj(map k | k in DefinedKeys(m) :: ViaText(m[k]))
    case _ => v
  }

  /** The text pass leaves a JSON-safe value as it is. */
  lemma {:induction false} PlainTextIsUnchanged(v: Json)
    requires IsPlain(v)
    ensures ViaText(v) == v
  {
    match v
    case Arr(items) =>
      forall i | 0 <= i < |items|
        ensures ViaText(items[i]) == items[i]
      {
        PlainTextIsUnchanged(items[i]);
      }
      assert ViaText(v).items == items;
    case Obj(m) =>
      forall k | k in m
        ensures ViaText(m[k]) == m[k]
      {
        PlainTextIsUnchanged(m[k]);
      }
      assert ViaText(v).fields == m;
    case _ =>
  }

  /**
   * The reviver of `EJSON.parse`, over the parsed value: an object with a set
   * `$oid` field becomes the ObjectId it names (bson throws when it names
   * none); everything else is walked.
   */
  function Revive(v: Json): (r: Result<Json, Error>)
    ensures v.Obj? && !IsOidForm(v.fields) && r.Ok? ==> r.value.Obj? && r.value.fields.Keys == v.fields.Keys
    ensures v.Obj? && r.Ok? ==> r.value.Obj? || r.value.Oid?
    ensures v.Arr? && r.Ok? ==> r.value.Arr? && |r.value.items| == |v.items|
    ensures !v.Obj? && !v.Arr? ==> r == Ok(v)
  {
    match v
    case Obj(m) =>
      if IsOidForm(m) then
        match ToObjectId(m["$oid"])
        case Ok(id) => Ok(Oid(id))
        case Err(e) => Err(e)
      else if forall k | k in m :: Revive(m[k]).Ok? then
        Ok(Obj(map k | k in m :: Revive(m[k]).value))
      else
        Err(InvalidObjectId)
    case Arr(items) =>
      if forall i | 0 <= i < |items| :: Revive(items[i]).Ok? then
        Ok(Arr(seq(|items|, i requires 0 <= i < |items| => Revive(items[i]).value)))
      else
        Err(InvalidObjectId)
    case _ => Ok(v)
  }

  /**
   * `EJSON.deserialize(v)`, which bson defines as `EJSON.parse(JSON.stringify(v))`:
   * the text pass, then the reviver. `JSON.stringify(undefined)` produces no
   * text, so `JSON.parse` throws.
   */
  function Deserialize(v: Json): (r: Result<Json, Error>)
    ensures v.Undef? ==> r == Err(NotJson)
    ensures v.Oid? ==> r == Ok(Str(v.id))
    ensures !v.Obj? && !v.Arr? && !v.Oid? && !v.Undef? ==> r == Ok(v)
    ensures v.Obj? && r.Ok? ==> r.value.Obj? || r.value.Oid?
    ensures v.Obj? && !IsOidForm(v.fields) && r.Ok? ==> r.value.Obj? && r.value.fields.Keys == DefinedKeys(v.fields)
    ensures v.Arr? && r.Ok? ==> r.value.Arr? && |r.value.items| == |v.items|
  {
    if v.Undef? then Err(NotJson) else Revive(ViaText(v))
  }

  /** An object that is no id form and whose fields each deserialize deserializes field by field. */
  lemma DeserializesFields(m: map<string, Json>)
    requires !IsOidForm(m) && forall k | k in m :: Deserialize(m[k]).Ok?
    ensures Deserialize(Obj(m)).Ok? && Deserialize(Obj(m)).value.Obj?
    ensures Deserialize(Obj(m)).value.fields.Keys == m.Keys
    ensures forall k | k in m :: Deserialize(Obj(m)).value.fields[k] == Deserialize(m[k]).value
  {
    var t := ViaText(Obj(m)).fields;
    assert t.Keys == m.Keys;
    forall k | k in m
      ensures Revive(t[k]) == Deserialize(m[k])
    {
      assert t[k] == ViaText(m[k]);
    }
  }

  /** An array whose elements each deserialize deserializes element by element. */
  lemma DeserializesItems(items: seq<Json>)
    requires forall i | 0 <= i < |items| :: Deserialize(items[i]).Ok?
    ensures Deserialize(Arr(items)).Ok? && Deserialize(Arr(items)).value.Arr?
    ensures |Deserialize(Arr(items)).value.items| == |items|
    ensures forall i | 0 <= i < |items| :: Deserialize(Arr(items)).value.items[i] == Deserialize(items[i]).value
  {
    var t := ViaText(Arr(items)).items;
    forall i | 0 <= i < |items|
      ensures Revive(t[i]) == Deserialize(items[i])
    {
      assert t[i] == ViaText(items[i]);
    }
  }

  /**
   * A field name EJSON may act on: a `$` prefix selects one of bson's type
   * codecs (`$oid`, `$date`, `$numberInt`, ...), a set `_bsontype` makes
   * `EJSON.serialize` convert the object or throw, and bson refuses a name
   * holding a NUL character.
   */
  predicate IsReservedKey(k: string) {
    (|k| > 0 && k[0] == '$') || k == "_bsontype" || '\0' in k
  }

  /** No object anywhere in `v` uses a reserved field name, so EJSON has nothing to misread. */
  predicate NoReservedKeys(v: Json) {
    match v
    case Arr(items) => forall i | 0 <= i < |items| :: NoReservedKeys(items[i])
    case Obj(m) => forall k | k in m :: !IsReservedKey(k) && NoReservedKeys(m[k])
    case _ => true
  }

  predicate NoUndefined(v: Json) {
    match v
    case Undef => false
    case Arr(items) => forall i | 0 <= i < |items| :: NoUndefined(items[i])
    case Obj(m) => forall k | k in m :: NoUndefined(m[k])
    case _ => true
  }

  /** The reviver undoes `EJSON.serialize` on values without undefined and without reserved field names. */
  lemma {:induction false} RevivesSerialized(v: Json)
    requires NoUndefined(v) && NoReservedKeys(v)
    ensures Revive(Serialize(v)) == Ok(v)
  {
    match v
    case Oid(id) =>
      assert IsOidForm(Serialize(v).fields);
    case Arr(items) =>
      var s := Serialize(v).items;
      forall i | 0 <= i < |items|
        ensures Revive(s[i]) == Ok(items[i])
      {
        RevivesSerialized(items[i]);
      }
      assert Revive(Serialize(v)).value.items == items;
    case Obj(m) =>
      var s := Serialize(v).fields;
      assert IsReservedKey("$oid");
      assert !IsOidForm(s);
      forall k | k in m
        ensures Revive(s[k]) == Ok(m[k])
      {
        RevivesSerialized(m[k]);
      }
      assert Revive(Serialize(v)).value.fields == m;
    case _ =>
  }

  /**
   * The EJSON pair is an inverse on values without `undefined` whose objects
   * use no reserved field name.
   */
  lemma RoundTrip(v: Json)
    requires NoUndefined(v) && NoReservedKeys(v)
    ensures Deserialize(Serialize(v)) == Ok(v)
  {
    PlainTextIsUnchanged(Serialize(v));
    RevivesSerialized(v);
  }

  /** The reviver leaves a plain value as it is when no object uses a reserved field name. */
  lemma {:induction false} RevivesPlain(v: Json)
    requires IsPlain(v) && NoReservedKeys(v)
    ensures Revive(v) == Ok(v)
  {
    match v
    case Arr(items) =>
      forall i | 0 <= i < |items|
        ensures Revive(items[i]) == Ok(items[i])
      {
        RevivesPlain(items[i]);
      }
      assert Revive(v).value.items == items;
    case Obj(m) =>
      assert IsReservedKey("$oid");
      forall k | k in m
        ensures Revive(m[k]) == Ok(m[k])
      {
        RevivesPlain(m[k]);
      }
      assert Revive(v).value.fields == m;
    case _ =>
  }

  /** Plain values pass through EJSON's deserializer unchanged when no object uses a reserved field name. */
  lemma DeserializePlain(v: Json)
    requires IsPlain(v) && NoReservedKeys(v)
    ensures Deserialize(v) == Ok(v)
  {
    PlainTextIsUnchanged(v);
    RevivesPlain(v);
  }
}

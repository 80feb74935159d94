/**
 * The document codec of mongo-anywhere (src/utils.ts): dropping undefined
 * fields, turning EJSON ObjectIds `{$oid: hex}` into tagged strings
 * `"oid:<hex>"` and back, and giving a document an `_id`.
 */
module Utils {
  import opened Wrappers
  import opened JsonValue
  import Ejson

  // ---------------------------------------------------------------------
  // removeUndefinedValues
  // ---------------------------------------------------------------------

  /**
   * The object `removeUndefinedValues(v)` builds: the fields of `{...v}` that
   * are not undefined, each cleaned by `CleanedField`. `spreadIds` says whether
   * ObjectId elements of arrays are spread as well (the copy in
   * InMemoryDbInterface.ts does so; the one in utils.ts leaves them alone).
   */
  function WithoutUndefined(v: Json, spreadIds: bool): (m: map<string, Json>)
    requires IsObjectTyped(v)
    ensures forall k :: k in m <==> k in Spread(v) && !Spread(v)[k].Undef?
    decreases v, 0
  {
    var copy := Spread(v);
    map k | k in copy && !copy[k].Undef? :: CleanedField(copy[k], spreadIds)
  }

  /** A map holding the cleaned form of every defined field of the spread copy is what `WithoutUndefined` builds. */
  lemma {:induction false} AllFieldsCleaned(obj: Json, spreadIds: bool, copy: map<string, Json>, newObj: map<string, Json>)
    requires IsObjectTyped(obj) && copy == Spread(obj)
    requires forall k | k in copy && !copy[k].Undef? :: k in newObj && newObj[k] == CleanedField(copy[k], spreadIds)
    requires forall k | k in newObj :: k in copy && !copy[k].Undef?
    ensures newObj == WithoutUndefined(obj, spreadIds)
  {
    assert newObj == map k | k in copy && !copy[k].Undef? :: CleanedField(copy[k], spreadIds);
  }

  /** What a defined field becomes: arrays are mapped, plain objects cleaned, anything else kept. */
  function CleanedField(x: Json, spreadIds: bool): Json
    decreases x, 1
  {
    match x
    case Arr(items) => Arr(seq(|items|, i requires 0 <= i < |items| => CleanedItem(items[i], spreadIds)))
    case Obj(_) => Obj(WithoutUndefined(x, spreadIds))
    case _ => x
  }

  /** What an array element becomes: every element whose typeof is "object" is cleaned as an object. */
  function CleanedItem(x: Json, spreadIds: bool): Json
    decreases x, 1
  {
    if IsObjectTyped(x) && (spreadIds || !x.Oid?) then Obj(WithoutUndefined(x, spreadIds)) else x
  }

  /** `removeUndefinedValues` of src/utils.ts: a for-in loop over a spread copy. */
  method RemoveUndefinedValues(obj: Json) returns (newObj: map<string, Json>)
    requires IsObjectTyped(obj)
    ensures newObj == WithoutUndefined(obj, false)
    decreases obj, 1
  {
    var copy := Spread(obj);
    newObj := copy;
    var pending := copy.Keys;
    while pending != {}
      invariant pending <= copy.Keys
      invariant forall k | k in pending :: k in newObj && newObj[k] == copy[k]
      invariant forall k | k in copy && k !in pending && !copy[k].Undef? :: k in newObj && newObj[k] == CleanedField(copy[k], false)
      invariant forall k | k in newObj :: k in copy && (k in pending || !copy[k].Undef?)
      decreases pending
    {
      var key :| key in pending;
      pending := pending - {key};
      var value := newObj[key];
      if value.Undef? {
        newObj := newObj - {key};
      } else {
        var cleaned := CleanField(value);
        newObj := newObj[key := cleaned];
      }
    }
    AllFieldsCleaned(obj, false, copy, newObj);
  }

  /** The body of the for-in loop of `removeUndefinedValues`, for one defined field. */
  method CleanField(value: Json) returns (r: Json)
    ensures r == CleanedField(value, false)
    decreases value, 2
  {
    if value.Arr? {
      var mapped := RemoveUndefinedFromItems(value);
      r := Arr(mapped);
    } else if !value.Null? && IsObjectTyped(value) && !value.Oid? {
      var cleaned := RemoveUndefinedValues(value);
      r := Obj(cleaned);
    } else {
      r := value;
    }
  }

  /** The `map` callback of `removeUndefinedValues`, applied to every element of an array. */
  method RemoveUndefinedFromItems(value: Json) returns (mapped: seq<Json>)
    requires value.Arr?
    ensures Arr(mapped) == CleanedField(value, false)
    decreases value, 0
  {
    var items := value.items;
    mapped := [];
    while |mapped| < |items|
      invariant |mapped| <= |items|
      invariant forall i | 0 <= i < |mapped| :: mapped[i] == CleanedItem(items[i], false)
    {
      var item := items[|mapped|];
      if IsObjectTyped(item) && !item.Oid? {
        var cleaned := RemoveUndefinedValues(item);
        item := Obj(cleaned);
      }
      mapped := mapped + [item];
    }
  }

  /**
   * A value `removeUndefinedValues` has nothing left to do on: no field at any
   * depth is undefined, and every array element is a cleaned object or a value
   * whose typeof is not "object" (or, when ids are not spread, an ObjectId).
   */
  predicate Settled(v: Json, spreadIds: bool) {
    match v
    case Obj(m) => forall k | k in m :: !m[k].Undef? && Settled(m[k], spreadIds)
    case Arr(items) =>
      forall i | 0 <= i < |items| ::
        (items[i].Obj? || !IsObjectTyped(items[i]) || (items[i].Oid? && !spreadIds)) && Settled(items[i], spreadIds)
    case _ => true
  }

  /** Every undefined field, at every depth, is gone from the result. */
  lemma {:induction false} WithoutUndefinedSettles(v: Json, spreadIds: bool)
    requires IsObjectTyped(v)
    ensures Settled(Obj(WithoutUndefined(v, spreadIds)), spreadIds)
    decreases v, 0
  {
    var m := WithoutUndefined(v, spreadIds);
    forall k | k in m
      ensures !m[k].Undef? && Settled(m[k], spreadIds)
    {
      CleanedFieldSettles(Spread(v)[k], spreadIds);
    }
  }

  lemma {:induction false} CleanedFieldSettles(x: Json, spreadIds: bool)
    ensures !x.Undef? ==> !CleanedField(x, spreadIds).Undef?
    ensures Settled(CleanedField(x, spreadIds), spreadIds)
    decreases x, 1
  {
    match x
    case Arr(items) =>
      var r := CleanedField(x, spreadIds).items;
      forall i | 0 <= i < |items|
        ensures (r[i].Obj? || !IsObjectTyped(r[i]) || (r[i].Oid? && !spreadIds)) && Settled(r[i], spreadIds)
      {
        assert r[i] == CleanedItem(items[i], spreadIds);
        if IsObjectTyped(items[i]) && (spreadIds || !items[i].Oid?) {
          WithoutUndefinedSettles(items[i], spreadIds);
        }
      }
    case Obj(_) =>
      WithoutUndefinedSettles(x, spreadIds);
    case _ =>
  }

  /** On a settled object the function changes nothing, so applying it twice is applying it once. */
  lemma {:induction false} SettledIsUnchanged(v: Json, spreadIds: bool)
    requires v.Obj? && Settled(v, spreadIds)
    ensures WithoutUndefined(v, spreadIds) == v.fields
    decreases v, 0
  {
    var m := v.fields;
    forall k | k in m
      ensures CleanedField(m[k], spreadIds) == m[k]
    {
      SettledFieldIsUnchanged(m[k], spreadIds);
    }
  }

  lemma {:induction false} SettledFieldIsUnchanged(x: Json, spreadIds: bool)
    requires Settled(x, spreadIds)
    ensures CleanedField(x, spreadIds) == x
    decreases x, 1
  {
    match x
    case Arr(items) =>
      forall i | 0 <= i < |items|
        ensures CleanedItem(items[i], spreadIds) == items[i]
      {
        if items[i].Obj? {
          SettledIsUnchanged(items[i], spreadIds);
        }
      }
      assert CleanedField(x, spreadIds).items == items;
    case Obj(_) =>
      SettledIsUnchanged(x, spreadIds);
    case _ =>
  }

  lemma RemoveUndefinedIdempotent(v: Json, spreadIds: bool)
    requires IsObjectTyped(v)
    ensures WithoutUndefined(Obj(WithoutUndefined(v, spreadIds)), spreadIds) == WithoutUndefined(v, spreadIds)
  {
    WithoutUndefinedSettles(v, spreadIds);
    SettledIsUnchanged(Obj(WithoutUndefined(v, spreadIds)), spreadIds);
  }

  /** ObjectId fields are kept as they are: the function never descends into them. */
  lemma KeepsObjectIdFields(v: Json, spreadIds: bool, k: string)
    requires v.Obj? && k in v.fields && v.fields[k].Oid?
    ensures k in WithoutUndefined(v, spreadIds) && WithoutUndefined(v, spreadIds)[k] == v.fields[k]
  {
  }

  /** A null inside an array is spread into an empty object. */
  lemma NullElementBecomesEmptyObject()
    ensures WithoutUndefined(Obj(map["a" := Arr([Null])]), false) == map["a" := Arr([Obj(map[])])]
  {
    assert WithoutUndefined(Null, false) == map[];
    assert CleanedField(Arr([Null]), false).items == [Obj(map[])];
  }

  /** An array inside an array is spread into an object keyed by index. */
  lemma NestedArrayBecomesIndexedObject()
    ensures WithoutUndefined(Obj(map["a" := Arr([Arr([Num(7)])])]), false)
         == map["a" := Arr([Obj(map["0" := Num(7)])])]
  {
    var inner := Arr([Num(7)]);
    assert ArrayFields([Num(7)]) == map["0" := Num(7)] by {
      assert [Num(7)][..0] == [];
    }
    assert WithoutUndefined(inner, false) == map["0" := Num(7)];
    assert CleanedField(Arr([inner]), false).items == [Obj(map["0" := Num(7)])];
  }

  // ---------------------------------------------------------------------
  // ObjectId tags
  // ---------------------------------------------------------------------

  /** `ObjectId.isValid(x)` for the values documents hold: a 24-digit hex string or an ObjectId. */
  predicate IsValidIdValue(x: Json) {
    (x.Str? && IsHexId(x.s)) || x.Oid?
  }

  /** `isSerializedObjectId(x)`: an object whose `$oid` field is set and names a valid id. */
  predicate IsSerializedObjectId(x: Json): (b: bool)
    ensures b <==> x.Obj? && "$oid" in x.fields && IsValidIdValue(x.fields["$oid"])
  {
    x.Obj? && Truthy(Field(x.fields, "$oid")) && IsValidIdValue(Field(x.fields, "$oid"))
  }

  /** `encodeSerializedObjectId(id)`: the tag `oid:` followed by the text of `id.$oid`. */
  function EncodeSerializedObjectId(id: map<string, Json>): (s: string)
    requires "$oid" in id && !IsNullish(id["$oid"])
    ensures |s| >= 4 && s[..4] == "oid:" && s[4..] == JsString(id["$oid"])
  {
    "oid:" + JsString(id["$oid"])
  }

  /** `s.slice(n)`: the suffix from `n` on, empty when `s` is shorter. */
  function SliceFrom(s: string, n: nat): (r: string)
    ensures n <= |s| ==> r == s[n..]
    ensures n > |s| ==> r == ""
  {
    if n <= |s| then s[n..] else ""
  }

  /** `decodeObjectId(s)`: the ObjectId named by what follows the 4-character tag; bson throws on anything else. */
  function DecodeObjectId(s: string): (r: Result<ObjectId, Error>)
    ensures r.Ok? <==> |s| >= 4 && IsHexId(s[4..])
    ensures r.Ok? ==> r.value == ParseHexId(s[4..])
  {
    ToObjectId(Str(SliceFrom(s, 4)))
  }

  /** `isEncodedObjectId(x)`: a string made of the tag `oid:` and 24 hex digits. */
  predicate IsEncodedObjectId(x: Json): (b: bool)
    ensures b ==> x.Str? && DecodeObjectId(x.s).Ok? && !IsHexId(x.s)
  {
    x.Str? && |x.s| >= 4 && x.s[..4] == "oid:" && |x.s| == 4 + 24 && IsHexId(x.s[4..])
  }

  /** Encoding the EJSON form of any ObjectId yields a string `isEncodedObjectId` accepts, and decoding it gives the id back. */
  lemma EncodeDecodeRoundTrip(id: ObjectId)
    ensures IsEncodedObjectId(Str(EncodeSerializedObjectId(Ejson.OidWrapper(id).fields)))
    ensures DecodeObjectId(EncodeSerializedObjectId(Ejson.OidWrapper(id).fields)) == Ok(id)
  {
    var s := EncodeSerializedObjectId(Ejson.OidWrapper(id).fields);
    assert s[4..] == id;
  }

  /** For a `$oid` given as hex text, decoding the encoding is `new ObjectId(hex)`. */
  lemma EncodeDecodeHex(h: string)
    requires IsHexId(h)
    ensures IsEncodedObjectId(Str(EncodeSerializedObjectId(map["$oid" := Str(h)])))
    ensures DecodeObjectId(EncodeSerializedObjectId(map["$oid" := Str(h)])) == Ok(ParseHexId(h))
  {
    var s := EncodeSerializedObjectId(map["$oid" := Str(h)]);
    assert s[4..] == h;
  }

  /** The tag test holds exactly for `"oid:" + h` with `h` a valid hex id. */
  lemma EncodedIdsAreTaggedHex(s: string)
    ensures IsEncodedObjectId(Str(s)) <==> |s| == 28 && s[..4] == "oid:" && IsHexId(s[4..])
    ensures forall h :: IsHexId(h) ==> IsEncodedObjectId(Str("oid:" + h))
  {
    forall h | IsHexId(h)
      ensures IsEncodedObjectId(Str("oid:" + h))
    {
      assert ("oid:" + h)[..4] == "oid:";
      assert ("oid:" + h)[4..] == h;
    }
  }

  /** A bare hex id is not an encoded id, and neither is the text "invalid". */
  lemma BareAndInvalidAreNotEncoded(id: ObjectId)
    ensures !IsEncodedObjectId(Str(id))
    ensures !IsEncodedObjectId(Str("invalid"))
  {
  }

  /** The encoding or decoding of a value one of the tag tests accepts. */
  function Recode(x: Json, idsToString: bool): (r: Json)
    requires if idsToString then IsSerializedObjectId(x) else IsEncodedObjectId(x)
    ensures idsToString ==> r.Str? && r.s == EncodeSerializedObjectId(x.fields)
    ensures !idsToString ==> r.Oid? && Ok(r.id) == DecodeObjectId(x.s)
  {
    if idsToString then Str(EncodeSerializedObjectId(x.fields)) else Oid(DecodeObjectId(x.s).value)
  }

  /** `replaceOidOperatorForValue`: recode the value if the tag test of the direction accepts it. */
  function ReplaceOidOperatorForValue(value: Json, idsToString: bool): (r: Json)
    ensures idsToString ==> !IsSerializedObjectId(r)
    ensures !idsToString ==> !IsEncodedObjectId(r)
    ensures r != value ==> if idsToString then IsSerializedObjectId(value) else IsEncodedObjectId(value)
  {
    if idsToString && IsSerializedObjectId(value) then Recode(value, true)
    else if !idsToString && IsEncodedObjectId(value) then Recode(value, false)
    else value
  }

  /** The direction's tag test. */
  predicate Recodable(x: Json, idsToString: bool) {
    if idsToString then IsSerializedObjectId(x) else IsEncodedObjectId(x)
  }

  /** The object `replaceOidOperator(v, idsToString)` builds from `{...v}`. */
  function Replaced(v: Json, idsToString: bool): (m: map<string, Json>)
    requires IsObjectTyped(v)
    ensures m.Keys == Spread(v).Keys
    decreases v, 0
  {
    var copy := Spread(v);
    map k | k in copy :: ReplacedField(copy[k], idsToString)
  }

  /** What a field becomes: recoded, an array mapped, an object (or ObjectId) walked, or passed to `replaceOidOperatorForValue`. */
  function ReplacedField(x: Json, idsToString: bool): Json
    decreases x, 1
  {
    if Recodable(x, idsToString) then Recode(x, idsToString)
    else if x.Arr? then Arr(seq(|x.items|, i requires 0 <= i < |x.items| => ReplacedItem(x.items[i], idsToString)))
    else if !IsNullish(x) && IsObjectTyped(x) then Obj(Replaced(x, idsToString))
    else ReplaceOidOperatorForValue(x, idsToString)
  }

  /** What an array element becomes: recoded, or walked when its typeof is "object" (null included). */
  function ReplacedItem(x: Json, idsToString: bool): Json
    decreases x, 1
  {
    if Recodable(x, idsToString) then Recode(x, idsToString)
    else if IsObjectTyped(x) then Obj(Replaced(x, idsToString))
    else ReplaceOidOperatorForValue(x, idsToString)
  }

  /** `replaceOidOperator` of src/utils.ts: a for-in loop over a spread copy. */
  method ReplaceOidOperator(obj: Json, idsToString: bool) returns (newObj: map<string, Json>)
    requires IsObjectTyped(obj)
    ensures newObj == Replaced(obj, idsToString)
    decreases obj, 1
  {
    var copy := Spread(obj);
    newObj := copy;
    var pending := copy.Keys;
    while pending != {}
      invariant pending <= copy.Keys && newObj.Keys == copy.Keys
      invariant forall k | k in pending :: newObj[k] == copy[k]
      invariant forall k | k in copy && k !in pending :: newObj[k] == ReplacedField(copy[k], idsToString)
      decreases pending
    {
      var key :| key in pending;
      pending := pending - {key};
      var replaced := ReplaceField(newObj[key], idsToString);
      newObj := newObj[key := replaced];
    }
    AllFieldsReplaced(obj, idsToString, copy, newObj);
  }

  /** A map holding the replacement of every field of the spread copy is what `Replaced` builds. */
  lemma {:induction false} AllFieldsReplaced(obj: Json, idsToString: bool, copy: map<string, Json>, newObj: map<string, Json>)
    requires IsObjectTyped(obj) && copy == Spread(obj) && newObj.Keys == copy.Keys
    requires forall k | k in copy :: newObj[k] == ReplacedField(copy[k], idsToString)
    ensures newObj == Replaced(obj, idsToString)
  {
    assert newObj == map k | k in copy :: ReplacedField(copy[k], idsToString);
  }

  /** The body of the for-in loop of `replaceOidOperator`, for one field. */
  method ReplaceField(value: Json, idsToString: bool) returns (r: Json)
    ensures r == ReplacedField(value, idsToString)
    decreases value, 2
  {
    if idsToString && IsSerializedObjectId(value) {
      r := Str(EncodeSerializedObjectId(value.fields));
    } else if !idsToString && IsEncodedObjectId(value) {
      r := Oid(DecodeObjectId(value.s).value);
    } else if value.Arr? {
      var mapped := ReplaceOidInItems(value, idsToString);
      r := Arr(mapped);
    } else if !IsNullish(value) && IsObjectTyped(value) {
      var walked := ReplaceOidOperator(value, idsToString);
      r := Obj(walked);
    } else {
      r := ReplaceOidOperatorForValue(value, idsToString);
    }
  }

  /** The `map` callback of `replaceOidOperator`, applied to every element of an array. */
  method ReplaceOidInItems(value: Json, idsToString: bool) returns (mapped: seq<Json>)
    requires value.Arr? && !Recodable(value, idsToString)
    ensures Arr(mapped) == ReplacedField(value, idsToString)
    decreases value, 0
  {
    var items := value.items;
    mapped := [];
    while |mapped| < |items|
      invariant |mapped| <= |items|
      invariant forall i | 0 <= i < |mapped| :: mapped[i] == ReplacedItem(items[i], idsToString)
    {
      var item := items[|mapped|];
      if idsToString && IsSerializedObjectId(item) {
        item := Str(EncodeSerializedObjectId(item.fields));
      } else if !idsToString && IsEncodedObjectId(item) {
        item := Oid(DecodeObjectId(item.s).value);
      } else if IsObjectTyped(item) {
        var walked := ReplaceOidOperator(item, idsToString);
        item := Obj(walked);
      } else {
        item := ReplaceOidOperatorForValue(item, idsToString);
      }
      mapped := mapped + [item];
    }
  }

  /** No field value or array element inside `v` (its own top level excluded) is a serialized ObjectId. */
  predicate NoSerializedIdInside(v: Json) {
    match v
    case Obj(m) => forall k | k in m :: !IsSerializedObjectId(m[k]) && NoSerializedIdInside(m[k])
    case Arr(items) => forall i | 0 <= i < |items| :: !IsSerializedObjectId(items[i]) && NoSerializedIdInside(items[i])
    case _ => true
  }

  /** No field value or array element inside `v` is an encoded ObjectId string. */
  predicate NoEncodedIdInside(v: Json) {
    match v
    case Obj(m) => forall k | k in m :: !IsEncodedObjectId(m[k]) && NoEncodedIdInside(m[k])
    case Arr(items) => forall i | 0 <= i < |items| :: !IsEncodedObjectId(items[i]) && NoEncodedIdInside(items[i])
    case _ => true
  }

  lemma ArrayKeysAreDigits(items: seq<Json>, k: string)
    requires k in ArrayFields(items)
    ensures k != "$oid"
  {
    if items != [] {
      var init := items[..|items| - 1];
      var last := NatToDecimal(|items| - 1);
      if k != last {
        ArrayKeysAreDigits(init, k);
      } else {
        assert '0' <= k[0] <= '9';
      }
    }
  }

  /** Walking a value that is not itself a serialized id cannot make one. */
  lemma WalkedIsNotSerialized(x: Json)
    requires IsObjectTyped(x) && !IsSerializedObjectId(x)
    ensures !IsSerializedObjectId(Obj(Replaced(x, true)))
  {
    var r := Replaced(x, true);
    if "$oid" in r {
      if x.Arr? {
        ArrayKeysAreDigits(x.items, "$oid");
      }
      var y := x.fields["$oid"];
      assert r["$oid"] == ReplacedField(y, true);
      if IsSerializedObjectId(y) {
        assert r["$oid"].s[0] == 'o';
      }
    }
  }

  /** `replaceOidOperator(v, true)` leaves no serialized ObjectId anywhere below the top level. */
  lemma {:induction false} EncodingLeavesNoSerializedIds(v: Json)
    requires IsObjectTyped(v)
    ensures NoSerializedIdInside(Obj(Replaced(v, true)))
    decreases v, 0
  {
    var m := Replaced(v, true);
    forall k | k in m
      ensures !IsSerializedObjectId(m[k]) && NoSerializedIdInside(m[k])
    {
      EncodedFieldIsClean(Spread(v)[k]);
    }
  }

  lemma {:induction false} EncodedFieldIsClean(x: Json)
    ensures !IsSerializedObjectId(ReplacedField(x, true)) && NoSerializedIdInside(ReplacedField(x, true))
    ensures !IsSerializedObjectId(ReplacedItem(x, true)) && NoSerializedIdInside(ReplacedItem(x, true))
    decreases x, 1
  {
    if !Recodable(x, true) && IsObjectTyped(x) {
      EncodingLeavesNoSerializedIds(x);
      WalkedIsNotSerialized(x);
    }
    if !Recodable(x, true) && x.Arr? {
      var r := ReplacedField(x, true).items;
      forall i | 0 <= i < |x.items|
        ensures !IsSerializedObjectId(r[i]) && NoSerializedIdInside(r[i])
      {
        EncodedFieldIsClean(x.items[i]);
      }
    }
  }

  /** `replaceOidOperator(v, false)` leaves no encoded ObjectId string anywhere below the top level. */
  lemma {:induction false} DecodingLeavesNoEncodedIds(v: Json)
    requires IsObjectTyped(v)
    ensures NoEncodedIdInside(Obj(Replaced(v, false)))
    decreases v, 0
  {
    var m := Replaced(v, false);
    forall k | k in m
      ensures !IsEncodedObjectId(m[k]) && NoEncodedIdInside(m[k])
    {
      DecodedFieldIsClean(Spread(v)[k]);
    }
  }

  lemma {:induction false} DecodedFieldIsClean(x: Json)
    ensures !IsEncodedObjectId(ReplacedField(x, false)) && NoEncodedIdInside(ReplacedField(x, false))
    ensures !IsEncodedObjectId(ReplacedItem(x, false)) && NoEncodedIdInside(ReplacedItem(x, false))
    decreases x, 1
  {
    if !Recodable(x, false) && IsObjectTyped(x) {
      DecodingLeavesNoEncodedIds(x);
    }
    if !Recodable(x, false) && x.Arr? {
      var r := ReplacedField(x, false).items;
      forall i | 0 <= i < |x.items|
        ensures !IsEncodedObjectId(r[i]) && NoEncodedIdInside(r[i])
      {
        DecodedFieldIsClean(x.items[i]);
      }
    }
  }

  /**
   * A value the walk has nothing to do on: no ObjectId instance, no value the
   * direction's tag test accepts, and arrays hold only plain objects and
   * values whose typeof is not "object".
   */
  predicate Inert(v: Json, idsToString: bool) {
    match v
    case Oid(_) => false
    case Str(_) => idsToString || !IsEncodedObjectId(v)
    case Arr(items) => forall i | 0 <= i < |items| :: !items[i].Null? && !items[i].Arr? && Inert(items[i], idsToString)
    case Obj(m) => !(idsToString && IsSerializedObjectId(v)) && forall k | k in m :: Inert(m[k], idsToString)
    case _ => true
  }

  /** On inert fields the walk changes nothing: every other leaf is left as it is. */
  lemma {:induction false} InertIsUnchanged(v: Json, idsToString: bool)
    requires v.Obj? && forall k | k in v.fields :: Inert(v.fields[k], idsToString)
    ensures Replaced(v, idsToString) == v.fields
    decreases v, 0
  {
    forall k | k in v.fields
      ensures ReplacedField(v.fields[k], idsToString) == v.fields[k]
    {
      InertFieldIsUnchanged(v.fields[k], idsToString);
    }
  }

  lemma {:induction false} InertFieldIsUnchanged(x: Json, idsToString: bool)
    requires Inert(x, idsToString)
    ensures ReplacedField(x, idsToString) == x
    ensures !x.Null? && !x.Arr? ==> ReplacedItem(x, idsToString) == x
    decreases x, 1
  {
    match x
    case Arr(items) =>
      forall i | 0 <= i < |items|
        ensures ReplacedItem(items[i], idsToString) == items[i]
      {
        InertFieldIsUnchanged(items[i], idsToString);
      }
      assert ReplacedField(x, idsToString).items == items;
    case Obj(m) =>
      InertIsUnchanged(x, idsToString);
    case _ =>
  }

  // ---------------------------------------------------------------------
  // serialize / deserialize
  // ---------------------------------------------------------------------

  /** `serialize(obj, removeUndefined)`: optionally drop undefined fields, EJSON-serialize, encode the ids. */
  function Serialize(obj: map<string, Json>, removeUndefined: bool): (r: map<string, Json>)
    ensures Ejson.IsPlain(Obj(r))
    ensures NoSerializedIdInside(Obj(r))
  {
    var cleaned := if removeUndefined then WithoutUndefined(Obj(obj), false) else obj;
    var e := Ejson.Serialize(Obj(cleaned));
    EncodedIsPlain(e);
    EncodingLeavesNoSerializedIds(e);
    Replaced(e, true)
  }

  /** `deserialize(obj)`: EJSON-deserialize, then decode the ids. */
  function Deserialize(obj: map<string, Json>): (r: Result<map<string, Json>, Error>)
    ensures r.Ok? ==> NoEncodedIdInside(Obj(r.value))
  {
    match Ejson.Deserialize(Obj(obj))
    case Ok(e) =>
      DecodingLeavesNoEncodedIds(e);
      Ok(Replaced(e, false))
    case Err(err) => Err(err)
  }

  /** Encoding a plain JSON value keeps it plain. */
  lemma {:induction false} EncodedIsPlain(v: Json)
    requires IsObjectTyped(v) && Ejson.IsPlain(v)
    ensures Ejson.IsPlain(Obj(Replaced(v, true)))
    decreases v, 0
  {
    var m := Replaced(v, true);
    forall k | k in m
      ensures Ejson.IsPlain(m[k])
    {
      if v.Arr? {
        assert Spread(v)[k] in v.items;
      }
      EncodedFieldIsPlain(Spread(v)[k]);
    }
  }

  lemma {:induction false} EncodedFieldIsPlain(x: Json)
    requires Ejson.IsPlain(x)
    ensures Ejson.IsPlain(ReplacedField(x, true)) && Ejson.IsPlain(ReplacedItem(x, true))
    decreases x, 1
  {
    if !Recodable(x, true) && IsObjectTyped(x) {
      EncodedIsPlain(x);
    }
    if !Recodable(x, true) && x.Arr? {
      var r := ReplacedField(x, true).items;
      forall i | 0 <= i < |x.items|
        ensures Ejson.IsPlain(r[i])
      {
        EncodedFieldIsPlain(x.items[i]);
      }
    }
  }

  /**
   * The documents the round trip holds for: no string that looks like an
   * encoded id, no field name EJSON reserves (a `$` prefix, `_bsontype` or a NUL), and
   * arrays holding neither null, undefined nor arrays (those are spread into
   * objects on the way out).
   */
  predicate Portable(v: Json) {
    match v
    case Str(_) => !IsEncodedObjectId(v)
    case Arr(items) => forall i | 0 <= i < |items| :: !IsNullish(items[i]) && !items[i].Arr? && Portable(items[i])
    case Obj(m) => forall k | k in m :: !Ejson.IsReservedKey(k) && Portable(m[k])
    case _ => true
  }

  lemma {:induction false} CleanedIsPortable(v: Json)
    requires v.Obj? && Portable(v)
    ensures Portable(Obj(WithoutUndefined(v, false))) && Ejson.NoUndefined(Obj(WithoutUndefined(v, false)))
    decreases v, 0
  {
    var m := WithoutUndefined(v, false);
    forall k | k in m
      ensures Portable(m[k]) && Ejson.NoUndefined(m[k])
    {
      CleanedFieldIsPortable(v.fields[k]);
    }
  }

  lemma {:induction false} CleanedFieldIsPortable(x: Json)
    requires Portable(x) && !x.Undef?
    ensures Portable(CleanedField(x, false)) && Ejson.NoUndefined(CleanedField(x, false))
    decreases x, 1
  {
    match x
    case Arr(items) =>
      var r := CleanedField(x, false).items;
      forall i | 0 <= i < |items|
        ensures !IsNullish(r[i]) && !r[i].Arr? && Portable(r[i]) && Ejson.NoUndefined(r[i])
      {
        assert r[i] == CleanedItem(items[i], false);
        if items[i].Obj? {
          CleanedIsPortable(items[i]);
        }
      }
    case Obj(_) =>
      CleanedIsPortable(x);
    case _ =>
  }

  lemma {:induction false} ObjectRoundTrip(v: Json)
    requires v.Obj? && Portable(v) && Ejson.NoUndefined(v)
    ensures Ejson.IsPlain(Obj(Replaced(Ejson.Serialize(v), true)))
    ensures Ejson.NoReservedKeys(Obj(Replaced(Ejson.Serialize(v), true)))
    ensures Replaced(Obj(Replaced(Ejson.Serialize(v), true)), false) == v.fields
    decreases v, 0
  {
    var e := Ejson.Serialize(v);
    var s := Replaced(e, true);
    forall k | k in s
      ensures Ejson.IsPlain(s[k]) && Ejson.NoReservedKeys(s[k]) && ReplacedField(s[k], false) == v.fields[k]
    {
      assert e.fields[k] == Ejson.Serialize(v.fields[k]);
      FieldRoundTrip(v.fields[k]);
    }
    DecodesBack(s, v.fields);
  }

  /** Decoding an object whose fields each decode to `m`'s gives `m`. */
  lemma DecodesBack(s: map<string, Json>, m: map<string, Json>)
    requires s.Keys == m.Keys && forall k | k in s :: ReplacedField(s[k], false) == m[k]
    ensures Replaced(Obj(s), false) == m
  {
  }

  lemma {:induction false} FieldRoundTrip(x: Json)
    requires Portable(x) && Ejson.NoUndefined(x)
    ensures var e := ReplacedField(Ejson.Serialize(x), true);
      Ejson.IsPlain(e) && Ejson.NoReservedKeys(e) && ReplacedField(e, false) == x
    ensures !IsNullish(x) && !x.Arr? ==>
      var e := ReplacedItem(Ejson.Serialize(x), true);
      Ejson.IsPlain(e) && Ejson.NoReservedKeys(e) && ReplacedItem(e, false) == x
    decreases x, 1
  {
    match x
    case Oid(id) =>
      EncodeDecodeRoundTrip(id);
    case Obj(m) =>
      assert !IsSerializedObjectId(Ejson.Serialize(x));
      ObjectRoundTrip(x);
    case Arr(items) =>
      var e := Ejson.Serialize(x).items;
      var r := ReplacedField(Ejson.Serialize(x), true).items;
      forall i | 0 <= i < |items|
        ensures e[i] == Ejson.Serialize(items[i])
        ensures Ejson.IsPlain(r[i]) && Ejson.NoReservedKeys(r[i]) && ReplacedItem(r[i], false) == items[i]
      {
        FieldRoundTrip(items[i]);
      }
      assert ReplacedField(ReplacedField(Ejson.Serialize(x), true), false).items == items;
    case _ =>
  }

  /**
   * `deserialize(serialize(d))` is `d` without its undefined fields, for every
   * portable document `d`.
   */
  lemma SerializeRoundTrip(d: map<string, Json>)
    requires Portable(Obj(d))
    ensures Deserialize(Serialize(d, true)) == Ok(WithoutUndefined(Obj(d), false))
  {
    var cleaned := WithoutUndefined(Obj(d), false);
    CleanedIsPortable(Obj(d));
    ObjectRoundTrip(Obj(cleaned));
    Ejson.DeserializePlain(Obj(Serialize(d, true)));
  }

  /** With `removeUndefined` off, undefined fields are serialized as null. */
  lemma UndefinedBecomesNull(d: map<string, Json>, k: string)
    requires k in d && d[k].Undef?
    ensures k in Serialize(d, false) && Serialize(d, false)[k] == Null
  {
    var e := Ejson.Serialize(Obj(d));
    assert e.fields[k] == Null;
    assert Serialize(d, false) == Replaced(e, true);
    assert Spread(e) == e.fields;
    assert !Recodable(Null, true);
    assert Replaced(e, true)[k] == ReplacedField(Null, true) == Null;
  }

  // ---------------------------------------------------------------------
  // ensureObjHasId
  // ---------------------------------------------------------------------

  /**
   * The fields `ensureObjHasId` leaves: a set string `_id` becomes the ObjectId
   * it names (bson throws on one that names none), an unset `_id` becomes
   * `freshId`, and any other value is kept.
   */
  function WithEnsuredId(fields: map<string, Json>, freshId: ObjectId): (r: Result<map<string, Json>, Error>)
    ensures var id := Field(fields, "_id");
      && (r.Err? <==> id.Str? && Truthy(id) && !IsHexId(id.s))
      && (id.Str? && IsHexId(id.s) ==> r == Ok(fields["_id" := Oid(ParseHexId(id.s))]))
      && (id.Oid? ==> r == Ok(fields))
      && (!Truthy(id) ==> r == Ok(fields["_id" := Oid(freshId)]))
      && (r.Ok? && (id.Str? || id.Oid? || IsNullish(id)) ==> "_id" in r.value && r.value["_id"].Oid?)
      && (r.Ok? ==> r.value.Keys == fields.Keys + {"_id"} && forall k | k in fields && k != "_id" :: r.value[k] == fields[k])
  {
    var id := Field(fields, "_id");
    if Truthy(id) && id.Str? then
      match ToObjectId(id)
      case Ok(oid) => Ok(fields["_id" := Oid(oid)])
      case Err(e) => Err(e)
    else if !Truthy(id) then
      Ok(fields["_id" := Oid(freshId)])
    else
      Ok(fields)
  }

  /** `ensureObjHasId(obj)`, which changes `obj._id` in place; bson's fresh id is the parameter `freshId`. */
  method EnsureObjHasId(obj: JsObject, freshId: ObjectId) returns (outcome: Outcome<Error>)
    modifies obj
    ensures WithEnsuredId(old(obj.fields), freshId).Ok? ==> outcome.Pass? && obj.fields == WithEnsuredId(old(obj.fields), freshId).value
    ensures WithEnsuredId(old(obj.fields), freshId).Err? ==> outcome == Fail(WithEnsuredId(old(obj.fields), freshId).error) && obj.fields == old(obj.fields)
  {
    var id := Field(obj.fields, "_id");
    outcome := Pass;
    if Truthy(id) && id.Str? {
      var parsed := ToObjectId(id);
      if parsed.Ok? {
        obj.fields := obj.fields["_id" := Oid(parsed.value)];
      } else {
        outcome := Fail(parsed.error);
      }
    } else if !Truthy(id) {
      obj.fields := obj.fields["_id" := Oid(freshId)];
    }
  }
}

/**
 * JavaScript values as the data-access layer sees them: documents are plain
 * objects whose fields hold JSON-like values, `undefined`, or bson ObjectIds.
 */
module JsonValue {
  import opened Wrappers

  predicate IsHexDigit(c: char) {
    '0' <= c <= '9' || 'a' <= c <= 'f' || 'A' <= c <= 'F'
  }

  predicate IsLowerHexDigit(c: char) {
    '0' <= c <= '9' || 'a' <= c <= 'f'
  }

  /** A string bson's ObjectId accepts: exactly 24 hexadecimal digits. */
  predicate IsHexId(s: string) {
    |s| == 24 && forall i | 0 <= i < |s| :: IsHexDigit(s[i])
  }

  /** The form `ObjectId.toHexString()` produces: 24 lower-case hexadecimal digits. */
  predicate IsCanonicalId(s: string) {
    |s| == 24 && forall i | 0 <= i < |s| :: IsLowerHexDigit(s[i])
  }

  /**
   * A bson ObjectId. Two ObjectIds are equal exactly when their 12 bytes are,
   * that is when their lower-case hexadecimal forms are, so an ObjectId is
   * represented by that form.
   */
  type ObjectId = s: string | IsCanonicalId(s) witness "000000000000000000000000"

  function LowerDigit(c: char): (d: char)
    requires IsHexDigit(c)
    ensures IsLowerHexDigit(d)
    ensures IsLowerHexDigit(c) ==> d == c
    ensures ('0' <= c <= '9' ==> d == c) && ('A' <= c <= 'F' ==> d as int == c as int + 32)
  {
    if 'A' <= c <= 'F' then (c as int + 32) as char else c
  }

  /** `new ObjectId(s)` for a valid hexadecimal string `s`. */
  function ParseHexId(s: string): (id: ObjectId)
    requires IsHexId(s)
    ensures forall i | 0 <= i < 24 :: id[i] == LowerDigit(s[i])
    ensures IsCanonicalId(s) ==> id == s
  {
    seq(24, i requires 0 <= i < 24 => LowerDigit(s[i]))
  }

  /** A JavaScript value, as far as documents and queries hold them. */
  datatype Json =
    | Undef
    | Null
    | Bool(b: bool)
    | Num(n: int)
    | Str(s: string)
    | Arr(items: seq<Json>)
    | Obj(fields: map<string, Json>)
    | Oid(id: ObjectId)

  /** A document: a plain object. */
  type Doc = map<string, Json>

  /** The exceptions and rejections the modelled code can raise. */
  datatype Error =
    | InvalidObjectId      // bson refuses to build an ObjectId from the given value
    | CodecThrew           // the local codec of InMemoryDbInterface.ts threw (an `_id` of null or undefined, or one bson refuses)
    | NotFound             // an update named an id that no document has
    | DuplicateId          // an insert reused an id that a document already has
    | NotJson              // `JSON.parse` was given no JSON text (what `JSON.stringify(undefined)` returns)

  /** `typeof v === "object"`: null, arrays, plain objects and ObjectId instances. */
  predicate IsObjectTyped(v: Json) {
    v.Null? || v.Arr? || v.Obj? || v.Oid?
  }

  predicate IsNullish(v: Json) {
    v.Undef? || v.Null?
  }

  /** JavaScript truthiness. */
  predicate Truthy(v: Json): (b: bool)
    ensures IsNullish(v) ==> !b
    ensures v.Arr? || v.Obj? || v.Oid? ==> b
  {
    match v
    case Undef => false
    case Null => false
    case Bool(b) => b
    case Num(n) => n != 0
    case Str(s) => s != ""
    case _ => true
  }

  /** Reading `obj[k]` from a plain object: a missing field reads as undefined. */
  function Field(obj: map<string, Json>, k: string): (v: Json)
    ensures k !in obj ==> v.Undef?
    ensures k in obj ==> v == obj[k]
  {
    if k in obj then obj[k] else Undef
  }

  function DecimalDigit(d: nat): (c: char)
    requires d < 10
    ensures '0' <= c <= '9'
  {
    (48 + d) as char
  }

  /** `String(n)` for a natural number: its decimal digits. */
  function NatToDecimal(n: nat): (s: string)
    ensures |s| > 0 && forall i | 0 <= i < |s| :: '0' <= s[i] <= '9'
  {
    if n < 10 then [DecimalDigit(n)] else NatToDecimal(n / 10) + [DecimalDigit(n % 10)]
  }

  /** `String(n)` for an integer. */
  function IntToDecimal(n: int): (s: string)
    ensures |s| > 0
    ensures n >= 0 <==> s[0] != '-'
  {
    if n < 0 then "-" + NatToDecimal(-n) else NatToDecimal(n)
  }

  /** The fields `{...items}` gives an array: element i under the key `String(i)`. */
  function ArrayFields(items: seq<Json>): (m: map<string, Json>)
    ensures forall k | k in m :: m[k] in items
    ensures |items| > 0 ==> NatToDecimal(|items| - 1) in m && m[NatToDecimal(|items| - 1)] == items[|items| - 1]
  {
    if items == [] then map[]
    else
      var init := items[..|items| - 1];
      assert forall x | x in init :: x in items;
      ArrayFields(init)[NatToDecimal(|items| - 1) := items[|items| - 1]]
  }

  /**
   * The copy `{...v}` of a value whose typeof is "object". Spreading null gives
   * `{}`; spreading an ObjectId instance copies bson-internal fields, which the
   * model leaves out, so it gives `{}` too.
   */
  function Spread(v: Json): (m: map<string, Json>)
    requires IsObjectTyped(v)
    ensures v.Obj? ==> m == v.fields
    ensures v.Null? || v.Oid? ==> m == map[]
    ensures forall k | k in m :: (v.Obj? && k in v.fields && m[k] == v.fields[k]) || (v.Arr? && m[k] in v.items)
  {
    match v
    case Obj(fields) => fields
    case Arr(items) => ArrayFields(items)
    case _ => map[]
  }

  /** `String(v)`, the text `v.toString()` or a template literal produces. */
  function JsString(v: Json): (s: string)
    ensures v.Str? ==> s == v.s
    ensures v.Oid? ==> IsCanonicalId(s)
    decreases v, 1, 0
  {
    match v
    case Undef => "undefined"
    case Null => "null"
    case Bool(b) => if b then "true" else "false"
    case Num(n) => IntToDecimal(n)
    case Str(s) => s
    case Oid(id) => id
    case Obj(_) => "[object Object]"
    case Arr(items) => JoinFrom(v, 0)
  }

  /** `Array.prototype.join(",")` from element `from` on; null and undefined elements print empty. */
  function JoinFrom(v: Json, from: nat): string
    requires v.Arr? && from <= |v.items|
    decreases v, 0, |v.items| - from
  {
    if from == |v.items| then ""
    else
      var x := v.items[from];
      var text := if IsNullish(x) then "" else JsString(x);
      if from + 1 == |v.items| then text else text + "," + JoinFrom(v, from + 1)
  }

  /**
   * `new ObjectId(x)` for a value that is not null or undefined (for those,
   * bson generates a fresh id, which callers model with a parameter).
   */
  function ToObjectId(x: Json): (r: Result<ObjectId, Error>)
    requires !IsNullish(x)
    ensures r.Ok? <==> (x.Str? && IsHexId(x.s)) || x.Oid?
    ensures x.Oid? ==> r == Ok(x.id)
    ensures x.Str? && IsHexId(x.s) ==> r == Ok(ParseHexId(x.s))
  {
    match x
    case Str(s) => if IsHexId(s) then Ok(ParseHexId(s)) else Err(InvalidObjectId)
    case Oid(id) => Ok(id)
    case _ => Err(InvalidObjectId)
  }

  /** A JavaScript object passed by reference, so that callees can change its fields. */
  class JsObject {
    var fields: map<string, Json>

    constructor (fields: map<string, Json>)
      ensures this.fields == fields
    {
      this.fields := fields;
    }
  }
}

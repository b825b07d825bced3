/**
  The PHP values the storage layer moves between the database and its
  entities, the `Content` entity itself, and the field mappings and class
  metadata that describe an entity to the hydrator and the field
  handlers. They refer to each other (an entity field may hold an entity,
  a content type carries field mappings, a mapping carries a default
  value), so they share one module.
 */
module Entities {
  import opened Common

  /**
    A PHP value: `null`, a boolean, an integer, a string, an array (an
    ordered list of key/value entries), a `DateTime` (integer seconds) or
    an entity object. Floats and other objects are not modelled.
   */
  datatype Value =
    | VNull
    | VBool(b: bool)
    | VInt(i: int)
    | VStr(s: string)
    | VArray(entries: seq<Entry>)
    | VTime(t: int)
    | VEntity(e: Content)

  datatype Entry = Entry(key: string, value: Value)

  /** PHP truthiness: `null`, `false`, `0`, `""`, `"0"` and the empty array are falsy; objects are truthy. */
  predicate Truthy(v: Value) {
    match v
    case VNull => false
    case VBool(b) => b
    case VInt(i) => i != 0
    case VStr(s) => s != "" && s != "0"
    case VArray(es) => |es| > 0
    case VTime(_) => true
    case VEntity(_) => true
  }

  /** `$array[$key]` on a value: the first entry with that key; `null` for a missing key or a non-array. */
  function Index(v: Value, key: string): (r: Value)
    ensures !v.VArray? ==> r == VNull
    ensures v.VArray? && (forall k :: 0 <= k < |v.entries| ==> v.entries[k].key != key) ==> r == VNull
    ensures v.VArray? && |v.entries| > 0 && v.entries[0].key == key ==> r == v.entries[0].value
    ensures v.VArray? ==>
      forall k :: 0 <= k < |v.entries| && v.entries[k].key == key && (forall j :: 0 <= j < k ==> v.entries[j].key != key) ==>
        r == v.entries[k].value
  {
    if !v.VArray? then VNull
    else EntryValue(v.entries, key)
  }

  function EntryValue(es: seq<Entry>, key: string): (r: Value)
    ensures (forall k :: 0 <= k < |es| ==> es[k].key != key) ==> r == VNull
    ensures (exists k :: 0 <= k < |es| && es[k].key == key && r == es[k].value) || r == VNull
    ensures forall k :: 0 <= k < |es| && es[k].key == key && (forall j :: 0 <= j < k ==> es[j].key != key) ==>
      r == es[k].value
  {
    if |es| == 0 then VNull
    else if es[0].key == key then es[0].value
    else EntryValue(es[1..], key)
  }

  /**
    What an entity's content type can hold: nothing (`null`), a content
    type's name (a string), or a `ContentType` object with a name and
    its field mappings.
   */
  datatype ContentTypeRef =
    | CTName(name: string)
    | CTDef(name: string, fields: seq<FieldMapping>)

  /**
    One entry of a content type's field mappings: the field's name, the
    handler class (`fieldtype`), the `default` value, and the per-template
    field configuration (`config[template]['fields']`) the template-fields
    handler reads.
   */
  datatype FieldMapping = FieldMapping(
    fieldname: string,
    fieldtype: string,
    default: Value,
    config: map<string, Value>
  )

  /** `ClassMetadata`: the entity class, its Bolt content-type name (possibly unset) and its field mappings. */
  datatype ClassMetadata = ClassMetadata(
    name: string,
    boltName: Option<string>,
    fieldMappings: seq<FieldMapping>
  )

  /** The part of `ContentLegacyService` an entity initialises: the content type it resolved. */
  datatype LegacyService = LegacyService(contenttype: Option<ContentTypeRef>)

  /**
    `Entity\Content`: its class, content type, legacy service, and its
    properties by name.
   */
  datatype Content = Content(
    className: string,
    contenttype: Option<ContentTypeRef>,
    legacy: Option<LegacyService>,
    fields: map<string, Value>
  )

  /** A property of the entity; one never assigned reads as `null`. */
  function Field(c: Content, key: string): (r: Value)
    ensures key !in c.fields ==> r == VNull
    ensures key in c.fields ==> r == c.fields[key]
  {
    if key in c.fields then c.fields[key] else VNull
  }
}

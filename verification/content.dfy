/**
  The accessors of `Entity\Content`: the creation and change dates that
  fall back to the current time, the content type, the legacy service,
  and the generic getter that formats dates. The clock is a parameter
  and `DateTime::format("Y-m-d H:i:s")` an abstract formatter.
 */
module ContentEntity {
  import opened Common
  import opened Entities

  /** The properties `Content` declares; all of them start as `null`. */
  const DeclaredFields: seq<string> :=
    ["id", "slug", "datecreated", "datechanged", "datepublish", "datedepublish",
     "ownerid", "status", "templatefields"]

  /** A fresh `Content` object of class `cls`: no content type, no legacy service, every property `null`. */
  function NewContent(cls: string): (c: Content)
    ensures c.className == cls && c.contenttype.None? && c.legacy.None?
    ensures forall f :: f in DeclaredFields ==> Field(c, f) == VNull
    ensures Field(c, "datepublish") == VNull && Field(c, "datedepublish") == VNull
  {
    Content(cls, None, None, map f | f in DeclaredFields :: VNull)
  }

  /** A stored date when it is truthy, otherwise the current time. */
  function DateOrNow(stored: Value, now: int): (r: Value)
    ensures Truthy(r)
    ensures Truthy(stored) ==> r == stored
    ensures !Truthy(stored) ==> r == VTime(now)
  {
    if !Truthy(stored) then VTime(now) else stored
  }

  /** `getDatecreated`. */
  function GetDatecreated(c: Content, now: int): (r: Value)
    ensures Truthy(r)
    ensures Truthy(Field(c, "datecreated")) ==> r == Field(c, "datecreated")
    ensures !Truthy(Field(c, "datecreated")) ==> r == VTime(now)
  {
    DateOrNow(Field(c, "datecreated"), now)
  }

  /** `getDatechanged`. */
  function GetDatechanged(c: Content, now: int): (r: Value)
    ensures Truthy(r)
    ensures Truthy(Field(c, "datechanged")) ==> r == Field(c, "datechanged")
    ensures !Truthy(Field(c, "datechanged")) ==> r == VTime(now)
  {
    DateOrNow(Field(c, "datechanged"), now)
  }

  /** `getContenttype`. */
  function GetContenttype(c: Content): Option<ContentTypeRef> {
    c.contenttype
  }

  /** `setContenttype`: replaces the content type and nothing else. */
  function SetContenttype(c: Content, value: Option<ContentTypeRef>): (r: Content)
    ensures r.className == c.className && r.legacy == c.legacy && r.fields == c.fields
    ensures GetContenttype(r) == value
  {
    c.(contenttype := value)
  }

  /** Setting the content type twice keeps only the second value. */
  lemma SetContenttypeTwice(c: Content, a: Option<ContentTypeRef>, b: Option<ContentTypeRef>)
    ensures SetContenttype(SetContenttype(c, a), b) == SetContenttype(c, b)
  {
  }

  /**
    `ContentLegacyService::initialize`: the service takes the entity's
    content type, looking a name up through `resolve` (the storage's
    `getContenttype`); an object or `null` is taken as it is.
   */
  function Initialize(svc: LegacyService, c: Content, resolve: string -> ContentTypeRef): (r: LegacyService)
    ensures c.contenttype.None? ==> r.contenttype.None?
    ensures c.contenttype.Some? && c.contenttype.value.CTName? ==>
      r.contenttype == Some(resolve(c.contenttype.value.name))
    ensures c.contenttype.Some? && c.contenttype.value.CTDef? ==> r.contenttype == c.contenttype
  {
    match c.contenttype
    case Some(CTName(n)) => svc.(contenttype := Some(resolve(n)))
    case _ => svc.(contenttype := c.contenttype)
  }

  /** `setLegacyService`: the entity keeps the service, initialised with the entity itself. */
  function SetLegacyService(c: Content, svc: LegacyService, resolve: string -> ContentTypeRef): (r: Content)
    ensures r.className == c.className && r.contenttype == c.contenttype && r.fields == c.fields
    ensures r.legacy.Some?
    ensures c.contenttype.Some? && c.contenttype.value.CTName? ==>
      r.legacy.value.contenttype == Some(resolve(c.contenttype.value.name))
    ensures !(c.contenttype.Some? && c.contenttype.value.CTName?) ==> r.legacy.value.contenttype == c.contenttype
  {
    c.(legacy := Some(Initialize(svc, c, resolve)))
  }

  /** A value as `get` returns it: a date formatted as `Y-m-d H:i:s`, anything else unchanged. */
  function Formatted(v: Value, format: int -> string): (r: Value)
    ensures v.VTime? ==> r == VStr(format(v.t))
    ensures !v.VTime? ==> r == v
  {
    match v
    case VTime(t) => VStr(format(t))
    case _ => v
  }

  /** `get($key)`: the property, with a date formatted; a property never assigned reads as `null`. */
  function Get(c: Content, key: string, format: int -> string): (r: Value)
    ensures !r.VTime?
    ensures key !in c.fields ==> r == VNull
    ensures key in c.fields && !c.fields[key].VTime? ==> r == c.fields[key]
    ensures key in c.fields && c.fields[key].VTime? ==> r == VStr(format(c.fields[key].t))
  {
    Formatted(Field(c, key), format)
  }

  /** `get('datecreated')` on an entity with a creation date is that date, formatted, as `getDatecreated` returns it. */
  lemma GetAgreesWithDatecreated(c: Content, now: int, format: int -> string)
    requires Truthy(Field(c, "datecreated"))
    ensures Get(c, "datecreated", format) == Formatted(GetDatecreated(c, now), format)
  {
  }

  /** On a fresh entity the publication dates read as `null` and the creation date as the current time. */
  lemma FreshContentDates(cls: string, now: int, format: int -> string)
    ensures Get(NewContent(cls), "datepublish", format) == VNull
    ensures Get(NewContent(cls), "datedepublish", format) == VNull
    ensures GetDatecreated(NewContent(cls), now) == VTime(now)
    ensures GetDatechanged(NewContent(cls), now) == VTime(now)
  {
    assert "datecreated" in DeclaredFields && "datechanged" in DeclaredFields;
    assert "datepublish" in DeclaredFields && "datedepublish" in DeclaredFields;
  }
}

/**
  `TemplateFieldsType`: the field handler for a record's template fields,
  stored as a JSON array. Hydrating decodes the column and, when the result
  is truthy, builds a sub-entity whose content type carries the field
  mappings configured for the record's template. Persisting binds the
  encoded sub-entity, or the mapping's default when there is nothing to
  serialise. The JSON codec, the template chooser, the entity builder,
  the metadata mapper and the nested persister are parameters.
 */
module TemplateFields {
  import opened Common
  import opened Entities
  import opened ContentEntity

  const TypeName: string := "templatefields"
  const StorageTypeName: string := "json_array"

  /** The handler: its field mapping and the template chooser (`TemplateChooser::record`). */
  datatype TemplateFieldsType = TemplateFieldsType(mapping: FieldMapping, chooser: Content -> string)

  /**
    What the handler borrows from the entity manager and Doctrine:
    `loadMetadataForFields`, `createFromDatabaseValues`, the `json_array`
    type's two conversions, `Persister::persist` for the sub-entity, and
    the entity's `serialize<Fieldname>` method. The nested persister works
    on the same query set: it returns the value it persisted together with
    the first query as it leaves it.
   */
  datatype Services = Services(
    loadMetadataForFields: Value -> seq<FieldMapping>,
    createFromDatabaseValues: (string, Value, ClassMetadata) -> Content,
    decode: Value -> Value,
    encode: Value -> Value,
    persistNested: (ClassMetadata, Content, QueryBuilder) -> (Value, QueryBuilder),
    serialize: (Content, string) -> Value
  )

  /** The insert values, update sets and bound parameters of the first query of a query set. */
  datatype QueryBuilder = QueryBuilder(
    values: map<string, string>,
    sets: map<string, string>,
    params: map<string, Value>
  )

  /** `getName`. */
  function GetName(): string {
    TypeName
  }

  /** `getStorageType`: the name of the Doctrine type the column is stored as. */
  function GetStorageType(): string {
    StorageTypeName
  }

  /** The handler is registered as `templatefields` and stores a `json_array`. */
  lemma HandlerNames()
    ensures GetName() == "templatefields" && GetStorageType() == "json_array"
  {
  }

  /** `isset($mapping['config'][$template])`: configured and not `null`. */
  predicate TemplateConfigured(t: TemplateFieldsType, template: string) {
    template in t.mapping.config && t.mapping.config[template] != VNull
  }

  /**
    `buildMetadata`: metadata for the entity's class whose field mappings
    come from `config[template]['fields']` when the chosen template is
    configured, and are empty otherwise.
   */
  function BuildMetadata(t: TemplateFieldsType, entity: Content, svc: Services): (md: ClassMetadata)
    ensures md.name == entity.className && md.boltName.None?
    ensures TemplateConfigured(t, t.chooser(entity)) ==>
      md.fieldMappings == svc.loadMetadataForFields(Index(t.mapping.config[t.chooser(entity)], "fields"))
    ensures !TemplateConfigured(t, t.chooser(entity)) ==> md.fieldMappings == []
  {
    var template := t.chooser(entity);
    var mappings :=
      if TemplateConfigured(t, template)
      then svc.loadMetadataForFields(Index(t.mapping.config[template], "fields"))
      else [];
    ClassMetadata(entity.className, None, mappings)
  }

  /** `(string)$entity->getContenttype()`: a name as it is, a content-type object as its name, `null` as empty. */
  function ContenttypeString(ct: Option<ContentTypeRef>): string {
    match ct
    case None => ""
    case Some(CTName(n)) => n
    case Some(CTDef(n, _)) => n
  }

  /** The content type every template-fields sub-entity gets: `templatefields`, with the template's field mappings. */
  function SubContenttype(md: ClassMetadata): ContentTypeRef {
    CTDef(TypeName, md.fieldMappings)
  }

  /**
    `set`: the property named by the mapping's `fieldname` becomes a
    sub-entity built from `value`, whose content type is `templatefields`
    with the template's field mappings. Nothing else changes.
   */
  function Set(t: TemplateFieldsType, entity: Content, value: Value, svc: Services): (r: Content)
    ensures r.className == entity.className && r.contenttype == entity.contenttype && r.legacy == entity.legacy
    ensures t.mapping.fieldname in r.fields && r.fields[t.mapping.fieldname].VEntity?
    ensures r.fields[t.mapping.fieldname].e.contenttype == Some(SubContenttype(BuildMetadata(t, entity, svc)))
    ensures forall k :: k in entity.fields && k != t.mapping.fieldname ==> k in r.fields && r.fields[k] == entity.fields[k]
    ensures r.fields.Keys == entity.fields.Keys + {t.mapping.fieldname}
  {
    var md := BuildMetadata(t, entity, svc);
    var built := svc.createFromDatabaseValues(ContenttypeString(entity.contenttype), value, md);
    var sub := SetContenttype(built, Some(SubContenttype(md)));
    entity.(fields := entity.fields[t.mapping.fieldname := VEntity(sub)])
  }

  /** `hydrate`: decode the column; only a truthy result is set on the entity. */
  function Hydrate(t: TemplateFieldsType, data: Value, entity: Content, svc: Services): (r: Content)
    ensures !Truthy(svc.decode(Index(data, t.mapping.fieldname))) ==> r == entity
    ensures Truthy(svc.decode(Index(data, t.mapping.fieldname))) ==>
      Field(r, t.mapping.fieldname).VEntity?
      && Field(r, t.mapping.fieldname).e.contenttype == Some(SubContenttype(BuildMetadata(t, entity, svc)))
    ensures forall k :: k in entity.fields && k != t.mapping.fieldname ==> k in r.fields && r.fields[k] == entity.fields[k]
  {
    var value := svc.decode(Index(data, t.mapping.fieldname));
    if Truthy(value) then Set(t, entity, value, svc) else entity
  }

  /**
    Called the way the hydrator calls every handler, with `null` data, the
    handler leaves the entity alone whenever the codec decodes `null` to a
    falsy value (`json_array` decodes it to an empty array).
   */
  lemma HydrateWithoutDataIsNoop(t: TemplateFieldsType, entity: Content, svc: Services)
    requires !Truthy(svc.decode(VNull))
    ensures Hydrate(t, VNull, entity, svc) == entity
  {
  }

  /** A record whose template is not configured gets a sub-entity without field mappings. */
  lemma UnconfiguredTemplateHasNoFields(t: TemplateFieldsType, data: Value, entity: Content, svc: Services)
    requires Truthy(svc.decode(Index(data, t.mapping.fieldname)))
    requires !TemplateConfigured(t, t.chooser(entity))
    ensures Field(Hydrate(t, data, entity, svc), t.mapping.fieldname).e.contenttype == Some(CTDef(TypeName, []))
  {
  }

  /** The placeholder bound for a field: a colon and the field name. */
  function Placeholder(key: string): string {
    ":" + key
  }

  /** The first query once the nested persister has run, or untouched when the field serialises as `null`. */
  function BeforeBinding(t: TemplateFieldsType, qb: QueryBuilder, entity: Content, svc: Services): QueryBuilder {
    if svc.serialize(entity, t.mapping.fieldname) != VNull
    then svc.persistNested(BuildMetadata(t, entity, svc), entity, qb).1
    else qb
  }

  /**
    `persist`: the field is inserted and updated through the placeholder
    `:fieldname`, and one parameter of that name is bound: the mapping's
    default when the entity serialises the field as `null`, otherwise the
    encoded result of persisting the sub-entity. Whatever the nested
    persister did to the first query is kept, except for that one binding.
   */
  function Persist(t: TemplateFieldsType, qb: QueryBuilder, entity: Content, svc: Services): (r: QueryBuilder)
    ensures var before := BeforeBinding(t, qb, entity, svc);
      && r.values == before.values[t.mapping.fieldname := Placeholder(t.mapping.fieldname)]
      && r.sets == before.sets[t.mapping.fieldname := Placeholder(t.mapping.fieldname)]
      && r.params.Keys == before.params.Keys + {t.mapping.fieldname}
      && forall k :: k in before.params && k != t.mapping.fieldname ==> r.params[k] == before.params[k]
    ensures svc.serialize(entity, t.mapping.fieldname) == VNull ==>
      BeforeBinding(t, qb, entity, svc) == qb && r.params[t.mapping.fieldname] == t.mapping.default
    ensures svc.serialize(entity, t.mapping.fieldname) != VNull ==>
      r.params[t.mapping.fieldname] == svc.encode(svc.persistNested(BuildMetadata(t, entity, svc), entity, qb).0)
  {
    var key := t.mapping.fieldname;
    if svc.serialize(entity, key) != VNull then
      var (newValue, nested) := svc.persistNested(BuildMetadata(t, entity, svc), entity, qb);
      QueryBuilder(nested.values[key := Placeholder(key)], nested.sets[key := Placeholder(key)],
                   nested.params[key := svc.encode(newValue)])
    else
      QueryBuilder(qb.values[key := Placeholder(key)], qb.sets[key := Placeholder(key)], qb.params[key := t.mapping.default])
  }
}

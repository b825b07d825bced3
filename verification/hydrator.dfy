/**
  `Hydrator`: checks the metadata's entity class when it is built,
  creates empty entities stamped with their Bolt content type, and lets
  one field handler per field mapping transform an entity. Whether a class
  exists, and what a handler's `hydrate` does to the entity, are
  parameters.
 */
module Hydrator {
  import opened Common
  import opened Entities
  import opened ContentEntity

  /**
    The field handler `hydrate` obtains for a mapping: from the field
    factory (`$fieldFactory->get($fieldtype, $mapping)`) when the hydrator
    has one, otherwise constructed directly (`new $fieldtype($mapping)`).
   */
  datatype FieldHandler =
    | FromFactory(fieldtype: string, mapping: FieldMapping)
    | Constructed(fieldtype: string, mapping: FieldMapping)
  {
    function Mapping(): FieldMapping {
      match this
      case FromFactory(_, m) => m
      case Constructed(_, m) => m
    }
  }

  /** A hydrator: the entity class it instantiates, the metadata it was built from, and whether it has a field factory. */
  datatype Hydrator = Hydrator(handler: string, metadata: ClassMetadata, hasFactory: bool)

  /** The exception message for a metadata class that does not exist (error code 1). */
  function InvalidClassMessage(cls: string): string {
    "Value supplied " + cls + " is not a valid class name"
  }

  /** The constructor: an invalid-argument error unless the metadata's class exists. */
  function NewHydrator(metadata: ClassMetadata, hasFactory: bool, classExists: string -> bool): (r: Result<Hydrator, string>)
    ensures r.Success? <==> classExists(metadata.name)
    ensures r.Failure? ==> r.error == InvalidClassMessage(metadata.name)
    ensures r.Success? ==>
      r.value.handler == metadata.name && r.value.metadata == metadata && r.value.hasFactory == hasFactory
  {
    if !classExists(metadata.name) then Failure(InvalidClassMessage(metadata.name))
    else Success(Hydrator(metadata.name, metadata, hasFactory))
  }

  /** `create`: a fresh entity of the handler class whose content type is the metadata's Bolt name; the source is not read. */
  function Create(h: Hydrator, source: Value): (e: Content)
    ensures e.className == h.handler && e.legacy.None?
    ensures h.metadata.boltName.None? ==> e.contenttype.None?
    ensures h.metadata.boltName.Some? ==> e.contenttype == Some(CTName(h.metadata.boltName.value))
    ensures forall f :: f in DeclaredFields ==> Field(e, f) == VNull
  {
    var ct := match h.metadata.boltName
      case None => None
      case Some(n) => Some(CTName(n));
    SetContenttype(NewContent(h.handler), ct)
  }

  /** Whatever the source, `create` returns the same entity. */
  lemma CreateIgnoresSource(h: Hydrator, a: Value, b: Value)
    ensures Create(h, a) == Create(h, b)
  {
  }

  /** The handler `hydrate` uses for one mapping. */
  function HandlerFor(h: Hydrator, m: FieldMapping): (f: FieldHandler)
    ensures f.Mapping() == m && f.fieldtype == m.fieldtype
    ensures f.FromFactory? <==> h.hasFactory
  {
    if h.hasFactory then FromFactory(m.fieldtype, m) else Constructed(m.fieldtype, m)
  }

  /**
    The entity after the handlers in `hs` have each hydrated it, in order.
    Every handler is handed `null` as its data: `hydrate` passes an
    undefined `$source`.
   */
  function RunHandlers(hs: seq<FieldHandler>, entity: Content,
                       hydrateField: (FieldHandler, Value, Content) -> Content): Content
  {
    if |hs| == 0 then entity
    else hydrateField(hs[|hs| - 1], VNull, RunHandlers(hs[..|hs| - 1], entity, hydrateField))
  }

  /**
    `hydrate`: one handler per field mapping, in mapping order, each
    transforming the entity it was given; the result is that entity.
    `calls` records the handlers in the order they were invoked.
   */
  method Hydrate(h: Hydrator, entity: Content, hydrateField: (FieldHandler, Value, Content) -> Content)
    returns (r: Content, calls: seq<FieldHandler>)
    ensures |calls| == |h.metadata.fieldMappings|
    ensures forall k :: 0 <= k < |calls| ==> calls[k] == HandlerFor(h, h.metadata.fieldMappings[k])
    ensures r == RunHandlers(calls, entity, hydrateField)
    ensures |h.metadata.fieldMappings| == 0 ==> r == entity
  {
    var mappings := h.metadata.fieldMappings;
    r := entity;
    calls := [];
    var k := 0;
    while k < |mappings|
      invariant 0 <= k <= |mappings|
      invariant |calls| == k
      invariant forall j :: 0 <= j < k ==> calls[j] == HandlerFor(h, mappings[j])
      invariant r == RunHandlers(calls, entity, hydrateField)
    {
      var field := HandlerFor(h, mappings[k]);
      r := hydrateField(field, VNull, r);
      assert (calls + [field])[..k] == calls;
      calls := calls + [field];
      k := k + 1;
    }
  }
}

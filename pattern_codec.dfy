/**
 * The pattern codec of PatternStoreScreen's companion object:
 * entitiesToJson turns a selection into a document, jsonToEntities turns a
 * document back into entities, filling the remix's texture cache on the way.
 */
module PatternCodec {
  import opened Wrappers
  import opened Json
  import opened Platform
  import opened Entities
  import opened Normalization

  // ---------------------------------------------------------------------------
  // entitiesToJson, as a function of the selection's values
  // ---------------------------------------------------------------------------

  /** d is a TextureEntity whose (non-null) texture hash is h. */
  predicate RefersTo(d: EntityData, h: string)
  {
    d.isTexture && d.textureHash == Some(h)
  }

  /** d's node carries its texture: the hash is set, not yet stored in this document, and cached. */
  predicate EmbedsTexture(d: EntityData, cache: map<string, Texture>, stored: set<string>)
  {
    d.isTexture && d.textureHash.Some? && d.textureHash.value !in stored && d.textureHash.value in cache
  }

  /** The node after the texture fields are put, when d embeds its texture. */
  function WithTexture(node: Node, d: EntityData, cache: map<string, Texture>, libs: Libs, stored: set<string>): Node
  {
    if EmbedsTexture(d, cache, stored) then
      var h := d.textureHash.value;
      node[TextureHashKey := JText(h)][TextureDataKey := JText(libs.encodeTexture(cache[h]))]
    else node
  }

  /** The node written for one entity: its type, maybe its texture, then what saveData adds. */
  function EncodeNode(d: EntityData, cache: map<string, Texture>, libs: Libs, stored: set<string>): Node
  {
    SaveFields(WithTexture(map[TypeKey := JText(d.jsonType)], d, cache, libs, stored), d)
  }

  /** texturesStored after d's node is written. */
  function StoredAfter(d: EntityData, cache: map<string, Texture>, stored: set<string>): set<string>
  {
    if EmbedsTexture(d, cache, stored) then stored + {d.textureHash.value} else stored
  }

  /** texturesStored after the nodes of all of ds are written. */
  function StoredThrough(ds: seq<EntityData>, cache: map<string, Texture>, stored: set<string>): set<string>
  {
    if ds == [] then stored else StoredThrough(ds[1..], cache, StoredAfter(ds[0], cache, stored))
  }

  /** The nodes for ds, written in order starting from the given texturesStored. */
  function EncodeFrom(ds: seq<EntityData>, cache: map<string, Texture>, libs: Libs, stored: set<string>): (doc: Document)
    ensures |doc| == |ds|
  {
    if ds == [] then []
    else [EncodeNode(ds[0], cache, libs, stored)] + EncodeFrom(ds[1..], cache, libs, StoredAfter(ds[0], cache, stored))
  }

  /** The document for ds is the first entity's node followed by the rest's. */
  lemma EncodeFromCons(ds: seq<EntityData>, cache: map<string, Texture>, libs: Libs, stored: set<string>)
    requires ds != []
    ensures EncodeFrom(ds, cache, libs, stored)
         == [EncodeNode(ds[0], cache, libs, stored)] + EncodeFrom(ds[1..], cache, libs, StoredAfter(ds[0], cache, stored))
  {
  }

  /** The document entitiesToJson returns for a selection with values ds. */
  function Serialize(ds: seq<EntityData>, cache: map<string, Texture>, libs: Libs): (doc: Document)
    ensures |doc| == |ds|
  {
    EncodeFrom(Normalize(ds), cache, libs, {})
  }

  /** d is the first TextureEntity of ds that refers to its hash. */
  predicate FirstReference(ds: seq<EntityData>, i: int)
    requires 0 <= i < |ds|
  {
    && ds[i].isTexture && ds[i].textureHash.Some?
    && forall j :: 0 <= j < i ==> !RefersTo(ds[j], ds[i].textureHash.value)
  }

  // ---------------------------------------------------------------------------
  // entitiesToJson
  // ---------------------------------------------------------------------------

  /**
   * Shifts every entity to the selection's origin, writes one node per
   * entity (embedding each cached texture once), and restores the bounds
   * from the copies taken first.
   */
  method EntitiesToJson(remix: Remix, entities: seq<Entity>, libs: Libs) returns (doc: Document)
    requires Distinct(entities)
    modifies set e | e in entities
    ensures forall e :: e in entities ==> e.Data() == old(e.Data())
    ensures doc == Serialize(old(Snapshot(entities)), remix.textureCache, libs)
  {
    ghost var ds := Snapshot(entities);
    var oldBounds := map e | e in entities :: e.bounds;
    var baseX := BaseX(Snapshot(entities));
    var baseY := BaseY(Snapshot(entities));
    ShiftAll(entities, baseX, baseY);
    assert Snapshot(entities) == Normalize(ds);
    doc := WriteNodes(remix, entities, libs);
    RestoreAll(entities, oldBounds);
  }

  /** The first loop: every entity's bounds move by (-baseX, -baseY). */
  method ShiftAll(entities: seq<Entity>, baseX: real, baseY: int)
    requires Distinct(entities)
    modifies set e | e in entities
    ensures forall j :: 0 <= j < |entities| ==>
      entities[j].Data() == old(entities[j].Data()).(bounds := ShiftBounds(old(entities[j].bounds), baseX, baseY))
  {
    var i := 0;
    while i < |entities|
      invariant 0 <= i <= |entities|
      invariant forall j :: 0 <= j < i ==>
        entities[j].Data() == old(entities[j].Data()).(bounds := ShiftBounds(old(entities[j].bounds), baseX, baseY))
      invariant forall j :: i <= j < |entities| ==> entities[j].Data() == old(entities[j].Data())
    {
      var e := entities[i];
      e.bounds := e.bounds.(x := e.bounds.x - baseX, y := e.bounds.y - baseY as real);
      i := i + 1;
    }
  }

  /** The second loop: one node per entity, each cached texture embedded at its first reference. */
  method WriteNodes(remix: Remix, entities: seq<Entity>, libs: Libs) returns (doc: Document)
    ensures doc == EncodeFrom(Snapshot(entities), remix.textureCache, libs, {})
  {
    ghost var ds := Snapshot(entities);
    var texturesStored: set<string> := {};
    doc := [];
    var i := 0;
    while i < |entities|
      invariant 0 <= i <= |entities|
      invariant doc + EncodeFrom(ds[i..], remix.textureCache, libs, texturesStored)
             == EncodeFrom(ds, remix.textureCache, libs, {})
    {
      var entity := entities[i];
      ghost var d := entity.Data();
      ghost var before := texturesStored;
      assert ds[i..][0] == d && ds[i..][1..] == ds[i + 1..];
      var node: Node := map[TypeKey := JText(entity.jsonType)];
      if entity.isTexture {
        var hash := entity.textureHash;
        if hash.Some? && hash.value !in texturesStored {
          if hash.value in remix.textureCache {
            var texture := remix.textureCache[hash.value];
            node := node[TextureHashKey := JText(hash.value)][TextureDataKey := JText(libs.encodeTexture(texture))];
            texturesStored := texturesStored + {hash.value};
          }
        }
      }
      assert node == WithTexture(map[TypeKey := JText(d.jsonType)], d, remix.textureCache, libs, before);
      assert texturesStored == StoredAfter(d, remix.textureCache, before);
      node := entity.SaveData(node);
      assert node == EncodeNode(d, remix.textureCache, libs, before);
      EncodeFromCons(ds[i..], remix.textureCache, libs, before);
      assert doc + [node] + EncodeFrom(ds[i + 1..], remix.textureCache, libs, texturesStored)
          == doc + EncodeFrom(ds[i..], remix.textureCache, libs, before);
      doc := doc + [node];
      i := i + 1;
    }
    assert doc + EncodeFrom(ds[i..], remix.textureCache, libs, texturesStored) == doc + [];
  }

  /** The third loop: every entity gets back the bounds saved for it. */
  method RestoreAll(entities: seq<Entity>, oldBounds: map<Entity, Bounds>)
    requires Distinct(entities)
    requires forall e :: e in entities ==> e in oldBounds
    modifies set e | e in entities
    ensures forall j :: 0 <= j < |entities| ==>
      entities[j].Data() == old(entities[j].Data()).(bounds := oldBounds[entities[j]])
  {
    var i := 0;
    while i < |entities|
      invariant 0 <= i <= |entities|
      invariant forall j :: 0 <= j < i ==>
        entities[j].Data() == old(entities[j].Data()).(bounds := oldBounds[entities[j]])
      invariant forall j :: i <= j < |entities| ==> entities[j].Data() == old(entities[j].Data())
    {
      var e := entities[i];
      e.bounds := oldBounds[e];
      i := i + 1;
    }
  }

  // ---------------------------------------------------------------------------
  // jsonToEntities, as a function of the document
  // ---------------------------------------------------------------------------

  /** A reconstructed entity, or the "missing entity" subtitle put in place of one. */
  datatype Loaded = Decoded(entity: EntityData) | Missing(name: string, bounds: Bounds)

  /** What the map step does with one node: drop it, yield an entity, or throw. */
  datatype NodeResult = Dropped | Placed(loaded: Loaded) | Threw(error: string)

  /** What jsonToEntities returns (or throws), and the texture cache afterwards. */
  datatype Outcome = Outcome(entities: Result<seq<Loaded>, string>, cache: map<string, Texture>)

  /** node["type"]?.asText(null): None when the field is missing or JSON null. */
  function TypeTag(node: Node, libs: Libs): (t: Option<string>)
    ensures t.Some? <==> TypeKey in node && !node[TypeKey].JNull?
    ensures t.Some? ==> t.value == AsText(node[TypeKey], libs)
  {
    if TypeKey in node then AsTextOrNull(node[TypeKey], libs) else None
  }

  /** Remix.createMissingEntitySubtitle at the node's stored geometry, with defaults for missing fields. */
  function Placeholder(node: Node): (l: Loaded)
    ensures l.Missing?
    ensures l.name == (if DatamodelKey in node && node[DatamodelKey].JText? then node[DatamodelKey].text else "null")
    ensures l.bounds.height >= 1.0
    ensures BeatKey !in node ==> l.bounds.x == 0.0
    ensures TrackKey !in node ==> l.bounds.y == 0.0
    ensures WidthKey !in node ==> l.bounds.width == 1.0
    ensures HeightKey !in node ==> l.bounds.height == 1.0
    ensures BeatKey in node ==> l.bounds.x == FloatValue(node[BeatKey])
    ensures TrackKey in node ==> l.bounds.y == FloatValue(node[TrackKey])
    ensures WidthKey in node ==> l.bounds.width == FloatValue(node[WidthKey])
    ensures HeightKey in node ==> l.bounds.height == AtLeastOne(FloatValue(node[HeightKey]))
  {
    Missing(
      match (if DatamodelKey in node then TextValue(node[DatamodelKey]) else None)
      case Some(name) => name
      case None => "null",
      Bounds(
        if BeatKey in node then FloatValue(node[BeatKey]) else 0.0,
        if TrackKey in node then FloatValue(node[TrackKey]) else 0.0,
        if WidthKey in node then FloatValue(node[WidthKey]) else 1.0,
        if HeightKey in node then AtLeastOne(FloatValue(node[HeightKey])) else 1.0))
  }

  /** Float.coerceAtLeast(1f). */
  function AtLeastOne(r: real): (c: real)
    ensures c >= 1.0
    ensures r >= 1.0 ==> c == r
    ensures r < 1.0 ==> c == 1.0
  {
    if r < 1.0 then 1.0 else r
  }

  /**
   * getEntityFromType then readData: no type drops the node, an unknown type
   * gives a placeholder, a known one is read (readData may throw).
   */
  function DecodeEntity(node: Node, registry: map<string, bool>, libs: Libs): (r: NodeResult)
    ensures r.Dropped? <==> TypeTag(node, libs).None?
    ensures TypeTag(node, libs).Some? && TypeTag(node, libs).value !in registry ==> r == Placed(Placeholder(node))
    ensures var t := TypeTag(node, libs);
      t.Some? && t.value in registry ==>
        match ReadData(t.value, registry[t.value], node)
        case Success(d) => r == Placed(Decoded(d))
        case Failure(e) => r == Threw(e)
  {
    match TypeTag(node, libs)
    case None => Dropped
    case Some(tag) =>
      if tag !in registry then Placed(Placeholder(node))
      else
        match ReadData(tag, registry[tag], node)
        case Success(d) => Placed(Decoded(d))
        case Failure(e) => Threw(e)
  }

  /**
   * The texture step for a decoded node: with both texture fields present and
   * the hash not yet cached, the decoded image is inserted; a decoding error
   * is caught and leaves the cache as it was.
   */
  function LoadTexture(node: Node, cache: map<string, Texture>, libs: Libs): (r: map<string, Texture>)
    ensures forall k :: k in cache ==> k in r && r[k] == cache[k]
    ensures r != cache <==>
      && TextureHashKey in node && TextureDataKey in node
      && AsText(node[TextureHashKey], libs) !in cache
      && libs.decodeTexture(AsText(node[TextureDataKey], libs)).Some?
    ensures r != cache ==>
      r == cache[AsText(node[TextureHashKey], libs) := libs.decodeTexture(AsText(node[TextureDataKey], libs)).value]
  {
    if TextureHashKey in node && TextureDataKey in node then
      var texHash := AsText(node[TextureHashKey], libs);
      if texHash !in cache then
        match libs.decodeTexture(AsText(node[TextureDataKey], libs))
        case Some(t) => cache[texHash := t]
        case None => cache
      else cache
    else cache
  }

  /** The map/filterNotNull pipeline over the nodes, after the entities acc already produced. */
  function DecodeFrom(nodes: Document, cache: map<string, Texture>, registry: map<string, bool>, libs: Libs,
                      acc: seq<Loaded>): Outcome
  {
    if nodes == [] then Outcome(Success(acc), cache)
    else
      match DecodeEntity(nodes[0], registry, libs)
      case Dropped => DecodeFrom(nodes[1..], cache, registry, libs, acc)
      case Threw(e) => Outcome(Failure(e), cache)
      case Placed(l) =>
        var cache' := if l.Decoded? then LoadTexture(nodes[0], cache, libs) else cache;
        DecodeFrom(nodes[1..], cache', registry, libs, acc + [l])
  }

  function Deserialize(nodes: Document, cache: map<string, Texture>, registry: map<string, bool>, libs: Libs): Outcome
  {
    DecodeFrom(nodes, cache, registry, libs, [])
  }

  // ---------------------------------------------------------------------------
  // jsonToEntities
  // ---------------------------------------------------------------------------

  /**
   * Reads each node in document order; the registry maps each known type tag
   * to whether it is a TextureEntity. An exception from readData ends the
   * call, keeping the textures cached by earlier nodes.
   */
  method JsonToEntities(remix: Remix, json: Document, registry: map<string, bool>, libs: Libs)
    returns (r: Result<seq<Loaded>, string>)
    modifies remix
    ensures Outcome(r, remix.textureCache) == Deserialize(json, old(remix.textureCache), registry, libs)
  {
    var loaded: seq<Loaded> := [];
    var i := 0;
    while i < |json|
      invariant 0 <= i <= |json|
      invariant DecodeFrom(json[i..], remix.textureCache, registry, libs, loaded)
             == Deserialize(json, old(remix.textureCache), registry, libs)
    {
      var node := json[i];
      assert json[i..][0] == node && json[i..][1..] == json[i + 1..];
      var tag := TypeTag(node, libs);
      if tag.Some? {
        if tag.value in registry {
          var read := ReadData(tag.value, registry[tag.value], node);
          if read.Failure? {
            return Failure(read.error);
          }
          // Load textures if necessary
          if TextureHashKey in node && TextureDataKey in node {
            var texHash := AsText(node[TextureHashKey], libs);
            if texHash !in remix.textureCache {
              var texture := libs.decodeTexture(AsText(node[TextureDataKey], libs));
              if texture.Some? {
                remix.textureCache := remix.textureCache[texHash := texture.value];
              }
            }
          }
          loaded := loaded + [Decoded(read.value)];
        } else {
          loaded := loaded + [Placeholder(node)];
        }
      }
      i := i + 1;
    }
    r := Success(loaded);
  }
}

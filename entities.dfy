/**
 * Entities as the pattern codec sees them: a type tag, a bounds rectangle
 * (x is the beat, y the track lane), for a TextureEntity its texture hash,
 * and the kind-specific fields its saveData writes. Entity.saveData and
 * Entity.readData live in Entity.kt, which is not part of this model; the
 * versions here are stand-ins that write and read the geometry fields, the
 * texture hash and the kind-specific fields, and nothing else.
 */
module Entities {
  import opened Wrappers
  import opened Json
  import opened Platform

  datatype Bounds = Bounds(x: real, y: real, width: real, height: real)

  /** The value of an entity: what the codec reads from the object. */
  datatype EntityData = EntityData(
    jsonType: string,
    isTexture: bool,
    textureHash: Option<string>,
    bounds: Bounds,
    fields: Node)

  const TypeKey := "type"
  const BeatKey := "beat"
  const TrackKey := "track"
  const WidthKey := "width"
  const HeightKey := "height"
  /** ModelEntity.JSON_DATAMODEL: the kind-specific field naming a model entity's datamodel. */
  const DatamodelKey := "datamodel"
  /** Stand-in key under which a TextureEntity saves its hash. */
  const TextureKey := "texture"
  const TextureHashKey := "_textureData_hash"
  const TextureDataKey := "_textureData_data"

  /** Keys the codec or the generic part of saveData writes. */
  const ReservedKeys: set<string> :=
    {TypeKey, BeatKey, TrackKey, WidthKey, HeightKey, TextureKey, TextureHashKey, TextureDataKey}

  /** Keys entitiesToJson puts into a node before saveData runs. */
  const PreludeKeys: set<string> := {TypeKey, TextureHashKey, TextureDataKey}

  /** Kind-specific fields never collide with the keys above, and only a TextureEntity has a hash. */
  predicate WellFormed(d: EntityData)
  {
    && d.fields.Keys !! ReservedKeys
    && (!d.isTexture ==> d.textureHash.None?)
  }

  /** The node after saveData has put an entity's geometry, texture hash and kind-specific fields into it. */
  function SaveFields(node: Node, d: EntityData): Node
  {
    var geometry := node[BeatKey := JNumber(d.bounds.x)][TrackKey := JNumber(d.bounds.y)]
                        [WidthKey := JNumber(d.bounds.width)][HeightKey := JNumber(d.bounds.height)];
    var withHash := if d.isTexture && d.textureHash.Some? then geometry[TextureKey := JText(d.textureHash.value)]
                    else geometry;
    withHash + d.fields
  }

  /**
   * readData on a fresh entity of the given type: a missing geometry field is
   * a NullPointerException, a present one is read with floatValue().
   */
  function ReadData(jsonType: string, isTexture: bool, node: Node): Result<EntityData, string>
  {
    if BeatKey in node && TrackKey in node && WidthKey in node && HeightKey in node then
      Success(EntityData(
        jsonType, isTexture,
        if isTexture && TextureKey in node then TextValue(node[TextureKey]) else None,
        Bounds(FloatValue(node[BeatKey]), FloatValue(node[TrackKey]),
               FloatValue(node[WidthKey]), FloatValue(node[HeightKey])),
        node - ReservedKeys))
    else
      Failure("missing geometry field")
  }

  /**
   * readData throws exactly when a geometry field is missing; otherwise the
   * entity has the requested type and kind, and well-formed fields.
   */
  lemma ReadDataOutcome(jsonType: string, isTexture: bool, node: Node)
    ensures var r := ReadData(jsonType, isTexture, node);
      && (r.Success? <==> BeatKey in node && TrackKey in node && WidthKey in node && HeightKey in node)
      && (r.Success? ==> r.value.jsonType == jsonType && r.value.isTexture == isTexture && WellFormed(r.value))
  {
  }

  /** readData recovers what saveData wrote, whatever the codec put into the node first. */
  lemma ReadSavedData(d: EntityData, prelude: Node)
    requires WellFormed(d)
    requires prelude.Keys <= PreludeKeys
    ensures ReadData(d.jsonType, d.isTexture, SaveFields(prelude, d)) == Success(d)
  {
    var node := SaveFields(prelude, d);
    assert node[BeatKey] == JNumber(d.bounds.x);
    assert node[TrackKey] == JNumber(d.bounds.y);
    assert node[WidthKey] == JNumber(d.bounds.width);
    assert node[HeightKey] == JNumber(d.bounds.height);
    assert node - ReservedKeys == d.fields;
  }

  /** The remix whose texture cache the codec reads and fills. */
  class Remix {
    var textureCache: map<string, Texture>

    constructor (cache: map<string, Texture>)
      ensures textureCache == cache
    {
      textureCache := cache;
    }
  }

  /** A placed entity; entitiesToJson changes its bounds in place. */
  class Entity {
    const remix: Remix
    const jsonType: string
    const isTexture: bool
    var textureHash: Option<string>
    var bounds: Bounds
    var fields: Node

    constructor (remix: Remix, d: EntityData)
      ensures this.remix == remix && Data() == d
    {
      this.remix := remix;
      jsonType := d.jsonType;
      isTexture := d.isTexture;
      textureHash := d.textureHash;
      bounds := d.bounds;
      fields := d.fields;
    }

    function Data(): EntityData
      reads this
    {
      EntityData(jsonType, isTexture, textureHash, bounds, fields)
    }

    /** Entity.saveData(node): adds this entity's fields to the node. */
    function SaveData(node: Node): Node
      reads this
    {
      SaveFields(node, Data())
    }
  }

  /** The values of a list of entities, in order. */
  function Snapshot(es: seq<Entity>): (r: seq<EntityData>)
    reads set e | e in es
    ensures |r| == |es|
    ensures forall i :: 0 <= i < |es| ==> r[i] == es[i].Data()
  {
    if es == [] then [] else [es[0].Data()] + Snapshot(es[1..])
  }

  /** No entity appears twice in the list. */
  predicate Distinct(es: seq<Entity>)
  {
    forall i, j :: 0 <= i < j < |es| ==> es[i] != es[j]
  }
}

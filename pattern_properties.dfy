/**
 * What entitiesToJson and jsonToEntities promise: one node per entity in
 * order, normalized geometry, each cached texture embedded exactly once,
 * an insert-if-absent texture cache, placeholders for unknown types, and
 * the round trip from a selection back to its (shifted) entities.
 */
module PatternProperties {
  import opened Wrappers
  import opened Json
  import opened Platform
  import opened Entities
  import opened Normalization
  import opened PatternCodec

  // ---------------------------------------------------------------------------
  // Encoding
  // ---------------------------------------------------------------------------

  /** The fields of one node: its type, its geometry, and texture fields exactly when it embeds. */
  lemma EncodeNodeFields(d: EntityData, cache: map<string, Texture>, libs: Libs, stored: set<string>)
    requires WellFormed(d)
    ensures var node := EncodeNode(d, cache, libs, stored);
      && Get(node, TypeKey) == Some(JText(d.jsonType))
      && Get(node, BeatKey) == Some(JNumber(d.bounds.x)) && Get(node, TrackKey) == Some(JNumber(d.bounds.y))
      && Get(node, WidthKey) == Some(JNumber(d.bounds.width)) && Get(node, HeightKey) == Some(JNumber(d.bounds.height))
      && (TextureHashKey in node <==> EmbedsTexture(d, cache, stored))
      && (TextureDataKey in node <==> EmbedsTexture(d, cache, stored))
      && (EmbedsTexture(d, cache, stored) ==>
            && node[TextureHashKey] == JText(d.textureHash.value)
            && node[TextureDataKey] == JText(libs.encodeTexture(cache[d.textureHash.value])))
  {
  }

  /** The i-th node is written with the texturesStored that the first i entities leave behind. */
  lemma {:induction false} EncodeFromAt(ds: seq<EntityData>, cache: map<string, Texture>, libs: Libs,
                                        stored: set<string>, i: int)
    requires 0 <= i < |ds|
    ensures EncodeFrom(ds, cache, libs, stored)[i] == EncodeNode(ds[i], cache, libs, StoredThrough(ds[..i], cache, stored))
  {
    if i > 0 {
      EncodeFromAt(ds[1..], cache, libs, StoredAfter(ds[0], cache, stored), i - 1);
      assert ds[..i][1..] == ds[1..][..i - 1];
      assert ds[..i][0] == ds[0];
    } else {
      assert ds[..i] == [];
    }
  }

  /** texturesStored holds exactly the cached hashes some entity so far refers to. */
  lemma {:induction false} StoredThroughMembers(ds: seq<EntityData>, cache: map<string, Texture>,
                                                stored: set<string>, h: string)
    ensures h in StoredThrough(ds, cache, stored)
        <==> h in stored || (h in cache && exists j :: 0 <= j < |ds| && RefersTo(ds[j], h))
  {
    if ds != [] {
      StoredThroughMembers(ds[1..], cache, StoredAfter(ds[0], cache, stored), h);
      if exists j :: 0 <= j < |ds| && RefersTo(ds[j], h) {
        var j :| 0 <= j < |ds| && RefersTo(ds[j], h);
        if j > 0 {
          assert RefersTo(ds[1..][j - 1], h);
        }
      }
      if exists j :: 0 <= j < |ds[1..]| && RefersTo(ds[1..][j], h) {
        var j :| 0 <= j < |ds[1..]| && RefersTo(ds[1..][j], h);
        assert RefersTo(ds[j + 1], h);
      }
    }
  }

  /** Node i of the nodes for a shifted selection holds entity i's type and shifted geometry. */
  lemma EncodeShiftedAt(ds: seq<EntityData>, baseX: real, baseY: int, cache: map<string, Texture>, libs: Libs, i: int)
    requires 0 <= i < |ds| && WellFormed(ds[i])
    ensures var node := EncodeFrom(ShiftAllBy(ds, baseX, baseY), cache, libs, {})[i];
      && Get(node, TypeKey) == Some(JText(ds[i].jsonType))
      && Get(node, BeatKey) == Some(JNumber(ds[i].bounds.x - baseX))
      && Get(node, TrackKey) == Some(JNumber(ds[i].bounds.y - baseY as real))
      && Get(node, WidthKey) == Some(JNumber(ds[i].bounds.width))
      && Get(node, HeightKey) == Some(JNumber(ds[i].bounds.height))
  {
    var ns := ShiftAllBy(ds, baseX, baseY);
    var d := ns[i];
    assert d.jsonType == ds[i].jsonType && d.fields == ds[i].fields;
    assert d.isTexture == ds[i].isTexture && d.textureHash == ds[i].textureHash;
    var stored := StoredThrough(ns[..i], cache, {});
    EncodeFromAt(ns, cache, libs, {}, i);
    var node := EncodeFrom(ns, cache, libs, {})[i];
    assert node == EncodeNode(d, cache, libs, stored);
    EncodeNodeFields(d, cache, libs, stored);
    assert d.bounds == Bounds(ds[i].bounds.x - baseX, ds[i].bounds.y - baseY as real,
                              ds[i].bounds.width, ds[i].bounds.height);
  }

  /** Node i is typed with entity i's jsonType and placed at its bounds shifted by (-baseX, -baseY). */
  lemma SerializeNodeAt(ds: seq<EntityData>, cache: map<string, Texture>, libs: Libs, i: int)
    requires forall k :: 0 <= k < |ds| ==> WellFormed(ds[k])
    requires 0 <= i < |ds|
    ensures |Serialize(ds, cache, libs)| == |ds|
    ensures var node := Serialize(ds, cache, libs)[i];
      && Get(node, TypeKey) == Some(JText(ds[i].jsonType))
      && Get(node, BeatKey) == Some(JNumber(ds[i].bounds.x - BaseX(ds)))
      && Get(node, TrackKey) == Some(JNumber(ds[i].bounds.y - BaseY(ds) as real))
      && Get(node, WidthKey) == Some(JNumber(ds[i].bounds.width))
      && Get(node, HeightKey) == Some(JNumber(ds[i].bounds.height))
  {
    EncodeShiftedAt(ds, BaseX(ds), BaseY(ds), cache, libs, i);
  }

  /**
   * The document holds one node per entity, in input order, typed with the
   * entity's jsonType and placed at its bounds shifted by (-baseX, -baseY).
   */
  lemma SerializeNodes(ds: seq<EntityData>, cache: map<string, Texture>, libs: Libs)
    requires forall i :: 0 <= i < |ds| ==> WellFormed(ds[i])
    ensures var doc := Serialize(ds, cache, libs);
      && |doc| == |ds|
      && forall i :: 0 <= i < |ds| ==>
        && Get(doc[i], TypeKey) == Some(JText(ds[i].jsonType))
        && Get(doc[i], BeatKey) == Some(JNumber(ds[i].bounds.x - BaseX(ds)))
        && Get(doc[i], TrackKey) == Some(JNumber(ds[i].bounds.y - BaseY(ds) as real))
        && Get(doc[i], WidthKey) == Some(JNumber(ds[i].bounds.width))
        && Get(doc[i], HeightKey) == Some(JNumber(ds[i].bounds.height))
  {
    forall i | 0 <= i < |ds| {
      SerializeNodeAt(ds, cache, libs, i);
    }
  }

  /**
   * Node i carries texture fields exactly when entity i is the first
   * TextureEntity referring to its hash and that hash is cached; the fields
   * then hold the hash and the encoded cached texture.
   */
  lemma SerializeTexture(ds: seq<EntityData>, cache: map<string, Texture>, libs: Libs, i: int)
    requires forall k :: 0 <= k < |ds| ==> WellFormed(ds[k])
    requires 0 <= i < |ds|
    ensures var node := Serialize(ds, cache, libs)[i];
      && (TextureHashKey in node <==> FirstReference(ds, i) && ds[i].textureHash.value in cache)
      && (TextureDataKey in node <==> TextureHashKey in node)
      && (TextureHashKey in node ==>
            && node[TextureHashKey] == JText(ds[i].textureHash.value)
            && node[TextureDataKey] == JText(libs.encodeTexture(cache[ds[i].textureHash.value])))
  {
    var ns := Normalize(ds);
    var d := ns[i];
    assert d.isTexture == ds[i].isTexture && d.textureHash == ds[i].textureHash && d.fields == ds[i].fields;
    var stored := StoredThrough(ns[..i], cache, {});
    EncodeFromAt(ns, cache, libs, {}, i);
    EncodeNodeFields(d, cache, libs, stored);
    if d.isTexture && d.textureHash.Some? {
      var h := d.textureHash.value;
      StoredThroughMembers(ns[..i], cache, {}, h);
      assert (exists j :: 0 <= j < i && RefersTo(ns[..i][j], h)) <==> (exists j :: 0 <= j < i && RefersTo(ds[j], h)) by {
        forall j | 0 <= j < i ensures ns[..i][j] == ns[j] && (RefersTo(ns[j], h) <==> RefersTo(ds[j], h)) { }
      }
    }
  }

  /** No texture hash is embedded by two nodes of one document. */
  lemma SerializeEmbedsOnce(ds: seq<EntityData>, cache: map<string, Texture>, libs: Libs)
    requires forall k :: 0 <= k < |ds| ==> WellFormed(ds[k])
    ensures var doc := Serialize(ds, cache, libs);
      forall i, j :: 0 <= i < j < |doc| && TextureHashKey in doc[i] && TextureHashKey in doc[j] ==>
        doc[i][TextureHashKey] != doc[j][TextureHashKey]
  {
    var doc := Serialize(ds, cache, libs);
    forall i, j | 0 <= i < j < |doc| && TextureHashKey in doc[i] && TextureHashKey in doc[j]
      ensures doc[i][TextureHashKey] != doc[j][TextureHashKey]
    {
      SerializeNodes(ds, cache, libs);
      SerializeTexture(ds, cache, libs, i);
      SerializeTexture(ds, cache, libs, j);
      assert RefersTo(ds[i], ds[i].textureHash.value);
    }
  }

  /** Among the entities up to i, some first one refers to h. */
  lemma {:induction false} FirstReferenceExists(ds: seq<EntityData>, i: int, h: string) returns (j: int)
    requires 0 <= i < |ds| && RefersTo(ds[i], h)
    ensures 0 <= j <= i && RefersTo(ds[j], h) && FirstReference(ds, j)
  {
    if exists k :: 0 <= k < i && RefersTo(ds[k], h) {
      var k :| 0 <= k < i && RefersTo(ds[k], h);
      j := FirstReferenceExists(ds, k, h);
    } else {
      j := i;
    }
  }

  /** Every cached texture some TextureEntity refers to is embedded at or before that entity's node. */
  lemma SerializeEmbedsEveryCachedTexture(ds: seq<EntityData>, cache: map<string, Texture>, libs: Libs,
                                          i: int, h: string)
    requires forall k :: 0 <= k < |ds| ==> WellFormed(ds[k])
    requires 0 <= i < |ds| && RefersTo(ds[i], h) && h in cache
    ensures var doc := Serialize(ds, cache, libs);
      exists j :: 0 <= j <= i && TextureHashKey in doc[j] && doc[j][TextureHashKey] == JText(h)
  {
    SerializeNodes(ds, cache, libs);
    var j := FirstReferenceExists(ds, i, h);
    SerializeTexture(ds, cache, libs, j);
  }

  // ---------------------------------------------------------------------------
  // Decoding
  // ---------------------------------------------------------------------------

  /** The nodes that carry a type tag, in document order. */
  function Typed(nodes: Document, libs: Libs): (r: Document)
    ensures |r| <= |nodes|
    ensures forall k :: 0 <= k < |r| ==> TypeTag(r[k], libs).Some?
  {
    if nodes == [] then []
    else
      var rest := Typed(nodes[1..], libs);
      if TypeTag(nodes[0], libs).Some? then [nodes[0]] + rest else rest
  }

  /** The call succeeds exactly when no node's readData throws. */
  lemma {:induction false} DecodeFromSucceeds(nodes: Document, cache: map<string, Texture>,
                                              registry: map<string, bool>, libs: Libs, acc: seq<Loaded>)
    ensures DecodeFrom(nodes, cache, registry, libs, acc).entities.Success?
        <==> forall i :: 0 <= i < |nodes| ==> !DecodeEntity(nodes[i], registry, libs).Threw?
  {
    if nodes != [] {
      assert forall i :: 1 <= i < |nodes| ==> nodes[i] == nodes[1..][i - 1];
      match DecodeEntity(nodes[0], registry, libs)
      case Threw(e) =>
      case Dropped =>
        DecodeFromSucceeds(nodes[1..], cache, registry, libs, acc);
      case Placed(l) =>
        var cache' := if l.Decoded? then LoadTexture(nodes[0], cache, libs) else cache;
        DecodeFromSucceeds(nodes[1..], cache', registry, libs, acc + [l]);
    }
  }

  /** On success, the call yields one entity per typed node, in document order, after acc. */
  lemma {:induction false} DecodeFromYields(nodes: Document, cache: map<string, Texture>,
                                            registry: map<string, bool>, libs: Libs, acc: seq<Loaded>)
    ensures var out := DecodeFrom(nodes, cache, registry, libs, acc);
      out.entities.Success? ==>
        var es := out.entities.value;
        var typed := Typed(nodes, libs);
        && |es| == |acc| + |typed|
        && es[..|acc|] == acc
        && forall k :: 0 <= k < |typed| ==> DecodeEntity(typed[k], registry, libs) == Placed(es[|acc| + k])
  {
    if nodes != [] {
      match DecodeEntity(nodes[0], registry, libs)
      case Threw(e) =>
      case Dropped =>
        assert Typed(nodes, libs) == Typed(nodes[1..], libs);
        DecodeFromYields(nodes[1..], cache, registry, libs, acc);
      case Placed(l) =>
        var cache' := if l.Decoded? then LoadTexture(nodes[0], cache, libs) else cache;
        var typed := Typed(nodes, libs);
        assert typed == [nodes[0]] + Typed(nodes[1..], libs);
        DecodeFromYields(nodes[1..], cache', registry, libs, acc + [l]);
        var out := DecodeFrom(nodes[1..], cache', registry, libs, acc + [l]);
        assert DecodeFrom(nodes, cache, registry, libs, acc) == out;
        if out.entities.Success? {
          var es := out.entities.value;
          assert es[..|acc|] == (acc + [l])[..|acc|];
          forall k | 0 <= k < |typed| ensures DecodeEntity(typed[k], registry, libs) == Placed(es[|acc| + k]) {
            if k > 0 {
              assert typed[k] == Typed(nodes[1..], libs)[k - 1];
            }
          }
        }
    }
  }

  /** On failure, the call throws the error of the first node whose readData throws. */
  lemma {:induction false} DecodeFromThrowsFirst(nodes: Document, cache: map<string, Texture>,
                                                 registry: map<string, bool>, libs: Libs, acc: seq<Loaded>)
    ensures var out := DecodeFrom(nodes, cache, registry, libs, acc);
      out.entities.Failure? ==>
        exists i :: 0 <= i < |nodes| && DecodeEntity(nodes[i], registry, libs) == Threw(out.entities.error)
                    && forall j :: 0 <= j < i ==> !DecodeEntity(nodes[j], registry, libs).Threw?
  {
    if nodes != [] {
      match DecodeEntity(nodes[0], registry, libs)
      case Threw(e) =>
      case Dropped =>
        DecodeFromThrowsFirst(nodes[1..], cache, registry, libs, acc);
        ThrowsFirstShift(nodes, DecodeFrom(nodes[1..], cache, registry, libs, acc), registry, libs);
      case Placed(l) =>
        var cache' := if l.Decoded? then LoadTexture(nodes[0], cache, libs) else cache;
        DecodeFromThrowsFirst(nodes[1..], cache', registry, libs, acc + [l]);
        ThrowsFirstShift(nodes, DecodeFrom(nodes[1..], cache', registry, libs, acc + [l]), registry, libs);
    }
  }

  /** A first throwing node of the tail is a first throwing node of the list when the head does not throw. */
  lemma ThrowsFirstShift(nodes: Document, out: Outcome, registry: map<string, bool>, libs: Libs)
    requires nodes != [] && !DecodeEntity(nodes[0], registry, libs).Threw?
    requires out.entities.Failure? ==>
      exists i :: 0 <= i < |nodes[1..]| && DecodeEntity(nodes[1..][i], registry, libs) == Threw(out.entities.error)
                  && forall j :: 0 <= j < i ==> !DecodeEntity(nodes[1..][j], registry, libs).Threw?
    ensures out.entities.Failure? ==>
      exists i :: 0 <= i < |nodes| && DecodeEntity(nodes[i], registry, libs) == Threw(out.entities.error)
                  && forall j :: 0 <= j < i ==> !DecodeEntity(nodes[j], registry, libs).Threw?
  {
    if out.entities.Failure? {
      var i :| 0 <= i < |nodes[1..]| && DecodeEntity(nodes[1..][i], registry, libs) == Threw(out.entities.error)
               && forall j :: 0 <= j < i ==> !DecodeEntity(nodes[1..][j], registry, libs).Threw?;
      assert DecodeEntity(nodes[i + 1], registry, libs) == Threw(out.entities.error);
      forall j | 1 <= j < i + 1 ensures !DecodeEntity(nodes[j], registry, libs).Threw? {
        assert nodes[j] == nodes[1..][j - 1];
      }
    }
  }

  /** jsonToEntities returns normally exactly when no node's readData throws. */
  lemma DeserializeSucceeds(nodes: Document, cache: map<string, Texture>, registry: map<string, bool>, libs: Libs)
    ensures Deserialize(nodes, cache, registry, libs).entities.Success?
        <==> forall i :: 0 <= i < |nodes| ==> !DecodeEntity(nodes[i], registry, libs).Threw?
  {
    DecodeFromSucceeds(nodes, cache, registry, libs, []);
  }

  /** When it returns normally, jsonToEntities yields one entity per node that has a type tag, in document order. */
  lemma DeserializeYields(nodes: Document, cache: map<string, Texture>, registry: map<string, bool>, libs: Libs)
    ensures var out := Deserialize(nodes, cache, registry, libs);
      out.entities.Success? ==>
        var typed := Typed(nodes, libs);
        && |out.entities.value| == |typed|
        && forall k :: 0 <= k < |typed| ==> DecodeEntity(typed[k], registry, libs) == Placed(out.entities.value[k])
  {
    DecodeFromYields(nodes, cache, registry, libs, []);
  }

  /** jsonToEntities never replaces a cached texture, even when it throws. */
  lemma {:induction false} DecodeKeepsCachedTextures(nodes: Document, cache: map<string, Texture>,
                                                     registry: map<string, bool>, libs: Libs, acc: seq<Loaded>)
    ensures var out := DecodeFrom(nodes, cache, registry, libs, acc);
      forall h :: h in cache ==> h in out.cache && out.cache[h] == cache[h]
  {
    if nodes != [] {
      match DecodeEntity(nodes[0], registry, libs)
      case Threw(e) =>
      case Dropped =>
        DecodeKeepsCachedTextures(nodes[1..], cache, registry, libs, acc);
      case Placed(l) =>
        var cache' := if l.Decoded? then LoadTexture(nodes[0], cache, libs) else cache;
        DecodeKeepsCachedTextures(nodes[1..], cache', registry, libs, acc + [l]);
    }
  }

  /**
   * The entities jsonToEntities yields do not depend on the texture cache,
   * so a texture that fails to decode never changes or aborts the list.
   */
  lemma {:induction false} DecodeEntitiesIgnoreCache(nodes: Document, c1: map<string, Texture>, c2: map<string, Texture>,
                                                     registry: map<string, bool>, libs: Libs, acc: seq<Loaded>)
    ensures DecodeFrom(nodes, c1, registry, libs, acc).entities == DecodeFrom(nodes, c2, registry, libs, acc).entities
  {
    if nodes != [] {
      match DecodeEntity(nodes[0], registry, libs)
      case Threw(e) =>
      case Dropped =>
        DecodeEntitiesIgnoreCache(nodes[1..], c1, c2, registry, libs, acc);
      case Placed(l) =>
        var c1' := if l.Decoded? then LoadTexture(nodes[0], c1, libs) else c1;
        var c2' := if l.Decoded? then LoadTexture(nodes[0], c2, libs) else c2;
        DecodeEntitiesIgnoreCache(nodes[1..], c1', c2', registry, libs, acc + [l]);
    }
  }

  /** A node whose type the registry does not know becomes a placeholder at its stored geometry. */
  lemma UnknownTypeKeepsGeometry(node: Node, registry: map<string, bool>, libs: Libs, b: Bounds)
    requires TypeTag(node, libs).Some? && TypeTag(node, libs).value !in registry
    requires BeatKey in node && node[BeatKey] == JNumber(b.x)
    requires TrackKey in node && node[TrackKey] == JNumber(b.y)
    requires WidthKey in node && node[WidthKey] == JNumber(b.width)
    requires HeightKey in node && node[HeightKey] == JNumber(b.height) && b.height >= 1.0
    ensures DecodeEntity(node, registry, libs) == Placed(Missing(Placeholder(node).name, b))
  {
  }

  // ---------------------------------------------------------------------------
  // Round trip
  // ---------------------------------------------------------------------------

  /** The registry knows every entity's type, with the right kind. */
  predicate KnowsAll(registry: map<string, bool>, ds: seq<EntityData>)
  {
    forall i :: 0 <= i < |ds| ==> ds[i].jsonType in registry && registry[ds[i].jsonType] == ds[i].isTexture
  }

  /** Some entity of ds refers to the texture hash h. */
  predicate Referenced(ds: seq<EntityData>, h: string)
  {
    exists j :: 0 <= j < |ds| && RefersTo(ds[j], h)
  }

  /** Decoding the node written for d yields d, and caches d's texture if the node embeds it and it is new. */
  lemma DecodeEncodedNode(d: EntityData, src: map<string, Texture>, libs: Libs, stored: set<string>,
                          dst: map<string, Texture>, registry: map<string, bool>)
    requires WellFormed(d) && d.jsonType in registry && registry[d.jsonType] == d.isTexture
    requires TextureCodecRoundTrips(libs)
    ensures var node := EncodeNode(d, src, libs, stored);
      && DecodeEntity(node, registry, libs) == Placed(Decoded(d))
      && LoadTexture(node, dst, libs)
         == if EmbedsTexture(d, src, stored) && d.textureHash.value !in dst
            then dst[d.textureHash.value := src[d.textureHash.value]] else dst
  {
    EncodeNodeFields(d, src, libs, stored);
    ReadSavedData(d, WithTexture(map[TypeKey := JText(d.jsonType)], d, src, libs, stored));
    if EmbedsTexture(d, src, stored) {
      var h := d.textureHash.value;
      assert libs.decodeTexture(libs.encodeTexture(src[h])) == Some(src[h]);
    }
  }

  /** Each entity of ns, as decoded. */
  function AllDecoded(ns: seq<EntityData>): (r: seq<Loaded>)
    ensures |r| == |ns|
    ensures forall i :: 0 <= i < |ns| ==> r[i] == Decoded(ns[i])
  {
    if ns == [] then [] else [Decoded(ns[0])] + AllDecoded(ns[1..])
  }

  /** One step of the decoder on a node that decodes to a known entity. */
  lemma DecodeStep(nodes: Document, cache: map<string, Texture>, registry: map<string, bool>, libs: Libs,
                   acc: seq<Loaded>, d: EntityData)
    requires nodes != [] && DecodeEntity(nodes[0], registry, libs) == Placed(Decoded(d))
    ensures DecodeFrom(nodes, cache, registry, libs, acc)
         == DecodeFrom(nodes[1..], LoadTexture(nodes[0], cache, libs), registry, libs, acc + [Decoded(d)])
  {
  }

  /** Decoding the nodes written for ns yields ns again, after acc. */
  lemma {:induction false} DecodeEncodeEntities(ns: seq<EntityData>, src: map<string, Texture>, libs: Libs,
                                                stored: set<string>, dst: map<string, Texture>,
                                                registry: map<string, bool>, acc: seq<Loaded>)
    requires forall i :: 0 <= i < |ns| ==> WellFormed(ns[i])
    requires KnowsAll(registry, ns)
    requires TextureCodecRoundTrips(libs)
    ensures DecodeFrom(EncodeFrom(ns, src, libs, stored), dst, registry, libs, acc).entities
         == Success(acc + AllDecoded(ns))
  {
    if ns != [] {
      var d := ns[0];
      var doc := EncodeFrom(ns, src, libs, stored);
      var stored' := StoredAfter(d, src, stored);
      EncodeFromCons(ns, src, libs, stored);
      assert doc[0] == EncodeNode(d, src, libs, stored);
      assert doc[1..] == EncodeFrom(ns[1..], src, libs, StoredAfter(d, src, stored));
      DecodeEncodedNode(d, src, libs, stored, dst, registry);
      DecodeStep(doc, dst, registry, libs, acc, d);
      var dst' := LoadTexture(doc[0], dst, libs);
      assert KnowsAll(registry, ns[1..]) by {
        forall i | 0 <= i < |ns[1..]| ensures ns[1..][i] == ns[i + 1] { }
      }
      DecodeEncodeEntities(ns[1..], src, libs, stored', dst', registry, acc + [Decoded(d)]);
      assert acc + [Decoded(d)] + AllDecoded(ns[1..]) == acc + AllDecoded(ns);
    } else {
      assert EncodeFrom(ns, src, libs, stored) == [];
      assert acc + AllDecoded(ns) == acc;
    }
  }

  /** An entity of ns refers to h exactly when the first does or one of the rest does. */
  lemma ReferencedCons(ns: seq<EntityData>)
    requires ns != []
    ensures forall h :: Referenced(ns, h) <==> RefersTo(ns[0], h) || Referenced(ns[1..], h)
  {
    forall h ensures Referenced(ns, h) <==> RefersTo(ns[0], h) || Referenced(ns[1..], h) {
      if Referenced(ns, h) && !RefersTo(ns[0], h) {
        var j :| 0 <= j < |ns| && RefersTo(ns[j], h);
        assert RefersTo(ns[1..][j - 1], h);
      }
      if Referenced(ns[1..], h) {
        var j :| 0 <= j < |ns[1..]| && RefersTo(ns[1..][j], h);
        assert RefersTo(ns[j + 1], h);
      }
    }
  }

  /**
   * Decoding the nodes written for ns adds to the cache every texture ns
   * refers to that was cached at encoding time and not yet embedded, keeps
   * every texture the destination cache already held, and adds nothing else.
   */
  lemma {:induction false} DecodeEncodeCacheKeys(ns: seq<EntityData>, src: map<string, Texture>, libs: Libs,
                                                 stored: set<string>, dst: map<string, Texture>,
                                                 registry: map<string, bool>, acc: seq<Loaded>)
    requires forall i :: 0 <= i < |ns| ==> WellFormed(ns[i])
    requires KnowsAll(registry, ns)
    requires TextureCodecRoundTrips(libs)
    ensures var out := DecodeFrom(EncodeFrom(ns, src, libs, stored), dst, registry, libs, acc);
      forall h :: h in out.cache <==> h in dst || (h in src && h !in stored && Referenced(ns, h))
  {
    if ns != [] {
      var d := ns[0];
      var doc := EncodeFrom(ns, src, libs, stored);
      EncodeFromCons(ns, src, libs, stored);
      assert doc[0] == EncodeNode(d, src, libs, stored);
      assert doc[1..] == EncodeFrom(ns[1..], src, libs, StoredAfter(d, src, stored));
      DecodeEncodedNode(d, src, libs, stored, dst, registry);
      DecodeStep(doc, dst, registry, libs, acc, d);
      var dst' := LoadTexture(doc[0], dst, libs);
      assert KnowsAll(registry, ns[1..]) by {
        forall i | 0 <= i < |ns[1..]| ensures ns[1..][i] == ns[i + 1] { }
      }
      DecodeEncodeCacheKeys(ns[1..], src, libs, StoredAfter(d, src, stored), dst', registry, acc + [Decoded(d)]);
      ReferencedCons(ns);
      if EmbedsTexture(d, src, stored) {
        assert StoredAfter(d, src, stored) == stored + {d.textureHash.value};
      } else {
        assert StoredAfter(d, src, stored) == stored;
        assert forall h :: RefersTo(d, h) && h in src ==> h in stored;
      }
    }
  }

  /**
   * After decoding the nodes written for ns, every cached texture is the one
   * the destination cache held before, or else the one the source cache held.
   */
  lemma {:induction false} DecodeEncodeCacheValues(ns: seq<EntityData>, src: map<string, Texture>, libs: Libs,
                                                   stored: set<string>, dst: map<string, Texture>,
                                                   registry: map<string, bool>, acc: seq<Loaded>)
    requires forall i :: 0 <= i < |ns| ==> WellFormed(ns[i])
    requires KnowsAll(registry, ns)
    requires TextureCodecRoundTrips(libs)
    ensures var out := DecodeFrom(EncodeFrom(ns, src, libs, stored), dst, registry, libs, acc);
      forall h :: h in out.cache ==> h in dst || h in src
    ensures var out := DecodeFrom(EncodeFrom(ns, src, libs, stored), dst, registry, libs, acc);
      forall h :: h in out.cache ==> out.cache[h] == if h in dst then dst[h] else src[h]
  {
    if ns != [] {
      var d := ns[0];
      var doc := EncodeFrom(ns, src, libs, stored);
      EncodeFromCons(ns, src, libs, stored);
      assert doc[0] == EncodeNode(d, src, libs, stored);
      assert doc[1..] == EncodeFrom(ns[1..], src, libs, StoredAfter(d, src, stored));
      DecodeEncodedNode(d, src, libs, stored, dst, registry);
      DecodeStep(doc, dst, registry, libs, acc, d);
      var dst' := LoadTexture(doc[0], dst, libs);
      assert KnowsAll(registry, ns[1..]) by {
        forall i | 0 <= i < |ns[1..]| ensures ns[1..][i] == ns[i + 1] { }
      }
      DecodeEncodeCacheValues(ns[1..], src, libs, StoredAfter(d, src, stored), dst', registry, acc + [Decoded(d)]);
    }
  }

  /**
   * Normalising moves entities but keeps what they are: their well-formedness,
   * whether the registry knows them, and the textures they refer to.
   */
  lemma NormalizeKeepsKinds(ds: seq<EntityData>, registry: map<string, bool>)
    requires forall i :: 0 <= i < |ds| ==> WellFormed(ds[i])
    requires KnowsAll(registry, ds)
    ensures var ns := Normalize(ds);
      && (forall i :: 0 <= i < |ns| ==> WellFormed(ns[i]))
      && KnowsAll(registry, ns)
      && (forall h :: Referenced(ns, h) <==> Referenced(ds, h))
  {
    var ns := Normalize(ds);
    forall h ensures Referenced(ns, h) <==> Referenced(ds, h) {
      if Referenced(ns, h) {
        var j :| 0 <= j < |ns| && RefersTo(ns[j], h);
        assert RefersTo(ds[j], h);
      }
      if Referenced(ds, h) {
        var j :| 0 <= j < |ds| && RefersTo(ds[j], h);
        assert RefersTo(ns[j], h);
      }
    }
  }

  /**
   * jsonToEntities(entitiesToJson(selection)) yields every entity of the
   * selection, in order, shifted to the selection's origin, and leaves every
   * texture the selection uses from the source cache in the destination
   * cache, without replacing a texture the destination already held.
   */
  lemma RoundTrip(ds: seq<EntityData>, src: map<string, Texture>, dst: map<string, Texture>,
                  registry: map<string, bool>, libs: Libs)
    requires forall i :: 0 <= i < |ds| ==> WellFormed(ds[i])
    requires KnowsAll(registry, ds)
    requires TextureCodecRoundTrips(libs)
    ensures var out := Deserialize(Serialize(ds, src, libs), dst, registry, libs);
      && out.entities.Success?
      && |out.entities.value| == |ds|
      && (forall i :: 0 <= i < |ds| ==> out.entities.value[i] == Decoded(Normalize(ds)[i]))
      && (forall h :: h in out.cache <==> h in dst || (h in src && Referenced(ds, h)))
      && (forall h :: h in out.cache ==> out.cache[h] == if h in dst then dst[h] else src[h])
  {
    var ns := Normalize(ds);
    NormalizeKeepsKinds(ds, registry);
    DecodeEncodeEntities(ns, src, libs, {}, dst, registry, []);
    DecodeEncodeCacheKeys(ns, src, libs, {}, dst, registry, []);
    DecodeEncodeCacheValues(ns, src, libs, {}, dst, registry, []);
  }

}

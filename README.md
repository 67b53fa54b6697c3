# Pattern codec of the RHRE3 pattern store

Rhythm Heaven Remix Editor 3 lets the user save a selection of entities as a
reusable *pattern*. The companion object of `PatternStoreScreen` holds the
codec behind this:

- `entitiesToJson` turns a selection into a JSON array. It first moves the
  selection to the origin. Every entity is shifted by (-baseX, -baseY), where
  baseX is the smallest beat and baseY is the smallest track truncated to an
  Int. It then writes one object per entity, tagged with its `"type"`. Each
  texture is embedded once, in the first node that refers to it, when its hash
  is in the texture cache. Finally it
  restores the original bounds.
- `jsonToEntities` reads such an array back. Nodes without a type are dropped.
  An unknown type becomes a "missing entity" placeholder. Embedded textures
  go into the remix's texture cache when their hash is not already there.

The screen itself adds a little more:

- The name field's gate enables the save button. A taken name only shows a
  warning, because `ALLOW_SAME_NAMES` is true.
- Enter acts as a shortcut for the save button.
- The save button either creates a pattern under a fresh UUID or renames the
  edited one.

The project is organised as follows:

- `wrappers.dfy`: `Option` and `Result`.
- `platform.dfy`: the library operations the code calls but that are not
  modelled, as a record of functions (`Libs`):
  - rendering a number as text;
  - encoding a texture (`Remix.writeTexture` + Base64);
  - decoding one (Base64 + `Texture(Pixmap(...))`, where `None` stands for the
    exception that is caught).
- `json.dfy`: a Jackson object node as a map from field names to values. It
  also gives the exact behaviour of the accessors used:
  - `floatValue()` is 0 for non-numbers;
  - `textValue()` is null for non-text;
  - `asText()` gives `"null"` for JSON null;
  - `asText(null)` gives null for JSON null.
- `entities.dfy`: the parts of `Entity` and `Remix` the codec touches. It
  holds `Entity` as a class with mutable bounds, and `Remix` as a class with
  the mutable `textureCache`. `saveData`/`readData` are given a concrete
  stand-in (see Left out).
- `normalization.dfy`: baseX/baseY and the shifted selection, as functions.
- `pattern_codec.dfy`: `entitiesToJson` and `jsonToEntities` as methods with
  loops over the mutable state, each proved equal to a specification
  function (`Serialize`, `Deserialize`).
- `pattern_properties.dfy`: what the codec promises, as lemmas about those
  functions. The main one is `RoundTrip`: decoding the encoded selection
  yields the normalised selection, and it carries the textures.
- `text.dfy`: Kotlin's `trim()`/`isBlank()`.
- `pattern_store.dfy`: the store, the name gate, Enter and the save button.

All paths below are relative to the repository root;
`PatternStoreScreen.kt` stands for
`core/src/main/kotlin/io/github/chrislo27/rhre3/screen/PatternStoreScreen.kt`
in prose, and the table gives the full path.

## Model

| member | source | states |
|---|---|---|
| PatternCodec.EntitiesToJson | core/src/main/kotlin/io/github/chrislo27/rhre3/screen/PatternStoreScreen.kt:38-82 | The returned document is `Serialize` of the selection as it was on entry: the nodes of the selection shifted to the origin. Every entity's data, bounds included, is afterwards exactly what it was before the call. |
| PatternCodec.ShiftAll | core/src/main/kotlin/io/github/chrislo27/rhre3/screen/PatternStoreScreen.kt:45-50 | Every entity's bounds move by (-baseX, -baseY). Nothing else about any entity changes. |
| PatternCodec.WriteNodes | core/src/main/kotlin/io/github/chrislo27/rhre3/screen/PatternStoreScreen.kt:52-74 | The nodes written, in order, are `EncodeFrom` of the entities with an empty `texturesStored`: the type tag, the texture fields when embedded, then `saveData`. |
| PatternCodec.RestoreAll | core/src/main/kotlin/io/github/chrislo27/rhre3/screen/PatternStoreScreen.kt:76-79 | Every entity's bounds become the rectangle saved for it in `oldBounds`. Nothing else changes. |
| PatternCodec.Serialize | core/src/main/kotlin/io/github/chrislo27/rhre3/screen/PatternStoreScreen.kt:38-82 | The document written for a selection has one node per entity (the properties of its nodes are the lemmas below). |
| PatternCodec.EncodeFrom | core/src/main/kotlin/io/github/chrislo27/rhre3/screen/PatternStoreScreen.kt:52-74 | The nodes written from a given `texturesStored` are one per entity (`EncodeNode` and `WithTexture` are the single-node steps it applies, stated by `EncodeNodeFields`). |
| Normalization.MinOf | core/src/main/kotlin/io/github/chrislo27/rhre3/screen/PatternStoreScreen.kt:42-43 | The result of `minBy` is a lower bound of the values and is one of them. |
| Normalization.BaseX | core/src/main/kotlin/io/github/chrislo27/rhre3/screen/PatternStoreScreen.kt:42 | baseX is 0 for an empty selection. Otherwise it is the beat of some entity and no entity's beat is lower. |
| Normalization.BaseY | core/src/main/kotlin/io/github/chrislo27/rhre3/screen/PatternStoreScreen.kt:43 | baseY is 0 for an empty selection. Otherwise it is the truncated track of an entity whose track is the lowest. |
| Normalization.Truncate | core/src/main/kotlin/io/github/chrislo27/rhre3/screen/PatternStoreScreen.kt:43 | `Float.toInt()` rounds toward zero: the result is the floor for non-negative input and the ceiling for negative input. |
| Normalization.ShiftAllBy | core/src/main/kotlin/io/github/chrislo27/rhre3/screen/PatternStoreScreen.kt:45-50 | Each entity's x drops by baseX and its y by baseY. Width, height, type, kind, texture hash and the other fields are kept, and so are the order and the count. |
| Normalization.NormalizedX | core/src/main/kotlin/io/github/chrislo27/rhre3/screen/PatternStoreScreen.kt:42-47 | In a non-empty selection, every shifted beat is at least 0 and some shifted beat is exactly 0. |
| Normalization.NormalizedWholeY | core/src/main/kotlin/io/github/chrislo27/rhre3/screen/PatternStoreScreen.kt:43-48 | When the lowest track is a whole number, every shifted track is at least 0 and some shifted track is exactly 0. |
| Normalization.NormalizedNonNegativeY | core/src/main/kotlin/io/github/chrislo27/rhre3/screen/PatternStoreScreen.kt:43-48 | When no track is negative, every shifted track is at least 0 and the lowest is below 1 (only its fraction remains). |
| PatternProperties.EncodeNodeFields | core/src/main/kotlin/io/github/chrislo27/rhre3/screen/PatternStoreScreen.kt:55-73 | One node has the entity's type and geometry. It carries the texture hash and data fields exactly when the entity embeds its texture, and they then hold the hash and the encoded cached image. |
| PatternProperties.EncodeFromAt | core/src/main/kotlin/io/github/chrislo27/rhre3/screen/PatternStoreScreen.kt:52-74 | Node i is written with the `texturesStored` that the first i entities leave behind. |
| PatternProperties.StoredThroughMembers | core/src/main/kotlin/io/github/chrislo27/rhre3/screen/PatternStoreScreen.kt:52-68 | After some entities, `texturesStored` holds exactly the cached hashes that one of them refers to, besides what it held before. |
| PatternProperties.EncodeShiftedAt | core/src/main/kotlin/io/github/chrislo27/rhre3/screen/PatternStoreScreen.kt:45-73 | For any origin, node i of the shifted selection has entity i's type, its beat and track minus the origin, and its width and height. |
| PatternProperties.SerializeNodeAt | core/src/main/kotlin/io/github/chrislo27/rhre3/screen/PatternStoreScreen.kt:42-73 | There is one node per entity. Node i has entity i's type and its geometry shifted by (-baseX, -baseY). |
| PatternProperties.SerializeNodes | core/src/main/kotlin/io/github/chrislo27/rhre3/screen/PatternStoreScreen.kt:54-74 | The document has exactly one node per entity, in input order. Each node is typed and placed as its entity is. |
| PatternProperties.SerializeTexture | core/src/main/kotlin/io/github/chrislo27/rhre3/screen/PatternStoreScreen.kt:58-69 | A node has texture fields exactly when its entity is the first TextureEntity with that non-null hash and the hash is cached. The data field is there exactly when the hash field is. They hold the hash and the encoded image. |
| PatternProperties.SerializeEmbedsOnce | core/src/main/kotlin/io/github/chrislo27/rhre3/screen/PatternStoreScreen.kt:52-68 | No two nodes of one document embed the same texture hash. |
| PatternProperties.FirstReferenceExists | core/src/main/kotlin/io/github/chrislo27/rhre3/screen/PatternStoreScreen.kt:58-60 | If an entity refers to a hash, some entity at or before it is the first one that refers to it. |
| PatternProperties.SerializeEmbedsEveryCachedTexture | core/src/main/kotlin/io/github/chrislo27/rhre3/screen/PatternStoreScreen.kt:58-69 | Every cached texture that an entity refers to is embedded at or before that entity's node. |
| PatternCodec.Placeholder | core/src/main/kotlin/io/github/chrislo27/rhre3/screen/PatternStoreScreen.kt:103-105 | The missing-entity placeholder is named by the text of `datamodel`, or "null" when that is missing or not text. Beat, track and width are the `floatValue()` of their fields, or 0, 0 and 1 when missing. Height is the `floatValue()` of its field raised to at least 1, or 1 when missing. |
| PatternCodec.AtLeastOne | core/src/main/kotlin/io/github/chrislo27/rhre3/screen/PatternStoreScreen.kt:105 | `coerceAtLeast(1f)` gives 1 for an input below 1 and the input itself otherwise. |
| PatternCodec.TypeTag | core/src/main/kotlin/io/github/chrislo27/rhre3/screen/PatternStoreScreen.kt:86 | `node["type"]?.asText(null)` is null exactly when the field is missing or JSON null. Otherwise it is the field's `asText()`. |
| PatternCodec.DecodeEntity | core/src/main/kotlin/io/github/chrislo27/rhre3/screen/PatternStoreScreen.kt:86-105 | A node is dropped exactly when it has no type tag. An unknown tag gives the placeholder. A known tag gives the entity `readData` reads, or the exception it throws. |
| PatternProperties.UnknownTypeKeepsGeometry | core/src/main/kotlin/io/github/chrislo27/rhre3/screen/PatternStoreScreen.kt:103-105 | A node of an unknown type becomes a placeholder at its stored geometry. |
| PatternProperties.DecodeFromSucceeds | core/src/main/kotlin/io/github/chrislo27/rhre3/screen/PatternStoreScreen.kt:85-87 | Reading the nodes returns normally exactly when no node's `readData` throws. |
| PatternProperties.DecodeFromYields | core/src/main/kotlin/io/github/chrislo27/rhre3/screen/PatternStoreScreen.kt:85-106 | On a normal return there is one entity per typed node, in document order, and each is what its node decodes to. |
| PatternProperties.DecodeFromThrowsFirst | core/src/main/kotlin/io/github/chrislo27/rhre3/screen/PatternStoreScreen.kt:85-87 | When the call throws, the error is that of the first node whose `readData` throws. |
| PatternProperties.ThrowsFirstShift | core/src/main/kotlin/io/github/chrislo27/rhre3/screen/PatternStoreScreen.kt:85-87 | A node that does not throw does not change which node throws first. |
| PatternProperties.DeserializeSucceeds | core/src/main/kotlin/io/github/chrislo27/rhre3/screen/PatternStoreScreen.kt:84-107 | `jsonToEntities` returns normally exactly when no node's `readData` throws. |
| PatternProperties.DeserializeYields | core/src/main/kotlin/io/github/chrislo27/rhre3/screen/PatternStoreScreen.kt:84-107 | On a normal return, `jsonToEntities` yields one entity per node with a type tag, in document order. |
| PatternCodec.LoadTexture | core/src/main/kotlin/io/github/chrislo27/rhre3/screen/PatternStoreScreen.kt:90-101 | The texture step never drops or replaces an entry. It changes the cache exactly when both fields are present, the hash is not cached and the image decodes. It then inserts just that image under that hash. |
| PatternProperties.DecodeKeepsCachedTextures | core/src/main/kotlin/io/github/chrislo27/rhre3/screen/PatternStoreScreen.kt:90-101 | A texture already in the cache is still there, unchanged, after `jsonToEntities`, even when it throws. |
| PatternProperties.DecodeEntitiesIgnoreCache | core/src/main/kotlin/io/github/chrislo27/rhre3/screen/PatternStoreScreen.kt:95-100 | The entities returned, or the error thrown, do not depend on the texture cache. A failed texture decode therefore neither aborts nor changes the list. |
| PatternCodec.JsonToEntities | core/src/main/kotlin/io/github/chrislo27/rhre3/screen/PatternStoreScreen.kt:84-107 | The result and the remix's new texture cache are `Deserialize` of the document and the old cache. |
| Json.FloatValue | core/src/main/kotlin/io/github/chrislo27/rhre3/screen/PatternStoreScreen.kt:104-105 | `floatValue()` of a number node is the number, and of a text or null node is 0. |
| Json.TextValue | core/src/main/kotlin/io/github/chrislo27/rhre3/screen/PatternStoreScreen.kt:103 | `textValue()` is the text of a text node and null for any other node. |
| Json.AsText | core/src/main/kotlin/io/github/chrislo27/rhre3/screen/PatternStoreScreen.kt:93-96 | `asText()` is the text of a text node, the formatted number of a number node, and "null" for a null node. |
| Json.AsTextOrNull | core/src/main/kotlin/io/github/chrislo27/rhre3/screen/PatternStoreScreen.kt:86 | `asText(null)` is null exactly for a null node, and `asText()` otherwise. |
| Entities.SaveFields | core/src/main/kotlin/io/github/chrislo27/rhre3/screen/PatternStoreScreen.kt:73 | The stand-in `saveData` puts beat, track, width and height, a TextureEntity's hash, and the kind-specific fields (a definition; `ReadSavedData` states its inverse). |
| Entities.ReadData | core/src/main/kotlin/io/github/chrislo27/rhre3/screen/PatternStoreScreen.kt:87 | The stand-in `readData` (a definition; `ReadDataOutcome` and `ReadSavedData` state what it does). |
| Entities.ReadDataOutcome | core/src/main/kotlin/io/github/chrislo27/rhre3/screen/PatternStoreScreen.kt:87 | The stand-in `readData` throws exactly when a geometry field is missing. Otherwise the entity has the requested type and kind and well-formed fields. |
| Entities.ReadSavedData | core/src/main/kotlin/io/github/chrislo27/rhre3/screen/PatternStoreScreen.kt:73 | `readData` recovers exactly what `saveData` wrote, whatever the codec put in the node before. |
| PatternProperties.DecodeEncodedNode | core/src/main/kotlin/io/github/chrislo27/rhre3/screen/PatternStoreScreen.kt:55-101 | Decoding the node written for an entity gives that entity back. The node's texture reaches the cache exactly when it was embedded and not yet cached. |
| PatternProperties.DecodeEncodeEntities | core/src/main/kotlin/io/github/chrislo27/rhre3/screen/PatternStoreScreen.kt:38-107 | Decoding the nodes written for a list of entities returns normally with exactly those entities, in order. |
| PatternProperties.DecodeEncodeCacheKeys | core/src/main/kotlin/io/github/chrislo27/rhre3/screen/PatternStoreScreen.kt:52-101 | After decoding, the cache holds what it held before, plus every texture that the entities refer to, that was cached at encoding time and that was not yet embedded. It holds nothing else. |
| PatternProperties.DecodeEncodeCacheValues | core/src/main/kotlin/io/github/chrislo27/rhre3/screen/PatternStoreScreen.kt:52-101 | After decoding, each cached texture is the one the destination cache held, or else the one the source cache held. |
| PatternProperties.NormalizeKeepsKinds | core/src/main/kotlin/io/github/chrislo27/rhre3/screen/PatternStoreScreen.kt:45-50 | Shifting the selection keeps every entity well formed, known to the registry and referring to the same textures. |
| PatternProperties.RoundTrip | core/src/main/kotlin/io/github/chrislo27/rhre3/screen/PatternStoreScreen.kt:38-107 | `jsonToEntities(entitiesToJson(selection))` returns normally. It yields the selection shifted to the origin, in order. The cache gains every texture that the selection uses and the source cache held, never replacing a texture already there, and gains nothing else. |
| Text.TrimShape | core/src/main/kotlin/io/github/chrislo27/rhre3/screen/PatternStoreScreen.kt:211 | `trim()` keeps one contiguous slice of the text. All it cuts off is whitespace, and the slice neither starts nor ends with whitespace. |
| Text.TrimEmptyIffBlank | core/src/main/kotlin/io/github/chrislo27/rhre3/screen/PatternStoreScreen.kt:196-213 | The trimmed text is empty exactly when the text is blank. |
| Text.Trim | core/src/main/kotlin/io/github/chrislo27/rhre3/screen/PatternStoreScreen.kt:211 | `trim()` is never longer than the text, and a non-empty result neither starts nor ends with whitespace. |
| Text.IsWhitespace | core/src/main/kotlin/io/github/chrislo27/rhre3/screen/PatternStoreScreen.kt:196-211 | `Char.isWhitespace()`: the ASCII controls TAB to CR and FS to US, and every Unicode space, line or paragraph separator, non-breaking ones included (a definition). |
| Text.IsBlank | core/src/main/kotlin/io/github/chrislo27/rhre3/screen/PatternStoreScreen.kt:196 | `isBlank()`: every character is whitespace, so the empty text is blank (a definition). |
| PatternStore.CreatedStoresPattern | core/src/main/kotlin/io/github/chrislo27/rhre3/screen/PatternStoreScreen.kt:160-162 | Creating under a fresh UUID adds exactly one pattern. It has that UUID, the given name and the data. Every other pattern is kept. |
| PatternStore.RenamedKeepsIdentity | core/src/main/kotlin/io/github/chrislo27/rhre3/screen/PatternStoreScreen.kt:164-166 | Renaming keeps the set of UUIDs and the pattern's UUID and data, and changes only its name. Every other pattern is kept. |
| PatternStore.RenameToSameNameIsNoOp | core/src/main/kotlin/io/github/chrislo27/rhre3/screen/PatternStoreScreen.kt:164-166 | Delete-then-add under the pattern's own name leaves the store as it was. |
| PatternStore.NameTaken | core/src/main/kotlin/io/github/chrislo27/rhre3/screen/PatternStoreScreen.kt:212 | Some stored pattern other than the edited one has the trimmed name (a definition). |
| PatternStore.SaveEnabled | core/src/main/kotlin/io/github/chrislo27/rhre3/screen/PatternStoreScreen.kt:213 | The button is enabled when the trimmed name is non-empty and, unless same names are allowed, not taken (a definition; `SaveEnabledIffNamed` states its meaning). |
| PatternStore.SaveEnabledIffNamed | core/src/main/kotlin/io/github/chrislo27/rhre3/screen/PatternStoreScreen.kt:36-213 | The save button is enabled exactly when the trimmed name is non-empty, whether or not the name is taken. |
| PatternStore.EnterAgreesWithButton | core/src/main/kotlin/io/github/chrislo27/rhre3/screen/PatternStoreScreen.kt:195-213 | For any text, Enter's test (not blank) holds exactly when the gate enables the button. `OnEnterPressed` applies it to the screen's own button state. |
| PatternStore.PatternStorage.AddPattern | core/src/main/kotlin/io/github/chrislo27/rhre3/screen/PatternStoreScreen.kt:162 | The pattern is stored under its UUID, and every other entry is kept. |
| PatternStore.PatternStorage.DeletePattern | core/src/main/kotlin/io/github/chrislo27/rhre3/screen/PatternStoreScreen.kt:165 | The entry with the pattern's UUID is removed, and every other entry is kept. |
| PatternStore.PatternStoreScreen.constructor | core/src/main/kotlin/io/github/chrislo27/rhre3/screen/PatternStoreScreen.kt:224-237 | The gate is computed for the empty field. When renaming, the edited pattern's name is then put in the field, which runs the gate again. Afterwards the button state matches the field's text, and it is disabled when creating. |
| PatternStore.PatternStoreScreen.OnTextChange | core/src/main/kotlin/io/github/chrislo27/rhre3/screen/PatternStoreScreen.kt:208-214 | The warning shows whether another pattern has the trimmed name. The button is enabled exactly when the trimmed name is non-empty. |
| PatternStore.PatternStoreScreen.SetText | core/src/main/kotlin/io/github/chrislo27/rhre3/screen/PatternStoreScreen.kt:205-237 | Setting the field's text fires `onTextChange`, so the button state and the warning match the new text. |
| PatternStore.PatternStoreScreen.OnRightClick | core/src/main/kotlin/io/github/chrislo27/rhre3/screen/PatternStoreScreen.kt:203-206 | Right-clicking clears the field, so the button is disabled. |
| PatternStore.PatternStoreScreen.OnLeftClick | core/src/main/kotlin/io/github/chrislo27/rhre3/screen/PatternStoreScreen.kt:157-168 | Without an edited pattern, the store gains the encoded selection under the fresh UUID with the trimmed name. Otherwise the edited pattern is renamed to the trimmed name. The selection's data is unchanged either way. |
| PatternStore.PatternStoreScreen.Create | core/src/main/kotlin/io/github/chrislo27/rhre3/screen/PatternStoreScreen.kt:160-162 | The store gains `Serialize` of the selection under the fresh UUID with the trimmed name, and the selection is left as it was. |
| PatternStore.PatternStoreScreen.Rename | core/src/main/kotlin/io/github/chrislo27/rhre3/screen/PatternStoreScreen.kt:164-166 | The store is the old store with the pattern deleted and re-added under the same UUID and data with the trimmed name. |
| PatternStore.PatternStoreScreen.OnEnterPressed | core/src/main/kotlin/io/github/chrislo27/rhre3/screen/PatternStoreScreen.kt:195-201 | Enter is handled exactly when the text is not blank, and so exactly when the save button was enabled (when the button state matched the text). It then has the save button's effect; otherwise nothing changes. |

## Left out

- Rendering the array to JSON text (`JsonHandler.toJson`) and parsing it
  back (`readTree`) are left out: the document is a sequence of object
  nodes. Array elements that are not objects, and the `as ArrayNode` cast,
  are therefore not represented.
- Numbers are exact reals. Kotlin `Float` rounding is not modelled; the
  bounds are restored by copying the saved rectangle, so restoration is exact
  anyway.
- Normalization.Truncate: `Float.toInt()` also saturates at the `Int` range
  and maps NaN to 0. Tracks are far inside that range, so only the
  truncation toward zero is modelled.
- `Entity.saveData`/`readData` are entity-specific code that is not part of
  this model. They are replaced by a stand-in:
  - it writes and reads beat, track, width, height and, for a TextureEntity,
    its texture hash;
  - it keeps every other field unchanged;
  - readData throws (a `Failure`) when a geometry field is missing.
- Json.JValue: boolean, array and object values are not represented. Jackson's
  `asText()` would give "true"/"false" or "" for them, and kind-specific
  fields holding them are outside the round trip.
- `Entity.getEntityFromType` is a registry from type tag to entity kind
  (texture entity or not). A factory that also consults other fields of the
  node is not modelled.
- A decoded entity is returned as a value (`Loaded`), not as a fresh
  `Entity` object. The placeholder from `Remix.createMissingEntitySubtitle` is
  represented by its name and bounds.
- `asText()` on a number goes through an unmodelled number formatter
  (`Libs.numberText`). Base64, `Remix.writeTexture` and `Texture(Pixmap)` are
  the unmodelled functions in `Libs`. The round-trip lemmas assume that image
  encoding followed by decoding gives the image back.
- PatternCodec.EntitiesToJson: it requires the selection to hold each entity
  at most once. The Kotlin code would shift a repeated entity twice, and
  `associate` would keep only its last saved rectangle.
- PatternCodec.EntitiesToJson: there is no `try/finally` in the code, so the
  bounds are restored only on a normal return. The model's collaborators
  cannot fail during encoding, so the abnormal path, where the selection
  stays shifted, is not represented. Bounds restoration is therefore
  proved for the normal return only, as the code provides it.
- `e.printStackTrace()` on a failed texture decode is logging; the model
  only keeps the cache unchanged.
- `PatternStorage` (its file is not part of this model) is assumed to keep
  patterns in a map keyed by UUID. `addPattern` replaces and `deletePattern`
  removes by UUID. `persist()` is file I/O and is left out, as is
  `MAX_PATTERN_NAME_SIZE` (the text field's character limit).
- PatternStore.PatternStorage: if the store is an insertion-ordered list,
  delete-then-add moves a renamed pattern to the end. The map drops that
  order, so PatternStore.RenameToSameNameIsNoOp holds for the map only.
- PatternStore.NameTaken: Kotlin compares with reference inequality
  (`it !== pattern`). The model compares values, so a different stored
  pattern equal in every field to the edited one is not counted as a
  duplicate.
- The text field (`TextField`) is not part of this model. Its text setter is
  assumed to fire `onTextChange`, as right-click clearing relies on. Typing,
  pasting and the characters-remaining label are left out. So are the title, labels, the delete button,
  `editor.stage.updateSelected()` and navigating back to the editor.
- PatternStore.PatternStoreScreen.constructor: `error("Entities are empty")`
  and the `entities!!` of the create path are stated as preconditions, a
  non-empty selection when no pattern is edited, rather than modelled as
  exceptions. When renaming, the button is not promised to be
  disabled afterwards: putting the name in the field runs the gate again.
- The UUID is a parameter (`freshId`) instead of `UUID.randomUUID()`.
- Text.IsWhitespace: it lists the Unicode space separators of current
  Unicode. U+180E, a space separator only in Unicode versions before 6.3, is
  not included.

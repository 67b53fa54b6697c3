// The pattern store screen's save logic: the name gate recomputed on every
// edit of the name field, the Enter shortcut, and the save button, which
// either stores the selection as a new pattern or renames an existing one.

module PatternStore {
  import opened Wrappers
  import opened Json
  import opened Platform
  import opened Entities
  import opened PatternCodec
  import opened Text

  /** Same-named patterns are allowed: a duplicate name only shows a warning. */
  const AllowSameNames := true

  /** A java.util.UUID, as its 128 bits. */
  datatype Uuid = Uuid(bits: nat)

  /** A stored pattern: its identity, its display name and its encoded entities. */
  datatype StoredPattern = StoredPattern(uuid: Uuid, name: string, data: Document)

  /** The in-memory pattern store, keyed by UUID. */
  class PatternStorage {
    var patterns: map<Uuid, StoredPattern>

    constructor()
      ensures patterns == map[]
    {
      patterns := map[];
    }

    /** Stores p under its UUID, replacing any pattern with the same UUID. */
    method AddPattern(p: StoredPattern)
      modifies this
      ensures patterns == old(patterns)[p.uuid := p]
    {
      patterns := patterns[p.uuid := p];
    }

    /** Removes the pattern with p's UUID, if any. */
    method DeletePattern(p: StoredPattern)
      modifies this
      ensures patterns == old(patterns) - {p.uuid}
    {
      patterns := patterns - {p.uuid};
    }
  }

  /** The store after creating a pattern named name under a new UUID. */
  function Created(patterns: map<Uuid, StoredPattern>, id: Uuid, name: string, data: Document): map<Uuid, StoredPattern>
  {
    patterns[id := StoredPattern(id, name, data)]
  }

  /** The store after deleting p and adding it back with a new name. */
  function Renamed(patterns: map<Uuid, StoredPattern>, p: StoredPattern, name: string): map<Uuid, StoredPattern>
  {
    (patterns - {p.uuid})[p.uuid := StoredPattern(p.uuid, name, p.data)]
  }

  /**
   * Some stored pattern other than the one being edited already has the
   * name trimmed.
   */
  predicate NameTaken(patterns: map<Uuid, StoredPattern>, editing: Option<StoredPattern>, trimmed: string)
  {
    exists u :: u in patterns && (editing.None? || patterns[u] != editing.value) && patterns[u].name == trimmed
  }

  /** Whether the save button is enabled for the typed text. */
  predicate SaveEnabled(text: string, taken: bool)
  {
    Trim(text) != [] && (AllowSameNames || !taken)
  }

  /**
   * Creating adds exactly one pattern, under the new UUID, with the trimmed
   * name and the encoded data, and leaves every other pattern as it was.
   */
  lemma CreatedStoresPattern(patterns: map<Uuid, StoredPattern>, id: Uuid, name: string, data: Document)
    requires id !in patterns
    ensures var r := Created(patterns, id, name, data);
      && r.Keys == patterns.Keys + {id}
      && |r| == |patterns| + 1
      && r[id].uuid == id && r[id].name == name && r[id].data == data
      && forall u :: u in patterns ==> r[u] == patterns[u]
  {
    var r := Created(patterns, id, name, data);
    assert r.Keys == patterns.Keys + {id};
    assert |r.Keys| == |patterns.Keys| + 1;
  }

  /**
   * Renaming keeps the pattern's UUID and data and changes only its name;
   * every other pattern is kept, and no pattern is added.
   */
  lemma RenamedKeepsIdentity(patterns: map<Uuid, StoredPattern>, p: StoredPattern, name: string)
    requires p.uuid in patterns
    ensures var r := Renamed(patterns, p, name);
      && r.Keys == patterns.Keys
      && r[p.uuid].uuid == p.uuid && r[p.uuid].data == p.data && r[p.uuid].name == name
      && forall u :: u in patterns && u != p.uuid ==> r[u] == patterns[u]
  {
    var r := Renamed(patterns, p, name);
    assert r.Keys == patterns.Keys;
  }

  /** Renaming to the name the pattern already has leaves the store as it was. */
  lemma RenameToSameNameIsNoOp(patterns: map<Uuid, StoredPattern>, p: StoredPattern)
    requires p.uuid in patterns && patterns[p.uuid] == p
    ensures Renamed(patterns, p, p.name) == patterns
  {
    var r := Renamed(patterns, p, p.name);
    assert r.Keys == patterns.Keys;
    assert forall u :: u in r ==> r[u] == patterns[u];
  }

  /**
   * The save button is enabled exactly when the trimmed name is non-empty:
   * whether the name is taken never matters.
   */
  lemma SaveEnabledIffNamed(text: string, taken: bool)
    ensures SaveEnabled(text, taken) <==> |Trim(text)| > 0
  {
  }

  /** Enter saves exactly when the save button would be enabled. */
  lemma EnterAgreesWithButton(text: string, taken: bool)
    ensures !IsBlank(text) <==> SaveEnabled(text, taken)
  {
    TrimEmptyIffBlank(text);
  }

  /** The pattern store screen: the name field and the state of the save button. */
  class PatternStoreScreen {
    const storage: PatternStorage
    /** The pattern being renamed, or None when storing a new one. */
    const pattern: Option<StoredPattern>
    /** The selection to store, when creating. */
    const entities: seq<Entity>
    const libs: Libs
    /** The name field's text. */
    var text: string
    /** Whether the save button is enabled. */
    var saveEnabled: bool
    /** Whether the "already exists" warning is visible. */
    var alreadyExists: bool

    /** The save button's state is the name gate applied to the current text. */
    predicate GateCurrent()
      reads this, storage
    {
      && alreadyExists == NameTaken(storage.patterns, pattern, Trim(text))
      && saveEnabled == SaveEnabled(text, alreadyExists)
    }

    /**
     * Runs the gate for the empty field, then, when renaming, puts the edited
     * pattern's name in the field, which runs the gate again.
     */
    constructor(storage: PatternStorage, pattern: Option<StoredPattern>, entities: seq<Entity>, libs: Libs)
      requires pattern.None? ==> |entities| > 0
      ensures this.storage == storage && this.pattern == pattern && this.entities == entities && this.libs == libs
      ensures text == if pattern.Some? then pattern.value.name else ""
      ensures GateCurrent()
      ensures pattern.None? ==> !saveEnabled
    {
      this.storage := storage;
      this.pattern := pattern;
      this.entities := entities;
      this.libs := libs;
      text := "";
      new;
      OnTextChange();
      if pattern.Some? {
        SetText(pattern.value.name);
      }
    }

    /** Setting the field's text fires its change listener, which reruns the gate. */
    method SetText(newText: string)
      modifies this`text, this`saveEnabled, this`alreadyExists
      ensures text == newText
      ensures GateCurrent()
    {
      text := newText;
      OnTextChange();
    }

    /** Right-clicking the field clears it, which disables the save button. */
    method OnRightClick()
      modifies this`text, this`saveEnabled, this`alreadyExists
      ensures text == ""
      ensures GateCurrent() && !saveEnabled
    {
      SetText("");
    }

    /** Recomputes the warning and the save button from the current text. */
    method OnTextChange()
      modifies this`saveEnabled, this`alreadyExists
      ensures GateCurrent()
      ensures saveEnabled <==> Trim(text) != []
    {
      var trimmed := Trim(text);
      var already := NameTaken(storage.patterns, pattern, trimmed);
      saveEnabled := trimmed != [] && (AllowSameNames || !already);
      alreadyExists := already;
    }

    /**
     * The save button: creates a pattern from the selection under freshId,
     * or renames the edited pattern; the name is the trimmed text.
     */
    method OnLeftClick(freshId: Uuid)
      requires pattern.None? ==> |entities| > 0 && Distinct(entities)
      modifies storage, set e | e in entities
      ensures forall e :: e in entities ==> e.Data() == old(e.Data())
      ensures pattern.None? ==>
        storage.patterns == Created(old(storage.patterns), freshId, Trim(text),
                                    Serialize(old(Snapshot(entities)), entities[0].remix.textureCache, libs))
      ensures pattern.Some? ==> storage.patterns == Renamed(old(storage.patterns), pattern.value, Trim(text))
    {
      if pattern.None? {
        Create(freshId);
      } else {
        Rename();
      }
    }

    /** Stores the selection, encoded, as a new pattern under freshId with the trimmed name. */
    method Create(freshId: Uuid)
      requires pattern.None? && |entities| > 0 && Distinct(entities)
      modifies storage, set e | e in entities
      ensures forall e :: e in entities ==> e.Data() == old(e.Data())
      ensures storage.patterns == Created(old(storage.patterns), freshId, Trim(text),
                                          Serialize(old(Snapshot(entities)), entities[0].remix.textureCache, libs))
    {
      var remix := entities[0].remix;
      ghost var selection := Snapshot(entities);
      var data := EntitiesToJson(remix, entities, libs);
      label Encoded:
      assert data == Serialize(selection, remix.textureCache, libs);
      var name := Trim(text);
      ghost var before := storage.patterns;
      storage.AddPattern(StoredPattern(freshId, name, data));
      assert storage.patterns == Created(before, freshId, name, data);
      forall e | e in entities ensures e.Data() == old(e.Data()) {
        assert e.Data() == old@Encoded(e.Data());
      }
    }

    /** Replaces the edited pattern by one with the same UUID and data and the trimmed name. */
    method Rename()
      requires pattern.Some?
      modifies storage
      ensures storage.patterns == Renamed(old(storage.patterns), pattern.value, Trim(text))
    {
      var p := pattern.value;
      storage.DeletePattern(p);
      storage.AddPattern(StoredPattern(p.uuid, Trim(text), p.data));
    }

    /** Enter clicks the save button when the text is not blank, and reports whether it did. */
    method OnEnterPressed(freshId: Uuid) returns (handled: bool)
      requires pattern.None? ==> |entities| > 0 && Distinct(entities)
      modifies storage, set e | e in entities
      ensures handled <==> !IsBlank(text)
      ensures old(GateCurrent()) ==> (handled <==> old(saveEnabled))
      ensures forall e :: e in entities ==> e.Data() == old(e.Data())
      ensures !handled ==> storage.patterns == old(storage.patterns)
      ensures handled && pattern.None? ==>
        storage.patterns == Created(old(storage.patterns), freshId, Trim(text),
                                    Serialize(old(Snapshot(entities)), entities[0].remix.textureCache, libs))
      ensures handled && pattern.Some? ==> storage.patterns == Renamed(old(storage.patterns), pattern.value, Trim(text))
    {
      EnterAgreesWithButton(text, alreadyExists);
      if !IsBlank(text) {
        OnLeftClick(freshId);
        return true;
      }
      return false;
    }
  }
}

/** Projects, the active one, and the cache of its effective settings. */
module Projects {
  import opened Bytes
  import opened Lookup
  import opened Ascii
  import opened Config

  datatype Project = Project(id: string, name: string, temporary: bool, notes: string, overrides: Settings)

  type Table = seq<Project>

  /** Where a project is stored, or how many are. */
  function Place(table: Table, id: string): nat { IndexOf(table, (p: Project) => p.id, id) }

  predicate Stored(table: Table, id: string) { Place(table, id) < |table| }

  function Removed(table: Table, k: nat): Table
    requires k < |table|
  {
    table[..k] + table[k + 1..]
  }

  predicate TableOk(table: Table, fits: Schema) {
    && (forall i, j :: 0 <= i < j < |table| ==> table[i].id != table[j].id)
    && forall i :: 0 <= i < |table| ==> Clean(table[i].overrides, fits)
  }

  /** The active project is a stored one, and the copy kept of it is what is stored. */
  predicate ActiveOk(table: Table, meta: Option<string>, activeId: Option<string>, active: Option<Project>) {
    && activeId.Some? && meta == activeId && Stored(table, activeId.value)
    && active == Some(table[Place(table, activeId.value)])
  }

  /** A cache made from the settings object in use is the merge it stands for. */
  predicate CacheOk(cached: Option<Settings>, base: nat, stamp: nat, system: Settings, active: Option<Project>) {
    && base <= stamp && system.Keys == FieldKeys()
    && (cached.Some? && base == stamp && active.Some? ==> cached.value == Merge(system, active.value.overrides))
  }

  lemma PlaceStep(table: Table, id: string)
    requires table != []
    ensures Place(table, id) == if table[0].id == id then 0 else 1 + Place(table[1..], id)
  {}

  lemma PlaceOf(table: Table, fits: Schema, k: nat)
    requires TableOk(table, fits) && k < |table|
    ensures Place(table, table[k].id) == k
  {
    var j := Place(table, table[k].id);
    assert !(j < k) && !(k < j);
  }

  lemma StoredAt(table: Table, k: nat)
    requires k < |table|
    ensures Stored(table, table[k].id)
  {}

  /** Replacing a stored project by one of the same id leaves every id where it was. */
  lemma {:induction false} PlaceUpdated(table: Table, k: nat, p: Project, id: string)
    requires k < |table| && p.id == table[k].id
    ensures Place(table[k := p], id) == Place(table, id)
  {
    if k > 0 {
      assert table[k := p][1..] == table[1..][k - 1 := p];
      PlaceUpdated(table[1..], k - 1, p, id);
    } else { assert table[0 := p][1..] == table[1..]; }
  }

  lemma {:induction false} PlaceAppended(table: Table, p: Project, id: string)
    requires Stored(table, id)
    ensures Place(table + [p], id) == Place(table, id)
  {
    if table[0].id != id {
      assert (table + [p])[1..] == table[1..] + [p];
      PlaceAppended(table[1..], p, id);
    }
  }

  lemma {:induction false} PlaceRemoved(table: Table, k: nat, id: string)
    requires k < |table| && Stored(table, id) && table[k].id != id
    ensures Stored(Removed(table, k), id)
    ensures Removed(table, k)[Place(Removed(table, k), id)] == table[Place(table, id)]
  {
    hide Place;
    var rest := Removed(table, k);
    PlaceStep(table, id);
    if k == 0 { assert rest == table[1..]; }
    else {
      assert rest[0] == table[0] && rest[1..] == Removed(table[1..], k - 1);
      PlaceStep(rest, id);
      if table[0].id != id { PlaceRemoved(table[1..], k - 1, id); }
    }
  }

  lemma TableUpdated(table: Table, k: nat, p: Project, fits: Schema)
    requires TableOk(table, fits) && k < |table| && p.id == table[k].id && Clean(p.overrides, fits)
    ensures TableOk(table[k := p], fits)
  {
    hide Clean;
  }

  lemma TableAppended(table: Table, p: Project, fits: Schema)
    requires TableOk(table, fits) && !Stored(table, p.id) && Clean(p.overrides, fits)
    ensures TableOk(table + [p], fits)
  {
    hide Clean;
  }

  lemma TableRemoved(table: Table, k: nat, fits: Schema)
    requires TableOk(table, fits) && k < |table|
    ensures TableOk(Removed(table, k), fits)
  {
    hide Clean;
    var rest := Removed(table, k);
    assert forall i :: 0 <= i < |rest| ==> rest[i] == table[if i < k then i else i + 1];
  }

  /** The active project's copy, refreshed when the project stored at `k` has changed. */
  lemma ActiveUpdated(table: Table, fits: Schema, meta: Option<string>, activeId: Option<string>,
                      active: Option<Project>, k: nat, p: Project)
    requires TableOk(table, fits) && ActiveOk(table, meta, activeId, active) && k < |table| && p.id == table[k].id
    ensures ActiveOk(table[k := p], meta, activeId, if activeId == Some(p.id) then Some(p) else active)
  {
    PlaceUpdated(table, k, p, activeId.value);
    PlaceOf(table, fits, k);
    if activeId != Some(p.id) { assert Place(table, activeId.value) != k; }
    hide TableOk;
  }

  /** A project to copy from is named; an empty id names none. */
  predicate Copies(copyFrom: Option<string>) { copyFrom.Some? && copyFrom.value != "" }

  // ----------------------------------------------------------------- the manager

  /** `table` and `meta` are the database's; the rest is the manager's own. */
  class ProjectManager {
    const system: SettingsStore
    const defaults: Settings
    var table: Table
    var meta: Option<string>
    var activeId: Option<string>
    var active: Option<Project>
    var cached: Option<Settings>
    var cachedBase: nat

    /** Whatever is stored is well formed; before `Load` no project is active. */
    ghost predicate Ready()
      reads this, system
    {
      system.Valid() && Complete(defaults, system.fits) && TableOk(table, system.fits)
    }

    ghost predicate Valid()
      reads this, system
    {
      && Ready() && ActiveOk(table, meta, activeId, active)
      && CacheOk(cached, cachedBase, system.stamp, system.settings, active)
    }

    /** The settings the proxy is to see. */
    ghost function Effective(): Settings
      requires Valid()
      reads this, system
    {
      Merge(system.settings, table[Place(table, activeId.value)].overrides)
    }

    constructor (system: SettingsStore, defaults: Settings, table: Table, meta: Option<string>)
      requires system.Valid() && Complete(defaults, system.fits) && TableOk(table, system.fits)
      ensures Ready() && this.system == system && this.table == table && this.meta == meta && activeId == None
    {
      this.system, this.defaults, this.table, this.meta := system, defaults, table, meta;
      activeId, active, cached, cachedBase := None, None, None, 0;
    }

    /** The `settings` property: the merge is made again unless the cache was made from the settings in use. */
    method GetSettings() returns (settings: Settings)
      requires Valid()
      modifies this`cached, this`cachedBase
      ensures Valid() && settings == Effective() && Complete(settings, system.fits)
      ensures forall k :: k in SystemOnlyKeys() ==> k in settings && settings[k] == system.settings[k]
    {
      hide SystemOnlyKeys, FieldKeys, TableOk, Merge;
      assert Clean(active.value.overrides, system.fits) by { ActiveClean(table, system.fits, activeId.value); }
      MergeSound(system.settings, active.value.overrides, system.fits);
      if cached == None || cachedBase != system.stamp {
        var merged := MergeSettings(system.settings, active.value.overrides, system.fits);
        cached, cachedBase := merged, system.stamp;
      }
      settings := cached.value;
    }

    /** `_set_active`, for a project that may have gone; announcing it shows its settings. */
    method SetActive(id: string, announce: bool) returns (ok: bool)
      requires Ready()
      modifies this`meta, this`activeId, this`active, this`cached, this`cachedBase
      ensures ok == Stored(table, id)
      ensures ok ==> Valid() && activeId == Some(id)
      ensures !ok ==> (meta, activeId, active, cached, cachedBase) == old((meta, activeId, active, cached, cachedBase))
    {
      hide TableOk, Complete, FieldKeys;
      var k := Place(table, id);
      ok := k < |table|;
      if ok {
        assert system.settings.Keys == FieldKeys() by { CompleteKeys(system.settings, system.fits); }
        activeId, active, meta, cached, cachedBase := Some(id), Some(table[k]), Some(id), None, 0;
        if announce { var shown := GetSettings(); }
      }
    }

    /** Picks the project that was active last, the oldest if it is gone, and a new temporary one if there is none. */
    method Load(newId: string) returns (ok: bool)
      requires Ready()
      modifies this
      ensures ok && Valid() && |table| > 0
      ensures old(table) != [] ==> table == old(table)
      ensures old(table) == [] ==> |table| == 1 && table[0].temporary && table[0].overrides == map[]
      ensures activeId == if old(meta).Some? && Stored(table, old(meta).value) then old(meta) else Some(table[0].id)
    {
      if table == [] {
        table := [Project(newId, "Temporary project", true, "", map[])];
      }
      hide TableOk, Complete;
      var chosen := table[0].id;
      if meta.Some? && Place(table, meta.value) < |table| { chosen := meta.value; }
      StoredAt(table, 0);
      ok := SetActive(chosen, false);
    }

    /** A new project, with another's overrides copied if one is named, which must then be stored. */
    method Create(name: string, copyFrom: Option<string>, temporary: bool, newId: string) returns (ok: bool)
      requires Valid() && !Stored(table, newId)
      modifies this`table
      ensures ok && (copyFrom == None || copyFrom == Some("")) ==> |table| > 0 && table[|table| - 1].overrides == map[]
      ensures Valid() && ok == (Strip(name) != "" && (Copies(copyFrom) ==> Stored(old(table), copyFrom.value)))
      ensures !ok ==> table == old(table)
      ensures ok ==> table == old(table) + [Project(newId, Strip(name), temporary, "",
        if Copies(copyFrom) then old(table)[Place(old(table), copyFrom.value)].overrides else map[])]
    {
      hide Complete, Strip;
      if Strip(name) == "" { return false; }
      var overrides: Settings := map[];
      if Copies(copyFrom) {
        var k := Place(table, copyFrom.value);
        if k == |table| { return false; }
        overrides := table[k].overrides;
      }
      var created := Project(newId, Strip(name), temporary, "", overrides);
      TableAppended(table, created, system.fits);
      PlaceAppended(table, created, activeId.value);
      hide TableOk;
      table := table + [created];
      ok := true;
    }

    /** One stored project is rewritten; the active project's copy is read back. */
    method Store(k: nat, p: Project)
      requires Valid() && k < |table| && p.id == table[k].id && p.overrides == table[k].overrides
      modifies this`table, this`active
      ensures Valid() && table == old(table)[k := p] && Effective() == old(Effective())
    {
      ActiveUpdated(table, system.fits, meta, activeId, active, k, p);
      TableUpdated(table, k, p, system.fits);
      PlaceUpdated(table, k, p, activeId.value);
      hide TableOk, Complete, Clean, FieldKeys;
      table := table[k := p];
      if activeId == Some(p.id) { active := Some(p); }
    }

    method Keep(id: string) returns (ok: bool)
      requires Valid()
      modifies this`table, this`active
      ensures Valid() && ok == (Stored(old(table), id) && old(table)[Place(old(table), id)].temporary)
      ensures ok ==> var k := Place(old(table), id); table == old(table)[k := old(table)[k].(temporary := false)]
      ensures !ok ==> table == old(table)
      ensures Effective() == old(Effective())
    {
      var k := Place(table, id);
      ok := k < |table| && table[k].temporary;
      if ok { Store(k, table[k].(temporary := false)); }
    }

    method Rename(id: string, name: string) returns (ok: bool)
      requires Valid()
      modifies this`table, this`active
      ensures Valid() && ok == (Strip(name) != "" && Stored(old(table), id))
      ensures ok ==> var k := Place(old(table), id); table == old(table)[k := old(table)[k].(name := Strip(name))]
      ensures !ok ==> table == old(table)
      ensures Effective() == old(Effective())
    {
      var k := Place(table, id);
      ok := Strip(name) != "" && k < |table|;
      if ok { Store(k, table[k].(name := Strip(name))); }
    }

    method SetNotes(id: string, notes: string) returns (ok: bool)
      requires Valid()
      modifies this`table, this`active
      ensures Valid() && ok == Stored(old(table), id)
      ensures ok ==> var k := Place(old(table), id); table == old(table)[k := old(table)[k].(notes := notes)]
      ensures !ok ==> table == old(table)
      ensures Effective() == old(Effective())
    {
      var k := Place(table, id);
      ok := k < |table|;
      if ok { Store(k, table[k].(notes := notes)); }
    }

    method Activate(id: string) returns (ok: bool)
      requires Valid()
      modifies this`meta, this`activeId, this`active, this`cached, this`cachedBase
      ensures Valid() && ok == Stored(table, id)
      ensures activeId == if ok then Some(id) else old(activeId)
    {
      if activeId == Some(id) { return true; }
      ok := SetActive(id, true);
    }

    /** A patch of overrides is merged and checked before it is stored; the active project's settings
        follow it at once. */
    method SetOverrides(id: string, patch: Settings) returns (ok: bool)
      requires Valid()
      modifies this`table, this`active, this`cached, this`cachedBase
      ensures Valid() && (ok ==> Stored(old(table), id))
      ensures Stored(old(table), id) ==>
        var k := Place(old(table), id);
        var checked := ValidOverrides(PatchOverrides(old(table)[k].overrides, patch), system.fits);
        ok == checked.Some? && (ok ==> table == old(table)[k := old(table)[k].(overrides := checked.value)])
      ensures !ok ==> table == old(table) && active == old(active)
    {
      hide TableOk, Complete, Clean, FieldKeys, SystemOnlyKeys, ValidOverrides, PatchOverrides, Merge;
      var k := Place(table, id);
      if k == |table| { return false; }
      var cleaned := ValidateOverrides(PatchOverrides(table[k].overrides, patch), defaults, system.fits);
      if cleaned == None { return false; }
      var p := table[k].(overrides := cleaned.value);
      ActiveUpdated(table, system.fits, meta, activeId, active, k, p);
      TableUpdated(table, k, p, system.fits);
      table := table[k := p];
      ok := true;
      if activeId == Some(id) {
        active, cached, cachedBase := Some(p), None, 0;
        var shown := GetSettings();
      }
    }

    /** The only project cannot be deleted; deleting the active one activates the oldest that remains. */
    method Delete(id: string) returns (ok: bool)
      requires Valid()
      modifies this
      ensures Valid() && ok == (|old(table)| > 1 && Stored(old(table), id))
      ensures ok ==> table == Removed(old(table), Place(old(table), id))
      ensures ok && old(activeId) == Some(id) ==> activeId == Some(table[0].id)
      ensures !ok || old(activeId) != Some(id) ==> activeId == old(activeId)
      ensures !ok ==> table == old(table)
    {
      var k := Place(table, id);
      ok := |table| > 1 && k < |table|;
      if !ok { return; }
      TableRemoved(table, k, system.fits);
      if activeId != Some(id) { PlaceRemoved(table, k, activeId.value); }
      hide TableOk, Complete, FieldKeys;
      var wasActive := activeId == Some(id);
      table := Removed(table, k);
      if wasActive {
        StoredAt(table, 0);
        var done := SetActive(table[0].id, true);
      }
    }

    /** A change to the system tier reaches the effective settings at once, except where overridden. */
    method UpdateSystem(patch: Settings) returns (ok: bool)
      requires Valid()
      modifies this`cached, this`cachedBase, system
      ensures Valid() && ok == Validated(Patched(old(system.settings), patch), system.fits).Some?
      ensures ok ==> system.settings == Patched(old(system.settings), patch)
      ensures !ok ==> system.settings == old(system.settings)
    {
      hide TableOk, FieldKeys, Validated;
      ok := system.Update(patch);
      if !ok { return; }
      assert system.settings.Keys == FieldKeys() by { CompleteKeys(system.settings, system.fits); }
      hide Complete;
      cached, cachedBase := None, 0;
      var shown := GetSettings();
    }
  }

  /** A system patch made behind the manager's back, with no word to it: the next read still sees the
      settings that the patch made, under the active project's overrides. */
  method UpdateUnannounced(manager: ProjectManager, patch: Settings) returns (ok: bool, settings: Settings)
    requires manager.Valid()
    modifies manager.system, manager`cached, manager`cachedBase
    ensures manager.Valid() && ok == Validated(Patched(old(manager.system.settings), patch), manager.system.fits).Some?
    ensures var system := if ok then Patched(old(manager.system.settings), patch) else old(manager.system.settings);
      settings == Merge(system, manager.active.value.overrides)
  {
    hide TableOk, FieldKeys, Validated, Patched, Merge;
    ok := manager.system.Update(patch);
    CompleteKeys(manager.system.settings, manager.system.fits);
    hide Complete;
    settings := manager.GetSettings();
  }

  /** A null clears a key; anything else sets it. */
  function PatchOverrides(overrides: Settings, patch: Settings): Settings {
    map k | k in overrides.Keys + patch.Keys && !(k in patch && patch[k] == Null) ::
      if k in patch then patch[k] else overrides[k]
  }

  /** What a project's overrides are after an accepted patch: what the patch gives, nothing where it has
      a null, and the old overrides for every other key. */
  lemma PatchMeans(overrides: Settings, patch: Settings, fits: Schema, k: string)
    requires Clean(overrides, fits) && ValidOverrides(PatchOverrides(overrides, patch), fits).Some?
    ensures var now := ValidOverrides(PatchOverrides(overrides, patch), fits).value;
      if k in patch then if patch[k] == Null then k !in now else k in now && now[k] == patch[k]
      else (k in now <==> k in overrides) && (k in now ==> now[k] == overrides[k])
  {
    hide OverridableKeys, FieldKeys, SystemOnlyKeys;
  }

  lemma ActiveClean(table: Table, fits: Schema, id: string)
    requires TableOk(table, fits) && Stored(table, id)
    ensures Clean(table[Place(table, id)].overrides, fits)
  {
    hide Clean;
  }

  lemma CompleteKeys(s: Settings, fits: Schema)
    requires Complete(s, fits)
    ensures s.Keys == FieldKeys()
  {}
}

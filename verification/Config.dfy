/** Settings in two tiers: the system's, and a project's overrides of the keys it may override. */
module Config {
  import opened Bytes

  /** A setting's value as it arrives; whether one fits its key is the settings schema's to say. */
  datatype Value = Null | Given(text: string)

  type Settings = map<string, Value>

  type Schema = (string, Value) -> bool

  function SystemOnlyKeys(): set<string> {
    {"proxy_host", "proxy_port", "invisible_tls_enabled", "invisible_tls_port", "listen_http2",
     "vpn_required", "vpn_autoconnect", "vpn_override_dns", "vpn_exit_ip_url", "vpn_auto_check_exit_ip"}
  }

  function FieldKeys(): set<string> {
    SystemOnlyKeys() +
    {"invisible_proxy", "invisible_default_host", "intercept_enabled", "intercept_requests", "intercept_responses",
     "intercept_skip_extensions", "scope_include", "scope_exclude", "header_rules", "upstream_http2",
     "upstream_proxy", "upstream_verify_tls", "connect_timeout", "read_timeout", "tls_passthrough_hosts",
     "logging_enabled", "log_out_of_scope", "max_history", "max_stored_body"}
  }

  function OverridableKeys(): set<string> { FieldKeys() - SystemOnlyKeys() }

  /** Every field has a value that fits it. */
  predicate Complete(s: Settings, fits: Schema) {
    s.Keys == FieldKeys() && forall k :: k in s ==> fits(k, s[k])
  }

  /** Overrides a project may store. */
  predicate Clean(overrides: Settings, fits: Schema) {
    forall k :: k in overrides ==> k in OverridableKeys() && overrides[k] != Null && fits(k, overrides[k])
  }

  /** The effective settings: the system's, with the overridable keys a project overrides. */
  function Merge(system: Settings, overrides: Settings): (r: Settings)
    requires system.Keys == FieldKeys()
    ensures r.Keys == FieldKeys()
    ensures forall k :: k in FieldKeys() ==>
      r[k] == if k in overrides && k in OverridableKeys() then overrides[k] else system[k]
  {
    map k | k in FieldKeys() :: if k in overrides && k in OverridableKeys() then overrides[k] else system[k]
  }

  /** Pydantic's `model_validate` on field values: accepted exactly when each fits. */
  function Validated(data: Settings, fits: Schema): Option<Settings> {
    if forall k :: k in data.Keys ==> fits(k, data[k]) then Some(data) else None
  }

  /** The loop that lays overrides over the system's settings. */
  method MergeSettings(system: Settings, overrides: Settings, fits: Schema) returns (merged: Option<Settings>)
    requires system.Keys == FieldKeys()
    ensures merged == Validated(Merge(system, overrides), fits)
  {
    hide FieldKeys, SystemOnlyKeys;
    var data := system;
    var rest := overrides.Keys;
    while rest != {}
      invariant rest <= overrides.Keys && data.Keys == FieldKeys()
      invariant forall k :: k in FieldKeys() ==>
        data[k] == if k in overrides && k !in rest && k in OverridableKeys() then overrides[k] else system[k]
    {
      var key :| key in rest;
      if key in OverridableKeys() { data := data[key := overrides[key]]; }
      rest := rest - {key};
    }
    assert data == Merge(system, overrides);
    merged := Validated(data, fits);
  }

  /** With complete system settings and clean overrides the merge is always accepted, system-only keys
      are the system's and overridden keys the project's. */
  lemma MergeSound(system: Settings, overrides: Settings, fits: Schema)
    requires Complete(system, fits) && Clean(overrides, fits)
    ensures Validated(Merge(system, overrides), fits) == Some(Merge(system, overrides))
    ensures Complete(Merge(system, overrides), fits)
    ensures forall k :: k in SystemOnlyKeys() ==> k in system && Merge(system, overrides)[k] == system[k]
    ensures forall k :: k in overrides ==> k in FieldKeys() && Merge(system, overrides)[k] == overrides[k]
  {
    assert SystemOnlyKeys() <= FieldKeys();
    hide FieldKeys, SystemOnlyKeys;
  }

  /** How the proxy listens, and whether it must use the VPN, is the system's whatever a project stores. */
  lemma ListeningKept(system: Settings, overrides: Settings, key: string)
    requires system.Keys == FieldKeys()
    requires key in ["proxy_host", "proxy_port", "invisible_tls_enabled", "invisible_tls_port", "listen_http2",
                     "vpn_required", "vpn_autoconnect", "vpn_override_dns", "vpn_exit_ip_url", "vpn_auto_check_exit_ip"]
    ensures key in system && Merge(system, overrides)[key] == system[key]
  {
    assert key in SystemOnlyKeys();
    hide SystemOnlyKeys;
  }

  /** `None` for a rejected patch; nulls are dropped from an accepted one. */
  function ValidOverrides(overrides: Settings, fits: Schema): (r: Option<Settings>)
    ensures r.Some? <==> forall k :: k in overrides.Keys ==>
      k in OverridableKeys() && (overrides[k] == Null || fits(k, overrides[k]))
    ensures r.Some? ==> Clean(r.value, fits) && forall k :: k in r.value <==> k in overrides && overrides[k] != Null
    ensures r.Some? ==> forall k :: k in r.value ==> r.value[k] == overrides[k]
  {
    if forall k :: k in overrides.Keys ==> k in OverridableKeys() && (overrides[k] == Null || fits(k, overrides[k]))
    then Some(map k | k in overrides && overrides[k] != Null :: overrides[k])
    else None
  }

  /** The checks in the source's order: each key in turn, then a merge with the defaults. */
  method ValidateOverrides(overrides: Settings, defaults: Settings, fits: Schema) returns (cleaned: Option<Settings>)
    requires Complete(defaults, fits)
    ensures cleaned == ValidOverrides(overrides, fits)
  {
    hide FieldKeys, SystemOnlyKeys;
    var kept: Settings := map[];
    var rest := overrides.Keys;
    while rest != {}
      invariant rest <= overrides.Keys
      invariant forall k :: k in overrides && k !in rest ==> k in OverridableKeys()
      invariant forall k :: k in kept <==> k in overrides && k !in rest && overrides[k] != Null
      invariant forall k :: k in kept ==> kept[k] == overrides[k]
    {
      var key :| key in rest;
      if key in SystemOnlyKeys() { return None; }
      if key !in OverridableKeys() { return None; }
      if overrides[key] != Null { kept := kept[key := overrides[key]]; }
      rest := rest - {key};
    }
    var merged := MergeSettings(defaults, kept, fits);
    MergeAccepts(defaults, kept, fits);
    if merged == None { return None; }
    assert kept == map k | k in overrides && overrides[k] != Null :: overrides[k];
    cleaned := Some(kept);
  }

  /** Merging overridable keys with complete settings is accepted exactly when each value fits. */
  lemma MergeAccepts(system: Settings, overrides: Settings, fits: Schema)
    requires Complete(system, fits) && overrides.Keys <= OverridableKeys()
    ensures Validated(Merge(system, overrides), fits).Some?
       <==> forall k :: k in overrides.Keys ==> fits(k, overrides[k])
  {
    hide FieldKeys, SystemOnlyKeys;
    var merged := Merge(system, overrides);
    assert forall k :: k in overrides.Keys ==> k in FieldKeys() && merged[k] == overrides[k];
  }

  /** A patch laid over settings; keys that are no field are dropped. */
  function Patched(s: Settings, patch: Settings): (r: Settings)
    requires s.Keys == FieldKeys()
    ensures r.Keys == FieldKeys()
    ensures forall k :: k in FieldKeys() ==> r[k] == if k in patch then patch[k] else s[k]
  {
    map k | k in FieldKeys() :: if k in patch then patch[k] else s[k]
  }

  /** The system tier; each accepted update is a new settings object, told apart by its stamp. */
  class SettingsStore {
    const fits: Schema
    var settings: Settings
    var stamp: nat

    ghost predicate Valid()
      reads this
    {
      Complete(settings, fits)
    }

    constructor (initial: Settings, fits: Schema)
      requires Complete(initial, fits)
      ensures Valid() && settings == initial && this.fits == fits
    {
      this.fits := fits;
      settings, stamp := initial, 0;
    }

    /** A patch that does not validate changes nothing. */
    method Update(patch: Settings) returns (ok: bool)
      requires Valid()
      modifies this
      ensures Valid() && ok == Validated(Patched(old(settings), patch), fits).Some?
      ensures ok ==> settings == Patched(old(settings), patch) && stamp == old(stamp) + 1
      ensures ok ==> forall k :: k in FieldKeys() && k in patch ==> k in settings && settings[k] == patch[k]
      ensures ok ==> forall k :: k in FieldKeys() && k !in patch ==>
        k in settings && k in old(settings) && settings[k] == old(settings)[k]
      ensures !ok ==> settings == old(settings) && stamp == old(stamp)
    {
      hide FieldKeys, SystemOnlyKeys;
      var merged := Validated(Patched(settings, patch), fits);
      ok := merged.Some?;
      if ok {
        settings := merged.value;
        stamp := stamp + 1;
      }
    }
  }
}

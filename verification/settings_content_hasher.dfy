/** `SettingsContentHasher`: turns a target's settings into one digest.

    The digest is the content hash of three sub-digests in a fixed order:
    the base settings, the per-configuration settings, and the default
    settings policy. Every unordered collection (a dictionary, the
    configuration keys, the set of excluded keys) is sorted before it is
    rendered, so the result does not depend on iteration order. Every
    hashing call may throw; a throw ends the computation with that error. */
module SettingsHashing {
  import opened Wrappers
  import opened Strings
  import opened Ordering
  import opened Dictionaries
  import opened ContentHashing
  import opened XcodeGraph

  /** The hasher and the collaborators it relies on: the content hasher it
      is constructed with, the text `"\(value.normalize())"` of a setting
      value, and the `<` of `BuildConfiguration` used by `keys.sorted()`. */
  datatype SettingsContentHasher = SettingsContentHasher(
    contentHasher: ContentHasher,
    normalize: SettingValue -> string,
    configurationLess: (BuildConfiguration, BuildConfiguration) -> bool)

  // ---------------------------------------------------------------------
  // Settings dictionaries

  /** The comparison `{ $0.0 < $1.0 }`: entries ordered by key. */
  predicate KeyLess(a: (string, SettingValue), b: (string, SettingValue)) {
    StringLess(a.0, b.0)
  }

  /** One entry rendered as `key:normalizedValue`. */
  function RenderEntry(h: SettingsContentHasher, e: (string, SettingValue)): string {
    e.0 + ":" + h.normalize(e.1)
  }

  function RenderEntries(h: SettingsContentHasher, es: seq<(string, SettingValue)>): (r: seq<string>)
    ensures |r| == |es|
  {
    seq(|es|, i requires 0 <= i < |es| => RenderEntry(h, es[i]))
  }

  /** The text that is hashed for a settings dictionary: the entries sorted
      by key, rendered, and joined with `-`. */
  function RenderSettings(h: SettingsContentHasher, d: SettingsDictionary): (r: string)
    ensures |d| == 0 ==> r == ""
  {
    Join(RenderEntries(h, Sort(d, KeyLess)), "-")
  }

  /** `hash(_ settingsDictionary:)`: the content hash of the rendered
      text; an empty dictionary hashes the empty string. */
  function HashDictionary(h: SettingsContentHasher, d: SettingsDictionary): (r: HashResult<Digest>)
    ensures |d| == 0 ==> r == h.contentHasher.hashString("")
  {
    h.contentHasher.hashString(RenderSettings(h, d))
  }

  // ---------------------------------------------------------------------
  // Configurations

  /** `hash(_ configuration:)`: the settings hash, followed by the xcconfig
      content hash when the configuration names an xcconfig file. */
  function HashConfiguration(h: SettingsContentHasher, c: Configuration): (r: HashResult<string>)
    ensures r.Success? ==> HashDictionary(h, c.settings).Success?
    ensures r.Success? ==> HashDictionary(h, c.settings).value <= r.value
    ensures c.xcconfig.Nil? ==> r == HashDictionary(h, c.settings)
    ensures c.xcconfig.Some? ==>
      (r.Success? <==> HashDictionary(h, c.settings).Success? && HashPath(h.contentHasher, c.xcconfig.value).Success?)
    ensures c.xcconfig.Some? && r.Success? ==>
      r.value == HashDictionary(h, c.settings).value + HashPath(h.contentHasher, c.xcconfig.value).value
    ensures r.Success? ==> |r.value| > 0
  {
    var settingsHash :- HashDictionary(h, c.settings);
    match c.xcconfig
    case Nil => Success(settingsHash)
    case Some(path) =>
      var xcconfigHash :- HashPath(h.contentHasher, path);
      Success(settingsHash + xcconfigHash)
  }

  /** The seed of a configuration entry: `name + variant.rawValue`. */
  function Seed(k: BuildConfiguration): string {
    k.name + k.variant.RawValue()
  }

  /** The string one configuration key contributes: its seed, extended by
      the configuration's hash when the key maps to a configuration. */
  function ConfigurationEntry(
    h: SettingsContentHasher,
    configurations: seq<(BuildConfiguration, Option<Configuration>)>,
    k: BuildConfiguration): (r: HashResult<string>)
    ensures r.Success? ==> Seed(k) <= r.value
  {
    var seed := Seed(k);
    var lookup := Lookup(configurations, k);
    if lookup.Some? && lookup.value.Some? then
      var configurationHash :- HashConfiguration(h, lookup.value.value);
      Success(seed + configurationHash)
    else
      Success(seed)
  }

  /** A key mapped to `nil` contributes exactly its seed; a key mapped to a
      configuration contributes the seed followed by the configuration's
      hash, strictly longer than the seed, and throws when that hash
      throws. */
  lemma ConfigurationEntryCases(
    h: SettingsContentHasher,
    configurations: seq<(BuildConfiguration, Option<Configuration>)>,
    k: BuildConfiguration)
    ensures
      var lookup, r := Lookup(configurations, k), ConfigurationEntry(h, configurations, k);
      && (lookup.Some? && lookup.value.Nil? ==> r == Success(Seed(k)))
      && (lookup.Some? && lookup.value.Some? ==>
            var c := lookup.value.value;
            && (r.Success? <==> HashConfiguration(h, c).Success?)
            && (r.Failure? ==> r.error == HashConfiguration(h, c).error)
            && (r.Success? ==> r.value == Seed(k) + HashConfiguration(h, c).value && |r.value| > |Seed(k)|))
  {
  }

  /** The entry function of one configurations dictionary. */
  function EntryOf(
    h: SettingsContentHasher,
    configurations: seq<(BuildConfiguration, Option<Configuration>)>): BuildConfiguration -> HashResult<string>
  {
    k => ConfigurationEntry(h, configurations, k)
  }

  /** The entries of the given keys, in the keys' order, as the loop
      appends them; the first key whose entry throws ends the loop with
      that error. */
  function CollectEntries(entry: BuildConfiguration -> HashResult<string>, keys: seq<BuildConfiguration>): (r: HashResult<seq<string>>)
    ensures r.Success? <==> forall i :: 0 <= i < |keys| ==> entry(keys[i]).Success?
    ensures r.Success? ==> |r.value| == |keys|
    ensures r.Success? ==> forall i :: 0 <= i < |keys| ==> r.value[i] == entry(keys[i]).value
    decreases |keys|
  {
    if |keys| == 0 then Success([])
    else
      var prefix, last := keys[..|keys| - 1], keys[|keys| - 1];
      assert keys == prefix + [last];
      var earlier :- CollectEntries(entry, prefix);
      var hash :- entry(last);
      Success(earlier + [hash])
  }

  /** `configurations.keys.sorted()`. */
  function SortedConfigurationKeys(
    h: SettingsContentHasher,
    configurations: seq<(BuildConfiguration, Option<Configuration>)>): (r: seq<BuildConfiguration>)
    ensures multiset(r) == multiset(Keys(configurations))
    ensures |r| == |configurations|
  {
    Sort(Keys(configurations), h.configurationLess)
  }

  /** The list of per-key strings that `hash(_ configurations:)` hashes. */
  function ConfigurationStrings(
    h: SettingsContentHasher,
    configurations: seq<(BuildConfiguration, Option<Configuration>)>): HashResult<seq<string>>
  {
    CollectEntries(EntryOf(h, configurations), SortedConfigurationKeys(h, configurations))
  }

  /** The end of the loop and its `return`: the content hash of the list
      of entries, one per key in the keys' order; the first key whose
      entry throws decides the error, and no hash is computed then. */
  function HashEntries(
    hasher: ContentHasher,
    entry: BuildConfiguration -> HashResult<string>,
    keys: seq<BuildConfiguration>): (r: HashResult<Digest>)
    ensures
      var entries := CollectEntries(entry, keys);
      && (r.Success? <==> entries.Success? && hasher.hashStrings(entries.value).Success?)
      && (entries.Success? ==> r == hasher.hashStrings(entries.value))
      && (entries.Failure? ==> r == Failure(entries.error))
  {
    var entries :- CollectEntries(entry, keys);
    hasher.hashStrings(entries)
  }

  /** `hash(_ configurations:)`: the entries of the keys in ascending
      order, hashed as a list (see `HashEntries`). */
  function HashConfigurations(
    h: SettingsContentHasher,
    configurations: seq<(BuildConfiguration, Option<Configuration>)>): (r: HashResult<Digest>)
    ensures
      var entries := ConfigurationStrings(h, configurations);
      && (r.Success? <==> entries.Success? && h.contentHasher.hashStrings(entries.value).Success?)
      && (entries.Success? ==> r == h.contentHasher.hashStrings(entries.value))
      && (entries.Failure? ==> r == Failure(entries.error))
  {
    HashEntries(h.contentHasher, EntryOf(h, configurations), SortedConfigurationKeys(h, configurations))
  }

  /** The same computation as the source's loop: a mutable list that each
      key appends to, and an early exit on the first throw. */
  method HashConfigurationsLoop(
    h: SettingsContentHasher,
    configurations: seq<(BuildConfiguration, Option<Configuration>)>) returns (r: HashResult<Digest>)
    ensures r == HashConfigurations(h, configurations)
  {
    var keys := SortedConfigurationKeys(h, configurations);
    var entry := EntryOf(h, configurations);
    var configurationHashes: seq<string> := [];
    for i := 0 to |keys|
      invariant CollectEntries(entry, keys[..i]) == Success(configurationHashes)
    {
      ConfigurationEntryCases(h, configurations, keys[i]);
      CollectEntriesStep(entry, keys, i);
      var configurationHash := Seed(keys[i]);
      var lookup := Lookup(configurations, keys[i]);
      if lookup.Some? && lookup.value.Some? {
        var hash := HashConfiguration(h, lookup.value.value);
        if hash.Failure? {
          CollectEntriesFailureSticks(entry, keys, i + 1);
          return Failure(hash.error);
        }
        configurationHash := configurationHash + hash.value;
      }
      configurationHashes := configurationHashes + [configurationHash];
    }
    assert keys[..|keys|] == keys;
    r := h.contentHasher.hashStrings(configurationHashes);
  }

  /** One more key extends the entries by that key's entry, or throws. */
  lemma CollectEntriesStep(entry: BuildConfiguration -> HashResult<string>, keys: seq<BuildConfiguration>, i: nat)
    requires i < |keys|
    ensures
      var earlier, r := CollectEntries(entry, keys[..i]), CollectEntries(entry, keys[..i + 1]);
      && (earlier.Failure? ==> r == earlier)
      && (earlier.Success? && entry(keys[i]).Failure? ==> r == Failure(entry(keys[i]).error))
      && (earlier.Success? && entry(keys[i]).Success? ==> r == Success(earlier.value + [entry(keys[i]).value]))
  {
    assert keys[..i + 1][..i] == keys[..i];
  }

  /** Once a prefix of the keys throws, every longer prefix throws the same
      error. */
  lemma {:induction false} CollectEntriesFailureSticks(
    entry: BuildConfiguration -> HashResult<string>, keys: seq<BuildConfiguration>, n: nat)
    requires n <= |keys|
    requires CollectEntries(entry, keys[..n]).Failure?
    ensures CollectEntries(entry, keys) == CollectEntries(entry, keys[..n])
    decreases |keys| - n
  {
    if n < |keys| {
      var prefix := keys[..|keys| - 1];
      assert prefix[..n] == keys[..n];
      CollectEntriesFailureSticks(entry, prefix, n);
      assert CollectEntries(entry, prefix).Failure?;
    } else {
      assert keys[..n] == keys;
    }
  }

  // ---------------------------------------------------------------------
  // Default settings

  /** The tag naming the policy. */
  function Tag(d: DefaultSettings): string {
    match d
    case Recommended(_) => "recommended"
    case Essential(_) => "essential"
    case None => "none"
  }

  /** `hash(_ defaultSettings:)`: the tag, followed for the two policies
      with exclusions by the hash of the sorted excluded keys. */
  function HashDefaultSettings(h: SettingsContentHasher, d: DefaultSettings): (r: HashResult<string>)
    ensures d.None? ==> r == Success("none")
    ensures r.Success? ==> Tag(d) <= r.value
    ensures !d.None? ==>
      var keysHash := h.contentHasher.hashStrings(Sort(d.excludedKeys, StringLess));
      && (r.Success? <==> keysHash.Success?)
      && (r.Success? ==> r.value == Tag(d) + keysHash.value && |r.value| > |Tag(d)|)
      && (r.Failure? ==> r.error == keysHash.error)
  {
    match d
    case Recommended(excludedKeys) =>
      var excludedKeysHash :- h.contentHasher.hashStrings(Sort(excludedKeys, StringLess));
      Success("recommended" + excludedKeysHash)
    case Essential(excludedKeys) =>
      var excludedKeysHash :- h.contentHasher.hashStrings(Sort(excludedKeys, StringLess));
      Success("essential" + excludedKeysHash)
    case None => Success("none")
  }

  // ---------------------------------------------------------------------
  // Settings

  /** The body of `hash(settings:)` once its three parts are computed:
      the content hash of exactly `[base, configurations, defaults]`, in
      that order; the first part that throws decides the error. */
  function CombineDigests(
    hasher: ContentHasher,
    base: HashResult<Digest>,
    configurations: HashResult<Digest>,
    defaults: HashResult<string>): (r: HashResult<Digest>)
    ensures
      (r.Success? <==>
         base.Success? && configurations.Success? && defaults.Success? &&
         hasher.hashStrings([base.value, configurations.value, defaults.value]).Success?)
    ensures r.Success? ==> r == hasher.hashStrings([base.value, configurations.value, defaults.value])
    ensures base.Failure? ==> r == Failure(base.error)
    ensures base.Success? && configurations.Failure? ==> r == Failure(configurations.error)
    ensures base.Success? && configurations.Success? && defaults.Failure? ==> r == Failure(defaults.error)
  {
    var baseSettingsHash :- base;
    var configurationHash :- configurations;
    var defaultSettingsHash :- defaults;
    hasher.hashStrings([baseSettingsHash, configurationHash, defaultSettingsHash])
  }

  /** `hash(settings:)`: base settings, configurations and default settings
      hashed in that order and combined (see `CombineDigests`). */
  function HashSettings(h: SettingsContentHasher, s: Settings): (r: HashResult<Digest>)
    ensures
      var base := HashDictionary(h, s.base);
      var configurations := HashConfigurations(h, s.configurations);
      var defaults := HashDefaultSettings(h, s.defaultSettings);
      && (r.Success? <==>
            base.Success? && configurations.Success? && defaults.Success? &&
            h.contentHasher.hashStrings([base.value, configurations.value, defaults.value]).Success?)
      && (r.Success? ==> r == h.contentHasher.hashStrings([base.value, configurations.value, defaults.value]))
      && (base.Failure? ==> r == Failure(base.error))
      && (base.Success? && configurations.Failure? ==> r == Failure(configurations.error))
      && (base.Success? && configurations.Success? && defaults.Failure? ==> r == Failure(defaults.error))
  {
    CombineDigests(
      h.contentHasher,
      HashDictionary(h, s.base),
      HashConfigurations(h, s.configurations),
      HashDefaultSettings(h, s.defaultSettings))
  }
}

/** What the settings fingerprinter guarantees on top of its collaborators:
    canonical ordering, fixed composition, the distinctions it keeps, and
    the propagation of failures. */
module SettingsProperties {
  import opened Wrappers
  import opened Strings
  import opened Ordering
  import opened Dictionaries
  import opened ContentHashing
  import opened XcodeGraph
  import opened SettingsHashing

  // ---------------------------------------------------------------------
  // Orders

  /** String order is a strict total order on any collection of strings. */
  lemma StringLessTotal(s: seq<string>)
    ensures StrictTotalOn(StringLess, s)
  {
    forall x | x in s
      ensures !StringLess(x, x)
    {
      StringLessIrreflexive(x);
    }
    forall x, y, z | x in s && y in s && z in s && StringLess(x, y) && StringLess(y, z)
      ensures StringLess(x, z)
    {
      StringLessTransitive(x, y, z);
    }
    forall x, y | x in s && y in s && x != y
      ensures StringLess(x, y) || StringLess(y, x)
    {
      StringLessConnected(x, y);
    }
  }

  /** Ordering entries by key is a strict total order on the entries of any
      dictionary. */
  lemma KeyLessTotal(d: SettingsDictionary)
    requires DistinctKeys(d)
    ensures StrictTotalOn(KeyLess, d)
  {
    forall x | x in d
      ensures !KeyLess(x, x)
    {
      StringLessIrreflexive(x.0);
    }
    forall x, y, z | x in d && y in d && z in d && KeyLess(x, y) && KeyLess(y, z)
      ensures KeyLess(x, z)
    {
      StringLessTransitive(x.0, y.0, z.0);
    }
    forall x, y | x in d && y in d && x != y
      ensures KeyLess(x, y) || KeyLess(y, x)
    {
      var i :| 0 <= i < |d| && d[i] == x;
      var j :| 0 <= j < |d| && d[j] == y;
      StringLessConnected(x.0, y.0);
    }
  }

  // ---------------------------------------------------------------------
  // Base settings

  /** The rendered settings are the entries in ascending key order, each as
      `key:normalizedValue`, joined by `-`: for any listing of the same
      entries whose keys ascend, the rendering is that listing's. */
  lemma RenderSettingsAscending(h: SettingsContentHasher, d: SettingsDictionary, ascending: SettingsDictionary)
    requires multiset(ascending) == multiset(d)
    requires forall i, j :: 0 <= i < j < |ascending| ==> StringLess(ascending[i].0, ascending[j].0)
    ensures RenderSettings(h, d) == Join(RenderEntries(h, ascending), "-")
    ensures HashDictionary(h, d) == h.contentHasher.hashString(Join(RenderEntries(h, ascending), "-"))
    ensures forall i :: 0 <= i < |ascending| ==>
      RenderEntries(h, ascending)[i] == ascending[i].0 + ":" + h.normalize(ascending[i].1)
  {
    forall i, j | 0 <= i < j < |ascending|
      ensures !KeyLess(ascending[j], ascending[i])
    {
      StringLessIrreflexive(ascending[i].0);
      if StringLess(ascending[j].0, ascending[i].0) {
        StringLessTransitive(ascending[i].0, ascending[j].0, ascending[i].0);
      }
    }
    forall i, j | 0 <= i < j < |ascending|
      ensures ascending[i].0 != ascending[j].0
    {
      StringLessIrreflexive(ascending[i].0);
    }
    KeyLessTotal(ascending);
    StrictTotalOnSub(KeyLess, ascending, d);
    SortIsTheSortedPermutation(d, ascending, KeyLess);
  }

  /** Building the same dictionary in another order renders, and therefore
      hashes, the same. */
  lemma SettingsDictionaryOrderIndependent(h: SettingsContentHasher, a: SettingsDictionary, b: SettingsDictionary)
    requires DistinctKeys(a)
    requires multiset(a) == multiset(b)
    ensures RenderSettings(h, a) == RenderSettings(h, b)
    ensures HashDictionary(h, a) == HashDictionary(h, b)
  {
    KeyLessTotal(a);
    SortCanonical(a, b, KeyLess);
  }

  /** The rendering is not injective: a value containing `-` and `:` can
      make one entry read like two, so two different dictionaries can hash
      alike. Shown for a normalisation that renders a plain string as
      itself. */
  lemma RenderingCanCollide(h: SettingsContentHasher)
    requires h.normalize(StringValue("x-B:y")) == "x-B:y"
    requires h.normalize(StringValue("x")) == "x"
    requires h.normalize(StringValue("y")) == "y"
    ensures
      var one: SettingsDictionary := [("A", StringValue("x-B:y"))];
      var two: SettingsDictionary := [("A", StringValue("x")), ("B", StringValue("y"))];
      && one != two
      && RenderSettings(h, one) == RenderSettings(h, two) == "A:x-B:y"
      && HashDictionary(h, one) == HashDictionary(h, two)
  {
    var one: SettingsDictionary := [("A", StringValue("x-B:y"))];
    var two: SettingsDictionary := [("A", StringValue("x")), ("B", StringValue("y"))];
    assert !StringLess("B", "A");
    assert one[1..] == [] && two[1..][1..] == [];
    assert Sort(one, KeyLess) == Insert(one[0], [], KeyLess) == one;
    assert Sort(two[1..], KeyLess) == Insert(two[1], [], KeyLess) == [two[1]];
    assert Sort(two, KeyLess) == Insert(two[0], [two[1]], KeyLess) == two;
    assert RenderEntry(h, one[0]) == "A" + ":" + "x-B:y" == "A:x-B:y";
    assert RenderEntry(h, two[0]) == "A" + ":" + "x" == "A:x";
    assert RenderEntry(h, two[1]) == "B" + ":" + "y" == "B:y";
    assert RenderEntries(h, one) == ["A:x-B:y"];
    assert RenderEntries(h, two) == ["A:x", "B:y"];
    var parts := ["A:x", "B:y"];
    assert parts[1..] == ["B:y"];
    assert Join(parts, "-") == "A:x" + "-" + Join(["B:y"], "-") == "A:x-B:y";
    assert RenderSettings(h, two) == "A:x-B:y";
    assert RenderSettings(h, one) == "A:x-B:y";
  }

  // ---------------------------------------------------------------------
  // Configurations

  /** The configuration keys are visited once each, in strictly ascending
      order, and a successful hash covers one entry per key, each starting
      with that key's seed. */
  lemma ConfigurationsAscending(h: SettingsContentHasher, configurations: seq<(BuildConfiguration, Option<Configuration>)>)
    requires DistinctKeys(configurations)
    requires StrictTotalOn(h.configurationLess, Keys(configurations))
    ensures
      var keys := SortedConfigurationKeys(h, configurations);
      && |keys| == |configurations|
      && multiset(keys) == multiset(Keys(configurations))
      && (forall i, j :: 0 <= i < j < |keys| ==> h.configurationLess(keys[i], keys[j]))
      && (ConfigurationStrings(h, configurations).Success? ==>
            var entries := ConfigurationStrings(h, configurations).value;
            |entries| == |configurations| &&
            forall i :: 0 <= i < |keys| ==> Seed(keys[i]) <= entries[i])
  {
    var keys := SortedConfigurationKeys(h, configurations);
    SortIsSorted(Keys(configurations), h.configurationLess);
    SortKeepsDistinct(Keys(configurations), h.configurationLess);
    StrictTotalOnSub(h.configurationLess, Keys(configurations), keys);
    StrictlyAscending(keys, h.configurationLess);
  }

  /** Two entry functions that agree on the keys collect the same entries. */
  lemma {:induction false} CollectEntriesAgree(
    e1: BuildConfiguration -> HashResult<string>,
    e2: BuildConfiguration -> HashResult<string>,
    keys: seq<BuildConfiguration>)
    requires forall k :: k in keys ==> e1(k) == e2(k)
    ensures CollectEntries(e1, keys) == CollectEntries(e2, keys)
    decreases |keys|
  {
    if |keys| > 0 {
      CollectEntriesAgree(e1, e2, keys[..|keys| - 1]);
    }
  }

  /** When every key contributes the same entry to both, two configuration
      dictionaries with the same keys hash alike. */
  lemma HashConfigurationsAgree(
    h: SettingsContentHasher,
    a: seq<(BuildConfiguration, Option<Configuration>)>,
    b: seq<(BuildConfiguration, Option<Configuration>)>)
    requires multiset(Keys(a)) == multiset(Keys(b))
    requires StrictTotalOn(h.configurationLess, Keys(a))
    requires forall k :: k in Keys(a) ==> ConfigurationEntry(h, a, k) == ConfigurationEntry(h, b, k)
    ensures ConfigurationStrings(h, a) == ConfigurationStrings(h, b)
    ensures HashConfigurations(h, a) == HashConfigurations(h, b)
  {
    SortCanonical(Keys(a), Keys(b), h.configurationLess);
    var keys := SortedConfigurationKeys(h, a);
    forall k | k in keys
      ensures EntryOf(h, a)(k) == EntryOf(h, b)(k)
    {
      assert k in multiset(keys);
    }
    CollectEntriesAgree(EntryOf(h, a), EntryOf(h, b), keys);
  }

  /** The configurations hash does not depend on the dictionary's iteration
      order. */
  lemma ConfigurationsOrderIndependent(
    h: SettingsContentHasher,
    a: seq<(BuildConfiguration, Option<Configuration>)>,
    b: seq<(BuildConfiguration, Option<Configuration>)>)
    requires DistinctKeys(a) && DistinctKeys(b)
    requires multiset(a) == multiset(b)
    requires StrictTotalOn(h.configurationLess, Keys(a))
    ensures HashConfigurations(h, a) == HashConfigurations(h, b)
  {
    KeysRearranged(a, b);
    forall k | k in Keys(a)
      ensures ConfigurationEntry(h, a, k) == ConfigurationEntry(h, b, k)
    {
      LookupRearranged(a, b, k);
    }
    HashConfigurationsAgree(h, a, b);
  }

  /** A key mapped to `nil` contributes its seed alone; a key mapped to a
      configuration contributes a strictly longer string that extends the
      seed, so the two are never confused. */
  lemma NilAndPresentEntriesDiffer(
    h: SettingsContentHasher,
    a: seq<(BuildConfiguration, Option<Configuration>)>,
    b: seq<(BuildConfiguration, Option<Configuration>)>,
    k: BuildConfiguration, c: Configuration)
    requires DistinctKeys(a) && DistinctKeys(b)
    requires (k, Nil) in a && (k, Some(c)) in b
    ensures ConfigurationEntry(h, a, k) == Success(Seed(k))
    ensures ConfigurationEntry(h, b, k).Success? ==>
      Seed(k) < ConfigurationEntry(h, b, k).value
  {
    LookupFindsEntry(a, k, Nil);
    LookupFindsEntry(b, k, Some(c));
    ConfigurationEntryCases(h, a, k);
    ConfigurationEntryCases(h, b, k);
  }

  /** Mapping a key to `nil` and mapping it to a configuration give
      different lists of configuration entries, whatever the other keys
      hold. */
  lemma PresenceChangesEntries(
    h: SettingsContentHasher,
    a: seq<(BuildConfiguration, Option<Configuration>)>,
    b: seq<(BuildConfiguration, Option<Configuration>)>,
    k: BuildConfiguration, c: Configuration)
    requires DistinctKeys(a) && DistinctKeys(b)
    requires Keys(a) == Keys(b)
    requires (k, Nil) in a && (k, Some(c)) in b
    ensures
      var ea, eb := ConfigurationStrings(h, a), ConfigurationStrings(h, b);
      ea.Success? && eb.Success? ==> ea.value != eb.value
  {
    var keys := SortedConfigurationKeys(h, a);
    assert keys == SortedConfigurationKeys(h, b);
    NilAndPresentEntriesDiffer(h, a, b, k, c);
    LookupFindsEntry(a, k, Nil);
    assert k in multiset(keys);
    var j :| 0 <= j < |keys| && keys[j] == k;
    var ea, eb := ConfigurationStrings(h, a), ConfigurationStrings(h, b);
    if ea.Success? && eb.Success? {
      assert ea.value[j] == EntryOf(h, a)(keys[j]).value;
      assert eb.value[j] == EntryOf(h, b)(keys[j]).value;
      assert |ea.value[j]| < |eb.value[j]|;
    }
  }

  /** Under a collision-free content hasher, mapping a key to `nil` and
      mapping it to a configuration (even an empty one) give different
      configuration digests, whatever the other keys hold. */
  lemma PresenceChangesConfigurationsDigest(
    h: SettingsContentHasher,
    a: seq<(BuildConfiguration, Option<Configuration>)>,
    b: seq<(BuildConfiguration, Option<Configuration>)>,
    k: BuildConfiguration, c: Configuration)
    requires CollisionFree(h.contentHasher)
    requires DistinctKeys(a) && DistinctKeys(b)
    requires Keys(a) == Keys(b)
    requires (k, Nil) in a && (k, Some(c)) in b
    requires HashConfigurations(h, a).Success? && HashConfigurations(h, b).Success?
    ensures HashConfigurations(h, a).value != HashConfigurations(h, b).value
  {
    PresenceChangesEntries(h, a, b, k, c);
    assert ConfigurationStrings(h, a).value != ConfigurationStrings(h, b).value;
  }

  /** Under a collision-free content hasher, mapping a key to `nil` and
      mapping it to a configuration (even an empty one) give different
      settings digests, whatever the other keys hold. */
  lemma PresenceDistinguished(h: SettingsContentHasher, s1: Settings, s2: Settings, k: BuildConfiguration, c: Configuration)
    requires CollisionFree(h.contentHasher)
    requires s1.base == s2.base && s1.defaultSettings == s2.defaultSettings
    requires DistinctKeys(s1.configurations) && DistinctKeys(s2.configurations)
    requires Keys(s1.configurations) == Keys(s2.configurations)
    requires (k, Nil) in s1.configurations && (k, Some(c)) in s2.configurations
    ensures HashSettings(h, s1).Success? && HashSettings(h, s2).Success? ==>
      HashSettings(h, s1) != HashSettings(h, s2)
  {
    if HashSettings(h, s1).Success? && HashSettings(h, s2).Success? {
      var a, b := s1.configurations, s2.configurations;
      PresenceChangesConfigurationsDigest(h, a, b, k, c);
      var ca, cb := HashConfigurations(h, a).value, HashConfigurations(h, b).value;
      var base := HashDictionary(h, s1.base).value;
      var defaults := HashDefaultSettings(h, s1.defaultSettings).value;
      assert [base, ca, defaults][1] != [base, cb, defaults][1];
      assert [base, ca, defaults] != [base, cb, defaults];
    }
  }

  // ---------------------------------------------------------------------
  // One configuration

  /** The xcconfig file is only read when the configuration names one: a
      configuration without one hashes the same whatever the file system
      holds. */
  lemma NoXcconfigIgnoresFiles(h: SettingsContentHasher, c: Configuration, files: map<AbsolutePath, seq<byte>>)
    requires c.xcconfig.Nil?
    ensures HashConfiguration(h, c) == HashConfiguration(h.(contentHasher := h.contentHasher.(files := files)), c)
  {
    var h' := h.(contentHasher := h.contentHasher.(files := files));
    var sorted := Sort(c.settings, KeyLess);
    assert RenderEntries(h', sorted) == RenderEntries(h, sorted);
  }

  /** The xcconfig contributes through its contents, not its path. */
  lemma XcconfigContentNotPath(h: SettingsContentHasher, c1: Configuration, c2: Configuration)
    requires c1.settings == c2.settings
    requires c1.xcconfig.Some? && c2.xcconfig.Some?
    requires c1.xcconfig.value in h.contentHasher.files && c2.xcconfig.value in h.contentHasher.files
    requires h.contentHasher.files[c1.xcconfig.value] == h.contentHasher.files[c2.xcconfig.value]
    ensures HashConfiguration(h, c1) == HashConfiguration(h, c2)
  {
  }

  // ---------------------------------------------------------------------
  // Default settings

  /** The default-settings string depends only on the policy and the set of
      excluded keys, not on their order. */
  lemma DefaultSettingsOrderIndependent(h: SettingsContentHasher, d1: DefaultSettings, d2: DefaultSettings)
    requires Tag(d1) == Tag(d2)
    requires !d1.None? ==> multiset(d1.excludedKeys) == multiset(d2.excludedKeys)
    ensures HashDefaultSettings(h, d1) == HashDefaultSettings(h, d2)
  {
    if !d1.None? {
      StringLessTotal(d1.excludedKeys);
      SortCanonical(d1.excludedKeys, d2.excludedKeys, StringLess);
    }
  }

  /** Different policies never render alike: the tags differ in their first
      character. */
  lemma DefaultSettingsTagsDistinct(h: SettingsContentHasher, d1: DefaultSettings, d2: DefaultSettings)
    requires Tag(d1) != Tag(d2)
    requires HashDefaultSettings(h, d1).Success? && HashDefaultSettings(h, d2).Success?
    ensures HashDefaultSettings(h, d1) != HashDefaultSettings(h, d2)
  {
    var r1, r2 := HashDefaultSettings(h, d1).value, HashDefaultSettings(h, d2).value;
    assert r1[0] == Tag(d1)[0] && r2[0] == Tag(d2)[0];
  }

  /** Under a collision-free content hasher, the same policy with different
      sets of excluded keys renders differently. */
  lemma ExclusionSensitive(h: SettingsContentHasher, d1: DefaultSettings, d2: DefaultSettings)
    requires CollisionFree(h.contentHasher)
    requires Tag(d1) == Tag(d2) && !d1.None?
    requires multiset(d1.excludedKeys) != multiset(d2.excludedKeys)
    requires HashDefaultSettings(h, d1).Success? && HashDefaultSettings(h, d2).Success?
    ensures HashDefaultSettings(h, d1) != HashDefaultSettings(h, d2)
  {
    var t := Tag(d1);
    var s1, s2 := Sort(d1.excludedKeys, StringLess), Sort(d2.excludedKeys, StringLess);
    assert s1 != s2;
    var r1, r2 := HashDefaultSettings(h, d1).value, HashDefaultSettings(h, d2).value;
    assert r1[|t|..] == h.contentHasher.hashStrings(s1).value;
    assert r2[|t|..] == h.contentHasher.hashStrings(s2).value;
  }

  // ---------------------------------------------------------------------
  // Settings

  ghost predicate EquivalentDictionaries(a: SettingsDictionary, b: SettingsDictionary) {
    DistinctKeys(a) && DistinctKeys(b) && multiset(a) == multiset(b)
  }

  ghost predicate EquivalentConfigurations(c1: Configuration, c2: Configuration) {
    EquivalentDictionaries(c1.settings, c2.settings) && c1.xcconfig == c2.xcconfig
  }

  /** Two values of `configurations[key]` that hash alike: both absent, both
      `nil`, or equivalent configurations. */
  ghost predicate EquivalentLookups(o1: Option<Option<Configuration>>, o2: Option<Option<Configuration>>) {
    && o1.Some? == o2.Some?
    && (o1.Some? && o2.Some? ==>
          && o1.value.Some? == o2.value.Some?
          && (o1.value.Some? && o2.value.Some? ==> EquivalentConfigurations(o1.value.value, o2.value.value)))
  }

  /** The same keys, each mapped to equivalent values, in any order. */
  ghost predicate EquivalentConfigurationDictionaries(
    a: seq<(BuildConfiguration, Option<Configuration>)>,
    b: seq<(BuildConfiguration, Option<Configuration>)>)
  {
    && DistinctKeys(a) && DistinctKeys(b)
    && multiset(Keys(a)) == multiset(Keys(b))
    && forall k :: k in Keys(a) ==> EquivalentLookups(Lookup(a, k), Lookup(b, k))
  }

  ghost predicate EquivalentDefaultSettings(d1: DefaultSettings, d2: DefaultSettings) {
    Tag(d1) == Tag(d2) && (!d1.None? ==> multiset(d1.excludedKeys) == multiset(d2.excludedKeys))
  }

  /** Settings that differ only in the order their dictionaries and sets
      were built in. */
  ghost predicate EquivalentSettings(s1: Settings, s2: Settings) {
    && EquivalentDictionaries(s1.base, s2.base)
    && EquivalentConfigurationDictionaries(s1.configurations, s2.configurations)
    && EquivalentDefaultSettings(s1.defaultSettings, s2.defaultSettings)
  }

  lemma HashConfigurationEquivalent(h: SettingsContentHasher, c1: Configuration, c2: Configuration)
    requires EquivalentConfigurations(c1, c2)
    ensures HashConfiguration(h, c1) == HashConfiguration(h, c2)
  {
    SettingsDictionaryOrderIndependent(h, c1.settings, c2.settings);
  }

  /** Equivalent configuration dictionaries hash alike. */
  lemma HashConfigurationsEquivalent(
    h: SettingsContentHasher,
    a: seq<(BuildConfiguration, Option<Configuration>)>,
    b: seq<(BuildConfiguration, Option<Configuration>)>)
    requires EquivalentConfigurationDictionaries(a, b)
    requires StrictTotalOn(h.configurationLess, Keys(a))
    ensures HashConfigurations(h, a) == HashConfigurations(h, b)
  {
    forall k | k in Keys(a)
      ensures ConfigurationEntry(h, a, k) == ConfigurationEntry(h, b, k)
    {
      var la, lb := Lookup(a, k), Lookup(b, k);
      if la.Some? && la.value.Some? {
        HashConfigurationEquivalent(h, la.value.value, lb.value.value);
      }
    }
    HashConfigurationsAgree(h, a, b);
  }

  /** Structurally equal settings always produce the same digest, whatever
      order their dictionaries and sets iterate in. */
  lemma EquivalentSettingsSameDigest(h: SettingsContentHasher, s1: Settings, s2: Settings)
    requires EquivalentSettings(s1, s2)
    requires StrictTotalOn(h.configurationLess, Keys(s1.configurations))
    ensures HashSettings(h, s1) == HashSettings(h, s2)
  {
    SettingsDictionaryOrderIndependent(h, s1.base, s2.base);
    HashConfigurationsEquivalent(h, s1.configurations, s2.configurations);
    DefaultSettingsOrderIndependent(h, s1.defaultSettings, s2.defaultSettings);
  }

  // ---------------------------------------------------------------------
  // Failure propagation

  /** The configurations hash throws the error of the first key, in
      ascending order, whose entry throws. */
  lemma CollectEntriesFirstFailure(entry: BuildConfiguration -> HashResult<string>, keys: seq<BuildConfiguration>, i: nat)
    requires i < |keys|
    requires forall j :: 0 <= j < i ==> entry(keys[j]).Success?
    requires entry(keys[i]).Failure?
    ensures CollectEntries(entry, keys) == Failure(entry(keys[i]).error)
  {
    assert forall j :: 0 <= j < i ==> keys[..i][j] == keys[j];
    assert CollectEntries(entry, keys[..i]).Success?;
    CollectEntriesStep(entry, keys, i);
    CollectEntriesFailureSticks(entry, keys, i + 1);
  }

  /** A present configuration whose hash throws makes the whole settings
      hash throw: no partial or default digest is returned. */
  lemma ConfigurationFailureFailsSettings(h: SettingsContentHasher, s: Settings, k: BuildConfiguration, c: Configuration)
    requires DistinctKeys(s.configurations)
    requires (k, Some(c)) in s.configurations
    requires HashConfiguration(h, c).Failure?
    ensures HashSettings(h, s).Failure?
  {
    LookupFindsEntry(s.configurations, k, Some(c));
    var keys := SortedConfigurationKeys(h, s.configurations);
    assert k in multiset(keys);
    var j :| 0 <= j < |keys| && keys[j] == k;
    ConfigurationEntryCases(h, s.configurations, k);
    assert EntryOf(h, s.configurations)(keys[j]).Failure?;
  }

  /** In particular an xcconfig file that cannot be read fails the whole
      settings hash. */
  lemma MissingXcconfigFailsSettings(h: SettingsContentHasher, s: Settings, k: BuildConfiguration, c: Configuration)
    requires DistinctKeys(s.configurations)
    requires (k, Some(c)) in s.configurations
    requires c.xcconfig.Some? && c.xcconfig.value !in h.contentHasher.files
    ensures HashSettings(h, s).Failure?
  {
    ConfigurationFailureFailsSettings(h, s, k, c);
  }
}

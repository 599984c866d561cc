# Settings fingerprinting, modelled in Dafny

This project models `SettingsContentHasher`, the part of Tuist's hashing
engine that turns a target's `Settings` into one digest string. That digest
feeds the target's cache key.

The digest is the content hash of three sub-digests, always in this order:

1. **Base settings.** The `SettingsDictionary` entries are sorted by key.
   Each entry is rendered as `key:normalizedValue`, the renderings are joined
   with `-`, and the resulting string is hashed.
2. **Configurations.** The configuration keys are sorted. Each key
   contributes a string seeded with `name + variant.rawValue`. When the key
   maps to a configuration, the seed is followed by that configuration's
   settings hash and then, if it names an xcconfig file, the file's content
   hash. The list of per-key strings is hashed.
3. **Default-settings policy.** It is rendered as `recommended`,
   `essential` or `none`. The first two are followed by the hash of their
   sorted excluded keys.

Every hashing call may throw, and the first throw ends the computation with
its error.

Modules:

- `Wrappers`: `Option` (Swift's optional, with `Nil` for `nil`) and
  `Result` (a throwing call).
- `Strings`: string order and `joined(separator:)`.
- `Ordering`: `sorted()` as an insertion sort. Under a strict total order
  there is only one ascending arrangement of a collection.
- `Dictionaries`: a Swift dictionary as the list of its entries in
  iteration order, with `keys` and subscript lookup.
- `ContentHashing`: the `ContentHashing` collaborator.
- `XcodeGraph`: the values that are read (`Settings`, `Configuration`,
  `BuildConfiguration`, `DefaultSettings`, `SettingValue`).
- `SettingsHashing`: the hasher itself.
- `SettingsProperties`: what the hasher guarantees.

The collaborators are modelled as fields of a value, not implemented:

- `ContentHasher` has three function-valued fields, one each for
  `hash(String)`, `hash([String])` and raw-data hashing. Each is
  deterministic and may fail.
- Its `files` map is the file system. `hash(path:)` (`HashPath`) hashes
  the bytes stored under the path and throws `FileNotFound` for a path
  that is not there.
- `SettingsContentHasher.normalize` stands for the text of
  `"\(value.normalize())"`.
- `SettingsContentHasher.configurationLess` stands for
  `BuildConfiguration`'s `<`.

Lemmas that need sorting to be canonical assume the following:

- `StrictTotalOn(configurationLess, keys)`: the configuration order is a
  strict total order on the keys.
- `CollisionFree`: lists that hash successfully to the same digest are
  equal. Only the lemmas that prove two digests differ use this.

Three choices of the code are kept as written:

- The configurations part hashes the *list* of per-key strings with
  `hash([String])`, not one joined string.
- Within a configuration entry, the settings hash and the xcconfig hash are
  attached to the seed by plain string concatenation. They are not combined
  by a further hash call.
- Configuration keys are ordered by `BuildConfiguration`'s own `<`. That
  order is a parameter of the model.

## Model

| member | source | states |
|---|---|---|
| `SettingsHashing.HashSettings` | Sources/TuistHasher/SettingsContentHasher.swift:22-27 | The settings digest is the content hash of the base-settings, configurations and default-settings digests, in that order. It succeeds iff each of them and that final hash succeed. Otherwise the first of them that fails decides the error. |
| `SettingsProperties.EquivalentSettingsSameDigest` | Sources/TuistHasher/SettingsContentHasher.swift:22-74 | Two settings that differ only in how their dictionaries and sets were built have the same digest. This covers entry order, configuration-key order and excluded-key order. |
| `SettingsProperties.SettingsDictionaryOrderIndependent` | Sources/TuistHasher/SettingsContentHasher.swift:43-48 | Two entry lists with the same key/value pairs render to the same string and hash to the same result, whatever their order. |
| `SettingsHashing.HashDictionary` | Sources/TuistHasher/SettingsContentHasher.swift:43-48 | The dictionary hash is the content hash of its rendering. An empty dictionary hashes the empty string (see `RenderSettingsAscending` for the general case). |
| `SettingsProperties.RenderSettingsAscending` | Sources/TuistHasher/SettingsContentHasher.swift:43-48 | For any ascending listing of the same entries, the rendered string joins each entry as `key:normalizedValue` with `-`, and the dictionary hash is the content hash of exactly that string. |
| `SettingsHashing.RenderSettings` | Sources/TuistHasher/SettingsContentHasher.swift:44-46 | An empty dictionary renders as the empty string. |
| `SettingsProperties.RenderingCanCollide` | Sources/TuistHasher/SettingsContentHasher.swift:44-47 | The rendering is not injective. When `normalize` renders a plain string value as itself, `["A": "x-B:y"]` and `["A": "x", "B": "y"]` both render as `A:x-B:y`, so they hash alike. |
| `SettingsProperties.KeyLessTotal` | Sources/TuistHasher/SettingsContentHasher.swift:45 | Comparing entries by key is a strict total order on the entries of any dictionary. |
| `SettingsProperties.StringLessTotal` | Sources/TuistHasher/SettingsContentHasher.swift:64 | String `<` is a strict total order on any collection of strings. |
| `Strings.StringLessTransitive` | Sources/TuistHasher/SettingsContentHasher.swift:45 | String `<` is transitive. |
| `Strings.StringLessConnected` | Sources/TuistHasher/SettingsContentHasher.swift:45 | Two different strings are always ordered one way or the other. |
| `Ordering.Sort` | Sources/TuistHasher/SettingsContentHasher.swift:45 | Sorting returns a rearrangement of its input: the same multiset of elements. |
| `Ordering.SortIsSorted` | Sources/TuistHasher/SettingsContentHasher.swift:31 | Under a strict total order, the sorted sequence ascends. |
| `Ordering.SortedUnique` | Sources/TuistHasher/SettingsContentHasher.swift:31 | Two ascending arrangements of the same elements are equal. |
| `Ordering.SortCanonical` | Sources/TuistHasher/SettingsContentHasher.swift:64 | Rearrangements of one another sort to the same sequence. |
| `Ordering.SortKeepsDistinct` | Sources/TuistHasher/SettingsContentHasher.swift:31 | Sorting keys that have no repeats gives a sequence with no repeats. |
| `Dictionaries.Lookup` | Sources/TuistHasher/SettingsContentHasher.swift:33 | `configurations[key]` is present exactly for the dictionary's keys, and holds the value stored with that key. |
| `Dictionaries.LookupRearranged` | Sources/TuistHasher/SettingsContentHasher.swift:33 | Lookups do not depend on the dictionary's iteration order. |
| `Dictionaries.KeysRearranged` | Sources/TuistHasher/SettingsContentHasher.swift:31 | Rearranging the entries rearranges `keys`. |
| `SettingsHashing.SortedConfigurationKeys` | Sources/TuistHasher/SettingsContentHasher.swift:31 | The sorted keys are the dictionary's keys rearranged, one per entry. |
| `SettingsHashing.ConfigurationEntry` | Sources/TuistHasher/SettingsContentHasher.swift:32-38 | A key's entry always starts with the seed `name + variant.rawValue`. |
| `SettingsHashing.ConfigurationEntryCases` | Sources/TuistHasher/SettingsContentHasher.swift:32-38 | A key mapped to `nil` contributes exactly its seed. A present configuration contributes the seed followed by its hash, which is strictly longer than the seed, and throws when that hash throws. |
| `SettingsHashing.CollectEntries` | Sources/TuistHasher/SettingsContentHasher.swift:30-39 | The loop succeeds iff every key's entry succeeds. It then yields one string per key, in key order, each equal to that key's entry. |
| `SettingsHashing.HashConfigurations` | Sources/TuistHasher/SettingsContentHasher.swift:29-41 | The configurations digest is the content hash of the list of per-key strings for the ascending keys. It fails with the loop's error when an entry throws. |
| `SettingsHashing.HashConfigurationsLoop` | Sources/TuistHasher/SettingsContentHasher.swift:29-41 | The source's loop, with its mutable list and early exit, computes the same result as `HashConfigurations`. |
| `SettingsHashing.CollectEntriesStep` | Sources/TuistHasher/SettingsContentHasher.swift:31-38 | Each loop iteration appends that key's entry or stops with its error. |
| `SettingsHashing.CollectEntriesFailureSticks` | Sources/TuistHasher/SettingsContentHasher.swift:35 | Once an entry throws, later keys do not change the outcome. |
| `SettingsProperties.CollectEntriesFirstFailure` | Sources/TuistHasher/SettingsContentHasher.swift:31-40 | The error thrown is the one from the first key, in ascending order, whose entry throws. |
| `SettingsProperties.CollectEntriesAgree` | Sources/TuistHasher/SettingsContentHasher.swift:30-39 | Entry functions that agree on the keys collect the same list. |
| `SettingsProperties.ConfigurationsAscending` | Sources/TuistHasher/SettingsContentHasher.swift:29-41 | Keys are visited once each, in strictly ascending order. A successful list has one entry per key, each starting with its key's seed. |
| `SettingsProperties.HashConfigurationsAgree` | Sources/TuistHasher/SettingsContentHasher.swift:29-41 | Dictionaries with the same keys, where every key contributes the same entry to both, hash alike. |
| `SettingsProperties.ConfigurationsOrderIndependent` | Sources/TuistHasher/SettingsContentHasher.swift:29-41 | The configurations digest does not depend on the dictionary's iteration order. |
| `SettingsProperties.HashConfigurationsEquivalent` | Sources/TuistHasher/SettingsContentHasher.swift:29-41 | Configuration dictionaries whose values are equivalent key by key hash alike. |
| `SettingsProperties.NilAndPresentEntriesDiffer` | Sources/TuistHasher/SettingsContentHasher.swift:32-38 | For the same key, `nil` yields exactly the seed, and a present configuration yields a proper extension of the seed. |
| `SettingsProperties.PresenceChangesEntries` | Sources/TuistHasher/SettingsContentHasher.swift:30-39 | Changing a key from `nil` to a configuration changes the list of per-key strings, whatever the other keys hold. |
| `SettingsProperties.PresenceChangesConfigurationsDigest` | Sources/TuistHasher/SettingsContentHasher.swift:29-41 | With a collision-free hasher, changing a key from `nil` to a configuration changes the configurations digest. |
| `SettingsProperties.PresenceDistinguished` | Sources/TuistHasher/SettingsContentHasher.swift:22-41 | With a collision-free hasher, a key mapped to `nil` and the same key mapped to a configuration (even an empty one) give different settings digests. |
| `SettingsHashing.HashConfiguration` | Sources/TuistHasher/SettingsContentHasher.swift:50-57 | A configuration's hash starts with its settings hash. Without an xcconfig it is exactly the settings hash. With one, it succeeds iff both hashes succeed, and it is the settings hash followed by the file's content hash. |
| `SettingsProperties.HashConfigurationEquivalent` | Sources/TuistHasher/SettingsContentHasher.swift:50-57 | Configurations with equivalent settings and the same xcconfig hash alike. |
| `SettingsProperties.NoXcconfigIgnoresFiles` | Sources/TuistHasher/SettingsContentHasher.swift:52-55 | A configuration without an xcconfig hashes the same whatever the file system holds. |
| `SettingsProperties.XcconfigContentNotPath` | Sources/TuistHasher/SettingsContentHasher.swift:52-54 | Two xcconfig paths with the same contents give the same configuration hash. |
| `ContentHashing.HashPath` | Sources/TuistHasher/SettingsContentHasher.swift:53 | Hashing the path of a file that is not there throws `FileNotFound` for that path. |
| `SettingsHashing.HashDefaultSettings` | Sources/TuistHasher/SettingsContentHasher.swift:59-74 | `none` renders as exactly `"none"`. `recommended` and `essential` render as their tag followed by the hash of the sorted excluded keys, and fail iff that hash fails. Every success starts with the tag. |
| `SettingsProperties.DefaultSettingsOrderIndependent` | Sources/TuistHasher/SettingsContentHasher.swift:62-69 | The policy string depends only on the tag and the multiset of excluded keys, not on their order. |
| `SettingsProperties.DefaultSettingsTagsDistinct` | Sources/TuistHasher/SettingsContentHasher.swift:59-74 | Different policies never render alike. |
| `SettingsProperties.ExclusionSensitive` | Sources/TuistHasher/SettingsContentHasher.swift:62-69 | With a collision-free hasher, the same policy with different excluded keys renders differently. |
| `SettingsProperties.ConfigurationFailureFailsSettings` | Sources/TuistHasher/SettingsContentHasher.swift:23-35 | If a present configuration's hash throws, the whole settings hash throws. No partial or default digest is returned. |
| `SettingsProperties.MissingXcconfigFailsSettings` | Sources/TuistHasher/SettingsContentHasher.swift:52-53 | An xcconfig file that is missing makes the whole settings hash throw. |

## Left out

- Per-target and whole-graph fingerprinting are not part of this model. They
  include composing a target's attribute digests and traversing the
  dependency graph in dependency order, and none of their source is part of
  this model.
- The digest algorithm behind `ContentHashing` and the reading of file bytes
  are left out. They are function-valued fields of `ContentHasher` and a
  `files` map.
- `async`/`await` is left out. Each call is modelled as a sequential
  computation that may throw.
- The rules of `SettingValue.normalize()` and how the normalised value is
  interpolated are left out. Their definitions are not part of this model, so
  the rendering is a parameter, `normalize`.
- The definition of `BuildConfiguration`'s `<` is left out, for the same
  reason. It is a parameter, `configurationLess`.
- ConfigurationsOrderIndependent: holds only when `configurationLess` is a
  strict total order on the keys. If the real `<` ties two distinct keys,
  `sorted()` leaves their relative order to the iteration order, and this
  model proves nothing for that case.
- EquivalentSettingsSameDigest: has the same strict-total-order hypothesis on
  the configuration keys.
- String comparison is left out. Swift compares strings under Unicode
  canonical equivalence, while `Strings.StringLess` compares character by
  character. The two agree on strings already in Unicode NFC (canonically
  composed) form. For other strings the model can order, and keep apart as
  two keys, strings that Swift treats as equal.
- Collision resistance is not proved, because the hash functions are
  abstract. It is the stated `CollisionFree` hypothesis of the lemmas that
  prove digests differ.
- Digests are modelled as non-empty strings. Their fixed length and hex
  alphabet are not modelled.

/** The project-graph values the settings fingerprinter reads. */
module XcodeGraph {
  import opened Wrappers
  import opened ContentHashing

  /** A build-setting value: one string or a list of strings. */
  datatype SettingValue = StringValue(value: string) | ArrayValue(values: seq<string>)

  /** `[String: SettingValue]`, as its entries in iteration order. */
  type SettingsDictionary = seq<(string, SettingValue)>

  datatype Variant = Debug | Release {
    /** The enum's raw value. */
    function RawValue(): string {
      match this
      case Debug => "debug"
      case Release => "release"
    }
  }

  datatype BuildConfiguration = BuildConfiguration(name: string, variant: Variant)

  /** Per-configuration overrides and an optional xcconfig file. */
  datatype Configuration = Configuration(settings: SettingsDictionary, xcconfig: Option<AbsolutePath>)

  /** The default-settings policy; the excluded keys are a set, given here in
      its iteration order. */
  datatype DefaultSettings =
    | Recommended(excludedKeys: seq<string>)
    | Essential(excludedKeys: seq<string>)
    | None

  /** A target's settings: base settings, a dictionary from build
      configuration to an optional configuration, and the default policy. */
  datatype Settings = Settings(
    base: SettingsDictionary,
    configurations: seq<(BuildConfiguration, Option<Configuration>)>,
    defaultSettings: DefaultSettings)
}

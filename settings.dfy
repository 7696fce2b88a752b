/** The configuration snapshot `cfg` (content.js:3-19, 38). */
module Settings {
  import opened Keys

  /** `cfg.showMode`; any value other than the four named ones hides nothing. */
  datatype ShowMode = ShowAll | OnlyFirst | OnlyDup | HideNonSameNameFirst | OtherShowMode

  /** Only the settings the core reads; `language` and the stored `stats`
      default are presentation and persistence. Minutes and seconds are
      whole numbers here. */
  datatype Config = Config(
    enabled: bool,
    windowMinutes: int,
    matchMode: MatchMode,
    showMode: ShowMode,
    onlyWithinWindow: bool,
    autoBuyEnabled: bool,
    autoBuyTimeWindow: int,
    autoBuyMinDuplicates: int)

  /** `DEFAULTS`. */
  const Defaults: Config := Config(true, 120, SymbolMode, ShowAll, true, false, 10, 2)
}

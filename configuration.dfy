/**
 * The configuration type, its defaults and the shallow merge of the caller's
 * partial options over them (src/index.ts:1-31, 140).
 */
module Configuration {
  import opened Wrappers

  /**
   * A resolved configuration. The boolean fields hold the truth value the
   * controller tests them for; `customSelector` is None when undefined.
   */
  datatype Config = Config(
    wrapControls: bool,
    ignoreUntabbable: bool,
    preventDefault: bool,
    customSelector: Option<string>)

  const DefaultConfig: Config := Config(true, true, true, None)

  /**
   * One property of a partial options object: left out, present with the
   * value `undefined`, or present with a value. `Object.assign` copies a
   * property that is present even when its value is `undefined`.
   */
  datatype Field<T> = Omitted | Undefined | Given(value: T)

  /** A partial configuration as the caller passes it. */
  datatype Options = Options(
    wrapControls: Field<bool>,
    ignoreUntabbable: Field<bool>,
    preventDefault: Field<bool>,
    customSelector: Field<string>)

  const NoOptions: Options := Options(Omitted, Omitted, Omitted, Omitted)

  /** A boolean property after the merge, read as a condition (`undefined` is falsy). */
  function MergeFlag(f: Field<bool>, default: bool): bool {
    match f
    case Omitted => default
    case Undefined => false
    case Given(b) => b
  }

  /** The custom selector after the merge (an `undefined` value means none). */
  function MergeSelector(f: Field<string>, default: Option<string>): Option<string> {
    match f
    case Omitted => default
    case Undefined => None
    case Given(s) => Some(s)
  }

  /**
   * `Object.assign({}, defaultConfig, options)`: every property the options
   * carry wins over the default; an absent options object changes nothing.
   */
  function Merge(options: Option<Options>): (c: Config)
    ensures options.None? ==> c == DefaultConfig
    ensures options.Some? && options.value.wrapControls.Given? ==> c.wrapControls == options.value.wrapControls.value
    ensures options.Some? && options.value.ignoreUntabbable.Given? ==> c.ignoreUntabbable == options.value.ignoreUntabbable.value
    ensures options.Some? && options.value.preventDefault.Given? ==> c.preventDefault == options.value.preventDefault.value
    ensures options.Some? && options.value.customSelector.Given? ==> c.customSelector == Some(options.value.customSelector.value)
    ensures options.Some? && options.value.wrapControls.Omitted? ==> c.wrapControls == DefaultConfig.wrapControls
    ensures options.Some? && options.value.ignoreUntabbable.Omitted? ==> c.ignoreUntabbable == DefaultConfig.ignoreUntabbable
    ensures options.Some? && options.value.preventDefault.Omitted? ==> c.preventDefault == DefaultConfig.preventDefault
    ensures options.Some? && options.value.customSelector.Omitted? ==> c.customSelector == DefaultConfig.customSelector
    ensures options.Some? && options.value.wrapControls.Undefined? ==> !c.wrapControls
    ensures options.Some? && options.value.ignoreUntabbable.Undefined? ==> !c.ignoreUntabbable
    ensures options.Some? && options.value.preventDefault.Undefined? ==> !c.preventDefault
    ensures options.Some? && options.value.customSelector.Undefined? ==> c.customSelector.None?
  {
    match options
    case None => DefaultConfig
    case Some(o) =>
      Config(
        MergeFlag(o.wrapControls, DefaultConfig.wrapControls),
        MergeFlag(o.ignoreUntabbable, DefaultConfig.ignoreUntabbable),
        MergeFlag(o.preventDefault, DefaultConfig.preventDefault),
        MergeSelector(o.customSelector, DefaultConfig.customSelector))
  }

  /** The options object that carries every property of a full configuration. */
  function AsOptions(c: Config): Options {
    Options(
      Given(c.wrapControls),
      Given(c.ignoreUntabbable),
      Given(c.preventDefault),
      if c.customSelector.Some? then Given(c.customSelector.value) else Undefined)
  }

  /** Passing a full configuration as the options gives that configuration back. */
  lemma MergeOfFullConfig(c: Config)
    ensures Merge(Some(AsOptions(c))) == c
  {
  }

  /** An options object with no properties is the same as no options. */
  lemma EmptyOptionsGiveDefaults()
    ensures Merge(Some(NoOptions)) == Merge(None) == DefaultConfig
  {
  }

  /**
   * Each property present with the value `undefined` acts on its own: a flag
   * is turned off whatever its default, and the selector is none, so the
   * default selector is used.
   */
  lemma UndefinedOverridesDefault(o: Options)
    ensures o.wrapControls.Undefined? ==> !Merge(Some(o)).wrapControls
    ensures o.ignoreUntabbable.Undefined? ==> !Merge(Some(o)).ignoreUntabbable
    ensures o.preventDefault.Undefined? ==> !Merge(Some(o)).preventDefault
    ensures o.customSelector.Undefined? ==> Merge(Some(o)).customSelector.None?
  {
  }

  /** One undefined flag beside a given one: `{wrapControls: undefined, preventDefault: true}`. */
  lemma SingleUndefinedFlag()
    ensures var c := Merge(Some(Options(Undefined, Omitted, Given(true), Omitted)));
      !c.wrapControls && c.ignoreUntabbable && c.preventDefault && c.customSelector.None?
  {
  }
}

/**
 * `RuntimeOptions::default`: the number of tasks batched into one GPU command
 * (`max_tasks`) and the period of the deallocation tick derived from it.
 *
 * The environment variable `BURN_WGPU_MAX_TASKS` is given as the outcome of
 * looking it up and parsing it as a `usize`; reading the environment and the
 * standard library's integer parser are not part of this model.
 */
module Options {
  import opened Wrappers

  /** `usize` on a 64-bit target. */
  const USIZE_MODULUS: int := 0x1_0000_0000_0000_0000
  type usize = x: int | 0 <= x < USIZE_MODULUS

  /** The number of tasks per command when the variable is not set. */
  const DEFAULT_MAX_TASKS: usize := 64

  /**
   * The outcome of reading `BURN_WGPU_MAX_TASKS`: not set, set to text that is not
   * valid Unicode, or set to text whose parse as a `usize` gave `parsed`.
   */
  datatype MaxTasksVar = NotPresent | NotUnicode | Present(parsed: Option<usize>)

  /** The `expect` on the parse result that panics. */
  datatype OptionsError = MaxTasksNotAnInteger

  /** The options the source derives; the slice strategy is a fixed float ratio and is left out. */
  datatype RuntimeOptions = RuntimeOptions(deallocPeriodTick: usize, maxTasks: usize)

  /** `a * 2` on `usize` as a release build computes it: wrapping around. */
  function WrappingDouble(a: usize): (r: usize)
    ensures r == (2 * a) % USIZE_MODULUS
  {
    if 2 * a < USIZE_MODULUS then 2 * a else 2 * a - USIZE_MODULUS
  }

  /** The `max_tasks` that the `match` on the environment lookup produces. */
  function MaxTasks(env: MaxTasksVar): Result<usize, OptionsError> {
    match env
    case Present(parsed) =>
      (match parsed
       case Some(value) => Ok(value)
       case None => Err(MaxTasksNotAnInteger))
    case _ => Ok(DEFAULT_MAX_TASKS)
  }

  /** `RuntimeOptions::default()`. */
  function Default(env: MaxTasksVar): (r: Result<RuntimeOptions, OptionsError>)
    ensures r.Err? <==> env.Present? && env.parsed.None?
    ensures r.Ok? ==> r.value.maxTasks == (if env.Present? then env.parsed.value else 64)
  {
    match MaxTasks(env)
    case Ok(maxTasks) => Ok(RuntimeOptions(WrappingDouble(maxTasks), maxTasks))
    case Err(e) => Err(e)
  }

  /**
   * The deallocation tick period is twice `max_tasks` whenever that product fits a
   * `usize`, which every value up to 2^63 - 1 does, the default of 64 among them.
   */
  lemma DeallocPeriodIsTwiceMaxTasks(env: MaxTasksVar)
    requires Default(env).Ok?
    requires Default(env).value.maxTasks < USIZE_MODULUS / 2
    ensures Default(env).value.deallocPeriodTick == 2 * Default(env).value.maxTasks
  {
  }

  /** Without a usable variable the defaults are 64 tasks and a period of 128. */
  lemma DefaultWithoutVariable(env: MaxTasksVar)
    requires !env.Present?
    ensures Default(env) == Ok(RuntimeOptions(128, 64))
  {
  }
}

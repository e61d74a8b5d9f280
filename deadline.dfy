/**
 * The timeout budget handed to the native side before a statement runs
 * (`getMicrosecondsUntilDeadline`, nuodb.go:373-386). A budget of 0 means
 * "no limit". Instants are nanoseconds on one clock; the current instant is an
 * input rather than a clock read.
 */
module Deadline {
  import opened Wire
  import opened Wrappers

  /** The errors `ctx.Err()` reports once a context is done. */
  datatype ContextError = Canceled | DeadlineExceeded

  /** What a context reports: `ctx.Deadline()` and `ctx.Err()`. */
  datatype Context = Context(deadline: Option<I64>, err: Option<ContextError>)

  /** `context.Background()`: no deadline, never done. */
  const Background: Context := Context(None, None)

  /** `time.Time.Sub`: the difference in nanoseconds, saturated to the range of `time.Duration`. */
  function Sub(t: I64, u: I64): (d: I64)
    ensures -TWO_TO_63 <= t - u < TWO_TO_63 ==> d == t - u
    ensures t - u >= 0 ==> 0 <= d <= t - u
    ensures t - u < 0 ==> t - u <= d < 0
  {
    if t - u >= TWO_TO_63 then TWO_TO_63 - 1
    else if t - u < -TWO_TO_63 then -TWO_TO_63
    else t - u
  }

  /** Go's integer division, which truncates toward zero; Dafny's `/` is Euclidean. */
  function Quo(a: int, b: int): int
    requires b > 0
  {
    if a >= 0 then a / b else -((-a) / b)
  }

  /** `time.Duration.Microseconds`: whole microseconds, rounded toward zero. */
  function Microseconds(d: I64): (us: I64)
    ensures d >= 0 ==> 0 <= us * 1000 <= d < us * 1000 + 1000
    ensures d < 0 ==> us * 1000 - 1000 < d <= us * 1000 <= 0
  {
    Quo(d, 1000)
  }

  /**
   * `getMicrosecondsUntilDeadline` as written: the microseconds left before
   * the deadline (0 without one), or 0 and the context's error once it is done.
   */
  function MicrosUntilDeadline(ctx: Context, now: I64): (r: (I64, Option<ContextError>))
    ensures r.1 == ctx.err
    ensures ctx.err.Some? || ctx.deadline.None? ==> r.0 == 0
    ensures ctx.err.None? && ctx.deadline.Some? && ctx.deadline.value - now >= 0 ==>
      0 <= r.0 * 1000 <= ctx.deadline.value - now && (ctx.deadline.value - now < TWO_TO_63 ==> ctx.deadline.value - now < r.0 * 1000 + 1000)
    ensures ctx.err.None? && ctx.deadline.Some? && ctx.deadline.value - now < 0 ==>
      ctx.deadline.value - now <= r.0 * 1000 <= 0 && (-TWO_TO_63 <= ctx.deadline.value - now ==> r.0 * 1000 - 1000 < ctx.deadline.value - now)
  {
    var uSec := if ctx.deadline.Some? then Microseconds(Sub(ctx.deadline.value, now)) else 0;
    if ctx.err.Some? then (0, ctx.err) else (uSec, None)
  }

  /** How the callers read the pair: an error stops them, otherwise the budget goes to the native side. */
  function BudgetAsWritten(ctx: Context, now: I64): Result<I64, ContextError>
  {
    var (uSec, e) := MicrosUntilDeadline(ctx, now);
    if e.Some? then Err(e.value) else Ok(uSec)
  }

  /** Without a deadline the budget is 0 (no limit); a done context fails with its error and 0. */
  lemma AsWrittenDocumentedCases(ctx: Context, now: I64)
    ensures ctx.err.Some? ==> MicrosUntilDeadline(ctx, now) == (0, ctx.err)
    ensures ctx.err.None? ==> MicrosUntilDeadline(ctx, now).1.None?
    ensures ctx == Background ==> MicrosUntilDeadline(ctx, now) == (0, None)
  {
  }

  /**
   * As written, a deadline less than a microsecond away yields 0, which the
   * native side reads as "no limit"; a deadline that has passed before the
   * context reports it done yields a negative budget.
   */
  lemma AsWrittenLosesNearDeadline(now: I64)
    requires now <= TWO_TO_63 - 1 - 500 && now >= -TWO_TO_63 + 5000
    ensures MicrosUntilDeadline(Context(Some(now + 500), None), now) == (0, None)
    ensures MicrosUntilDeadline(Context(Some(now - 5000), None), now) == (-5, None)
  {
  }

  /**
   * The budget as evidently intended: 0 only when there is no deadline, a
   * positive budget never longer than the time left, and a deadline error when
   * less than a microsecond remains.
   */
  function TimeoutBudget(ctx: Context, now: I64): (r: Result<I64, ContextError>)
    ensures ctx.err.Some? ==> r == Err(ctx.err.value)
    ensures r.Ok? && ctx.deadline.None? ==> r.value == 0
    ensures r.Ok? && ctx.deadline.Some? ==> 0 < r.value && r.value * 1000 <= ctx.deadline.value - now
    ensures ctx.err.None? && ctx.deadline.Some? && ctx.deadline.value - now < 1000 ==> r == Err(DeadlineExceeded)
    ensures ctx.err.None? && ctx.deadline.None? ==> r == Ok(0)
  {
    if ctx.err.Some? then Err(ctx.err.value)
    else if ctx.deadline.None? then Ok(0)
    else
      var uSec := Microseconds(Sub(ctx.deadline.value, now));
      if uSec <= 0 then Err(DeadlineExceeded) else Ok(uSec)
  }

  /** Wherever the code as written hands over a positive budget, the corrected one is the same. */
  lemma TimeoutBudgetAgrees(ctx: Context, now: I64)
    ensures MicrosUntilDeadline(ctx, now).1.Some? ==> TimeoutBudget(ctx, now) == Err(MicrosUntilDeadline(ctx, now).1.value)
    ensures MicrosUntilDeadline(ctx, now).0 > 0 ==> TimeoutBudget(ctx, now) == Ok(MicrosUntilDeadline(ctx, now).0)
    ensures ctx.deadline.None? && ctx.err.None? ==> TimeoutBudget(ctx, now) == Ok(MicrosUntilDeadline(ctx, now).0)
    ensures TimeoutBudget(ctx, now).Ok? ==> BudgetAsWritten(ctx, now) == TimeoutBudget(ctx, now)
    ensures BudgetAsWritten(ctx, now) != TimeoutBudget(ctx, now) <==>
      BudgetAsWritten(ctx, now).Ok? && ctx.deadline.Some? && BudgetAsWritten(ctx, now).value <= 0
  {
  }
}

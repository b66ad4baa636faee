/**
 * MdcUtils: run a supplier or a runnable "with an MDC context". The context
 * map is accepted and never read; the only behaviour is that an Exception
 * escaping the wrapped code is re-thrown inside a RuntimeException, while an
 * Error passes through untouched.
 */
module MdcUtils {
  import opened Wrappers
  import opened JavaLang

  const SUPPLIER_FAILURE: string := "Error executing supplier with MDC context"
  const RUNNABLE_FAILURE: string := "Error executing runnable with MDC context"

  /** What leaves `catch (Exception e) { throw new RuntimeException(message, e); }`. */
  function Rethrow(message: string, t: Throwable): (r: Throwable)
    ensures t.IsException() ==> r == RuntimeException(message, t)
    ensures !t.IsException() ==> r == t
    ensures r.IsException() == t.IsException()
  {
    if t.IsException() then RuntimeException(message, t) else t
  }

  /**
   * withMdc: the supplier's own value on success; a failure that is an
   * Exception is wrapped once, any other throwable is left as it is.
   */
  function WithMdc<T>(mdcContext: map<string, string>, supplied: Result<T, Throwable>): (r: Result<T, Throwable>)
    ensures supplied.Ok? <==> r.Ok?
    ensures supplied.Ok? ==> r == supplied
    ensures supplied.Err? && supplied.error.IsException()
            ==> r == Err(RuntimeException(SUPPLIER_FAILURE, supplied.error))
    ensures supplied.Err? && !supplied.error.IsException() ==> r == supplied
  {
    if supplied.Ok? then supplied else Err(Rethrow(SUPPLIER_FAILURE, supplied.error))
  }

  /** A Runnable: some handler's body, possibly wrapped by MdcUtils.wrap. */
  datatype Runnable<H> = Body(handler: H) | Wrapped(inner: Runnable<H>, mdcContext: map<string, string>)

  /** The handler whose body a runnable ends up running. */
  function Innermost<H>(r: Runnable<H>): H
  {
    match r
    case Body(h) => h
    case Wrapped(inner, _) => Innermost(inner)
  }

  /** The bodies a run invoked, in order, and what escaped from it. */
  datatype RunOutcome<H> = RunOutcome(invoked: seq<H>, thrown: Option<Throwable>)

  /**
   * Runnable.run(). `behaviour` tells what each handler's body throws, if
   * anything. Whatever the wrapping, the innermost body runs exactly once,
   * and the run fails exactly when that body does.
   */
  function Run<H>(r: Runnable<H>, behaviour: H -> Option<Throwable>): (o: RunOutcome<H>)
    ensures o.invoked == [Innermost(r)]
    ensures o.thrown.None? <==> behaviour(Innermost(r)).None?
    ensures o.thrown.Some? ==> o.thrown.value.IsException() == behaviour(Innermost(r)).value.IsException()
  {
    match r
    case Body(h) => RunOutcome([h], behaviour(h))
    case Wrapped(inner, _) =>
      var o := Run(inner, behaviour);
      RunOutcome(o.invoked, if o.thrown.None? then None else Some(Rethrow(RUNNABLE_FAILURE, o.thrown.value)))
  }

  /** MdcUtils.wrap: a runnable that runs the given one inside the catch-and-wrap block. */
  function Wrap<H>(runnable: Runnable<H>, mdcContext: map<string, string>): (w: Runnable<H>)
    ensures Innermost(w) == Innermost(runnable)
  {
    Wrapped(runnable, mdcContext)
  }

  /**
   * Running a wrapped runnable runs the original once. An Exception from it
   * comes out wrapped once; an Error comes out as it is. The context given
   * to wrap makes no difference.
   */
  lemma WrapRunsOriginal<H>(r: Runnable<H>, ctx: map<string, string>, other: map<string, string>,
                            behaviour: H -> Option<Throwable>)
    ensures Run(Wrap(r, ctx), behaviour).invoked == Run(r, behaviour).invoked
    ensures Run(r, behaviour).thrown.None? ==> Run(Wrap(r, ctx), behaviour).thrown.None?
    ensures Run(r, behaviour).thrown.Some? ==>
              Run(Wrap(r, ctx), behaviour).thrown == Some(Rethrow(RUNNABLE_FAILURE, Run(r, behaviour).thrown.value))
    ensures Run(Wrap(r, ctx), behaviour) == Run(Wrap(r, other), behaviour)
  {
  }
}

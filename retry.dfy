/**
 * parseWithRetry (lib/analysis/retry.ts): call `fn`, parse what it returns, and try again when
 * either throws, up to `maxAttempts` times; the first parsed value is returned and, when every
 * attempt fails, the last error is thrown. The asynchronous `fn` is modelled by what its k-th call
 * (counting from 0) gives, and `parse` by what it gives on each string.
 */
module Retry {
  import opened Js

  /** What a call that may throw gives. */
  datatype Try<T, E> = Ok(value: T) | Threw(error: E)

  /** How parseWithRetry ends: it returns a value, or it throws `lastError` (undefined when no
      attempt was made). */
  datatype Ending<T, E> = Returned(value: T) | Raised(lastError: Option<E>)

  /** parseWithRetry's answer together with the number of calls of `fn` it made. */
  datatype Outcome<T, E> = Outcome(ending: Ending<T, E>, calls: nat)

  /** The default `maxAttempts`. */
  const DefaultMaxAttempts := 2

  /** One attempt: the k-th call of `fn`, then `parse` on its string; whichever throws first
      gives the attempt's error. */
  function Attempt<T, E>(fn: nat -> Try<string, E>, parse: string -> Try<T, E>, k: nat): Try<T, E> {
    match fn(k)
    case Ok(raw) => parse(raw)
    case Threw(e) => Threw(e)
  }

  /** The attempts from the k-th on, when the error of the one before was `lastError`. */
  function RetryFrom<T, E>(fn: nat -> Try<string, E>, parse: string -> Try<T, E>, maxAttempts: int,
                           k: nat, lastError: Option<E>): Outcome<T, E>
    decreases maxAttempts - k
  {
    if k >= maxAttempts then Outcome(Raised(lastError), k)
    else match Attempt(fn, parse, k)
      case Ok(v) => Outcome(Returned(v), k + 1)
      case Threw(e) => RetryFrom(fn, parse, maxAttempts, k + 1, Some(e))
  }

  function ParseWithRetrySpec<T, E>(fn: nat -> Try<string, E>, parse: string -> Try<T, E>, maxAttempts: int): Outcome<T, E> {
    RetryFrom(fn, parse, maxAttempts, 0, None)
  }

  /** parseWithRetry: the for loop over attempts 1..maxAttempts with its early return. */
  method ParseWithRetry<T, E>(fn: nat -> Try<string, E>, parse: string -> Try<T, E>, maxAttempts: int)
    returns (ending: Ending<T, E>, calls: nat)
    ensures Outcome(ending, calls) == ParseWithRetrySpec(fn, parse, maxAttempts)
  {
    var lastError: Option<E> := None;
    var attempt := 1;
    calls := 0;
    while attempt <= maxAttempts
      invariant 1 <= attempt && calls == attempt - 1
      invariant maxAttempts >= 1 ==> attempt <= maxAttempts + 1
      invariant RetryFrom(fn, parse, maxAttempts, calls, lastError) == ParseWithRetrySpec(fn, parse, maxAttempts)
      decreases maxAttempts - attempt
    {
      var raw := fn(calls);
      calls := calls + 1;
      match raw {
        case Ok(s) =>
          var parsed := parse(s);
          match parsed {
            case Ok(v) =>
              ending := Returned(v);
              return;
            case Threw(e) =>
              lastError := Some(e);
          }
        case Threw(e) =>
          lastError := Some(e);
      }
      if attempt == maxAttempts {
        break;
      }
      attempt := attempt + 1;
    }
    ending := Raised(lastError);
  }

  /** From the k-th attempt on: at most maxAttempts calls in all; a returned value is the parse of
      the first attempt from k on that succeeds, every attempt before it having failed; an error is
      raised only when every attempt from k to maxAttempts - 1 failed, and it is the last one's. */
  lemma {:induction false} RetryFromProperties<T, E>(fn: nat -> Try<string, E>, parse: string -> Try<T, E>,
                                                   maxAttempts: int, k: nat, lastError: Option<E>)
    ensures var o := RetryFrom(fn, parse, maxAttempts, k, lastError);
      && (k >= maxAttempts ==> o == Outcome(Raised(lastError), k))
      && (k < maxAttempts ==> k < o.calls <= maxAttempts)
      && (forall j | k <= j < o.calls - 1 :: Attempt(fn, parse, j).Threw?)
      && (o.ending.Returned? ==> Attempt(fn, parse, o.calls - 1) == Ok(o.ending.value))
      && (o.ending.Raised? ==>
            && (forall j | k <= j < maxAttempts :: Attempt(fn, parse, j).Threw?)
            && (k < maxAttempts ==>
                  o.calls == maxAttempts && o.ending.lastError == Some(Attempt(fn, parse, maxAttempts - 1).error)))
    decreases maxAttempts - k
  {
    if k < maxAttempts {
      match Attempt(fn, parse, k)
      case Ok(v) =>
      case Threw(e) =>
        RetryFromProperties(fn, parse, maxAttempts, k + 1, Some(e));
    }
  }

  /** parseWithRetry calls `fn` at most max(0, maxAttempts) times and at least once when
      maxAttempts >= 1. It returns the parse of the first attempt that succeeds, every earlier
      attempt having failed and no later one being made; it throws only when all maxAttempts
      attempts failed, and then throws the last attempt's error (undefined when no attempt ran). */
  lemma ParseWithRetryProperties<T, E>(fn: nat -> Try<string, E>, parse: string -> Try<T, E>, maxAttempts: int)
    ensures var o := ParseWithRetrySpec(fn, parse, maxAttempts);
      && o.calls <= Max(0, maxAttempts)
      && (maxAttempts >= 1 ==> o.calls >= 1)
      && (forall j | 0 <= j < o.calls - 1 :: Attempt(fn, parse, j).Threw?)
      && (o.ending.Returned? ==> Attempt(fn, parse, o.calls - 1) == Ok(o.ending.value))
      && (o.ending.Raised? <==> forall j | 0 <= j < maxAttempts :: Attempt(fn, parse, j).Threw?)
      && (o.ending.Raised? && maxAttempts >= 1 ==>
            o.calls == maxAttempts && o.ending.lastError == Some(Attempt(fn, parse, maxAttempts - 1).error))
      && (maxAttempts <= 0 ==> o == Outcome(Raised(None), 0))
  {
    RetryFromProperties(fn, parse, maxAttempts, 0, None);
    var o := ParseWithRetrySpec(fn, parse, maxAttempts);
    if o.ending.Returned? {
      assert Attempt(fn, parse, o.calls - 1).Ok?;
    }
  }

  /** With the default two attempts: a first attempt that fails and a second that succeeds give
      the second's value after two calls. */
  lemma SecondAttemptSucceeds<T, E>(fn: nat -> Try<string, E>, parse: string -> Try<T, E>)
    requires Attempt(fn, parse, 0).Threw? && Attempt(fn, parse, 1).Ok?
    ensures ParseWithRetrySpec(fn, parse, DefaultMaxAttempts) ==
            Outcome(Returned(Attempt(fn, parse, 1).value), 2)
  {
  }
}

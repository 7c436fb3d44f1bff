/** The upload of one staged file, as SwiftFileOutput.uploadFile runs it
    through Embulk's RetryExecutor: the callback that puts the file and
    deletes the local copy, onRetry's classification of failures and its
    warning, and the bounded attempt loop.

    RetryExecutor itself is not part of this model. Its loop is stated here
    as an assumption: it counts retries from 0; after a failure it gives up
    with the FIRST exception once the count has reached the retry limit;
    otherwise it increments the count, calls onRetry (which may give up with
    the current exception), waits, and doubles the wait up to the maximum. */
module Retry {
  import opened Exceptions

  const InitialRetryWait := 500
  const MaxRetryWait := 30000
  const DeleteFailedMessage := "Couldn't delete local file"

  /** The local file the upload reads: never created (the field is still
      null), gone from the disk, or present with its bytes. */
  datatype Staged = NoFile | Missing | Present(bytes: seq<bv8>)

  /** What the outside world does during one call of the callback: whether
      resolving the container and object handles throws, whether
      uploadObject throws, and whether File.delete succeeds. */
  datatype AttemptEnv = AttemptEnv(resolve: Option<Exception>, upload: Option<Exception>, deleted: bool)

  /** The outcome of every attempt, by attempt number from 0. */
  type Environment = nat -> AttemptEnv

  /** onRetry's test: these failures end the retries at once. */
  predicate GivesUp(e: Exception)
  {
    e.FileNotFound? || e.UriSyntax? || e.Config?
  }

  /** The attempt got as far as a completed uploadObject. */
  predicate PutDone(staged: Staged, a: AttemptEnv)
  {
    a.resolve.None? && staged.Present? && a.upload.None?
  }

  /** One call of the callback: None when it returns, or the exception it throws. */
  function Call(staged: Staged, a: AttemptEnv): (r: Option<Exception>)
    // it returns exactly when the object was put and the local file deleted
    ensures r.None? <==> PutDone(staged, a) && a.deleted
    // a put whose local file cannot be deleted ends in a ConfigException
    ensures PutDone(staged, a) && !a.deleted ==> r == Some(Config(DeleteFailedMessage))
    // with no local file at all, getAbsolutePath dereferences null
    ensures a.resolve.None? && staged.NoFile? ==> r == Some(NullPointer)
    // a vanished local file is reported as FileNotFoundException
    ensures a.resolve.None? && staged.Missing? ==> r == Some(FileNotFound)
    // a failure of the remote calls is passed on as it is
    ensures a.resolve.Some? ==> r == a.resolve
    ensures a.resolve.None? && staged.Present? && a.upload.Some? ==> r == a.upload
  {
    if a.resolve.Some? then a.resolve
    else if staged.NoFile? then Some(NullPointer)
    else if staged.Missing? then Some(FileNotFound)
    else if a.upload.Some? then a.upload
    else if !a.deleted then Some(Config(DeleteFailedMessage))
    else None
  }

  /** The attempt failed with an exception that onRetry does not give up on. */
  predicate Retried(staged: Staged, a: AttemptEnv)
  {
    Call(staged, a).Some? && !GivesUp(Call(staged, a).value)
  }

  function NextWait(w: int): int
  {
    if w * 2 > MaxRetryWait then MaxRetryWait else w * 2
  }

  /** The wait passed to onRetry before retry number retry + 1. */
  function WaitBefore(retry: nat): (w: int)
    ensures InitialRetryWait <= w <= MaxRetryWait
    // the waits never shrink
    ensures retry > 0 ==> WaitBefore(retry - 1) <= w
  {
    if retry == 0 then InitialRetryWait else NextWait(WaitBefore(retry - 1))
  }

  /** The warning onRetry logs: the retry count, the limit, the wait in whole
      seconds, the exception whose message it reports, and whether the
      exception itself is attached. */
  datatype Warning = Warning(retryCount: int, retryLimit: int, seconds: int, reported: Exception, withException: bool)

  /** Java's int division by a positive divisor truncates toward zero. */
  function JavaDiv(a: int, d: int): int
    requires d > 0
  {
    if a >= 0 then a / d else -((-a) / d)
  }

  function RetryWarning(retryCount: int, retryLimit: int, retryWait: int, e: Exception): (w: Warning)
    ensures w.retryCount == retryCount && w.retryLimit == retryLimit && w.reported == e
    // every third retry carries the exception itself
    ensures w.withException <==> retryCount % 3 == 0
  {
    Warning(retryCount, retryLimit, JavaDiv(retryWait, 1000), e, retryCount % 3 == 0)
  }

  /** The wait is reported in whole seconds, rounded down. */
  lemma WarningSeconds(retryCount: int, retryLimit: int, retryWait: int, e: Exception)
    requires retryWait >= 0
    ensures var w := RetryWarning(retryCount, retryLimit, retryWait, e);
            0 <= w.seconds && w.seconds * 1000 <= retryWait < (w.seconds + 1) * 1000
  {
  }

  /** How the retry loop ends, and after how many calls of the callback. */
  datatype Outcome = Uploaded(attempts: nat) | GaveUp(cause: Exception, attempts: nat)

  /** The end of the loop together with the warnings logged on the way. */
  datatype Execution = Execution(outcome: Outcome, warnings: seq<Warning>)

  /** Attempt retryCount failed with a retryable exception while retries
      were left, so the loop makes another attempt. */
  predicate Continues(staged: Staged, env: Environment, limit: int, retryCount: nat)
  {
    retryCount < limit && Retried(staged, env(retryCount))
  }

  /** The first exception as the loop remembers it after a failure e. */
  function KeepFirst(first: Option<Exception>, e: Exception): Exception
  {
    if first.Some? then first.value else e
  }

  /** How the retry loop ends, from the attempt made when retryCount
      retries have already happened, with first the exception of the first
      failure so far. */
  function Ending(staged: Staged, env: Environment, limit: int, retryCount: nat, first: Option<Exception>): (o: Outcome)
    ensures retryCount < o.attempts
    // no more than limit retries follow the first attempt
    ensures o.attempts <= (if limit > retryCount then limit else retryCount) + 1
    decreases if limit > retryCount then limit - retryCount else 0
  {
    var c := Call(staged, env(retryCount));
    if c.None? then Uploaded(retryCount + 1)
    else if retryCount >= limit then GaveUp(KeepFirst(first, c.value), retryCount + 1)
    else if GivesUp(c.value) then GaveUp(c.value, retryCount + 1)
    else Ending(staged, env, limit, retryCount + 1, Some(KeepFirst(first, c.value)))
  }

  /** The warnings onRetry logs from the attempt made after retryCount
      retries on: one for each attempt that the loop follows with another. */
  function Warnings(staged: Staged, env: Environment, limit: int, retryCount: nat): seq<Warning>
    decreases if limit > retryCount then limit - retryCount else 0
  {
    if Continues(staged, env, limit, retryCount) then
      [RetryWarning(retryCount + 1, limit, WaitBefore(retryCount), Call(staged, env(retryCount)).value)]
      + Warnings(staged, env, limit, retryCount + 1)
    else []
  }

  /** The whole upload of one staged file. */
  function Upload(staged: Staged, env: Environment, limit: int): Execution
  {
    Execution(Ending(staged, env, limit, 0, None), Warnings(staged, env, limit, 0))
  }

  /** One warning per retry: as many as the attempts after the first. */
  lemma {:induction false} OneWarningPerRetry(staged: Staged, env: Environment, limit: int,
                                              retryCount: nat, first: Option<Exception>)
    ensures |Warnings(staged, env, limit, retryCount)|
            == Ending(staged, env, limit, retryCount, first).attempts - 1 - retryCount
    decreases if limit > retryCount then limit - retryCount else 0
  {
    if Continues(staged, env, limit, retryCount) {
      OneWarningPerRetry(staged, env, limit, retryCount + 1, Some(KeepFirst(first, Call(staged, env(retryCount)).value)));
    }
  }

  /** The executor's loop, at the attempt made after retryCount retries,
      with first and the warnings logged so far, is on its way to the
      execution x. */
  predicate Resumes(staged: Staged, env: Environment, limit: int, retryCount: nat,
                    first: Option<Exception>, log: seq<Warning>, x: Execution)
  {
    Ending(staged, env, limit, retryCount, first) == x.outcome
    && log + Warnings(staged, env, limit, retryCount) == x.warnings
  }

  /** A retried attempt moves the loop to the next one, with one more warning. */
  lemma ResumesAfterRetry(staged: Staged, env: Environment, limit: int, retryCount: nat,
                          first: Option<Exception>, log: seq<Warning>, x: Execution, e: Exception)
    requires Resumes(staged, env, limit, retryCount, first, log, x)
    requires Call(staged, env(retryCount)) == Some(e) && retryCount < limit && !GivesUp(e)
    ensures Resumes(staged, env, limit, retryCount + 1, Some(KeepFirst(first, e)),
                    log + [RetryWarning(retryCount + 1, limit, WaitBefore(retryCount), e)], x)
  {
    var w := RetryWarning(retryCount + 1, limit, WaitBefore(retryCount), e);
    var rest := Warnings(staged, env, limit, retryCount + 1);
    assert Warnings(staged, env, limit, retryCount) == [w] + rest;
    assert log + [w] + rest == log + ([w] + rest);
  }

  /** The three ways the loop stops at this attempt, and what it has then logged. */
  lemma ResumesToEnd(staged: Staged, env: Environment, limit: int, retryCount: nat,
                     first: Option<Exception>, log: seq<Warning>, x: Execution)
    requires Resumes(staged, env, limit, retryCount, first, log, x)
    ensures retryCount < x.outcome.attempts
    ensures Call(staged, env(retryCount)).None? ==>
              x.outcome == Uploaded(retryCount + 1) && x.warnings == log
    ensures Call(staged, env(retryCount)).Some? && retryCount >= limit ==>
              x.outcome == GaveUp(KeepFirst(first, Call(staged, env(retryCount)).value), retryCount + 1)
              && x.warnings == log
    ensures Call(staged, env(retryCount)).Some? && retryCount < limit && GivesUp(Call(staged, env(retryCount)).value) ==>
              x.outcome == GaveUp(Call(staged, env(retryCount)).value, retryCount + 1) && x.warnings == log
  {
    if !Continues(staged, env, limit, retryCount) {
      assert log + [] == log;
    }
  }

  /** RetryExecutor's handling of a failed attempt: it remembers the first
      exception, gives up with it once retryCount has reached the limit,
      and otherwise counts the retry, lets onRetry give up or log its
      warning, and doubles the wait. The loop it belongs to then goes on
      towards the same execution x, or stops where x stops. */
  method OnFailure(ghost staged: Staged, ghost env: Environment, limit: int, retryCount: nat,
                   retryWait: int, first: Option<Exception>, e: Exception,
                   ghost log: seq<Warning>, ghost x: Execution)
    returns (giveUp: Option<Exception>, nextCount: nat, nextWait: int, nextFirst: Option<Exception>, warning: Warning)
    requires Resumes(staged, env, limit, retryCount, first, log, x)
    requires Call(staged, env(retryCount)) == Some(e)
    requires retryWait == WaitBefore(retryCount)
    ensures giveUp.Some? ==> x.outcome == GaveUp(giveUp.value, retryCount + 1) && x.warnings == log
    ensures giveUp.None? ==>
              && nextCount == retryCount + 1 && nextWait == WaitBefore(nextCount)
              && Resumes(staged, env, limit, nextCount, nextFirst, log + [warning], x)
  {
    ResumesToEnd(staged, env, limit, retryCount, first, log, x);
    nextFirst := first;
    if nextFirst.None? {
      nextFirst := Some(e);
    }
    assert nextFirst == Some(KeepFirst(first, e));
    nextCount, nextWait, warning := retryCount, retryWait, RetryWarning(retryCount, limit, retryWait, e);
    if retryCount >= limit {
      return nextFirst, nextCount, nextWait, nextFirst, warning;
    }
    nextCount := retryCount + 1;
    // onRetry
    if GivesUp(e) {
      return Some(e), nextCount, nextWait, nextFirst, warning;
    }
    warning := RetryWarning(nextCount, limit, retryWait, e);
    nextWait := NextWait(retryWait);
    ResumesAfterRetry(staged, env, limit, retryCount, first, log, x, e);
    giveUp := None;
  }

  /** The loop ends in success after n attempts exactly when attempt n - 1
      puts and deletes, and every attempt before it failed with a retryable
      exception while retries were left. */
  lemma {:induction false} UploadedExactly(staged: Staged, env: Environment, limit: int,
                                           retryCount: nat, first: Option<Exception>, n: nat)
    ensures Ending(staged, env, limit, retryCount, first) == Uploaded(n)
            <==>
            && retryCount < n
            && Call(staged, env(n - 1)).None?
            && (n - 1 == retryCount || n - 1 <= limit)
            && forall j :: retryCount <= j < n - 1 ==> Retried(staged, env(j))
    decreases if limit > retryCount then limit - retryCount else 0
  {
    var c := Call(staged, env(retryCount));
    var o := Ending(staged, env, limit, retryCount, first);
    var earlierRetried := forall j :: retryCount <= j < n - 1 ==> Retried(staged, env(j));
    if c.None? {
      assert o == Uploaded(retryCount + 1);
    } else if !Continues(staged, env, limit, retryCount) {
      assert o.GaveUp?;
      if retryCount < n - 1 && earlierRetried {
        assert Retried(staged, env(retryCount));
      }
    } else {
      var next := Some(KeepFirst(first, c.value));
      UploadedExactly(staged, env, limit, retryCount + 1, next, n);
      assert o == Ending(staged, env, limit, retryCount + 1, next);
    }
  }

  /** A give-up cause is onRetry's own when the attempts were not used up;
      otherwise it is the first failure. */
  lemma {:induction false} GaveUpCause(staged: Staged, env: Environment, limit: int,
                                       retryCount: nat, first: Option<Exception>)
    requires Ending(staged, env, limit, retryCount, first).GaveUp?
    ensures var o := Ending(staged, env, limit, retryCount, first);
            && Call(staged, env(o.attempts - 1)).Some?
            && (o.attempts - 1 < limit ==>
                  GivesUp(o.cause) && o.cause == Call(staged, env(o.attempts - 1)).value)
            && (o.attempts - 1 >= limit ==>
                  o.cause == KeepFirst(first, Call(staged, env(retryCount)).value))
    decreases if limit > retryCount then limit - retryCount else 0
  {
    var c := Call(staged, env(retryCount));
    var o := Ending(staged, env, limit, retryCount, first);
    if Continues(staged, env, limit, retryCount) {
      var next := Some(KeepFirst(first, c.value));
      GaveUpCause(staged, env, limit, retryCount + 1, next);
      assert o == Ending(staged, env, limit, retryCount + 1, next);
    } else {
      assert o.attempts == retryCount + 1;
    }
  }

  /** A failure that onRetry gives up on, on the first attempt, ends the
      upload at once with that very exception and no warning. */
  lemma FirstFailureFatal(staged: Staged, env: Environment, limit: int, e: Exception)
    requires Call(staged, env(0)) == Some(e) && GivesUp(e)
    ensures Upload(staged, env, limit) == Execution(GaveUp(e, 1), [])
  {
  }

  /** When every attempt allowed fails with a retryable exception, the loop
      gives up after limit + 1 attempts with the exception of the first one. */
  lemma {:induction false} ExhaustedKeepsFirst(staged: Staged, env: Environment, limit: int,
                                               retryCount: nat, first: Exception)
    requires retryCount <= limit
    requires forall j :: retryCount <= j <= limit ==> Retried(staged, env(j))
    ensures Ending(staged, env, limit, retryCount, Some(first)) == GaveUp(first, limit + 1)
    decreases limit - retryCount
  {
    assert Retried(staged, env(retryCount));
    if retryCount < limit {
      ExhaustedKeepsFirst(staged, env, limit, retryCount + 1, first);
    }
  }

  /** The same from the first attempt on. */
  lemma ExhaustedReportsFirstFailure(staged: Staged, env: Environment, limit: int)
    requires limit >= 0
    requires forall j :: 0 <= j <= limit ==> Retried(staged, env(j))
    ensures var o := Upload(staged, env, limit).outcome;
            o.GaveUp? && o.attempts == limit + 1 && Call(staged, env(0)) == Some(o.cause)
  {
    assert Retried(staged, env(0));
    var e := Call(staged, env(0)).value;
    if limit > 0 {
      ExhaustedKeepsFirst(staged, env, limit, 1, e);
    }
  }

  /** A completed put always ends the loop: the object is never put twice,
      and every earlier attempt failed before uploadObject returned. */
  lemma {:induction false} PutAtMostOnce(staged: Staged, env: Environment, limit: int,
                                         retryCount: nat, first: Option<Exception>)
    ensures var n := Ending(staged, env, limit, retryCount, first).attempts;
            forall j :: retryCount <= j < n - 1 ==> !PutDone(staged, env(j))
    decreases if limit > retryCount then limit - retryCount else 0
  {
    var c := Call(staged, env(retryCount));
    var o := Ending(staged, env, limit, retryCount, first);
    if Continues(staged, env, limit, retryCount) {
      var next := Some(KeepFirst(first, c.value));
      PutAtMostOnce(staged, env, limit, retryCount + 1, next);
      assert o == Ending(staged, env, limit, retryCount + 1, next);
      assert !PutDone(staged, env(retryCount));
    } else {
      assert o.attempts == retryCount + 1;
    }
  }

  /** A successful upload put the object and deleted the local file in its
      last attempt. */
  lemma UploadedDeletesLocalFile(staged: Staged, env: Environment, limit: int)
    ensures var o := Upload(staged, env, limit).outcome;
            o.Uploaded? ==> PutDone(staged, env(o.attempts - 1)) && env(o.attempts - 1).deleted
  {
    var o := Upload(staged, env, limit).outcome;
    UploadedExactly(staged, env, limit, 0, None, o.attempts);
  }

  /** w is the warning onRetry logs for retry number n: it carries n and
      the limit, reports the retryable exception of attempt n - 1,
      attaches the exception on every third retry, and reports a wait of at
      most 30 seconds. */
  predicate WarningFor(staged: Staged, env: Environment, limit: int, n: nat, w: Warning)
    requires n > 0
  {
    && w.retryCount == n
    && w.retryLimit == limit
    && Call(staged, env(n - 1)) == Some(w.reported)
    && !GivesUp(w.reported)
    && (w.withException <==> n % 3 == 0)
    && 0 <= w.seconds <= MaxRetryWait / 1000
  }

  /** Warning k of the loop from retryCount on is the one for retry number
      retryCount + k + 1. */
  lemma {:induction false} WarningAt(staged: Staged, env: Environment, limit: int, retryCount: nat, k: nat)
    requires k < |Warnings(staged, env, limit, retryCount)|
    ensures WarningFor(staged, env, limit, retryCount + k + 1, Warnings(staged, env, limit, retryCount)[k])
    decreases k
  {
    var ws := Warnings(staged, env, limit, retryCount);
    var rest := Warnings(staged, env, limit, retryCount + 1);
    var e := Call(staged, env(retryCount)).value;
    var w := RetryWarning(retryCount + 1, limit, WaitBefore(retryCount), e);
    assert Continues(staged, env, limit, retryCount);
    assert ws == [w] + rest;
    if k == 0 {
      WarningSeconds(retryCount + 1, limit, WaitBefore(retryCount), e);
      assert w.seconds * 1000 <= WaitBefore(retryCount) <= MaxRetryWait;
    } else {
      WarningAt(staged, env, limit, retryCount + 1, k - 1);
      assert ws[k] == rest[k - 1];
    }
  }

  /** The warnings of the loop, in order: the k-th is the one for retry
      number retryCount + k + 1. */
  lemma WarningsInOrder(staged: Staged, env: Environment, limit: int, retryCount: nat)
    ensures forall k :: 0 <= k < |Warnings(staged, env, limit, retryCount)| ==>
              WarningFor(staged, env, limit, retryCount + k + 1, Warnings(staged, env, limit, retryCount)[k])
  {
    forall k | 0 <= k < |Warnings(staged, env, limit, retryCount)|
      ensures WarningFor(staged, env, limit, retryCount + k + 1, Warnings(staged, env, limit, retryCount)[k])
    {
      WarningAt(staged, env, limit, retryCount, k);
    }
  }
}

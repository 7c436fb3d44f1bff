# embulk-output-swift: the per-task output session, in Dafny

This project models `SwiftFileOutput`, the output session that the Embulk
output plugin for OpenStack Swift opens for each task. It also models the
two decision rules beside it: the choice of authentication method, and the
way an upload is retried or given up.

The session works like this:
- It stages the bytes it is given in a local temporary file.
- On every `nextFile` it closes the current stage and names a new one from
  the path prefix, the sequence format applied to `(taskIndex, fileIndex)`,
  and the file extension.
- On `finish` it uploads the most recently named file through Embulk's
  `RetryExecutor`, then deletes the local copy.

The modules are:
- `Exceptions` (`exceptions.dfy`): the Java exceptions involved, and Guava's
  `Throwables.propagate`, which rethrows a checked exception inside a
  `RuntimeException` and an unchecked one as it is.
- `Auth` (`auth.dfy`): `getAccount`'s check of `auth_type` and the tenant
  settings, as a total function into an account configuration or a
  `ConfigException`.
- `Naming` (`naming.dfy`): suffix normalisation and the object name
  `ObjectName` (src/main/java/org/embulk/output/swift/SwiftFileOutputPlugin.java:174).
  `String.format` is a function parameter, so its rules are not interpreted.
- `Retry` (`retry.dfy`):
  - the retryable callback (`call`), as a function of what the remote calls
    and the file system do in that attempt;
  - `onRetry`'s give-up test `GivesUp` (src/main/java/org/embulk/output/swift/SwiftFileOutputPlugin.java:241) and its warning;
  - the whole attempt loop, as two recursive functions over the outcomes
    of the attempts: how it ends (`Ending`) and the warnings it logs
    (`Warnings`); `Upload` puts the two together for a loop started
    from retry count 0;
  - the properties of that loop, as lemmas.
- `Session` (`session.dfy`): the class `SwiftFileOutput`. Its fields are the
  Java fields plus the local temporary files (`disk`) and the objects put
  into the container (`store`). The class `Buffer` is Embulk's buffer as
  `add` reads it: its bytes, offset and limit, and whether it was
  released. The session's methods are `nextFile`, `closeFile`,
  `add`, `finish`, `uploadFile`, `close`, `abort` and `commit`; the retry
  loop that `uploadFile` hands to `RetryExecutor` is the `while` loop of
  `RetryUpload`, proved against `Retry.Upload`. `UploadFileEffect`
  (src/main/java/org/embulk/output/swift/SwiftFileOutputPlugin.java:211-265) is the whole effect of `uploadFile` (status, warnings,
  local files, stored objects), built on `Retry.Upload`; `UploadFile`,
  `Finish` and `FinishUploadsLatestOnly` are stated with it. `Open` is the
  plugin's `open`.
- `Scenario` (`scenario.dfy`): three short sequences of calls on a session,
  proved from the methods' contracts: staging two buffers, staging them and
  finishing with an upload, and two rotations followed by two closes.

Every I/O call becomes a parameter of the method that makes it. The local
calls are `close`, `createTempFile`, `new FileOutputStream` and `write`; each
is described by an `IoOutcome` (`Completes` or `Fails`). For the remote side
of each upload attempt, an `Environment` says whether resolving the
container and object throws, whether `uploadObject` throws, and whether
`File.delete` succeeds.

Behaviours of the code a reader may not expect, which the model keeps:
- `closeFile` never clears `output`. So once a file has been opened, every
  later close, including the one `finish` makes and the one Embulk makes
  after it, adds 1 to `fileIndex`. The model keeps this behaviour.
- `commit` returns an empty report in every state, with no check that
  anything was uploaded.
- When the retries are exhausted, `RetryExecutor` gives up with the
  exception of the FIRST failed attempt, not the most recent one.
- Only the file named last is uploaded, by `finish`. The files that a
  rotation (`nextFile`) closes are never uploaded and never deleted.
- `File.createTempFile` takes the object name as its prefix and refuses one
  whose `String.length()` is under three, counted in UTF-16 code units
  (`Utf16Length`), with an `IllegalArgumentException`. That
  exception is unchecked, so it leaves `nextFile` unwrapped, after
  `filePath` has already been set.

`RetryExecutor` itself is not part of this model. Its loop is written down
as an assumption in `Retry.Ending`, `Retry.Warnings` and `Retry.OnFailure`:
- the retry count starts at 0;
- after a failure it remembers the first exception;
- once the count has reached the limit, it gives up with that first
  exception;
- otherwise it counts the retry and calls `onRetry`, which may give up with
  the current exception;
- the wait starts at 500 ms and doubles after each retry, up to 30000 ms.

## Model

| member | source | states |
|---|---|---|
| Exceptions.Propagate | src/main/java/org/embulk/output/swift/SwiftFileOutputPlugin.java:258-259 | the result is always unchecked; it is the exception itself exactly when that is unchecked, and otherwise a wrapper whose cause is the checked exception |
| Auth.ConfigureAccount | src/main/java/org/embulk/output/swift/SwiftFileOutputPlugin.java:70-99 | keystone with neither tenant id nor tenant name gives the ConfigException with its exact message; keystone with either gives KEYSTONE; tempauth gives TEMPAUTH; basic gives BASIC; any other auth_type gives the other ConfigException; the only failure is a ConfigException; url, user, password and tenants are carried over unchanged |
| Naming.NormalizeSuffix | src/main/java/org/embulk/output/swift/SwiftFileOutputPlugin.java:170-173 | the suffix starts with a dot, ends with the whole configured extension, and is one character longer exactly when the extension lacked the dot |
| Naming.NormalizeSuffixIdempotent | src/main/java/org/embulk/output/swift/SwiftFileOutputPlugin.java:170-173 | normalising an already normalised suffix changes nothing, so the dot is never doubled |
| Naming.ObjectNameSplits | src/main/java/org/embulk/output/swift/SwiftFileOutputPlugin.java:174 | two names built under one prefix and extension are equal only if their formatted indices are equal |
| Naming.ObjectNameDeterminesIndices | src/main/java/org/embulk/output/swift/SwiftFileOutputPlugin.java:174 | with an injective sequence format, the object name determines both taskIndex and fileIndex |
| Retry.Call | src/main/java/org/embulk/output/swift/SwiftFileOutputPlugin.java:220-231 | the callback returns exactly when the object was put and the local file deleted; a failed delete after a put is the ConfigException; a vanished local file is FileNotFoundException; a failure of the remote calls is passed on unchanged |
| Retry.WaitBefore | src/main/java/org/embulk/output/swift/SwiftFileOutputPlugin.java:216-217 | every wait lies between 500 and 30000 ms, and the waits never shrink |
| Retry.RetryWarning | src/main/java/org/embulk/output/swift/SwiftFileOutputPlugin.java:244-250 | the warning carries the retry count, the limit and the exception; the exception object is attached exactly when retryCount % 3 == 0 |
| Retry.WarningSeconds | src/main/java/org/embulk/output/swift/SwiftFileOutputPlugin.java:244-245 | the seconds reported are the wait divided by 1000, rounded down |
| Retry.Ending | src/main/java/org/embulk/output/swift/SwiftFileOutputPlugin.java:213-257 | the loop makes at least one attempt and at most max(limit, 0) + 1, so a negative limit still allows one attempt |
| Retry.OneWarningPerRetry | src/main/java/org/embulk/output/swift/SwiftFileOutputPlugin.java:239-250 | one warning is logged per retry: as many as the attempts after the first |
| Retry.ResumesAfterRetry | src/main/java/org/embulk/output/swift/SwiftFileOutputPlugin.java:239-250 | a retried attempt moves the loop on to the next attempt, with the remembered first exception and one more warning |
| Retry.ResumesToEnd | src/main/java/org/embulk/output/swift/SwiftFileOutputPlugin.java:220-243 | at each attempt the loop stops exactly in the three ways the executor stops (success, the limit reached, onRetry giving up), with what it has logged so far |
| Retry.OnFailure | src/main/java/org/embulk/output/swift/SwiftFileOutputPlugin.java:239-243 | after a failed attempt the executor either stops where the whole loop stops, with the cause it gives up with, or goes on to the next attempt with the doubled wait and one more warning |
| Retry.UploadedExactly | src/main/java/org/embulk/output/swift/SwiftFileOutputPlugin.java:220-243 | the upload succeeds after n attempts if and only if attempt n - 1 puts and deletes, it was within the limit, and every earlier attempt failed with a retryable exception |
| Retry.GaveUpCause | src/main/java/org/embulk/output/swift/SwiftFileOutputPlugin.java:239-243 | a give-up within the limit has as its cause that attempt's own exception, which is FileNotFoundException, URISyntaxException or ConfigException; a give-up at the limit has the first failure as its cause |
| Retry.FirstFailureFatal | src/main/java/org/embulk/output/swift/SwiftFileOutputPlugin.java:241-243 | a first attempt that fails with a give-up exception ends the upload at once, with that exception and no warning |
| Retry.ExhaustedKeepsFirst | src/main/java/org/embulk/output/swift/SwiftFileOutputPlugin.java:213-218 | when all remaining attempts fail with retryable exceptions, the loop gives up after limit + 1 attempts with the remembered first exception |
| Retry.ExhaustedReportsFirstFailure | src/main/java/org/embulk/output/swift/SwiftFileOutputPlugin.java:213-218 | when every allowed attempt fails with a retryable exception, the upload gives up after limit + 1 attempts with the exception of attempt 0 |
| Retry.PutAtMostOnce | src/main/java/org/embulk/output/swift/SwiftFileOutputPlugin.java:224-228 | only the last attempt can have completed uploadObject, so the object is never put twice |
| Retry.UploadedDeletesLocalFile | src/main/java/org/embulk/output/swift/SwiftFileOutputPlugin.java:224-230 | a successful upload put the object and deleted the local file in its last attempt |
| Retry.WarningAt | src/main/java/org/embulk/output/swift/SwiftFileOutputPlugin.java:239-250 | warning k is for retry retryCount + k + 1 with the configured limit; it reports that attempt's retryable exception; it attaches the exception exactly on every third retry; it reports at most 30 seconds |
| Retry.WarningsInOrder | src/main/java/org/embulk/output/swift/SwiftFileOutputPlugin.java:239-250 | the same for every warning of the loop, in order |
| Session.Utf16Length | src/main/java/org/embulk/output/swift/SwiftFileOutputPlugin.java:175 | the length createTempFile checks is at least the number of characters and at most twice it |
| Session.Utf16LengthCounts | src/main/java/org/embulk/output/swift/SwiftFileOutputPlugin.java:175 | that length equals the number of characters when none lies outside the Basic Multilingual Plane, and twice it when all do |
| Session.Utf16LengthAppend | src/main/java/org/embulk/output/swift/SwiftFileOutputPlugin.java:174-175 | the length of a concatenated name is the sum of its parts' lengths |
| Session.FinishUploadsLatestOnly | src/main/java/org/embulk/output/swift/SwiftFileOutputPlugin.java:211-212 | with no name built nothing happens; otherwise at most the latest-named object is put, with the staged bytes; every other local file is untouched; success means the object holds the bytes and that local file is deleted |
| Session.OpenedStagesHaveDistinctNames | src/main/java/org/embulk/output/swift/SwiftFileOutputPlugin.java:166-174 | with an injective sequence format, stages named at strictly increasing file indices get pairwise distinct object names |
| Session.SwiftFileOutput.NamedStagesHaveDistinctNames | src/main/java/org/embulk/output/swift/SwiftFileOutputPlugin.java:166-174 | in a valid session with an injective sequence format, the object names of all stages it has opened are pairwise distinct |
| Session.SwiftFileOutput.constructor | src/main/java/org/embulk/output/swift/SwiftFileOutputPlugin.java:155-163 | the settings come from the task; there is no handle, no file and no name; fileIndex is 0 |
| Session.SwiftFileOutput.CloseFile | src/main/java/org/embulk/output/swift/SwiftFileOutputPlugin.java:183-192 | with no handle nothing changes; with one, a completed close adds exactly 1 to fileIndex, however often it is repeated; a failed close rethrows the IOException wrapped and leaves fileIndex as it was |
| Session.SwiftFileOutput.Close | src/main/java/org/embulk/output/swift/SwiftFileOutputPlugin.java:267-270 | the same as closeFile |
| Session.SwiftFileOutput.OpenStage | src/main/java/org/embulk/output/swift/SwiftFileOutputPlugin.java:169-181 | the name is built from the current fileIndex; a name under three UTF-16 code units makes createTempFile throw an unwrapped IllegalArgumentException and adds no file; a failed createTempFile is rethrown wrapped and adds no file; a failed FileOutputStream is rethrown as a wrapped FileNotFoundException; no handle is opened on the new file and the previous handle, if any, stays; on success a new empty stage is open and named with an index above every earlier one |
| Session.SwiftFileOutput.NextFile | src/main/java/org/embulk/output/swift/SwiftFileOutputPlugin.java:166-181 | it closes first, and a failed close stops it before a name is built; the name is built from the index the close left; a name under three UTF-16 code units ends it with an unwrapped IllegalArgumentException; each failure (createTempFile, FileOutputStream) is rethrown and keeps the earlier steps' changes; on success a new empty stage is open and named with an index above every earlier one |
| Session.SwiftFileOutput.Add | src/main/java/org/embulk/output/swift/SwiftFileOutputPlugin.java:195-203 | with no handle it throws NullPointerException; an out-of-range slice throws IndexOutOfBoundsException; a failed write is rethrown wrapped; otherwise exactly buffer[offset .. offset+limit) is appended to the open stage and no other file changes; the buffer is released in every case |
| Session.SwiftFileOutput.CallAttempt | src/main/java/org/embulk/output/swift/SwiftFileOutputPlugin.java:220-231 | one call of the callback throws what Retry.Call says; the object holds the file's bytes once uploadObject completed; the local file is gone exactly when the call returns |
| Session.SwiftFileOutput.UploadFile | src/main/java/org/embulk/output/swift/SwiftFileOutputPlugin.java:211-265 | the status, the warnings logged, the local files and the stored objects are exactly those of the uploadFile specification built on Retry.Upload |
| Session.SwiftFileOutput.RetryUpload | src/main/java/org/embulk/output/swift/SwiftFileOutputPlugin.java:213-262 | the loop logs exactly the specified warnings; it ends in success or rethrows the give-up cause through Throwables.propagate; the object is stored only if the last attempt completed the put; the local file is deleted only on success |
| Session.SwiftFileOutput.Finish | src/main/java/org/embulk/output/swift/SwiftFileOutputPlugin.java:206-209 | a failed close ends finish before any upload; otherwise the close is counted and the upload's effect is that of the uploadFile specification |
| Session.SwiftFileOutput.Abort | src/main/java/org/embulk/output/swift/SwiftFileOutputPlugin.java:273-274 | abort changes nothing |
| Session.SwiftFileOutput.Commit | src/main/java/org/embulk/output/swift/SwiftFileOutputPlugin.java:277-279 | commit returns an empty report in every state |
| Session.Open | src/main/java/org/embulk/output/swift/SwiftFileOutputPlugin.java:136-140 | a rejected auth configuration ends open with that ConfigException before any session exists; otherwise a fresh session takes its container, path prefix, sequence format, extension and retry limit from the task and the given formatter, and starts at fileIndex 0 with no handle, nothing named, staged or stored |
| Scenario.StageTwoBuffers | src/main/java/org/embulk/output/swift/SwiftFileOutputPlugin.java:166-203 | with a path prefix of at least two characters (so that createTempFile accepts the name), a fresh session, one nextFile and two adds leave one open stage, named with fileIndex 0, holding the two buffers' bytes in call order; both buffers are released |
| Scenario.StageTwoBuffersAndFinish | src/main/java/org/embulk/output/swift/SwiftFileOutputPlugin.java:166-231 | with a path prefix of at least two characters, nextFile, two adds and a finish whose first attempt succeeds leave one object, named with fileIndex 0, holding the two buffers' bytes in call order; the local file is deleted and both buffers are released |
| Scenario.RotateTwiceThenClose | src/main/java/org/embulk/output/swift/SwiftFileOutputPlugin.java:166-192 | with a path prefix of at least two characters, two nextFile calls name their stages with fileIndex 0 and 1; two more closes bring fileIndex to 3 |

## Left out

- RetryExecutor: its source is not part of this model. Its attempt loop is stated as an assumption (see above). The sleeps and `InterruptedException` are left out. So are the stop on a non-retryable exception (this callback treats every exception as retryable) and `onGiveup` (empty here).
- Retry.NextWait: models the wait as unbounded integers. Java's `int` doubling cannot overflow below the 30000 ms cap, so nothing is lost.
- Account creation, the joss client, authentication against the server, and the container check in `transaction`: these are network calls. Their failures during an upload appear only as the `resolve` exception of an attempt.
- File I/O (`createTempFile`, the streams, `File.delete`, `uploadObject`): each becomes an outcome parameter. The temporary file's generated name and its `.tmp` suffix are not modelled. So the delete-failure `ConfigException` carries only the fixed start of its message, without the file's absolute path. A name that `createTempFile` cannot use as a prefix for another reason than its length (a NUL character in it, say) is left to the `creating` outcome, which may fail with an `IOException`.
- Session.SwiftFileOutput.Add: treats a write that completes as reaching the staged file. `BufferedOutputStream` buffering, partial writes, and writes after the handle was closed (Java would keep them in the stream's buffer or fail on flush) are not distinguished.
- Session.SwiftFileOutput.CloseFile: `fileIndex` is a `nat`. Java's 32-bit `int` wrap-around after 2^31 - 1 closes is not modelled.
- Config binding through annotated interfaces, defaults, `resume` and `cleanup`: framework glue with no behaviour of its own here.
- Logging: only the decision whether a warning carries the exception, and the numbers it reports, are modelled. Info log lines and message text are not.
- `String.format`: the sequence format is applied by a function parameter. Java's formatting rules, and the exception a bad format string would raise, are not modelled. Uniqueness of names is proved for formats assumed injective.

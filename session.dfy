/** SwiftFileOutput: the output session of one task. It stages the bytes it
    is given in a local temporary file, rotates to a new file on nextFile,
    and at finish uploads the file named last, with retries, then deletes
    the local copy. The local file system and the object store are fields
    of the model; what each I/O call does is a parameter of the operation
    that makes it. */
module Session {
  import opened Exceptions
  import Auth
  import Naming
  import Retry

  /** How a local I/O call ends: normally, or with an IOException. */
  datatype IoOutcome = Completes | Fails(message: string)

  /** A temporary file made by File.createTempFile, with the object name as
      its prefix, the bytes written to it, and whether it is still on disk. */
  datatype LocalFile = LocalFile(prefix: string, bytes: seq<bv8>, onDisk: bool)

  /** File.createTempFile throws IllegalArgumentException for a prefix whose
      String.length() is shorter. */
  const TempPrefixMinLength := 3

  /** Java's String.length(): the number of UTF-16 code units, two for every
      character outside the Basic Multilingual Plane. */
  function Utf16Length(s: string): (n: nat)
    ensures |s| <= n <= 2 * |s|
  {
    if s == [] then 0
    else (if s[0] as int > 0xFFFF then 2 else 1) + Utf16Length(s[1..])
  }

  /** A string within the Basic Multilingual Plane has one code unit per
      character, and one wholly outside it two. */
  lemma {:induction false} Utf16LengthCounts(s: string)
    ensures (forall i :: 0 <= i < |s| ==> s[i] as int <= 0xFFFF) ==> Utf16Length(s) == |s|
    ensures (forall i :: 0 <= i < |s| ==> s[i] as int > 0xFFFF) ==> Utf16Length(s) == 2 * |s|
    decreases |s|
  {
    if s != [] {
      Utf16LengthCounts(s[1..]);
    }
  }

  /** The length of a concatenation, such as prefix, index and suffix of an
      object name, is the sum of the parts' lengths. */
  lemma {:induction false} Utf16LengthAppend(a: string, b: string)
    ensures Utf16Length(a + b) == Utf16Length(a) + Utf16Length(b)
    decreases |a|
  {
    if a != [] {
      assert (a + b)[0] == a[0];
      assert (a + b)[1..] == a[1..] + b;
      Utf16LengthAppend(a[1..], b);
    } else {
      assert a + b == b;
    }
  }

  /** The settings of the plugin task that the session uses. */
  datatype PluginTask = PluginTask(
    credentials: Auth.Credentials,
    container: string,
    pathPrefix: string,
    fileExt: string,
    sequenceFormat: string,
    maxConnectionRetry: int)

  /** The report commit returns: Exec.newTaskReport(), an empty set of entries. */
  type TaskReport = map<string, string>

  ghost predicate StrictlyIncreasing(s: seq<nat>)
  {
    forall k, l :: 0 <= k < l < |s| ==> s[k] < s[l]
  }

  lemma AppendKeepsIncreasing(s: seq<nat>, x: nat)
    requires StrictlyIncreasing(s)
    requires |s| > 0 ==> s[|s| - 1] < x
    ensures StrictlyIncreasing(s + [x])
    ensures forall k :: 0 <= k < |s| ==> s[k] < x
  {
  }

  /** An Embulk buffer: its backing array, the offset of its data and the
      number of bytes filled, and whether it has been released. */
  class Buffer {
    const bytes: seq<bv8>
    const offset: int
    const limit: int
    var released: bool

    constructor (bytes: seq<bv8>, offset: int, limit: int)
      ensures this.bytes == bytes && this.offset == offset && this.limit == limit
      ensures !released
    {
      this.bytes := bytes;
      this.offset := offset;
      this.limit := limit;
      released := false;
    }

    /** OutputStream.write(b, off, len) accepts the range. */
    predicate InBounds()
    {
      0 <= offset && 0 <= limit && offset + limit <= |bytes|
    }

    function Data(): seq<bv8>
      requires InBounds()
    {
      bytes[offset..offset + limit]
    }
  }

  /** The file the upload reads, as the upload finds it. */
  function StageOf(file: Option<nat>, disk: seq<LocalFile>): Retry.Staged
    requires file.Some? ==> file.value < |disk|
  {
    if file.None? then Retry.NoFile
    else if disk[file.value].onDisk then Retry.Present(disk[file.value].bytes)
    else Retry.Missing
  }

  /** What uploadFile leaves behind. */
  datatype UploadEffect = UploadEffect(
    status: Status,
    warnings: seq<Retry.Warning>,
    disk: seq<LocalFile>,
    store: map<string, seq<bv8>>)

  /** uploadFile as a function of the session's file fields, the local files,
      the objects already put and the outcomes of the attempts: nothing
      happens when no name was ever built; otherwise the retry loop runs,
      a completed put stores the bytes under the name, a successful upload
      deletes the local file, and a give-up cause is rethrown through
      Throwables.propagate. */
  function UploadFileEffect(filePath: Option<string>, file: Option<nat>, disk: seq<LocalFile>,
                            store: map<string, seq<bv8>>, env: Retry.Environment, limit: int): UploadEffect
    requires file.Some? ==> file.value < |disk|
  {
    if filePath.None? then UploadEffect(Ok, [], disk, store)
    else
      var staged := StageOf(file, disk);
      var x := Retry.Upload(staged, env, limit);
      UploadEffect(
        if x.outcome.Uploaded? then Ok else Threw(Propagate(x.outcome.cause)),
        x.warnings,
        if x.outcome.Uploaded? && file.Some? then disk[file.value := disk[file.value].(onDisk := false)] else disk,
        if Retry.PutDone(staged, env(x.outcome.attempts - 1)) then store[filePath.value := staged.bytes] else store)
  }

  /** finish uploads at most one object, the one named by the latest
      nextFile, with the bytes of the staged file; when it succeeds that
      object holds the bytes and exactly that local file is gone, and every
      other local file is left as it was. */
  lemma FinishUploadsLatestOnly(filePath: Option<string>, file: Option<nat>, disk: seq<LocalFile>,
                                store: map<string, seq<bv8>>, env: Retry.Environment, limit: int)
    requires file.Some? ==> file.value < |disk|
    ensures var r := UploadFileEffect(filePath, file, disk, store, env, limit);
            && (filePath.None? ==> r == UploadEffect(Ok, [], disk, store))
            && (filePath.Some? ==>
                  r.store == store || (StageOf(file, disk).Present? && r.store == store[filePath.value := StageOf(file, disk).bytes]))
            && |r.disk| == |disk|
            && (forall i :: 0 <= i < |disk| && Some(i) != file ==> r.disk[i] == disk[i])
            && (filePath.Some? && r.status == Ok ==>
                  && file.Some? && disk[file.value].onDisk
                  && r.store == store[filePath.value := disk[file.value].bytes]
                  && r.disk == disk[file.value := disk[file.value].(onDisk := false)])
  {
    if filePath.Some? {
      var staged := StageOf(file, disk);
      Retry.UploadedDeletesLocalFile(staged, env, limit);
    }
  }

  /** With an injective sequence format, stages named at strictly
      increasing file indices have pairwise different object names. */
  lemma {:induction false} OpenedStagesHaveDistinctNames(prefix: string, format: Naming.Formatter, sequenceFormat: string,
                                                         taskIndex: int, ext: string, named: seq<nat>)
    requires StrictlyIncreasing(named)
    requires Naming.Injective(format, sequenceFormat)
    ensures forall k, l :: 0 <= k < l < |named| ==>
              Naming.ObjectName(prefix, format, sequenceFormat, taskIndex, named[k], ext)
              != Naming.ObjectName(prefix, format, sequenceFormat, taskIndex, named[l], ext)
  {
    forall k, l | 0 <= k < l < |named|
      ensures Naming.ObjectName(prefix, format, sequenceFormat, taskIndex, named[k], ext)
              != Naming.ObjectName(prefix, format, sequenceFormat, taskIndex, named[l], ext)
    {
      if Naming.ObjectName(prefix, format, sequenceFormat, taskIndex, named[k], ext)
         == Naming.ObjectName(prefix, format, sequenceFormat, taskIndex, named[l], ext) {
        Naming.ObjectNameDeterminesIndices(prefix, format, sequenceFormat, taskIndex, named[k], taskIndex, named[l], ext);
      }
    }
  }

  class SwiftFileOutput {
    const containerName: string
    const pathPrefix: string
    const sequenceFormat: string
    const pathSuffix: string
    const maxConnectionRetry: int
    const taskIndex: int
    const format: Naming.Formatter

    /** The local file the write handle appends to. Once set it is never
        cleared, so every later close counts as closing a file. */
    var output: Option<nat>
    var fileIndex: nat
    /** The local file to upload, as an index into disk. */
    var file: Option<nat>
    var filePath: Option<string>
    /** The temporary files this session created, in order of creation. */
    var disk: seq<LocalFile>
    /** The objects this session put into the container, by name. */
    var store: map<string, seq<bv8>>
    /** The fileIndex each stage was named with, for every stage whose
        write handle was named. */
    ghost var named: seq<nat>

    ghost predicate Valid()
      reads this
    {
      && (output.Some? ==> output.value < |disk|)
      && (file.Some? ==> file.value < |disk|)
      && (filePath.None? ==> file.None? && output.None? && disk == [])
      && (output.Some? <==> |named| > 0)
      && (output.None? ==> fileIndex == 0)
      // stages are named with strictly increasing indices from 0, never above fileIndex
      && StrictlyIncreasing(named)
      && (|named| > 0 ==> named[0] == 0 && named[|named| - 1] <= fileIndex)
    }

    /** The name nextFile builds from the current fileIndex. */
    function NextName(): string
      reads this
    {
      Naming.ObjectName(pathPrefix, format, sequenceFormat, taskIndex, fileIndex, pathSuffix)
    }

    constructor (task: PluginTask, taskIndex: int, format: Naming.Formatter)
      ensures Valid()
      ensures containerName == task.container && pathPrefix == task.pathPrefix
      ensures sequenceFormat == task.sequenceFormat && pathSuffix == task.fileExt
      ensures maxConnectionRetry == task.maxConnectionRetry
      ensures this.taskIndex == taskIndex && this.format == format
      ensures output.None? && fileIndex == 0 && file.None? && filePath.None?
      ensures disk == [] && store == map[] && named == []
    {
      containerName := task.container;
      this.taskIndex := taskIndex;
      pathPrefix := task.pathPrefix;
      sequenceFormat := task.sequenceFormat;
      pathSuffix := task.fileExt;
      maxConnectionRetry := task.maxConnectionRetry;
      this.format := format;
      output := None;
      fileIndex := 0;
      file := None;
      filePath := None;
      disk := [];
      store := map[];
      named := [];
    }

    /** In a session whose sequence format is injective, no two stages it
        has opened share an object name. */
    lemma NamedStagesHaveDistinctNames()
      requires Valid()
      requires Naming.Injective(format, sequenceFormat)
      ensures forall k, l :: 0 <= k < l < |named| ==>
                Naming.ObjectName(pathPrefix, format, sequenceFormat, taskIndex, named[k], pathSuffix)
                != Naming.ObjectName(pathPrefix, format, sequenceFormat, taskIndex, named[l], pathSuffix)
    {
      OpenedStagesHaveDistinctNames(pathPrefix, format, sequenceFormat, taskIndex, pathSuffix, named);
    }

    /** Closes the write handle if there is one, and then counts the file:
        with no handle nothing changes; with one, every close that
        completes adds 1 to fileIndex, however often it is repeated. */
    method CloseFile(closing: IoOutcome) returns (s: Status)
      requires Valid()
      modifies this`fileIndex
      ensures Valid()
      ensures output.None? ==> s == Ok && fileIndex == old(fileIndex)
      ensures output.Some? && closing.Completes? ==> s == Ok && fileIndex == old(fileIndex) + 1
      ensures output.Some? && closing.Fails? ==>
                s == Threw(Propagate(Io(closing.message))) && fileIndex == old(fileIndex)
    {
      if output.Some? {
        if closing.Fails? {
          return Threw(Propagate(Io(closing.message)));
        }
        fileIndex := fileIndex + 1;
      }
      return Ok;
    }

    method Close(closing: IoOutcome) returns (s: Status)
      requires Valid()
      modifies this`fileIndex
      ensures Valid()
      ensures output.None? ==> s == Ok && fileIndex == old(fileIndex)
      ensures output.Some? && closing.Completes? ==> s == Ok && fileIndex == old(fileIndex) + 1
      ensures output.Some? && closing.Fails? ==>
                s == Threw(Propagate(Io(closing.message))) && fileIndex == old(fileIndex)
    {
      s := CloseFile(closing);
    }

    /** Closes the current stage, names the next one from (taskIndex,
        fileIndex), creates its temporary file and opens a handle on it. Each
        step can fail; what the earlier steps changed stays changed. */
    method NextFile(closing: IoOutcome, creating: IoOutcome, opening: IoOutcome) returns (s: Status)
      requires Valid()
      modifies this`fileIndex, this`filePath, this`file, this`disk, this`output, this`named
      ensures Valid()
      // the implicit close
      ensures fileIndex == if old(output).Some? && closing.Completes? then old(fileIndex) + 1 else old(fileIndex)
      // a failed close stops nextFile before the name is built
      ensures old(output).Some? && closing.Fails? ==>
                && s == Threw(Propagate(Io(closing.message)))
                && filePath == old(filePath) && file == old(file) && disk == old(disk)
                && output == old(output) && named == old(named)
      // otherwise the name is built from the index the close left behind
      ensures !(old(output).Some? && closing.Fails?) ==> filePath == Some(NextName())
      // createTempFile refuses a name under three characters, unwrapped
      ensures !(old(output).Some? && closing.Fails?) && Utf16Length(NextName()) < TempPrefixMinLength ==>
                && s == Threw(IllegalArgument)
                && file == old(file) && disk == old(disk) && output == old(output) && named == old(named)
      ensures !(old(output).Some? && closing.Fails?) && Utf16Length(NextName()) >= TempPrefixMinLength && creating.Fails? ==>
                && s == Threw(Propagate(Io(creating.message)))
                && file == old(file) && disk == old(disk) && output == old(output) && named == old(named)
      ensures !(old(output).Some? && closing.Fails?) && Utf16Length(NextName()) >= TempPrefixMinLength && creating.Completes? ==>
                && disk == old(disk) + [LocalFile(NextName(), [], true)]
                && file == Some(|old(disk)|)
      ensures !(old(output).Some? && closing.Fails?) && Utf16Length(NextName()) >= TempPrefixMinLength
              && creating.Completes? && opening.Fails? ==>
                s == Threw(Propagate(FileNotFound)) && output == old(output) && named == old(named)
      // a new stage: empty, open, and named with an index above every earlier one
      ensures !(old(output).Some? && closing.Fails?) && Utf16Length(NextName()) >= TempPrefixMinLength
              && creating.Completes? && opening.Completes? ==>
                && s == Ok
                && output == Some(|old(disk)|)
                && named == old(named) + [fileIndex]
                && (forall k :: 0 <= k < |old(named)| ==> old(named)[k] < fileIndex)
    {
      s := CloseFile(closing);
      if s.Threw? {
        return;
      }
      s := OpenStage(creating, opening);
    }

    /** The part of nextFile after the close: the name, the temporary file
        and the write handle. */
    method OpenStage(creating: IoOutcome, opening: IoOutcome) returns (s: Status)
      requires Valid()
      // the close before it has moved fileIndex past every stage named so far
      requires |named| > 0 ==> named[|named| - 1] < fileIndex
      modifies this`filePath, this`file, this`disk, this`output, this`named
      ensures Valid()
      ensures filePath == Some(NextName())
      // createTempFile refuses a prefix under three characters with an
      // unchecked exception, which the catch of IOException lets through
      ensures Utf16Length(NextName()) < TempPrefixMinLength ==>
                && s == Threw(IllegalArgument)
                && file == old(file) && disk == old(disk) && output == old(output) && named == old(named)
      ensures Utf16Length(NextName()) >= TempPrefixMinLength && creating.Fails? ==>
                && s == Threw(Propagate(Io(creating.message)))
                && file == old(file) && disk == old(disk) && output == old(output) && named == old(named)
      ensures Utf16Length(NextName()) >= TempPrefixMinLength && creating.Completes? ==>
                disk == old(disk) + [LocalFile(NextName(), [], true)] && file == Some(|old(disk)|)
      ensures Utf16Length(NextName()) >= TempPrefixMinLength && creating.Completes? && opening.Fails? ==>
                s == Threw(Propagate(FileNotFound)) && output == old(output) && named == old(named)
      ensures Utf16Length(NextName()) >= TempPrefixMinLength && creating.Completes? && opening.Completes? ==>
                && s == Ok
                && output == Some(|old(disk)|)
                && named == old(named) + [fileIndex]
                && (forall k :: 0 <= k < |old(named)| ==> old(named)[k] < fileIndex)
    {
      filePath := Some(Naming.ObjectName(pathPrefix, format, sequenceFormat, taskIndex, fileIndex, pathSuffix));
      if Utf16Length(filePath.value) < TempPrefixMinLength {
        return Threw(IllegalArgument);
      }
      if creating.Fails? {
        return Threw(Propagate(Io(creating.message)));
      }
      disk := disk + [LocalFile(filePath.value, [], true)];
      file := Some(|disk| - 1);
      if opening.Fails? {
        return Threw(Propagate(FileNotFound));
      }
      output := file;
      AppendKeepsIncreasing(named, fileIndex);
      named := named + [fileIndex];
      s := Ok;
    }

    /** Writes the buffer's data to the open handle and releases the buffer,
        whether the write succeeds or not. */
    method Add(buffer: Buffer, writing: IoOutcome) returns (s: Status)
      requires Valid()
      modifies this`disk, buffer`released
      ensures Valid()
      ensures buffer.released
      ensures output.None? ==> s == Threw(NullPointer) && disk == old(disk)
      ensures output.Some? && !buffer.InBounds() ==> s == Threw(IndexOutOfBounds) && disk == old(disk)
      ensures output.Some? && buffer.InBounds() && writing.Fails? ==>
                s == Threw(Propagate(Io(writing.message))) && disk == old(disk)
      // the data is appended to the file the handle writes to, and to no other
      ensures output.Some? && buffer.InBounds() && writing.Completes? ==>
                && s == Ok
                && |disk| == |old(disk)|
                && disk[output.value].bytes == old(disk)[output.value].bytes + buffer.Data()
                && disk[output.value].prefix == old(disk)[output.value].prefix
                && disk[output.value].onDisk == old(disk)[output.value].onDisk
                && forall i :: 0 <= i < |disk| && i != output.value ==> disk[i] == old(disk)[i]
    {
      if output.None? {
        s := Threw(NullPointer);
      } else if !buffer.InBounds() {
        s := Threw(IndexOutOfBounds);
      } else if writing.Fails? {
        s := Threw(Propagate(Io(writing.message)));
      } else {
        var o := output.value;
        disk := disk[o := disk[o].(bytes := disk[o].bytes + buffer.bytes[buffer.offset..buffer.offset + buffer.limit])];
        s := Ok;
      }
      buffer.released := true;
    }

    /** The Retryable's call(): resolve the object, upload the local file to
        it, and delete the local file. */
    method CallAttempt(path: string, a: Retry.AttemptEnv) returns (thrown: Option<Exception>)
      requires file.Some? ==> file.value < |disk|
      modifies this`disk, this`store
      ensures |disk| == |old(disk)|
      ensures thrown == Retry.Call(StageOf(file, old(disk)), a)
      // the object holds the local file's bytes once uploadObject returns
      ensures store == if Retry.PutDone(StageOf(file, old(disk)), a) then old(store)[path := StageOf(file, old(disk)).bytes] else old(store)
      // the local file is gone exactly when the call returns normally
      ensures thrown.None? ==> file.Some? && disk == old(disk)[file.value := old(disk)[file.value].(onDisk := false)]
      ensures thrown.Some? ==> disk == old(disk)
    {
      if a.resolve.Some? {
        thrown := a.resolve;
      } else if file.None? {
        thrown := Some(NullPointer);
      } else if !disk[file.value].onDisk {
        thrown := Some(FileNotFound);
      } else if a.upload.Some? {
        thrown := a.upload;
      } else {
        store := store[path := disk[file.value].bytes];
        if a.deleted {
          disk := disk[file.value := disk[file.value].(onDisk := false)];
          thrown := None;
        } else {
          thrown := Some(Config(Retry.DeleteFailedMessage));
        }
      }
    }

    /** The upload: a loop of attempts, each resolving the object, putting
        the local file and deleting it, until one succeeds or the retry
        policy gives up. */
    method UploadFile(env: Retry.Environment) returns (s: Status, log: seq<Retry.Warning>)
      requires Valid()
      modifies this`disk, this`store
      ensures Valid()
      ensures UploadEffect(s, log, disk, store)
              == UploadFileEffect(old(filePath), old(file), old(disk), old(store), env, maxConnectionRetry)
    {
      if filePath.None? {
        return Ok, [];
      }
      ghost var last;
      s, log, last := RetryUpload(filePath.value, env);
    }

    /** RetryExecutor running the callbacks for the object named path, as
        the retry policy prescribes. */
    method RetryUpload(path: string, env: Retry.Environment) returns (s: Status, log: seq<Retry.Warning>, ghost last: nat)
      requires file.Some? ==> file.value < |disk|
      modifies this`disk, this`store
      ensures |disk| == |old(disk)|
      // last is the number of the final attempt
      ensures Retry.Upload(StageOf(file, old(disk)), env, maxConnectionRetry).outcome.attempts == last + 1
      ensures log == Retry.Upload(StageOf(file, old(disk)), env, maxConnectionRetry).warnings
      ensures var o := Retry.Upload(StageOf(file, old(disk)), env, maxConnectionRetry).outcome;
              s == if o.Uploaded? then Ok else Threw(Propagate(o.cause))
      ensures store == if Retry.PutDone(StageOf(file, old(disk)), env(last))
                       then old(store)[path := StageOf(file, old(disk)).bytes] else old(store)
      ensures Retry.Upload(StageOf(file, old(disk)), env, maxConnectionRetry).outcome.Uploaded? ==>
                file.Some? && disk == old(disk)[file.value := old(disk)[file.value].(onDisk := false)]
      ensures Retry.Upload(StageOf(file, old(disk)), env, maxConnectionRetry).outcome.GaveUp? ==> disk == old(disk)
    {
      log := [];
      ghost var staged := StageOf(file, disk);
      ghost var x := Retry.Upload(staged, env, maxConnectionRetry);
      var retryCount: nat := 0;
      var retryWait := Retry.InitialRetryWait;
      var first: Option<Exception> := None;
      while true
        invariant disk == old(disk) && store == old(store)
        invariant retryWait == Retry.WaitBefore(retryCount)
        invariant Retry.Resumes(staged, env, maxConnectionRetry, retryCount, first, log, x)
        decreases x.outcome.attempts - retryCount
      {
        Retry.ResumesToEnd(staged, env, maxConnectionRetry, retryCount, first, log, x);
        var thrown := CallAttempt(path, env(retryCount));
        if thrown.None? {
          return Ok, log, retryCount;
        }
        var giveUp, nextCount, nextWait, nextFirst, warning :=
          Retry.OnFailure(staged, env, maxConnectionRetry, retryCount, retryWait, first, thrown.value, log, x);
        if giveUp.Some? {
          return Threw(Propagate(giveUp.value)), log, retryCount;
        }
        retryCount, retryWait, first, log := nextCount, nextWait, nextFirst, log + [warning];
      }
    }

    /** Closes, then uploads the file named by the latest nextFile. */
    method Finish(closing: IoOutcome, env: Retry.Environment) returns (s: Status, log: seq<Retry.Warning>)
      requires Valid()
      modifies this`fileIndex, this`disk, this`store
      ensures Valid()
      ensures fileIndex == if old(output).Some? && closing.Completes? then old(fileIndex) + 1 else old(fileIndex)
      // a failed close ends finish before any upload
      ensures old(output).Some? && closing.Fails? ==>
                s == Threw(Propagate(Io(closing.message))) && log == [] && disk == old(disk) && store == old(store)
      ensures !(old(output).Some? && closing.Fails?) ==>
                UploadEffect(s, log, disk, store)
                == UploadFileEffect(old(filePath), old(file), old(disk), old(store), env, maxConnectionRetry)
    {
      s := Close(closing);
      log := [];
      if s.Threw? {
        return;
      }
      s, log := UploadFile(env);
    }

    /** abort does nothing: no upload, no deletion, no change. */
    method Abort()
      ensures unchanged(this)
    {
    }

    /** commit reports success in every state. */
    method Commit() returns (report: TaskReport)
      ensures report == map[]
    {
      report := map[];
    }
  }

  /** FileOutputPlugin.open: the account settings are checked first, and a
      configuration error ends the open before any session or file exists. */
  method Open(task: PluginTask, taskIndex: int, format: Naming.Formatter) returns (r: Result<SwiftFileOutput>)
    ensures Auth.ConfigureAccount(task.credentials).Failure? ==>
              r == Failure(Auth.ConfigureAccount(task.credentials).error)
    ensures Auth.ConfigureAccount(task.credentials).Success? ==>
              && r.Success? && fresh(r.value) && r.value.Valid()
              && r.value.containerName == task.container && r.value.pathPrefix == task.pathPrefix
              && r.value.sequenceFormat == task.sequenceFormat && r.value.pathSuffix == task.fileExt
              && r.value.maxConnectionRetry == task.maxConnectionRetry
              && r.value.taskIndex == taskIndex && r.value.format == format
              && r.value.output.None? && r.value.fileIndex == 0 && r.value.file.None?
              && r.value.filePath.None? && r.value.disk == [] && r.value.store == map[]
              && r.value.named == []
  {
    var account := Auth.ConfigureAccount(task.credentials);
    if account.Failure? {
      return Failure(account.error);
    }
    var session := new SwiftFileOutput(task, taskIndex, format);
    return Success(session);
  }
}

/** A whole session as Embulk drives one task: open, one stage, two
    buffers, finish, commit. */
module Scenario {
  import opened Exceptions
  import Naming
  import Retry
  import Session

  /** A fresh session, one nextFile and two adds, every local call
      completing: one stage, open, named with fileIndex 0, holding the two
      buffers' bytes in the order they were added. */
  method StageTwoBuffers(task: Session.PluginTask, taskIndex: int, format: Naming.Formatter,
                         b1: Session.Buffer, b2: Session.Buffer)
    returns (session: Session.SwiftFileOutput)
    requires b1.InBounds() && b2.InBounds()
    // a name long enough for File.createTempFile
    requires |task.pathPrefix| >= 2
    modifies b1, b2
    ensures fresh(session) && session.Valid()
    ensures session.maxConnectionRetry == task.maxConnectionRetry && session.store == map[]
    ensures session.filePath
            == Some(Naming.ObjectName(task.pathPrefix, format, task.sequenceFormat, taskIndex, 0, task.fileExt))
    ensures session.file == Some(0) && session.output == Some(0) && session.fileIndex == 0
    ensures session.disk == [Session.LocalFile(session.filePath.value, b1.Data() + b2.Data(), true)]
    ensures b1.released && b2.released
  {
    session := new Session.SwiftFileOutput(task, taskIndex, format);
    var status := session.NextFile(Session.Completes, Session.Completes, Session.Completes);
    status := session.Add(b1, Session.Completes);
    assert [] + b1.Data() == b1.Data();
    status := session.Add(b2, Session.Completes);
  }

  /** When, after that, the first upload attempt puts the object and
      deletes the local file, the task leaves exactly that object, holding
      the two buffers' bytes, and no local file; commit reports success. */
  method StageTwoBuffersAndFinish(task: Session.PluginTask, taskIndex: int, format: Naming.Formatter,
                                  b1: Session.Buffer, b2: Session.Buffer, env: Retry.Environment)
    returns (session: Session.SwiftFileOutput, status: Status, report: Session.TaskReport)
    requires b1.InBounds() && b2.InBounds()
    requires |task.pathPrefix| >= 2
    requires env(0) == Retry.AttemptEnv(None, None, true)
    modifies b1, b2
    ensures status == Ok && report == map[]
    ensures session.store
            == map[Naming.ObjectName(task.pathPrefix, format, task.sequenceFormat, taskIndex, 0, task.fileExt)
                   := b1.Data() + b2.Data()]
    ensures |session.disk| == 1 && !session.disk[0].onDisk
    ensures session.fileIndex == 1
    ensures b1.released && b2.released
  {
    session := StageTwoBuffers(task, taskIndex, format, b1, b2);
    ghost var staged := Session.StageOf(session.file, session.disk);
    assert Retry.Upload(staged, env, session.maxConnectionRetry).outcome == Retry.Uploaded(1);
    var log;
    status, log := session.Finish(Session.Completes, env);
    report := session.Commit();
  }

  /** Two rotations: the second nextFile closes the first stage, so the
      stages are named with fileIndex 0 and 1, and every further close,
      such as the one finish makes and the one Embulk makes after it,
      counts once more. */
  method RotateTwiceThenClose(task: Session.PluginTask, taskIndex: int, format: Naming.Formatter)
    returns (session: Session.SwiftFileOutput, first: string, second: string)
    requires |task.pathPrefix| >= 2
    ensures first == Naming.ObjectName(task.pathPrefix, format, task.sequenceFormat, taskIndex, 0, task.fileExt)
    ensures second == Naming.ObjectName(task.pathPrefix, format, task.sequenceFormat, taskIndex, 1, task.fileExt)
    ensures session.filePath == Some(second) && |session.disk| == 2
    ensures session.fileIndex == 3
  {
    session := new Session.SwiftFileOutput(task, taskIndex, format);
    var status := session.NextFile(Session.Completes, Session.Completes, Session.Completes);
    first := session.filePath.value;
    status := session.NextFile(Session.Completes, Session.Completes, Session.Completes);
    second := session.filePath.value;
    status := session.Close(Session.Completes);
    status := session.Close(Session.Completes);
  }
}

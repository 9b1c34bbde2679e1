/** The asynchronous entry point of the save: it checks the message list,
    runs the synchronous save on a worker, and the finish call reports
    whether the worker left an error. Threads are not modelled: the worker's
    run is a value computed when the save is scheduled. */
module FolderSaveAsync {
  import opened Wrappers
  import opened FolderSave

  /** The result object shared by the worker and the finish call: the error
      the worker recorded, if any. */
  datatype AsyncResult = AsyncResult(error: Option<Error>)

  /** The worker: runs the synchronous save and records the error it left.
      The save's return value is dropped. */
  function SaveMessagesThread(env: Env, dest: Path, uids: seq<Uid>): (res: AsyncResult)
    ensures |uids| > 0 && res.error.None? ==> Save(env, dest, uids).success
  {
    AsyncResult(Save(env, dest, uids).error)
  }

  /** Starts a save. `None`: the list is empty, nothing is scheduled and the
      callback is never invoked. `Some(res)`: the worker was scheduled and
      the callback receives `res`. */
  function SaveMessagesInMaildir(env: Env, dest: Path, uids: seq<Uid>): (scheduled: Option<AsyncResult>)
    ensures scheduled.None? <==> |uids| == 0
  {
    if |uids| == 0 then None else Some(SaveMessagesThread(env, dest, uids))
  }

  /** The return value and the error of the finish call. */
  datatype Finished = Finished(ok: bool, error: Option<Error>)

  /** Completes a save. `cancelled` tells whether the operation's cancellable
      is cancelled when the result is delivered: the result object checks it
      first and then reports the worker's error. */
  function SaveMessagesFinish(res: AsyncResult, cancelled: bool): (r: Finished)
    ensures r.ok <==> r.error.None?
    ensures r.ok <==> !cancelled && res.error.None?
    ensures cancelled ==> r.error == Some(Cancelled)
  {
    if cancelled then Finished(false, Some(Cancelled))
    else
      match res.error
      case Some(e) => Finished(false, Some(e))
      case None => Finished(true, None)
  }

  /** Unless the operation was cancelled, finish succeeds exactly when the
      synchronous save left no error, and it reports that error. */
  lemma FinishReportsWorkerError(env: Env, dest: Path, uids: seq<Uid>)
    requires |uids| > 0
    ensures var r := SaveMessagesFinish(SaveMessagesInMaildir(env, dest, uids).value, false);
            r.error == Save(env, dest, uids).error && (r.ok ==> Save(env, dest, uids).success)
  {
  }

  /** A serialisation failure makes the synchronous save return true, yet
      finish reports the failure, since the worker recorded its error. */
  lemma FinishIgnoresSyncReturn(env: Env, dest: Path, uids: seq<Uid>, k: nat)
    requires k < |uids| && SavesCleanly(env, uids, k)
    requires StepFault(env, uids[k], k).Some? && StepFault(env, uids[k], k).value.stage == Serialize
    ensures Save(env, dest, uids).success
    ensures !SaveMessagesFinish(SaveMessagesInMaildir(env, dest, uids).value, false).ok
  {
    SaveStopsAtFirstFault(env, dest, uids, k);
  }

  /** A save in which nothing fails finishes successfully. */
  lemma FinishAfterCleanSave(env: Env, dest: Path, uids: seq<Uid>)
    requires |uids| > 0 && SavesCleanly(env, uids, |uids|)
    ensures SaveMessagesFinish(SaveMessagesInMaildir(env, dest, uids).value, false) == Finished(true, None)
  {
    SaveWritesEveryMessage(env, dest, uids);
  }
}

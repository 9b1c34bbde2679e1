/** The synchronous save loop. Messages are fetched one by one from a
    folder, normalised, and written as mbox-style records (a From line, the
    From-escaped serialisation, one newline) to a file inside the destination
    directory; progress is reported after each message, and a failure stops
    the loop and may trigger one attempt to delete the destination.

    The folder, the From-line builder, the From-escaping filter and the
    serialiser are parameters; the failures of the calls that can fail
    (including a cancellation, which only shows as such a failure) are
    injected by a per-iteration fault oracle. File-system effects are
    recorded as a trace. */
module FolderSave {
  import opened Wrappers
  import opened MimeTree
  import Progress

  newtype byte = x: int | 0 <= x < 256

  type Bytes = seq<byte>

  /** A message identifier in a folder. */
  type Uid = string

  /** A file-system location, as the sequence of its path components. */
  type Path = seq<string>

  const Newline: byte := 10

  /** The name of the file written inside the destination directory. */
  const MessageFileName: string := "tmp_message_file_name.txt"

  function Child(dir: Path, name: string): Path {
    dir + [name]
  }

  /** The error left behind by a failing call. */
  datatype Error = Cancelled | NoSuchMessage(uid: Uid) | IoError(message: string)

  /** The calls of one iteration that can fail, in the order they are made. */
  datatype Stage = Open | Fetch | WriteFromLine | Serialize | WriteBody

  const Pipeline: seq<Stage> := [Open, Fetch, WriteFromLine, Serialize, WriteBody]

  /** Everything the loop depends on but does not compute itself. */
  datatype Env = Env(
    store: Uid -> Option<Part>,              // the messages of the folder
    faults: (nat, Stage) -> Option<Error>,   // the failure, if any, of a call in iteration i
    fromLine: Part -> Bytes,                 // builds the mbox From line of a message
    fromFilter: Bytes -> Bytes,              // escapes lines that begin with "From "
    serialize: Part -> Bytes)                // writes a message in MIME form

  /** Status reported to the operation: the message pushed at the start,
      each progress percentage, and the pop at the end. */
  datatype Status = PushMessage(count: nat) | ProgressUpdate(percent: nat) | PopMessage

  /** A file-system effect: the message file replaced (truncated), bytes
      appended to it, or a delete attempted. */
  datatype IoEvent = Replace(file: Path) | Write(bytes: Bytes) | Delete(file: Path)

  /** The observable result of a save: the return value, the error left set,
      the file-system effects and the status reports. */
  datatype Run = Run(success: bool, error: Option<Error>, io: seq<IoEvent>, status: seq<Status>)

  /** How one iteration ends: the message was saved, the file could not be
      opened (an immediate return), or the loop is left for the exit path
      with the given value of the success flag. */
  datatype StepEnd = Saved | OpenFailed(error: Error) | Exit(success: bool, error: Error)

  datatype Attempted = Attempted(io: seq<IoEvent>, end: StepEnd)

  /** The effects on the file system that a save may have. */
  predicate Targets(e: IoEvent, dest: Path) {
    match e
    case Replace(file) => file == Child(dest, MessageFileName)
    case Write(_) => true
    case Delete(file) => file == dest
  }

  /** Fetches a message: fails with the injected error, or because the
      folder has no message with that identifier. */
  function FetchMessage(env: Env, uid: Uid, i: nat): (r: Result<Part, Error>)
    ensures r.Success? <==> env.faults(i, Fetch).None? && env.store(uid).Some?
    ensures r.Success? ==> r.value == env.store(uid).value
  {
    match env.faults(i, Fetch)
    case Some(e) => Failure(e)
    case None =>
      match env.store(uid)
      case Some(message) => Success(message)
      case None => Failure(NoSuchMessage(uid))
  }

  /** The bytes appended to the buffer for a message: the From-escaped
      serialisation followed by one newline. */
  function BodyBytes(env: Env, m: Part): Bytes {
    env.fromFilter(env.serialize(m)) + [Newline]
  }

  /** One iteration of the loop, on message `uid` at position `i`, with the
      reusable buffer as it was left by the previous iteration. */
  function Attempt(env: Env, dest: Path, uid: Uid, i: nat, buffer: Bytes): (a: Attempted)
    ensures forall e :: e in a.io ==> Targets(e, dest) && !e.Delete?
  {
    if env.faults(i, Open).Some? then
      Attempted([], OpenFailed(env.faults(i, Open).value))
    else
      var started := [Replace(Child(dest, MessageFileName))];
      match FetchMessage(env, uid, i)
      case Failure(e) => Attempted(started, Exit(false, e))
      case Success(message) =>
        var m := Normalize(message);
        var fromLine := env.fromLine(m);
        if env.faults(i, WriteFromLine).Some? then
          Attempted(started, Exit(false, env.faults(i, WriteFromLine).value))
        else
          var headed := started + [Write(fromLine)];
          if env.faults(i, Serialize).Some? then
            // the success flag still holds the result of the From-line write
            Attempted(headed, Exit(true, env.faults(i, Serialize).value))
          else
            var filled := buffer + BodyBytes(env, m);
            if env.faults(i, WriteBody).Some? then
              Attempted(headed, Exit(false, env.faults(i, WriteBody).value))
            else
              Attempted(headed + [Write(filled)], Saved)
  }

  /** The loop from iteration `i` on, with the effects and status reports of
      the earlier iterations. The buffer is empty at the start of every
      iteration: it is created empty and reset after each saved message. */
  function Loop(env: Env, dest: Path, uids: seq<Uid>, i: nat, io: seq<IoEvent>, status: seq<Status>): (r: Run)
    requires i <= |uids|
    requires forall e :: e in io ==> Targets(e, dest) && !e.Delete?
    ensures io <= r.io && status <= r.status
    ensures |r.status| > |status| && r.status[|r.status| - 1] == PopMessage
    ensures r.error.None? ==> r.success
    ensures forall e :: e in r.io ==> Targets(e, dest)
    ensures forall k :: 0 <= k < |r.io| && r.io[k].Delete? ==> k == |r.io| - 1 && !r.success
    decreases |uids| - i
  {
    if i == |uids| then
      Run(true, None, io, status + [PopMessage])
    else
      var a := Attempt(env, dest, uids[i], i, []);
      match a.end
      case OpenFailed(e) =>
        Run(false, Some(e), io + a.io, status + [PopMessage])
      case Exit(success, e) =>
        Run(success, Some(e), io + a.io + (if success then [] else [Delete(dest)]), status + [PopMessage])
      case Saved =>
        Loop(env, dest, uids, i + 1, io + a.io, status + [ProgressUpdate(Progress.Percent(i, |uids|))])
  }

  /** Saves the messages `uids` of the folder into the directory `dest`.
      An empty list is refused before anything is reported or opened. */
  function Save(env: Env, dest: Path, uids: seq<Uid>): (r: Run)
    ensures |uids| == 0 ==> r == Run(false, None, [], [])
    ensures |uids| > 0 ==> |r.status| >= 2 && r.status[0] == PushMessage(|uids|)
                           && r.status[|r.status| - 1] == PopMessage
    ensures |uids| > 0 && r.error.None? ==> r.success
    ensures forall e :: e in r.io ==> Targets(e, dest)
    ensures forall k :: 0 <= k < |r.io| && r.io[k].Delete? ==> k == |r.io| - 1 && !r.success
  {
    if |uids| == 0 then Run(false, None, [], [])
    else Loop(env, dest, uids, 0, [], [PushMessage(|uids|)])
  }

  // ---------------------------------------------------------------------
  // Reference definitions: what a run is expected to do, stated per message
  // ---------------------------------------------------------------------

  /** The position of a stage in the order the calls are made. */
  function Rank(s: Stage): nat {
    match s
    case Open => 0
    case Fetch => 1
    case WriteFromLine => 2
    case Serialize => 3
    case WriteBody => 4
  }

  /** The error a stage of iteration `i` fails with, if it fails when
      reached. */
  function StageError(env: Env, uid: Uid, i: nat, s: Stage): Option<Error> {
    if s == Fetch then
      match FetchMessage(env, uid, i)
      case Failure(e) => Some(e)
      case Success(_) => None
    else
      env.faults(i, s)
  }

  /** A failure: the stage that failed and its error. */
  datatype Fault = Fault(stage: Stage, error: Error)

  /** The first failing stage of `stages`, which are listed in call order. */
  function FirstFault(env: Env, uid: Uid, i: nat, stages: seq<Stage>): (f: Option<Fault>)
    requires forall a, b :: 0 <= a < b < |stages| ==> Rank(stages[a]) < Rank(stages[b])
    ensures f.None? <==> forall l :: 0 <= l < |stages| ==> StageError(env, uid, i, stages[l]).None?
    ensures f.Some? ==> f.value.stage in stages && StageError(env, uid, i, f.value.stage) == Some(f.value.error)
    ensures f.Some? ==> forall l :: 0 <= l < |stages| && Rank(stages[l]) < Rank(f.value.stage) ==>
                          StageError(env, uid, i, stages[l]).None?
  {
    if |stages| == 0 then None
    else
      match StageError(env, uid, i, stages[0])
      case Some(e) => Some(Fault(stages[0], e))
      case None =>
        var f := FirstFault(env, uid, i, stages[1..]);
        assert f.None? ==> forall l :: 0 <= l < |stages| ==> StageError(env, uid, i, stages[l]).None? by {
          if f.None? {
            forall l | 0 <= l < |stages| ensures StageError(env, uid, i, stages[l]).None? {
              if l > 0 { assert stages[l] == stages[1..][l - 1]; }
            }
          }
        }
        f
  }

  /** The failure that ends iteration `i`, if any: the first call that
      fails, in the order the calls are made. */
  function StepFault(env: Env, uid: Uid, i: nat): (f: Option<Fault>)
    ensures f.None? <==> forall s: Stage :: StageError(env, uid, i, s).None?
    ensures f.Some? ==> StageError(env, uid, i, f.value.stage) == Some(f.value.error)
    ensures f.Some? ==> forall s: Stage :: Rank(s) < Rank(f.value.stage) ==> StageError(env, uid, i, s).None?
    ensures (f.None? || Rank(f.value.stage) > Rank(Fetch)) ==> env.store(uid).Some?
  {
    var f := FirstFault(env, uid, i, Pipeline);
    assert f.None? ==> forall s: Stage :: StageError(env, uid, i, s).None? by {
      if f.None? {
        forall s: Stage ensures StageError(env, uid, i, s).None? {
          assert Pipeline[Rank(s)] == s;
        }
      }
    }
    assert f.Some? ==> forall s: Stage :: Rank(s) < Rank(f.value.stage) ==> StageError(env, uid, i, s).None? by {
      if f.Some? {
        forall s: Stage | Rank(s) < Rank(f.value.stage) ensures StageError(env, uid, i, s).None? {
          assert Pipeline[Rank(s)] == s;
        }
      }
    }
    assert f.None? || Rank(f.value.stage) > Rank(Fetch) ==> StageError(env, uid, i, Fetch).None? by {
      assert Pipeline[1] == Fetch;
    }
    f
  }

  /** The first `k` messages are each fetched and written without failure. */
  predicate SavesCleanly(env: Env, uids: seq<Uid>, k: nat)
    requires k <= |uids|
  {
    forall j :: 0 <= j < k ==> StepFault(env, uids[j], j).None?
  }

  /** A message as it is written: normalised. */
  function Prepared(env: Env, uid: Uid): Part
    requires env.store(uid).Some?
  {
    Normalize(env.store(uid).value)
  }

  /** The effects of saving message `m`: the message file replaced, the From
      line written straight to it, then the buffer written from empty. */
  function RecordIo(env: Env, dest: Path, m: Part): seq<IoEvent> {
    [Replace(Child(dest, MessageFileName)), Write(env.fromLine(m)), Write(BodyBytes(env, m))]
  }

  /** The effects of the first `k` messages when all of them are saved. */
  function SavedIo(env: Env, dest: Path, uids: seq<Uid>, k: nat): (io: seq<IoEvent>)
    requires k <= |uids| && SavesCleanly(env, uids, k)
    ensures |io| == 3 * k
    ensures forall e :: e in io ==> Targets(e, dest) && !e.Delete?
  {
    if k == 0 then []
    else SavedIo(env, dest, uids, k - 1) + RecordIo(env, dest, Prepared(env, uids[k - 1]))
  }

  /** The effects of an iteration that fails at `stage`, before cleanup. */
  function PartialIo(env: Env, dest: Path, uid: Uid, stage: Stage): seq<IoEvent>
    requires Rank(stage) > Rank(Fetch) ==> env.store(uid).Some?
  {
    match stage
    case Open => []
    case Fetch => [Replace(Child(dest, MessageFileName))]
    case WriteFromLine => [Replace(Child(dest, MessageFileName))]
    case Serialize => [Replace(Child(dest, MessageFileName)), Write(env.fromLine(Prepared(env, uid)))]
    case WriteBody => [Replace(Child(dest, MessageFileName)), Write(env.fromLine(Prepared(env, uid)))]
  }

  /** Whether a failure at `stage` leads to the delete attempt: it does for
      the failures that clear the success flag. */
  predicate DeletesOnFailure(stage: Stage) {
    stage == Fetch || stage == WriteFromLine || stage == WriteBody
  }

  /** The progress reported after the first `k` of `n` messages. */
  function ProgressLog(k: nat, n: nat): (log: seq<Status>)
    requires k <= n
    ensures |log| == k
    ensures forall j :: 0 <= j < k ==> log[j] == ProgressUpdate(Progress.Percent(j, n))
  {
    if k == 0 then [] else ProgressLog(k - 1, n) + [ProgressUpdate(Progress.Percent(k - 1, n))]
  }

  /** The bytes in the message file: everything written since it was last
      replaced. The delete is aimed at the destination directory. */
  function FileContents(io: seq<IoEvent>): Bytes {
    if |io| == 0 then []
    else
      match io[|io| - 1]
      case Replace(_) => []
      case Write(b) => FileContents(io[..|io| - 1]) + b
      case Delete(_) => FileContents(io[..|io| - 1])
  }

  // ---------------------------------------------------------------------
  // The loop against the reference
  // ---------------------------------------------------------------------

  /** One iteration does what the first failing stage dictates. */
  lemma AttemptFollowsFault(env: Env, dest: Path, uid: Uid, i: nat)
    ensures var a := Attempt(env, dest, uid, i, []);
            match StepFault(env, uid, i)
            case None => a == Attempted(RecordIo(env, dest, Prepared(env, uid)), Saved)
            case Some(f) =>
              a == Attempted(PartialIo(env, dest, uid, f.stage),
                             if f.stage == Open then OpenFailed(f.error) else Exit(f.stage == Serialize, f.error))
  {
    var f := StepFault(env, uid, i);
    assert StageError(env, uid, i, Open) == env.faults(i, Open);
    assert StageError(env, uid, i, WriteFromLine) == env.faults(i, WriteFromLine);
    assert StageError(env, uid, i, Serialize) == env.faults(i, Serialize);
    assert StageError(env, uid, i, WriteBody) == env.faults(i, WriteBody);
    if f.None? {
      assert StageError(env, uid, i, Fetch).None?;
      assert [] + BodyBytes(env, Prepared(env, uid)) == BodyBytes(env, Prepared(env, uid));
    } else if f.value.stage != Open {
      assert StageError(env, uid, i, Open).None?;
      if Rank(f.value.stage) > Rank(Fetch) {
        assert StageError(env, uid, i, Fetch).None?;
      }
    }
  }

  lemma {:induction false} LoopSavesCleanPrefix(env: Env, dest: Path, uids: seq<Uid>, i: nat, k: nat)
    requires i <= k <= |uids| && SavesCleanly(env, uids, k)
    ensures Loop(env, dest, uids, i, SavedIo(env, dest, uids, i), [PushMessage(|uids|)] + ProgressLog(i, |uids|))
         == Loop(env, dest, uids, k, SavedIo(env, dest, uids, k), [PushMessage(|uids|)] + ProgressLog(k, |uids|))
    decreases k - i
  {
    if i < k {
      AttemptFollowsFault(env, dest, uids[i], i);
      assert [PushMessage(|uids|)] + ProgressLog(i, |uids|) + [ProgressUpdate(Progress.Percent(i, |uids|))]
          == [PushMessage(|uids|)] + ProgressLog(i + 1, |uids|);
      LoopSavesCleanPrefix(env, dest, uids, i + 1, k);
    }
  }

  /** When nothing fails, every message is saved in order, the progress of
      each is reported, no error is left and no delete is attempted. */
  lemma SaveWritesEveryMessage(env: Env, dest: Path, uids: seq<Uid>)
    requires |uids| > 0 && SavesCleanly(env, uids, |uids|)
    ensures Save(env, dest, uids)
         == Run(true, None, SavedIo(env, dest, uids, |uids|),
                [PushMessage(|uids|)] + ProgressLog(|uids|, |uids|) + [PopMessage])
  {
    LoopSavesCleanPrefix(env, dest, uids, 0, |uids|);
    assert ProgressLog(0, |uids|) == [];
    assert [PushMessage(|uids|)] + [] == [PushMessage(|uids|)];
  }

  /** When message `k` is the first to fail, the messages before it are
      saved, its progress is not reported, the error of the failing call is
      left set, the return value is true only for a serialisation failure,
      and the destination is deleted for a fetch or write failure only. */
  lemma SaveStopsAtFirstFault(env: Env, dest: Path, uids: seq<Uid>, k: nat)
    requires k < |uids| && SavesCleanly(env, uids, k) && StepFault(env, uids[k], k).Some?
    ensures var f := StepFault(env, uids[k], k).value;
            Save(env, dest, uids)
              == Run(f.stage == Serialize, Some(f.error),
                     SavedIo(env, dest, uids, k) + PartialIo(env, dest, uids[k], f.stage)
                       + (if DeletesOnFailure(f.stage) then [Delete(dest)] else []),
                     [PushMessage(|uids|)] + ProgressLog(k, |uids|) + [PopMessage])
  {
    LoopSavesCleanPrefix(env, dest, uids, 0, k);
    assert ProgressLog(0, |uids|) == [];
    assert [PushMessage(|uids|)] + [] == [PushMessage(|uids|)];
    AttemptFollowsFault(env, dest, uids[k], k);
  }

  /** Whatever came before, a replace followed by two writes leaves the
      file holding exactly the two writes. */
  lemma FileAfterReplace(prev: seq<IoEvent>, file: Path, a: Bytes, b: Bytes)
    ensures FileContents(prev + [Replace(file), Write(a), Write(b)]) == a + b
  {
    var replaced := prev + [Replace(file)];
    var headed := replaced + [Write(a)];
    var io := headed + [Write(b)];
    assert prev + [Replace(file), Write(a), Write(b)] == io;
    assert io[..|io| - 1] == headed;
    assert headed[..|headed| - 1] == replaced;
    assert FileContents(replaced) == [];
    assert FileContents(headed) == [] + a;
  }

  /** The message file is replaced at the start of every iteration, so after
      a clean save it holds the record of the last message only: its From
      line, its From-escaped serialisation and one newline. */
  lemma FileHoldsLastRecord(env: Env, dest: Path, uids: seq<Uid>)
    requires |uids| > 0 && SavesCleanly(env, uids, |uids|)
    ensures var m := Prepared(env, uids[|uids| - 1]);
            FileContents(Save(env, dest, uids).io) == env.fromLine(m) + env.fromFilter(env.serialize(m)) + [Newline]
  {
    SaveWritesEveryMessage(env, dest, uids);
    var n := |uids|;
    var m := Prepared(env, uids[n - 1]);
    FileAfterReplace(SavedIo(env, dest, uids, n - 1), Child(dest, MessageFileName), env.fromLine(m), BodyBytes(env, m));
  }

  /** The reported percentages stay within 0..100, never decrease, and the
      last message of a complete save reports exactly 100. */
  lemma ProgressLogShape(k: nat, n: nat)
    requires k <= n
    ensures forall j :: 0 <= j < k ==> ProgressLog(k, n)[j].percent <= 100
    ensures forall a, b :: 0 <= a <= b < k ==> ProgressLog(k, n)[a].percent <= ProgressLog(k, n)[b].percent
    ensures k == n > 0 ==> ProgressLog(k, n)[k - 1] == ProgressUpdate(100)
    ensures forall j :: 0 <= j < k - 1 ==> ProgressLog(k, n)[j].percent < 100
  {
    var log := ProgressLog(k, n);
    forall a, b | 0 <= a <= b < k ensures log[a].percent <= log[b].percent {
      Progress.PercentMonotone(a, b, n);
    }
  }

  /** Three messages report 33, 66 and 100: the percentage is rounded down. */
  lemma ThreeMessagesProgress()
    ensures ProgressLog(3, 3) == [ProgressUpdate(33), ProgressUpdate(66), ProgressUpdate(100)]
  {
  }
}

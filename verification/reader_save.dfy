/** The "save messages" command of the mail reader: it takes the selected
    messages, suggests a title and a file name for the destination dialog,
    starts the asynchronous save when a destination is chosen, and turns the
    completion into a cancellation, an alert or nothing. The dialog, the
    message list's sort order and the folder's message summaries are
    parameters. */
module ReaderSave {
  import opened Wrappers
  import opened FolderSave
  import opened FolderSaveAsync

  /** The summary the folder keeps for a message. */
  datatype MessageInfo = MessageInfo(subject: Option<string>)

  const MaildirSuffix: string := ".maildir"
  const MboxSuffix: string := ".mbox"

  /** The identifier of the alert shown when a save fails. */
  const SaveMessagesAlertId: string := "mail:save-messages"

  /** The dialog title; English plural rule. */
  function SaveTitle(count: nat): (title: string)
    ensures title == "Save Message" <==> count == 1
    ensures title == "Save Message" || title == "Save Messages"
  {
    if count == 1 then "Save Message" else "Save Messages"
  }

  /** The subject of a message, when its summary exists and has one. */
  function SubjectOf(info: Option<MessageInfo>): Option<string> {
    if info.Some? then info.value.subject else None
  }

  predicate EndsWith(s: string, suffix: string) {
    |suffix| <= |s| && s[|s| - |suffix|..] == suffix
  }

  /** The file name suggested for the destination: the subject of the first
      message with ".maildir" appended, or a generic mbox name when there is
      no subject. */
  function SuggestFilename(info: Option<MessageInfo>, count: nat): (name: string)
    ensures SubjectOf(info).Some? <==> EndsWith(name, MaildirSuffix)
    ensures SubjectOf(info).None? ==> name == (if count == 1 then "Message.mbox" else "Messages.mbox")
  {
    match SubjectOf(info)
    case Some(subject) => subject + MaildirSuffix
    case None =>
      var name := (if count == 1 then "Message" else "Messages") + MboxSuffix;
      assert name[|name| - 1] == 'x' && MaildirSuffix[|MaildirSuffix| - 1] == 'r';
      assert !EndsWith(name, MaildirSuffix) by {
        if |MaildirSuffix| <= |name| {
          var tail := name[|name| - |MaildirSuffix|..];
          assert tail[|tail| - 1] == 'x';
        }
      }
      name
  }

  /** Reads the subject back out of a suggested file name. */
  function SubjectFromSuggestion(name: string): Option<string> {
    if EndsWith(name, MaildirSuffix) then Some(name[..|name| - |MaildirSuffix|]) else None
  }

  /** A suggestion determines the subject it was made from. */
  lemma SuggestionRoundTrip(info: Option<MessageInfo>, count: nat)
    ensures SubjectFromSuggestion(SuggestFilename(info, count)) == SubjectOf(info)
  {
    if SubjectOf(info).Some? {
      var name := SuggestFilename(info, count);
      assert name[..|name| - |MaildirSuffix|] == SubjectOf(info).value;
    }
  }

  /** The selection in the order it is saved: sorted by the message list
      when it holds more than one message, as selected otherwise. */
  function SaveOrder(selected: seq<Uid>, sortUids: seq<Uid> -> seq<Uid>): (uids: seq<Uid>)
    requires |selected| > 1 ==> multiset(sortUids(selected)) == multiset(selected)
    ensures multiset(uids) == multiset(selected) && |uids| == |selected|
    ensures |selected| <= 1 ==> uids == selected
  {
    var uids := if |selected| > 1 then sortUids(selected) else selected;
    assert |multiset(uids)| == |multiset(selected)|;
    uids
  }

  /** What the command does. */
  datatype Command =
    | Refused                                       // nothing selected
    | Dismissed(title: string, suggestion: string)  // the dialog returned no destination
    | Scheduled(title: string, suggestion: string, uids: seq<Uid>, destination: Path)

  /** Runs the save command on a selection. An empty selection is refused
      before any dialog; a dismissed dialog starts nothing; otherwise the
      (sorted) selection is saved into the chosen destination. */
  function SaveMessagesCommand(
    selected: seq<Uid>,
    sortUids: seq<Uid> -> seq<Uid>,
    infoOf: Uid -> Option<MessageInfo>,
    dialog: (string, string) -> Option<Path>): (c: Command)
    requires |selected| > 1 ==> multiset(sortUids(selected)) == multiset(selected)
    ensures c.Refused? <==> |selected| == 0
    ensures !c.Refused? ==> c.title == SaveTitle(|selected|)
    ensures !c.Refused? ==> c.suggestion == SuggestFilename(infoOf(SaveOrder(selected, sortUids)[0]), |selected|)
    ensures !c.Refused? ==> (c.Scheduled? <==> dialog(c.title, c.suggestion).Some?)
    ensures c.Scheduled? ==> c.uids == SaveOrder(selected, sortUids) && c.destination == dialog(c.title, c.suggestion).value
  {
    if |selected| == 0 then Refused
    else
      var uids := SaveOrder(selected, sortUids);
      var title := SaveTitle(|uids|);
      var suggestion := SuggestFilename(infoOf(uids[0]), |uids|);
      match dialog(title, suggestion)
      case None => Dismissed(title, suggestion)
      case Some(destination) => Scheduled(title, suggestion, uids, destination)
  }

  /** An alert shown to the user. */
  datatype Alert = Alert(id: string, error: Error)

  /** The completion's effect: whether the activity is marked cancelled, and
      the alerts submitted. */
  datatype Reaction = Reaction(activityCancelled: bool, alerts: seq<Alert>)

  /** The completion callback: a cancellation only marks the activity, any
      other error is shown in one alert, and success shows nothing. */
  function SaveMessagesDone(finished: Finished): (r: Reaction)
    ensures r.activityCancelled <==> finished.error == Some(Cancelled)
    ensures |r.alerts| <= 1
    ensures |r.alerts| == 1 <==> finished.error.Some? && finished.error.value != Cancelled
    ensures |r.alerts| == 1 ==> r.alerts[0] == Alert(SaveMessagesAlertId, finished.error.value)
  {
    match finished.error
    case None => Reaction(false, [])
    case Some(Cancelled) => Reaction(true, [])
    case Some(e) => Reaction(false, [Alert(SaveMessagesAlertId, e)])
  }

  /** The outcome of a save as the user sees it. */
  function Observe(env: Env, c: Command, cancelled: bool): Option<Reaction>
    requires c.Scheduled? ==> |c.uids| > 0
  {
    if c.Scheduled? then
      Some(SaveMessagesDone(SaveMessagesFinish(SaveMessagesInMaildir(env, c.destination, c.uids).value, cancelled)))
    else None
  }

  /** A scheduled command always reaches the completion callback, and the
      user sees an alert exactly when the save left an error other than a
      cancellation and the operation was not cancelled afterwards. */
  lemma ScheduledSaveAlertsOnError(
    selected: seq<Uid>,
    sortUids: seq<Uid> -> seq<Uid>,
    infoOf: Uid -> Option<MessageInfo>,
    dialog: (string, string) -> Option<Path>,
    env: Env,
    cancelled: bool)
    requires |selected| > 1 ==> multiset(sortUids(selected)) == multiset(selected)
    ensures var c := SaveMessagesCommand(selected, sortUids, infoOf, dialog);
            c.Scheduled? ==>
              var err := Save(env, c.destination, c.uids).error;
              && SaveMessagesInMaildir(env, c.destination, c.uids).Some?
              && (|Observe(env, c, cancelled).value.alerts| == 1 <==> !cancelled && err.Some? && err.value != Cancelled)
  {
  }

  /** A message whose serialisation fails leaves the synchronous save
      returning true, yet the user is shown the failure. */
  lemma SerializeFailureIsAlerted(env: Env, dest: Path, uids: seq<Uid>, k: nat)
    requires k < |uids| && SavesCleanly(env, uids, k)
    requires StepFault(env, uids[k], k).Some? && StepFault(env, uids[k], k).value.stage == Serialize
    requires StepFault(env, uids[k], k).value.error != Cancelled
    ensures Save(env, dest, uids).success
    ensures SaveMessagesDone(SaveMessagesFinish(SaveMessagesInMaildir(env, dest, uids).value, false)).alerts
         == [Alert(SaveMessagesAlertId, StepFault(env, uids[k], k).value.error)]
  {
    SaveStopsAtFirstFault(env, dest, uids, k);
  }
}

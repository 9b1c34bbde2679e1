# Saving mail messages to a maildir destination: a Dafny model

This project models the "save messages" feature of an Evolution mail plugin.
The feature has two parts.

- The engine side (`src/libemail-engine/m-mail-folder-utils.c`) does the work.
  It normalises each message's MIME tree so that every textual part is written
  with 8-bit transfer encoding. The synchronous save loop fetches each message
  from a Camel folder and writes an mbox-style record for it into a file inside
  the destination directory. A record, in the mbox style of RFC 4155,
  Appendix A, is a From line, the From-escaped
  serialisation and one newline. The loop reports progress and cleans up on
  failure. An asynchronous wrapper runs that loop on a worker, and a finish call
  reports its outcome.
- The reader side (`src/mail/m-mail-reader-utils.c`) turns the selection into a
  dialog title and a file-name suggestion. It starts the save when a destination
  is chosen. When the save completes, it shows a cancellation, an alert or
  nothing.

Modules:

- `Wrappers`: `Option` and `Result`.
- `MimeTree`: the part tree (`Part(encoding, Content)` with `Content = NoContent | Multipart | Embedded | Leaf`) and the normaliser `Normalize`.
- `Progress`: the percentage reported after each message. It comes in two forms: `Percent` on unbounded integers, and `PercentAsWritten`, which wraps at 32 bits as the C code does.
- `FolderSave`: the synchronous save as a fold over the identifiers.
  - The folder is `store: Uid -> Option<Part>`.
  - The From-line builder, the From-escaping filter and the serialiser are function parameters.
  - Failures of the open, fetch, write and serialise calls come from a per-iteration oracle `faults(i, stage)`. That oracle is also how a cancellation shows up.
  - A run yields the return value, the error left set, a trace of file-system effects (`Replace`, `Write`, `Delete`) and the status reports (`PushMessage`, `ProgressUpdate`, `PopMessage`).
  - The reference definitions `StepFault` (the first failing call of an iteration), `SavedIo` and `ProgressLog` describe the expected run per message. The lemmas equate the fold with them.
- `FolderSaveAsync`: scheduling, the worker, and the finish call.
- `ReaderSave`: the title, the file-name suggestion, the command, and the completion callback.

Behaviour that the model follows from the code:

- The message file `tmp_message_file_name.txt` is replaced at the start of every iteration. After a clean save it therefore holds only the last message's record (`FolderSave.FileHoldsLastRecord`).
- The percentage is rounded down and is only non-decreasing. With more than 100 messages, consecutive values can be equal. Three messages give 33, 66, 100.
- There is no cancellation check between messages. A cancellation is only visible as the error of a failing call.
- A serialisation failure leaves the loop with the success flag still true. The synchronous save then returns true and deletes nothing. The worker still records the error, so the finish call and the user see a failure.
- The cleanup delete is aimed at the destination directory, not at the file that was written.

## Model

| member | source | states |
|---|---|---|
| MimeTree.Normalize | src/libemail-engine/m-mail-folder-utils.c:61-94 | the result has every textual leaf (media type `text`, compared case-insensitively) in 8-bit at any depth through multiparts and embedded messages, and agrees with the input everywhere else: shape, content types, non-text leaf encodings, the encodings of multipart and embedded-message parts, and parts with no content |
| MimeTree.NormalizeUnique | src/libemail-engine/m-mail-folder-utils.c:61-94 | any tree that agrees with the input and has all textual leaves in 8-bit is exactly the normaliser's output |
| MimeTree.NormalizeCharacterized | src/libemail-engine/m-mail-folder-utils.c:61-94 | `Normalize(p) == q` holds exactly when q agrees with p and has all textual leaves in 8-bit |
| MimeTree.NormalizeFixedPoint | src/libemail-engine/m-mail-folder-utils.c:68-93 | a tree is left unchanged exactly when its textual leaves are already 8-bit |
| MimeTree.NormalizeIdempotent | src/libemail-engine/m-mail-folder-utils.c:61-94 | normalising twice gives the same tree as normalising once |
| Progress.Percent | src/libemail-engine/m-mail-folder-utils.c:215 | the progress after message i of n is the floor of (i+1)*100/n: it lies in 0..100 and equals 100 exactly for the last message |
| Progress.PercentMonotone | src/libemail-engine/m-mail-folder-utils.c:215 | the progress of a later message is never below that of an earlier one |
| Progress.PercentAsWritten | src/libemail-engine/m-mail-folder-utils.c:215 | the value computed with the product in 32-bit unsigned arithmetic stays at most 100 |
| Progress.PercentAsWrittenExact | src/libemail-engine/m-mail-folder-utils.c:215 | for up to 42,949,672 messages the 32-bit value equals the exact one |
| Progress.PercentAsWrittenWraps | src/libemail-engine/m-mail-folder-utils.c:215 | with 42,949,673 messages the second-to-last message reports 99 and the last reports 0, where the exact value is 100 |
| FolderSave.FetchMessage | src/libemail-engine/m-mail-folder-utils.c:161-168 | a fetch succeeds exactly when no failure is injected and the folder has the message, and then yields that message |
| FolderSave.Attempt | src/libemail-engine/m-mail-folder-utils.c:136-222 | one iteration only replaces the child file `tmp_message_file_name.txt` of the destination or writes bytes; it never deletes |
| FolderSave.Loop | src/libemail-engine/m-mail-folder-utils.c:125-239 | the loop keeps earlier effects and reports, always ends with the status pop, leaves an error whenever it returns false, and attempts a delete only as its last effect and only when returning false |
| FolderSave.Save | src/libemail-engine/m-mail-folder-utils.c:96-240 | an empty list returns false with no status report, no file effect and no error; otherwise the status push of the count comes first and the pop last, no error implies true, only the child file is replaced, and at most one delete is attempted, on the destination, as the last effect, and only when returning false |
| FolderSave.StepFault | src/libemail-engine/m-mail-folder-utils.c:136-213 | the failure ending an iteration is the first failing call in call order (open, fetch, From-line write, serialisation, buffer write), and a message got past the fetch only if the folder has it |
| FolderSave.AttemptFollowsFault | src/libemail-engine/m-mail-folder-utils.c:136-222 | without a failure an iteration replaces the file, writes the From line, then writes the From-escaped serialisation plus one newline from an empty buffer; with one it stops after what precedes the failing call |
| FolderSave.SaveWritesEveryMessage | src/libemail-engine/m-mail-folder-utils.c:113-240 | when nothing fails, each message's record is written in order, each message's progress is reported after its buffer write, the result is true with no error, and no delete is attempted |
| FolderSave.SaveStopsAtFirstFault | src/libemail-engine/m-mail-folder-utils.c:136-239 | when message k fails first, messages before k are saved and nothing after k is touched, k's progress is not reported, the failing call's error is left set, and the result is true only for a serialisation failure. One delete of the destination follows a fetch, From-line or buffer-write failure; an open or serialisation failure deletes nothing |
| FolderSave.FileHoldsLastRecord | src/libemail-engine/m-mail-folder-utils.c:136-208 | after a clean save the message file holds only the last message's From line, its From-escaped serialisation and one newline |
| FolderSave.ProgressLogShape | src/libemail-engine/m-mail-folder-utils.c:205-216 | the reported percentages lie in 0..100 and never decrease; only the last message of a complete save reports 100 |
| FolderSave.ThreeMessagesProgress | src/libemail-engine/m-mail-folder-utils.c:215 | three messages report 33, 66 and 100 |
| FolderSaveAsync.SaveMessagesThread | src/libemail-engine/m-mail-folder-utils.c:42-58 | the worker records no error only if the synchronous save of a non-empty list returned true |
| FolderSaveAsync.SaveMessagesInMaildir | src/libemail-engine/m-mail-folder-utils.c:242-279 | nothing is scheduled, so the callback is never invoked, exactly when the list is empty |
| FolderSaveAsync.SaveMessagesFinish | src/libemail-engine/m-mail-folder-utils.c:281-297 | finish succeeds exactly when the operation is not cancelled at delivery and the worker recorded no error, and a cancellation at delivery is reported as the cancelled error |
| FolderSaveAsync.FinishReportsWorkerError | src/libemail-engine/m-mail-folder-utils.c:52-57 | unless cancelled at delivery, finish reports exactly the error the synchronous save left |
| FolderSaveAsync.FinishIgnoresSyncReturn | src/libemail-engine/m-mail-folder-utils.c:191-201 | after a serialisation failure the synchronous save returns true but finish reports failure |
| FolderSaveAsync.FinishAfterCleanSave | src/libemail-engine/m-mail-folder-utils.c:295-296 | a save in which nothing fails finishes with true and no error |
| ReaderSave.SaveTitle | src/mail/m-mail-reader-utils.c:140 | the title is "Save Message" exactly when one message is selected, "Save Messages" otherwise |
| ReaderSave.SuggestFilename | src/mail/m-mail-reader-utils.c:142-163 | the suggestion ends in ".maildir" exactly when the first message's summary exists and has a subject; otherwise it is "Message.mbox" for one message and "Messages.mbox" for more |
| ReaderSave.SuggestionRoundTrip | src/mail/m-mail-reader-utils.c:143-151 | stripping ".maildir" from the suggestion gives back the subject it was made from |
| ReaderSave.SaveOrder | src/mail/m-mail-reader-utils.c:131-138 | the saved list is a permutation of the selection, and a single selected message is kept as is |
| ReaderSave.SaveMessagesCommand | src/mail/m-mail-reader-utils.c:125-189 | an empty selection is refused before any dialog; otherwise the title and the suggestion come from the count and from index 0 of the ordered list, and a save of the ordered list into the chosen destination is scheduled exactly when the dialog returns one |
| ReaderSave.SaveMessagesDone | src/mail/m-mail-reader-utils.c:76-106 | a cancellation only marks the activity cancelled, any other error yields exactly one `mail:save-messages` alert carrying it, and success yields nothing |
| ReaderSave.ScheduledSaveAlertsOnError | src/mail/m-mail-reader-utils.c:91-103 | a scheduled command always reaches the callback, and the user sees an alert exactly when the save left a non-cancellation error and the operation was not cancelled at delivery |
| ReaderSave.SerializeFailureIsAlerted | src/libemail-engine/m-mail-folder-utils.c:191-201 | a serialisation failure makes the synchronous save return true, yet the user gets the alert carrying its error |

## Left out

- FolderSave.Save: progress is computed with the exact `Progress.Percent`, not the 32-bit `Progress.PercentAsWritten`. The two are equal for up to 42,949,672 messages (`Progress.PercentAsWrittenExact`); see Findings.
- The From-line builder, the From-escaping filter and the MIME serialiser are function parameters, because they are Camel library calls. The message store is one too.
- A failed write is modelled as writing nothing, because the partial count of `g_output_stream_write_all` is discarded by the code.
- The check that the From line is not NULL (`m-mail-folder-utils.c:173`) is not modelled, because the builder always returns a line. If it fired, the function would return without popping the status or deleting.
- The case where the content type is missing in `camel_content_type_is` is not modelled, because data wrappers always carry a type. The media-type comparison is modelled as ASCII case-insensitive.
- Threads, the worker's priority and GCancellable internals are not modelled. The worker's run is a value, and cancellation is an injected error. The cancellable checked at result delivery is a boolean argument of `SaveMessagesFinish`.
- Reference counting and leaks are not modelled. For example, an output stream opened in an earlier iteration is never closed.
- Translation with `ngettext` is not modelled. English singular and plural are chosen by `count == 1`.
- `e_util_make_safe_filename` and the file chooser (`src/shell/m-shell-utils.c`) are not modelled. The dialog is a function parameter from (title, suggestion) to an optional destination.
- The message list's sort is a function parameter that must permute the selection. The `GtkAction` wiring in `src/m-mail-ui.c` and the plugin registration files are UI and loading glue.
- `src/libemail-engine/m-mail-folder-utils.h` only holds declarations, and its names do not match the definitions.

## Findings

| source | as written | input that shows it | evidently intended | confidence | as-written member | corrected member |
|---|---|---|---|---|---|---|
| src/libemail-engine/m-mail-folder-utils.c:215 | `(ii + 1) * 100` is computed in 32-bit unsigned arithmetic and wraps before the division | a selection of 42,949,673 messages: the second-to-last message reports 99 and the last reports 0 | the floor of (ii+1)*100/len, non-decreasing and reaching 100 on the last message | not executed; medium, needs more than 42.9 million messages | Progress.PercentAsWritten, Progress.PercentAsWrittenWraps | Progress.Percent, Progress.PercentMonotone |

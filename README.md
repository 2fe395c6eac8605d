# Helium tool core: worker client, thumbnail queue, semaphore, colour codec, file-dialog filters

This project is a Dafny model of six pieces of sequential logic from the Helium tools code base, with
proofs of what each piece promises:

- **Worker client** (`Worker::Client`). A worker process holds one global IPC connection to its manager.
  - `Initialize` names the channel after the process id and polls until the connection is active. It registers the console, shutdown and terminate hooks only on success.
  - `Send` and the console hook create a message and hand it to the connection; they delete it when the send is not accepted.
  - `Receive` polls once, or keeps polling while the connection stays active.
  - `Cleanup` deletes the connection once.
  - The connection is modelled with an open (nondeterministic) transport. A ghost owner on every message lets the verifier check that a message the client created is either accepted by the transport or deleted, exactly once.
- **Thumbnail loader queue** (`Luna::ThumbnailLoader`). `Load` moves files to the front of a duplicate-free ordered queue and signals a semaphore once per new file. The loader thread's dequeue step takes the front file. `Stop` cancels everything queued, and the destructor makes the thread quit. The semaphore count tracks the queue length.
- **Semaphore** (`Platform::Semaphore`), modelled as a counter bounded by 0x7fffffff.
- **Custom colours** (`UIToolKit::CustomColors`). `Save` writes sixteen colours as `#`-separated `RRGGBB` fields, and `Load` reads them back.
- **File dialog filter table** (`UIToolKit::FileDialog`). `display|mask` token pairs go into an insertion-ordered set, which is joined into the dialog's wild card. The model also covers the filter-index search, the style query and the cached selection.
- **File dialog button filters** (`Inspect::FileDialogButton`). A sorted set of filters is joined into the dialog's filter string. The button's title, path and attribute dispatch are modelled too.

The files:

| file | module | models |
|---|---|---|
| types.dfy | Types | 8- and 32-bit unsigned integers, Option |
| tokenizer.dfy | Tokenizer | splitting a string at a one-character delimiter (`Tokenize`), and joining fields with it |
| ordered_sets.dfy | OrderedSets | the platform's insertion-ordered set (`Remove`, `Append`) as a duplicate-free sequence |
| sorted_sets.dfy | SortedSets | `std::set<std::string>` as a strictly ascending sequence |
| semaphore.dfy | Platform | the semaphore |
| thumbnail_loader.dfy | Luna | the thumbnail loader's queue bookkeeping |
| custom_colors.dfy | CustomColors | the colour codec |
| file_dialog.dfy | UIToolKit | the file dialog's filter table |
| file_dialog_button.dfy | InspectFile | the file dialog button |
| ipc.dfy | IPC | the connection and message interface the worker client uses |
| worker_client.dfy | Worker | the worker client |

Mutable objects are classes: the semaphore, the loader, the colour data, the dialog, the button, the connection, the messages and the client. Their methods carry `modifies` frames and ensures clauses that give the new state in terms of specification functions. Lemmas then prove the properties of those functions.

## Model

| member | source | states |
|---|---|---|
| Platform.Semaphore.constructor | Platform/Semaphore_Win32.cpp:11-19 | a new semaphore holds count 0, within the maximum 0x7fffffff |
| Platform.Semaphore.Increment | Platform/Semaphore_Win32.cpp:31-40 | the count rises by exactly one when it is below the maximum; otherwise the release fails and the count is unchanged |
| Platform.Semaphore.Decrement | Platform/Semaphore_Win32.cpp:42-50 | only possible with a positive count; lowers it by exactly one |
| Platform.Semaphore.Reset | Platform/Semaphore_Win32.cpp:52-67 | count 0 whatever it was, the state of a new semaphore |
| Platform.CountAfterIncrements | Platform/Semaphore_Win32.cpp:31-40 | defined as n single releases, each adding one below the maximum and failing at it; proved to leave min(c + n, maximum), never above the maximum |
| OrderedSets.Without | Utilities/Luna/Browser/ThumbnailLoader.cpp:173 | Remove keeps every other element, drops the removed one, and changes nothing when the element is absent |
| OrderedSets.Appended | UIToolKit/FileDialog.cpp:237 | Append holds exactly the old elements and the new one, keeps the old ones as a prefix, and grows by one exactly when the element was absent |
| OrderedSets.AppendedAllKeepsNoDuplicates | UIToolKit/FileDialog.cpp:230-238 | appending a run of elements to an ordered set never creates a duplicate, keeps the old elements as a prefix, and holds exactly the old and the new elements |
| Luna.ThumbnailLoader.constructor | Utilities/Luna/Browser/ThumbnailLoader.cpp:149-156 | empty queue, a new zero-count semaphore, quit flag clear, nothing raised |
| Luna.ThumbnailLoader.Load | Utilities/Luna/Browser/ThumbnailLoader.cpp:165-180 | the queue becomes LoadedQueue(old queue, files); the count grows by one per file not queued before, capped at the maximum; count = queue length is preserved while the queue fits the maximum |
| Luna.LoadedQueueOrder | Utilities/Luna/Browser/ThumbnailLoader.cpp:169-174 | after Load the queue is the distinct files in first-occurrence order, then the old entries not among the files in their old order |
| Luna.LoadedQueueNoDuplicates | Utilities/Luna/Browser/ThumbnailLoader.cpp:173-174 | the queue never holds a file twice and holds exactly the old entries and the loaded files |
| Luna.ReloadMovesToFront | Utilities/Luna/Browser/ThumbnailLoader.cpp:173-174 | re-loading a queued file only moves it to the front; the length is unchanged |
| Luna.LoadedQueueGrowth | Utilities/Luna/Browser/ThumbnailLoader.cpp:173-178 | the queue grows by exactly the number of loaded files that were not queued, the number of increments Load makes |
| Luna.Cancellations | Utilities/Luna/Browser/ThumbnailLoader.cpp:190-197 | one cancelled result per file, in queue order |
| Luna.ThumbnailLoader.CancelQueued | Utilities/Luna/Browser/ThumbnailLoader.cpp:190-197 | the queue ends empty and one cancelled result per file of the old queue was raised, front to back |
| Luna.ThumbnailLoader.Stop | Utilities/Luna/Browser/ThumbnailLoader.cpp:182-200 | an empty queue raises nothing and leaves the semaphore alone; otherwise one cancelled result per queued file front to back, an empty queue and count 0 |
| Luna.ThumbnailLoader.Step | Utilities/Luna/Browser/ThumbnailLoader.cpp:20-91 | takes one permit; on quit it only leaves; with an empty queue it continues; otherwise it removes exactly the front file and raises an uncancelled result for it; a loader whose count equals its queue length never finds the queue empty and stays so |
| Luna.ThumbnailLoader.Destroy | Utilities/Luna/Browser/ThumbnailLoader.cpp:158-163 | the quit flag is set before the one increment, so the thread's next step is Quit and the queue is left alone |
| CustomColors.GetDefaultRegistryKey | UIToolKit/CustomColors.cpp:19-22 | the key is "CustomColors" |
| CustomColors.Field | UIToolKit/CustomColors.cpp:40-45 | a valid colour is written as six upper-case hex digits, an invalid one as an empty field, neither containing the delimiter |
| CustomColors.SerializedFields | UIToolKit/CustomColors.cpp:33-46 | the saved string splits back into exactly one field per colour: NumColors - 1 delimiters, none leading or trailing |
| CustomColors.Save | UIToolKit/CustomColors.cpp:29-49 | the loop's result is the colours' fields joined by `#` |
| CustomColors.Load | UIToolKit/CustomColors.cpp:56-79 | the table after Load is Loaded(old table, info) |
| CustomColors.LoadedFrame | UIToolKit/CustomColors.cpp:58-68 | an empty string, slots at or beyond NumColors or beyond the tokens, and tokens shorter than six characters leave the slot as it was |
| CustomColors.ScanColour | UIToolKit/CustomColors.cpp:70-75 | the scan always gives a colour; a token that does not start with a hex digit gives black, as the three components start at 0; two leading hex digits give the red byte |
| CustomColors.ScanHexTriple | UIToolKit/CustomColors.cpp:70-75 | a token starting with six hex digits loads the colour of its three two-digit bytes |
| CustomColors.ScanField | UIToolKit/CustomColors.cpp:73-75 | scanning a saved field gives the colour back |
| CustomColors.SavedTokens | UIToolKit/CustomColors.cpp:29-61 | splitting the saved string gives each colour's field in its own slot, at most NumColors tokens, and every valid colour has its token |
| CustomColors.LoadSave | UIToolKit/CustomColors.cpp:29-79 | Load(Save(c)) restores each valid colour and leaves the slot of each invalid colour as it was |
| CustomColors.LoadSaveAllValid | UIToolKit/CustomColors.cpp:29-79 | when every colour is valid, Load(Save(c)) gives back c exactly |
| Tokenizer.Tokenize | UIToolKit/FileDialog.cpp:224 | no token contains the delimiter; the empty string gives one empty token; a string ending in the delimiter gives its fields without the empty one after that delimiter, any other string gives exactly its fields |
| Tokenizer.TokenizeJoin | UIToolKit/CustomColors.cpp:61 | splitting joined delimiter-free fields gives the fields back, except an empty last field |
| UIToolKit.FileDialog.constructor | UIToolKit/FileDialog.cpp:26-71 | the style is kept and the table is set from the wild card as SetFilter does; on an odd token count the table is empty and the wild card is kept as given |
| UIToolKit.FileDialog.IsMultipleSelectionEnabled | UIToolKit/FileDialog.cpp:114-117 | holds exactly when every Multiple bit is set in the style |
| UIToolKit.FileDialog.GetFilePath | UIToolKit/FileDialog.cpp:155-166 | the empty string when no path is stored, else the least stored path |
| UIToolKit.FileDialog.SetFilter | UIToolKit/FileDialog.cpp:186-190 | the table becomes what AddFilter builds from an empty table, so it depends only on the new string |
| UIToolKit.FileDialog.FindFilterIndex | UIToolKit/FileDialog.cpp:194-207 | the position of the first entry equal to the argument, or 0 when there is none |
| UIToolKit.FileDialog.SetFilterIndex | UIToolKit/FileDialog.cpp:194-210 | selects that position in the dialog |
| UIToolKit.FileDialog.AddFilter | UIToolKit/FileDialog.cpp:221-241 | an odd token count changes nothing, not even the wild card, and the empty filter is such a case (UIToolKit.EmptyFilterTokens); otherwise each pair is appended as display, bar, mask in order, then UpdateFilter runs |
| UIToolKit.EmptyFilterTokens | UIToolKit/FileDialog.cpp:224-227 | the empty filter string splits into one (empty) token, an odd count, so AddFilter returns before UpdateFilter |
| UIToolKit.Pairs | UIToolKit/FileDialog.cpp:229-236 | defined two tokens at a time as the loop steps; proved to have half as many entries as tokens, entry k being token 2k, a bar, token 2k+1 |
| UIToolKit.AddedFiltersShape | UIToolKit/FileDialog.cpp:229-250 | the table after AddFilter has no duplicates, keeps its old entries as a prefix, and holds exactly the old, the paired and (with the style bit) the all-files entries |
| UIToolKit.FileDialog.UpdateFilter | UIToolKit/FileDialog.cpp:245-270 | the all-files entry is appended when ShowAllFilesFilter is set; the wild card is the entries joined by bars |
| UIToolKit.WildcardShape | UIToolKit/FileDialog.cpp:252-268 | the wild card is empty exactly when there are no entries, else it starts with the first entry and ends with the last: no separator leads or trails |
| SortedSets.Insert | Libraries/InspectFile/FileDialogButton.cpp:146 | std::set::insert holds exactly the old elements and the new one, with at most one more element |
| SortedSets.InsertSorted | Libraries/InspectFile/FileDialogButton.cpp:146 | inserting into a strictly sorted set keeps it strictly sorted |
| SortedSets.InsertPresent | Libraries/InspectFile/FileDialogButton.cpp:146 | inserting an element already present changes nothing |
| SortedSets.SortedUnique | Libraries/InspectFile/FileDialogButton.cpp:80-86 | two ascending duplicate-free enumerations of the same set are equal |
| InspectFile.FileDialogButton.constructor | Libraries/InspectFile/FileDialogButton.cpp:17-25 | title "Open", the filter set exactly {the all-files filter}, the project asset path |
| InspectFile.FileDialogButton.SetTitleBar | Libraries/InspectFile/FileDialogButton.cpp:111-114 | the title is stored unchanged |
| InspectFile.FileDialogButton.SetPath | Libraries/InspectFile/FileDialogButton.cpp:176-192 | the start path is stored |
| InspectFile.FileDialogButton.SetFilter | Libraries/InspectFile/FileDialogButton.cpp:119-123 | the set becomes exactly the one filter |
| InspectFile.FileDialogButton.SetFilters | Libraries/InspectFile/FileDialogButton.cpp:129-139 | the set becomes exactly the distinct elements of the vector, sorted |
| InspectFile.FileDialogButton.AddFilter | Libraries/InspectFile/FileDialogButton.cpp:144-147 | the set gains the filter; a filter already present changes nothing |
| InspectFile.FileDialogButton.FilterString | Libraries/InspectFile/FileDialogButton.cpp:76-88 | appending each filter and a bar, then erasing the last character, gives DialogFilter of the set |
| InspectFile.DialogFilterSorted | Libraries/InspectFile/FileDialogButton.cpp:76-88 | the dialog filter is the all-files filter for an empty set, else the set's elements in ascending order joined by bars, whatever enumeration is used |
| InspectFile.FileDialogButton.Process | Libraries/InspectFile/FileDialogButton.cpp:203-228 | the filter, path and title keys apply their setter, return true and change nothing else; any other key returns the base class's answer and changes nothing |
| IPC.Connection.Initialize | Libraries/Worker/Client.cpp:73 | the connection records the channel name; its state may move only along Transition; nothing is created, sent or polled |
| IPC.Connection.CreateMessage | Libraries/Worker/Client.cpp:146 | a new message of the requested id and size, zeroed, owned by the caller, recorded as created |
| IPC.Connection.Send | Libraries/Worker/Client.cpp:153 | the transport accepts the message and takes ownership exactly when the state it reports is Active, which needs an active connection; otherwise nothing is sent and the caller still owns it |
| IPC.Connection.Receive | Libraries/Worker/Client.cpp:126 | one poll; a message arrives only on an active connection and belongs to the caller |
| IPC.Connection.Elapse | Libraries/Worker/Client.cpp:89 | while the caller sleeps the state moves only as the transport allows: Closed is final, Active can only close |
| IPC.Delete | Libraries/Worker/Client.cpp:38 | only a message its creator still owns can be deleted, and a deleted one cannot be deleted again |
| IPC.Connection.Destroy | Libraries/Worker/Client.cpp:115 | a connection can be deleted only once |
| Worker.Hex | Libraries/Worker/Client.cpp:70 | lower-case hex digits whose value is the number, with no leading zero |
| Worker.ChannelName | Libraries/Worker/Client.cpp:62-71 | "worker_debug" with the debug flag; otherwise "worker_" followed by lower-case hex digits, without a leading zero, that read back as the process id |
| Worker.ChannelNamesDistinct | Libraries/Worker/Client.cpp:64-71 | distinct process ids give distinct channel names, and none gives the debug name |
| Worker.ConsoleOutputData | Libraries/Worker/Client.cpp:26-34 | the console message is header size + text length + 1 bytes long and ends in NUL |
| Worker.LittleEndianRoundTrip | Libraries/Worker/Client.cpp:31-33 | each 32-bit header field reads back from its four bytes |
| Worker.ConsoleOutputRoundTrip | Libraries/Worker/Client.cpp:30-34 | the manager reads back exactly the stream, level, indent and text the hook framed |
| Worker.Overwrite | Libraries/Worker/Client.cpp:150 | a memcpy into a message writes the bytes at the offset and leaves the rest of the block as it was |
| Worker.SendPayloadFraming | Libraries/Worker/Client.cpp:146-151 | the memcpy of the first size bytes of the data (skipped without data or with size 0) over a block of `data ? size : 0` bytes gives exactly the payload the peer receives, whatever the block held |
| Worker.SendData | Libraries/Worker/Client.cpp:146-160 | one fresh message added to the created set, with the id, `data ? size : 0` bytes and the payload; accepted (its frame appended, owner Transport) exactly when the result is true, otherwise nothing sent and the message deleted; the result is true exactly when the connection is Active after the send |
| Worker.Client.constructor | Libraries/Worker/Client.cpp:19 | no connection, no hooks |
| Worker.Client.Initialize | Libraries/Worker/Client.cpp:57-109 | a new connection on ChannelName(debug, pid) is installed; without Wait at most DefaultWorkerTimeout sleeps, all of them on failure; the result is true exactly when the final state is Active; the three hooks are registered only then |
| Worker.Client.Cleanup | Libraries/Worker/Client.cpp:111-118 | afterwards there is no connection; the old one, if any, is deleted and recorded once; with none nothing happens, so repeated calls delete at most once |
| Worker.Client.ShutdownListener | Libraries/Worker/Client.cpp:44-48 | the shutdown hook is Cleanup |
| Worker.Client.TerminateListener | Libraries/Worker/Client.cpp:51-55 | the terminate hook is Cleanup |
| Worker.Client.Send | Libraries/Worker/Client.cpp:142-164 | false and no message without an active connection; on an active one exactly one message of the id, `data ? size : 0` bytes and the payload is created and offered; true exactly when the transport accepted it, which is exactly when the connection is Active after the send; on false it is deleted, so no created message is left to its creator; the channel name is unchanged and the state moves only along Transition |
| Worker.Client.Receive | Libraries/Worker/Client.cpp:120-140 | null without a connection; exactly one poll without wait; with wait it polls until a message arrives or the connection leaves Active; a returned message belongs to the caller; nothing is created or sent and the channel name is unchanged |
| Worker.ConsoleOutputFraming | Libraries/Worker/Client.cpp:30-34 | writing stream, level and indent at offsets 0, 4 and 8 and the text with its NUL at offset 12 over a block of the message size yields exactly ConsoleOutputData, whatever the block held |
| Worker.SendConsoleOutput | Libraries/Worker/Client.cpp:26-39 | one fresh message added to the created set, id ConsoleOutputMessage, size header + length + 1, data ConsoleOutputData; either the transport accepted it (its frame appended, owner Transport) or nothing was sent and it was deleted; it was accepted exactly when the connection is Active after the send |
| Worker.Client.PrintedListener | Libraries/Worker/Client.cpp:22-41 | nothing happens unless the connection is active; otherwise exactly one ConsoleOutputMessage of size header + length + 1 is created holding ConsoleOutputData, accepted by the transport or deleted; a frame was sent exactly when the connection is Active afterwards |

## Left out

- Common/String/Tokenize.h is not part of this model, so Tokenizer.Tokenize is an assumption about it: a regular-expression split at a one-character delimiter that keeps empty fields between delimiters, drops an empty remainder after the last delimiter, and gives one empty token for the empty string, which has no match. A tokenizer that skipped empty pieces would differ for an invalid colour and for an empty display or mask in a file dialog filter.
- CustomColors.LoadSave: its conclusion for an invalid colour, and the slot alignment of every colour after one, hold only under the Tokenize assumption above. CustomColors.LoadSaveAllValid does not depend on empty fields.
- Header constants whose values are not part of this model are written as assumptions:
  - NumColors is 16, the custom colour count of wxColourData;
  - the Multiple and ShowAllFilesFilter bits are 0x20 and 0x10000;
  - the attribute keys of the file dialog button are "filter", "path" and "title";
  - ConsoleOutput is three 32-bit little-endian fields (12 bytes) followed by the text.
- Worker.ConsoleOutputMessage and Worker.DefaultWorkerTimeout are constants of unspecified value. Every property holds for any value.
- GetProcessId and the Debug and Wait command-line flags are parameters of Worker.Client.Initialize.
- The sleeps, their timing and the named-pipe transport are not modelled. The connection's state changes, send outcomes and arriving messages are left open, within Transition.
- Worker.Client.Initialize: the Wait flag's poll is cut at `fuel` sleeps. The model does not capture a wait that outlasts the fuel. In the source that wait is not truly unbounded either: `timeout--` keeps decrementing a signed `int` from -1, which overflows (undefined behaviour) after about 2^31 polls. The timeout error message and Console::Error are not modelled.
- Worker.Client.Receive: the wait loop is cut at `fuel` extra polls, so it can return null on an active connection after `fuel` polls.
- Worker.Client.PrintedListener: requires header + text length + 1 to fit in 32 bits. The source's `u32` size would wrap for longer text, and the model does not represent the resulting buffer overrun.
- Worker.Client.Send, Worker.Client.PrintedListener: a failed message allocation in CreateMessage (Client.cpp:146 and Client.cpp:28) is not modelled. The source does not check for it either.
- UIToolKit.FileDialog.constructor: wxFileDialog::Create's own handling of the wild card is not modelled. wx is not part of this model, so on an odd token count the wild card is taken to be kept exactly as given. wx itself rewrites a wild card without '|' into a "<ext> files (<wc>)|<wc>" pair, and recent releases turn an empty one into the all-files filter.
- The connection class behind g_Connection, IPC::PipeConnection, is not part of this model. Only the operations the client calls are modelled.
- Luna.ThumbnailLoader.Step: covers only the dequeue step. Device-lost waiting, the null-device break and the texture and thumbnail loading are not modelled. The result is raised with its file and `m_Cancelled = false` but without textures. The null-file NOC_BREAK branch is not modelled, since AssetFile values are never null.
- The worker client is modelled one call at a time. Cleanup tests and deletes g_Connection without a lock, and the terminate hook can enter it while another call is running. A state change between the Active check and the send in Send and PrintedListener appears only as the transport refusing the send. So "deleted at most once" (NoDuplicates of the deleted connections in Worker.Client.Valid) and the ownership results are proved only for sequential calls.
- Thread creation, `m_LoadThread.Wait()`, the queue lock and every concurrent interleaving of the loader thread with Load and Stop are not modelled. The model runs one operation at a time.
- Platform.Semaphore.Decrement: blocking until a permit is available becomes the precondition `count > 0`.
- The Win32 handles are not modelled: handle creation and closing, their failure paths and the destructor.
- CustomColors.ScanColour: models `%02X` on hex digits. The whitespace skipping, sign and `0x` prefix that sscanf also accepts are not modelled. A token that does not start with a hex digit loads black, because the three components start at 0.
- CustomColors.Field: wxColour::GetAsString is modelled as its documented `#RRGGBB` HTML form with upper-case digits.
- InspectFile.FileDialogButton.SetPath: FileSystem::CleanName and the WriteData to the bound data are not modelled. The path is stored as given, and an empty path clears it.
- Dialog display and data-binding plumbing are not modelled: FileDialog.ShowModal, GetPath, GetPaths, GetFilePaths and OnOkButtonClicked, and FileDialogButton.Realize, Read, ReadPathData, GetPath, SetTuidRequired and SetRequestedFileID. Write's dialog display and WriteData are left out too; its filter-string loop is FilterString.
- UIToolKit.FileDialog.GetFilePath: its debug assertion that the dialog is single-select is not a precondition.
- The wx base class's wild card and filter index are fields of the dialog. The `LOWORD(style)` conversion handed to wxFileDialog is not modelled.

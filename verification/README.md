# Files applet: paginated directory browser and chunked file send

This project models the core of the LVGL "Files" applet (`lv_appx/lv_app_files.c`) in Dafny and
proves properties of the model. The applet has two parts.

- **Directory browser.** It lists a directory one page at a time. The list is rebuilt from a
  freshly opened, forward-only directory cursor on every page turn:
  - a counter of entries already shown (`file_cnt`) says how many entries to skip;
  - "Previous page" moves that counter back with its own arithmetic;
  - drive, folder, "Up" and "Back" items reset it.
- **File sender.** It sends a chosen file to the connected applets in chunks of `chunk_size`
  bytes. `start_send` sends the first chunk, then a periodic task sends one chunk per run. The
  send ends at the first chunk shorter than `chunk_size` or at the first read error.

The modules follow that structure:

- `Common`: the shared types.
  - `U8`/`U16` for the C integer types, with `ToU16` for the `(uint16_t)` cast.
  - `Config` for the compile-time constants. Their values live in a configuration header, so
    every property is proved for each configuration that satisfies `Config.Valid`.
  - The notice kinds and small division lemmas.
- `Pager`: `win_load_file_list` as a function `Load` and as loop methods that mirror the C
  loops. A directory is a `Listing`: the names `fs_readdir` returns in order, then forever the
  end marker (the empty name) or a read error. Also `win_prev_action`'s arithmetic (`PrevPage`).
- `Browser`: how each list item changes the path, the chosen file name and the counter.
- `Transfer`: the open file, `send_in_prog`, the chunk size and delay, and the send task, plus
  `start_send` (`StartSend`) and `send_task` (`Tick`). `Drain` runs the send task `n` times.
- `FilesApp`: the applet as a whole.
  - Lifecycle: `my_app_run`, `my_app_close`, `my_win_open`.
  - Requests from other applets: `my_com_rec`.
  - The Send and Delete buttons, and the send settings.
  - The whole-applet invariant `Good`: the transfer invariant holds and
    `1 <= chunk_size <= LV_APP_FILES_CHUNK_MAX_SIZE`.

The file system adapter is not part of this model, so its results become inputs:

- the directory contents (`Listing`, or `None` when `fs_readdir_init` fails);
- the drive letters (`fs_get_letters`);
- the parent path (`fs_up`);
- the file contents (`fs_open` succeeds exactly for the paths in a map);
- whether a read or a removal fails.

### Where the code and the documented behaviour differ

In each case below the model follows the code.

- **Requests from other applets.** A send requested by another applet through `my_com_rec`
  does not check for a send in progress. It restarts from the requested file
  (`FilesApp.ComRecRestartsSend`). Only the Send button reports "File sending in progress".
  `start_send` does not close the running file before its `fs_open` at line 722 overwrites the
  handle, so that file stays open and its handle is lost: the model keeps only the new handle
  and reports the old one as `leaked` (`FilesApp.OnlyRequestsLeak`).
- **Directory that cannot be opened.** When `fs_readdir_init` fails, the old list has already
  been replaced by a new one holding only "Up". The previous listing is not kept.
- **Skip failure.** When skipping the already-shown entries fails, the function returns without
  `fs_readdir_close`. The model records this as `Cursor.LeftOpen`.
- **Skip count.** The skip loop reads `file_cnt + 1` entries. The last of them is the first entry
  the page lists, so a page needs at least `file_cnt + 1` entries to exist.
- **Folder paths.** Entering a folder always joins the path and the name with '/'.
  - From the drive path `"U:"` this gives `"U:/docs"` (`Browser.DriveThenFolder`).
  - From a path that already ends in '/' it gives a double slash.
- **Over-long requests.** A request longer than `LV_APP_FILES_PATH_MAX_LEN + LV_APP_FILES_FN_MAX_LEN`
  only posts a notice and then carries on copying. That case is outside the model's
  precondition; see below.
- **Exactly full last page.** When the last page of a directory is exactly full, it still offers
  "Next page". That page then fails its skip phase (`Pager.NextPageAfterLastEntry`). Its counter
  stays on the boundary, so "Previous page" there goes back two page sizes and passes over the
  last page listed: with a page size of 10 and exactly 30 names it returns to 10, not 20
  (`Pager.PrevAfterEmptyPage`).

## Model

| member | source | states |
|---|---|---|
| Common.ToU16 | lv_appx/lv_app_files.c:711 | the `(uint16_t)` cast gives the 16-bit value congruent to the number modulo 2^16: values in range are kept, and -2^16..-1 gain 2^16 |
| Pager.Classify | lv_appx/lv_app_files.c:324-335 | an entry is a folder exactly when its name starts with '/', listed without the marker; any other entry is a file listed under its own name |
| Pager.RunLength | lv_appx/lv_app_files.c:323-346 | the run of consecutive entries read from a position, capped by a limit: every read in the run is an entry, and below the limit the read after it is not |
| Pager.RunLengthUnique | lv_appx/lv_app_files.c:323-346 | the run length is the only count with those properties |
| Pager.PageEnd | lv_appx/lv_app_files.c:341-345 | the counter at which the page stops, the first multiple of the page size above the start: one full page later from a boundary, and no multiple lies in between |
| Pager.AtPageEnd | lv_appx/lv_app_files.c:341 | between the start and the page end, the counter is a multiple of the page size exactly at the page end, so the `%` test fires there and nowhere earlier |
| Pager.Load | lv_appx/lv_app_files.c:267-359 | at the empty path, one drive item per letter and the counter unchanged; elsewhere "Up" comes first; an unopenable directory gives only "Up" and the notice; "Previous page" is listed exactly when the counter is not 0 |
| Pager.SkipOkIff | lv_appx/lv_app_files.c:311-320 | the skip phase succeeds exactly when the directory has more than `file_cnt` names and none of the first `file_cnt + 1` is empty |
| Pager.LoadSkipPhase | lv_appx/lv_app_files.c:311-320 | a failed skip leaves the cursor open, shows only the head items with no entry, posts the notice and keeps the counter; a successful skip closes the cursor and lists entry `file_cnt` first |
| Pager.LoadEmitPhase | lv_appx/lv_app_files.c:322-346 | each listed entry raises the counter by one; the entry at list position head+j is the one read at `file_cnt + j`; the page lists at least one and at most a page size of entries |
| Pager.LoadPageEnd | lv_appx/lv_app_files.c:338-354 | "Next page" is listed exactly when the counter reaches a multiple of the page size (the page end); a page that stops earlier stopped at a non-entry; the notice is posted exactly when the read after the last entry failed |
| Pager.LoadFullPage | lv_appx/lv_app_files.c:322-346 | a page starting on a boundary is full with "Next page" exactly when a page size of entries follow its start |
| Pager.LoadNextOnBoundary | lv_appx/lv_app_files.c:341-345 | for any path and directory, a page lists "Next page" only with the counter on a multiple of the page size |
| Pager.NextPageAfterLastEntry | lv_appx/lv_app_files.c:311-346 | after "Next page", the next load fails its skip phase exactly when no entry follows the page just shown |
| Pager.PrevAfterEmptyPage | lv_appx/lv_app_files.c:311-317 | on the empty page after an exactly full last page the counter stays on its boundary n, and "Previous page" moves it to n - 2 page sizes |
| Pager.PrevPage | lv_appx/lv_app_files.c:429-434 | "Previous page" leaves the counter on a page boundary, strictly lower than before, and at 0 exactly when it was at most two page sizes |
| Pager.PrevPageGoesBackOnePage | lv_appx/lv_app_files.c:429-434 | after a page that started at boundary `s`, "Previous page" moves the counter to `s - page size`, or to 0 from the first page |
| Pager.PrevPageReachesZero | lv_appx/lv_app_files.c:429-434 | pressing "Previous page" repeatedly reaches the first page: `file_cnt` presses always suffice |
| Pager.ListDrives | lv_appx/lv_app_files.c:279-290 | the drive loop lists one drive item per letter, in order |
| Pager.SkipPages | lv_appx/lv_app_files.c:311-320 | the skip loop succeeds exactly when the first `file_cnt + 1` reads are entries, and then holds read `file_cnt` |
| Pager.EmitPage | lv_appx/lv_app_files.c:322-346 | the emit loop lists the run of entries up to the page end, adds "Next page" exactly at the page end, and stops holding the read after the last entry |
| Pager.LoadFileList | lv_appx/lv_app_files.c:267-359 | the loop implementation builds the same page, counter, notice and cursor state as `Load` |
| Browser.Press | lv_appx/lv_app_files.c:388-521 | drive, "Up" and folder set the path (letter + ':', the parent, path + '/' + name) and reset the counter; "Previous page" moves the counter down to a boundary; "Next page" changes nothing; choosing a file sets only the chosen name |
| Browser.Target | lv_appx/lv_app_files.c:535 | the file Send and Delete act on is the path, then '/', then the chosen name |
| Browser.PressedReloadStartsOnBoundary | lv_appx/lv_app_files.c:341-345 | every item of a loaded page that rebuilds the list starts it from a multiple of the page size |
| Browser.PressListedEntry | lv_appx/lv_app_files.c:471-500 | a listed entry is a folder exactly when its name starts with '/'; pressing a folder enters path + '/' + name without the marker at counter 0; pressing a file makes path + '/' + name the Send/Delete target |
| Browser.PrevReturnsToPreviousPage | lv_appx/lv_app_files.c:425-438 | on a page that starts at a nonzero boundary, "Previous page" is listed and moves the counter back exactly one page size |
| Browser.DriveThenFolder | lv_appx/lv_app_files.c:447-478 | a drive then a folder gives the path "<letter>:/<folder>" at counter 0 |
| Transfer.ReadChunk | lv_appx/lv_app_files.c:726 | a read returns the bytes that follow the position, at most the chunk size, and fewer only at the end of the file |
| Transfer.StartSend | lv_appx/lv_app_files.c:719-761 | the send starts exactly when the file opens and its first read succeeds; then the first chunk (even a short one) is sent, the send task is armed with the chunk delay and "Sending" is posted; otherwise the file is closed, nothing is sent and "Can not send" is posted; in every case the handle of a file still open before the call is overwritten without being closed (leaked) |
| Transfer.Tick | lv_appx/lv_app_files.c:763-810 | idle: nothing happens; a read error closes the file with "Can not send"; otherwise the next bytes of the file are sent, and the send continues exactly when a full chunk was read; a short chunk is the rest of the file and posts "File sent" |
| Transfer.DrainIdle | lv_appx/lv_app_files.c:768 | once idle, further runs of the send task change nothing and send nothing |
| Transfer.DrainSendsChunks | lv_appx/lv_app_files.c:772-788 | a send in progress ends after one run per chunk left, sending the full chunks and then the short rest; only the file handle and the progress flag change |
| Transfer.ChunksJoin | lv_appx/lv_app_files.c:772-788 | the chunks a send delivers, one per run, joined give back the rest of the file |
| Transfer.DrainDelivers | lv_appx/lv_app_files.c:772-788 | with chunk size c > 0 and r bytes left, the send ends after exactly r / c + 1 runs, and the messages joined are exactly the rest of the file |
| Transfer.DrainChunkSizes | lv_appx/lv_app_files.c:772-788 | every message but the last is a full chunk; the last holds the r mod c remaining bytes, so it is empty when r is a multiple of c |
| Transfer.DrainNotYetDone | lv_appx/lv_app_files.c:785-788 | before r / c + 1 runs the send is still in progress |
| Transfer.SendRest | lv_appx/lv_app_files.c:719-788 | after the first chunk, the send task runs max(1, n / c) times, in progress until the last run, and all messages joined are the file |
| Transfer.SendWholeFile | lv_appx/lv_app_files.c:719-788 | a whole fault-free send of an n-byte file: max(1, n / c) runs of the send task, max(1, n / c) + 1 messages, which joined give back the file |
| Transfer.ShortFileSendsEmptyTrailer | lv_appx/lv_app_files.c:726-788 | a file shorter than the chunk goes out as itself followed by an empty message |
| Transfer.ZeroChunkNeverEnds | lv_appx/lv_app_files.c:772-788 | with chunk size 0 every run sends an empty message and the send never ends |
| Transfer.TenBytesInFours | lv_appx/lv_app_files.c:719-788 | a 10-byte file in chunks of 4 goes out as messages of 4, 4 and 2 bytes, and the send ends |
| FilesApp.AppRun | lv_appx/lv_app_files.c:147-162 | a new applet satisfies the invariant, shows the drive list with no file chosen, has no send in progress and its task switched off, and uses the default chunk size and delay |
| FilesApp.AppClose | lv_appx/lv_app_files.c:170-177 | closing the applet closes the file exactly when one is open |
| FilesApp.WinOpen | lv_appx/lv_app_files.c:240-252 | opening the window relists the current path from its first page (no "Previous page" when the directory opens), keeps path, name and transfer, and leaves the counter the page ended at |
| FilesApp.FirstWindowShowsDrives | lv_appx/lv_app_files.c:240-252 | the first window of a new applet lists one drive item per letter, with no notice |
| FilesApp.Navigate | lv_appx/lv_app_files.c:388-521 | browsing never changes the transfer; a file shows the Back/Send/Delete menu; entering or leaving a directory lists it from its first page |
| FilesApp.EnterFolderListsItsFirstEntry | lv_appx/lv_app_files.c:471-488 | entering a folder that has entries lists its first entry right after "Up" |
| FilesApp.CString | lv_appx/lv_app_files.c:198-201 | the path handed on is the longest NUL-free prefix of the copied bytes, ending at the first NUL |
| FilesApp.Request | lv_appx/lv_app_files.c:191 | a request is the path followed by '?' |
| FilesApp.ParseRequest | lv_appx/lv_app_files.c:187-204 | character data is a request exactly when it ends in '?'; the requested path is the part before its first NUL, or everything before the '?' when there is none |
| FilesApp.RequestRoundTrip | lv_appx/lv_app_files.c:190-201 | a request for a NUL-free path asks for exactly that path |
| FilesApp.ComRec | lv_appx/lv_app_files.c:187-204 | data that is not a request changes nothing; a request starts sending exactly when the file can be opened and read and leaks the handle of any file being sent; the browser is untouched and the invariant is kept |
| FilesApp.ComRecRestartsSend | lv_appx/lv_app_files.c:187-204 | a request during a send leaks the running file's handle and starts the requested file from its first chunk |
| FilesApp.OnlyRequestsLeak | lv_appx/lv_app_files.c:187-204 | from a state keeping the invariant, a handle is leaked exactly when a request arrives during a send, and it is the running file's; the Send button and the send task never leak one |
| FilesApp.SendRelease | lv_appx/lv_app_files.c:523-542 | during a send only "File sending in progress" is posted and nothing changes; otherwise the chosen `path/fn` starts sending exactly when it can be opened and read; no handle is leaked |
| FilesApp.DeleteLongPress | lv_appx/lv_app_files.c:670-683 | removal succeeds exactly when `path/fn` exists and the adapter does not fail; only that file disappears and every other file keeps its contents |
| FilesApp.DeletedFileCannotBeSent | lv_appx/lv_app_files.c:670-683 | after a successful delete, Send fails with "Can not send" |
| FilesApp.SendTask | lv_appx/lv_app_files.c:763-810 | a run of the send task keeps the browser and the invariant, leaks no handle, and does nothing while idle |
| FilesApp.GoodSendEnds | lv_appx/lv_app_files.c:772-788 | from any state satisfying the invariant, a send in progress ends and delivers the rest of the file |
| FilesApp.ClampChunkSizeAsWritten | lv_appx/lv_app_files.c:713-714 | the chunk size as the code computes it: capped from above, kept when in range, and otherwise congruent to the number modulo 2^16 (so -2^16..-1 gain 2^16) |
| FilesApp.ClampAsWrittenEscapes | lv_appx/lv_app_files.c:713-714 | typing -1 gives 65535, above the read buffer size; typing 0 gives 0, and a send then never ends |
| FilesApp.ClampChunkSize | lv_appx/lv_app_files.c:713-714 | the intended chunk size lies between 1 and the maximum; it is the typed number when that is in range, the maximum above it and 1 below it |
| FilesApp.SettingsOk | lv_appx/lv_app_files.c:701-717 | the delay becomes the typed number cast to `uint16_t`, congruent to it modulo 2^16 for any number typed; the chunk size stays within 1..max and equals the typed number when in range; nothing else changes and the invariant is kept |
| FilesApp.SettingsKeepSendsFinite | lv_appx/lv_app_files.c:713-714 | whatever is typed for the chunk size, every later send ends and delivers the whole file |
| FilesApp.DelayWraps | lv_appx/lv_app_files.c:706-711 | a delay typed beyond 16 bits wraps: 70000 ms becomes 4464 ms and -70000 ms becomes 61072 ms |
| FilesApp.DelayTakesEffectAtNextSend | lv_appx/lv_app_files.c:711-733 | a new delay, whatever number is typed, leaves the running task alone, and the next send arms the send task with its `uint16_t` value |

## Left out

- Widgets and display: list icons, window titles, focus, and the shortcut label. This covers
  `my_sc_open`, `my_sc_close`, `my_win_close`, `win_create_list` and the label updates in the
  actions. Only the items a list holds are modelled.
- Progress percentage: the shortcut percentage in `start_send` and `send_task` is display only.
  For an empty file it divides by a zero size; this is not modelled.
- Settings widgets: `win_send_lpr_action`, `win_send_settings_element_rel_action` and
  `send_settings_kb_close_action` only build and refill the settings widgets. The close handler
  refills the delay field with the chunk size; this is not modelled. Only the effect of
  `send_settings_kb_ok_action` is modelled.
- `win_del_rel_action`: it only posts a hint to use a long press.
- `lv_app_files_init`: it registers the applet descriptor.
- Send flags: `send_fn`, `send_size` and `send_crc` are set to 0 by `my_app_run`, toggled by
  `win_send_settings_element_rel_action` (lines 632-636) and read by `win_send_lpr_action` (lines
  574, 580 and 586) only to draw the checkboxes. The transfer path (`start_send`, `send_task`)
  never reads them, so they do not affect what is sent.
- Notices are modelled by kind (`Notice`); their text and the file names in them are not.
- `fs_get_last`: it only feeds labels.
- `fs_up`: its result is the parameter `parent`.
- Task scheduling: the ptask scheduler is not part of this model.
  - The send task is `Task(armed, period)`.
  - `ptask_reset` and the send task deletion in `my_app_close` are not modelled.
  - Running the send task `n` times is `Transfer.Drain`.
- Buffer sizes and path lengths: the string bounds of `path`, `fn` and `path_fn` are not
  modelled, nor are the overlapping `sprintf` in `win_folder_action` and the truncation of long
  names by `fs_readdir`. Strings are unbounded, and the folder join is modelled as the intended
  concatenation.
- Concurrent directory changes: a directory's contents do not change during one `Load`. Every
  load reopens the directory, so different loads may see different `Listing`s.
- Pager.Load: the 8-bit counter `file_cnt` would wrap in a directory of 256 or more entries.
  Loads require fewer than 256 names, so the wrap is not modelled.
- FilesApp.ComRec: two cases are undefined behaviour in C and are excluded by the precondition.
  - Empty character data: `path[size - 1]` reads before the buffer.
  - A request longer than `LV_APP_FILES_PATH_MAX_LEN + LV_APP_FILES_FN_MAX_LEN`: the notice is
    posted, then `memcpy` writes past `path_fn`.
- FilesApp.SettingsOk: takes the number `sscanf` parsed as a parameter. Text that does not parse
  leaves `num` uninitialized in C, and this is not modelled. It uses the corrected chunk-size
  clamp (see Findings).
- FilesApp.DeleteLongPress: removing the file that is currently being sent is not modelled; the
  adapter's behaviour for an open file is unknown.

## Findings

| source | as written | input that shows it | evidently intended | confidence | as-written member | corrected member |
|---|---|---|---|---|---|---|
| lv_appx/lv_app_files.c:713-714 | the typed chunk size is capped at `LV_APP_FILES_CHUNK_MAX_SIZE` from above only, then cast to `uint16_t` | typing `-1`: the chunk size becomes 65535, so `fs_read` may write 65535 bytes into the `LV_APP_FILES_CHUNK_MAX_SIZE`-byte `rd_buf`. Typing `0`: every run of the send task sends an empty chunk and the send never ends | a chunk size between 1 and `LV_APP_FILES_CHUNK_MAX_SIZE` | not executed; high | FilesApp.ClampChunkSizeAsWritten, FilesApp.ClampAsWrittenEscapes | FilesApp.ClampChunkSize, FilesApp.SettingsOk, FilesApp.SettingsKeepSendsFinite |

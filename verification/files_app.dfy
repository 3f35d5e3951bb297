/** The Files applet as a whole: its lifecycle (`my_app_run`, `my_app_close`, `my_win_open`), the
    file requests other applets send it (`my_com_rec`), the Send and Delete buttons of a chosen
    file, the periodic send task and the send settings keyboard. */
module FilesApp {
  import opened Common
  import opened Pager
  import opened Browser
  import opened Transfer

  /** What the file system adapter offers: the drive letters, the directories that can be opened
      (with what reading them yields) and the files that can be opened (with their contents). */
  datatype Volume = Volume(letters: string, dirs: map<string, Listing>, files: map<string, seq<U8>>)

  /** Every directory fits the 8-bit entry counter of the browser. */
  predicate Bounded(vol: Volume) {
    forall p :: p in vol.dirs ==> |vol.dirs[p].names| < 0x100
  }

  /** `fs_readdir_init`: the directory at `path`, or `None` when it cannot be opened. */
  function OpenDir(vol: Volume, path: string): (r: Option<Listing>)
    ensures Bounded(vol) && r.Some? ==> |r.value.names| < 0x100
  {
    if path in vol.dirs then Some(vol.dirs[path]) else None
  }

  /** The applet's data (`my_app_data_t`) without the unused send flags. */
  datatype App = App(browse: BrowseState, xfer: Xfer)

  /** The state every operation keeps: the transfer invariant, and a chunk size that fits the
      read buffer (`LV_APP_FILES_CHUNK_MAX_SIZE` bytes) and is positive. */
  predicate Good(cfg: Config, a: App) {
    Inv(a.xfer) && 1 <= a.xfer.chunkSize <= cfg.chunkMaxSize
  }

  /** What an operation does: the applet's data after it, the messages it sends to connected
      applets, the notice it posts and the file handle it leaked (see `Step`). */
  datatype Outcome = Outcome(app: App, sent: seq<seq<U8>>, notice: Option<Notice>, leaked: Option<Handle>)

  // ---------------------------------------------------------------- lifecycle

  /** `my_app_run`: at the drive list with nothing chosen, no send in progress, the default chunk
      size and delay, and a send task that is created but switched off. */
  function AppRun(cfg: Config): (a: App)
    requires cfg.Valid()
    ensures Good(cfg, a)
    ensures a.browse.path == "" && a.browse.fn == "" && a.browse.fileCnt == 0
    ensures !a.xfer.inProg && !a.xfer.task.armed
    ensures a.xfer.chunkSize == cfg.chunkDefSize && a.xfer.chunkDelay == cfg.chunkDefTime
  {
    App(BrowseState("", "", 0),
        Xfer(None, false, cfg.chunkDefSize, cfg.chunkDefTime, Task(false, cfg.chunkDefTime)))
  }

  /** `my_app_close`: whether the file is closed. It is closed exactly when one is open, so none is
      closed twice; a handle that a request overwrote during a send (`ComRec`) is no longer known
      here and stays open. */
  function AppClose(a: App): (closed: bool)
    ensures Inv(a.xfer) ==> (closed <==> a.xfer.file.Some?)
  {
    a.xfer.inProg
  }

  /** `my_win_open`: restart the listing of the current path at its first entry. */
  function WinOpen(cfg: Config, a: App, vol: Volume): (r: (App, Page))
    requires cfg.Valid() && Bounded(vol)
    ensures r.0.xfer == a.xfer
    ensures r.0.browse.path == a.browse.path && r.0.browse.fn == a.browse.fn
    ensures r.0.browse.fileCnt == r.1.fileCnt
    // The first page offers no "Previous page".
    ensures a.browse.path != "" && a.browse.path in vol.dirs ==> PrevItem !in r.1.items
    ensures a.browse.path == "" ==> |r.1.items| == |vol.letters| && r.1.fileCnt == 0
  {
    var pg := Load(cfg, a.browse.path, 0, OpenDir(vol, a.browse.path), vol.letters);
    (a.(browse := a.browse.(fileCnt := pg.fileCnt)), pg)
  }

  /** A freshly run applet opens its window on the drive list. */
  lemma FirstWindowShowsDrives(cfg: Config, vol: Volume)
    requires cfg.Valid() && Bounded(vol)
    ensures var r := WinOpen(cfg, AppRun(cfg), vol);
      && |r.1.items| == |vol.letters|
      && (forall i :: 0 <= i < |vol.letters| ==> r.1.items[i] == DriveItem(vol.letters[i]))
      && !r.1.readNotice
  {
  }

  // ---------------------------------------------------------------- browsing

  /** A list the window shows and whether "Can not read the path" was posted. */
  datatype View = View(app: App, items: seq<Item>, readNotice: bool)

  /** Pressing an item of the list other than Send and Delete: a file shows the file menu, every
      other item moves as `Press` says and rebuilds the list with `win_load_file_list`. */
  function Navigate(cfg: Config, a: App, it: Item, vol: Volume, parent: string): (r: View)
    requires cfg.Valid() && Bounded(vol)
    requires !(it.SendItem? || it.DeleteItem?)
    // Browsing never touches a send in progress.
    ensures r.app.xfer == a.xfer
    ensures it.FileItem? ==> r.items == FileMenu && r.app.browse == a.browse.(fn := it.name) && !r.readNotice
    ensures Reloads(it) ==> r.app.browse.path == Press(cfg, a.browse, it, parent).path
    // Entering or leaving a directory lists it from its first entry.
    ensures it.DriveItem? || it.UpItem? || it.FolderItem? || it.BackItem? ==>
      var path := r.app.browse.path;
      path != "" && path in vol.dirs ==> PrevItem !in r.items
  {
    if it.FileItem? then
      View(a.(browse := a.browse.(fn := it.name)), FileMenu, false)
    else
      var st := Press(cfg, a.browse, it, parent);
      var pg := Load(cfg, st.path, st.fileCnt, OpenDir(vol, st.path), vol.letters);
      View(a.(browse := st.(fileCnt := pg.fileCnt)), pg.items, pg.readNotice)
  }

  /** Pressing a folder whose directory has a first entry lists that entry right after "Up", and
      the counter moves past it. */
  lemma EnterFolderListsItsFirstEntry(cfg: Config, a: App, name: string, vol: Volume, parent: string)
    requires cfg.Valid() && Bounded(vol)
    requires a.browse.path + "/" + name in vol.dirs
    requires var d := vol.dirs[a.browse.path + "/" + name]; 0 < |d.names| && d.names[0] != ""
    ensures var d := vol.dirs[a.browse.path + "/" + name];
      var r := Navigate(cfg, a, FolderItem(name), vol, parent);
      && r.app.browse.path == a.browse.path + "/" + name
      && |r.items| >= 2 && r.items[0] == UpItem && r.items[1] == Classify(d.names[0])
      && r.app.browse.fileCnt >= 1
  {
    var path := a.browse.path + "/" + name;
    var d := vol.dirs[path];
    SkipOkIff(d, 0);
    LoadSkipPhase(cfg, path, 0, d, vol.letters);
    LoadEmitPhase(cfg, path, 0, d, vol.letters);
  }

  // ---------------------------------------------------------------- requests from other applets

  /** The kinds of data applets exchange (`lv_app_com_type_t`); only character data is read. */
  datatype ComType = ComChar | ComOther

  /** The C string a buffer holds: everything before its first NUL. */
  function CString(s: string): (r: string)
    ensures |r| <= |s| && r == s[..|r|]
    ensures '\0' !in r
    ensures |r| < |s| ==> s[|r|] == '\0'
  {
    if s == [] || s[0] == '\0' then [] else [s[0]] + CString(s[1..])
  }

  /** A string without a NUL is its own C string. */
  lemma CStringPlain(s: string)
    requires '\0' !in s
    ensures CString(s) == s
  {
  }

  /** The request another applet sends to have a file sent: its path followed by '?'. */
  function Request(path: string): (r: string)
    ensures |r| == |path| + 1 && r[|path|] == '?' && r[..|path|] == path
  {
    path + "?"
  }

  /** The path `my_com_rec` asks for: character data ending in '?' is a request for the C string
      before the '?'; anything else is no request. */
  function ParseRequest(ty: ComType, data: string): (r: Option<string>)
    requires ty == ComChar ==> |data| >= 1
    ensures r.Some? <==> ty == ComChar && data[|data| - 1] == '?'
    ensures r.Some? ==> '\0' !in r.value && |r.value| < |data| && r.value == data[..|r.value|]
    ensures r.Some? && |r.value| < |data| - 1 ==> data[|r.value|] == '\0'
  {
    if ty != ComChar || data[|data| - 1] != '?' then None else Some(CString(data[..|data| - 1]))
  }

  /** A request for a path without NUL asks for exactly that path. */
  lemma RequestRoundTrip(path: string)
    requires '\0' !in path
    ensures ParseRequest(ComChar, Request(path)) == Some(path)
  {
    assert Request(path)[..|path|] == path;
    CStringPlain(path);
  }

  /** `my_com_rec`: a request starts sending the file at once, whatever the state of the send. */
  function ComRec(cfg: Config, a: App, files: map<string, seq<U8>>, ty: ComType, data: string,
                  readFails: bool): (r: Outcome)
    requires ty == ComChar ==> |data| >= 1
    requires ty == ComChar && data[|data| - 1] == '?' ==> |data| <= cfg.pathMaxLen + cfg.fnMaxLen
    ensures r.app.browse == a.browse
    ensures Good(cfg, a) ==> Good(cfg, r.app)
    ensures ParseRequest(ty, data).None? ==> r == Outcome(a, [], None, None)
    ensures ParseRequest(ty, data).Some? ==> r.leaked == a.xfer.file
    ensures ParseRequest(ty, data).Some? ==>
      var path := ParseRequest(ty, data).value;
      (r.app.xfer.inProg <==> path in files && !readFails)
  {
    match ParseRequest(ty, data)
    case None => Outcome(a, [], None, None)
    case Some(path) =>
      var s := StartSend(a.xfer, files, path, readFails);
      Outcome(a.(xfer := s.xfer), s.sent, s.notice, s.leaked)
  }

  /** Unlike the Send button, a request does not wait for a send in progress: the file being sent
      is dropped and the requested one starts from its first chunk. */
  lemma ComRecRestartsSend(cfg: Config, a: App, files: map<string, seq<U8>>, path: string)
    requires a.xfer.inProg && path in files && '\0' !in path
    requires |path| + 1 <= cfg.pathMaxLen + cfg.fnMaxLen
    ensures var r := ComRec(cfg, a, files, ComChar, Request(path), false);
      var data := files[path];
      var first := if a.xfer.chunkSize <= |data| then a.xfer.chunkSize else |data|;
      && r.app.xfer.file == Some(Handle(data, first))
      && r.sent == [data[..first]]
      && r.notice == Some(Sending)
      && r.leaked == a.xfer.file
  {
    RequestRoundTrip(path);
  }

  /** From a state that keeps the invariant, the only way a file handle is lost is a request that
      arrives during a send: it leaks exactly the handle of the file being sent. The Send button
      and the send task never leak one. */
  lemma OnlyRequestsLeak(cfg: Config, a: App, files: map<string, seq<U8>>, ty: ComType, data: string,
                         readFails: bool)
    requires Good(cfg, a)
    requires ty == ComChar ==> |data| >= 1
    requires ty == ComChar && data[|data| - 1] == '?' ==> |data| <= cfg.pathMaxLen + cfg.fnMaxLen
    ensures var r := ComRec(cfg, a, files, ty, data, readFails);
      && (r.leaked.Some? <==> ParseRequest(ty, data).Some? && a.xfer.inProg)
      && (r.leaked.Some? ==> r.leaked == a.xfer.file)
    ensures SendRelease(cfg, a, files, readFails).leaked == None
    ensures SendTask(cfg, a, readFails).leaked == None
  {
  }

  // ---------------------------------------------------------------- the file menu

  /** `win_send_rel_action`: while a send is in progress only "File sending in progress" is posted;
      otherwise the chosen file `path/fn` starts sending. */
  function SendRelease(cfg: Config, a: App, files: map<string, seq<U8>>, readFails: bool): (r: Outcome)
    ensures r.app.browse == a.browse
    ensures Good(cfg, a) ==> Good(cfg, r.app)
    ensures Inv(a.xfer) ==> r.leaked == None
    ensures a.xfer.inProg ==> r == Outcome(a, [], Some(SendBusy), None)
    ensures !a.xfer.inProg ==>
      var path := Target(a.browse);
      && (r.app.xfer.inProg <==> path in files && !readFails)
      && (r.app.xfer.inProg ==>
            var data := files[path];
            && r.sent == [data[..if a.xfer.chunkSize <= |data| then a.xfer.chunkSize else |data|]]
            && r.notice == Some(Sending))
      && (!r.app.xfer.inProg ==> r.sent == [] && r.notice == Some(CannotSend))
  {
    if a.xfer.inProg then Outcome(a, [], Some(SendBusy), None)
    else
      var s := StartSend(a.xfer, files, Target(a.browse), readFails);
      Outcome(a.(xfer := s.xfer), s.sent, s.notice, s.leaked)
  }

  /** `win_del_lpr_action`: remove `path/fn`. Removal succeeds exactly when the file exists and the
      adapter does not fail (`removeFails`); only the removed file disappears. */
  function DeleteLongPress(a: App, files: map<string, seq<U8>>, removeFails: bool): (r: (map<string, seq<U8>>, Notice))
    ensures r.1 == Deleted || r.1 == CannotDelete
    ensures r.1 == Deleted <==> Target(a.browse) in files && !removeFails
    ensures r.1 == Deleted ==> Target(a.browse) !in r.0 && r.0.Keys == files.Keys - {Target(a.browse)}
    ensures forall p :: p in r.0 ==> p in files && r.0[p] == files[p]
    ensures r.1 == CannotDelete ==> r.0 == files
  {
    var path := Target(a.browse);
    if path in files && !removeFails then (files - {path}, Deleted) else (files, CannotDelete)
  }

  /** A deleted file can no longer be sent. */
  lemma DeletedFileCannotBeSent(cfg: Config, a: App, files: map<string, seq<U8>>)
    requires !a.xfer.inProg
    ensures var (files', n) := DeleteLongPress(a, files, false);
      n == Deleted ==>
        var r := SendRelease(cfg, a, files', false);
        !r.app.xfer.inProg && r.sent == [] && r.notice == Some(CannotSend)
  {
  }

  // ---------------------------------------------------------------- the send task

  /** One run of `send_task`; browsing is untouched. */
  function SendTask(cfg: Config, a: App, readFails: bool): (r: Outcome)
    requires Inv(a.xfer)
    ensures r.app.browse == a.browse
    ensures Good(cfg, a) ==> Good(cfg, r.app)
    ensures r.leaked == None
    ensures !a.xfer.inProg ==> r == Outcome(a, [], None, None)
  {
    var s := Tick(a.xfer, readFails);
    Outcome(a.(xfer := s.xfer), s.sent, s.notice, s.leaked)
  }

  /** From any good state a send in progress ends: after `rest / chunk_size + 1` runs of the send task
      without read errors it is over, and the messages carry the rest of the file. */
  lemma GoodSendEnds(cfg: Config, a: App)
    requires Good(cfg, a) && a.xfer.inProg
    ensures var h := a.xfer.file.value;
      var r := Drain(a.xfer, (|h.data| - h.pos) / a.xfer.chunkSize + 1);
      !r.0.inProg && Concat(r.1) == h.data[h.pos..]
  {
    DrainDelivers(a.xfer);
  }

  // ---------------------------------------------------------------- send settings

  /** The two fields of the send settings (`send_settings_id_t`). */
  datatype SettingsField = ChunkDelayField | ChunkSizeField

  /** The chunk size as `send_settings_kb_ok_action` computes it from the typed number: capped at
      `LV_APP_FILES_CHUNK_MAX_SIZE` from above only, then cast to `uint16_t`. */
  function ClampChunkSizeAsWritten(cfg: Config, num: int): (r: U16)
    requires cfg.Valid()
    ensures num > cfg.chunkMaxSize ==> r == cfg.chunkMaxSize
    ensures 0 <= num <= cfg.chunkMaxSize ==> r == num
    ensures -0x1_0000 <= num < 0 ==> r == num + 0x1_0000
    ensures num <= cfg.chunkMaxSize ==> (num - r) % 0x1_0000 == 0
  {
    ToU16(if num > cfg.chunkMaxSize then cfg.chunkMaxSize else num)
  }

  /** Typing -1 makes the chunk size 65535, larger than the read buffer whenever the buffer is
      smaller than that; typing 0 makes it 0, and a send with it never ends. */
  lemma ClampAsWrittenEscapes(cfg: Config, a: App)
    requires cfg.Valid() && cfg.chunkMaxSize < 0xFFFF
    ensures ClampChunkSizeAsWritten(cfg, -1) == 0xFFFF > cfg.chunkMaxSize
    ensures ClampChunkSizeAsWritten(cfg, 0) == 0
    ensures var x := a.xfer.(chunkSize := ClampChunkSizeAsWritten(cfg, 0));
      Inv(x) && x.inProg ==> forall n: nat :: Drain(x, n).0.inProg
  {
    var x := a.xfer.(chunkSize := ClampChunkSizeAsWritten(cfg, 0));
    if Inv(x) && x.inProg {
      forall n: nat
        ensures Drain(x, n).0.inProg
      {
        ZeroChunkNeverEnds(x, n);
      }
    }
  }

  /** The chunk size the settings evidently intend: the typed number kept within 1 and
      `LV_APP_FILES_CHUNK_MAX_SIZE`. */
  function ClampChunkSize(cfg: Config, num: int): (r: U16)
    requires cfg.Valid()
    ensures 1 <= r <= cfg.chunkMaxSize
    ensures 1 <= num <= cfg.chunkMaxSize ==> r == num
    ensures num > cfg.chunkMaxSize ==> r == cfg.chunkMaxSize
    ensures num < 1 ==> r == 1
  {
    if num > cfg.chunkMaxSize then cfg.chunkMaxSize else if num < 1 then 1 else num
  }

  /** `send_settings_kb_ok_action` with the chunk size clamped as intended: the delay is the
      typed number cast to `uint16_t`; nothing but the edited field changes. */
  function SettingsOk(cfg: Config, a: App, field: SettingsField, num: int): (r: App)
    requires cfg.Valid()
    ensures Good(cfg, a) ==> Good(cfg, r)
    ensures r.browse == a.browse && r.xfer.file == a.xfer.file && r.xfer.inProg == a.xfer.inProg
    ensures r.xfer.task == a.xfer.task
    ensures field == ChunkDelayField ==> r.xfer.chunkSize == a.xfer.chunkSize
    ensures field == ChunkDelayField ==> (num - r.xfer.chunkDelay) % 0x1_0000 == 0
    ensures field == ChunkDelayField && 0 <= num < 0x1_0000 ==> r.xfer.chunkDelay == num
    ensures field == ChunkSizeField ==> r.xfer.chunkDelay == a.xfer.chunkDelay
    ensures field == ChunkSizeField ==> 1 <= r.xfer.chunkSize <= cfg.chunkMaxSize
    ensures field == ChunkSizeField && 1 <= num <= cfg.chunkMaxSize ==> r.xfer.chunkSize == num
  {
    match field
    case ChunkDelayField => a.(xfer := a.xfer.(chunkDelay := ToU16(num)))
    case ChunkSizeField => a.(xfer := a.xfer.(chunkSize := ClampChunkSize(cfg, num)))
  }

  /** Whatever is typed, a send started after the settings ends: the chunk size stays positive,
      so every send that starts ends after finitely many runs of the send task. */
  lemma SettingsKeepSendsFinite(cfg: Config, a: App, num: int, files: map<string, seq<U8>>, path: string)
    requires cfg.Valid() && Good(cfg, a) && path in files
    ensures var b := SettingsOk(cfg, a, ChunkSizeField, num);
      var s := StartSend(b.xfer, files, path, false);
      var r := Drain(s.xfer, Runs(|files[path]|, b.xfer.chunkSize));
      !r.0.inProg && Concat(s.sent + r.1) == files[path]
  {
    var b := SettingsOk(cfg, a, ChunkSizeField, num);
    SendWholeFile(b.xfer, files, path);
  }

  /** A typed delay beyond 16 bits wraps: 70000 ms becomes 4464 ms and -70000 ms becomes 61072 ms. */
  lemma DelayWraps(cfg: Config, a: App)
    requires cfg.Valid()
    ensures SettingsOk(cfg, a, ChunkDelayField, 70000).xfer.chunkDelay == 4464
    ensures SettingsOk(cfg, a, ChunkDelayField, -70000).xfer.chunkDelay == 61072
  {
    DivModOf(70000, 0x1_0000, 1, 4464);
    DivModOf(-70000, 0x1_0000, -2, 61072);
  }

  /** A new delay takes effect at the next send: the running task keeps its period, and the next
      `start_send` arms it with the new delay. */
  lemma DelayTakesEffectAtNextSend(cfg: Config, a: App, num: int, files: map<string, seq<U8>>, path: string)
    requires cfg.Valid() && path in files
    ensures var b := SettingsOk(cfg, a, ChunkDelayField, num);
      && b.xfer.task == a.xfer.task
      && StartSend(b.xfer, files, path, false).xfer.task == Task(true, ToU16(num))
  {
  }
}

/** Navigation in the Files applet: what pressing each list item does to the browsing state
    (the `win_up_action`, `win_next_action`, `win_prev_action`, `win_drv_action`,
    `win_folder_action`, `win_file_action` and `win_back_action` callbacks). */
module Browser {
  import opened Common
  import opened Pager

  /** The browsing part of the applet's data: the current `path` ("" shows the drive list), the
      chosen file name `fn` and the counter `file_cnt` of entries already shown in this directory. */
  datatype BrowseState = BrowseState(path: string, fn: string, fileCnt: U8)

  /** The file the Send and Delete buttons act on: the path and the chosen name joined by '/'. */
  function Target(st: BrowseState): (r: string)
    ensures |r| == |st.path| + 1 + |st.fn|
    ensures r[..|st.path|] == st.path && r[|st.path|] == '/' && r[|st.path| + 1..] == st.fn
  {
    st.path + "/" + st.fn
  }

  /** The list `win_file_action` shows instead of the directory once a file is chosen. */
  const FileMenu: seq<Item> := [BackItem, SendItem, DeleteItem]

  /** Whether pressing the item rebuilds the directory page with `win_load_file_list`. */
  predicate Reloads(it: Item) {
    !(it.FileItem? || it.SendItem? || it.DeleteItem?)
  }

  /** The browsing state after pressing `it`; `parent` is what `fs_up` makes of the path. */
  function Press(cfg: Config, st: BrowseState, it: Item, parent: string): (r: BrowseState)
    requires cfg.Valid()
    // Entering or leaving a directory restarts its listing at the first page.
    ensures it.DriveItem? || it.UpItem? || it.FolderItem? || it.BackItem? ==> r.fileCnt == 0
    ensures it.DriveItem? ==> r.path == [it.letter] + ":"
    ensures it.UpItem? ==> r.path == parent
    ensures it.FolderItem? ==> r.path == st.path + "/" + it.name
    // Only Drive, Up and a folder change the path.
    ensures !(it.DriveItem? || it.UpItem? || it.FolderItem?) ==> r.path == st.path
    // "Previous page" moves the counter down to a page boundary; "Next page" keeps it.
    ensures it.PrevItem? ==> r.fileCnt % cfg.pageSize == 0 && (st.fileCnt > 0 ==> r.fileCnt < st.fileCnt)
    ensures it.NextItem? ==> r == st
    // Only choosing a file changes the chosen name, and it changes nothing else.
    ensures it.FileItem? ==> r == st.(fn := it.name)
    ensures !it.FileItem? ==> r.fn == st.fn
    ensures it.SendItem? || it.DeleteItem? ==> r == st
  {
    match it
    case DriveItem(c) => BrowseState([c] + ":", st.fn, 0)
    case UpItem => BrowseState(parent, st.fn, 0)
    case PrevItem => st.(fileCnt := PrevPage(cfg.pageSize, st.fileCnt))
    case NextItem => st
    case FolderItem(name) => BrowseState(st.path + "/" + name, st.fn, 0)
    case FileItem(name) => st.(fn := name)
    case BackItem => st.(fileCnt := 0)
    case SendItem => st
    case DeleteItem => st
  }

  /** Every item a loaded page offers that rebuilds the page does so from a page boundary: the
      counter a page leaves behind is a multiple of the page size whenever "Next page" is offered,
      and every other reloading item resets it or moves it to a boundary. */
  lemma PressedReloadStartsOnBoundary(cfg: Config, st: BrowseState, dir: Option<Listing>, letters: string,
                                      j: nat, parent: string)
    requires cfg.Valid()
    requires dir.Some? ==> |dir.value.names| < 0x100
    requires j < |Load(cfg, st.path, st.fileCnt, dir, letters).items|
    ensures var pg := Load(cfg, st.path, st.fileCnt, dir, letters);
      var it := pg.items[j];
      Reloads(it) ==> Press(cfg, st.(fileCnt := pg.fileCnt), it, parent).fileCnt % cfg.pageSize == 0
  {
    LoadNextOnBoundary(cfg, st.path, st.fileCnt, dir, letters);
    var pg := Load(cfg, st.path, st.fileCnt, dir, letters);
    ReloadOnBoundary(cfg, st.(fileCnt := pg.fileCnt), pg.items, j, parent);
  }

  /** Pressing a reloading item of a list that offers "Next page" only on a page boundary. */
  lemma ReloadOnBoundary(cfg: Config, st: BrowseState, items: seq<Item>, j: nat, parent: string)
    requires cfg.Valid() && j < |items|
    requires NextItem in items ==> st.fileCnt % cfg.pageSize == 0
    ensures Reloads(items[j]) ==> Press(cfg, st, items[j], parent).fileCnt % cfg.pageSize == 0
  {
    if items[j] == NextItem {
      assert NextItem in items;
    }
  }

  /** Pressing a listed entry: the entry read at position `i` of the directory is a folder exactly
      when its name starts with '/', and pressing it enters `path + "/" + name` without the marker
      at the first page; any other entry becomes the chosen file, whose Send/Delete target is
      `path + "/" + name`. */
  lemma PressListedEntry(cfg: Config, st: BrowseState, d: Listing, letters: string, i: nat, parent: string)
    requires cfg.Valid() && st.path != "" && |d.names| < 0x100
    requires SkipOk(d, st.fileCnt)
    requires st.fileCnt <= i < Load(cfg, st.path, st.fileCnt, Some(d), letters).fileCnt
    ensures var pg := Load(cfg, st.path, st.fileCnt, Some(d), letters);
      var k := |Head(st.fileCnt)| + (i - st.fileCnt);
      && i < |d.names| && d.names[i] != ""
      && k < |pg.items|
      && (pg.items[k].FolderItem? <==> d.names[i][0] == '/')
      && (d.names[i][0] == '/' ==>
            var r := Press(cfg, st, pg.items[k], parent);
            r.path == st.path + "/" + d.names[i][1..] && r.fileCnt == 0 && r.fn == st.fn)
      && (d.names[i][0] != '/' ==>
            var r := Press(cfg, st, pg.items[k], parent);
            r.fn == d.names[i] && r.path == st.path && Target(r) == st.path + "/" + d.names[i])
  {
    LoadEmitPhase(cfg, st.path, st.fileCnt, d, letters);
    var pg := Load(cfg, st.path, st.fileCnt, Some(d), letters);
    assert IsEntry(d, i);
    var it := Classify(d.names[i]);
    if d.names[i][0] == '/' {
      assert d.names[i] == "/" + it.name;
      assert it.name == d.names[i][1..];
    }
  }

  /** "Previous page" on a page that started at a boundary past the first page brings the counter
      to the start of the page before it, so the next load lists that page. */
  lemma PrevReturnsToPreviousPage(cfg: Config, st: BrowseState, d: Listing, letters: string, parent: string)
    requires cfg.Valid() && st.path != "" && |d.names| < 0x100
    requires SkipOk(d, st.fileCnt) && st.fileCnt % cfg.pageSize == 0 && st.fileCnt != 0
    ensures var pg := Load(cfg, st.path, st.fileCnt, Some(d), letters);
      && PrevItem in pg.items
      && st.fileCnt >= cfg.pageSize
      && Press(cfg, st.(fileCnt := pg.fileCnt), PrevItem, parent).fileCnt == st.fileCnt - cfg.pageSize
  {
    var pg := Load(cfg, st.path, st.fileCnt, Some(d), letters);
    if st.fileCnt < cfg.pageSize {
      DivModOf(st.fileCnt, cfg.pageSize, 0, st.fileCnt);
    }
    LoadEmitPhase(cfg, st.path, st.fileCnt, d, letters);
    PrevPageGoesBackOnePage(cfg.pageSize, st.fileCnt, pg.fileCnt);
  }

  /** Choosing a drive and then a folder builds the path "<letter>:/<folder>". */
  lemma DriveThenFolder(cfg: Config, st: BrowseState, c: char, name: string, parent: string)
    requires cfg.Valid()
    ensures var r := Press(cfg, Press(cfg, st, DriveItem(c), parent), FolderItem(name), parent);
      r.path == [c, ':', '/'] + name && r.fileCnt == 0
  {
  }
}

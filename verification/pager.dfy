/** The paginated directory listing of the Files applet: which entries one page shows
    (`win_load_file_list`) and where "Previous page" goes back to (`win_prev_action`). */
module Pager {
  import opened Common

  /** One result of `fs_readdir`: a name (the empty name marks the end of the directory) or a read error. */
  datatype DirRead = Entry(name: string) | ReadError

  /** What a freshly opened directory cursor yields, in the adapter's order: the `names`, then,
      for ever after, the end marker, or a read error when `failsAtEnd`. A folder's name carries
      a leading '/'. */
  datatype Listing = Listing(names: seq<string>, failsAtEnd: bool)

  /** The result of the `i`-th `fs_readdir` on a freshly opened cursor (counting from 0). */
  function ReadAt(d: Listing, i: nat): DirRead {
    if i < |d.names| then Entry(d.names[i])
    else if d.failsAtEnd then ReadError
    else Entry("")
  }

  /** The `i`-th read yields a real entry: neither a read error nor the end marker. */
  predicate IsEntry(d: Listing, i: nat) {
    ReadAt(d, i).Entry? && ReadAt(d, i).name != ""
  }

  /** An element of the applet's list. */
  datatype Item =
    | DriveItem(letter: char)
    | UpItem
    | PrevItem
    | FolderItem(name: string)
    | FileItem(name: string)
    | NextItem
    | BackItem
    | SendItem
    | DeleteItem

  /** How a directory entry is listed: a leading '/' marks a folder, shown without the marker
      and bound to the folder action; any other name is a file, shown as it is. */
  function Classify(name: string): (it: Item)
    requires name != ""
    ensures it.FolderItem? || it.FileItem?
    ensures it.FolderItem? <==> name[0] == '/'
    ensures it.FolderItem? ==> "/" + it.name == name
    ensures it.FileItem? ==> it.name == name
  {
    if name[0] == '/' then FolderItem(name[1..]) else FileItem(name)
  }

  /** The number of directory entries (folders and files) among `items`. */
  function EntryCount(items: seq<Item>): nat {
    if items == [] then 0
    else (if items[0].FolderItem? || items[0].FileItem? then 1 else 0) + EntryCount(items[1..])
  }

  lemma {:induction false} EntryCountAppend(a: seq<Item>, b: seq<Item>)
    ensures EntryCount(a + b) == EntryCount(a) + EntryCount(b)
  {
    if a == [] {
      assert a + b == b;
    } else {
      assert (a + b)[1..] == a[1..] + b;
      EntryCountAppend(a[1..], b);
    }
  }

  /** Items that all stand for directory entries are all counted. */
  lemma {:induction false} EntryCountAll(items: seq<Item>)
    requires forall j :: 0 <= j < |items| ==> items[j].FolderItem? || items[j].FileItem?
    ensures EntryCount(items) == |items|
  {
    if items != [] {
      EntryCountAll(items[1..]);
    }
  }

  /** Items none of which stands for a directory entry are not counted. */
  lemma {:induction false} EntryCountNone(items: seq<Item>)
    requires forall j :: 0 <= j < |items| ==> !(items[j].FolderItem? || items[j].FileItem?)
    ensures EntryCount(items) == 0
  {
    if items != [] {
      EntryCountNone(items[1..]);
    }
  }

  /** The items listed for the `k` entries read at positions `from`, `from + 1`, ... */
  function Shown(d: Listing, from: nat, k: nat): (s: seq<Item>)
    requires forall i :: from <= i < from + k ==> IsEntry(d, i)
    ensures |s| == k
    ensures forall j :: 0 <= j < k ==> s[j].FolderItem? || s[j].FileItem?
    ensures forall j :: 0 <= j < k ==> IsEntry(d, from + j) && s[j] == Classify(d.names[from + j])
  {
    var s := seq(k, j requires 0 <= j < k && IsEntry(d, from + j) => Classify(d.names[from + j]));
    assert forall j :: 0 <= j < k ==> IsEntry(d, from + j) && s[j] == Classify(d.names[from + j]);
    s
  }

  lemma ShownSnoc(d: Listing, from: nat, k: nat)
    requires forall i :: from <= i < from + k ==> IsEntry(d, i)
    requires IsEntry(d, from + k)
    ensures Shown(d, from, k + 1) == Shown(d, from, k) + [Classify(d.names[from + k])]
  {
    var a := Shown(d, from, k + 1);
    var b := Shown(d, from, k) + [Classify(d.names[from + k])];
    assert |a| == |b|;
    forall j | 0 <= j < |a|
      ensures a[j] == b[j]
    {
      if j < k {
        assert b[j] == Shown(d, from, k)[j];
      }
    }
  }

  /** The number of consecutive entries read from position `from` on, but at most `limit`. */
  function RunLength(d: Listing, from: nat, limit: nat): (k: nat)
    ensures k <= limit
    ensures forall i :: from <= i < from + k ==> IsEntry(d, i)
    ensures k < limit ==> !IsEntry(d, from + k)
    decreases limit
  {
    if limit == 0 || !IsEntry(d, from) then 0 else 1 + RunLength(d, from + 1, limit - 1)
  }

  /** The contract of `RunLength` determines it: a run of entries that stops at a non-entry or at the limit is the run. */
  lemma {:induction false} RunLengthUnique(d: Listing, from: nat, limit: nat, k: nat)
    requires k <= limit
    requires forall i :: from <= i < from + k ==> IsEntry(d, i)
    requires k < limit ==> !IsEntry(d, from + k)
    ensures RunLength(d, from, limit) == k
    decreases limit
  {
    if k > 0 {
      assert IsEntry(d, from);
      RunLengthUnique(d, from + 1, limit - 1, k - 1);
    }
  }

  /** The first multiple of `p` above `cnt`: where a page that starts at or before `cnt` ends. */
  function PageEnd(p: nat, cnt: nat): (e: nat)
    requires p > 0
    ensures cnt < e <= cnt + p
    ensures e % p == 0
    ensures cnt % p == 0 ==> e == cnt + p
    ensures forall x :: cnt < x < e ==> x % p != 0
    decreases cnt
  {
    if cnt < p then
      PageEndFirst(p, cnt);
      p
    else
      var e := PageEnd(p, cnt - p);
      PageEndNext(p, cnt, e);
      e + p
  }

  /** `PageEnd` below the first page size is the page size. */
  lemma PageEndFirst(p: nat, cnt: nat)
    requires 0 <= cnt < p
    ensures p % p == 0
    ensures cnt % p == 0 ==> p == cnt + p
    ensures forall x :: cnt < x < p ==> x % p != 0
  {
    DivModOf(p, p, 1, 0);
    DivModOf(cnt, p, 0, cnt);
    forall x | cnt < x < p
      ensures x % p != 0
    {
      DivModOf(x, p, 0, x);
    }
  }

  /** One page further on, the page end is one page size further on. */
  lemma PageEndNext(p: nat, cnt: nat, e: nat)
    requires p > 0 && cnt >= p
    requires cnt - p < e <= cnt && e % p == 0
    requires (cnt - p) % p == 0 ==> e == cnt
    requires forall x :: cnt - p < x < e ==> x % p != 0
    ensures (e + p) % p == 0
    ensures cnt % p == 0 ==> e + p == cnt + p
    ensures forall x :: cnt < x < e + p ==> x % p != 0
  {
    DivModOf(e + p, p, e / p + 1, 0);
    DivModOf(cnt, p, (cnt - p) / p + 1, (cnt - p) % p);
    forall x | cnt < x < e + p
      ensures x % p != 0
    {
      DivModOf(x, p, (x - p) / p + 1, (x - p) % p);
    }
  }

  /** Within one page, the counter is a multiple of the page size exactly at the page's end. */
  lemma AtPageEnd(p: nat, cnt: nat, n: nat)
    requires p > 0 && cnt < n <= PageEnd(p, cnt)
    ensures n % p == 0 <==> n == PageEnd(p, cnt)
  {
  }

  /** Where the directory cursor stands when the load returns. */
  datatype Cursor = NotOpened | Closed | LeftOpen

  /** What `win_load_file_list` produces: the list items, the counter `file_cnt` it leaves behind,
      whether it posted the "Can not read the path" notice, and the fate of the directory cursor. */
  datatype Page = Page(items: seq<Item>, fileCnt: U8, readNotice: bool, cursor: Cursor)

  /** The items above the entries of a directory page: "Up", then "Previous page" past the first page. */
  function Head(cnt: nat): seq<Item> {
    [UpItem] + (if cnt != 0 then [PrevItem] else [])
  }

  /** The skip phase succeeds: the first `cnt + 1` reads are all entries. */
  predicate SkipOk(d: Listing, cnt: nat) {
    forall i :: 0 <= i <= cnt ==> IsEntry(d, i)
  }

  /** The page built for `path` with `cnt` entries already shown. `dir` is the cursor `fs_readdir_init`
      opens on `path` (`None` when it fails) and `letters` what `fs_get_letters` reports.
      The counter is a `uint8_t`, so the directory is required to hold fewer than 256 names. */
  function Load(cfg: Config, path: string, cnt: U8, dir: Option<Listing>, letters: string): (pg: Page)
    requires cfg.Valid()
    requires dir.Some? ==> |dir.value.names| < 0x100
    // At the empty path: one item per drive letter and nothing else; the counter is untouched.
    ensures path == "" ==>
      && |pg.items| == |letters|
      && (forall i :: 0 <= i < |letters| ==> pg.items[i] == DriveItem(letters[i]))
      && pg.fileCnt == cnt && !pg.readNotice && pg.cursor == NotOpened
    // Elsewhere "Up" comes first, even when the directory cannot be opened ...
    ensures path != "" ==> |pg.items| > 0 && pg.items[0] == UpItem
    ensures path != "" && dir.None? ==> pg.items == [UpItem] && pg.readNotice && pg.fileCnt == cnt
    // ... and, once it is open, "Previous page" is listed exactly when entries were already shown.
    ensures path != "" && dir.Some? ==> (PrevItem in pg.items <==> cnt != 0)
  {
    if path == "" then
      Page(seq(|letters|, i requires 0 <= i < |letters| => DriveItem(letters[i])), cnt, false, NotOpened)
    else if dir.None? then
      Page([UpItem], cnt, true, NotOpened)
    else
      var d := dir.value;
      if !SkipOk(d, cnt) then
        Page(Head(cnt), cnt, true, LeftOpen)
      else
        var end := PageEnd(cfg.pageSize, cnt);
        var k := RunLength(d, cnt, end - cnt);
        assert IsEntry(d, cnt);
        assert IsEntry(d, cnt + k - 1);
        var last: U8 := cnt + k;
        Page(Head(cnt) + Shown(d, cnt, k) + (if last == end then [NextItem] else []),
             last, ReadAt(d, last).ReadError?, Closed)
  }

  /** The skip phase succeeds exactly when the directory holds more than `cnt` names, none of the
      first `cnt + 1` being the empty end marker. */
  lemma SkipOkIff(d: Listing, cnt: nat)
    ensures SkipOk(d, cnt) <==> cnt < |d.names| && forall i :: 0 <= i <= cnt ==> d.names[i] != ""
  {
    if SkipOk(d, cnt) {
      assert IsEntry(d, cnt);
      forall i | 0 <= i <= cnt
        ensures d.names[i] != ""
      {
        assert IsEntry(d, i);
      }
    }
    if cnt < |d.names| && forall i :: 0 <= i <= cnt ==> d.names[i] != "" {
      forall i | 0 <= i <= cnt
        ensures IsEntry(d, i)
      {
        assert d.names[i] != "";
      }
    }
  }

  /** The skip phase of a load: it fails exactly when the directory holds no more than `cnt` names or
      one of its first `cnt + 1` reads is not an entry; a failed skip lists no entry, posts the notice,
      keeps the counter and returns without closing the cursor. A successful one discards exactly `cnt`
      entries: the first entry listed is the one at position `cnt`. */
  lemma LoadSkipPhase(cfg: Config, path: string, cnt: U8, d: Listing, letters: string)
    requires cfg.Valid() && path != "" && |d.names| < 0x100
    ensures SkipOk(d, cnt) <==> cnt < |d.names| && forall i :: 0 <= i <= cnt ==> d.names[i] != ""
    ensures var pg := Load(cfg, path, cnt, Some(d), letters);
      && (!SkipOk(d, cnt) <==> pg.cursor == LeftOpen)
      && (!SkipOk(d, cnt) ==> pg.items == Head(cnt) && EntryCount(pg.items) == 0 && pg.readNotice && pg.fileCnt == cnt)
      && (SkipOk(d, cnt) ==>
            && pg.cursor == Closed
            && |pg.items| > |Head(cnt)|
            && cnt < |d.names|
            && pg.items[|Head(cnt)|] == Classify(d.names[cnt]))
  {
    SkipOkIff(d, cnt);
    var pg := Load(cfg, path, cnt, Some(d), letters);
    if SkipOk(d, cnt) {
      assert IsEntry(d, cnt);
      LoadShape(cfg, path, cnt, d, letters);
    } else {
      assert pg.items == Head(cnt);
      EntryCountAppend([UpItem], if cnt != 0 then [PrevItem] else []);
    }
  }

  /** The page of a successful load, spelled out. */
  lemma LoadShape(cfg: Config, path: string, cnt: U8, d: Listing, letters: string)
    requires cfg.Valid() && path != "" && |d.names| < 0x100
    requires SkipOk(d, cnt)
    ensures var pg := Load(cfg, path, cnt, Some(d), letters);
      var e := PageEnd(cfg.pageSize, cnt);
      var k := RunLength(d, cnt, e - cnt);
      && pg.fileCnt == cnt + k
      && pg.items == Head(cnt) + Shown(d, cnt, k) + (if cnt + k == e then [NextItem] else [])
      && pg.readNotice == ReadAt(d, cnt + k).ReadError?
      && pg.cursor == Closed
  {
  }

  /** The entries of a page of the shape `LoadShape` gives, stated without `Load`. */
  lemma EmitEntries(p: nat, cnt: U8, d: Listing, k: nat, items: seq<Item>)
    requires p > 0 && SkipOk(d, cnt)
    requires k == RunLength(d, cnt, PageEnd(p, cnt) - cnt)
    requires items == Head(cnt) + Shown(d, cnt, k) + (if cnt + k == PageEnd(p, cnt) then [NextItem] else [])
    ensures 0 < k && cnt + k <= PageEnd(p, cnt)
    ensures EntryCount(items) == k
    ensures |items| >= |Head(cnt)| + k
    ensures forall i :: cnt <= i < cnt + k ==> IsEntry(d, i) && items[|Head(cnt)| + (i - cnt)] == Classify(d.names[i])
  {
    assert IsEntry(d, cnt);
    EmitCount(Head(cnt), Shown(d, cnt, k), if cnt + k == PageEnd(p, cnt) then [NextItem] else [], items);
    EmitItems(d, cnt, k, items);
  }

  /** The entry count of a page: the head and the tail hold none, the shown part only entries. */
  lemma EmitCount(head: seq<Item>, shown: seq<Item>, tail: seq<Item>, items: seq<Item>)
    requires forall j :: 0 <= j < |head| ==> head[j] == UpItem || head[j] == PrevItem
    requires forall j :: 0 <= j < |tail| ==> tail[j] == NextItem
    requires forall j :: 0 <= j < |shown| ==> shown[j].FolderItem? || shown[j].FileItem?
    requires items == head + shown + tail
    ensures EntryCount(items) == |shown|
  {
    EntryCountNone(head);
    EntryCountNone(tail);
    EntryCountAll(shown);
    EntryCountAppend(head, shown);
    EntryCountAppend(head + shown, tail);
  }

  /** The listed entries sit right after the head, in the order they were read. */
  lemma EmitItems(d: Listing, cnt: U8, k: nat, items: seq<Item>)
    requires forall i :: cnt <= i < cnt + k ==> IsEntry(d, i)
    requires |items| >= |Head(cnt)| + k && items[|Head(cnt)|..|Head(cnt)| + k] == Shown(d, cnt, k)
    ensures forall i :: cnt <= i < cnt + k ==> IsEntry(d, i) && items[|Head(cnt)| + (i - cnt)] == Classify(d.names[i])
  {
    var shown := Shown(d, cnt, k);
    forall i | cnt <= i < cnt + k
      ensures IsEntry(d, i) && items[|Head(cnt)| + (i - cnt)] == Classify(d.names[i])
    {
      assert items[|Head(cnt)| + (i - cnt)] == shown[i - cnt];
      assert IsEntry(d, cnt + (i - cnt));
    }
  }

  /** Where "Next page" appears in a page of the shape `LoadShape` gives, stated without `Load`. */
  lemma EmitNext(p: nat, cnt: U8, d: Listing, k: nat, n: nat, items: seq<Item>)
    requires p > 0 && SkipOk(d, cnt)
    requires k == RunLength(d, cnt, PageEnd(p, cnt) - cnt) && n == cnt + k
    requires items == Head(cnt) + Shown(d, cnt, k) + (if cnt + k == PageEnd(p, cnt) then [NextItem] else [])
    ensures NextItem in items <==> n % p == 0
    ensures NextItem in items <==> n == PageEnd(p, cnt)
    ensures n < PageEnd(p, cnt) ==> !IsEntry(d, n)
  {
    var shown := Shown(d, cnt, k);
    assert IsEntry(d, cnt);
    assert NextItem !in Head(cnt);
    assert NextItem !in shown by {
      forall j | 0 <= j < |shown|
        ensures shown[j] != NextItem
      {
        assert shown[j].FolderItem? || shown[j].FileItem?;
      }
    }
    AtPageEnd(p, cnt, n);
  }

  /** The emit phase of a successful load: each listed entry raises the counter by exactly one and
      the entry listed `j`-th is the one read at position `cnt + j`; the page stops at the first
      multiple of the page size above `cnt`, so a page that starts on a boundary lists at most one
      page size of entries. */
  lemma LoadEmitPhase(cfg: Config, path: string, cnt: U8, d: Listing, letters: string)
    requires cfg.Valid() && path != "" && |d.names| < 0x100
    requires SkipOk(d, cnt)
    ensures var pg := Load(cfg, path, cnt, Some(d), letters);
      && cnt < pg.fileCnt <= PageEnd(cfg.pageSize, cnt)
      && (cnt % cfg.pageSize == 0 ==> pg.fileCnt - cnt <= cfg.pageSize)
      && EntryCount(pg.items) == pg.fileCnt - cnt
      && |pg.items| >= |Head(cnt)| + (pg.fileCnt - cnt)
      && (forall i :: cnt <= i < pg.fileCnt ==>
            IsEntry(d, i) && pg.items[|Head(cnt)| + (i - cnt)] == Classify(d.names[i]))
  {
    LoadShape(cfg, path, cnt, d, letters);
    var pg := Load(cfg, path, cnt, Some(d), letters);
    EmitEntries(cfg.pageSize, cnt, d, pg.fileCnt - cnt, pg.items);
  }

  /** How a successful page ends: "Next page" is listed exactly when the counter lands on a multiple
      of the page size, which is the end of the page; otherwise the page stopped at the end marker or
      a read error. The notice is posted exactly when the read that ended the page failed, even when
      "Next page" is listed. */
  lemma LoadPageEnd(cfg: Config, path: string, cnt: U8, d: Listing, letters: string)
    requires cfg.Valid() && path != "" && |d.names| < 0x100
    requires SkipOk(d, cnt)
    ensures var pg := Load(cfg, path, cnt, Some(d), letters);
      var e := PageEnd(cfg.pageSize, cnt);
      && (NextItem in pg.items <==> pg.fileCnt % cfg.pageSize == 0)
      && (NextItem in pg.items <==> pg.fileCnt == e)
      && (pg.fileCnt < e ==> !IsEntry(d, pg.fileCnt))
      && (pg.readNotice <==> ReadAt(d, pg.fileCnt).ReadError?)
  {
    LoadShape(cfg, path, cnt, d, letters);
    LoadNextAtPageEnd(cfg, path, cnt, d, letters);
  }

  /** Whatever the path and the directory, a page offers "Next page" only with the counter on a
      page boundary. */
  lemma LoadNextOnBoundary(cfg: Config, path: string, cnt: U8, dir: Option<Listing>, letters: string)
    requires cfg.Valid()
    requires dir.Some? ==> |dir.value.names| < 0x100
    ensures var pg := Load(cfg, path, cnt, dir, letters);
      NextItem in pg.items ==> pg.fileCnt % cfg.pageSize == 0
  {
    var pg := Load(cfg, path, cnt, dir, letters);
    if path == "" {
      assert NextItem !in pg.items by {
        forall i | 0 <= i < |pg.items|
          ensures pg.items[i] != NextItem
        {
          assert pg.items[i] == DriveItem(letters[i]);
        }
      }
    } else if dir.Some? {
      if SkipOk(dir.value, cnt) {
        LoadNextAtPageEnd(cfg, path, cnt, dir.value, letters);
      } else {
        LoadSkipPhase(cfg, path, cnt, dir.value, letters);
        assert NextItem !in Head(cnt);
      }
    }
  }

  /** The "Next page" half of `LoadPageEnd`. */
  lemma LoadNextAtPageEnd(cfg: Config, path: string, cnt: U8, d: Listing, letters: string)
    requires cfg.Valid() && path != "" && |d.names| < 0x100
    requires SkipOk(d, cnt)
    ensures var pg := Load(cfg, path, cnt, Some(d), letters);
      var e := PageEnd(cfg.pageSize, cnt);
      && (NextItem in pg.items <==> pg.fileCnt % cfg.pageSize == 0)
      && (NextItem in pg.items <==> pg.fileCnt == e)
      && (pg.fileCnt < e ==> !IsEntry(d, pg.fileCnt))
  {
    LoadShape(cfg, path, cnt, d, letters);
    var pg := Load(cfg, path, cnt, Some(d), letters);
    EmitNext(cfg.pageSize, cnt, d, pg.fileCnt - cnt, pg.fileCnt, pg.items);
  }

  /** A page that starts on a page boundary is full, with "Next page", exactly when the page size
      of entries follow its start; otherwise it lists fewer entries and no "Next page". */
  lemma LoadFullPage(cfg: Config, path: string, cnt: U8, d: Listing, letters: string)
    requires cfg.Valid() && path != "" && |d.names| < 0x100
    requires SkipOk(d, cnt) && cnt % cfg.pageSize == 0
    ensures var pg := Load(cfg, path, cnt, Some(d), letters);
      (forall i :: cnt <= i < cnt + cfg.pageSize ==> IsEntry(d, i))
        <==> (EntryCount(pg.items) == cfg.pageSize && NextItem in pg.items)
  {
    var pg := Load(cfg, path, cnt, Some(d), letters);
    LoadEmitPhase(cfg, path, cnt, d, letters);
    LoadPageEnd(cfg, path, cnt, d, letters);
    LoadShape(cfg, path, cnt, d, letters);
  }

  /** Following "Next page" from a page re-reads the directory from the counter it left; that load
      fails its skip phase exactly when no entry follows the page, so a directory whose last page is
      exactly full offers a "Next page" that leads to the notice and a page with no entries. */
  lemma NextPageAfterLastEntry(cfg: Config, path: string, cnt: U8, d: Listing, letters: string)
    requires cfg.Valid() && path != "" && |d.names| < 0x100
    requires SkipOk(d, cnt)
    ensures var pg := Load(cfg, path, cnt, Some(d), letters);
      var next := Load(cfg, path, pg.fileCnt, Some(d), letters);
      NextItem in pg.items ==>
        (next.cursor == LeftOpen <==> !IsEntry(d, pg.fileCnt))
  {
    var pg := Load(cfg, path, cnt, Some(d), letters);
    LoadEmitPhase(cfg, path, cnt, d, letters);
    SkipExtends(d, cnt, pg.fileCnt);
    LoadSkipPhase(cfg, path, pg.fileCnt, d, letters);
  }

  /** The empty page behind an exactly full last page keeps the counter on its boundary `n`, so
      "Previous page" there goes back two page sizes, to the page before the last one listed: with
      a page size of 10 and exactly 30 names it returns to 10, passing over the page 20..29. */
  lemma PrevAfterEmptyPage(cfg: Config, path: string, n: U8, d: Listing, letters: string)
    requires cfg.Valid() && path != "" && |d.names| < 0x100
    requires !SkipOk(d, n) && n % cfg.pageSize == 0 && n >= 2 * cfg.pageSize
    ensures var pg := Load(cfg, path, n, Some(d), letters);
      && pg.fileCnt == n && PrevItem in pg.items
      && PrevPage(cfg.pageSize, pg.fileCnt) == n - 2 * cfg.pageSize
  {
    LoadSkipPhase(cfg, path, n, d, letters);
    assert Head(n)[1] == PrevItem;
  }

  /** A skip that succeeds up to `cnt` and is followed by entries up to `n` succeeds up to `n`
      exactly when read `n` is an entry too. */
  lemma SkipExtends(d: Listing, cnt: nat, n: nat)
    requires SkipOk(d, cnt) && cnt <= n
    requires forall i :: cnt <= i < n ==> IsEntry(d, i)
    ensures SkipOk(d, n) <==> IsEntry(d, n)
  {
    if IsEntry(d, n) {
      forall i | 0 <= i <= n
        ensures IsEntry(d, i)
      {
        if cnt < i < n {
          assert IsEntry(d, i);
        }
      }
    }
  }

  /** The counter after "Previous page" (`win_prev_action`). */
  function PrevPage(p: nat, cnt: U8): (r: U8)
    requires p > 0
    ensures r % p == 0
    ensures cnt > 0 ==> r < cnt
    ensures r == 0 <==> cnt <= 2 * p
  {
    if cnt <= 2 * p then 0
    else if cnt % p == 0 then
      DivModOf(cnt, p, cnt / p, 0);
      DivModOf(cnt - 2 * p, p, cnt / p - 2, 0);
      cnt - 2 * p
    else
      var q := cnt / p;
      MulAtLeast(q - 1, p);
      DivModOf((q - 1) * p, p, q - 1, 0);
      assert (q - 1) * p < cnt;
      (q - 1) * p
  }

  /** "Previous page" goes back exactly one page: after a page that started at the boundary `s` and
      left the counter at `n` (one to a page size of entries later), the counter becomes the start of
      the page before, or 0 from the first two pages. */
  lemma PrevPageGoesBackOnePage(p: nat, s: nat, n: U8)
    requires p > 0 && s % p == 0 && s < n <= s + p
    ensures PrevPage(p, n) == if s >= p then s - p else 0
  {
    var q := s / p;
    DivModOf(s, p, q, 0);
    if q <= 1 {
      PrevPageFirstPages(p, q, s, n);
    } else if n == s + p {
      PrevPageAtBoundary(p, q, s, n);
    } else {
      PrevPageInsidePage(p, q, s, n);
    }
  }

  lemma PrevPageFirstPages(p: nat, q: nat, s: nat, n: U8)
    requires p > 0 && q <= 1 && s == q * p && s < n <= s + p
    ensures PrevPage(p, n) == if s >= p then s - p else 0
  {
    assert s == 0 || s == p;
  }

  lemma PrevPageAtBoundary(p: nat, q: nat, s: nat, n: U8)
    requires p > 0 && q >= 2 && s == q * p && n == s + p
    ensures PrevPage(p, n) == s - p && s >= p
  {
    MulAtLeast(q - 1, p);
    DivModOf(n, p, q + 1, 0);
  }

  lemma PrevPageInsidePage(p: nat, q: nat, s: nat, n: U8)
    requires p > 0 && q >= 2 && s == q * p && s < n < s + p
    ensures PrevPage(p, n) == s - p && s >= p
  {
    MulAtLeast(q - 1, p);
    DivModOf(n, p, q, n - s);
    assert (q - 1) * p == s - p;
  }

  /** `k` presses of "Previous page" starting from the counter `cnt`. */
  function PrevPages(p: nat, cnt: U8, k: nat): U8
    requires p > 0
  {
    if k == 0 then cnt else PrevPages(p, PrevPage(p, cnt), k - 1)
  }

  /** Repeated "Previous page" reaches the first page: `cnt` presses always suffice. */
  lemma {:induction false} PrevPageReachesZero(p: nat, cnt: U8, k: nat)
    requires p > 0 && k >= cnt
    ensures PrevPages(p, cnt, k) == 0
    decreases k
  {
    if k > 0 {
      PrevPageReachesZero(p, PrevPage(p, cnt), k - 1);
    }
  }

  /** The drive list of `win_load_file_list`: one item per letter `fs_get_letters` reports. */
  method ListDrives(letters: string) returns (drives: seq<Item>)
    ensures |drives| == |letters|
    ensures forall i :: 0 <= i < |letters| ==> drives[i] == DriveItem(letters[i])
  {
    drives := [];
    var i := 0;
    while i < |letters|
      invariant 0 <= i <= |letters|
      invariant |drives| == i
      invariant forall j :: 0 <= j < i ==> drives[j] == DriveItem(letters[j])
    {
      drives := drives + [DriveItem(letters[i])];
      i := i + 1;
    }
  }

  /** The skip loop of `win_load_file_list`: `cnt + 1` reads, stopping at the first one that is not
      an entry; the last read is handed on to the emit loop. */
  method SkipPages(d: Listing, cnt: U8) returns (ok: bool, cur: DirRead)
    ensures ok <==> SkipOk(d, cnt)
    ensures ok ==> cur == ReadAt(d, cnt)
  {
    var skipped := 0;
    cur := Entry("");
    while skipped <= cnt
      invariant skipped <= cnt + 1
      invariant forall i :: 0 <= i < skipped ==> IsEntry(d, i)
      invariant skipped > 0 ==> cur == ReadAt(d, skipped - 1)
    {
      cur := ReadAt(d, skipped);
      if cur.ReadError? || cur.name == "" {
        assert !IsEntry(d, skipped);
        return false, cur;
      }
      skipped := skipped + 1;
    }
    ok := true;
  }

  /** The emit loop of `win_load_file_list`: one item per entry, the counter raised by one for each,
      until a read ends or fails, or the counter reaches a multiple of the page size, which appends
      "Next page". `last` is the read that ended the loop. */
  method EmitPage(cfg: Config, d: Listing, cnt: U8, first: DirRead) returns (items: seq<Item>, n: U8, last: DirRead)
    requires cfg.Valid()
    requires |d.names| < 0x100
    requires SkipOk(d, cnt) && first == ReadAt(d, cnt)
    ensures var end := PageEnd(cfg.pageSize, cnt);
      && n == cnt + RunLength(d, cnt, end - cnt)
      && items == Shown(d, cnt, n - cnt) + (if n == end then [NextItem] else [])
      && last == ReadAt(d, n)
  {
    var end := PageEnd(cfg.pageSize, cnt);
    var shown: seq<Item> := [];
    n := cnt;
    last := first;
    var full := false;
    while !full && last.Entry? && last.name != ""
      invariant cnt <= n <= end
      invariant last == ReadAt(d, n)
      invariant forall i :: cnt <= i < n ==> IsEntry(d, i)
      invariant shown == Shown(d, cnt, n - cnt)
      invariant full <==> n == end
      decreases end - n
    {
      ShownSnoc(d, cnt, n - cnt);
      shown := shown + [Classify(last.name)];
      n := n + 1;
      last := ReadAt(d, n);
      AtPageEnd(cfg.pageSize, cnt, n);
      if n != 0 && n % cfg.pageSize == 0 {
        full := true;
      }
    }
    RunLengthUnique(d, cnt, end - cnt, n - cnt);
    items := shown + (if full then [NextItem] else []);
  }

  /** `win_load_file_list` as written, built from its three loops. */
  method LoadFileList(cfg: Config, path: string, cnt: U8, dir: Option<Listing>, letters: string)
    returns (pg: Page)
    requires cfg.Valid()
    requires dir.Some? ==> |dir.value.names| < 0x100
    ensures pg == Load(cfg, path, cnt, dir, letters)
  {
    if path == "" {
      var drives := ListDrives(letters);
      return Page(drives, cnt, false, NotOpened);
    }
    var items := [UpItem];
    if dir.None? {
      return Page(items, cnt, true, NotOpened);
    }
    var d := dir.value;
    if cnt != 0 {
      items := items + [PrevItem];
    }
    assert items == Head(cnt);
    var ok, cur := SkipPages(d, cnt);
    if !ok {
      LoadSkipPhase(cfg, path, cnt, d, letters);
      return Page(items, cnt, true, LeftOpen);
    }
    var entries, n, last := EmitPage(cfg, d, cnt, cur);
    LoadAfterEmit(cfg, path, cnt, d, letters, entries, n, last);
    return Page(items + entries, n, last.ReadError?, Closed);
  }

  /** The page a successful skip leads to, in the terms the emit loop reports. */
  lemma LoadAfterEmit(cfg: Config, path: string, cnt: U8, d: Listing, letters: string,
                      entries: seq<Item>, n: U8, last: DirRead)
    requires cfg.Valid() && path != "" && |d.names| < 0x100 && SkipOk(d, cnt)
    requires n == cnt + RunLength(d, cnt, PageEnd(cfg.pageSize, cnt) - cnt)
    requires entries == Shown(d, cnt, n - cnt) + (if n == PageEnd(cfg.pageSize, cnt) then [NextItem] else [])
    requires last == ReadAt(d, n)
    ensures Load(cfg, path, cnt, Some(d), letters) == Page(Head(cnt) + entries, n, last.ReadError?, Closed)
  {
    LoadShape(cfg, path, cnt, d, letters);
    assert Head(cnt) + entries
        == Head(cnt) + Shown(d, cnt, n - cnt) + (if n == PageEnd(cfg.pageSize, cnt) then [NextItem] else []);
  }
}

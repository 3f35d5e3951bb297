/** The chunked file send of the Files applet: `start_send` opens the file and sends its first
    chunk, then the periodic `send_task` sends one chunk per run until a read comes back short
    or fails. */
module Transfer {
  import opened Common

  /** An open file (`fs_file_t`): its contents and the read position. */
  datatype Handle = Handle(data: seq<U8>, pos: nat)

  /** The periodic send task (`ptask_t`): `armed` stands for priority HIGH, `period` is in milliseconds. */
  datatype Task = Task(armed: bool, period: U16)

  /** The transfer part of the applet's data: the open file, `send_in_prog`, `chunk_size`,
      `chunk_delay` and the send task. `None` stands for a closed file. */
  datatype Xfer = Xfer(file: Option<Handle>, inProg: bool, chunkSize: U16, chunkDelay: U16, task: Task)

  /** A file is open exactly while a send is in progress, and its position lies within it. */
  predicate Inv(t: Xfer) {
    && (t.inProg <==> t.file.Some?)
    && (t.file.Some? ==> t.file.value.pos <= |t.file.value.data|)
  }

  /** `fs_read` of up to `n` bytes: the bytes that follow the position, fewer than `n` only at the
      end of the file. */
  function ReadChunk(h: Handle, n: nat): (r: (Handle, seq<U8>))
    requires h.pos <= |h.data|
    ensures r.0.data == h.data && r.0.pos == h.pos + |r.1| <= |h.data|
    ensures r.1 == h.data[h.pos..r.0.pos]
    ensures |r.1| <= n
    ensures |r.1| < n ==> r.0.pos == |h.data|
  {
    var e := if h.pos + n <= |h.data| then h.pos + n else |h.data|;
    (Handle(h.data, e), h.data[h.pos..e])
  }

  /** What one operation does: the transfer state after it, the messages it sends (one
      `lv_app_com_send` of type `LV_APP_COM_TYPE_CHAR` each), the notice it posts, and the handle
      it overwrote while that file was still open (`leaked`): nothing closes such a handle later. */
  datatype Step = Step(xfer: Xfer, sent: seq<seq<U8>>, notice: Option<Notice>, leaked: Option<Handle>)

  /** `start_send`: open `path` (it opens exactly when it is one of `files`), read the first chunk
      and send it, even when it is short, then arm the send task with the chunk delay. A failed open or
      read (`readFails`) closes the file, sends nothing and leaves the send idle. The previous state
      of the transfer plays no part: there is no busy check here, and `fs_open` overwrites the
      handle of a file still being sent without closing it, so that handle is leaked. */
  function StartSend(t: Xfer, files: map<string, seq<U8>>, path: string, readFails: bool): (r: Step)
    ensures Inv(r.xfer)
    ensures r.xfer.chunkSize == t.chunkSize && r.xfer.chunkDelay == t.chunkDelay
    ensures r.leaked == t.file
    ensures r.xfer.inProg <==> path in files && !readFails
    ensures r.xfer.inProg ==>
      var data := files[path];
      var n := if t.chunkSize <= |data| then t.chunkSize else |data|;
      && r.sent == [data[..n]]
      && r.xfer.file == Some(Handle(data, n))
      && r.xfer.task == Task(true, t.chunkDelay)
      && r.notice == Some(Sending)
    ensures !r.xfer.inProg ==> r.sent == [] && r.xfer.task == t.task && r.notice == Some(CannotSend)
  {
    if path !in files || readFails then
      Step(t.(file := None, inProg := false), [], Some(CannotSend), t.file)
    else
      var (h, chunk) := ReadChunk(Handle(files[path], 0), t.chunkSize);
      Step(t.(file := Some(h), inProg := true, task := Task(true, t.chunkDelay)), [chunk], Some(Sending), t.file)
  }

  /** One run of `send_task`. Idle: nothing happens. A failed read (`readFails`) closes the file
      and stops. Otherwise the next chunk is sent; a chunk shorter than `chunk_size` is the rest of
      the file and ends the send, a full one keeps it going. The send task itself is never disarmed. */
  function Tick(t: Xfer, readFails: bool): (r: Step)
    requires Inv(t)
    ensures Inv(r.xfer)
    ensures r.xfer.chunkSize == t.chunkSize && r.xfer.chunkDelay == t.chunkDelay && r.xfer.task == t.task
    ensures r.leaked == None
    ensures !t.inProg ==> r == Step(t, [], None, None)
    ensures t.inProg && readFails ==> !r.xfer.inProg && r.sent == [] && r.notice == Some(CannotSend)
    ensures t.inProg && !readFails ==>
      var h := t.file.value;
      && |r.sent| == 1
      && h.pos + |r.sent[0]| <= |h.data|
      && r.sent[0] == h.data[h.pos..h.pos + |r.sent[0]|]
      && (r.xfer.inProg <==> |r.sent[0]| == t.chunkSize)
      && (r.xfer.inProg ==> r.xfer.file == Some(Handle(h.data, h.pos + t.chunkSize)) && r.notice == None)
      && (!r.xfer.inProg ==> r.sent[0] == h.data[h.pos..] && r.notice == Some(FileSent))
  {
    if !t.inProg then Step(t, [], None, None)
    else if readFails then Step(t.(file := None, inProg := false), [], Some(CannotSend), None)
    else
      var (h, chunk) := ReadChunk(t.file.value, t.chunkSize);
      if |chunk| < t.chunkSize then Step(t.(file := None, inProg := false), [chunk], Some(FileSent), None)
      else Step(t.(file := Some(h)), [chunk], None, None)
  }

  /** The bytes of a sequence of messages, joined in order (what the receiver reassembles). */
  function Concat(ms: seq<seq<U8>>): seq<U8> {
    if ms == [] then [] else ms[0] + Concat(ms[1..])
  }

  lemma {:induction false} ConcatAppend(a: seq<seq<U8>>, b: seq<seq<U8>>)
    ensures Concat(a + b) == Concat(a) + Concat(b)
  {
    if a == [] {
      assert a + b == b;
    } else {
      assert (a + b)[1..] == a[1..] + b;
      ConcatAppend(a[1..], b);
    }
  }

  /** `n` runs of `send_task` without read errors: the final state and all messages sent. */
  function Drain(t: Xfer, n: nat): (r: (Xfer, seq<seq<U8>>))
    requires Inv(t)
    ensures Inv(r.0)
    decreases n
  {
    if n == 0 then (t, [])
    else
      var s := Tick(t, false);
      var rest := Drain(s.xfer, n - 1);
      (rest.0, s.sent + rest.1)
  }

  /** Once the send is idle, further runs of the send task change nothing and send nothing. */
  lemma {:induction false} DrainIdle(t: Xfer, n: nat)
    requires Inv(t) && !t.inProg
    ensures Drain(t, n) == (t, [])
    decreases n
  {
    if n > 0 {
      DrainIdle(t, n - 1);
      var s := Tick(t, false);
      assert s.sent == [] && s.xfer == t;
      var rest := Drain(t, n - 1);
      assert Drain(t, n).1 == s.sent + rest.1 == [];
    }
  }

  /** A run of the send task that reads a full chunk: it sends the next `chunk_size` bytes and moves on. */
  lemma TickFull(t: Xfer)
    requires Inv(t) && t.inProg && t.file.value.pos + t.chunkSize <= |t.file.value.data|
    ensures var h := t.file.value;
      Tick(t, false) == Step(t.(file := Some(Handle(h.data, h.pos + t.chunkSize))), [h.data[h.pos..h.pos + t.chunkSize]], None, None)
  {
  }

  /** A run of the send task that reads a short chunk: it sends the rest of the file and ends the send. */
  lemma TickLast(t: Xfer)
    requires Inv(t) && t.inProg && |t.file.value.data| - t.file.value.pos < t.chunkSize
    ensures var h := t.file.value;
      Tick(t, false) == Step(t.(file := None, inProg := false), [h.data[h.pos..]], Some(FileSent), None)
  {
  }

  /** `n` runs that start with a full chunk: that chunk, then what the other runs send. */
  lemma DrainFull(t: Xfer, n: nat)
    requires Inv(t) && t.inProg && t.file.value.pos + t.chunkSize <= |t.file.value.data| && n >= 1
    ensures var h := t.file.value;
      var r' := Drain(t.(file := Some(Handle(h.data, h.pos + t.chunkSize))), n - 1);
      Drain(t, n) == (r'.0, [h.data[h.pos..h.pos + t.chunkSize]] + r'.1)
  {
    TickFull(t);
  }

  /** One run on a short rest: it sends the rest of the file and ends the send. */
  lemma DrainLast(t: Xfer)
    requires Inv(t) && t.inProg && |t.file.value.data| - t.file.value.pos < t.chunkSize
    ensures var h := t.file.value;
      Drain(t, 1) == (t.(file := None, inProg := false), [h.data[h.pos..]])
  {
    TickLast(t);
    var s := Tick(t, false);
    assert Drain(s.xfer, 0) == (s.xfer, []);
    assert s.sent + [] == s.sent;
  }

  /** How the send task works through `rest` bytes in chunks of `c`: the number of runs it takes
      (one per full chunk, plus the run that reads the short rest) and the length of that last
      read. Counted chunk by chunk, the way the send task goes. */
  function RunsLeft(rest: nat, c: nat): (m: nat)
    requires c > 0
    ensures m >= 1
    decreases rest
  {
    if rest < c then 1 else 1 + RunsLeft(rest - c, c)
  }

  /** The length of the last read of a send that has `rest` bytes left, counted the same way. */
  function LastLen(rest: nat, c: nat): nat
    requires c > 0
    decreases rest
  {
    if rest < c then rest else LastLen(rest - c, c)
  }

  /** Counted chunk by chunk, the runs are the quotient plus one and the last read is the remainder. */
  lemma {:induction false} RunsLeftDiv(rest: nat, c: nat)
    requires c > 0
    ensures RunsLeft(rest, c) == rest / c + 1
    ensures LastLen(rest, c) == rest % c
    decreases rest
  {
    if rest < c {
      DivModOf(rest, c, 0, rest);
    } else {
      RunsLeftDiv(rest - c, c);
      DivModOf(rest, c, (rest - c) / c + 1, (rest - c) % c);
    }
  }

  /** The messages a send without read errors sends from position `pos` on: full chunks of `c`
      bytes, then the short rest (empty when nothing is left). */
  function Chunks(data: seq<U8>, pos: nat, c: nat): seq<seq<U8>>
    requires c > 0 && pos <= |data|
    decreases |data| - pos
  {
    if |data| - pos < c then [data[pos..]] else [data[pos..pos + c]] + Chunks(data, pos + c, c)
  }

  /** A send in progress ends after `RunsLeft` runs of the send task, having sent `Chunks`; all that
      changes in the transfer state is that the file is closed and the send idle. */
  lemma {:induction false} DrainSendsChunks(t: Xfer, data: seq<U8>, pos: nat)
    requires Inv(t) && t.inProg && t.chunkSize > 0 && t.file == Some(Handle(data, pos))
    ensures Drain(t, RunsLeft(|data| - pos, t.chunkSize))
         == (t.(file := None, inProg := false), Chunks(data, pos, t.chunkSize))
    decreases |data| - pos
  {
    var c := t.chunkSize;
    if |data| - pos < c {
      DrainLast(t);
    } else {
      var t' := t.(file := Some(Handle(data, pos + c)));
      DrainFull(t, RunsLeft(|data| - pos, c));
      DrainSendsChunks(t', data, pos + c);
      assert t'.(file := None, inProg := false) == t.(file := None, inProg := false);
    }
  }

  /** The chunks joined give back the rest of the file, one per run. */
  lemma {:induction false} ChunksJoin(data: seq<U8>, pos: nat, c: nat)
    requires c > 0 && pos <= |data|
    ensures |Chunks(data, pos, c)| == RunsLeft(|data| - pos, c)
    ensures Concat(Chunks(data, pos, c)) == data[pos..]
    decreases |data| - pos
  {
    if |data| - pos < c {
      assert Concat([data[pos..]]) == data[pos..] + Concat([]);
    } else {
      ChunksJoin(data, pos + c, c);
      var rest := Chunks(data, pos + c, c);
      assert ([data[pos..pos + c]] + rest)[1..] == rest;
      assert data[pos..] == data[pos..pos + c] + data[pos + c..];
    }
  }

  /** Every chunk but the last is full, and the last has `LastLen` bytes. */
  lemma {:induction false} ChunksSizes(data: seq<U8>, pos: nat, c: nat)
    requires c > 0 && pos <= |data|
    ensures var ms := Chunks(data, pos, c);
      var m := RunsLeft(|data| - pos, c);
      && |ms| == m
      && (forall j :: 0 <= j < m - 1 ==> |ms[j]| == c)
      && |ms[m - 1]| == LastLen(|data| - pos, c)
    decreases |data| - pos
  {
    if |data| - pos >= c {
      ChunksSizes(data, pos + c, c);
      ConsFullChunk(data[pos..pos + c], Chunks(data, pos + c, c), c);
    }
  }

  /** A full chunk put in front of messages that are full chunks but the last keeps them so. */
  lemma ConsFullChunk(chunk: seq<U8>, ms: seq<seq<U8>>, c: nat)
    requires |chunk| == c && |ms| >= 1
    requires forall j :: 0 <= j < |ms| - 1 ==> |ms[j]| == c
    ensures var all := [chunk] + ms;
      && |all| == |ms| + 1
      && (forall j :: 0 <= j < |all| - 1 ==> |all[j]| == c)
      && all[|all| - 1] == ms[|ms| - 1]
  {
    var all := [chunk] + ms;
    forall j | 0 <= j < |all| - 1
      ensures |all[j]| == c
    {
      if j > 0 {
        assert all[j] == ms[j - 1];
      }
    }
  }

  /** `DrainDelivers` with the runs counted chunk by chunk. */
  lemma DrainDeliversRuns(t: Xfer)
    requires Inv(t) && t.inProg && t.chunkSize > 0
    ensures var h := t.file.value;
      var m := RunsLeft(|h.data| - h.pos, t.chunkSize);
      var r := Drain(t, m);
      && !r.0.inProg
      && |r.1| == m
      && Concat(r.1) == h.data[h.pos..]
  {
    var h := t.file.value;
    DrainSendsChunks(t, h.data, h.pos);
    ChunksJoin(h.data, h.pos, t.chunkSize);
  }

  /** A send in progress with a positive chunk size ends after exactly `rest / chunk_size + 1` more
      runs of the send task, where `rest` is what is left of the file, and the messages of those runs
      joined give back the rest of the file. */
  lemma DrainDelivers(t: Xfer)
    requires Inv(t) && t.inProg && t.chunkSize > 0
    ensures var h := t.file.value;
      var m := (|h.data| - h.pos) / t.chunkSize + 1;
      var r := Drain(t, m);
      && !r.0.inProg
      && |r.1| == m
      && Concat(r.1) == h.data[h.pos..]
  {
    var h := t.file.value;
    var rest := |h.data| - h.pos;
    assert RunsLeft(rest, t.chunkSize) == rest / t.chunkSize + 1 by {
      RunsLeftDiv(rest, t.chunkSize);
    }
    DrainDeliversRuns(t);
  }

  /** `DrainChunkSizes` with the runs and the last read counted chunk by chunk. */
  lemma DrainChunkSizesRuns(t: Xfer)
    requires Inv(t) && t.inProg && t.chunkSize > 0
    ensures var h := t.file.value;
      var m := RunsLeft(|h.data| - h.pos, t.chunkSize);
      var r := Drain(t, m);
      && |r.1| == m
      && (forall j :: 0 <= j < m - 1 ==> |r.1[j]| == t.chunkSize)
      && |r.1[m - 1]| == LastLen(|h.data| - h.pos, t.chunkSize)
  {
    var h := t.file.value;
    var m := RunsLeft(|h.data| - h.pos, t.chunkSize);
    var ms := Chunks(h.data, h.pos, t.chunkSize);
    var sent := Drain(t, m).1;
    assert sent == ms by {
      DrainSendsChunks(t, h.data, h.pos);
    }
    ChunksSizes(h.data, h.pos, t.chunkSize);
    forall j | 0 <= j < m - 1
      ensures |sent[j]| == t.chunkSize
    {
      assert sent[j] == ms[j];
    }
  }

  /** Along the way every message but the last is a full chunk, and the last holds the remainder
      of what was left divided by the chunk size: it is empty when what was left is a multiple of
      the chunk size. */
  lemma DrainChunkSizes(t: Xfer)
    requires Inv(t) && t.inProg && t.chunkSize > 0
    ensures var h := t.file.value;
      var m := (|h.data| - h.pos) / t.chunkSize + 1;
      var r := Drain(t, m);
      && |r.1| == m
      && (forall j :: 0 <= j < m - 1 ==> |r.1[j]| == t.chunkSize)
      && |r.1[m - 1]| == (|h.data| - h.pos) % t.chunkSize
  {
    var h := t.file.value;
    var rest := |h.data| - h.pos;
    assert RunsLeft(rest, t.chunkSize) == rest / t.chunkSize + 1 && LastLen(rest, t.chunkSize) == rest % t.chunkSize by {
      RunsLeftDiv(rest, t.chunkSize);
    }
    DrainChunkSizesRuns(t);
  }

  /** Before `RunsLeft` runs the send is still in progress. */
  lemma {:induction false} DrainNotYetDoneRuns(t: Xfer, data: seq<U8>, pos: nat, j: nat)
    requires Inv(t) && t.inProg && t.chunkSize > 0 && t.file == Some(Handle(data, pos))
    requires j < RunsLeft(|data| - pos, t.chunkSize)
    ensures Drain(t, j).0.inProg
    decreases j
  {
    if j > 0 {
      var c := t.chunkSize;
      DrainFull(t, j);
      DrainNotYetDoneRuns(t.(file := Some(Handle(data, pos + c))), data, pos + c, j - 1);
    }
  }

  /** ... and not earlier: before that many runs the send is still in progress. */
  lemma DrainNotYetDone(t: Xfer, j: nat)
    requires Inv(t) && t.inProg && t.chunkSize > 0
    requires j < (|t.file.value.data| - t.file.value.pos) / t.chunkSize + 1
    ensures Drain(t, j).0.inProg
  {
    var h := t.file.value;
    var rest := |h.data| - h.pos;
    assert RunsLeft(rest, t.chunkSize) == rest / t.chunkSize + 1 by {
      RunsLeftDiv(rest, t.chunkSize);
    }
    DrainNotYetDoneRuns(t, h.data, h.pos, j);
  }

  /** The state `start_send` leaves behind when it succeeds: the file open after its first chunk. */
  lemma StartSendOpens(t: Xfer, files: map<string, seq<U8>>, path: string)
    requires path in files
    ensures var s := StartSend(t, files, path, false);
      var data := files[path];
      var first := if t.chunkSize <= |data| then t.chunkSize else |data|;
      && s.xfer == t.(file := Some(Handle(data, first)), inProg := true, task := Task(true, t.chunkDelay))
      && s.sent == [data[..first]]
  {
  }

  /** How many runs of the send task a whole send of `n` bytes in chunks of `c` takes: `max(1, n / c)`. */
  function Runs(n: nat, c: nat): nat
    requires c > 0
  {
    if n < c then 1 else n / c
  }

  /** What follows the first chunk: with `first` bytes already sent, the send task runs `max(1, n / c)`
      times, in progress until the last run, and the first chunk followed by the messages of those
      runs joins back into the whole file. */
  lemma SendRest(x: Xfer, data: seq<U8>, first: nat)
    requires Inv(x) && x.inProg && x.chunkSize > 0 && x.file == Some(Handle(data, first))
    requires first == if x.chunkSize <= |data| then x.chunkSize else |data|
    ensures var runs := Runs(|data|, x.chunkSize);
      var r := Drain(x, runs);
      && (forall j :: 0 <= j < runs ==> Drain(x, j).0.inProg)
      && !r.0.inProg
      && |r.1| == runs
      && Concat([data[..first]] + r.1) == data
  {
    var n := |data|;
    var c := x.chunkSize;
    var m := (n - first) / c + 1;
    assert m == Runs(n, c) by {
      if n < c {
        assert n - first == 0;
        DivSmall(0, c);
      } else {
        assert n - first == n - c;
        DivLess(n, c);
      }
    }
    forall j | 0 <= j < m
      ensures Drain(x, j).0.inProg
    {
      DrainNotYetDone(x, j);
    }
    DrainDelivers(x);
    var r := Drain(x, m);
    ConcatAppend([data[..first]], r.1);
    assert Concat([data[..first]]) == data[..first] + Concat([]);
    assert data[..first] + data[first..] == data;
  }

  /** A whole send of a file of `n` bytes with chunk size `c > 0` and no read errors: after
      `start_send`, the send task runs `max(1, n / c)` times; the send is in progress until the last of
      them, and all `max(1, n / c) + 1` messages joined give back the file. */
  lemma SendWholeFile(t: Xfer, files: map<string, seq<U8>>, path: string)
    requires path in files && t.chunkSize > 0
    ensures var s := StartSend(t, files, path, false);
      var runs := Runs(|files[path]|, t.chunkSize);
      var r := Drain(s.xfer, runs);
      && (forall j :: 0 <= j < runs ==> Drain(s.xfer, j).0.inProg)
      && !r.0.inProg
      && Concat(s.sent + r.1) == files[path]
      && |s.sent + r.1| == runs + 1
  {
    var data := files[path];
    var n := |data|;
    var c := t.chunkSize;
    var first := if c <= n then c else n;
    var s := StartSend(t, files, path, false);
    StartSendOpens(t, files, path);
    assert s.xfer.chunkSize == c && s.sent == [data[..first]];
    SendRest(s.xfer, data, first);
  }

  /** A file shorter than the chunk size goes out as itself followed by an empty message. */
  lemma ShortFileSendsEmptyTrailer(t: Xfer, files: map<string, seq<U8>>, path: string)
    requires path in files && |files[path]| < t.chunkSize
    ensures var s := StartSend(t, files, path, false);
      var r := Drain(s.xfer, 1);
      s.sent + r.1 == [files[path], []] && !r.0.inProg
  {
    var s := StartSend(t, files, path, false);
    assert files[path][..|files[path]|] == files[path];
    assert Drain(s.xfer, 1) == (Tick(s.xfer, false).xfer, Tick(s.xfer, false).sent + []);
  }

  /** With a chunk size of 0 the send never ends: every run of the send task sends an empty message
      and leaves it in progress. */
  lemma {:induction false} ZeroChunkNeverEnds(t: Xfer, n: nat)
    requires Inv(t) && t.inProg && t.chunkSize == 0
    ensures var r := Drain(t, n);
      r.0.inProg && |r.1| == n && Concat(r.1) == []
    decreases n
  {
    if n > 0 {
      var s := Tick(t, false);
      ZeroChunkNeverEnds(s.xfer, n - 1);
      var r' := Drain(s.xfer, n - 1);
      assert s.sent == [[]];
      assert ([[]] + r'.1)[1..] == r'.1;
      assert Concat([[]] + r'.1) == [] + Concat(r'.1);
    }
  }

  /** A 10-byte file in chunks of 4 goes out as messages of 4, 4 and 2 bytes, and the send ends. */
  lemma TenBytesInFours(t: Xfer, files: map<string, seq<U8>>, path: string)
    requires path in files && |files[path]| == 10 && t.chunkSize == 4
    ensures var s := StartSend(t, files, path, false);
      var r := Drain(s.xfer, 2);
      var ms := s.sent + r.1;
      |ms| == 3 && |ms[0]| == 4 && |ms[1]| == 4 && |ms[2]| == 2 && !r.0.inProg
  {
    var s := StartSend(t, files, path, false);
    var s1 := Tick(s.xfer, false);
    var s2 := Tick(s1.xfer, false);
    assert Drain(s.xfer, 2) == (s2.xfer, s1.sent + (s2.sent + []));
  }
}

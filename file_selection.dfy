/**
 * The client's upload hook (useFileSelection): the list of selected files,
 * the per-file upload loop that sends a file chunk by chunk, and the pause,
 * resume and remove helpers.
 *
 * The pure part holds the updaters the hook passes to its state setters and
 * `Plan`, the sequence of posts and the way the loop ends for given server
 * replies. The class `FileSelection` holds the hook's state and performs the
 * same steps in place.
 */
module UploadClient {
  import opened Wrappers
  import opened Bytes
  import opened ChunkSplitter

  datatype Status = Idle | Uploading | Paused | Completed | Error

  /** A browser File: its name, its MIME type and its contents (file.size is |bytes|). */
  datatype File = File(name: string, mimeType: string, bytes: seq<byte>)

  datatype SelectedFile = SelectedFile(id: string, status: Status, file: File)

  // ---------------------------------------------------------------------
  // The list updaters
  // ---------------------------------------------------------------------

  /** The names of the files in the list. */
  function Names(files: seq<SelectedFile>): set<string>
  {
    set f | f in files :: f.file.name
  }

  /** The entries of `batch` whose file name is not in `taken`, in their order. */
  function Unlisted(batch: seq<SelectedFile>, taken: set<string>): (r: seq<SelectedFile>)
    ensures |r| <= |batch|
    ensures forall f :: f in r ==> f in batch && f.file.name !in taken
    ensures forall f :: f in batch && f.file.name !in taken ==> f in r
  {
    if batch == [] then []
    else if batch[0].file.name in taken then Unlisted(batch[1..], taken)
    else [batch[0]] + Unlisted(batch[1..], taken)
  }

  /** The filter keeps order: filtering two lists one after the other is filtering their concatenation. */
  lemma {:induction false} UnlistedConcat(a: seq<SelectedFile>, b: seq<SelectedFile>, taken: set<string>)
    ensures Unlisted(a + b, taken) == Unlisted(a, taken) + Unlisted(b, taken)
  {
    if a == [] {
      assert a + b == b;
    } else {
      assert (a + b)[0] == a[0];
      assert (a + b)[1..] == a[1..] + b;
      UnlistedConcat(a[1..], b, taken);
    }
  }

  /** Names are compared only with the earlier list: two entries of one batch with the same new name both stay. */
  lemma DuplicatesInBatchKept(x: SelectedFile, y: SelectedFile, taken: set<string>)
    requires x.file.name == y.file.name && x.file.name !in taken
    ensures Unlisted([x, y], taken) == [x, y]
  {
    assert [x, y][1..] == [y];
  }

  /** The entries addFiles creates: one idle entry per file, with the id drawn for it. */
  function Entries(files: seq<File>, ids: seq<string>): (r: seq<SelectedFile>)
    requires |ids| == |files|
    ensures |r| == |files|
    ensures forall i :: 0 <= i < |r| ==> r[i] == SelectedFile(ids[i], Idle, files[i])
  {
    seq(|files|, i requires 0 <= i < |files| => SelectedFile(ids[i], Idle, files[i]))
  }

  /** The updater of addFiles: the previous list, then the new entries whose name it does not hold. */
  function Admit(prev: seq<SelectedFile>, batch: seq<SelectedFile>): (r: seq<SelectedFile>)
    ensures |prev| <= |r| <= |prev| + |batch|
    ensures r[..|prev|] == prev
    ensures forall f :: f in r[|prev|..] ==> f in batch && f.file.name !in Names(prev)
    ensures forall f :: f in batch && f.file.name !in Names(prev) ==> f in r[|prev|..]
    ensures r[|prev|..] == Unlisted(batch, Names(prev))
  {
    var newcomers := Unlisted(batch, Names(prev));
    assert (prev + newcomers)[|prev|..] == newcomers;
    prev + newcomers
  }

  /** The updater of updateFileStatus: the entry with that id gets the status, nothing else changes. */
  function WithStatus(files: seq<SelectedFile>, id: string, status: Status): (r: seq<SelectedFile>)
    ensures |r| == |files|
    ensures forall i :: 0 <= i < |r| ==> r[i].id == files[i].id && r[i].file == files[i].file
    ensures forall i :: 0 <= i < |r| && files[i].id != id ==> r[i] == files[i]
    ensures forall i :: 0 <= i < |r| && files[i].id == id ==> r[i].status == status
  {
    seq(|files|, i requires 0 <= i < |files| => if files[i].id == id then files[i].(status := status) else files[i])
  }

  /** Only the last status set for an id survives. */
  lemma LastStatusWins(files: seq<SelectedFile>, id: string, first: Status, second: Status)
    ensures WithStatus(WithStatus(files, id, first), id, second) == WithStatus(files, id, second)
  {
    var a := WithStatus(WithStatus(files, id, first), id, second);
    var b := WithStatus(files, id, second);
    assert forall i :: 0 <= i < |a| ==> a[i] == b[i];
  }

  /** Setting the status of an id the list does not hold changes nothing. */
  lemma UnknownIdUnchanged(files: seq<SelectedFile>, id: string, status: Status)
    requires forall i :: 0 <= i < |files| ==> files[i].id != id
    ensures WithStatus(files, id, status) == files
  {
    var r := WithStatus(files, id, status);
    assert forall i :: 0 <= i < |r| ==> r[i] == files[i];
  }

  /** The updater of removeFile: every entry with that id dropped, the others kept in order. */
  function Without(files: seq<SelectedFile>, id: string): (r: seq<SelectedFile>)
    ensures |r| <= |files|
    ensures forall f :: f in r ==> f in files && f.id != id
    ensures forall f :: f in files && f.id != id ==> f in r
  {
    if files == [] then []
    else if files[0].id == id then Without(files[1..], id)
    else [files[0]] + Without(files[1..], id)
  }

  /** Removal keeps order: removing from two lists one after the other is removing from their concatenation. */
  lemma {:induction false} WithoutConcat(a: seq<SelectedFile>, b: seq<SelectedFile>, id: string)
    ensures Without(a + b, id) == Without(a, id) + Without(b, id)
  {
    if a == [] {
      assert a + b == b;
    } else {
      assert (a + b)[0] == a[0];
      assert (a + b)[1..] == a[1..] + b;
      WithoutConcat(a[1..], b, id);
    }
  }

  /** A status set on a file just before it is removed leaves no trace. */
  lemma {:induction false} WithoutForgetsStatus(files: seq<SelectedFile>, id: string, status: Status)
    ensures Without(WithStatus(files, id, status), id) == Without(files, id)
  {
    if files != [] {
      assert WithStatus(files, id, status)[1..] == WithStatus(files[1..], id, status);
      WithoutForgetsStatus(files[1..], id, status);
    }
  }

  /** selectedFiles.find(f => f.id === id): the first entry with that id. */
  function Find(files: seq<SelectedFile>, id: string): (r: Option<SelectedFile>)
    ensures r.None? <==> forall i :: 0 <= i < |files| ==> files[i].id != id
    ensures r.Some? ==> r.value.id == id && r.value in files
    ensures r.Some? ==> exists i :: 0 <= i < |files| && files[i] == r.value && forall j :: 0 <= j < i ==> files[j].id != id
  {
    if files == [] then None
    else if files[0].id == id then Some(files[0])
    else
      var r := Find(files[1..], id);
      assert r.Some? ==> exists i :: 0 <= i < |files| && files[i] == r.value && forall j :: 0 <= j < i ==> files[j].id != id
      by {
        if r.Some? {
          var i :| 0 <= i < |files[1..]| && files[1..][i] == r.value && forall j :: 0 <= j < i ==> files[1..][j].id != id;
          assert files[i + 1] == r.value;
          assert forall j :: 0 <= j < i + 1 ==> files[j].id != id by {
            forall j | 0 <= j < i + 1 ensures files[j].id != id {
              if j > 0 { assert files[j] == files[1..][j - 1]; }
            }
          }
        }
      }
      r
  }

  // ---------------------------------------------------------------------
  // The upload loop
  // ---------------------------------------------------------------------

  /** What the client makes of the answer to one chunk post. */
  datatype Reply =
    | Accepted                   // success, completed = false
    | Done(filePath: string)     // success, completed = true
    | Cancelled                  // the request was aborted on the client
    | OrderError(expectedChunk: int) // 400 carrying expectedChunk
    | OtherError                 // any other failure

  /** One exchange: whether pauseUpload ran while the post was in flight, and the reply. */
  datatype Exchange = Exchange(pausedMeanwhile: bool, reply: Reply)

  /** How one call of sendFile ends. */
  datatype End =
    | Finished(filePath: string)   // returns filePath
    | PausedBeforeSend             // the pause check at the top of the loop
    | PausedOnCancel               // cancelled while paused
    | CancelledIdle                // cancelled otherwise: rethrown
    | Rejected(expectedChunk: int) // order error that does not move forward: rethrown
    | Failed                       // any other error: rethrown
    | RanOut                       // the loop condition fails: returns undefined

  /** The form sendFile posts for one chunk. */
  datatype ChunkPost = ChunkPost(chunk: seq<byte>, chunkIndex: nat, totalChunks: nat,
                                 originalName: string, fileIdentifier: string)

  /**
   * One call of sendFile as seen from outside: the indices posted, how it
   * ended, whether a pause arrived during one of its posts, and the index
   * of the last chunk whose success it recorded.
   */
  datatype Run = Run(sent: seq<nat>, end: End, pauseSeen: bool, lastAck: Option<nat>)

  /** The loop's step: go on to a later index, or stop. */
  datatype Decision = Continue(next: nat, acked: bool) | Stop(end: End)

  /** The catch block and the success path of one iteration; `paused` is the pause set's answer after the reply. */
  function Decide(index: nat, reply: Reply, paused: bool): (d: Decision)
    ensures d.Continue? ==> d.next > index
    ensures d.Continue? && d.acked <==> reply.Accepted?
    ensures d.Continue? && !d.acked <==> reply.OrderError? && reply.expectedChunk > index
    ensures d.Continue? && d.acked ==> d.next == index + 1
    ensures d.Continue? && !d.acked ==> d.next == reply.expectedChunk
    ensures reply.Done? ==> d == Stop(Finished(reply.filePath))
    ensures reply.Cancelled? ==> d == Stop(if paused then PausedOnCancel else CancelledIdle)
    ensures reply.OrderError? && reply.expectedChunk <= index ==> d == Stop(Rejected(reply.expectedChunk))
    ensures reply.OtherError? ==> d == Stop(Failed)
  {
    match reply
    case Accepted => Continue(index + 1, true)
    case Done(path) => Stop(Finished(path))
    case Cancelled => Stop(if paused then PausedOnCancel else CancelledIdle)
    case OrderError(expected) => if expected > index then Continue(expected, false) else Stop(Rejected(expected))
    case OtherError => Stop(Failed)
  }

  /** A run prefixed by the posts made before it. */
  function Prepend(sent: seq<nat>, seen: bool, ack: Option<nat>, rest: Run): Run
  {
    Run(sent + rest.sent, rest.end, seen || rest.pauseSeen, if rest.lastAck.Some? then rest.lastAck else ack)
  }

  function Measure(total: nat, index: nat): nat
  {
    if index <= total then total - index else 0
  }

  /**
   * The loop of sendFile from chunk `index` on, where `net(k)` is the
   * exchange of the k-th post of this call and `paused` says whether the
   * id is in the pause set.
   */
  function Plan(total: nat, index: nat, paused: bool, net: nat -> Exchange, k: nat): (r: Run)
    decreases Measure(total, index)
    // every post is of a chunk that exists, at or after the start index
    ensures forall i :: 0 <= i < |r.sent| ==> index <= r.sent[i] < total
    // posts are strictly increasing: no chunk is sent twice, none goes back
    ensures forall i, j :: 0 <= i < j < |r.sent| ==> r.sent[i] < r.sent[j]
    // nothing is sent when the loop does not start or the file is paused
    ensures r.sent == [] <==> index >= total || paused
    ensures r.sent != [] ==> r.sent[0] == index
    ensures r.sent == [] ==> r == Run([], if index >= total then RanOut else PausedBeforeSend, false, None)
    ensures r.lastAck.Some? ==> r.lastAck.value in r.sent
  {
    if index >= total then Run([], RanOut, false, None)
    else if paused then Run([], PausedBeforeSend, false, None)
    else
      var ex := net(k);
      match Decide(index, ex.reply, ex.pausedMeanwhile)
      case Stop(end) => Run([index], end, ex.pausedMeanwhile, if ex.reply.Done? then Some(index) else None)
      case Continue(next, acked) =>
        var rest := Plan(total, next, ex.pausedMeanwhile, net, k + 1);
        Prepend([index], ex.pausedMeanwhile, if acked then Some(index) else None, rest)
  }

  /** The index posted after `prev` is the one its reply leads to. */
  predicate StepFollowsReply(prev: nat, next: nat, reply: Reply)
  {
    || (reply.Accepted? && next == prev + 1)
    || (reply.OrderError? && next == reply.expectedChunk > prev)
  }

  /** Each index in `sent` after the first is the one the reply to the post before it leads to. */
  ghost predicate Chained(sent: seq<nat>, net: nat -> Exchange, k: nat)
    decreases |sent|
  {
    |sent| <= 1 || (StepFollowsReply(sent[0], sent[1], net(k).reply) && Chained(sent[1..], net, k + 1))
  }

  lemma {:induction false} ChainedAt(sent: seq<nat>, net: nat -> Exchange, k: nat, j: nat)
    requires Chained(sent, net, k) && j + 1 < |sent|
    decreases j
    ensures StepFollowsReply(sent[j], sent[j + 1], net(k + j).reply)
  {
    if j > 0 {
      ChainedAt(sent[1..], net, k + 1, j - 1);
      assert k + 1 + (j - 1) == k + j;
    }
  }

  lemma {:induction false} PlanChained(total: nat, index: nat, paused: bool, net: nat -> Exchange, k: nat)
    decreases Measure(total, index)
    ensures Chained(Plan(total, index, paused, net, k).sent, net, k)
  {
    if index < total && !paused {
      var ex := net(k);
      var d := Decide(index, ex.reply, ex.pausedMeanwhile);
      PlanHead(total, index, net, k);
      if d.Continue? {
        var rest := Plan(total, d.next, ex.pausedMeanwhile, net, k + 1);
        PlanChained(total, d.next, ex.pausedMeanwhile, net, k + 1);
        var sent := [index] + rest.sent;
        assert sent[1..] == rest.sent;
      }
    }
  }

  /**
   * Consecutive posts are one apart after a success, or jump to the index
   * the server reported after an order error; and post j + 1 is made only
   * once the reply to post j is in.
   */
  lemma PlanSteps(total: nat, index: nat, paused: bool, net: nat -> Exchange, k: nat, j: nat)
    requires j + 1 < |Plan(total, index, paused, net, k).sent|
    ensures var r := Plan(total, index, paused, net, k);
            StepFollowsReply(r.sent[j], r.sent[j + 1], net(k + j).reply)
  {
    PlanChained(total, index, paused, net, k);
    ChainedAt(Plan(total, index, paused, net, k).sent, net, k, j);
  }

  /** One turn of the loop when the file is not paused. */
  lemma PlanHead(total: nat, index: nat, net: nat -> Exchange, k: nat)
    requires index < total
    ensures var ex := net(k);
            var d := Decide(index, ex.reply, ex.pausedMeanwhile);
            var r := Plan(total, index, false, net, k);
            && (d.Stop? ==> r == Run([index], d.end, ex.pausedMeanwhile, if ex.reply.Done? then Some(index) else None))
            && (d.Continue? ==>
                  r == Prepend([index], ex.pausedMeanwhile, if d.acked then Some(index) else None,
                                 Plan(total, d.next, ex.pausedMeanwhile, net, k + 1)))
  {
  }

  /** The run ends with the reply to its last post: a completed upload returns the path the server gave. */
  lemma {:induction false} PlanEndsWithLastReply(total: nat, index: nat, paused: bool, net: nat -> Exchange, k: nat)
    decreases Measure(total, index)
    ensures var r := Plan(total, index, paused, net, k);
            r.end.Finished? ==> |r.sent| > 0 && net(k + |r.sent| - 1).reply == Done(r.end.filePath)
  {
    if index < total && !paused {
      var ex := net(k);
      match Decide(index, ex.reply, ex.pausedMeanwhile)
      case Stop(_) =>
      case Continue(next, acked) =>
        PlanEndsWithLastReply(total, next, ex.pausedMeanwhile, net, k + 1);
    }
  }

  /**
   * The pause set is read again before every send: a pause that arrives
   * while post j is in flight means there is no post j + 1.
   */
  lemma {:induction false} NoPostAfterPause(total: nat, index: nat, paused: bool, net: nat -> Exchange, k: nat, j: nat)
    requires j + 1 < |Plan(total, index, paused, net, k).sent|
    decreases j
    ensures !net(k + j).pausedMeanwhile
  {
    assert index < total && !paused;
    var ex := net(k);
    var d := Decide(index, ex.reply, ex.pausedMeanwhile);
    PlanHead(total, index, net, k);
    assert d.Continue?;
    if j > 0 {
      NoPostAfterPause(total, d.next, ex.pausedMeanwhile, net, k + 1, j - 1);
      assert k + 1 + (j - 1) == k + j;
    }
  }

  /**
   * How a run that posted something ends is decided by the exchange of its
   * last post: a stopping decision is the run's end; a decision to go on
   * past the last chunk runs out; a decision to go on to an existing chunk
   * ends the run only because the pause arrived during that post.
   */
  lemma {:induction false} PlanEndsWithLastDecision(total: nat, index: nat, paused: bool, net: nat -> Exchange, k: nat)
    decreases Measure(total, index)
    ensures var r := Plan(total, index, paused, net, k);
            r.sent != [] ==>
              var ex := net(k + |r.sent| - 1);
              var d := Decide(r.sent[|r.sent| - 1], ex.reply, ex.pausedMeanwhile);
              && (d.Stop? ==> r.end == d.end)
              && (d.Continue? && d.next >= total ==> r.end == RanOut)
              && (d.Continue? && d.next < total ==> ex.pausedMeanwhile && r.end == PausedBeforeSend)
  {
    if index < total && !paused {
      var ex := net(k);
      var d := Decide(index, ex.reply, ex.pausedMeanwhile);
      PlanHead(total, index, net, k);
      if d.Continue? {
        var rest := Plan(total, d.next, ex.pausedMeanwhile, net, k + 1);
        PlanEndsWithLastDecision(total, d.next, ex.pausedMeanwhile, net, k + 1);
        if rest.sent != [] {
          assert k + 1 + |rest.sent| - 1 == k + |[index] + rest.sent| - 1;
          assert ([index] + rest.sent)[|rest.sent|] == rest.sent[|rest.sent| - 1];
        }
      }
    }
  }

  /** A file of zero bytes has no chunks: the loop never runs, nothing is sent. */
  lemma EmptyFileSendsNothing(net: nat -> Exchange, paused: bool)
    ensures Plan(TotalChunks(0), 0, paused, net, 0) == Run([], RanOut, false, None)
  {
  }

  /** The form posted for chunk `i` of a file. */
  function PostOf(sf: SelectedFile, i: nat): (p: ChunkPost)
    requires i < TotalChunks(|sf.file.bytes|)
    ensures p.chunkIndex == i && 0 < |p.chunk| <= CHUNK_SIZE
  {
    ChunkPost(Slice(sf.file.bytes, i), i, TotalChunks(|sf.file.bytes|), sf.file.name, sf.id)
  }

  function PostsOf(sf: SelectedFile, sent: seq<nat>): (ps: seq<ChunkPost>)
    requires forall i :: 0 <= i < |sent| ==> sent[i] < TotalChunks(|sf.file.bytes|)
    ensures |ps| == |sent|
  {
    seq(|sent|, i requires 0 <= i < |sent| => PostOf(sf, sent[i]))
  }

  // ---------------------------------------------------------------------
  // The hook's state
  // ---------------------------------------------------------------------

  /**
   * selectedFiles, uploadProgress, uploadStats (bytesUploaded only), the
   * ids that hold an AbortController, the pause set, and the ids whose
   * server-side cleanup (POST abort) was requested, in order.
   */
  datatype Client = Client(
    selected: seq<SelectedFile>,
    progress: map<string, int>,
    stats: map<string, nat>,
    controllers: set<string>,
    paused: set<string>,
    cleanups: seq<string>)

  /** The status a run leaves: its own last updateFileStatus, or the pause that came in. */
  function FinalStatus(run: Run): Status
  {
    match run.end
    case Finished(_) => Completed
    case PausedBeforeSend => Paused
    case PausedOnCancel => Paused
    case CancelledIdle => Idle
    case Failed => Error
    case Rejected(_) => if run.pauseSeen then Paused else Uploading
    case RanOut => if run.pauseSeen then Paused else Uploading
  }

  /** bytesUploaded after a run: the start offset of the last acknowledged chunk, or the entry dropped. */
  function StatsAfter(stats: map<string, nat>, id: string, run: Run): map<string, nat>
  {
    if run.end.Finished? || run.end.Failed? then stats - {id}
    else if run.lastAck.Some? then stats[id := run.lastAck.value * CHUNK_SIZE]
    else stats
  }

  /** The hook's state after one call of sendFile that ran as `run`. */
  function SendEffect(c: Client, id: string, run: Run): Client
  {
    Client(
      WithStatus(c.selected, id, FinalStatus(run)),
      if run.end.CancelledIdle? then c.progress[id := 0] else c.progress,
      StatsAfter(c.stats, id, run),
      if run.end.RanOut? then c.controllers + {id} else c.controllers - {id},
      if run.pauseSeen then c.paused + {id} else c.paused,
      c.cleanups)
  }

  /** The hook's state in the middle of a run: controller held, status uploading unless a pause came in. */
  function Midway(start: Client, id: string, seen: bool, ack: Option<nat>): Client
  {
    Client(
      WithStatus(start.selected, id, if seen then Paused else Uploading),
      start.progress,
      if ack.Some? then start.stats[id := ack.value * CHUNK_SIZE] else start.stats,
      start.controllers + {id},
      if seen then start.paused + {id} else start.paused,
      start.cleanups)
  }

  /** pauseUpload's effect on the state. */
  function Pause(c: Client, id: string): Client
  {
    c.(paused := c.paused + {id}, selected := WithStatus(c.selected, id, Paused))
  }

  /** A success records bytesUploaded = index * CHUNK_SIZE; an order error that moves forward records nothing. */
  function Advance(c: Client, id: string, index: nat, acked: bool): Client
  {
    if acked then c.(stats := c.stats[id := index * CHUNK_SIZE]) else c
  }

  /**
   * removeFile's effect: the file leaves the list, its progress and stats
   * entries, its controller and the pause set, and a server-side cleanup
   * is requested for it.
   */
  function Remove(c: Client, id: string): (r: Client)
    ensures forall f :: f in r.selected <==> f in c.selected && f.id != id
    ensures forall x :: x in r.progress <==> x in c.progress && x != id
    ensures forall x :: x in r.progress ==> r.progress[x] == c.progress[x]
    ensures forall x :: x in r.stats <==> x in c.stats && x != id
    ensures forall x :: x in r.stats ==> r.stats[x] == c.stats[x]
    ensures forall x :: x in r.controllers <==> x in c.controllers && x != id
    ensures forall x :: x in r.paused <==> x in c.paused && x != id
    ensures r.cleanups == c.cleanups + [id]
    ensures r.selected == Without(c.selected, id)
  {
    Client(Without(c.selected, id), c.progress - {id}, c.stats - {id},
           c.controllers - {id}, c.paused - {id}, c.cleanups + [id])
  }

  /** The status and progress removeFile sets on a paused file are dropped with it. */
  lemma RemoveForgetsPause(c: Client, id: string)
    ensures Remove(c.(paused := c.paused - {id}, selected := WithStatus(c.selected, id, Idle),
                      progress := c.progress[id := 0]), id)
         == Remove(c, id)
  {
    WithoutForgetsStatus(c.selected, id, Idle);
    assert c.progress[id := 0] - {id} == c.progress - {id};
    assert c.paused - {id} - {id} == c.paused - {id};
  }

  /** A run whose loop condition fails leaves the mid-run state as it is. */
  lemma RanOutSettles(start: Client, id: string, seen: bool, ack: Option<nat>, run: Run)
    requires run.end.RanOut? && run.pauseSeen == seen && run.lastAck == ack
    ensures Midway(start, id, seen, ack) == SendEffect(start, id, run)
  {
  }

  /** Before the first post the run is all ahead, and the state is the start with the controller and uploading set. */
  lemma LoopEntry(start: Client, id: string, run: Run)
    ensures Prepend([], false, None, run) == run
    ensures Midway(start, id, false, None)
         == start.(controllers := start.controllers + {id}, selected := WithStatus(start.selected, id, Uploading))
  {
    assert [] + run.sent == run.sent;
  }

  lemma PauseMidway(start: Client, id: string, seen: bool, ack: Option<nat>)
    ensures Pause(Midway(start, id, seen, ack), id) == Midway(start, id, true, ack)
  {
    LastStatusWins(start.selected, id, if seen then Paused else Uploading, Paused);
    assert (if seen then start.paused + {id} else start.paused) + {id} == start.paused + {id};
  }

  lemma AdvanceMidway(start: Client, id: string, seen: bool, ack: Option<nat>, index: nat)
    ensures Advance(Midway(start, id, seen, ack), id, index, true) == Midway(start, id, seen, Some(index))
  {
    var mid := Midway(start, id, seen, ack);
    assert mid.stats[id := index * CHUNK_SIZE] == start.stats[id := index * CHUNK_SIZE];
  }

  /** What the iteration that stops a run does to the state, after any pause that came in. */
  function StopEffect(c: Client, id: string, index: nat, end: End): Client
  {
    match end
    case Finished(_) =>
      c.(selected := WithStatus(c.selected, id, Completed), controllers := c.controllers - {id},
         stats := c.stats[id := index * CHUNK_SIZE] - {id})
    case PausedBeforeSend => c.(selected := WithStatus(c.selected, id, Paused), controllers := c.controllers - {id})
    case PausedOnCancel => c.(selected := WithStatus(c.selected, id, Paused), controllers := c.controllers - {id})
    case CancelledIdle =>
      c.(selected := WithStatus(c.selected, id, Idle), progress := c.progress[id := 0],
         controllers := c.controllers - {id})
    case Rejected(_) => c.(controllers := c.controllers - {id})
    case Failed =>
      c.(selected := WithStatus(c.selected, id, Error), stats := c.stats - {id}, controllers := c.controllers - {id})
    case RanOut => c
  }

  /** Stopping from the middle of a run leaves the state SendEffect describes. */
  lemma StopSettles(start: Client, id: string, seen: bool, ack: Option<nat>, index: nat, run: Run)
    requires !run.end.RanOut?
    requires run.pauseSeen == seen
    requires run.lastAck == if run.end.Finished? then Some(index) else ack
    requires run.end.PausedOnCancel? ==> seen
    requires run.end.CancelledIdle? ==> !seen
    ensures StopEffect(Midway(start, id, seen, ack), id, index, run.end) == SendEffect(start, id, run)
  {
    var status := if seen then Paused else Uploading;
    LastStatusWins(start.selected, id, status, FinalStatus(run));
    var mid := Midway(start, id, seen, ack);
    if run.end.Finished? {
      assert mid.stats[id := index * CHUNK_SIZE] - {id} == start.stats - {id};
    } else if run.end.Failed? {
      assert mid.stats - {id} == start.stats - {id};
    }
    assert (start.controllers + {id}) - {id} == start.controllers - {id};
  }

  /** One iteration of the loop that sends chunk `index`, in terms of the whole run. */
  lemma PlanStep(full: Run, sent: seq<nat>, seen: bool, ack: Option<nat>,
                 total: nat, index: nat, net: nat -> Exchange, k: nat, ex: Exchange)
    requires index < total && ex == net(k)
    requires full == Prepend(sent, seen, ack, Plan(total, index, false, net, k))
    ensures var d := Decide(index, ex.reply, ex.pausedMeanwhile);
            var seen' := seen || ex.pausedMeanwhile;
            && (d.Stop? ==>
                  full == Run(sent + [index], d.end, seen', if d.end.Finished? then Some(index) else ack))
            && (d.Continue? ==>
                  full == Prepend(sent + [index], seen', if d.acked then Some(index) else ack,
                                  Plan(total, d.next, ex.pausedMeanwhile, net, k + 1)))
  {
    var d := Decide(index, ex.reply, ex.pausedMeanwhile);
    if d.Continue? {
      PrependTwice(sent, seen, ack, [index], ex.pausedMeanwhile, if d.acked then Some(index) else None,
                   Plan(total, d.next, ex.pausedMeanwhile, net, k + 1));
    }
  }

  lemma PostsOfAppend(sf: SelectedFile, sent: seq<nat>, i: nat)
    requires forall j :: 0 <= j < |sent| ==> sent[j] < TotalChunks(|sf.file.bytes|)
    requires i < TotalChunks(|sf.file.bytes|)
    ensures PostsOf(sf, sent + [i]) == PostsOf(sf, sent) + [PostOf(sf, i)]
  {
    var a := PostsOf(sf, sent + [i]);
    var b := PostsOf(sf, sent) + [PostOf(sf, i)];
    assert forall j :: 0 <= j < |a| ==> a[j] == b[j];
  }

  lemma PrependTwice(s1: seq<nat>, seen1: bool, ack1: Option<nat>, s2: seq<nat>, seen2: bool, ack2: Option<nat>, rest: Run)
    ensures Prepend(s1, seen1, ack1, Prepend(s2, seen2, ack2, rest))
         == Prepend(s1 + s2, seen1 || seen2, if ack2.Some? then ack2 else ack1, rest)
  {
    assert s1 + (s2 + rest.sent) == (s1 + s2) + rest.sent;
  }

  /** `bytesUploaded` records the start of the acknowledged chunk: the bytes before it, one chunk behind. */
  lemma StatsLagOneChunk(bytes: seq<byte>, i: nat)
    requires i < TotalChunks(|bytes|)
    ensures i * CHUNK_SIZE == |Sent(bytes, i)| < |Sent(bytes, i + 1)|
  {
    SentStep(bytes, i);
  }

  // ---------------------------------------------------------------------
  // The hook, acting in place on its state
  // ---------------------------------------------------------------------

  class FileSelection {
    var selected: seq<SelectedFile>
    var progress: map<string, int>
    var stats: map<string, nat>
    var controllers: set<string>
    var paused: set<string>
    var cleanups: seq<string>

    function State(): Client
      reads this
    {
      Client(selected, progress, stats, controllers, paused, cleanups)
    }

    constructor ()
      ensures State() == Client([], map[], map[], {}, {}, [])
    {
      selected := [];
      progress := map[];
      stats := map[];
      controllers := {};
      paused := {};
      cleanups := [];
    }

    /** addFiles: append an idle entry for each file whose name the list does not hold yet. */
    method AddFiles(files: seq<File>, ids: seq<string>)
      requires |ids| == |files|
      modifies this
      ensures State() == old(State()).(selected := Admit(old(selected), Entries(files, ids)))
    {
      var batch := Entries(files, ids);
      selected := Admit(selected, batch);
    }

    /** updateFileStatus. */
    method UpdateFileStatus(id: string, status: Status)
      modifies this
      ensures State() == old(State()).(selected := WithStatus(old(selected), id, status))
    {
      selected := WithStatus(selected, id, status);
    }

    /** pauseUpload: the in-flight post is aborted, the id joins the pause set, the status becomes paused. */
    method PauseUpload(id: string)
      modifies this
      ensures State() == Pause(old(State()), id)
    {
      paused := paused + {id};
      UpdateFileStatus(id, Paused);
    }

    /** abortUpload: abort the in-flight post, if any, and forget the controller. */
    method AbortUpload(id: string)
      modifies this
      ensures State() == old(State()).(controllers := old(controllers) - {id})
    {
      controllers := controllers - {id};
    }

    /**
     * resumeUpload: the id leaves the pause set; if the list holds the file,
     * it is marked uploading and sent again from chunk 0.
     */
    method ResumeUpload(id: string, net: nat -> Exchange) returns (posts: seq<ChunkPost>, end: Option<End>)
      modifies this
      ensures var c := old(State()).(paused := old(paused) - {id});
              match Find(old(selected), id)
              case None => State() == c && posts == [] && end == None
              case Some(sf) =>
                var run := Plan(TotalChunks(|sf.file.bytes|), 0, false, net, 0);
                && end == Some(run.end)
                && posts == PostsOf(sf, run.sent)
                && State() == SendEffect(c.(selected := WithStatus(c.selected, id, Uploading)), id, run)
    {
      paused := paused - {id};
      var found := Find(selected, id);
      if found.None? {
        return [], None;
      }
      UpdateFileStatus(id, Uploading);
      var e;
      posts, e := SendFile(found.value, net);
      end := Some(e);
    }

    /** removeFile: forget the file everywhere and ask the server to clean up. */
    method RemoveFile(id: string)
      modifies this
      ensures State() == Remove(old(State()), id)
    {
      ghost var start := State();
      if id in paused {
        paused := paused - {id};
        UpdateFileStatus(id, Idle);
        progress := progress[id := 0];
        RemoveForgetsPause(start, id);
      }
      AbortUpload(id);
      cleanups := cleanups + [id];
      selected := Without(selected, id);
      progress := progress - {id};
      stats := stats - {id};
    }

    /**
     * removeAllFiles: abort and clean up, once each, every id that holds a
     * controller or is paused, then empty the whole state. `requested`
     * lists those ids in the order their cleanup was asked for.
     */
    method RemoveAllFiles() returns (requested: seq<string>)
      modifies this
      ensures State() == Client([], map[], map[], {}, {}, old(cleanups) + requested)
      ensures forall x :: x in requested <==> x in old(controllers) || x in old(paused)
      ensures forall i, j :: 0 <= i < j < |requested| ==> requested[i] != requested[j]
    {
      var pending := controllers + paused;
      ghost var all := pending;
      requested := [];
      while pending != {}
        invariant forall x :: x in all <==> x in pending || x in requested
        invariant forall x :: x in requested ==> x !in pending
        invariant forall i, j :: 0 <= i < j < |requested| ==> requested[i] != requested[j]
        invariant cleanups == old(cleanups) + requested
        decreases |pending|
      {
        var x :| x in pending;
        AbortUpload(x);
        cleanups := cleanups + [x];
        requested := requested + [x];
        pending := pending - {x};
      }
      paused := {};
      selected := [];
      progress := map[];
      stats := map[];
      controllers := {};
    }

    /**
     * One iteration past the pause check: post chunk `index`, take in a
     * pause that arrives while the post is in flight, then run the catch
     * block or the success path for the reply.
     */
    method SendChunk(sf: SelectedFile, index: nat, ex: Exchange) returns (post: ChunkPost, d: Decision)
      requires index < TotalChunks(|sf.file.bytes|)
      requires sf.id !in paused
      modifies this
      ensures post == PostOf(sf, index)
      ensures d == Decide(index, ex.reply, ex.pausedMeanwhile)
      ensures var c := if ex.pausedMeanwhile then Pause(old(State()), sf.id) else old(State());
              && (d.Continue? ==> State() == Advance(c, sf.id, index, d.acked))
              && (d.Stop? ==> State() == StopEffect(c, sf.id, index, d.end))
    {
      var id := sf.id;
      var chunk := Slice(sf.file.bytes, index);
      post := ChunkPost(chunk, index, TotalChunks(|sf.file.bytes|), sf.file.name, id);
      if ex.pausedMeanwhile {
        PauseUpload(id);
      }
      match ex.reply {
        case Accepted =>
          stats := stats[id := index * CHUNK_SIZE];
          return post, Continue(index + 1, true);
        case Done(filePath) =>
          stats := stats[id := index * CHUNK_SIZE];
          UpdateFileStatus(id, Completed);
          controllers := controllers - {id};
          stats := stats - {id};
          return post, Stop(Finished(filePath));
        case Cancelled =>
          if id in paused {
            UpdateFileStatus(id, Paused);
            controllers := controllers - {id};
            return post, Stop(PausedOnCancel);
          }
          UpdateFileStatus(id, Idle);
          progress := progress[id := 0];
          controllers := controllers - {id};
          return post, Stop(CancelledIdle);
        case OrderError(expectedChunk) =>
          if expectedChunk > index {
            return post, Continue(expectedChunk, false);
          }
          controllers := controllers - {id};
          return post, Stop(Rejected(expectedChunk));
        case OtherError =>
          UpdateFileStatus(id, Error);
          stats := stats - {id};
          controllers := controllers - {id};
          return post, Stop(Failed);
      }
    }

    /**
     * What holds at the top of each iteration of sendFile's loop: `full`
     * is the whole run, of which the posts in `sent` are made; the state
     * is the mid-run state; the id is paused exactly when it was at the
     * start or a pause came in.
     */
    ghost predicate Looping(sf: SelectedFile, net: nat -> Exchange, index: nat, k: nat, posts: seq<ChunkPost>,
                            start: Client, full: Run, sent: seq<nat>, seen: bool, ack: Option<nat>)
      reads this
    {
      var total := TotalChunks(|sf.file.bytes|);
      && full == Prepend(sent, seen, ack, Plan(total, index, sf.id in paused, net, k))
      && (forall i :: 0 <= i < |sent| ==> sent[i] < total)
      && posts == PostsOf(sf, sent)
      && State() == Midway(start, sf.id, seen, ack)
      && (sf.id in paused <==> sf.id in start.paused || seen)
    }

    /** The body of sendFile's loop: the pause check, then one post and its reply. */
    method Iteration(sf: SelectedFile, net: nat -> Exchange, index: nat, k: nat, posts: seq<ChunkPost>,
                     ghost start: Client, ghost full: Run, ghost sent: seq<nat>, ghost seen: bool, ghost ack: Option<nat>)
      returns (stop: Option<End>, index': nat, posts': seq<ChunkPost>,
               ghost sent': seq<nat>, ghost seen': bool, ghost ack': Option<nat>)
      requires index < TotalChunks(|sf.file.bytes|)
      requires Looping(sf, net, index, k, posts, start, full, sent, seen, ack)
      modifies this
      ensures stop.None? ==> index' > index && Looping(sf, net, index', k + 1, posts', start, full, sent', seen', ack')
      ensures stop.Some? ==>
                && stop.value == full.end
                && posts' == PostsOf(sf, full.sent)
                && State() == SendEffect(start, sf.id, full)
    {
      var id := sf.id;
      var total := TotalChunks(|sf.file.bytes|);
      if id in paused {
        UpdateFileStatus(id, Paused);
        controllers := controllers - {id};
        assert full == Run(sent, PausedBeforeSend, seen, ack);
        StopSettles(start, id, seen, ack, index, full);
        return Some(PausedBeforeSend), index, posts, sent, seen, ack;
      }
      var ex := net(k);
      PlanStep(full, sent, seen, ack, total, index, net, k, ex);
      PostsOfAppend(sf, sent, index);
      if ex.pausedMeanwhile {
        PauseMidway(start, id, seen, ack);
      }
      var post, d := SendChunk(sf, index, ex);
      posts' := posts + [post];
      sent' := sent + [index];
      seen' := seen || ex.pausedMeanwhile;
      if d.Stop? {
        StopSettles(start, id, seen', ack, index, full);
        return Some(d.end), index, posts', sent', seen', ack;
      }
      ack' := ack;
      if d.acked {
        AdvanceMidway(start, id, seen', ack, index);
        ack' := Some(index);
      }
      return None, d.next, posts', sent', seen', ack';
    }

    /** sendFile's set-up: register the controller and mark the file uploading. */
    method Begin(sf: SelectedFile, net: nat -> Exchange) returns (ghost start: Client, ghost full: Run)
      modifies this
      ensures start == old(State())
      ensures full == Plan(TotalChunks(|sf.file.bytes|), 0, sf.id in old(paused), net, 0)
      ensures Looping(sf, net, 0, 0, [], start, full, [], false, None)
    {
      start := State();
      full := Plan(TotalChunks(|sf.file.bytes|), 0, sf.id in paused, net, 0);
      controllers := controllers + {sf.id};
      UpdateFileStatus(sf.id, Uploading);
      LoopEntry(start, sf.id, full);
      assert State() == Midway(start, sf.id, false, None);
      assert PostsOf(sf, []) == [];
    }

    /** When the loop condition fails, the whole run has been made and it ran out. */
    lemma LoopExit(sf: SelectedFile, net: nat -> Exchange, index: nat, k: nat, posts: seq<ChunkPost>,
                   start: Client, full: Run, sent: seq<nat>, seen: bool, ack: Option<nat>)
      requires index >= TotalChunks(|sf.file.bytes|)
      requires Looping(sf, net, index, k, posts, start, full, sent, seen, ack)
      ensures full.end == RanOut && posts == PostsOf(sf, full.sent)
      ensures State() == SendEffect(start, sf.id, full)
    {
      assert full == Run(sent, RanOut, seen, ack);
      RanOutSettles(start, sf.id, seen, ack, full);
    }

    /**
     * sendFile: post the chunks in order, from chunk 0, checking the pause
     * set before each post, until the server reports completion, an error
     * ends the loop, or the index passes the last chunk. `net(k)` is the
     * exchange of the k-th post of this call. The posts made and the way
     * the call ends are those of the run `Plan` describes, and the state
     * afterwards is what that run leaves.
     */
    method SendFile(sf: SelectedFile, net: nat -> Exchange) returns (posts: seq<ChunkPost>, end: End)
      modifies this
      ensures var run := Plan(TotalChunks(|sf.file.bytes|), 0, sf.id in old(paused), net, 0);
              && end == run.end
              && posts == PostsOf(sf, run.sent)
              && State() == SendEffect(old(State()), sf.id, run)
    {
      var total := TotalChunks(|sf.file.bytes|);
      ghost var start, full := Begin(sf, net);
      var index: nat := 0;
      var k: nat := 0;
      posts := [];
      ghost var sent: seq<nat> := [];
      ghost var seen := false;
      ghost var ack: Option<nat> := None;
      while index < total
        invariant Looping(sf, net, index, k, posts, start, full, sent, seen, ack)
        decreases total - index
      {
        var stop;
        stop, index, posts, sent, seen, ack := Iteration(sf, net, index, k, posts, start, full, sent, seen, ack);
        if stop.Some? {
          return posts, stop.value;
        }
        k := k + 1;
      }
      LoopExit(sf, net, index, k, posts, start, full, sent, seen, ack);
      return posts, RanOut;
    }
  }
}

/**
 * The client's upload loop run against the chunk receiver: each post the
 * loop makes is one request to the receiver, and the receiver's response
 * is the reply the loop reacts to. The loop here is one call of sendFile
 * with no pause arriving during it.
 */
module Protocol {
  import opened Wrappers
  import opened Bytes
  import opened ChunkSplitter
  import R = ChunkReceiver
  import C = UploadClient

  /** The request the receiver sees for one post; the client sends no checksum. */
  function RequestOf(p: C.ChunkPost): (req: R.ChunkRequest)
    ensures req.checksum.None?
    ensures req.chunk == Some(p.chunk) && req.chunkIndex == Some(p.chunkIndex as int)
    ensures req.totalChunks == Some(p.totalChunks as int)
    ensures req.originalName == Some(p.originalName) && req.fileIdentifier == Some(p.fileIdentifier)
  {
    R.ChunkRequest(Some(p.chunk), Some(p.chunkIndex), Some(p.totalChunks), Some(p.originalName),
                   Some(p.fileIdentifier), None)
  }

  /**
   * How the client reads a response: completed = true returns the path,
   * any other success moves on, and only the order error's 400 carries
   * expectedChunk; every other failure is an error without it.
   */
  function ClientReply(r: R.Response): (c: C.Reply)
    ensures c.Accepted? <==> r.ChunkUploaded?
    ensures c.Done? <==> r.UploadCompleted?
    ensures c.Done? ==> c.filePath == r.filePath
    ensures c.OrderError? <==> r.OutOfOrder?
    ensures c.OrderError? ==> c.expectedChunk == r.expectedChunk
    ensures !c.Cancelled?
  {
    match r
    case ChunkUploaded(_, _) => C.Accepted
    case UploadCompleted(path, _) => C.Done(path)
    case OutOfOrder(expected, _) => C.OrderError(expected)
    case _ => C.OtherError
  }

  /** The file a client may upload: every request for it passes the receiver's validation. */
  predicate Uploadable(sf: C.SelectedFile)
  {
    && R.Required(Some(sf.file.name)) && |sf.file.name| <= R.MAX_NAME_LENGTH
    && R.Required(Some(sf.id))
  }

  /**
   * Every form the client builds passes the controller's validation exactly
   * when the file's name and id are acceptable, and carries no checksum.
   */
  lemma PostsPassValidation(sf: C.SelectedFile, i: nat)
    requires i < TotalChunks(|sf.file.bytes|)
    ensures R.PassesValidation(RequestOf(C.PostOf(sf, i))) <==> Uploadable(sf)
    ensures forall md5: R.Digest :: !R.ChecksumRejects(RequestOf(C.PostOf(sf, i)).checksum, C.PostOf(sf, i).chunk, md5)
  {
  }

  /** Every handler call manages to open both file handles. */
  ghost predicate HandlesOpen(envs: nat -> R.Env)
  {
    forall j :: envs(j).sourceOpens && envs(j).destinationOpens
  }

  /** The receiver's store after a conversation, the client's run, and the replies it got. */
  datatype Conversation = Conversation(store: R.Store, run: C.Run, replies: seq<C.Reply>)

  /** A server: the outcome of the k-th post, given the store it arrives at. */
  type Server = (R.Store, R.ChunkRequest, nat) -> R.Outcome

  /** The chunk receiver as a server, handling the k-th post in environment `envs(k)`. */
  function Serve(envs: nat -> R.Env, md5: R.Digest): Server
  {
    (st: R.Store, req: R.ChunkRequest, j: nat) => R.Receive(st, req, envs(j), md5)
  }

  /** sendFile from chunk `index` on, talking to `server`, with no pause arriving. */
  function Converse(s: R.Store, sf: C.SelectedFile, index: nat, server: Server, k: nat): (c: Conversation)
    decreases C.Measure(TotalChunks(|sf.file.bytes|), index)
    ensures |c.replies| == |c.run.sent|
  {
    var total := TotalChunks(|sf.file.bytes|);
    if index >= total then Conversation(s, C.Run([], C.RanOut, false, None), [])
    else
      var o := server(s, RequestOf(C.PostOf(sf, index)), k);
      var reply := ClientReply(o.response);
      match C.Decide(index, reply, false)
      case Stop(end) =>
        Conversation(o.store, C.Run([index], end, false, if reply.Done? then Some(index) else None), [reply])
      case Continue(next, acked) =>
        var rest := Converse(o.store, sf, next, server, k + 1);
        Conversation(rest.store, C.Prepend([index], false, if acked then Some(index) else None, rest.run),
                     [reply] + rest.replies)
  }

  /** The exchanges from the k-th on deliver `replies`, in order, with no pause. */
  ghost predicate Carries(net: nat -> C.Exchange, k: nat, replies: seq<C.Reply>)
  {
    forall j :: 0 <= j < |replies| ==> net(k + j) == C.Exchange(false, replies[j])
  }

  /** The first exchange of a conversation, and what the rest of it is. */
  lemma ConverseHead(s: R.Store, sf: C.SelectedFile, index: nat, server: Server, k: nat)
    requires index < TotalChunks(|sf.file.bytes|)
    ensures var c := Converse(s, sf, index, server, k);
            var o := server(s, RequestOf(C.PostOf(sf, index)), k);
            var reply := ClientReply(o.response);
            var d := C.Decide(index, reply, false);
            && |c.replies| >= 1 && c.replies[0] == reply
            && (d.Stop? ==> c.run == C.Run([index], d.end, false, if reply.Done? then Some(index) else None))
            && (d.Continue? ==>
                  var rest := Converse(o.store, sf, d.next, server, k + 1);
                  && c.run == C.Prepend([index], false, if d.acked then Some(index) else None, rest.run)
                  && c.replies[1..] == rest.replies)
  {
  }

  /**
   * The conversation is the client's loop fed with the server's replies:
   * any exchange sequence that carries those replies, with no pause,
   * yields the same run.
   */
  lemma {:induction false} ConverseIsPlan(s: R.Store, sf: C.SelectedFile, index: nat, server: Server, k: nat,
                                          net: nat -> C.Exchange)
    requires Carries(net, k, Converse(s, sf, index, server, k).replies)
    decreases C.Measure(TotalChunks(|sf.file.bytes|), index)
    ensures C.Plan(TotalChunks(|sf.file.bytes|), index, false, net, k) == Converse(s, sf, index, server, k).run
  {
    var total := TotalChunks(|sf.file.bytes|);
    if index < total {
      var c := Converse(s, sf, index, server, k);
      var o := server(s, RequestOf(C.PostOf(sf, index)), k);
      var reply := ClientReply(o.response);
      ConverseHead(s, sf, index, server, k);
      C.PlanHead(total, index, net, k);
      assert net(k + 0) == C.Exchange(false, c.replies[0]);
      var d := C.Decide(index, reply, false);
      if d.Continue? {
        var rest := Converse(o.store, sf, d.next, server, k + 1);
        NetTail(c.replies, rest.replies, net, k);
        ConverseIsPlan(o.store, sf, d.next, server, k + 1, net);
      }
    }
  }

  /** An exchange sequence carrying a list of replies from k on carries its tail from k + 1 on. */
  lemma NetTail(replies: seq<C.Reply>, tail: seq<C.Reply>, net: nat -> C.Exchange, k: nat)
    requires replies != [] && tail == replies[1..]
    requires Carries(net, k, replies)
    ensures Carries(net, k + 1, tail)
  {
    forall j | 0 <= j < |tail|
      ensures net(k + 1 + j) == C.Exchange(false, tail[j])
    {
      assert net(k + (j + 1)) == C.Exchange(false, replies[j + 1]);
    }
  }

  /** The indices lo, lo + 1, ..., hi - 1. */
  function Range(lo: nat, hi: nat): (r: seq<nat>)
    decreases hi - lo
    ensures |r| == if lo <= hi then hi - lo else 0
    ensures forall i :: 0 <= i < |r| ==> r[i] == lo + i
  {
    if lo >= hi then [] else [lo] + Range(lo + 1, hi)
  }

  /** The receiver holds upload `sf.id` with its first `e` chunks accepted, and e is not the last index. */
  predicate Holds(s: R.Store, sf: C.SelectedFile, e: nat)
  {
    && sf.id in s.meta
    && s.meta[sf.id].expectedNextChunk == e
    && 1 <= e < TotalChunks(|sf.file.bytes|)
    && s.meta[sf.id].normalizedName in s.files
    && s.files[s.meta[sf.id].normalizedName] == Sent(sf.file.bytes, e)
  }

  /** What the receiver keeps once the whole of `sf` has arrived as uploads/`name`. */
  predicate Delivered(before: R.Store, after: R.Store, sf: C.SelectedFile, name: string)
  {
    && sf.id !in after.meta
    && name in after.files && after.files[name] == sf.file.bytes
    && |after.records| == |before.records| + 1
    && after.records[..|before.records|] == before.records
    && after.records[|before.records|].filePath == R.FilePath(name)
    && after.records[|before.records|].fileSize == |sf.file.bytes|
  }

  /** The receiver's answer to the expected chunk `e` when it is not the last. */
  lemma AcceptStep(s: R.Store, sf: C.SelectedFile, e: nat, env: R.Env, md5: R.Digest)
    requires Uploadable(sf) && Holds(s, sf, e) && e + 1 < TotalChunks(|sf.file.bytes|)
    requires env.sourceOpens && env.destinationOpens
    ensures var o := R.Receive(s, RequestOf(C.PostOf(sf, e)), env, md5);
            && o.response.ChunkUploaded?
            && Holds(o.store, sf, e + 1)
            && o.store.meta[sf.id].normalizedName == s.meta[sf.id].normalizedName
            && o.store.records == s.records
  {
    var req := RequestOf(C.PostOf(sf, e));
    var name := s.meta[sf.id].normalizedName;
    assert R.PassesValidation(req);
    var o := R.Receive(s, req, env, md5);
    assert o.store.files[name] == Sent(sf.file.bytes, e) + Slice(sf.file.bytes, e);
    SentStep(sf.file.bytes, e);
  }

  /** The receiver's answer to the last chunk when it is the expected one. */
  lemma LastStep(s: R.Store, sf: C.SelectedFile, e: nat, env: R.Env, md5: R.Digest)
    requires Uploadable(sf) && Holds(s, sf, e) && e + 1 == TotalChunks(|sf.file.bytes|)
    requires env.sourceOpens && env.destinationOpens
    ensures var o := R.Receive(s, RequestOf(C.PostOf(sf, e)), env, md5);
            && o.response.UploadCompleted?
            && o.response.filePath == R.FilePath(s.meta[sf.id].normalizedName)
            && Delivered(s, o.store, sf, s.meta[sf.id].normalizedName)
  {
    var req := RequestOf(C.PostOf(sf, e));
    var name := s.meta[sf.id].normalizedName;
    assert R.PassesValidation(req);
    var o := R.Receive(s, req, env, md5);
    assert o.store.files[name] == Sent(sf.file.bytes, e) + Slice(sf.file.bytes, e);
    SentStep(sf.file.bytes, e);
    SentAll(sf.file.bytes);
  }

  /**
   * From the chunk the receiver expects, the loop sends every remaining
   * chunk once, in order, and the upload completes with the whole file
   * stored under the name chosen when it started.
   */
  lemma {:induction false} FromExpected(s: R.Store, sf: C.SelectedFile, e: nat, envs: nat -> R.Env,
                                        md5: R.Digest, k: nat)
    requires Uploadable(sf) && Holds(s, sf, e) && HandlesOpen(envs)
    decreases TotalChunks(|sf.file.bytes|) - e
    ensures var c := Converse(s, sf, e, Serve(envs, md5), k);
            var name := s.meta[sf.id].normalizedName;
            && c.run.end == C.Finished(R.FilePath(name))
            && c.run.sent == Range(e, TotalChunks(|sf.file.bytes|))
            && Delivered(s, c.store, sf, name)
  {
    var total := TotalChunks(|sf.file.bytes|);
    var server := Serve(envs, md5);
    var o := R.Receive(s, RequestOf(C.PostOf(sf, e)), envs(k), md5);
    assert server(s, RequestOf(C.PostOf(sf, e)), k) == o;
    ConverseHead(s, sf, e, server, k);
    if e + 1 == total {
      LastStep(s, sf, e, envs(k), md5);
    } else {
      AcceptStep(s, sf, e, envs(k), md5);
      FromExpected(o.store, sf, e + 1, envs, md5, k + 1);
      assert Range(e, total) == [e] + Range(e + 1, total);
    }
  }

  /**
   * resumeUpload restarts sendFile at chunk 0 while the receiver already
   * holds chunks 0 .. e - 1: the first post is refused with expectedChunk =
   * e, the loop jumps there, and the rest goes as from the expected chunk.
   * No chunk before e is sent again apart from that first post.
   */
  lemma ResumeFastForwards(s: R.Store, sf: C.SelectedFile, e: nat, envs: nat -> R.Env, md5: R.Digest)
    requires Uploadable(sf) && Holds(s, sf, e) && HandlesOpen(envs)
    ensures var c := Converse(s, sf, 0, Serve(envs, md5), 0);
            var name := s.meta[sf.id].normalizedName;
            && c.replies[0] == C.OrderError(e)
            && c.run.end == C.Finished(R.FilePath(name))
            && c.run.sent == [0] + Range(e, TotalChunks(|sf.file.bytes|))
            && Delivered(s, c.store, sf, name)
  {
    var req := RequestOf(C.PostOf(sf, 0));
    assert R.PassesValidation(req);
    var o := R.Receive(s, req, envs(0), md5);
    assert o.store == s;
    FromExpected(s, sf, e, envs, md5, 1);
  }

  /**
   * The same resume seen from the client's loop: fed the receiver's
   * replies, sendFile posts chunk 0, jumps to e, posts e .. total - 1 and
   * returns the path of the stored file.
   */
  lemma ResumedLoopFinishes(s: R.Store, sf: C.SelectedFile, e: nat, envs: nat -> R.Env, md5: R.Digest,
                            net: nat -> C.Exchange)
    requires Uploadable(sf) && Holds(s, sf, e) && HandlesOpen(envs)
    requires var c := Converse(s, sf, 0, Serve(envs, md5), 0);
             forall j :: 0 <= j < |c.replies| ==> net(j) == C.Exchange(false, c.replies[j])
    ensures var r := C.Plan(TotalChunks(|sf.file.bytes|), 0, false, net, 0);
            && r.end == C.Finished(R.FilePath(s.meta[sf.id].normalizedName))
            && r.sent == [0] + Range(e, TotalChunks(|sf.file.bytes|))
  {
    var c := Converse(s, sf, 0, Serve(envs, md5), 0);
    ResumeFastForwards(s, sf, e, envs, md5);
    assert Carries(net, 0, c.replies) by {
      forall j | 0 <= j < |c.replies|
        ensures net(0 + j) == C.Exchange(false, c.replies[j])
      {
      }
    }
    ConverseIsPlan(s, sf, 0, Serve(envs, md5), 0, net);
  }

  /** The first chunk of a new upload, when more follow, opens a record the rest can follow. */
  lemma FirstStep(s: R.Store, sf: C.SelectedFile, env: R.Env, md5: R.Digest)
    requires Uploadable(sf) && sf.id !in s.meta && 1 < TotalChunks(|sf.file.bytes|)
    requires env.sourceOpens && env.destinationOpens
    requires R.FileAt(s.files, R.NewSession(0, sf.file.name, env).normalizedName) == []
    ensures var o := R.Receive(s, RequestOf(C.PostOf(sf, 0)), env, md5);
            && o.response.ChunkUploaded?
            && Holds(o.store, sf, 1)
            && o.store.meta[sf.id].normalizedName == R.NewSession(0, sf.file.name, env).normalizedName
            && o.store.records == s.records
  {
    var req := RequestOf(C.PostOf(sf, 0));
    assert R.PassesValidation(req);
    R.NoRecordExpectsZero(s, req, env);
    R.NextChunkRecorded(s, req, env, md5);
    var o := R.Receive(s, req, env, md5);
    var name := R.NewSession(0, sf.file.name, env).normalizedName;
    assert o.store.files[name] == Slice(sf.file.bytes, 0);
    SentStep(sf.file.bytes, 0);
  }

  /** A one-chunk file completes on its first post. */
  lemma SingleChunk(s: R.Store, sf: C.SelectedFile, env: R.Env, md5: R.Digest)
    requires Uploadable(sf) && sf.id !in s.meta && TotalChunks(|sf.file.bytes|) == 1
    requires env.sourceOpens && env.destinationOpens
    requires R.FileAt(s.files, R.NewSession(0, sf.file.name, env).normalizedName) == []
    ensures var o := R.Receive(s, RequestOf(C.PostOf(sf, 0)), env, md5);
            var name := R.NewSession(0, sf.file.name, env).normalizedName;
            && o.response.UploadCompleted?
            && o.response.filePath == R.FilePath(name)
            && Delivered(s, o.store, sf, name)
  {
    var req := RequestOf(C.PostOf(sf, 0));
    assert R.PassesValidation(req);
    R.NoRecordExpectsZero(s, req, env);
    var o := R.Receive(s, req, env, md5);
    var name := R.NewSession(0, sf.file.name, env).normalizedName;
    assert o.store.files[name] == Slice(sf.file.bytes, 0);
    SentAll(sf.file.bytes);
  }

  /**
   * A new upload of a non-empty file, with no pause and every handle
   * opening, sends each chunk once in order and ends with the receiver
   * holding the file byte for byte under the name drawn for the first
   * chunk, one catalog record of the file's size, and no metadata left.
   */
  lemma NewUploadDelivers(s: R.Store, sf: C.SelectedFile, envs: nat -> R.Env, md5: R.Digest)
    requires Uploadable(sf) && sf.id !in s.meta && |sf.file.bytes| > 0 && HandlesOpen(envs)
    requires R.FileAt(s.files, R.NewSession(0, sf.file.name, envs(0)).normalizedName) == []
    ensures var c := Converse(s, sf, 0, Serve(envs, md5), 0);
            var name := R.NewSession(0, sf.file.name, envs(0)).normalizedName;
            && c.run.end == C.Finished(R.FilePath(name))
            && c.run.sent == Range(0, TotalChunks(|sf.file.bytes|))
            && Delivered(s, c.store, sf, name)
  {
    var total := TotalChunks(|sf.file.bytes|);
    var o := R.Receive(s, RequestOf(C.PostOf(sf, 0)), envs(0), md5);
    if total == 1 {
      SingleChunk(s, sf, envs(0), md5);
    } else {
      FirstStep(s, sf, envs(0), md5);
      FromExpected(o.store, sf, 1, envs, md5, 1);
      var rest := Converse(o.store, sf, 1, Serve(envs, md5), 1);
      assert rest.store.records[..|s.records|] == s.records by {
        assert rest.store.records[..|o.store.records|] == o.store.records;
      }
    }
  }

  /** An empty file sends nothing and leaves the receiver as it was. */
  lemma EmptyFileTouchesNothing(s: R.Store, sf: C.SelectedFile, envs: nat -> R.Env, md5: R.Digest)
    requires |sf.file.bytes| == 0
    ensures Converse(s, sf, 0, Serve(envs, md5), 0) == Conversation(s, C.Run([], C.RanOut, false, None), [])
  {
  }
}

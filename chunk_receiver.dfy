/**
 * The server's chunk receiver (UploadController::chunk and ::abort).
 *
 * The storage the controller touches is a `Store`: the per-upload metadata
 * records (uploads/<fileIdentifier>.json, keyed here by fileIdentifier), the
 * files in the uploads/ directory (file name -> bytes) and the table of
 * Upload records.
 * `Receive` and `AbortUpload` give the effect of one request on a Store;
 * the class `Receiver` performs the same steps in place. What the handler
 * draws from its environment (time(), Str::random(8), whether fopen
 * succeeds, mime_content_type) is an `Env`; md5 is an uninterpreted
 * `Digest` function.
 */
module ChunkReceiver {
  import opened Wrappers
  import opened Bytes
  import FilenameNormalizer

  /** 'max:10240' on the chunk: 10240 kilobytes. */
  const MAX_CHUNK_BYTES: nat := 10240 * 1024
  /** 'max:255' on originalName. */
  const MAX_NAME_LENGTH: nat := 255

  type Digest = seq<byte> -> string

  /** The fields of one chunk request; None is a field that is missing or not of the expected type. */
  datatype ChunkRequest = ChunkRequest(
    chunk: Option<seq<byte>>,
    chunkIndex: Option<int>,
    totalChunks: Option<int>,
    originalName: Option<string>,
    fileIdentifier: Option<string>,
    checksum: Option<string>)

  /** The metadata record of an upload in progress. */
  datatype Session = Session(
    totalChunks: int,
    originalName: string,
    normalizedName: string,
    expectedNextChunk: int,
    uploadedAt: nat)

  /** The catalog record created once an upload completes. */
  datatype Upload = Upload(filePath: string, mimeType: string, fileSize: nat)

  /** What one request handler draws from its environment. */
  datatype Env = Env(
    now: nat,               // time()
    token: string,          // Str::random(8)
    sourceOpens: bool,      // fopen of the uploaded chunk succeeds
    destinationOpens: bool, // fopen of the destination in 'ab' mode succeeds
    mimeType: string)       // mime_content_type of the finished file

  datatype Response =
    | ValidationFailed                                     // 422
    | ChunkCorrupted                                       // 400 'Chunk corrupted'
    | OutOfOrder(expectedChunk: int, receivedChunk: int)   // 400 'Chunks must be uploaded in order'
    | HandlesFailed                                        // 500 'Could not open file handles'
    | ChunkUploaded(uploadedChunks: int, totalChunks: int) // 'chunk uploaded', completed = false
    | UploadCompleted(filePath: string, upload: Upload)    // 'success', completed = true

  datatype Store = Store(meta: map<string, Session>, files: map<string, seq<byte>>, records: seq<Upload>)

  datatype Outcome = Outcome(store: Store, response: Response)

  datatype AbortResponse = AbortValidationFailed | Aborted

  datatype AbortOutcome = AbortOutcome(store: Store, response: AbortResponse)

  function FilePath(normalizedName: string): string { "uploads/" + normalizedName }

  /** The bytes of uploads/`name`; a file that does not exist reads as empty. */
  function FileAt(files: map<string, seq<byte>>, name: string): seq<byte>
  {
    if name in files then files[name] else []
  }

  // ---------------------------------------------------------------------
  // Validation and the checksum test
  // ---------------------------------------------------------------------

  /** Laravel's 'required' on a string: present and not only blanks. */
  predicate Required(s: Option<string>)
  {
    s.Some? && exists i :: 0 <= i < |s.value| && !FilenameNormalizer.IsBlank(s.value[i])
  }

  /**
   * The rules of request()->validate([...]) in chunk(): each rule that fails
   * on its own rejects the request. The field types already exclude what the
   * 'file', 'integer' and 'string' rules reject (a non-file chunk, a
   * non-integer index or total, a non-string name, identifier or checksum),
   * and a missing checksum is allowed ('nullable').
   */
  predicate PassesValidation(req: ChunkRequest)
    ensures req.chunk.None? || |req.chunk.value| > MAX_CHUNK_BYTES ==> !PassesValidation(req)
    ensures req.chunkIndex.None? || req.chunkIndex.value < 0 ==> !PassesValidation(req)
    ensures req.totalChunks.None? || req.totalChunks.value < 1 ==> !PassesValidation(req)
    ensures !Required(req.originalName) || |req.originalName.value| > MAX_NAME_LENGTH ==> !PassesValidation(req)
    ensures !Required(req.fileIdentifier) ==> !PassesValidation(req)
  {
    && req.chunk.Some? && |req.chunk.value| <= MAX_CHUNK_BYTES
    && req.chunkIndex.Some? && req.chunkIndex.value >= 0
    && req.totalChunks.Some? && req.totalChunks.value >= 1
    && Required(req.originalName) && |req.originalName.value| <= MAX_NAME_LENGTH
    && Required(req.fileIdentifier)
  }

  /** PHP truthiness of a string: "" and "0" are false. */
  predicate Truthy(s: string) { s != "" && s != "0" }

  /**
   * `$checksum && md5_file(...) !== $checksum`: an absent, empty or "0"
   * checksum is never tested; any other one rejects exactly when it differs
   * from the chunk's digest.
   */
  predicate ChecksumRejects(checksum: Option<string>, chunk: seq<byte>, md5: Digest)
    ensures checksum.None? ==> !ChecksumRejects(checksum, chunk, md5)
    ensures checksum.Some? && !Truthy(checksum.value) ==> !ChecksumRejects(checksum, chunk, md5)
    ensures checksum.Some? && Truthy(checksum.value) ==> (ChecksumRejects(checksum, chunk, md5) <==> md5(chunk) != checksum.value)
  {
    checksum.Some? && Truthy(checksum.value) && md5(chunk) != checksum.value
  }

  // ---------------------------------------------------------------------
  // One chunk request
  // ---------------------------------------------------------------------

  /** The record chunk() creates when no metadata exists for the upload yet. */
  function NewSession(totalChunks: int, originalName: string, env: Env): Session
  {
    Session(totalChunks, originalName,
            FilenameNormalizer.NormalizeFilename(originalName, env.now, env.token), 0, env.now)
  }

  /** The record chunk() works with: the stored one, or a fresh one. */
  function SessionFor(s: Store, req: ChunkRequest, env: Env): Session
    requires PassesValidation(req)
  {
    var id := req.fileIdentifier.value;
    if id in s.meta then s.meta[id] else NewSession(req.totalChunks.value, req.originalName.value, env)
  }

  /** The index the receiver expects next for an upload: 0 when none is recorded. */
  function Expected(s: Store, id: string): int
  {
    if id in s.meta then s.meta[id].expectedNextChunk else 0
  }

  /** A failed request changes no record and no byte; at most it creates uploads/`name` empty. */
  predicate OnlyTouched(before: Store, after: Store, name: string)
  {
    && after.meta == before.meta
    && after.records == before.records
    && (after.files == before.files || (name !in before.files && after.files == before.files[name := []]))
  }

  predicate IsAccepted(r: Response) { r.ChunkUploaded? || r.UploadCompleted? }

  /** The effect of one chunk request on the store, and the response. */
  function Receive(s: Store, req: ChunkRequest, env: Env, md5: Digest): (o: Outcome)
    // validation runs first and touches nothing
    ensures o.response.ValidationFailed? <==> !PassesValidation(req)
    ensures o.response.ValidationFailed? ==> o.store == s
    // a supplied checksum that differs from md5 of the chunk is rejected, touching nothing
    ensures o.response.ChunkCorrupted? <==>
              PassesValidation(req) && ChecksumRejects(req.checksum, req.chunk.value, md5)
    ensures o.response.ChunkCorrupted? ==> o.store == s
    // the order check: only the expected index gets past it
    ensures o.response.OutOfOrder? <==>
              && PassesValidation(req) && !ChecksumRejects(req.checksum, req.chunk.value, md5)
              && req.chunkIndex.value != Expected(s, req.fileIdentifier.value)
    ensures o.response.OutOfOrder? ==>
              && o.store == s
              && o.response.expectedChunk == Expected(s, req.fileIdentifier.value)
              && o.response.receivedChunk == req.chunkIndex.value
    // a handle that does not open fails the request without changing any record or byte
    ensures o.response.HandlesFailed? ==>
              && !(env.sourceOpens && env.destinationOpens)
              && OnlyTouched(s, o.store, SessionFor(s, req, env).normalizedName)
    // an accepted chunk is appended to the session's file and nothing else changes there
    ensures IsAccepted(o.response) ==>
              var name := SessionFor(s, req, env).normalizedName;
              && req.chunkIndex.value == Expected(s, req.fileIdentifier.value)
              && env.sourceOpens && env.destinationOpens
              && o.store.files == s.files[name := FileAt(s.files, name) + req.chunk.value]
    // not the last chunk: the record advances by one and is stored
    ensures o.response.ChunkUploaded? ==>
              var session := SessionFor(s, req, env);
              && req.chunkIndex.value + 1 != req.totalChunks.value
              && o.store.meta == s.meta[req.fileIdentifier.value := session.(expectedNextChunk := req.chunkIndex.value + 1)]
              && o.store.records == s.records
              && o.response == ChunkUploaded(req.chunkIndex.value + 1, req.totalChunks.value)
    // the last chunk, judged by the request's totalChunks: one record, metadata deleted
    ensures o.response.UploadCompleted? ==>
              var name := SessionFor(s, req, env).normalizedName;
              && req.chunkIndex.value + 1 == req.totalChunks.value
              && o.store.meta == s.meta - {req.fileIdentifier.value}
              && o.store.records == s.records + [o.response.upload]
              && o.response.filePath == FilePath(name)
              && o.response.upload == Upload(FilePath(name), env.mimeType, |o.store.files[name]|)
  {
    if !PassesValidation(req) then Outcome(s, ValidationFailed)
    else
      var chunk := req.chunk.value;
      var index := req.chunkIndex.value;
      var total := req.totalChunks.value;
      var id := req.fileIdentifier.value;
      if ChecksumRejects(req.checksum, chunk, md5) then Outcome(s, ChunkCorrupted)
      else
        var session := SessionFor(s, req, env);
        var name := session.normalizedName;
        if index != session.expectedNextChunk then
          Outcome(s, OutOfOrder(session.expectedNextChunk, index))
        else if !(env.sourceOpens && env.destinationOpens) then
          // both fopen calls run; 'ab' creates the destination when it opens
          var files := if env.destinationOpens && name !in s.files then s.files[name := []] else s.files;
          Outcome(s.(files := files), HandlesFailed)
        else
          var content := FileAt(s.files, name) + chunk;
          var files := s.files[name := content];
          if index + 1 == total then
            var upload := Upload(FilePath(name), env.mimeType, |content|);
            Outcome(Store(s.meta - {id}, files, s.records + [upload]), UploadCompleted(FilePath(name), upload))
          else
            Outcome(Store(s.meta[id := session.(expectedNextChunk := index + 1)], files, s.records),
                    ChunkUploaded(index + 1, total))
  }

  // ---------------------------------------------------------------------
  // Abort
  // ---------------------------------------------------------------------

  /** abort(): delete the partial file and the metadata of the upload, if any. */
  function AbortUpload(s: Store, fileIdentifier: Option<string>): (o: AbortOutcome)
    ensures o.response == Aborted <==> Required(fileIdentifier)
    ensures Required(fileIdentifier) && fileIdentifier.value in s.meta ==>
              var id := fileIdentifier.value;
              o.store == Store(s.meta - {id}, s.files - {s.meta[id].normalizedName}, s.records)
    ensures !(Required(fileIdentifier) && fileIdentifier.value in s.meta) ==> o.store == s
  {
    if !Required(fileIdentifier) then AbortOutcome(s, AbortValidationFailed)
    else
      var id := fileIdentifier.value;
      if id in s.meta then
        AbortOutcome(Store(s.meta - {id}, s.files - {s.meta[id].normalizedName}, s.records), Aborted)
      else AbortOutcome(s, Aborted)
  }

  // ---------------------------------------------------------------------
  // The invariant: each file is the in-order concatenation of its accepted chunks
  // ---------------------------------------------------------------------

  /**
   * `accepted[id]` lists the chunks accepted for upload `id`, in the order
   * they were accepted; the j-th of them was sent with chunkIndex j.
   */
  ghost predicate Consistent(s: Store, accepted: map<string, seq<seq<byte>>>)
  {
    && s.meta.Keys == accepted.Keys
    && (forall id :: id in s.meta ==>
          && s.meta[id].expectedNextChunk == |accepted[id]| >= 1
          && s.meta[id].normalizedName in s.files
          && s.files[s.meta[id].normalizedName] == Flatten(accepted[id]))
    && (forall id1, id2 :: id1 in s.meta && id2 in s.meta && id1 != id2 ==>
          s.meta[id1].normalizedName != s.meta[id2].normalizedName)
  }

  /**
   * time() and Str::random(8) are taken to give a name no file has yet. The
   * controller does not check this; the invariant needs it.
   */
  predicate FreshName(s: Store, req: ChunkRequest, env: Env)
  {
    PassesValidation(req) && req.fileIdentifier.value !in s.meta ==>
      FilenameNormalizer.NormalizeFilename(req.originalName.value, env.now, env.token) !in s.files
  }

  /** The chunks accepted for each live upload after one request. */
  ghost function Track(accepted: map<string, seq<seq<byte>>>, s: Store, req: ChunkRequest, env: Env, md5: Digest)
    : map<string, seq<seq<byte>>>
  {
    var o := Receive(s, req, env, md5);
    if o.response.ChunkUploaded? then
      var id := req.fileIdentifier.value;
      accepted[id := (if id in accepted then accepted[id] else []) + [req.chunk.value]]
    else if o.response.UploadCompleted? then accepted - {req.fileIdentifier.value}
    else accepted
  }

  /**
   * When a handle does not open, the request leaves a new, empty file behind
   * exactly when the destination opened in append mode and the file did not
   * exist yet; otherwise no file changes.
   */
  lemma FailedOpenLeavesEmptyFile(s: Store, req: ChunkRequest, env: Env, md5: Digest)
    requires Receive(s, req, env, md5).response.HandlesFailed?
    ensures var name := SessionFor(s, req, env).normalizedName;
            var files := Receive(s, req, env, md5).store.files;
            && (env.destinationOpens && name !in s.files ==> name in files && files == s.files[name := []])
            && (!(env.destinationOpens && name !in s.files) ==> files == s.files)
  {
  }

  /** A request that only creates an empty file keeps the invariant. */
  lemma TouchKeepsConsistent(s: Store, s': Store, accepted: map<string, seq<seq<byte>>>, name: string)
    requires Consistent(s, accepted) && OnlyTouched(s, s', name)
    ensures Consistent(s', accepted)
  {
  }

  /**
   * Appending the next chunk of upload `id` to its file, and either storing
   * the advanced record or dropping it, keeps the invariant.
   */
  lemma AppendKeepsConsistent(s: Store, accepted: map<string, seq<seq<byte>>>, id: string, session: Session,
                              chunk: seq<byte>, records: seq<Upload>)
    requires Consistent(s, accepted)
    requires id in s.meta ==> session == s.meta[id]
    requires id !in s.meta ==> session.expectedNextChunk == 0 && session.normalizedName !in s.files
    ensures var name := session.normalizedName;
            var before := if id in accepted then accepted[id] else [];
            var files := s.files[name := FileAt(s.files, name) + chunk];
            && files[name] == Flatten(before + [chunk])
            && Consistent(Store(s.meta[id := session.(expectedNextChunk := session.expectedNextChunk + 1)], files, records),
                          accepted[id := before + [chunk]])
            && Consistent(Store(s.meta - {id}, files, records), accepted - {id})
  {
    var name := session.normalizedName;
    var before := if id in accepted then accepted[id] else [];
    FlattenAppend(before, chunk);
    assert FileAt(s.files, name) == Flatten(before);
    var advanced := s.meta[id := session.(expectedNextChunk := session.expectedNextChunk + 1)];
    forall id1, id2 | id1 in advanced && id2 in advanced && id1 != id2
      ensures advanced[id1].normalizedName != advanced[id2].normalizedName
    {
      if id1 != id && id2 != id {
        assert advanced[id1] == s.meta[id1] && advanced[id2] == s.meta[id2];
      }
    }
  }

  /** A chunk accepted but not the last keeps the invariant. */
  lemma UploadedKeepsConsistent(s: Store, accepted: map<string, seq<seq<byte>>>, req: ChunkRequest, env: Env, md5: Digest)
    requires Consistent(s, accepted)
    requires FreshName(s, req, env)
    requires Receive(s, req, env, md5).response.ChunkUploaded?
    ensures Consistent(Receive(s, req, env, md5).store, Track(accepted, s, req, env, md5))
  {
    var o := Receive(s, req, env, md5);
    AppendKeepsConsistent(s, accepted, req.fileIdentifier.value, SessionFor(s, req, env), req.chunk.value, o.store.records);
  }

  /** The last chunk keeps the invariant, and the finished file is every accepted chunk in order. */
  lemma CompletedKeepsConsistent(s: Store, accepted: map<string, seq<seq<byte>>>, req: ChunkRequest, env: Env, md5: Digest)
    requires Consistent(s, accepted)
    requires FreshName(s, req, env)
    requires Receive(s, req, env, md5).response.UploadCompleted?
    ensures Consistent(Receive(s, req, env, md5).store, Track(accepted, s, req, env, md5))
    ensures var o := Receive(s, req, env, md5);
            var id := req.fileIdentifier.value;
            var chunks := (if id in accepted then accepted[id] else []) + [req.chunk.value];
            && o.store.files[SessionFor(s, req, env).normalizedName] == Flatten(chunks)
            && o.response.upload.fileSize == |Flatten(chunks)|
  {
    var o := Receive(s, req, env, md5);
    AppendKeepsConsistent(s, accepted, req.fileIdentifier.value, SessionFor(s, req, env), req.chunk.value, o.store.records);
  }

  /**
   * Every request keeps each live upload's file equal to the concatenation,
   * in index order, of the chunks accepted for it; a completed upload's file
   * is that concatenation with the last chunk, and its record has its size.
   */
  lemma ReceiveKeepsConsistent(s: Store, accepted: map<string, seq<seq<byte>>>, req: ChunkRequest, env: Env, md5: Digest)
    requires Consistent(s, accepted)
    requires FreshName(s, req, env)
    ensures Consistent(Receive(s, req, env, md5).store, Track(accepted, s, req, env, md5))
    ensures var o := Receive(s, req, env, md5);
            o.response.UploadCompleted? ==>
              var id := req.fileIdentifier.value;
              var chunks := (if id in accepted then accepted[id] else []) + [req.chunk.value];
              && o.store.files[SessionFor(s, req, env).normalizedName] == Flatten(chunks)
              && o.response.upload.fileSize == |Flatten(chunks)|
  {
    var o := Receive(s, req, env, md5);
    if o.response.ChunkUploaded? {
      UploadedKeepsConsistent(s, accepted, req, env, md5);
    } else if o.response.UploadCompleted? {
      CompletedKeepsConsistent(s, accepted, req, env, md5);
    } else if o.response.HandlesFailed? {
      TouchKeepsConsistent(s, o.store, accepted, SessionFor(s, req, env).normalizedName);
    }
  }

  /** abort() keeps the invariant: the aborted upload simply stops being live. */
  lemma AbortKeepsConsistent(s: Store, accepted: map<string, seq<seq<byte>>>, fileIdentifier: Option<string>)
    requires Consistent(s, accepted)
    ensures var o := AbortUpload(s, fileIdentifier);
            Consistent(o.store, if o.response == Aborted then accepted - {fileIdentifier.value} else accepted)
  {
  }

  /** A second abort for the same upload changes nothing and answers the same. */
  lemma AbortIsIdempotent(s: Store, fileIdentifier: Option<string>)
    ensures var once := AbortUpload(s, fileIdentifier);
            AbortUpload(once.store, fileIdentifier) == once
  {
  }

  /**
   * Re-sending a chunk that was just accepted (and was not the last) fails
   * the order check: it is never appended twice.
   */
  lemma ResubmittedChunkRejected(s: Store, req: ChunkRequest, env: Env, env': Env, md5: Digest)
    requires Receive(s, req, env, md5).response.ChunkUploaded?
    ensures var s' := Receive(s, req, env, md5).store;
            Receive(s', req, env', md5) == Outcome(s', OutOfOrder(req.chunkIndex.value + 1, req.chunkIndex.value))
  {
  }

  /** The expected chunk of an upload, when it is not the last, is accepted. */
  lemma NextChunkAccepted(s: Store, req: ChunkRequest, env: Env, md5: Digest)
    requires PassesValidation(req) && req.chunkIndex.value == Expected(s, req.fileIdentifier.value)
    requires req.chunkIndex.value + 1 != req.totalChunks.value
    requires !ChecksumRejects(req.checksum, req.chunk.value, md5)
    requires env.sourceOpens && env.destinationOpens
    ensures Receive(s, req, env, md5).response == ChunkUploaded(req.chunkIndex.value + 1, req.totalChunks.value)
  {
  }

  /** ... and its record, new or stored, is kept with the next index. */
  lemma NextChunkRecorded(s: Store, req: ChunkRequest, env: Env, md5: Digest)
    requires PassesValidation(req) && req.chunkIndex.value == Expected(s, req.fileIdentifier.value)
    requires req.chunkIndex.value + 1 != req.totalChunks.value
    requires !ChecksumRejects(req.checksum, req.chunk.value, md5)
    requires env.sourceOpens && env.destinationOpens
    ensures Receive(s, req, env, md5).store.meta[req.fileIdentifier.value]
            == SessionFor(s, req, env).(expectedNextChunk := req.chunkIndex.value + 1)
  {
    NextChunkAccepted(s, req, env, md5);
  }

  /**
   * With no record for the upload, chunk 0 (not the last) starts a new one:
   * a record with a newly drawn name, expecting chunk 1 next.
   */
  lemma FirstChunkStarts(s: Store, req: ChunkRequest, env: Env, md5: Digest)
    requires PassesValidation(req) && req.chunkIndex.value == 0 && req.totalChunks.value > 1
    requires !ChecksumRejects(req.checksum, req.chunk.value, md5)
    requires env.sourceOpens && env.destinationOpens
    requires req.fileIdentifier.value !in s.meta
    ensures Receive(s, req, env, md5).response == ChunkUploaded(1, req.totalChunks.value)
    ensures Receive(s, req, env, md5).store.meta[req.fileIdentifier.value].normalizedName
            == FilenameNormalizer.NormalizeFilename(req.originalName.value, env.now, env.token)
    ensures Receive(s, req, env, md5).store.meta[req.fileIdentifier.value].expectedNextChunk == 1
  {
    NoRecordExpectsZero(s, req, env);
    NextChunkAccepted(s, req, env, md5);
    NextChunkRecorded(s, req, env, md5);
  }

  lemma NoRecordExpectsZero(s: Store, req: ChunkRequest, env: Env)
    requires PassesValidation(req) && req.fileIdentifier.value !in s.meta
    ensures Expected(s, req.fileIdentifier.value) == 0
    ensures SessionFor(s, req, env).normalizedName
            == FilenameNormalizer.NormalizeFilename(req.originalName.value, env.now, env.token)
  {
  }

  /** After abort, chunk 0 for the same identifier starts a new upload. */
  lemma AbortThenRestart(s: Store, req: ChunkRequest, env: Env, md5: Digest)
    requires PassesValidation(req) && req.chunkIndex.value == 0 && req.totalChunks.value > 1
    requires !ChecksumRejects(req.checksum, req.chunk.value, md5)
    requires env.sourceOpens && env.destinationOpens
    ensures var cleared := AbortUpload(s, req.fileIdentifier).store;
            var o := Receive(cleared, req, env, md5);
            var name := FilenameNormalizer.NormalizeFilename(req.originalName.value, env.now, env.token);
            && o.response == ChunkUploaded(1, req.totalChunks.value)
            && o.store.meta[req.fileIdentifier.value].normalizedName == name
            && o.store.meta[req.fileIdentifier.value].expectedNextChunk == 1
  {
    var cleared := AbortUpload(s, req.fileIdentifier).store;
    assert req.fileIdentifier.value !in cleared.meta;
    FirstChunkStarts(cleared, req, env, md5);
  }

  // ---------------------------------------------------------------------
  // The controller, acting in place on its storage
  // ---------------------------------------------------------------------

  class Receiver {
    var meta: map<string, Session>
    var files: map<string, seq<byte>>
    var records: seq<Upload>
    /** The chunks accepted for each live upload, in order. */
    ghost var accepted: map<string, seq<seq<byte>>>
    const md5: Digest

    function State(): Store
      reads this
    {
      Store(meta, files, records)
    }

    ghost predicate Valid()
      reads this
    {
      Consistent(State(), accepted)
    }

    constructor (md5: Digest)
      ensures Valid()
      ensures State() == Store(map[], map[], []) && this.md5 == md5
    {
      meta := map[];
      files := map[];
      records := [];
      accepted := map[];
      this.md5 := md5;
    }

    /** POST chunk: validate, check the checksum, check the order, append, advance or finish. */
    method Chunk(req: ChunkRequest, env: Env) returns (response: Response)
      modifies this
      ensures Outcome(State(), response) == Receive(old(State()), req, env, md5)
      ensures accepted == Track(old(accepted), old(State()), req, env, md5)
      ensures old(Valid()) && FreshName(old(State()), req, env) ==> Valid()
    {
      if Valid() && FreshName(State(), req, env) {
        ReceiveKeepsConsistent(State(), accepted, req, env, md5);
      }
      accepted := Track(accepted, State(), req, env, md5);
      if !PassesValidation(req) {
        return ValidationFailed;
      }
      var chunk := req.chunk.value;
      var index := req.chunkIndex.value;
      var total := req.totalChunks.value;
      var id := req.fileIdentifier.value;
      if ChecksumRejects(req.checksum, chunk, md5) {
        return ChunkCorrupted;
      }
      var session: Session;
      if id in meta {
        session := meta[id];
      } else {
        session := NewSession(total, req.originalName.value, env);
      }
      var name := session.normalizedName;
      if index != session.expectedNextChunk {
        return OutOfOrder(session.expectedNextChunk, index);
      }
      if !(env.sourceOpens && env.destinationOpens) {
        // opening the destination in append mode creates it
        if env.destinationOpens && name !in files {
          files := files[name := []];
        }
        return HandlesFailed;
      }
      files := files[name := FileAt(files, name) + chunk];
      session := session.(expectedNextChunk := index + 1);
      if session.expectedNextChunk == total {
        var upload := Upload(FilePath(name), env.mimeType, |files[name]|);
        records := records + [upload];
        meta := meta - {id};
        return UploadCompleted(FilePath(name), upload);
      }
      meta := meta[id := session];
      return ChunkUploaded(index + 1, total);
    }

    /** POST abort: forget the upload and its partial file; always answers success. */
    method Abort(fileIdentifier: Option<string>) returns (response: AbortResponse)
      modifies this
      ensures AbortOutcome(State(), response) == AbortUpload(old(State()), fileIdentifier)
      ensures accepted == if response == Aborted then old(accepted) - {fileIdentifier.value} else old(accepted)
      ensures old(Valid()) ==> Valid()
    {
      if old(Valid()) {
        AbortKeepsConsistent(State(), accepted, fileIdentifier);
      }
      if !Required(fileIdentifier) {
        return AbortValidationFailed;
      }
      var id := fileIdentifier.value;
      if id in meta {
        var normalizedName := meta[id].normalizedName;
        files := files - {normalizedName};
        meta := meta - {id};
      }
      accepted := accepted - {id};
      return Aborted;
    }
  }
}

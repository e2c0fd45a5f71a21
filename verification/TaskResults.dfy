/**
 The task-result part of `tasks.db`: rows of `task_results`, content-addressed
 rows of `task_result_blobs`, the reader that decides which of the two a result
 body comes from, and the trigger that guards updates.

 A text column is represented by its UTF-8 bytes.  Integer columns are unbounded.
 */
module TaskResults {
  import opened Bytes

  type Body = seq<byte>

  /** What the store computes from its data but this model does not interpret. */
  datatype Env = Env(
    sha: Body -> string,                            // hexadecimal SHA-256
    isObject: Body -> bool,                         // decodes as UTF-8 and parses as a JSON object
    identity: (string, string, string) -> string,   // "tr-" + digest of task, event type and body digest
    longTerm: (Snapshot, Body) -> bool)             // durable business data refers to it

  /** No two bodies share a digest, and no digest is empty. */
  ghost predicate SoundHash(env: Env) {
    && (forall a: Body, b: Body :: env.sha(a) == env.sha(b) ==> a == b)
    && (forall a: Body :: env.sha(a) != "")
  }

  const ZLIB := "zlib"

  datatype Row = Row(
    resultId: string,
    taskId: string,
    terminalEventType: string,
    canonical: Body,
    sha256: string,
    byteSize: int,
    schemaVersion: int,
    createdTime: string,
    contentSha256: string,
    codec: string,
    ready: bool)

  /** `decoded` is None when the compressed bytes have the wrong length or do not inflate. */
  datatype Blob = Blob(
    codec: string,
    decoded: Option<Body>,
    uncompressedBytes: int,
    createdTime: string,
    verifiedAt: string)

  datatype TaskStatus = Active | Terminal | Unrecognised

  /**
   `readable` says that the three JSON columns of the row have their expected shapes;
   `listed` is what the task list shows beside the status, `others` all remaining columns.
   */
  datatype Snapshot = Snapshot(status: TaskStatus, readable: bool, listed: string, others: string)

  datatype Event = Event(taskId: string, columns: string)

  datatype Rollout = Rollout(state: string, revision: int, schemaVersion: int)

  /** `ids` is the primary-key order of `rows`; `schema` is the normalized DDL without the trigger. */
  datatype Db = Db(
    ids: seq<string>,
    rows: map<string, Row>,
    blobs: map<string, Blob>,
    snapshots: map<string, Snapshot>,
    events: seq<Event>,
    onlineTasks: set<string>,
    rollout: Option<Rollout>,
    trigger: Option<string>,
    schema: string,
    userVersion: int,
    schemaVersion: int)

  ghost predicate ValidDb(db: Db) {
    && (forall i, j :: 0 <= i < j < |db.ids| ==> db.ids[i] != db.ids[j])
    && (forall id :: id in db.ids <==> id in db.rows)
    && (forall id :: id in db.rows ==> db.rows[id].resultId == id)
  }

  /** A stored size of zero reads as "no size", which no body has. */
  function ExpectedBytes(byteSize: int): int {
    if byteSize == 0 then -1 else byteSize
  }

  function DecodeBlob(env: Env, blob: Blob, digest: string, expected: int): Option<Body> {
    if blob.codec != ZLIB || blob.uncompressedBytes != expected then None
    else match blob.decoded
      case None => None
      case Some(body) =>
        if |body| == blob.uncompressedBytes && env.sha(body) == digest && env.isObject(body)
        then Some(body) else None
  }

  function ReadBlob(env: Env, blobs: map<string, Blob>, digest: string, expected: int): Option<Body> {
    if digest in blobs then DecodeBlob(env, blobs[digest], digest, expected) else None
  }

  /** The checks on a row once its body is at hand. */
  predicate RowAccepts(env: Env, row: Row, body: Body) {
    && env.sha(body) == row.sha256
    && |body| == ExpectedBytes(row.byteSize)
    && row.resultId == env.identity(row.taskId, row.terminalEventType, env.sha(body))
    && env.isObject(body)
  }

  /** The body a reader obtains, or None when the row is rejected. */
  function Authority(env: Env, row: Row, blobs: map<string, Blob>): Option<Body> {
    var body :=
      if row.ready then
        var digest := if row.contentSha256 != "" then row.contentSha256 else row.sha256;
        ReadBlob(env, blobs, digest, ExpectedBytes(row.byteSize))
      else if row.contentSha256 != "" then None
      else Some(row.canonical);
    if body.Some? && RowAccepts(env, row, body.value) then body else None
  }

  /** The specification of the whole store: each result identifier names one body. */
  function Read(env: Env, db: Db, id: string): Option<Body> {
    if id in db.rows then Authority(env, db.rows[id], db.blobs) else None
  }

  /** Every result that could be read in `a` reads the same in `b`, and no row came or went. */
  ghost predicate KeepsReads(env: Env, a: Db, b: Db) {
    && a.rows.Keys == b.rows.Keys
    && forall id :: id in a.rows && Read(env, a, id).Some? ==> Read(env, b, id) == Read(env, a, id)
  }

  /** No result goes back from blob-backed to inline. */
  ghost predicate ReadyStays(a: Db, b: Db) {
    forall id :: id in a.rows && a.rows[id].ready ==> id in b.rows && b.rows[id].ready
  }

  /** The update guard: nothing changes, or a row becomes blob-backed under its own digest. */
  predicate TriggerAdmits(before: Row, after: Row) {
    && before.resultId == after.resultId
    && before.taskId == after.taskId
    && before.terminalEventType == after.terminalEventType
    && before.canonical == after.canonical
    && before.sha256 == after.sha256
    && before.byteSize == after.byteSize
    && before.schemaVersion == after.schemaVersion
    && before.createdTime == after.createdTime
    && (
      || (before.contentSha256 == after.contentSha256 && before.codec == after.codec && before.ready == after.ready)
      || (!before.ready && after.ready && after.contentSha256 == before.sha256 && after.codec == ZLIB))
  }

  function MarkReady(row: Row): Row {
    row.(contentSha256 := row.sha256, codec := ZLIB, ready := true)
  }

  /** One UPDATE statement on one row, subject to the trigger when it is installed. */
  function UpdateRow(db: Db, id: string, after: Row): Option<Db>
    requires id in db.rows
  {
    if db.trigger.Some? && !TriggerAdmits(db.rows[id], after) then None
    else Some(db.(rows := db.rows[id := after]))
  }

  /**
   The trigger looks at one row only, never at the blob table.  A readable row
   that an admitted update touches stays readable exactly when the update does
   not flip `blob_ready` or the blob is already in place.
   */
  lemma AdmittedUpdateKeepsBody(env: Env, before: Row, after: Row, blobs: map<string, Blob>)
    requires SoundHash(env)
    requires TriggerAdmits(before, after)
    requires Authority(env, before, blobs).Some?
    ensures Authority(env, after, blobs) == Authority(env, before, blobs) <==>
            (before.ready == after.ready ||
             ReadBlob(env, blobs, before.sha256, ExpectedBytes(before.byteSize)).Some?)
  {
    if before.ready != after.ready {
      assert after == MarkReady(before);
      assert Authority(env, before, blobs) == Some(before.canonical);
      var read := ReadBlob(env, blobs, before.sha256, ExpectedBytes(before.byteSize));
      if read.Some? {
        assert env.sha(read.value) == env.sha(before.canonical);
      }
    }
  }

  /** Because a stored zero reads as missing, the size check is plain equality for every body but the empty one. */
  lemma SizeCheckIff(body: Body, byteSize: int)
    ensures |body| == ExpectedBytes(byteSize) <==> body != [] && byteSize == |body|
  {
  }

  /** An inline row reads exactly when its body is not empty and fits digest, size and identifier. */
  lemma InlineRowReadsIff(env: Env, row: Row, blobs: map<string, Blob>)
    requires !row.ready && row.contentSha256 == ""
    ensures Authority(env, row, blobs).Some? <==>
              && row.canonical != [] && row.byteSize == |row.canonical|
              && env.sha(row.canonical) == row.sha256 && env.isObject(row.canonical)
              && row.resultId == env.identity(row.taskId, row.terminalEventType, row.sha256)
  {
    SizeCheckIff(row.canonical, row.byteSize);
  }

  /** A blob reads as its content exactly when the recorded codec, length and digest are those of the content and of the request. */
  lemma BlobReadsIff(env: Env, blobs: map<string, Blob>, digest: string, expected: int, body: Body)
    ensures ReadBlob(env, blobs, digest, expected) == Some(body) <==>
              && digest in blobs && blobs[digest].codec == "zlib" && blobs[digest].decoded == Some(body)
              && blobs[digest].uncompressedBytes == |body| == expected
              && env.sha(body) == digest && env.isObject(body)
  {
  }

  /**
   A blob-backed row reads as the content of the blob it names, or of the one under its
   own digest if it names none, exactly when that blob is compressed as expected and its
   content is not empty and fits both rows.
   */
  lemma BlobRowReadsIff(env: Env, row: Row, blobs: map<string, Blob>, body: Body)
    requires row.ready
    ensures Authority(env, row, blobs) == Some(body) <==>
              var digest := if row.contentSha256 == "" then row.sha256 else row.contentSha256;
              && digest in blobs && blobs[digest].codec == "zlib" && blobs[digest].decoded == Some(body)
              && body != [] && blobs[digest].uncompressedBytes == |body| == row.byteSize
              && env.sha(body) == digest && digest == row.sha256 && env.isObject(body)
              && row.resultId == env.identity(row.taskId, row.terminalEventType, row.sha256)
  {
    SizeCheckIff(body, row.byteSize);
  }

  /** A row that names a blob without being blob-backed is rejected. */
  lemma HalfMarkedRowIsRejected(env: Env, row: Row, blobs: map<string, Blob>)
    requires !row.ready && row.contentSha256 != ""
    ensures Authority(env, row, blobs).None?
  {
  }

  /** Under the trigger an update may leave a row as it is, or mark an inline row as backed by the blob of its own digest. */
  lemma UpdateIsAdmittedIff(db: Db, id: string, after: Row)
    requires id in db.rows
    ensures var row := db.rows[id];
            && (UpdateRow(db, id, after).Some? <==>
                  || db.trigger.None? || after == row
                  || (!row.ready && after == row.(contentSha256 := row.sha256, codec := "zlib", ready := true)))
            && (UpdateRow(db, id, after).Some? ==> UpdateRow(db, id, after).value == db.(rows := db.rows[id := after]))
  {
  }

  /** No row, inline or blob-backed, ever reads as the empty body; what it reads as has the recorded size. */
  lemma EmptyBodyIsNeverRead(env: Env, row: Row, blobs: map<string, Blob>)
    ensures var body := Authority(env, row, blobs); body.Some? ==> body.value != [] && row.byteSize == |body.value|
  {
    var body := Authority(env, row, blobs);
    if body.Some? {
      SizeCheckIff(body.value, row.byteSize);
    }
  }
}

/**
 * The desktop client's file server (clients/desktop/src-tauri/src/server.rs):
 * `serve_file` and `health_check` as functions of the requested name and the
 * shared folder, `download_file` as a method over the local disk, and the
 * demo file written by `ServerState::new`.
 */
module RustServer {
  import opened Common
  import opened Http
  import opened LocalDisk

  const ServerPort := 8080
  const DemoName := "demo.txt"
  const DemoText := "Hello from AirShare!\nThis is a demo file."

  /** A path in the shared folder exists and either reads back its contents or fails to read. */
  datatype Entry = Readable(content: seq<byte>) | Unreadable

  /** The shared folder, by file name. */
  type Folder = map<string, Entry>

  /** `serve_file` for the name taken from `/file/{filename}`. */
  function ServeFile(filename: string, shared: Folder): Response {
    if filename !in shared then Response(404, [], Text("File not found: " + filename))
    else match shared[filename]
      case Readable(contents) => Response(200, [], Bytes(contents))
      case Unreadable => Response(500, [], Text("Failed to read file"))
  }

  /** `health_check`. */
  function HealthCheck(): Response {
    Response(200, [], Text("AirShare Server OK"))
  }

  /**
   * The three outcomes of `serve_file`: 404 naming the file exactly when the
   * path does not exist, 200 with exactly the contents when it reads, and
   * 500 when an existing path fails to read.
   */
  lemma ServeFileOutcomes(filename: string, shared: Folder)
    ensures var r := ServeFile(filename, shared);
      && (r.status == 404 <==> filename !in shared)
      && (r.status == 404 ==> r.body == Text("File not found: " + filename))
      && (r.status == 200 <==> filename in shared && shared[filename].Readable?)
      && (r.status == 200 ==> r.body == Bytes(shared[filename].content))
      && (r.status == 500 <==> filename in shared && shared[filename].Unreadable?)
      && (r.status == 500 ==> r.body == Text("Failed to read file"))
  {
  }

  /** The health check answers 200 "AirShare Server OK" and depends on nothing. */
  lemma HealthCheckOk()
    ensures HealthCheck().status == 200 && HealthCheck().body == Text("AirShare Server OK")
  {
  }

  /** `StatusCode::is_success`: the 2xx range. */
  predicate IsSuccess(code: int) {
    200 <= code <= 299
  }

  /**
   * tokio's `fs::File` hands what it is asked to write to a background task
   * in chunks of at most this many bytes (its default maximum buffer size).
   */
  const MaxBufSize: nat := 2 * 1024 * 1024

  /** The index of the chunk that holds byte `i`. */
  function ChunkOf(i: nat): nat {
    i / MaxBufSize
  }

  /** The offset at which chunk `k` starts. */
  function ChunkStart(k: nat): nat {
    k * MaxBufSize
  }

  /**
   * Whether `write_all` on a tokio file returns the failure of a write that
   * does not fit. Each chunk is written in the background, and its error is
   * returned by the next write call, so a failure inside the last chunk is
   * returned only if the file is flushed afterwards.
   */
  predicate WriteFailureReturned(data: seq<byte>, limit: Option<Limit>, flushed: bool) {
    Overflows(data, limit) && (flushed || ChunkOf(limit.value.room) < ChunkOf(|data| - 1))
  }

  /**
   * What a download returns and leaves on disk. `flushed` says whether the
   * file is flushed after `write_all`; `download_file` does not flush it.
   */
  function DownloadOutcome(flushed: bool, files: map<string, seq<byte>>, dest: string, fetch: Fetch, faults: Faults): Outcome {
    match fetch
    case Unreachable(reason) => Outcome(files, Some("HTTP request failed: " + reason))
    case Answered(code, status, body, bodyError) =>
      if !IsSuccess(code) then Outcome(files, Some("HTTP error: " + status))
      else if bodyError.Some? then Outcome(files, Some("Failed to read response: " + bodyError.value))
      else if faults.createError.Some? then Outcome(files, Some("Failed to create file: " + faults.createError.value))
      else
        var written := files[dest := Accepted(body, faults.writeLimit)];
        if WriteFailureReturned(body, faults.writeLimit, flushed) then
          Outcome(written, Some("Failed to write file: " + faults.writeLimit.value.reason))
        else Outcome(written, None)
  }

  /** What `download_file` returns and leaves on disk: the file is dropped without a flush. */
  function DownloadResult(files: map<string, seq<byte>>, dest: string, fetch: Fetch, faults: Faults): Outcome {
    DownloadOutcome(false, files, dest, fetch, faults)
  }

  /** `download_file` with `file.flush()` awaited after `write_all`, its error mapped like a write error. */
  function FlushedDownloadResult(files: map<string, seq<byte>>, dest: string, fetch: Fetch, faults: Faults): Outcome {
    DownloadOutcome(true, files, dest, fetch, faults)
  }

  /**
   * Nothing is created unless the status is a success and the whole body was
   * read: a non-success status is an "HTTP error" and a body that fails to
   * read is a read error, both before `File::create`.
   */
  lemma NothingCreatedBeforeBody(files: map<string, seq<byte>>, dest: string, fetch: Fetch, faults: Faults)
    requires fetch.Answered? && (!IsSuccess(fetch.code) || fetch.bodyError.Some?)
    ensures var r := DownloadResult(files, dest, fetch, faults);
      && r.files == files
      && r.error == if !IsSuccess(fetch.code) then Some("HTTP error: " + fetch.status)
                    else Some("Failed to read response: " + fetch.bodyError.value)
  {
  }

  /** Only the destination can change, and only once the body is in hand and the create worked. */
  lemma DownloadTouchesOnlyDest(files: map<string, seq<byte>>, dest: string, fetch: Fetch, faults: Faults)
    ensures var r := DownloadResult(files, dest, fetch, faults);
      && (r.files != files ==>
            fetch.Answered? && IsSuccess(fetch.code) && fetch.bodyError.None? && faults.createError.None?)
      && forall p :: p != dest ==> (p in r.files <==> p in files) && (p in files ==> r.files[p] == files[p])
  {
  }

  /**
   * A write failure is returned exactly when a chunk boundary lies after the
   * first byte that did not fit and before the end of the data, that is,
   * when another chunk follows the one that failed.
   */
  lemma WriteFailureReturnedIff(data: seq<byte>, limit: Option<Limit>)
    ensures WriteFailureReturned(data, limit, false) <==>
      Overflows(data, limit) && exists k: nat :: limit.value.room < ChunkStart(k) < |data|
  {
    if Overflows(data, limit) {
      var room := limit.value.room;
      var c := ChunkOf(room);
      assert ChunkStart(c) <= room < ChunkStart(c + 1);
      if ChunkOf(room) < ChunkOf(|data| - 1) {
        assert ChunkStart(c + 1) <= ChunkStart(ChunkOf(|data| - 1)) <= |data| - 1;
        assert room < ChunkStart(c + 1) < |data|;
      }
      if k: nat :| room < ChunkStart(k) < |data| {
        assert c + 1 <= k;
        assert ChunkStart(c + 1) <= ChunkStart(k);
        assert ChunkStart(c + 1) <= |data| - 1;
      }
    }
  }

  /**
   * `Ok(())` exactly when the status is 2xx, the body was read, the file was
   * created and no write failure was returned; the destination then holds
   * what the writes stored, which is the whole response when it fitted.
   */
  lemma DownloadSucceedsIff(files: map<string, seq<byte>>, dest: string, fetch: Fetch, faults: Faults)
    ensures var r := DownloadResult(files, dest, fetch, faults);
      && (r.error.None? <==>
            fetch.Answered? && IsSuccess(fetch.code) && fetch.bodyError.None?
            && faults.createError.None? && !WriteFailureReturned(fetch.body, faults.writeLimit, false))
      && (r.error.None? ==> r.files == files[dest := Accepted(fetch.body, faults.writeLimit)])
      && (r.error.None? && !Overflows(fetch.body, faults.writeLimit) ==> r.files == files[dest := fetch.body])
  {
  }

  /**
   * A write that does not fit leaves a partial file, a prefix of the
   * response as long as the room there was; the failure is returned only
   * when another chunk followed the failing one.
   */
  lemma FailedWriteLeavesPrefix(files: map<string, seq<byte>>, dest: string, fetch: Fetch, faults: Faults)
    requires fetch.Answered? && IsSuccess(fetch.code) && fetch.bodyError.None? && faults.createError.None?
    requires Overflows(fetch.body, faults.writeLimit)
    ensures var r := DownloadResult(files, dest, fetch, faults);
      && dest in r.files && r.files[dest] < fetch.body
      && |r.files[dest]| == faults.writeLimit.value.room
      && r.error == if WriteFailureReturned(fetch.body, faults.writeLimit, false)
                    then Some("Failed to write file: " + faults.writeLimit.value.reason)
                    else None
  {
  }

  /**
   * The lost write error: when the write of a body of at most one chunk does
   * not fit, `download_file` returns `Ok(())` although the destination does
   * not hold the response.
   */
  lemma WriteErrorLost(files: map<string, seq<byte>>, dest: string, fetch: Fetch, faults: Faults)
    requires fetch.Answered? && IsSuccess(fetch.code) && fetch.bodyError.None? && faults.createError.None?
    requires Overflows(fetch.body, faults.writeLimit) && |fetch.body| <= MaxBufSize
    ensures var r := DownloadResult(files, dest, fetch, faults);
      r.error == None && r.files[dest] != fetch.body
  {
    assert ChunkOf(|fetch.body| - 1) == 0;
  }

  /** One byte to a disk with no room left: `download_file` reports success and leaves an empty file. */
  lemma WriteErrorLostExample(files: map<string, seq<byte>>)
    ensures DownloadResult(files, "out.bin", Answered(200, "200 OK", [7], None), Faults(None, Some(Limit(0, "No space left on device"))))
      == Outcome(files["out.bin" := []], None)
  {
  }

  /**
   * With the flush, `Ok(())` comes exactly when the status is 2xx, the body
   * was read, the file was created and every byte fitted; the destination
   * then holds exactly the response.
   */
  lemma FlushedDownloadSucceedsIff(files: map<string, seq<byte>>, dest: string, fetch: Fetch, faults: Faults)
    ensures var r := FlushedDownloadResult(files, dest, fetch, faults);
      && (r.error.None? <==>
            fetch.Answered? && IsSuccess(fetch.code) && fetch.bodyError.None?
            && faults.createError.None? && !Overflows(fetch.body, faults.writeLimit))
      && (r.error.None? ==> r.files == files[dest := fetch.body])
  {
  }

  /**
   * The flush changes nothing on disk, and changes the result only for a
   * failed write whose error `download_file` loses.
   */
  lemma FlushOnlyAddsLostError(files: map<string, seq<byte>>, dest: string, fetch: Fetch, faults: Faults)
    ensures var r := DownloadResult(files, dest, fetch, faults);
      var f := FlushedDownloadResult(files, dest, fetch, faults);
      && r.files == f.files
      && (r.error != f.error <==>
            fetch.Answered? && IsSuccess(fetch.code) && fetch.bodyError.None? && faults.createError.None?
            && Overflows(fetch.body, faults.writeLimit) && !WriteFailureReturned(fetch.body, faults.writeLimit, false))
  {
  }

  /** `download_file`: `fetch` is what `reqwest::get(url)` delivered. */
  method DownloadFile(disk: Disk, dest: string, fetch: Fetch, faults: Faults) returns (err: Option<string>)
    modifies disk
    ensures Outcome(disk.files, err) == DownloadResult(old(disk.files), dest, fetch, faults)
  {
    if fetch.Unreachable? {
      return Some("HTTP request failed: " + fetch.reason);
    }
    if !IsSuccess(fetch.code) {
      return Some("HTTP error: " + fetch.status);
    }
    if fetch.bodyError.Some? {
      return Some("Failed to read response: " + fetch.bodyError.value);
    }
    var createErr := disk.Create(dest, faults.createError);
    if createErr.Some? {
      return Some("Failed to create file: " + createErr.value);
    }
    var writeErr := disk.Write(dest, fetch.body, faults.writeLimit);
    assert [] + Accepted(fetch.body, faults.writeLimit) == Accepted(fetch.body, faults.writeLimit);
    // `write_all` returns a chunk's failure only from the call for the next chunk
    if writeErr.Some? && ChunkOf(faults.writeLimit.value.room) < ChunkOf(|fetch.body| - 1) {
      return Some("Failed to write file: " + writeErr.value);
    }
    return None;
  }

  /** The folder after `ServerState::new`: demo.txt is written only when no such path exists. */
  function WithDemoFile(shared: Folder): (r: Folder)
    ensures r.Keys == shared.Keys + {DemoName}
    ensures forall name :: name in shared ==> r[name] == shared[name]
    ensures DemoName !in shared ==> r[DemoName] == Readable(AsciiBytes(DemoText))
  {
    if DemoName in shared then shared else shared[DemoName := Readable(AsciiBytes(DemoText))]
  }

  /** `ServerState`: the shared folder it serves. */
  class ServerState {
    var shared: Folder

    /** `ServerState::new` over a folder that already holds `existing`. */
    constructor (existing: Folder)
      ensures shared == WithDemoFile(existing)
    {
      var folder := existing;
      if DemoName !in folder {
        folder := folder[DemoName := Readable(AsciiBytes(DemoText))];
      }
      shared := folder;
    }
  }
}

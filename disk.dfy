/**
 * The local file system a downloader writes to: a map from path to content,
 * with the faults an operating system can report given as parameters.
 */
module LocalDisk {
  import opened Common

  /** The file system accepts `room` more bytes; a write beyond that fails with `reason`. */
  datatype Limit = Limit(room: nat, reason: string)

  /** The faults a download meets: a create error, and a limit on what a write can store. */
  datatype Faults = Faults(createError: Option<string>, writeLimit: Option<Limit>)

  /** A write of `data` under `limit` fails exactly when the data does not fit. */
  predicate Overflows(data: seq<byte>, limit: Option<Limit>) {
    limit.Some? && |data| > limit.value.room
  }

  /** The part of `data` a write under `limit` stores. */
  function Accepted(data: seq<byte>, limit: Option<Limit>): (r: seq<byte>)
    ensures r <= data
    ensures r == data <==> !Overflows(data, limit)
  {
    if Overflows(data, limit) then data[..limit.value.room] else data
  }

  /** The result of a download: the files afterwards, and the error returned (`None` for success). */
  datatype Outcome = Outcome(files: map<string, seq<byte>>, error: Option<string>)

  class Disk {
    var files: map<string, seq<byte>>

    constructor (initial: map<string, seq<byte>>)
      ensures files == initial
    {
      files := initial;
    }

    /** Create `path` as an empty file, truncating what was there, unless the system reports `failure`. */
    method Create(path: string, failure: Option<string>) returns (err: Option<string>)
      modifies this
      ensures err == failure
      ensures files == if failure.None? then old(files)[path := []] else old(files)
    {
      err := failure;
      if failure.None? {
        files := files[path := []];
      }
    }

    /** Append `data` to the open file `path`; past the limit's room the write stops and fails. */
    method Write(path: string, data: seq<byte>, limit: Option<Limit>) returns (err: Option<string>)
      requires path in files
      modifies this
      ensures files == old(files)[path := old(files)[path] + Accepted(data, limit)]
      ensures err == if Overflows(data, limit) then Some(limit.value.reason) else None
    {
      files := files[path := files[path] + Accepted(data, limit)];
      err := if Overflows(data, limit) then Some(limit.value.reason) else None;
    }
  }
}

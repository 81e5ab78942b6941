/**
 * The Go engine's file server (engine/server/server.go): the `/file/` and
 * `/health` handlers as functions of the request path and the contents of
 * the shared directory, the downloader as a method over the local disk, and
 * the creation of the demo file.
 */
module GoServer {
  import opened Common
  import opened Http
  import opened GoFilePath
  import opened LocalDisk

  const ServerPort := 8080
  const SharedDir := "./shared"
  const DemoName := "demo.txt"
  const DemoText := "Hello from AirShare! This is a demo file for testing P2P transfer."

  /** What a name of the shared directory is, as the handler and `http.ServeFile` find it. */
  datatype Entry =
    | File(content: seq<byte>)  // a regular file that opens
    | Directory                 // a subdirectory
    | Forbidden                 // present, but opening it is refused for lack of permission
    | Faulty                    // present, but opening it fails otherwise

  /** The shared directory, by name. */
  type Folder = map<string, Entry>

  /** `strings.HasSuffix`. */
  predicate HasSuffix(s: string, suffix: string) {
    |suffix| <= |s| && s[|s| - |suffix|..] == suffix
  }

  /** The separators `http.ServeFile` splits a URL path on when it looks for "..". */
  predicate IsSlashRune(c: char) {
    c == '/' || c == '\\'
  }

  /** A ".." element of `v` starts at `i`. */
  predicate DotDotAt(v: string, i: nat) {
    && i + 1 < |v| && v[i] == '.' && v[i + 1] == '.'
    && (i == 0 || IsSlashRune(v[i - 1]))
    && (i + 2 == |v| || IsSlashRune(v[i + 2]))
  }

  /** `containsDotDot`: some element of the URL path is "..". */
  predicate ContainsDotDot(v: string) {
    exists i :: 0 <= i < |v| && DotDotAt(v, i)
  }

  /** A "." or ".." element of the path `p` starts at `k`. */
  predicate DotElementAt(p: string, k: nat) {
    || (k < |p| && p[k] == '.' && (k + 1 == |p| || p[k + 1] == '/'))
    || (k + 1 < |p| && p[k] == '.' && p[k + 1] == '.' && (k + 2 == |p| || p[k + 2] == '/'))
  }

  /**
   * The request path is its own cleaned form, so the multiplexer does not
   * redirect it: it starts with a slash, has no empty element except a final
   * one, and no "." or ".." element.
   */
  predicate IsClean(p: string) {
    && p != [] && p[0] == '/'
    && (forall i :: 0 <= i < |p| - 1 && p[i] == '/' ==> p[i + 1] != '/')
    && (forall i :: 0 <= i < |p| && p[i] == '/' ==> !DotElementAt(p, i + 1))
  }

  /** The header `handleFileServe` sets before it hands over to `http.ServeFile`. */
  function Disposition(filename: string): Header {
    Header("Content-Disposition", "attachment; filename=" + filename)
  }

  /**
   * `handleFileServe`: the file name is the base of the URL path; "" and "."
   * are refused with 400, a name with nothing behind it is 404, and
   * otherwise the header is set and `http.ServeFile` answers. `http.Error`
   * ends its message with a newline.
   */
  function HandleFileServe(urlPath: string, shared: Folder): Response {
    var filename := Base(urlPath);
    if filename == "" || filename == "." then Response(400, [], Text("Invalid filename\n"))
    else if filename !in shared then Response(404, [], Text("File not found\n"))
    else ServeFile(urlPath, shared[filename], [Disposition(filename)])
  }

  /**
   * `http.ServeFile` for the entry the name resolved to, with `headers`
   * already set: a ".." element in the URL path is refused, a path ending
   * in "/index.html" is redirected to "./", an entry that does not open is
   * 403 or 500, a directory is redirected to its name with a slash unless
   * the path ends in one, and a file is sent whole.
   */
  function ServeFile(urlPath: string, entry: Entry, headers: seq<Header>): Response {
    if ContainsDotDot(urlPath) then Response(400, headers, Text("invalid URL path\n"))
    else if HasSuffix(urlPath, "/index.html") then Response(301, headers + [Header("Location", "./")], Text(""))
    else match entry
      case Forbidden => Response(403, headers, Text("403 Forbidden\n"))
      case Faulty => Response(500, headers, Text("500 Internal Server Error\n"))
      case Directory =>
        if urlPath == [] || urlPath[|urlPath| - 1] != '/' then
          Response(301, headers + [Header("Location", Base(urlPath) + "/")], Text(""))
        else Response(200, headers, Generated)
      case File(content) => Response(200, headers, Bytes(content))
  }

  /** The `/health` handler. */
  function Health(): Response {
    Response(200, [], Text("OK"))
  }

  /**
   * The multiplexer built in `Start`: a path that is not clean is
   * redirected to its cleaned form; "/health" is matched exactly; "/file"
   * is redirected to "/file/"; every path under "/file/" goes to the file
   * handler; anything else is not found.
   */
  function Route(urlPath: string, shared: Folder): Response {
    if !IsClean(urlPath) then Response(301, [], Generated)
    else if urlPath == "/health" then Health()
    else if urlPath == "/file" then Response(301, [Header("Location", "/file/")], Generated)
    else if "/file/" <= urlPath then HandleFileServe(urlPath, shared)
    else Response(404, [], Text("404 page not found\n"))
  }

  /**
   * The handler's own decisions: "Invalid filename" exactly when the base
   * is "." (Base is never empty), "File not found" exactly when the name is
   * absent, and otherwise `http.ServeFile` on the name's entry with the
   * Content-Disposition header naming it.
   */
  lemma ServeOutcomes(urlPath: string, shared: Folder)
    ensures var name := Base(urlPath);
      var r := HandleFileServe(urlPath, shared);
      && (r == Response(400, [], Text("Invalid filename\n")) <==> name == ".")
      && (r == Response(404, [], Text("File not found\n")) <==> name != "." && name !in shared)
      && (name != "." && name in shared ==> r == ServeFile(urlPath, shared[name], [Disposition(name)]))
  {
    BaseShape(urlPath);
    var name := Base(urlPath);
    if name != "." && name in shared {
      ServeFileHeaders(urlPath, shared[name], [Disposition(name)]);
    }
  }

  /** `http.ServeFile` keeps the headers set before it. */
  lemma ServeFileHeaders(urlPath: string, entry: Entry, headers: seq<Header>)
    ensures headers <= ServeFile(urlPath, entry, headers).headers
  {
  }

  /** A clean path under "/file/" goes to the file handler. */
  lemma RouteToHandler(urlPath: string, shared: Folder)
    requires IsClean(urlPath) && "/file/" <= urlPath
    ensures Route(urlPath, shared) == HandleFileServe(urlPath, shared)
  {
    assert urlPath[1] == 'f';
  }

  /** A name the handler accepts and finds is passed on to `http.ServeFile`. */
  lemma HandlerServes(urlPath: string, shared: Folder)
    requires Base(urlPath) != "" && Base(urlPath) != "." && Base(urlPath) in shared
    ensures HandleFileServe(urlPath, shared) == ServeFile(urlPath, shared[Base(urlPath)], [Disposition(Base(urlPath))])
  {
  }

  /**
   * The answers of `http.ServeFile`: 400 exactly for a ".." element; then a
   * redirect to "./" for a path ending in "/index.html"; then 403, 500, a
   * directory redirect or page, or 200 with exactly the file's bytes.
   * The headers set before it are kept in every answer.
   */
  lemma ServeFileOutcomes(urlPath: string, entry: Entry, headers: seq<Header>)
    ensures var r := ServeFile(urlPath, entry, headers);
      && headers <= r.headers
      && (r.status == 400 <==> ContainsDotDot(urlPath))
      && (r.status == 301 <==>
            !ContainsDotDot(urlPath) && (HasSuffix(urlPath, "/index.html") ||
              (entry.Directory? && (urlPath == [] || urlPath[|urlPath| - 1] != '/'))))
      && (!ContainsDotDot(urlPath) && HasSuffix(urlPath, "/index.html") ==>
            r.headers == headers + [Header("Location", "./")])
      && (r.status == 403 <==> !ContainsDotDot(urlPath) && !HasSuffix(urlPath, "/index.html") && entry.Forbidden?)
      && (r.status == 500 <==> !ContainsDotDot(urlPath) && !HasSuffix(urlPath, "/index.html") && entry.Faulty?)
      && (r.status == 200 && r.body.Bytes? <==>
            !ContainsDotDot(urlPath) && !HasSuffix(urlPath, "/index.html") && entry.File?)
      && (entry.File? && r.status == 200 ==> r.body == Bytes(entry.content))
  {
    BaseShape(urlPath);
  }

  /** The "Invalid filename" decision does not depend on the directory: no lookup happens. */
  lemma InvalidWithoutLookup(urlPath: string, shared: Folder, other: Folder)
    requires HandleFileServe(urlPath, shared) == Response(400, [], Text("Invalid filename\n"))
    ensures HandleFileServe(urlPath, other) == HandleFileServe(urlPath, shared)
  {
    ServeOutcomes(urlPath, shared);
  }

  /**
   * Every path the multiplexer hands to the file handler resolves to one
   * plain element: not empty, not "." or "..", and without a slash, so the
   * joined path names an entry of the shared directory itself.
   */
  lemma RoutedNameIsPlain(urlPath: string)
    requires IsClean(urlPath) && "/file/" <= urlPath
    ensures var name := Base(urlPath);
      name != "" && name != "." && name != ".." && NoSlash(name)
  {
    var p := urlPath;
    assert p[1] == 'f';
    var k, end := BaseIsElement(p);
    assert !DotElementAt(p, k);
    PlainElement(p, k, end);
  }

  /** An element of `p` from `k` to a slash or the end that is not a dot element is not "." or "..". */
  lemma PlainElement(p: string, k: nat, end: nat)
    requires k < end <= |p| && (end == |p| || p[end] == '/')
    requires !DotElementAt(p, k)
    ensures p[k..end] != "." && p[k..end] != ".."
  {
    var e := p[k..end];
    assert p[k] == e[0];
    if |e| == 2 {
      assert p[k + 1] == e[1];
    }
  }

  /**
   * Through the multiplexer, "Invalid filename" is never the answer, and 400
   * comes only from `http.ServeFile`, exactly when the name is present and
   * the path has a ".." element, which a clean path can only hold between
   * backslashes.
   */
  lemma BadRequestThroughMux(urlPath: string, shared: Folder)
    ensures Route(urlPath, shared) != Response(400, [], Text("Invalid filename\n"))
    ensures Route(urlPath, shared).status == 400 <==>
      IsClean(urlPath) && "/file/" <= urlPath && Base(urlPath) in shared && ContainsDotDot(urlPath)
    ensures IsClean(urlPath) && ContainsDotDot(urlPath) ==> '\\' in urlPath
  {
    if IsClean(urlPath) && "/file/" <= urlPath {
      RoutedNameIsPlain(urlPath);
      RouteToHandler(urlPath, shared);
      var name := Base(urlPath);
      if name in shared {
        HandlerServes(urlPath, shared);
        ServeFileOutcomes(urlPath, shared[name], [Disposition(name)]);
      }
    }
    if IsClean(urlPath) && ContainsDotDot(urlPath) {
      var i :| 0 <= i < |urlPath| && DotDotAt(urlPath, i);
      assert i > 0;
      if urlPath[i - 1] != '\\' {
        assert urlPath[i - 1] == '/';
        assert !DotElementAt(urlPath, i);
        assert urlPath[i + 2] == '\\';
      }
    }
  }

  /** The path "/file/" + name, with or without one trailing slash. */
  function FilePath(name: string, trailing: bool): string {
    "/file/" + name + (if trailing then "/" else "")
  }

  /** The path for a plain name is clean. */
  lemma FilePathIsClean(name: string, trailing: bool)
    requires name != "" && name != "." && name != ".."
    requires NoSlash(name)
    ensures IsClean(FilePath(name, trailing))
  {
    var p := FilePath(name, trailing);
    assert forall i :: 6 <= i < 6 + |name| ==> p[i] == name[i - 6];
    assert forall i :: 0 <= i < |p| && p[i] == '/' ==> i == 0 || i == 5 || i == |p| - 1;
    assert !DotElementAt(p, 6) by {
      if |name| == 1 {
        assert name == [name[0]];
      } else if |name| >= 2 {
        assert name[..2] == [name[0], name[1]];
        assert |name| == 2 ==> name == name[..2];
      }
    }
  }

  /** The path for a name other than ".." without a backslash holds no ".." element. */
  lemma FilePathNoDotDot(name: string, trailing: bool)
    requires name != ".." && NoSlash(name) && '\\' !in name
    ensures !ContainsDotDot(FilePath(name, trailing))
  {
    var p := FilePath(name, trailing);
    assert forall i :: 6 <= i < 6 + |name| ==> p[i] == name[i - 6];
    assert forall i :: 0 <= i < |p| && IsSlashRune(p[i]) ==> i == 0 || i == 5 || i == |p| - 1;
    forall i | 0 <= i < |p|
      ensures !DotDotAt(p, i)
    {
      if i == 6 && |name| >= 2 {
        assert name[..2] == [name[0], name[1]];
        assert |name| == 2 ==> name == name[..2];
      }
    }
  }

  /** The base of the path for a plain name is that name. */
  lemma FilePathBase(name: string, trailing: bool)
    requires name != "" && NoSlash(name)
    ensures Base(FilePath(name, trailing)) == name
    ensures "/file/" <= FilePath(name, trailing)
  {
    var q := FilePath(name, false);
    assert q == "/file" + "/" + name;
    LastElementAfterSlash("/file", name);
    assert q[|q| - 1] == name[|name| - 1];
    assert TrimTrailingSlashes(q) == q;
    var p := FilePath(name, trailing);
    assert p[..6] == "/file/";
    if trailing {
      assert p[..|p| - 1] == q;
      assert TrimTrailingSlashes(p) == q;
    }
  }

  /** Only the name "index.html" itself, without a trailing slash, gives a path ending in "/index.html". */
  lemma FilePathIndexSuffix(name: string, trailing: bool)
    requires NoSlash(name)
    ensures HasSuffix(FilePath(name, trailing), "/index.html") <==> !trailing && name == "index.html"
  {
    var p := FilePath(name, trailing);
    var q := |p| - 11;
    assert forall i :: 6 <= i < 6 + |name| ==> p[i] == name[i - 6];
    if trailing {
      assert p[|p| - 1] == '/';
    } else if q >= 0 {
      assert q == 0 || q == 5 || p[q] != '/';
      if q == 0 {
        assert p[1] == 'f';
      } else if q == 5 {
        assert p[q..] == "/" + name;
        if "/" + name == "/index.html" {
          assert name == ("/" + name)[1..];
        }
      }
    }
  }

  /**
   * `GET /file/<name>` for a name the multiplexer passes on (one element,
   * not empty, "." or ".."), with or without one trailing slash, is 404 when
   * the name is absent and otherwise `http.ServeFile` on that name's entry;
   * a regular file is sent whole with status 200 unless the path has a ".."
   * element or is `/file/index.html` itself.
   */
  lemma ServeByName(name: string, trailing: bool, shared: Folder)
    requires name != "" && name != "." && name != ".." && NoSlash(name)
    ensures var p := FilePath(name, trailing);
      && Route(p, shared) == (if name !in shared then Response(404, [], Text("File not found\n"))
                              else ServeFile(p, shared[name], [Disposition(name)]))
      && (name in shared && shared[name].File? && !ContainsDotDot(p) && !(name == "index.html" && !trailing) ==>
            Route(p, shared) == Response(200, [Disposition(name)], Bytes(shared[name].content)))
  {
    var p := FilePath(name, trailing);
    FilePathIsClean(name, trailing);
    FilePathIndexSuffix(name, trailing);
    FilePathBase(name, trailing);
    RouteToHandler(p, shared);
    if name in shared {
      HandlerServes(p, shared);
    }
  }

  /**
   * Only `GET /file/index.html` itself is redirected to "./" (which is
   * `/file/`, looked up as the name "file"); the file is not sent under
   * that path.
   */
  lemma IndexHtmlRedirected(name: string, shared: Folder)
    requires name == "index.html" && name in shared
    ensures Route(FilePath(name, false), shared).status == 301
    ensures Route(FilePath(name, false), shared).headers == [Disposition(name), Header("Location", "./")]
  {
    var p := FilePath(name, false);
    FilePathIsClean(name, false);
    FilePathNoDotDot(name, false);
    FilePathIndexSuffix(name, false);
    FilePathBase(name, false);
    RouteToHandler(p, shared);
    HandlerServes(p, shared);
  }

  /** With a trailing slash, `GET /file/index.html/` is served like any other name. */
  lemma IndexHtmlWithSlashServed(name: string, shared: Folder)
    requires name == "index.html" && name in shared && shared[name].File?
    ensures Route(FilePath(name, true), shared) == Response(200, [Disposition(name)], Bytes(shared[name].content))
  {
    assert NoSlash(name) && '\\' !in name;
    FilePathNoDotDot(name, true);
    ServeByName(name, true, shared);
  }

  /**
   * `GET /file/` with an empty name is not refused: Base strips the trailing
   * slash and resolves the name "file", looked up like any other.
   */
  lemma EmptyNameResolvesToFile(urlPath: string, shared: Folder)
    requires urlPath == "/file/"
    ensures Base(urlPath) == "file"
    ensures Route(urlPath, shared) == if "file" !in shared then Response(404, [], Text("File not found\n"))
                                      else ServeFile(urlPath, shared["file"], [Disposition("file")])
  {
    FileRootIsClean(urlPath);
    FileRootBase(urlPath);
    RouteToHandler(urlPath, shared);
    if "file" in shared {
      HandlerServes(urlPath, shared);
    }
  }

  /** "/file/" is clean. */
  lemma FileRootIsClean(p: string)
    requires p == "/file/"
    ensures IsClean(p)
  {
    assert |p| == 6 && p[0] == '/' && p[1] == 'f' && p[2] == 'i' && p[3] == 'l' && p[4] == 'e' && p[5] == '/';
  }

  /** The base of "/file/" is "file". */
  lemma FileRootBase(p: string)
    requires p == "/file/"
    ensures Base(p) == "file"
  {
    assert |p| == 6 && p[0] == '/' && p[1] == 'f' && p[2] == 'i' && p[3] == 'l' && p[4] == 'e' && p[5] == '/';
    BaseShape(p);
    var k, end := BaseIsElement(p);
    assert k == 1;
    assert p[k..end][4 - k] == p[4];
    assert end == 5;
    assert p[1..5] == "file";
  }

  /** Paths with a ".." element or an empty element never reach the handler: they are redirected. */
  lemma UncleanRedirected(shared: Folder)
    ensures Route("/file/..", shared) == Response(301, [], Generated)
    ensures Route("/file/../x", shared) == Response(301, [], Generated)
    ensures Route("/file//x", shared) == Response(301, [], Generated)
  {
    assert "/file/.."[5] == '/' && DotElementAt("/file/..", 6);
    assert "/file/../x"[5] == '/' && DotElementAt("/file/../x", 6);
    assert "/file//x"[5] == '/' && "/file//x"[6] == '/';
  }

  /** `/health` always answers 200 with body "OK", whatever the directory holds. */
  lemma HealthAlwaysOk(shared: Folder)
    ensures Route("/health", shared) == Response(200, [], Text("OK"))
  {
    assert IsClean("/health");
  }

  /** What `DownloadFile` returns and leaves on disk. */
  function DownloadResult(files: map<string, seq<byte>>, dest: string, fetch: Fetch, faults: Faults): Outcome {
    match fetch
    case Unreachable(reason) => Outcome(files, Some("failed to download: " + reason))
    case Answered(code, status, body, bodyError) =>
      if code != 200 then Outcome(files, Some("bad status: " + status))
      else if faults.createError.Some? then Outcome(files, Some("failed to create file: " + faults.createError.value))
      else
        var written := files[dest := Accepted(body, faults.writeLimit)];
        if Overflows(body, faults.writeLimit) then
          Outcome(written, Some("failed to write file: " + faults.writeLimit.value.reason))
        else if bodyError.Some? then Outcome(written, Some("failed to write file: " + bodyError.value))
        else Outcome(written, None)
  }

  /** Any status other than exactly 200 is a "bad status" error, and nothing is created. */
  lemma BadStatusCreatesNothing(files: map<string, seq<byte>>, dest: string, fetch: Fetch, faults: Faults)
    requires fetch.Answered? && fetch.code != 200
    ensures DownloadResult(files, dest, fetch, faults) == Outcome(files, Some("bad status: " + fetch.status))
  {
  }

  /** Only the destination can change, and only after a 200 and a successful create. */
  lemma DownloadTouchesOnlyDest(files: map<string, seq<byte>>, dest: string, fetch: Fetch, faults: Faults)
    ensures var r := DownloadResult(files, dest, fetch, faults);
      && (r.files != files ==> fetch.Answered? && fetch.code == 200 && faults.createError.None?)
      && forall p :: p != dest ==> (p in r.files <==> p in files) && (p in files ==> r.files[p] == files[p])
  {
  }

  /**
   * A download succeeds exactly when the peer answered 200, the file could be
   * created, and the whole body arrived and was written; the destination then
   * holds exactly the body, byte for byte.
   */
  lemma DownloadSucceedsIff(files: map<string, seq<byte>>, dest: string, fetch: Fetch, faults: Faults)
    ensures var r := DownloadResult(files, dest, fetch, faults);
      && (r.error.None? <==>
            fetch.Answered? && fetch.code == 200 && faults.createError.None?
            && !Overflows(fetch.body, faults.writeLimit) && fetch.bodyError.None?)
      && (r.error.None? ==> r.files == files[dest := fetch.body] && |r.files[dest]| == |fetch.body|)
  {
    if fetch.Answered? {
      var acc := Accepted(fetch.body, faults.writeLimit);
      assert acc == fetch.body <==> !Overflows(fetch.body, faults.writeLimit);
    }
  }

  /** A failure after the create leaves a partial file: a prefix of the body. */
  lemma FailedCopyLeavesPrefix(files: map<string, seq<byte>>, dest: string, fetch: Fetch, faults: Faults)
    requires fetch.Answered? && fetch.code == 200 && faults.createError.None?
    ensures var r := DownloadResult(files, dest, fetch, faults);
      dest in r.files && r.files[dest] <= fetch.body
  {
  }

  /** The directory after `createDemoFile`: demo.txt is written only when nothing has that name. */
  function WithDemoFile(shared: Folder): (r: Folder)
    ensures r.Keys == shared.Keys + {DemoName}
    ensures forall name :: name in shared ==> r[name] == shared[name]
    ensures DemoName !in shared ==> r[DemoName] == File(AsciiBytes(DemoText))
  {
    if DemoName in shared then shared else shared[DemoName := File(AsciiBytes(DemoText))]
  }

  /** Creating the demo file twice is the same as once. */
  lemma DemoFileIdempotent(shared: Folder)
    ensures WithDemoFile(WithDemoFile(shared)) == WithDemoFile(shared)
  {
  }

  /** `Server`: its fixed directory and port, and what that directory holds. */
  class Server {
    const sharedDir: string
    const port: int
    var shared: Folder

    /** `New`, over a shared directory that already holds `existing`. */
    constructor (existing: Folder)
      ensures sharedDir == SharedDir && port == ServerPort && shared == existing
    {
      sharedDir := SharedDir;
      port := ServerPort;
      shared := existing;
    }

    /** `createDemoFile`. */
    method CreateDemoFile()
      modifies this
      ensures shared == WithDemoFile(old(shared))
    {
      if DemoName !in shared {
        shared := shared[DemoName := File(AsciiBytes(DemoText))];
      }
    }

    /**
     * `DownloadFile`: `fetch` is what `http.Get(url)` delivered. The status is
     * checked before the destination is created; the body is then copied.
     */
    method DownloadFile(disk: Disk, dest: string, fetch: Fetch, faults: Faults) returns (err: Option<string>)
      modifies disk
      ensures Outcome(disk.files, err) == DownloadResult(old(disk.files), dest, fetch, faults)
    {
      if fetch.Unreachable? {
        return Some("failed to download: " + fetch.reason);
      }
      if fetch.code != 200 {
        return Some("bad status: " + fetch.status);
      }
      var createErr := disk.Create(dest, faults.createError);
      if createErr.Some? {
        return Some("failed to create file: " + createErr.value);
      }
      var writeErr := disk.Write(dest, fetch.body, faults.writeLimit);
      assert [] + Accepted(fetch.body, faults.writeLimit) == Accepted(fetch.body, faults.writeLimit);
      if writeErr.Some? {
        return Some("failed to write file: " + writeErr.value);
      }
      if fetch.bodyError.Some? {
        return Some("failed to write file: " + fetch.bodyError.value);
      }
      return None;
    }
  }
}

/**
 * `StaticWebServer`: answers GET requests with the file under the root
 * folder that the URL names, the index file of a folder for a URL ending
 * in `/`, and the configured 404 page otherwise. The file system is a
 * value: the contents of each existing file and the file names each
 * directory lists.
 */
module StaticWebServer {
  import opened Wrappers
  import opened Bytes
  import opened Text
  import opened Http
  import opened HttpRequest
  import opened HttpResponse

  datatype FileSystem = FileSystem(files: map<string, seq<byte>>, listings: map<string, seq<string>>)

  /**
   * The exceptions the handler lets escape: `GetFiles` on a folder that
   * does not exist, `ReadAllBytes` on a file that does not exist.
   */
  datatype ServerError = DirectoryNotFound | FileNotFound

  /** What a response holds: status, headers in order, body. */
  datatype Reply = Reply(status: StatusCode, headers: seq<Header>, body: seq<byte>)

  /** The `root` property: the asset path, then the root folder, without one trailing `/`. */
  function Root(streamingAssetsPath: string, rootFolder: string): (r: string)
  {
    var root := streamingAssetsPath + (if rootFolder == "" then "" else "/") + rootFolder;
    if EndsWith(root, "/") then root[..|root| - 1] else root
  }

  /**
   * The root is the joined path, with exactly one `/` taken off when the
   * joined path ends in one.
   */
  lemma RootShape(streamingAssetsPath: string, rootFolder: string)
    ensures var joined := streamingAssetsPath + (if rootFolder == "" then "" else "/") + rootFolder;
      var r := Root(streamingAssetsPath, rootFolder);
      && (EndsWith(joined, "/") ==> r + "/" == joined)
      && (!EndsWith(joined, "/") ==> r == joined)
  {
    var joined := streamingAssetsPath + (if rootFolder == "" then "" else "/") + rootFolder;
    if EndsWith(joined, "/") {
      assert joined == joined[..|joined| - 1] + joined[|joined| - 1..];
    }
  }

  /** A non-empty root folder is always separated from the asset path by `/`. */
  lemma RootWithFolder(streamingAssetsPath: string, rootFolder: string)
    requires rootFolder != "" && !EndsWith(rootFolder, "/")
    ensures Root(streamingAssetsPath, rootFolder) == streamingAssetsPath + "/" + rootFolder
  {
    var joined := streamingAssetsPath + "/" + rootFolder;
    assert joined[|joined| - 1..] == rootFolder[|rootFolder| - 1..];
  }

  /** A file is an index file when its lower-cased name, up to the first `.`, is `index`. */
  predicate IsIndexName(name: string)
  {
    SplitChar(ToLower(name), '.')[0] == "index"
  }

  /** The index file of a listing, as a value: the first name with an index name. */
  function FirstIndex(names: seq<string>): (r: Option<string>)
    ensures r.None? <==> forall i :: 0 <= i < |names| ==> !IsIndexName(names[i])
    ensures r.Some? ==> exists i :: (0 <= i < |names| && names[i] == r.value && IsIndexName(r.value)
                                    && forall j :: 0 <= j < i ==> !IsIndexName(names[j]))
  {
    if names == [] then None
    else if IsIndexName(names[0]) then
      assert names[0] == names[0];
      Some(names[0])
    else
      var r := FirstIndex(names[1..]);
      assert forall i :: 1 <= i < |names| ==> names[i] == names[1..][i - 1];
      if r.Some? then
        ghost var k :| (0 <= k < |names[1..]| && names[1..][k] == r.value && IsIndexName(r.value)
                        && forall j :: 0 <= j < k ==> !IsIndexName(names[1..][j]));
        assert names[k + 1] == r.value;
        r
      else r
  }

  /**
   * `GetIndexFile`: the first file of the folder listing with an index
   * name, in listing order; `None` for `null`. A folder that does not
   * exist throws.
   */
  method GetIndexFile(fs: FileSystem, folder: string) returns (r: Result<Option<string>, ServerError>)
    ensures folder !in fs.listings ==> r == Err(DirectoryNotFound)
    ensures folder in fs.listings ==> r == Ok(FirstIndex(fs.listings[folder]))
  {
    if folder !in fs.listings {
      return Err(DirectoryNotFound);
    }
    var files := fs.listings[folder];
    var i := 0;
    while i < |files|
      invariant 0 <= i <= |files|
      invariant FirstIndex(files[i..]) == FirstIndex(files)
    {
      assert files[i..][1..] == files[i + 1..];
      if SplitChar(ToLower(files[i]), '.')[0] == "index" {
        return Ok(Some(files[i]));
      }
      i := i + 1;
    }
    return Ok(None);
  }

  /** The file a GET for `url` addresses: the root, then the URL up to its first `?`. */
  function RequestedPath(root: string, url: string): string
  {
    root + SplitChar(url, '?')[0]
  }

  /**
   * The path once a trailing `/` was resolved: the index file's name is
   * appended, or nothing when the folder has none (as `null` concatenates
   * to nothing).
   */
  function ResolvedPath(fs: FileSystem, path: string): Result<string, ServerError>
  {
    if !EndsWith(path, "/") then Ok(path)
    else if path !in fs.listings then Err(DirectoryNotFound)
    else match FirstIndex(fs.listings[path])
      case Some(name) => Ok(path + name)
      case None => Ok(path)
  }

  /** `File.Exists`: the empty path names no file. */
  predicate FileExists(fs: FileSystem, path: string)
  {
    path != "" && path in fs.files
  }

  /** `CreateResponse` as a value: the status, `Connection: Closed`, the file as body. */
  function CreateReply(fs: FileSystem, status: StatusCode, file: string): Result<Reply, ServerError>
  {
    if file == "" then Ok(Reply(status, [Header("Connection", "Closed")], []))
    else if file !in fs.files then Err(FileNotFound)
    else Ok(Reply(status, [Header("Connection", "Closed")], fs.files[file]))
  }

  /** What `OnRequest` answers to `request`. */
  function Route(fs: FileSystem, root: string, page404: string, request: Request): (r: Result<Reply, ServerError>)
    ensures r.Ok? ==> r.value.status == OK || r.value.status == NotFound || r.value.status == InternalError
    ensures r.Ok? && r.value.status == OK ==>
      ToUpper(request.verb) == "GET" && r.value.headers == [Header("Connection", "Closed")] && r.value.body in fs.files.Values
    ensures r.Err? ==> ToUpper(request.verb) == "GET"
  {
    if ToUpper(request.verb) != "GET" then Ok(Reply(InternalError, [], []))
    else match ResolvedPath(fs, RequestedPath(root, request.url))
      case Err(e) => Err(e)
      case Ok(file) =>
        if !FileExists(fs, file) then CreateReply(fs, NotFound, root + "/" + page404)
        else CreateReply(fs, OK, file)
  }

  /** Whether `response` holds `reply`. */
  ghost predicate Holds(response: Response, reply: Reply)
    reads response
  {
    response.statusCode == reply.status && response.headers == reply.headers && response.body == reply.body
  }

  /** `CreateResponse`: a new response with the one header, and the file's bytes unless the name is empty. */
  method CreateResponse(fs: FileSystem, status: StatusCode, file: string) returns (r: Result<Response, ServerError>)
    ensures r.Ok? <==> CreateReply(fs, status, file).Ok?
    ensures r.Ok? ==> fresh(r.value) && Holds(r.value, CreateReply(fs, status, file).value)
    ensures r.Err? ==> r.error == CreateReply(fs, status, file).error
  {
    var response := new Response(status);
    var added := response.AddHeader("Connection", "Closed");
    if file != "" {
      if file !in fs.files {
        return Err(FileNotFound);
      }
      response.SetBody(fs.files[file]);
    }
    return Ok(response);
  }

  /** `OnRequest`. */
  method OnRequest(fs: FileSystem, root: string, page404: string, request: Request)
    returns (r: Result<Response, ServerError>)
    ensures r.Ok? <==> Route(fs, root, page404, request).Ok?
    ensures r.Ok? ==> fresh(r.value) && Holds(r.value, Route(fs, root, page404, request).value)
    ensures r.Err? ==> r.error == Route(fs, root, page404, request).error
  {
    if ToUpper(request.verb) != "GET" {
      var response := new Response(InternalError);
      return Ok(response);
    }
    var file := root + SplitChar(request.url, '?')[0];
    if EndsWith(file, "/") {
      var index := GetIndexFile(fs, file);
      if index.Err? {
        return Err(index.error);
      }
      if index.value.Some? {
        file := file + index.value.value;
      }
    }
    if !FileExists(fs, file) {
      r := CreateResponse(fs, NotFound, root + "/" + page404);
    } else {
      r := CreateResponse(fs, OK, file);
    }
  }

  /** A method other than GET, in any letter case, gets 500 with no headers and no body. */
  lemma NonGetIsError(fs: FileSystem, root: string, page404: string, request: Request)
    requires ToUpper(request.verb) != "GET"
    ensures Route(fs, root, page404, request) == Ok(Reply(InternalError, [], []))
  {
  }

  /**
   * A GET for an existing file, after index resolution, is answered 200
   * with that file; any other GET with the 404 page, or throws when that
   * page is missing too. Either way the one header is `Connection: Closed`.
   */
  lemma GetOutcome(fs: FileSystem, root: string, page404: string, request: Request)
    requires ToUpper(request.verb) == "GET"
    requires ResolvedPath(fs, RequestedPath(root, request.url)).Ok?
    ensures var file := ResolvedPath(fs, RequestedPath(root, request.url)).value;
      var page := root + "/" + page404;
      && (FileExists(fs, file) ==> Route(fs, root, page404, request) == Ok(Reply(OK, [Header("Connection", "Closed")], fs.files[file])))
      && (!FileExists(fs, file) && page in fs.files ==>
            Route(fs, root, page404, request) == Ok(Reply(NotFound, [Header("Connection", "Closed")], fs.files[page])))
      && (!FileExists(fs, file) && page !in fs.files ==> Route(fs, root, page404, request) == Err(FileNotFound))
  {
    var page := root + "/" + page404;
    assert page != "" by { assert |page| > 0; }
  }

  /** The resolved path extends the requested one, by the index file's name at most. */
  lemma ResolvedExtendsRequested(fs: FileSystem, path: string)
    requires ResolvedPath(fs, path).Ok?
    ensures StartsWith(ResolvedPath(fs, path).value, path)
    ensures !EndsWith(path, "/") ==> ResolvedPath(fs, path).value == path
    ensures EndsWith(path, "/") && FirstIndex(fs.listings[path]).Some? ==>
      ResolvedPath(fs, path).value == path + FirstIndex(fs.listings[path]).value
  {
    var v := ResolvedPath(fs, path).value;
    assert v[..|path|] == path;
  }

  /** The query string plays no part in which file is served. */
  lemma QueryIgnored(root: string, path: string, query: string)
    requires !Contains(path, "?")
    ensures RequestedPath(root, path + "?" + query) == root + path
  {
    assert FirstCharUnique("?");
    SplitOnAppend(path, "?", query);
    SplitOnNone(path, "?");
  }

  /** A folder URL is served its index file when the folder has one, the bare folder path otherwise. */
  lemma FolderIndex(fs: FileSystem, folder: string)
    requires EndsWith(folder, "/") && folder in fs.listings
    ensures FirstIndex(fs.listings[folder]).Some? ==>
      ResolvedPath(fs, folder) == Ok(folder + FirstIndex(fs.listings[folder]).value)
    ensures FirstIndex(fs.listings[folder]).None? ==> ResolvedPath(fs, folder) == Ok(folder)
  {
  }
}

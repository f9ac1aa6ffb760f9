/**
  What the script exchanges with the Immich server and prints, as data: the
  three requests it can send, the replies it can get back (a failure stands
  for any `requests.RequestException`: a transport error, a non-2xx status or
  an undecodable body), and the trace of requests and log lines a run emits.
*/
module Immich {
  import opened Wrappers
  import PathMapping

  type AssetId = string

  /** One element of the folder listing; the script reads only its "id". */
  datatype AssetRecord = AssetRecord(id: AssetId)

  /** One element of the album listing; `album.get("albumName")` is None when the field is absent. */
  datatype AlbumRecord = AlbumRecord(albumName: Option<string>)

  /** The JSON body of the album-creation request. */
  datatype AlbumPayload = AlbumPayload(albumName: string, assetIds: seq<AssetId>, description: string)

  datatype Request =
    | ListFolder(path: string)           // GET /api/view/folder?path=<path>
    | ListAlbums                         // GET /api/albums
    | PostAlbum(payload: AlbumPayload)   // POST /api/albums

  datatype FolderReply = FolderListed(items: seq<AssetRecord>) | FolderFailed(body: Option<string>)
  datatype AlbumsReply = AlbumsListed(albums: seq<AlbumRecord>) | AlbumsFailed
  datatype CreateReply = CreateAccepted | CreateRejected(body: Option<string>)

  /** The server's answers to the (at most three) requests made for one folder. */
  datatype Replies = Replies(folder: FolderReply, albums: AlbumsReply, create: CreateReply)

  /** Console lines, by kind, with the values they report. */
  datatype Log =
    | Progress(index: nat, total: nat, folder: string)     // [index/total] Processing folder
    | Debug(immichPath: string)                            // [DEBUG] Calling ... with path
    | LookupFailed(folder: string, immichPath: string)     // [ERROR] Failed to get assets
    | ResponseContent(body: string)                        // [ERROR] Response content
    | AlbumCheckFailed                                     // [ERROR] Failed to check existing albums
    | CreateFailed(albumName: string)                      // [ERROR] Failed to create album
    | MappingFailed(error: PathMapping.MapError)           // [ERROR] the ValueError's message
    | NoAssets(folder: string)                             // [SKIP] No assets found
    | AlreadyExists(albumName: string)                     // [SKIP] Album already exists
    | DryRun(albumName: string, assetCount: nat)           // [DRY-RUN] Simulated creation
    | Created(albumName: string, assetCount: nat)          // [OK] Album created

  /** A request sent with the configured host and API key, or a console line. */
  datatype Event = Send(host: string, apiKey: string, request: Request) | Say(log: Log)

  /** The requests of a trace, in order. */
  function Requests(trace: seq<Event>): (reqs: seq<Request>)
    ensures |reqs| <= |trace|
  {
    if trace == [] then []
    else (if trace[0].Send? then [trace[0].request] else []) + Requests(trace[1..])
  }

  /** The album-creation payloads among some requests, in order. */
  function Posts(reqs: seq<Request>): (ps: seq<AlbumPayload>)
    ensures |ps| <= |reqs|
  {
    if reqs == [] then []
    else (if reqs[0].PostAlbum? then [reqs[0].payload] else []) + Posts(reqs[1..])
  }

  /** The progress lines of a trace, in order. */
  function Progresses(trace: seq<Event>): (ls: seq<Log>)
    ensures |ls| <= |trace|
  {
    if trace == [] then []
    else (if trace[0].Say? && trace[0].log.Progress? then [trace[0].log] else []) + Progresses(trace[1..])
  }

  lemma {:induction false} RequestsAppend(a: seq<Event>, b: seq<Event>)
    ensures Requests(a + b) == Requests(a) + Requests(b)
  {
    if a == [] {
      assert a + b == b;
    } else {
      assert (a + b)[0] == a[0];
      assert (a + b)[1..] == a[1..] + b;
      RequestsAppend(a[1..], b);
      var head := if a[0].Send? then [a[0].request] else [];
      assert Requests(a + b) == head + Requests(a[1..] + b);
      assert Requests(a) == head + Requests(a[1..]);
    }
  }

  lemma {:induction false} PostsAppend(a: seq<Request>, b: seq<Request>)
    ensures Posts(a + b) == Posts(a) + Posts(b)
  {
    if a == [] {
      assert a + b == b;
    } else {
      assert (a + b)[0] == a[0];
      assert (a + b)[1..] == a[1..] + b;
      PostsAppend(a[1..], b);
      var head := if a[0].PostAlbum? then [a[0].payload] else [];
      assert Posts(a + b) == head + Posts(a[1..] + b);
      assert Posts(a) == head + Posts(a[1..]);
    }
  }

  lemma {:induction false} ProgressesAppend(a: seq<Event>, b: seq<Event>)
    ensures Progresses(a + b) == Progresses(a) + Progresses(b)
  {
    if a == [] {
      assert a + b == b;
    } else {
      assert (a + b)[0] == a[0];
      assert (a + b)[1..] == a[1..] + b;
      ProgressesAppend(a[1..], b);
      var head := if a[0].Say? && a[0].log.Progress? then [a[0].log] else [];
      assert Progresses(a + b) == head + Progresses(a[1..] + b);
      assert Progresses(a) == head + Progresses(a[1..]);
    }
  }
}

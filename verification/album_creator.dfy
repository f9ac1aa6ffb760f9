/**
  The album-provisioning logic: look up a folder's assets, check whether an
  album of that name exists, create it unless it exists or this is a dry run,
  and the loop over the immediate subdirectories of the local root. The
  server's answers are inputs; what the script does is the trace it emits.
*/
module AlbumCreator {
  import opened Wrappers
  import opened OsPath
  import opened Settings
  import opened PathMapping
  import opened Immich
  import opened Seqs

  /** A directory entry found by scanning the local root: its path and its base name. */
  datatype FolderEntry = FolderEntry(path: string, name: string)

  /** What the asset lookup returns, with the requests and lines it emitted. */
  datatype Lookup = Lookup(assetIds: seq<AssetId>, events: seq<Event>)

  /** What the existence check returns, with the requests and lines it emitted. */
  datatype Check = Check(found: bool, events: seq<Event>)

  // ----- asset lookup -----

  /** One asset id per element of the listing, in the listing's order. */
  function AssetIdsOf(items: seq<AssetRecord>): (ids: seq<AssetId>)
    ensures |ids| == |items|
    ensures forall i :: 0 <= i < |items| ==> ids[i] == items[i].id
  {
    if items == [] then [] else [items[0].id] + AssetIdsOf(items[1..])
  }

  /** The response body line, printed only when the failed request has a response. */
  function ResponseLog(body: Option<string>): seq<Event>
  {
    match body
    case Some(text) => [Say(ResponseContent(text))]
    case None => []
  }

  /**
    Maps the folder first (a rejected path raises before any request is made);
    otherwise sends one folder-listing request for the mapped path and returns
    the listed ids, or no ids after logging the failure.
  */
  function GetFolderAssets(cfg: Config, folder: string, reply: FolderReply): (r: Result<Lookup, MapError>)
    requires cfg.Valid() && Normalized(folder, cfg.sep)
    ensures r.Failure? <==> !(cfg.localRoot <= folder)
    ensures r.Failure? ==> r.error == OutsideRoot(folder, cfg.localRoot)
    ensures r.Success? ==>
              var path := MapLocalToImmich(cfg, folder).value;
              && |r.value.events| >= 2
              && r.value.events[..2] == [Say(Debug(path)), Send(cfg.host, cfg.apiKey, ListFolder(path))]
              && Requests(r.value.events) == [ListFolder(path)]
    ensures r.Success? && reply.FolderListed? ==>
              |r.value.assetIds| == |reply.items|
              && forall i :: 0 <= i < |reply.items| ==> r.value.assetIds[i] == reply.items[i].id
    ensures r.Success? && reply.FolderFailed? ==>
              r.value.assetIds == []
              && Say(LookupFailed(folder, MapLocalToImmich(cfg, folder).value)) in r.value.events
    ensures r.Success? && reply.FolderFailed? && reply.body.Some? ==>
              Say(ResponseContent(reply.body.value)) in r.value.events
  {
    match MapLocalToImmich(cfg, folder)
    case Failure(e) => Failure(e)
    case Success(path) =>
      var sent := [Say(Debug(path)), Send(cfg.host, cfg.apiKey, ListFolder(path))];
      match reply
      case FolderListed(items) =>
        Success(Lookup(AssetIdsOf(items), sent))
      case FolderFailed(body) =>
        var logged := sent + [Say(LookupFailed(folder, path))] + ResponseLog(body);
        RequestsAppend(sent + [Say(LookupFailed(folder, path))], ResponseLog(body));
        RequestsAppend(sent, [Say(LookupFailed(folder, path))]);
        assert logged[..2] == sent;
        Success(Lookup([], logged))
  }

  // ----- existence check -----

  /** The album listing answered and names an album exactly `albumName` (case-sensitive). */
  ghost predicate Listed(reply: AlbumsReply, albumName: string)
  {
    reply.AlbumsListed?
    && exists i :: 0 <= i < |reply.albums| && reply.albums[i].albumName == Some(albumName)
  }

  /** The `any(...)` scan: true exactly when some album's name equals `albumName`. */
  function NameTaken(albums: seq<AlbumRecord>, albumName: string): (taken: bool)
    ensures taken <==> exists i :: 0 <= i < |albums| && albums[i].albumName == Some(albumName)
  {
    if albums == [] then false
    else
      assert forall i :: 1 <= i < |albums| ==> albums[i] == albums[1..][i - 1];
      albums[0].albumName == Some(albumName) || NameTaken(albums[1..], albumName)
  }

  /**
    One album-listing request; the album exists exactly when the listing
    answered and names it. A failed listing is logged and counts as absent.
  */
  function AlbumExists(cfg: Config, albumName: string, reply: AlbumsReply): (c: Check)
    ensures c.events != [] && c.events[0] == Send(cfg.host, cfg.apiKey, ListAlbums)
    ensures Requests(c.events) == [ListAlbums]
    ensures c.found <==> Listed(reply, albumName)
    ensures !c.found ==> (reply.AlbumsFailed? <==> Say(AlbumCheckFailed) in c.events)
    ensures forall e :: e in c.events ==> e == Send(cfg.host, cfg.apiKey, ListAlbums) || e == Say(AlbumCheckFailed)
    ensures c.found ==> c.events == [Send(cfg.host, cfg.apiKey, ListAlbums)]
  {
    var sent := [Send(cfg.host, cfg.apiKey, ListAlbums)];
    match reply
    case AlbumsListed(albums) => Check(NameTaken(albums, albumName), sent)
    case AlbumsFailed =>
      RequestsAppend(sent, [Say(AlbumCheckFailed)]);
      Check(false, sent + [Say(AlbumCheckFailed)])
  }

  // ----- provisioning -----

  /**
    The existence check always comes first. An existing album is only
    reported as skipped; otherwise a dry run only reports what it would do;
    otherwise exactly one creation request goes out, carrying the name, the
    asset ids unchanged and an empty description.
  */
  function CreateAlbum(cfg: Config, albumName: string, assetIds: seq<AssetId>, dryRun: bool,
                       albums: AlbumsReply, create: CreateReply): (events: seq<Event>)
    ensures events != [] && events[0] == Send(cfg.host, cfg.apiKey, ListAlbums)
    ensures Requests(events)
            == [ListAlbums]
               + if !Listed(albums, albumName) && !dryRun
                 then [PostAlbum(AlbumPayload(albumName, assetIds, ""))] else []
    ensures Say(AlreadyExists(albumName)) in events <==> Listed(albums, albumName)
    ensures Say(DryRun(albumName, |assetIds|)) in events <==> !Listed(albums, albumName) && dryRun
    ensures Listed(albums, albumName) ==> events == [Send(cfg.host, cfg.apiKey, ListAlbums), Say(AlreadyExists(albumName))]
  {
    var check := AlbumExists(cfg, albumName, albums);
    var after := AfterCheck(cfg, albumName, assetIds, dryRun, check.found, create);
    RequestsAppend(check.events, after);
    check.events + after
  }

  /** The rest of `create_album` once the existence check has answered `found`. */
  function AfterCheck(cfg: Config, albumName: string, assetIds: seq<AssetId>, dryRun: bool,
                      found: bool, create: CreateReply): (events: seq<Event>)
    ensures Requests(events) == if !found && !dryRun then [PostAlbum(AlbumPayload(albumName, assetIds, ""))] else []
    ensures Say(AlreadyExists(albumName)) in events <==> found
    ensures Say(DryRun(albumName, |assetIds|)) in events <==> !found && dryRun
    ensures found ==> events == [Say(AlreadyExists(albumName))]
    ensures !found && dryRun ==> events == [Say(DryRun(albumName, |assetIds|))]
  {
    if found then
      [Say(AlreadyExists(albumName))]
    else if dryRun then
      [Say(DryRun(albumName, |assetIds|))]
    else
      var post := [Send(cfg.host, cfg.apiKey, PostAlbum(AlbumPayload(albumName, assetIds, "")))];
      var outcome :=
        match create
        case CreateAccepted => [Say(Created(albumName, |assetIds|))]
        case CreateRejected(body) => [Say(CreateFailed(albumName))] + ResponseLog(body);
      RequestsAppend(post, outcome);
      assert Requests(outcome) == [] by {
        if create.CreateRejected? {
          RequestsAppend([Say(CreateFailed(albumName))], ResponseLog(create.body));
        }
      }
      post + outcome
  }

  // ----- the loop over folders -----

  /**
    Everything one iteration of the loop emits for the folder at 1-based
    position `index`: the specification the method `ProcessFolder` is proved
    against, and the function every per-folder property is stated about.
  */
  function FolderSteps(cfg: Config, dryRun: bool, index: nat, total: nat, entry: FolderEntry, replies: Replies): seq<Event>
    requires cfg.Valid() && Normalized(entry.path, cfg.sep)
  {
    [Say(Progress(index, total, entry.path))]
    + AfterLookup(cfg, dryRun, entry, GetFolderAssets(cfg, entry.path, replies.folder), replies)
  }

  /** What an iteration emits once the lookup has returned or raised. */
  function AfterLookup(cfg: Config, dryRun: bool, entry: FolderEntry, lookup: Result<Lookup, MapError>, replies: Replies): seq<Event>
  {
    match lookup
    case Failure(e) => [Say(MappingFailed(e))]
    case Success(found) =>
      if found.assetIds == [] then found.events + [Say(NoAssets(entry.path))]
      else found.events + CreateAlbum(cfg, entry.name, found.assetIds, dryRun, replies.albums, replies.create)
  }

  /** The inputs one run works on: a folder list, one set of replies per folder, all paths normalised. */
  predicate WellFormedRun(cfg: Config, subdirs: seq<FolderEntry>, replies: seq<Replies>)
  {
    cfg.Valid() && |replies| == |subdirs|
    && forall i :: 0 <= i < |subdirs| ==> Normalized(subdirs[i].path, cfg.sep)
  }

  /** What each iteration of a run emits, folder by folder. */
  function FolderTraces(cfg: Config, dryRun: bool, subdirs: seq<FolderEntry>, replies: seq<Replies>): (parts: seq<seq<Event>>)
    requires WellFormedRun(cfg, subdirs, replies)
    ensures |parts| == |subdirs|
  {
    seq(|subdirs|, i requires 0 <= i < |subdirs| => Iteration(cfg, dryRun, subdirs, replies, i))
  }

  /** The iteration for the folder at 0-based position `i`. */
  function Iteration(cfg: Config, dryRun: bool, subdirs: seq<FolderEntry>, replies: seq<Replies>, i: nat): seq<Event>
    requires WellFormedRun(cfg, subdirs, replies) && i < |subdirs|
  {
    FolderSteps(cfg, dryRun, i + 1, |subdirs|, subdirs[i], replies[i])
  }

  /** The trace of a whole run: the iterations' traces in folder order. */
  function Run(cfg: Config, dryRun: bool, subdirs: seq<FolderEntry>, replies: seq<Replies>): seq<Event>
    requires WellFormedRun(cfg, subdirs, replies)
  {
    Flatten(FolderTraces(cfg, dryRun, subdirs, replies))
  }

  /**
    One iteration of the loop: logs progress, looks up the folder's assets,
    stops at a mapping error or when the folder has no assets, and otherwise
    provisions the album named after the folder.
  */
  method ProcessFolder(cfg: Config, dryRun: bool, index: nat, total: nat, entry: FolderEntry, reply: Replies)
    returns (out: seq<Event>)
    requires cfg.Valid() && Normalized(entry.path, cfg.sep)
    ensures out == FolderSteps(cfg, dryRun, index, total, entry, reply)
  {
    out := [Say(Progress(index, total, entry.path))];
    var lookup := GetFolderAssets(cfg, entry.path, reply.folder);
    if lookup.Failure? {
      out := out + [Say(MappingFailed(lookup.error))];
      return;
    }
    var assetIds := lookup.value.assetIds;
    if assetIds == [] {
      out := out + (lookup.value.events + [Say(NoAssets(entry.path))]);
      return;
    }
    out := out + (lookup.value.events + CreateAlbum(cfg, entry.name, assetIds, dryRun, reply.albums, reply.create));
  }

  /** Processes the subdirectories one after the other, in the order given, each exactly once. */
  method CreateAlbums(cfg: Config, dryRun: bool, subdirs: seq<FolderEntry>, replies: seq<Replies>) returns (trace: seq<Event>)
    requires WellFormedRun(cfg, subdirs, replies)
    ensures trace == Run(cfg, dryRun, subdirs, replies)
  {
    var total := |subdirs|;
    ghost var parts := FolderTraces(cfg, dryRun, subdirs, replies);
    trace := [];
    for idx := 0 to total
      invariant trace == Flatten(parts[..idx])
    {
      var out := ProcessFolder(cfg, dryRun, idx + 1, total, subdirs[idx], replies[idx]);
      FlattenPrefix(parts, idx);
      trace := trace + out;
    }
    assert parts[..total] == parts;
  }

  // ----- properties of a folder's iteration -----

  /** The asset ids a folder reply yields: the listed ids, or none when the listing failed. */
  function ReplyIds(reply: FolderReply): seq<AssetId>
  {
    if reply.FolderListed? then AssetIdsOf(reply.items) else []
  }

  /** A folder gets an album created for it: mapped, has assets, no album of its name listed, not a dry run. */
  ghost predicate Provisioned(cfg: Config, dryRun: bool, entry: FolderEntry, replies: Replies)
    requires cfg.Valid() && Normalized(entry.path, cfg.sep)
  {
    cfg.localRoot <= entry.path && ReplyIds(replies.folder) != []
    && !Listed(replies.albums, entry.name) && !dryRun
  }

  /** The ids a successful lookup returns are exactly the ids of the reply. */
  lemma LookupIds(cfg: Config, folder: string, reply: FolderReply)
    requires cfg.Valid() && Normalized(folder, cfg.sep) && cfg.localRoot <= folder
    ensures GetFolderAssets(cfg, folder, reply).value.assetIds == ReplyIds(reply)
  {
    var ids := GetFolderAssets(cfg, folder, reply).value.assetIds;
    if reply.FolderListed? {
      assert |ids| == |AssetIdsOf(reply.items)|;
      assert forall i :: 0 <= i < |ids| ==> ids[i] == AssetIdsOf(reply.items)[i];
    }
  }

  /**
    The requests of one iteration: none for a rejected path; otherwise one
    folder listing, then, only when the folder has assets, the album listing,
    then, only for a new album outside a dry run, one creation request with
    the folder's name, its asset ids and an empty description.
  */
  lemma FolderRequests(cfg: Config, dryRun: bool, index: nat, total: nat, entry: FolderEntry, replies: Replies)
    requires cfg.Valid() && Normalized(entry.path, cfg.sep)
    ensures var ids := ReplyIds(replies.folder);
            Requests(FolderSteps(cfg, dryRun, index, total, entry, replies))
            == if !(cfg.localRoot <= entry.path) then []
               else [ListFolder(MapLocalToImmich(cfg, entry.path).value)]
                    + if ids == [] then []
                      else [ListAlbums]
                           + if Provisioned(cfg, dryRun, entry, replies)
                             then [PostAlbum(AlbumPayload(entry.name, ids, ""))] else []
  {
    var lookup := GetFolderAssets(cfg, entry.path, replies.folder);
    var rest := AfterLookup(cfg, dryRun, entry, lookup, replies);
    RequestsAppend([Say(Progress(index, total, entry.path))], rest);
    if lookup.Success? {
      var found := lookup.value;
      LookupIds(cfg, entry.path, replies.folder);
      if found.assetIds == [] {
        RequestsAppend(found.events, [Say(NoAssets(entry.path))]);
      } else {
        RequestsAppend(found.events, CreateAlbum(cfg, entry.name, found.assetIds, dryRun, replies.albums, replies.create));
      }
    }
  }

  /** A rejected path costs that folder a single error line and nothing else: no request of any kind. */
  lemma MappingErrorSkipsFolder(cfg: Config, dryRun: bool, index: nat, total: nat, entry: FolderEntry, replies: Replies)
    requires cfg.Valid() && Normalized(entry.path, cfg.sep) && !(cfg.localRoot <= entry.path)
    ensures FolderSteps(cfg, dryRun, index, total, entry, replies)
            == [Say(Progress(index, total, entry.path)), Say(MappingFailed(OutsideRoot(entry.path, cfg.localRoot)))]
  {
  }

  /** One iteration sends one creation request, with the folder's name and ids and an empty description, when the folder is provisioned, and none otherwise. */
  lemma FolderPosts(cfg: Config, dryRun: bool, index: nat, total: nat, entry: FolderEntry, replies: Replies)
    requires cfg.Valid() && Normalized(entry.path, cfg.sep)
    ensures Posts(Requests(FolderSteps(cfg, dryRun, index, total, entry, replies)))
            == if Provisioned(cfg, dryRun, entry, replies)
               then [AlbumPayload(entry.name, ReplyIds(replies.folder), "")] else []
  {
    FolderRequests(cfg, dryRun, index, total, entry, replies);
    var ids := ReplyIds(replies.folder);
    if cfg.localRoot <= entry.path {
      var path := MapLocalToImmich(cfg, entry.path).value;
      var tail := if ids != [] && Provisioned(cfg, dryRun, entry, replies)
                  then [PostAlbum(AlbumPayload(entry.name, ids, ""))] else [];
      ReadsThenTail(path, ids != [], tail);
    }
  }

  /** The two listing requests contribute no creation payload. */
  lemma ReadsThenTail(path: string, checked: bool, tail: seq<Request>)
    requires !checked ==> tail == []
    ensures Posts([ListFolder(path)] + if checked then [ListAlbums] + tail else []) == Posts(tail)
  {
    if checked {
      PostsAppend([ListFolder(path)], [ListAlbums] + tail);
      PostsAppend([ListAlbums], tail);
    }
  }

  /**
    A folder whose lookup yields no ids (an empty listing or a failed one) is
    skipped after the folder listing: no album listing, no creation request,
    and the iteration ends with the "no assets" line.
  */
  lemma NoAssetsSkipsFolder(cfg: Config, dryRun: bool, index: nat, total: nat, entry: FolderEntry, replies: Replies)
    requires cfg.Valid() && Normalized(entry.path, cfg.sep) && cfg.localRoot <= entry.path
    requires replies.folder.FolderFailed? || replies.folder.items == []
    ensures var steps := FolderSteps(cfg, dryRun, index, total, entry, replies);
            && Requests(steps) == [ListFolder(MapLocalToImmich(cfg, entry.path).value)]
            && steps[|steps| - 1] == Say(NoAssets(entry.path))
  {
    FolderRequests(cfg, dryRun, index, total, entry, replies);
    LookupIds(cfg, entry.path, replies.folder);
  }

  /** The events of a lookup and of provisioning hold no progress line. */
  lemma {:induction false} NoProgress(events: seq<Event>)
    requires forall k :: 0 <= k < |events| ==> !(events[k].Say? && events[k].log.Progress?)
    ensures Progresses(events) == []
  {
    if events != [] {
      NoProgress(events[1..]);
    }
  }

  lemma LookupQuiet(cfg: Config, folder: string, reply: FolderReply)
    requires cfg.Valid() && Normalized(folder, cfg.sep) && cfg.localRoot <= folder
    ensures Progresses(GetFolderAssets(cfg, folder, reply).value.events) == []
  {
    var path := MapLocalToImmich(cfg, folder).value;
    var events := GetFolderAssets(cfg, folder, reply).value.events;
    var sent := [Say(Debug(path)), Send(cfg.host, cfg.apiKey, ListFolder(path))];
    if reply.FolderListed? {
      assert events == sent;
    } else {
      assert events == sent + [Say(LookupFailed(folder, path))] + ResponseLog(reply.body);
    }
    NoProgress(events);
  }

  lemma CreateQuiet(cfg: Config, albumName: string, assetIds: seq<AssetId>, dryRun: bool,
                    albums: AlbumsReply, create: CreateReply)
    ensures Progresses(CreateAlbum(cfg, albumName, assetIds, dryRun, albums, create)) == []
  {
    var events := CreateAlbum(cfg, albumName, assetIds, dryRun, albums, create);
    var check := AlbumExists(cfg, albumName, albums);
    assert forall k :: 0 <= k < |check.events| ==> !(check.events[k].Say? && check.events[k].log.Progress?);
    NoProgress(events);
  }

  /** Each iteration prints exactly one progress line, its own, first. */
  lemma FolderProgress(cfg: Config, dryRun: bool, index: nat, total: nat, entry: FolderEntry, replies: Replies)
    requires cfg.Valid() && Normalized(entry.path, cfg.sep)
    ensures Progresses(FolderSteps(cfg, dryRun, index, total, entry, replies)) == [Progress(index, total, entry.path)]
  {
    var lookup := GetFolderAssets(cfg, entry.path, replies.folder);
    var rest := AfterLookup(cfg, dryRun, entry, lookup, replies);
    ProgressesAppend([Say(Progress(index, total, entry.path))], rest);
    if lookup.Success? {
      var found := lookup.value;
      LookupQuiet(cfg, entry.path, replies.folder);
      if found.assetIds == [] {
        ProgressesAppend(found.events, [Say(NoAssets(entry.path))]);
      } else {
        ProgressesAppend(found.events, CreateAlbum(cfg, entry.name, found.assetIds, dryRun, replies.albums, replies.create));
        CreateQuiet(cfg, entry.name, found.assetIds, dryRun, replies.albums, replies.create);
      }
    }
  }

  // ----- properties of a whole run -----

  /** The album a folder should get: one payload when it is provisioned, none otherwise. */
  ghost function Intended(cfg: Config, dryRun: bool, entry: FolderEntry, replies: Replies): seq<AlbumPayload>
    requires cfg.Valid() && Normalized(entry.path, cfg.sep)
  {
    if Provisioned(cfg, dryRun, entry, replies) then [AlbumPayload(entry.name, ReplyIds(replies.folder), "")] else []
  }

  /** The albums a run should create, folder by folder. */
  ghost function IntendedPosts(cfg: Config, dryRun: bool, subdirs: seq<FolderEntry>, replies: seq<Replies>): seq<seq<AlbumPayload>>
    requires WellFormedRun(cfg, subdirs, replies)
  {
    seq(|subdirs|, i requires 0 <= i < |subdirs| => Intended(cfg, dryRun, subdirs[i], replies[i]))
  }

  lemma {:induction false} PostsFlatten(parts: seq<seq<Event>>)
    ensures Posts(Requests(Flatten(parts)))
            == Flatten(seq(|parts|, i requires 0 <= i < |parts| => Posts(Requests(parts[i]))))
  {
    if parts != [] {
      var init := parts[..|parts| - 1];
      PostsFlatten(init);
      RequestsAppend(Flatten(init), parts[|parts| - 1]);
      PostsAppend(Requests(Flatten(init)), Requests(parts[|parts| - 1]));
      var per := seq(|parts|, i requires 0 <= i < |parts| => Posts(Requests(parts[i])));
      assert per[..|per| - 1] == seq(|init|, i requires 0 <= i < |init| => Posts(Requests(init[i])));
    }
  }

  lemma {:induction false} ProgressesFlatten(parts: seq<seq<Event>>)
    ensures Progresses(Flatten(parts))
            == Flatten(seq(|parts|, i requires 0 <= i < |parts| => Progresses(parts[i])))
  {
    if parts != [] {
      var init := parts[..|parts| - 1];
      ProgressesFlatten(init);
      ProgressesAppend(Flatten(init), parts[|parts| - 1]);
      var per := seq(|parts|, i requires 0 <= i < |parts| => Progresses(parts[i]));
      assert per[..|per| - 1] == seq(|init|, i requires 0 <= i < |init| => Progresses(init[i]));
    }
  }

  /** The `i`-th part of a run is the iteration for the `i`-th folder. */
  lemma FolderTraceAt(cfg: Config, dryRun: bool, subdirs: seq<FolderEntry>, replies: seq<Replies>, i: nat)
    requires WellFormedRun(cfg, subdirs, replies) && i < |subdirs|
    ensures FolderTraces(cfg, dryRun, subdirs, replies)[i] == Iteration(cfg, dryRun, subdirs, replies, i)
  {
  }

  /** The `i`-th iteration's creation requests are the `i`-th folder's intended album. */
  lemma FolderTracePosts(cfg: Config, dryRun: bool, subdirs: seq<FolderEntry>, replies: seq<Replies>, i: nat)
    requires WellFormedRun(cfg, subdirs, replies) && i < |subdirs|
    ensures Posts(Requests(FolderTraces(cfg, dryRun, subdirs, replies)[i])) == IntendedPosts(cfg, dryRun, subdirs, replies)[i]
  {
    FolderTraceAt(cfg, dryRun, subdirs, replies, i);
    FolderPosts(cfg, dryRun, i + 1, |subdirs|, subdirs[i], replies[i]);
  }

  /** The `i`-th iteration's only progress line is its own. */
  lemma FolderTraceProgress(cfg: Config, dryRun: bool, subdirs: seq<FolderEntry>, replies: seq<Replies>, i: nat)
    requires WellFormedRun(cfg, subdirs, replies) && i < |subdirs|
    ensures Progresses(FolderTraces(cfg, dryRun, subdirs, replies)[i]) == [Progress(i + 1, |subdirs|, subdirs[i].path)]
  {
    FolderTraceAt(cfg, dryRun, subdirs, replies, i);
    FolderProgress(cfg, dryRun, i + 1, |subdirs|, subdirs[i], replies[i]);
  }

  /** The creation requests of a run are exactly the intended albums, in folder order. */
  lemma RunPosts(cfg: Config, dryRun: bool, subdirs: seq<FolderEntry>, replies: seq<Replies>)
    requires WellFormedRun(cfg, subdirs, replies)
    ensures Posts(Requests(Run(cfg, dryRun, subdirs, replies))) == Flatten(IntendedPosts(cfg, dryRun, subdirs, replies))
  {
    var parts := FolderTraces(cfg, dryRun, subdirs, replies);
    var intended := IntendedPosts(cfg, dryRun, subdirs, replies);
    PostsFlatten(parts);
    var per := seq(|parts|, i requires 0 <= i < |parts| => Posts(Requests(parts[i])));
    forall i | 0 <= i < |parts|
      ensures per[i] == intended[i]
    {
      FolderTracePosts(cfg, dryRun, subdirs, replies, i);
    }
    assert per == intended;
  }

  /** A dry run sends no creation request at all. */
  lemma DryRunNeverPosts(cfg: Config, subdirs: seq<FolderEntry>, replies: seq<Replies>)
    requires WellFormedRun(cfg, subdirs, replies)
    ensures Posts(Requests(Run(cfg, true, subdirs, replies))) == []
  {
    RunPosts(cfg, true, subdirs, replies);
    FlattenEmpty(IntendedPosts(cfg, true, subdirs, replies));
  }

  /**
    Running the script again creates nothing, provided the server still lists
    every album it listed during the first (non-dry) run and now also lists
    every album that run asked it to create, and the folder listings are
    unchanged. Folders that got no album the first time (rejected path, no
    assets) still get none.
  */
  lemma RerunCreatesNothing(cfg: Config, dryRun: bool, subdirs: seq<FolderEntry>, first: seq<Replies>, second: seq<Replies>)
    requires WellFormedRun(cfg, subdirs, first) && |second| == |subdirs|
    requires forall i :: 0 <= i < |subdirs| ==> second[i].folder == first[i].folder
    requires forall i :: 0 <= i < |subdirs| && Listed(first[i].albums, subdirs[i].name) ==> Listed(second[i].albums, subdirs[i].name)
    requires forall i :: 0 <= i < |subdirs| && Provisioned(cfg, false, subdirs[i], first[i]) ==> Listed(second[i].albums, subdirs[i].name)
    ensures Posts(Requests(Run(cfg, dryRun, subdirs, second))) == []
  {
    assert WellFormedRun(cfg, subdirs, second);
    RunPosts(cfg, dryRun, subdirs, second);
    var intended := IntendedPosts(cfg, dryRun, subdirs, second);
    forall i | 0 <= i < |subdirs|
      ensures intended[i] == []
    {
      assert ReplyIds(second[i].folder) == ReplyIds(first[i].folder);
    }
    FlattenEmpty(intended);
  }

  /** A run creates at most one album per folder. */
  lemma AtMostOnePostPerFolder(cfg: Config, dryRun: bool, subdirs: seq<FolderEntry>, replies: seq<Replies>)
    requires WellFormedRun(cfg, subdirs, replies)
    ensures |Posts(Requests(Run(cfg, dryRun, subdirs, replies)))| <= |subdirs|
  {
    RunPosts(cfg, dryRun, subdirs, replies);
    FlattenSmall(IntendedPosts(cfg, dryRun, subdirs, replies));
  }

  /**
    Every folder is processed exactly once and in the order given: the
    progress lines of a run are `[1/n] .. [n/n]`, one per folder, carrying
    the folders' paths in order, whatever happens to each folder.
  */
  lemma RunVisitsEachFolderOnce(cfg: Config, dryRun: bool, subdirs: seq<FolderEntry>, replies: seq<Replies>)
    requires WellFormedRun(cfg, subdirs, replies)
    ensures var ps := Progresses(Run(cfg, dryRun, subdirs, replies));
            |ps| == |subdirs|
            && forall i :: 0 <= i < |subdirs| ==> ps[i] == Progress(i + 1, |subdirs|, subdirs[i].path)
  {
    var parts := FolderTraces(cfg, dryRun, subdirs, replies);
    ProgressesFlatten(parts);
    var per := seq(|parts|, i requires 0 <= i < |parts| => Progresses(parts[i]));
    forall i | 0 <= i < |parts|
      ensures per[i] == [Progress(i + 1, |subdirs|, subdirs[i].path)]
    {
      FolderTraceProgress(cfg, dryRun, subdirs, replies, i);
    }
    FlattenSingletons(per);
  }
}

# Immich album creator, modelled in Dafny

The script `create-album.py` turns each immediate subdirectory of a local photo
library into an album on an Immich server. For every folder it translates the
local path into the path under which Immich knows the same folder, asks the
server for the assets stored there, checks whether an album with the folder's
name already exists, and creates the album unless it exists or the run is a
dry run.

This project models two parts of the script and proves properties of them:

- **Path translation** (`map_local_to_immich_path`): a character-prefix test
  against the local root, then `os.path.relpath`, `os.path.join` onto the Immich
  root, then every native separator rewritten to `/`. The `os.path` functions
  involved are modelled in module `OsPath`, following the POSIX implementation,
  with the native separator (`os.sep`) as a parameter.
- **Album provisioning** (`get_folder_assets`, `album_exists`, `create_album`,
  `main`). The server is abstracted: each folder comes with the server's replies
  to the (at most three) requests made for it. What the script does is recorded
  as a trace of events. An event is either a request sent (with the configured
  host and API key) or a console line, tagged by kind with the values it reports.
  `main` is an imperative loop (`AlbumCreator.CreateAlbums`) proved equal to a trace
  function (`AlbumCreator.Run`). The properties are lemmas about that function.

The configuration constants are a `Settings.Config` value passed to every
operation, not globals: host, local root, Immich root, API key, and the host's
`os.sep`.

Modules: `Wrappers` (Option, Result), `OsPath`, `Settings`, `PathMapping`,
`Immich` (requests, replies, events, trace projections), `Seqs` (concatenating
per-folder traces), `AlbumCreator`.

The root test is a character prefix (`startswith`), so a sibling folder such
as `/srv/photos2/x` under the root `/srv/photos` is accepted and maps to
`<immich root>/../photos2/x` (`PathMapping.MapSiblingOfRoot`).

Folders found by scanning the local root never reach the `ValueError` branch:
their paths are `join(root, name)` (`PathMapping.MapScannedFolder`).

## Model

| member | source | states |
|---|---|---|
| `OsPath.RelPath` | create-album.py:22 | `relpath` of two normalised absolute paths: one ".." per unshared component of the start, then the rest of the path, or "." if nothing is left; the result is never empty and never starts with a separator |
| `OsPath.CommonPrefixLength` | create-album.py:22 | the length of the longest common prefix of two component lists: the prefixes agree and the next components differ |
| `OsPath.Join` | create-album.py:23 | `os.path.join(a, b)`: an absolute `b` replaces `a`; a relative `b` gives a result that extends `a` |
| `OsPath.JoinComponents` | create-album.py:23 | joining a relative `b` onto `a` yields the components of `a` followed by the components of `b`, whether or not a separator had to be inserted |
| `OsPath.ToPosix` | create-album.py:24 | `replace(os.sep, "/")`: same length, every native separator becomes '/', every other character stays in place; when `os.sep` is not '/', no native separator remains |
| `OsPath.ComponentsOfAbsPath` | create-album.py:22 | splitting an absolute path into components, as `relpath` does, gives back the components it was built from |
| `PathMapping.MapLocalToImmich` | create-album.py:17-25 | fails with the `ValueError` exactly when the local root is not a character prefix of the path; on success the result begins with the Immich root, is longer than it, and holds no native separator |
| `PathMapping.MapUnderRoot` | create-album.py:22-24 | a path `root sep rel` strictly below the root is accepted and maps to the Immich root joined with `rel`, with a separator inserted only when the Immich root does not already end with one, then rewritten to '/' |
| `PathMapping.MapRootItself` | create-album.py:22-23 | the local root itself is accepted and maps to the Immich root joined with "." |
| `PathMapping.MapSiblingOfRoot` | create-album.py:20-22 | the root test compares characters: a sibling whose name extends the root's last component passes it, although its components do not extend the root's, and its relative part starts with ".." |
| `PathMapping.MapScannedFolder` | create-album.py:85-94 | a scanned entry's path (the root joined with a plain entry name) is always accepted and maps to the Immich root joined with the entry name |
| `AlbumCreator.AssetIdsOf` | create-album.py:38 | one id per element of the folder listing, in the listing's order |
| `AlbumCreator.GetFolderAssets` | create-album.py:27-44 | a rejected path raises before any request is made; otherwise a debug line, then exactly one folder-listing request for the mapped path; the listed ids in order, or, when the request failed, no ids after an error line and, if the failure carried a response, its body |
| `AlbumCreator.LookupIds` | create-album.py:38-44 | the ids of a successful lookup are exactly the reply's ids, or none for a failed reply |
| `AlbumCreator.NameTaken` | create-album.py:53 | true exactly when some album's `albumName` equals the name exactly (case-sensitive; a missing name never matches) |
| `AlbumCreator.AlbumExists` | create-album.py:46-56 | exactly one album-listing request; the album exists exactly when the listing answered and names it; a failed listing is logged and counts as absent |
| `AlbumCreator.CreateAlbum` | create-album.py:58-82 | the existence check is the first request; an existing album yields exactly the listing request and the skip line; a dry run gets a dry-run line and no creation request; otherwise exactly one creation request with the name, the ids unchanged and an empty description |
| `AlbumCreator.AfterCheck` | create-album.py:60-82 | after the check: a creation request only for an absent album outside a dry run; exactly the skip line when found; exactly the dry-run line when absent and dry |
| `AlbumCreator.ProcessFolder` | create-album.py:89-100 | one iteration emits exactly the folder's trace: progress line, lookup, then the mapping error, the "no assets" skip, or provisioning |
| `AlbumCreator.CreateAlbums` | create-album.py:84-100 | the loop emits exactly the run's trace: the iterations' traces in folder order |
| `AlbumCreator.FolderRequests` | create-album.py:93-98 | an iteration's requests: none for a rejected path; otherwise the folder listing, then only if there are assets the album listing, then only for a provisioned folder one creation request |
| `AlbumCreator.MappingErrorSkipsFolder` | create-album.py:93-100 | a rejected path yields only the progress line and the error line: no request of any kind for that folder |
| `AlbumCreator.NoAssetsSkipsFolder` | create-album.py:95-97 | a folder whose listing is empty or failed makes only the folder-listing request, with no existence check and no creation, and ends with the "no assets" skip line |
| `AlbumCreator.FolderPosts` | create-album.py:60-76 | an iteration posts one album (folder name, listed ids, empty description) exactly when the folder is mapped, has assets, no album of its name is listed, and it is not a dry run |
| `AlbumCreator.FolderProgress` | create-album.py:91 | each iteration prints exactly one progress line, its own |
| `AlbumCreator.RunPosts` | create-album.py:88-98 | the creation requests of a run are exactly the provisioned folders' albums, in folder order |
| `AlbumCreator.DryRunNeverPosts` | create-album.py:64-66 | a dry run sends no creation request |
| `AlbumCreator.RerunCreatesNothing` | create-album.py:60-62 | running again after a real run creates nothing: with the same folder listings, and a server that still lists the albums it listed and now lists every album the first run asked for, no folder is provisioned (folders skipped the first time are skipped again) |
| `AlbumCreator.AtMostOnePostPerFolder` | create-album.py:88-98 | a run creates at most one album per folder |
| `AlbumCreator.RunVisitsEachFolderOnce` | create-album.py:88-91 | the progress lines of a run are `[1/n]` to `[n/n]`, one per folder, with the folders' paths in order, whatever happens to each folder |

## Left out

- The HTTP calls (`requests.get`, `requests.post`). Each folder's replies are an input (`Immich.Replies`), and a failed reply stands for any `RequestException`.
- `os.scandir` and `is_dir`. The folder list is an input, in the order given, with each entry's path and base name.
- `os.path.abspath`. Paths must already be normalised and absolute: a leading separator, single separators, no trailing one, and no "." or ".." component. Relative inputs and dot-segment collapsing are not modelled.
- PathMapping.MapLocalToImmich: requires a normalised absolute path, because `abspath` is not modelled (see above).
- AlbumCreator.GetFolderAssets: requires a normalised absolute path, for the same reason.
- AlbumCreator.CreateAlbums: requires normalised entry paths and one set of replies per folder, because the filesystem and the server are inputs.
- Windows path rules (`ntpath`): drives, '/' as an alternative separator. `os.sep` is a parameter, but `relpath` and `join` follow the POSIX algorithms.
- JSON decoding, and the errors that escape the script: a listing element without `"id"` (`KeyError`), or an album entry that is not an object. The replies are already decoded.
- Console text and the exception messages. Lines are tagged events carrying the values the script prints.
- Argument parsing, the `Content-Type` header, and the process exit status.

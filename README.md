# Interface-server: the Minecraft supervisor and the file explorer, in Dafny

This project models the two pieces of logic in the Interface-server dashboard.

- **The Minecraft process supervisor** (`MinecraftServer`). It keeps a registry from server name to running `java -jar` process. It starts, stops and sends console commands to those processes. It looks versions up in the version catalog and downloads a server's jar. It rewrites `eula=false` to `eula=true` after a new server's first run. It assembles the inventory of installed servers. It also dispatches the `/minecraft/:action` route.
- **The browser-side file explorer** (`FileExplorer`). It holds the current directory and the breadcrumb text. It decides which files can be opened and which icon each shows. It derives child and parent paths and keeps navigation inside the root directory.

Modules:

- `Wrappers`: `Option`.
- `Strings`: the JavaScript string operations the code relies on, over `seq<char>`. These are `split` and `join` on one character, `startsWith`, ASCII `toLowerCase`, and `replace` with a string pattern and a replacement without `$`, which replaces the first occurrence only.
- `Provisioning`: `getVersionInfo`, jar naming, the launch command, and the order of checks and I/O in `downloadJar`.
- `Eula`: the licence rewrite and what the exit callback of `addServer` writes back.
- `ServerList`: `getServersList` over a directory tree, with the completion order of its callbacks as a parameter.
- `Supervisor`: the `MinecraftServer` class, with its registry `processes`, the launched processes, the I/O log, the socket records, and the route handler.
- `ExplorerPaths`: the explorer's pure string and path decisions.
- `Explorer`: the `FileExplorer` class, with `currentPath`, the breadcrumbs, the view, the back button, the requests sent and the popups shown.

The supervisor's quirks are modelled as written:

- `startServer` overwrites and orphans a process already registered under the same name.
- `stopServer` and `sendCommand` refer to a `res` that is not in scope. `sendCommand` always throws a `ReferenceError` after writing to the process, if one is registered, so the route answers 500 `Error: res is not defined`. `stopServer` throws the same error only when the name is registered, after sending `stop` and unbinding it. For an unknown name it returns `Errer lors de la fermeture du serveur <n>` and does not throw.
- `addServer` never registers the process it launches. The route sends an empty body on success, because the confirmation text is the discarded return value of the exec callback.
- `getServersList` settles only when the list is as long as the folder. An empty folder, or one holding a regular file or an unreadable directory, leaves the request unanswered.
- A rejection with a bare string reaches the route as `Error: undefined`.
- An empty version passes `downloadJar`'s check, because the lookup then returns the whole catalog. The directory is created and a request with an undefined URL follows.

The code also lacks some checks and bounds one might expect:

- `startServer` does not check whether a server of that name is already running.
- Errors have no kinds: a handler returns French text or throws an `Error` whose message the route sends.
- Listing an empty servers folder never answers, instead of answering with an empty list.
- The wait for `eula.txt` has no timeout.

## Model

| member | source | states |
|---|---|---|
| Strings.Split | src/file-explorer/minecraft_serveur_explorateur_de_fichier.js:182 | `split` on one character never gives an empty list |
| Strings.JoinSplit | src/file-explorer/minecraft_serveur_explorateur_de_fichier.js:216 | joining the pieces of a split with the same separator gives back the original string |
| Strings.SplitPiecesFree | src/file-explorer/minecraft_serveur_explorateur_de_fichier.js:182 | no piece of a split holds the separator |
| Strings.SplitSingle | src/file-explorer/minecraft_serveur_explorateur_de_fichier.js:182 | a string splits into one piece exactly when it holds no separator, and the piece is then the whole string |
| Strings.SplitAround | src/file-explorer/minecraft_serveur_explorateur_de_fichier.js:216 | splitting `a + sep + b` gives the pieces of `a` followed by the pieces of `b` |
| Strings.JoinLast | src/file-explorer/minecraft_serveur_explorateur_de_fichier.js:216 | joining two or more pieces is joining all but the last, then the separator, then the last |
| Strings.LastPiece | src/file-explorer/minecraft_serveur_explorateur_de_fichier.js:182 | the last piece of a split is a separator-free suffix that follows a separator, and it is the whole string exactly when there is one piece |
| Strings.ToLower | src/file-explorer/minecraft_serveur_explorateur_de_fichier.js:112 | lowering keeps the length and lowers each character on its own |
| Strings.SplitToLower | src/file-explorer/minecraft_serveur_explorateur_de_fichier.js:198 | lowering then splitting on a non-letter equals splitting then lowering each piece |
| Strings.StartsWithTransitive | src/file-explorer/minecraft_serveur_explorateur_de_fichier.js:217 | a prefix of a prefix is a prefix |
| Strings.IndexOfFrom | server/minecraft/index.js:86 | the result is the leftmost occurrence at or after `from`, and `None` means there is none |
| Strings.ReplaceFirst | server/minecraft/index.js:86 | with no occurrence the string comes back unchanged; otherwise only the leftmost occurrence is replaced and the text around it is kept |
| ExplorerPaths.ExtensionAfterLastDot | src/file-explorer/minecraft_serveur_explorateur_de_fichier.js:181-183 | `FileExtension`, the model of `getFileExtension`, gives the dot-free text after the last `.`, or the whole name when there is no `.` |
| ExplorerPaths.SupportedIsLowerCase | src/file-explorer/minecraft_serveur_explorateur_de_fichier.js:185-187 | `IsSupported`, the model of `isSupported`, is membership in `json`, `txt`, `properties` and `log`; every one of them is already lower case, so lowering first never rejects an extension that would have been accepted |
| ExplorerPaths.UnmarkedFilesOpen | src/file-explorer/minecraft_serveur_explorateur_de_fichier.js:99-116 | a file that `MarkedUnsupported` (the `unsupported` class of lines 99-104) leaves unmarked is always `Openable` (the lowered test `openFile` applies at lines 112-113) |
| ExplorerPaths.ExtensionAfterDot | src/file-explorer/minecraft_serveur_explorateur_de_fichier.js:181-183 | the extension of `<stem>.<ext>` is `ext` when neither part holds a dot |
| ExplorerPaths.MarkedFileCanOpen | src/file-explorer/minecraft_serveur_explorateur_de_fichier.js:99-116 | the converse fails: any `<stem>.LOG` is marked unsupported, because the mark is case-sensitive, yet `openFile` lowers the extension and opens it |
| ExplorerPaths.IconPath | src/file-explorer/minecraft_serveur_explorateur_de_fichier.js:197-209 | the icon is always one of the table's images, and the default `img/file.png` is among them |
| ExplorerPaths.IconPathIgnoresCase | src/file-explorer/minecraft_serveur_explorateur_de_fichier.js:198 | the icon does not depend on the case of the file name |
| ExplorerPaths.ItemIcon | src/file-explorer/minecraft_serveur_explorateur_de_fichier.js:71 | a listed entry shows the folder image or one of the table's images |
| ExplorerPaths.ChildExtends | src/file-explorer/minecraft_serveur_explorateur_de_fichier.js:92 | `ChildPath`, the entry path built at lines 92, 110 and 157, starts with the current path |
| ExplorerPaths.ParentAndLastSegment | src/file-explorer/minecraft_serveur_explorateur_de_fichier.js:216 | for `ParentPath`, the model of line 216, a path with a `/` is its parent, `/` and its last segment; a path without `/` has the empty parent; the parent is always a prefix |
| ExplorerPaths.ParentOfChild | src/file-explorer/minecraft_serveur_explorateur_de_fichier.js:216 | the parent of an entry whose name has no `/` is the directory it was listed in |
| ExplorerPaths.SegmentAfterSlash | src/file-explorer/minecraft_serveur_explorateur_de_fichier.js:43 | a `/`-free name that ends the string after a `/` is the last segment of its split |
| ExplorerPaths.SlashBeforeSuffix | src/file-explorer/minecraft_serveur_explorateur_de_fichier.js:43 | a proper last segment ends the string together with the `/` before it |
| ExplorerPaths.RootNameCaptured | src/file-explorer/minecraft_serveur_explorateur_de_fichier.js:43 | the name the model takes from the root is what the pattern `/\/([^\/]+)\/?$/` captures |
| ExplorerPaths.TrimmedEndsWithName | src/file-explorer/minecraft_serveur_explorateur_de_fichier.js:43 | once the optional trailing `/` is dropped, a captured name ends the root right after a `/` |
| ExplorerPaths.CaptureIsRootName | src/file-explorer/minecraft_serveur_explorateur_de_fichier.js:43 | whatever the pattern captures is the name the model takes |
| ExplorerPaths.RootNameIsCapture | src/file-explorer/minecraft_serveur_explorateur_de_fichier.js:43 | both directions together: `RootName`, the model's reading of the root, is exactly the pattern's capture, and it is absent exactly when the match is null |
| ExplorerPaths.BreadcrumbsThrowOnlyForUnnamedRoot | src/file-explorer/minecraft_serveur_explorateur_de_fichier.js:40-47 | `BreadcrumbsDisplayPath`, the model of `getBreadcrumbsDisplayPath` (`None` when it throws), throws exactly for a path inside a root the pattern cannot capture a name from, and is `error` outside the root |
| ExplorerPaths.BreadcrumbsInside | src/file-explorer/minecraft_serveur_explorateur_de_fichier.js:40-47 | inside a root with a name, the breadcrumbs are the name, `/` and the rest of the path with one leading `/` dropped |
| ExplorerPaths.BreadcrumbsAtRoot | src/file-explorer/minecraft_serveur_explorateur_de_fichier.js:40-47 | at the root the breadcrumbs are the root's name followed by `/` |
| ExplorerPaths.BreadcrumbsOfRootChild | src/file-explorer/minecraft_serveur_explorateur_de_fichier.js:40-47 | in a directory of the root the breadcrumbs are the root's name, `/` and the directory's name |
| ExplorerPaths.BreadcrumbsOfChild | src/file-explorer/minecraft_serveur_explorateur_de_fichier.js:40-47 | below the root, entering a directory appends `/` and its name to the breadcrumbs |
| ExplorerPaths.TrimLeadingSlashAppend | src/file-explorer/minecraft_serveur_explorateur_de_fichier.js:43 | dropping one leading `/` from a non-empty string commutes with appending to it |
| Explorer.FileExplorer.constructor | src/file-explorer/minecraft_serveur_explorateur_de_fichier.js:2-13 | the explorer starts at the empty path and requests the root's listing; `currentPath` becomes the root only when that load succeeds; when it succeeds and the root has a name, the root's breadcrumbs and listing are shown; the back button keeps the page's own styling unless that load succeeds and draws the root, which hides it |
| Explorer.FileExplorer.LoadFiles | src/file-explorer/minecraft_serveur_explorateur_de_fichier.js:15-38 | the listing is always requested; `currentPath` changes only on success; the breadcrumbs, listing and back button follow only when the breadcrumbs do not throw; the back button is hidden exactly at the root |
| Explorer.FileExplorer.NavigateToParentDirectory | src/file-explorer/minecraft_serveur_explorateur_de_fichier.js:211-220 | at the root it reloads the root; otherwise it loads the parent only when the parent still starts with the root, and it never leaves the root |
| Explorer.FileExplorer.OpenFile | src/file-explorer/minecraft_serveur_explorateur_de_fichier.js:109-130 | an unsupported lowered extension shows `Can't open .<ext> files` and sends no request; otherwise the content is requested and, on success, shown in the editor with the file's path as breadcrumbs |
| Explorer.FileExplorer.DownloadFile | src/file-explorer/minecraft_serveur_explorateur_de_fichier.js:156-178 | the entry's download is requested, and a failure adds exactly one popup; nothing else changes |
| Explorer.FileExplorer.ClickItem | src/file-explorer/minecraft_serveur_explorateur_de_fichier.js:89-96 | a directory is loaded at its child path, and a file leaves the explorer in the state `openFile` gives; either way the explorer stays inside the root |
| Provisioning.FindFrom | server/minecraft/index.js:182 | `find` returns the first entry labelled with the version, or nothing when no entry is |
| Provisioning.GetVersionInfo | server/minecraft/index.js:178-184 | an empty version yields the whole catalog unchanged; otherwise the first matching entry, or `undefined` exactly when none matches |
| Provisioning.LaunchRunsDownloadedJar | server/minecraft/index.js:136-145 | the jar lands at `JarPath`, `<serverFolder>/minecraft_server/<name>/minecraft_server.<version>.jar`, and `LaunchCommand` runs that file name from `LaunchDirectory`, `minecraft_server/<name>` (the command and directory of lines 67-68 and 99-100) |
| Provisioning.JarDirectoryIsLaunchDirectory | server/minecraft/index.js:144 | `ServerDirectory`, the download directory `<serversFolder>/<name>`, under `ServersFolder` is the launch directory `minecraft_server/<name>` under the configured folder |
| Provisioning.DownloadJar | server/minecraft/index.js:136-176 | the download succeeds exactly when the version is not unknown and the directory, the request and the write all succeed; it performs at most three I/O steps |
| Provisioning.UnknownVersionTouchesNothing | server/minecraft/index.js:137-141 | an unknown version is rejected with `La version <v> n'est pas disponible.` before any directory is created or any request made |
| Provisioning.KnownVersionDownloadsItsUrl | server/minecraft/index.js:143-157 | for a known version the server's directory comes first, then the request for that entry's URL, and the only file created is the jar at its fixed path |
| Provisioning.EmptyVersionReachesTheNetwork | server/minecraft/index.js:137-151 | an empty version is not rejected: the directory is created, a request with an undefined URL follows, and the only file it may create is `minecraft_server..jar` in the server's directory |
| Eula.AcceptEulaKeepsAcceptedFile | server/minecraft/index.js:86 | a text without `eula=false` is left unchanged |
| Eula.AcceptEulaReplacesFirst | server/minecraft/index.js:86 | `AcceptEula`, the rewrite at line 86, turns the leftmost `eula=false` into `eula=true` and keeps everything around it |
| Eula.AcceptEulaLength | server/minecraft/index.js:86 | the text shrinks by one character exactly when it held `eula=false` |
| Eula.NoDeclinedAt | server/minecraft/index.js:86 | with at most one `eula=false`, none starts at any position of the rewritten text |
| Eula.NoDeclinedAfterRewrite | server/minecraft/index.js:86 | with at most one `eula=false`, the rewritten text holds none |
| Eula.AcceptedHasNoDeclined | server/minecraft/index.js:85-87 | the same, stated for any text |
| Eula.AcceptEulaIdempotent | server/minecraft/index.js:86 | with at most one `eula=false`, accepting twice is accepting once |
| Eula.SecondDeclinedSurvives | server/minecraft/index.js:86 | with two `eula=false` lines only the first is accepted, so a second rewrite changes the text again |
| Eula.EulaAfterExit | server/minecraft/index.js:70-93 | the exit callback writes the file back only when the process exited cleanly and the file was read; the written text keeps a file without `eula=false`, and holds no `eula=false` when there was at most one |
| ServerList.Names | server/minecraft/index.js:209 | a directory's listing holds its children's names, in order |
| ServerList.FirstVersionFolder | server/minecraft/index.js:206 | the first child that is a directory whose lowered name starts with `versions`, or none when no child is |
| ServerList.EntryOf | server/minecraft/index.js:197-226 | only a readable directory pushes an entry, and it is pushed under the directory's own name |
| ServerList.NoVersionsFolder | server/minecraft/index.js:206-213 | a readable directory with no child that is a directory named `versions…` (any case) pushes its name with `[]` |
| ServerList.EntryOfFirstVersionsFolder | server/minecraft/index.js:206-222 | when child `i` is the first version folder, the entry lists that folder's names; when that folder cannot be listed nothing is pushed |
| ServerList.PushedAll | server/minecraft/index.js:215-224 | `Pushed`, the list after the callbacks in a given order, gets at most one entry per callback; the list reaches one entry per callback exactly when every callback pushes, and then holds their entries in completion order |
| ServerList.GetServersList | server/minecraft/index.js:186-230 | a failed folder read rejects with its message; otherwise the promise resolves exactly when the folder is non-empty and every item pushes, with one entry per item in completion order, and stays pending otherwise |
| ServerList.ResolvedListsEveryServer | server/minecraft/index.js:197-224 | a resolved list names every item of the folder, and nothing else |
| Supervisor.MinecraftServer.constructor | server/minecraft/index.js:7-17 | the servers folder is `ServersFolder`, `<serverFolder>/minecraft_server`, and the registry starts empty |
| Supervisor.MinecraftServer.RegistryIsInjective | server/minecraft/index.js:119 | while the registry is valid, distinct names are bound to distinct processes |
| Supervisor.MinecraftServer.StartServer | server/minecraft/index.js:97-122 | a fresh process runs `"<java>" -jar minecraft_server.<v>.jar` in `minecraft_server/<n>` and is bound to `n`; every other entry is kept, and a process previously bound to `n` stays launched but is no longer reachable |
| Supervisor.MinecraftServer.Output | server/minecraft/index.js:111-117 | stdout records carry the server name and stderr records carry none; a process without listeners emits nothing |
| Supervisor.MinecraftServer.StopServer | server/minecraft/index.js:124-134 | a registered process receives exactly `stop\n` and is unbound, and the handler then throws on `res`; an unknown name returns the error text and leaves the registry alone |
| Supervisor.MinecraftServer.SendCommand | server/minecraft/index.js:232-240 | the command and a newline go to the registered process only; the registry never changes; the handler always throws on `res` |
| Supervisor.MinecraftServer.AddServer | server/minecraft/index.js:58-95 | a failed download returns the error text and launches nothing; a successful one launches the jar without listeners, never registers it, and yields `undefined` |
| Supervisor.MinecraftServer.Handle | server/minecraft/index.js:19-56 | unknown actions answer 404 `Action not found`; thrown errors answer 500; `getVersionInfo` sends the whole catalog; `getServersList` answers only once its promise settles; `addServer`, `startServer`, `stopServer` and `sendCommand` answer with their handler's text or error and leave the state their handler leaves (download logged and jar launched, process bound, process sent `stop` and unbound, command written) |

## Left out

- Express, axios, `fs` and `child_process` are not called. Each I/O outcome is a parameter: the directory creation, the download, the write, the listing of a folder and the EULA read. The model records which I/O is performed and in what order.
- `path.join` is modelled as joining with `/`. Its normalisation of `..`, `.` and doubled slashes is not modelled.
- `toLowerCase` is modelled for ASCII letters only.
- The icon table is a map of its seven keys. Names inherited by a JavaScript object literal, such as `constructor`, are not modelled as keys.
- The EULA polling loop waits without bound for `eula.txt` to exist. It is timing, so the model takes the file's content, or a read failure, as a parameter.
- Console logging on the server is not modelled.
- Socket delivery is not modelled. Emitted records are appended to a sequence in order.
- Asynchronous interleaving is reduced to parameters. For `getServersList`, the order in which the per-server callbacks complete is given as `completionOrder`. Every other request runs to completion before the next one.
- A `statSync` that throws inside a callback of `getServersList` would crash the process. It is not modelled.
- Supervisor.MinecraftServer.Handle: `serverName`, `serverVersion` and `command` are strings, so a request missing any of them is not modelled. The model's nearest case, the empty string, does not give the same results. JavaScript renders an absent field as `undefined` in every template: `startServer` runs `minecraft_server.undefined.jar` in `minecraft_server/undefined` and answers `Le serveur undefined essaie de démarrer`, and `addServer` reports `undefined` in its messages. The empty string gives `minecraft_server..jar` and `Le serveur  essaie de démarrer`. An absent name also makes `path.join` in `downloadJar` throw a `TypeError` before any I/O, and an absent name is a `Map` key of its own; neither is modelled. A missing `command` makes `sendCommand` write `undefined\n`, where the empty string writes `\n`. An absent version and the empty string are both falsy, so `getVersionInfo` treats them alike.
- The `rootDirectory` URL parameter is modelled as a string. An absent parameter (`null`) is not modelled.
- The DOM rendering, the blob download, the popup timer and `saveFileContent` are left out. The explorer's view records only what is shown: the listing, or the editor with its file and content.
- `server.js`, `server/file_explorer/index.js`, `test.js` and the two dashboard menu scripts are not part of this model.
- The `running` field of `MinecraftServer` is never read. It is not modelled.
- The return value of the exec callback of `addServer` is not modelled, because nothing receives it.

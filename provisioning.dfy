/** The server-side decisions taken before and around a jar download: the version
    catalog lookup (`getVersionInfo`), the names of the jar, its directory and the
    launch command, and the order of checks and I/O in `downloadJar`. */
module Provisioning {
  import opened Wrappers
  import opened Strings

  /** One entry of the version catalog (`versions.json`). */
  datatype VersionInfo = VersionInfo(version: string, url: string)

  /** What `getVersionInfo(version)` yields: the matching entry, `undefined`, or, for a
      falsy (here: empty) version, the whole catalog. */
  datatype Lookup =
    | Entry(info: VersionInfo)
    | Missing
    | WholeCatalog(entries: seq<VersionInfo>)

  /** The index of the first entry at or after `from` labelled `version`. */
  function FindFrom(catalog: seq<VersionInfo>, version: string, from: nat): (r: Option<nat>)
    requires from <= |catalog|
    ensures r.Some? ==> from <= r.value < |catalog| && catalog[r.value].version == version
    ensures r.Some? ==> forall j :: from <= j < r.value ==> catalog[j].version != version
    ensures r.None? ==> forall j :: from <= j < |catalog| ==> catalog[j].version != version
    decreases |catalog| - from
  {
    if from == |catalog| then None
    else if catalog[from].version == version then Some(from)
    else FindFrom(catalog, version, from + 1)
  }

  /** `getVersionInfo`: the first entry whose label equals `version`, `Missing` when there
      is none, and the whole catalog unchanged when no version is given. */
  function GetVersionInfo(catalog: seq<VersionInfo>, version: string): (r: Lookup)
    ensures r.WholeCatalog? <==> version == ""
    ensures r.WholeCatalog? ==> r.entries == catalog
    ensures r.Missing? <==> version != "" && forall i :: 0 <= i < |catalog| ==> catalog[i].version != version
    ensures r.Entry? ==>
      exists i :: && 0 <= i < |catalog| && catalog[i] == r.info && r.info.version == version
                  && forall j :: 0 <= j < i ==> catalog[j].version != version
  {
    if version == "" then WholeCatalog(catalog)
    else match FindFrom(catalog, version, 0)
      case None => Missing
      case Some(i) => Entry(catalog[i])
  }

  /** The folder all servers live in: `<serverFolder>/minecraft_server`. */
  function ServersFolder(serverFolder: string): string {
    serverFolder + "/minecraft_server"
  }

  function JarFileName(version: string): string {
    "minecraft_server." + version + ".jar"
  }

  /** `path.join(serversFolder, serverName)` */
  function ServerDirectory(serversFolder: string, serverName: string): string {
    serversFolder + "/" + serverName
  }

  /** Where `downloadJar` writes the jar. */
  function JarPath(serversFolder: string, serverName: string, version: string): string {
    ServerDirectory(serversFolder, serverName) + "/" + JarFileName(version)
  }

  /** The shell command of `addServer` and `startServer`. */
  function LaunchCommand(javaPath: string, version: string): string {
    "\"" + javaPath + "\" -jar " + JarFileName(version)
  }

  /** The working directory of the launched process, relative to the supervisor's own. */
  function LaunchDirectory(serverName: string): string {
    "minecraft_server/" + serverName
  }

  /** The jar is downloaded to `<serverFolder>/minecraft_server/<name>/minecraft_server.<version>.jar`,
      and the launch command runs that same file name from `minecraft_server/<name>`:
      both agree only when the configured folder is the supervisor's working directory. */
  lemma LaunchRunsDownloadedJar(javaPath: string, serverFolder: string, serverName: string, version: string)
    ensures JarPath(ServersFolder(serverFolder), serverName, version)
      == serverFolder + "/" + LaunchDirectory(serverName) + "/" + JarFileName(version)
    ensures EndsWith(LaunchCommand(javaPath, version), " -jar " + JarFileName(version))
  {
    JarDirectoryIsLaunchDirectory(serverFolder, serverName);
    var command := LaunchCommand(javaPath, version);
    var tail := " -jar " + JarFileName(version);
    Regroup("\"" + javaPath + "\"", " -jar ", JarFileName(version));
    assert command[|command| - |tail|..] == tail;
  }

  /** The server's directory under the servers folder is the launch directory under
      the configured folder. */
  lemma JarDirectoryIsLaunchDirectory(serverFolder: string, serverName: string)
    ensures ServerDirectory(ServersFolder(serverFolder), serverName)
      == serverFolder + "/" + LaunchDirectory(serverName)
  {
    Regroup(serverFolder, "/minecraft_server", "/");
    assert "/minecraft_server" + "/" == "/" + "minecraft_server/";
    Regroup(serverFolder, "/", "minecraft_server/");
    Regroup(serverFolder + "/", "minecraft_server/", serverName);
  }

  /** The outcome of one I/O step, supplied by the environment. */
  datatype Io = Done | Failed(message: string)

  /** The I/O `downloadJar` performs, in order. */
  datatype Effect =
    | MakeDirectory(path: string)
    | HttpGet(url: Option<string>)
    | CreateFile(path: string)

  /** The I/O `downloadJar` performed and, when it rejects, the message of its `Error`. */
  datatype Download = Download(effects: seq<Effect>, error: Option<string>)

  function UnknownVersionMessage(version: string): string {
    "La version " + version + " n'est pas disponible."
  }

  /** `downloadJar`: check the version, create the directory, fetch the jar and stream
      it to its file. An empty version passes the check, because the lookup then returns
      the (truthy) catalog, and the request is made with an undefined URL. */
  function DownloadJar(
    catalog: seq<VersionInfo>, serversFolder: string, serverName: string, version: string,
    makeDirectory: Io, fetch: Io, write: Io): (d: Download)
    ensures d.error.None? <==>
      (!GetVersionInfo(catalog, version).Missing? && makeDirectory.Done? && fetch.Done? && write.Done?)
    ensures |d.effects| <= 3
  {
    var lookup := GetVersionInfo(catalog, version);
    if lookup.Missing? then Download([], Some(UnknownVersionMessage(version)))
    else
      var url := if lookup.Entry? then Some(lookup.info.url) else None;
      var directory := ServerDirectory(serversFolder, serverName);
      if makeDirectory.Failed? then
        Download([MakeDirectory(directory)], Some("Failed to download jar file: " + makeDirectory.message))
      else if fetch.Failed? then
        Download([MakeDirectory(directory), HttpGet(url)], Some("Failed to download jar file: " + fetch.message))
      else
        var effects := [MakeDirectory(directory), HttpGet(url), CreateFile(JarPath(serversFolder, serverName, version))];
        if write.Failed? then Download(effects, Some("Failed to write jar file: " + write.message))
        else Download(effects, None)
  }

  /** An unknown version is rejected before any directory is created or any request made. */
  lemma UnknownVersionTouchesNothing(
    catalog: seq<VersionInfo>, serversFolder: string, serverName: string, version: string,
    makeDirectory: Io, fetch: Io, write: Io)
    requires version != "" && forall i :: 0 <= i < |catalog| ==> catalog[i].version != version
    ensures DownloadJar(catalog, serversFolder, serverName, version, makeDirectory, fetch, write)
      == Download([], Some(UnknownVersionMessage(version)))
  {
  }

  /** For a known version, the directory comes first, then the request for that entry's URL,
      and the only file ever created is the jar at its fixed path. */
  lemma KnownVersionDownloadsItsUrl(
    catalog: seq<VersionInfo>, serversFolder: string, serverName: string, i: nat,
    makeDirectory: Io, fetch: Io, write: Io)
    requires i < |catalog| && catalog[i].version != ""
    requires forall j :: 0 <= j < i ==> catalog[j].version != catalog[i].version
    ensures var d := DownloadJar(catalog, serversFolder, serverName, catalog[i].version, makeDirectory, fetch, write);
      && d.effects != []
      && d.effects[0] == MakeDirectory(ServerDirectory(serversFolder, serverName))
      && (makeDirectory.Done? ==> |d.effects| >= 2 && d.effects[1] == HttpGet(Some(catalog[i].url)))
      && forall k :: 0 <= k < |d.effects| && d.effects[k].CreateFile?
           ==> d.effects[k].path == JarPath(serversFolder, serverName, catalog[i].version)
  {
    var version := catalog[i].version;
    var lookup := GetVersionInfo(catalog, version);
    assert lookup == Entry(catalog[i]) by {
      var r := FindFrom(catalog, version, 0);
      assert r.Some? && r.value == i;
    }
  }

  /** A missing version (empty in the request) is not rejected up front: the directory is
      created, a request with an undefined URL follows, and the only file it may create
      is the jar named with the empty version, `minecraft_server..jar`. */
  lemma EmptyVersionReachesTheNetwork(
    catalog: seq<VersionInfo>, serversFolder: string, serverName: string,
    fetch: Io, write: Io)
    ensures var d := DownloadJar(catalog, serversFolder, serverName, "", Done, fetch, write);
      && |d.effects| >= 2
      && d.effects[0] == MakeDirectory(ServerDirectory(serversFolder, serverName))
      && d.effects[1] == HttpGet(None)
      && forall k :: 0 <= k < |d.effects| && d.effects[k].CreateFile?
           ==> d.effects[k].path == ServerDirectory(serversFolder, serverName) + "/minecraft_server..jar"
  {
  }
}

/** The Minecraft process supervisor (`MinecraftServer`): the registry of running
    servers keyed by name, the processes it has launched, the I/O of jar downloads,
    the console records forwarded to the socket, and the `/minecraft/:action` route
    that dispatches to all of them. The file system, the network and process
    creation are parameters: each I/O step's outcome is passed in. */
module Supervisor {
  import opened Wrappers
  import opened Strings
  import opened Provisioning
  import opened ServerList

  /** One `serverConsole` record sent on the socket. */
  datatype ConsoleEvent = ConsoleEvent(game: string, serverName: Option<string>, output: string)

  /** A launched `java -jar` process: its command line, its working directory, the server
      name its output listeners report (`None` when no listener is attached) and the
      lines written to its stdin so far. */
  class ChildProcess {
    const command: string
    const cwd: string
    const listenerName: Option<string>
    var stdin: seq<string>

    constructor (command: string, cwd: string, listenerName: Option<string>)
      ensures this.command == command && this.cwd == cwd && this.listenerName == listenerName
      ensures stdin == []
    {
      this.command := command;
      this.cwd := cwd;
      this.listenerName := listenerName;
      stdin := [];
    }

    /** `stdin.write(text)` */
    method Write(text: string)
      modifies this
      ensures stdin == old(stdin) + [text]
    {
      stdin := stdin + [text];
    }
  }

  /** What a handler throws: an `Error` with its message, or a rejection with a bare
      string, whose `.message` is undefined. */
  datatype Thrown = Error(message: string) | Rejection(reason: string)

  /** What a handler yields to the route. */
  datatype Value = Text(text: string) | Undefined

  datatype Completion = Returned(value: Value) | Threw(error: Thrown)

  /** The body of an HTTP response; `res.send(undefined)` sends an empty one. */
  datatype Body =
    | TextBody(text: string)
    | EmptyBody
    | CatalogBody(entries: seq<VersionInfo>)
    | ServersBody(servers: seq<ServerEntry>)

  /** `NoResponse` when the awaited promise never settles. */
  datatype Response = NoResponse | Sent(status: int, body: Body)

  /** The outcomes of the I/O a request may cause, supplied by the environment. */
  datatype Environment = Environment(
    makeDirectory: Io, fetch: Io, write: Io,
    serversListing: Listing, completionOrder: seq<nat>)

  /** `stopServer` and `sendCommand` use `res`, which is not in their scope. */
  const ResNotDefined := "res is not defined"

  const Actions := {"addServer", "startServer", "stopServer", "sendCommand", "getVersionInfo", "getServersList"}

  function StartingMessage(serverName: string): string {
    "Le serveur " + serverName + " essaie de démarrer"
  }

  function StopFailedMessage(serverName: string): string {
    "Errer lors de la fermeture du serveur " + serverName
  }

  function AddFailedMessage(serverName: string, version: string, message: string): string {
    "Erreur lors de l'ajout du serveur " + serverName + " en " + version
      + " lors du téléchargement du fichier JAR : " + message
  }

  /** The body of the route's 500 answer: `Error: ${error.message}`. */
  function ErrorText(error: Thrown): string {
    match error
    case Error(message) => "Error: " + message
    case Rejection(_) => "Error: undefined"
  }

  class MinecraftServer {
    const javaPath: string
    /** `<serverFolder>/minecraft_server` */
    const serversFolder: string
    /** The content of `versions.json`. */
    const catalog: seq<VersionInfo>
    /** `minecraftProcesses` */
    var processes: map<string, ChildProcess>
    /** Every process launched so far, registered or not, in launch order. */
    var launched: seq<ChildProcess>
    /** The directory, network and file I/O performed so far, in order. */
    var io: seq<Effect>
    /** The `serverConsole` records emitted so far, in order. */
    var console: seq<ConsoleEvent>

    /** Each registered process was launched by `startServer` under its key: it runs in
        that server's directory and its listeners report that name. */
    predicate Valid()
      reads this
    {
      forall name :: name in processes ==>
        && processes[name].listenerName == Some(name)
        && processes[name].cwd == LaunchDirectory(name)
        && processes[name] in launched
    }

    constructor (javaPath: string, serverFolder: string, catalog: seq<VersionInfo>)
      ensures Valid()
      ensures this.javaPath == javaPath && serversFolder == ServersFolder(serverFolder)
      ensures this.catalog == catalog
      ensures processes == map[] && launched == [] && io == [] && console == []
    {
      this.javaPath := javaPath;
      serversFolder := ServersFolder(serverFolder);
      this.catalog := catalog;
      processes := map[];
      launched := [];
      io := [];
      console := [];
    }

    /** Distinct names are bound to distinct processes. */
    lemma RegistryIsInjective(a: string, b: string)
      requires Valid() && a in processes && b in processes && a != b
      ensures processes[a] != processes[b]
    {
      assert processes[a].listenerName == Some(a);
    }

    /** The state after `startServer(name, version)`: a fresh process running the jar in
        the server's directory, with listeners reporting `name`, is bound to `name`; every
        other entry is kept, and a process previously bound to `name` stays launched but
        is no longer reachable. */
    twostate predicate Started(name: string, version: string)
      reads this, if name in processes then {processes[name]} else {}
    {
      && name in processes && fresh(processes[name])
      && processes == old(processes)[name := processes[name]]
      && processes[name].command == LaunchCommand(javaPath, version)
      && processes[name].cwd == LaunchDirectory(name)
      && processes[name].listenerName == Some(name) && processes[name].stdin == []
      && launched == old(launched) + [processes[name]]
      && (name in old(processes) ==> old(processes)[name] in launched && old(processes)[name] !in processes.Values)
      && io == old(io) && console == old(console)
    }

    /** `startServer(name, version)`: launch the jar in the server's directory, attach the
        output listeners and bind the name to the new process, replacing (and orphaning)
        any process already bound to it. */
    method StartServer(name: string, version: string) returns (message: string)
      requires Valid()
      modifies this
      ensures Valid()
      ensures message == StartingMessage(name)
      ensures Started(name, version)
    {
      var process := new ChildProcess(LaunchCommand(javaPath, version), LaunchDirectory(name), Some(name));
      ghost var previous := processes;
      launched := launched + [process];
      processes := processes[name := process];
      if name in previous {
        forall other | other in processes ensures processes[other] != previous[name] {
          if other != name {
            assert processes[other].listenerName == Some(other);
          }
        }
      }
      message := StartingMessage(name);
    }

    /** A chunk of output of `process`: stdout records carry the server name, stderr
        records carry none, and a process without listeners emits nothing. The
        listeners stay attached after the process leaves the registry. */
    method Output(process: ChildProcess, fromStdout: bool, data: string)
      modifies this
      ensures console == old(console) +
        if process.listenerName.None? then []
        else [ConsoleEvent("Minecraft", if fromStdout then process.listenerName else None, data)]
      ensures processes == old(processes) && launched == old(launched) && io == old(io)
    {
      if process.listenerName.Some? {
        console := console + [ConsoleEvent("Minecraft", if fromStdout then process.listenerName else None, data)];
      }
    }

    /** The state after `stopServer` found `process` bound to `name`: the process was sent
        `stop` and the name is unbound; nothing else changes. */
    twostate predicate Stopped(name: string, process: ChildProcess)
      reads this, process
    {
      && processes == old(processes) - {name}
      && process.stdin == old(process.stdin) + ["stop\n"]
      && launched == old(launched) && io == old(io) && console == old(console)
    }

    /** `stopServer(name)`: a registered process is sent `stop` and unbound, after which
        the handler throws on `res`; an unknown name yields the error text. */
    method StopServer(name: string) returns (outcome: Completion)
      requires Valid()
      modifies this, if name in processes then {processes[name]} else {}
      ensures Valid()
      ensures name in old(processes) ==>
        Stopped(name, old(processes)[name]) && outcome == Threw(Error(ResNotDefined))
      ensures name !in old(processes) ==>
        unchanged(this) && outcome == Returned(Text(StopFailedMessage(name)))
    {
      if name in processes {
        var process := processes[name];
        process.Write("stop\n");
        processes := processes - {name};
        return Threw(Error(ResNotDefined));
      }
      return Returned(Text(StopFailedMessage(name)));
    }

    /** The state after `sendCommand(name, command)`: the registered process, if any, was
        sent the command and a newline; the supervisor's own state is unchanged. */
    twostate predicate CommandSent(name: string, command: string)
      reads this, if name in processes then {processes[name]} else {}
    {
      && processes == old(processes) && launched == old(launched)
      && io == old(io) && console == old(console)
      && (name in processes ==> processes[name].stdin == old(processes[name].stdin) + [command + "\n"])
    }

    /** `sendCommand(name, command)`: the line goes to the registered process, if any;
        either way the handler then throws on `res`. */
    method SendCommand(name: string, command: string) returns (outcome: Completion)
      requires Valid()
      modifies if name in processes then {processes[name]} else {}
      ensures CommandSent(name, command)
      ensures outcome == Threw(Error(ResNotDefined))
    {
      if name in processes {
        processes[name].Write(command + "\n");
      }
      return Threw(Error(ResNotDefined));
    }

    /** The state after `addServer(name, version)`: the download's I/O is logged; when it
        succeeds, one fresh process runs the jar in the server's directory, without
        listeners and without being registered. */
    twostate predicate Added(name: string, version: string, makeDirectory: Io, fetch: Io, write: Io)
      reads this
    {
      var download := DownloadJar(catalog, serversFolder, name, version, makeDirectory, fetch, write);
      && processes == old(processes) && console == old(console)
      && io == old(io) + download.effects
      && (download.error.Some? ==> launched == old(launched))
      && (download.error.None? ==>
            && |launched| == |old(launched)| + 1 && launched[..|old(launched)|] == old(launched)
            && fresh(Last(launched)) && Last(launched) !in processes.Values
            && Last(launched).command == LaunchCommand(javaPath, version)
            && Last(launched).cwd == LaunchDirectory(name)
            && Last(launched).listenerName.None?)
    }

    /** `addServer(name, version)`: download the jar; on failure answer with the error
        text and launch nothing; on success launch the jar without listeners and
        without registering it, and yield nothing. */
    method AddServer(name: string, version: string, makeDirectory: Io, fetch: Io, write: Io)
      returns (result: Value)
      requires Valid()
      modifies this
      ensures Valid()
      ensures Added(name, version, makeDirectory, fetch, write)
      ensures var download := DownloadJar(catalog, serversFolder, name, version, makeDirectory, fetch, write);
        result == if download.error.Some? then Text(AddFailedMessage(name, version, download.error.value)) else Undefined
    {
      var download := DownloadJar(catalog, serversFolder, name, version, makeDirectory, fetch, write);
      io := io + download.effects;
      if download.error.Some? {
        return Text(AddFailedMessage(name, version, download.error.value));
      }
      var process := new ChildProcess(LaunchCommand(javaPath, version), LaunchDirectory(name), None);
      launched := launched + [process];
      assert launched[..|old(launched)|] == old(launched);
      return Undefined;
    }

    /** The `/minecraft/:action` route: dispatch on the action, send what the handler
        yields, answer 500 with the error's message when it throws and 404 for an
        unknown action. `getVersionInfo` is called without a version. */
    method Handle(action: string, serverName: string, serverVersion: string, command: string, env: Environment)
      returns (response: Response)
      requires Valid()
      requires env.serversListing.Entries? ==>
        IsCompletionOrder(env.completionOrder, |env.serversListing.nodes|)
      modifies this, if serverName in processes then {processes[serverName]} else {}
      ensures Valid()
      ensures action !in Actions ==> response == Sent(404, TextBody("Action not found")) && unchanged(this)
      ensures action == "addServer" ==>
        var download := DownloadJar(catalog, serversFolder, serverName, serverVersion, env.makeDirectory, env.fetch, env.write);
        response == Sent(200, if download.error.Some?
          then TextBody(AddFailedMessage(serverName, serverVersion, download.error.value))
          else EmptyBody)
      ensures action == "addServer" ==> Added(serverName, serverVersion, env.makeDirectory, env.fetch, env.write)
      ensures action == "startServer" ==> response == Sent(200, TextBody(StartingMessage(serverName)))
      ensures action == "startServer" ==> Started(serverName, serverVersion)
      ensures action == "stopServer" ==>
        if serverName in old(processes) then Stopped(serverName, old(processes)[serverName]) else unchanged(this)
      ensures action == "sendCommand" ==> CommandSent(serverName, command)
      ensures action == "stopServer" ==>
        response == (if serverName in old(processes) then Sent(500, TextBody("Error: " + ResNotDefined))
                     else Sent(200, TextBody(StopFailedMessage(serverName))))
      ensures action == "sendCommand" ==> response == Sent(500, TextBody("Error: " + ResNotDefined))
      ensures action == "getVersionInfo" ==> response == Sent(200, CatalogBody(catalog)) && unchanged(this)
      ensures action == "getServersList" ==> unchanged(this)
      ensures action == "getServersList" && env.serversListing.ReadFailed? ==>
        response == Sent(500, TextBody("Error: undefined"))
      ensures action == "getServersList" && env.serversListing.Entries? ==>
        var nodes := env.serversListing.nodes;
        if nodes != [] && forall i :: 0 <= i < |nodes| ==> EntryOf(nodes[i]).Some? then
          && response.Sent? && response.status == 200 && response.body.ServersBody?
          && |response.body.servers| == |nodes|
          && forall k :: 0 <= k < |nodes| ==>
               response.body.servers[k] == EntryOf(nodes[env.completionOrder[k]]).value
        else response == NoResponse
    {
      var outcome: Completion;
      if action == "addServer" {
        var value := AddServer(serverName, serverVersion, env.makeDirectory, env.fetch, env.write);
        outcome := Returned(value);
      } else if action == "startServer" {
        var message := StartServer(serverName, serverVersion);
        outcome := Returned(Text(message));
      } else if action == "stopServer" {
        outcome := StopServer(serverName);
      } else if action == "sendCommand" {
        outcome := SendCommand(serverName, command);
      } else if action == "getVersionInfo" {
        return Sent(200, CatalogBody(GetVersionInfo(catalog, "").entries));
      } else if action == "getServersList" {
        var settlement := GetServersList(env.serversListing, env.completionOrder);
        match settlement
        case Pending => return NoResponse;
        case Resolved(servers) => return Sent(200, ServersBody(servers));
        case Rejected(reason) => return Sent(500, TextBody(ErrorText(Rejection(reason))));
      } else {
        return Sent(404, TextBody("Action not found"));
      }
      match outcome
      case Returned(Text(text)) => response := Sent(200, TextBody(text));
      case Returned(Undefined) => response := Sent(200, EmptyBody);
      case Threw(error) => response := Sent(500, TextBody(ErrorText(error)));
    }
  }
}

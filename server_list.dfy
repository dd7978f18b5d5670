/** The server inventory of `getServersList`: one entry per item of the servers folder,
    each naming the server and listing its first `versions*` subdirectory. The folder
    is a tree value; the order in which the per-server callbacks complete is a
    parameter, and the result is only ever settled by the callback that makes the
    list as long as the folder. */
module ServerList {
  import opened Wrappers
  import opened Strings

  /** An item of the file system: a regular file, a directory with its children in
      listing order, or a directory whose listing fails. */
  datatype Node =
    | File(name: string)
    | Dir(name: string, children: seq<Node>)
    | Unreadable(name: string)

  predicate IsDirectory(n: Node) {
    !n.File?
  }

  /** One element of the resolved list: `{ name, versions }`. */
  datatype ServerEntry = ServerEntry(name: string, versions: seq<string>)

  /** The outcome of the top-level `readdir` of the servers folder. */
  datatype Listing = Entries(nodes: seq<Node>) | ReadFailed(reason: string)

  /** The state of the promise `getServersList` returns. */
  datatype Settlement = Pending | Resolved(servers: seq<ServerEntry>) | Rejected(reason: string)

  function FolderReadError(reason: string): string {
    "Erreur lors de la lecture du dossier des serveurs : " + reason
  }

  /** What `readdir` lists for a directory: its children's names. */
  function Names(children: seq<Node>): (names: seq<string>)
    ensures |names| == |children|
    ensures forall k :: 0 <= k < |children| ==> names[k] == children[k].name
  {
    if children == [] then [] else [children[0].name] + Names(children[1..])
  }

  predicate IsVersionFolder(n: Node) {
    IsDirectory(n) && StartsWith(ToLower(n.name), "versions")
  }

  /** `serverFiles.find(...)` from index `from` on: the first directory whose lowered
      name starts with `versions`. */
  function FirstVersionFolder(children: seq<Node>, from: nat): (r: Option<nat>)
    requires from <= |children|
    ensures r.Some? ==> from <= r.value < |children| && IsVersionFolder(children[r.value])
    ensures r.Some? ==> forall k :: from <= k < r.value ==> !IsVersionFolder(children[k])
    ensures r.None? ==> forall k :: from <= k < |children| ==> !IsVersionFolder(children[k])
    decreases |children| - from
  {
    if from == |children| then None
    else if IsVersionFolder(children[from]) then Some(from)
    else FirstVersionFolder(children, from + 1)
  }

  /** What the callbacks for one item of the servers folder push: nothing when the item
      cannot be listed (a regular file, an unreadable directory) or when its version
      folder cannot be listed; otherwise the server's name with the version folder's
      listing, or `[]` when it has none. */
  function EntryOf(n: Node): (e: Option<ServerEntry>)
    ensures e.Some? ==> n.Dir? && e.value.name == n.name
  {
    match n
    case File(_) => None
    case Unreadable(_) => None
    case Dir(name, children) =>
      match FirstVersionFolder(children, 0)
      case None => Some(ServerEntry(name, []))
      case Some(i) =>
        match children[i]
        case Dir(_, versions) => Some(ServerEntry(name, Names(versions)))
        case _ => None
  }

  /** A readable directory with no version folder pushes its name with `[]`. */
  lemma NoVersionsFolder(n: Node)
    requires n.Dir? && forall k :: 0 <= k < |n.children| ==> !IsVersionFolder(n.children[k])
    ensures EntryOf(n) == Some(ServerEntry(n.name, []))
  {
  }

  /** When the `i`th child is the first version folder, the entry lists that folder,
      or nothing is pushed when that folder cannot be listed. */
  lemma EntryOfFirstVersionsFolder(n: Node, i: nat)
    requires n.Dir? && i < |n.children| && IsVersionFolder(n.children[i])
    requires forall k :: 0 <= k < i ==> !IsVersionFolder(n.children[k])
    ensures n.children[i].Dir? ==> EntryOf(n) == Some(ServerEntry(n.name, Names(n.children[i].children)))
    ensures n.children[i].Unreadable? ==> EntryOf(n) == None
  {
    assert FirstVersionFolder(n.children, 0) == Some(i);
  }

  /** `order` lists every index of a folder of `n` items, in completion order. */
  predicate IsCompletionOrder(order: seq<nat>, n: nat) {
    && |order| == n
    && (forall k :: 0 <= k < |order| ==> order[k] < n)
    && (forall i :: 0 <= i < n ==> i in order)
  }

  /** The list after the callbacks for `order` have run, in that order. */
  function Pushed(nodes: seq<Node>, order: seq<nat>): (list: seq<ServerEntry>)
    requires forall k :: 0 <= k < |order| ==> order[k] < |nodes|
    decreases |order|
  {
    if order == [] then []
    else
      var front := Pushed(nodes, order[..|order| - 1]);
      match EntryOf(nodes[Last(order)])
      case None => front
      case Some(e) => front + [e]
  }

  /** Every callback pushes at most once, and the list reaches one entry per callback
      exactly when every callback pushes, in which case it holds their entries in
      completion order. */
  lemma {:induction false} PushedAll(nodes: seq<Node>, order: seq<nat>)
    requires forall k :: 0 <= k < |order| ==> order[k] < |nodes|
    ensures |Pushed(nodes, order)| <= |order|
    ensures |Pushed(nodes, order)| == |order| <==>
      forall k :: 0 <= k < |order| ==> EntryOf(nodes[order[k]]).Some?
    ensures |Pushed(nodes, order)| == |order| ==>
      forall k :: 0 <= k < |order| ==> Pushed(nodes, order)[k] == EntryOf(nodes[order[k]]).value
    decreases |order|
  {
    if order != [] {
      var n := |order|;
      var front := order[..n - 1];
      PushedAll(nodes, front);
      var e := EntryOf(nodes[order[n - 1]]);
      if e.Some? {
        assert Pushed(nodes, order) == Pushed(nodes, front) + [e.value];
      } else {
        assert Pushed(nodes, order) == Pushed(nodes, front);
      }
    }
  }

  /** `getServersList`: a failed top-level listing rejects; otherwise each completing
      callback may push, and the callback whose push makes the list as long as the
      folder resolves the promise. Items that never push (files, unreadable
      directories) and an empty folder leave it pending for ever. */
  method GetServersList(listing: Listing, order: seq<nat>) returns (s: Settlement)
    requires listing.Entries? ==> IsCompletionOrder(order, |listing.nodes|)
    ensures listing.ReadFailed? ==> s == Rejected(FolderReadError(listing.reason))
    ensures listing.Entries? ==>
      (s.Resolved? <==> listing.nodes != [] && forall i :: 0 <= i < |listing.nodes| ==> EntryOf(listing.nodes[i]).Some?)
    ensures listing.Entries? && !s.Resolved? ==> s == Pending
    ensures s.Resolved? ==>
      && |s.servers| == |listing.nodes|
      && forall k :: 0 <= k < |s.servers| ==> s.servers[k] == EntryOf(listing.nodes[order[k]]).value
  {
    if listing.ReadFailed? {
      return Rejected(FolderReadError(listing.reason));
    }
    var nodes := listing.nodes;
    var serverList: seq<ServerEntry> := [];
    s := Pending;
    var k := 0;
    while k < |order|
      invariant 0 <= k <= |order|
      invariant serverList == Pushed(nodes, order[..k])
      invariant s == if serverList != [] && |serverList| == |nodes| then Resolved(serverList) else Pending
    {
      PushedAll(nodes, order[..k]);
      var entry := EntryOf(nodes[order[k]]);
      if entry.Some? {
        serverList := serverList + [entry.value];
        if |serverList| == |nodes| {
          s := Resolved(serverList);
        }
      }
      assert order[..k + 1][..k] == order[..k];
      k := k + 1;
    }
    assert order[..k] == order;
    PushedAll(nodes, order);
    if serverList != [] && |serverList| == |nodes| {
      forall i | 0 <= i < |nodes| ensures EntryOf(nodes[i]).Some? {
        assert i in order;
        var j :| 0 <= j < |order| && order[j] == i;
      }
    }
  }

  /** Some entry of `servers` carries `name`. */
  ghost predicate Lists(servers: seq<ServerEntry>, name: string) {
    exists k :: 0 <= k < |servers| && servers[k].name == name
  }

  /** Some item of the folder is called `name`. */
  ghost predicate Holds(nodes: seq<Node>, name: string) {
    exists i :: 0 <= i < |nodes| && nodes[i].name == name
  }

  /** A resolved list names every item of the folder, and nothing else. */
  lemma ResolvedListsEveryServer(nodes: seq<Node>, order: seq<nat>, servers: seq<ServerEntry>)
    requires IsCompletionOrder(order, |nodes|)
    requires |servers| == |nodes|
    requires forall k :: 0 <= k < |servers| ==> EntryOf(nodes[order[k]]).Some? && servers[k] == EntryOf(nodes[order[k]]).value
    ensures forall i :: 0 <= i < |nodes| ==> Lists(servers, nodes[i].name)
    ensures forall k :: 0 <= k < |servers| ==> Holds(nodes, servers[k].name)
  {
    forall i | 0 <= i < |nodes| ensures Lists(servers, nodes[i].name) {
      assert i in order;
      var k :| 0 <= k < |order| && order[k] == i;
      assert servers[k].name == nodes[i].name;
    }
    forall k | 0 <= k < |servers| ensures Holds(nodes, servers[k].name) {
      assert servers[k].name == nodes[order[k]].name;
    }
  }
}

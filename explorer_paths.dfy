/** The string and path decisions of the browser-side file explorer: the file
    extension, the whitelist of editable extensions, the icon table, joining a
    child onto the current path, the parent directory, and the breadcrumb text. */
module ExplorerPaths {
  import opened Wrappers
  import opened Strings

  /** One entry of a directory listing, as the file server returns it. */
  datatype Item = Item(name: string, isDirectory: bool)

  /** `getFileExtension`: the last piece of `fileName.split('.')`. */
  function FileExtension(fileName: string): string {
    Last(Split(fileName, '.'))
  }

  /** The extension is the text after the last dot, or the whole name when it has no dot. */
  lemma ExtensionAfterLastDot(fileName: string)
    ensures var e := FileExtension(fileName);
      && EndsWith(fileName, e)
      && '.' !in e
      && ('.' in fileName ==> |e| < |fileName| && fileName[|fileName| - |e| - 1] == '.')
      && ('.' !in fileName ==> e == fileName)
  {
    LastPiece(fileName, '.');
    SplitSingle(fileName, '.');
    var e := FileExtension(fileName);
    if '.' in fileName {
      assert e != fileName;
      assert fileName[|fileName| - |e|..] == e;
      assert fileName[0..] == fileName;
    }
  }

  /** The extensions the editor opens; the comparison is case-sensitive. */
  const SupportedExtensions: seq<string> := ["json", "txt", "properties", "log"]

  /** `isSupported` */
  predicate IsSupported(extension: string) {
    extension in SupportedExtensions
  }

  /** Every supported extension is already in lower case, so lowering first never
      rejects an extension that would otherwise have been accepted. */
  lemma {:induction false} SupportedIsLowerCase(extension: string)
    requires IsSupported(extension)
    ensures ToLower(extension) == extension
  {
    var i :| 0 <= i < |SupportedExtensions| && SupportedExtensions[i] == extension;
    assert forall k :: 0 <= k < |extension| ==> !('A' <= extension[k] <= 'Z') by {
      assert i == 0 || i == 1 || i == 2 || i == 3;
    }
  }

  /** The "unsupported" marking of a listed entry (`createFileItem`): files only,
      on the extension exactly as written. */
  predicate MarkedUnsupported(item: Item) {
    !item.isDirectory && !IsSupported(FileExtension(item.name))
  }

  /** What `openFile` tests: the lowered extension is supported. */
  predicate Openable(fileName: string) {
    IsSupported(ToLower(FileExtension(fileName)))
  }

  /** A file that is not marked unsupported always opens. */
  lemma UnmarkedFilesOpen(fileName: string)
    requires !MarkedUnsupported(Item(fileName, false))
    ensures Openable(fileName)
  {
    SupportedIsLowerCase(FileExtension(fileName));
  }

  /** The converse fails: a file such as `latest.LOG` is marked unsupported in the
      listing, because the mark compares the extension as written, yet `openFile`
      lowers it and opens the file. */
  lemma MarkedFileCanOpen(stem: string)
    requires '.' !in stem
    ensures MarkedUnsupported(Item(stem + ".LOG", false)) && Openable(stem + ".LOG")
  {
    assert stem + ".LOG" == stem + "." + "LOG";
    ExtensionAfterDot(stem, "LOG");
    LowerLog();
    assert SupportedExtensions[3] == "log";
    assert forall k :: 0 <= k < |SupportedExtensions| ==> SupportedExtensions[k] != "LOG";
  }

  /** The extension of `<stem>.<ext>` is `ext` when neither part holds a dot. */
  lemma ExtensionAfterDot(stem: string, ext: string)
    requires '.' !in stem && '.' !in ext
    ensures FileExtension(stem + "." + ext) == ext
  {
    SplitAround(stem, ext, '.');
    SplitSingle(stem, '.');
    SplitSingle(ext, '.');
    assert stem + "." + ext == stem + ['.'] + ext;
  }

  /** `"LOG".toLowerCase()` */
  lemma LowerLog()
    ensures ToLower("LOG") == "log"
  {
    var lowered := ToLower("LOG");
    assert lowered[0] == 'l' && lowered[1] == 'o' && lowered[2] == 'g';
  }

  const DefaultIcon := "img/file.png"
  const FolderIcon := "img/folder.png"

  /** The icon of each known extension, keyed by the lowered extension. */
  const IconTable: map<string, string> := map[
    "js" := "img/file-js.png",
    "json" := "img/file-json.png",
    "txt" := "img/file.png",
    "properties" := "img/file-setting.png",
    "log" := "img/file-log.png",
    "gz" := "img/file-compress.png",
    "jar" := "img/file-jar.png"
  ]

  /** `getIconPath`: look the lowered extension up in the table, default `img/file.png`. */
  function IconPath(fileName: string): (icon: string)
    ensures icon in IconTable.Values
  {
    var extension := ToLower(FileExtension(fileName));
    assert IconTable["txt"] == DefaultIcon;
    if extension in IconTable then IconTable[extension] else DefaultIcon
  }

  /** The icon does not depend on the case of the name. */
  lemma IconPathIgnoresCase(fileName: string)
    ensures IconPath(ToLower(fileName)) == IconPath(fileName)
  {
    LoweredExtension(fileName);
  }

  /** The lowered extension of a lowered name is the lowered extension of the name. */
  lemma LoweredExtension(fileName: string)
    ensures ToLower(FileExtension(ToLower(fileName))) == ToLower(FileExtension(fileName))
  {
    SplitToLower(fileName, '.');
    var lowered := Split(ToLower(fileName), '.');
    assert Last(lowered) == ToLower(Last(Split(fileName, '.')));
    ToLowerIdempotent(FileExtension(fileName));
  }

  /** The icon shown for a listed entry. */
  function ItemIcon(item: Item): (icon: string)
    ensures icon == FolderIcon || icon in IconTable.Values
  {
    if item.isDirectory then FolderIcon else IconPath(item.name)
  }

  /** The path of an entry of the current directory (`createFileItem`, `openFile`,
      `downloadFile`): the bare name at the empty path, otherwise joined with `/`. */
  function ChildPath(currentPath: string, name: string): string {
    if currentPath == "" then name else currentPath + "/" + name
  }

  /** `currentPath.split('/').slice(0, -1).join('/')` */
  function ParentPath(path: string): string {
    var parts := Split(path, '/');
    Join(parts[..|parts| - 1], '/')
  }

  /** A path is its parent, a `/`, and its last segment; a path without `/` has the
      empty parent. */
  lemma ParentAndLastSegment(path: string)
    ensures '/' !in path ==> ParentPath(path) == ""
    ensures '/' in path ==> path == ParentPath(path) + "/" + Last(Split(path, '/'))
    ensures StartsWith(path, ParentPath(path))
  {
    var parts := Split(path, '/');
    SplitSingle(path, '/');
    if '/' in path {
      JoinSplit(path, '/');
      JoinLast(parts, '/');
      var parent := ParentPath(path);
      Regroup(parent, "/", Last(parts));
      PrefixOfConcat(parent, "/" + Last(parts));
    } else {
      assert parts[..0] == [];
    }
  }

  lemma PrefixOfConcat(a: string, b: string)
    ensures StartsWith(a + b, a)
  {
    assert (a + b)[..|a|] == a;
  }

  /** The child's path extends the current path. */
  lemma ChildExtends(currentPath: string, name: string)
    ensures StartsWith(ChildPath(currentPath, name), currentPath)
  {
    if currentPath != "" {
      assert ChildPath(currentPath, name)[..|currentPath|] == currentPath;
    }
  }

  /** Going to the parent of a child entry returns to the directory it was listed in. */
  lemma ParentOfChild(currentPath: string, name: string)
    requires '/' !in name
    ensures ParentPath(ChildPath(currentPath, name)) == currentPath
  {
    SplitSingle(name, '/');
    if currentPath == "" {
      assert Split(name, '/')[..0] == [];
    } else {
      SplitAround(currentPath, name, '/');
      var parts := Split(currentPath, '/') + [name];
      assert ChildPath(currentPath, name) == currentPath + ['/'] + name;
      assert parts[..|parts| - 1] == Split(currentPath, '/');
      JoinSplit(currentPath, '/');
    }
  }

  /** The root with one trailing `/` removed. */
  function TrimTrailingSlash(root: string): string {
    if root != [] && Last(root) == '/' then root[..|root| - 1] else root
  }

  /** The capture of `/\/([^\/]+)\/?$/` on the root directory: its last non-empty
      segment, allowing one trailing `/`; `None` when the pattern does not match. */
  function RootName(root: string): Option<string> {
    var parts := Split(TrimTrailingSlash(root), '/');
    if |parts| >= 2 && Last(parts) != "" then Some(Last(parts)) else None
  }

  /** The pattern itself: `/`, then `name` (non-empty, no `/`), then an optional `/`, at the end. */
  ghost predicate PatternCaptures(root: string, name: string) {
    && name != ""
    && '/' !in name
    && (EndsWith(root, "/" + name) || EndsWith(root, "/" + name + "/"))
  }

  /** A `/`-free suffix that follows a `/` is the last segment. */
  lemma SegmentAfterSlash(t: string, name: string)
    requires EndsWith(t, "/" + name) && '/' !in name
    ensures |Split(t, '/')| >= 2 && Last(Split(t, '/')) == name
  {
    LastPiece(t, '/');
    var l := Last(Split(t, '/'));
    var n := |t|;
    assert t[n - |name| - 1] == '/' by {
      assert t[n - |name| - 1..] == "/" + name;
    }
    assert forall k :: n - |l| <= k < n ==> t[k] != '/' by {
      assert t[n - |l|..] == l;
    }
    assert forall k :: n - |name| <= k < n ==> t[k] != '/' by {
      assert t[n - |name|..] == name;
    }
    assert |l| == |name|;
    assert l == t[n - |name|..] == name;
  }

  /** A proper suffix preceded by `/` ends the string together with that `/`. */
  lemma SlashBeforeSuffix(t: string, l: string)
    requires EndsWith(t, l) && l != t
    requires |l| < |t| ==> t[|t| - |l| - 1] == '/'
    ensures EndsWith(t, "/" + l)
  {
    assert t[0..] == t;
    var k := |t| - |l| - 1;
    assert t[k..] == [t[k]] + t[k + 1..];
  }

  /** What `RootName` returns is what the pattern captures. */
  lemma RootNameCaptured(root: string)
    requires RootName(root).Some?
    ensures PatternCaptures(root, RootName(root).value)
  {
    var t := TrimTrailingSlash(root);
    var name := RootName(root).value;
    LastPiece(t, '/');
    SplitSingle(t, '/');
    SlashBeforeSuffix(t, name);
    if t != root {
      assert root == t + "/";
      assert root[|root| - |name| - 2..] == "/" + name + "/";
    }
  }

  /** Trimming the optional trailing `/` leaves the captured name right after a `/`. */
  lemma TrimmedEndsWithName(root: string, name: string)
    requires PatternCaptures(root, name)
    ensures EndsWith(TrimTrailingSlash(root), "/" + name)
  {
    var n := |root|;
    var m := |name|;
    if EndsWith(root, "/" + name) {
      var tail := root[n - m - 1..];
      assert tail == "/" + name;
      assert root[n - 1] == tail[m] == name[m - 1];
      assert name[m - 1] in name;
    } else {
      var tail := root[n - m - 2..];
      assert tail == "/" + name + "/";
      assert root[n - 1] == tail[m + 1] == '/';
      var t := root[..n - 1];
      assert TrimTrailingSlash(root) == t;
      assert t[|t| - m - 1..] == tail[..m + 1];
    }
  }

  /** Whatever the pattern captures, `RootName` returns. */
  lemma CaptureIsRootName(root: string, name: string)
    requires PatternCaptures(root, name)
    ensures RootName(root) == Some(name)
  {
    TrimmedEndsWithName(root, name);
    SegmentAfterSlash(TrimTrailingSlash(root), name);
  }

  /** `RootName` returns exactly the capture of the pattern, and `None` exactly when
      the pattern does not match (where `match(...)[1]` throws). */
  lemma RootNameIsCapture(root: string, name: string)
    ensures RootName(root) == Some(name) <==> PatternCaptures(root, name)
  {
    if RootName(root) == Some(name) {
      RootNameCaptured(root);
    }
    if PatternCaptures(root, name) {
      CaptureIsRootName(root, name);
    }
  }

  /** `.replace(/^\//, '')`: drop one leading `/`. */
  function TrimLeadingSlash(s: string): string {
    if s != [] && s[0] == '/' then s[1..] else s
  }

  /** `getBreadcrumbsDisplayPath`: `"error"` outside the root; otherwise the root's name,
      a `/`, and the rest of the path with one leading `/` dropped. `None` stands for
      the TypeError thrown when the root has no name for the pattern to capture. */
  function BreadcrumbsDisplayPath(currentPath: string, rootDirectory: string): Option<string> {
    if !StartsWith(currentPath, rootDirectory) then Some("error")
    else match RootName(rootDirectory)
      case None => None
      case Some(name) =>
        var displayPath := name + "/" + TrimLeadingSlash(currentPath[|rootDirectory|..]);
        Some(if displayPath == "" then "error" else displayPath)
  }

  /** The breadcrumbs throw exactly for a path inside a root the pattern cannot capture. */
  lemma BreadcrumbsThrowOnlyForUnnamedRoot(currentPath: string, rootDirectory: string)
    ensures BreadcrumbsDisplayPath(currentPath, rootDirectory).None?
      <==> StartsWith(currentPath, rootDirectory) && forall name :: !PatternCaptures(rootDirectory, name)
    ensures !StartsWith(currentPath, rootDirectory) ==> BreadcrumbsDisplayPath(currentPath, rootDirectory) == Some("error")
  {
    if BreadcrumbsDisplayPath(currentPath, rootDirectory).None? {
      forall name ensures !PatternCaptures(rootDirectory, name) {
        RootNameIsCapture(rootDirectory, name);
      }
    }
    if RootName(rootDirectory).Some? {
      RootNameIsCapture(rootDirectory, RootName(rootDirectory).value);
    }
  }

  /** At the root, the breadcrumbs are the root's name followed by `/`. */
  lemma BreadcrumbsAtRoot(rootDirectory: string, name: string)
    requires PatternCaptures(rootDirectory, name)
    ensures BreadcrumbsDisplayPath(rootDirectory, rootDirectory) == Some(name + "/")
  {
    CaptureIsRootName(rootDirectory, name);
    assert rootDirectory[..|rootDirectory|] == rootDirectory;
    assert rootDirectory[|rootDirectory|..] == "";
    assert TrimLeadingSlash("") == "";
    assert name + "/" + "" == name + "/";
  }

  /** Opening a directory of the root extends the breadcrumbs by its name. */
  lemma BreadcrumbsOfRootChild(rootDirectory: string, name: string, child: string)
    requires PatternCaptures(rootDirectory, name)
    ensures BreadcrumbsDisplayPath(ChildPath(rootDirectory, child), rootDirectory) == Some(name + "/" + child)
  {
    CaptureIsRootName(rootDirectory, name);
    var p := ChildPath(rootDirectory, child);
    var n := |rootDirectory|;
    assert p == rootDirectory + ("/" + child);
    assert p[..n] == rootDirectory;
    assert p[n..] == "/" + child;
    BreadcrumbsInside(p, rootDirectory, name);
  }

  /** Inside a named root, the breadcrumbs are the name, `/` and the rest of the path. */
  lemma BreadcrumbsInside(currentPath: string, rootDirectory: string, name: string)
    requires RootName(rootDirectory) == Some(name) && StartsWith(currentPath, rootDirectory)
    ensures BreadcrumbsDisplayPath(currentPath, rootDirectory)
      == Some(name + "/" + TrimLeadingSlash(currentPath[|rootDirectory|..]))
  {
    var displayPath := name + "/" + TrimLeadingSlash(currentPath[|rootDirectory|..]);
    assert |displayPath| == |name| + 1 + |TrimLeadingSlash(currentPath[|rootDirectory|..])|;
  }

  /** Below the root, a child's path continues the rest of its directory's path. */
  lemma ChildRest(currentPath: string, rootDirectory: string, child: string)
    requires StartsWith(currentPath, rootDirectory) && currentPath != rootDirectory
    ensures currentPath[|rootDirectory|..] != ""
    ensures StartsWith(ChildPath(currentPath, child), rootDirectory)
    ensures ChildPath(currentPath, child)[|rootDirectory|..] == currentPath[|rootDirectory|..] + "/" + child
  {
    var n := |rootDirectory|;
    var p := ChildPath(currentPath, child);
    assert currentPath[..|currentPath|] == currentPath;
    assert p == currentPath + ("/" + child);
    assert p[..n] == currentPath[..n];
    assert p[n..] == currentPath[n..] + ("/" + child);
  }

  /** Below the root, opening a directory appends `/` and its name to the breadcrumbs. */
  lemma BreadcrumbsOfChild(currentPath: string, rootDirectory: string, name: string, child: string)
    requires PatternCaptures(rootDirectory, name)
    requires StartsWith(currentPath, rootDirectory) && currentPath != rootDirectory
    ensures BreadcrumbsDisplayPath(currentPath, rootDirectory).Some?
    ensures BreadcrumbsDisplayPath(ChildPath(currentPath, child), rootDirectory)
      == Some(BreadcrumbsDisplayPath(currentPath, rootDirectory).value + "/" + child)
  {
    CaptureIsRootName(rootDirectory, name);
    ChildRest(currentPath, rootDirectory, child);
    var p := ChildPath(currentPath, child);
    var rest := currentPath[|rootDirectory|..];
    var tail := "/" + child;
    var before := name + "/" + TrimLeadingSlash(rest);
    BreadcrumbsInside(currentPath, rootDirectory, name);
    BreadcrumbsInside(p, rootDirectory, name);
    assert p[|rootDirectory|..] == rest + tail;
    TrimLeadingSlashAppend(rest, tail);
    Regroup(name + "/", TrimLeadingSlash(rest), tail);
    Regroup(before, "/", child);
  }

  lemma TrimLeadingSlashAppend(a: string, b: string)
    requires a != ""
    ensures TrimLeadingSlash(a + b) == TrimLeadingSlash(a) + b
  {
    assert (a + b)[0] == a[0];
    if a[0] == '/' {
      assert (a + b)[1..] == a[1..] + b;
    }
  }
}

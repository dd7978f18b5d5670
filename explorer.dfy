/** The browser-side file explorer (`FileExplorer`): the current directory, the
    breadcrumbs and back button it shows, and the requests it sends to the file
    server. Each fetch's outcome is a parameter: `None` for a failed request (a
    rejected fetch, a non-OK status or unreadable JSON), `Some` for the body. */
module Explorer {
  import opened Wrappers
  import opened Strings
  import opened ExplorerPaths

  /** What the content area shows. */
  datatype View =
    | Blank
    | Listing(items: seq<Item>)
    | Editor(filePath: string, content: string)

  function ListUrl(path: string): string { "/file_explorer/files/" + path }
  function ContentUrl(path: string): string { "/file_explorer/file-content/" + path }
  function DownloadUrl(path: string): string { "/file_explorer/download/" + path }

  function CannotOpenMessage(extension: string): string { "Can't open ." + extension + " files" }
  const DownloadFailedMessage := "Erreur lors du téléchargement du fichier"

  class FileExplorer {
    /** The `rootDirectory` query parameter of the page. */
    const rootDirectory: string
    var currentPath: string
    var breadcrumbs: string
    var view: View
    var backButtonShown: bool
    /** The URLs fetched so far, in order. */
    var requests: seq<string>
    /** The popup messages shown so far, in order. */
    var popups: seq<string>

    /** The current directory never leaves the root prefix. */
    predicate InsideRoot()
      reads this
    {
      StartsWith(currentPath, rootDirectory)
    }

    /** The state after `loadFiles(path)`: the request is sent; on success the current
        path is set first, and the breadcrumbs, listing and back button follow only
        when the breadcrumbs do not throw. */
    twostate predicate Loaded(path: string, response: Option<seq<Item>>)
      reads this
    {
      && requests == old(requests) + [ListUrl(path)]
      && popups == old(popups)
      && currentPath == (if response.Some? then path else old(currentPath))
      && if response.Some? && BreadcrumbsDisplayPath(path, rootDirectory).Some? then
           && breadcrumbs == BreadcrumbsDisplayPath(path, rootDirectory).value
           && view == Listing(response.value)
           && backButtonShown == (path != rootDirectory)
         else
           && breadcrumbs == old(breadcrumbs)
           && view == old(view)
           && backButtonShown == old(backButtonShown)
    }

    /** The constructor starts at the empty path and loads the root directory. It never
        sets the back button itself: `pageShowsBackButton` is how the page styles it. */
    constructor (root: string, pageShowsBackButton: bool, firstResponse: Option<seq<Item>>)
      ensures rootDirectory == root
      ensures requests == [ListUrl(root)] && popups == []
      ensures currentPath == if firstResponse.Some? then root else ""
      ensures firstResponse.Some? && BreadcrumbsDisplayPath(root, root).Some? ==>
        breadcrumbs == BreadcrumbsDisplayPath(root, root).value && view == Listing(firstResponse.value)
      ensures backButtonShown ==
        if firstResponse.Some? && BreadcrumbsDisplayPath(root, root).Some? then false else pageShowsBackButton
    {
      rootDirectory := root;
      currentPath := "";
      breadcrumbs := "";
      view := Blank;
      backButtonShown := pageShowsBackButton;
      requests := [];
      popups := [];
      new;
      LoadFiles(root, firstResponse);
    }

    /** `loadFiles(path)` */
    method LoadFiles(path: string, response: Option<seq<Item>>)
      modifies this
      ensures Loaded(path, response)
    {
      requests := requests + [ListUrl(path)];
      if response.None? {
        return;
      }
      currentPath := path;
      var crumbs := BreadcrumbsDisplayPath(currentPath, rootDirectory);
      if crumbs.None? {
        return;
      }
      breadcrumbs := crumbs.value;
      view := Listing(response.value);
      backButtonShown := currentPath != rootDirectory;
    }

    /** `navigateToParentDirectory`: at the root, reload it; otherwise load the parent,
        but only when the parent still starts with the root. */
    method NavigateToParentDirectory(response: Option<seq<Item>>)
      modifies this
      ensures old(currentPath) == rootDirectory ==> Loaded(rootDirectory, response)
      ensures old(currentPath) != rootDirectory && StartsWith(ParentPath(old(currentPath)), rootDirectory)
        ==> Loaded(ParentPath(old(currentPath)), response)
      ensures old(currentPath) != rootDirectory && !StartsWith(ParentPath(old(currentPath)), rootDirectory)
        ==> unchanged(this)
      ensures currentPath == old(currentPath) || currentPath == ParentPath(old(currentPath))
      ensures old(InsideRoot()) ==> InsideRoot()
    {
      if currentPath == rootDirectory {
        assert currentPath[..|rootDirectory|] == rootDirectory;
        LoadFiles(currentPath, response);
        return;
      }
      var parentPath := ParentPath(currentPath);
      if StartsWith(parentPath, rootDirectory) {
        LoadFiles(parentPath, response);
      }
    }

    /** The state after `openFile(name)`: an unsupported lowered
        extension shows a popup and sends nothing; otherwise the content is requested
        and, on success, shown in the editor. The current path never changes. */
    twostate predicate Opened(name: string, content: Option<string>)
      reads this
    {
      var filePath := ChildPath(old(currentPath), name);
      && currentPath == old(currentPath)
      && if !Openable(name) then
           && popups == old(popups) + [CannotOpenMessage(ToLower(FileExtension(name)))]
           && requests == old(requests)
           && breadcrumbs == old(breadcrumbs) && view == old(view)
           && backButtonShown == old(backButtonShown)
         else
           && popups == old(popups)
           && requests == old(requests) + [ContentUrl(filePath)]
           && if content.Some? then
                && breadcrumbs == (if filePath == "" then "unknown" else filePath)
                && view == Editor(filePath, content.value)
                && backButtonShown == (filePath != "")
              else
                && breadcrumbs == old(breadcrumbs) && view == old(view)
                && backButtonShown == old(backButtonShown)
    }

    /** `openFile` */
    method OpenFile(name: string, content: Option<string>)
      modifies this
      ensures Opened(name, content)
    {
      var filePath := ChildPath(currentPath, name);
      var extension := ToLower(FileExtension(name));
      if !IsSupported(extension) {
        popups := popups + [CannotOpenMessage(extension)];
        return;
      }
      requests := requests + [ContentUrl(filePath)];
      if content.Some? {
        breadcrumbs := if filePath == "" then "unknown" else filePath;
        view := Editor(filePath, content.value);
        backButtonShown := filePath != "";
      }
    }

    /** `downloadFile`: request the entry; a failed request shows a popup. */
    method DownloadFile(name: string, succeeded: bool)
      modifies this
      ensures requests == old(requests) + [DownloadUrl(ChildPath(old(currentPath), name))]
      ensures popups == old(popups) + (if succeeded then [] else [DownloadFailedMessage])
      ensures currentPath == old(currentPath) && breadcrumbs == old(breadcrumbs)
      ensures view == old(view) && backButtonShown == old(backButtonShown)
    {
      requests := requests + [DownloadUrl(ChildPath(currentPath, name))];
      if !succeeded {
        popups := popups + [DownloadFailedMessage];
      }
    }

    /** The click handler of a listed entry (`createFileItem`): a directory is loaded
        below the current path, a file is opened. */
    method ClickItem(item: Item, listing: Option<seq<Item>>, content: Option<string>)
      modifies this
      ensures item.isDirectory ==> Loaded(ChildPath(old(currentPath), item.name), listing)
      ensures !item.isDirectory ==> Opened(item.name, content)
      ensures old(InsideRoot()) ==> InsideRoot()
    {
      if item.isDirectory {
        ChildExtends(currentPath, item.name);
        if InsideRoot() {
          StartsWithTransitive(ChildPath(currentPath, item.name), currentPath, rootDirectory);
        }
        LoadFiles(ChildPath(currentPath, item.name), listing);
      } else {
        OpenFile(item.name, content);
      }
    }
  }
}

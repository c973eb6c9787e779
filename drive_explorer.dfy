/**
 * The navigation state of the frontend explorer hook (`useDriveExplorer`):
 * a breadcrumb trail that starts at Home, grows by one crumb when a folder is
 * opened and is cut back to a prefix when a crumb is clicked, together with
 * the requests the hook issues and the query parameters each request carries.
 * The request itself (fetch, JSON, loading and error flags) is not modelled.
 */
module DriveExplorer {
  import opened Wrappers
  import opened Drive
  import opened StringUtils

  /** One breadcrumb: a folder id (`null` for the top level) and its display name. */
  datatype Crumb = Crumb(id: Option<string>, name: string)

  const Home: Crumb := Crumb(None, "Home")

  /** One call of `fetchItems(folderId, queryText)`. */
  datatype Request = Request(folderId: Option<string>, queryText: string)

  /** What clicking a file does: open its link in a new tab, or alert that there is none. */
  datatype FileAction = OpenLink(url: string) | NoPreviewAlert

  /** A JavaScript string is truthy when it is present and not empty. */
  predicate Truthy(s: Option<string>)
  {
    s.Some? && s.value != ""
  }

  /**
   * The `URLSearchParams` built by `fetchItems`: `folder_id` when the folder id is
   * truthy, then `query` when the normalised query text is non-empty.
   */
  function RequestParams(req: Request): (r: seq<(string, string)>)
    ensures |r| <= 2
    ensures forall v :: ("folder_id", v) in r <==> Truthy(req.folderId) && v == req.folderId.value
    ensures forall v :: ("query", v) in r <==> v != "" && v == NormalizeQuery(req.queryText)
    ensures forall i :: 0 <= i < |r| ==> r[i].0 in {"folder_id", "query"}
    ensures r != [] && r[0].0 == "query" ==> !Truthy(req.folderId)
  {
    var normalized := if req.queryText != "" then NormalizeQuery(req.queryText) else "";
    (if Truthy(req.folderId) then [("folder_id", req.folderId.value)] else [])
    + (if normalized != "" then [("query", normalized)] else [])
  }

  /** A query that normalises to nothing is not sent: searching for it lists the folder. */
  lemma BlankQueryNotSent(id: Option<string>, q: string)
    requires NormalizeQuery(q) == ""
    ensures RequestParams(Request(id, q)) == RequestParams(Request(id, ""))
  {
  }

  /** Opening a folder: the trail gains that folder at its end. */
  function Pushed(crumbs: seq<Crumb>, folder: DriveFile): (r: seq<Crumb>)
    ensures |r| == |crumbs| + 1 && r[..|crumbs|] == crumbs
    ensures Current(r) == Some(folder.id)
  {
    crumbs + [Crumb(Some(folder.id), folder.name)]
  }

  /** Clicking crumb `index`: the trail up to and including it. */
  function Truncated(crumbs: seq<Crumb>, index: nat): (r: seq<Crumb>)
    requires index < |crumbs|
    ensures |r| == index + 1
    ensures forall i :: 0 <= i <= index ==> r[i] == crumbs[i]
  {
    crumbs[..index + 1]
  }

  /** The folder the explorer shows: the id of the last crumb. */
  function Current(crumbs: seq<Crumb>): Option<string>
    requires crumbs != []
  {
    crumbs[|crumbs| - 1].id
  }

  /** A trail the explorer can be in: non-empty and rooted at Home. */
  predicate Rooted(crumbs: seq<Crumb>)
  {
    crumbs != [] && crumbs[0] == Home
  }

  /** Both transitions keep the trail rooted at Home. */
  lemma TransitionsKeepRooted(crumbs: seq<Crumb>, folder: DriveFile, index: nat)
    requires Rooted(crumbs) && index < |crumbs|
    ensures Rooted(Pushed(crumbs, folder))
    ensures Rooted(Truncated(crumbs, index)) && Current(Truncated(crumbs, index)) == crumbs[index].id
  {
  }

  /** Clicking the crumb before a newly opened folder returns to the trail as it was. */
  lemma BackAfterPush(crumbs: seq<Crumb>, folder: DriveFile)
    requires crumbs != []
    ensures Truncated(Pushed(crumbs, folder), |crumbs| - 1) == crumbs
  {
    var p := Pushed(crumbs, folder);
    assert p[..|crumbs|] == crumbs;
  }

  /** Clicking the last crumb keeps the trail; clicking two crumbs in turn is clicking the earlier one. */
  lemma TruncatedTwice(crumbs: seq<Crumb>, i: nat, j: nat)
    requires j <= i < |crumbs|
    ensures Truncated(crumbs, |crumbs| - 1) == crumbs
    ensures Truncated(Truncated(crumbs, i), j) == Truncated(crumbs, j)
  {
  }

  class Explorer {
    /** The `breadcrumbs` state. */
    var breadcrumbs: seq<Crumb>
    /** The `fetchItems` calls issued so far, oldest first. */
    var requests: seq<Request>

    ghost predicate Valid()
      reads this
    {
      Rooted(breadcrumbs)
    }

    /** Mounting the hook: the trail is Home alone and the top level is requested. */
    constructor()
      ensures Valid()
      ensures breadcrumbs == [Home]
      ensures requests == [Request(None, "")]
    {
      breadcrumbs := [Home];
      requests := [Request(None, "")];
    }

    /** `handleFolderClick`: only an item of the folder MIME type is opened. */
    method HandleFolderClick(folder: DriveFile)
      requires Valid()
      modifies this
      ensures Valid()
      ensures folder.mimeType == FolderMimeType ==>
        breadcrumbs == Pushed(old(breadcrumbs), folder)
        && requests == old(requests) + [Request(Some(folder.id), "")]
      ensures folder.mimeType != FolderMimeType ==>
        breadcrumbs == old(breadcrumbs) && requests == old(requests)
    {
      if folder.mimeType == FolderMimeType {
        breadcrumbs := Pushed(breadcrumbs, folder);
        requests := requests + [Request(Some(folder.id), "")];
      }
    }

    /** `handleFileClick`: the link when there is a truthy one, the alert otherwise. Nothing else changes. */
    method HandleFileClick(item: DriveFile) returns (action: FileAction)
      ensures Truthy(item.webViewLink) ==> action == OpenLink(item.webViewLink.value)
      ensures !Truthy(item.webViewLink) ==> action == NoPreviewAlert
    {
      if Truthy(item.webViewLink) {
        action := OpenLink(item.webViewLink.value);
      } else {
        action := NoPreviewAlert;
      }
    }

    /** `handleItemClick`: folders are opened, any other item is handled as a file and leaves the state alone. */
    method HandleItemClick(item: DriveFile) returns (action: Option<FileAction>)
      requires Valid()
      modifies this
      ensures Valid()
      ensures item.mimeType == FolderMimeType ==>
        action == None
        && breadcrumbs == Pushed(old(breadcrumbs), item)
        && requests == old(requests) + [Request(Some(item.id), "")]
      ensures item.mimeType != FolderMimeType ==>
        action.Some?
        && (Truthy(item.webViewLink) ==> action.value == OpenLink(item.webViewLink.value))
        && (!Truthy(item.webViewLink) ==> action.value == NoPreviewAlert)
        && breadcrumbs == old(breadcrumbs) && requests == old(requests)
    {
      if item.mimeType == FolderMimeType {
        HandleFolderClick(item);
        action := None;
      } else {
        var a := HandleFileClick(item);
        action := Some(a);
      }
    }

    /** `handleBreadcrumbClick`: the trail is cut back to the clicked crumb, whose folder is requested. */
    method HandleBreadcrumbClick(index: nat)
      requires Valid() && index < |breadcrumbs|
      modifies this
      ensures Valid()
      ensures breadcrumbs == Truncated(old(breadcrumbs), index)
      ensures requests == old(requests) + [Request(old(breadcrumbs)[index].id, "")]
      ensures requests[|requests| - 1].folderId == Current(breadcrumbs)
    {
      var newBreadcrumbs := Truncated(breadcrumbs, index);
      breadcrumbs := newBreadcrumbs;
      requests := requests + [Request(newBreadcrumbs[index].id, "")];
    }

    /** `refresh`: the current folder is requested again; the trail is unchanged. */
    method Refresh()
      requires Valid()
      modifies this
      ensures Valid()
      ensures breadcrumbs == old(breadcrumbs)
      ensures requests == old(requests) + [Request(Current(breadcrumbs), "")]
    {
      var currentFolderId := Current(breadcrumbs);
      requests := requests + [Request(currentFolderId, "")];
    }

    /** `search`: the current folder is requested with the query text; the trail is unchanged. */
    method Search(query: string)
      requires Valid()
      modifies this
      ensures Valid()
      ensures breadcrumbs == old(breadcrumbs)
      ensures requests == old(requests) + [Request(Current(breadcrumbs), query)]
    {
      var currentFolderId := Current(breadcrumbs);
      requests := requests + [Request(currentFolderId, query)];
    }
  }

  /** Opening a folder and then clicking the crumb before it restores the trail and requests the folder shown before. */
  method OpenThenBack(e: Explorer, folder: DriveFile)
    requires e.Valid() && folder.mimeType == FolderMimeType
    modifies e
    ensures e.Valid()
    ensures e.breadcrumbs == old(e.breadcrumbs)
    ensures |e.requests| == |old(e.requests)| + 2
    ensures e.requests[|e.requests| - 1] == Request(Current(old(e.breadcrumbs)), "")
  {
    var n := |e.breadcrumbs|;
    e.HandleFolderClick(folder);
    BackAfterPush(old(e.breadcrumbs), folder);
    e.HandleBreadcrumbClick(n - 1);
  }
}

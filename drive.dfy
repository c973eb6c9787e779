/**
 * The remote file store as the backend sees it: paged child-folder listings that
 * may fail part-way, file resources returned by searches, and the graph notions
 * both folder traversals are judged by.
 */
module Drive {
  import opened Wrappers
  import opened Seqs

  const FolderMimeType := "application/vnd.google-apps.folder"
  const PdfMimeType := "application/pdf"

  /** One entry of a child-folder listing: the `id` and `name` fields of a file resource. */
  datatype Child = Child(id: string, name: string)

  /**
   * What listing one folder's subfolders yields: the pages that are served, in order,
   * and whether the request that follows the last of them raises.
   */
  datatype Listing = Listing(pages: seq<seq<Child>>, failsAfter: bool)

  /** The remote store: each folder's listing. A folder with no entry has no subfolders. */
  type Remote = map<string, Listing>

  /** One successful page: its files and whether a `nextPageToken` came with it. */
  datatype Page = Page(files: seq<Child>, hasNext: bool)

  /** A file resource as returned by a search (`files(id, name, mimeType, webViewLink)`). */
  datatype DriveFile = DriveFile(id: string, name: string, mimeType: string, webViewLink: Option<string>)

  function ListingOf(remote: Remote, id: string): Listing
  {
    if id in remote then remote[id] else Listing([], false)
  }

  /**
   * The response to the request for page number `k` of a listing: the k-th page, with a
   * continuation token exactly when another page or the failure follows; `None` when
   * that request raises.
   */
  function Fetch(l: Listing, k: nat): (r: Option<Page>)
    ensures r.None? <==> k >= |l.pages| && l.failsAfter
    ensures r.Some? && r.value.hasNext ==> k < |l.pages|
  {
    if k < |l.pages| then Some(Page(l.pages[k], k + 1 < |l.pages| || l.failsAfter))
    else if l.failsAfter then None
    else Some(Page([], false))
  }

  /** Every child listed: the concatenation of the pages served. */
  function Listed(l: Listing): seq<Child>
  {
    Concat(l.pages)
  }

  /**
   * The files gathered by a client that starts at request `k` and keeps requesting the
   * next page while a continuation token comes back, stopping at the first failure.
   */
  function Collected(l: Listing, k: nat): seq<Child>
    decreases |l.pages| - k
  {
    match Fetch(l, k)
    case None => []
    case Some(p) => p.files + (if p.hasNext then Collected(l, k + 1) else [])
  }

  /**
   * The paging protocol delivers every served page exactly once and in order, whether
   * or not a failure follows the last one: the children enqueued before a failure are kept.
   */
  lemma {:induction false} CollectedFrom(l: Listing, k: nat)
    requires k <= |l.pages|
    ensures Collected(l, k) == Concat(l.pages[k..])
    decreases |l.pages| - k
  {
    if k < |l.pages| {
      if k + 1 < |l.pages| || l.failsAfter {
        CollectedFrom(l, k + 1);
      } else {
        assert l.pages[k + 1..] == [];
      }
      assert l.pages[k..] == [l.pages[k]] + l.pages[k + 1..];
      ConcatAppend([l.pages[k]], l.pages[k + 1..]);
      ConcatSingle(l.pages[k]);
    } else {
      assert l.pages[k..] == [];
    }
  }

  /** A served page is followed by the rest of the listing exactly when it carries a continuation token. */
  lemma CollectedUnfold(l: Listing, k: nat)
    requires Fetch(l, k).Some?
    ensures Collected(l, k) == Fetch(l, k).value.files
                               + (if Fetch(l, k).value.hasNext then Collected(l, k + 1) else [])
  {
  }

  /** A failing request ends the listing. */
  lemma CollectedFails(l: Listing, k: nat)
    requires Fetch(l, k).None?
    ensures Collected(l, k) == []
  {
  }

  /** One step of the paging protocol: a served page, then the rest if a token came back. */
  lemma CollectedStep(l: Listing, k: nat, acc: seq<Child>)
    requires Fetch(l, k).Some?
    requires acc + Collected(l, k) == Listed(l)
    ensures Fetch(l, k).value.hasNext ==> (acc + Fetch(l, k).value.files) + Collected(l, k + 1) == Listed(l)
    ensures !Fetch(l, k).value.hasNext ==> acc + Fetch(l, k).value.files == Listed(l)
  {
    var p := Fetch(l, k).value;
    if p.hasNext {
      assert Collected(l, k) == p.files + Collected(l, k + 1);
      assert acc + (p.files + Collected(l, k + 1)) == (acc + p.files) + Collected(l, k + 1);
    } else {
      assert Collected(l, k) == p.files + [];
      assert p.files + [] == p.files;
    }
  }

  lemma CollectedAll(l: Listing)
    ensures Collected(l, 0) == Listed(l)
  {
    CollectedFrom(l, 0);
    assert l.pages[0..] == l.pages;
  }

  /** The children of `id` in the remote store, in listing order. */
  function ChildrenOf(remote: Remote, id: string): seq<Child>
  {
    Listed(ListingOf(remote, id))
  }

  function Ids(kids: seq<Child>): (r: seq<string>)
    ensures |r| == |kids|
    ensures forall i :: 0 <= i < |kids| ==> r[i] == kids[i].id
  {
    seq(|kids|, i requires 0 <= i < |kids| => kids[i].id)
  }

  function ChildIds(remote: Remote, id: string): seq<string>
  {
    Ids(ChildrenOf(remote, id))
  }

  /** Position `j` of `order` is a child of some folder listed before it. */
  ghost predicate ListedBefore(remote: Remote, order: seq<string>, j: nat)
    requires j < |order|
  {
    exists i :: 0 <= i < j && order[j] in ChildIds(remote, order[i])
  }

  /** Every folder after the first was listed as a child of an earlier one. */
  ghost predicate ParentsPrecede(remote: Remote, order: seq<string>)
  {
    forall j :: 0 < j < |order| ==> ListedBefore(remote, order, j)
  }

  /** Every listed child of a folder in `order` is itself in `order`. */
  ghost predicate Closed(remote: Remote, order: seq<string>)
  {
    forall i, c :: 0 <= i < |order| && c in ChildIds(remote, order[i]) ==> c in order
  }

  /** The hits of a sequence of sub-requests, in request order; a failed one adds nothing. */
  function Responses(queries: seq<string>, respond: string -> Option<seq<DriveFile>>): seq<DriveFile>
  {
    if queries == [] then []
    else Responses(queries[..|queries| - 1], respond) + respond(queries[|queries| - 1]).GetOr([])
  }

  lemma {:induction false} ResponsesAppend(a: seq<string>, b: seq<string>, respond: string -> Option<seq<DriveFile>>)
    ensures Responses(a + b, respond) == Responses(a, respond) + Responses(b, respond)
    decreases |b|
  {
    if b == [] {
      assert a + b == a;
    } else {
      var b' := b[..|b| - 1];
      assert (a + b)[..|a + b| - 1] == a + b';
      ResponsesAppend(a, b', respond);
    }
  }

  /** Failure isolation: a failing sub-request contributes nothing and leaves the others' hits as they were. */
  lemma FailedResponseIsolated(a: seq<string>, q: string, b: seq<string>, respond: string -> Option<seq<DriveFile>>)
    requires respond(q).None?
    ensures Responses(a + [q] + b, respond) == Responses(a, respond) + Responses(b, respond)
  {
    ResponsesAppend(a + [q], b, respond);
    assert (a + [q])[..|a + [q]| - 1] == a;
  }

  /** A successful sub-request contributes exactly its files, between the hits before and after it. */
  lemma ResponseContributes(a: seq<string>, q: string, b: seq<string>, respond: string -> Option<seq<DriveFile>>)
    requires respond(q).Some?
    ensures Responses(a + [q] + b, respond) == Responses(a, respond) + respond(q).value + Responses(b, respond)
  {
    ResponsesAppend(a + [q], b, respond);
    assert (a + [q])[..|a + [q]| - 1] == a;
  }

  /**
   * Two walks that start at the same folder reach the same folders: if every folder of
   * `a` after the first is listed by an earlier one and `b` contains every listed child
   * of each of its folders, then every folder of `a` is in `b`.
   */
  lemma {:induction false} ReachedWithin(remote: Remote, a: seq<string>, b: seq<string>, j: nat)
    requires ParentsPrecede(remote, a) && Closed(remote, b)
    requires a != [] && a[0] in b
    requires j < |a|
    ensures a[j] in b
  {
    if j > 0 {
      assert ListedBefore(remote, a, j);
      var i :| 0 <= i < j && a[j] in ChildIds(remote, a[i]);
      ReachedWithin(remote, a, b, i);
      var i' :| 0 <= i' < |b| && b[i'] == a[i];
      assert a[j] in ChildIds(remote, b[i']);
    }
  }

  lemma SameFolders(remote: Remote, a: seq<string>, b: seq<string>)
    requires ParentsPrecede(remote, a) && Closed(remote, a)
    requires ParentsPrecede(remote, b) && Closed(remote, b)
    requires a != [] && b != [] && a[0] == b[0]
    ensures forall x :: x in a <==> x in b
  {
    forall j | 0 <= j < |a| ensures a[j] in b {
      ReachedWithin(remote, a, b, j);
    }
    forall j | 0 <= j < |b| ensures b[j] in a {
      ReachedWithin(remote, b, a, j);
    }
  }
}

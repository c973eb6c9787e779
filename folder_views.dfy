/**
 * The recursive-search path of the folder view: `list_all_folder_ids` (a recursive
 * pre-order collection of folder ids through paged listings, with no visited set),
 * the keyword condition built from the query text, the per-folder PDF query and the
 * loop that runs it for every folder.
 */
module FolderViews {
  import opened Wrappers
  import opened Seqs
  import opened Text
  import opened Drive
  import FolderCache

  // ---------------------------------------------------------------------------
  // list_all_folder_ids

  /**
   * Every listed child has a smaller rank than the folder listing it, so the child
   * relation has no cycle. The recursion of `list_all_folder_ids` stops only then.
   */
  ghost predicate Acyclic(remote: Remote, rank: string -> nat)
  {
    forall p, i :: 0 <= i < |ChildrenOf(remote, p)| ==> rank(ChildrenOf(remote, p)[i].id) < rank(p)
  }

  /** Every child in `kids` ranks below `bound`. */
  ghost predicate Below(rank: string -> nat, bound: nat, kids: seq<Child>)
  {
    forall i :: 0 <= i < |kids| ==> rank(kids[i].id) < bound
  }

  /** The ids `list_all_folder_ids(p)` returns: `p`, then for each listed child in order its own list. */
  function PreOrder(remote: Remote, rank: string -> nat, p: string): (r: seq<string>)
    requires Acyclic(remote, rank)
    ensures r != [] && r[0] == p
    decreases rank(p), 1
  {
    [p] + Forest(remote, rank, p, ChildrenOf(remote, p))
  }

  /** The lists of the children `kids` of `p`, one after another. */
  function Forest(remote: Remote, rank: string -> nat, p: string, kids: seq<Child>): seq<string>
    requires Acyclic(remote, rank) && Below(rank, rank(p), kids)
    decreases rank(p), 0, |kids|
  {
    if kids == [] then [] else PreOrder(remote, rank, kids[0].id) + Forest(remote, rank, p, kids[1..])
  }

  lemma BelowSplit(rank: string -> nat, bound: nat, a: seq<Child>, b: seq<Child>)
    requires Below(rank, bound, a + b)
    ensures Below(rank, bound, a) && Below(rank, bound, b)
  {
    assert forall i :: 0 <= i < |a| ==> a[i] == (a + b)[i];
    assert forall i :: 0 <= i < |b| ==> b[i] == (a + b)[|a| + i];
  }

  /**
   * `list_all_folder_ids`: the folder itself, then page after page of its subfolder
   * listing, each subfolder followed at once by everything below it. A failing request
   * ends the listing and keeps what was collected.
   */
  method ListAllFolderIds(remote: Remote, parentId: string, ghost rank: string -> nat) returns (folderIds: seq<string>)
    requires Acyclic(remote, rank)
    ensures folderIds == PreOrder(remote, rank, parentId)
    decreases rank(parentId), 1
  {
    folderIds := [parentId];
    var listing := ListingOf(remote, parentId);
    var pageIndex: nat := 0;
    ghost var target := PreOrder(remote, rank, parentId);
    ghost var rest := Collected(listing, 0);
    CollectedAll(listing);
    while true
      invariant rest == Collected(listing, pageIndex)
      invariant Below(rank, rank(parentId), rest)
      invariant folderIds + Forest(remote, rank, parentId, rest) == target
      decreases |listing.pages| - pageIndex
    {
      var response := Fetch(listing, pageIndex);
      if response.None? {
        CollectedFails(listing, pageIndex);
        assert folderIds + [] == folderIds;
        break;
      }
      var subfolders := response.value.files;
      ghost var later := if response.value.hasNext then Collected(listing, pageIndex + 1) else [];
      CollectedUnfold(listing, pageIndex);
      folderIds := AppendSubtrees(remote, parentId, subfolders, later, rank, folderIds);
      if !response.value.hasNext {
        assert folderIds + [] == folderIds;
        break;
      }
      pageIndex := pageIndex + 1;
      rest := later;
    }
  }

  /** The `for sub in subfolders` loop of one page: each subfolder's own list is appended in turn. */
  method AppendSubtrees(remote: Remote, parentId: string, subfolders: seq<Child>, ghost later: seq<Child>,
                        ghost rank: string -> nat, prefix: seq<string>) returns (folderIds: seq<string>)
    requires Acyclic(remote, rank) && Below(rank, rank(parentId), subfolders + later)
    ensures Below(rank, rank(parentId), later)
    ensures folderIds + Forest(remote, rank, parentId, later)
            == prefix + Forest(remote, rank, parentId, subfolders + later)
    decreases rank(parentId), 0
  {
    folderIds := prefix;
    assert subfolders[0..] == subfolders;
    for i := 0 to |subfolders|
      invariant Below(rank, rank(parentId), subfolders[i..] + later)
      invariant folderIds + Forest(remote, rank, parentId, subfolders[i..] + later)
                == prefix + Forest(remote, rank, parentId, subfolders + later)
    {
      ForestStep(remote, rank, parentId, subfolders, later, i);
      var sub := ListAllFolderIds(remote, subfolders[i].id, rank);
      ghost var before := folderIds;
      folderIds := folderIds + sub;
      assert folderIds + Forest(remote, rank, parentId, subfolders[i + 1..] + later)
          == before + (sub + Forest(remote, rank, parentId, subfolders[i + 1..] + later));
    }
    assert subfolders[|subfolders|..] + later == later;
  }

  /** The next subfolder of a page: its list comes first, then the lists of the rest. */
  lemma ForestStep(remote: Remote, rank: string -> nat, p: string, page: seq<Child>, later: seq<Child>, i: nat)
    requires Acyclic(remote, rank) && i < |page|
    requires Below(rank, rank(p), page[i..] + later)
    ensures rank(page[i].id) < rank(p)
    ensures Below(rank, rank(p), page[i + 1..] + later)
    ensures Forest(remote, rank, p, page[i..] + later)
            == PreOrder(remote, rank, page[i].id) + Forest(remote, rank, p, page[i + 1..] + later)
  {
    var pending := page[i..] + later;
    assert pending[0] == page[i];
    assert pending[1..] == page[i + 1..] + later;
  }

  /** A folder is in the forest of `kids` exactly when it is in the list of one of them. */
  lemma {:induction false} ForestMember(remote: Remote, rank: string -> nat, p: string, kids: seq<Child>, x: string)
    requires Acyclic(remote, rank) && Below(rank, rank(p), kids)
    ensures x in Forest(remote, rank, p, kids) <==> exists m :: 0 <= m < |kids| && x in PreOrder(remote, rank, kids[m].id)
    decreases |kids|
  {
    if kids != [] {
      ForestMember(remote, rank, p, kids[1..], x);
      if x in Forest(remote, rank, p, kids[1..]) {
        var m :| 0 <= m < |kids| - 1 && x in PreOrder(remote, rank, kids[1..][m].id);
        assert kids[1..][m] == kids[m + 1];
      }
      forall m | 1 <= m < |kids| && x in PreOrder(remote, rank, kids[m].id)
        ensures x in Forest(remote, rank, p, kids[1..])
      {
        assert kids[1..][m - 1] == kids[m];
      }
    }
  }

  /** Every listed child of a collected folder is collected too. */
  lemma {:induction false} PreOrderClosed(remote: Remote, rank: string -> nat, p: string, x: string, c: string)
    requires Acyclic(remote, rank)
    requires x in PreOrder(remote, rank, p) && c in ChildIds(remote, x)
    ensures c in PreOrder(remote, rank, p)
    decreases rank(p)
  {
    var kids := ChildrenOf(remote, p);
    if x == p {
      var m :| 0 <= m < |kids| && ChildIds(remote, p)[m] == c;
      assert c == PreOrder(remote, rank, kids[m].id)[0];
      ForestMember(remote, rank, p, kids, c);
    } else {
      ForestMember(remote, rank, p, kids, x);
      var m :| 0 <= m < |kids| && x in PreOrder(remote, rank, kids[m].id);
      PreOrderClosed(remote, rank, kids[m].id, x, c);
      ForestMember(remote, rank, p, kids, c);
    }
  }

  /** Appending a walk whose first folder is listed by a folder of `a` keeps every folder after its lister. */
  lemma ParentsPrecedeAppend(remote: Remote, a: seq<string>, b: seq<string>, i: nat)
    requires ParentsPrecede(remote, a) && ParentsPrecede(remote, b)
    requires b != [] && i < |a| && b[0] in ChildIds(remote, a[i])
    ensures ParentsPrecede(remote, a + b)
  {
    var ab := a + b;
    forall j | 0 < j < |ab| ensures ListedBefore(remote, ab, j) {
      if j < |a| {
        assert ListedBefore(remote, a, j);
        var i' :| 0 <= i' < j && a[j] in ChildIds(remote, a[i']);
        assert ab[i'] == a[i'] && ab[j] == a[j];
      } else if j == |a| {
        assert ab[i] == a[i] && ab[j] == b[0];
      } else {
        assert ListedBefore(remote, b, j - |a|);
        var i' :| 0 <= i' < j - |a| && b[j - |a|] in ChildIds(remote, b[i']);
        assert ab[|a| + i'] == b[i'] && ab[j] == b[j - |a|];
      }
    }
  }

  lemma {:induction false} ForestParentsPrecede(remote: Remote, rank: string -> nat, p: string, a: seq<string>, kids: seq<Child>)
    requires Acyclic(remote, rank) && Below(rank, rank(p), kids)
    requires a != [] && a[0] == p && ParentsPrecede(remote, a)
    requires forall m :: 0 <= m < |kids| ==> kids[m].id in ChildIds(remote, p)
    ensures ParentsPrecede(remote, a + Forest(remote, rank, p, kids))
    decreases rank(p), 0, |kids|
  {
    if kids == [] {
      assert a + [] == a;
    } else {
      var first := PreOrder(remote, rank, kids[0].id);
      PreOrderParentsPrecede(remote, rank, kids[0].id);
      ParentsPrecedeAppend(remote, a, first, 0);
      assert forall m :: 0 <= m < |kids| - 1 ==> kids[1..][m] == kids[m + 1];
      ForestParentsPrecede(remote, rank, p, a + first, kids[1..]);
      var others := Forest(remote, rank, p, kids[1..]);
      assert Forest(remote, rank, p, kids) == first + others;
      assert a + (first + others) == (a + first) + others;
    }
  }

  /** Every collected folder after the first was listed by a folder collected before it. */
  lemma {:induction false} PreOrderParentsPrecede(remote: Remote, rank: string -> nat, p: string)
    requires Acyclic(remote, rank)
    ensures ParentsPrecede(remote, PreOrder(remote, rank, p))
    decreases rank(p), 1
  {
    var kids := ChildrenOf(remote, p);
    assert ParentsPrecede(remote, [p]);
    ForestParentsPrecede(remote, rank, p, [p], kids);
  }

  /**
   * The recursive collection and a completed cache build from the same root reach the
   * same folders; the recursive one may list a folder more than once.
   */
  lemma TraversalsAgree(remote: Remote, rank: string -> nat, root: string, now: int, writeFails: set<string>,
                        before: FolderCache.Store, after: FolderCache.Store, ids: seq<string>, order: seq<string>)
    requires Acyclic(remote, rank)
    requires FolderCache.BuildOutcome(remote, root, now, writeFails, before, after, ids, order, false)
    ensures forall x :: x in ids <==> x in PreOrder(remote, rank, root)
  {
    var pre := PreOrder(remote, rank, root);
    PreOrderParentsPrecede(remote, rank, root);
    forall i, c | 0 <= i < |pre| && c in ChildIds(remote, pre[i]) ensures c in pre {
      PreOrderClosed(remote, rank, root, pre[i], c);
    }
    SameFolders(remote, ids, pre);
  }

  /** A small diamond: `r` lists `a` and `b`, both list `c`; the listing of `a` then fails. */
  const Diamond: Remote := map["r" := Listing([[Child("a", "A"), Child("b", "B")]], false),
                               "a" := Listing([[Child("c", "C")]], true),
                               "b" := Listing([[Child("c", "C")]], false)]

  function DiamondRank(x: string): nat
  {
    if x == "r" then 2 else if x == "c" then 0 else 1
  }

  lemma DiamondChildren()
    ensures ChildrenOf(Diamond, "r") == [Child("a", "A"), Child("b", "B")]
    ensures ChildrenOf(Diamond, "a") == [Child("c", "C")] && ChildrenOf(Diamond, "b") == [Child("c", "C")]
    ensures forall p :: p !in Diamond.Keys ==> ChildrenOf(Diamond, p) == []
    ensures Acyclic(Diamond, DiamondRank)
  {
    ConcatSingle([Child("a", "A"), Child("b", "B")]);
    ConcatSingle([Child("c", "C")]);
    assert Diamond["a"].pages == [[Child("c", "C")]];
    assert Diamond["b"].pages == [[Child("c", "C")]];
    assert Diamond["r"].pages == [[Child("a", "A"), Child("b", "B")]];
    forall p, i | 0 <= i < |ChildrenOf(Diamond, p)| ensures DiamondRank(ChildrenOf(Diamond, p)[i].id) < DiamondRank(p) {
      assert p in Diamond;
    }
  }

  lemma DiamondBranches()
    ensures Acyclic(Diamond, DiamondRank)
    ensures PreOrder(Diamond, DiamondRank, "a") == ["a", "c"]
    ensures PreOrder(Diamond, DiamondRank, "b") == ["b", "c"]
  {
    DiamondChildren();
    assert "c" !in Diamond.Keys;
    assert PreOrder(Diamond, DiamondRank, "c") == ["c"];
    assert Forest(Diamond, DiamondRank, "a", [Child("c", "C")]) == ["c"];
    assert Forest(Diamond, DiamondRank, "b", [Child("c", "C")]) == ["c"];
  }

  /** Without a visited set, `c` is collected once under `a` and once under `b`. */
  lemma DiamondListedTwice()
    ensures Acyclic(Diamond, DiamondRank)
    ensures PreOrder(Diamond, DiamondRank, "r") == ["r", "a", "c", "b", "c"]
  {
    DiamondChildren();
    DiamondRootForest();
    assert ["r"] + (["a", "c"] + ["b", "c"]) == ["r", "a", "c", "b", "c"];
  }

  lemma DiamondRootForest()
    ensures Acyclic(Diamond, DiamondRank)
    ensures Forest(Diamond, DiamondRank, "r", [Child("a", "A"), Child("b", "B")]) == ["a", "c"] + ["b", "c"]
  {
    DiamondBranches();
    var kids := [Child("a", "A"), Child("b", "B")];
    assert kids[1..] == [Child("b", "B")];
    DiamondSecondBranch();
  }

  lemma DiamondSecondBranch()
    ensures Acyclic(Diamond, DiamondRank)
    ensures Forest(Diamond, DiamondRank, "r", [Child("b", "B")]) == ["b", "c"]
  {
    DiamondBranches();
    assert [Child("b", "B")][1..] == [];
    assert ["b", "c"] + [] == ["b", "c"];
  }

  // ---------------------------------------------------------------------------
  // The keyword condition

  /** `query_text.replace('　', ' ')`. */
  function ReplaceIdeographicSpace(q: string): (r: string)
    ensures |r| == |q|
    ensures forall i :: 0 <= i < |q| ==> r[i] == if q[i] == IdeographicSpace then ' ' else q[i]
  {
    seq(|q|, i requires 0 <= i < |q| => if q[i] == IdeographicSpace then ' ' else q[i])
  }

  /** The keywords: the query's whitespace-separated tokens once full-width spaces count as spaces. */
  function Keywords(q: string): seq<string>
  {
    Split(ReplaceIdeographicSpace(q))
  }

  /**
   * The keywords are non-empty, contain no whitespace, and spell the query with its
   * whitespace removed; since `split()` already treats U+3000 as whitespace, the
   * replacement changes nothing.
   */
  lemma KeywordsProperties(q: string)
    ensures forall i :: 0 <= i < |Keywords(q)| ==> Keywords(q)[i] != []
    ensures forall i, k :: 0 <= i < |Keywords(q)| && 0 <= k < |Keywords(q)[i]| ==> !IsPySpace(Keywords(q)[i][k])
    ensures Keywords(q) == Split(q)
    ensures Concat(Keywords(q)) == Squeeze(q)
  {
    SplitSameWords(ReplaceIdeographicSpace(q), q);
  }

  /** `keyword.replace("'", "\\'")`: every quote gets a backslash in front; nothing else changes. */
  function EscapeQuotes(k: string): (r: string)
    ensures forall i :: 0 <= i < |r| && r[i] == '\'' ==> i > 0 && r[i - 1] == '\\'
    ensures r != [] ==> r[0] != '\''
    ensures k == [] <==> r == []
  {
    if k == [] then []
    else (if k[0] == '\'' then "\\'" else [k[0]]) + EscapeQuotes(k[1..])
  }

  /** Deletes the backslash in front of every quote. */
  function Unescape(s: string): string
  {
    if s == [] then []
    else if |s| >= 2 && s[0] == '\\' && s[1] == '\'' then "'" + Unescape(s[2..])
    else [s[0]] + Unescape(s[1..])
  }

  /** The escape is undone by deleting the inserted backslashes, whatever backslashes the keyword held. */
  lemma {:induction false} UnescapeEscape(k: string)
    ensures Unescape(EscapeQuotes(k)) == k
  {
    if k != [] {
      UnescapeEscape(k[1..]);
      var e := EscapeQuotes(k[1..]);
      if k[0] == '\'' {
        assert EscapeQuotes(k) == "\\'" + e;
        assert ("\\'" + e)[2..] == e;
      } else {
        assert EscapeQuotes(k) == [k[0]] + e;
        assert ([k[0]] + e)[1..] == e;
      }
    }
  }

  /** Backslashes are not escaped: a keyword without quotes is used as it is, backslashes included. */
  lemma {:induction false} EscapeKeepsQuoteFree(k: string)
    requires forall i :: 0 <= i < |k| ==> k[i] != '\''
    ensures EscapeQuotes(k) == k
  {
    if k != [] {
      EscapeKeepsQuoteFree(k[1..]);
    }
  }

  /** One clause per keyword. */
  function NameClause(k: string): string
  {
    "name contains '" + EscapeQuotes(k) + "'"
  }

  /**
   * A keyword ending in a backslash yields a clause whose closing quote has a backslash
   * in front of it, so that the Drive query language reads it as an escaped quote.
   */
  lemma TrailingBackslashClause(k: string)
    requires forall i :: 0 <= i < |k| ==> k[i] != '\''
    requires k != [] && k[|k| - 1] == '\\'
    ensures var c := NameClause(k); c[|c| - 2..] == "\\'"
  {
    EscapeKeepsQuoteFree(k);
  }

  function NameClauses(keywords: seq<string>): (r: seq<string>)
    ensures |r| == |keywords|
    ensures forall i :: 0 <= i < |keywords| ==> r[i] == NameClause(keywords[i])
  {
    seq(|keywords|, i requires 0 <= i < |keywords| => NameClause(keywords[i]))
  }

  /** Python's `sep.join(parts)`. */
  function Join(parts: seq<string>, sep: string): string
  {
    if parts == [] then ""
    else if |parts| == 1 then parts[0]
    else Join(parts[..|parts| - 1], sep) + sep + parts[|parts| - 1]
  }

  /** The condition string for a query: its clauses joined by ` and `. */
  function Condition(q: string): string
  {
    Join(NameClauses(Keywords(q)), " and ")
  }

  /** The keyword loop and the join of the view. */
  method NameConditions(queryText: string) returns (nameConditions: string)
    ensures nameConditions == Condition(queryText)
  {
    var keywords := Split(ReplaceIdeographicSpace(queryText));
    var nameQueryParts: seq<string> := [];
    for i := 0 to |keywords|
      invariant nameQueryParts == NameClauses(keywords[..i])
    {
      var safeKeyword := EscapeQuotes(keywords[i]);
      nameQueryParts := nameQueryParts + ["name contains '" + safeKeyword + "'"];
    }
    assert keywords[..|keywords|] == keywords;
    nameConditions := Join(nameQueryParts, " and ");
  }

  lemma {:induction false} JoinEmpty(parts: seq<string>, sep: string)
    requires forall i :: 0 <= i < |parts| ==> parts[i] != []
    ensures Join(parts, sep) == "" <==> parts == []
    decreases |parts|
  {
    if |parts| > 1 {
      JoinEmpty(parts[..|parts| - 1], sep);
    }
  }

  lemma {:induction false} ConcatEmpty<T>(ss: seq<seq<T>>)
    requires forall i :: 0 <= i < |ss| ==> ss[i] != []
    ensures Concat(ss) == [] <==> ss == []
  {
    if ss != [] {
      assert |Concat(ss)| >= |ss[|ss| - 1]|;
    }
  }

  /**
   * The condition is empty exactly when the query is blank (nothing but whitespace);
   * otherwise it holds one clause per keyword, the first keyword's first.
   */
  lemma ConditionBlank(q: string)
    ensures Condition(q) == "" <==> Squeeze(q) == []
    ensures Keywords(q) != [] ==>
              var first := NameClause(Keywords(q)[0]);
              |first| <= |Condition(q)| && Condition(q)[..|first|] == first
  {
    KeywordsProperties(q);
    var ks := Keywords(q);
    ConcatEmpty(ks);
    JoinEmpty(NameClauses(ks), " and ");
    if ks != [] {
      JoinStartsWithFirst(NameClauses(ks), " and ");
    }
  }

  lemma {:induction false} JoinStartsWithFirst(parts: seq<string>, sep: string)
    requires parts != []
    ensures |parts[0]| <= |Join(parts, sep)| && Join(parts, sep)[..|parts[0]|] == parts[0]
    decreases |parts|
  {
    if |parts| > 1 {
      var front := parts[..|parts| - 1];
      JoinStartsWithFirst(front, sep);
      assert front[0] == parts[0];
    }
  }

  // ---------------------------------------------------------------------------
  // The per-folder search

  /** What follows the folder id in the view's per-folder query (spaces around `=`). */
  const FolderTail := "' in parents and mimeType = '" + PdfMimeType + "' and trashed = false"

  /** The view's query for one folder. */
  function FolderQuery(fid: string, nameConditions: string): string
  {
    "'" + fid + FolderTail + (if nameConditions != "" then " and " + nameConditions else "")
  }

  /**
   * Distinct folders get distinct queries, the conditions are appended only when
   * non-empty, and the query differs from the batch search's, which writes `=` without spaces.
   */
  lemma FolderQueryShape(a: string, b: string, nameConditions: string)
    ensures FolderQuery(a, nameConditions) == FolderQuery(b, nameConditions) ==> a == b
    ensures nameConditions == "" ==> FolderQuery(a, "") == "'" + a + FolderTail
    ensures nameConditions != "" ==> FolderQuery(a, nameConditions) == FolderQuery(a, "") + " and " + nameConditions
  {
    var tail := FolderTail + (if nameConditions != "" then " and " + nameConditions else "");
    var qa := FolderQuery(a, nameConditions);
    var qb := FolderQuery(b, nameConditions);
    assert qa == "'" + a + tail;
    assert qb == "'" + b + tail;
    if qa == qb {
      assert |a| == |b|;
      assert a == qa[1..|a| + 1];
      assert b == qb[1..|b| + 1];
    }
  }

  function FolderQueries(folderIds: seq<string>, nameConditions: string): (r: seq<string>)
    ensures |r| == |folderIds|
    ensures forall i :: 0 <= i < |folderIds| ==> r[i] == FolderQuery(folderIds[i], nameConditions)
  {
    seq(|folderIds|, i requires 0 <= i < |folderIds| => FolderQuery(folderIds[i], nameConditions))
  }

  /**
   * The search loop of the view: one query per folder in order, the files of each
   * successful query appended, a failing query logged and skipped.
   */
  method SearchFolders(allFolderIds: seq<string>, nameConditions: string,
                       respond: string -> Option<seq<DriveFile>>) returns (allItems: seq<DriveFile>)
    ensures allItems == Responses(FolderQueries(allFolderIds, nameConditions), respond)
  {
    ghost var queries := FolderQueries(allFolderIds, nameConditions);
    allItems := [];
    for i := 0 to |allFolderIds|
      invariant allItems == Responses(queries[..i], respond)
    {
      assert queries[..i + 1][..i] == queries[..i];
      var query := "'" + allFolderIds[i] + FolderTail;
      if nameConditions != "" {
        query := query + " and " + nameConditions;
      }
      assert query == queries[i];
      var results := respond(query);
      if results.Some? {
        allItems := allItems + results.value;
      }
    }
    assert queries[..|allFolderIds|] == queries;
  }

  /**
   * The recursive search mode of the view, entered for a non-empty query: collect the
   * folders, build the condition, search every folder.
   */
  method RecursiveSearch(remote: Remote, folderId: string, queryText: string,
                         respond: string -> Option<seq<DriveFile>>, ghost rank: string -> nat)
    returns (allItems: seq<DriveFile>)
    requires queryText != ""
    requires Acyclic(remote, rank)
    ensures allItems == Responses(FolderQueries(PreOrder(remote, rank, folderId), Condition(queryText)), respond)
  {
    var allFolderIds := ListAllFolderIds(remote, folderId, rank);
    var nameConditions := NameConditions(queryText);
    allItems := SearchFolders(allFolderIds, nameConditions, respond);
  }
}

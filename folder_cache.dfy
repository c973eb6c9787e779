/**
 * The folder snapshot cache (`FolderCacheService`): a breadth-first walk of the remote
 * folder tree that writes one record per folder, a freshness test, the read of all
 * active ids, the rebuild-or-reuse decision and soft invalidation.
 *
 * The record store is the `store` field, a map keyed by folder id. Failures of the
 * database and of the walk are parameters chosen by the environment.
 */
module FolderCache {
  import opened Wrappers
  import opened Seqs
  import opened Drive

  /** `FOLDER_CACHE_MAX_AGE_HOURS` when the setting is absent. */
  const DefaultMaxAgeHours: nat := 24
  /** Timestamps are integer microseconds, the resolution of Python's `datetime`. */
  const MicrosPerHour: int := 3_600_000_000
  /** The name the walk gives the root folder. */
  const RootName := "Root"

  /** A row of the `folder_cache` table. */
  datatype FolderRecord = FolderRecord(
    folderId: string,
    parentId: Option<string>,
    name: string,
    path: string,
    lastUpdated: int,
    isActive: bool)

  type Store = map<string, FolderRecord>

  /** Every row is stored under its own primary key. */
  ghost predicate KeyedById(s: Store)
  {
    forall id :: id in s ==> s[id].folderId == id
  }

  /** A queue element of the walk: `(folder_id, parent_id, folder_name)`. */
  datatype Entry = Entry(id: string, parent: Option<string>, name: string)

  /** The queue elements appended for the subfolders `kids` of folder `p`, in listing order. */
  function KidEntries(p: string, kids: seq<Child>): seq<Entry>
  {
    seq(|kids|, i requires 0 <= i < |kids| => Entry(kids[i].id, Some(p), kids[i].name))
  }

  /** Everything the walk appends to the queue after visiting the folders `order`, in order. */
  function Entries(remote: Remote, order: seq<string>): seq<Entry>
  {
    if order == [] then []
    else
      var last := order[|order| - 1];
      Entries(remote, order[..|order| - 1]) + KidEntries(last, ChildrenOf(remote, last))
  }

  /**
   * Every element that ever enters the queue, in the order it enters and therefore
   * in the order it is dequeued: the synthetic root element, then the children of the
   * visited folders.
   */
  function AllEntries(remote: Remote, root: string, order: seq<string>): seq<Entry>
  {
    [Entry(root, None, RootName)] + Entries(remote, order)
  }

  /** The position of the first element with folder id `id`, or `|es|` when there is none. */
  function FirstIndex(es: seq<Entry>, id: string): (k: nat)
    ensures k <= |es|
    ensures k < |es| ==> es[k].id == id
    ensures forall j :: 0 <= j < k ==> es[j].id != id
  {
    if es == [] then 0 else if es[0].id == id then 0 else 1 + FirstIndex(es[1..], id)
  }

  /**
   * The folders `ids` are visited in the order the queue history `es` first names them:
   * a folder visited before another is first named by an earlier queue element.
   */
  ghost predicate QueueOrder(es: seq<Entry>, ids: seq<string>)
  {
    forall i, j :: 0 <= i < j < |ids| ==> FirstIndex(es, ids[i]) < FirstIndex(es, ids[j])
  }

  /**
   * A walk that ran until its queue was empty: it starts at the root, visits each folder
   * once, in the order the queue first names them, every folder after the root was listed
   * by an earlier one, and every listed child of a visited folder was visited.
   */
  ghost predicate CompletedWalk(remote: Remote, root: string, order: seq<string>)
  {
    && order != [] && order[0] == root
    && NoDups(order)
    && Closed(remote, order)
    && ParentsPrecede(remote, order)
    && QueueOrder(AllEntries(remote, root, order), order)
  }

  /**
   * A walk stopped after its first `steps` dequeues: root first, each folder once, in
   * the order the queue first names them, every folder after the root listed by an
   * earlier one, and the folders visited are exactly those the first `steps` queue
   * elements name.
   */
  ghost predicate PartialWalk(remote: Remote, root: string, order: seq<string>, steps: nat)
  {
    && (order != [] ==> order[0] == root)
    && NoDups(order)
    && ParentsPrecede(remote, order)
    && QueueOrder(AllEntries(remote, root, order), order)
    && |order| <= steps <= |AllEntries(remote, root, order)|
    && (forall j :: 0 <= j < steps ==> AllEntries(remote, root, order)[j].id in order)
    && (forall x :: x in order ==> FirstIndex(AllEntries(remote, root, order), x) < steps)
  }

  /**
   * What the uniqueness argument needs of a walk: root first, each folder once, in the
   * order the queue first names them, parents first, and every queue element before the
   * first one naming a visited folder names a visited folder.
   */
  ghost predicate OrderedWalk(remote: Remote, root: string, order: seq<string>)
  {
    && order != [] && order[0] == root
    && NoDups(order)
    && ParentsPrecede(remote, order)
    && QueueOrder(AllEntries(remote, root, order), order)
    && (forall n, p :: 0 <= n < |order| && 0 <= p < FirstIndex(AllEntries(remote, root, order), order[n]) ==>
          AllEntries(remote, root, order)[p].id in order)
  }

  /** The row `update_or_create` leaves for a visited queue element at time `now`. */
  function RecordFor(e: Entry, now: int): FolderRecord
  {
    FolderRecord(e.id, e.parent, e.name, "/" + e.name, now, true)
  }

  /**
   * The store `after` is `before` with one row written for every folder of `order`
   * whose write did not fail, from that folder's first-dequeued queue element in `es`;
   * no other row is added, removed or changed.
   */
  ghost predicate Written(before: Store, after: Store, es: seq<Entry>, order: seq<string>,
                          writeFails: set<string>, now: int)
  {
    && (forall id :: id in after <==> id in before || (id in order && id !in writeFails))
    && (forall id :: id in after && id in order && id !in writeFails ==>
          FirstIndex(es, id) < |es| && after[id] == RecordFor(es[FirstIndex(es, id)], now))
    && (forall id :: id in after && !(id in order && id !in writeFails) ==> after[id] == before[id])
  }

  /**
   * The complete effect of one build: the folders visited (`order`), the ids returned
   * (`[root]` when the walk was aborted by an unexpected error) and the rows written.
   */
  ghost predicate BuildOutcome(remote: Remote, root: string, now: int, writeFails: set<string>,
                               before: Store, after: Store,
                               ids: seq<string>, order: seq<string>, aborted: bool)
  {
    && ids == (if aborted then [root] else order)
    && (order != [] ==> order[0] == root)
    && (!aborted ==> CompletedWalk(remote, root, order))
    && NoDups(order)
    && ParentsPrecede(remote, order)
    && QueueOrder(AllEntries(remote, root, order), order)
    && Written(before, after, AllEntries(remote, root, order), order, writeFails, now)
  }

  /** Every folder id that occurs as a listed child anywhere in the remote store. */
  ghost function AllChildIds(remote: Remote): set<string>
  {
    set p, c | p in remote && c in ChildIds(remote, p) :: c
  }

  /** A root record exists and was updated strictly after `now - maxAgeHours`. */
  predicate Fresh(s: Store, root: string, now: int, maxAgeHours: nat)
  {
    root in s && s[root].lastUpdated > now - maxAgeHours * MicrosPerHour
  }

  /** The ids of the active rows. */
  function ActiveIds(s: Store): set<string>
  {
    set id | id in s && s[id].isActive
  }

  /** What `_get_cached_folder_ids` returns on a successful read. */
  ghost predicate CachedIdsOf(s: Store, root: string, ids: seq<string>)
  {
    && NoDups(ids)
    && (forall x :: x in ids <==> x in ActiveIds(s) || x == root)
    && |ids| == |ActiveIds(s) + {root}|
    && (root !in ActiveIds(s) ==> ids[0] == root)
  }

  /** Whether `invalidate_cache(rootId)` addresses row `id`: only the root's row for a non-empty id, else every row. */
  predicate Targets(rootId: Option<string>, id: string)
  {
    if rootId.Some? && rootId.value != "" then id == rootId.value else true
  }

  /** The store after `invalidate_cache(rootId)`: the addressed rows marked inactive. */
  function Invalidated(s: Store, rootId: Option<string>): (r: Store)
    ensures r.Keys == s.Keys
    ensures forall id :: id in r ==> r[id].isActive == (s[id].isActive && !Targets(rootId, id))
    ensures forall id :: id in r ==> r[id].(isActive := true) == s[id].(isActive := true)
  {
    map id | id in s :: if Targets(rootId, id) then s[id].(isActive := false) else s[id]
  }

  /** Environment failures seen by one `get_all_folder_ids` call. */
  datatype Faults = Faults(
    freshReadFails: bool,       // the query in `_is_cache_fresh` raises
    idsReadFails: bool,         // the query in `_get_cached_folder_ids` raises
    writeFails: set<string>,    // folders whose `update_or_create` raises
    abortAt: Option<nat>)       // the walk raises outside its handlers at this dequeue

  // ---------------------------------------------------------------------------
  // Facts about the queue history

  lemma KidEntriesAppend(p: string, a: seq<Child>, b: seq<Child>)
    ensures KidEntries(p, a + b) == KidEntries(p, a) + KidEntries(p, b)
  {
  }

  lemma EntriesSnoc(remote: Remote, order: seq<string>, x: string)
    ensures Entries(remote, order + [x]) == Entries(remote, order) + KidEntries(x, ChildrenOf(remote, x))
  {
    assert (order + [x])[..|order|] == order;
  }

  lemma AllEntriesSnoc(remote: Remote, root: string, order: seq<string>, x: string)
    ensures AllEntries(remote, root, order + [x]) == AllEntries(remote, root, order) + KidEntries(x, ChildrenOf(remote, x))
  {
    EntriesSnoc(remote, order, x);
  }

  /** Every queue element after the root's was appended by an earlier visited folder that lists it. */
  lemma {:induction false} EntryOrigin(remote: Remote, order: seq<string>, j: nat)
    requires j < |Entries(remote, order)|
    ensures exists i :: 0 <= i < |order| && Entries(remote, order)[j].parent == Some(order[i])
                        && Entries(remote, order)[j].id in ChildIds(remote, order[i])
  {
    var o' := order[..|order| - 1];
    var x := order[|order| - 1];
    var e' := Entries(remote, o');
    var kids := ChildrenOf(remote, x);
    if j < |e'| {
      EntryOrigin(remote, o', j);
      var i :| 0 <= i < |o'| && e'[j].parent == Some(o'[i]) && e'[j].id in ChildIds(remote, o'[i]);
      assert order[i] == o'[i];
    } else {
      var m := j - |e'|;
      assert Entries(remote, order)[j] == KidEntries(x, kids)[m];
      assert ChildIds(remote, x)[m] == kids[m].id;
      assert order[|order| - 1] == x;
    }
  }

  /** Every listed child of a visited folder enters the queue. */
  lemma {:induction false} EntriesCover(remote: Remote, order: seq<string>, i: nat, c: string)
    requires i < |order|
    requires c in ChildIds(remote, order[i])
    ensures exists j :: 0 <= j < |Entries(remote, order)| && Entries(remote, order)[j].id == c
                        && Entries(remote, order)[j].parent == Some(order[i])
  {
    var o' := order[..|order| - 1];
    var x := order[|order| - 1];
    var e' := Entries(remote, o');
    var kids := ChildrenOf(remote, x);
    if i < |o'| {
      assert o'[i] == order[i];
      EntriesCover(remote, o', i, c);
      var j :| 0 <= j < |e'| && e'[j].id == c && e'[j].parent == Some(o'[i]);
      assert Entries(remote, order)[j] == e'[j];
    } else {
      var ids := ChildIds(remote, x);
      var m :| 0 <= m < |ids| && ids[m] == c;
      assert Entries(remote, order)[|e'| + m] == KidEntries(x, kids)[m];
    }
  }

  /** Every folder id that ever enters the queue is the root or a listed child. */
  lemma EntryInUniverse(remote: Remote, root: string, order: seq<string>, j: nat)
    requires j < |AllEntries(remote, root, order)|
    ensures AllEntries(remote, root, order)[j].id in {root} + AllChildIds(remote)
  {
    if j > 0 {
      EntryOrigin(remote, order, j - 1);
      var i :| 0 <= i < |order| && Entries(remote, order)[j - 1].parent == Some(order[i])
               && Entries(remote, order)[j - 1].id in ChildIds(remote, order[i]);
    }
  }

  lemma FirstIndexAt(es: seq<Entry>, id: string, m: nat)
    requires m < |es| && es[m].id == id
    requires forall j :: 0 <= j < m ==> es[j].id != id
    ensures FirstIndex(es, id) == m
  {
  }

  lemma FirstIndexExtend(a: seq<Entry>, b: seq<Entry>, id: string)
    requires FirstIndex(a, id) < |a|
    ensures FirstIndex(a + b, id) == FirstIndex(a, id)
  {
    FirstIndexAt(a + b, id, FirstIndex(a, id));
  }

  /** Visiting one more folder, at its first queue element `es[m]`, keeps `Written` true of the longer history. */
  lemma WrittenStep(before: Store, s: Store, es: seq<Entry>, order: seq<string>, writeFails: set<string>,
                    now: int, m: nat, kids: seq<Entry>)
    requires Written(before, s, es, order, writeFails, now)
    requires m < |es| && es[m].id !in order
    requires forall j :: 0 <= j < m ==> es[j].id in order
    ensures Written(before, if es[m].id in writeFails then s else s[es[m].id := RecordFor(es[m], now)],
                    es + kids, order + [es[m].id], writeFails, now)
  {
    var e := es[m];
    var order' := order + [e.id];
    var es' := es + kids;
    assert forall id :: id in order' <==> id in order || id == e.id;
    forall id | id in order && id !in writeFails && id in s
      ensures FirstIndex(es', id) < |es'| && s[id] == RecordFor(es'[FirstIndex(es', id)], now)
    {
      FirstIndexExtend(es, kids, id);
      assert es'[FirstIndex(es', id)] == es[FirstIndex(es, id)];
    }
    if e.id in writeFails {
      assert Written(before, s, es', order', writeFails, now);
    } else {
      FirstIndexAt(es', e.id, m);
      WrittenAdd(before, s, es', order, writeFails, now, e.id, RecordFor(e, now));
    }
  }

  lemma WrittenAdd(before: Store, s: Store, es: seq<Entry>, order: seq<string>, writeFails: set<string>,
                   now: int, x: string, r: FolderRecord)
    requires forall id :: id in s <==> id in before || (id in order && id !in writeFails)
    requires forall id :: id in s && !(id in order && id !in writeFails) ==> s[id] == before[id]
    requires forall id :: id in s && id in order && id !in writeFails ==>
               FirstIndex(es, id) < |es| && s[id] == RecordFor(es[FirstIndex(es, id)], now)
    requires x !in order && x !in writeFails
    requires FirstIndex(es, x) < |es| && r == RecordFor(es[FirstIndex(es, x)], now)
    ensures Written(before, s[x := r], es, order + [x], writeFails, now)
  {
    var s' := s[x := r];
    var order' := order + [x];
    assert forall id :: id in order' <==> id in order || id == x;
    forall id ensures id in s' <==> id in before || (id in order' && id !in writeFails) {
    }
    forall id | id in s' && !(id in order' && id !in writeFails) ensures s'[id] == before[id] {
      assert id != x;
    }
    forall id | id in s' && id in order' && id !in writeFails
      ensures FirstIndex(es, id) < |es| && s'[id] == RecordFor(es[FirstIndex(es, id)], now)
    {
      if id != x {
        assert id in order;
      }
    }
  }

  /** Visiting the folder of queue element `j` (its first occurrence) keeps every folder listed by an earlier one. */
  lemma VisitKeepsParentsPrecede(remote: Remote, root: string, order: seq<string>, j: nat)
    requires ParentsPrecede(remote, order)
    requires j < |AllEntries(remote, root, order)|
    requires j == 0 ==> order == []
    ensures ParentsPrecede(remote, order + [AllEntries(remote, root, order)[j].id])
  {
    var x := AllEntries(remote, root, order)[j].id;
    var o := order + [x];
    forall n | 0 < n < |o| ensures ListedBefore(remote, o, n) {
      if n < |order| {
        assert ListedBefore(remote, order, n);
        var i :| 0 <= i < n && order[n] in ChildIds(remote, order[i]);
        assert o[i] == order[i] && o[n] == order[n];
      } else {
        EntryOrigin(remote, order, j - 1);
        var i :| 0 <= i < |order| && Entries(remote, order)[j - 1].parent == Some(order[i])
                 && Entries(remote, order)[j - 1].id in ChildIds(remote, order[i]);
        assert o[i] == order[i];
      }
    }
  }

  /** Once the queue is drained, every listed child of a visited folder has been visited. */
  lemma AllVisitedIsClosed(remote: Remote, root: string, order: seq<string>, visited: set<string>)
    requires forall x :: x in visited <==> x in order
    requires forall j :: 0 <= j < |AllEntries(remote, root, order)| ==> AllEntries(remote, root, order)[j].id in visited
    ensures Closed(remote, order)
  {
    forall i, c | 0 <= i < |order| && c in ChildIds(remote, order[i]) ensures c in order {
      EntriesCover(remote, order, i, c);
      var j :| 0 <= j < |Entries(remote, order)| && Entries(remote, order)[j].id == c;
      assert AllEntries(remote, root, order)[j + 1].id == c;
    }
  }

  // ---------------------------------------------------------------------------
  // The state of the walk between two dequeues

  /**
   * The first `steps` elements of the queue history have been dequeued: `queue` is the
   * rest, every dequeued element names a visited folder, and the folders `ids` were
   * visited at the first elements naming them, in that order.
   */
  ghost predicate Dequeued(history: seq<Entry>, queue: seq<Entry>, ids: seq<string>, steps: nat)
  {
    && |ids| <= steps <= |history|
    && (steps > 0 ==> ids != [])
    && queue == history[steps..]
    && (forall j :: 0 <= j < steps ==> history[j].id in ids)
    && (forall x :: x in ids ==> FirstIndex(history, x) < steps)
    && QueueOrder(history, ids)
  }

  /** Dequeuing an element that names a visited folder only moves the boundary. */
  lemma DequeueSkip(history: seq<Entry>, queue: seq<Entry>, ids: seq<string>, steps: nat)
    requires Dequeued(history, queue, ids, steps)
    requires queue != [] && queue[0].id in ids
    ensures Dequeued(history, queue[1..], ids, steps + 1)
  {
    assert queue[0] == history[steps];
    assert queue[1..] == history[steps + 1..];
  }

  /**
   * Dequeuing an element that names a folder not yet visited visits it there, at the
   * first element naming it, and the elements `kids` it appends extend the history.
   */
  lemma DequeueVisit(history: seq<Entry>, kids: seq<Entry>, queue: seq<Entry>, ids: seq<string>, steps: nat)
    requires Dequeued(history, queue, ids, steps)
    requires queue != [] && queue[0].id !in ids
    ensures Dequeued(history + kids, queue[1..] + kids, ids + [queue[0].id], steps + 1)
  {
    var x := queue[0].id;
    var h, ids' := history + kids, ids + [x];
    assert queue[0] == history[steps];
    assert queue[1..] == history[steps + 1..];
    SliceAppend(history, kids, steps + 1);
    FirstIndicesKept(history, kids, ids, steps);
    FirstIndexAt(h, x, steps);
    forall j | 0 <= j < steps + 1 ensures h[j].id in ids' {
      if j < steps {
        assert h[j] == history[j];
      }
    }
    QueueOrderSnoc(h, ids, x, steps);
  }

  /** Appending to the history leaves the first element naming each visited folder where it was. */
  lemma FirstIndicesKept(history: seq<Entry>, kids: seq<Entry>, ids: seq<string>, steps: nat)
    requires steps <= |history|
    requires forall y :: y in ids ==> FirstIndex(history, y) < steps
    requires QueueOrder(history, ids)
    ensures forall y :: y in ids ==> FirstIndex(history + kids, y) == FirstIndex(history, y) < steps
    ensures QueueOrder(history + kids, ids)
  {
    forall y | y in ids ensures FirstIndex(history + kids, y) == FirstIndex(history, y) {
      FirstIndexExtend(history, kids, y);
    }
  }

  /** A folder first named at the boundary `steps` is visited after every folder first named before it. */
  lemma QueueOrderSnoc(h: seq<Entry>, ids: seq<string>, x: string, steps: nat)
    requires QueueOrder(h, ids)
    requires forall y :: y in ids ==> FirstIndex(h, y) < steps
    requires FirstIndex(h, x) == steps
    ensures QueueOrder(h, ids + [x])
  {
    var ids' := ids + [x];
    forall i, j | 0 <= i < j < |ids'| ensures FirstIndex(h, ids'[i]) < FirstIndex(h, ids'[j]) {
      assert ids'[i] == ids[i] && ids'[i] in ids;
      if j < |ids| {
        assert ids'[j] == ids[j];
      }
    }
  }

  /**
   * After `steps` dequeues the walk has visited `ids` (the set `visited`), in order and
   * each once; the first `steps` elements of the history `AllEntries` are dequeued, and
   * `s` is `s0` with the rows of the visited folders written.
   */
  ghost predicate Walk(remote: Remote, root: string, now: int, writeFails: set<string>, s0: Store, s: Store,
                       queue: seq<Entry>, visited: set<string>, ids: seq<string>, steps: nat)
  {
    && KeyedById(s)
    && (forall x :: x in visited <==> x in ids)
    && NoDups(ids)
    && (ids != [] ==> ids[0] == root)
    && Dequeued(AllEntries(remote, root, ids), queue, ids, steps)
    && ParentsPrecede(remote, ids)
    && Written(s0, s, AllEntries(remote, root, ids), ids, writeFails, now)
    && visited <= {root} + AllChildIds(remote)
  }

  lemma WalkStart(remote: Remote, root: string, now: int, writeFails: set<string>, s0: Store)
    requires KeyedById(s0)
    ensures Walk(remote, root, now, writeFails, s0, s0, [Entry(root, None, RootName)], {}, [], 0)
  {
    assert AllEntries(remote, root, []) == [Entry(root, None, RootName)];
  }

  /** Dequeuing a folder that was already visited changes nothing else. */
  lemma WalkSkip(remote: Remote, root: string, now: int, writeFails: set<string>, s0: Store, s: Store,
                 queue: seq<Entry>, visited: set<string>, ids: seq<string>, steps: nat)
    requires Walk(remote, root, now, writeFails, s0, s, queue, visited, ids, steps)
    requires queue != [] && queue[0].id in visited
    ensures Walk(remote, root, now, writeFails, s0, s, queue[1..], visited, ids, steps + 1)
  {
    DequeueSkip(AllEntries(remote, root, ids), queue, ids, steps);
  }

  /**
   * Dequeuing a folder not yet visited records it, writes its row unless the write
   * fails, and appends its listed subfolders to the queue.
   */
  lemma WalkVisit(remote: Remote, root: string, now: int, writeFails: set<string>, s0: Store, s: Store,
                  queue: seq<Entry>, visited: set<string>, ids: seq<string>, steps: nat)
    requires Walk(remote, root, now, writeFails, s0, s, queue, visited, ids, steps)
    requires queue != [] && queue[0].id !in visited
    ensures queue[0].id in {root} + AllChildIds(remote)
    ensures var e := queue[0];
            Walk(remote, root, now, writeFails, s0,
                 if e.id in writeFails then s else s[e.id := RecordFor(e, now)],
                 queue[1..] + KidEntries(e.id, ChildrenOf(remote, e.id)),
                 visited + {e.id}, ids + [e.id], steps + 1)
  {
    var history := AllEntries(remote, root, ids);
    var e := queue[0];
    var kids := KidEntries(e.id, ChildrenOf(remote, e.id));
    assert e == history[steps];
    EntryInUniverse(remote, root, ids, steps);
    VisitWrites(s0, s, history, ids, writeFails, now, steps, kids);
    VisitKeepsParentsPrecede(remote, root, ids, steps);
    AllEntriesSnoc(remote, root, ids, e.id);
    DequeueVisit(history, kids, queue, ids, steps);
    NoDupsSnoc(ids, e.id);
  }

  /** A walk whose queue is empty has made one dequeue per element of its history and is complete. */
  lemma WalkDone(remote: Remote, root: string, now: int, writeFails: set<string>, s0: Store, s: Store,
                 visited: set<string>, ids: seq<string>, steps: nat)
    requires Walk(remote, root, now, writeFails, s0, s, [], visited, ids, steps)
    ensures steps == |AllEntries(remote, root, ids)|
    ensures ids != [] && ids[0] == root && NoDups(ids)
    ensures BuildOutcome(remote, root, now, writeFails, s0, s, ids, ids, false)
  {
    AllVisitedIsClosed(remote, root, ids, visited);
  }

  /** A walk stopped by an unexpected error while elements remain: the result is the root alone. */
  lemma WalkAborted(remote: Remote, root: string, now: int, writeFails: set<string>, s0: Store, s: Store,
                    queue: seq<Entry>, visited: set<string>, ids: seq<string>, steps: nat)
    requires Walk(remote, root, now, writeFails, s0, s, queue, visited, ids, steps)
    requires queue != []
    ensures steps < |AllEntries(remote, root, ids)|
    ensures PartialWalk(remote, root, ids, steps)
    ensures BuildOutcome(remote, root, now, writeFails, s0, s, [root], ids, true)
  {
  }

  /** The store part of a visit: the row of the visited folder is written unless that write fails. */
  lemma VisitWrites(s0: Store, s: Store, history: seq<Entry>, ids: seq<string>, writeFails: set<string>,
                    now: int, steps: nat, kids: seq<Entry>)
    requires KeyedById(s) && Written(s0, s, history, ids, writeFails, now)
    requires steps < |history| && history[steps].id !in ids
    requires forall j :: 0 <= j < steps ==> history[j].id in ids
    ensures var e := history[steps];
            var s' := if e.id in writeFails then s else s[e.id := RecordFor(e, now)];
            KeyedById(s') && Written(s0, s', history + kids, ids + [e.id], writeFails, now)
  {
    WrittenStep(s0, s, history, ids, writeFails, now, steps, kids);
  }

  lemma NoDupsSnoc<T>(s: seq<T>, x: T)
    requires NoDups(s) && x !in s
    ensures NoDups(s + [x])
  {
    var s' := s + [x];
    forall i, j | 0 <= i < j < |s'| ensures s'[i] != s'[j] {
      assert s'[i] == s[i];
      if j < |s| {
        assert s'[j] == s[j];
      }
    }
  }

  // ---------------------------------------------------------------------------
  // Facts about the outcome of a build

  /**
   * The row written for a visited folder records where the walk found it: the root
   * as `Root` with no parent, every other folder as a child, under its listed name,
   * of a folder visited before it; the row is active, stamped `now`, and its path is
   * `"/" + name`.
   */
  lemma StoredRecord(remote: Remote, root: string, now: int, writeFails: set<string>,
                     before: Store, after: Store, ids: seq<string>, order: seq<string>,
                     aborted: bool, id: string)
    requires BuildOutcome(remote, root, now, writeFails, before, after, ids, order, aborted)
    requires id in order && id !in writeFails
    ensures id in after
    ensures after[id].folderId == id && after[id].isActive && after[id].lastUpdated == now
    ensures after[id].path == "/" + after[id].name
    ensures id == root ==> after[id].parentId == None && after[id].name == RootName
    ensures id != root ==>
              exists i, j, k :: && 0 <= i < j < |order| && order[j] == id
                                && 0 <= k < |ChildrenOf(remote, order[i])|
                                && after[id].parentId == Some(order[i])
                                && ChildrenOf(remote, order[i])[k] == Child(id, after[id].name)
  {
    var es := AllEntries(remote, root, order);
    var f := FirstIndex(es, id);
    assert after[id] == RecordFor(es[f], now);
    if id != root {
      var i, j, k := FirstEntryParent(remote, root, order, id);
    } else {
      assert es[0] == Entry(root, None, RootName);
    }
  }

  /**
   * The first queue element naming a visited folder other than the root was appended by
   * a folder visited before it, which lists it under that element's name.
   */
  lemma FirstEntryParent(remote: Remote, root: string, order: seq<string>, id: string)
    returns (i: nat, j: nat, k: nat)
    requires order != [] && order[0] == root && NoDups(order) && ParentsPrecede(remote, order)
    requires id in order && id != root
    ensures var es := AllEntries(remote, root, order);
            var f := FirstIndex(es, id);
            && 0 < f < |es|
            && i < j < |order| && order[j] == id
            && k < |ChildrenOf(remote, order[i])|
            && es[f].parent == Some(order[i])
            && ChildrenOf(remote, order[i])[k] == Child(id, es[f].name)
  {
    var es := AllEntries(remote, root, order);
    var entries := Entries(remote, order);
    var f, q, i' := FirstEntryBefore(remote, root, order, id);
    j :| 0 <= j < |order| && order[j] == id;
    assert i' < j by {
      var j' :| i' < j' < |order| && order[j'] == id;
      assert j' == j;
    }
    EntryOrigin(remote, order, f - 1);
    i :| 0 <= i < |order| && entries[f - 1].parent == Some(order[i]) && entries[f - 1].id in ChildIds(remote, order[i]);
    BlockOrder(remote, order, f - 1, q, i, i');
    assert es[f] == entries[f - 1];
    EntryFromParent(remote, order, f - 1, i);
    k :| 0 <= k < |ChildrenOf(remote, order[i])| && ChildrenOf(remote, order[i])[k] == Child(entries[f - 1].id, entries[f - 1].name);
  }

  /**
   * A visited folder other than the root is first named at some `f > 0`, no later than
   * the element `q` that its earlier lister `order[i']` appended for it.
   */
  lemma FirstEntryBefore(remote: Remote, root: string, order: seq<string>, id: string)
    returns (f: nat, q: nat, i': nat)
    requires order != [] && order[0] == root && NoDups(order) && ParentsPrecede(remote, order)
    requires id in order && id != root
    ensures f == FirstIndex(AllEntries(remote, root, order), id)
    ensures 0 < f <= q + 1 && q < |Entries(remote, order)| && i' < |order|
    ensures Entries(remote, order)[q].parent == Some(order[i'])
    ensures exists j :: i' < j < |order| && order[j] == id
  {
    var es := AllEntries(remote, root, order);
    var entries := Entries(remote, order);
    var j :| 0 <= j < |order| && order[j] == id;
    assert j > 0;
    assert ListedBefore(remote, order, j);
    i' :| 0 <= i' < j && order[j] in ChildIds(remote, order[i']);
    EntriesCover(remote, order, i', id);
    q :| 0 <= q < |entries| && entries[q].id == id && entries[q].parent == Some(order[i']);
    assert es[q + 1] == entries[q];
    f := FirstIndex(es, id);
    assert es[0].id == root;
  }

  /**
   * The queue elements appended for the visited folders come in blocks, one per folder,
   * in visiting order: an element at or before another was appended by the same folder
   * or by one visited earlier.
   */
  lemma {:induction false} BlockOrder(remote: Remote, order: seq<string>, p: nat, q: nat, i: nat, i': nat)
    requires NoDups(order)
    requires p <= q < |Entries(remote, order)| && i < |order| && i' < |order|
    requires Entries(remote, order)[p].parent == Some(order[i])
    requires Entries(remote, order)[q].parent == Some(order[i'])
    ensures i <= i'
  {
    var o' := order[..|order| - 1];
    var x := order[|order| - 1];
    var e' := Entries(remote, o');
    var kids := ChildrenOf(remote, x);
    if q < |e'| {
      assert Entries(remote, order)[p] == e'[p] && Entries(remote, order)[q] == e'[q];
      EntryOrigin(remote, o', p);
      var a :| 0 <= a < |o'| && e'[p].parent == Some(o'[a]) && e'[p].id in ChildIds(remote, o'[a]);
      EntryOrigin(remote, o', q);
      var b :| 0 <= b < |o'| && e'[q].parent == Some(o'[b]) && e'[q].id in ChildIds(remote, o'[b]);
      assert o'[a] == order[a] && o'[b] == order[b];
      assert a == i && b == i';
      BlockOrder(remote, o', p, q, i, i');
    } else {
      assert Entries(remote, order)[q] == KidEntries(x, kids)[q - |e'|];
      assert order[i'] == x;
    }
  }

  // ---------------------------------------------------------------------------
  // The order of a completed walk is the breadth-first order

  /** The queue elements appended by a prefix of the visits are a prefix of the history. */
  lemma {:induction false} EntriesPrefix(remote: Remote, order: seq<string>, n: nat)
    requires n <= |order|
    ensures |Entries(remote, order[..n])| <= |Entries(remote, order)|
    ensures Entries(remote, order)[..|Entries(remote, order[..n])|] == Entries(remote, order[..n])
    decreases |order|
  {
    if n < |order| {
      var o' := order[..|order| - 1];
      assert order[..n] == o'[..n];
      EntriesPrefix(remote, o', n);
    } else {
      assert order[..n] == order;
    }
  }

  /**
   * In a completed walk, the folder visited after the first `n` is named by the first
   * element, among those the first `n` visits put in the history, whose folder is not
   * among them.
   */
  lemma NextVisit(remote: Remote, root: string, order: seq<string>, n: nat) returns (f: nat)
    requires OrderedWalk(remote, root, order)
    requires 0 < n < |order|
    ensures f < |AllEntries(remote, root, order[..n])|
    ensures AllEntries(remote, root, order[..n])[f].id == order[n]
    ensures FirstUnseen(AllEntries(remote, root, order[..n]), order[..n], f)
  {
    var q, i';
    f, q, i' := FirstEntryBefore(remote, root, order, order[n]);
    // The element `q` appended for `order[n]` belongs to an earlier visit, so it is already in the prefix's history.
    EntryInPrefix(remote, order, n, q, i');
    AllEntriesPrefix(remote, root, order, n);
    PrefixSeen(remote, root, order, n, f);
  }

  /** The history of a prefix of the visits is a prefix of the history. */
  lemma AllEntriesPrefix(remote: Remote, root: string, order: seq<string>, n: nat)
    requires n <= |order|
    ensures |AllEntries(remote, root, order[..n])| <= |AllEntries(remote, root, order)|
    ensures forall p :: 0 <= p < |AllEntries(remote, root, order[..n])| ==>
              AllEntries(remote, root, order[..n])[p] == AllEntries(remote, root, order)[p]
  {
    EntriesPrefix(remote, order, n);
    var e, e' := Entries(remote, order[..n]), Entries(remote, order);
    forall p | 0 < p < |AllEntries(remote, root, order[..n])|
      ensures AllEntries(remote, root, order[..n])[p] == AllEntries(remote, root, order)[p]
    {
      assert e[p - 1] == e'[..|e|][p - 1];
    }
  }

  /** Every element before the first one naming `order[n]` names one of the first `n` visits. */
  lemma PrefixSeen(remote: Remote, root: string, order: seq<string>, n: nat, f: nat)
    requires OrderedWalk(remote, root, order)
    requires 0 < n < |order|
    requires f == FirstIndex(AllEntries(remote, root, order), order[n])
    requires f < |AllEntries(remote, root, order[..n])| <= |AllEntries(remote, root, order)|
    requires forall p :: 0 <= p < |AllEntries(remote, root, order[..n])| ==>
               AllEntries(remote, root, order[..n])[p] == AllEntries(remote, root, order)[p]
    ensures AllEntries(remote, root, order[..n])[f].id == order[n]
    ensures FirstUnseen(AllEntries(remote, root, order[..n]), order[..n], f)
  {
    var h := AllEntries(remote, root, order[..n]);
    assert h[f] == AllEntries(remote, root, order)[f];
    forall p | 0 <= p < f ensures h[p].id in order[..n] {
      assert h[p] == AllEntries(remote, root, order)[p];
      SeenBefore(remote, root, order, n, p);
    }
  }

  /** Position `f` of the history `h` is the first whose folder is not among `seen`. */
  ghost predicate FirstUnseen(h: seq<Entry>, seen: seq<string>, f: nat)
  {
    && f < |h| && h[f].id !in seen
    && forall p :: 0 <= p < f ==> h[p].id in seen
  }

  lemma FirstUnseenUnique(h: seq<Entry>, seen: seq<string>, f: nat, g: nat)
    requires FirstUnseen(h, seen, f) && FirstUnseen(h, seen, g)
    ensures f == g
  {
  }

  /** An element appended by a visit before number `n` lies among the elements the first `n` visits append. */
  lemma EntryInPrefix(remote: Remote, order: seq<string>, n: nat, q: nat, i': nat)
    requires NoDups(order) && n <= |order|
    requires q < |Entries(remote, order)| && i' < n
    requires Entries(remote, order)[q].parent == Some(order[i'])
    ensures q < |Entries(remote, order[..n])|
  {
    var b := BlockOf(remote, order, n, q);
    assert order[b] == order[i'];
  }

  /**
   * The visit `b` that appended element `q`: the element lies among those the first `n`
   * visits append exactly when `b` is one of those visits.
   */
  lemma {:induction false} BlockOf(remote: Remote, order: seq<string>, n: nat, q: nat) returns (b: nat)
    requires n <= |order| && q < |Entries(remote, order)|
    ensures b < |order| && Entries(remote, order)[q].parent == Some(order[b])
    ensures q < |Entries(remote, order[..n])| <==> b < n
    decreases |order|
  {
    EntryOrigin(remote, order, q);
    if n == |order| {
      assert order[..n] == order;
      b :| 0 <= b < |order| && Entries(remote, order)[q].parent == Some(order[b])
           && Entries(remote, order)[q].id in ChildIds(remote, order[b]);
    } else {
      var o' := order[..|order| - 1];
      var x := order[|order| - 1];
      var e' := Entries(remote, o');
      assert order[..n] == o'[..n];
      EntriesPrefix(remote, o', n);
      if q < |e'| {
        b := BlockOf(remote, o', n, q);
        assert Entries(remote, order)[q] == e'[q] && o'[b] == order[b];
      } else {
        assert Entries(remote, order)[q] == KidEntries(x, ChildrenOf(remote, x))[q - |e'|];
        b := |order| - 1;
      }
    }
  }

  /** In an ordered walk, an element before the first one naming `order[n]` names an earlier visit. */
  lemma SeenBefore(remote: Remote, root: string, order: seq<string>, n: nat, p: nat)
    requires OrderedWalk(remote, root, order)
    requires n < |order|
    requires p < FirstIndex(AllEntries(remote, root, order), order[n])
    ensures AllEntries(remote, root, order)[p].id in order[..n]
  {
    var es := AllEntries(remote, root, order);
    var x := es[p].id;
    assert x in order;
    var m :| 0 <= m < |order| && order[m] == x;
    assert FirstIndex(es, order[m]) <= p;
    VisitedInQueueOrder(es, order, m, n);
    assert order[..n][m] == x;
  }

  /** Visits in queue order: a folder first named earlier was visited earlier. */
  lemma VisitedInQueueOrder(es: seq<Entry>, order: seq<string>, m: nat, n: nat)
    requires QueueOrder(es, order) && m < |order| && n < |order|
    requires FirstIndex(es, order[m]) < FirstIndex(es, order[n])
    ensures m < n
  {
  }

  /** Two ordered walks from the same root agree on their first `n` visits. */
  lemma {:induction false} PrefixesAgree(remote: Remote, root: string, a: seq<string>, b: seq<string>, n: nat)
    requires OrderedWalk(remote, root, a) && OrderedWalk(remote, root, b)
    requires 0 < n <= |a| && n <= |b|
    ensures a[..n] == b[..n]
  {
    if n == 1 {
      SnocAgrees(a, b, 0);
    } else {
      PrefixesAgree(remote, root, a, b, n - 1);
      NextAgrees(remote, root, a, b, n - 1);
      SnocAgrees(a, b, n - 1);
    }
  }

  lemma SnocAgrees<T>(a: seq<T>, b: seq<T>, m: nat)
    requires m < |a| && m < |b| && a[..m] == b[..m] && a[m] == b[m]
    ensures a[..m + 1] == b[..m + 1]
  {
    assert a[..m + 1] == a[..m] + [a[m]];
    assert b[..m + 1] == b[..m] + [b[m]];
  }

  /** Two ordered walks that agree on their first `m` visits make the same next visit. */
  lemma NextAgrees(remote: Remote, root: string, a: seq<string>, b: seq<string>, m: nat)
    requires OrderedWalk(remote, root, a) && OrderedWalk(remote, root, b)
    requires 0 < m < |a| && m < |b| && a[..m] == b[..m]
    ensures a[m] == b[m]
  {
    var fa := NextVisit(remote, root, a, m);
    var fb := NextVisit(remote, root, b, m);
    FirstUnseenUnique(AllEntries(remote, root, a[..m]), a[..m], fa, fb);
  }

  /** A completed walk visits no more folders than another completed walk from the same root. */
  lemma NotLonger(remote: Remote, root: string, a: seq<string>, b: seq<string>)
    requires CompletedWalk(remote, root, a) && CompletedWalk(remote, root, b)
    ensures |b| <= |a|
  {
    if |a| < |b| {
      CompletedIsOrdered(remote, root, a);
      CompletedIsOrdered(remote, root, b);
      PrefixesAgree(remote, root, a, b, |a|);
      ExtraVisitSeen(remote, root, a, b);
    }
  }

  /** A completed walk is ordered: every queue element names a visited folder. */
  lemma CompletedIsOrdered(remote: Remote, root: string, order: seq<string>)
    requires CompletedWalk(remote, root, order)
    ensures OrderedWalk(remote, root, order)
  {
    var es := AllEntries(remote, root, order);
    forall p | 0 < p < |es| ensures es[p].id in order {
      EntryOrigin(remote, order, p - 1);
    }
  }

  /**
   * A walk that goes on after the visits of a completed walk revisits one of them: the
   * next folder it visits was listed by one of those, so it is among them.
   */
  lemma ExtraVisitSeen(remote: Remote, root: string, a: seq<string>, b: seq<string>)
    requires Closed(remote, a) && ParentsPrecede(remote, b)
    requires |a| < |b| && a == b[..|a|] && a != []
    ensures exists m :: 0 <= m < |a| && b[m] == b[|a|]
  {
    var n := |a|;
    assert ListedBefore(remote, b, n);
    var i :| 0 <= i < n && b[n] in ChildIds(remote, b[i]);
    assert a[i] == b[i];
    assert b[n] in a;
    var m :| 0 <= m < n && a[m] == b[n];
    assert b[m] == a[m];
  }

  /**
   * The order of a completed walk is determined by the remote tree and the root alone:
   * it is the breadth-first order, each folder at the first queue element naming it.
   */
  lemma BuildOrderDetermined(remote: Remote, root: string, a: seq<string>, b: seq<string>)
    requires CompletedWalk(remote, root, a) && CompletedWalk(remote, root, b)
    ensures a == b
  {
    NotLonger(remote, root, a, b);
    NotLonger(remote, root, b, a);
    CompletedIsOrdered(remote, root, a);
    CompletedIsOrdered(remote, root, b);
    PrefixesAgree(remote, root, a, b, |a|);
    WholePrefix(a, b);
  }

  /**
   * The folders of a walk stopped after its first `steps` dequeues are determined by
   * the remote tree, the root and `steps` alone.
   */
  lemma AbortedOrderDetermined(remote: Remote, root: string, a: seq<string>, b: seq<string>, steps: nat)
    requires PartialWalk(remote, root, a, steps) && PartialWalk(remote, root, b, steps)
    ensures a == b
  {
    if steps == 0 {
      assert |a| == 0 && |b| == 0;
    } else {
      PartialIsOrdered(remote, root, a, steps);
      PartialIsOrdered(remote, root, b, steps);
      NotOutlasting(remote, root, a, b, steps);
      NotOutlasting(remote, root, b, a, steps);
      PrefixesAgree(remote, root, a, b, |a|);
      WholePrefix(a, b);
    }
  }

  /** A walk stopped after at least one dequeue is ordered. */
  lemma PartialIsOrdered(remote: Remote, root: string, order: seq<string>, steps: nat)
    requires PartialWalk(remote, root, order, steps) && steps > 0
    ensures OrderedWalk(remote, root, order)
  {
    assert AllEntries(remote, root, order)[0].id == root;
  }

  /** Of two walks stopped after the same dequeues, neither visits more folders than the other. */
  lemma NotOutlasting(remote: Remote, root: string, a: seq<string>, b: seq<string>, steps: nat)
    requires PartialWalk(remote, root, a, steps) && PartialWalk(remote, root, b, steps)
    requires OrderedWalk(remote, root, a) && OrderedWalk(remote, root, b)
    ensures |b| <= |a|
  {
    if |a| < |b| {
      PrefixesAgree(remote, root, a, b, |a|);
      assert b[|a|] in b;
      ExtraPartialVisitSeen(remote, root, a, b, steps);
    }
  }

  /**
   * A walk that visits more folders within the same dequeues as another revisits one of
   * them: the next folder it visits is named within those dequeues, in the part of the
   * history the two walks share.
   */
  lemma ExtraPartialVisitSeen(remote: Remote, root: string, a: seq<string>, b: seq<string>, steps: nat)
    requires |a| < |b| && a == b[..|a|]
    requires steps <= |AllEntries(remote, root, a)|
    requires forall j :: 0 <= j < steps ==> AllEntries(remote, root, a)[j].id in a
    requires FirstIndex(AllEntries(remote, root, b), b[|a|]) < steps
    ensures exists m :: 0 <= m < |a| && b[m] == b[|a|]
  {
    var n := |a|;
    var x := b[n];
    var f := FirstIndex(AllEntries(remote, root, b), x);
    AllEntriesPrefix(remote, root, b, n);
    assert AllEntries(remote, root, a)[f] == AllEntries(remote, root, b)[f];
    assert x in a;
    var m :| 0 <= m < n && a[m] == x;
    assert b[m] == a[m];
  }

  lemma WholePrefix<T>(a: seq<T>, b: seq<T>)
    requires |a| == |b| && a[..|a|] == b[..|b|]
    ensures a == b
  {
    assert a == a[..|a|] && b == b[..|b|];
  }

  /** A queue element appended by folder `order[i]` is one of its children, with its listed name. */
  lemma {:induction false} EntryFromParent(remote: Remote, order: seq<string>, j: nat, i: nat)
    requires j < |Entries(remote, order)| && i < |order|
    requires Entries(remote, order)[j].parent == Some(order[i])
    requires NoDups(order)
    ensures exists k :: 0 <= k < |ChildrenOf(remote, order[i])|
              && ChildrenOf(remote, order[i])[k] == Child(Entries(remote, order)[j].id, Entries(remote, order)[j].name)
  {
    var o' := order[..|order| - 1];
    var x := order[|order| - 1];
    var e' := Entries(remote, o');
    var kids := ChildrenOf(remote, x);
    if j < |e'| {
      assert Entries(remote, order)[j] == e'[j];
      EntryOrigin(remote, o', j);
      var i' :| 0 <= i' < |o'| && e'[j].parent == Some(o'[i']) && e'[j].id in ChildIds(remote, o'[i']);
      assert o'[i'] == order[i'];
      assert i' == i;
      EntryFromParent(remote, o', j, i);
    } else {
      var m := j - |e'|;
      assert Entries(remote, order)[j] == KidEntries(x, kids)[m];
      assert order[i] == x && i == |order| - 1;
      assert kids[m] == Child(kids[m].id, kids[m].name);
    }
  }

  /**
   * The subfolder listing inside the walk: request page after page while a continuation
   * token comes back, appending `(child, folderId, name)` for every child of every page
   * served; a failing request ends the listing and keeps what was appended.
   */
  method EnqueueSubfolders(remote: Remote, queue: seq<Entry>, folderId: string) returns (q: seq<Entry>)
    ensures q == queue + KidEntries(folderId, ChildrenOf(remote, folderId))
  {
    q := queue;
    var listing := ListingOf(remote, folderId);
    var pageIndex: nat := 0;
    var more := true;
    ghost var target := queue + KidEntries(folderId, ChildrenOf(remote, folderId));
    CollectedAll(listing);
    while more
      invariant more ==> q + KidEntries(folderId, Collected(listing, pageIndex)) == target
      invariant !more ==> q == target
      decreases |listing.pages| + 1 - pageIndex, more
    {
      var response := Fetch(listing, pageIndex);
      if response.None? {
        PagingFailed(listing, pageIndex, q, folderId, target);
        more := false;
      } else {
        var page := response.value;
        PagingStep(listing, pageIndex, q, folderId, target);
        q := AppendKids(q, folderId, page.files);
        if page.hasNext {
          pageIndex := pageIndex + 1;
        } else {
          more := false;
        }
      }
    }
  }

  /** A served page moves its children from the part still to be listed to the queue. */
  lemma PagingStep(l: Listing, k: nat, q: seq<Entry>, p: string, target: seq<Entry>)
    requires Fetch(l, k).Some?
    requires q + KidEntries(p, Collected(l, k)) == target
    ensures var page := Fetch(l, k).value;
      if page.hasNext then (q + KidEntries(p, page.files)) + KidEntries(p, Collected(l, k + 1)) == target
      else q + KidEntries(p, page.files) == target
  {
    var page := Fetch(l, k).value;
    if page.hasNext {
      assert Collected(l, k) == page.files + Collected(l, k + 1);
      KidEntriesAppend(p, page.files, Collected(l, k + 1));
    } else {
      assert Collected(l, k) == page.files + [];
      assert page.files + [] == page.files;
    }
  }

  /** A failing request appends nothing more. */
  lemma PagingFailed(l: Listing, k: nat, q: seq<Entry>, p: string, target: seq<Entry>)
    requires Fetch(l, k).None?
    requires q + KidEntries(p, Collected(l, k)) == target
    ensures q == target
  {
    assert Collected(l, k) == [];
    assert q + KidEntries(p, []) == q;
  }

  /** Append the queue elements for one page of subfolders of `folderId`. */
  method AppendKids(queue: seq<Entry>, folderId: string, subfolders: seq<Child>) returns (q: seq<Entry>)
    ensures q == queue + KidEntries(folderId, subfolders)
  {
    q := queue;
    for i := 0 to |subfolders|
      invariant q == queue + KidEntries(folderId, subfolders[..i])
    {
      assert subfolders[..i + 1] == subfolders[..i] + [subfolders[i]];
      KidEntriesAppend(folderId, subfolders[..i], [subfolders[i]]);
      q := q + [Entry(subfolders[i].id, Some(folderId), subfolders[i].name)];
    }
    assert subfolders[..|subfolders|] == subfolders;
  }

  // ---------------------------------------------------------------------------
  // The service

  class FolderCacheService {
    /** The `folder_cache` table. */
    var store: Store
    /** `FOLDER_CACHE_MAX_AGE_HOURS`. */
    const maxAgeHours: nat

    ghost predicate Valid()
      reads this
    {
      KeyedById(store)
    }

    /** A service over an existing table; the max age comes from the settings when present, else 24. */
    constructor (table: Store, configuredMaxAge: Option<nat>)
      requires KeyedById(table)
      ensures Valid() && store == table
      ensures maxAgeHours == configuredMaxAge.GetOr(DefaultMaxAgeHours)
    {
      store := table;
      maxAgeHours := configuredMaxAge.GetOr(DefaultMaxAgeHours);
    }

    /**
     * `build_folder_cache`: breadth-first walk from `root` with a FIFO queue and a visited
     * set, writing each visited folder's row as it goes and paging through its subfolders.
     * A failed write or a failed listing is logged and skipped; an unexpected error at
     * dequeue number `abortAt` ends the walk with `[root]`, keeping the rows written so far.
     */
    method BuildFolderCache(root: string, remote: Remote, now: int, writeFails: set<string>, abortAt: Option<nat>)
      returns (ids: seq<string>, ghost order: seq<string>, ghost aborted: bool)
      requires Valid()
      modifies this
      ensures Valid()
      ensures ids != [] && ids[0] == root && NoDups(ids)
      ensures aborted <==> abortAt.Some? && abortAt.value < |AllEntries(remote, root, order)|
      ensures aborted ==> abortAt.Some? && PartialWalk(remote, root, order, abortAt.value)
      ensures BuildOutcome(remote, root, now, writeFails, old(store), store, ids, order, aborted)
    {
      var queue := [Entry(root, None, RootName)];
      var visited: set<string> := {};
      var allFolderIds: seq<string> := [];
      var steps: nat := 0;
      aborted := false;
      WalkStart(remote, root, now, writeFails, store);
      while queue != []
        invariant Walk(remote, root, now, writeFails, old(store), store, queue, visited, allFolderIds, steps)
        invariant abortAt.Some? ==> steps <= abortAt.value
        decreases {root} + AllChildIds(remote) - visited, |queue|
      {
        if abortAt == Some(steps) {
          WalkAborted(remote, root, now, writeFails, old(store), store, queue, visited, allFolderIds, steps);
          order, ids, aborted := allFolderIds, [root], true;
          return;
        }
        assert abortAt.Some? ==> steps + 1 <= abortAt.value;
        var e := queue[0];
        if e.id in visited {
          WalkSkip(remote, root, now, writeFails, old(store), store, queue, visited, allFolderIds, steps);
          queue := queue[1..];
          steps := steps + 1;
          continue;
        }
        WalkVisit(remote, root, now, writeFails, old(store), store, queue, visited, allFolderIds, steps);
        queue := queue[1..];
        steps := steps + 1;
        visited := visited + {e.id};
        allFolderIds := allFolderIds + [e.id];
        if e.id !in writeFails {
          store := store[e.id := FolderRecord(e.id, e.parent, e.name, "/" + e.name, now, true)];
        }
        queue := EnqueueSubfolders(remote, queue, e.id);
      }
      WalkDone(remote, root, now, writeFails, old(store), store, visited, allFolderIds, steps);
      order, ids := allFolderIds, allFolderIds;
    }

    /** `_is_cache_fresh`: a lookup failure counts as stale. */
    method IsCacheFresh(root: string, now: int, readFails: bool) returns (isFresh: bool)
      ensures isFresh <==> !readFails && Fresh(store, root, now, maxAgeHours)
    {
      if readFails {
        return false;
      }
      if root !in store {
        return false;
      }
      var threshold := now - maxAgeHours * MicrosPerHour;
      isFresh := store[root].lastUpdated > threshold;
    }

    /**
     * `_get_cached_folder_ids`: every active id, in the order the database yields them,
     * with the root put first when it is not among them; `[]` when the read fails.
     */
    method GetCachedFolderIds(root: string, readFails: bool) returns (ids: seq<string>)
      ensures readFails ==> ids == []
      ensures !readFails ==> CachedIdsOf(store, root, ids) && ids != []
    {
      if readFails {
        return [];
      }
      var rest := ActiveIds(store);
      var folderIds: seq<string> := [];
      while rest != {}
        invariant rest <= ActiveIds(store)
        invariant forall x :: x in folderIds <==> x in ActiveIds(store) && x !in rest
        invariant NoDups(folderIds)
        invariant |folderIds| + |rest| == |ActiveIds(store)|
        decreases rest
      {
        var x :| x in rest;
        folderIds := folderIds + [x];
        rest := rest - {x};
      }
      if root !in folderIds {
        folderIds := [root] + folderIds;
        assert ActiveIds(store) + {root} == ActiveIds(store) + {root};
        assert |ActiveIds(store) + {root}| == |ActiveIds(store)| + 1;
      } else {
        assert ActiveIds(store) + {root} == ActiveIds(store);
      }
      ids := folderIds;
    }

    /**
     * `get_all_folder_ids`: reuse the cached ids when no refresh is forced, the root
     * row is fresh and the cached read yields something; otherwise rebuild.
     */
    method GetAllFolderIds(root: string, forceRefresh: bool, remote: Remote, now: int, faults: Faults)
      returns (ids: seq<string>, ghost rebuilt: bool, ghost order: seq<string>, ghost aborted: bool)
      requires Valid()
      modifies this
      ensures Valid()
      ensures rebuilt <==> forceRefresh || faults.freshReadFails || !Fresh(old(store), root, now, maxAgeHours)
                           || faults.idsReadFails
      ensures !rebuilt ==> store == old(store) && CachedIdsOf(store, root, ids)
      ensures rebuilt ==> BuildOutcome(remote, root, now, faults.writeFails, old(store), store, ids, order, aborted)
                          && (aborted <==> faults.abortAt.Some? && faults.abortAt.value < |AllEntries(remote, root, order)|)
                          && (aborted ==> faults.abortAt.Some? && PartialWalk(remote, root, order, faults.abortAt.value))
      ensures root in ids
    {
      var cacheIsFresh := IsCacheFresh(root, now, faults.freshReadFails);
      if !forceRefresh && cacheIsFresh {
        ids := GetCachedFolderIds(root, faults.idsReadFails);
        if ids != [] {
          rebuilt, order, aborted := false, [], false;
          return;
        }
      }
      rebuilt := true;
      ids, order, aborted := BuildFolderCache(root, remote, now, faults.writeFails, faults.abortAt);
    }

    /**
     * `invalidate_cache`: soft-delete the root's row (a non-empty id) or every row;
     * a failing update is logged and leaves the table as it was.
     */
    method InvalidateCache(rootId: Option<string>, updateFails: bool)
      requires Valid()
      modifies this
      ensures Valid()
      ensures store == (if updateFails then old(store) else Invalidated(old(store), rootId))
    {
      if updateFails {
        return;
      }
      store := Invalidated(store, rootId);
    }
  }

  // ---------------------------------------------------------------------------
  // Freshness and invalidation

  /** The age test is strict: a root row exactly `maxAgeHours` old is stale; one a microsecond younger is fresh. */
  lemma FreshnessBoundary(s: Store, root: string, now: int, maxAgeHours: nat)
    requires root in s
    ensures s[root].lastUpdated == now - maxAgeHours * MicrosPerHour ==> !Fresh(s, root, now, maxAgeHours)
    ensures s[root].lastUpdated == now - maxAgeHours * MicrosPerHour + 1 ==> Fresh(s, root, now, maxAgeHours)
  {
  }

  /**
   * Invalidation only flips `is_active` and leaves `last_updated` alone, so it never
   * makes a fresh root stale; invalidating everything leaves no active row.
   */
  lemma InvalidateKeepsFreshness(s: Store, rootId: Option<string>, root: string, now: int, maxAgeHours: nat)
    ensures Fresh(Invalidated(s, rootId), root, now, maxAgeHours) <==> Fresh(s, root, now, maxAgeHours)
    ensures rootId == None ==> ActiveIds(Invalidated(s, rootId)) == {}
    ensures forall id :: id in ActiveIds(Invalidated(s, rootId)) <==> id in ActiveIds(s) && !Targets(rootId, id)
  {
    var r := Invalidated(s, rootId);
    if root in s {
      assert r[root].lastUpdated == r[root].(isActive := true).lastUpdated == s[root].(isActive := true).lastUpdated;
    }
  }

  /** With no active row the cached read yields exactly the root. */
  lemma CachedIdsWithNoActiveRow(s: Store, root: string, ids: seq<string>)
    requires CachedIdsOf(s, root, ids)
    requires ActiveIds(s) == {}
    ensures ids == [root]
  {
    assert ActiveIds(s) + {root} == {root};
    assert |ids| == 1;
  }

  /**
   * Invalidating every row and then asking for the ids of a root whose row is fresh
   * answers from the cache, without a rebuild, with the root alone: the freshness
   * check looks at `last_updated` only, not at `is_active`.
   */
  method InvalidateAllThenReuse(cache: FolderCacheService, root: string, remote: Remote, now: int)
    returns (ids: seq<string>, ghost rebuilt: bool)
    requires cache.Valid()
    requires Fresh(cache.store, root, now, cache.maxAgeHours)
    modifies cache
    ensures !rebuilt && ids == [root]
  {
    InvalidateKeepsFreshness(cache.store, None, root, now, cache.maxAgeHours);
    cache.InvalidateCache(None, false);
    ghost var order, aborted;
    ids, rebuilt, order, aborted := cache.GetAllFolderIds(root, false, remote, now, Faults(false, false, {}, None));
    CachedIdsWithNoActiveRow(cache.store, root, ids);
  }
}

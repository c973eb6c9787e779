/**
 * The batch search (`BatchSearchService`): the folder ids are cut into chunks of at
 * most 100, each chunk goes out as one Drive batch request holding one PDF query per
 * folder, and the hits of the successful sub-requests and chunks are concatenated.
 *
 * The Drive answers are the oracle `respond` (the first page of files of a query, or
 * `None` when that sub-request fails); whether a whole batch request fails is given by
 * the set of failing chunk positions.
 */
module BatchSearch {
  import opened Wrappers
  import opened Seqs
  import opened Drive

  /** `self.batch_size`: the Google API limit on sub-requests per batch. */
  const BatchSize: nat := 100

  function Min(a: int, b: int): int
  {
    if a <= b then a else b
  }

  /** Python's `s[lo:hi]` for non-negative bounds: both ends are clamped to the length. */
  function Slice<T>(s: seq<T>, lo: nat, hi: nat): seq<T>
  {
    var a := Min(lo, |s|);
    var b := Min(hi, |s|);
    if a < b then s[a..b] else []
  }

  /** The number of values of `range(0, n, 100)`. */
  function ChunkCount(n: nat): nat
  {
    (n + 99) / 100
  }

  /** The pieces of `range(0, n, 100)` fit: every start is inside, and all but the last chunk are full. */
  lemma ChunkBounds(n: nat, k: nat)
    requires k < ChunkCount(n)
    ensures k * 100 < n
    ensures k + 1 < ChunkCount(n) ==> k * 100 + 100 <= n
    ensures k + 1 == ChunkCount(n) ==> n <= k * 100 + 100
  {
  }

  /**
   * `[ids[i:i+100] for i in range(0, len(ids), 100)]`: consecutive chunks, each
   * non-empty and of at most `BatchSize` ids, all but the last of exactly `BatchSize`,
   * `ceil(n / 100)` of them, whose concatenation is `ids` in order.
   */
  function Chunks(ids: seq<string>): (r: seq<seq<string>>)
    ensures |r| == ChunkCount(|ids|)
    ensures forall k :: 0 <= k < |r| ==> r[k] != [] && |r[k]| <= BatchSize
    ensures forall k :: 0 <= k < |r| - 1 ==> |r[k]| == BatchSize
    ensures Concat(r) == ids
  {
    var r := seq(ChunkCount(|ids|), k requires k >= 0 => Slice(ids, k * 100, k * 100 + 100));
    forall k | 0 <= k < |r|
      ensures r[k] == ids[k * 100..Min(k * 100 + 100, |ids|)]
      ensures r[k] != [] && |r[k]| <= BatchSize
      ensures k < |r| - 1 ==> |r[k]| == BatchSize
    {
      ChunkBounds(|ids|, k);
    }
    ChunksConcat(ids, r, |r|);
    r
  }

  /** The first `m` chunks concatenate to the first `min(100 m, n)` ids. */
  lemma {:induction false} ChunksConcat(ids: seq<string>, r: seq<seq<string>>, m: nat)
    requires |r| == ChunkCount(|ids|) && m <= |r|
    requires forall k :: 0 <= k < |r| ==> r[k] == ids[k * 100..Min(k * 100 + 100, |ids|)]
    ensures Concat(r[..m]) == ids[..Min(m * 100, |ids|)]
    ensures m == |r| ==> Concat(r) == ids
  {
    if m > 0 {
      var k := m - 1;
      ChunksConcat(ids, r, k);
      ChunkBounds(|ids|, k);
      ConcatStep(r, k);
      var lo := k * 100;
      var hi := Min(k * 100 + 100, |ids|);
      assert ids[..hi] == ids[..lo] + ids[lo..hi];
    }
    if m == |r| {
      assert r[..m] == r;
      assert ids[..Min(m * 100, |ids|)] == ids;
    }
  }

  /** The sub-request query `_execute_batch` sends for one folder (no spaces around `=`). */
  function BatchQuery(folderId: string, searchConditions: string): string
  {
    "'" + folderId + PdfTail + (if searchConditions != "" then " and " + searchConditions else "")
  }

  /** What follows the folder id in a batch sub-request query. */
  const PdfTail := "' in parents and mimeType='" + PdfMimeType + "' and trashed=false"

  /** Distinct folders under the same conditions get distinct queries; the conditions are appended only when non-empty. */
  lemma BatchQueryShape(a: string, b: string, searchConditions: string)
    ensures BatchQuery(a, searchConditions) == BatchQuery(b, searchConditions) ==> a == b
    ensures searchConditions == "" ==> BatchQuery(a, "") == "'" + a + PdfTail
    ensures searchConditions != "" ==>
              BatchQuery(a, searchConditions) == BatchQuery(a, "") + " and " + searchConditions
  {
    var tail := PdfTail + (if searchConditions != "" then " and " + searchConditions else "");
    var qa := BatchQuery(a, searchConditions);
    var qb := BatchQuery(b, searchConditions);
    assert qa == "'" + a + tail;
    assert qb == "'" + b + tail;
    if qa == qb {
      assert |a| == |b|;
      assert a == qa[1..|a| + 1];
      assert b == qb[1..|b| + 1];
    }
  }

  /** One sub-request per folder of the chunk, in the chunk's order. */
  function BatchQueries(folderIds: seq<string>, searchConditions: string): (r: seq<string>)
    ensures |r| == |folderIds|
    ensures forall i :: 0 <= i < |folderIds| ==> r[i] == BatchQuery(folderIds[i], searchConditions)
  {
    seq(|folderIds|, i requires 0 <= i < |folderIds| => BatchQuery(folderIds[i], searchConditions))
  }

  lemma BatchQueriesAppend(a: seq<string>, b: seq<string>, searchConditions: string)
    ensures BatchQueries(a + b, searchConditions) == BatchQueries(a, searchConditions) + BatchQueries(b, searchConditions)
  {
  }

  /**
   * `_execute_batch`: one sub-request per folder is added to the batch, then the batch
   * runs and its callback appends the files of every sub-request that did not fail, in
   * the order the sub-requests were added. `None` when the batch request itself raises.
   */
  method ExecuteBatch(folderIds: seq<string>, searchConditions: string,
                      respond: string -> Option<seq<DriveFile>>, batchFails: bool)
    returns (requests: seq<string>, results: Option<seq<DriveFile>>)
    ensures requests == BatchQueries(folderIds, searchConditions)
    ensures batchFails ==> results == None
    ensures !batchFails ==> results == Some(Responses(requests, respond))
  {
    requests := [];
    for i := 0 to |folderIds|
      invariant requests == BatchQueries(folderIds[..i], searchConditions)
    {
      assert folderIds[..i + 1] == folderIds[..i] + [folderIds[i]];
      BatchQueriesAppend(folderIds[..i], [folderIds[i]], searchConditions);
      requests := requests + [BatchQuery(folderIds[i], searchConditions)];
    }
    assert folderIds[..|folderIds|] == folderIds;
    if batchFails {
      return requests, None;
    }
    var hits: seq<DriveFile> := [];
    for j := 0 to |requests|
      invariant hits == Responses(requests[..j], respond)
    {
      assert requests[..j + 1][..j] == requests[..j];
      var response := respond(requests[j]);
      if response.Some? {
        hits := hits + response.value;
      }
    }
    assert requests[..|requests|] == requests;
    results := Some(hits);
  }

  /** What chunk `k` contributes: nothing when its batch request raises, else its sub-requests' hits. */
  function ChunkResults(chunks: seq<seq<string>>, searchConditions: string,
                        respond: string -> Option<seq<DriveFile>>, failedChunks: set<nat>): (r: seq<seq<DriveFile>>)
    ensures |r| == |chunks|
    ensures forall k :: 0 <= k < |chunks| ==>
              r[k] == if k in failedChunks then [] else Responses(BatchQueries(chunks[k], searchConditions), respond)
  {
    seq(|chunks|, k requires 0 <= k < |chunks| =>
      if k in failedChunks then [] else Responses(BatchQueries(chunks[k], searchConditions), respond))
  }

  /** The hits of every successful chunk, in chunk order. */
  function ChunkHits(chunks: seq<seq<string>>, searchConditions: string,
                     respond: string -> Option<seq<DriveFile>>, failedChunks: set<nat>): seq<DriveFile>
  {
    Concat(ChunkResults(chunks, searchConditions, respond, failedChunks))
  }

  /**
   * `batch_search`: `[]` for no folders; otherwise every chunk in turn, a chunk whose
   * batch raises being logged and skipped.
   */
  method Search(folderIds: seq<string>, searchConditions: string,
                respond: string -> Option<seq<DriveFile>>, failedChunks: set<nat>)
    returns (allResults: seq<DriveFile>)
    ensures folderIds == [] ==> allResults == []
    ensures allResults == ChunkHits(Chunks(folderIds), searchConditions, respond, failedChunks)
  {
    if folderIds == [] {
      return [];
    }
    var folderChunks := Chunks(folderIds);
    ghost var per := ChunkResults(folderChunks, searchConditions, respond, failedChunks);
    allResults := [];
    for chunkIdx := 0 to |folderChunks|
      invariant allResults == Concat(per[..chunkIdx])
    {
      var requests, chunkResults := ExecuteBatch(folderChunks[chunkIdx], searchConditions, respond,
                                                 chunkIdx in failedChunks);
      ConcatStep(per, chunkIdx);
      if chunkResults.Some? {
        allResults := allResults + chunkResults.value;
      } else {
        assert per[chunkIdx] == [];
        assert allResults + [] == allResults;
      }
    }
    assert per[..|folderChunks|] == per;
  }

  /** Cutting into chunks loses nothing: the per-chunk hits concatenate to the hits of one request per folder. */
  lemma {:induction false} ChunkedResponses(chunks: seq<seq<string>>, searchConditions: string,
                                            respond: string -> Option<seq<DriveFile>>)
    ensures ChunkHits(chunks, searchConditions, respond, {}) ==
            Responses(BatchQueries(Concat(chunks), searchConditions), respond)
    decreases |chunks|
  {
    var per := ChunkResults(chunks, searchConditions, respond, {});
    if chunks != [] {
      var front := chunks[..|chunks| - 1];
      var last := chunks[|chunks| - 1];
      ChunkedResponses(front, searchConditions, respond);
      assert per[..|per| - 1] == ChunkResults(front, searchConditions, respond, {});
      BatchQueriesAppend(Concat(front), last, searchConditions);
      ResponsesAppend(BatchQueries(Concat(front), searchConditions), BatchQueries(last, searchConditions), respond);
    }
  }

  /** With no failing batch, the search returns the hits of every folder's query, in folder order. */
  lemma NoFailedChunk(folderIds: seq<string>, searchConditions: string, respond: string -> Option<seq<DriveFile>>)
    ensures ChunkHits(Chunks(folderIds), searchConditions, respond, {}) ==
            Responses(BatchQueries(folderIds, searchConditions), respond)
  {
    ChunkedResponses(Chunks(folderIds), searchConditions, respond);
  }

  /** The number, in the whole list, of chunk `j` of the list with its first `m` chunks dropped. */
  function Offset(j: nat, m: nat): nat
  {
    j + m
  }

  /** Which of the `count` chunks after the first `m` fail, numbered from the first of them. */
  function Shifted(failedChunks: set<nat>, m: nat, count: nat): (r: set<nat>)
    ensures forall j: nat :: j in r <==> j < count && Offset(j, m) in failedChunks
  {
    set j: nat | j < count && Offset(j, m) in failedChunks
  }

  /**
   * A chunk whose batch raises contributes nothing, and the chunks before and after it
   * contribute what they would have contributed on their own.
   */
  lemma FailedChunkIsolated(chunks: seq<seq<string>>, searchConditions: string,
                            respond: string -> Option<seq<DriveFile>>, failedChunks: set<nat>, k: nat)
    requires k < |chunks|
    ensures var before := ChunkHits(chunks[..k], searchConditions, respond, failedChunks);
            var after := ChunkHits(chunks[k + 1..], searchConditions, respond,
                                   Shifted(failedChunks, k + 1, |chunks| - (k + 1)));
            && ChunkHits(chunks, searchConditions, respond, failedChunks - {k}) ==
               before + Responses(BatchQueries(chunks[k], searchConditions), respond) + after
            && ChunkHits(chunks, searchConditions, respond, failedChunks + {k}) == before + after
  {
    var ok := ChunkResults(chunks, searchConditions, respond, failedChunks - {k});
    var failed := ChunkResults(chunks, searchConditions, respond, failedChunks + {k});
    SplitAround(chunks, searchConditions, respond, failedChunks - {k}, failedChunks, k);
    SplitAround(chunks, searchConditions, respond, failedChunks + {k}, failedChunks, k);
    assert ok[k] == Responses(BatchQueries(chunks[k], searchConditions), respond);
    assert failed[k] == [];
    assert ChunkHits(chunks[..k], searchConditions, respond, failedChunks) + [] ==
           ChunkHits(chunks[..k], searchConditions, respond, failedChunks);
  }

  /**
   * The hits of chunk list split around chunk `k`, when the failing chunks `failing` agree
   * with `failedChunks` everywhere except perhaps at `k`.
   */
  lemma SplitAround(chunks: seq<seq<string>>, searchConditions: string,
                    respond: string -> Option<seq<DriveFile>>, failing: set<nat>, failedChunks: set<nat>, k: nat)
    requires k < |chunks|
    requires forall j: nat :: j != k ==> (j in failing <==> j in failedChunks)
    ensures ChunkHits(chunks, searchConditions, respond, failing) ==
            ChunkHits(chunks[..k], searchConditions, respond, failedChunks) +
            ChunkResults(chunks, searchConditions, respond, failing)[k] +
            ChunkHits(chunks[k + 1..], searchConditions, respond, Shifted(failedChunks, k + 1, |chunks| - (k + 1)))
  {
    var per := ChunkResults(chunks, searchConditions, respond, failing);
    assert per[..k] == ChunkResults(chunks[..k], searchConditions, respond, failedChunks);
    SuffixResults(chunks, searchConditions, respond, failing, Shifted(failedChunks, k + 1, |chunks| - (k + 1)), k + 1);
    ConcatSplit(per, k);
  }

  /**
   * The results of the chunks after the first `m` are those chunks' own results, given
   * their failing chunk numbers `shifted` renumbered from the start of the suffix.
   */
  lemma SuffixResults(chunks: seq<seq<string>>, searchConditions: string,
                      respond: string -> Option<seq<DriveFile>>, failedChunks: set<nat>,
                      shifted: set<nat>, m: nat)
    requires m <= |chunks|
    requires forall j: nat :: j < |chunks| - m ==> (j in shifted <==> Offset(j, m) in failedChunks)
    ensures ChunkResults(chunks[m..], searchConditions, respond, shifted) ==
            ChunkResults(chunks, searchConditions, respond, failedChunks)[m..]
  {
    var lhs := ChunkResults(chunks[m..], searchConditions, respond, shifted);
    var rhs := ChunkResults(chunks, searchConditions, respond, failedChunks)[m..];
    assert |lhs| == |rhs|;
    forall j | 0 <= j < |lhs| ensures lhs[j] == rhs[j] {
      var c := chunks[j + m];
      assert chunks[m..][j] == c;
      assert rhs[j] == ChunkResults(chunks, searchConditions, respond, failedChunks)[j + m];
    }
  }

  /** Splitting a concatenation around piece `k`. */
  lemma ConcatSplit<T>(ss: seq<seq<T>>, k: nat)
    requires k < |ss|
    ensures Concat(ss) == Concat(ss[..k]) + ss[k] + Concat(ss[k + 1..])
  {
    ConcatPrefix(ss, k + 1);
    ConcatStep(ss, k);
    assert ss[..k + 1][..k] == ss[..k];
  }
}

/**
 The anti-entropy loop of handlers/sync.go. The peer list and the outcome of each peer's
 GET /gcounter/values request are parameters: `responses[i]` is what the HTTP round trip and the
 JSON decoding would yield for `peers[i]`.
 */
module AntiEntropy {
  import opened SlotMaps
  import opened GCounters

  /** The outcome of fetching one peer's Count map: an error of any kind, or the decoded map. */
  datatype Response = Failure | Success(values: Slots)

  /** The error Sync returns when the peer list is empty. */
  datatype SyncError = NilPeersPresent

  datatype Option<T> = None | Some(value: T)

  /**
   SendListRequest with the network abstracted to `response`: an empty peer name fails before
   any request is made; otherwise the request's own outcome is returned.
   */
  function SendListRequest(peer: string, response: Response): (r: Response)
    ensures peer == "" ==> r == Failure
    ensures peer != "" ==> r == response
  {
    if peer == "" then Failure else response
  }

  /** A fetched view is folded in only when the fetch succeeded and the map is non-empty. */
  predicate Mergeable(r: Response): (b: bool)
    ensures r.Failure? ==> !b
    ensures r.Success? ==> (b <==> r.values != map[])
  {
    r.Success? && r.values != map[]
  }

  /** The peer views Sync folds into the local counter, in peer-list order. */
  function MergedViews(peers: seq<string>, responses: seq<Response>): (vs: seq<Slots>)
    requires |responses| == |peers|
    ensures |vs| <= |peers|
    ensures forall v :: v in vs ==> v != map[]
    decreases |peers|
  {
    if peers == [] then []
    else
      var n := |peers| - 1;
      var front := MergedViews(peers[..n], responses[..n]);
      var outcome := SendListRequest(peers[n], responses[n]);
      if Mergeable(outcome) then front + [outcome.values] else front
  }

  /**
   Exactly the successful, non-empty views of peers with a non-empty name are merged: a failed
   fetch, an empty peer name and an empty map all contribute nothing.
   */
  lemma {:induction false} MergedViewsAre(peers: seq<string>, responses: seq<Response>, v: Slots)
    requires |responses| == |peers|
    ensures v in MergedViews(peers, responses) <==>
              exists i :: 0 <= i < |peers| && peers[i] != "" && responses[i] == Success(v) && v != map[]
    decreases |peers|
  {
    if peers != [] {
      var n := |peers| - 1;
      MergedViewsAre(peers[..n], responses[..n], v);
      if exists i :: 0 <= i < n && peers[..n][i] != "" && responses[..n][i] == Success(v) && v != map[] {
        var i :| 0 <= i < n && peers[..n][i] != "" && responses[..n][i] == Success(v) && v != map[];
        assert peers[i] == peers[..n][i] && responses[i] == responses[..n][i];
      }
      if exists i :: 0 <= i < |peers| && peers[i] != "" && responses[i] == Success(v) && v != map[] {
        var i :| 0 <= i < |peers| && peers[i] != "" && responses[i] == Success(v) && v != map[];
        if i < n {
          assert peers[..n][i] == peers[i] && responses[..n][i] == responses[i];
        }
      }
    }
  }

  /** No peer offers a view to fold in. */
  ghost predicate NothingToMerge(peers: seq<string>, responses: seq<Response>)
    requires |responses| == |peers|
  {
    forall i :: 0 <= i < |peers| ==> !Mergeable(SendListRequest(peers[i], responses[i]))
  }

  lemma NothingToMergePrefix(peers: seq<string>, responses: seq<Response>, n: nat)
    requires |responses| == |peers| && n <= |peers|
    requires NothingToMerge(peers, responses)
    ensures NothingToMerge(peers[..n], responses[..n])
  {
    forall i | 0 <= i < n ensures !Mergeable(SendListRequest(peers[..n][i], responses[..n][i])) {
      assert peers[..n][i] == peers[i] && responses[..n][i] == responses[i];
    }
  }

  /**
   The views merged from one more peer, for each outcome of its fetch: a failure and an empty
   map leave the views as they were, any other map is appended.
   */
  lemma MergedViewsOneMore(peers: seq<string>, responses: seq<Response>, i: nat)
    requires |responses| == |peers| && i < |peers|
    ensures SendListRequest(peers[i], responses[i]).Failure? ==>
              MergedViews(peers[..i + 1], responses[..i + 1]) == MergedViews(peers[..i], responses[..i])
    ensures SendListRequest(peers[i], responses[i]) == Success(map[]) ==>
              MergedViews(peers[..i + 1], responses[..i + 1]) == MergedViews(peers[..i], responses[..i])
    ensures Mergeable(SendListRequest(peers[i], responses[i])) ==>
              MergedViews(peers[..i + 1], responses[..i + 1]) ==
              MergedViews(peers[..i], responses[..i]) + [SendListRequest(peers[i], responses[i]).values]
  {
    assert peers[..i + 1][..i] == peers[..i] && responses[..i + 1][..i] == responses[..i];
  }

  /** Merge(local, view) on the fold so far is the fold over one more view. */
  lemma FoldOneMoreView(start: Slots, front: seq<Slots>, v: Slots)
    ensures MergeAll([JoinAll(start, front), v]) == JoinAll(start, front + [v])
  {
    MergeOfTwo(JoinAll(start, front), v);
    JoinAllSnoc(start, front, v);
  }

  /**
   Sync: with no peers, returns the local counter untouched and an error. Otherwise fetches each
   peer in list order, skips failures and empty views, and folds every other view into the
   local counter with Merge(local, view); the error is then nil even if every peer failed.
   Since Merge writes into its first argument, the returned counter is `local` itself.
   */
  method Sync(local: GCounter, peers: seq<string>, responses: seq<Response>)
    returns (synced: GCounter, err: Option<SyncError>)
    requires |responses| == |peers|
    requires local.count != null || NothingToMerge(peers, responses)
    modifies local.count
    ensures synced == local
    ensures err == (if peers == [] then Some(NilPeersPresent) else None)
    ensures Contents(synced) == JoinAll(old(Contents(local)), MergedViews(peers, responses))
    ensures Below(old(Contents(local)), Contents(synced))
  {
    if |peers| == 0 {
      return local, Some(NilPeersPresent);
    }
    ghost var start := Contents(local);
    synced := local;
    var i := 0;
    while i < |peers|
      invariant 0 <= i <= |peers|
      invariant synced == local
      invariant Contents(synced) == JoinAll(start, MergedViews(peers[..i], responses[..i]))
    {
      ghost var front := MergedViews(peers[..i], responses[..i]);
      MergedViewsOneMore(peers, responses, i);
      var peerCounter := SendListRequest(peers[i], responses[i]);
      assert local.count == null ==> !Mergeable(peerCounter);
      if peerCounter.Failure? {
        assert MergedViews(peers[..i + 1], responses[..i + 1]) == front;
        i := i + 1;
        continue;
      }
      if peerCounter.values == map[] {
        assert MergedViews(peers[..i + 1], responses[..i + 1]) == front;
        i := i + 1;
        continue;
      }
      assert MergedViews(peers[..i + 1], responses[..i + 1]) == front + [peerCounter.values];
      var peerMap := new CountMap(peerCounter.values);
      ViewsOfTwo(synced, GCounter(peerMap));
      synced := Merge([synced, GCounter(peerMap)]);
      FoldOneMoreView(start, front, peerCounter.values);
      i := i + 1;
    }
    assert peers[..i] == peers && responses[..i] == responses;
    err := None;
  }

  /** Folding the views one Merge(local, view) at a time equals one Merge(local, view1, ..., viewN). */
  lemma SyncIsMerge(local: Slots, peers: seq<string>, responses: seq<Response>)
    requires |responses| == |peers|
    ensures JoinAll(local, MergedViews(peers, responses)) == MergeAll([local] + MergedViews(peers, responses))
  {
    JoinAllSelfFirst(local, MergedViews(peers, responses));
  }

  /** Every peer failed or offered nothing: no view is folded in, so Sync leaves the counter as it was. */
  lemma {:induction false} SyncWithoutViews(peers: seq<string>, responses: seq<Response>)
    requires |responses| == |peers|
    requires NothingToMerge(peers, responses)
    ensures MergedViews(peers, responses) == []
    decreases |peers|
  {
    if peers != [] {
      var n := |peers| - 1;
      NothingToMergePrefix(peers, responses, n);
      SyncWithoutViews(peers[..n], responses[..n]);
    }
  }

  /** Every fetched map holds only non-negative counts. */
  ghost predicate ResponsesNonNegative(responses: seq<Response>)
  {
    forall i :: 0 <= i < |responses| && responses[i].Success? ==> NonNegative(responses[i].values)
  }

  /** The views Sync folds in are non-negative when every fetched map is. */
  lemma MergedViewsNonNegative(peers: seq<string>, responses: seq<Response>)
    requires |responses| == |peers| && ResponsesNonNegative(responses)
    ensures AllNonNegative(MergedViews(peers, responses))
  {
    var vs := MergedViews(peers, responses);
    forall i | 0 <= i < |vs| ensures NonNegative(vs[i]) {
      assert vs[i] in vs;
      MergedViewsAre(peers, responses, vs[i]);
    }
  }

  /** Every (peer, outcome) pair of one list occurs in the other, in any order and any number of times. */
  ghost predicate SameFetches(peers: seq<string>, responses: seq<Response>,
                              peers': seq<string>, responses': seq<Response>)
  {
    && |responses| == |peers| && |responses'| == |peers'|
    && (forall i :: 0 <= i < |peers| ==>
          exists j :: 0 <= j < |peers'| && peers'[j] == peers[i] && responses'[j] == responses[i])
    && (forall j :: 0 <= j < |peers'| ==>
          exists i :: 0 <= i < |peers| && peers[i] == peers'[j] && responses[i] == responses'[j])
  }

  /** Two peer lists that pair the same peers with the same outcomes fold in the same views. */
  lemma SameMergedViews(peers: seq<string>, responses: seq<Response>,
                        peers': seq<string>, responses': seq<Response>, v: Slots)
    requires |responses| == |peers| && |responses'| == |peers'|
    requires SameFetches(peers, responses, peers', responses')
    ensures v in MergedViews(peers, responses) <==> v in MergedViews(peers', responses')
  {
    MergedViewsAre(peers, responses, v);
    MergedViewsAre(peers', responses', v);
  }

  /**
   Order independence of Sync: two peer lists that pair the same peers with the same outcomes,
   in any order and with any repetition, yield the same counter when all counts are non-negative.
   */
  lemma SyncOrderIndependent(local: Slots, peers: seq<string>, responses: seq<Response>,
                             peers': seq<string>, responses': seq<Response>)
    requires |responses| == |peers| && |responses'| == |peers'|
    requires NonNegative(local) && ResponsesNonNegative(responses)
    requires SameFetches(peers, responses, peers', responses')
    ensures JoinAll(local, MergedViews(peers, responses)) == JoinAll(local, MergedViews(peers', responses'))
  {
    var vs, vs' := MergedViews(peers, responses), MergedViews(peers', responses');
    forall v ensures v in [local] + vs <==> v in [local] + vs' {
      SameMergedViews(peers, responses, peers', responses', v);
    }
    MergedViewsNonNegative(peers, responses);
    AllNonNegativeCons(local, vs);
    MergeAllOrderIndependent([local] + vs, [local] + vs');
    SyncIsMerge(local, peers, responses);
    SyncIsMerge(local, peers', responses');
  }

  /**
   Per-node maximum: after Sync each slot of a non-negative counter is the largest count held
   for that node by the local counter or any view that was folded in.
   */
  lemma SyncIsSlotMax(local: Slots, peers: seq<string>, responses: seq<Response>, k: string)
    requires |responses| == |peers|
    requires NonNegative(local) && ResponsesNonNegative(responses)
    requires k in JoinAll(local, MergedViews(peers, responses))
    ensures JoinAll(local, MergedViews(peers, responses))[k] == SlotMax([local] + MergedViews(peers, responses), k)
  {
    MergedViewsNonNegative(peers, responses);
    JoinAllIsSlotMax(local, MergedViews(peers, responses), k);
  }
}

/**
 * The current service's scan and mark-as-read jobs (`scan_emails`, `mark_emails_as_read`,
 * `scan_senders_for_delete`). Each job resets its record, reports through the shared
 * `AppState`, lists ids page by page, and then either reads them in batches of 100 or
 * modifies them in chunks of 100.
 *
 * The Gmail service is an input: `service` is the error `get_gmail_service` returns, if any.
 * The pages, the batch responses and the `batchModify` outcome are inputs too. Each job
 * method returns the requests it made and is proved equal to a specification function of
 * its inputs (`...Run`); the lemmas state what those functions promise.
 */
module Jobs {
  import opened Wrappers
  import opened Text
  import opened Headers
  import opened Query
  import opened Paging
  import opened Chunking
  import opened Aggregation
  import opened Scans
  import opened State

  /** `q=query or None`, and `if query: list_params['q'] = query`. */
  function QueryParam(q: string): (r: Option<string>)
    ensures r.None? <==> q == ""
    ensures r.Some? ==> r.value == q
  {
    if q == "" then None else Some(q)
  }

  function Last(s: seq<nat>): nat
  {
    if s == [] then 0 else s[|s| - 1]
  }

  // ----- scan_emails -----

  /** What a scan did: its list requests, the batches of reads, the progress after each
      batch, and the results and record it left. */
  datatype ScanRun = ScanRun(requests: seq<ListRequest>, batches: seq<seq<string>>, progress: seq<nat>,
                             results: seq<SubscriptionRow>, status: Status)

  function ScanEmailsRun(limit: int, filters: Option<Filters>, service: Option<string>,
                         pages: seq<ListResult>, responses: seq<Option<HeaderSet>>): ScanRun
  {
    if service.Some? then
      ScanRun([], [], [], [], Status(0, "Connecting to Gmail...", true, service, Plain))
    else
      var l := UpTo(pages, limit, false, QueryParam(BuildQuery(filters)));
      if l.error.Some? then
        ScanRun(l.requests, [], [], [], Status(0, "Fetching email list...", true, l.error, Plain))
      else if l.ids == [] then
        ScanRun(l.requests, [], [], [], Status(0, "No emails found", true, None, Plain))
      else
        var batches := Chunks(l.ids, 100);
        var progress := ChunkProgress(batches, 0, 100, |l.ids|);
        var results := SubscriptionScan(l.ids, responses);
        ScanRun(l.requests, batches, progress, results,
                Status(Last(progress), "Found " + NatToString(|results|) + " subscriptions", true, None, Plain))
  }

  method ScanEmails(st: AppState, limit: int, filters: Option<Filters>, service: Option<string>,
                    pages: seq<ListResult>, responses: seq<Option<HeaderSet>>)
    returns (requests: seq<ListRequest>, batches: seq<seq<string>>, progress: seq<nat>)
    modifies st
    ensures ScanRun(requests, batches, progress, st.scanResults, st.scanStatus)
            == ScanEmailsRun(limit, filters, service, pages, responses)
    ensures st.Snap() == old(st.Snap()).(scanResults := st.scanResults, scanStatus := st.scanStatus)
  {
    st.ResetScan();
    st.scanStatus := st.scanStatus.(message := "Connecting to Gmail...");
    requests, batches, progress := [], [], [];
    if service.Some? {
      st.scanStatus := st.scanStatus.(error := service, done := true);
      return;
    }
    st.scanStatus := st.scanStatus.(message := "Fetching email list...");
    var query := BuildQuery(filters);
    var ids, error;
    ids, requests, error := ListUpTo(pages, limit, false, QueryParam(query));
    if error.Some? {
      st.scanStatus := st.scanStatus.(error := error, done := true);
      return;
    }
    if ids == [] {
      st.scanStatus := st.scanStatus.(message := "No emails found", done := true);
      return;
    }
    var total := |ids|;
    st.scanStatus := st.scanStatus.(message := "Found " + NatToString(total) + " emails. Scanning...");
    var rows, processed;
    rows, processed, batches, progress := RunBatches(ids, responses, ReadSubscription, 3, 100);
    st.scanStatus := st.scanStatus.(progress := Last(progress),
                                    message := "Scanned " + NatToString(processed) + "/" + NatToString(total) + " emails ("
                                               + NatToString(|rows|) + " found)");
    var sorted := SubscriptionRows(SortByCount(rows));
    assert sorted == SubscriptionScan(ids, responses);
    st.scanResults := sorted;
    st.scanStatus := st.scanStatus.(message := "Found " + NatToString(|sorted|) + " subscriptions", done := true);
  }

  /** A scan always ends with its record done; it only ever fills results after a listing
      that succeeded with at least one id, and the failures keep the message they were
      showing. */
  lemma ScanEnds(limit: int, filters: Option<Filters>, service: Option<string>,
                 pages: seq<ListResult>, responses: seq<Option<HeaderSet>>)
    ensures var r := ScanEmailsRun(limit, filters, service, pages, responses);
            var l := UpTo(pages, limit, false, QueryParam(BuildQuery(filters)));
            && r.status.done
            && (service.Some? ==> r.requests == [] && r.status.error == service && r.status.message == "Connecting to Gmail...")
            && (service.None? && l.error.Some? ==> r.status.error == l.error && r.status.message == "Fetching email list..." && r.results == [])
            && (service.None? && l.error.None? && l.ids == [] ==>
                  r.status == Status(0, "No emails found", true, None, Plain) && r.batches == [] && r.results == [])
            && (r.status.error.None? <==> service.None? && l.error.None?)
  {
  }

  /** Every list call of a scan asks for 1 to 500 ids with the filters' query (no `q` when
      it is empty); the scan reads exactly the listed ids, in batches of at most 100 that
      partition them in order; its progress climbs to 100; and if the server never returns
      more than asked for, at most `limit` ids are read. */
  lemma ScanRequestsAndBatches(limit: int, filters: Option<Filters>, pages: seq<ListResult>, responses: seq<Option<HeaderSet>>)
    ensures var r := ScanEmailsRun(limit, filters, None, pages, responses);
            var l := UpTo(pages, limit, false, QueryParam(BuildQuery(filters)));
            && r.requests == l.requests
            && (forall j :: 0 <= j < |r.requests| ==>
                  1 <= r.requests[j].maxResults <= 500 && r.requests[j].q == QueryParam(BuildQuery(filters)))
            && (r.batches != [] ==> Flatten(r.batches) == l.ids && l.error.None?
                                    && r.progress[|r.progress| - 1] == 100 == r.status.progress)
            && (forall b :: 0 <= b < |r.batches| ==> 0 < |r.batches[b]| <= 100)
            && (forall i, j :: 0 <= i <= j < |r.progress| ==> r.progress[i] <= r.progress[j] <= 100)
            && (Honest(pages, 0, l.requests) && limit >= 0 ==> |Flatten(r.batches)| <= limit)
  {
    var q := QueryParam(BuildQuery(filters));
    var l := UpTo(pages, limit, false, q);
    UpToBounds(pages, limit, false, q);
    if Honest(pages, 0, l.requests) && limit >= 0 {
      UpToAtMostLimit(pages, limit, false, q, 0, []);
    }
    if l.error.None? && l.ids != [] {
      ReadBatches(l.ids);
    }
  }

  /** The read batches of a scan partition the ids into runs of at most 100, and the
      progress after them climbs to 100. */
  lemma ReadBatches(ids: seq<string>)
    requires ids != []
    ensures var batches := Chunks(ids, 100);
            var progress := ChunkProgress(batches, 0, 100, |ids|);
            && Flatten(batches) == ids && batches != []
            && (forall b :: 0 <= b < |batches| ==> 0 < |batches[b]| <= 100)
            && (forall i, j :: 0 <= i <= j < |progress| ==> progress[i] <= progress[j] <= 100)
            && Last(progress) == 100 && progress[|progress| - 1] == 100
  {
    ChunksPartition(ids, 100);
    ProgressClimbs(ids, 100, 0, 100, ChunkProgress(Chunks(ids, 100), 0, 100, |ids|));
  }

  /** The scan's results: one row per domain, keyed by the text after the last `@` of the
      address shown, with a link, a positive count, at most 3 subjects, in descending count
      order. */
  lemma ScanResultsSound(limit: int, filters: Option<Filters>, service: Option<string>,
                         pages: seq<ListResult>, responses: seq<Option<HeaderSet>>)
    ensures var rows := ScanEmailsRun(limit, filters, service, pages, responses).results;
            && (forall i :: 0 <= i < |rows| ==> rows[i].domain == DomainOf(rows[i].email) && rows[i].link != ""
                                                && 1 <= rows[i].count && |rows[i].subjects| <= 3)
            && (forall i, j :: 0 <= i < j < |rows| ==> rows[i].count >= rows[j].count)
  {
    var l := UpTo(pages, limit, false, QueryParam(BuildQuery(filters)));
    var r := ScanEmailsRun(limit, filters, service, pages, responses);
    if service.None? && l.error.None? && l.ids != [] {
      SubscriptionRowsSound(l.ids, responses);
    } else {
      assert r.results == [];
    }
  }

  // ----- mark_emails_as_read -----

  /** What a mark-as-read run did: its list requests, its `batchModify` calls and the
      record it left. */
  datatype ModifyRun = ModifyRun(requests: seq<ListRequest>, calls: seq<ModifyCall>, status: Status)

  /** The record after `marked` of `total` ids were marked (the fields the chunk loop
      writes), or as it was before the loop when no chunk went through. */
  function MarkedStatus(marked: nat, total: nat, chunksDone: nat): Status
  {
    if chunksDone == 0 then Status(0, "Finding unread emails...", false, None, MarkRead(0))
    else Status(Percent(0, 100, marked, total), "Marked " + NatToString(marked) + "/" + NatToString(total) + " as read",
                false, None, MarkRead(marked))
  }

  function MarkReadRun(count: int, filters: Option<Filters>, service: Option<string>,
                       pages: seq<ListResult>, server: ModifyOutcome): ModifyRun
  {
    if service.Some? then
      ModifyRun([], [], Status(0, "Connecting to Gmail...", true, service, MarkRead(0)))
    else
      var l := Capped(pages, count, Some(MarkReadQuery(filters)));
      if l.error.Some? then
        ModifyRun(l.requests, [], Status(0, "Finding unread emails...", true, l.error, MarkRead(0)))
      else if l.ids == [] then
        ModifyRun(l.requests, [], Status(0, "No unread emails found", true, None, MarkRead(0)))
      else
        var cs := Chunks(l.ids, 100);
        var n := Min(server.accepted, |cs|);
        var marked := |Flatten(cs[..n])|;
        var before := MarkedStatus(marked, |l.ids|, n);
        var calls := CallsFor(cs[..n], [], ["UNREAD"]);
        if server.accepted < |cs| then
          ModifyRun(l.requests, calls, before.(done := true, error := Some(server.error)))
        else
          ModifyRun(l.requests, calls, before.(message := "Done! Marked " + NatToString(marked) + " emails as read", done := true))
  }

  method MarkEmailsAsRead(st: AppState, count: int, filters: Option<Filters>, service: Option<string>,
                          pages: seq<ListResult>, server: ModifyOutcome)
    returns (requests: seq<ListRequest>, calls: seq<ModifyCall>, progress: seq<nat>)
    modifies st
    ensures ModifyRun(requests, calls, st.markReadStatus) == MarkReadRun(count, filters, service, pages, server)
    ensures st.Snap() == old(st.Snap()).(markReadStatus := st.markReadStatus)
  {
    st.ResetMarkRead();
    st.markReadStatus := st.markReadStatus.(message := "Connecting to Gmail...");
    requests, calls, progress := [], [], [];
    if service.Some? {
      st.markReadStatus := st.markReadStatus.(error := service, done := true);
      return;
    }
    st.markReadStatus := st.markReadStatus.(message := "Finding unread emails...");
    var query := MarkReadQuery(filters);
    var messages, error;
    messages, requests, error := ListCapped(pages, count, Some(query));
    if error.Some? {
      st.markReadStatus := st.markReadStatus.(error := error, done := true);
      return;
    }
    var total := |messages|;
    if total == 0 {
      st.markReadStatus := st.markReadStatus.(message := "No unread emails found", done := true);
      return;
    }
    var marked, dones;
    calls, marked, dones, error := ModifyInChunks(messages, 100, [], ["UNREAD"], server);
    progress := ProgressOf(dones, 0, 100, total);
    if dones != [] {
      st.markReadStatus := st.markReadStatus.(progress := Percent(0, 100, marked, total),
                                              message := "Marked " + NatToString(marked) + "/" + NatToString(total) + " as read",
                                              extra := MarkRead(marked));
    }
    if error.Some? {
      st.markReadStatus := st.markReadStatus.(error := error, done := true);
      return;
    }
    st.markReadStatus := st.markReadStatus.(message := "Done! Marked " + NatToString(marked) + " emails as read", done := true);
  }

  /** The query is `is:unread`, followed by the filters' query when that is not empty; the
      listing asks for 1 to 500 ids per call and keeps at most `count`; the ids go out in
      chunks of at most 100, each call removing `UNREAD`, until a call raises; when every
      call goes through, each id is in exactly one call, in order, and `marked_count`
      ends equal to the number of ids, at progress 100. */
  lemma MarkReadCalls(count: int, filters: Option<Filters>, pages: seq<ListResult>, server: ModifyOutcome)
    requires count >= 1
    ensures var r := MarkReadRun(count, filters, None, pages, server);
            var l := Capped(pages, count, Some(MarkReadQuery(filters)));
            && (forall j :: 0 <= j < |r.requests| ==>
                  1 <= r.requests[j].maxResults <= 500 && r.requests[j].q == Some(MarkReadQuery(filters)))
            && |l.ids| <= count
            && (forall j :: 0 <= j < |r.calls| ==>
                  0 < |r.calls[j].ids| <= 100 && r.calls[j].addLabelIds == [] && r.calls[j].removeLabelIds == ["UNREAD"])
            && |r.calls| <= server.accepted
            && (l.error.None? && l.ids == [] ==> r.calls == [] && r.status.message == "No unread emails found")
            && (r.status.error.None? ==> r.status.done && IdsOf(r.calls) == l.ids
                                         && r.status.extra == MarkRead(|l.ids|)
                                         && (l.ids != [] ==> r.status.progress == 100))
  {
    var q := Some(MarkReadQuery(filters));
    var l := Capped(pages, count, q);
    CappedBounds(pages, count, q);
    if l.error.None? && l.ids != [] {
      var cs := Chunks(l.ids, 100);
      var n := Min(server.accepted, |cs|);
      ChunksPartition(l.ids, 100);
      assert forall j :: 0 <= j < n ==> cs[..n][j] == cs[j];
      if server.accepted >= |cs| {
        assert cs[..n] == cs;
        AllChunksApplied(l.ids, 100, [], ["UNREAD"]);
        PercentBounds(0, 100, |l.ids|, |l.ids|);
      }
    }
  }

  /** The progress the chunk loop records stays within 0..100 and never goes back. */
  lemma MarkReadProgress(messages: seq<string>, dones: seq<nat>)
    requires |dones| <= |Chunks(messages, 100)|
    requires forall j :: 0 <= j < |dones| ==> dones[j] == |Flatten(Chunks(messages, 100)[..j + 1])|
    ensures var p := ProgressOf(dones, 0, 100, |messages|);
            forall i, j :: 0 <= i <= j < |p| ==> p[i] <= p[j] <= 100
  {
    ProgressClimbs(messages, 100, 0, 100, ProgressOf(dones, 0, 100, |messages|));
  }

  // ----- scan_senders_for_delete -----

  datatype SenderScanRun = SenderScanRun(requests: seq<ListRequest>, batches: seq<seq<string>>, progress: seq<nat>,
                                         results: seq<SenderRow>, status: Status)

  function ScanSendersRun(limit: int, filters: Option<Filters>, service: Option<string>,
                          pages: seq<ListResult>, responses: seq<Option<HeaderSet>>): SenderScanRun
  {
    if service.Some? then
      SenderScanRun([], [], [], [], Status(0, "Connecting to Gmail...", true, service, Plain))
    else
      var l := Capped(pages, limit, QueryParam(BuildQuery(filters)));
      if l.error.Some? then
        SenderScanRun(l.requests, [], [], [], Status(0, "Fetching emails...", true, l.error, Plain))
      else if l.ids == [] then
        SenderScanRun(l.requests, [], [], [], Status(0, "No emails found", true, None, Plain))
      else
        var batches := Chunks(l.ids, 100);
        var progress := ChunkProgress(batches, 0, 100, |l.ids|);
        var results := SenderScan(l.ids, responses);
        SenderScanRun(l.requests, batches, progress, results,
                      Status(Last(progress), "Found " + NatToString(|results|) + " senders", true, None, Plain))
  }

  method ScanSendersForDelete(st: AppState, limit: int, filters: Option<Filters>, service: Option<string>,
                              pages: seq<ListResult>, responses: seq<Option<HeaderSet>>)
    returns (requests: seq<ListRequest>, batches: seq<seq<string>>, progress: seq<nat>)
    modifies st
    ensures SenderScanRun(requests, batches, progress, st.deleteScanResults, st.deleteScanStatus)
            == ScanSendersRun(limit, filters, service, pages, responses)
    ensures st.Snap() == old(st.Snap()).(deleteScanResults := st.deleteScanResults, deleteScanStatus := st.deleteScanStatus)
  {
    st.ResetDeleteScan();
    st.deleteScanStatus := st.deleteScanStatus.(message := "Connecting to Gmail...");
    requests, batches, progress := [], [], [];
    if service.Some? {
      st.deleteScanStatus := st.deleteScanStatus.(error := service, done := true);
      return;
    }
    st.deleteScanStatus := st.deleteScanStatus.(message := "Fetching emails...");
    var query := BuildQuery(filters);
    var messages, error;
    messages, requests, error := ListCapped(pages, limit, QueryParam(query));
    if error.Some? {
      st.deleteScanStatus := st.deleteScanStatus.(error := error, done := true);
      return;
    }
    var total := |messages|;
    if total == 0 {
      st.deleteScanStatus := st.deleteScanStatus.(message := "No emails found", done := true);
      return;
    }
    st.deleteScanStatus := st.deleteScanStatus.(message := "Scanning " + NatToString(total) + " emails...");
    var rows, processed;
    rows, processed, batches, progress := RunBatches(messages, responses, ReadSender, 3, 100);
    st.deleteScanStatus := st.deleteScanStatus.(progress := Last(progress),
                                                message := "Scanned " + NatToString(processed) + "/" + NatToString(total) + " emails");
    var sorted := SenderRows(SortByCount(rows));
    assert sorted == SenderScan(messages, responses);
    st.deleteScanResults := sorted;
    st.deleteScanStatus := st.deleteScanStatus.(message := "Found " + NatToString(|sorted|) + " senders", done := true);
  }

  /** The delete scan asks for 1 to 500 ids per call, reads at most `limit` ids in batches
      of at most 100 that partition them, ends done, and yields rows keyed by a non-empty
      address, with a positive count and at most 3 subjects, in descending count order. */
  lemma ScanSendersSound(limit: int, filters: Option<Filters>, service: Option<string>,
                         pages: seq<ListResult>, responses: seq<Option<HeaderSet>>)
    requires limit >= 1
    ensures var r := ScanSendersRun(limit, filters, service, pages, responses);
            var l := Capped(pages, limit, QueryParam(BuildQuery(filters)));
            r.status.done && (r.status.error.None? <==> service.None? && l.error.None?)
    ensures var r := ScanSendersRun(limit, filters, service, pages, responses);
            forall j :: 0 <= j < |r.requests| ==> 1 <= r.requests[j].maxResults <= 500
    ensures var r := ScanSendersRun(limit, filters, service, pages, responses);
            var l := Capped(pages, limit, QueryParam(BuildQuery(filters)));
            r.batches != [] ==> Flatten(r.batches) == l.ids && |l.ids| <= limit && r.status.progress == 100
    ensures var r := ScanSendersRun(limit, filters, service, pages, responses);
            forall b :: 0 <= b < |r.batches| ==> 0 < |r.batches[b]| <= 100
    ensures var r := ScanSendersRun(limit, filters, service, pages, responses);
            forall i :: 0 <= i < |r.results| ==> r.results[i].email != "" && 1 <= r.results[i].count && |r.results[i].subjects| <= 3
    ensures var r := ScanSendersRun(limit, filters, service, pages, responses);
            forall i, j :: 0 <= i < j < |r.results| ==> r.results[i].count >= r.results[j].count
  {
    var q := QueryParam(BuildQuery(filters));
    var l := Capped(pages, limit, q);
    var r := ScanSendersRun(limit, filters, service, pages, responses);
    CappedBounds(pages, limit, q);
    if service.None? && l.error.None? && l.ids != [] {
      SenderRowsSound(l.ids, responses);
      ReadBatches(l.ids);
      assert r.batches == Chunks(l.ids, 100);
      assert Flatten(r.batches) == l.ids;
      assert r.status.progress == 100;
    }
  }
}

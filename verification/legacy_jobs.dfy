/**
 * The legacy module's jobs (`gmail_api.py`): the same scans, mark-as-read and deletes,
 * reporting through module globals instead of `AppState`. They differ from the current
 * ones in small ways: no query filters, failures replace the whole record with
 * `{progress 0, message "", done True, error}`, read chunks of 1000 and trash chunks of
 * 500, the delete scan keeps each sender's message ids, and the deletes trash the cached
 * ids instead of listing them again.
 */
module LegacyJobs {
  import opened Wrappers
  import opened Text
  import opened Headers
  import opened Unsubscribe
  import opened Paging
  import opened Chunking
  import opened Aggregation
  import opened Scans

  /** The extra counter some records carry: `marked` or `deleted`. */
  datatype Counter = NoCounter | Marked(marked: int) | Deleted(deleted: int)

  /** A status dict: `{progress, message, done, error}` and its counter. */
  datatype Record = Record(progress: int, message: string, done: bool, error: Option<string>, counter: Counter)

  /** The record a failure installs. */
  function Failure(e: string, counter: Counter): Record
  {
    Record(0, "", true, Some(e), counter)
  }

  /** The value of every global the jobs use. */
  datatype Globals = Globals(scanResults: seq<LegacySubscriptionRow>, scanStatus: Record, markReadStatus: Record,
                             deleteScanResults: seq<LegacySenderRow>, deleteScanStatus: Record, deleteStatus: Record)

  function InitialGlobals(): Globals
  {
    Globals([], Record(0, "Ready", false, None, NoCounter), Record(0, "Ready", false, None, Marked(0)),
            [], Record(0, "Ready", false, None, NoCounter), Record(0, "Ready", false, None, Deleted(0)))
  }

  /** The module's globals, as one object the jobs update in place. */
  class Module {
    var scanResults: seq<LegacySubscriptionRow>
    var scanStatus: Record
    var markReadStatus: Record
    var deleteScanResults: seq<LegacySenderRow>
    var deleteScanStatus: Record
    var deleteStatus: Record

    function Snap(): Globals
      reads this
    {
      Globals(scanResults, scanStatus, markReadStatus, deleteScanResults, deleteScanStatus, deleteStatus)
    }

    /** The values the module starts with. */
    constructor ()
      ensures Snap() == InitialGlobals()
    {
      scanResults := [];
      scanStatus := Record(0, "Ready", false, None, NoCounter);
      markReadStatus := Record(0, "Ready", false, None, Marked(0));
      deleteScanResults := [];
      deleteScanStatus := Record(0, "Ready", false, None, NoCounter);
      deleteStatus := Record(0, "Ready", false, None, Deleted(0));
    }
  }

  /** Every record starts at progress 0, "Ready", not done, with no error, its counter 0. */
  lemma InitialRecords()
    ensures var g := InitialGlobals();
            && g.scanResults == [] && g.deleteScanResults == []
            && (forall r :: r in [g.scanStatus, g.markReadStatus, g.deleteScanStatus, g.deleteStatus] ==>
                  r.progress == 0 && r.message == "Ready" && !r.done && r.error.None?)
            && g.markReadStatus.counter == Marked(0) && g.deleteStatus.counter == Deleted(0)
  {
  }

  // ----- scan_emails -----

  datatype LegacyScanRun = LegacyScanRun(requests: seq<ListRequest>, batches: seq<seq<string>>,
                                         results: seq<LegacySubscriptionRow>, status: Record)

  /** `linkPages[i]` is what fetching the link of sorted row `i` gave (`None` if it raised). */
  function LegacyScanEmailsRun(limit: int, service: Option<string>, pages: seq<ListResult>,
                               responses: seq<Option<HeaderSet>>, linkPages: seq<Option<string>>): LegacyScanRun
  {
    if service.Some? then LegacyScanRun([], [], [], Failure(service.value, NoCounter))
    else
      var l := UpTo(pages, limit, false, None);
      if l.error.Some? then LegacyScanRun(l.requests, [], [], Failure(l.error.value, NoCounter))
      else if l.ids == [] then LegacyScanRun(l.requests, [], [], Record(100, "No emails found", true, None, NoCounter))
      else
        var results := LegacySubscriptionScan(l.ids, responses, linkPages);
        var oneClick := OneClickCount(results);
        LegacyScanRun(l.requests, Chunks(l.ids, 100), results,
                      Record(100, "Done! " + NatToString(oneClick) + " auto-unsubscribe, " + NatToString(|results| - oneClick)
                                  + " need manual action", true, None, NoCounter))
  }

  method CountOneClick(rows: seq<LegacySubscriptionRow>) returns (n: nat)
    ensures n == OneClickCount(rows)
  {
    n := 0;
    var i := 0;
    while i < |rows|
      invariant 0 <= i <= |rows|
      invariant n == OneClickCount(rows[..i])
    {
      assert rows[..i + 1][..i] == rows[..i];
      if rows[i].kind == LinkClass.OneClick {
        n := n + 1;
      }
      i := i + 1;
    }
    assert rows[..|rows|] == rows;
  }

  method ScanEmails(m: Module, limit: int, service: Option<string>, pages: seq<ListResult>,
                    responses: seq<Option<HeaderSet>>, linkPages: seq<Option<string>>)
    returns (requests: seq<ListRequest>, batches: seq<seq<string>>)
    modifies m
    ensures LegacyScanRun(requests, batches, m.scanResults, m.scanStatus)
            == LegacyScanEmailsRun(limit, service, pages, responses, linkPages)
    ensures m.Snap() == old(m.Snap()).(scanResults := m.scanResults, scanStatus := m.scanStatus)
  {
    m.scanStatus := Record(0, "Connecting to Gmail...", false, None, NoCounter);
    m.scanResults := [];
    requests, batches := [], [];
    if service.Some? {
      m.scanStatus := Failure(service.value, NoCounter);
      return;
    }
    m.scanStatus := m.scanStatus.(message := "Fetching email list...");
    var ids, error;
    ids, requests, error := ListUpTo(pages, limit, false, None);
    if error.Some? {
      m.scanStatus := Failure(error.value, NoCounter);
      return;
    }
    if ids == [] {
      m.scanStatus := Record(100, "No emails found", true, None, NoCounter);
      return;
    }
    var rows, processed, progress;
    rows, processed, batches, progress := RunBatches(ids, responses, LegacyReadSubscription, 3, 100);
    var sorted := SortByCount(rows);
    var typed := LegacySubscriptionRows(sorted, linkPages);
    assert typed == LegacySubscriptionScan(ids, responses, linkPages);
    m.scanResults := typed;
    var oneClick := CountOneClick(typed);
    m.scanStatus := Record(100, "Done! " + NatToString(oneClick) + " auto-unsubscribe, " + NatToString(|typed| - oneClick)
                                + " need manual action", true, None, NoCounter);
  }

  /** The legacy scan never filters: every list call has no query, asks for 1 to 500 ids and
      carries the previous page's token; it ends done, at progress 100 unless it failed; its
      rows hold web links only, each with a non-empty domain, and its message counts the
      one-click rows and the rest. */
  lemma LegacyScanOutcome(limit: int, service: Option<string>, pages: seq<ListResult>,
                          responses: seq<Option<HeaderSet>>, linkPages: seq<Option<string>>)
    ensures var r := LegacyScanEmailsRun(limit, service, pages, responses, linkPages);
            && r.status.done
            && (r.status.error.None? ==> r.status.progress == 100)
            && (r.status.error.Some? ==> r.status == Record(0, "", true, r.status.error, NoCounter) && r.results == [])
    ensures var r := LegacyScanEmailsRun(limit, service, pages, responses, linkPages);
            forall j :: 0 <= j < |r.requests| ==>
              && r.requests[j].q.None? && 1 <= r.requests[j].maxResults <= 500 && r.requests[j].pageToken == TokenFor(pages, j)
    ensures var r := LegacyScanEmailsRun(limit, service, pages, responses, linkPages);
            forall i :: 0 <= i < |r.results| ==>
              r.results[i].link != "" && !("mailto:" <= r.results[i].link) && r.results[i].domain != ""
              && 1 <= r.results[i].count && |r.results[i].subjects| <= 3
  {
    var l := UpTo(pages, limit, false, None);
    UpToBounds(pages, limit, false, None);
    if service.None? && l.error.None? && l.ids != [] {
      LegacySubscriptionRowsSound(l.ids, responses, linkPages);
    }
  }

  // ----- mark_emails_as_read -----

  datatype LegacyModifyRun = LegacyModifyRun(requests: seq<ListRequest>, calls: seq<ModifyCall>, status: Record)

  function LegacyMarkReadRun(count: int, service: Option<string>, pages: seq<ListResult>, server: ModifyOutcome): LegacyModifyRun
  {
    if service.Some? then LegacyModifyRun([], [], Failure(service.value, Marked(0)))
    else
      var l := UpTo(pages, count, true, Some("is:unread"));
      if l.error.Some? then LegacyModifyRun(l.requests, [], Failure(l.error.value, Marked(0)))
      else if l.ids == [] then LegacyModifyRun(l.requests, [], Record(100, "No unread emails found!", true, None, Marked(0)))
      else
        var cs := Chunks(l.ids, 1000);
        var calls := CallsFor(cs[..Min(server.accepted, |cs|)], [], ["UNREAD"]);
        if server.accepted < |cs| then LegacyModifyRun(l.requests, calls, Failure(server.error, Marked(0)))
        else
          LegacyModifyRun(l.requests, calls,
                          Record(100, "Done! Marked " + NatToString(|l.ids|) + " emails as read.", true, None, Marked(|l.ids|)))
  }

  method MarkEmailsAsRead(m: Module, count: int, service: Option<string>, pages: seq<ListResult>, server: ModifyOutcome)
    returns (requests: seq<ListRequest>, calls: seq<ModifyCall>)
    modifies m
    ensures LegacyModifyRun(requests, calls, m.markReadStatus) == LegacyMarkReadRun(count, service, pages, server)
    ensures m.Snap() == old(m.Snap()).(markReadStatus := m.markReadStatus)
  {
    m.markReadStatus := Record(0, "Connecting...", false, None, Marked(0));
    requests, calls := [], [];
    if service.Some? {
      m.markReadStatus := Failure(service.value, Marked(0));
      return;
    }
    m.markReadStatus := m.markReadStatus.(message := "Fetching unread emails...");
    var ids, error;
    ids, requests, error := ListUpTo(pages, count, true, Some("is:unread"));
    if error.Some? {
      m.markReadStatus := Failure(error.value, Marked(0));
      return;
    }
    if ids == [] {
      m.markReadStatus := Record(100, "No unread emails found!", true, None, Marked(0));
      return;
    }
    var total := |ids|;
    m.markReadStatus := m.markReadStatus.(message := "Marking " + NatToString(total) + " emails as read...");
    var marked, dones;
    calls, marked, dones, error := ModifyInChunks(ids, 1000, [], ["UNREAD"], server);
    if dones != [] {
      m.markReadStatus := m.markReadStatus.(progress := Percent(0, 100, marked, total),
                                            message := "Marked " + NatToString(marked) + "/" + NatToString(total) + " as read...",
                                            counter := Marked(marked));
    }
    if error.Some? {
      m.markReadStatus := Failure(error.value, Marked(0));
      return;
    }
    ChunksPartition(ids, 1000);
    assert Chunks(ids, 1000)[..|Chunks(ids, 1000)|] == Chunks(ids, 1000);
    m.markReadStatus := Record(100, "Done! Marked " + NatToString(marked) + " emails as read.", true, None, Marked(marked));
  }

  /** Legacy mark-as-read lists `is:unread` until an empty page, a page without a token, or
      `count` ids; it removes `UNREAD` in chunks of at most 1000, and on success `marked`
      is the number of ids, each in exactly one call, in order; any failure resets the
      record, losing the count. */
  lemma LegacyMarkReadOutcome(count: int, pages: seq<ListResult>, server: ModifyOutcome)
    ensures var r := LegacyMarkReadRun(count, None, pages, server);
            var l := UpTo(pages, count, true, Some("is:unread"));
            var last := |l.requests| - 1;
            l.error.None? && l.requests != [] && |l.ids| < count ==>
              !Truthy(NextAt(pages, last)) || IdsAt(pages, last) == []
    ensures var r := LegacyMarkReadRun(count, None, pages, server);
            forall j :: 0 <= j < |r.calls| ==>
              0 < |r.calls[j].ids| <= 1000 && r.calls[j].addLabelIds == [] && r.calls[j].removeLabelIds == ["UNREAD"]
    ensures var r := LegacyMarkReadRun(count, None, pages, server);
            var l := UpTo(pages, count, true, Some("is:unread"));
            && (l.error.None? && l.ids == [] ==>
                  r.calls == [] && r.status.progress == 100 && r.status.message == "No unread emails found!")
            && (r.status.error.None? ==> IdsOf(r.calls) == l.ids && r.status.counter == Marked(|l.ids|))
            && (r.status.error.Some? ==> r.status == Failure(r.status.error.value, Marked(0)))
  {
    var l := UpTo(pages, count, true, Some("is:unread"));
    UpToStops(pages, count, true, Some("is:unread"), 0, []);
    if l.error.None? && l.ids != [] {
      var cs := Chunks(l.ids, 1000);
      var n := Min(server.accepted, |cs|);
      ChunksPartition(l.ids, 1000);
      assert forall j :: 0 <= j < n ==> cs[..n][j] == cs[j];
      if server.accepted >= |cs| {
        assert cs[..n] == cs;
        AllChunksApplied(l.ids, 1000, [], ["UNREAD"]);
      }
    }
  }

  // ----- scan_senders_for_delete -----

  datatype LegacySenderScanRun = LegacySenderScanRun(requests: seq<ListRequest>, batches: seq<seq<string>>,
                                                     results: seq<LegacySenderRow>, status: Record)

  function LegacyScanSendersRun(limit: int, service: Option<string>, pages: seq<ListResult>,
                                responses: seq<Option<HeaderSet>>): LegacySenderScanRun
  {
    if service.Some? then LegacySenderScanRun([], [], [], Failure(service.value, NoCounter))
    else
      var l := UpTo(pages, limit, false, None);
      if l.error.Some? then LegacySenderScanRun(l.requests, [], [], Failure(l.error.value, NoCounter))
      else if l.ids == [] then LegacySenderScanRun(l.requests, [], [], Record(100, "No emails found", true, None, NoCounter))
      else
        var results := LegacySenderScan(l.ids, responses);
        LegacySenderScanRun(l.requests, Chunks(l.ids, 100), results,
                            Record(100, "Found " + NatToString(|results|) + " senders. Select senders to delete their emails.",
                                   true, None, NoCounter))
  }

  method ScanSendersForDelete(m: Module, limit: int, service: Option<string>, pages: seq<ListResult>,
                              responses: seq<Option<HeaderSet>>)
    returns (requests: seq<ListRequest>, batches: seq<seq<string>>)
    modifies m
    ensures LegacySenderScanRun(requests, batches, m.deleteScanResults, m.deleteScanStatus)
            == LegacyScanSendersRun(limit, service, pages, responses)
    ensures m.Snap() == old(m.Snap()).(deleteScanResults := m.deleteScanResults, deleteScanStatus := m.deleteScanStatus)
  {
    m.deleteScanStatus := Record(0, "Connecting to Gmail...", false, None, NoCounter);
    m.deleteScanResults := [];
    requests, batches := [], [];
    if service.Some? {
      m.deleteScanStatus := Failure(service.value, NoCounter);
      return;
    }
    m.deleteScanStatus := m.deleteScanStatus.(message := "Fetching email list...");
    var ids, error;
    ids, requests, error := ListUpTo(pages, limit, false, None);
    if error.Some? {
      m.deleteScanStatus := Failure(error.value, NoCounter);
      return;
    }
    if ids == [] {
      m.deleteScanStatus := Record(100, "No emails found", true, None, NoCounter);
      return;
    }
    var rows, processed, progress;
    rows, processed, batches, progress := RunBatches(ids, responses, LegacyReadSender, 2, 100);
    var sorted := LegacySenderRows(SortByCount(rows));
    assert sorted == LegacySenderScan(ids, responses);
    m.deleteScanResults := sorted;
    m.deleteScanStatus := Record(100, "Found " + NatToString(|sorted|) + " senders. Select senders to delete their emails.",
                                 true, None, NoCounter);
  }

  /** Every cached sender row holds one message id per message counted, and at most 2 subjects. */
  lemma LegacyScanSendersOutcome(limit: int, service: Option<string>, pages: seq<ListResult>, responses: seq<Option<HeaderSet>>)
    ensures var r := LegacyScanSendersRun(limit, service, pages, responses);
            && r.status.done && (r.status.error.None? ==> r.status.progress == 100)
            && forall i :: 0 <= i < |r.results| ==> r.results[i].count == |r.results[i].msgIds| >= 1 && |r.results[i].subjects| <= 2
  {
    var l := UpTo(pages, limit, false, None);
    if service.None? && l.error.None? && l.ids != [] {
      LegacySenderRowsSound(l.ids, responses);
    }
  }

  // ----- delete_emails_by_sender / delete_emails_bulk -----

  /** What the legacy deletes return. */
  datatype DeleteResult =
    | SenderTrashed(deleted: nat, sender: string, message: string)
    | BulkTrashed(deleted: nat, senders: nat, message: string)
    | DeleteFailed(error: string)

  /** The index of the first cached row for `email`. */
  function FirstRowOf(rows: seq<LegacySenderRow>, email: string): (r: Option<nat>)
    ensures r.Some? ==> r.value < |rows| && rows[r.value].email == email
                        && forall i :: 0 <= i < r.value ==> rows[i].email != email
    ensures r.None? ==> forall i :: 0 <= i < |rows| ==> rows[i].email != email
  {
    if rows == [] then None
    else if rows[0].email == email then Some(0)
    else match FirstRowOf(rows[1..], email)
         case None => None
         case Some(i) => Some(i + 1)
  }

  method FindSender(rows: seq<LegacySenderRow>, email: string) returns (r: Option<nat>)
    ensures r == FirstRowOf(rows, email)
  {
    var i := 0;
    while i < |rows|
      invariant 0 <= i <= |rows|
      invariant forall j :: 0 <= j < i ==> rows[j].email != email
    {
      if rows[i].email == email {
        FirstRowIsUnique(rows, email, i);
        return Some(i);
      }
      i := i + 1;
    }
    FirstRowIsUnique(rows, email, |rows|);
    r := None;
  }

  /** The first row is the one every earlier row differs from. */
  lemma FirstRowIsUnique(rows: seq<LegacySenderRow>, email: string, i: nat)
    requires i <= |rows| && forall j :: 0 <= j < i ==> rows[j].email != email
    ensures i < |rows| && rows[i].email == email ==> FirstRowOf(rows, email) == Some(i)
    ensures i == |rows| ==> FirstRowOf(rows, email) == None
  {
    var r := FirstRowOf(rows, email);
    if r.Some? {
      assert r.value >= i;
    }
  }

  /** `[r for r in rows if r["email"] not in emails]`. */
  function WithoutEmails(rows: seq<LegacySenderRow>, emails: seq<string>): (r: seq<LegacySenderRow>)
    ensures forall x :: x in r <==> x in rows && x.email !in emails
  {
    if rows == [] then []
    else
      var rest := WithoutEmails(rows[..|rows| - 1], emails);
      assert rows == rows[..|rows| - 1] + [rows[|rows| - 1]];
      if rows[|rows| - 1].email !in emails then rest + [rows[|rows| - 1]] else rest
  }

  /** Pruning works piece by piece, so the kept rows stay in their order. */
  lemma {:induction false} WithoutEmailsAppend(a: seq<LegacySenderRow>, b: seq<LegacySenderRow>, emails: seq<string>)
    ensures WithoutEmails(a + b, emails) == WithoutEmails(a, emails) + WithoutEmails(b, emails)
    decreases |b|
  {
    if b == [] {
      assert a + b == a;
    } else {
      var init := b[..|b| - 1];
      WithoutEmailsAppend(a, init, emails);
      assert (a + b)[..|a + b| - 1] == a + init;
      assert (a + b)[|a + b| - 1] == b[|b| - 1];
    }
  }

  /** One row is kept exactly when its email is not among the given ones. */
  lemma WithoutEmailsSingle(x: LegacySenderRow, emails: seq<string>)
    ensures WithoutEmails([x], emails) == if x.email !in emails then [x] else []
  {
    assert [x][..0] == [];
  }

  method PruneEmails(rows: seq<LegacySenderRow>, emails: seq<string>) returns (kept: seq<LegacySenderRow>)
    ensures kept == WithoutEmails(rows, emails)
  {
    kept := [];
    var i := 0;
    while i < |rows|
      invariant 0 <= i <= |rows|
      invariant kept == WithoutEmails(rows[..i], emails)
    {
      assert rows[..i + 1][..i] == rows[..i];
      if rows[i].email !in emails {
        kept := kept + [rows[i]];
      }
      i := i + 1;
    }
    assert rows[..|rows|] == rows;
  }

  datatype LegacyDeleteRun = LegacyDeleteRun(calls: seq<ModifyCall>, reply: DeleteResult, cache: seq<LegacySenderRow>)

  function LegacyDeleteBySenderRun(email: string, service: Option<string>, server: ModifyOutcome,
                                   cache: seq<LegacySenderRow>): LegacyDeleteRun
  {
    if service.Some? then LegacyDeleteRun([], DeleteFailed(service.value), cache)
    else
      match FirstRowOf(cache, email)
      case None => LegacyDeleteRun([], DeleteFailed("Sender not found in scan results"), cache)
      case Some(i) =>
        var ids := cache[i].msgIds;
        var cs := Chunks(ids, 500);
        var calls := CallsFor(cs[..Min(server.accepted, |cs|)], ["TRASH"], []);
        if server.accepted < |cs| then LegacyDeleteRun(calls, DeleteFailed(server.error), cache)
        else LegacyDeleteRun(calls, SenderTrashed(|ids|, email, "Moved " + NatToString(|ids|) + " emails to trash"),
                             WithoutEmails(cache, [email]))
  }

  method DeleteEmailsBySender(m: Module, email: string, service: Option<string>, server: ModifyOutcome)
    returns (calls: seq<ModifyCall>, reply: DeleteResult)
    modifies m
    ensures LegacyDeleteRun(calls, reply, m.deleteScanResults) == LegacyDeleteBySenderRun(email, service, server, old(m.deleteScanResults))
    ensures m.Snap() == old(m.Snap()).(deleteScanResults := m.deleteScanResults)
  {
    calls := [];
    if service.Some? {
      reply := DeleteFailed(service.value);
      return;
    }
    var found := FindSender(m.deleteScanResults, email);
    if found.None? {
      reply := DeleteFailed("Sender not found in scan results");
      return;
    }
    var ids := m.deleteScanResults[found.value].msgIds;
    var deleted, dones, error;
    calls, deleted, dones, error := ModifyInChunks(ids, 500, ["TRASH"], [], server);
    if error.Some? {
      reply := DeleteFailed(error.value);
      return;
    }
    ChunksPartition(ids, 500);
    assert Chunks(ids, 500)[..|Chunks(ids, 500)|] == Chunks(ids, 500);
    m.deleteScanResults := PruneEmails(m.deleteScanResults, [email]);
    reply := SenderTrashed(deleted, email, "Moved " + NatToString(deleted) + " emails to trash");
  }

  /** Without a cached row for the sender nothing is sent; otherwise exactly the row's
      message ids are trashed, in chunks of at most 500, and on success the sender's rows
      leave the cache while every other row stays. */
  lemma LegacyDeleteBySenderOutcome(email: string, server: ModifyOutcome, cache: seq<LegacySenderRow>)
    ensures var r := LegacyDeleteBySenderRun(email, None, server, cache);
            FirstRowOf(cache, email).None? ==> r == LegacyDeleteRun([], DeleteFailed("Sender not found in scan results"), cache)
    ensures var r := LegacyDeleteBySenderRun(email, None, server, cache);
            forall j :: 0 <= j < |r.calls| ==> 0 < |r.calls[j].ids| <= 500 && r.calls[j].addLabelIds == ["TRASH"]
    ensures var r := LegacyDeleteBySenderRun(email, None, server, cache);
            && (r.reply.DeleteFailed? ==> r.cache == cache)
            && (r.reply.SenderTrashed? ==> && IdsOf(r.calls) == cache[FirstRowOf(cache, email).value].msgIds
                                           && r.reply.deleted == |IdsOf(r.calls)|
                                           && forall x :: x in r.cache <==> x in cache && x.email != email)
  {
    match FirstRowOf(cache, email)
    case None =>
    case Some(i) =>
      var ids := cache[i].msgIds;
      var cs := Chunks(ids, 500);
      var n := Min(server.accepted, |cs|);
      ChunksPartition(ids, 500);
      assert forall j :: 0 <= j < n ==> cs[..n][j] == cs[j];
      if server.accepted >= |cs| {
        assert cs[..n] == cs;
        AllChunksApplied(ids, 500, ["TRASH"], []);
      }
  }

  /** The ids and senders the bulk delete collects from the first `n` requested senders:
      each one with a cached row adds that row's ids and its name. */
  datatype Found = Found(ids: seq<string>, senders: seq<string>)

  function CollectCached(emails: seq<string>, n: nat, cache: seq<LegacySenderRow>): Found
    requires n <= |emails|
  {
    if n == 0 then Found([], [])
    else
      var f := CollectCached(emails, n - 1, cache);
      match FirstRowOf(cache, emails[n - 1])
      case None => f
      case Some(i) => Found(f.ids + cache[i].msgIds, f.senders + [emails[n - 1]])
  }

  /** A sender is found exactly when it was among the first `n` requested and has a cached row. */
  lemma {:induction false} CollectCachedFinds(emails: seq<string>, n: nat, cache: seq<LegacySenderRow>)
    requires n <= |emails|
    ensures forall s :: s in CollectCached(emails, n, cache).senders <==> s in emails[..n] && FirstRowOf(cache, s).Some?
  {
    if n > 0 {
      CollectCachedFinds(emails, n - 1, cache);
      assert emails[..n] == emails[..n - 1] + [emails[n - 1]];
    }
  }

  /** The ids a requested sender adds: those of its first cached row, or none. */
  function CachedIds(cache: seq<LegacySenderRow>, email: string): seq<string>
  {
    match FirstRowOf(cache, email)
    case None => []
    case Some(i) => cache[i].msgIds
  }

  /** The sender itself when it has a cached row. */
  function CachedName(cache: seq<LegacySenderRow>, email: string): seq<string>
  {
    if FirstRowOf(cache, email).Some? then [email] else []
  }

  /** The bulk collection sender by sender: the ids are each requested sender's first cached
      row's ids in request order, a sender asked for twice counting twice, and the senders are
      those with a cached row, in the same order. */
  lemma CollectCachedPerSender(emails: seq<string>, n: nat, cache: seq<LegacySenderRow>)
    requires n <= |emails|
    ensures CollectCached(emails, n, cache).ids == Flatten(seq(n, i requires 0 <= i < n => CachedIds(cache, emails[i])))
    ensures CollectCached(emails, n, cache).senders == Flatten(seq(n, i requires 0 <= i < n => CachedName(cache, emails[i])))
  {
    CachedIdsIn(emails, n, cache);
    CachedNamesIn(emails, n, cache);
  }

  lemma CollectCachedStep(emails: seq<string>, n: nat, cache: seq<LegacySenderRow>)
    requires 0 < n <= |emails|
    ensures CollectCached(emails, n, cache).ids == CollectCached(emails, n - 1, cache).ids + CachedIds(cache, emails[n - 1])
    ensures CollectCached(emails, n, cache).senders == CollectCached(emails, n - 1, cache).senders + CachedName(cache, emails[n - 1])
  {
  }

  lemma {:induction false} CachedIdsIn(emails: seq<string>, n: nat, cache: seq<LegacySenderRow>)
    requires n <= |emails|
    ensures CollectCached(emails, n, cache).ids == Flatten(seq(n, i requires 0 <= i < n => CachedIds(cache, emails[i])))
  {
    if n > 0 {
      CachedIdsIn(emails, n - 1, cache);
      CollectCachedStep(emails, n, cache);
      var ks := seq(n, i requires 0 <= i < n => CachedIds(cache, emails[i]));
      var front := seq(n - 1, i requires 0 <= i < n - 1 => CachedIds(cache, emails[i]));
      assert forall i :: 0 <= i < n - 1 ==> ks[..n - 1][i] == front[i];
      assert ks[..n - 1] == front;
      FlattenSnoc(ks);
    }
  }

  lemma {:induction false} CachedNamesIn(emails: seq<string>, n: nat, cache: seq<LegacySenderRow>)
    requires n <= |emails|
    ensures CollectCached(emails, n, cache).senders == Flatten(seq(n, i requires 0 <= i < n => CachedName(cache, emails[i])))
  {
    if n > 0 {
      CachedNamesIn(emails, n - 1, cache);
      CollectCachedStep(emails, n, cache);
      var ks := seq(n, i requires 0 <= i < n => CachedName(cache, emails[i]));
      var front := seq(n - 1, i requires 0 <= i < n - 1 => CachedName(cache, emails[i]));
      assert forall i :: 0 <= i < n - 1 ==> ks[..n - 1][i] == front[i];
      assert ks[..n - 1] == front;
      FlattenSnoc(ks);
    }
  }

  function LegacyBulkRun(emails: seq<string>, service: Option<string>, server: ModifyOutcome,
                         cache: seq<LegacySenderRow>): LegacyDeleteRun
  {
    if service.Some? then LegacyDeleteRun([], DeleteFailed(service.value), cache)
    else
      var f := CollectCached(emails, |emails|, cache);
      if f.ids == [] then LegacyDeleteRun([], DeleteFailed("No emails found for selected senders"), cache)
      else
        var cs := Chunks(f.ids, 500);
        var calls := CallsFor(cs[..Min(server.accepted, |cs|)], ["TRASH"], []);
        if server.accepted < |cs| then LegacyDeleteRun(calls, DeleteFailed(server.error), cache)
        else LegacyDeleteRun(calls, BulkTrashed(|f.ids|, |f.senders|, "Moved " + NatToString(|f.ids|) + " emails from "
                                                                      + NatToString(|f.senders|) + " senders to trash"),
                             WithoutEmails(cache, f.senders))
  }

  method DeleteEmailsBulk(m: Module, emails: seq<string>, service: Option<string>, server: ModifyOutcome)
    returns (calls: seq<ModifyCall>, reply: DeleteResult)
    modifies m
    ensures LegacyDeleteRun(calls, reply, m.deleteScanResults) == LegacyBulkRun(emails, service, server, old(m.deleteScanResults))
    ensures m.Snap() == old(m.Snap()).(deleteScanResults := m.deleteScanResults)
  {
    calls := [];
    if service.Some? {
      reply := DeleteFailed(service.value);
      return;
    }
    var all: seq<string> := [];
    var found: seq<string> := [];
    var i := 0;
    while i < |emails|
      invariant 0 <= i <= |emails|
      invariant Found(all, found) == CollectCached(emails, i, m.deleteScanResults)
      invariant m.Snap() == old(m.Snap())
    {
      var row := FindSender(m.deleteScanResults, emails[i]);
      if row.Some? {
        all := all + m.deleteScanResults[row.value].msgIds;
        found := found + [emails[i]];
      }
      i := i + 1;
    }
    ghost var cache := m.deleteScanResults;
    assert Found(all, found) == CollectCached(emails, |emails|, cache);
    if all == [] {
      reply := DeleteFailed("No emails found for selected senders");
      return;
    }
    var deleted, dones, error;
    calls, deleted, dones, error := ModifyInChunks(all, 500, ["TRASH"], [], server);
    ghost var cs := Chunks(all, 500);
    assert calls == CallsFor(cs[..Min(server.accepted, |cs|)], ["TRASH"], []);
    if error.Some? {
      reply := DeleteFailed(error.value);
      assert LegacyBulkRun(emails, service, server, cache) == LegacyDeleteRun(calls, reply, cache);
      return;
    }
    ChunksPartition(all, 500);
    assert cs[..|cs|] == cs;
    assert deleted == |all|;
    m.deleteScanResults := PruneEmails(m.deleteScanResults, found);
    reply := BulkTrashed(deleted, |found|, "Moved " + NatToString(deleted) + " emails from " + NatToString(|found|)
                                           + " senders to trash");
    assert LegacyBulkRun(emails, service, server, cache) == LegacyDeleteRun(calls, reply, WithoutEmails(cache, found));
  }

  /** The bulk delete fails with "No emails found for selected senders" when no requested
      sender has cached ids; otherwise it trashes exactly the collected ids, in chunks of at
      most 500, reports their number, and on success drops from the cache exactly the rows
      of the senders it found, each of which was requested and cached. */
  lemma LegacyBulkOutcome(emails: seq<string>, server: ModifyOutcome, cache: seq<LegacySenderRow>)
    ensures var r := LegacyBulkRun(emails, None, server, cache);
            var f := CollectCached(emails, |emails|, cache);
            f.ids == [] ==> r == LegacyDeleteRun([], DeleteFailed("No emails found for selected senders"), cache)
    ensures var r := LegacyBulkRun(emails, None, server, cache);
            forall j :: 0 <= j < |r.calls| ==> 0 < |r.calls[j].ids| <= 500 && r.calls[j].addLabelIds == ["TRASH"]
    ensures var r := LegacyBulkRun(emails, None, server, cache);
            var f := CollectCached(emails, |emails|, cache);
            && (r.reply.DeleteFailed? ==> r.cache == cache)
            && (r.reply.BulkTrashed? ==> && IdsOf(r.calls) == f.ids && r.reply.deleted == |f.ids|
                                         && (forall x :: x in r.cache <==> x in cache && x.email !in f.senders)
                                         && (forall s :: s in f.senders ==> s in emails && FirstRowOf(cache, s).Some?))
  {
    var f := CollectCached(emails, |emails|, cache);
    CollectCachedFinds(emails, |emails|, cache);
    assert emails[..|emails|] == emails;
    if f.ids != [] {
      var cs := Chunks(f.ids, 500);
      var n := Min(server.accepted, |cs|);
      ChunksPartition(f.ids, 500);
      assert forall j :: 0 <= j < n ==> cs[..n][j] == cs[j];
      if server.accepted >= |cs| {
        assert cs[..n] == cs;
        AllChunksApplied(f.ids, 500, ["TRASH"], []);
      }
    }
  }
}

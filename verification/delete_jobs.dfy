/**
 * The current service's delete jobs: `delete_emails_by_sender`, the loop `delete_emails_bulk`
 * makes over it, and `delete_emails_bulk_background`, which first collects every sender's
 * ids (progress 0..40) and then trashes them in chunks of 1000 (progress 40..100).
 *
 * As in the scan jobs, the service error, the pages of each listing and the `batchModify`
 * outcome are inputs; each method is proved equal to a specification function of them.
 */
module DeleteJobs {
  import opened Wrappers
  import opened Text
  import opened Paging
  import opened Chunking
  import opened Scans
  import opened State

  /** The dict the by-sender and bulk deletes return. */
  datatype DeleteReply = DeleteReply(success: bool, deleted: nat, message: string)

  // ----- pruning the cached delete-scan results -----

  /** `[r for r in rows if r.get("email") != sender]`. */
  function WithoutSender(rows: seq<SenderRow>, sender: string): seq<SenderRow>
  {
    if rows == [] then []
    else
      var rest := WithoutSender(rows[..|rows| - 1], sender);
      if rows[|rows| - 1].email != sender then rest + [rows[|rows| - 1]] else rest
  }

  /** Pruning keeps exactly the rows of other senders. */
  lemma {:induction false} WithoutSenderMembers(rows: seq<SenderRow>, sender: string)
    ensures forall r :: r in WithoutSender(rows, sender) <==> r in rows && r.email != sender
    decreases |rows|
  {
    if rows != [] {
      var init := rows[..|rows| - 1];
      WithoutSenderMembers(init, sender);
      assert rows == init + [rows[|rows| - 1]];
    }
  }

  /** Pruning works piece by piece, so the kept rows stay in their order. */
  lemma {:induction false} WithoutSenderAppend(a: seq<SenderRow>, b: seq<SenderRow>, sender: string)
    ensures WithoutSender(a + b, sender) == WithoutSender(a, sender) + WithoutSender(b, sender)
    decreases |b|
  {
    if b == [] {
      assert a + b == a;
    } else {
      var init := b[..|b| - 1];
      WithoutSenderAppend(a, init, sender);
      assert (a + b)[..|a + b| - 1] == a + init;
      assert (a + b)[|a + b| - 1] == b[|b| - 1];
    }
  }

  /** Nothing is dropped when no row is the sender's, and pruning twice prunes once. */
  lemma {:induction false} WithoutSenderIdle(rows: seq<SenderRow>, sender: string)
    ensures (forall i :: 0 <= i < |rows| ==> rows[i].email != sender) ==> WithoutSender(rows, sender) == rows
    ensures WithoutSender(WithoutSender(rows, sender), sender) == WithoutSender(rows, sender)
    decreases |rows|
  {
    if rows != [] {
      var init := rows[..|rows| - 1];
      WithoutSenderIdle(init, sender);
      var rest := WithoutSender(init, sender);
      if rows[|rows| - 1].email != sender {
        WithoutSenderAppend(rest, [rows[|rows| - 1]], sender);
        assert WithoutSender([rows[|rows| - 1]], sender) == [rows[|rows| - 1]] by {
          assert [rows[|rows| - 1]][..0] == [];
        }
      }
      if forall i :: 0 <= i < |rows| ==> rows[i].email != sender {
        assert forall i :: 0 <= i < |init| ==> init[i] == rows[i];
        assert rows == init + [rows[|rows| - 1]];
      }
    }
  }

  method PruneSender(rows: seq<SenderRow>, sender: string) returns (kept: seq<SenderRow>)
    ensures kept == WithoutSender(rows, sender)
  {
    kept := [];
    var i := 0;
    while i < |rows|
      invariant 0 <= i <= |rows|
      invariant kept == WithoutSender(rows[..i], sender)
    {
      assert rows[..i + 1][..i] == rows[..i];
      if rows[i].email != sender {
        kept := kept + [rows[i]];
      }
      i := i + 1;
    }
    assert rows[..|rows|] == rows;
  }

  // ----- delete_emails_by_sender -----

  /** What a by-sender delete did: its list requests, its `batchModify` calls, its reply,
      and the cached delete-scan results it left. */
  datatype SenderDeleteRun = SenderDeleteRun(requests: seq<ListRequest>, calls: seq<ModifyCall>, reply: DeleteReply,
                                             cache: seq<SenderRow>)

  function FromQuery(sender: string): string
  {
    "from:" + sender
  }

  function DeleteBySenderRun(sender: string, service: Option<string>, pages: seq<ListResult>,
                             server: ModifyOutcome, cache: seq<SenderRow>): SenderDeleteRun
  {
    if sender == "" then SenderDeleteRun([], [], DeleteReply(false, 0, "No sender specified"), cache)
    else if service.Some? then SenderDeleteRun([], [], DeleteReply(false, 0, service.value), cache)
    else
      var l := All(pages, Some(FromQuery(sender)));
      if l.error.Some? then SenderDeleteRun(l.requests, [], DeleteReply(false, 0, l.error.value), cache)
      else if l.ids == [] then SenderDeleteRun(l.requests, [], DeleteReply(true, 0, "No emails found"), cache)
      else
        var cs := Chunks(l.ids, 100);
        var calls := CallsFor(cs[..Min(server.accepted, |cs|)], ["TRASH"], []);
        if server.accepted < |cs| then SenderDeleteRun(l.requests, calls, DeleteReply(false, 0, server.error), cache)
        else
          SenderDeleteRun(l.requests, calls, DeleteReply(true, |l.ids|, "Moved " + NatToString(|l.ids|) + " emails to trash"),
                          WithoutSender(cache, sender))
  }

  method DeleteEmailsBySender(st: AppState, sender: string, service: Option<string>, pages: seq<ListResult>,
                              server: ModifyOutcome)
    returns (requests: seq<ListRequest>, calls: seq<ModifyCall>, reply: DeleteReply)
    modifies st
    ensures SenderDeleteRun(requests, calls, reply, st.deleteScanResults)
            == DeleteBySenderRun(sender, service, pages, server, old(st.deleteScanResults))
    ensures st.Snap() == old(st.Snap()).(deleteScanResults := st.deleteScanResults)
  {
    requests, calls := [], [];
    if sender == "" {
      reply := DeleteReply(false, 0, "No sender specified");
      return;
    }
    if service.Some? {
      reply := DeleteReply(false, 0, service.value);
      return;
    }
    var ids, error;
    ids, requests, error := ListAll(pages, Some(FromQuery(sender)));
    if error.Some? {
      reply := DeleteReply(false, 0, error.value);
      return;
    }
    if ids == [] {
      reply := DeleteReply(true, 0, "No emails found");
      return;
    }
    var deleted, dones;
    calls, deleted, dones, error := ModifyInChunks(ids, 100, ["TRASH"], [], server);
    if error.Some? {
      reply := DeleteReply(false, 0, error.value);
      return;
    }
    ChunksPartition(ids, 100);
    assert Chunks(ids, 100)[..|Chunks(ids, 100)|] == Chunks(ids, 100);
    st.deleteScanResults := PruneSender(st.deleteScanResults, sender);
    reply := DeleteReply(true, deleted, "Moved " + NatToString(deleted) + " emails to trash");
  }

  /** An empty sender fails with nothing deleted and nothing listed; a success trashes every
      listed id, in chunks of at most 100 that each add `TRASH`, reports their number, and
      drops exactly the cached rows of that sender (but when nothing is listed, it succeeds
      and keeps them); a failure leaves the cache alone and reports nothing deleted. */
  lemma DeleteBySenderOutcome(sender: string, service: Option<string>, pages: seq<ListResult>,
                              server: ModifyOutcome, cache: seq<SenderRow>)
    ensures var r := DeleteBySenderRun(sender, service, pages, server, cache);
            sender == "" ==> r == SenderDeleteRun([], [], DeleteReply(false, 0, "No sender specified"), cache)
    ensures var r := DeleteBySenderRun(sender, service, pages, server, cache);
            !r.reply.success ==> r.reply.deleted == 0 && r.cache == cache
    ensures var r := DeleteBySenderRun(sender, service, pages, server, cache);
            forall j :: 0 <= j < |r.calls| ==> 0 < |r.calls[j].ids| <= 100 && r.calls[j].addLabelIds == ["TRASH"] && r.calls[j].removeLabelIds == []
    ensures var r := DeleteBySenderRun(sender, service, pages, server, cache);
            var l := All(pages, Some(FromQuery(sender)));
            r.reply.success ==> && IdsOf(r.calls) == l.ids && r.reply.deleted == |l.ids|
                                && (l.ids == [] ==> r.cache == cache)
                                && (l.ids != [] ==> forall row :: row in r.cache <==> row in cache && row.email != sender)
  {
    var r := DeleteBySenderRun(sender, service, pages, server, cache);
    var l := All(pages, Some(FromQuery(sender)));
    if sender != "" && service.None? && l.error.None? && l.ids != [] {
      var cs := Chunks(l.ids, 100);
      var n := Min(server.accepted, |cs|);
      ChunksPartition(l.ids, 100);
      assert forall j :: 0 <= j < n ==> cs[..n][j] == cs[j];
      if server.accepted >= |cs| {
        assert cs[..n] == cs;
        AllChunksApplied(l.ids, 100, ["TRASH"], []);
        WithoutSenderMembers(cache, sender);
      }
    }
  }

  // ----- delete_emails_bulk -----

  function PagesFor(pagesBy: seq<seq<ListResult>>, i: nat): seq<ListResult>
  {
    if i < |pagesBy| then pagesBy[i] else []
  }

  /** The server's answers to the `batchModify` calls made for sender `i`; for a sender
      without one, the first call raises. */
  function ServerFor(servers: seq<ModifyOutcome>, i: nat): ModifyOutcome
  {
    if i < |servers| then servers[i] else ModifyOutcome(0, "")
  }

  /** The running totals of the bulk loop after its first `n` senders. */
  datatype Tally = Tally(deleted: nat, errors: seq<string>, cache: seq<SenderRow>, calls: seq<ModifyCall>)

  function BulkTally(senders: seq<string>, n: nat, service: Option<string>, pagesBy: seq<seq<ListResult>>,
                     servers: seq<ModifyOutcome>, cache: seq<SenderRow>): Tally
    requires n <= |senders|
  {
    if n == 0 then Tally(0, [], cache, [])
    else
      var t := BulkTally(senders, n - 1, service, pagesBy, servers, cache);
      var r := DeleteBySenderRun(senders[n - 1], service, PagesFor(pagesBy, n - 1), ServerFor(servers, n - 1), t.cache);
      if r.reply.success then Tally(t.deleted + r.reply.deleted, t.errors, r.cache, t.calls + r.calls)
      else Tally(t.deleted, t.errors + [senders[n - 1] + ": " + r.reply.message], r.cache, t.calls + r.calls)
  }

  /** `errors[:3]`. */
  function FirstThree(errors: seq<string>): seq<string>
  {
    errors[..Min(3, |errors|)]
  }

  function BulkReply(senders: seq<string>, t: Tally): DeleteReply
  {
    if senders == [] then DeleteReply(false, 0, "No senders specified")
    else if t.errors != [] then
      DeleteReply(|t.errors| < |senders|, t.deleted,
                  "Deleted " + NatToString(t.deleted) + " emails. Errors: " + Join(FirstThree(t.errors), "; "))
    else if t.deleted == 0 then DeleteReply(false, 0, "No emails found to delete")
    else DeleteReply(true, t.deleted, "Deleted " + NatToString(t.deleted) + " emails")
  }

  method DeleteEmailsBulk(st: AppState, senders: seq<string>, service: Option<string>,
                          pagesBy: seq<seq<ListResult>>, servers: seq<ModifyOutcome>)
    returns (calls: seq<ModifyCall>, reply: DeleteReply)
    modifies st
    ensures var t := BulkTally(senders, |senders|, service, pagesBy, servers, old(st.deleteScanResults));
            reply == BulkReply(senders, t) && calls == t.calls && st.deleteScanResults == t.cache
    ensures st.Snap() == old(st.Snap()).(deleteScanResults := st.deleteScanResults)
  {
    calls := [];
    if senders == [] {
      reply := DeleteReply(false, 0, "No senders specified");
      return;
    }
    var total: nat := 0;
    var errors: seq<string> := [];
    var i := 0;
    while i < |senders|
      invariant 0 <= i <= |senders|
      invariant Tally(total, errors, st.deleteScanResults, calls)
                == BulkTally(senders, i, service, pagesBy, servers, old(st.deleteScanResults))
      invariant st.Snap() == old(st.Snap()).(deleteScanResults := st.deleteScanResults)
    {
      var requests, more, result := DeleteEmailsBySender(st, senders[i], service, PagesFor(pagesBy, i), ServerFor(servers, i));
      calls := calls + more;
      if result.success {
        total := total + result.deleted;
      } else {
        errors := errors + [senders[i] + ": " + result.message];
      }
      i := i + 1;
    }
    reply := BulkReply(senders, Tally(total, errors, st.deleteScanResults, calls));
  }

  /** The bulk loop adds up the deletes that succeeded and records one error per sender
      whose delete failed, so there are never more errors than senders. */
  lemma {:induction false} BulkTallyCounts(senders: seq<string>, n: nat, service: Option<string>,
                                           pagesBy: seq<seq<ListResult>>, servers: seq<ModifyOutcome>, cache: seq<SenderRow>)
    requires n <= |senders|
    ensures var t := BulkTally(senders, n, service, pagesBy, servers, cache);
            |t.errors| <= n
            && (service.Some? ==> t.deleted == 0 && |t.errors| == n && t.calls == [] && t.cache == cache)
  {
    if n > 0 {
      BulkTallyCounts(senders, n - 1, service, pagesBy, servers, cache);
    }
  }

  /** The bulk reply: with errors it succeeds iff fewer senders failed than were asked for,
      and reports the deletes that went through; with none, it fails when nothing was deleted. */
  lemma BulkReplyRule(senders: seq<string>, t: Tally)
    requires senders != []
    ensures var r := BulkReply(senders, t);
            && (t.errors != [] ==> (r.success <==> |t.errors| < |senders|) && r.deleted == t.deleted)
            && (t.errors == [] ==> (r.success <==> t.deleted > 0) && r.deleted == t.deleted)
            && (r.deleted == 0 && t.errors == [] ==> r.message == "No emails found to delete")
  {
  }

  /** When the service cannot be reached, the bulk delete fails for every sender and
      reports nothing deleted. */
  lemma BulkWithoutService(senders: seq<string>, e: string, pagesBy: seq<seq<ListResult>>,
                           servers: seq<ModifyOutcome>, cache: seq<SenderRow>)
    requires senders != []
    ensures var t := BulkTally(senders, |senders|, Some(e), pagesBy, servers, cache);
            var r := BulkReply(senders, t);
            !r.success && r.deleted == 0 && t.cache == cache
  {
    BulkTallyCounts(senders, |senders|, Some(e), pagesBy, servers, cache);
  }

  // ----- delete_emails_bulk_background -----

  /** Phase one after its first `n` senders: the ids collected, the errors recorded, and
      each sender's list requests. A sender whose listing fails adds an error and none of
      the ids it had already listed. */
  datatype Collection = Collection(ids: seq<string>, errors: seq<string>, requests: seq<seq<ListRequest>>)

  function Collect(senders: seq<string>, n: nat, pagesBy: seq<seq<ListResult>>): (c: Collection)
    requires n <= |senders|
    ensures |c.requests| == n && |c.errors| <= n
  {
    if n == 0 then Collection([], [], [])
    else
      var c := Collect(senders, n - 1, pagesBy);
      var l := All(PagesFor(pagesBy, n - 1), Some(FromQuery(senders[n - 1])));
      if l.error.Some? then Collection(c.ids, c.errors + [senders[n - 1] + ": " + l.error.value], c.requests + [l.requests])
      else Collection(c.ids + l.ids, c.errors, c.requests + [l.requests])
  }

  /** The listing of sender `i`'s messages. */
  function SenderListing(senders: seq<string>, pagesBy: seq<seq<ListResult>>, i: nat): Listing
    requires i < |senders|
  {
    All(PagesFor(pagesBy, i), Some(FromQuery(senders[i])))
  }

  /** The ids sender `i` adds: all it listed, or none when its listing failed. */
  function KeptIds(senders: seq<string>, pagesBy: seq<seq<ListResult>>, i: nat): seq<string>
    requires i < |senders|
  {
    var l := SenderListing(senders, pagesBy, i);
    if l.error.Some? then [] else l.ids
  }

  /** The error line sender `i` adds: `sender: error` when its listing failed. */
  function ErrorLines(senders: seq<string>, pagesBy: seq<seq<ListResult>>, i: nat): seq<string>
    requires i < |senders|
  {
    var l := SenderListing(senders, pagesBy, i);
    if l.error.Some? then [senders[i] + ": " + l.error.value] else []
  }

  /** Phase one sender by sender: the ids are those of the successful listings in sender
      order, the errors name each failed listing in order, and sender `i`'s requests are
      those of its own listing. */
  lemma CollectPerSender(senders: seq<string>, n: nat, pagesBy: seq<seq<ListResult>>)
    requires n <= |senders|
    ensures Collect(senders, n, pagesBy).ids == Flatten(seq(n, i requires 0 <= i < n => KeptIds(senders, pagesBy, i)))
    ensures Collect(senders, n, pagesBy).errors == Flatten(seq(n, i requires 0 <= i < n => ErrorLines(senders, pagesBy, i)))
    ensures forall i :: 0 <= i < n ==> Collect(senders, n, pagesBy).requests[i] == SenderListing(senders, pagesBy, i).requests
  {
    CollectIds(senders, n, pagesBy);
    CollectErrors(senders, n, pagesBy);
    CollectRequests(senders, n, pagesBy);
  }

  lemma {:induction false} CollectIds(senders: seq<string>, n: nat, pagesBy: seq<seq<ListResult>>)
    requires n <= |senders|
    ensures Collect(senders, n, pagesBy).ids == Flatten(seq(n, i requires 0 <= i < n => KeptIds(senders, pagesBy, i)))
  {
    if n > 0 {
      CollectIds(senders, n - 1, pagesBy);
      CollectStep(senders, n, pagesBy);
      var ks := seq(n, i requires 0 <= i < n => KeptIds(senders, pagesBy, i));
      assert ks[..n - 1] == seq(n - 1, i requires 0 <= i < n - 1 => KeptIds(senders, pagesBy, i));
      FlattenSnoc(ks);
    }
  }

  lemma {:induction false} CollectErrors(senders: seq<string>, n: nat, pagesBy: seq<seq<ListResult>>)
    requires n <= |senders|
    ensures Collect(senders, n, pagesBy).errors == Flatten(seq(n, i requires 0 <= i < n => ErrorLines(senders, pagesBy, i)))
  {
    if n > 0 {
      CollectErrors(senders, n - 1, pagesBy);
      CollectStep(senders, n, pagesBy);
      var es := seq(n, i requires 0 <= i < n => ErrorLines(senders, pagesBy, i));
      assert es[..n - 1] == seq(n - 1, i requires 0 <= i < n - 1 => ErrorLines(senders, pagesBy, i));
      FlattenSnoc(es);
    }
  }

  lemma {:induction false} CollectRequests(senders: seq<string>, n: nat, pagesBy: seq<seq<ListResult>>)
    requires n <= |senders|
    ensures forall i :: 0 <= i < n ==> Collect(senders, n, pagesBy).requests[i] == SenderListing(senders, pagesBy, i).requests
  {
    if n > 0 {
      CollectRequests(senders, n - 1, pagesBy);
      CollectStep(senders, n, pagesBy);
      var rs := Collect(senders, n - 1, pagesBy).requests;
      forall i | 0 <= i < n ensures Collect(senders, n, pagesBy).requests[i] == SenderListing(senders, pagesBy, i).requests {
        if i < n - 1 {
          assert Collect(senders, n, pagesBy).requests[i] == rs[i];
        }
      }
    }
  }

  /** One more sender adds its kept ids, its error line and its requests. */
  lemma CollectStep(senders: seq<string>, n: nat, pagesBy: seq<seq<ListResult>>)
    requires 0 < n <= |senders|
    ensures Collect(senders, n, pagesBy).ids == Collect(senders, n - 1, pagesBy).ids + KeptIds(senders, pagesBy, n - 1)
    ensures Collect(senders, n, pagesBy).errors == Collect(senders, n - 1, pagesBy).errors + ErrorLines(senders, pagesBy, n - 1)
    ensures Collect(senders, n, pagesBy).requests == Collect(senders, n - 1, pagesBy).requests + [SenderListing(senders, pagesBy, n - 1).requests]
  {
  }

  /** What the background delete did: each sender's list requests, the progress shown while
      looking at each sender, the `batchModify` calls, the progress after each, and the
      record it left. */
  datatype BulkRun = BulkRun(requests: seq<seq<ListRequest>>, collecting: seq<nat>, calls: seq<ModifyCall>,
                             deleting: seq<nat>, status: Status)

  /** `int((i / total_senders) * 40)` for each sender `i`. */
  function CollectProgress(n: nat, total: nat): (r: seq<nat>)
    ensures |r| == n && forall i :: 0 <= i < n ==> r[i] == Percent(0, 40, i, total)
  {
    seq(n, i requires 0 <= i < n => Percent(0, 40, i, total))
  }

  /** The record after the deletes: progress 100, done, and an error iff anything failed. */
  function FinalStatus(deleted: nat, errors: seq<string>, n: nat): Status
  {
    if errors != [] then
      Status(100, "Deleted " + NatToString(deleted) + " emails with some errors", true,
             Some("Some errors: " + Join(FirstThree(errors), "; ")), DeleteBulk(deleted, n, n))
    else Status(100, "Successfully deleted " + NatToString(deleted) + " emails", true, None, DeleteBulk(deleted, n, n))
  }

  function BulkBackgroundRun(senders: seq<string>, service: Option<string>, pagesBy: seq<seq<ListResult>>,
                             server: ModifyOutcome): BulkRun
  {
    var n := |senders|;
    if senders == [] then BulkRun([], [], [], [], Status(0, "Ready", true, Some("No senders specified"), DeleteBulk(0, 0, 0)))
    else if service.Some? then
      BulkRun([], [], [], [], Status(0, "Collecting emails to delete...", true, service, DeleteBulk(0, n, 0)))
    else
      var c := Collect(senders, n, pagesBy);
      if c.ids == [] then
        BulkRun(c.requests, CollectProgress(n, n), [], [], Status(100, "No emails found to delete", true, None, DeleteBulk(0, n, n)))
      else
        var cs := Chunks(c.ids, 1000);
        var k := Min(server.accepted, |cs|);
        var deleted := |Flatten(cs[..k])|;
        var errors := if server.accepted < |cs| then c.errors + ["Batch delete error: " + server.error] else c.errors;
        BulkRun(c.requests, CollectProgress(n, n), CallsFor(cs[..k], ["TRASH"], []),
                ChunkProgress(cs[..k], 40, 60, |c.ids|),
                FinalStatus(deleted, errors, n))
  }

  /** Phase one: look at each sender in turn, showing its position and the progress
      before it, and collect the ids of every listing that succeeds. */
  method CollectSenders(st: AppState, senders: seq<string>, pagesBy: seq<seq<ListResult>>)
    returns (all: seq<string>, errors: seq<string>, requests: seq<seq<ListRequest>>, collecting: seq<nat>)
    requires senders != []
    requires st.deleteBulkStatus.extra == DeleteBulk(0, |senders|, 0)
    requires !st.deleteBulkStatus.done && st.deleteBulkStatus.error.None?
    modifies st
    ensures Collection(all, errors, requests) == Collect(senders, |senders|, pagesBy)
    ensures collecting == CollectProgress(|senders|, |senders|)
    ensures st.deleteBulkStatus.extra == DeleteBulk(0, |senders|, |senders|)
    ensures !st.deleteBulkStatus.done && st.deleteBulkStatus.error.None?
    ensures st.Snap() == old(st.Snap()).(deleteBulkStatus := st.deleteBulkStatus)
  {
    var n := |senders|;
    all, errors, requests, collecting := [], [], [], [];
    var i := 0;
    while i < n
      invariant 0 <= i <= n
      invariant Collection(all, errors, requests) == Collect(senders, i, pagesBy)
      invariant collecting == CollectProgress(i, n)
      invariant st.deleteBulkStatus.extra == DeleteBulk(0, n, i) && !st.deleteBulkStatus.done && st.deleteBulkStatus.error.None?
      invariant st.Snap() == old(st.Snap()).(deleteBulkStatus := st.deleteBulkStatus)
    {
      var p := Percent(0, 40, i, n);
      st.deleteBulkStatus := st.deleteBulkStatus.(extra := DeleteBulk(0, n, i + 1), progress := p,
                                                  message := "Finding emails from " + senders[i] + "...");
      collecting := collecting + [p];
      var ids, reqs, error := ListAll(PagesFor(pagesBy, i), Some(FromQuery(senders[i])));
      requests := requests + [reqs];
      if error.Some? {
        errors := errors + [senders[i] + ": " + error.value];
      } else {
        all := all + ids;
      }
      i := i + 1;
    }
  }

  method DeleteEmailsBulkBackground(st: AppState, senders: seq<string>, service: Option<string>,
                                    pagesBy: seq<seq<ListResult>>, server: ModifyOutcome)
    returns (requests: seq<seq<ListRequest>>, collecting: seq<nat>, calls: seq<ModifyCall>, deleting: seq<nat>)
    modifies st
    ensures BulkRun(requests, collecting, calls, deleting, st.deleteBulkStatus) == BulkBackgroundRun(senders, service, pagesBy, server)
    ensures st.Snap() == old(st.Snap()).(deleteBulkStatus := st.deleteBulkStatus)
  {
    st.ResetDeleteBulk();
    requests, collecting, calls, deleting := [], [], [], [];
    if senders == [] {
      st.deleteBulkStatus := st.deleteBulkStatus.(done := true, error := Some("No senders specified"));
      return;
    }
    var n := |senders|;
    st.deleteBulkStatus := st.deleteBulkStatus.(extra := DeleteBulk(0, n, 0), message := "Collecting emails to delete...");
    if service.Some? {
      st.deleteBulkStatus := st.deleteBulkStatus.(done := true, error := service);
      return;
    }
    var all, errors;
    all, errors, requests, collecting := CollectSenders(st, senders, pagesBy);
    if all == [] {
      st.deleteBulkStatus := st.deleteBulkStatus.(progress := 100, done := true, message := "No emails found to delete");
      return;
    }
    var total := |all|;
    st.deleteBulkStatus := st.deleteBulkStatus.(message := "Deleting " + NatToString(total) + " emails...");
    var deleted, dones, error;
    calls, deleted, dones, error := ModifyInChunks(all, 1000, ["TRASH"], [], server);
    deleting := ProgressOf(dones, 40, 60, total);
    ghost var cs := Chunks(all, 1000);
    ghost var k := Min(server.accepted, |cs|);
    assert deleting == ChunkProgress(cs[..k], 40, 60, total) by {
      forall j | 0 <= j < k ensures deleting[j] == ChunkProgress(cs[..k], 40, 60, total)[j] {
        assert cs[..k][..j + 1] == cs[..j + 1];
      }
    }
    if error.Some? {
      errors := errors + ["Batch delete error: " + error.value];
    }
    st.deleteBulkStatus := FinalStatus(deleted, errors, n);
  }

  /** No senders: done at once with "No senders specified", nothing listed or deleted. */
  lemma BulkBackgroundNoSenders(service: Option<string>, pagesBy: seq<seq<ListResult>>, server: ModifyOutcome)
    ensures var r := BulkBackgroundRun([], service, pagesBy, server);
            r.status.done && r.status.error == Some("No senders specified") && r.requests == [] && r.calls == []
  {
  }

  /** Phase one shows progress below 40 while it looks at each sender in turn, and never goes back. */
  lemma CollectingBelow40(senders: seq<string>, service: Option<string>, pagesBy: seq<seq<ListResult>>, server: ModifyOutcome)
    ensures var p := BulkBackgroundRun(senders, service, pagesBy, server).collecting;
            forall i, j :: 0 <= i <= j < |p| ==> p[i] <= p[j] < 40
  {
    var n := |senders|;
    forall i, j | 0 <= i <= j < |CollectProgress(n, n)|
      ensures CollectProgress(n, n)[i] <= CollectProgress(n, n)[j] < 40
    {
      PercentMonotone(0, 40, i, j, n);
      CollectPhaseBelow40(j, n);
    }
  }

  /** Phase two sends the collected ids in chunks of at most 1000, each adding `TRASH`,
      until the first call that raises, after which none is made; when every call goes
      through, each collected id is trashed exactly once, in order. */
  lemma DeletingCalls(senders: seq<string>, pagesBy: seq<seq<ListResult>>, server: ModifyOutcome)
    ensures var r := BulkBackgroundRun(senders, None, pagesBy, server);
            forall j :: 0 <= j < |r.calls| ==>
              0 < |r.calls[j].ids| <= 1000 && r.calls[j].addLabelIds == ["TRASH"] && r.calls[j].removeLabelIds == []
    ensures var r := BulkBackgroundRun(senders, None, pagesBy, server);
            |r.calls| <= server.accepted && |r.deleting| == |r.calls|
    ensures var r := BulkBackgroundRun(senders, None, pagesBy, server);
            var c := Collect(senders, |senders|, pagesBy);
            senders != [] && server.accepted >= |Chunks(c.ids, 1000)| ==> IdsOf(r.calls) == c.ids
  {
    var c := Collect(senders, |senders|, pagesBy);
    if senders != [] && c.ids != [] {
      var cs := Chunks(c.ids, 1000);
      var k := Min(server.accepted, |cs|);
      var r := BulkBackgroundRun(senders, None, pagesBy, server);
      assert r.calls == CallsFor(cs[..k], ["TRASH"], []);
      ChunksPartition(c.ids, 1000);
      assert forall j :: 0 <= j < k ==> cs[..k][j] == cs[j];
      if server.accepted >= |cs| {
        assert cs[..k] == cs;
        AllChunksApplied(c.ids, 1000, ["TRASH"], []);
      }
    }
  }

  /** The progress phase two records after each call stays within 40..100 and never goes back. */
  lemma DeletingProgress(senders: seq<string>, pagesBy: seq<seq<ListResult>>, server: ModifyOutcome)
    ensures var p := BulkBackgroundRun(senders, None, pagesBy, server).deleting;
            forall i, j :: 0 <= i <= j < |p| ==> 40 <= p[i] <= p[j] <= 100
  {
    var c := Collect(senders, |senders|, pagesBy);
    if senders != [] && c.ids != [] {
      var cs := Chunks(c.ids, 1000);
      var k := Min(server.accepted, |cs|);
      var p := ChunkProgress(cs[..k], 40, 60, |c.ids|);
      assert BulkBackgroundRun(senders, None, pagesBy, server).deleting == p;
      forall j | 0 <= j < k ensures p[j] == Percent(40, 60, |Flatten(cs[..j + 1])|, |c.ids|) {
        assert cs[..k][..j + 1] == cs[..j + 1];
      }
      ProgressClimbs(c.ids, 1000, 40, 60, p);
    }
  }

  /** The final record: once the senders are looked at, the job ends at progress 100 and
      done, with `deleted_count` the number of ids trashed, `error` set iff a listing or a
      chunk failed when there was something to delete, and never an error when nothing was
      found, even if every listing failed. The cached scan results are not touched. */
  lemma BulkBackgroundFinal(senders: seq<string>, pagesBy: seq<seq<ListResult>>, server: ModifyOutcome)
    requires senders != []
    ensures var r := BulkBackgroundRun(senders, None, pagesBy, server);
            var c := Collect(senders, |senders|, pagesBy);
            && r.status.progress == 100 && r.status.done
            && r.status.extra == DeleteBulk(|IdsOf(r.calls)|, |senders|, |senders|)
            && (c.ids == [] ==> r.calls == [] && r.status.error.None? && r.status.message == "No emails found to delete")
            && (c.ids != [] ==> (r.status.error.Some? <==> c.errors != [] || server.accepted < |Chunks(c.ids, 1000)|))
  {
    var n := |senders|;
    var c := Collect(senders, n, pagesBy);
    if c.ids != [] {
      var cs := Chunks(c.ids, 1000);
      var k := Min(server.accepted, |cs|);
      IdsOfCalls(cs[..k], ["TRASH"], []);
    }
  }
}

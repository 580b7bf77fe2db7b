/**
 * `AppState`: the shared records the jobs report through. Each `reset_*` installs a fresh
 * record (and sometimes an empty result list) and leaves every other field alone.
 * `reset_download` is the only place that creates the label, archive and important
 * records, so until it runs they do not exist (`None`).
 */
module State {
  import opened Wrappers
  import opened Scans

  /** The counters a record carries beside progress, message, done and error. */
  datatype Extra =
    | Plain
    | MarkRead(markedCount: int)
    | DeleteBulk(deletedCount: int, totalSenders: int, currentSender: int)
    | Download(totalEmails: int, fetchedCount: int, csvData: Option<string>)
    | Affected(affectedCount: int, totalSenders: int, currentSender: int)
    | Archived(archivedCount: int, totalSenders: int, currentSender: int)

  datatype Status = Status(progress: int, message: string, done: bool, error: Option<string>, extra: Extra)

  datatype User = User(email: Option<string>, loggedIn: bool)

  /** A record as `__init__` and the resets write it. */
  function Fresh(extra: Extra): Status
  {
    Status(0, "Ready", false, None, extra)
  }

  const FreshScan: Status := Fresh(Plain)
  const FreshMarkRead: Status := Fresh(MarkRead(0))
  const FreshDeleteBulk: Status := Fresh(DeleteBulk(0, 0, 0))
  const FreshDownload: Status := Fresh(Download(0, 0, None))
  const FreshLabelOperation: Status := Fresh(Affected(0, 0, 0))
  const FreshArchive: Status := Fresh(Archived(0, 0, 0))
  const FreshImportant: Status := Fresh(Affected(0, 0, 0))

  /** Nothing has started: progress 0, "Ready", not done, no error, every counter 0. */
  predicate IsFresh(s: Status)
  {
    && s.progress == 0 && s.message == "Ready" && !s.done && s.error.None?
    && match s.extra
       case Plain => true
       case MarkRead(m) => m == 0
       case DeleteBulk(d, t, c) => d == 0 && t == 0 && c == 0
       case Download(t, f, csv) => t == 0 && f == 0 && csv.None?
       case Affected(a, t, c) => a == 0 && t == 0 && c == 0
       case Archived(a, t, c) => a == 0 && t == 0 && c == 0
  }

  /** The value of every field of an `AppState`. */
  datatype Snapshot = Snapshot(
    currentUser: User,
    scanResults: seq<SubscriptionRow>, scanStatus: Status,
    markReadStatus: Status,
    deleteScanResults: seq<SenderRow>, deleteScanStatus: Status,
    deleteBulkStatus: Status,
    downloadStatus: Status,
    labelOperationStatus: Option<Status>, archiveStatus: Option<Status>, importantStatus: Option<Status>,
    pendingAuthUrl: Option<string>, pendingAuthCode: Option<string>)

  function Initial(): Snapshot
  {
    Snapshot(User(None, false), [], FreshScan, FreshMarkRead, [], FreshScan, FreshDeleteBulk, FreshDownload,
             None, None, None, None, None)
  }

  function ResetScanOf(s: Snapshot): Snapshot { s.(scanResults := [], scanStatus := FreshScan) }

  function ResetDeleteScanOf(s: Snapshot): Snapshot { s.(deleteScanResults := [], deleteScanStatus := FreshScan) }

  function ResetMarkReadOf(s: Snapshot): Snapshot { s.(markReadStatus := FreshMarkRead) }

  function ResetDeleteBulkOf(s: Snapshot): Snapshot { s.(deleteBulkStatus := FreshDeleteBulk) }

  function ResetDownloadOf(s: Snapshot): Snapshot
  {
    s.(downloadStatus := FreshDownload, labelOperationStatus := Some(FreshLabelOperation),
       archiveStatus := Some(FreshArchive), importantStatus := Some(FreshImportant))
  }

  function ResetLabelOperationOf(s: Snapshot): Snapshot { s.(labelOperationStatus := Some(FreshLabelOperation)) }

  function ResetArchiveOf(s: Snapshot): Snapshot { s.(archiveStatus := Some(FreshArchive)) }

  function ResetImportantOf(s: Snapshot): Snapshot { s.(importantStatus := Some(FreshImportant)) }

  class AppState {
    var currentUser: User
    var scanResults: seq<SubscriptionRow>
    var scanStatus: Status
    var markReadStatus: Status
    var deleteScanResults: seq<SenderRow>
    var deleteScanStatus: Status
    var deleteBulkStatus: Status
    var downloadStatus: Status
    var labelOperationStatus: Option<Status>
    var archiveStatus: Option<Status>
    var importantStatus: Option<Status>
    var pendingAuthUrl: Option<string>
    var pendingAuthCode: Option<string>

    function Snap(): Snapshot
      reads this
    {
      Snapshot(currentUser, scanResults, scanStatus, markReadStatus, deleteScanResults, deleteScanStatus,
               deleteBulkStatus, downloadStatus, labelOperationStatus, archiveStatus, importantStatus,
               pendingAuthUrl, pendingAuthCode)
    }

    constructor ()
      ensures Snap() == Initial()
    {
      currentUser := User(None, false);
      scanResults := [];
      scanStatus := FreshScan;
      markReadStatus := FreshMarkRead;
      deleteScanResults := [];
      deleteScanStatus := FreshScan;
      deleteBulkStatus := FreshDeleteBulk;
      downloadStatus := FreshDownload;
      labelOperationStatus, archiveStatus, importantStatus := None, None, None;
      pendingAuthUrl := None;
      pendingAuthCode := None;
    }

    method ResetScan()
      modifies this
      ensures scanResults == [] && IsFresh(scanStatus)
      ensures Snap() == ResetScanOf(old(Snap()))
    {
      scanResults := [];
      scanStatus := FreshScan;
    }

    method ResetDeleteScan()
      modifies this
      ensures deleteScanResults == [] && IsFresh(deleteScanStatus)
      ensures Snap() == ResetDeleteScanOf(old(Snap()))
    {
      deleteScanResults := [];
      deleteScanStatus := FreshScan;
    }

    method ResetMarkRead()
      modifies this
      ensures IsFresh(markReadStatus) && markReadStatus.extra == MarkRead(0)
      ensures Snap() == ResetMarkReadOf(old(Snap()))
    {
      markReadStatus := FreshMarkRead;
    }

    method ResetDeleteBulk()
      modifies this
      ensures IsFresh(deleteBulkStatus) && deleteBulkStatus.extra == DeleteBulk(0, 0, 0)
      ensures Snap() == ResetDeleteBulkOf(old(Snap()))
    {
      deleteBulkStatus := FreshDeleteBulk;
    }

    method ResetDownload()
      modifies this
      ensures IsFresh(downloadStatus) && downloadStatus.extra == Download(0, 0, None)
      ensures labelOperationStatus.Some? && archiveStatus.Some? && importantStatus.Some?
      ensures Snap() == ResetDownloadOf(old(Snap()))
    {
      downloadStatus := FreshDownload;
      labelOperationStatus := Some(FreshLabelOperation);
      archiveStatus := Some(FreshArchive);
      importantStatus := Some(FreshImportant);
    }

    method ResetLabelOperation()
      modifies this
      ensures labelOperationStatus == Some(FreshLabelOperation)
      ensures Snap() == ResetLabelOperationOf(old(Snap()))
    {
      labelOperationStatus := Some(FreshLabelOperation);
    }

    method ResetArchive()
      modifies this
      ensures archiveStatus == Some(FreshArchive)
      ensures Snap() == ResetArchiveOf(old(Snap()))
    {
      archiveStatus := Some(FreshArchive);
    }

    method ResetImportant()
      modifies this
      ensures importantStatus == Some(FreshImportant)
      ensures Snap() == ResetImportantOf(old(Snap()))
    {
      importantStatus := Some(FreshImportant);
    }
  }

  // ----- properties of the resets -----

  /** A fresh state: every record it creates is fresh, both result lists are empty, nobody
      is signed in and the three records of `reset_download` do not exist yet. */
  lemma InitialState()
    ensures var s := Initial();
            && IsFresh(s.scanStatus) && IsFresh(s.markReadStatus) && IsFresh(s.deleteScanStatus)
            && IsFresh(s.deleteBulkStatus) && IsFresh(s.downloadStatus)
            && s.scanResults == [] && s.deleteScanResults == []
            && s.currentUser == User(None, false) && s.pendingAuthUrl.None? && s.pendingAuthCode.None?
            && s.labelOperationStatus.None? && s.archiveStatus.None? && s.importantStatus.None?
  {
  }

  /** Every reset is idempotent. */
  lemma ResetsIdempotent(s: Snapshot)
    ensures ResetScanOf(ResetScanOf(s)) == ResetScanOf(s)
    ensures ResetDeleteScanOf(ResetDeleteScanOf(s)) == ResetDeleteScanOf(s)
    ensures ResetMarkReadOf(ResetMarkReadOf(s)) == ResetMarkReadOf(s)
    ensures ResetDeleteBulkOf(ResetDeleteBulkOf(s)) == ResetDeleteBulkOf(s)
    ensures ResetDownloadOf(ResetDownloadOf(s)) == ResetDownloadOf(s)
    ensures ResetLabelOperationOf(ResetLabelOperationOf(s)) == ResetLabelOperationOf(s)
    ensures ResetArchiveOf(ResetArchiveOf(s)) == ResetArchiveOf(s)
    ensures ResetImportantOf(ResetImportantOf(s)) == ResetImportantOf(s)
  {
  }

  /** Resetting one job never touches another job's record or results. */
  lemma ResetsAreLocal(s: Snapshot)
    ensures var t := ResetScanOf(s);
            t.markReadStatus == s.markReadStatus && t.deleteScanResults == s.deleteScanResults
            && t.deleteScanStatus == s.deleteScanStatus && t.deleteBulkStatus == s.deleteBulkStatus
    ensures var t := ResetDeleteScanOf(s);
            t.scanResults == s.scanResults && t.scanStatus == s.scanStatus && t.deleteBulkStatus == s.deleteBulkStatus
    ensures var t := ResetMarkReadOf(s);
            t.scanResults == s.scanResults && t.deleteScanResults == s.deleteScanResults
    ensures var t := ResetDeleteBulkOf(s);
            t.scanResults == s.scanResults && t.deleteScanResults == s.deleteScanResults
            && t.deleteScanStatus == s.deleteScanStatus
    ensures ResetDownloadOf(s).scanResults == s.scanResults && ResetDownloadOf(s).deleteScanResults == s.deleteScanResults
  {
  }

  /** The resets of different jobs commute. */
  lemma ResetsCommute(s: Snapshot)
    ensures ResetScanOf(ResetDeleteScanOf(s)) == ResetDeleteScanOf(ResetScanOf(s))
    ensures ResetScanOf(ResetMarkReadOf(s)) == ResetMarkReadOf(ResetScanOf(s))
    ensures ResetDeleteScanOf(ResetDeleteBulkOf(s)) == ResetDeleteBulkOf(ResetDeleteScanOf(s))
    ensures ResetMarkReadOf(ResetDeleteBulkOf(s)) == ResetDeleteBulkOf(ResetMarkReadOf(s))
  {
  }

  /** Only `reset_download` and each record's own reset create the label, archive and
      important records: every other reset leaves a missing one missing. */
  lemma OnlyDownloadCreatesSenderRecords(s: Snapshot)
    requires s.labelOperationStatus.None? && s.archiveStatus.None? && s.importantStatus.None?
    ensures var t := ResetScanOf(ResetDeleteScanOf(ResetMarkReadOf(ResetDeleteBulkOf(s))));
            t.labelOperationStatus.None? && t.archiveStatus.None? && t.importantStatus.None?
    ensures var t := ResetDownloadOf(s);
            && t.labelOperationStatus == Some(FreshLabelOperation) && t.archiveStatus == Some(FreshArchive)
            && t.importantStatus == Some(FreshImportant)
            && IsFresh(t.labelOperationStatus.value) && IsFresh(t.archiveStatus.value) && IsFresh(t.importantStatus.value)
  {
  }

  /** The state right after construction is already reset for every job except the
      download, whose reset also adds the three sender records. */
  lemma InitialIsReset()
    ensures ResetScanOf(Initial()) == Initial() && ResetDeleteScanOf(Initial()) == Initial()
    ensures ResetMarkReadOf(Initial()) == Initial() && ResetDeleteBulkOf(Initial()) == Initial()
    ensures ResetDownloadOf(Initial()) != Initial()
  {
  }
}

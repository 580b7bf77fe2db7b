/**
 * The four `process_message` callbacks (what each message contributes, and to which key)
 * and the result rows the scans build from the sorted accumulator.
 */
module Scans {
  import opened Wrappers
  import opened Text
  import opened Headers
  import opened LegacyHeaders
  import opened Unsubscribe
  import opened Aggregation

  // ----- current `scan_emails`: grouped by sender domain -----

  /** The fields the callback overwrites on every hit: link, type, sender name, address. */
  datatype UnsubInfo = UnsubInfo(link: string, kind: LinkKind, sender: string, email: string)

  datatype SubscriptionRow = SubscriptionRow(domain: string, link: string, count: nat, subjects: seq<string>,
                                             kind: LinkKind, sender: string, email: string)

  /** A message counts when it has an unsubscribe link; its key is its sender's domain. */
  function ReadSubscription(id: string, hs: HeaderSet): (r: Option<Contribution<UnsubInfo>>)
    ensures r.Some? <==> UnsubscribeLink(hs).Some? && UnsubscribeLink(hs).value.url != ""
    ensures r.Some? ==> var l := UnsubscribeLink(hs).value;
                        && r.value.info == UnsubInfo(l.url, l.kind, SenderInfo(hs).0, SenderInfo(hs).1)
                        && r.value.key == DomainOf(SenderInfo(hs).1)
                        && r.value.subject == Subject(hs) && r.value.id == id
  {
    match UnsubscribeLink(hs)
    case None => None
    case Some(l) =>
      if l.url == "" then None
      else
        var (name, email) := SenderInfo(hs);
        Some(Contribution(DomainOf(email), id, Subject(hs), UnsubInfo(l.url, l.kind, name, email)))
  }

  function SubscriptionOf(r: Row<UnsubInfo>): SubscriptionRow
  {
    SubscriptionRow(r.key, r.latest.link, r.count, r.subjects, r.latest.kind, r.latest.sender, r.latest.email)
  }

  function SubscriptionRows(rows: seq<Row<UnsubInfo>>): (r: seq<SubscriptionRow>)
    ensures |r| == |rows| && forall i :: 0 <= i < |rows| ==> r[i] == SubscriptionOf(rows[i])
  {
    seq(|rows|, i requires 0 <= i < |rows| => SubscriptionOf(rows[i]))
  }

  // ----- current `scan_senders_for_delete`: grouped by address -----

  datatype SenderRow = SenderRow(email: string, count: nat, sender: string, subjects: seq<string>)

  /** Every readable message with a non-empty address counts; its key is the address. */
  function ReadSender(id: string, hs: HeaderSet): (r: Option<Contribution<string>>)
    ensures r.Some? <==> SenderInfo(hs).1 != ""
    ensures r.Some? ==> r.value == Contribution(SenderInfo(hs).1, id, Subject(hs), SenderInfo(hs).0)
  {
    var (name, email) := SenderInfo(hs);
    if email != "" then Some(Contribution(email, id, Subject(hs), name)) else None
  }

  function SenderOf(r: Row<string>): SenderRow
  {
    SenderRow(r.key, r.count, r.latest, r.subjects)
  }

  function SenderRows(rows: seq<Row<string>>): (r: seq<SenderRow>)
    ensures |r| == |rows| && forall i :: 0 <= i < |rows| ==> r[i] == SenderOf(rows[i])
  {
    seq(|rows|, i requires 0 <= i < |rows| => SenderOf(rows[i]))
  }

  /** A message without a `From` header is grouped under "unknown", sent by "Unknown". */
  lemma MissingFromIsUnknown(id: string, hs: HeaderSet)
    requires NoneNamed(hs, "from")
    ensures ReadSender(id, hs) == Some(Contribution("unknown", id, Subject(hs), "Unknown"))
  {
  }

  // ----- legacy `scan_emails`: web links only, grouped by domain -----

  datatype LegacySubscriptionRow = LegacySubscriptionRow(domain: string, link: string, count: nat,
                                                         subjects: seq<string>, kind: LinkClass)

  /** A message counts when its link is not a `mailto:` link and an address with a
      non-empty domain can be read from its sender. */
  function LegacyReadSubscription(id: string, hs: HeaderSet): (r: Option<Contribution<string>>)
    ensures r.Some? <==> && LegacyUnsubscribeLink(hs).Some? && LegacyUnsubscribeLink(hs).value != ""
                         && !("mailto:" <= LegacyUnsubscribeLink(hs).value)
                         && LegacySenderInfo(hs).Some? && LegacySenderInfo(hs).value.1 != ""
    ensures r.Some? ==> r.value == Contribution(LegacySenderInfo(hs).value.1, id, Subject(hs), LegacyUnsubscribeLink(hs).value)
  {
    match LegacyUnsubscribeLink(hs)
    case None => None
    case Some(link) =>
      if link == "" || "mailto:" <= link then None
      else
        match LegacySenderInfo(hs)
        case None => None
        case Some((_, domain)) =>
          if domain == "" then None else Some(Contribution(domain, id, Subject(hs), link))
  }

  /** The sorted rows with the type `test_unsubscribe_link` gave each link; `pages[i]` is
      what fetching the link of row `i` returned. */
  function LegacySubscriptionRows(rows: seq<Row<string>>, pages: seq<Option<string>>): (r: seq<LegacySubscriptionRow>)
    ensures |r| == |rows|
    ensures forall i :: 0 <= i < |rows| ==>
              r[i] == LegacySubscriptionRow(rows[i].key, rows[i].latest, rows[i].count, rows[i].subjects,
                                            TestUnsubscribeLink(if i < |pages| then pages[i] else None))
  {
    seq(|rows|, i requires 0 <= i < |rows| =>
      LegacySubscriptionRow(rows[i].key, rows[i].latest, rows[i].count, rows[i].subjects,
                            TestUnsubscribeLink(if i < |pages| then pages[i] else None)))
  }

  /** The number of rows typed one-click. */
  function OneClickCount(rows: seq<LegacySubscriptionRow>): (n: nat)
    ensures n <= |rows|
  {
    if rows == [] then 0 else OneClickCount(rows[..|rows| - 1]) + (if rows[|rows| - 1].kind == LinkClass.OneClick then 1 else 0)
  }

  /** The count is the number of positions holding a one-click row. */
  lemma {:induction false} OneClickCounts(rows: seq<LegacySubscriptionRow>)
    ensures OneClickCount(rows) == |set i | 0 <= i < |rows| && rows[i].kind == LinkClass.OneClick|
    decreases |rows|
  {
    if rows != [] {
      var p := rows[..|rows| - 1];
      var last := |rows| - 1;
      OneClickCounts(p);
      var before := set i | 0 <= i < |p| && p[i].kind == LinkClass.OneClick;
      var all := set i | 0 <= i < |rows| && rows[i].kind == LinkClass.OneClick;
      assert last !in before;
      if rows[last].kind == LinkClass.OneClick {
        assert all == before + {last};
      } else {
        assert all == before;
      }
    }
  }

  // ----- legacy `scan_senders_for_delete`: grouped by address, ids kept -----

  datatype LegacySenderRow = LegacySenderRow(email: string, domain: string, count: nat, subjects: seq<string>,
                                             msgIds: seq<string>)

  /** A message counts when an address can be read from its sender; its key is the
      lower-cased address and the row remembers the domain and the message id. */
  function LegacyReadSender(id: string, hs: HeaderSet): (r: Option<Contribution<string>>)
    ensures r.Some? <==> LegacySenderInfo(hs).Some? && LegacySenderInfo(hs).value.0 != ""
    ensures r.Some? ==> r.value == Contribution(LegacySenderInfo(hs).value.0, id, Subject(hs), LegacySenderInfo(hs).value.1)
  {
    match LegacySenderInfo(hs)
    case None => None
    case Some((email, domain)) => if email == "" then None else Some(Contribution(email, id, Subject(hs), domain))
  }

  function LegacySenderOf(r: Row<string>): LegacySenderRow
  {
    LegacySenderRow(r.key, r.latest, r.count, r.subjects, r.ids)
  }

  function LegacySenderRows(rows: seq<Row<string>>): (r: seq<LegacySenderRow>)
    ensures |r| == |rows| && forall i :: 0 <= i < |rows| ==> r[i] == LegacySenderOf(rows[i])
  {
    seq(|rows|, i requires 0 <= i < |rows| => LegacySenderOf(rows[i]))
  }

  // ----- what the rows of each scan satisfy -----

  // ----- the four scans' results, from the ids and the batch responses -----

  /** Current `scan_emails`: fold by domain keeping 3 subjects, then sort by count. */
  function SubscriptionScan(ids: seq<string>, responses: seq<Option<HeaderSet>>): seq<SubscriptionRow>
  {
    SubscriptionRows(SortByCount(Fold(Contributions(ids, responses, ReadSubscription), 3)))
  }

  /** Current `scan_senders_for_delete`: fold by address keeping 3 subjects, then sort. */
  function SenderScan(ids: seq<string>, responses: seq<Option<HeaderSet>>): seq<SenderRow>
  {
    SenderRows(SortByCount(Fold(Contributions(ids, responses, ReadSender), 3)))
  }

  /** Legacy `scan_emails`: fold by domain keeping 3 subjects, sort, then classify each
      row's link with the page fetched for it (`pages[i]`, or nothing when missing). */
  function LegacySubscriptionScan(ids: seq<string>, responses: seq<Option<HeaderSet>>, pages: seq<Option<string>>): seq<LegacySubscriptionRow>
  {
    LegacySubscriptionRows(SortByCount(Fold(Contributions(ids, responses, LegacyReadSubscription), 3)), pages)
  }

  /** Legacy `scan_senders_for_delete`: fold by lowered address keeping 2 subjects, then sort. */
  function LegacySenderScan(ids: seq<string>, responses: seq<Option<HeaderSet>>): seq<LegacySenderRow>
  {
    LegacySenderRows(SortByCount(Fold(Contributions(ids, responses, LegacyReadSender), 2)))
  }

  /** Current subscriptions: one row per domain that has a message with a link; each row
      counts those messages and keeps the first 3 of their subjects. */
  lemma SubscriptionRowsExact(ids: seq<string>, responses: seq<Option<HeaderSet>>)
    ensures var cs := Contributions(ids, responses, ReadSubscription);
            var rows := SubscriptionScan(ids, responses);
            && (forall i :: 0 <= i < |rows| ==> rows[i].count == |Keyed(cs, rows[i].domain)|
                                                && rows[i].subjects == Take(SubjectsIn(Keyed(cs, rows[i].domain)), 3))
            && (forall i, j :: 0 <= i < j < |rows| ==> rows[i].domain != rows[j].domain)
            && (forall k :: Keyed(cs, k) != [] <==> exists i :: 0 <= i < |rows| && rows[i].domain == k)
  {
    var cs := Contributions(ids, responses, ReadSubscription);
    SortedSummary(cs, 3);
    SubscriptionRowsOfSummary(cs, SortByCount(Fold(cs, 3)));
  }

  lemma SubscriptionRowsOfSummary(cs: seq<Option<Contribution<UnsubInfo>>>, sorted: seq<Row<UnsubInfo>>)
    requires forall i :: 0 <= i < |sorted| ==> RowMatches(sorted[i], cs, 3)
    requires Distinct(KeysOf(sorted))
    requires forall k :: Keyed(cs, k) != [] <==> k in KeysOf(sorted)
    ensures var rows := SubscriptionRows(sorted);
            && (forall i :: 0 <= i < |rows| ==> rows[i].count == |Keyed(cs, rows[i].domain)|
                                                && rows[i].subjects == Take(SubjectsIn(Keyed(cs, rows[i].domain)), 3))
            && (forall i, j :: 0 <= i < j < |rows| ==> rows[i].domain != rows[j].domain)
            && (forall k :: Keyed(cs, k) != [] <==> exists i :: 0 <= i < |rows| && rows[i].domain == k)
  {
    var rows := SubscriptionRows(sorted);
    forall i | 0 <= i < |rows| ensures rows[i].count == |Keyed(cs, rows[i].domain)|
                                       && rows[i].subjects == Take(SubjectsIn(Keyed(cs, rows[i].domain)), 3) {
      assert RowMatches(sorted[i], cs, 3);
    }
    forall i, j | 0 <= i < j < |rows| ensures rows[i].domain != rows[j].domain {
      assert KeysOf(sorted)[i] != KeysOf(sorted)[j];
    }
    forall k ensures Keyed(cs, k) != [] <==> exists i :: 0 <= i < |rows| && rows[i].domain == k {
      if Keyed(cs, k) != [] {
        var i :| 0 <= i < |sorted| && KeysOf(sorted)[i] == k;
        assert rows[i].domain == k;
      }
      if exists i :: 0 <= i < |rows| && rows[i].domain == k {
        var i :| 0 <= i < |rows| && rows[i].domain == k;
        assert RowMatches(sorted[i], cs, 3);
      }
    }
  }

  /** Delete scan: one row per address that sent a readable message; each row counts them
      and keeps the first 3 of their subjects. */
  lemma SenderRowsExact(ids: seq<string>, responses: seq<Option<HeaderSet>>)
    ensures var cs := Contributions(ids, responses, ReadSender);
            var rows := SenderScan(ids, responses);
            && (forall i :: 0 <= i < |rows| ==> rows[i].count == |Keyed(cs, rows[i].email)|
                                                && rows[i].subjects == Take(SubjectsIn(Keyed(cs, rows[i].email)), 3))
            && (forall i, j :: 0 <= i < j < |rows| ==> rows[i].email != rows[j].email)
            && (forall k :: Keyed(cs, k) != [] <==> exists i :: 0 <= i < |rows| && rows[i].email == k)
  {
    var cs := Contributions(ids, responses, ReadSender);
    SortedSummary(cs, 3);
    SenderRowsOfSummary(cs, SortByCount(Fold(cs, 3)));
  }

  lemma SenderRowsOfSummary(cs: seq<Option<Contribution<string>>>, sorted: seq<Row<string>>)
    requires forall i :: 0 <= i < |sorted| ==> RowMatches(sorted[i], cs, 3)
    requires Distinct(KeysOf(sorted))
    requires forall k :: Keyed(cs, k) != [] <==> k in KeysOf(sorted)
    ensures var rows := SenderRows(sorted);
            && (forall i :: 0 <= i < |rows| ==> rows[i].count == |Keyed(cs, rows[i].email)|
                                                && rows[i].subjects == Take(SubjectsIn(Keyed(cs, rows[i].email)), 3))
            && (forall i, j :: 0 <= i < j < |rows| ==> rows[i].email != rows[j].email)
            && (forall k :: Keyed(cs, k) != [] <==> exists i :: 0 <= i < |rows| && rows[i].email == k)
  {
    var rows := SenderRows(sorted);
    forall i | 0 <= i < |rows| ensures rows[i].count == |Keyed(cs, rows[i].email)|
                                       && rows[i].subjects == Take(SubjectsIn(Keyed(cs, rows[i].email)), 3) {
      assert RowMatches(sorted[i], cs, 3);
    }
    forall i, j | 0 <= i < j < |rows| ensures rows[i].email != rows[j].email {
      assert KeysOf(sorted)[i] != KeysOf(sorted)[j];
    }
    forall k ensures Keyed(cs, k) != [] <==> exists i :: 0 <= i < |rows| && rows[i].email == k {
      if Keyed(cs, k) != [] {
        var i :| 0 <= i < |sorted| && KeysOf(sorted)[i] == k;
        assert rows[i].email == k;
      }
      if exists i :: 0 <= i < |rows| && rows[i].email == k {
        var i :| 0 <= i < |rows| && rows[i].email == k;
        assert RowMatches(sorted[i], cs, 3);
      }
    }
  }

  /** Legacy subscriptions: one row per domain with a web link; each row counts its messages
      and keeps the first 3 of their subjects. */
  lemma LegacySubscriptionRowsExact(ids: seq<string>, responses: seq<Option<HeaderSet>>, pages: seq<Option<string>>)
    ensures var cs := Contributions(ids, responses, LegacyReadSubscription);
            var rows := LegacySubscriptionScan(ids, responses, pages);
            && (forall i :: 0 <= i < |rows| ==> rows[i].count == |Keyed(cs, rows[i].domain)|
                                                && rows[i].subjects == Take(SubjectsIn(Keyed(cs, rows[i].domain)), 3))
            && (forall i, j :: 0 <= i < j < |rows| ==> rows[i].domain != rows[j].domain)
            && (forall k :: Keyed(cs, k) != [] <==> exists i :: 0 <= i < |rows| && rows[i].domain == k)
  {
    var cs := Contributions(ids, responses, LegacyReadSubscription);
    SortedSummary(cs, 3);
    LegacySubscriptionRowsOfSummary(cs, SortByCount(Fold(cs, 3)), pages);
  }

  lemma LegacySubscriptionRowsOfSummary(cs: seq<Option<Contribution<string>>>, sorted: seq<Row<string>>, pages: seq<Option<string>>)
    requires forall i :: 0 <= i < |sorted| ==> RowMatches(sorted[i], cs, 3)
    requires Distinct(KeysOf(sorted))
    requires forall k :: Keyed(cs, k) != [] <==> k in KeysOf(sorted)
    ensures var rows := LegacySubscriptionRows(sorted, pages);
            && (forall i :: 0 <= i < |rows| ==> rows[i].count == |Keyed(cs, rows[i].domain)|
                                                && rows[i].subjects == Take(SubjectsIn(Keyed(cs, rows[i].domain)), 3))
            && (forall i, j :: 0 <= i < j < |rows| ==> rows[i].domain != rows[j].domain)
            && (forall k :: Keyed(cs, k) != [] <==> exists i :: 0 <= i < |rows| && rows[i].domain == k)
  {
    var rows := LegacySubscriptionRows(sorted, pages);
    forall i | 0 <= i < |rows| ensures rows[i].count == |Keyed(cs, rows[i].domain)|
                                       && rows[i].subjects == Take(SubjectsIn(Keyed(cs, rows[i].domain)), 3) {
      assert RowMatches(sorted[i], cs, 3);
    }
    forall i, j | 0 <= i < j < |rows| ensures rows[i].domain != rows[j].domain {
      assert KeysOf(sorted)[i] != KeysOf(sorted)[j];
    }
    forall k ensures Keyed(cs, k) != [] <==> exists i :: 0 <= i < |rows| && rows[i].domain == k {
      if Keyed(cs, k) != [] {
        var i :| 0 <= i < |sorted| && KeysOf(sorted)[i] == k;
        assert rows[i].domain == k;
      }
      if exists i :: 0 <= i < |rows| && rows[i].domain == k {
        var i :| 0 <= i < |rows| && rows[i].domain == k;
        assert RowMatches(sorted[i], cs, 3);
      }
    }
  }

  /** Legacy delete scan: one row per lower-cased address; each row counts its messages, keeps
      the first 2 of their subjects and all of their ids, in order. */
  lemma LegacySenderRowsExact(ids: seq<string>, responses: seq<Option<HeaderSet>>)
    ensures var cs := Contributions(ids, responses, LegacyReadSender);
            var rows := LegacySenderScan(ids, responses);
            && (forall i :: 0 <= i < |rows| ==> rows[i].count == |Keyed(cs, rows[i].email)|
                                                && rows[i].subjects == Take(SubjectsIn(Keyed(cs, rows[i].email)), 2)
                                                && rows[i].msgIds == IdsIn(Keyed(cs, rows[i].email)))
            && (forall i, j :: 0 <= i < j < |rows| ==> rows[i].email != rows[j].email)
            && (forall k :: Keyed(cs, k) != [] <==> exists i :: 0 <= i < |rows| && rows[i].email == k)
  {
    var cs := Contributions(ids, responses, LegacyReadSender);
    SortedSummary(cs, 2);
    LegacySenderRowsOfSummary(cs, SortByCount(Fold(cs, 2)));
  }

  lemma LegacySenderRowsOfSummary(cs: seq<Option<Contribution<string>>>, sorted: seq<Row<string>>)
    requires forall i :: 0 <= i < |sorted| ==> RowMatches(sorted[i], cs, 2)
    requires Distinct(KeysOf(sorted))
    requires forall k :: Keyed(cs, k) != [] <==> k in KeysOf(sorted)
    ensures var rows := LegacySenderRows(sorted);
            && (forall i :: 0 <= i < |rows| ==> rows[i].count == |Keyed(cs, rows[i].email)|
                                                && rows[i].subjects == Take(SubjectsIn(Keyed(cs, rows[i].email)), 2)
                                                && rows[i].msgIds == IdsIn(Keyed(cs, rows[i].email)))
            && (forall i, j :: 0 <= i < j < |rows| ==> rows[i].email != rows[j].email)
            && (forall k :: Keyed(cs, k) != [] <==> exists i :: 0 <= i < |rows| && rows[i].email == k)
  {
    var rows := LegacySenderRows(sorted);
    forall i | 0 <= i < |rows| ensures rows[i].count == |Keyed(cs, rows[i].email)|
                                       && rows[i].subjects == Take(SubjectsIn(Keyed(cs, rows[i].email)), 2)
                                                && rows[i].msgIds == IdsIn(Keyed(cs, rows[i].email)) {
      assert RowMatches(sorted[i], cs, 2);
    }
    forall i, j | 0 <= i < j < |rows| ensures rows[i].email != rows[j].email {
      assert KeysOf(sorted)[i] != KeysOf(sorted)[j];
    }
    forall k ensures Keyed(cs, k) != [] <==> exists i :: 0 <= i < |rows| && rows[i].email == k {
      if Keyed(cs, k) != [] {
        var i :| 0 <= i < |sorted| && KeysOf(sorted)[i] == k;
        assert rows[i].email == k;
      }
      if exists i :: 0 <= i < |rows| && rows[i].email == k {
        var i :| 0 <= i < |rows| && rows[i].email == k;
        assert RowMatches(sorted[i], cs, 2);
      }
    }
  }

  /** Every contribution to a key carries that key, and is one of the contributions. */
  lemma {:induction false} KeyedMembers<I>(cs: seq<Option<Contribution<I>>>, k: string)
    ensures forall c :: c in Keyed(cs, k) ==> c.key == k && Some(c) in cs
  {
    if cs != [] {
      var p := cs[..|cs| - 1];
      KeyedMembers(p, k);
      assert forall x :: x in p ==> x in cs;
    }
  }

  lemma {:induction false} IdsInLength<I>(ks: seq<Contribution<I>>)
    ensures |IdsIn(ks)| == |ks| && |SubjectsIn(ks)| == |ks|
  {
    if ks != [] {
      IdsInLength(ks[..|ks| - 1]);
    }
  }

  /** A row of the sorted summary: at least one hit, at most `cap` subjects, one id per hit,
      and its latest fields come from the contribution of message `n` to its key. */
  lemma RowWitness<I>(cs: seq<Option<Contribution<I>>>, cap: nat, r: Row<I>) returns (n: nat)
    requires RowMatches(r, cs, cap)
    ensures 1 <= r.count && |r.subjects| <= cap && r.count == |r.ids|
    ensures n < |cs| && cs[n].Some? && cs[n].value.key == r.key && cs[n].value.info == r.latest
  {
    var ks := Keyed(cs, r.key);
    IdsInLength(ks);
    KeyedMembers(cs, r.key);
    assert ks[|ks| - 1] in ks;
    n :| 0 <= n < |cs| && cs[n] == Some(ks[|ks| - 1]);
  }

  /** Current subscriptions: each row's domain is the domain of the address it shows, its
      link is a web or `mailto:` link, at most 3 subjects are kept, and the rows come in
      descending count order. */
  lemma SubscriptionRowsSound(ids: seq<string>, responses: seq<Option<HeaderSet>>)
    ensures var rows := SubscriptionScan(ids, responses);
            && (forall i :: 0 <= i < |rows| ==> rows[i].domain == DomainOf(rows[i].email) && rows[i].link != ""
                                                && 1 <= rows[i].count && |rows[i].subjects| <= 3)
            && (forall i, j :: 0 <= i < j < |rows| ==> rows[i].count >= rows[j].count)
  {
    var cs := Contributions(ids, responses, ReadSubscription);
    var folded := Fold(cs, 3);
    var sorted := SortByCount(folded);
    assert SubscriptionScan(ids, responses) == SubscriptionRows(sorted);
    SortByCountSpec(folded);
    SortedSummary(cs, 3);
    forall i | 0 <= i < |sorted|
      ensures sorted[i].key == DomainOf(sorted[i].latest.email) && sorted[i].latest.link != ""
              && 1 <= sorted[i].count && |sorted[i].subjects| <= 3
    {
      var n := RowWitness(cs, 3, sorted[i]);
      assert cs[n] == ReadSubscription(ids[n], responses[n].value);
    }
  }

  /** Delete scan: rows are keyed by the address they show and keep at most 3 subjects. */
  lemma SenderRowsSound(ids: seq<string>, responses: seq<Option<HeaderSet>>)
    ensures var rows := SenderScan(ids, responses);
            && (forall i :: 0 <= i < |rows| ==> rows[i].email != "" && 1 <= rows[i].count && |rows[i].subjects| <= 3)
            && (forall i, j :: 0 <= i < j < |rows| ==> rows[i].count >= rows[j].count)
  {
    var cs := Contributions(ids, responses, ReadSender);
    var folded := Fold(cs, 3);
    var sorted := SortByCount(folded);
    SortByCountSpec(folded);
    SortedSummary(cs, 3);
    forall i | 0 <= i < |sorted| ensures sorted[i].key != "" && 1 <= sorted[i].count && |sorted[i].subjects| <= 3 {
      var n := RowWitness(cs, 3, sorted[i]);
      assert cs[n] == ReadSender(ids[n], responses[n].value);
    }
  }

  /** Legacy subscriptions: no row holds a `mailto:` link, every domain is non-empty and at
      most 3 subjects are kept. */
  lemma LegacySubscriptionRowsSound(ids: seq<string>, responses: seq<Option<HeaderSet>>, pages: seq<Option<string>>)
    ensures var rows := LegacySubscriptionScan(ids, responses, pages);
            forall i :: 0 <= i < |rows| ==>
              rows[i].link != "" && !("mailto:" <= rows[i].link) && rows[i].domain != ""
              && 1 <= rows[i].count && |rows[i].subjects| <= 3
  {
    var cs := Contributions(ids, responses, LegacyReadSubscription);
    var sorted := SortByCount(Fold(cs, 3));
    SortedSummary(cs, 3);
    forall i | 0 <= i < |sorted|
      ensures sorted[i].latest != "" && !("mailto:" <= sorted[i].latest) && sorted[i].key != ""
              && 1 <= sorted[i].count && |sorted[i].subjects| <= 3
    {
      var n := RowWitness(cs, 3, sorted[i]);
      assert cs[n] == LegacyReadSubscription(ids[n], responses[n].value);
    }
  }

  /** Legacy delete scan: every row holds one message id per hit, and at most 2 subjects. */
  lemma LegacySenderRowsSound(ids: seq<string>, responses: seq<Option<HeaderSet>>)
    ensures var rows := LegacySenderScan(ids, responses);
            forall i :: 0 <= i < |rows| ==> rows[i].count == |rows[i].msgIds| >= 1 && |rows[i].subjects| <= 2
  {
    var cs := Contributions(ids, responses, LegacyReadSender);
    var sorted := SortByCount(Fold(cs, 2));
    SortedSummary(cs, 2);
    forall i | 0 <= i < |sorted| ensures sorted[i].count == |sorted[i].ids| >= 1 && |sorted[i].subjects| <= 2 {
      var n := RowWitness(cs, 2, sorted[i]);
    }
  }
}

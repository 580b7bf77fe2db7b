/**
 * Header extraction of the legacy module: `get_unsubscribe_from_headers`,
 * `get_sender_info` and `get_subject`. The legacy subject lookup is the same function
 * as the current one (`Headers.Subject`).
 */
module LegacyHeaders {
  import opened Wrappers
  import opened Text
  import opened Headers

  // ----- `get_unsubscribe_from_headers` -----

  /** For one List-Unsubscribe value: the first http(s) URL, else the first mailto. */
  function LegacyLinkOf(value: string): Option<string>
  {
    match FirstCapture(value, Http)
    case Some(u) => Some(u)
    case None => FirstCapture(value, Mailto)
  }

  predicate LegacyDecides(hs: HeaderSet, i: int)
  {
    0 <= i < |hs| && Named(hs[i], "list-unsubscribe") && LegacyLinkOf(hs[i].value).Some?
  }

  /** The loop over the headers from `from` on: the first one that decides. */
  function LegacyDecidingFrom(hs: HeaderSet, from: nat): (r: Option<nat>)
    requires from <= |hs|
    decreases |hs| - from
    ensures r.Some? ==> from <= r.value && LegacyDecides(hs, r.value)
                        && forall j :: from <= j < r.value ==> !LegacyDecides(hs, j)
    ensures r.None? ==> forall j :: from <= j < |hs| ==> !LegacyDecides(hs, j)
  {
    if from == |hs| then None
    else if LegacyDecides(hs, from) then Some(from)
    else LegacyDecidingFrom(hs, from + 1)
  }

  /** `get_unsubscribe_from_headers`: the link of the first List-Unsubscribe header that has one. */
  function LegacyUnsubscribeLink(hs: HeaderSet): (r: Option<string>)
    ensures r.Some? ==> exists i :: LegacyDecides(hs, i) && LegacyLinkOf(hs[i].value) == r
                                    && forall j :: 0 <= j < i ==> !LegacyDecides(hs, j)
    ensures r.None? <==> forall j :: 0 <= j < |hs| ==> !LegacyDecides(hs, j)
  {
    match LegacyDecidingFrom(hs, 0)
    case Some(i) => LegacyLinkOf(hs[i].value)
    case None => None
  }

  /** The two modules pick the same URL from the same headers; they differ only in that
      the current one also says whether it is one-click. */
  lemma {:induction false} SameLinkFrom(hs: HeaderSet, post: bool, from: nat)
    requires from <= |hs|
    ensures (match LegacyDecidingFrom(hs, from) case Some(i) => LegacyLinkOf(hs[i].value) case None => None) ==
            (match UnsubscribeFrom(hs, post, from) case Some(l) => Some(l.url) case None => None)
    decreases |hs| - from
  {
    if from < |hs| {
      SameLinkOf(hs[from].value, post);
      if !LegacyDecides(hs, from) {
        SameLinkFrom(hs, post, from + 1);
      }
    }
  }

  /** For one value: the legacy link is there exactly when the current one is, with its URL. */
  lemma SameLinkOf(v: string, post: bool)
    ensures LegacyLinkOf(v).Some? <==> LinkOf(v, post).Some?
    ensures LegacyLinkOf(v).Some? ==> LegacyLinkOf(v).value == LinkOf(v, post).value.url
  {
  }

  lemma SameLink(hs: HeaderSet)
    ensures LegacyUnsubscribeLink(hs) ==
            (match UnsubscribeLink(hs) case Some(l) => Some(l.url) case None => None)
  {
    SameLinkFrom(hs, HasPost(hs), 0);
  }

  // ----- `re.search(r'[\w\.-]+@[\w\.-]+\.\w+', value)` with ASCII `\w` -----

  predicate IsWordChar(c: char) { IsAsciiLetter(c) || IsDigit(c) || c == '_' }

  predicate IsAddrChar(c: char) { IsWordChar(c) || c == '.' || c == '-' }

  function AddrRunEnd(s: string, from: nat): (e: nat)
    decreases |s| - from
    ensures from <= e && (from <= |s| ==> e <= |s|)
    ensures forall k :: from <= k < e && k < |s| ==> IsAddrChar(s[k])
    ensures e < |s| ==> !IsAddrChar(s[e])
  {
    if from < |s| && IsAddrChar(s[from]) then AddrRunEnd(s, from + 1) else from
  }

  function WordRunEnd(s: string, from: nat): (e: nat)
    decreases |s| - from
    ensures from <= e && (from <= |s| ==> e <= |s|)
    ensures forall k :: from <= k < e && k < |s| ==> IsWordChar(s[k])
    ensures e < |s| ==> !IsWordChar(s[e])
  {
    if from < |s| && IsWordChar(s[from]) then WordRunEnd(s, from + 1) else from
  }

  /** A word run cannot pass a character that is not a word character. */
  lemma {:induction false} WordRunStops(s: string, from: nat, f: nat)
    requires from <= f <= |s| && (f < |s| ==> !IsWordChar(s[f]))
    ensures WordRunEnd(s, from) <= f
    decreases f - from
  {
    if from < f { WordRunStops(s, from + 1, f); }
  }

  /** `\.\w` can start at `d` inside the domain run ending at `f`. */
  predicate DotWordAt(s: string, d: int, f: int)
  {
    0 <= d && d + 1 < f <= |s| && s[d] == '.' && IsWordChar(s[d + 1])
  }

  /** The last `d` in `[lo, hi)` at which `\.\w` can start: where the greedy `[\w\.-]+`
      of the domain stops after backtracking. */
  function LastDotWord(s: string, lo: nat, hi: nat, f: nat): (r: Option<nat>)
    requires hi <= f <= |s|
    decreases hi
    ensures r.Some? ==> lo <= r.value < hi && DotWordAt(s, r.value, f)
    ensures r.Some? ==> forall d :: r.value < d < hi ==> !DotWordAt(s, d, f)
    ensures r.None? ==> forall d :: lo <= d < hi ==> !DotWordAt(s, d, f)
  {
    if hi <= lo then None
    else if DotWordAt(s, hi - 1, f) then Some(hi - 1)
    else LastDotWord(s, lo, hi - 1, f)
  }

  /** The shape of the matched token `s[st..end]`: a non-empty local part of `[\w.-]`,
      its only '@' at `at`, and a domain of `[\w.-]` whose tail after the dot at `d` is `\w+`. */
  predicate IsAddressAt(s: string, st: int, at: int, d: int, end: int)
  {
    0 <= st < at && at + 2 <= d && d + 1 < end <= |s|
    && (forall k :: st <= k < at ==> IsAddrChar(s[k]))
    && s[at] == '@'
    && (forall k :: at < k < end ==> IsAddrChar(s[k]))
    && s[d] == '.'
    && (forall k :: d < k < end ==> IsWordChar(s[k]))
  }

  /** The match the regex engine reports when it starts at `st`: the shape, with `\w+` taken
      to the last word character and `d` the last dot at which the backtracking domain part
      `[\w.-]+` can stop. */
  ghost predicate GreedyMatch(s: string, st: int, at: int, d: int, end: int)
  {
    IsAddressAt(s, st, at, d, end) && (end == |s| || !IsWordChar(s[end]))
    && forall at', d', end' :: IsAddressAt(s, st, at', d', end') ==> d' <= d
  }

  /** At one start there is one greedy match. */
  lemma GreedyUnique(s: string, st: int, at: int, d: int, end: int, at': int, d': int, end': int)
    requires GreedyMatch(s, st, at, d, end) && GreedyMatch(s, st, at', d', end')
    ensures at == at' && d == d' && end == end'
  {
    assert !IsAddrChar(s[at]) && !IsAddrChar(s[at']);
    assert d == d';
    assert end < |s| ==> !IsWordChar(s[end]);
    assert end' < |s| ==> !IsWordChar(s[end']);
  }

  /** `a@b.c` has the shape inside `a@b.cd`, but the match is the whole of it. */
  lemma GreedyTakesWholeWord()
    ensures IsAddressAt("a@b.cd", 0, 1, 3, 5) && !GreedyMatch("a@b.cd", 0, 1, 3, 5)
    ensures GreedyMatch("a@b.cd", 0, 1, 3, 6)
  {
    var s := "a@b.cd";
    forall at', d', end' | IsAddressAt(s, 0, at', d', end') ensures d' <= 3 {
      assert !IsAddrChar(s[at']);
      assert at' == 1;
      assert s[d'] == '.';
    }
  }

  /** With `e` the end of the local run and `f` that of the domain run, no shaped token from
      `st` has its dot after the last `\.\w` before `f`. */
  lemma LastDotIsGreedy(s: string, st: nat, e: nat, f: nat, d: nat)
    requires e == AddrRunEnd(s, st) && e < |s| && s[e] == '@'
    requires f == AddrRunEnd(s, e + 1) && LastDotWord(s, e + 2, f, f) == Some(d)
    ensures forall at', d', end' :: IsAddressAt(s, st, at', d', end') ==> d' <= d
  {
    forall at', d', end' | IsAddressAt(s, st, at', d', end') ensures d' <= d {
      assert !IsAddrChar(s[e]) && !IsAddrChar(s[at']);
      assert at' == e;
      assert f < |s| ==> !IsAddrChar(s[f]);
      assert end' <= f;
      assert DotWordAt(s, d', f);
    }
  }

  /** The match starting at `st`, if the pattern matches there: positions of '@' and of the end. */
  function AddressAt(s: string, st: nat): (r: Option<(nat, nat)>)
    ensures r.Some? ==> st < r.value.0 < r.value.1 <= |s| && s[r.value.0] == '@'
  {
    var e := AddrRunEnd(s, st);
    if e == st || e >= |s| || s[e] != '@' then None
    else
      var f := AddrRunEnd(s, e + 1);
      match LastDotWord(s, e + 2, f, f)
      case None => None
      case Some(d) => Some((e, WordRunEnd(s, d + 1)))
  }

  /** Every character of the match other than its '@' is in `[\w.-]`. */
  lemma AddressAtShape(s: string, st: nat)
    requires AddressAt(s, st).Some?
    ensures forall k :: st <= k < AddressAt(s, st).value.1 && k != AddressAt(s, st).value.0 ==> IsAddrChar(s[k])
  {
    var e := AddrRunEnd(s, st);
    var f := AddrRunEnd(s, e + 1);
    var d := LastDotWord(s, e + 2, f, f).value;
    assert AddressAt(s, st) == Some((e, WordRunEnd(s, d + 1)));
    WordRunStops(s, d + 1, f);
  }

  /** Where the pattern matches from `st`, the match reported is the greedy one. */
  lemma AddressAtGreedy(s: string, st: nat)
    requires AddressAt(s, st).Some?
    ensures exists d :: GreedyMatch(s, st, AddressAt(s, st).value.0, d, AddressAt(s, st).value.1)
  {
    var e := AddrRunEnd(s, st);
    var f := AddrRunEnd(s, e + 1);
    var d := LastDotWord(s, e + 2, f, f).value;
    var end := WordRunEnd(s, d + 1);
    assert AddressAt(s, st) == Some((e, end));
    WordRunStops(s, d + 1, f);
    assert IsAddressAt(s, st, e, d, end);
    LastDotIsGreedy(s, st, e, f, d);
    assert GreedyMatch(s, st, e, d, end);
  }

  /** Every address-shaped token makes the pattern match at its start. */
  lemma ShapedMatches(s: string, st: nat, at: int, d: int, end: int)
    requires IsAddressAt(s, st, at, d, end)
    ensures AddressAt(s, st).Some?
  {
    var e := AddrRunEnd(s, st);
    assert e == at;
    var f := AddrRunEnd(s, e + 1);
    assert end <= f;
    assert DotWordAt(s, d, f);
  }

  function AddressSearch(s: string, from: nat): (r: Option<(nat, nat, nat)>)
    decreases |s| - from
    ensures r.Some? ==> from <= r.value.0 && AddressAt(s, r.value.0) == Some((r.value.1, r.value.2))
    ensures r.Some? ==> forall k :: from <= k < r.value.0 ==> AddressAt(s, k).None?
    ensures r.None? ==> forall k: nat :: from <= k ==> AddressAt(s, k).None?
  {
    if from >= |s| then
      NoAddressesPastEnd(s, from);
      None
    else
      match AddressAt(s, from)
      case Some((at, end)) => Some((from, at, end))
      case None => AddressSearch(s, from + 1)
  }

  /** The match `re.search` reports is the greedy one at the leftmost start. */
  lemma AddressSearchGreedy(s: string, from: nat)
    requires AddressSearch(s, from).Some?
    ensures exists d :: GreedyMatch(s, AddressSearch(s, from).value.0, AddressSearch(s, from).value.1, d,
                                    AddressSearch(s, from).value.2)
  {
    AddressAtGreedy(s, AddressSearch(s, from).value.0);
  }

  lemma NoAddressesPastEnd(s: string, from: nat)
    requires from >= |s|
    ensures forall k: nat :: from <= k ==> AddressAt(s, k).None?
  {
    forall k: nat | from <= k ensures AddressAt(s, k).None? {
      NoAddressPastEnd(s, k);
    }
  }

  lemma NoAddressPastEnd(s: string, k: nat)
    requires k >= |s|
    ensures AddressAt(s, k).None?
  {
    assert AddrRunEnd(s, k) == k;
  }

  /** `re.search` reports the match from `st` to `end`, with its '@' at `at`: the greedy match
      at the first start position where the pattern matches at all. */
  ghost predicate SearchedAt(v: string, st: int, at: int, end: int)
  {
    && 0 <= st < at < end <= |v|
    && (exists d :: GreedyMatch(v, st, at, d, end))
    && forall st', at', d', end' :: 0 <= st' < st ==> !IsAddressAt(v, st', at', d', end')
  }

  /** The matched token of one value, if any (`email_match.group()`), with the position of
      its '@' in it. */
  function AddressToken(v: string): Option<(string, nat)>
  {
    TokenOf(v, AddressSearch(v, 0))
  }

  /** The token of a search result: the matched slice and the offset of its '@'. */
  function TokenOf(v: string, m: Option<(nat, nat, nat)>): Option<(string, nat)>
    requires m.Some? ==> m.value.0 <= m.value.1 && m.value.0 <= m.value.2 <= |v|
  {
    match m
    case None => None
    case Some((st, at, end)) => Some((v[st..end], at - st))
  }

  lemma TokenOfSome(v: string, st: nat, at: nat, end: nat)
    requires st <= at && st <= end <= |v|
    ensures TokenOf(v, Some((st, at, end))) == Some((v[st..end], at - st))
  {
  }

  /** The token has its one '@' at the position returned, inside it; every other character
      is in `[\w.-]`. */
  lemma AddressTokenShape(v: string)
    requires AddressToken(v).Some?
    ensures var (token, at) := AddressToken(v).value;
            0 < at < |token| && token[at] == '@' && forall k :: 0 <= k < |token| && k != at ==> IsAddrChar(token[k])
  {
    var (st, at, end) := AddressSearch(v, 0).value;
    TokenOfSearch(v, st, at, end);
    AddressAtShape(v, st);
    assert forall k :: 0 <= k < end - st ==> v[st..end][k] == v[st + k];
  }

  /** The token is the greedy match at the leftmost start where the pattern matches. */
  lemma AddressTokenSearched(v: string)
    requires AddressToken(v).Some?
    ensures exists st, at, end :: SearchedAt(v, st, at, end) && AddressToken(v).value == (v[st..end], at - st)
  {
    var (st, at, end) := AddressSearch(v, 0).value;
    TokenOfSearch(v, st, at, end);
    SearchIsSearchedAt(v, st, at, end);
  }

  lemma SearchIsSearchedAt(v: string, st: nat, at: nat, end: nat)
    requires AddressSearch(v, 0) == Some((st, at, end))
    ensures SearchedAt(v, st, at, end)
  {
    AddressSearchGreedy(v, 0);
    TokenShape(v, st, at, end);
    forall st', at', d', end' | 0 <= st' < st ensures !IsAddressAt(v, st', at', d', end') {
      if IsAddressAt(v, st', at', d', end') { ShapedMatches(v, st', at', d', end'); }
    }
  }

  lemma TokenOfSearch(v: string, st: nat, at: nat, end: nat)
    requires AddressSearch(v, 0) == Some((st, at, end))
    ensures st < at < end <= |v|
    ensures AddressToken(v) == Some((v[st..end], at - st))
  {
    assert AddressAt(v, st) == Some((at, end));
    TokenOfSome(v, st, at, end);
  }

  lemma TokenShape(v: string, st: nat, at: nat, end: nat)
    requires exists d :: GreedyMatch(v, st, at, d, end)
    ensures st < at < end <= |v| && v[st..end][at - st] == '@'
    ensures forall k :: 0 <= k < end - st && k != at - st ==> IsAddrChar(v[st..end][k])
  {
  }

  /** Conversely, the match `re.search` reports is the token found: there is only one. */
  lemma SearchedIsToken(v: string, st: int, at: int, end: int)
    requires SearchedAt(v, st, at, end)
    ensures AddressToken(v) == Some((v[st..end], at - st))
  {
    SearchedStart(v, st, at, end);
    var (st2, at2, end2) := AddressSearch(v, 0).value;
    TokenOfSearch(v, st2, at2, end2);
    SearchIsSearchedAt(v, st2, at2, end2);
    SearchedUnique(v, st, at, end, at2, end2);
  }

  /** The search starts where the reported match starts. */
  lemma SearchedStart(v: string, st: int, at: int, end: int)
    requires SearchedAt(v, st, at, end)
    ensures AddressSearch(v, 0).Some? && AddressSearch(v, 0).value.0 == st
  {
    var d :| GreedyMatch(v, st, at, d, end);
    ShapedMatches(v, st, at, d, end);
    var m := AddressSearch(v, 0);
    assert m.Some?;
    var st2 := m.value.0;
    AddressAtGreedy(v, st2);
    var d2 :| GreedyMatch(v, st2, AddressAt(v, st2).value.0, d2, AddressAt(v, st2).value.1);
    assert st2 <= st;
  }

  lemma SearchedUnique(v: string, st: int, at: int, end: int, at': int, end': int)
    requires SearchedAt(v, st, at, end) && SearchedAt(v, st, at', end')
    ensures at == at' && end == end'
  {
    var d :| GreedyMatch(v, st, at, d, end);
    var d' :| GreedyMatch(v, st, at', d', end');
    GreedyUnique(v, st, at, d, end, at', d', end');
  }


  /** No token at all means no substring of the value is address-shaped. */
  lemma NoTokenNoShape(v: string)
    ensures AddressToken(v).None? <==> forall st: nat, at, d, end :: !IsAddressAt(v, st, at, d, end)
  {
    if AddressToken(v).None? {
      forall st: nat, at, d, end ensures !IsAddressAt(v, st, at, d, end) {
        if IsAddressAt(v, st, at, d, end) { ShapedMatches(v, st, at, d, end); }
      }
    } else {
      AddressTokenSearched(v);
      var st, at, end :| SearchedAt(v, st, at, end) && AddressToken(v).value == (v[st..end], at - st);
      var d :| GreedyMatch(v, st, at, d, end);
      assert IsAddressAt(v, st, at, d, end);
    }
  }

  predicate HasAddress(v: string)
  {
    AddressToken(v).Some?
  }

  /** Header `i` is a From header whose value holds an address-shaped token. */
  predicate AddressFrom(hs: HeaderSet, i: int)
  {
    0 <= i < |hs| && Named(hs[i], "from") && HasAddress(hs[i].value)
  }

  function FirstAddressFrom(hs: HeaderSet, from: nat): (r: Option<nat>)
    requires from <= |hs|
    decreases |hs| - from
    ensures r.Some? ==> from <= r.value && AddressFrom(hs, r.value)
    ensures r.Some? ==> forall j :: from <= j < r.value ==> !AddressFrom(hs, j)
    ensures r.None? ==> forall j :: from <= j < |hs| ==> !AddressFrom(hs, j)
  {
    if from == |hs| then None
    else if AddressFrom(hs, from) then Some(from)
    else FirstAddressFrom(hs, from + 1)
  }

  /** `get_sender_info`: (lower-cased address, its domain) from the first From header that
      holds an address-shaped token; `None` stands for `(None, None)`. */
  function LegacySenderInfo(hs: HeaderSet): (r: Option<(string, string)>)
    ensures r.None? <==> forall j :: 0 <= j < |hs| ==> !AddressFrom(hs, j)
    ensures r.Some? ==> exists local :: local != [] && '@' !in local && '@' !in r.value.1 && r.value.0 == local + "@" + r.value.1
  {
    match FirstAddressFrom(hs, 0)
    case None => None
    case Some(i) =>
      var v := hs[i].value;
      var (token, at) := AddressToken(v).value;
      var email := Lower(token);
      AddressTokenShape(v);
      SplitAtSign(token, at);
      Some((email, email[at + 1..]))
  }

  /** The pair comes from the first From header holding a token: the lower-cased greedy
      leftmost match and the lower-cased text after its '@'. */
  lemma LegacySenderInfoSearched(hs: HeaderSet)
    requires LegacySenderInfo(hs).Some?
    ensures exists i, st, at, end :: AddressFrom(hs, i) && (forall j :: 0 <= j < i ==> !AddressFrom(hs, j))
                                    && SearchedAt(hs[i].value, st, at, end)
                                    && LegacySenderInfo(hs).value.0 == Lower(hs[i].value[st..end])
                                    && LegacySenderInfo(hs).value.1 == Lower(hs[i].value[at + 1..end])
  {
    var i := FirstAddressFrom(hs, 0).value;
    DomainOfToken(hs[i].value);
  }

  /** What follows the '@' in the lower-cased token is the lower-cased domain of the match. */
  lemma DomainOfToken(v: string)
    requires AddressToken(v).Some?
    ensures exists st, at, end :: SearchedAt(v, st, at, end)
                                  && Lower(AddressToken(v).value.0) == Lower(v[st..end])
                                  && Lower(AddressToken(v).value.0)[AddressToken(v).value.1 + 1..] == Lower(v[at + 1..end])
  {
    var (st, at, end) := AddressSearch(v, 0).value;
    TokenOfSearch(v, st, at, end);
    SearchIsSearchedAt(v, st, at, end);
    SliceDomain(v, st, at, end, AddressToken(v).value.0, AddressToken(v).value.1);
  }

  lemma SliceDomain(v: string, st: int, at: int, end: int, token: string, a: int)
    requires 0 <= st < at < end <= |v| && token == v[st..end] && a == at - st
    ensures Lower(token)[a + 1..] == Lower(v[at + 1..end])
  {
    LowerSuffix(token, a + 1);
    assert token[a + 1..] == v[at + 1..end];
  }

  lemma LowerSuffix(s: string, a: nat)
    requires a <= |s|
    ensures Lower(s)[a..] == Lower(s[a..])
  {
    assert forall k :: 0 <= k < |s| - a ==> Lower(s)[a..][k] == Lower(s[a..])[k] by {
      forall k | 0 <= k < |s| - a ensures Lower(s)[a..][k] == Lower(s[a..])[k] {
        assert s[a..][k] == s[a + k];
      }
    }
  }

  /** Lower-casing keeps the only '@' of the token where it was, so `split('@')[1]` is
      what follows it. */
  lemma SplitAtSign(token: string, at: nat)
    requires 0 < at < |token| && token[at] == '@'
    requires forall k :: 0 <= k < |token| && k != at ==> IsAddrChar(token[k])
    ensures var email := Lower(token);
            email == email[..at] + "@" + email[at + 1..] && '@' !in email[..at] && '@' !in email[at + 1..]
            && email[..at] != []
  {
    var email := Lower(token);
    assert email == email[..at] + [email[at]] + email[at + 1..];
    assert forall k :: 0 <= k < |email| && k != at ==> email[k] != '@';
  }
}

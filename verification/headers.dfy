/**
 * Header extraction of the current service: `_get_unsubscribe_from_headers`,
 * `_get_sender_info` and `_get_subject`. Each is a first-match-wins scan over the
 * (name, value) pairs of one message, with names compared case-insensitively, and
 * the regular expressions of the source written out as position predicates.
 */
module Headers {
  import opened Wrappers
  import opened Text

  datatype Header = Header(name: string, value: string)
  type HeaderSet = seq<Header>

  /** `header['name'].lower() == name`, for a lower-case `name`. */
  predicate Named(h: Header, name: string)
  {
    Lower(h.name) == name
  }

  predicate NoneNamed(hs: HeaderSet, name: string)
  {
    forall j :: 0 <= j < |hs| ==> !Named(hs[j], name)
  }

  /** `i` is the position of the first header called `name`. */
  predicate IsFirstNamed(hs: HeaderSet, name: string, i: int)
  {
    0 <= i < |hs| && Named(hs[i], name) && forall j :: 0 <= j < i ==> !Named(hs[j], name)
  }

  function FirstNamedFrom(hs: HeaderSet, name: string, from: nat): (r: Option<nat>)
    requires from <= |hs|
    decreases |hs| - from
    ensures r.Some? ==> from <= r.value < |hs| && Named(hs[r.value], name)
    ensures r.Some? ==> forall j :: from <= j < r.value ==> !Named(hs[j], name)
    ensures r.None? ==> forall j :: from <= j < |hs| ==> !Named(hs[j], name)
  {
    if from == |hs| then None
    else if Named(hs[from], name) then Some(from)
    else FirstNamedFrom(hs, name, from + 1)
  }

  /** The `for header in headers: if header['name'].lower() == name` lookup. */
  function FirstNamed(hs: HeaderSet, name: string): (r: Option<nat>)
    ensures r.Some? ==> IsFirstNamed(hs, name, r.value)
    ensures r.None? <==> NoneNamed(hs, name)
  {
    FirstNamedFrom(hs, name, 0)
  }

  /** `_get_subject`: the value of the first Subject header, else "(No Subject)". */
  function Subject(hs: HeaderSet): (r: string)
    ensures forall i :: IsFirstNamed(hs, "subject", i) ==> r == hs[i].value
    ensures NoneNamed(hs, "subject") ==> r == "(No Subject)"
  {
    match FirstNamed(hs, "subject")
    case Some(i) => hs[i].value
    case None => "(No Subject)"
  }

  // ----- `<(https?://[^>]+)>` and `<(mailto:[^>]+)>` -----

  datatype Scheme = Http | Mailto

  /** The captured group matches `https?://[^>]+` (resp. `mailto:[^>]+`) apart from the `[^>]` part. */
  predicate HasScheme(u: string, sch: Scheme)
  {
    match sch
    case Http => ("http://" <= u && |u| > 7) || ("https://" <= u && |u| > 8)
    case Mailto => "mailto:" <= u && |u| > 7
  }

  /** The pattern `<(scheme[^>]+)>` matches at position `i` of `s` and captures `u`. */
  predicate IsCapture(s: string, i: int, u: string, sch: Scheme)
  {
    0 <= i && i + 1 + |u| < |s| && s[i] == '<' && s[i + 1..i + 1 + |u|] == u && s[i + 1 + |u|] == '>'
    && (forall k :: 0 <= k < |u| ==> u[k] != '>') && HasScheme(u, sch)
  }

  /** A `>` at the end of a capture is the first `>` after its `<`. */
  lemma CaptureClose(s: string, i: nat, u: string, sch: Scheme)
    requires IsCapture(s, i, u, sch)
    ensures IndexOf(s, '>', i + 1) == Some(i + 1 + |u|)
  {
    var e := i + 1 + |u|;
    assert forall k :: i + 1 <= k < e ==> s[k] == u[k - i - 1];
  }

  /** The group the pattern captures when matched at position `i`, if it matches there. */
  function CaptureAt(s: string, i: nat, sch: Scheme): (r: Option<string>)
    ensures forall u :: IsCapture(s, i, u, sch) <==> r == Some(u)
  {
    if i < |s| && s[i] == '<' then
      match IndexOf(s, '>', i + 1)
      case None =>
        assert forall u :: !IsCapture(s, i, u, sch) by {
          forall u ensures !IsCapture(s, i, u, sch) {
            if IsCapture(s, i, u, sch) { CaptureClose(s, i, u, sch); }
          }
        }
        None
      case Some(j) =>
        var u := s[i + 1..j];
        assert forall v :: IsCapture(s, i, v, sch) ==> v == u by {
          forall v | IsCapture(s, i, v, sch) ensures v == u {
            CaptureClose(s, i, v, sch);
          }
        }
        if HasScheme(u, sch) then
          assert forall k :: 0 <= k < |u| ==> u[k] == s[i + 1 + k];
          Some(u)
        else None
    else None
  }

  function FirstCaptureFrom(s: string, sch: Scheme, from: nat): (r: Option<nat>)
    decreases |s| - from
    ensures r.Some? ==> from <= r.value < |s| && CaptureAt(s, r.value, sch).Some?
    ensures r.Some? ==> forall k :: from <= k < r.value ==> CaptureAt(s, k, sch).None?
    ensures r.None? ==> forall k :: from <= k ==> CaptureAt(s, k, sch).None?
  {
    if from >= |s| then None
    else if CaptureAt(s, from, sch).Some? then Some(from)
    else FirstCaptureFrom(s, sch, from + 1)
  }

  /** `re.findall(pattern, s)[0]` when the list is non-empty: the leftmost match's group. */
  function FirstCapture(s: string, sch: Scheme): (r: Option<string>)
    ensures r.Some? ==> exists i :: IsCapture(s, i, r.value, sch) && forall k :: 0 <= k < i ==> CaptureAt(s, k, sch).None?
    ensures r.None? ==> forall i: nat, u :: !IsCapture(s, i, u, sch)
  {
    match FirstCaptureFrom(s, sch, 0)
    case Some(i) => CaptureAt(s, i, sch)
    case None =>
      assert forall i: nat, u :: !IsCapture(s, i, u, sch) by {
        forall i: nat, u ensures !IsCapture(s, i, u, sch) {
          assert CaptureAt(s, i, sch).None?;
        }
      }
      None
  }

  // ----- `_get_unsubscribe_from_headers` -----

  datatype LinkKind = OneClick | Manual
  datatype Link = Link(url: string, kind: LinkKind)

  /** Whether any header is called List-Unsubscribe-Post. */
  function HasPost(hs: HeaderSet): (b: bool)
    ensures b <==> exists i :: 0 <= i < |hs| && Named(hs[i], "list-unsubscribe-post")
  {
    FirstNamed(hs, "list-unsubscribe-post").Some?
  }

  /** What the loop body decides for one List-Unsubscribe value: the first http(s) URL
      (one-click when a List-Unsubscribe-Post header exists), else the first mailto. */
  function LinkOf(value: string, post: bool): Option<Link>
  {
    match FirstCapture(value, Http)
    case Some(u) => Some(Link(u, if post then OneClick else Manual))
    case None =>
      match FirstCapture(value, Mailto)
      case Some(m) => Some(Link(m, Manual))
      case None => None
  }

  /** Header `i` is a List-Unsubscribe header whose value yields a link. */
  predicate Decides(hs: HeaderSet, i: int, post: bool)
  {
    0 <= i < |hs| && Named(hs[i], "list-unsubscribe") && LinkOf(hs[i].value, post).Some?
  }

  function UnsubscribeFrom(hs: HeaderSet, post: bool, from: nat): (r: Option<Link>)
    requires from <= |hs|
    decreases |hs| - from
    ensures r.Some? ==> exists i :: from <= i && Decides(hs, i, post) && LinkOf(hs[i].value, post) == r
                                    && forall j :: from <= j < i ==> !Decides(hs, j, post)
    ensures r.None? ==> forall j :: from <= j < |hs| ==> !Decides(hs, j, post)
  {
    if from == |hs| then None
    else if Named(hs[from], "list-unsubscribe") && LinkOf(hs[from].value, post).Some? then
      assert Decides(hs, from, post);
      LinkOf(hs[from].value, post)
    else UnsubscribeFrom(hs, post, from + 1)
  }

  /** `_get_unsubscribe_from_headers`: the link of the first List-Unsubscribe header that
      has one; `None` stands for the source's `(None, None)`. */
  function UnsubscribeLink(hs: HeaderSet): (r: Option<Link>)
    ensures r.Some? ==> exists i :: Decides(hs, i, HasPost(hs)) && LinkOf(hs[i].value, HasPost(hs)) == r
                                    && forall j :: 0 <= j < i ==> !Decides(hs, j, HasPost(hs))
    ensures r.None? <==> forall j :: 0 <= j < |hs| ==> !Decides(hs, j, HasPost(hs))
  {
    UnsubscribeFrom(hs, HasPost(hs), 0)
  }

  /** The leftmost-match search finds position `i` when the pattern matches there and nowhere before. */
  lemma {:induction false} FirstCaptureFromIs(s: string, sch: Scheme, from: nat, i: nat)
    requires from <= i && CaptureAt(s, i, sch).Some?
    requires forall k :: from <= k < i ==> CaptureAt(s, k, sch).None?
    ensures FirstCaptureFrom(s, sch, from) == Some(i)
    decreases i - from
  {
    CaptureInside(s, i, sch);
    if from < i {
      assert CaptureAt(s, from, sch).None?;
      FirstCaptureFromIs(s, sch, from + 1, i);
    }
  }

  /** A match starts inside the string. */
  lemma CaptureInside(s: string, i: nat, sch: Scheme)
    requires CaptureAt(s, i, sch).Some?
    ensures i < |s|
  {
    assert IsCapture(s, i, CaptureAt(s, i, sch).value, sch);
  }

  /** The http(s) URL wins over a mailto in the same value, and it is one-click exactly
      when a List-Unsubscribe-Post header is present. */
  lemma LinkKindRule(value: string, post: bool, i: nat, u: string)
    requires IsCapture(value, i, u, Http)
    requires forall k :: 0 <= k < i ==> CaptureAt(value, k, Http).None?
    ensures LinkOf(value, post) == Some(Link(u, if post then OneClick else Manual))
  {
    assert CaptureAt(value, i, Http) == Some(u);
    FirstCaptureFromIs(value, Http, 0, i);
  }

  /** A value with no http(s) URL but a mailto link gives the mailto, always manual. */
  lemma MailtoFallback(value: string, post: bool, i: nat, m: string)
    requires forall k: nat, u :: !IsCapture(value, k, u, Http)
    requires IsCapture(value, i, m, Mailto)
    requires forall k :: 0 <= k < i ==> CaptureAt(value, k, Mailto).None?
    ensures LinkOf(value, post) == Some(Link(m, Manual))
  {
    forall k: nat ensures CaptureAt(value, k, Http).None? {
      assert forall u :: CaptureAt(value, k, Http) != Some(u);
    }
    assert FirstCapture(value, Http).None?;
    assert CaptureAt(value, i, Mailto) == Some(m);
    FirstCaptureFromIs(value, Mailto, 0, i);
  }

  // ----- `_get_sender_info`: `re.search(r'([^<]*)<([^>]+)>', value)` -----

  /** The pattern matches `s` from `st`, with its `<` at `lt` and its `>` at `gt`:
      group 1 is `s[st..lt]`, group 2 is `s[lt + 1..gt]`. */
  predicate IsNameAddrAt(s: string, st: int, lt: int, gt: int)
  {
    0 <= st <= lt && lt + 1 < gt < |s| && s[lt] == '<' && s[gt] == '>'
    && (forall k :: st <= k < lt ==> s[k] != '<')
    && (forall k :: lt < k < gt ==> s[k] != '>')
  }

  /** The match of `re.search` is the leftmost one. */
  ghost predicate IsLeftmostNameAddr(s: string, st: int, lt: int, gt: int)
  {
    IsNameAddrAt(s, st, lt, gt) && forall p, l, g :: 0 <= p < st ==> !IsNameAddrAt(s, p, l, g)
  }

  /** A match from `st` has its `<` at the first `<` from `st` and its `>` at the first `>` after that. */
  lemma NameAddrFirsts(s: string, st: int, lt: int, gt: int)
    ensures IsNameAddrAt(s, st, lt, gt) ==>
              IndexOf(s, '<', st as nat) == Some(lt as nat) && IndexOf(s, '>', lt as nat + 1) == Some(gt as nat)
  {
  }

  /** Where the first `<` from `from` is not followed by a usable `>`, no match starts before it. */
  lemma NoNameAddrBefore(s: string, from: nat, lt: nat, p: int, l: int, g: int)
    requires IndexOf(s, '<', from) == Some(lt)
    requires IndexOf(s, '>', lt + 1).None? || IndexOf(s, '>', lt + 1) == Some(lt + 1)
    requires from <= p <= lt
    ensures !IsNameAddrAt(s, p, l, g)
  {
    NameAddrFirsts(s, p, l, g);
    assert IndexOf(s, '<', p as nat) == Some(lt);
  }

  /** With no `<` from `from` on, or none followed by a `>`, nothing matches. */
  lemma NoNameAddrAfter(s: string, from: nat, p: int, l: int, g: int)
    requires IndexOf(s, '<', from).None? || (IndexOf(s, '<', from).Some? && IndexOf(s, '>', IndexOf(s, '<', from).value + 1).None?)
    requires from <= p
    ensures !IsNameAddrAt(s, p, l, g)
  {
    NameAddrFirsts(s, p, l, g);
  }

  function NameAddrSearch(s: string, from: nat): (r: Option<(nat, nat, nat)>)
    decreases |s| - from
    ensures r.Some? ==> from <= r.value.0 && IsNameAddrAt(s, r.value.0, r.value.1, r.value.2)
    ensures r.Some? ==> forall p, l, g :: from <= p < r.value.0 ==> !IsNameAddrAt(s, p, l, g)
    ensures r.None? ==> forall p, l, g :: from <= p ==> !IsNameAddrAt(s, p, l, g)
  {
    match IndexOf(s, '<', from)
    case None =>
      assert forall p, l, g :: from <= p ==> !IsNameAddrAt(s, p, l, g) by {
        forall p, l, g | from <= p ensures !IsNameAddrAt(s, p, l, g) {
          NoNameAddrAfter(s, from, p, l, g);
        }
      }
      None
    case Some(lt) =>
      match IndexOf(s, '>', lt + 1)
      case None =>
        assert forall p, l, g :: from <= p ==> !IsNameAddrAt(s, p, l, g) by {
          forall p, l, g | from <= p ensures !IsNameAddrAt(s, p, l, g) {
            NoNameAddrAfter(s, from, p, l, g);
          }
        }
        None
      case Some(gt) =>
        if gt > lt + 1 then
          assert IsNameAddrAt(s, from, lt, gt);
          Some((from, lt, gt))
        else
          assert forall p, l, g :: from <= p <= lt ==> !IsNameAddrAt(s, p, l, g) by {
            forall p, l, g | from <= p <= lt ensures !IsNameAddrAt(s, p, l, g) {
              NoNameAddrBefore(s, from, lt, p, l, g);
            }
          }
          NameAddrSearch(s, lt + 1)
  }

  /** The leftmost match is the one the search from 0 finds. */
  lemma LeftmostIsSearched(s: string, p: int, l: int, g: int)
    requires IsLeftmostNameAddr(s, p, l, g)
    ensures NameAddrSearch(s, 0) == Some((p as nat, l as nat, g as nat))
  {
    var m := NameAddrSearch(s, 0);
    assert m.Some?;
    var (p', l', g') := m.value;
    assert p == p';
    NameAddrFirsts(s, p, l, g);
    NameAddrFirsts(s, p, l', g');
  }

  /** What `_get_sender_info` returns for a match with groups `nameGroup` and `addrGroup`:
      the address is the second group with the blanks around it removed; the name is the
      first group stripped of blanks and then of quotes, or the address when nothing is left. */
  function NameAndAddress(nameGroup: string, addrGroup: string): (string, string)
  {
    var trimmed := Strip(nameGroup);
    var name := StripBy(trimmed, IsQuote);
    var email := Strip(addrGroup);
    (if name != "" then name else email, email)
  }

  /** What the pair means: the address is the second group without surrounding blanks; the
      name is the first group without surrounding blanks and then without surrounding quotes,
      or, when nothing is left of it, the address; so the name is empty only with the address. */
  lemma NameAndAddressParts(nameGroup: string, addrGroup: string)
    ensures StrippedOf(NameAndAddress(nameGroup, addrGroup).1, addrGroup, IsSpace)
    ensures exists n :: StrippedOf(n, nameGroup, IsSpace)
                        && ((NameAndAddress(nameGroup, addrGroup).0 != "" && StrippedOf(NameAndAddress(nameGroup, addrGroup).0, n, IsQuote))
                            || (StrippedOf("", n, IsQuote) && NameAndAddress(nameGroup, addrGroup).0 == NameAndAddress(nameGroup, addrGroup).1))
    ensures NameAndAddress(nameGroup, addrGroup).0 == "" ==> NameAndAddress(nameGroup, addrGroup).1 == ""
  {
    var n := Strip(nameGroup);
    assert StrippedOf(n, nameGroup, IsSpace);
    assert StrippedOf(StripBy(n, IsQuote), n, IsQuote);
  }

  lemma FirstNamedUnique(hs: HeaderSet, name: string, i: nat)
    requires IsFirstNamed(hs, name, i)
    ensures forall j :: IsFirstNamed(hs, name, j) ==> j == i
  {
  }

  /** What `_get_sender_info` makes of one From value. */
  function SenderOfValue(v: string): (string, string)
  {
    SenderOfMatch(v, NameAddrSearch(v, 0))
  }

  /** The pair for the match `m` of the pattern in `v`, or `(v, v)` without one. */
  function SenderOfMatch(v: string, m: Option<(nat, nat, nat)>): (string, string)
    requires m.Some? ==> m.value.1 < m.value.2 <= |v| && m.value.0 <= m.value.1
  {
    if m.None? then (v, v) else NameAndAddress(v[m.value.0..m.value.1], v[m.value.1 + 1..m.value.2])
  }

  /** A From value with no `<...>` part is both name and address. */
  lemma SenderOfValueNoMatch(v: string)
    requires forall p, l, g :: !IsNameAddrAt(v, p, l, g)
    ensures SenderOfValue(v) == (v, v)
  {
    match NameAddrSearch(v, 0)
    case None =>
    case Some((p, l, g)) => assert false;
  }

  /** Otherwise the leftmost match gives the name and the address. */
  lemma SenderOfValueLeftmost(v: string, p: int, l: int, g: int)
    requires IsLeftmostNameAddr(v, p, l, g)
    ensures SenderOfValue(v) == NameAndAddress(v[p..l], v[l + 1..g])
  {
    LeftmostIsSearched(v, p, l, g);
    SenderOfSearched(v, p, l, g);
  }

  lemma SenderOfSearched(v: string, p: nat, l: nat, g: nat)
    requires NameAddrSearch(v, 0) == Some((p, l, g))
    ensures SenderOfValue(v) == NameAndAddress(v[p..l], v[l + 1..g])
  {
    SenderOfMatchSome(v, p, l, g);
  }

  lemma SenderOfMatchSome(v: string, p: nat, l: nat, g: nat)
    requires p <= l < g <= |v|
    ensures SenderOfMatch(v, Some((p, l, g))) == NameAndAddress(v[p..l], v[l + 1..g])
  {
  }

  /** `_get_sender_info`: (display name, address) from the first From header. */
  function SenderInfo(hs: HeaderSet): (r: (string, string))
    ensures NoneNamed(hs, "from") ==> r == ("Unknown", "unknown")
    ensures forall i :: IsFirstNamed(hs, "from", i) && (forall p, l, g :: !IsNameAddrAt(hs[i].value, p, l, g))
                        ==> r == (hs[i].value, hs[i].value)
    ensures forall i, p, l, g :: IsFirstNamed(hs, "from", i) && IsLeftmostNameAddr(hs[i].value, p, l, g)
                        ==> r == NameAndAddress(hs[i].value[p..l], hs[i].value[l + 1..g])
  {
    match FirstNamed(hs, "from")
    case None => ("Unknown", "unknown")
    case Some(i) =>
      FirstNamedUnique(hs, "from", i);
      var v := hs[i].value;
      assert (forall p, l, g :: !IsNameAddrAt(v, p, l, g)) ==> SenderOfValue(v) == (v, v) by {
        if forall p, l, g :: !IsNameAddrAt(v, p, l, g) {
          SenderOfValueNoMatch(v);
        }
      }
      assert forall p, l, g | IsLeftmostNameAddr(v, p, l, g) :: SenderOfValue(v) == NameAndAddress(v[p..l], v[l + 1..g]) by {
        forall p, l, g | IsLeftmostNameAddr(v, p, l, g) ensures SenderOfValue(v) == NameAndAddress(v[p..l], v[l + 1..g]) {
          SenderOfValueLeftmost(v, p, l, g);
        }
      }
      SenderOfValue(v)
  }

  /** The key the unsubscribe scan groups by: the text after the last '@' of the address. */
  function DomainOf(email: string): (r: string)
    ensures '@' !in r
    ensures |r| <= |email| && r == email[|email| - |r|..]
    ensures '@' in email ==> email[|email| - |r| - 1] == '@'
    ensures '@' !in email ==> r == email
  {
    if '@' in email then AfterLast(email, '@') else email
  }
}

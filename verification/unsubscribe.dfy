/**
 * The decisions of the two `unsubscribe_single` functions and of `test_unsubscribe_link`.
 * Every network result (the URL safety check, the POST and GET replies, the fetched page)
 * is an input; only what the code decides from those results is modelled.
 */
module Unsubscribe {
  import opened Wrappers
  import opened Text

  // ----- current service -----

  datatype Reply = Reply(success: bool, message: string, mailto: bool, domain: Option<string>)

  /** What one HTTP request produced: a status code, or the text of the exception raised. */
  datatype HttpOutcome = Status(code: nat) | Raised(error: string)

  predicate PostAccepted(code: nat) { code in {200, 201, 202, 204} }

  predicate GetAccepted(code: nat) { code in {200, 201, 202, 204, 301, 302} }

  /** The replies `unsubscribe_single` gives without touching the network. */
  function EarlyExit(link: string): (r: Option<Reply>)
    ensures r.Some? <==> link == [] || "mailto:" <= link
    ensures r.Some? ==> !r.value.success && r.value.domain.None?
    ensures r.Some? ==> (r.value.mailto <==> link != [])
  {
    if link == [] then Some(Reply(false, "No unsubscribe link provided", false, None))
    else if "mailto:" <= link then Some(Reply(false, "Email-based unsubscribe - open in email client", true, None))
    else None
  }

  /** `unsubscribe_single(domain, link)`: `unsafe` is the error of the URL safety check, if it
      refused the link; `post` and `get` are what the two requests produced. */
  function UnsubscribeSingle(domain: string, link: string, unsafe: Option<string>,
                             post: HttpOutcome, get: HttpOutcome): (r: Reply)
    ensures r.success <==> EarlyExit(link).None? && unsafe.None?
                           && ((post.Status? && PostAccepted(post.code)) || (get.Status? && GetAccepted(get.code)))
    ensures r.success ==> r.domain == Some(domain) && !r.mailto
    ensures r.mailto <==> link != [] && "mailto:" <= link
  {
    match EarlyExit(link)
    case Some(reply) => reply
    case None =>
      if unsafe.Some? then Reply(false, "Security Error: " + unsafe.value, false, None)
      else if post.Status? && PostAccepted(post.code) then
        Reply(true, "Unsubscribed successfully", false, Some(domain))
      else
        match get
        case Raised(e) => Reply(false, Prefix(e, 100), false, None)
        case Status(code) =>
          if GetAccepted(code) then Reply(true, "Unsubscribed (confirmation may be needed)", false, Some(domain))
          else Reply(false, "Server returned status " + NatToString(code), false, None)
  }

  /** An accepted POST reply is also an accepted GET reply: the GET set only adds redirects. */
  lemma PostCodesAreGetCodes(code: nat)
    ensures PostAccepted(code) ==> GetAccepted(code)
    ensures GetAccepted(code) && !PostAccepted(code) <==> code == 301 || code == 302
  {
  }

  /** Empty and `mailto:` links never reach the network: the reply does not depend on any
      network result. */
  lemma EarlyExitIgnoresNetwork(domain: string, link: string, u1: Option<string>, p1: HttpOutcome, g1: HttpOutcome,
                                u2: Option<string>, p2: HttpOutcome, g2: HttpOutcome)
    requires link == [] || "mailto:" <= link
    ensures UnsubscribeSingle(domain, link, u1, p1, g1) == UnsubscribeSingle(domain, link, u2, p2, g2)
    ensures !UnsubscribeSingle(domain, link, u1, p1, g1).success
  {
  }

  /** A failing GET reports the status code, which can be read back from the message. */
  lemma RejectedStatusMessage(domain: string, link: string, post: HttpOutcome, code: nat)
    requires EarlyExit(link).None? && !(post.Status? && PostAccepted(post.code)) && !GetAccepted(code)
    ensures var m := UnsubscribeSingle(domain, link, None, post, Status(code)).message;
            |m| > 23 && m[..23] == "Server returned status "
            && (forall i :: 23 <= i < |m| ==> IsDigit(m[i])) && DigitsValue(m[23..]) == code
  {
    var m := UnsubscribeSingle(domain, link, None, post, Status(code)).message;
    assert m[23..] == NatToString(code);
    NatToStringValue(code);
  }

  // ----- legacy page classification -----

  /** The phrases `test_unsubscribe_link` takes as proof that a one-click link worked. */
  const OneClickPhrases: seq<string> := [
    "successfully unsubscribed", "you have been unsubscribed",
    "unsubscribe successful", "you are now unsubscribed",
    "you have been removed", "subscription cancelled",
    "you will no longer receive", "email address has been removed",
    "opt-out successful", "you've been unsubscribed",
    "you have unsubscribed", "unsubscription confirmed"
  ]

  /** The phrases the legacy `unsubscribe_single` takes as success. */
  const SuccessWords: seq<string> := [
    "successfully unsubscribed", "you have been unsubscribed",
    "unsubscribe successful", "you are now unsubscribed",
    "removed from", "you have been removed", "subscription cancelled",
    "you will no longer receive", "email address has been removed"
  ]

  /** The `for phrase in phrases: if phrase in text` scan, from position `i` of the list. */
  function FirstPhraseFrom(phrases: seq<string>, text: string, i: nat): (r: Option<nat>)
    requires i <= |phrases|
    decreases |phrases| - i
    ensures r.Some? ==> i <= r.value < |phrases| && IsSubstring(phrases[r.value], text)
    ensures r.Some? ==> forall j :: i <= j < r.value ==> !IsSubstring(phrases[j], text)
    ensures r.None? ==> forall j :: i <= j < |phrases| ==> !IsSubstring(phrases[j], text)
  {
    if i == |phrases| then None
    else if IsSubstring(phrases[i], text) then Some(i)
    else FirstPhraseFrom(phrases, text, i + 1)
  }

  predicate MentionsAny(phrases: seq<string>, text: string)
  {
    FirstPhraseFrom(phrases, text, 0).Some?
  }

  lemma MentionsAnyMeans(phrases: seq<string>, text: string)
    ensures MentionsAny(phrases, text) <==> exists p :: p in phrases && IsSubstring(p, text)
  {
    if !MentionsAny(phrases, text) {
      forall p | p in phrases ensures !IsSubstring(p, text) {
        var j :| 0 <= j < |phrases| && phrases[j] == p;
      }
    }
  }

  datatype LinkClass = OneClick | Manual

  /** `test_unsubscribe_link`: `page` is the decoded body of the fetched page, or `None` when
      the request raised. */
  function TestUnsubscribeLink(page: Option<string>): (r: LinkClass)
    ensures r == OneClick <==> page.Some? && exists p :: p in OneClickPhrases && IsSubstring(p, Lower(page.value))
  {
    MentionsAnyMeans(OneClickPhrases, if page.Some? then Lower(page.value) else "");
    if page.Some? && MentionsAny(OneClickPhrases, Lower(page.value)) then OneClick else Manual
  }

  datatype LegacyReply = Unsubscribed(domain: string) | ManualNeeded(domain: string) | Failed(domain: string, error: string)

  /** The legacy `unsubscribe_single`: `page` is the decoded body, or the exception's text. */
  function LegacyUnsubscribeSingle(domain: string, page: Result<string>): (r: LegacyReply)
    ensures r.domain == domain
    ensures r.Unsubscribed? <==> page.Ok? && exists p :: p in SuccessWords && IsSubstring(p, Lower(page.value))
    ensures r.Failed? <==> page.Err?
    ensures r.Failed? ==> r.error == page.error
  {
    match page
    case Err(e) => Failed(domain, e)
    case Ok(text) =>
      MentionsAnyMeans(SuccessWords, Lower(text));
      if MentionsAny(SuccessWords, Lower(text)) then Unsubscribed(domain) else ManualNeeded(domain)
  }

  /** The two phrase lists differ: "removed from" counts only for `unsubscribe_single`, and
      four phrases count only for `test_unsubscribe_link`. */
  lemma PhraseListsDiffer()
    ensures forall p :: p in SuccessWords && p !in OneClickPhrases <==> p == "removed from"
    ensures |OneClickPhrases| == 12 && |SuccessWords| == 9
  {
  }

  /** A page the legacy unsubscribe accepts, but not on "removed from" alone, is also one the
      link test calls one-click. */
  lemma UnsubscribedImpliesOneClick(domain: string, text: string)
    requires LegacyUnsubscribeSingle(domain, Ok(text)).Unsubscribed?
    requires !IsSubstring("removed from", Lower(text))
    ensures TestUnsubscribeLink(Some(text)) == OneClick
  {
    PhraseListsDiffer();
    var p :| p in SuccessWords && IsSubstring(p, Lower(text));
    assert p in OneClickPhrases;
  }
}

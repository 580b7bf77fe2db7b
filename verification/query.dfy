/**
 * `build_gmail_query`: filters to a Gmail search string, and the query of `mark_emails_as_read`.
 * Only `older_than`, `larger_than` and `category` reach the query; the other fields of
 * the filter model are accepted but ignored.
 */
module Query {
  import opened Wrappers
  import opened Text

  datatype Filters = Filters(olderThan: Option<string>, afterDate: Option<string>, beforeDate: Option<string>,
                             largerThan: Option<string>, category: Option<string>, sender: Option<string>,
                             labelId: Option<string>)

  /** A field contributes when it is present and not the empty string (Python truthiness). */
  predicate Given(v: Option<string>) { v.Some? && v.value != "" }

  function Part(prefix: string, v: Option<string>): seq<string>
  {
    if Given(v) then [prefix + v.value] else []
  }

  function Parts(f: Filters): seq<string>
  {
    Part("older_than:", f.olderThan) + Part("larger:", f.largerThan) + Part("category:", f.category)
  }

  /** `build_gmail_query(filters)`; `None` stands for every falsy `filters` (None, `{}`). */
  function BuildQuery(filters: Option<Filters>): (q: string)
    ensures filters.None? ==> q == ""
  {
    if filters.None? then "" else JoinSpace(Parts(filters.value))
  }

  lemma {:induction false} JoinSpaceEmpty(parts: seq<string>)
    requires forall i :: 0 <= i < |parts| ==> parts[i] != ""
    ensures JoinSpace(parts) == "" <==> parts == []
  {
    if |parts| > 1 {
      assert |JoinSpace(parts)| >= |parts[0]|;
    }
  }

  /** The query is empty exactly when no used field is given. */
  lemma EmptyQuery(f: Filters)
    ensures BuildQuery(Some(f)) == "" <==> !Given(f.olderThan) && !Given(f.largerThan) && !Given(f.category)
  {
    JoinSpaceEmpty(Parts(f));
  }

  /** `after_date`, `before_date`, `sender` and `label` never influence the query. */
  lemma IgnoredFields(f: Filters, after: Option<string>, before: Option<string>, sender: Option<string>, labelId: Option<string>)
    ensures BuildQuery(Some(f)) == BuildQuery(Some(f.(afterDate := after, beforeDate := before, sender := sender, labelId := labelId)))
  {
  }

  /** With all three used fields given, the fixed order `older_than`, `larger`, `category`. */
  lemma AllGiven(f: Filters)
    requires Given(f.olderThan) && Given(f.largerThan) && Given(f.category)
    ensures BuildQuery(Some(f)) == "older_than:" + f.olderThan.value + " larger:" + f.largerThan.value
                                   + " category:" + f.category.value
  {
    var p := Parts(f);
    assert p == ["older_than:" + f.olderThan.value, "larger:" + f.largerThan.value, "category:" + f.category.value];
    assert p[1..][1..] == ["category:" + f.category.value];
    assert Join(p[1..][1..], " ") == p[2];
    assert JoinSpace(p[1..]) == p[1] + " " + p[2];
    assert JoinSpace(p) == p[0] + " " + (p[1] + " " + p[2]);
  }

  // ----- reading a query back -----

  datatype UsedFields = UsedFields(olderThan: Option<string>, largerThan: Option<string>, category: Option<string>)

  function Normal(v: Option<string>): Option<string> { if Given(v) then v else None }

  function Used(f: Filters): UsedFields
  {
    UsedFields(Normal(f.olderThan), Normal(f.largerThan), Normal(f.category))
  }

  /** The value of the first term starting with `prefix`. */
  function TermValue(prefix: string, terms: seq<string>): (r: Option<string>)
    ensures r.Some? ==> exists i :: 0 <= i < |terms| && terms[i] == prefix + r.value
  {
    if terms == [] then None
    else if prefix <= terms[0] then
      assert terms[0] == prefix + terms[0][|prefix|..];
      Some(terms[0][|prefix|..])
    else TermValue(prefix, terms[1..])
  }

  /** The fields a query string sets, read term by term. */
  function ParseQuery(q: string): UsedFields
  {
    var terms := SplitSpace(q);
    UsedFields(TermValue("older_than:", terms), TermValue("larger:", terms), TermValue("category:", terms))
  }

  predicate SpaceFree(v: Option<string>) { v.Some? ==> ' ' !in v.value }

  lemma PartsSpaceFree(f: Filters)
    requires SpaceFree(f.olderThan) && SpaceFree(f.largerThan) && SpaceFree(f.category)
    ensures forall i :: 0 <= i < |Parts(f)| ==> ' ' !in Parts(f)[i]
  {
    var o, l, c := Part("older_than:", f.olderThan), Part("larger:", f.largerThan), Part("category:", f.category);
    forall i | 0 <= i < |Parts(f)| ensures ' ' !in Parts(f)[i] {
      if i < |o| { assert Parts(f)[i] == o[i]; }
      else if i < |o| + |l| { assert Parts(f)[i] == l[i - |o|]; }
      else { assert Parts(f)[i] == c[i - |o| - |l|]; }
    }
  }

  lemma TermValueOfPart(prefix: string, v: Option<string>, rest: seq<string>)
    ensures Given(v) ==> TermValue(prefix, Part(prefix, v) + rest) == v
    ensures !Given(v) ==> TermValue(prefix, Part(prefix, v) + rest) == TermValue(prefix, rest)
  {
    if Given(v) {
      assert (Part(prefix, v) + rest)[0] == prefix + v.value;
      assert (prefix + v.value)[|prefix|..] == v.value;
    } else {
      assert Part(prefix, v) + rest == rest;
    }
  }

  /** A term of another field is skipped when reading `prefix`. */
  lemma TermValueSkips(prefix: string, other: string, v: Option<string>, rest: seq<string>)
    requires prefix != [] && other != [] && prefix[0] != other[0]
    ensures TermValue(prefix, Part(other, v) + rest) == TermValue(prefix, rest)
  {
    if Given(v) {
      var t := other + v.value;
      assert (Part(other, v) + rest)[0] == t;
      assert (Part(other, v) + rest)[1..] == rest;
      assert t[0] == other[0];
      assert !(prefix <= t);
    } else {
      assert Part(other, v) + rest == rest;
    }
  }

  /** Round trip: reading the built query back gives the used fields, as long as their
      values hold no space. */
  lemma ParseBuild(f: Filters)
    requires SpaceFree(f.olderThan) && SpaceFree(f.largerThan) && SpaceFree(f.category)
    ensures ParseQuery(BuildQuery(Some(f))) == Used(f)
  {
    var o, l, c := Part("older_than:", f.olderThan), Part("larger:", f.largerThan), Part("category:", f.category);
    var terms := SplitSpace(BuildQuery(Some(f)));
    if Parts(f) == [] {
      assert terms == [""];
      assert TermValue("older_than:", [""]) == None;
      assert TermValue("larger:", [""]) == None;
      assert TermValue("category:", [""]) == None;
      assert !Given(f.olderThan) && !Given(f.largerThan) && !Given(f.category);
    } else {
      PartsSpaceFree(f);
      SplitJoin(Parts(f));
      assert terms == o + (l + c);
      assert (l + c) + [] == l + c;
      assert c + [] == c;
      // older_than
      TermValueOfPart("older_than:", f.olderThan, l + c);
      TermValueSkips("older_than:", "larger:", f.largerThan, c);
      TermValueSkips("older_than:", "category:", f.category, []);
      // larger
      TermValueSkips("larger:", "older_than:", f.olderThan, l + c);
      TermValueOfPart("larger:", f.largerThan, c);
      TermValueSkips("larger:", "category:", f.category, []);
      // category
      TermValueSkips("category:", "older_than:", f.olderThan, l + c);
      TermValueSkips("category:", "larger:", f.largerThan, c);
      TermValueOfPart("category:", f.category, []);
    }
  }

  /** The query of `mark_emails_as_read`: `is:unread`, followed by the filter query if any. */
  function MarkReadQuery(filters: Option<Filters>): (q: string)
    ensures "is:unread" <= q
    ensures BuildQuery(filters) == "" ==> q == "is:unread"
    ensures BuildQuery(filters) != "" ==> q == "is:unread " + BuildQuery(filters)
  {
    var fq := BuildQuery(filters);
    if fq == "" then "is:unread" else "is:unread " + fq
  }
}

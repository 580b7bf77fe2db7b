/**
 * The field validators of `FiltersModel` and the declared bounds of the request models.
 * Each validator maps `None`/`""` to `None`, returns the (normalised) value, or fails with
 * the message of the `ValueError` it raises. `\d` is taken as the ASCII digits.
 */
module Schemas {
  import opened Wrappers
  import opened Text
  import opened Query

  predicate AllDigits(s: string) { forall i :: 0 <= i < |s| ==> IsDigit(s[i]) }

  /** `re.match('^' + body + '$', s)`: Python's `$` also matches just before one final newline. */
  predicate FullMatch(body: string -> bool, s: string)
  {
    body(s) || (|s| > 0 && s[|s| - 1] == '\n' && body(s[..|s| - 1]))
  }

  /** `\d+d` */
  predicate DaysShape(s: string) { |s| >= 2 && AllDigits(s[..|s| - 1]) && s[|s| - 1] == 'd' }

  /** `\d{4}/\d{2}/\d{2}` */
  predicate DateShape(s: string)
  {
    |s| == 10 && AllDigits(s[..4]) && s[4] == '/' && AllDigits(s[5..7]) && s[7] == '/' && AllDigits(s[8..])
  }

  /** `[KMG]` under `re.IGNORECASE`: either case, and the Kelvin sign, which folds to `k`. */
  predicate SizeUnit(c: char) { c in {'K', 'M', 'G', 'k', 'm', 'g', '\U{212A}'} }

  /** `\d+[KMG]` */
  predicate SizeShape(s: string) { |s| >= 2 && AllDigits(s[..|s| - 1]) && SizeUnit(s[|s| - 1]) }

  const Categories: seq<string> := ["primary", "social", "promotions", "updates", "forums"]

  /** A validator that only checks a shape and then returns its input unchanged. */
  function ShapeField(v: Option<string>, body: string -> bool, error: string): (r: Result<Option<string>>)
    ensures v.None? || v.value == "" ==> r == Ok(None)
    ensures v.Some? && v.value != "" ==> (r.Ok? <==> FullMatch(body, v.value))
    ensures r.Ok? && r.value.Some? ==> v == r.value
    ensures r.Err? ==> r.error == error
  {
    if v.None? || v.value == "" then Ok(None)
    else if FullMatch(body, v.value) then Ok(v)
    else Err(error)
  }

  function ValidateOlderThan(v: Option<string>): Result<Option<string>>
  {
    ShapeField(v, DaysShape, "older_than must be in format like \"7d\", \"30d\", \"365d\"")
  }

  function ValidateAfterDate(v: Option<string>): Result<Option<string>>
  {
    ShapeField(v, DateShape, "after_date must be in format like \"2025/01/15\"")
  }

  function ValidateBeforeDate(v: Option<string>): Result<Option<string>>
  {
    ShapeField(v, DateShape, "before_date must be in format like \"2025/01/15\"")
  }

  function ValidateLargerThan(v: Option<string>): Result<Option<string>>
  {
    ShapeField(v, SizeShape, "larger_than must be in format like \"1M\", \"5M\", \"10M\"")
  }

  /** `validate_category`: accepted when its lower-case form is one of the five categories,
      which is what it returns. */
  function ValidateCategory(v: Option<string>): (r: Result<Option<string>>)
    ensures v.None? || v.value == "" ==> r == Ok(None)
    ensures v.Some? && v.value != "" ==> (r.Ok? <==> Lower(v.value) in Categories)
    ensures r.Ok? && r.value.Some? ==> v.Some? && r.value.value == Lower(v.value) && r.value.value in Categories
  {
    if v.None? || v.value == "" then Ok(None)
    else if Lower(v.value) in Categories then Ok(Some(Lower(v.value)))
    else Err("category must be one of: ['primary', 'social', 'promotions', 'updates', 'forums']")
  }

  /** `validate_sender`: stripped; blank becomes `None`; otherwise it needs an '@' or a '.'. */
  function ValidateSender(v: Option<string>): (r: Result<Option<string>>)
    ensures v.None? ==> r == Ok(None)
    ensures v.Some? ==> (r == Ok(None) <==> Strip(v.value) == "")
    ensures v.Some? && Strip(v.value) != "" ==> (r.Ok? <==> '@' in Strip(v.value) || '.' in Strip(v.value))
    ensures r.Ok? && r.value.Some? ==> v.Some? && r.value.value == Strip(v.value)
  {
    if v.None? || v.value == "" then Ok(None)
    else
      var sender := Strip(v.value);
      if sender == "" then Ok(None)
      else if '@' !in sender && '.' !in sender then Err("sender must be a valid email address or domain")
      else Ok(Some(sender))
  }

  /** The whole filter model: the first failing validator in field order, or the cleaned filters. */
  function ValidateFilters(f: Filters): (r: Result<Filters>)
    ensures r.Ok? <==> ValidateOlderThan(f.olderThan).Ok? && ValidateAfterDate(f.afterDate).Ok?
                       && ValidateBeforeDate(f.beforeDate).Ok? && ValidateLargerThan(f.largerThan).Ok?
                       && ValidateCategory(f.category).Ok? && ValidateSender(f.sender).Ok?
    ensures r.Ok? ==> r.value == Filters(ValidateOlderThan(f.olderThan).value, ValidateAfterDate(f.afterDate).value,
                                         ValidateBeforeDate(f.beforeDate).value, ValidateLargerThan(f.largerThan).value,
                                         ValidateCategory(f.category).value, ValidateSender(f.sender).value, f.labelId)
  {
    match ValidateOlderThan(f.olderThan)
    case Err(e) => Err(e)
    case Ok(o) =>
      match ValidateAfterDate(f.afterDate)
      case Err(e) => Err(e)
      case Ok(a) =>
        match ValidateBeforeDate(f.beforeDate)
        case Err(e) => Err(e)
        case Ok(b) =>
          match ValidateLargerThan(f.largerThan)
          case Err(e) => Err(e)
          case Ok(l) =>
            match ValidateCategory(f.category)
            case Err(e) => Err(e)
            case Ok(c) =>
              match ValidateSender(f.sender)
              case Err(e) => Err(e)
              case Ok(s) => Ok(Filters(o, a, b, l, c, s, f.labelId))
  }

  /** A cleaned field is `None` or non-empty. */
  predicate Clean(v: Option<string>) { v.Some? ==> v.value != "" }

  /** Every validator maps `None` and `""` to `None` and never returns `Some("")`. */
  lemma ValidatorsNormalise(v: Option<string>)
    ensures v.None? || v.value == "" ==>
              ValidateOlderThan(v) == Ok(None) && ValidateAfterDate(v) == Ok(None) && ValidateBeforeDate(v) == Ok(None)
              && ValidateLargerThan(v) == Ok(None) && ValidateCategory(v) == Ok(None) && ValidateSender(v) == Ok(None)
    ensures ValidateOlderThan(v).Ok? ==> Clean(ValidateOlderThan(v).value)
    ensures ValidateLargerThan(v).Ok? ==> Clean(ValidateLargerThan(v).value)
    ensures ValidateCategory(v).Ok? ==> Clean(ValidateCategory(v).value)
    ensures ValidateSender(v).Ok? ==> Clean(ValidateSender(v).value)
  {
    if v.Some? && v.value != "" && ValidateCategory(v).Ok? {
      assert |Lower(v.value)| == |v.value|;
    }
  }

  /** A value the validators accept holds no space, so the query built from validated filters
      reads back to exactly the three fields it uses. */
  lemma ValidatedQueryReadsBack(f: Filters)
    requires ValidateFilters(f).Ok?
    ensures ParseQuery(BuildQuery(Some(ValidateFilters(f).value))) == Used(ValidateFilters(f).value)
  {
    var g := ValidateFilters(f).value;
    if g.olderThan.Some? {
      var s := g.olderThan.value;
      assert ' ' !in s by {
        if DaysShape(s) {
          assert forall i :: 0 <= i < |s| ==> s[i] == 'd' || IsDigit(s[..|s| - 1][i]);
        } else {
          var t := s[..|s| - 1];
          assert DaysShape(t);
          assert forall i :: 0 <= i < |t| ==> t[i] == 'd' || IsDigit(t[..|t| - 1][i]);
          assert forall i :: 0 <= i < |s| ==> s[i] == '\n' || s[i] == t[i];
        }
      }
    }
    if g.largerThan.Some? {
      var s := g.largerThan.value;
      assert ' ' !in s by {
        if SizeShape(s) {
          assert forall i :: 0 <= i < |s| ==> SizeUnit(s[i]) || IsDigit(s[..|s| - 1][i]);
        } else {
          var t := s[..|s| - 1];
          assert SizeShape(t);
          assert forall i :: 0 <= i < |t| ==> SizeUnit(t[i]) || IsDigit(t[..|t| - 1][i]);
          assert forall i :: 0 <= i < |s| ==> s[i] == '\n' || s[i] == t[i];
        }
      }
    }
    if g.category.Some? {
      assert g.category.value in Categories;
    }
    ParseBuild(g);
  }

  // ----- declared bounds of the request models -----

  /** An integer field with a default and inclusive bounds (`Field(default, ge, le)`). */
  function BoundedInt(v: Option<int>, default: int, lo: int, hi: int): (r: Result<int>)
    requires lo <= default <= hi
    ensures r.Ok? ==> lo <= r.value <= hi
    ensures v.None? ==> r == Ok(default)
    ensures v.Some? ==> (r.Ok? <==> lo <= v.value <= hi) && (r.Ok? ==> r.value == v.value)
  {
    match v
    case None => Ok(default)
    case Some(n) =>
      if n < lo then Err("Input should be greater than or equal to " + NatToString(if lo < 0 then 0 else lo))
      else if n > hi then Err("Input should be less than or equal to " + NatToString(if hi < 0 then 0 else hi))
      else Ok(n)
  }

  /** `ScanRequest.limit`: 1..5000, default 500. */
  function ScanLimit(v: Option<int>): Result<int> { BoundedInt(v, 500, 1, 5000) }

  /** `MarkReadRequest.count`: 1..100000, default 100. */
  function MarkReadCount(v: Option<int>): Result<int> { BoundedInt(v, 100, 1, 100000) }

  /** `DeleteScanRequest.limit`: 1..10000, default 1000. */
  function DeleteScanLimit(v: Option<int>): Result<int> { BoundedInt(v, 1000, 1, 10000) }

  const MaxSenders: nat := 50

  /** A sender list (`Field(default=[], max_length=50)`) of the bulk, download, label,
      archive and important requests. */
  function SenderList(v: Option<seq<string>>): (r: Result<seq<string>>)
    ensures r.Ok? ==> |r.value| <= MaxSenders
    ensures v.None? ==> r == Ok([])
    ensures v.Some? ==> (r.Ok? <==> |v.value| <= MaxSenders) && (r.Ok? ==> r.value == v.value)
  {
    match v
    case None => Ok([])
    case Some(xs) => if |xs| <= MaxSenders then Ok(xs) else Err("List should have at most 50 items")
  }

  /** `CreateLabelRequest.name`: required, 1..100 characters. */
  function LabelName(v: Option<string>): (r: Result<string>)
    ensures r.Ok? <==> v.Some? && 1 <= |v.value| <= 100
    ensures r.Ok? ==> r.value == v.value
  {
    match v
    case None => Err("Field required")
    case Some(s) =>
      if |s| < 1 then Err("String should have at least 1 character")
      else if |s| > 100 then Err("String should have at most 100 characters")
      else Ok(s)
  }

  /** The accepted request values are what the jobs rely on: a positive limit or count. */
  lemma RequestBoundsPositive(v: Option<int>)
    ensures ScanLimit(v).Ok? ==> 1 <= ScanLimit(v).value <= 5000
    ensures MarkReadCount(v).Ok? ==> 1 <= MarkReadCount(v).value <= 100000
    ensures DeleteScanLimit(v).Ok? ==> 1 <= DeleteScanLimit(v).value <= 10000
    ensures ScanLimit(None) == Ok(500) && MarkReadCount(None) == Ok(100) && DeleteScanLimit(None) == Ok(1000)
  {
  }
}

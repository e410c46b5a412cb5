/**
 * The request check and normalisation of `createTask`: four rules tried in
 * a fixed order, the first that fails deciding the 400 message, and on
 * success the draft record that is saved.
 */
module Validation {
  import opened Wrappers
  import opened Text
  import opened Tasks

  const TitleRequired := "Title is required and cannot be empty"
  const TitleTooLong := "Title cannot exceed 100 characters"
  const DescriptionTooLong := "Description cannot exceed 500 characters"
  const StatusNotAllowed := "Status must be one of: pending, in-progress, done"

  const MaxTitleLength := 100
  const MaxDescriptionLength := 500

  /** The request body of a create; `None` is a field that is missing or `null`. */
  datatype CreateBody = CreateBody(title: Option<string>, description: Option<string>, status: Option<string>)

  /** JavaScript truthiness of an optional string: present and not empty. */
  predicate Truthy(s: Option<string>) {
    s.Some? && s.value != ""
  }

  /** The first rule: the title is missing, empty or only whitespace. */
  predicate TitleBlank(title: Option<string>) {
    !Truthy(title) || Trim(title.value) == ""
  }

  /** A draft as `createTask` builds it from a body that passed every rule. */
  predicate WellFormedDraft(d: Draft) {
    && d.title != [] && Trimmed(d.title) && Utf16Length(d.title) <= MaxTitleLength
    && (d.description.Some? ==> Trimmed(d.description.value) && Utf16Length(d.description.value) <= MaxDescriptionLength)
  }

  /**
   * The message of `createTask`'s 400 answer, from the first check the body
   * fails: a blank title, an over-long untrimmed title, an over-long
   * description, a status outside the allowed three; `None` when it passes all.
   */
  function CreateError(b: CreateBody): Option<string> {
    if TitleBlank(b.title) then Some(TitleRequired)
    else if Utf16Length(b.title.value) > MaxTitleLength then Some(TitleTooLong)
    else if Truthy(b.description) && Utf16Length(b.description.value) > MaxDescriptionLength then Some(DescriptionTooLong)
    else if Truthy(b.status) && ParseStatus(b.status.value).None? then Some(StatusNotAllowed)
    else None
  }

  /**
   * The record `createTask` saves for a body that passed every check: the
   * trimmed title, the trimmed description if a non-empty one was given,
   * and the given status or "pending".
   */
  function Normalise(b: CreateBody): (d: Draft)
    requires CreateError(b).None?
    ensures WellFormedDraft(d)
    ensures b.title.Some? && d.title == Trim(b.title.value)
  {
    Draft(
      Trim(b.title.value),
      if Truthy(b.description) then Some(Trim(b.description.value)) else None,
      if Truthy(b.status) then ParseStatus(b.status.value).value else Pending)
  }

  /** `createTask` up to the save: a 400 message, or the draft to store. */
  function ValidateCreate(b: CreateBody): (r: Result<Draft, string>)
    ensures r.Failure? <==> CreateError(b).Some?
    ensures r.Success? ==> WellFormedDraft(r.value)
  {
    match CreateError(b)
    case Some(message) => Failure(message)
    case None => Success(Normalise(b))
  }

  /** A rule of the create check: whether the body breaks it, and the message it answers with. */
  datatype Rule = Rule(broken: bool, message: string)

  /** The create rules in the order `createTask` tries them, each judged on its own. */
  function Rules(b: CreateBody): seq<Rule> {
    [ Rule(TitleBlank(b.title), TitleRequired),
      Rule(Truthy(b.title) && Utf16Length(b.title.value) > MaxTitleLength, TitleTooLong),
      Rule(Truthy(b.description) && Utf16Length(b.description.value) > MaxDescriptionLength, DescriptionTooLong),
      Rule(Truthy(b.status) && ParseStatus(b.status.value).None?, StatusNotAllowed) ]
  }

  /** The message of the first broken rule, if any rule is broken. */
  function FirstBroken(rules: seq<Rule>): (r: Option<string>)
    ensures r.None? <==> forall i :: 0 <= i < |rules| ==> !rules[i].broken
    ensures r.Some? ==> exists i :: 0 <= i < |rules| && rules[i].broken && rules[i].message == r.value
                                    && forall j :: 0 <= j < i ==> !rules[j].broken
  {
    if rules == [] then None
    else if rules[0].broken then Some(rules[0].message)
    else
      var r := FirstBroken(rules[1..]);
      if r.Some? then
        var i :| 0 <= i < |rules| - 1 && rules[1..][i].broken && rules[1..][i].message == r.value
                  && forall j :: 0 <= j < i ==> !rules[1..][j].broken;
        assert rules[i + 1].broken && forall j :: 0 <= j < i + 1 ==> !rules[j].broken;
        r
      else r
  }

  /**
   * The chain of early returns is the first-broken-rule reading of the rule
   * table: a body is refused exactly when some rule is broken, and with the
   * message of the first one.
   */
  lemma ValidateIsFirstBroken(b: CreateBody)
    ensures ValidateCreate(b).Failure? <==> FirstBroken(Rules(b)).Some?
    ensures ValidateCreate(b).Failure? ==> ValidateCreate(b).error == FirstBroken(Rules(b)).value
  {
    var rules := Rules(b);
    var tail1, tail2, tail3 := rules[1..], rules[2..], rules[3..];
    assert tail3[1..] == [];
    assert tail2[1..] == tail3 && tail1[1..] == tail2;
    assert FirstBroken(tail3) == if tail3[0].broken then Some(StatusNotAllowed) else None;
    assert FirstBroken(tail2) == if tail2[0].broken then Some(DescriptionTooLong) else FirstBroken(tail3);
    assert FirstBroken(tail1) == if tail1[0].broken then Some(TitleTooLong) else FirstBroken(tail2);
    assert FirstBroken(rules) == if rules[0].broken then Some(TitleRequired) else FirstBroken(tail1);
  }

  /** A missing, empty or whitespace-only title is refused with the title-required message. */
  lemma BlankTitleRefused(b: CreateBody)
    requires b.title.None? || AllWhitespace(b.title.value)
    ensures ValidateCreate(b) == Failure(TitleRequired)
  {
  }

  /**
   * The second rule: a title that is not blank but longer than 100 code
   * units is refused as too long, whatever the description and status.
   */
  lemma LongTitleRefused(title: string, description: Option<string>, status: Option<string>)
    requires !TitleBlank(Some(title)) && Utf16Length(title) > MaxTitleLength
    ensures ValidateCreate(CreateBody(Some(title), description, status)) == Failure(TitleTooLong)
  {
  }

  /** "a" followed by `n` spaces trims to "a" and is `n + 1` code units long. */
  lemma PaddedLetter(n: nat)
    ensures Trim(['a'] + Repeat(' ', n)) == "a"
    ensures Utf16Length(['a'] + Repeat(' ', n)) == n + 1
  {
    var pad := Repeat(' ', n);
    assert ['a'] + pad == [] + "a" + pad;
    TrimOfPadded([], "a", pad);
    Utf16LengthOfBmp(pad);
    assert (['a'] + pad)[1..] == pad;
  }

  /**
   * The title limit applies to the untrimmed title: "a" followed by `n`
   * spaces trims to "a", yet for `n` of 100 or more it is refused as too long.
   */
  lemma TitleMeasuredBeforeTrim(n: nat)
    requires n >= MaxTitleLength
    ensures Trim(['a'] + Repeat(' ', n)) == "a"
    ensures ValidateCreate(CreateBody(Some(['a'] + Repeat(' ', n)), None, None)) == Failure(TitleTooLong)
  {
    PaddedLetter(n);
    LongTitleRefused(['a'] + Repeat(' ', n), None, None);
  }

  /** A title of `n` letters passes exactly when `n` is at most 100. */
  lemma TitleLimit(n: nat)
    requires n >= 1
    ensures ValidateCreate(CreateBody(Some(Repeat('a', n)), None, None)).Success? <==> n <= MaxTitleLength
  {
    var title := Repeat('a', n);
    assert !IsWhitespace(title[0]);
    Utf16LengthOfBmp(title);
  }

  /** With a valid title, a description of `n` letters passes exactly when `n` is at most 500; none at all passes. */
  lemma DescriptionLimit(n: nat)
    ensures ValidateCreate(CreateBody(Some("a"), Some(Repeat('d', n)), None)).Success? <==> n <= MaxDescriptionLength
    ensures ValidateCreate(CreateBody(Some("a"), None, None)).Success?
  {
    assert !IsWhitespace("a"[0]);
    assert Utf16Length("a") == 1;
    Utf16LengthOfBmp(Repeat('d', n));
  }

  /**
   * Once the title and description rules pass, a status is refused exactly
   * when it is given, not empty and not one of the three names; a missing
   * or empty status passes.
   */
  lemma StatusRule(b: CreateBody)
    requires !TitleBlank(b.title) && Utf16Length(b.title.value) <= MaxTitleLength
    requires !Truthy(b.description) || Utf16Length(b.description.value) <= MaxDescriptionLength
    ensures ValidateCreate(b) == Failure(StatusNotAllowed) <==> Truthy(b.status) && ParseStatus(b.status.value).None?
  {
  }

  /**
   * What a successful create stores: the status is the one given or
   * "pending" when none or an empty one is given, and the description is
   * kept, trimmed, exactly when a non-empty one is given.
   */
  lemma CreateNormalises(b: CreateBody)
    requires ValidateCreate(b).Success?
    ensures StatusName(ValidateCreate(b).value.status) == if Truthy(b.status) then b.status.value else "pending"
    ensures ValidateCreate(b).value.description.Some? <==> Truthy(b.description)
    ensures Truthy(b.description) ==> ValidateCreate(b).value.description.value == Trim(b.description.value)
  {
  }

  /** A body with only an already-trimmed title of at most 100 code units is stored as that title, no description, "pending". */
  lemma TitleOnlyAccepted(title: string)
    requires title != [] && Trimmed(title) && Utf16Length(title) <= MaxTitleLength
    ensures ValidateCreate(CreateBody(Some(title), None, None)) == Success(Draft(title, None, Pending))
  {
    assert [] + title + [] == title;
    TrimOfPadded([], title, []);
    var b := CreateBody(Some(title), None, None);
    assert !TitleBlank(b.title) && !Truthy(b.description) && !Truthy(b.status);
  }
}

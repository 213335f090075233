/**
 * CdnPrefixController's request checks for adding and updating a prefix,
 * and the not-found branch of fetching one. The prefix service behind the
 * controller is not part of this model: its answers are inputs.
 */
module PrefixWeb {
  import opened Base
  import opened JavaStrings
  import CdnPrefixEntity

  /** The request parameters; a parameter that was not sent is null. */
  datatype PrefixForm = PrefixForm(
    name: Option<string>,
    prefix: Option<string>,
    description: Option<string>,
    isDefault: Option<bool>,
    isActive: Option<bool>)

  /** Why a request is answered 400, in the order the checks run. */
  datatype Rejection = BlankName | BlankPrefix | BadScheme

  /** The arguments handed to the prefix service. */
  datatype PrefixArgs = PrefixArgs(name: string, prefix: string, description: string, isDefault: bool, isActive: bool)

  datatype Checked = Rejected(reason: Rejection) | Accepted(args: PrefixArgs)

  predicate HasScheme(prefix: string) {
    StartsWith(prefix, "http://") || StartsWith(prefix, "https://")
  }

  /**
   * The checks shared by `addCdnPrefix` and `updateCdnPrefix`: a null or
   * blank name, then a null or blank prefix, then a prefix that does not
   * start with a scheme (checked before trimming) is rejected. An accepted
   * request passes name and prefix trimmed, the description trimmed or ""
   * when null, and isDefault false and isActive true when not sent.
   */
  function CheckPrefixForm(form: PrefixForm): (c: Checked)
    ensures c == Rejected(BlankName) <==> form.name.None? || IsBlank(form.name.value)
    ensures c == Rejected(BlankPrefix) <==>
              form.name.Some? && !IsBlank(form.name.value) && (form.prefix.None? || IsBlank(form.prefix.value))
    ensures c == Rejected(BadScheme) <==>
              && form.name.Some? && !IsBlank(form.name.value) && form.prefix.Some? && !IsBlank(form.prefix.value)
              && !HasScheme(form.prefix.value)
    ensures c.Accepted? ==>
              && form.name.Some? && form.prefix.Some?
              && c.args.name == Trim(form.name.value) && c.args.prefix == Trim(form.prefix.value)
              && c.args.description == (if form.description.Some? then Trim(form.description.value) else "")
              && c.args.isDefault == (form.isDefault == Some(true))
              && c.args.isActive == (form.isActive != Some(false))
  {
    if form.name.None? || IsBlank(form.name.value) then Rejected(BlankName)
    else if form.prefix.None? || IsBlank(form.prefix.value) then Rejected(BlankPrefix)
    else if !HasScheme(form.prefix.value) then Rejected(BadScheme)
    else Accepted(PrefixArgs(
      Trim(form.name.value),
      Trim(form.prefix.value),
      if form.description.Some? then Trim(form.description.value) else "",
      if form.isDefault.Some? then form.isDefault.value else false,
      if form.isActive.Some? then form.isActive.value else true))
  }

  /**
   * The scheme is checked on the untrimmed prefix: " http://x" is rejected
   * although its trimmed form would pass.
   */
  lemma SchemeCheckedBeforeTrim()
    ensures CheckPrefixForm(PrefixForm(Some("cdn"), Some(" http://x"), None, None, None)) == Rejected(BadScheme)
    ensures HasScheme(Trim(" http://x"))
  {
    var p := " http://x";
    var q := "http://x";
    assert p[1..] == q;
    TrimStartOfKept(q);
    TrimEndOfKept(q);
    assert Trim(p) == q;
    TrimStartOfKept("cdn");
    TrimEndOfKept("cdn");
    assert StartsWith(q, "http://");
    assert p[0] == ' ';
  }

  /**
   * What an accepted request hands on: a non-blank, already trimmed name and
   * a trimmed prefix that still starts with the scheme it was accepted for.
   */
  lemma AcceptedArgsAreClean(form: PrefixForm)
    requires CheckPrefixForm(form).Accepted?
    ensures var args := CheckPrefixForm(form).args;
            && args.name != [] && Trim(args.name) == args.name
            && args.prefix != [] && Trim(args.prefix) == args.prefix
            && HasScheme(args.prefix)
  {
    TrimIdempotent(form.name.value);
    TrimIdempotent(form.prefix.value);
    var p := form.prefix.value;
    if StartsWith(p, "http://") {
      TrimKeepsKeptPrefix(p, "http://");
    } else {
      TrimKeepsKeptPrefix(p, "https://");
    }
  }

  /** The service's answer to an add: the created prefix, or an exception. */
  datatype AddAnswer = Added(prefix: CdnPrefixEntity.PrefixRecord) | AddThrew

  /**
   * `addCdnPrefix`: the status and the arguments the service was called
   * with; a rejected request never reaches the service.
   */
  function AddCdnPrefix(form: PrefixForm, answer: AddAnswer): (r: (Status, Option<PrefixArgs>))
    ensures r.1.None? <==> CheckPrefixForm(form).Rejected?
    ensures r.1.Some? ==> r.1 == Some(CheckPrefixForm(form).args)
    ensures r.0 == BadRequest400 <==> CheckPrefixForm(form).Rejected?
    ensures r.0 == InternalError500 <==> CheckPrefixForm(form).Accepted? && answer.AddThrew?
    ensures r.0 == Ok200 <==> CheckPrefixForm(form).Accepted? && answer.Added?
  {
    match CheckPrefixForm(form)
    case Rejected(_) => (BadRequest400, None)
    case Accepted(args) => (if answer.AddThrew? then InternalError500 else Ok200, Some(args))
  }

  /** The service's answer to an update: whether it succeeded, or an exception (None). */
  function UpdateCdnPrefix(id: int, form: PrefixForm, answer: Option<bool>): (r: (Status, bool, Option<(int, PrefixArgs)>))
    ensures r.2.None? <==> CheckPrefixForm(form).Rejected?
    ensures r.2.Some? ==> r.2 == Some((id, CheckPrefixForm(form).args))
    ensures r.0 == BadRequest400 <==> CheckPrefixForm(form).Rejected?
    ensures r.0 == InternalError500 <==> CheckPrefixForm(form).Accepted? && answer.None?
    ensures r.0 == Ok200 <==> CheckPrefixForm(form).Accepted? && answer.Some?
    ensures r.1 <==> CheckPrefixForm(form).Accepted? && answer == Some(true)
  {
    match CheckPrefixForm(form)
    case Rejected(_) => (BadRequest400, false, None)
    case Accepted(args) =>
      if answer.None? then (InternalError500, false, Some((id, args)))
      else (Ok200, answer.value, Some((id, args)))
  }

  /** `getCdnPrefix`: 200 with the prefix when the service found it, 404 exactly when it returned null. */
  function GetCdnPrefix(found: Option<CdnPrefixEntity.PrefixRecord>): (status: Status)
    ensures status == NotFound404 <==> found.None?
    ensures status == Ok200 <==> found.Some?
  {
    if found.Some? then Ok200 else NotFound404
  }
}

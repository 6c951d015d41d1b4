/**
 * The storage schema of a lead (`userSchema`): per-path setters, the
 * validators Mongoose runs on `save`, the `isActive` default and the
 * `full_name` virtual.
 *
 * The schema object is rendered as `PathOf`, a table from path to its
 * options, and Mongoose's treatment of those options as the functions
 * `Cast` (setters and defaults, run when the document is built) and
 * `Validate` (validators, run on the cast document).
 */
module UserSchema {
  import opened Wrappers
  import opened JsString
  import opened Patterns
  import opened LeadRecord

  datatype Pattern = EmailPattern | WebsitePattern

  predicate Matches(p: Pattern, s: string) {
    match p
    case EmailPattern => MatchesEmail(s)
    case WebsitePattern => MatchesWebsite(s)
  }

  /** The messages the schema attaches to its validators. */
  datatype Message =
    | FirstNameRequired | FirstNameTooLong | LastNameRequired | LastNameTooLong
    | EmailRequired | EmailInvalid | CompanyNameRequired | CompanyNameTooLong
    | CompanySizeRequired | CompanySizeTooLong | WebsiteInvalid
    | LeadSourceRequired | LeadSourceInvalid

  function Text(m: Message): string {
    match m
    case FirstNameRequired => "First name is required"
    case FirstNameTooLong => "First name cannot be more than 50 characters"
    case LastNameRequired => "Last name is required"
    case LastNameTooLong => "Last name cannot be more than 50 characters"
    case EmailRequired => "Email is required"
    case EmailInvalid => "Please enter a valid email"
    case CompanyNameRequired => "Company name is required"
    case CompanyNameTooLong => "Company name cannot be more than 100 characters"
    case CompanySizeRequired => "Company size is required"
    case CompanySizeTooLong => "Company size cannot be more than 50 characters"
    case WebsiteInvalid => "Please enter a valid website URL (must start with http:// or https://)"
    case LeadSourceRequired => "Lead source is required"
    case LeadSourceInvalid =>
      "Lead source must be one of: website, social_media, referral, advertisement, cold_call, email_campaign, event, other"
  }

  /** The validators a string path can declare besides `required`, with their messages. */
  datatype Validator =
    | MaxLength(max: nat, message: Message)
    | Match(pattern: Pattern, message: Message)
    | Enum(values: seq<string>, message: Message)

  /** The options of one string path. */
  datatype PathOptions = PathOptions(
    trim: bool,
    lowercase: bool,
    required: Option<Message>,
    validators: seq<Validator>)

  const LeadSources: seq<string> :=
    ["website", "social_media", "referral", "advertisement", "cold_call", "email_campaign", "event", "other"]

  /** The schema object, path by path. */
  function PathOf(f: Field): PathOptions {
    match f
    case FirstName => PathOptions(true, false, Some(FirstNameRequired), [MaxLength(50, FirstNameTooLong)])
    case LastName => PathOptions(true, false, Some(LastNameRequired), [MaxLength(50, LastNameTooLong)])
    case Email => PathOptions(false, true, Some(EmailRequired), [Match(EmailPattern, EmailInvalid)])
    case CompanyName => PathOptions(true, false, Some(CompanyNameRequired), [MaxLength(100, CompanyNameTooLong)])
    case CompanySize => PathOptions(true, false, Some(CompanySizeRequired), [MaxLength(50, CompanySizeTooLong)])
    case Website => PathOptions(true, false, None, [Match(WebsitePattern, WebsiteInvalid)])
    case LeadSource => PathOptions(false, false, Some(LeadSourceRequired), [Enum(LeadSources, LeadSourceInvalid)])
  }

  const IsActiveDefault: bool := true

  // ---------------------------------------------------------------------
  // Casting: setters and defaults

  /** The `trim` and `lowercase` setters of a path. */
  function ApplySetters(o: PathOptions, s: string): string {
    var t := if o.trim then Trim(s) else s;
    if o.lowercase then ToLowerCase(t) else t
  }

  /** Setters run on a value that is present; an absent value stays absent. */
  function CastPath(f: Field, v: Option<string>): Option<string> {
    match v
    case None => None
    case Some(s) => Some(ApplySetters(PathOf(f), s))
  }

  /** Building a document from a body: every path through its setters, `isActive` defaulted. */
  function Cast(l: Lead): Lead {
    Lead(CastPath(FirstName, l.first_name), CastPath(LastName, l.last_name),
         CastPath(Email, l.email), CastPath(CompanyName, l.company_name),
         CastPath(CompanySize, l.company_size), CastPath(Website, l.website),
         CastPath(LeadSource, l.lead_source),
         Some(l.isActive.GetOr(IsActiveDefault)))
  }

  /** Each path of the cast document is that path's value through its setters. */
  lemma CastGet(l: Lead, f: Field)
    ensures Cast(l).Get(f) == CastPath(f, l.Get(f))
  {
  }

  // ---------------------------------------------------------------------
  // Validation

  /** `required` on a string path: a string of positive length. */
  predicate CheckRequired(v: Option<string>) {
    v.Some? && |v.value| > 0
  }

  /**
   * One validator on a present value. `maxlength` compares the JavaScript
   * length; `match` lets the empty string through; `enum` needs an exact
   * member.
   */
  predicate Passes(val: Validator, s: string) {
    match val
    case MaxLength(n, _) => Utf16Length(s) <= n
    case Match(p, _) => s == "" || Matches(p, s)
    case Enum(values, _) => s in values
  }

  /** The message of the first validator that fails, in declaration order. */
  function FirstFailure(vs: seq<Validator>, s: string): (r: Option<Message>)
    ensures r.None? <==> forall i :: 0 <= i < |vs| ==> Passes(vs[i], s)
    ensures r.Some? ==> exists i :: 0 <= i < |vs| && !Passes(vs[i], s) && r.value == vs[i].message
                                     && forall j :: 0 <= j < i ==> Passes(vs[j], s)
  {
    if vs == [] then None
    else if !Passes(vs[0], s) then Some(vs[0].message)
    else
      var r := FirstFailure(vs[1..], s);
      assert forall i :: 1 <= i < |vs| ==> vs[i] == vs[1..][i - 1];
      r
  }

  /** With a single validator, the first failure is that validator's, if it fails. */
  lemma FirstFailureSingle(val: Validator, s: string)
    ensures FirstFailure([val], s) == if Passes(val, s) then None else Some(val.message)
  {
    assert [val][1..] == [];
  }

  /**
   * The error of one path: `required` runs first; an undefined value skips
   * every other validator; otherwise the first failing validator reports.
   */
  function PathError(o: PathOptions, v: Option<string>): Option<Message> {
    if o.required.Some? && !CheckRequired(v) then Some(o.required.value)
    else if v.None? then None
    else FirstFailure(o.validators, v.value)
  }

  /** `validate()` on a cast document: the message of every failing path, by path. */
  function Validate(d: Lead): map<Field, Message> {
    map f | f in AllFields && PathError(PathOf(f), d.Get(f)).Some? :: PathError(PathOf(f), d.Get(f)).value
  }

  /** `new User(body).save()` before it reaches the database. */
  function Save(l: Lead): Result<Lead, map<Field, Message>> {
    var d := Cast(l);
    var errors := Validate(d);
    if errors == map[] then Ok(d) else Err(errors)
  }

  /** The failing paths of a body, with their messages. */
  function SchemaErrors(l: Lead): map<Field, Message> {
    Validate(Cast(l))
  }

  function ErrorOf(errors: map<Field, Message>, f: Field): Option<Message> {
    if f in errors then Some(errors[f]) else None
  }

  // ---------------------------------------------------------------------
  // The full_name virtual

  /** A template literal renders an undefined value as "undefined". */
  function Interpolate(v: Option<string>): string {
    match v
    case Some(s) => s
    case None => "undefined"
  }

  /** `${this.first_name} ${this.last_name}`, computed on read and never stored. */
  function FullName(d: Lead): string {
    Interpolate(d.first_name) + " " + Interpolate(d.last_name)
  }

  // ---------------------------------------------------------------------
  // What each path accepts

  lemma ErrorOfSchema(l: Lead, f: Field)
    ensures ErrorOf(SchemaErrors(l), f) == PathError(PathOf(f), CastPath(f, l.Get(f)))
  {
    CastGet(l, f);
  }

  /** `ErrorOfSchema` for one path, with the schema's map kept out of the caller's proof. */
  lemma PathErrorOfSchema(l: Lead, f: Field, v: Option<string>)
    requires v == l.Get(f)
    ensures ErrorOf(SchemaErrors(l), f) == PathError(PathOf(f), CastPath(f, v))
  {
    var e := PathError(PathOf(f), CastPath(f, v));
    assert ErrorOf(SchemaErrors(l), f) == e by {
      ErrorOfSchema(l, f);
    }
  }

  /** The rule shared by the trimmed, required, length-limited paths, on the value of the path. */
  lemma TrimmedTextPath(f: Field, v: Option<string>, limit: nat, required: Message, tooLong: Message)
    requires PathOf(f) == PathOptions(true, false, Some(required), [MaxLength(limit, tooLong)])
    ensures PathError(PathOf(f), CastPath(f, v)) ==
      if Trimmed(v) == "" then Some(required)
      else if Utf16Length(Trimmed(v)) > limit then Some(tooLong)
      else None
  {
    assert Trim("") == "";
    assert CastPath(f, v) == if v.Some? then Some(Trim(v.value)) else None;
    if v.Some? {
      FirstFailureSingle(MaxLength(limit, tooLong), Trim(v.value));
    }
  }

  /** The rule shared by the trimmed, required, length-limited paths. */
  lemma TrimmedTextRule(l: Lead, f: Field, limit: nat, required: Message, tooLong: Message)
    requires PathOf(f) == PathOptions(true, false, Some(required), [MaxLength(limit, tooLong)])
    ensures ErrorOf(SchemaErrors(l), f) ==
      if Trimmed(l.Get(f)) == "" then Some(required)
      else if Utf16Length(Trimmed(l.Get(f))) > limit then Some(tooLong)
      else None
  {
    PathErrorOfSchema(l, f, l.Get(f));
    TrimmedTextPath(f, l.Get(f), limit, required, tooLong);
  }

  /** `first_name`: required after trimming (so all-white-space fails), then at most 50 units. */
  lemma FirstNameRule(l: Lead)
    ensures ErrorOf(SchemaErrors(l), FirstName) ==
      if Trimmed(l.first_name) == "" then Some(FirstNameRequired)
      else if Utf16Length(Trimmed(l.first_name)) > 50 then Some(FirstNameTooLong)
      else None
  {
    TrimmedTextRule(l, FirstName, 50, FirstNameRequired, FirstNameTooLong);
  }

  /** `last_name`: required after trimming, then at most 50 units. */
  lemma LastNameRule(l: Lead)
    ensures ErrorOf(SchemaErrors(l), LastName) ==
      if Trimmed(l.last_name) == "" then Some(LastNameRequired)
      else if Utf16Length(Trimmed(l.last_name)) > 50 then Some(LastNameTooLong)
      else None
  {
    TrimmedTextRule(l, LastName, 50, LastNameRequired, LastNameTooLong);
  }

  /** `company_name`: required after trimming, then at most 100 units. */
  lemma CompanyNameRule(l: Lead)
    ensures ErrorOf(SchemaErrors(l), CompanyName) ==
      if Trimmed(l.company_name) == "" then Some(CompanyNameRequired)
      else if Utf16Length(Trimmed(l.company_name)) > 100 then Some(CompanyNameTooLong)
      else None
  {
    TrimmedTextRule(l, CompanyName, 100, CompanyNameRequired, CompanyNameTooLong);
  }

  /** `company_size`: required after trimming and at most 50 units; no list of sizes here. */
  lemma CompanySizeRule(l: Lead)
    ensures ErrorOf(SchemaErrors(l), CompanySize) ==
      if Trimmed(l.company_size) == "" then Some(CompanySizeRequired)
      else if Utf16Length(Trimmed(l.company_size)) > 50 then Some(CompanySizeTooLong)
      else None
  {
    TrimmedTextRule(l, CompanySize, 50, CompanySizeRequired, CompanySizeTooLong);
  }

  lemma EmailPath(v: Option<string>)
    ensures PathError(PathOf(Email), CastPath(Email, v)) ==
      if v.None? || v.value == "" then Some(EmailRequired)
      else if !MatchesEmail(ToLowerCase(v.value)) then Some(EmailInvalid)
      else None
  {
    if v.Some? && v.value != "" {
      FirstFailureSingle(Match(EmailPattern, EmailInvalid), ToLowerCase(v.value));
    }
  }

  /** `email`: required, then the lowercased (untrimmed) value must match the email pattern. */
  lemma EmailRule(l: Lead)
    ensures ErrorOf(SchemaErrors(l), Email) ==
      if l.email.None? || l.email.value == "" then Some(EmailRequired)
      else if !MatchesEmail(ToLowerCase(l.email.value)) then Some(EmailInvalid)
      else None
  {
    PathErrorOfSchema(l, Email, l.email);
    EmailPath(l.email);
  }

  lemma WebsitePath(v: Option<string>)
    ensures PathError(PathOf(Website), CastPath(Website, v)) ==
      if v.Some? && Trim(v.value) != "" && !MatchesWebsite(Trim(v.value))
      then Some(WebsiteInvalid)
      else None
  {
    if v.Some? {
      FirstFailureSingle(Match(WebsitePattern, WebsiteInvalid), Trim(v.value));
    }
  }

  /**
   * `website`: optional. A present value is trimmed and must then match
   * `^https?:\/\/.+`, except that `match` lets an empty result through.
   */
  lemma WebsiteRule(l: Lead)
    ensures ErrorOf(SchemaErrors(l), Website) ==
      if l.website.Some? && Trim(l.website.value) != "" && !MatchesWebsite(Trim(l.website.value))
      then Some(WebsiteInvalid)
      else None
  {
    PathErrorOfSchema(l, Website, l.website);
    WebsitePath(l.website);
  }

  lemma LeadSourcePath(v: Option<string>)
    ensures PathError(PathOf(LeadSource), CastPath(LeadSource, v)) ==
      if v.None? || v.value == "" then Some(LeadSourceRequired)
      else if v.value !in LeadSources then Some(LeadSourceInvalid)
      else None
  {
    if v.Some? && v.value != "" {
      FirstFailureSingle(Enum(LeadSources, LeadSourceInvalid), v.value);
    }
  }

  lemma LeadSourcesAre()
    ensures forall x :: x in LeadSources <==>
      x in {"website", "social_media", "referral", "advertisement", "cold_call", "email_campaign", "event", "other"}
  {
  }

  /** `lead_source`: required, untrimmed, and one of the eight sources verbatim. */
  lemma LeadSourceRule(l: Lead)
    ensures ErrorOf(SchemaErrors(l), LeadSource) ==
      if l.lead_source.None? || l.lead_source.value == "" then Some(LeadSourceRequired)
      else if l.lead_source.value !in {"website", "social_media", "referral", "advertisement",
                                       "cold_call", "email_campaign", "event", "other"}
      then Some(LeadSourceInvalid)
      else None
    ensures ErrorOf(SchemaErrors(l), LeadSource) == None <==>
      l.lead_source.Some? && l.lead_source.value in {"website", "social_media", "referral", "advertisement",
                                                     "cold_call", "email_campaign", "event", "other"}
  {
    PathErrorOfSchema(l, LeadSource, l.lead_source);
    LeadSourcePath(l.lead_source);
    LeadSourcesAre();
    assert "" !in LeadSources;
  }

  // ---------------------------------------------------------------------
  // Normalisation and defaults

  /** The stored email is the lowercased input; names, size and website are stored trimmed. */
  lemma CastNormalises(l: Lead)
    ensures Cast(l).email == (if l.email.Some? then Some(ToLowerCase(l.email.value)) else None)
    ensures Cast(l).first_name == (if l.first_name.Some? then Some(Trim(l.first_name.value)) else None)
    ensures Cast(l).last_name == (if l.last_name.Some? then Some(Trim(l.last_name.value)) else None)
    ensures Cast(l).company_name == (if l.company_name.Some? then Some(Trim(l.company_name.value)) else None)
    ensures Cast(l).company_size == (if l.company_size.Some? then Some(Trim(l.company_size.value)) else None)
    ensures Cast(l).website == (if l.website.Some? then Some(Trim(l.website.value)) else None)
    ensures Cast(l).lead_source == l.lead_source
  {
  }

  /** Running a path's setters twice is running them once (no path both trims and lowercases). */
  lemma CastPathIdempotent(f: Field, v: Option<string>)
    ensures CastPath(f, CastPath(f, v)) == CastPath(f, v)
  {
    if v.Some? {
      TrimIdempotent(v.value);
      ToLowerCaseIdempotent(v.value);
    }
  }

  /** Casting a cast document changes nothing: trimming and lowercasing are idempotent. */
  lemma CastIdempotent(l: Lead)
    ensures Cast(Cast(l)) == Cast(l)
  {
    var d := Cast(l);
    forall f ensures Cast(d).Get(f) == d.Get(f) {
      CastGet(l, f);
      CastGet(d, f);
      CastPathIdempotent(f, l.Get(f));
    }
    LeadExt(Cast(d), d);
  }

  /** `isActive` is true when the body leaves it out, and kept as given otherwise. */
  lemma IsActiveDefaultsToTrue(l: Lead)
    ensures l.isActive.None? ==> Cast(l).isActive == Some(true)
    ensures l.isActive.Some? ==> Cast(l).isActive == l.isActive
    ensures Save(l).Ok? ==> Save(l).value.isActive.Some?
  {
  }

  /**
   * On every required path an absent value and an empty string fail alike,
   * so a body that leaves a required path out is rejected as one that sends "".
   */
  lemma AbsentLikeEmpty(l: Lead, f: Field)
    requires f != Website
    ensures SchemaErrors(l.Set(f, None)) == SchemaErrors(l.Set(f, Some("")))
  {
    var a, b := l.Set(f, None), l.Set(f, Some(""));
    assert Trim("") == "" && |ToLowerCase("")| == 0;
    forall g ensures ErrorOf(SchemaErrors(a), g) == ErrorOf(SchemaErrors(b), g) {
      ErrorOfSchema(a, g);
      ErrorOfSchema(b, g);
    }
    assert forall g :: g in SchemaErrors(a) <==> g in SchemaErrors(b) by {
      forall g ensures g in SchemaErrors(a) <==> g in SchemaErrors(b) {
        assert ErrorOf(SchemaErrors(a), g) == ErrorOf(SchemaErrors(b), g);
      }
    }
    forall g | g in SchemaErrors(a) ensures SchemaErrors(a)[g] == SchemaErrors(b)[g] {
      assert ErrorOf(SchemaErrors(a), g) == ErrorOf(SchemaErrors(b), g);
    }
  }

  // ---------------------------------------------------------------------
  // Accepting a record

  /** The schema's rule for one path, stated on the body as sent. */
  predicate FieldValid(l: Lead, f: Field) {
    match f
    case FirstName => Trimmed(l.first_name) != "" && Utf16Length(Trimmed(l.first_name)) <= 50
    case LastName => Trimmed(l.last_name) != "" && Utf16Length(Trimmed(l.last_name)) <= 50
    case Email => l.email.Some? && l.email.value != "" && MatchesEmail(ToLowerCase(l.email.value))
    case CompanyName => Trimmed(l.company_name) != "" && Utf16Length(Trimmed(l.company_name)) <= 100
    case CompanySize => Trimmed(l.company_size) != "" && Utf16Length(Trimmed(l.company_size)) <= 50
    case Website => l.website.None? || Trim(l.website.value) == "" || MatchesWebsite(Trim(l.website.value))
    case LeadSource => l.lead_source.Some? && l.lead_source.value in LeadSources
  }

  predicate SchemaValid(l: Lead) {
    forall f :: FieldValid(l, f)
  }

  /** A path reports no error exactly when its rule holds. */
  lemma FieldValidIff(l: Lead, f: Field)
    ensures ErrorOf(SchemaErrors(l), f).None? <==> FieldValid(l, f)
  {
    match f
    case FirstName => FirstNameRule(l);
    case LastName => LastNameRule(l);
    case Email => EmailRule(l);
    case CompanyName => CompanyNameRule(l);
    case CompanySize => CompanySizeRule(l);
    case Website => WebsiteRule(l);
    case LeadSource => LeadSourceRule(l);
  }

  /**
   * `save` accepts a body exactly when every path's rule holds, and then
   * yields the cast document; otherwise it reports every failing path.
   */
  lemma SaveIff(l: Lead)
    ensures Save(l).Ok? <==> SchemaValid(l)
    ensures Save(l).Ok? ==> Save(l).value == Cast(l)
    ensures Save(l).Err? ==> Save(l).error == SchemaErrors(l) && |Save(l).error| > 0
  {
    var e := SchemaErrors(l);
    forall f ensures ErrorOf(e, f).None? <==> FieldValid(l, f) {
      FieldValidIff(l, f);
    }
    if e != map[] {
      var f :| f in e;
      assert !FieldValid(l, f);
      assert |e| > 0;
    } else {
      assert forall f :: ErrorOf(e, f).None?;
    }
  }

  /** A saved lead's `full_name` is its trimmed first name, a space and its trimmed last name. */
  lemma FullNameOfSaved(l: Lead)
    requires Save(l).Ok?
    ensures l.first_name.Some? && l.last_name.Some?
    ensures FullName(Save(l).value) == Trim(l.first_name.value) + " " + Trim(l.last_name.value)
  {
    SaveIff(l);
    assert FieldValid(l, FirstName) && FieldValid(l, LastName);
    assert Trim("") == "";
  }

  // ---------------------------------------------------------------------
  // A worked example

  lemma ExampleEmailLowered()
    ensures ToLowerCase("ANN@Example.com") == "ann@example.com"
  {
    var r := ToLowerCase("ANN@Example.com");
    assert |r| == 15;
    forall i | 0 <= i < 15 ensures r[i] == "ann@example.com"[i] {
      assert r[i] == LowerChar("ANN@Example.com"[i]);
    }
  }

  lemma ExampleEmailMatches()
    ensures MatchesEmail("ann@example.com")
  {
    var s := "ann@example.com";
    var a, d := s[..3], s[4..];
    assert a == "ann" && d == "example.com";
    forall i | 0 <= i < |a| ensures IsWordChar(a[i]) {
      assert a[i] == 'a' || a[i] == 'n';
    }
    assert IsName(a);
    forall i | 0 <= i < |d| ensures IsWordChar(d[i]) || IsSep(d[i]) {
      assert i == 7 ==> d[i] == '.';
      assert i != 7 ==> 'a' <= d[i] <= 'z';
    }
    forall i | 0 <= i < |d| - 1 ensures IsWordChar(d[i]) || IsWordChar(d[i + 1]) {
      assert i != 7 ==> 'a' <= d[i] <= 'z';
      assert i == 7 ==> 'a' <= d[i + 1] <= 'z';
    }
    assert IsName(d);
    forall m | 7 < m < |d| ensures IsWordChar(d[m]) {
      assert 'a' <= d[m] <= 'z';
    }
    assert EndsWithTld(d, 7);
    assert IsDomain(d);
    assert s[3] == '@';
  }

  /** A short value with no white space at either end is kept as it is and is within 50 units. */
  lemma ShortTrimmed(v: Option<string>, s: string)
    requires v == Some(s) && |s| <= 25 && s != "" && IsTrimmed(s)
    ensures Trimmed(v) == s && Trimmed(v) != "" && Utf16Length(Trimmed(v)) <= 50
  {
    TrimmedIsFixed(s);
  }

  const ExampleBody: Lead :=
    Lead(Some("Ann"), Some("Lee"), Some("ANN@Example.com"), Some("Acme"), Some("1-10"), None, Some("website"), None)

  lemma ExampleFirstNameValid()
    ensures FieldValid(ExampleBody, FirstName)
  {
    assert IsTrimmed("Ann") by { assert "Ann"[0] == 'A' && "Ann"[2] == 'n'; }
    ShortTrimmed(ExampleBody.first_name, "Ann");
  }

  lemma ExampleLastNameValid()
    ensures FieldValid(ExampleBody, LastName)
  {
    assert IsTrimmed("Lee") by { assert "Lee"[0] == 'L' && "Lee"[2] == 'e'; }
    ShortTrimmed(ExampleBody.last_name, "Lee");
  }

  lemma ExampleCompanyNameValid()
    ensures FieldValid(ExampleBody, CompanyName)
  {
    assert IsTrimmed("Acme") by { assert "Acme"[0] == 'A' && "Acme"[3] == 'e'; }
    ShortTrimmed(ExampleBody.company_name, "Acme");
  }

  lemma ExampleCompanySizeValid()
    ensures FieldValid(ExampleBody, CompanySize)
  {
    assert IsTrimmed("1-10") by { assert "1-10"[0] == '1' && "1-10"[3] == '0'; }
    ShortTrimmed(ExampleBody.company_size, "1-10");
  }

  lemma ExampleEmailValid()
    ensures FieldValid(ExampleBody, Email)
  {
    ExampleEmailLowered();
    ExampleEmailMatches();
  }

  lemma ExampleOthersValid()
    ensures FieldValid(ExampleBody, Website) && FieldValid(ExampleBody, LeadSource)
  {
    assert LeadSources[0] == "website";
  }

  lemma ExampleValid()
    ensures SchemaValid(ExampleBody)
  {
    ExampleFirstNameValid();
    ExampleLastNameValid();
    ExampleCompanyNameValid();
    ExampleCompanySizeValid();
    ExampleEmailValid();
    ExampleOthersValid();
    forall f ensures FieldValid(ExampleBody, f) {
      match f
      case FirstName =>
      case LastName =>
      case Email =>
      case CompanyName =>
      case CompanySize =>
      case Website =>
      case LeadSource =>
    }
  }

  /**
   * A create body with an upper-case email is saved with the email
   * lowercased, `isActive` defaulted and `full_name` "Ann Lee".
   */
  lemma ExampleSave()
    ensures Save(ExampleBody).Ok?
    ensures Save(ExampleBody).value.email == Some("ann@example.com")
    ensures Save(ExampleBody).value.isActive == Some(true)
    ensures FullName(Save(ExampleBody).value) == "Ann Lee"
  {
    ExampleValid();
    SaveIff(ExampleBody);
    ExampleEmailLowered();
    FullNameOfSaved(ExampleBody);
    TrimmedIsFixed("Ann");
    TrimmedIsFixed("Lee");
  }
}

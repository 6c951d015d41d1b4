/**
 * The request rules of the lead routes (`userValidation`): an ordered list
 * of per-field chains, each a sequence of sanitizers and validators with
 * the message that `withMessage` attaches to the validator before it.
 * Every chain runs; every failing validator adds a `(field, message)`
 * error; nothing stops at the first failure.
 *
 * The express-validator predicates `isEmail` and `isURL` and the sanitizer
 * `normalizeEmail` are not part of this repository: they enter as the
 * function values of a `Library`, about which nothing is assumed.
 */
module UserRoutes {
  import opened Wrappers
  import JsString
  import opened LeadRecord

  /** The library code the rules call but this repository does not contain. */
  datatype Library = Library(
    isEmail: string -> bool,
    /** `isURL` with the option `protocols: ['http', 'https']` */
    isURL: string -> bool,
    normalizeEmail: string -> string)

  /** The messages given by `withMessage`. */
  datatype Message =
    | FirstNameRequired | FirstNameTooLong | LastNameRequired | LastNameTooLong
    | EmailInvalid | CompanyNameRequired | CompanyNameTooLong
    | CompanySizeInvalid | WebsiteInvalid | LeadSourceInvalid

  function Text(m: Message): string {
    match m
    case FirstNameRequired => "First name is required"
    case FirstNameTooLong => "First name cannot be more than 50 characters"
    case LastNameRequired => "Last name is required"
    case LastNameTooLong => "Last name cannot be more than 50 characters"
    case EmailInvalid => "Please enter a valid email"
    case CompanyNameRequired => "Company name is required"
    case CompanyNameTooLong => "Company name cannot be more than 100 characters"
    case CompanySizeInvalid => "Company size must be one of: 1-10, 11-50, 51-200, 201-500, 501-1000, 1000+"
    case WebsiteInvalid => "Please enter a valid website URL"
    case LeadSourceInvalid =>
      "Lead source must be one of: website, social_media, referral, advertisement, cold_call, email_campaign, event, other"
  }

  /** One link of a chain: a sanitizer (`Trim`, `NormalizeEmail`) or a validator with its message. */
  datatype Step =
    | Trim
    | NormalizeEmail
    | NotEmpty(message: Message)
    | IsLength(max: nat, message: Message)
    | IsEmail(message: Message)
    | IsIn(values: seq<string>, message: Message)
    | IsURL(message: Message)
  {
    predicate IsValidator() {
      !Trim? && !NormalizeEmail?
    }
  }

  /** `body(field)` followed by its steps; `optional` skips the chain when the field is absent. */
  datatype Chain = Chain(field: Field, optional: bool, steps: seq<Step>)

  datatype FieldError = FieldError(field: Field, message: Message)

  /** What running chains yields: the errors in order and the sanitized body. */
  datatype Checked = Checked(errors: seq<FieldError>, body: Lead)

  const CompanySizes: seq<string> := ["1-10", "11-50", "51-200", "201-500", "501-1000", "1000+"]

  const LeadSources: seq<string> :=
    ["website", "social_media", "referral", "advertisement", "cold_call", "email_campaign", "event", "other"]

  /** The rule list, in declaration order. */
  const UserValidation: seq<Chain> := [
    Chain(FirstName, false, [Trim, NotEmpty(FirstNameRequired), IsLength(50, FirstNameTooLong)]),
    Chain(LastName, false, [Trim, NotEmpty(LastNameRequired), IsLength(50, LastNameTooLong)]),
    Chain(Email, false, [IsEmail(EmailInvalid), NormalizeEmail]),
    Chain(CompanyName, false, [Trim, NotEmpty(CompanyNameRequired), IsLength(100, CompanyNameTooLong)]),
    Chain(CompanySize, false, [IsIn(CompanySizes, CompanySizeInvalid)]),
    Chain(Website, true, [IsURL(WebsiteInvalid)]),
    Chain(LeadSource, false, [IsIn(LeadSources, LeadSourceInvalid)])
  ]

  // ---------------------------------------------------------------------
  // Running the chains

  /**
   * A validator on the current value. `isLength` counts code points (a
   * surrogate pair is one character to it); `isIn` needs an exact member.
   */
  predicate Holds(lib: Library, st: Step, s: string)
    requires st.IsValidator()
  {
    match st
    case NotEmpty(_) => |s| > 0
    case IsLength(n, _) => |s| <= n
    case IsEmail(_) => lib.isEmail(s)
    case IsIn(values, _) => s in values
    case IsURL(_) => lib.isURL(s)
  }

  /** A sanitizer rewrites the value; a validator leaves it as it is. */
  function Sanitize(lib: Library, st: Step, s: string): string {
    match st
    case Trim => JsString.Trim(s)
    case NormalizeEmail => lib.normalizeEmail(s)
    case _ => s
  }

  /** The steps of one chain on a value, in order. */
  function RunSteps(lib: Library, f: Field, steps: seq<Step>, s: string): (seq<FieldError>, string)
  {
    if steps == [] then ([], s)
    else
      var st := steps[0];
      var e := if st.IsValidator() && !Holds(lib, st, s) then [FieldError(f, st.message)] else [];
      var rest := RunSteps(lib, f, steps[1..], Sanitize(lib, st, s));
      (e + rest.0, rest.1)
  }

  /**
   * One chain on a body. A missing field is read as the empty string; the
   * sanitized value is written back only to a field that is present.
   */
  function RunChain(lib: Library, c: Chain, body: Lead): Checked {
    var v := body.Get(c.field);
    if c.optional && v.None? then Checked([], body)
    else
      var (errors, value) := RunSteps(lib, c.field, c.steps, v.GetOr(""));
      Checked(errors, body.Set(c.field, if v.Some? then Some(value) else None))
  }

  /** The chains one after another; each sees the body the previous ones left. */
  function RunChains(lib: Library, chains: seq<Chain>, body: Lead): Checked
  {
    if chains == [] then Checked([], body)
    else
      var first := RunChain(lib, chains[0], body);
      var rest := RunChains(lib, chains[1..], first.body);
      Checked(first.errors + rest.errors, rest.body)
  }

  /** The rule list on a request body. */
  function Validation(lib: Library, body: Lead): Checked {
    RunChains(lib, UserValidation, body)
  }

  // ---------------------------------------------------------------------
  // What each chain does, stated per field

  /** Every error in `errors` is about field `g`. */
  ghost predicate AllAbout(errors: seq<FieldError>, g: Field) {
    forall i :: 0 <= i < |errors| ==> errors[i].field == g
  }

  /** The errors each field's chain reports, as the rules read. */
  function FieldErrors(lib: Library, p: Lead, f: Field): (r: seq<FieldError>)
    ensures |r| <= 1 && AllAbout(r, f)
  {
    match f
    case FirstName =>
      if JsString.Trimmed(p.first_name) == "" then [FieldError(FirstName, FirstNameRequired)]
      else if |JsString.Trimmed(p.first_name)| > 50 then [FieldError(FirstName, FirstNameTooLong)]
      else []
    case LastName =>
      if JsString.Trimmed(p.last_name) == "" then [FieldError(LastName, LastNameRequired)]
      else if |JsString.Trimmed(p.last_name)| > 50 then [FieldError(LastName, LastNameTooLong)]
      else []
    case Email =>
      if lib.isEmail(p.email.GetOr("")) then [] else [FieldError(Email, EmailInvalid)]
    case CompanyName =>
      if JsString.Trimmed(p.company_name) == "" then [FieldError(CompanyName, CompanyNameRequired)]
      else if |JsString.Trimmed(p.company_name)| > 100 then [FieldError(CompanyName, CompanyNameTooLong)]
      else []
    case CompanySize =>
      if p.company_size.GetOr("") in CompanySizes then [] else [FieldError(CompanySize, CompanySizeInvalid)]
    case Website =>
      if p.website.None? || lib.isURL(p.website.value) then [] else [FieldError(Website, WebsiteInvalid)]
    case LeadSource =>
      if p.lead_source.GetOr("") in LeadSources then [] else [FieldError(LeadSource, LeadSourceInvalid)]
  }

  /** The body the rules hand on: names trimmed, email normalised, where present. */
  function SanitizedBody(lib: Library, p: Lead): Lead {
    p.(first_name := p.first_name.Map(JsString.Trim),
       last_name := p.last_name.Map(JsString.Trim),
       email := p.email.Map(lib.normalizeEmail),
       company_name := p.company_name.Map(JsString.Trim))
  }

  /** Running a validator step: its error, if any, comes before the rest's. */
  lemma ValidatorStep(lib: Library, f: Field, st: Step, rest: seq<Step>, s: string)
    requires st.IsValidator()
    ensures RunSteps(lib, f, [st] + rest, s) ==
      ((if Holds(lib, st, s) then [] else [FieldError(f, st.message)]) + RunSteps(lib, f, rest, s).0,
       RunSteps(lib, f, rest, s).1)
  {
    assert ([st] + rest)[1..] == rest;
  }

  lemma LengthStep(lib: Library, f: Field, limit: nat, tooLong: Message, t: string)
    ensures RunSteps(lib, f, [IsLength(limit, tooLong)], t) ==
      (if |t| > limit then [FieldError(f, tooLong)] else [], t)
  {
    var none: seq<Step> := [];
    ValidatorStep(lib, f, IsLength(limit, tooLong), none, t);
    assert [IsLength(limit, tooLong)] + none == [IsLength(limit, tooLong)];
    var e := if |t| > limit then [FieldError(f, tooLong)] else [];
    assert e + [] == e;
  }

  lemma CheckSteps(lib: Library, f: Field, limit: nat, required: Message, tooLong: Message, t: string)
    ensures RunSteps(lib, f, [NotEmpty(required), IsLength(limit, tooLong)], t) ==
      (if t == "" then [FieldError(f, required)] else if |t| > limit then [FieldError(f, tooLong)] else [], t)
  {
    LengthStep(lib, f, limit, tooLong, t);
    ValidatorStep(lib, f, NotEmpty(required), [IsLength(limit, tooLong)], t);
    assert [NotEmpty(required)] + [IsLength(limit, tooLong)] == [NotEmpty(required), IsLength(limit, tooLong)];
    var e := if |t| > limit then [FieldError(f, tooLong)] else [];
    if t == "" {
      assert |t| <= limit;
      assert e == [];
      assert [FieldError(f, required)] + e == [FieldError(f, required)];
    } else {
      assert [] + e == e;
    }
  }

  lemma TrimSteps(lib: Library, f: Field, limit: nat, required: Message, tooLong: Message, s: string)
    ensures var t := JsString.Trim(s);
      RunSteps(lib, f, [Trim, NotEmpty(required), IsLength(limit, tooLong)], s) ==
      (if t == "" then [FieldError(f, required)] else if |t| > limit then [FieldError(f, tooLong)] else [], t)
  {
    var steps := [Trim, NotEmpty(required), IsLength(limit, tooLong)];
    var t := JsString.Trim(s);
    assert steps[1..] == [NotEmpty(required), IsLength(limit, tooLong)];
    CheckSteps(lib, f, limit, required, tooLong, t);
    var r := RunSteps(lib, f, steps[1..], t);
    assert RunSteps(lib, f, steps, s) == ([] + r.0, r.1);
    assert [] + r.0 == r.0;
  }


  lemma TrimChain(lib: Library, f: Field, limit: nat, required: Message, tooLong: Message, b: Lead)
    ensures var t := JsString.Trimmed(b.Get(f));
      RunChain(lib, Chain(f, false, [Trim, NotEmpty(required), IsLength(limit, tooLong)]), b) ==
      Checked(if t == "" then [FieldError(f, required)] else if |t| > limit then [FieldError(f, tooLong)] else [],
              b.Set(f, b.Get(f).Map(JsString.Trim)))
  {
    TrimSteps(lib, f, limit, required, tooLong, b.Get(f).GetOr(""));
  }

  lemma EmailChain(lib: Library, b: Lead)
    ensures RunChain(lib, UserValidation[2], b) ==
      Checked(FieldErrors(lib, b, Email), b.(email := b.email.Map(lib.normalizeEmail)))
  {
    var steps := [IsEmail(EmailInvalid), NormalizeEmail];
    var s := b.email.GetOr("");
    assert steps[0] == IsEmail(EmailInvalid) && steps[1..] == [NormalizeEmail];
    assert steps[1..][0] == NormalizeEmail && steps[1..][1..] == [];
    var n := lib.normalizeEmail(s);
    assert RunSteps(lib, Email, steps[1..][1..], n) == ([], n);
    assert RunSteps(lib, Email, steps[1..], s) == ([] + [], n);
    var none: seq<FieldError> := [];
    assert none + none == none;
    assert FieldErrors(lib, b, Email) + [] == FieldErrors(lib, b, Email);
    assert RunSteps(lib, Email, steps, s) == (FieldErrors(lib, b, Email), lib.normalizeEmail(s));
  }

  /** The single-validator chains: `isIn` on company size and lead source, optional `isURL` on website. */
  lemma CheckChain(lib: Library, c: Chain, b: Lead)
    requires c.steps == [IsIn(CompanySizes, CompanySizeInvalid)] || c.steps == [IsIn(LeadSources, LeadSourceInvalid)]
             || c.steps == [IsURL(WebsiteInvalid)]
    ensures RunChain(lib, c, b).body == b.Set(c.field, b.Get(c.field))
    ensures RunChain(lib, c, b).errors ==
      if c.optional && b.Get(c.field).None? then []
      else if Holds(lib, c.steps[0], b.Get(c.field).GetOr("")) then []
      else [FieldError(c.field, c.steps[0].message)]
  {
    assert c.steps[1..] == [];
    var v := b.Get(c.field);
    var s := v.GetOr("");
    assert RunSteps(lib, c.field, c.steps[1..], s) == ([], s);
    assert RunSteps(lib, c.field, c.steps, s).1 == s;
  }

  lemma UnrollChains(lib: Library, cs: seq<Chain>, k: nat, b: Lead)
    requires k < |cs|
    ensures RunChains(lib, cs[k..], b) ==
      var c := RunChain(lib, cs[k], b);
      var r := RunChains(lib, cs[k + 1..], c.body);
      Checked(c.errors + r.errors, r.body)
  {
    assert cs[k..][0] == cs[k];
    assert cs[k..][1..] == cs[k + 1..];
  }

  /** The fields in declaration order. */
  const Declared: seq<Field> := [FirstName, LastName, Email, CompanyName, CompanySize, Website, LeadSource]

  lemma DeclaredHasAll(g: Field)
    ensures g in Declared
  {
    match g
    case FirstName => assert Declared[0] == g;
    case LastName => assert Declared[1] == g;
    case Email => assert Declared[2] == g;
    case CompanyName => assert Declared[3] == g;
    case CompanySize => assert Declared[4] == g;
    case Website => assert Declared[5] == g;
    case LeadSource => assert Declared[6] == g;
  }

  /** The parts for `fields`, one after another. */
  function Collect(part: Field -> seq<FieldError>, fields: seq<Field>): seq<FieldError> {
    if fields == [] then [] else part(fields[0]) + Collect(part, fields[1..])
  }

  /** Each field's errors, as a function of the field. */
  function PartOf(lib: Library, p: Lead): Field -> seq<FieldError> {
    g => FieldErrors(lib, p, g)
  }

  /** The errors of every field, in declaration order. */
  function AllFieldErrors(lib: Library, p: Lead): seq<FieldError> {
    Collect(PartOf(lib, p), Declared)
  }

  /** A field's errors depend on that field of the body alone. */
  lemma FieldErrorsFrame(lib: Library, a: Lead, b: Lead, f: Field)
    requires a.Get(f) == b.Get(f)
    ensures FieldErrors(lib, a, f) == FieldErrors(lib, b, f)
  {
  }

  /** What the chain for `f` writes back into the body. */
  function SanitizeField(lib: Library, f: Field, v: Option<string>): Option<string> {
    match f
    case FirstName => v.Map(JsString.Trim)
    case LastName => v.Map(JsString.Trim)
    case Email => v.Map(lib.normalizeEmail)
    case CompanyName => v.Map(JsString.Trim)
    case _ => v
  }

  lemma SanitizedBodyGet(lib: Library, p: Lead, g: Field)
    ensures SanitizedBody(lib, p).Get(g) == SanitizeField(lib, g, p.Get(g))
  {
  }

  lemma DeclaredIndex(i: nat)
    requires i < |Declared|
    ensures Index(Declared[i]) == i
  {
  }

  /** The chain at position `k` checks and rewrites the `k`-th field alone. */
  ghost predicate ChainDoes(lib: Library, k: nat, b: Lead)
    requires k < |UserValidation|
  {
    RunChain(lib, UserValidation[k], b) ==
      Checked(FieldErrors(lib, b, Declared[k]), b.Set(Declared[k], SanitizeField(lib, Declared[k], b.Get(Declared[k]))))
  }

  /** A trimming chain checks its field as `FieldErrors` says and writes back the trimmed value. */
  lemma TextChainDoes(lib: Library, k: nat, f: Field, limit: nat, required: Message, tooLong: Message, b: Lead)
    requires k < |UserValidation| && Declared[k] == f
    requires UserValidation[k] == Chain(f, false, [Trim, NotEmpty(required), IsLength(limit, tooLong)])
    requires SanitizeField(lib, f, b.Get(f)) == b.Get(f).Map(JsString.Trim)
    requires FieldErrors(lib, b, f) ==
      var t := JsString.Trimmed(b.Get(f));
      if t == "" then [FieldError(f, required)] else if |t| > limit then [FieldError(f, tooLong)] else []
    ensures ChainDoes(lib, k, b)
  {
    TrimChain(lib, f, limit, required, tooLong, b);
  }

  lemma FirstNameChainDoes(lib: Library, b: Lead)
    ensures ChainDoes(lib, 0, b)
  {
    TextChainDoes(lib, k := 0, f := FirstName, limit := 50, required := FirstNameRequired, tooLong := FirstNameTooLong, b := b);
  }

  lemma LastNameChainDoes(lib: Library, b: Lead)
    ensures ChainDoes(lib, 1, b)
  {
    TextChainDoes(lib, k := 1, f := LastName, limit := 50, required := LastNameRequired, tooLong := LastNameTooLong, b := b);
  }

  lemma EmailChainDoes(lib: Library, b: Lead)
    ensures ChainDoes(lib, 2, b)
  {
    EmailChain(lib, b);
  }

  lemma CompanyNameChainDoes(lib: Library, b: Lead)
    ensures ChainDoes(lib, 3, b)
  {
    TextChainDoes(lib, k := 3, f := CompanyName, limit := 100, required := CompanyNameRequired, tooLong := CompanyNameTooLong, b := b);
  }

  lemma CheckChainDoes(lib: Library, k: nat, b: Lead)
    requires 4 <= k < |UserValidation|
    ensures ChainDoes(lib, k, b)
  {
    CheckChain(lib, UserValidation[k], b);
  }

  lemma OneChain(lib: Library, k: nat, b: Lead)
    requires k < |UserValidation|
    ensures ChainDoes(lib, k, b)
  {
    if k == 0 {
      FirstNameChainDoes(lib, b);
    } else if k == 1 {
      LastNameChainDoes(lib, b);
    } else if k == 2 {
      EmailChainDoes(lib, b);
    } else if k == 3 {
      CompanyNameChainDoes(lib, b);
    } else {
      CheckChainDoes(lib, k, b);
    }
  }

  lemma CollectAgree(part: Field -> seq<FieldError>, other: Field -> seq<FieldError>, fields: seq<Field>)
    requires forall g :: g in fields ==> part(g) == other(g)
    ensures Collect(part, fields) == Collect(other, fields)
  {
    if fields != [] {
      CollectAgree(part, other, fields[1..]);
    }
  }

  /** Each field sits in `Declared` at its own index. */
  lemma DeclaredAtIndex(g: Field)
    ensures Declared[Index(g)] == g
  {
  }

  /** The chain at position `k` rewrites the `k`-th field and leaves the rest of the body alone. */
  lemma ChainBody(lib: Library, k: nat, b: Lead)
    requires k < |UserValidation|
    ensures forall g :: (RunChain(lib, UserValidation[k], b).body.Get(g) ==
      if g == Declared[k] then SanitizeField(lib, g, b.Get(g)) else b.Get(g))
    ensures RunChain(lib, UserValidation[k], b).body.isActive == b.isActive
  {
    OneChain(lib, k, b);
  }

  /** The chains from position `k` on rewrite exactly the fields from position `k` on. */
  lemma {:induction false} FromChainBody(lib: Library, k: nat, b: Lead)
    requires k <= |UserValidation|
    ensures forall g :: (RunChains(lib, UserValidation[k..], b).body.Get(g) ==
      if Index(g) >= k then SanitizeField(lib, g, b.Get(g)) else b.Get(g))
    ensures RunChains(lib, UserValidation[k..], b).body.isActive == b.isActive
    decreases |UserValidation| - k
  {
    var cs := UserValidation;
    if k == |cs| {
      assert cs[k..] == [];
    } else {
      UnrollChains(lib, cs, k, b);
      var c := RunChain(lib, cs[k], b);
      ChainBody(lib, k, b);
      FromChainBody(lib, k + 1, c.body);
      var r := RunChains(lib, cs[k..], b).body;
      assert r == RunChains(lib, cs[k + 1..], c.body).body;
      forall g ensures r.Get(g) == if Index(g) >= k then SanitizeField(lib, g, b.Get(g)) else b.Get(g) {
        DeclaredAtIndex(g);
        DeclaredIndex(k);
      }
    }
  }

  /** The errors of the chains from position `k` on are those of the fields from position `k` on. */
  lemma {:induction false} FromChainErrors(lib: Library, k: nat, b: Lead)
    requires k <= |UserValidation|
    ensures RunChains(lib, UserValidation[k..], b).errors == Collect(PartOf(lib, b), Declared[k..])
    decreases |UserValidation| - k
  {
    var cs := UserValidation;
    if k == |cs| {
      assert cs[k..] == [] && Declared[k..] == [];
    } else {
      var f := Declared[k];
      DeclaredIndex(k);
      UnrollChains(lib, cs, k, b);
      OneChain(lib, k, b);
      var c := RunChain(lib, cs[k], b);
      FromChainErrors(lib, k + 1, c.body);
      var rest := Declared[k + 1..];
      assert Declared[k..][0] == f && Declared[k..][1..] == rest;
      forall g | g in rest ensures PartOf(lib, c.body)(g) == PartOf(lib, b)(g) {
        var j :| 0 <= j < |rest| && rest[j] == g;
        assert Declared[k + 1 + j] == g;
        DeclaredIndex(k + 1 + j);
        FieldErrorsFrame(lib, c.body, b, g);
      }
      CollectAgree(PartOf(lib, c.body), PartOf(lib, b), rest);
    }
  }

  /**
   * Running the rule list is the per-field table: the errors are every
   * field's errors in declaration order, and the body is sanitised field
   * by field.
   */
  lemma ValidationResult(lib: Library, p: Lead)
    ensures Validation(lib, p).errors == AllFieldErrors(lib, p)
    ensures Validation(lib, p).body == SanitizedBody(lib, p)
  {
    FromChainErrors(lib, 0, p);
    FromChainBody(lib, 0, p);
    assert UserValidation[0..] == UserValidation && Declared[0..] == Declared;
    var r := Validation(lib, p).body;
    forall g ensures r.Get(g) == SanitizedBody(lib, p).Get(g) {
      SanitizedBodyGet(lib, p, g);
    }
    LeadExt(r, SanitizedBody(lib, p));
  }

  // ---------------------------------------------------------------------
  // Properties of the rule list

  /** The errors that name field `f`, in order. */
  function ErrorsFor(errors: seq<FieldError>, f: Field): (r: seq<FieldError>)
    ensures forall i :: 0 <= i < |r| ==> r[i].field == f
  {
    if errors == [] then []
    else (if errors[0].field == f then [errors[0]] else []) + ErrorsFor(errors[1..], f)
  }

  lemma {:induction false} ErrorsForAppend(a: seq<FieldError>, b: seq<FieldError>, f: Field)
    ensures ErrorsFor(a + b, f) == ErrorsFor(a, f) + ErrorsFor(b, f)
  {
    if a == [] {
      assert a + b == b;
    } else {
      assert (a + b)[0] == a[0] && (a + b)[1..] == a[1..] + b;
      ErrorsForAppend(a[1..], b, f);
      var h := if a[0].field == f then [a[0]] else [];
      assert ErrorsFor(a + b, f) == h + ErrorsFor(a[1..] + b, f);
      assert h + (ErrorsFor(a[1..], f) + ErrorsFor(b, f)) == (h + ErrorsFor(a[1..], f)) + ErrorsFor(b, f);
    }
  }

  lemma {:induction false} ErrorsForAbout(errors: seq<FieldError>, g: Field, f: Field)
    requires AllAbout(errors, g)
    ensures ErrorsFor(errors, f) == if f == g then errors else []
  {
    if errors != [] {
      ErrorsForAbout(errors[1..], g, f);
      if f == g {
        assert [errors[0]] + errors[1..] == errors;
      }
    }
  }

  /** When each part is about its own field, filtering picks out one part. */
  lemma {:induction false} CollectFor(part: Field -> seq<FieldError>, fields: seq<Field>, f: Field)
    requires forall g :: AllAbout(part(g), g)
    requires forall i, j :: 0 <= i < j < |fields| ==> fields[i] != fields[j]
    ensures ErrorsFor(Collect(part, fields), f) == if f in fields then part(f) else []
  {
    if fields != [] {
      var g, rest := fields[0], fields[1..];
      ErrorsForAppend(part(g), Collect(part, rest), f);
      ErrorsForAbout(part(g), g, f);
      CollectFor(part, rest, f);
      HeadAndRest(fields, f);
      if f == g {
        assert part(f) + [] == part(f);
      }
    }
  }

  /** In a list without repeats the head is not in the rest, and any other field is in both or neither. */
  lemma HeadAndRest(fields: seq<Field>, f: Field)
    requires fields != []
    requires forall i, j :: 0 <= i < j < |fields| ==> fields[i] != fields[j]
    ensures f == fields[0] ==> f !in fields[1..]
    ensures f != fields[0] ==> (f in fields <==> f in fields[1..])
  {
    var rest := fields[1..];
    assert fields == [fields[0]] + rest;
    if f == fields[0] {
      forall k | 0 <= k < |rest| ensures rest[k] != f {
        assert rest[k] == fields[k + 1];
      }
    }
  }

  lemma SpecErrorsFor(lib: Library, p: Lead, f: Field)
    ensures ErrorsFor(AllFieldErrors(lib, p), f) == FieldErrors(lib, p, f)
  {
    CollectFor(PartOf(lib, p), Declared, f);
  }

  /** The errors about field `f` are exactly what that field's chain reports. */
  lemma ErrorsForField(lib: Library, p: Lead, f: Field)
    ensures ErrorsFor(Validation(lib, p).errors, f) == FieldErrors(lib, p, f)
  {
    ValidationResult(lib, p);
    SpecErrorsFor(lib, p, f);
  }

  /** Fields strictly increase in declaration order along the list. */
  ghost predicate InDeclarationOrder(errors: seq<FieldError>) {
    forall i, j :: 0 <= i < j < |errors| ==> Index(errors[i].field) < Index(errors[j].field)
  }

  ghost predicate FieldsFrom(errors: seq<FieldError>, n: nat) {
    forall i :: 0 <= i < |errors| ==> Index(errors[i].field) >= n
  }

  lemma PrependPart(x: seq<FieldError>, g: Field, rest: seq<FieldError>)
    requires |x| <= 1 && AllAbout(x, g)
    requires InDeclarationOrder(rest) && FieldsFrom(rest, Index(g) + 1)
    ensures InDeclarationOrder(x + rest) && FieldsFrom(x + rest, Index(g))
  {
  }

  /** Parts of at most one error each, about fields in increasing order, collect in order. */
  lemma {:induction false} CollectOrdered(part: Field -> seq<FieldError>, fields: seq<Field>)
    requires forall g :: |part(g)| <= 1 && AllAbout(part(g), g)
    requires forall i, j :: 0 <= i < j < |fields| ==> Index(fields[i]) < Index(fields[j])
    ensures InDeclarationOrder(Collect(part, fields))
    ensures |Collect(part, fields)| <= |fields|
    ensures forall i :: 0 <= i < |Collect(part, fields)| ==> Collect(part, fields)[i].field in fields
  {
    if fields != [] {
      var g, rest := fields[0], fields[1..];
      CollectOrdered(part, rest);
      var r := Collect(part, rest);
      assert FieldsFrom(r, Index(g) + 1) by {
        forall i | 0 <= i < |r| ensures Index(r[i].field) >= Index(g) + 1 {
          var k :| 0 <= k < |rest| && rest[k] == r[i].field;
          assert rest[k] == fields[k + 1];
        }
      }
      PrependPart(part(g), g, r);
      assert forall i :: 0 <= i < |Collect(part, fields)| ==> Collect(part, fields)[i].field in fields by {
        assert fields == [g] + rest;
      }
    }
  }

  /**
   * The error list reports failures in declaration order, at most one per
   * field: first_name, last_name, email, company_name, company_size,
   * website, lead_source.
   */
  lemma ErrorsInDeclarationOrder(lib: Library, p: Lead)
    ensures InDeclarationOrder(Validation(lib, p).errors)
    ensures |Validation(lib, p).errors| <= 7
  {
    ValidationResult(lib, p);
    SpecInDeclarationOrder(lib, p);
  }

  lemma SpecInDeclarationOrder(lib: Library, p: Lead)
    ensures InDeclarationOrder(AllFieldErrors(lib, p))
    ensures |AllFieldErrors(lib, p)| <= 7
  {
    CollectOrdered(PartOf(lib, p), Declared);
  }

  /** Every rule, stated on the body as sent. */
  predicate RequestValid(lib: Library, p: Lead) {
    && JsString.Trimmed(p.first_name) != "" && |JsString.Trimmed(p.first_name)| <= 50
    && JsString.Trimmed(p.last_name) != "" && |JsString.Trimmed(p.last_name)| <= 50
    && lib.isEmail(p.email.GetOr(""))
    && JsString.Trimmed(p.company_name) != "" && |JsString.Trimmed(p.company_name)| <= 100
    && p.company_size.GetOr("") in CompanySizes
    && (p.website.None? || lib.isURL(p.website.value))
    && p.lead_source.GetOr("") in LeadSources
  }

  /** A body yields an empty error list exactly when it satisfies every rule. */
  lemma NoErrorsIff(lib: Library, p: Lead)
    ensures Validation(lib, p).errors == [] <==> RequestValid(lib, p)
  {
    ValidationResult(lib, p);
    SpecNoErrorsIff(lib, p);
  }

  lemma SpecNoErrorsIff(lib: Library, p: Lead)
    ensures AllFieldErrors(lib, p) == [] <==> RequestValid(lib, p)
  {
    var part := PartOf(lib, p);
    CollectEmpty(part, Declared);
    AllFieldsPass(lib, p);
    if AllFieldErrors(lib, p) == [] {
      forall g ensures FieldErrors(lib, p, g) == [] {
        DeclaredHasAll(g);
        assert part(g) == FieldErrors(lib, p, g);
      }
    }
    if RequestValid(lib, p) {
      forall g | g in Declared ensures part(g) == [] {
        assert part(g) == FieldErrors(lib, p, g);
      }
    }
  }

  lemma AllFieldsPass(lib: Library, p: Lead)
    ensures (forall g :: FieldErrors(lib, p, g) == []) <==> RequestValid(lib, p)
  {
    NamePasses(lib, p, FirstName, 50);
    NamePasses(lib, p, LastName, 50);
    NamePasses(lib, p, CompanyName, 100);
    OtherFieldsPass(lib, p);
    if RequestValid(lib, p) {
      forall g ensures FieldErrors(lib, p, g) == [] {
        match g
        case FirstName =>
        case LastName =>
        case Email =>
        case CompanyName =>
        case CompanySize =>
        case Website =>
        case LeadSource =>
      }
    }
  }

  lemma OtherFieldsPass(lib: Library, p: Lead)
    ensures FieldErrors(lib, p, Email) == [] <==> lib.isEmail(p.email.GetOr(""))
    ensures FieldErrors(lib, p, CompanySize) == [] <==> p.company_size.GetOr("") in CompanySizes
    ensures FieldErrors(lib, p, Website) == [] <==> p.website.None? || lib.isURL(p.website.value)
    ensures FieldErrors(lib, p, LeadSource) == [] <==> p.lead_source.GetOr("") in LeadSources
  {
  }

  lemma NamePasses(lib: Library, p: Lead, f: Field, limit: nat)
    requires f == FirstName || f == LastName || f == CompanyName
    requires limit == if f == CompanyName then 100 else 50
    ensures FieldErrors(lib, p, f) == [] <==> JsString.Trimmed(p.Get(f)) != "" && |JsString.Trimmed(p.Get(f))| <= limit
  {
  }

  lemma {:induction false} CollectEmpty(part: Field -> seq<FieldError>, fields: seq<Field>)
    ensures Collect(part, fields) == [] <==> forall g :: g in fields ==> part(g) == []
  {
    if fields != [] {
      CollectEmpty(part, fields[1..]);
      assert fields == [fields[0]] + fields[1..];
    }
  }

  // The per-field lemmas below are stated on `FieldErrors`; by
  // `ErrorsForField` that is exactly what the error list holds about the field.

  /** An absent or all-white-space name is reported as missing, and only that. */
  lemma BlankTextField(lib: Library, p: Lead, f: Field)
    requires f == FirstName || f == LastName || f == CompanyName
    requires p.Get(f).None? || JsString.AllWhiteSpace(p.Get(f).value)
    ensures FieldErrors(lib, p, f) ==
      [FieldError(f, match f case FirstName => FirstNameRequired case LastName => LastNameRequired
                              case _ => CompanyNameRequired)]
  {
    if p.Get(f).Some? { JsString.TrimAllWhiteSpace(p.Get(f).value); }
    assert JsString.Trim("") == "";
  }

  /** A name that is still over its limit once trimmed is reported as too long, and only that. */
  lemma LongTextField(lib: Library, p: Lead, f: Field)
    requires f == FirstName || f == LastName || f == CompanyName
    requires |JsString.Trimmed(p.Get(f))| > (if f == CompanyName then 100 else 50)
    ensures FieldErrors(lib, p, f) ==
      [FieldError(f, match f case FirstName => FirstNameTooLong case LastName => LastNameTooLong
                              case _ => CompanyNameTooLong)]
  {
  }

  lemma CompanySizesAre(x: string)
    ensures x in CompanySizes <==> x in {"1-10", "11-50", "51-200", "201-500", "501-1000", "1000+"}
  {
  }

  lemma LeadSourcesAre(x: string)
    ensures x in LeadSources <==> x in {"website", "social_media", "referral", "advertisement",
                                        "cold_call", "email_campaign", "event", "other"}
  {
  }

  /** `company_size` passes exactly when it is one of the six buckets verbatim (nothing is trimmed). */
  lemma CompanySizeIff(lib: Library, p: Lead)
    ensures FieldErrors(lib, p, CompanySize) == [] <==>
      p.company_size.Some? && p.company_size.value in {"1-10", "11-50", "51-200", "201-500", "501-1000", "1000+"}
    ensures FieldErrors(lib, p, CompanySize) != [] ==>
      FieldErrors(lib, p, CompanySize) == [FieldError(CompanySize, CompanySizeInvalid)]
  {
    assert "" !in CompanySizes;
    CompanySizesAre(p.company_size.GetOr(""));
  }

  /** A padded bucket is not a bucket. */
  lemma PaddedCompanySizeRejected(lib: Library, p: Lead)
    requires p.company_size == Some(" 1-10")
    ensures FieldErrors(lib, p, CompanySize) == [FieldError(CompanySize, CompanySizeInvalid)]
  {
    CompanySizeIff(lib, p);
    assert " 1-10" !in {"1-10", "11-50", "51-200", "201-500", "501-1000", "1000+"};
  }

  /** An absent `website` is not checked; a present one must satisfy `isURL`. */
  lemma WebsiteOptional(lib: Library, p: Lead)
    ensures p.website.None? ==> FieldErrors(lib, p, Website) == []
    ensures p.website.Some? ==> (FieldErrors(lib, p, Website) == [] <==> lib.isURL(p.website.value))
  {
  }

  /** `lead_source` passes exactly when it is one of the eight sources verbatim. */
  lemma LeadSourceIff(lib: Library, p: Lead)
    ensures FieldErrors(lib, p, LeadSource) == [] <==>
      p.lead_source.Some? && p.lead_source.value in {"website", "social_media", "referral", "advertisement",
                                                     "cold_call", "email_campaign", "event", "other"}
  {
    assert "" !in LeadSources;
    LeadSourcesAre(p.lead_source.GetOr(""));
  }

  // ---------------------------------------------------------------------
  // The routes

  datatype Verb = GET | POST | PUT | DELETE

  /** The router's paths: `/`, `/leads/:source`, `/companies/:size`, `/:id`. */
  datatype RoutePath = Root | LeadsBySource | CompaniesBySize | ById

  datatype Handler =
    | GetUsers | CreateUser | GetUsersByLeadSource | GetUsersByCompanySize
    | GetUser | UpdateUser | DeleteUser

  /** The rules that guard a route, and its handler; `None` where no handler is registered. */
  function Route(verb: Verb, path: RoutePath): Option<(seq<Chain>, Handler)> {
    match (path, verb)
    case (Root, GET) => Some(([], GetUsers))
    case (Root, POST) => Some((UserValidation, CreateUser))
    case (LeadsBySource, GET) => Some(([], GetUsersByLeadSource))
    case (CompaniesBySize, GET) => Some(([], GetUsersByCompanySize))
    case (ById, GET) => Some(([], GetUser))
    case (ById, PUT) => Some((UserValidation, UpdateUser))
    case (ById, DELETE) => Some(([], DeleteUser))
    case _ => None
  }

  /**
   * Create and update are guarded by the same rule list, the only one there
   * is; reads and deletes run no rules.
   */
  lemma CreateAndUpdateShareRules()
    ensures Route(POST, Root) == Some((UserValidation, CreateUser))
    ensures Route(PUT, ById) == Some((UserValidation, UpdateUser))
    ensures forall v, r :: Route(v, r).Some? && Route(v, r).value.0 != [] ==> Route(v, r).value.0 == UserValidation
    ensures forall v, r :: Route(v, r).Some? && Route(v, r).value.0 != [] <==> (v, r) == (POST, Root) || (v, r) == (PUT, ById)
  {
  }

  /**
   * An update is checked as a whole record: a body that leaves out any of
   * the names, the company size or the lead source is rejected on PUT,
   * whatever it sets.
   */
  lemma UpdateNeedsFullRecord(lib: Library, p: Lead)
    requires p.first_name.None? || p.last_name.None? || p.company_name.None?
             || p.company_size.None? || p.lead_source.None?
    ensures RunChains(lib, Route(PUT, ById).value.0, p).errors != []
  {
    assert Route(PUT, ById).value.0 == UserValidation;
    NoErrorsIff(lib, p);
    PartialBodyInvalid(lib, p);
  }

  lemma PartialBodyInvalid(lib: Library, p: Lead)
    requires p.first_name.None? || p.last_name.None? || p.company_name.None?
             || p.company_size.None? || p.lead_source.None?
    ensures !RequestValid(lib, p)
  {
    assert JsString.Trim("") == "";
    assert "" !in CompanySizes && "" !in LeadSources;
  }
}

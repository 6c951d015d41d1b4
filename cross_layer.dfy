/**
 * How the two layers relate. A body that passes the request rules is handed
 * on to the storage schema; for the fields whose rules both layers spell out
 * in full (the three names, `company_size`, `lead_source`) the request rules
 * are at least as strict, provided both layers measure length alike.
 *
 * They do not always: the request layer counts code points, the schema
 * counts UTF-16 units, and `AstralNameGap` shows a name that passes the
 * first and fails the second.
 */
module CrossLayer {
  import opened Wrappers
  import opened LeadRecord
  import JsString
  import UserSchema
  import UserRoutes

  /** The fields whose rules both layers define without library code. */
  predicate Shared(f: Field) {
    f == FirstName || f == LastName || f == CompanyName || f == CompanySize || f == LeadSource
  }

  /** A trimmed name whose code point count is also its UTF-16 length. */
  predicate CommonLength(p: Lead, f: Field) {
    (f == FirstName || f == LastName || f == CompanyName) ==> JsString.IsBmp(JsString.Trimmed(p.Get(f)))
  }

  lemma Bucket(b: string)
    requires b != [] && JsString.IsTrimmed(b) && JsString.IsBmp(b) && |b| <= 50
    ensures b != "" && JsString.Trim(b) == b && JsString.Utf16Length(b) <= 50
  {
    JsString.TrimmedIsFixed(b);
  }

  /** Each company-size bucket is non-empty, already trimmed and within the schema's 50 units. */
  lemma CompanySizeBuckets()
    ensures forall b :: b in UserRoutes.CompanySizes ==>
      b != "" && JsString.Trim(b) == b && JsString.Utf16Length(b) <= 50
  {
    var bs := UserRoutes.CompanySizes;
    forall i | 0 <= i < |bs|
      ensures bs[i] != "" && JsString.Trim(bs[i]) == bs[i] && JsString.Utf16Length(bs[i]) <= 50
    {
      Bucket(bs[i]);
    }
  }

  /** Both layers list the same eight lead sources, in the same order. */
  lemma LeadSourcesAgree()
    ensures UserRoutes.LeadSources == UserSchema.LeadSources
    ensures forall x :: x in UserRoutes.LeadSources <==> x in UserSchema.LeadSources
  {
  }

  lemma NameStored(p: Lead, q: Lead, f: Field, limit: nat)
    requires f == FirstName || f == LastName || f == CompanyName
    requires limit == if f == CompanyName then 100 else 50
    requires JsString.Trimmed(p.Get(f)) != "" && |JsString.Trimmed(p.Get(f))| <= limit
    requires JsString.IsBmp(JsString.Trimmed(p.Get(f)))
    requires q.Get(f) == p.Get(f) || q.Get(f) == p.Get(f).Map(JsString.Trim)
    ensures UserSchema.ErrorOf(UserSchema.SchemaErrors(q), f) == None
  {
    if q.Get(f) != p.Get(f) {
      JsString.TrimIdempotent(p.Get(f).value);
    }
    assert JsString.Trimmed(q.Get(f)) == JsString.Trimmed(p.Get(f));
    match f
    case FirstName => UserSchema.FirstNameRule(q);
    case LastName => UserSchema.LastNameRule(q);
    case CompanyName => UserSchema.CompanyNameRule(q);
  }

  lemma CompanySizeStored(p: Lead)
    requires p.company_size.GetOr("") in UserRoutes.CompanySizes
    ensures UserSchema.ErrorOf(UserSchema.SchemaErrors(p), CompanySize) == None
  {
    CompanySizeBuckets();
    UserSchema.CompanySizeRule(p);
  }

  lemma LeadSourceStored(p: Lead)
    requires p.lead_source.GetOr("") in UserRoutes.LeadSources
    ensures UserSchema.ErrorOf(UserSchema.SchemaErrors(p), LeadSource) == None
  {
    assert "" !in UserRoutes.LeadSources;
    LeadSourcesAgree();
    UserSchema.LeadSourceRule(p);
  }

  /**
   * A value the request rules accept for a shared field passes the schema's
   * rules for that field, both as sent and as the rules hand it on.
   */
  lemma AcceptedFieldStored(lib: UserRoutes.Library, p: Lead, f: Field)
    requires Shared(f) && CommonLength(p, f)
    requires UserRoutes.FieldErrors(lib, p, f) == []
    ensures UserSchema.ErrorOf(UserSchema.SchemaErrors(p), f) == None
    ensures UserSchema.ErrorOf(UserSchema.SchemaErrors(UserRoutes.SanitizedBody(lib, p)), f) == None
  {
    var q := UserRoutes.SanitizedBody(lib, p);
    match f
    case FirstName =>
      NameStored(p, p, f, 50);
      NameStored(p, q, f, 50);
    case LastName =>
      NameStored(p, p, f, 50);
      NameStored(p, q, f, 50);
    case CompanyName =>
      NameStored(p, p, f, 100);
      NameStored(p, q, f, 100);
    case CompanySize =>
      CompanySizeStored(p);
      CompanySizeStored(q);
    case LeadSource =>
      LeadSourceStored(p);
      LeadSourceStored(q);
  }

  /** A body with no request errors satisfies every shared schema rule. */
  lemma AcceptedRecordStored(lib: UserRoutes.Library, p: Lead)
    requires UserRoutes.Validation(lib, p).errors == []
    requires forall f :: CommonLength(p, f)
    ensures forall f :: Shared(f) ==> UserSchema.ErrorOf(UserSchema.SchemaErrors(p), f) == None
    ensures forall f :: Shared(f) ==>
      UserSchema.ErrorOf(UserSchema.SchemaErrors(UserRoutes.SanitizedBody(lib, p)), f) == None
  {
    forall f | Shared(f)
      ensures UserSchema.ErrorOf(UserSchema.SchemaErrors(p), f) == None
      ensures UserSchema.ErrorOf(UserSchema.SchemaErrors(UserRoutes.SanitizedBody(lib, p)), f) == None
    {
      UserRoutes.ErrorsForField(lib, p, f);
      AcceptedFieldStored(lib, p, f);
    }
  }

  lemma {:induction false} AstralLength(s: string)
    requires forall i :: 0 <= i < |s| ==> s[i] as int > 0xFFFF
    ensures JsString.Utf16Length(s) == 2 * |s|
  {
    if s != [] {
      AstralLength(s[1..]);
    }
  }

  /**
   * Without a common length measure the request layer is not the stricter:
   * 26 copies of U+1F600 are 26 code points (within the request limit of
   * 50) but 52 UTF-16 units (over the schema's limit of 50).
   */
  lemma AstralNameGap(lib: UserRoutes.Library, p: Lead)
    requires p.first_name == Some(seq(26, _ => '\U{1F600}'))
    ensures UserRoutes.FieldErrors(lib, p, FirstName) == []
    ensures UserSchema.ErrorOf(UserSchema.SchemaErrors(p), FirstName) == Some(UserSchema.FirstNameTooLong)
  {
    var s := p.first_name.value;
    assert !JsString.IsWhiteSpace(s[0]) && !JsString.IsWhiteSpace(s[|s| - 1]);
    JsString.TrimmedIsFixed(s);
    AstralLength(s);
    UserSchema.FirstNameRule(p);
  }
}

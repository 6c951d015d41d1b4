/**
 * The lead record as both layers see it: the seven text paths, each of
 * which may be absent from a request body, and the `isActive` flag.
 */
module LeadRecord {
  import opened Wrappers

  /** The text paths, in the order both the schema and the rule list declare them. */
  datatype Field = FirstName | LastName | Email | CompanyName | CompanySize | Website | LeadSource

  /** Position in declaration order. */
  function Index(f: Field): (n: nat)
    ensures n < 7
  {
    match f
    case FirstName => 0
    case LastName => 1
    case Email => 2
    case CompanyName => 3
    case CompanySize => 4
    case Website => 5
    case LeadSource => 6
  }

  const AllFields: set<Field> := {FirstName, LastName, Email, CompanyName, CompanySize, Website, LeadSource}

  /** `None` is a key absent from the body (a JavaScript `undefined`). */
  datatype Lead = Lead(
    first_name: Option<string>,
    last_name: Option<string>,
    email: Option<string>,
    company_name: Option<string>,
    company_size: Option<string>,
    website: Option<string>,
    lead_source: Option<string>,
    isActive: Option<bool>)
  {
    function Get(f: Field): Option<string> {
      match f
      case FirstName => first_name
      case LastName => last_name
      case Email => email
      case CompanyName => company_name
      case CompanySize => company_size
      case Website => website
      case LeadSource => lead_source
    }

    /** Replaces path `f` and nothing else. */
    function Set(f: Field, v: Option<string>): (r: Lead)
      ensures r.Get(f) == v
      ensures forall g :: g != f ==> r.Get(g) == Get(g)
      ensures r.isActive == isActive
    {
      match f
      case FirstName => this.(first_name := v)
      case LastName => this.(last_name := v)
      case Email => this.(email := v)
      case CompanyName => this.(company_name := v)
      case CompanySize => this.(company_size := v)
      case Website => this.(website := v)
      case LeadSource => this.(lead_source := v)
    }
  }

  /** Two records with the same paths and flag are the same record. */
  lemma LeadExt(a: Lead, b: Lead)
    requires forall f :: a.Get(f) == b.Get(f)
    requires a.isActive == b.isActive
    ensures a == b
  {
    assert a.Get(FirstName) == b.Get(FirstName) && a.Get(LastName) == b.Get(LastName);
    assert a.Get(Email) == b.Get(Email) && a.Get(CompanyName) == b.Get(CompanyName);
    assert a.Get(CompanySize) == b.Get(CompanySize) && a.Get(Website) == b.Get(Website);
    assert a.Get(LeadSource) == b.Get(LeadSource);
  }
}

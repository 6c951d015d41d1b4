# Lead record validation

This project models how a small Express/Mongoose CRM service validates a
"lead" (a user record: first and last name, email, company name, company
size, website, lead source and an `isActive` flag). A lead is checked by
two layers:

- the **request rules** (`userValidation` in `routes/users.js`): an
  ordered list of express-validator chains that guards both create
  (`POST /`) and update (`PUT /:id`). Every chain runs and every failure
  is collected as a `(field, message)` pair;
- the **storage schema** (`userSchema` in `models/User.js`): Mongoose
  setters (`trim`, `lowercase`) and defaults run when the document is
  built, then the `required`, `maxlength`, `match` and `enum` validators
  run on the normalised values. The schema also derives `full_name`.

The Dafny modules follow that structure:

| module | file | contents |
|---|---|---|
| `Wrappers` | `wrappers.dfy` | `Option` and `Result` |
| `JsString` | `js_string.dfy` | JavaScript `trim`, `toLowerCase` and UTF-16 `length` |
| `LeadRecord` | `lead.dfy` | the `Field` enumeration and the `Lead` record (absent keys are `None`) |
| `Patterns` | `patterns.dfy` | the schema's email and website regular expressions |
| `UserSchema` | `user_schema.dfy` | the schema as a table of path options, with Mongoose's cast and validate steps |
| `UserRoutes` | `user_routes.dfy` | the rule list as data, an interpreter for chains, and the route table |
| `CrossLayer` | `cross_layer.dfy` | how the two layers relate |
| `EmailSearch` | `email_search.dfy` | how many ways a backtracking matcher can match the email pattern's name group |

Both source files are declarative, so the model is pure: datatypes,
functions and lemmas. Each layer's rules are written down as data.
`UserSchema.PathOf` holds the options of each path. `UserRoutes.UserValidation`
holds the chains. A generic interpreter runs these rules. Each interpreter
is proved equal to a per-field reference description of what the rules
accept: `UserSchema.FieldValid` for the schema and `UserRoutes.FieldErrors`
for the requests. The lemmas below are stated on those descriptions and on
the interpreters.

The library code the rules call (`isEmail`, `isURL`, `normalizeEmail`
from express-validator) is not part of this repository. It enters as the
three function values of a `UserRoutes.Library` parameter, and nothing is
assumed about them.

Points where the code says something more precise than a summary would:

- `match` in Mongoose passes on the empty string. The website path is
  trimmed before it is matched, so a whitespace-only `website` is accepted
  by the schema (`UserSchema.WebsiteRule`), not rejected.
- `company_size` is a closed six-value set only in the request rules. The
  schema has only `required`, `trim` and `maxlength: 50`.
- The two layers measure length differently. The request rules'
  `isLength` is modelled as counting code points (validator releases that
  also discount the variation selectors U+FE0E and U+FE0F are not
  modelled). The schema's `maxlength` counts UTF-16 code units. A name of 26 astral characters passes the request rules but
  fails the schema (`CrossLayer.AstralNameGap`).
- Neither `email` nor `lead_source` is trimmed at either layer, and
  `company_size` is not trimmed before `isIn`. So `" 1-10"` is rejected.
- A second route module that would treat `company_size` as a bounded
  integer is not part of this model. Only `routes/users.js` is modelled.

## Model

| member | source | states |
|---|---|---|
| UserSchema.PathOf | models/User.js:3-51 | defines the schema object path by path: which paths trim or lowercase, the `required` message, and the `maxlength`, `match` or `enum` validator with its message |
| UserSchema.Matches | models/User.js:21-38 | defines which of the two patterns a `match` validator tests: the email pattern as `Patterns.MatchesEmail`, the website pattern as `Patterns.MatchesWebsite` |
| UserSchema.Cast | models/User.js:3-51 | defines building a document: each present path through its `trim` and `lowercase` setters, an absent path left absent, `isActive` defaulted to true; its properties are `CastNormalises`, `CastIdempotent` and `IsActiveDefaultsToTrue` |
| UserSchema.Validate | models/User.js:3-47 | defines `validate()`: for every path, `required` first, an absent value skipping the rest, then the first failing validator, collected into a map from path to message; its properties are the per-path rules and `FieldValidIff` |
| UserSchema.Save | models/User.js:3-54 | defines `save()` up to the database: cast, validate, and yield the document or the error map; its properties are `SaveIff` and `ExampleSave` |
| UserSchema.FieldValid | models/User.js:3-47 | the reference description of each path's rule on the body as sent, independent of the table and the interpreter |
| UserSchema.FullName | models/User.js:57-59 | defines the `full_name` virtual: both names joined by a space, an undefined name rendered as "undefined"; its property is `FullNameOfSaved` |
| UserSchema.FirstNameRule | models/User.js:4-9 | the `first_name` error: required when the trimmed value is empty (absent, "" or all white space), too long when the trimmed value exceeds 50 UTF-16 units, none otherwise |
| UserSchema.LastNameRule | models/User.js:10-15 | the same rule for `last_name`, with its own messages |
| UserSchema.EmailRule | models/User.js:16-22 | the `email` error: required when absent or "", invalid when the lowercased, untrimmed value does not match the email pattern, none otherwise |
| UserSchema.CompanyNameRule | models/User.js:23-28 | the `company_name` rule, with a limit of 100 units |
| UserSchema.CompanySizeRule | models/User.js:29-34 | `company_size` is required after trimming and at most 50 units; no list of sizes is checked at this layer |
| UserSchema.WebsiteRule | models/User.js:35-39 | `website` is optional; a present value is trimmed and must match `^https?:\/\/.+` unless the trimmed value is empty |
| UserSchema.LeadSourceRule | models/User.js:40-47 | `lead_source` is required and passes exactly when it is one of the eight sources verbatim, otherwise the enum message |
| UserSchema.AbsentLikeEmpty | models/User.js:3-51 | on every required path, an absent value and "" produce the same error map |
| UserSchema.CastNormalises | models/User.js:4-41 | the stored email is the lowercased input; the names, company size and website are stored trimmed; `lead_source` is stored as sent |
| UserSchema.CastPathIdempotent | models/User.js:7-20 | running a path's setters twice equals running them once |
| UserSchema.CastIdempotent | models/User.js:3-51 | casting a cast document changes nothing, so re-normalising a stored email leaves it unchanged |
| UserSchema.IsActiveDefaultsToTrue | models/User.js:48-51 | `isActive` becomes true when left out, a given value is kept, and a saved lead always has it |
| UserSchema.FieldValidIff | models/User.js:3-51 | a path reports no error exactly when its rule, stated on the body as sent, holds |
| UserSchema.SaveIff | models/User.js:3-54 | `save` succeeds exactly when every path's rule holds; it then yields the cast document, and otherwise reports a non-empty map of every failing path |
| UserSchema.FullNameOfSaved | models/User.js:57-59 | a saved lead has both names, and its `full_name` is the trimmed first name, a space and the trimmed last name |
| UserSchema.ExampleSave | models/User.js:3-59 | the body `Ann` / `Lee` / `ANN@Example.com` / `Acme` / `1-10` / `website` is saved, with email `ann@example.com`, `isActive` true and `full_name` "Ann Lee" |
| UserSchema.FirstFailure | models/User.js:3-47 | the first failing validator in declaration order is reported, and none exactly when all pass |
| Patterns.EmailRe | models/User.js:21 | defines the email regular expression group by group: each `+`, `*` and concatenation is a choice of split point |
| Patterns.MatchesEmail | models/User.js:21 | defines the same language directly: one `@` between a name and a domain; its agreement with `EmailRe` is `EmailReIff` |
| Patterns.MatchesWebsite | models/User.js:38 | defines `^https?:\/\/.+`: `http://` or `https://`, then one character that is not a line terminator, anything after |
| Patterns.EmailReIff | models/User.js:21 | the email regular expression, read group by group, accepts exactly the strings `MatchesEmail` describes |
| Patterns.NameReIff | models/User.js:21 | `\w+([.-]?\w+)*` accepts exactly word characters and single separators that start and end with a word character |
| Patterns.DomainReIff | models/User.js:21 | the part after `@` matches exactly when it is such a name whose last label is `.` and 2 or 3 word characters |
| Patterns.AcceptedEmailShape | models/User.js:21 | an accepted email has exactly one `@`, a non-empty local part that neither starts nor ends with `.` or `-`, and ends with `.` and 2 or 3 word characters |
| Patterns.WebsiteIgnoresSuffix | models/User.js:38 | the website pattern is anchored only at the start, so an accepted value stays accepted when extended |
| Patterns.WebsiteSchemeOnlyRejected | models/User.js:38 | `https://` and `http://` alone, `ftp://x.com` and a line break after the scheme are rejected; `http://x` and `https://x` are accepted |
| JsString.Trim | models/User.js:7 | defines `String.prototype.trim` with ECMAScript white space and line terminators; its properties are `TrimIsSlice`, `TrimOfPadded`, `TrimIdempotent` and `TrimAllWhiteSpace` |
| JsString.ToLowerCase | models/User.js:20 | the lowercase setter: the result has the input's length and no ASCII capital |
| JsString.TrimIdempotent | models/User.js:7 | trimming a trimmed string changes nothing |
| JsString.TrimAllWhiteSpace | routes/users.js:18-19 | a string of white space only trims to the empty string |
| JsString.TrimOfPadded | models/User.js:7 | trimming white space away from around a trimmed string gives that string back |
| JsString.TrimIsSlice | models/User.js:7 | `trim` cuts white space from both ends and keeps the slice in between |
| JsString.ToLowerCaseIdempotent | models/User.js:20 | lowercasing a lowercased string changes nothing |
| JsString.Utf16Length | models/User.js:8 | the length `maxlength` compares is between the code point count and twice it, and equals the code point count exactly for strings within the Basic Multilingual Plane |
| UserRoutes.RunSteps | routes/users.js:17-48 | defines one chain's steps in order: each failing validator adds its `withMessage` error, each sanitizer rewrites the value the later steps see |
| UserRoutes.RunChain | routes/users.js:16-49 | defines one `body(field)` chain: an `optional()` chain skips an absent field, a missing field is read as "", and the sanitised value is written back to a present field |
| UserRoutes.RunChains | routes/users.js:16-49 | defines running the chains one after another, each on the body the previous one left, with all errors collected in order |
| UserRoutes.Validation | routes/users.js:16-49 | defines the `userValidation` middleware: `RunChains` over `UserValidation`, the seven chains written as data; its property is `ValidationResult` |
| UserRoutes.SanitizedBody | routes/users.js:17-38 | the body the rules hand on: names trimmed and email normalised where present, every other field as sent |
| UserRoutes.RequestValid | routes/users.js:16-49 | the reference description of a body that passes every rule |
| UserRoutes.Route | routes/users.js:52-65 | defines the route table: for each verb and path, the rules that guard it and its handler, or no handler |
| UserRoutes.FieldErrors | routes/users.js:16-49 | each field's chain reports at most one error, and only about that field |
| UserRoutes.ValidationResult | routes/users.js:16-49 | running the rule list yields every field's errors in declaration order and the body with names trimmed and email normalised where present |
| UserRoutes.ErrorsForField | routes/users.js:16-49 | the errors about a field are exactly what that field's chain reports, whatever the other fields hold |
| UserRoutes.ErrorsInDeclarationOrder | routes/users.js:16-49 | errors come in declaration order (first_name, last_name, email, company_name, company_size, website, lead_source), at most one per field, at most seven |
| UserRoutes.NoErrorsIff | routes/users.js:16-49 | the error list is empty exactly when every rule holds on the body as sent |
| UserRoutes.BlankTextField | routes/users.js:17-38 | an absent or all-white-space first name, last name or company name yields exactly its "is required" error |
| UserRoutes.LongTextField | routes/users.js:17-38 | a name still over its limit (50, or 100 for company name) after trimming yields exactly its "cannot be more than" error |
| UserRoutes.CompanySizeIff | routes/users.js:39-41 | `company_size` passes exactly when it is one of the six buckets verbatim; otherwise the single "must be one of" error |
| UserRoutes.PaddedCompanySizeRejected | routes/users.js:39-41 | `" 1-10"` is rejected, since nothing trims before `isIn` |
| UserRoutes.WebsiteOptional | routes/users.js:42-45 | an absent `website` yields no error; a present one passes exactly when `isURL` accepts it |
| UserRoutes.LeadSourceIff | routes/users.js:46-48 | `lead_source` passes exactly when it is one of the eight sources verbatim |
| UserRoutes.CreateAndUpdateShareRules | routes/users.js:52-65 | `POST /` and `PUT /:id` are guarded by the same rule list, and no other route runs any rules |
| UserRoutes.UpdateNeedsFullRecord | routes/users.js:62-65 | an update that leaves out a name, the company size or the lead source is rejected, whatever else it sets |
| CrossLayer.CompanySizeBuckets | routes/users.js:39-41 | every request-layer company-size bucket is non-empty, already trimmed and within the schema's 50 units |
| CrossLayer.LeadSourcesAgree | routes/users.js:46-48 | both layers list the same eight lead sources |
| CrossLayer.AcceptedFieldStored | routes/users.js:17-48 | a value the request rules accept for a name, company size or lead source passes the schema's rule for that path, both as sent and as sanitised, when the trimmed name lies in the Basic Multilingual Plane |
| CrossLayer.AcceptedRecordStored | routes/users.js:16-49 | a body with no request errors satisfies every schema rule for those five paths, both as sent and as sanitised, when the trimmed names lie in the Basic Multilingual Plane |
| CrossLayer.AstralNameGap | routes/users.js:21-22 | 26 copies of U+1F600 pass the request rule for `first_name` but fail the schema's 50-unit limit |
| EmailSearch.NameWays | models/User.js:21 | defines the number of ways the name group `\w+([.-]?\w+)*` (or, for the corrected pattern, `\w+([.-]\w+)*`) matches a whole string, one split point at a time |
| EmailSearch.NameWaysMatch | models/User.js:21 | the name group matches a string in at least one way exactly when `NameRe` holds, so the count is about the schema's own group |
| EmailSearch.RunWays | models/User.js:21 | the name group, and its repeated part alone, match a run of n word characters in 2^(n-1) ways |
| EmailSearch.SlowInputRejected | models/User.js:21 | `a@`, n copies of `a`, then `.aaaa` is rejected by the email pattern, while the name group matches the n-character run after the `@` in 2^(n-1) ways |
| EmailSearch.StrictNameCorrect | models/User.js:21 | `\w+([.-]\w+)*` accepts exactly the strings the schema's name group accepts, and matches each of them in at most one way |
| EmailSearch.SlowInputCorrected | models/User.js:21 | with the separator required, the run of the slow input is matched in exactly one way |

## Left out

- `server.js` (environment, middleware, database connection, listening) is not part of this model: it is process and I/O set-up.
- The code of `isEmail`, `isURL` (with `protocols: ['http', 'https']`) and `normalizeEmail` belongs to express-validator, not this repository. They are opaque function values, so no lemma depends on what they accept.
- Email uniqueness (`unique: true`) is a database index, not a validator. It is not modelled.
- `timestamps: true` depends on the clock and the persistence layer. It is not modelled.
- The controllers, the handlers' responses, and the error middleware are referenced but not present in this repository. `Route` stops at naming the handler.
- Express route matching order is framework behaviour. Each route is a separate `RoutePath` value.
- Request bodies are modelled as a string or absent for each text field. Non-string JSON values and Mongoose's casting of them are not modelled.
- `toJSON` with virtuals only affects serialisation. `full_name` is modelled as a function of the document and is not a field of `Lead`.
- JsString.ToLowerCase: models only ASCII capitals and U+212A KELVIN SIGN (the only non-ASCII code point whose lowercase is ASCII); other case mappings are left as identity, which cannot change whether the ASCII-only email pattern matches.
- UserRoutes.FieldErrors: `isLength` is taken to count code points; the discount some validator releases apply to the variation selectors U+FE0E and U+FE0F is not modelled.
- The time a regular-expression match takes is not modelled: `Matches` is a yes/no language test. How many ways a backtracking matcher can match the email pattern is counted separately, in `EmailSearch` (see "## Findings").
- UserRoutes.RunChain: a sanitizer on an absent field leaves it absent instead of writing back a sanitised "". The schema treats an absent required path and "" alike (`UserSchema.AbsentLikeEmpty`), so no schema error depends on this.
- CrossLayer.AcceptedFieldStored: requires each trimmed name to lie in the Basic Multilingual Plane, because the two layers count length differently (`CrossLayer.AstralNameGap` shows the gap without it). It also rests on `isLength` counting code points. Under the variation-selector discount that condition is not enough: 26 copies of `a` followed by U+FE0F are 52 UTF-16 units, which that `isLength` counts as 26 and accepts, while the schema's `maxlength: 50` rejects them.
- CrossLayer.AcceptedRecordStored: requires every trimmed name to lie in the Basic Multilingual Plane, and rests on `isLength` counting code points, as for `AcceptedFieldStored`. It covers the names, company size and lead source only. The email and website rules of the request layer rest on `isEmail` and `isURL`, which are not part of this repository, so their agreement with the schema's patterns cannot be stated.

## Findings

| source | as written | input that shows it | evidently intended | confidence | as-written member | corrected member |
|---|---|---|---|---|---|---|
| models/User.js:21 | the name group `\w+([.-]?\w+)*`, used before and after the `@`, has an optional separator, so a run of n word characters matches it in 2^(n-1) ways, each of which a backtracking matcher tries before reporting a failed match | `a@` followed by 63 copies of `a` and `.aaaa`: the last label has four characters, so the pattern fails, after about 2^62 attempts at the domain's name group | `\w+([.-]\w+)*`: the same accepted strings, each matched in one way | not executed; medium (it depends on how the matcher backtracks, and on the input reaching `save` past `isEmail`) | EmailSearch.SlowInputRejected | EmailSearch.StrictNameCorrect |

The corrected pattern accepts the same language as the one written
(`EmailSearch.StrictNameCorrect`). The schema's `Matches` tests exactly
that language, as `Patterns.MatchesEmail`, so the rest of the model is
the same under either pattern.

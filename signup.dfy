/**
 * POST /api/auth/signup: creates a tenant and its first (admin) user and signs
 * the new user in. Also `createSlug`, which derives the tenant's slug from its name.
 */
module Signup {
  import opened Wrappers
  import opened Schema
  import opened Types
  import opened Zod
  import opened Utils
  import opened Backend

  // ---------------------------------------------------------------- createSlug

  /** A character of JavaScript's `\s` class. */
  predicate IsSpace(c: char) {
    || c == ' ' || c == '\t' || c == '\n' || c == '\U{B}' || c == '\U{C}' || c == '\r'
    || c == '\U{A0}' || c == '\U{1680}' || ('\U{2000}' <= c <= '\U{200A}')
    || c == '\U{2028}' || c == '\U{2029}' || c == '\U{202F}' || c == '\U{205F}'
    || c == '\U{3000}' || c == '\U{FEFF}'
  }

  /** A character of the class `[a-z0-9-]`. */
  predicate IsSlugChar(c: char) {
    ('a' <= c <= 'z') || ('0' <= c <= '9') || c == '-'
  }

  predicate IsSlug(s: string) {
    forall i :: 0 <= i < |s| ==> IsSlugChar(s[i])
  }

  function LowerChar(c: char): char {
    if 'A' <= c <= 'Z' then (c as int + 32) as char else c
  }

  /** `toLowerCase`, on ASCII letters: no capital letter is left and nothing else changes. */
  function ToLower(s: string): (r: string)
    ensures |r| == |s|
    ensures forall i :: 0 <= i < |s| ==> r[i] == LowerChar(s[i])
    ensures forall i :: 0 <= i < |r| ==> !('A' <= r[i] <= 'Z')
    ensures forall i :: 0 <= i < |s| && !('A' <= s[i] <= 'Z') ==> r[i] == s[i]
  {
    seq(|s|, i requires 0 <= i < |s| => LowerChar(s[i]))
  }

  /** What is left of `s` after its leading whitespace. */
  function SkipSpaces(s: string): (r: string)
    ensures |r| <= |s|
    ensures r == s[|s| - |r|..]
    ensures r == [] || !IsSpace(r[0])
    ensures forall i :: 0 <= i < |s| - |r| ==> IsSpace(s[i])
  {
    if s != [] && IsSpace(s[0]) then SkipSpaces(s[1..]) else s
  }

  /** `replace(/\s+/g, "-")`: every maximal run of whitespace becomes one "-". */
  function ReplaceSpaceRuns(s: string): (r: string)
    ensures forall i :: 0 <= i < |r| ==> !IsSpace(r[i])
    decreases |s|
  {
    if s == [] then []
    else if IsSpace(s[0]) then "-" + ReplaceSpaceRuns(SkipSpaces(s[1..]))
    else [s[0]] + ReplaceSpaceRuns(s[1..])
  }

  /** `replace(/[^a-z0-9-]/g, "")`: drops every character outside `[a-z0-9-]`. */
  function KeepSlugChars(s: string): (r: string)
    ensures IsSlug(r)
    ensures |r| <= |s|
    ensures (forall i :: 0 <= i < |s| ==> !IsSlugChar(s[i])) ==> r == []
  {
    if s == [] then []
    else (if IsSlugChar(s[0]) then [s[0]] else []) + KeepSlugChars(s[1..])
  }

  /** `createSlug`. */
  function CreateSlug(name: string): (r: string)
    ensures IsSlug(r)
  {
    KeepSlugChars(ReplaceSpaceRuns(ToLower(name)))
  }

  lemma {:induction false} ReplaceSpaceRunsNotLonger(s: string)
    ensures |ReplaceSpaceRuns(s)| <= |s|
    decreases |s|
  {
    if s != [] {
      if IsSpace(s[0]) {
        ReplaceSpaceRunsNotLonger(SkipSpaces(s[1..]));
      } else {
        ReplaceSpaceRunsNotLonger(s[1..]);
      }
    }
  }

  /** A slug is never longer than the name it comes from. */
  lemma CreateSlugNotLonger(name: string)
    ensures |CreateSlug(name)| <= |name|
  {
    ReplaceSpaceRunsNotLonger(ToLower(name));
  }

  lemma {:induction false} KeepSlugCharsOfSlug(s: string)
    requires IsSlug(s)
    ensures KeepSlugChars(s) == s
  {
    if s != [] {
      KeepSlugCharsOfSlug(s[1..]);
    }
  }

  lemma {:induction false} ReplaceSpaceRunsOfSlug(s: string)
    requires IsSlug(s)
    ensures ReplaceSpaceRuns(s) == s
  {
    if s != [] {
      assert !IsSpace(s[0]);
      ReplaceSpaceRunsOfSlug(s[1..]);
    }
  }

  /** The filter works character by character: filtering a concatenation filters each part. */
  lemma {:induction false} KeepSlugCharsAppend(a: string, b: string)
    ensures KeepSlugChars(a + b) == KeepSlugChars(a) + KeepSlugChars(b)
    decreases |a|
  {
    if a == [] {
      assert a + b == b;
    } else {
      assert (a + b)[0] == a[0] && (a + b)[1..] == a[1..] + b;
      KeepSlugCharsAppend(a[1..], b);
    }
  }

  /** Skipping leading whitespace stops at the first other character and keeps the rest. */
  lemma {:induction false} SkipSpacesStops(x: string, c: char, b: string)
    requires !IsSpace(c)
    ensures SkipSpaces(x + [c] + b) == SkipSpaces(x) + [c] + b
    decreases |x|
  {
    if x == [] {
      assert x + [c] + b == [c] + b;
    } else {
      assert (x + [c] + b)[0] == x[0];
      assert (x + [c] + b)[1..] == x[1..] + [c] + b;
      if IsSpace(x[0]) {
        SkipSpacesStops(x[1..], c, b);
      }
    }
  }

  /**
   * A character that is not whitespace splits the replacement: every run on
   * either side is replaced on its own and the character itself is kept.
   */
  lemma {:induction false} ReplaceSpaceRunsSplit(a: string, c: char, b: string)
    requires !IsSpace(c)
    ensures ReplaceSpaceRuns(a + [c] + b) == ReplaceSpaceRuns(a) + [c] + ReplaceSpaceRuns(b)
    decreases |a|
  {
    if a == [] {
      assert a + [c] + b == [c] + b;
      ReplaceSpaceRunsKeeps(c, b);
    } else if IsSpace(a[0]) {
      ReplaceSpaceRunsSplit(SkipSpaces(a[1..]), c, b);
      SplitAfterSpace(a, c, b);
    } else {
      ReplaceSpaceRunsSplit(a[1..], c, b);
      SplitAfterOther(a, c, b);
    }
  }

  /** The step of `ReplaceSpaceRunsSplit` when `a` starts with whitespace. */
  lemma SplitAfterSpace(a: string, c: char, b: string)
    requires !IsSpace(c) && a != [] && IsSpace(a[0])
    requires ReplaceSpaceRuns(SkipSpaces(a[1..]) + [c] + b)
          == ReplaceSpaceRuns(SkipSpaces(a[1..])) + [c] + ReplaceSpaceRuns(b)
    ensures ReplaceSpaceRuns(a + [c] + b) == ReplaceSpaceRuns(a) + [c] + ReplaceSpaceRuns(b)
  {
    var tail := a[1..] + [c] + b;
    var rest := SkipSpaces(a[1..]);
    ConsSplit(a, c, b);
    ReplaceSpaceRunsSpace(a[0], tail);
    ReplaceSpaceRunsSpace(a[0], a[1..]);
    SkipSpacesStops(a[1..], c, b);
    Regroup("-", ReplaceSpaceRuns(rest), c, ReplaceSpaceRuns(b));
  }

  /** The step of `ReplaceSpaceRunsSplit` when `a` starts with any other character. */
  lemma SplitAfterOther(a: string, c: char, b: string)
    requires !IsSpace(c) && a != [] && !IsSpace(a[0])
    requires ReplaceSpaceRuns(a[1..] + [c] + b) == ReplaceSpaceRuns(a[1..]) + [c] + ReplaceSpaceRuns(b)
    ensures ReplaceSpaceRuns(a + [c] + b) == ReplaceSpaceRuns(a) + [c] + ReplaceSpaceRuns(b)
  {
    var tail := a[1..] + [c] + b;
    ConsSplit(a, c, b);
    ReplaceSpaceRunsKeeps(a[0], tail);
    ReplaceSpaceRunsKeeps(a[0], a[1..]);
    Regroup([a[0]], ReplaceSpaceRuns(a[1..]), c, ReplaceSpaceRuns(b));
  }

  /** A non-empty string is its first character followed by the rest. */
  lemma ConsSplit(a: string, c: char, b: string)
    requires a != []
    ensures a + [c] + b == [a[0]] + (a[1..] + [c] + b)
    ensures a == [a[0]] + a[1..]
  {
  }

  /** Concatenation regrouped around a single character. */
  lemma Regroup(h: string, x: string, c: char, y: string)
    ensures h + (x + [c] + y) == h + x + [c] + y
  {
  }

  /** A leading whitespace character starts a run that becomes one "-". */
  lemma ReplaceSpaceRunsSpace(c: char, s: string)
    requires IsSpace(c)
    ensures ReplaceSpaceRuns([c] + s) == "-" + ReplaceSpaceRuns(SkipSpaces(s))
  {
    assert ([c] + s)[1..] == s;
  }

  /** A non-empty run of whitespace becomes a single "-". */
  lemma ReplaceSpaceRunOfSpaces(w: string)
    requires w != [] && forall i :: 0 <= i < |w| ==> IsSpace(w[i])
    ensures ReplaceSpaceRuns(w) == "-"
  {
  }

  /** `createSlug` is idempotent: a slug is its own slug. */
  lemma CreateSlugIdempotent(name: string)
    ensures CreateSlug(CreateSlug(name)) == CreateSlug(name)
  {
    var s := CreateSlug(name);
    assert ToLower(s) == s;
    ReplaceSpaceRunsOfSlug(s);
    KeepSlugCharsOfSlug(s);
  }

  lemma LowerAcmeCo(s: string)
    requires s == "Acme Co"
    ensures ToLower(s) == "acme co"
  {
    var r := ToLower(s);
    assert |r| == 7;
    assert r[0] == LowerChar('A') == 'a';
    assert r[5] == LowerChar('C') == 'c';
  }

  lemma ReplaceSpaceRunsKeeps(c: char, s: string)
    requires !IsSpace(c)
    ensures ReplaceSpaceRuns([c] + s) == [c] + ReplaceSpaceRuns(s)
  {
    assert ([c] + s)[1..] == s;
  }

  lemma ReplaceAcmeCo(s: string)
    requires s == "acme co"
    ensures ReplaceSpaceRuns(s) == "acme-co"
  {
    var co := s[5..];
    assert co == "co";
    ReplaceSpaceRunsOfSlug(co);
    var sco := s[4..];
    assert sco[1..] == co;
    assert SkipSpaces(co) == co;
    assert ReplaceSpaceRuns(sco) == "-" + co;
    var eco := s[3..];
    ReplaceSpaceRunsKeeps(s[3], sco);
    assert eco == [s[3]] + sco;
    ReplaceSpaceRunsKeeps(s[2], eco);
    assert s[2..] == [s[2]] + eco;
    ReplaceSpaceRunsKeeps(s[1], s[2..]);
    assert s[1..] == [s[1]] + s[2..];
    ReplaceSpaceRunsKeeps(s[0], s[1..]);
    assert s == [s[0]] + s[1..];
  }

  /** `createSlug("Acme Co")` is "acme-co". */
  lemma CreateSlugExample(name: string)
    requires name == "Acme Co"
    ensures CreateSlug(name) == "acme-co"
  {
    LowerAcmeCo(name);
    var lowered := ToLower(name);
    ReplaceAcmeCo(lowered);
    var replaced := ReplaceSpaceRuns(lowered);
    assert IsSlug(replaced) by {
      assert replaced == "acme-co";
      forall i | 0 <= i < |replaced| ensures IsSlugChar(replaced[i]) {
      }
    }
    KeepSlugCharsOfSlug(replaced);
  }

  // ---------------------------------------------------------------- request body

  datatype SignupFields = SignupFields(email: string, password: string, tenantName: string)

  const PasswordRules := [Min(8, Some("Password must be at least 8 characters"))]
  const TenantNameRules := [Min(3, Some("Tenant name must be at least 3 characters"))]

  /**
   * `signupSchema.safeParse(req.body)`. A rejected object body reports each
   * failing field with exactly its own messages, and no other field.
   */
  function ParseSignup(body: Body, z: Validator): (r: Parsed<SignupFields>)
    ensures r.Parsed? <==>
      && body.Object?
      && body.Get("email").Str? && z.isEmail(body.Get("email").s)
      && body.Get("password").Str? && |body.Get("password").s| >= 8
      && body.Get("tenantName").Str? && |body.Get("tenantName").s| >= 3
    ensures r.Parsed? ==>
      r.data == SignupFields(body.Get("email").s, body.Get("password").s, body.Get("tenantName").s)
    ensures body.NotObject? ==> r == Invalid(NotAnObject(body.kind, z))
    ensures r.Invalid? && body.Object? ==>
      && r.error.formErrors == [] && r.error.fieldErrors.Some? && r.error.fieldErrors.value != []
      && DistinctKeys(r.error.fieldErrors.value)
      && Lists(r.error.fieldErrors.value, "email", StringIssues(body.Get("email"), [Email], false, z))
      && Lists(r.error.fieldErrors.value, "password", StringIssues(body.Get("password"), PasswordRules, false, z))
      && Lists(r.error.fieldErrors.value, "tenantName", StringIssues(body.Get("tenantName"), TenantNameRules, false, z))
      && forall e :: e in r.error.fieldErrors.value ==> e.0 in ["email", "password", "tenantName"]
  {
    if body.NotObject? then Invalid(NotAnObject(body.kind, z))
    else
      var email := StringIssues(body.Get("email"), [Email], false, z);
      var password := StringIssues(body.Get("password"), PasswordRules, false, z);
      var tenantName := StringIssues(body.Get("tenantName"), TenantNameRules, false, z);
      if email == [] && password == [] && tenantName == [] then
        Parsed(SignupFields(body.Get("email").s, body.Get("password").s, body.Get("tenantName").s))
      else
        var fields := [("email", email), ("password", password), ("tenantName", tenantName)];
        assert DistinctKeys(fields);
        FieldErrorsLists(fields, 0);
        FieldErrorsLists(fields, 1);
        FieldErrorsLists(fields, 2);
        FieldErrorsDistinct(fields);
        Invalid(Flattened([], Some(FieldErrors(fields))))
  }

  // ---------------------------------------------------------------- handler

  /**
   * The signup handler. `hashed` is what argon2 returned for the password. The
   * checks run in this order: method, body, email, slug. The two inserts
   * are not in a transaction: when the user insert is refused, the new tenant stays.
   */
  method Handler(app: Server, req: Request, z: Validator, hashed: string) returns (resp: Response)
    requires app.Valid()
    modifies app
    ensures app.Valid()
    ensures req.httpMethod != "POST" ==>
      resp == MethodNotAllowed && app.db == old(app.db) && app.session == old(app.session)
    ensures req.httpMethod == "POST" && ParseSignup(req.body, z).Invalid? ==>
      && resp == Rejected(ZodErrorToFormError(ParseSignup(req.body, z).error))
      && app.db == old(app.db) && app.session == old(app.session)
    ensures req.httpMethod == "POST" && ParseSignup(req.body, z).Parsed? ==>
      var f := ParseSignup(req.body, z).data;
      var slug := CreateSlug(f.tenantName);
      var tenantId := old(app.db.nextTenantId);
      var userId := old(app.db.nextUserId);
      var withTenant := InsertTenant(old(app.db), f.tenantName, slug, None);
      if EmailTaken(old(app.db), f.email) then
        resp == Fail(409, "User with this email already exists")
        && app.db == old(app.db) && app.session == old(app.session)
      else if SlugTaken(old(app.db), slug) then
        resp == Fail(409, "A tenant with this name already exists")
        && app.db == old(app.db) && app.session == old(app.session)
      else if withTenant.None? then
        resp == InternalError && app.db == old(app.db) && app.session == old(app.session)
      else if InsertUser(withTenant.value, f.email, hashed, Some(Admin), tenantId).None? then
        resp == InternalError && app.db == withTenant.value && app.session == old(app.session)
      else
        && resp == Succeed(201, Message("Signup successful"))
        && app.db.tenants == old(app.db.tenants)[tenantId := Tenant(f.tenantName, slug, Free)]
        && app.db.users == old(app.db.users)[userId := User(f.email, hashed, Admin, tenantId)]
        && app.db.notes == old(app.db.notes)
        && app.db.nextTenantId == tenantId + 1 && app.db.nextUserId == userId + 1
        && app.db.nextNoteId == old(app.db.nextNoteId)
        && app.session == Some(SessionUser(userId, f.email, Admin, tenantId, Some(slug), Some(Free)))
    ensures resp.status == 201 ==>
      |app.db.tenants.Keys| == |old(app.db.tenants).Keys| + 1 && |app.db.users.Keys| == |old(app.db.users).Keys| + 1
  {
    if req.httpMethod != "POST" {
      return MethodNotAllowed;
    }
    var parsed := ParseSignup(req.body, z);
    if parsed.Invalid? {
      return Rejected(ZodErrorToFormError(parsed.error));
    }
    var f := parsed.data;
    if EmailTaken(app.db, f.email) {
      return Fail(409, "User with this email already exists");
    }
    var slug := CreateSlug(f.tenantName);
    if SlugTaken(app.db, slug) {
      return Fail(409, "A tenant with this name already exists");
    }
    var withTenant := InsertTenant(app.db, f.tenantName, slug, None);
    if withTenant.None? {
      return InternalError;
    }
    var tenantId := app.db.nextTenantId;
    InsertTenantKeepsConsistent(app.db, app.session, f.tenantName, slug, None);
    app.db := withTenant.value;
    var withUser := InsertUser(app.db, f.email, hashed, Some(Admin), tenantId);
    if withUser.None? {
      return InternalError;
    }
    var userId := app.db.nextUserId;
    InsertUserKeepsConsistent(app.db, app.session, f.email, hashed, Some(Admin), tenantId);
    app.db := withUser.value;
    SignInSound(app.db, userId, Some(slug), Some(Free));
    app.session := Some(SessionUser(userId, f.email, Admin, tenantId, Some(slug), Some(Free)));
    resp := Succeed(201, Message("Signup successful"));
  }
}

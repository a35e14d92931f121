/** Access tokens: `issue_token` and `verify_token`. */
module Tokens {
  import opened Text
  import opened Domain
  import opened Base64Url

  /** A parsed JSON value. */
  datatype Json =
    | Null | Bool(b: bool) | Int(n: int) | Float(r: real) | Str(s: string)
    | List(items: seq<Json>) | Object(fields: map<string, Json>)

  /** HMAC-SHA-256 and the JSON codec, on which nothing but the stated round trips is assumed. */
  datatype Library = Library(
    mac: (string, string) -> seq<Byte>,
    dumps: Json -> seq<Byte>,
    loads: seq<Byte> -> Option<Json>)

  datatype Principal = Principal(
    subject: string, role: string, agent: Option<string>, tenantId: string, department: Option<string>)

  datatype Claims = Claims(
    subject: string, role: string, agent: Option<string>, tenantId: string, department: Option<string>,
    ttlSeconds: int, now: int)

  datatype IssueError = MissingArgument | BadTenant | LongDepartment

  datatype VerifyError =
    | Malformed | UnsupportedVersion | NonAsciiSignature | InvalidSignature | InvalidPayload | NotAnObject
    | InvalidAudience | Expired | InvalidRole | UnhashableRole | RoleNotAllowed
    | InvalidSubject | InvalidAgent | InvalidTenant | InvalidDepartment

  function Sign(lib: Library, secret: string, message: string): string {
    Encode(lib.mac(secret, message))
  }

  predicate Given(value: Option<string>) { value.Some? && value.value != "" }

  /** The payload of a token; an empty agent or department is left out. */
  function PayloadOf(c: Claims): map<string, Json> {
    map["aud" := Str("shopagent"), "sub" := Str(c.subject), "role" := Str(c.role),
        "iat" := Int(c.now), "exp" := Int(c.now + c.ttlSeconds), "tenant_id" := Str(c.tenantId)]
    + (if Given(c.agent) then map["agent" := Str(c.agent.value)] else map[])
    + (if Given(c.department) then map["department" := Str(c.department.value)] else map[])
  }

  function Issue(lib: Library, secret: string, c: Claims): Result<string, IssueError> {
    if secret == "" || c.subject == "" || c.ttlSeconds <= 0 then Err(MissingArgument)
    else if c.tenantId == "" || |c.tenantId| > MAX_NAME then Err(BadTenant)
    else if Given(c.department) && |c.department.value| > MAX_NAME then Err(LongDepartment)
    else
      var encoded := Encode(lib.dumps(Object(PayloadOf(c))));
      Ok("v1." + encoded + "." + Sign(lib, secret, "v1." + encoded))
  }

  // ---- verification ----

  /** Position of the first dot from `i` on, or the end. */
  function Dot(s: string, i: nat): (j: nat)
    requires i <= |s|
    ensures i <= j <= |s|
    ensures j < |s| ==> s[j] == '.'
    ensures forall k :: i <= k < j ==> s[k] != '.'
    decreases |s| - i
  {
    if i == |s| || s[i] == '.' then i else Dot(s, i + 1)
  }

  /** `token.split(".", 2)` when it yields three parts. */
  function SplitToken(s: string): Option<(string, string, string)> {
    var i := Dot(s, 0);
    if i == |s| then None
    else
      var j := Dot(s, i + 1);
      if j == |s| then None else Some((s[..i], s[i + 1..j], s[j + 1..]))
  }

  function Field(fields: map<string, Json>, name: string): Json {
    if name in fields then fields[name] else Null
  }

  /** `isinstance(value, int)`: truth values are integers. */
  function AsInt(value: Json): Option<int> {
    match value case Int(n) => Some(n) case Bool(b) => Some(if b then 1 else 0) case _ => None
  }

  predicate IsName(value: Json) {
    value.Str? && value.s != "" && |value.s| <= MAX_NAME
  }

  function CheckPayload(fields: map<string, Json>, expectedRole: string, now: int): Result<Principal, VerifyError> {
    var exp, role, agent := AsInt(Field(fields, "exp")), Field(fields, "role"), Field(fields, "agent");
    var tenant := if "tenant_id" in fields then fields["tenant_id"] else Str("global");
    var department := Field(fields, "department");
    if Field(fields, "aud") != Str("shopagent") then Err(InvalidAudience)
    else if exp.None? || exp.value <= now then Err(Expired)
    else if role.List? || role.Object? then Err(UnhashableRole)
    else if role != Str("user") && role != Str("admin") && role != Str("service") then Err(InvalidRole)
    else if expectedRole != "" && role.s != expectedRole then Err(RoleNotAllowed)
    else if !IsName(Field(fields, "sub")) then Err(InvalidSubject)
    else if agent != Null && !IsName(agent) then Err(InvalidAgent)
    else if !IsName(tenant) then Err(InvalidTenant)
    else if department != Null && !IsName(department) then Err(InvalidDepartment)
    else Ok(Principal(Field(fields, "sub").s, role.s, if agent == Null then None else Some(agent.s), tenant.s,
                      if department == Null then None else Some(department.s)))
  }

  /** An empty expected role, like none, admits every role. */
  function Verify(
      lib: Library, secret: string, token: string, expectedRole: string, now: int): Result<Principal, VerifyError>
  {
    match SplitToken(token)
    case None => Err(Malformed)
    case Some((version, encoded, signature)) =>
      if version != "v1" then Err(UnsupportedVersion)
      else if exists i :: 0 <= i < |signature| && signature[i] as int >= 128 then Err(NonAsciiSignature)
      else if signature != Sign(lib, secret, version + "." + encoded) then Err(InvalidSignature)
      else
        match Decode(encoded)
        case None => Err(InvalidPayload)
        case Some(bytes) =>
          match lib.loads(bytes)
          case None => Err(InvalidPayload)
          case Some(Object(fields)) => CheckPayload(fields, expectedRole, now)
          case Some(_) => Err(NotAnObject)
  }

  // ---- guarantees ----

  lemma DotAt(s: string, i: nat, j: nat)
    requires i <= j < |s| && s[j] == '.' && forall k :: i <= k < j ==> s[k] != '.'
    ensures Dot(s, i) == j
  {
    var d := Dot(s, i);
    assert d <= j;
  }

  /** Three dot-free parts come apart again. */
  lemma SplitJoined(a: string, b: string, c: string)
    requires '.' !in a && '.' !in b
    ensures SplitToken(a + "." + b + "." + c) == Some((a, b, c))
  {
    var s := a + "." + b + "." + c;
    assert forall k :: 0 <= k < |a| ==> s[k] == a[k];
    assert forall k :: |a| < k < |a| + 1 + |b| ==> s[k] == b[k - |a| - 1];
    DotAt(s, 0, |a|);
    DotAt(s, |a| + 1, |a| + 1 + |b|);
    assert s[..|a|] == a && s[|a| + 1..|a| + 1 + |b|] == b && s[|a| + 1 + |b| + 1..] == c;
  }

  function Normalized(value: Option<string>): Option<string> {
    if Given(value) then value else None
  }

  /**
   * What verification makes of an issued token. The issuer does not check the role or the lengths of
   * subject and agent.
   */
  function Verdict(c: Claims, expectedRole: string, now: int): Result<Principal, VerifyError> {
    if now >= c.now + c.ttlSeconds then Err(Expired)
    else if c.role != "user" && c.role != "admin" && c.role != "service" then Err(InvalidRole)
    else if expectedRole != "" && c.role != expectedRole then Err(RoleNotAllowed)
    else if |c.subject| > MAX_NAME then Err(InvalidSubject)
    else if Given(c.agent) && |c.agent.value| > MAX_NAME then Err(InvalidAgent)
    else Ok(Principal(c.subject, c.role, Normalized(c.agent), c.tenantId, Normalized(c.department)))
  }

  lemma CheckIssuedPayload(c: Claims, expectedRole: string, now: int)
    requires c.subject != "" && c.tenantId != "" && |c.tenantId| <= MAX_NAME
    requires Given(c.department) ==> |c.department.value| <= MAX_NAME
    ensures CheckPayload(PayloadOf(c), expectedRole, now) == Verdict(c, expectedRole, now)
  {
    hide PayloadOf, Field;
    PayloadFields(c);
  }

  lemma PayloadFields(c: Claims)
    ensures var p := PayloadOf(c);
      && Field(p, "aud") == Str("shopagent") && Field(p, "sub") == Str(c.subject) && Field(p, "role") == Str(c.role)
      && Field(p, "exp") == Int(c.now + c.ttlSeconds) && "tenant_id" in p && p["tenant_id"] == Str(c.tenantId)
      && Field(p, "agent") == (if Given(c.agent) then Str(c.agent.value) else Null)
      && Field(p, "department") == if Given(c.department) then Str(c.department.value) else Null
  {
  }

  /** Encodings are plain ASCII. */
  lemma EncodingIsAscii(bytes: seq<Byte>)
    ensures forall i :: 0 <= i < |Encode(bytes)| ==> (Encode(bytes)[i] as int) < 128
  {
    PaddedShape(bytes);
  }

  /**
   * Verifying an issued token with the same secret gives exactly this verdict, for all claims: the
   * principal it was issued for, until it expires and only under its own role.
   */
  lemma IssueThenVerify(lib: Library, secret: string, c: Claims, expectedRole: string, now: int)
    requires Issue(lib, secret, c).Ok?
    requires lib.loads(lib.dumps(Object(PayloadOf(c)))) == Some(Object(PayloadOf(c)))
    ensures Verify(lib, secret, Issue(lib, secret, c).value, expectedRole, now) == Verdict(c, expectedRole, now)
  {
    CheckIssuedPayload(c, expectedRole, now);
    var bytes := lib.dumps(Object(PayloadOf(c)));
    var encoded := Encode(bytes);
    EncodingIsSafe(bytes, bytes);
    RoundTrip(bytes);
    hide PayloadOf, Encode, Decode, CheckPayload, Verdict, Verify, Sign;
    VerifySigned(lib, secret, encoded, bytes, expectedRole, now);
  }

  /** A signed token is judged by its payload. */
  lemma VerifySigned(lib: Library, secret: string, encoded: string, bytes: seq<Byte>, expectedRole: string, now: int)
    requires '.' !in encoded && Decode(encoded) == Some(bytes) && lib.loads(bytes).Some?
    requires lib.loads(bytes).value.Object?
    ensures Verify(lib, secret, "v1." + encoded + "." + Sign(lib, secret, "v1." + encoded), expectedRole, now)
      == CheckPayload(lib.loads(bytes).value.fields, expectedRole, now)
  {
    var signature := Sign(lib, secret, "v1." + encoded);
    EncodingIsAscii(lib.mac(secret, "v1." + encoded));
    hide Encode, Decode, CheckPayload, SplitToken;
    var token := "v1." + encoded + "." + signature;
    var version := "v1";
    assert token == version + "." + encoded + "." + signature;
    SplitJoined(version, encoded, signature);
    assert version + "." + encoded == "v1." + encoded;
    assert SplitToken(token) == Some((version, encoded, signature));
  }

  /** Within the verifier's limits the round trip succeeds exactly before expiry and for the token's own role. */
  lemma AcceptedIff(lib: Library, secret: string, c: Claims, expectedRole: string, now: int)
    requires Issue(lib, secret, c).Ok?
    requires lib.loads(lib.dumps(Object(PayloadOf(c)))) == Some(Object(PayloadOf(c)))
    requires c.role == "user" || c.role == "admin" || c.role == "service"
    requires |c.subject| <= MAX_NAME && (Given(c.agent) ==> |c.agent.value| <= MAX_NAME)
    ensures Verify(lib, secret, Issue(lib, secret, c).value, expectedRole, now).Ok?
      <==> now < c.now + c.ttlSeconds && (expectedRole == "" || expectedRole == c.role)
  {
    IssueThenVerify(lib, secret, c, expectedRole, now);
  }

  /** What is asked of an issuer: a secret, a subject, a time to live, a tenant, and bounded names for both places. */
  lemma IssuedIff(lib: Library, secret: string, c: Claims)
    ensures Issue(lib, secret, c).Ok? <==>
      && secret != "" && c.subject != "" && c.ttlSeconds >= 1 && 1 <= |c.tenantId| <= 128
      && forall department :: c.department == Some(department) ==> |department| <= 128
  {
    hide Encode, PayloadOf;
  }

  /**
   * A token that was issued for a known role and for names within bounds is good for at least the second it was
   * issued in, for the very principal it was issued for, and useless once its time to live is over.
   */
  lemma FreshIsAccepted(lib: Library, secret: string, c: Claims)
    requires Issue(lib, secret, c).Ok?
    requires lib.loads(lib.dumps(Object(PayloadOf(c)))) == Some(Object(PayloadOf(c)))
    requires c.role in ["user", "admin", "service"]
    requires |c.subject| <= 128 && forall agent :: c.agent == Some(agent) ==> |agent| <= 128
    ensures var r := Verify(lib, secret, Issue(lib, secret, c).value, c.role, c.now);
      && r.Ok? && r.value.subject == c.subject && r.value.role == c.role && r.value.tenantId == c.tenantId
      && (r.value.agent == if c.agent == Some("") then None else c.agent)
      && (r.value.department == if c.department == Some("") then None else c.department)
    ensures Verify(lib, secret, Issue(lib, secret, c).value, c.role, c.now + c.ttlSeconds) == Err(Expired)
  {
    IssuedIff(lib, secret, c);
    IssueThenVerify(lib, secret, c, c.role, c.now);
    IssueThenVerify(lib, secret, c, c.role, c.now + c.ttlSeconds);
    hide Issue, Verify, PayloadOf;
  }

  /** The field has this value, a name of one to 128 characters. */
  predicate Says(fields: map<string, Json>, name: string, value: string) {
    name in fields && fields[name] == Str(value) && 1 <= |value| <= 128
  }

  /** The value is the number `n`; truth values are the numbers 1 and 0. */
  predicate IsNumber(value: Json, n: int) {
    value == Int(n) || (value == Bool(true) && n == 1) || (value == Bool(false) && n == 0)
  }

  /** The field is missing or null. */
  predicate IsSilent(fields: map<string, Json>, name: string) {
    name !in fields || fields[name] == Null
  }

  /**
   * What a payload must say to make this principal: for this audience, not expired, of a known role and the role
   * expected, with a subject and, where they are given, an agent, a tenant and a department.
   */
  ghost predicate Supports(fields: map<string, Json>, expectedRole: string, now: int, q: Principal) {
    && "aud" in fields && fields["aud"] == Str("shopagent")
    && "exp" in fields && (exists n :: n > now && IsNumber(fields["exp"], n))
    && "role" in fields && fields["role"] == Str(q.role) && q.role in ["user", "admin", "service"]
    && (expectedRole == "" || expectedRole == q.role)
    && Says(fields, "sub", q.subject)
    && (if q.agent.Some? then Says(fields, "agent", q.agent.value) else IsSilent(fields, "agent"))
    && (if "tenant_id" in fields then Says(fields, "tenant_id", q.tenantId) else q.tenantId == "global")
    && (if q.department.Some? then Says(fields, "department", q.department.value) else IsSilent(fields, "department"))
  }

  /** A payload makes a principal exactly if it says so, whoever wrote it. */
  lemma PayloadIff(fields: map<string, Json>, expectedRole: string, now: int, q: Principal)
    ensures CheckPayload(fields, expectedRole, now) == Ok(q) <==> Supports(fields, expectedRole, now, q)
  {
    var exp := Field(fields, "exp");
    forall n ensures IsNumber(exp, n) <==> AsInt(exp) == Some(n) {}
    hide AsInt, IsNumber;
    assert AsInt(exp).Some? ==> IsNumber(exp, AsInt(exp).value);
  }

  /** A subject of 129 characters gets a token that no verification accepts. */
  lemma LongSubjectIsUseless(lib: Library, secret: string, c: Claims, now: int)
    requires secret != "" && c.subject == seq(129, _ => 's') && c.role == "user" && c.tenantId == "global"
    requires c.agent.None? && c.department.None? && c.ttlSeconds > 0 && c.now <= now < c.now + c.ttlSeconds
    requires lib.loads(lib.dumps(Object(PayloadOf(c)))) == Some(Object(PayloadOf(c)))
    ensures Issue(lib, secret, c).Ok?
    ensures Verify(lib, secret, Issue(lib, secret, c).value, "user", now) == Err(InvalidSubject)
  {
    assert Issue(lib, secret, c).Ok? by { hide Encode, PayloadOf; }
    IssueThenVerify(lib, secret, c, "user", now);
  }

  /**
   * Whatever is accepted carries the signature of its own payload under the secret: nothing else can follow
   * or replace it.
   */
  lemma AcceptedIsSigned(lib: Library, secret: string, token: string, expectedRole: string, now: int)
    requires Verify(lib, secret, token, expectedRole, now).Ok?
    ensures exists encoded :: '.' !in encoded && token == "v1." + encoded + "." + Sign(lib, secret, "v1." + encoded)
  {
    hide CheckPayload, Decode, Sign;
    var (version, encoded, signature) := SplitToken(token).value;
    var i := Dot(token, 0);
    var j := Dot(token, i + 1);
    assert token == token[..i] + "." + token[i + 1..j] + "." + token[j + 1..];
    assert version + "." + encoded == "v1." + encoded;
    assert token == "v1." + encoded + "." + signature;
  }

  /** And its payload says everything that the principal it makes stands for. */
  lemma AcceptedSays(lib: Library, secret: string, token: string, expectedRole: string, now: int)
    requires Verify(lib, secret, token, expectedRole, now).Ok?
    ensures exists encoded, fields ::
      && token == "v1." + encoded + "." + Sign(lib, secret, "v1." + encoded)
      && Decode(encoded).Some? && lib.loads(Decode(encoded).value) == Some(Object(fields))
      && Supports(fields, expectedRole, now, Verify(lib, secret, token, expectedRole, now).value)
  {
    hide CheckPayload, Decode, Sign, Supports;
    var (version, encoded, signature) := SplitToken(token).value;
    var i := Dot(token, 0);
    var j := Dot(token, i + 1);
    assert token == token[..i] + "." + token[i + 1..j] + "." + token[j + 1..];
    assert version + "." + encoded == "v1." + encoded;
    assert token == "v1." + encoded + "." + signature;
    var fields := lib.loads(Decode(encoded).value).value.fields;
    PayloadIff(fields, expectedRole, now, Verify(lib, secret, token, expectedRole, now).value);
  }
}

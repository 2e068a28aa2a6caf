/** `authenticateToken` and `GET /api/resource/:id` of backend/index.js:
    a bearer-token gate, then `parseInt(id, 10)`, then the ownership gate
    whose refusal has one body whether the resource is missing or belongs
    to someone else. `Math.random() < 0.5` is the parameter `coin` and
    `process.env.NODE_ENV` the parameter `nodeEnv`. */
module ResourceAccess {
  import opened JsText
  import opened ApiTypes

  datatype User = User(id: int, token: string)
  datatype Resource = Resource(id: int, ownerId: int, data: string)

  /** The in-memory seed data. */
  const SeedUsers: seq<User> := [User(1, "tokenA"), User(2, "tokenB")]
  const SeedResources: seq<Resource> := [Resource(1, 1, "Resource 1"), Resource(2, 2, "Resource 2")]

  const AuthRequired := "Authentication required."
  const InvalidToken := "Invalid or expired token."
  const AccessDenied := "Access denied or resource not found."
  const BearerPrefix := "Bearer "

  // ------------------------------------------------------------- lookups

  /** `users.find(u => u.token === token)`: the first user with that token. */
  function FindUser(users: seq<User>, token: string): (r: Option<User>)
    ensures r.None? <==> forall i :: 0 <= i < |users| ==> users[i].token != token
    ensures r.Some? ==> exists i :: 0 <= i < |users| && users[i] == r.value && r.value.token == token
                                    && forall j :: 0 <= j < i ==> users[j].token != token
  {
    if users == [] then None
    else if users[0].token == token then Some(users[0])
    else
      var r := FindUser(users[1..], token);
      assert forall i :: 1 <= i < |users| ==> users[i] == users[1..][i - 1];
      r
  }

  /** `resources.find(r => r.id === resourceId)`: the first resource with that id. */
  function FindResource(resources: seq<Resource>, id: int): (r: Option<Resource>)
    ensures r.None? <==> forall i :: 0 <= i < |resources| ==> resources[i].id != id
    ensures r.Some? ==> exists i :: 0 <= i < |resources| && resources[i] == r.value && r.value.id == id
                                    && forall j :: 0 <= j < i ==> resources[j].id != id
  {
    if resources == [] then None
    else if resources[0].id == id then Some(resources[0])
    else
      var r := FindResource(resources[1..], id);
      assert forall i :: 1 <= i < |resources| ==> resources[i] == resources[1..][i - 1];
      r
  }

  // --------------------------------------------------- authenticateToken

  datatype AuthResult = Authenticated(user: User) | Rejected(response: Response)

  /** `authenticateToken`: the `Authorization` header must start with
      `"Bearer "`, and the rest of it must be some user's token. */
  function Authenticate(authorization: Option<string>, users: seq<User>): (r: AuthResult)
    ensures r == Rejected(Response(401, Error(AuthRequired))) <==>
              authorization.None? || !StartsWith(authorization.value, BearerPrefix)
    ensures r == Rejected(Response(403, Error(InvalidToken))) <==>
              authorization.Some? && StartsWith(authorization.value, BearerPrefix)
              && forall i :: 0 <= i < |users| ==> users[i].token != authorization.value[7..]
    ensures r.Authenticated? ==> r.user in users && authorization == Some(BearerPrefix + r.user.token)
    ensures r.Authenticated? ==>
              exists i :: 0 <= i < |users| && users[i] == r.user
                          && forall j :: 0 <= j < i ==> users[j].token != r.user.token
  {
    if authorization.None? || !StartsWith(authorization.value, BearerPrefix) then
      Rejected(Response(401, Error(AuthRequired)))
    else
      var token := authorization.value[7..];
      match FindUser(users, token)
      case None => Rejected(Response(403, Error(InvalidToken)))
      case Some(u) =>
        assert authorization.value == BearerPrefix + token;
        Authenticated(u)
  }

  // --------------------------------------------------------- parseInt

  predicate IsDigit(c: char) {
    '0' <= c <= '9'
  }

  predicate AllDigits(s: string) {
    forall i :: 0 <= i < |s| ==> IsDigit(s[i])
  }

  function DigitValue(c: char): int {
    c as int - '0' as int
  }

  function DigitChar(d: nat): (c: char)
    requires d < 10
    ensures IsDigit(c) && DigitValue(c) == d
  {
    ('0' as int + d) as char
  }

  /** The end of the run of decimal digits that starts at `i`. */
  function DigitsEnd(s: string, i: nat): (k: nat)
    requires i <= |s|
    ensures i <= k <= |s|
    ensures forall j {:trigger IsDigit(s[j])} :: i <= j < k ==> IsDigit(s[j])
    ensures k < |s| ==> !IsDigit(s[k])
    decreases |s| - i
  {
    if i < |s| && IsDigit(s[i]) then DigitsEnd(s, i + 1) else i
  }

  /** The value of the digits `s[i..k]`, most significant first. */
  function DigitsValue(s: string, i: nat, k: nat): int
    requires i <= k <= |s|
    decreases k - i
  {
    if i == k then 0 else 10 * DigitsValue(s, i, k - 1) + DigitValue(s[k - 1])
  }

  /** `parseInt(s, 10)`: leading whitespace is skipped, one sign is
      allowed, and the longest run of digits that follows is read; with no
      digit the result is NaN, here `None`. */
  function ParseInt(s: string): (r: Option<int>)
    ensures r.Some? <==> DigitAfterSign(s, SkipWhitespace(s, 0))
  {
    var a := SkipWhitespace(s, 0);
    if a < |s| && s[a] == '-' then Negate(UnsignedDigits(s, a + 1))
    else if a < |s| && s[a] == '+' then UnsignedDigits(s, a + 1)
    else UnsignedDigits(s, a)
  }

  /** After the whitespace that ends at `a` and one optional sign, a digit
      follows: the condition for `parseInt` not to give NaN. */
  predicate DigitAfterSign(s: string, a: nat) {
    var b := if a < |s| && (s[a] == '-' || s[a] == '+') then a + 1 else a;
    b < |s| && IsDigit(s[b])
  }

  /** The digits from `i` on, if there is at least one. */
  function UnsignedDigits(s: string, i: nat): Option<int>
    requires i <= |s|
  {
    var k := DigitsEnd(s, i);
    if k == i then None else Some(DigitsValue(s, i, k))
  }

  function Negate(v: Option<int>): Option<int> {
    if v.None? then None else Some(-v.value)
  }

  /** The decimal spelling of a natural number, without leading zeros. */
  function Decimal(n: nat): (s: string)
    ensures s != [] && AllDigits(s)
  {
    if n < 10 then [DigitChar(n)] else Decimal(n / 10) + [DigitChar(n % 10)]
  }

  /** The value of a run of digits depends on those digits only, not on
      where they sit. */
  lemma {:induction false} DigitsValueShift(s: string, i: nat, t: string, k: nat)
    requires i + k <= |s| && k <= |t|
    requires forall j :: 0 <= j < k ==> s[i + j] == t[j]
    ensures DigitsValue(s, i, i + k) == DigitsValue(t, 0, k)
  {
    if k > 0 {
      DigitsValueShift(s, i, t, k - 1);
      assert s[i + (k - 1)] == t[k - 1];
    }
  }

  lemma {:induction false} DecimalValue(n: nat)
    ensures DigitsValue(Decimal(n), 0, |Decimal(n)|) == n
  {
    if n >= 10 {
      var d, s := Decimal(n / 10), Decimal(n);
      DecimalValue(n / 10);
      assert s == d + [DigitChar(n % 10)];
      DigitsValueShift(s, 0, d, |d|);
    }
  }

  /** The run of digits starting at `i` ends at `e`. */
  lemma DigitsEndAt(s: string, i: nat, e: nat)
    requires i <= e <= |s|
    requires forall j :: i <= j < e ==> IsDigit(s[j])
    requires e == |s| || !IsDigit(s[e])
    ensures DigitsEnd(s, i) == e
  {
  }

  /** A decimal spelling at `i`, followed by anything but a digit, is
      read as its number. */
  lemma UnsignedOfDecimalAt(s: string, i: nat, n: nat)
    requires i + |Decimal(n)| <= |s|
    requires forall j :: 0 <= j < |Decimal(n)| ==> s[i + j] == Decimal(n)[j]
    requires i + |Decimal(n)| == |s| || !IsDigit(s[i + |Decimal(n)|])
    ensures UnsignedDigits(s, i) == Some(n as int)
  {
    var d := Decimal(n);
    forall j | i <= j < i + |d|
      ensures IsDigit(s[j])
    {
      assert s[i + (j - i)] == d[j - i];
    }
    DigitsEndAt(s, i, i + |d|);
    DigitsValueShift(s, i, d, |d|);
    DecimalValue(n);
  }

  /** `parseInt` reads back a decimal spelling, also when other text
      follows it (`"2abc"` gives 2). */
  lemma ParseIntOfDecimal(n: nat, rest: string)
    requires rest == [] || !IsDigit(rest[0])
    ensures ParseInt(Decimal(n) + rest) == Some(n as int)
  {
    var d := Decimal(n);
    var s := d + rest;
    assert IsDigit(s[0]);
    assert SkipWhitespace(s, 0) == 0;
    UnsignedOfDecimalAt(s, 0, n);
  }

  /** A leading minus negates what follows it. */
  lemma ParseIntOfNegatedDecimal(n: nat, rest: string)
    requires rest == [] || !IsDigit(rest[0])
    ensures ParseInt(['-'] + (Decimal(n) + rest)) == Some(-(n as int))
  {
    var s := ['-'] + (Decimal(n) + rest);
    ParseIntOfMinus(s);
    UnsignedAfterMinus(n, rest);
  }

  lemma ParseIntOfMinus(s: string)
    requires s != [] && s[0] == '-'
    ensures ParseInt(s) == Negate(UnsignedDigits(s, 1))
  {
    assert SkipWhitespace(s, 0) == 0;
  }

  lemma UnsignedAfterMinus(n: nat, rest: string)
    requires rest == [] || !IsDigit(rest[0])
    ensures UnsignedDigits(['-'] + (Decimal(n) + rest), 1) == Some(n as int)
  {
    var d := Decimal(n);
    var s := ['-'] + (d + rest);
    assert forall j :: 0 <= j < |d| ==> s[1 + j] == d[j];
    assert 1 + |d| < |s| ==> s[1 + |d|] == rest[0];
    UnsignedOfDecimalAt(s, 1, n);
  }

  /** Without a digit after the optional sign there is no number. */
  lemma ParseIntNoDigits(s: string)
    requires s != [] && !IsDigit(s[0]) && !IsJsWhitespace(s[0]) && s[0] != '-' && s[0] != '+'
    ensures ParseInt(s) == None
  {
    assert SkipWhitespace(s, 0) == 0;
    assert DigitsEnd(s, 0) == 0;
  }

  // ------------------------------------------------------- ownership gate

  /** The status of a refusal: always 403 under `NODE_ENV === 'test'`,
      otherwise 403 or 404 as the coin falls. */
  function DenialStatus(nodeEnv: Option<string>, coin: bool): (status: int)
    ensures nodeEnv == Some("test") ==> status == 403
    ensures status == 403 || status == 404
  {
    if nodeEnv == Some("test") then 403 else if coin then 403 else 404
  }

  /** Outside test mode both statuses can occur; in test mode only 403. */
  lemma DenialStatusChoices(nodeEnv: Option<string>)
    ensures (exists coin :: DenialStatus(nodeEnv, coin) == 404) <==> nodeEnv != Some("test")
    ensures exists coin :: DenialStatus(nodeEnv, coin) == 403
  {
    assert DenialStatus(nodeEnv, true) == 403;
    if nodeEnv != Some("test") {
      assert DenialStatus(nodeEnv, false) == 404;
    }
  }

  /** The caller may see the resource: it exists and they own it. */
  predicate Owns(user: User, id: int, resources: seq<Resource>) {
    var r := FindResource(resources, id);
    r.Some? && r.value.ownerId == user.id
  }

  /** The decision after authentication and parsing. */
  function AccessDecision(user: User, id: int, resources: seq<Resource>,
                          nodeEnv: Option<string>, coin: bool): (resp: Response)
    ensures resp.status in {200, 403, 404}
    ensures resp.status != 200 ==> resp.body == Error(AccessDenied)
  {
    var r := FindResource(resources, id);
    if r.None? || r.value.ownerId != user.id then
      Response(DenialStatus(nodeEnv, coin), Error(AccessDenied))
    else
      Response(200, ResourceData(r.value.id, r.value.data))
  }

  /** The owner gets the resource; anyone else, for a missing or a foreign
      resource alike, gets the one generic body with a 403 or 404. */
  lemma AccessDecisionSpec(user: User, id: int, resources: seq<Resource>,
                           nodeEnv: Option<string>, coin: bool)
    ensures var resp := AccessDecision(user, id, resources, nodeEnv, coin);
            && (resp.status == 200 <==> Owns(user, id, resources))
            && (Owns(user, id, resources) ==>
                  exists i :: 0 <= i < |resources| && resources[i].id == id && resources[i].ownerId == user.id
                              && resp.body == ResourceData(id, resources[i].data)
                              && forall j :: 0 <= j < i ==> resources[j].id != id)
            && (!Owns(user, id, resources) ==>
                  resp.body == Error(AccessDenied) && (resp.status == 403 || resp.status == 404)
                  && (nodeEnv == Some("test") ==> resp.status == 403))
  {
  }

  /** No information leak: a missing resource and a resource owned by
      someone else give identical responses, status included, under the
      same mode and coin. */
  lemma MissingAndForeignLookAlike(user: User, missing: int, foreign: int, resources: seq<Resource>,
                                   nodeEnv: Option<string>, coin: bool)
    requires forall i :: 0 <= i < |resources| ==> resources[i].id != missing
    requires exists i :: 0 <= i < |resources| && resources[i].id == foreign
    requires forall i :: 0 <= i < |resources| && resources[i].id == foreign ==> resources[i].ownerId != user.id
    ensures AccessDecision(user, missing, resources, nodeEnv, coin)
            == AccessDecision(user, foreign, resources, nodeEnv, coin)
  {
    var r := FindResource(resources, foreign);
    assert r.Some?;
  }

  /** `GET /api/resource/:id` behind `authenticateToken`. */
  function ResourceResponse(authorization: Option<string>, idParam: string, users: seq<User>,
                            resources: seq<Resource>, nodeEnv: Option<string>, coin: bool): (r: Response)
    ensures r.status in {200, 400, 401, 403, 404}
    ensures r.status == 400 <==> Authenticate(authorization, users).Authenticated? && ParseInt(idParam).None?
  {
    match Authenticate(authorization, users)
    case Rejected(resp) => resp
    case Authenticated(user) =>
      match ParseInt(idParam)
      case None => Response(400, Error("Invalid resource ID."))
      case Some(id) => AccessDecision(user, id, resources, nodeEnv, coin)
  }

  /** An id that is not a number (`"abc"`) is refused with 400 once the
      caller is authenticated, before any resource is looked up. */
  lemma ResourceBadIdIs400(authorization: Option<string>, idParam: string, users: seq<User>,
                           resources: seq<Resource>, nodeEnv: Option<string>, coin: bool)
    requires Authenticate(authorization, users).Authenticated?
    requires idParam != [] && !IsDigit(idParam[0]) && !IsJsWhitespace(idParam[0])
    requires idParam[0] != '-' && idParam[0] != '+'
    ensures ResourceResponse(authorization, idParam, users, resources, nodeEnv, coin)
            == Response(400, Error("Invalid resource ID."))
  {
    ParseIntNoDigits(idParam);
  }

  /** Once authenticated and parsed, the ownership gate alone decides. */
  lemma ResponseAfterAuthentication(authorization: Option<string>, idParam: string, user: User, id: int,
                                    users: seq<User>, resources: seq<Resource>,
                                    nodeEnv: Option<string>, coin: bool)
    requires Authenticate(authorization, users) == Authenticated(user)
    requires ParseInt(idParam) == Some(id)
    ensures ResourceResponse(authorization, idParam, users, resources, nodeEnv, coin)
            == AccessDecision(user, id, resources, nodeEnv, coin)
  {
  }

  /** Authentication runs first: a rejected credential is answered the
      same whatever the id, even one that does not parse. */
  lemma AuthenticationBeforeId(authorization: Option<string>, id1: string, id2: string, users: seq<User>,
                               resources: seq<Resource>, nodeEnv: Option<string>, coin: bool)
    requires Authenticate(authorization, users).Rejected?
    ensures ResourceResponse(authorization, id1, users, resources, nodeEnv, coin)
            == ResourceResponse(authorization, id2, users, resources, nodeEnv, coin)
    ensures ResourceResponse(authorization, id1, users, resources, nodeEnv, coin).status in {401, 403}
  {
  }

  /** The seeded scenario, as the security tests drive it: no header is
      401 and an unknown token 403. */
  lemma SeedRejections(id: string, nodeEnv: Option<string>, coin: bool)
    ensures ResourceResponse(None, id, SeedUsers, SeedResources, nodeEnv, coin)
            == Response(401, Error(AuthRequired))
    ensures ResourceResponse(Some("Bearer invalidtoken"), id, SeedUsers, SeedResources, nodeEnv, coin)
            == Response(403, Error(InvalidToken))
  {
    var bad := "Bearer invalidtoken";
    assert StartsWith(bad, BearerPrefix) && bad[7..] == "invalidtoken";
  }

  /** The same holds for whole requests: an authenticated caller cannot
      tell a foreign resource from a missing one. */
  lemma ForeignLooksMissing(authorization: Option<string>, foreignParam: string, missingParam: string,
                            user: User, foreign: int, missing: int, users: seq<User>,
                            resources: seq<Resource>, nodeEnv: Option<string>, coin: bool)
    requires Authenticate(authorization, users) == Authenticated(user)
    requires ParseInt(foreignParam) == Some(foreign) && ParseInt(missingParam) == Some(missing)
    requires forall i :: 0 <= i < |resources| ==> resources[i].id != missing
    requires exists i :: 0 <= i < |resources| && resources[i].id == foreign
    requires forall i :: 0 <= i < |resources| && resources[i].id == foreign ==> resources[i].ownerId != user.id
    ensures ResourceResponse(authorization, foreignParam, users, resources, nodeEnv, coin)
            == ResourceResponse(authorization, missingParam, users, resources, nodeEnv, coin)
    ensures ResourceResponse(authorization, foreignParam, users, resources, nodeEnv, coin).body == Error(AccessDenied)
  {
    ResponseAfterAuthentication(authorization, foreignParam, user, foreign, users, resources, nodeEnv, coin);
    ResponseAfterAuthentication(authorization, missingParam, user, missing, users, resources, nodeEnv, coin);
    MissingAndForeignLookAlike(user, missing, foreign, resources, nodeEnv, coin);
    AccessDecisionSpec(user, foreign, resources, nodeEnv, coin);
  }

  /** The two seeded bearer tokens authenticate their users. */
  lemma SeedTokensAuthenticate()
    ensures Authenticate(Some("Bearer tokenA"), SeedUsers) == Authenticated(User(1, "tokenA"))
    ensures Authenticate(Some("Bearer tokenB"), SeedUsers) == Authenticated(User(2, "tokenB"))
  {
    var tokA, tokB := "Bearer tokenA", "Bearer tokenB";
    assert StartsWith(tokA, BearerPrefix) && tokA[7..] == "tokenA";
    assert StartsWith(tokB, BearerPrefix) && tokB[7..] == "tokenB";
  }

  /** With the seeded data, user 1 reads resource 1 and nothing else:
      user 2's resource and an id that exists nowhere get the same
      refusal. */
  lemma SeedUserOneReadsOnlyOwn(idParam: string, id: int, nodeEnv: Option<string>, coin: bool)
    requires ParseInt(idParam) == Some(id)
    ensures id == 1 ==> ResourceResponse(Some("Bearer tokenA"), idParam, SeedUsers, SeedResources, nodeEnv, coin)
                        == Response(200, ResourceData(1, "Resource 1"))
    ensures id != 1 ==> ResourceResponse(Some("Bearer tokenA"), idParam, SeedUsers, SeedResources, nodeEnv, coin)
                        == Response(DenialStatus(nodeEnv, coin), Error(AccessDenied))
  {
    SeedTokensAuthenticate();
    ResponseAfterAuthentication(Some("Bearer tokenA"), idParam, User(1, "tokenA"), id, SeedUsers, SeedResources, nodeEnv, coin);
  }

  /** The owner gets the resource. */
  lemma SeedOwnerReads(nodeEnv: Option<string>, coin: bool)
    ensures ResourceResponse(Some("Bearer tokenB"), "2", SeedUsers, SeedResources, nodeEnv, coin)
            == Response(200, ResourceData(2, "Resource 2"))
  {
    SeedTokensAuthenticate();
    ParsesTwo();
    ResponseAfterAuthentication(Some("Bearer tokenB"), "2", User(2, "tokenB"), 2, SeedUsers, SeedResources, nodeEnv, coin);
  }

  lemma ParsesTwo()
    ensures ParseInt("2") == Some(2)
  {
    var s := "2";
    assert SkipWhitespace(s, 0) == 0;
    DigitsEndAt(s, 0, 1);
  }

  lemma ParsesNineNineNine()
    ensures ParseInt("999") == Some(999)
  {
    var s := "999";
    assert SkipWhitespace(s, 0) == 0;
    DigitsEndAt(s, 0, 3);
    assert DigitsValue(s, 0, 3) == 999;
  }
}

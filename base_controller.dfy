/**
 * What every controller inherits (Controllers/BaseController.cs): the caller's id and role
 * read from the claims of the authenticated principal, and the envelope helpers. The id
 * claim is parsed the way `int.TryParse` parses a decimal integer.
 */
module Controllers {
  import opened Wrappers
  import opened Responses

  datatype Claim = Claim(claimType: string, value: string)

  /** The authenticated caller (`ControllerBase.User`): its claims, in token order. */
  datatype Principal = Principal(claims: seq<Claim>)

  const NameIdentifier: string := "http://schemas.xmlsoap.org/ws/2005/05/identity/claims/nameidentifier"
  const RoleClaim: string := "http://schemas.microsoft.com/ws/2008/06/identity/claims/role"

  /** The default message of the controller's success helpers. */
  const Succeeded: string := "Успешно"

  /** Upper-case form of an ASCII letter; every other character is left as it is. */
  function FoldCase(c: char): char {
    if 'a' <= c <= 'z' then (c as int - 32) as char else c
  }

  /**
   * Claim types compare ordinally ignoring case (`StringComparison.OrdinalIgnoreCase`),
   * with case folded on ASCII letters.
   */
  predicate SameClaimType(a: string, b: string) {
    |a| == |b| && forall i | 0 <= i < |a| :: FoldCase(a[i]) == FoldCase(b[i])
  }

  /** `ClaimsPrincipal.FindFirst`: the first claim of that type. */
  function FindFirst(claims: seq<Claim>, claimType: string): (r: Option<Claim>)
    ensures r.None? <==> forall c | c in claims :: !SameClaimType(c.claimType, claimType)
    ensures r.Some? ==> exists i | 0 <= i < |claims| ::
      && claims[i] == r.value && SameClaimType(r.value.claimType, claimType)
      && forall j | 0 <= j < i :: !SameClaimType(claims[j].claimType, claimType)
  {
    if claims == [] then None
    else if SameClaimType(claims[0].claimType, claimType) then Some(claims[0])
    else
      var r := FindFirst(claims[1..], claimType);
      assert forall c | c in claims :: c == claims[0] || c in claims[1..];
      if r.Some? then
        var i :| 0 <= i < |claims[1..]| && claims[1..][i] == r.value && SameClaimType(r.value.claimType, claimType)
                 && forall j | 0 <= j < i :: !SameClaimType(claims[1..][j].claimType, claimType);
        assert claims[i + 1] == r.value;
        assert forall j | 0 <= j < i + 1 :: !SameClaimType(claims[j].claimType, claimType) by {
          forall j | 0 <= j < i + 1 ensures !SameClaimType(claims[j].claimType, claimType) {
            if j > 0 { assert claims[j] == claims[1..][j - 1]; }
          }
        }
        r
      else r
  }

  const Int32Min: int := -0x8000_0000
  const Int32Max: int := 0x7FFF_FFFF

  /** The white space `NumberStyles.Integer` lets surround the digits: U+0009 to U+000D and U+0020. */
  predicate IsWhite(c: char) {
    c == ' ' || '\t' <= c <= '\r'
  }

  predicate IsDigit(c: char) {
    '0' <= c <= '9'
  }

  function DigitValue(c: char): int
    requires IsDigit(c)
  {
    c as int - '0' as int
  }

  function TrimStart(s: string): (r: string)
    ensures r == [] || !IsWhite(r[0])
    ensures |r| <= |s| && r == s[|s| - |r|..]
  {
    if s != [] && IsWhite(s[0]) then TrimStart(s[1..]) else s
  }

  function TrimEnd(s: string): (r: string)
    ensures r == [] || !IsWhite(r[|r| - 1])
    ensures |r| <= |s| && r == s[..|r|]
  {
    if s != [] && IsWhite(s[|s| - 1]) then TrimEnd(s[..|s| - 1]) else s
  }

  predicate AllDigits(s: string) {
    forall i | 0 <= i < |s| :: IsDigit(s[i])
  }

  /** The value of a string of decimal digits, most significant first. */
  function DigitsValue(s: string): (n: nat)
    requires AllDigits(s)
  {
    if s == [] then 0 else DigitsValue(s[..|s| - 1]) * 10 + DigitValue(s[|s| - 1])
  }

  /**
   * `int.TryParse(s, out n)` with the invariant culture's signs: optional surrounding white
   * space, an optional `+` or `-`, then at least one ASCII digit; a value outside the
   * 32-bit range is a failure.
   */
  function ParseInt32(s: string): (r: Option<int>)
    ensures r.Some? ==> Int32Min <= r.value <= Int32Max
  {
    var t := TrimEnd(TrimStart(s));
    var negative := t != [] && t[0] == '-';
    var digits := if t != [] && (t[0] == '-' || t[0] == '+') then t[1..] else t;
    if digits == [] || !AllDigits(digits) then None
    else
      var n: int := if negative then 0 - DigitsValue(digits) as int else DigitsValue(digits);
      if Int32Min <= n <= Int32Max then Some(n) else None
  }

  function Digit(d: int): char
    requires 0 <= d < 10
  {
    ('0' as int + d) as char
  }

  /** The canonical decimal form of a natural number. */
  function ShowNat(n: nat): (s: string)
    ensures s != [] && AllDigits(s)
  {
    if n < 10 then [Digit(n)] else ShowNat(n / 10) + [Digit(n % 10)]
  }

  /** The decimal form the token issuer writes into the id claim (`int.ToString()`). */
  function ShowInt(n: int): string {
    if n < 0 then "-" + ShowNat(-n) else ShowNat(n)
  }

  lemma {:induction false} ShowNatValue(n: nat)
    ensures DigitsValue(ShowNat(n)) == n
  {
    var s := ShowNat(n);
    if n >= 10 {
      ShowNatValue(n / 10);
      assert s[..|s| - 1] == ShowNat(n / 10);
    }
  }

  /** Printing an `int` and parsing it back gives the same `int`. */
  lemma ParseShowRoundTrip(n: int)
    requires Int32Min <= n <= Int32Max
    ensures ParseInt32(ShowInt(n)) == Some(n)
  {
    var s := ShowInt(n);
    var m := if n < 0 then -n else n;
    var digits := ShowNat(m);
    ShowNatValue(m);
    assert !IsWhite(s[0]);
    assert TrimStart(s) == s;
    assert s[|s| - 1] == digits[|digits| - 1];
    assert TrimEnd(s) == s;
    if n < 0 {
      assert s[1..] == digits;
    } else {
      assert s[0] != '-' && s[0] != '+';
    }
  }

  /**
   * `GetCurrentUserId`: the first id claim, parsed; 0 when there is no such claim or it
   * does not parse.
   */
  function GetCurrentUserId(user: Principal): (id: int)
    ensures (forall c | c in user.claims :: !SameClaimType(c.claimType, NameIdentifier)) ==> id == 0
    ensures FindFirst(user.claims, NameIdentifier).Some? ==>
      id == ParseInt32(FindFirst(user.claims, NameIdentifier).value.value).GetOr(0)
    ensures Int32Min <= id <= Int32Max
  {
    match FindFirst(user.claims, NameIdentifier)
    case None => 0
    case Some(claim) =>
      match ParseInt32(claim.value)
      case Some(userId) => userId
      case None => 0
  }

  /** A caller whose first id claim is the printed form of `n` is user `n`. */
  lemma CurrentUserIdOfPrintedClaim(user: Principal, n: int)
    requires Int32Min <= n <= Int32Max
    requires FindFirst(user.claims, NameIdentifier) == Some(Claim(NameIdentifier, ShowInt(n)))
    ensures GetCurrentUserId(user) == n
  {
    ParseShowRoundTrip(n);
  }

  /** `GetCurrentUserRole`: the first role claim's value, or the empty string. */
  function GetCurrentUserRole(user: Principal): (role: string)
    ensures (forall c | c in user.claims :: !SameClaimType(c.claimType, RoleClaim)) ==> role == ""
    ensures forall i | 0 <= i < |user.claims| && SameClaimType(user.claims[i].claimType, RoleClaim)
                       && (forall j | 0 <= j < i :: !SameClaimType(user.claims[j].claimType, RoleClaim)) ::
              role == user.claims[i].value
  {
    match FindFirst(user.claims, RoleClaim)
    case None => ""
    case Some(claim) => claim.value
  }

  /** `SuccessResponse<T>(data, message)` of the controllers. */
  function ControllerSuccess<T>(data: T, message: string := Succeeded): (r: Envelope<T>)
    ensures r.success && r.message == message && r.data == Some(data)
  {
    Envelope(true, message, Some(data))
  }

  /** `SuccessResponse(message)` of the controllers. */
  function ControllerSuccessPlain(message: string := Succeeded): (r: Response)
    ensures r.success && r.message == message
  {
    Response(true, message)
  }

  /** `ErrorResponse<T>(message)` of the controllers. */
  function ControllerError<T>(message: string): (r: Envelope<T>)
    ensures !r.success && r.message == message && r.data.None?
  {
    Envelope(false, message, None)
  }

  /** `ErrorResponse(message)` of the controllers. */
  function ControllerErrorPlain(message: string): (r: Response)
    ensures !r.success && r.message == message
  {
    Response(false, message)
  }

  /** The controller helpers build the same envelopes as the response factories. */
  lemma ControllerHelpersAgree<T>(data: T, message: string)
    ensures ControllerSuccess(data, message) == SuccessResponseOf(data, message)
    ensures ControllerError<T>(message) == ErrorResponseOf(message)
    ensures ControllerSuccessPlain(message) == SuccessResponse(message)
    ensures ControllerErrorPlain(message) == ErrorResponse(message)
  {
  }
}

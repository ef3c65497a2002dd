/** Accounts and sessions (AuthService.java, User.java). Passwords are kept
    as the decimal text of Java's String.hashCode; sessions map a token to a
    username. The token of a login (a random UUID in the service) is a
    parameter here. */
module Auth {
  import opened Wrappers

  const TwoTo16: int := 0x1_0000
  const TwoTo31: int := 0x8000_0000
  const TwoTo32: int := 0x1_0000_0000

  /** Java int arithmetic: `x` wrapped into the signed 32-bit range. */
  function Wrap32(x: int): (r: int)
    ensures -TwoTo31 <= r < TwoTo31
    ensures (r - x) % TwoTo32 == 0
  {
    (x + TwoTo31) % TwoTo32 - TwoTo31
  }

  /** Wrapping only depends on the value modulo 2^32. */
  lemma WrapShift(x: int, k: int)
    ensures Wrap32(x + k * TwoTo32) == Wrap32(x)
  {
    var a := x + TwoTo31;
    var q, r := a / TwoTo32, a % TwoTo32;
    assert a == q * TwoTo32 + r;
    assert a + k * TwoTo32 == (q + k) * TwoTo32 + r;
    DivModUnique(a + k * TwoTo32, q + k, r);
  }

  /** The remainder of Euclidean division is determined by any
      decomposition with a remainder in range. */
  lemma DivModUnique(a: int, q: int, r: int)
    requires a == q * TwoTo32 + r && 0 <= r < TwoTo32
    ensures a % TwoTo32 == r
  {
    assert (q - a / TwoTo32) * TwoTo32 == a % TwoTo32 - r;
  }

  /** The UTF-16 code units Java stores for one character: characters
      beyond the basic plane become a surrogate pair. */
  function Units(c: char): (u: seq<int>)
    ensures 1 <= |u| <= 2
    ensures forall i :: 0 <= i < |u| ==> 0 <= u[i] < TwoTo16
    ensures |u| == 1 <==> (c as int) < TwoTo16
  {
    var n := c as int;
    if n < TwoTo16 then [n]
    else [0xD800 + (n - TwoTo16) / 0x400, 0xDC00 + (n - TwoTo16) % 0x400]
  }

  /** The code units of a string, in order. */
  function Utf16(s: string): (u: seq<int>)
    ensures |s| <= |u| <= 2 * |s|
  {
    if |s| == 0 then [] else Utf16(s[..|s| - 1]) + Units(s[|s| - 1])
  }

  /** String.hashCode: h = 31 * h + unit over the code units, in int
      arithmetic. */
  function HashUnits(u: seq<int>): (h: int)
    ensures -TwoTo31 <= h < TwoTo31
  {
    if |u| == 0 then 0 else Wrap32(31 * HashUnits(u[..|u| - 1]) + u[|u| - 1])
  }

  /** String.hashCode of a whole string: the polynomial of its UTF-16 code
      units, read as a signed 32-bit value. */
  function HashCode(s: string): (h: int)
    ensures -TwoTo31 <= h < TwoTo31
    ensures h == Wrap32(Polynomial(Utf16(s)))
  {
    HashIsPolynomial(Utf16(s));
    HashUnits(Utf16(s))
  }

  /** The same polynomial in unbounded integers. */
  function Polynomial(u: seq<int>): int {
    if |u| == 0 then 0 else 31 * Polynomial(u[..|u| - 1]) + u[|u| - 1]
  }

  /** Wrapping after every step is wrapping once at the end: the hash is
      the polynomial of the code units modulo 2^32, read as signed. */
  lemma {:induction false} HashIsPolynomial(u: seq<int>)
    ensures HashUnits(u) == Wrap32(Polynomial(u))
  {
    if |u| > 0 {
      var init := u[..|u| - 1];
      HashIsPolynomial(init);
      var h, p := HashUnits(init), Polynomial(init);
      var k := (h - p) / TwoTo32;
      assert h == p + k * TwoTo32;
      assert 31 * h + u[|u| - 1] == 31 * p + u[|u| - 1] + (31 * k) * TwoTo32;
      WrapShift(31 * p + u[|u| - 1], 31 * k);
    }
  }

  /** The character of a decimal digit. */
  function DigitChar(d: nat): (c: char)
    requires d < 10
    ensures '0' <= c <= '9'
  {
    "0123456789"[d]
  }

  /** The decimal digits of `n`, most significant first, without leading
      zeros. */
  function Digits(n: nat): (s: string)
    ensures |s| >= 1 && forall i :: 0 <= i < |s| ==> '0' <= s[i] <= '9'
    ensures n >= 10 ==> |s| >= 2
  {
    if n < 10 then [DigitChar(n)] else Digits(n / 10) + [DigitChar(n % 10)]
  }

  /** String.valueOf(int): a minus sign before the digits of a negative. */
  function DecimalText(n: int): string {
    if n < 0 then "-" + Digits(-n) else Digits(n)
  }

  lemma {:induction false} DigitsInjective(a: nat, b: nat)
    requires Digits(a) == Digits(b)
    ensures a == b
  {
    var s := Digits(a);
    if a >= 10 && b >= 10 {
      assert Digits(a)[..|s| - 1] == Digits(a / 10);
      assert Digits(b)[..|s| - 1] == Digits(b / 10);
      DigitsInjective(a / 10, b / 10);
      assert "0123456789"[a % 10] == "0123456789"[b % 10];
    } else if a < 10 && b < 10 {
      assert "0123456789"[a] == "0123456789"[b];
    }
  }

  /** Different numbers print differently. */
  lemma DecimalTextInjective(a: int, b: int)
    requires DecimalText(a) == DecimalText(b)
    ensures a == b
  {
    assert a < 0 <==> DecimalText(a)[0] == '-';
    assert b < 0 <==> DecimalText(b)[0] == '-';
    if a < 0 && b < 0 {
      assert Digits(-a) == DecimalText(a)[1..];
      assert Digits(-b) == DecimalText(b)[1..];
      DigitsInjective(-a, -b);
    } else if a >= 0 && b >= 0 {
      DigitsInjective(a, b);
    }
  }

  /** User.hashPassword */
  function HashPassword(password: string): (h: string)
    ensures |h| >= 1 && (h[0] == '-' || '0' <= h[0] <= '9')
    ensures forall i :: 1 <= i < |h| ==> '0' <= h[i] <= '9'
  {
    DecimalText(HashCode(password))
  }

  /** The stored account (User.java). */
  datatype User = User(username: string, passwordHash: string)

  /** User.verifyPassword: the password's hash text is the stored one. */
  predicate VerifyPassword(user: User, password: string): (ok: bool)
    ensures ok ==> |user.passwordHash| >= 1 && user.passwordHash[0] != '+'
  {
    HashPassword(password) == user.passwordHash
  }

  /** A password is accepted for an account exactly when its hashCode is
      that of the password registered with it: the registered one always,
      and any other with the same hashCode too. */
  lemma VerifyMeansSameHash(username: string, registered: string, password: string)
    ensures VerifyPassword(User(username, HashPassword(registered)), password) <==>
      HashCode(password) == HashCode(registered)
  {
    if VerifyPassword(User(username, HashPassword(registered)), password) {
      DecimalTextInjective(HashCode(password), HashCode(registered));
    }
  }

  /** The hashCode of a two-character string of the basic plane. */
  lemma HashOfPair(c: char, d: char)
    requires (c as int) < TwoTo16 && (d as int) < TwoTo16
    ensures HashCode([c, d]) == Wrap32(31 * (c as int) + (d as int))
  {
    var s := [c, d];
    assert s[..1] == [c] && [c][..0] == [];
    assert Utf16(s) == [c as int, d as int];
    var u := Utf16(s);
    assert u[..1] == [c as int] && [c as int][..0] == [];
    assert HashUnits([c as int]) == c as int;
  }

  /** "Aa" and "BB" share their hashCode (2112), so an account registered
      with one accepts the other. */
  lemma DistinctPasswordsCollide(username: string)
    ensures "Aa" != "BB"
    ensures VerifyPassword(User(username, HashPassword("Aa")), "BB")
  {
    assert "Aa" == ['A', 'a'] && "BB" == ['B', 'B'];
    HashOfPair('A', 'a');
    HashOfPair('B', 'B');
    assert HashCode("Aa") == HashCode("BB");
  }

  datatype AuthError = UserAlreadyExists | InvalidCredentials

  class AuthService {
    var users: map<string, User>
    var sessions: map<string, string>

    /** Every account is filed under its own username. */
    ghost predicate Valid()
      reads this
    {
      forall name :: name in users ==> users[name].username == name
    }

    constructor ()
      ensures users == map[] && sessions == map[] && Valid()
    {
      users := map[];
      sessions := map[];
    }

    /** register: refused for a taken username; otherwise exactly that
        account is added, holding the hash of the password, which then
        verifies. No session changes. */
    method Register(username: string, password: string) returns (r: Outcome<AuthError>)
      requires Valid()
      modifies this
      ensures Valid() && sessions == old(sessions)
      ensures username in old(users) ==> r == Fail(UserAlreadyExists) && users == old(users)
      ensures username !in old(users) ==>
        r == Ok && users == old(users)[username := User(username, HashPassword(password))]
      ensures r.Ok? ==> VerifyPassword(users[username], password)
    {
      if username in users {
        return Fail(UserAlreadyExists);
      }
      users := users[username := User(username, HashPassword(password))];
      return Ok;
    }

    /** login: refused for an unknown user or a password that does not
        verify; otherwise `token` opens a session for the user, which
        validateToken then resolves. */
    method Login(username: string, password: string, token: string) returns (r: Result<string, AuthError>)
      modifies this
      ensures users == old(users)
      ensures !CanLogIn(old(users), username, password) ==>
        r == Failure(InvalidCredentials) && sessions == old(sessions)
      ensures CanLogIn(old(users), username, password) ==>
        r == Success(token) && sessions == old(sessions)[token := username]
      ensures r.Success? ==> ValidateToken(token) == Some(username) && IsAuthenticated(token)
    {
      if username !in users || !VerifyPassword(users[username], password) {
        return Failure(InvalidCredentials);
      }
      sessions := sessions[token := username];
      return Success(token);
    }

    /** logout: the token's session ends; every other session stays. */
    method Logout(token: string)
      modifies this
      ensures users == old(users) && sessions == old(sessions) - {token}
      ensures !IsAuthenticated(token) && ValidateToken(token) == None
      ensures forall t :: t != token ==> ValidateToken(t) == old(ValidateToken(t))
    {
      sessions := sessions - {token};
    }

    /** validateToken: the username of the token's session, if any. */
    function ValidateToken(token: string): (r: Option<string>)
      reads this
      ensures r.Some? <==> token in sessions
      ensures r.Some? ==> r.value == sessions[token]
    {
      if token in sessions then Some(sessions[token]) else None
    }

    /** isAuthenticated: the token has a session, exactly when
        validateToken finds a user for it. */
    function IsAuthenticated(token: string): (b: bool)
      reads this
      ensures b <==> ValidateToken(token).Some?
    {
      token in sessions
    }
  }

  /** The account check of login. */
  predicate CanLogIn(users: map<string, User>, username: string, password: string) {
    username in users && VerifyPassword(users[username], password)
  }

  /** An account registered with a password logs in with it. */
  lemma RegisteredCanLogIn(users: map<string, User>, username: string, password: string)
    ensures CanLogIn(users[username := User(username, HashPassword(password))], username, password)
  {
    VerifyMeansSameHash(username, password, password);
  }
}

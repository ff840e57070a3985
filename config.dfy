/** The configuration builder of src/config/configuration.ts: every setting is a `||`
    fallback chain over environment variables ending in a literal default, and the two
    port numbers go through `parseInt(…, 10)`. Modelled as a pure function of the
    environment. */
module Config {
  import opened Wrappers

  /** The process environment. */
  type Env = map<string, string>

  /** `process.env[name]` as the `||` operator sees it: an unset variable and an empty
      one are both falsy, so both read as "". */
  function Var(env: Env, name: string): string
  {
    if name in env then env[name] else ""
  }

  /** `process.env[names[0]] || process.env[names[1]] || … || dflt`. */
  function FirstSet(env: Env, names: seq<string>, dflt: string): (r: string)
    ensures dflt != "" ==> r != ""
    ensures r == dflt || exists i :: 0 <= i < |names| && r == Var(env, names[i])
    decreases |names|
  {
    if names == [] then dflt
    else if Var(env, names[0]) != "" then Var(env, names[0])
    else
      var rest := FirstSet(env, names[1..], dflt);
      assert rest != dflt ==> exists i :: 0 <= i < |names[1..]| && rest == Var(env, names[1..][i]);
      assert forall i :: 0 <= i < |names[1..]| ==> names[1..][i] == names[i + 1];
      rest
  }

  /** The chain stops at the first non-empty variable. */
  lemma {:induction false} FirstSetPicksFirst(env: Env, names: seq<string>, dflt: string, i: nat)
    requires i < |names| && Var(env, names[i]) != ""
    requires forall j :: 0 <= j < i ==> Var(env, names[j]) == ""
    ensures FirstSet(env, names, dflt) == Var(env, names[i])
  {
    if i > 0 {
      assert Var(env, names[0]) == "";
      FirstSetPicksFirst(env, names[1..], dflt, i - 1);
    }
  }

  /** With every variable of the chain empty or unset, the default is used. */
  lemma {:induction false} FirstSetDefault(env: Env, names: seq<string>, dflt: string)
    requires forall j :: 0 <= j < |names| ==> Var(env, names[j]) == ""
    ensures FirstSet(env, names, dflt) == dflt
  {
    if names != [] {
      FirstSetDefault(env, names[1..], dflt);
    }
  }

  // ---------------------------------------------------------------------------------
  // parseInt(s, 10), as ECMAScript defines it

  /** The WhiteSpace and LineTerminator code points that parseInt skips at the front. */
  predicate IsWhiteSpace(c: char)
  {
    || c == '\t' || c == '\U{000B}' || c == '\U{000C}' || c == ' ' || c == '\U{00A0}'
    || c == '\U{FEFF}' || c == '\n' || c == '\r' || c == '\U{2028}' || c == '\U{2029}'
    || c == '\U{1680}' || ('\U{2000}' <= c <= '\U{200A}') || c == '\U{202F}'
    || c == '\U{205F}' || c == '\U{3000}'
  }

  predicate IsDigit(c: char)
  {
    '0' <= c <= '9'
  }

  /** Drops the leading white space. */
  function TrimStart(s: string): (r: string)
    ensures |r| <= |s| && r == s[|s| - |r|..]
    ensures forall i :: 0 <= i < |s| - |r| ==> IsWhiteSpace(s[i])
    ensures r == [] || !IsWhiteSpace(r[0])
  {
    if s != [] && IsWhiteSpace(s[0]) then TrimStart(s[1..]) else s
  }

  /** The length of the longest prefix of decimal digits. */
  function DigitRun(s: string): (k: nat)
    ensures k <= |s|
    ensures forall i :: 0 <= i < k ==> IsDigit(s[i])
    ensures k == |s| || !IsDigit(s[k])
  {
    if s != [] && IsDigit(s[0]) then 1 + DigitRun(s[1..]) else 0
  }

  /** The value of a string of decimal digits, most significant first. */
  function DigitsValue(ds: string): nat
    requires forall i :: 0 <= i < |ds| ==> IsDigit(ds[i])
  {
    if ds == [] then 0
    else
      assert IsDigit(ds[|ds| - 1]);
      10 * DigitsValue(ds[..|ds| - 1]) + (ds[|ds| - 1] as int - '0' as int)
  }

  /** parseInt(s, 10): leading white space is skipped, one sign is accepted, and the
      longest run of digits after it is the value; no digit there gives NaN (None). */
  function ParseInt10(s: string): Option<int>
  {
    ParseSigned(TrimStart(s))
  }

  /** parseInt after the white space: an optional sign, then the digit run. */
  function ParseSigned(t: string): Option<int>
  {
    var negative := t != [] && t[0] == '-';
    var u := if t != [] && (t[0] == '-' || t[0] == '+') then t[1..] else t;
    var k := DigitRun(u);
    if k == 0 then None
    else
      var magnitude: int := DigitsValue(u[..k]);
      Some(if negative then -magnitude else magnitude)
  }

  /** At most one sign character, as parseInt accepts before the digits. */
  predicate IsSign(sign: string)
  {
    sign == "" || sign == "+" || sign == "-"
  }

  lemma {:induction false} TrimWhiteSpacePrefix(ws: string, x: string)
    requires forall i :: 0 <= i < |ws| ==> IsWhiteSpace(ws[i])
    requires x == [] || !IsWhiteSpace(x[0])
    ensures TrimStart(ws + x) == x
  {
    if ws == [] {
      assert ws + x == x;
    } else {
      assert (ws + x)[1..] == ws[1..] + x;
      TrimWhiteSpacePrefix(ws[1..], x);
    }
  }

  lemma {:induction false} DigitRunOfPrefix(ds: string, rest: string)
    requires forall i :: 0 <= i < |ds| ==> IsDigit(ds[i])
    requires rest == [] || !IsDigit(rest[0])
    ensures DigitRun(ds + rest) == |ds|
  {
    if ds == [] {
      assert ds + rest == rest;
    } else {
      assert (ds + rest)[1..] == ds[1..] + rest;
      DigitRunOfPrefix(ds[1..], rest);
    }
  }

  lemma {:induction false} SignedDigits(sign: string, ds: string, rest: string)
    requires IsSign(sign)
    requires ds != [] && forall i :: 0 <= i < |ds| ==> IsDigit(ds[i])
    requires rest == [] || !IsDigit(rest[0])
    ensures var n: int := DigitsValue(ds);
      ParseSigned(sign + ds + rest) == Some(if sign == "-" then -n else n)
  {
    var u := ds + rest;
    var t := sign + u;
    assert sign + ds + rest == t;
    if sign != "" {
      assert t[0] == sign[0] && t[1..] == u;
    } else {
      assert t == u && IsDigit(u[0]);
    }
    assert (t[0] == '-') == (sign == "-");
    DigitRunOfPrefix(ds, rest);
    assert u[..|ds|] == ds;
  }

  /** parseInt(…, 10) on blanks, a sign, a run of digits and anything that does not
      continue the run: the run's value, negated under a minus sign. */
  lemma {:induction false} ParseSignedDigits(ws: string, sign: string, ds: string, rest: string)
    requires forall i :: 0 <= i < |ws| ==> IsWhiteSpace(ws[i])
    requires IsSign(sign)
    requires ds != [] && forall i :: 0 <= i < |ds| ==> IsDigit(ds[i])
    requires rest == [] || !IsDigit(rest[0])
    ensures var n: int := DigitsValue(ds);
      ParseInt10(ws + sign + ds + rest) == Some(if sign == "-" then -n else n)
  {
    var x := sign + ds + rest;
    assert ws + sign + ds + rest == ws + x;
    assert !IsWhiteSpace(x[0]) by {
      if sign == "" {
        assert x[0] == ds[0] && IsDigit(ds[0]);
      } else {
        assert x[0] == sign[0];
      }
    }
    TrimWhiteSpacePrefix(ws, x);
    SignedDigits(sign, ds, rest);
  }

  /** The converse: when what follows the blanks and the sign does not start with a
      digit (and, without a sign, is not itself a blank or a sign), the result is NaN. */
  lemma {:induction false} ParseNoDigits(ws: string, sign: string, rest: string)
    requires forall i :: 0 <= i < |ws| ==> IsWhiteSpace(ws[i])
    requires IsSign(sign)
    requires rest == [] || !IsDigit(rest[0])
    requires sign == "" ==> rest == [] || (!IsWhiteSpace(rest[0]) && rest[0] != '+' && rest[0] != '-')
    ensures ParseInt10(ws + sign + rest) == None
  {
    var x := sign + rest;
    assert ws + sign + rest == ws + x;
    TrimWhiteSpacePrefix(ws, x);
    assert x[|sign|..] == rest;
  }

  /** The decimal numeral of n, without leading zeros. */
  function Decimal(n: nat): (s: string)
    ensures s != [] && forall i :: 0 <= i < |s| ==> IsDigit(s[i])
  {
    if n < 10 then [('0' as int + n) as char]
    else Decimal(n / 10) + [('0' as int + n % 10) as char]
  }

  lemma {:induction false} DecimalValue(n: nat)
    ensures DigitsValue(Decimal(n)) == n
  {
    if n >= 10 {
      DecimalValue(n / 10);
      var s := Decimal(n);
      assert s[..|s| - 1] == Decimal(n / 10);
    }
  }

  /** parseInt(…, 10) reads back the decimal numeral of every natural number. */
  lemma ParseDecimal(n: nat)
    ensures ParseInt10(Decimal(n)) == Some(n)
  {
    var s := Decimal(n);
    assert !IsWhiteSpace(s[0]);
    assert TrimStart(s) == s;
    assert DigitRun(s) == |s|;
    assert s[..|s|] == s;
    DecimalValue(n);
  }

  /** parseInt of an empty or all-blank string is NaN. */
  lemma ParseBlank(s: string)
    requires forall i :: 0 <= i < |s| ==> IsWhiteSpace(s[i])
    ensures ParseInt10(s) == None
  {
  }

  // ---------------------------------------------------------------------------------
  // The configuration object

  datatype TokenSettings = TokenSettings(secret: string, expiresIn: string)

  datatype JwtSettings = JwtSettings(access: TokenSettings, refresh: TokenSettings)

  datatype DatabaseSettings = DatabaseSettings(
    host: string, port: Option<int>, username: string, password: string, database: string)

  datatype SwaggerSettings = SwaggerSettings(title: string, description: string, version: string)

  datatype Configuration = Configuration(
    port: Option<int>, database: DatabaseSettings, jwt: JwtSettings, swagger: SwaggerSettings)

  const DefaultAccessSecret := "your-access-secret"
  const DefaultRefreshSecret := "your-refresh-secret"

  /** The default export: the configuration read from the environment. Every string
      setting ends its chain in a non-empty literal, so no string setting is ever empty
      (in particular the access secret that the JWT strategy refuses to start without). */
  function Load(env: Env): (c: Configuration)
    ensures c.jwt.access.secret != "" && c.jwt.access.expiresIn != ""
    ensures c.jwt.refresh.secret != "" && c.jwt.refresh.expiresIn != ""
    ensures c.database.host != "" && c.database.username != ""
    ensures c.database.password != "" && c.database.database != ""
  {
    Configuration(
      ParseInt10(FirstSet(env, ["PORT"], "3000")),
      DatabaseSettings(
        FirstSet(env, ["DATABASE_HOST"], "localhost"),
        ParseInt10(FirstSet(env, ["DATABASE_PORT"], "5432")),
        FirstSet(env, ["DATABASE_USERNAME"], "postgres"),
        FirstSet(env, ["DATABASE_PASSWORD"], "password"),
        FirstSet(env, ["DATABASE_NAME"], "pero")),
      JwtSettings(
        TokenSettings(
          FirstSet(env, ["JWT_ACCESS_SECRET", "JWT_SECRET"], DefaultAccessSecret),
          FirstSet(env, ["JWT_ACCESS_EXPIRES_IN", "JWT_EXPIRES_IN"], "15m")),
        TokenSettings(
          FirstSet(env, ["JWT_REFRESH_SECRET"], DefaultRefreshSecret),
          FirstSet(env, ["JWT_REFRESH_EXPIRES_IN"], "7d"))),
      SwaggerSettings("Pero API", "The Pero API description", "1.0"))
  }

  /** The literal default of `port` reads as 3000. */
  lemma DefaultPortLiteral()
    ensures ParseInt10("3000") == Some(3000)
  {
    assert Decimal(3000) == "3000";
    ParseDecimal(3000);
  }

  /** The literal default of `database.port` reads as 5432. */
  lemma DefaultDatabasePortLiteral()
    ensures ParseInt10("5432") == Some(5432)
  {
    assert Decimal(5432) == "5432";
    ParseDecimal(5432);
  }

  /** `port` is PORT read in base 10, and 3000 when PORT is unset or empty. */
  lemma PortSetting(env: Env, n: nat)
    ensures Var(env, "PORT") == "" ==> Load(env).port == Some(3000)
    ensures Var(env, "PORT") == Decimal(n) ==> Load(env).port == Some(n)
  {
    if Var(env, "PORT") == "" {
      FirstSetDefault(env, ["PORT"], "3000");
      DefaultPortLiteral();
    } else {
      FirstSetPicksFirst(env, ["PORT"], "3000", 0);
      ParseDecimal(n);
    }
  }

  /** With the database variables empty or unset, the defaults are localhost:5432,
      user postgres, password "password", database pero. */
  lemma DatabaseDefaults(env: Env)
    requires Var(env, "DATABASE_HOST") == "" && Var(env, "DATABASE_PORT") == ""
    requires Var(env, "DATABASE_USERNAME") == "" && Var(env, "DATABASE_PASSWORD") == ""
    requires Var(env, "DATABASE_NAME") == ""
    ensures Load(env).database == DatabaseSettings("localhost", Some(5432), "postgres", "password", "pero")
  {
    FirstSetDefault(env, ["DATABASE_PORT"], "5432");
    DefaultDatabasePortLiteral();
  }

  /** The access secret is JWT_ACCESS_SECRET, else JWT_SECRET, else the literal default. */
  lemma AccessSecretResolution(env: Env)
    ensures Load(env).jwt.access.secret ==
      if Var(env, "JWT_ACCESS_SECRET") != "" then Var(env, "JWT_ACCESS_SECRET")
      else if Var(env, "JWT_SECRET") != "" then Var(env, "JWT_SECRET")
      else DefaultAccessSecret
  {
    var names := ["JWT_ACCESS_SECRET", "JWT_SECRET"];
    if Var(env, names[0]) != "" {
      FirstSetPicksFirst(env, names, DefaultAccessSecret, 0);
    } else if Var(env, names[1]) != "" {
      FirstSetPicksFirst(env, names, DefaultAccessSecret, 1);
    } else {
      FirstSetDefault(env, names, DefaultAccessSecret);
    }
  }

  /** The access lifetime is JWT_ACCESS_EXPIRES_IN, else JWT_EXPIRES_IN, else 15 minutes. */
  lemma AccessExpiryResolution(env: Env)
    ensures Load(env).jwt.access.expiresIn ==
      if Var(env, "JWT_ACCESS_EXPIRES_IN") != "" then Var(env, "JWT_ACCESS_EXPIRES_IN")
      else if Var(env, "JWT_EXPIRES_IN") != "" then Var(env, "JWT_EXPIRES_IN")
      else "15m"
  {
    var names := ["JWT_ACCESS_EXPIRES_IN", "JWT_EXPIRES_IN"];
    if Var(env, names[0]) != "" {
      FirstSetPicksFirst(env, names, "15m", 0);
    } else if Var(env, names[1]) != "" {
      FirstSetPicksFirst(env, names, "15m", 1);
    } else {
      FirstSetDefault(env, names, "15m");
    }
  }

  /** The refresh settings consult JWT_REFRESH_SECRET and JWT_REFRESH_EXPIRES_IN only:
      two environments that agree on those two agree on the refresh settings, whatever
      JWT_SECRET or any other variable holds. */
  lemma RefreshSettingsIsolated(env: Env, env': Env)
    requires Var(env, "JWT_REFRESH_SECRET") == Var(env', "JWT_REFRESH_SECRET")
    requires Var(env, "JWT_REFRESH_EXPIRES_IN") == Var(env', "JWT_REFRESH_EXPIRES_IN")
    ensures Load(env).jwt.refresh == Load(env').jwt.refresh
  {
  }

  /** Without JWT_REFRESH_SECRET the refresh secret is its own default, never JWT_SECRET;
      without JWT_REFRESH_EXPIRES_IN the refresh lifetime is seven days. */
  lemma RefreshDefaults(env: Env)
    ensures Var(env, "JWT_REFRESH_SECRET") == "" ==> Load(env).jwt.refresh.secret == DefaultRefreshSecret
    ensures Var(env, "JWT_REFRESH_EXPIRES_IN") == "" ==> Load(env).jwt.refresh.expiresIn == "7d"
  {
    if Var(env, "JWT_REFRESH_SECRET") == "" {
      FirstSetDefault(env, ["JWT_REFRESH_SECRET"], DefaultRefreshSecret);
    }
    if Var(env, "JWT_REFRESH_EXPIRES_IN") == "" {
      FirstSetDefault(env, ["JWT_REFRESH_EXPIRES_IN"], "7d");
    }
  }

  /** With no JWT variable set, access and refresh tokens are signed with different secrets. */
  lemma DefaultSecretsDistinct(env: Env)
    requires Var(env, "JWT_ACCESS_SECRET") == "" && Var(env, "JWT_SECRET") == ""
    requires Var(env, "JWT_REFRESH_SECRET") == ""
    ensures Load(env).jwt.access.secret != Load(env).jwt.refresh.secret
  {
    AccessSecretResolution(env);
    RefreshDefaults(env);
  }
}

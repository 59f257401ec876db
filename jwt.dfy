/** The credential check of package `jwt`: a bearer token is taken from the
    `authorization` entry of a call's metadata, its signature is checked
    against the configured public key and its claim set is decoded. The
    signature check and the decoding belong to an external library and are
    given as the two functions of a `Jws` value. */
module Jwt {
  import opened Strings

  datatype Option<T> = None | Some(value: T)

  /** The decoded payload of a token; never inspected here. */
  type ClaimSet

  /** An RSA public key. */
  type PublicKey

  /** The external signature library: `verify` stands for `jws.Verify`
      succeeding, `decode` for `jws.Decode` (`None` when it fails). The key
      passed to `verify` is the configured one, `None` being a nil key. */
  datatype Jws = Jws(verify: (string, Option<PublicKey>) -> bool, decode: string -> Option<ClaimSet>)

  /** The five fixed errors. All carry the status code Unauthenticated and
      differ only in their message. */
  datatype Error = Verification | Decoding | CredentialsMissing | AuthorizationRequired | TokenTypeInvalid
  {
    /** The message of `grpc.Errorf`; every one carries the package prefix. */
    function Message(): (m: string)
      ensures |m| > 13 && m[..13] == "credentials: "
    {
      match this
      case Verification => "credentials: verification error"
      case Decoding => "credentials: decoding error"
      case CredentialsMissing => "credentials: missing credentials"
      case AuthorizationRequired => "credentials: authorization required"
      case TokenTypeInvalid => "credentials: token type invalid"
    }
  }

  /** The two index expressions that can go out of range: `raw[0]` on an
      empty list of values, and `parts[1]` when the value has no space. */
  datatype IndexPanic = NoAuthorizationValue | NoToken

  /** What a call produces: Go's pair of a `*jws.ClaimSet` (`None` for nil)
      and an error (`None` for nil), or a run-time panic. */
  datatype Outcome = Returned(claims: Option<ClaimSet>, err: Option<Error>) | Panic(cause: IndexPanic)

  function Fail(e: Error): Outcome {
    Returned(None, Some(e))
  }

  function Claims(c: ClaimSet): Outcome {
    Returned(Some(c), None)
  }

  /** The result is a proper Go answer: claims and no error, or no claims and
      an error. */
  predicate WellFormed(r: Outcome) {
    r.Returned? ==> (r.claims.Some? <==> r.err.None?)
  }

  /** A call's metadata: each key maps to a list of values. */
  type Metadata = map<string, seq<string>>

  const AuthorizationKey := "authorization"

  /** The configuration: the public key (possibly nil) and the expected
      token type, compared with the lower-cased scheme of the header. */
  datatype Credentials = Credentials(key: Option<PublicKey>, tokenType: string)
  {
    /** Checks the signature of `token`, then decodes it. A nil key does not
        skip the check: `verify` is consulted whatever the key. */
    function FromString(jws: Jws, token: string): (r: Outcome)
      ensures r.Returned? && WellFormed(r)
      ensures r.err == Some(Verification) <==> !jws.verify(token, key)
      ensures r.err == Some(Decoding) <==> jws.verify(token, key) && jws.decode(token).None?
      ensures r.claims.Some? <==> jws.verify(token, key) && jws.decode(token).Some?
      ensures r.claims.Some? ==> r.claims == jws.decode(token)
    {
      if !jws.verify(token, key) then Fail(Verification)
      else if jws.decode(token).None? then Fail(Decoding)
      else Claims(jws.decode(token).value)
    }

    /** Extracts the token from the first `authorization` value and hands it
        to `FromString`. The token-type test rejects a value only when it
        does not have exactly two parts AND its lower-cased first part
        differs from `tokenType`. */
    function FromContext(jws: Jws, md: Option<Metadata>): (r: Outcome)
      ensures WellFormed(r)
      ensures md.None? ==> r == Fail(CredentialsMissing)
      ensures md.Some? && AuthorizationKey !in md.value ==> r == Fail(AuthorizationRequired)
      ensures r == Panic(NoAuthorizationValue) <==>
                md.Some? && AuthorizationKey in md.value && |md.value[AuthorizationKey]| == 0
    {
      if md.None? then Fail(CredentialsMissing)
      else if AuthorizationKey !in md.value then Fail(AuthorizationRequired)
      else
        var raw := md.value[AuthorizationKey];
        if |raw| == 0 then Panic(NoAuthorizationValue)
        else
          var value := raw[0];
          var parts := Split(value);
          if |parts| != 2 && ToLower(parts[0]) != tokenType then Fail(TokenTypeInvalid)
          else if |parts| < 2 then Panic(NoToken)
          else FromString(jws, parts[1])
    }

    /** The token-type test with `||` in place of `&&`: a value passes only
        when it has exactly two parts and its lower-cased scheme is
        `tokenType`. */
    function FromContextFixed(jws: Jws, md: Option<Metadata>): (r: Outcome)
      ensures WellFormed(r)
      ensures r.Panic? ==> r.cause == NoAuthorizationValue
    {
      if md.None? then Fail(CredentialsMissing)
      else if AuthorizationKey !in md.value then Fail(AuthorizationRequired)
      else
        var raw := md.value[AuthorizationKey];
        if |raw| == 0 then Panic(NoAuthorizationValue)
        else
          var value := raw[0];
          var parts := Split(value);
          if |parts| != 2 || ToLower(parts[0]) != tokenType then Fail(TokenTypeInvalid)
          else FromString(jws, parts[1])
    }
  }

  /** The five messages are pairwise distinct. */
  lemma MessagesDistinct(e1: Error, e2: Error)
    requires e1 != e2
    ensures e1.Message() != e2.Message()
  {
    assert e1.Message()[13] != e2.Message()[13];
  }

  /** Metadata with `value` as the first `authorization` value. */
  predicate FirstAuthorization(md: Option<Metadata>, value: string) {
    md.Some? && AuthorizationKey in md.value
    && |md.value[AuthorizationKey]| > 0 && md.value[AuthorizationKey][0] == value
  }

  /** Without metadata the answer is always ErrCredentialsMissing, whatever
      the configuration and the library. */
  lemma MissingMetadataFirst(c: Credentials, jws: Jws)
    ensures c.FromContext(jws, None) == Fail(CredentialsMissing)
  {
  }

  /** Metadata without an `authorization` key gives ErrAuthorizationRequired
      and the library is never consulted: any two libraries give the same
      answer. */
  lemma AuthorizationRequiredWithoutLibrary(c: Credentials, jws1: Jws, jws2: Jws, m: Metadata)
    requires AuthorizationKey !in m
    ensures c.FromContext(jws1, Some(m)) == c.FromContext(jws2, Some(m)) == Fail(AuthorizationRequired)
  {
  }

  /** Only the first `authorization` value is examined. */
  lemma OnlyFirstValueMatters(c: Credentials, jws: Jws, md1: Option<Metadata>, md2: Option<Metadata>, value: string)
    requires FirstAuthorization(md1, value) && FirstAuthorization(md2, value)
    ensures c.FromContext(jws, md1) == c.FromContext(jws, md2)
  {
  }

  /** ErrTokenTypeInvalid is returned exactly when the value does not have
      exactly one space and the lower-cased text before its first space
      differs from the token type. */
  lemma TokenTypeInvalidExactly(c: Credentials, jws: Jws, md: Option<Metadata>, value: string)
    requires FirstAuthorization(md, value)
    ensures c.FromContext(jws, md) == Fail(TokenTypeInvalid) <==>
              Spaces(value) != 1 && ToLower(Split(value)[0]) != c.tokenType
  {
  }

  /** Any value of the form `scheme token` passes the token-type test,
      whatever its scheme, and the token is handed to `FromString`. */
  lemma TwoPartsPass(c: Credentials, jws: Jws, md: Option<Metadata>, scheme: string, token: string)
    requires ' ' !in scheme && ' ' !in token
    requires FirstAuthorization(md, scheme + " " + token)
    ensures c.FromContext(jws, md) == c.FromString(jws, token)
  {
    SplitTwo(scheme, token);
  }

  /** A value whose lower-cased scheme equals the token type passes the test
      whatever its number of parts; the text up to the second space is the
      token and anything after it is ignored. */
  lemma MatchingSchemePasses(c: Credentials, jws: Jws, md: Option<Metadata>, scheme: string, rest: string)
    requires ' ' !in scheme && ToLower(scheme) == c.tokenType
    requires FirstAuthorization(md, scheme + " " + rest)
    ensures c.FromContext(jws, md) == c.FromString(jws, Split(rest)[0])
  {
    SplitLead(scheme, rest);
  }

  /** Parts after the second are ignored: with a matching scheme, the value
      `scheme token more` is answered from `token` alone. */
  lemma ExtraPartsIgnored(c: Credentials, jws: Jws, md: Option<Metadata>, scheme: string, token: string, more: string)
    requires ' ' !in scheme && ' ' !in token && ToLower(scheme) == c.tokenType
    requires FirstAuthorization(md, scheme + " " + token + " " + more)
    ensures c.FromContext(jws, md) == c.FromString(jws, token)
  {
    SplitFirstTwo(scheme, token, more);
  }

  /** The call panics exactly when the value list is empty, or when the
      value has no space and its lower-cased text equals the token type
      (the test at `&&` lets it through and `parts[1]` is out of range). */
  lemma PanicsExactly(c: Credentials, jws: Jws, md: Option<Metadata>)
    ensures c.FromContext(jws, md).Panic? <==>
              md.Some? && AuthorizationKey in md.value &&
              (|md.value[AuthorizationKey]| == 0 ||
               (' ' !in md.value[AuthorizationKey][0] && ToLower(md.value[AuthorizationKey][0]) == c.tokenType))
  {
  }


  /** Only the header side is lower-cased: a token type holding an
      upper-case letter never matches, so the test then accepts exactly the
      two-part values and never lets a one-part value reach `parts[1]`. */
  lemma UpperCaseTokenTypeNeverMatches(c: Credentials, jws: Jws, md: Option<Metadata>, value: string)
    requires exists i :: 0 <= i < |c.tokenType| && IsUpper(c.tokenType[i])
    requires FirstAuthorization(md, value)
    ensures c.FromContext(jws, md) == Fail(TokenTypeInvalid) <==> Spaces(value) != 1
    ensures c.FromContext(jws, md).Returned?
  {
    ToLowerNeverUpper(Split(value)[0], c.tokenType);
    TokenTypeInvalidExactly(c, jws, md, value);
  }

  /** Claims reach the caller only as the answer of `FromString` on a token
      whose signature check passed. */
  lemma ClaimsOnlyFromToken(c: Credentials, jws: Jws, md: Option<Metadata>)
    requires c.FromContext(jws, md).Returned? && c.FromContext(jws, md).claims.Some?
    ensures exists token :: c.FromContext(jws, md) == c.FromString(jws, token) && jws.verify(token, c.key)
  {
    assert md.Some? && AuthorizationKey in md.value && |md.value[AuthorizationKey]| > 0;
    var parts := Split(md.value[AuthorizationKey][0]);
    assert |parts| >= 2;
    assert c.FromContext(jws, md) == c.FromString(jws, parts[1]);
  }

  /** The zero-value configuration (nil key, empty token type) panics on an
      empty `authorization` value: `""` splits into one empty part, which
      equals the empty token type. */
  lemma ZeroConfigurationEmptyValuePanics(jws: Jws)
    ensures Credentials(None, "").FromContext(jws, Some(map[AuthorizationKey := [""]])) == Panic(NoToken)
  {
    assert IndexOf("", ' ') == -1;
  }

  /** With token type "Bearer", the value "Basic abc.def.ghi" passes the
      token-type test and its token is checked. */
  lemma OtherSchemeAccepted(jws: Jws, key: Option<PublicKey>)
    ensures Credentials(key, "Bearer").FromContext(jws, Some(map[AuthorizationKey := ["Basic abc.def.ghi"]]))
            == Credentials(key, "Bearer").FromString(jws, "abc.def.ghi")
  {
    var c := Credentials(key, "Bearer");
    var md := Some(map[AuthorizationKey := ["Basic abc.def.ghi"]]);
    assert "Basic abc.def.ghi" == "Basic" + " " + "abc.def.ghi";
    assert FirstAuthorization(md, "Basic" + " " + "abc.def.ghi");
    TwoPartsPass(c, jws, md, "Basic", "abc.def.ghi");
  }

  /** A value without a space is rejected, or panics at `parts[1]` when its
      lower-cased text equals the token type. */
  lemma OnePartValue(c: Credentials, jws: Jws, md: Option<Metadata>, value: string)
    requires ' ' !in value && FirstAuthorization(md, value)
    ensures c.FromContext(jws, md) == if ToLower(value) == c.tokenType then Panic(NoToken) else Fail(TokenTypeInvalid)
    ensures c.FromContextFixed(jws, md) == Fail(TokenTypeInvalid)
  {
    SplitNoSpace(value);
  }

  /** A bare "bearer" is rejected when the token type is "Bearer" but panics
      when the token type is "bearer". */
  lemma BareScheme(jws: Jws, key: Option<PublicKey>)
    ensures Credentials(key, "Bearer").FromContext(jws, Some(map[AuthorizationKey := ["bearer"]])) == Fail(TokenTypeInvalid)
    ensures Credentials(key, "bearer").FromContext(jws, Some(map[AuthorizationKey := ["bearer"]])) == Panic(NoToken)
  {
    var md := Some(map[AuthorizationKey := ["bearer"]]);
    assert FirstAuthorization(md, "bearer");
    ToLowerOfLower("bearer");
    OnePartValue(Credentials(key, "Bearer"), jws, md, "bearer");
    OnePartValue(Credentials(key, "bearer"), jws, md, "bearer");
  }

  /** The corrected test rejects a value exactly when it does not have
      exactly one space or its lower-cased scheme differs from the token
      type; otherwise the text after the space is the token. */
  lemma FixedTokenTypeExactly(c: Credentials, jws: Jws, md: Option<Metadata>, value: string)
    requires FirstAuthorization(md, value)
    ensures c.FromContextFixed(jws, md) == Fail(TokenTypeInvalid) <==>
              Spaces(value) != 1 || ToLower(Split(value)[0]) != c.tokenType
    ensures Spaces(value) == 1 && ToLower(Split(value)[0]) == c.tokenType ==>
              exists scheme, token :: value == scheme + " " + token &&
                c.FromContextFixed(jws, md) == c.FromString(jws, token)
  {
    var parts := Split(value);
    if |parts| == 2 {
      JoinSplit(value);
      assert parts[1..] == [parts[1]];
      assert value == parts[0] + " " + parts[1];
    }
  }

  /** The corrected test agrees with the one as written on every value of
      the form `scheme token` with the scheme matching. */
  lemma FixedAgreesOnWellFormedValues(c: Credentials, jws: Jws, md: Option<Metadata>, scheme: string, token: string)
    requires ' ' !in scheme && ' ' !in token && ToLower(scheme) == c.tokenType
    requires FirstAuthorization(md, scheme + " " + token)
    ensures c.FromContextFixed(jws, md) == c.FromContext(jws, md) == c.FromString(jws, token)
  {
    SplitTwo(scheme, token);
  }

  /** Since only the header is lower-cased, the corrected test rejects every
      value when the token type holds an upper-case letter: the or-test is
      the intended behaviour only for a lower-case token type. */
  lemma FixedUpperRejectsAll(c: Credentials, jws: Jws, md: Option<Metadata>, value: string)
    requires exists i :: 0 <= i < |c.tokenType| && IsUpper(c.tokenType[i])
    requires FirstAuthorization(md, value)
    ensures c.FromContextFixed(jws, md) == Fail(TokenTypeInvalid)
  {
    ToLowerNeverUpper(Split(value)[0], c.tokenType);
  }

  /** The bare scheme "bearer" with token type "bearer" panics as written and
      is rejected by the corrected test. */
  lemma BareSchemeFixed(jws: Jws, key: Option<PublicKey>)
    ensures Credentials(key, "bearer").FromContextFixed(jws, Some(map[AuthorizationKey := ["bearer"]])) == Fail(TokenTypeInvalid)
  {
    var md := Some(map[AuthorizationKey := ["bearer"]]);
    assert FirstAuthorization(md, "bearer");
    OnePartValue(Credentials(key, "bearer"), jws, md, "bearer");
  }
}

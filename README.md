# Credential check of the `jwt` package

This project models the credential helper in `jwt/jwt.go`, a small adapter
for gRPC services. A value `Credentials{Key, TokenType}` answers two
questions:

- `FromString(token)` checks the token's signature with `jws.Verify` against
  `Key`, then decodes its claim set with `jws.Decode`. Each failure maps to a
  fixed error.
- `FromContext(ctx)` takes the call's metadata and reads the first value of
  its `authorization` entry. It splits that value on `" "`, applies the
  token-type test, and hands the second part to `FromString`.

Both operations are pure, so the model is made of functions over datatypes
(`strings.dfy`, `jwt.dfy`):

- `Strings` models Go's `strings.Split` on a space and `strings.ToLower`,
  together with a `Join` that undoes `Split`.
- `Jwt` models the five errors, the `Credentials` value and its two methods.
  A call's outcome is Go's pair `(claims, err)`, or a run-time `Panic` for the
  two index expressions that can go out of range.
- The external library is a `Jws` value holding two uninterpreted functions:
  `verify(token, key)` and `decode(token)`. `ClaimSet` and `PublicKey` are
  opaque types, and a nil key is `None`.

The model follows the code as written:

- The token-type test at line 56 uses `&&`. A value is rejected only when it
  does not have exactly two parts and its lower-cased scheme also differs
  from `TokenType`.
- Only the header's scheme is lower-cased. `TokenType` is compared as
  given, and it has no default.
- A nil key does not skip the signature check.

A later revision of the package differs on each of these points: it uses an
`||` test, compares the scheme case-insensitively on both sides, defaults to
`"Bearer"` and has a decode-only mode for a nil key. None of that is in this
file, so the model follows the code. The `||` test is modelled separately as
the corrected definition, called the or-test below (see Findings).

## Model

| member | source | states |
|---|---|---|
| Strings.Split | jwt/jwt.go:54 | splitting on `" "` yields one more part than the value has spaces (the empty value gives one empty part) |
| Strings.JoinSplit | jwt/jwt.go:54 | joining the parts of a split with `" "` gives back the original value |
| Strings.SplitJoin | jwt/jwt.go:54 | splitting the join of a non-empty list of space-free parts gives back those parts |
| Strings.SplitSpaceFree | jwt/jwt.go:54 | no part of a split contains a space |
| Strings.SplitHead | jwt/jwt.go:54-56 | `parts[0]` is the longest space-free prefix of the value |
| Strings.SplitLead | jwt/jwt.go:54 | a split of `a + " " + t` with space-free `a` is `a` followed by the split of `t` |
| Strings.SplitTwo | jwt/jwt.go:54 | a value with exactly one space splits into the text before it and the text after it |
| Strings.SplitFirstTwo | jwt/jwt.go:54 | text after a second space does not affect `parts[0]` and `parts[1]`, and there are at least three parts |
| Strings.ToLower | jwt/jwt.go:56 | lower-casing keeps the length, leaves no ASCII upper-case letter, keeps every other character and maps `A`-`Z` to `a`-`z` |
| Strings.ToLowerIdempotent | jwt/jwt.go:56 | lower-casing twice equals lower-casing once |
| Strings.ToLowerNeverUpper | jwt/jwt.go:56 | a text holding an upper-case letter is never the result of lower-casing |
| Jwt.Error.Message | jwt/jwt.go:15-19 | each of the five errors carries its message from the source, all beginning with the package prefix `credentials: `; all five share the code Unauthenticated |
| Jwt.MessagesDistinct | jwt/jwt.go:15-19 | the five error messages are pairwise distinct |
| Jwt.Credentials.FromString | jwt/jwt.go:27-39 | a failed signature check gives exactly ErrVerification, whatever the decode result; a passed check and a failed decode give exactly ErrDecoding; claims are returned exactly when both succeed, they are the decoded ones, and no error comes with them; the key, even nil, is always passed to the check |
| Jwt.Credentials.FromContext | jwt/jwt.go:41-61 | no metadata gives ErrCredentialsMissing; metadata without `authorization` gives ErrAuthorizationRequired; it panics at `raw[0]` exactly when the value list is empty; claims and an error never come together |
| Jwt.MissingMetadataFirst | jwt/jwt.go:42-45 | without metadata the answer is ErrCredentialsMissing for every configuration and every library |
| Jwt.AuthorizationRequiredWithoutLibrary | jwt/jwt.go:47-50 | without an `authorization` key the answer is ErrAuthorizationRequired and does not depend on the library, so `FromString` is not consulted |
| Jwt.OnlyFirstValueMatters | jwt/jwt.go:52 | two metadata maps with the same first `authorization` value give the same answer, whatever their later values and other keys |
| Jwt.TokenTypeInvalidExactly | jwt/jwt.go:54-58 | ErrTokenTypeInvalid is returned exactly when the value does not have one space AND its lower-cased first part differs from `TokenType` |
| Jwt.TwoPartsPass | jwt/jwt.go:54-60 | every value `scheme token` passes the test whatever its scheme, and the answer is `FromString(token)` |
| Jwt.MatchingSchemePasses | jwt/jwt.go:54-60 | a value whose lower-cased scheme equals `TokenType` passes whatever its part count, and the answer is `FromString` of the second part |
| Jwt.ExtraPartsIgnored | jwt/jwt.go:54-60 | with a matching scheme, `scheme token more` is answered by `FromString(token)`, so parts after the second are ignored |
| Jwt.PanicsExactly | jwt/jwt.go:52-60 | the call panics exactly when the value list is empty, or when the value has no space and its lower-cased text equals `TokenType` |
| Jwt.UpperCaseTokenTypeNeverMatches | jwt/jwt.go:56 | only the header is lower-cased: if `TokenType` has an upper-case letter, exactly the values without one space are rejected, and the call never panics |
| Jwt.ClaimsOnlyFromToken | jwt/jwt.go:27-60 | claims come out of `FromContext` only as the answer of `FromString` on a token whose signature check passed |
| Jwt.ZeroConfigurationEmptyValuePanics | jwt/jwt.go:52-60 | with a nil key and an empty `TokenType`, the empty `authorization` value panics at `parts[1]` |
| Jwt.OnePartValue | jwt/jwt.go:54-60 | a value without a space panics at `parts[1]` when its lower-cased text equals `TokenType` and is rejected with ErrTokenTypeInvalid otherwise; the or-test always rejects it |
| Jwt.OtherSchemeAccepted | jwt/jwt.go:54-60 | with `TokenType` "Bearer", the value "Basic abc.def.ghi" passes, and "abc.def.ghi" goes to `FromString` |
| Jwt.BareScheme | jwt/jwt.go:54-60 | the value "bearer" is rejected with ErrTokenTypeInvalid when `TokenType` is "Bearer", and panics when it is "bearer" |
| Jwt.Credentials.FromContextFixed | jwt/jwt.go:56-60 | with the or-test the only possible panic is at `raw[0]`, and claims never come with an error |
| Jwt.FixedTokenTypeExactly | jwt/jwt.go:56-60 | with the or-test a value is rejected exactly when it does not have one space or its lower-cased scheme differs; otherwise it is `scheme + " " + token` and the answer is `FromString(token)` |
| Jwt.FixedAgreesOnWellFormedValues | jwt/jwt.go:56-60 | on a value `scheme token` with a matching scheme, the code as written and the corrected one both give `FromString(token)` |
| Jwt.FixedUpperRejectsAll | jwt/jwt.go:56 | because only the header is lower-cased, the or-test rejects every value when `TokenType` holds an upper-case letter (for example "Bearer") |
| Jwt.BareSchemeFixed | jwt/jwt.go:56-60 | with the or-test and `TokenType` "bearer", the value "bearer" is rejected instead of panicking |

## Left out

- `jws.Verify` and `jws.Decode` (jwt/jwt.go:28, 33): RSA signature checking and the base64/JSON decoding of a JWS belong to an external library. They appear as the uninterpreted functions of `Jws`.
- `grpc.Errorf` and `codes.Unauthenticated` (jwt/jwt.go:15-19): the gRPC status objects are framework types. The errors form a five-value enumeration carrying their messages, and all share the code Unauthenticated.
- `metadata.FromContext` (jwt/jwt.go:42): reading metadata out of a `context.Context` is framework plumbing. The optional metadata map is the input.
- Strings.ToLower: maps only the ASCII letters `A`-`Z`. Go's `strings.ToLower` also maps other Unicode upper-case letters, and Unicode case mapping is not modelled.
- Strings.Split: works on `seq<char>`, whereas Go splits a byte string. This makes no difference, because the separator is the single ASCII space.
- The server interceptor, claim injection into the context, a default `"Bearer"` scheme and a decode-only mode for a nil key are not in `jwt/jwt.go`, so they are not part of this model.

## Findings

| source | as written | input that shows it | evidently intended | confidence | as-written member | corrected member |
|---|---|---|---|---|---|---|
| jwt/jwt.go:56-60 | `len(parts) != 2 && strings.ToLower(parts[0]) != c.TokenType` rejects a value only when both conditions hold | `TokenType` "bearer" with value "bearer" passes the test and panics at `parts[1]`; `TokenType` "Bearer" with value "Basic abc.def.ghi" passes a scheme it should refuse | an or-test: reject unless there are exactly two parts and the scheme matches; this is the intended behaviour only for a lower-case `TokenType`, since with an upper-case letter in it the or-test rejects every value (Jwt.FixedUpperRejectsAll) | high, not executed | Jwt.BareScheme | Jwt.FixedTokenTypeExactly |

/**
 `RefreshTokenStrategy.validate` of `src/auth/strategies/refresh.strategy.ts`:
 once the JWT in the `Authorization` header has been verified, the raw token
 is read back from the header and attached to the decoded payload.
 */
module RefreshStrategy {
  import opened Common
  import opened Strings

  /** A JSON value of the decoded payload. */
  datatype Value = Text(s: string) | Number(n: int)

  type Payload = map<string, Value>

  const BearerPrefix: string := "Bearer "
  const RefreshTokenKey: string := "refreshToken"

  /**
   `header.replace('Bearer ', '').trim()`: only the first occurrence of
   `"Bearer "` goes, wherever it sits, and then only whitespace at the two
   ends of what is left.
   */
  function ExtractToken(header: string): (r: string)
    ensures Trimmed(r)
    ensures !Contains(header, BearerPrefix) ==> r == Trim(header)
    ensures forall t :: header == BearerPrefix + t && Trimmed(t) ==> r == t
    ensures var stripped := ReplaceFirst(header, BearerPrefix, "");
      exists i :: OccursAt(stripped, r, i) && AllWs(stripped[..i]) && AllWs(stripped[i + |r|..])
  {
    var stripped := ReplaceFirst(header, BearerPrefix, "");
    BearerStripped(header);
    Trim(stripped)
  }

  /** A header that starts with the scheme loses exactly the scheme. */
  lemma BearerStripped(header: string)
    ensures forall t :: header == BearerPrefix + t ==> ReplaceFirst(header, BearerPrefix, "") == t
  {
    forall t | header == BearerPrefix + t
      ensures ReplaceFirst(header, BearerPrefix, "") == t
    {
      assert header[..|BearerPrefix|] == BearerPrefix;
      assert header[|BearerPrefix|..] == t;
    }
  }

  /** `{...payload, refreshToken}`: every payload field, with `refreshToken` set last. */
  function Validate(header: string, payload: Payload): (r: Payload)
    ensures r.Keys == payload.Keys + {RefreshTokenKey}
    ensures r[RefreshTokenKey] == Text(ExtractToken(header))
    ensures forall k :: k in payload && k != RefreshTokenKey ==> r[k] == payload[k]
  {
    payload[RefreshTokenKey := Text(ExtractToken(header))]
  }

  /**
   The scheme match is case-sensitive here, while the JWT extractor accepts any
   case: for a `"bearer "` header the whole header, scheme included, becomes
   the refresh token.
   */
  lemma LowercaseSchemeKept(t: string)
    requires Trimmed(t) && |t| > 0
    requires !Contains("bearer " + t, BearerPrefix)
    ensures ExtractToken("bearer " + t) == "bearer " + t
  {
    assert Trimmed("bearer " + t) by {
      assert ("bearer " + t)[|"bearer " + t| - 1] == t[|t| - 1];
    }
  }
}

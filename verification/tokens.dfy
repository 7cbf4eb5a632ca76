/** The token record and the token-store queries. A record's index in the
    store is its generated id; `user` is the owning user's id. */
module Tokens {
  import opened Wrappers
  import Lookup

  datatype Token = Token(accessToken: string, refreshToken: string, loggedOut: bool, user: nat)

  /** The first record holding access token `t`. The repository's
      single-result query raises when several records hold `t`; the model
      takes the first of them. */
  function FindByAccessToken(tokens: seq<Token>, t: string): (r: Option<nat>)
    ensures r.Some? ==> r.value < |tokens| && tokens[r.value].accessToken == t
    ensures r.Some? ==> forall j :: 0 <= j < r.value ==> tokens[j].accessToken != t
    ensures r.None? <==> forall j :: 0 <= j < |tokens| ==> tokens[j].accessToken != t
  {
    Lookup.FirstIndex(tokens, (k: Token) => k.accessToken == t)
  }

  /** The first record holding refresh token `t`; several holders are
      handled as in `FindByAccessToken`. */
  function FindByRefreshToken(tokens: seq<Token>, t: string): (r: Option<nat>)
    ensures r.Some? ==> r.value < |tokens| && tokens[r.value].refreshToken == t
    ensures r.Some? ==> forall j :: 0 <= j < r.value ==> tokens[j].refreshToken != t
    ensures r.None? <==> forall j :: 0 <= j < |tokens| ==> tokens[j].refreshToken != t
  {
    Lookup.FirstIndex(tokens, (k: Token) => k.refreshToken == t)
  }

  /** The ids of every record owned by user `uid`, revoked or not. */
  function FindAllAccessTokensByUser(tokens: seq<Token>, uid: nat): (r: seq<nat>)
    ensures forall k :: 0 <= k < |r| ==> r[k] < |tokens| && tokens[r[k]].user == uid
    ensures forall i :: 0 <= i < |tokens| && tokens[i].user == uid ==> i in r
    ensures forall k, l :: 0 <= k < l < |r| ==> r[k] < r[l]
  {
    Lookup.AllIndices(tokens, (k: Token) => k.user == uid)
  }

  /** Two records are the same issued pair for the same owner. */
  predicate SamePair(a: Token, b: Token) {
    a.accessToken == b.accessToken && a.refreshToken == b.refreshToken && a.user == b.user
  }

  /** The lifecycle every store change respects: no record is deleted, no
      record's tokens or owner change, and a revoked record stays revoked
      (loggedOut never goes from true back to false). */
  ghost predicate Evolves(before: seq<Token>, after: seq<Token>) {
    && |before| <= |after|
    && forall i :: 0 <= i < |before| ==>
         SamePair(before[i], after[i]) && (before[i].loggedOut ==> after[i].loggedOut)
  }

  lemma EvolvesTransitive(a: seq<Token>, b: seq<Token>, c: seq<Token>)
    requires Evolves(a, b) && Evolves(b, c)
    ensures Evolves(a, c)
  {
  }

  /** Once a store already holds a record with a given access token, any
      evolution of the store still finds that same record first. */
  lemma {:induction false} FindByAccessTokenStable(before: seq<Token>, after: seq<Token>, t: string)
    requires Evolves(before, after)
    requires FindByAccessToken(before, t).Some?
    ensures FindByAccessToken(after, t) == FindByAccessToken(before, t)
  {
    var i := FindByAccessToken(before, t).value;
    assert after[i].accessToken == t;
    forall j | 0 <= j < i ensures after[j].accessToken != t {
      assert SamePair(before[j], after[j]);
    }
  }

  /** The same for lookups by refresh token. */
  lemma {:induction false} FindByRefreshTokenStable(before: seq<Token>, after: seq<Token>, t: string)
    requires Evolves(before, after)
    requires FindByRefreshToken(before, t).Some?
    ensures FindByRefreshToken(after, t) == FindByRefreshToken(before, t)
  {
    var i := FindByRefreshToken(before, t).value;
    assert after[i].refreshToken == t;
    forall j | 0 <= j < i ensures after[j].refreshToken != t {
      assert SamePair(before[j], after[j]);
    }
  }

  /** Appending a record whose access token no earlier record holds makes
      it the record found for that token. */
  lemma FindByAccessTokenAppended(tokens: seq<Token>, record: Token)
    requires FindByAccessToken(tokens, record.accessToken).None?
    ensures FindByAccessToken(tokens + [record], record.accessToken) == Some(|tokens|)
  {
    var all := tokens + [record];
    assert all[|tokens|].accessToken == record.accessToken;
    forall j | 0 <= j < |tokens| ensures all[j].accessToken != record.accessToken {
      assert all[j] == tokens[j];
    }
  }

  /** The same for refresh tokens. */
  lemma FindByRefreshTokenAppended(tokens: seq<Token>, record: Token)
    requires FindByRefreshToken(tokens, record.refreshToken).None?
    ensures FindByRefreshToken(tokens + [record], record.refreshToken) == Some(|tokens|)
  {
    var all := tokens + [record];
    assert all[|tokens|].refreshToken == record.refreshToken;
    forall j | 0 <= j < |tokens| ensures all[j].refreshToken != record.refreshToken {
      assert all[j] == tokens[j];
    }
  }
}

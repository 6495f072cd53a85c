/**
 Security levels travel as tokens: a service's i-th token stands for level i. The name
 servers hand out tokens by the level of a client and of its host; the service maps the
 token it is shown back to a level.
 */
module Tokens {
  import opened Common

  const LEVEL_NONE := 0

  function Elements(strings: seq<string>): set<string> {
    set s | s in strings
  }

  /**
   allocateToken for `levels` levels. `draws` are the strings that the random source
   yields, as far as they are drawn: the result is None exactly if fewer than `levels`
   of them differ, when the source would be asked for more.
   */
  method AllocateTokens(levels: nat, draws: seq<string>) returns (tokens: Option<seq<string>>)
    ensures tokens.Some? <==> levels <= |Elements(draws)|
    ensures tokens.Some? ==> |tokens.value| == levels && Distinct(tokens.value) && Elements(tokens.value) <= Elements(draws)
  {
    var list, n := [], 0;
    while |list| < levels
      invariant 0 <= n <= |draws| && |list| <= levels && Distinct(list) && Elements(list) == Elements(draws[..n])
      decreases levels - |list|
    {
      var s;
      s, n := DrawNew(list, draws, n);
      if s.None? {
        DistinctCount(list);
        return None;
      }
      AddElement(list, s.value);
      hide Elements;
      list := list + [s.value];
    }
    DistinctCount(list);
    assert Elements(draws[..n]) <= Elements(draws);
    SubsetSize(Elements(list), Elements(draws));
    tokens := Some(list);
  }

  /** Draws until a string comes that is not in the list yet. */
  method DrawNew(list: seq<string>, draws: seq<string>, from: nat) returns (s: Option<string>, n: nat)
    requires from <= |draws| && Elements(list) == Elements(draws[..from])
    ensures n <= |draws|
    ensures s.Some? ==> s.value !in list && Elements(draws[..n]) == Elements(list) + {s.value}
    ensures s.None? ==> Elements(draws) == Elements(list)
  {
    n := from;
    while n < |draws|
      invariant n <= |draws| && Elements(list) == Elements(draws[..n])
    {
      var found := Contains(list, draws[n]);
      NextElement(draws, n);
      n := n + 1;
      if !found {
        return Some(draws[n - 1]), n;
      }
    }
    assert draws[..n] == draws;
    s := None;
  }

  lemma AddElement(list: seq<string>, s: string)
    ensures Elements(list + [s]) == Elements(list) + {s}
  {
  }

  lemma NextElement(draws: seq<string>, n: nat)
    requires n < |draws|
    ensures Elements(draws[..n + 1]) == Elements(draws[..n]) + {draws[n]}
  {
    assert draws[..n + 1] == draws[..n] + [draws[n]];
  }

  method Contains(tokens: seq<string>, s: string) returns (found: bool)
    ensures found <==> s in tokens
  {
    var j := 0;
    found := false;
    while j < |tokens|
      invariant 0 <= j <= |tokens| && !found && s !in tokens[..j]
    {
      if tokens[j] == s {
        return true;
      }
      j := j + 1;
    }
  }

  lemma {:induction false} DistinctCount(tokens: seq<string>)
    requires Distinct(tokens)
    ensures |Elements(tokens)| == |tokens|
  {
    if tokens != [] {
      var init, last := tokens[..|tokens| - 1], tokens[|tokens| - 1];
      DistinctCount(init);
      assert Elements(tokens) == Elements(init) + {last};
      assert last !in Elements(init);
    }
  }

  // ------------------------------------------------------------ levels and tokens

  /** The first place of a string that occurs. */
  function IndexOf(tokens: seq<string>, s: string): (i: nat)
    requires s in tokens
    ensures i < |tokens| && tokens[i] == s && s !in tokens[..i]
  {
    if tokens[0] == s then 0 else 1 + IndexOf(tokens[1..], s)
  }

  method CheckSecurityLevel(tokens: seq<string>, token: string) returns (level: int)
    ensures level == LevelOf(tokens, token)
  {
    level := LEVEL_NONE;
    if token != "" {
      var i := 0;
      while i < |tokens|
        invariant 0 <= i <= |tokens| && token !in tokens[..i]
      {
        if tokens[i] == token {
          IndexUnique(tokens, token, i);
          return i;
        }
        i := i + 1;
      }
    }
  }

  function LevelOf(tokens: seq<string>, token: string): int {
    if token != "" && token in tokens then IndexOf(tokens, token) else LEVEL_NONE
  }

  /** The level is the place of the token, and there is none for a string that is empty or not a token. */
  lemma LevelIff(tokens: seq<string>, token: string, level: int)
    requires Distinct(tokens)
    ensures token in tokens && token != "" ==> (LevelOf(tokens, token) == level <==> 0 <= level < |tokens| && tokens[level] == token)
    ensures token !in tokens || token == "" ==> LevelOf(tokens, token) == LEVEL_NONE
  {
    if 0 <= level < |tokens| && tokens[level] == token {
      assert token !in tokens[..level];
      IndexUnique(tokens, token, level);
    }
  }

  lemma {:induction false} IndexUnique(tokens: seq<string>, s: string, i: nat)
    requires i < |tokens| && tokens[i] == s && s !in tokens[..i]
    ensures IndexOf(tokens, s) == i
  {
    if i > 0 {
      assert tokens[0] == tokens[..i][0] && tokens[1..][..i - 1] == tokens[..i][1..];
      IndexUnique(tokens[1..], s, i - 1);
    }
  }

  /** populateTokensLocal: the one token of the client's level. */
  function LocalTokens(tokens: seq<string>, level: int): seq<string> {
    if level < 0 || tokens == [] then [] else [tokens[Min(level, |tokens| - 1)]]
  }

  /** populateTokensRemote: all tokens up to the host's level. */
  method RemoteTokens(tokens: seq<string>, level: int) returns (given: seq<string>)
    ensures given == TokensUpTo(tokens, level)
  {
    given := [];
    if level >= 0 && tokens != [] {
      var last := if level >= |tokens| then |tokens| - 1 else level;
      var i := 0;
      while i <= last
        invariant 0 <= i <= last + 1 && given == tokens[..i]
      {
        given := given + [tokens[i]];
        i := i + 1;
      }
    }
  }

  function TokensUpTo(tokens: seq<string>, level: int): seq<string> {
    if level < 0 then [] else tokens[..Min(level + 1, |tokens|)]
  }

  /** The authentication request: only the first token counts. */
  function Authenticate(tokens: seq<string>, shown: seq<string>): int {
    if shown == [] then LEVEL_NONE else LevelOf(tokens, shown[0])
  }

  /** A client that shows several tokens is seen at the place of the first, whatever the others are. */
  lemma FirstTokenCounts(tokens: seq<string>, token: string, others: seq<string>, i: nat)
    requires Distinct(tokens) && i < |tokens|
    ensures token != "" && token == tokens[i] ==> Authenticate(tokens, [token] + others) == i
    ensures token !in tokens ==> Authenticate(tokens, [token] + others) == LEVEL_NONE
  {
    LevelIff(tokens, token, i);
    assert ([token] + others)[0] == token;
  }

  function Min(a: int, b: int): int {
    if a < b then a else b
  }

  /** A set of tokens as allocated: different, and not empty strings. */
  predicate Proper(tokens: seq<string>) {
    tokens != [] && Distinct(tokens) && "" !in tokens
  }

  lemma LevelOfToken(tokens: seq<string>, i: nat)
    requires Proper(tokens) && i < |tokens|
    ensures LevelOf(tokens, tokens[i]) == i
  {
    assert tokens[i] !in tokens[..i];
    IndexUnique(tokens, tokens[i], i);
  }

  /** A local client of level L is seen by the service at level min(L, n - 1), or at none if L is negative. */
  lemma LocalLevel(tokens: seq<string>, level: int)
    requires Proper(tokens)
    ensures Authenticate(tokens, LocalTokens(tokens, level)) == if level < 0 then LEVEL_NONE else Min(level, |tokens| - 1)
  {
    if level >= 0 {
      LevelOfToken(tokens, Min(level, |tokens| - 1));
    }
  }

  /** A client of level L behind a host of level H is seen at level min(L, H, n - 1), or at none if either is negative. */
  lemma RemoteLevel(tokens: seq<string>, hostLevel: int, level: int)
    requires Proper(tokens)
    ensures Authenticate(tokens, LocalTokens(TokensUpTo(tokens, hostLevel), level))
            == if level < 0 || hostLevel < 0 then LEVEL_NONE else Min(Min(level, hostLevel), |tokens| - 1)
  {
    if level >= 0 && hostLevel >= 0 {
      var i := Min(Min(level, hostLevel), |tokens| - 1);
      assert LocalTokens(TokensUpTo(tokens, hostLevel), level) == [tokens[i]];
      LevelOfToken(tokens, i);
    }
  }

  /** A host never gains by relaying, and a client never gains a level it was not given. */
  lemma LevelsNeverRise(tokens: seq<string>, hostLevel: int, level: int)
    requires Proper(tokens)
    ensures var remote := Authenticate(tokens, LocalTokens(TokensUpTo(tokens, hostLevel), level));
            && 0 <= remote < |tokens| && remote <= Authenticate(tokens, LocalTokens(tokens, level))
            && (remote > 0 ==> remote <= level && remote <= hostLevel)
  {
    RemoteLevel(tokens, hostLevel, level);
    LocalLevel(tokens, level);
  }

  /** To the service, having no token is the same as having the token of level 0. */
  lemma NoTokenIsLevelZero(tokens: seq<string>, level: int)
    requires Proper(tokens)
    ensures Authenticate(tokens, LocalTokens(tokens, level)) == Authenticate(tokens, []) <==> level <= 0 || |tokens| == 1
  {
    LocalLevel(tokens, level);
  }
}

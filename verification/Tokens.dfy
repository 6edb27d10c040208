/** Login tokens: their text, which never repeats, and the table that maps each to the user it was issued to. */
module Tokens {
  import opened Strings

  function MakeToken(user: int, id: int): string {
    "token-" + IntText(user) + "-" + IntText(id)
  }

  /** After its first character a number has no '-'. */
  predicate NumberShaped(s: string) {
    |s| >= 1 && forall i | 1 <= i < |s| :: s[i] != '-'
  }

  lemma IntTextShape(n: int)
    ensures NumberShaped(IntText(n))
  {
  }

  /** The first '-' after the first character of a number is the separator. */
  lemma SeparatorIsUnique(a: string, x: string, b: string, y: string)
    requires NumberShaped(a) && NumberShaped(b) && a + "-" + x == b + "-" + y
    ensures a == b && x == y
  {
    var s, t := a + "-" + x, b + "-" + y;
    assert s[|a|] == '-' && t[|b|] == '-';
    assert forall i | 0 <= i < |a| :: s[i] == a[i];
    assert forall i | 0 <= i < |b| :: t[i] == b[i];
    assert s[..|a|] == a && t[..|b|] == b;
    assert s[|a| + 1..] == x && t[|b| + 1..] == y;
  }

  lemma PartsAreUnique(a: string, x: string, b: string, y: string)
    requires NumberShaped(a) && NumberShaped(b) && "token-" + a + "-" + x == "token-" + b + "-" + y
    ensures a == b && x == y
  {
    assert ("token-" + a + "-" + x)[6..] == a + "-" + x;
    assert ("token-" + b + "-" + y)[6..] == b + "-" + y;
    SeparatorIsUnique(a, x, b, y);
  }

  lemma MakeTokenInjective(user: int, id: int, user': int, id': int)
    requires MakeToken(user, id) == MakeToken(user', id')
    ensures user == user' && id == id'
  {
    IntTextShape(user);
    IntTextShape(user');
    PartsAreUnique(IntText(user), IntText(id), IntText(user'), IntText(id'));
    IntTextInjective(user, user');
    IntTextInjective(id, id');
  }

  /** The tokens handed out when these users logged in, in this order; identifiers count from 1. */
  function TokensOf(issued: seq<int>): seq<string> {
    seq(|issued|, i requires 0 <= i < |issued| => MakeToken(issued[i], i + 1))
  }

  function Filled(tokens: seq<string>, users: seq<int>): map<string, int>
    requires |tokens| == |users|
  {
    if tokens == [] then map[]
    else
      var n := |tokens| - 1;
      Filled(tokens[..n], users[..n])[tokens[n] := users[n]]
  }

  /** The token table after these logins. */
  function TableAfter(issued: seq<int>): map<string, int> {
    Filled(TokensOf(issued), issued)
  }

  lemma LoginExtendsTable(issued: seq<int>, user: int)
    ensures TableAfter(issued + [user]) == TableAfter(issued)[MakeToken(user, |issued| + 1) := user]
  {
    var longer := issued + [user];
    assert TokensOf(longer)[..|issued|] == TokensOf(issued);
    assert longer[..|issued|] == issued;
  }

  lemma {:induction false} FilledKeys(tokens: seq<string>, users: seq<int>)
    requires |tokens| == |users|
    ensures forall token :: token in Filled(tokens, users) <==> token in tokens
  {
    if tokens != [] {
      var n := |tokens| - 1;
      FilledKeys(tokens[..n], users[..n]);
      assert tokens == tokens[..n] + [tokens[n]];
    }
  }

  lemma {:induction false} FilledKeepsAll(tokens: seq<string>, users: seq<int>)
    requires |tokens| == |users| && forall i, j | 0 <= i < j < |tokens| :: tokens[i] != tokens[j]
    ensures forall i | 0 <= i < |tokens| ::
              tokens[i] in Filled(tokens, users) && Filled(tokens, users)[tokens[i]] == users[i]
    ensures |Filled(tokens, users)| == |tokens|
  {
    if tokens != [] {
      var n := |tokens| - 1;
      FilledKeepsAll(tokens[..n], users[..n]);
      FilledKeys(tokens[..n], users[..n]);
    }
  }

  /** Over every run no login overwrites another's token: each stays mapped to the user it was issued to. */
  lemma TokensAreForever(issued: seq<int>)
    ensures forall i | 0 <= i < |issued| ::
              TokensOf(issued)[i] in TableAfter(issued) && TableAfter(issued)[TokensOf(issued)[i]] == issued[i]
    ensures |TableAfter(issued)| == |issued|
    ensures forall token :: token in TableAfter(issued) <==> token in TokensOf(issued)
  {
    var tokens := TokensOf(issued);
    forall i, j | 0 <= i < j < |tokens| ensures tokens[i] != tokens[j] {
      if tokens[i] == tokens[j] {
        MakeTokenInjective(issued[i], i + 1, issued[j], j + 1);
      }
    }
    FilledKeepsAll(tokens, issued);
    FilledKeys(tokens, issued);
  }
}

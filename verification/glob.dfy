/** SecurityMatchString: wildcard matching with '*'. */
module Glob {
  /** What a pattern means: '*' stands for any string, every other character for itself. */
  predicate Accepts(pattern: string, s: string) {
    if pattern == "" then s == ""
    else if pattern[0] == '*' then exists i | 0 <= i <= |s| :: Accepts(pattern[1..], s[i..])
    else s != "" && s[0] == pattern[0] && Accepts(pattern[1..], s[1..])
  }

  /** What SecurityMatchString answers. */
  predicate Matches(pattern: string, s: string)
    decreases |pattern|
  {
    if pattern == "" || s == "" then (pattern == "" || pattern == "*") && s == ""
    else if pattern[0] == '*' then exists i | 0 <= i <= |s| :: Matches(pattern[1..], s[i..])
    else pattern[0] == s[0] && Matches(pattern[1..], s[1..])
  }

  /** A suffix of a suffix is a suffix. */
  lemma Positions(pattern: string, cs: string, c: nat)
    requires c <= |cs|
    ensures (exists i | 0 <= i <= |cs[c..]| :: Matches(pattern, cs[c..][i..])) <==>
            exists j | c <= j <= |cs| :: Matches(pattern, cs[j..])
  {
    assert forall i | 0 <= i <= |cs| - c :: cs[c..][i..] == cs[c + i..];
    if j :| c <= j <= |cs| && Matches(pattern, cs[j..]) {
      assert cs[c..][j - c..] == cs[j..];
    }
  }

  /** The matcher itself; `wi` and `ci` are the places its two pointers have come to. */
  method MatchString(ws: string, wi: nat, cs: string, ci: nat) returns (match_: bool)
    requires wi <= |ws| && ci <= |cs|
    ensures match_ == Matches(ws[wi..], cs[ci..])
    decreases |ws| - wi, 0
  {
    var w, c := wi, ci;
    while w < |ws| && c < |cs|
      invariant wi <= w <= |ws| && ci <= c <= |cs|
      invariant Matches(ws[wi..], cs[ci..]) == Matches(ws[w..], cs[c..])
      decreases |ws| - w
    {
      if ws[w] == '*' {
        match_ := MatchStar(ws, w + 1, cs, c);
        Positions(ws[w + 1..], cs, c);
        return;
      } else if ws[w] == cs[c] {
        w, c := w + 1, c + 1;
      } else {
        break;
      }
    }
    return (w == |ws| || (ws[w] == '*' && w + 1 == |ws|)) && c == |cs|;
  }

  /** The inner loop: after a star the rest of the pattern is tried at every later place. */
  method MatchStar(ws: string, w: nat, cs: string, ci: nat) returns (match_: bool)
    requires w <= |ws| && ci <= |cs|
    ensures match_ <==> exists j | ci <= j <= |cs| :: Matches(ws[w..], cs[j..])
    decreases |ws| - w, 1
  {
    var c := ci;
    match_ := MatchString(ws, w, cs, c);
    while !match_ && c < |cs|
      invariant ci <= c <= |cs|
      invariant match_ == Matches(ws[w..], cs[c..])
      invariant forall j | ci <= j < c :: !Matches(ws[w..], cs[j..])
    {
      c := c + 1;
      match_ := MatchString(ws, w, cs, c);
    }
  }

  predicate EndsInTwoStars(pattern: string) {
    |pattern| >= 2 && pattern[|pattern| - 2] == '*' && pattern[|pattern| - 1] == '*'
  }

  /** Nothing is accepted that the pattern does not mean. */
  lemma {:induction false} NeverTooMuch(pattern: string, s: string)
    requires Matches(pattern, s)
    ensures Accepts(pattern, s)
    decreases |pattern|
  {
    if pattern == "" {
    } else if s == "" {
      assert Accepts(pattern[1..], s[0..]);
    } else if pattern[0] == '*' {
      var i :| 0 <= i <= |s| && Matches(pattern[1..], s[i..]);
      NeverTooMuch(pattern[1..], s[i..]);
    } else {
      NeverTooMuch(pattern[1..], s[1..]);
    }
  }

  predicate AllStars(pattern: string) {
    forall i | 0 <= i < |pattern| :: pattern[i] == '*'
  }

  lemma {:induction false} EmptyNeedsStars(pattern: string)
    requires Accepts(pattern, "")
    ensures AllStars(pattern)
  {
    if pattern != "" {
      var i :| 0 <= i <= 0 && Accepts(pattern[1..], ""[i..]);
      EmptyNeedsStars(pattern[1..]);
    }
  }

  /** Nothing that the pattern means is missed, unless it ends in two stars. */
  lemma {:induction false} NeverTooLittle(pattern: string, s: string)
    requires Accepts(pattern, s) && !EndsInTwoStars(pattern)
    ensures Matches(pattern, s)
    decreases |pattern|
  {
    if pattern == "" {
    } else if s == "" {
      EmptyNeedsStars(pattern);
      assert |pattern| == 1 && pattern == "*";
    } else if pattern[0] == '*' {
      var i :| 0 <= i <= |s| && Accepts(pattern[1..], s[i..]);
      NeverTooLittle(pattern[1..], s[i..]);
    } else {
      NeverTooLittle(pattern[1..], s[1..]);
    }
  }

  /** The pattern without its stars: the shortest string that it means. */
  function Unstarred(pattern: string): string {
    if pattern == "" then ""
    else if pattern[0] == '*' then Unstarred(pattern[1..])
    else [pattern[0]] + Unstarred(pattern[1..])
  }

  lemma {:induction false} UnstarredIsMeant(pattern: string)
    ensures Accepts(pattern, Unstarred(pattern))
  {
    if pattern != "" {
      UnstarredIsMeant(pattern[1..]);
      var s := Unstarred(pattern);
      if pattern[0] == '*' {
        assert s[0..] == s;
      } else {
        assert s[1..] == Unstarred(pattern[1..]);
      }
    }
  }

  /** A pattern that ends in two stars wants one character more than it means. */
  lemma {:induction false} TwoStarsNeedOneMore(pattern: string, s: string)
    requires EndsInTwoStars(pattern) && |s| <= |Unstarred(pattern)|
    ensures !Matches(pattern, s)
    decreases |pattern|
  {
    if |pattern| == 2 {
      assert pattern[1..][1..] == "";
      assert Unstarred(pattern[1..]) == Unstarred(pattern[1..][1..]);
    }
    if s != "" {
      if pattern[0] == '*' {
        forall i | 0 <= i <= |s|
          ensures !Matches(pattern[1..], s[i..])
        {
          if |pattern| > 2 {
            TwoStarsNeedOneMore(pattern[1..], s[i..]);
          }
        }
      } else {
        assert |pattern| > 2;
        TwoStarsNeedOneMore(pattern[1..], s[1..]);
      }
    }
  }

  /** A prefix of a suffix is a suffix of a prefix. */
  lemma Between(s: string, i: nat, k: nat)
    requires i <= k <= |s|
    ensures s[i..][..k - i] == s[..k][i..]
  {}

  /** With two stars at its end a pattern matches the strings that go on after something that the rest of it means. */
  lemma {:induction false} TwoStarsMatch(q: string, s: string)
    ensures Matches(q + "**", s) <==> exists i | 0 <= i < |s| :: Accepts(q, s[..i])
    decreases |q|
  {
    var pattern := q + "**";
    if s == "" {
    } else if q == "" {
      assert pattern[1..] == "*" && s[|s|..] == "" && Matches("*", s[|s|..]);
      assert s[..0] == "" && Accepts(q, s[..0]);
    } else if q[0] == '*' {
      assert pattern[1..] == q[1..] + "**";
      if Matches(pattern, s) {
        var i :| 0 <= i <= |s| && Matches(q[1..] + "**", s[i..]);
        TwoStarsMatch(q[1..], s[i..]);
        var j :| 0 <= j < |s[i..]| && Accepts(q[1..], s[i..][..j]);
        Between(s, i, i + j);
        assert Accepts(q[1..], s[..i + j][i..]) && Accepts(q, s[..i + j]);
      }
      if k :| 0 <= k < |s| && Accepts(q, s[..k]) {
        var i :| 0 <= i <= k && Accepts(q[1..], s[..k][i..]);
        Between(s, i, k);
        TwoStarsMatch(q[1..], s[i..]);
        assert Accepts(q[1..], s[i..][..k - i]);
      }
    } else {
      assert pattern[1..] == q[1..] + "**";
      TwoStarsMatch(q[1..], s[1..]);
      if Matches(pattern, s) {
        var j :| 0 <= j < |s[1..]| && Accepts(q[1..], s[1..][..j]);
        Between(s, 1, 1 + j);
        assert Accepts(q, s[..1 + j]);
      }
      if k :| 0 <= k < |s| && Accepts(q, s[..k]) {
        Between(s, 1, k);
        assert Accepts(q[1..], s[1..][..k - 1]);
      }
    }
  }

  /** The matcher decides the meaning of a pattern, for all strings, if and only if the pattern does not end in two stars. */
  lemma ExactIff(pattern: string)
    ensures (forall s :: Matches(pattern, s) == Accepts(pattern, s)) <==> !EndsInTwoStars(pattern)
  {
    if EndsInTwoStars(pattern) {
      UnstarredIsMeant(pattern);
      TwoStarsNeedOneMore(pattern, Unstarred(pattern));
    } else {
      forall s
        ensures Matches(pattern, s) == Accepts(pattern, s)
      {
        if Matches(pattern, s) {
          NeverTooMuch(pattern, s);
        }
        if Accepts(pattern, s) {
          NeverTooLittle(pattern, s);
        }
      }
    }
  }
}

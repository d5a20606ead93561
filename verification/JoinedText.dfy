/** Two texts joined by a colon: when the joined text gives the parts back. */
module JoinedText {
  ghost predicate ColonFree(s: string) {
    ':' !in s
  }

  /** A joined value splits at its only colon, or at its last one when the right part has none. */
  lemma JoinInjective(a: string, b: string, c: string, d: string)
    requires a + ":" + b == c + ":" + d
    requires (ColonFree(a) && ColonFree(c)) || (ColonFree(b) && ColonFree(d))
    ensures a == c && b == d
  {
    ColonNotBefore(a, b, c, d);
    ColonNotBefore(c, d, a, b);
    var s, t := a + ":" + b, c + ":" + d;
    assert a == s[..|a|] && c == t[..|c|];
    assert b == s[|a| + 1..] && d == t[|c| + 1..];
  }

  /** The joining colon of one side lies inside a colon-free part of the other unless they line up. */
  lemma ColonNotBefore(a: string, b: string, c: string, d: string)
    requires a + ":" + b == c + ":" + d
    requires ColonFree(c) || ColonFree(b)
    ensures |a| >= |c|
  {
    var s, t := a + ":" + b, c + ":" + d;
    assert s[|a|] == ':' && t[|c|] == ':';
    assert forall i :: 0 <= i < |c| ==> t[i] == c[i] && c[i] in c;
    assert forall i :: |a| < i < |s| ==> s[i] == b[i - |a| - 1] && b[i - |a| - 1] in b;
  }

  /** A colon-free pair joins to a text with one colon, so whatever else joins to it is colon-free too. */
  lemma OneColon(a: string, b: string, c: string, d: string)
    requires a + ":" + b == c + ":" + d && ColonFree(a) && ColonFree(b)
    ensures a == c && b == d
  {
    var s := a + ":" + b;
    assert (c + ":" + d)[|c|] == ':';
    assert forall i :: 0 <= i < |s| && s[i] == ':' ==> i == |a|;
    assert a == s[..|a|] && c == (c + ":" + d)[..|c|];
    assert b == s[|a| + 1..] && d == (c + ":" + d)[|c| + 1..];
  }

  /** A pair with a colon in either part is joined to the same text by another pair. */
  lemma AnotherPair(a: string, b: string) returns (c: string, d: string)
    requires !ColonFree(a) || !ColonFree(b)
    ensures c + ":" + d == a + ":" + b && c != a
  {
    if !ColonFree(a) {
      var i :| 0 <= i < |a| && a[i] == ':';
      c, d := a[..i], a[i + 1..] + ":" + b;
      assert a == a[..i] + ":" + a[i + 1..];
      assert c + ":" + d == a + ":" + b;
    } else {
      var i :| 0 <= i < |b| && b[i] == ':';
      c, d := a + ":" + b[..i], b[i + 1..];
      assert b == b[..i] + ":" + b[i + 1..];
      assert c + ":" + d == a + ":" + b;
    }
  }
}

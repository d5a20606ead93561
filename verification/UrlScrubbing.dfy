/** Replacing the values of credential parameters in URL-like text. */
module UrlScrubbing {

  const REDACTED := "[REDACTED]"

  const SECRET_NAMES: set<string> :=
    {"sig", "signature", "se", "st", "spr", "sv", "sr", "sp", "token", "key",
     "apikey", "api-key", "api_key", "sessionid", "auth"}

  // ---------- character classes ----------

  predicate IsSeparator(c: char) {
    c == '?' || c == '&' || c == '#' || c == ';'
  }

  predicate IsSpace(c: char) {
    var n := c as int;
    || 0x9 <= n <= 0xD || n == 0x20 || n == 0xA0 || n == 0x1680 || 0x2000 <= n <= 0x200A
    || n == 0x2028 || n == 0x2029 || n == 0x202F || n == 0x205F || n == 0x3000 || n == 0xFEFF
  }

  predicate IsValueChar(c: char) {
    !IsSeparator(c) && !IsSpace(c)
  }

  predicate IsNameChar(c: char) {
    IsValueChar(c) && c != '='
  }

  function LowerChar(c: char): char {
    if 'A' <= c <= 'Z' then (c as int + 32) as char else c
  }

  function Lower(s: string): string {
    seq(|s|, i requires 0 <= i < |s| => LowerChar(s[i]))
  }

  predicate IsSecretName(name: string) {
    Lower(name) in SECRET_NAMES
  }

  // ---------- the classes and the names, letter by letter ----------

  const SPACES := "\t\n\U{B}\U{C}\r \U{A0}\U{1680}\U{2000}\U{2001}\U{2002}\U{2003}\U{2004}\U{2005}\U{2006}\U{2007}"
               + "\U{2008}\U{2009}\U{200A}\U{2028}\U{2029}\U{202F}\U{205F}\U{3000}\U{FEFF}"

  /** The character, or the ASCII capital of a small letter. */
  ghost predicate EitherCase(c: char, small: char) {
    c == small || ('a' <= small <= 'z' && c as int == small as int - 32)
  }

  ghost predicate Spells(s: string, word: string) {
    |s| == |word| && forall k :: 0 <= k < |s| ==> EitherCase(s[k], word[k])
  }

  /** One of the fifteen names, in either case letter by letter. */
  ghost predicate NamesCredential(name: string) {
    || Spells(name, "sig") || Spells(name, "signature") || Spells(name, "se") || Spells(name, "st")
    || Spells(name, "spr") || Spells(name, "sv") || Spells(name, "sr") || Spells(name, "sp")
    || Spells(name, "token") || Spells(name, "key") || Spells(name, "apikey") || Spells(name, "api-key")
    || Spells(name, "api_key") || Spells(name, "sessionid") || Spells(name, "auth")
  }

  lemma SeparatorsAre(c: char)
    ensures IsSeparator(c) <==> c in "?&#;"
    ensures IsNameChar(c) <==> c !in "?&#;=" && c !in SPACES
    ensures IsValueChar(c) <==> c !in "?&#;" && c !in SPACES
  {
    SpacesAre(c);
  }

  lemma SpacesAre(c: char)
    ensures IsSpace(c) <==> c in SPACES
  {
    if IsSpace(c) { SpaceIsListed(c); }
  }

  lemma SpaceIsListed(c: char)
    requires IsSpace(c)
    ensures c in SPACES
  {
    var n := c as int;
    var i := if n <= 0xD then n - 9 else if n == 0x20 then 5 else if n == 0xA0 then 6 else if n == 0x1680 then 7
             else if n <= 0x200A then n - 0x2000 + 8 else if n == 0x2028 then 19 else if n == 0x2029 then 20
             else if n == 0x202F then 21 else if n == 0x205F then 22 else if n == 0x3000 then 23 else 24;
    assert SPACES[i] == c;
  }

  /** Folding to small letters is comparing in either case. */
  lemma LowerSpells(s: string, word: string)
    requires forall c :: c in word ==> !('A' <= c <= 'Z')
    ensures Lower(s) == word <==> Spells(s, word)
  {
    if Lower(s) == word {
      forall k | 0 <= k < |s| ensures EitherCase(s[k], word[k]) {
        assert word[k] == LowerChar(s[k]);
      }
    }
    if Spells(s, word) {
      forall k | 0 <= k < |s| ensures LowerChar(s[k]) == word[k] {
        assert word[k] in word;
      }
    }
  }

  lemma SecretNamesAre(name: string)
    ensures IsSecretName(name) <==> NamesCredential(name)
  {
    LowerSpells(name, "sig");
    LowerSpells(name, "signature");
    LowerSpells(name, "se");
    LowerSpells(name, "st");
    LowerSpells(name, "spr");
    LowerSpells(name, "sv");
    LowerSpells(name, "sr");
    LowerSpells(name, "sp");
    LowerSpells(name, "token");
    LowerSpells(name, "key");
    LowerSpells(name, "apikey");
    LowerSpells(name, "api-key");
    LowerSpells(name, "api_key");
    LowerSpells(name, "sessionid");
    LowerSpells(name, "auth");
  }

  // ---------- text as tokens ----------

  /** A parameter is what the pattern matches; every other character stands alone. */
  datatype Token =
    | Plain(c: char)
    | Param(separator: char, name: string, value: string)

  /** The longest run of name characters at the start. */
  function NameLength(s: string): (n: nat)
    ensures n <= |s|
    ensures forall i :: 0 <= i < n ==> IsNameChar(s[i])
    ensures n < |s| ==> !IsNameChar(s[n])
  {
    if s == "" || !IsNameChar(s[0]) then 0 else 1 + NameLength(s[1..])
  }

  function ValueLength(s: string): (n: nat)
    ensures n <= |s|
    ensures forall i :: 0 <= i < n ==> IsValueChar(s[i])
    ensures n < |s| ==> !IsValueChar(s[n])
  {
    if s == "" || !IsValueChar(s[0]) then 0 else 1 + ValueLength(s[1..])
  }

  /** A non-empty name directly followed by an equals sign. */
  predicate NameThenEquals(s: string) {
    0 < NameLength(s) < |s| && s[NameLength(s)] == '='
  }

  predicate StartsParam(s: string) {
    s != "" && IsSeparator(s[0]) && NameThenEquals(s[1..])
  }

  /** The parameter at the start and the text behind it. */
  function SplitParam(s: string): (r: (Token, string))
    requires StartsParam(s)
    ensures |r.1| < |s|
  {
    var n := NameLength(s[1..]);
    var tail := s[1..][n..][1..];
    var v := ValueLength(tail);
    (Param(s[0], s[1..][..n], tail[..v]), tail[v..])
  }

  /** The leftmost, non-overlapping matches of the parameter pattern. */
  function Parse(s: string): seq<Token>
    decreases |s|
  {
    if s == "" then []
    else if StartsParam(s) then [SplitParam(s).0] + Parse(SplitParam(s).1)
    else [Plain(s[0])] + Parse(s[1..])
  }

  /** The token's text followed by `rest`. */
  function RenderOnto(t: Token, rest: string): string {
    match t
    case Plain(c) => [c] + rest
    case Param(separator, name, value) => [separator] + (name + (['='] + (value + rest)))
  }

  function TokenLength(t: Token): nat {
    match t
    case Plain(_) => 1
    case Param(_, name, value) => |name| + |value| + 2
  }

  function Render(ts: seq<Token>): string {
    if ts == [] then "" else RenderOnto(ts[0], Render(ts[1..]))
  }

  // ---------- scrubbing ----------

  predicate Exposes(t: Token) {
    t.Param? && t.value != REDACTED && IsSecretName(t.name) && t.value != ""
  }

  function Scrub(t: Token): Token {
    if Exposes(t) then t.(value := REDACTED) else t
  }

  function ScrubAll(ts: seq<Token>): seq<Token> {
    if ts == [] then [] else [Scrub(ts[0])] + ScrubAll(ts[1..])
  }

  function CountExposed(ts: seq<Token>): nat {
    if ts == [] then 0 else (if Exposes(ts[0]) then 1 else 0) + CountExposed(ts[1..])
  }

  datatype ScrubbedUrl = ScrubbedUrl(text: string, redacted: nat)

  function RedactUrlText(s: string): ScrubbedUrl {
    ScrubbedUrl(Render(ScrubAll(Parse(s))), CountExposed(Parse(s)))
  }

  // ---------- parsing and rendering are inverse ----------

  /** A parameter as the pattern matches it in front of `rest`. */
  ghost predicate Matched(t: Token, rest: string) {
    && t.Param? && IsSeparator(t.separator)
    && t.name != "" && (forall c :: c in t.name ==> IsNameChar(c))
    && (forall c :: c in t.value ==> IsValueChar(c))
    && (rest != "" ==> !IsValueChar(rest[0]))
  }

  /** The token lists that `Parse` produces. */
  ghost predicate Canonical(ts: seq<Token>) {
    ts == [] ||
    (&& Canonical(ts[1..])
     && if ts[0].Plain? then !StartsParam([ts[0].c] + Render(ts[1..])) else Matched(ts[0], Render(ts[1..])))
  }

  lemma Halves(a: string, b: string)
    ensures (a + b)[..|a|] == a && (a + b)[|a|..] == b
  {
  }

  lemma Rejoin(s: string, n: nat)
    requires n <= |s|
    ensures s[..n] + s[n..] == s
    ensures s != "" ==> [s[0]] + s[1..] == s
  {
  }

  lemma SplitParamRender(s: string)
    requires StartsParam(s)
    ensures RenderOnto(SplitParam(s).0, SplitParam(s).1) == s
  {
    var behind := s[1..];
    var n := NameLength(behind);
    var rest := behind[n..];
    var tail := rest[1..];
    Rejoin(tail, ValueLength(tail));
    Rejoin(rest, 0);
    Rejoin(behind, n);
    Rejoin(s, 0);
  }

  lemma SplitParamMatched(s: string)
    requires StartsParam(s)
    ensures Matched(SplitParam(s).0, SplitParam(s).1)
  {
  }

  lemma {:induction false} ParseRender(s: string)
    ensures Canonical(Parse(s)) && Render(Parse(s)) == s
    decreases |s|
  {
    if s == "" {
    } else if StartsParam(s) {
      SplitParamRender(s);
      SplitParamMatched(s);
      ParseRender(SplitParam(s).1);
      assert Parse(s)[1..] == Parse(SplitParam(s).1);
    } else {
      ParseRender(s[1..]);
      assert Parse(s)[1..] == Parse(s[1..]);
      assert [s[0]] + s[1..] == s;
    }
  }

  lemma {:induction false} NameLengthIs(name: string, rest: string)
    requires forall c :: c in name ==> IsNameChar(c)
    requires rest != "" && !IsNameChar(rest[0])
    ensures NameLength(name + rest) == |name|
  {
    if name == "" {
      assert name + rest == rest;
    } else {
      assert name[0] in name;
      assert (name + rest)[1..] == name[1..] + rest;
      NameLengthIs(name[1..], rest);
    }
  }

  lemma {:induction false} ValueLengthIs(value: string, rest: string)
    requires forall c :: c in value ==> IsValueChar(c)
    requires rest != "" ==> !IsValueChar(rest[0])
    ensures ValueLength(value + rest) == |value|
  {
    if value == "" {
      assert value + rest == rest;
    } else {
      assert value[0] in value;
      assert (value + rest)[1..] == value[1..] + rest;
      ValueLengthIs(value[1..], rest);
    }
  }

  /** Whatever is written as a parameter is read back as that parameter. */
  lemma ReadsParam(t: Token, rest: string)
    requires Matched(t, rest)
    ensures StartsParam(RenderOnto(t, rest)) && SplitParam(RenderOnto(t, rest)) == (t, rest)
  {
    var s := RenderOnto(t, rest);
    var tail := t.value + rest;
    Halves([t.separator], t.name + (['='] + tail));
    NameLengthIs(t.name, ['='] + tail);
    Halves(t.name, ['='] + tail);
    Halves(['='], tail);
    ValueLengthIs(t.value, rest);
    Halves(t.value, rest);
    assert s[1..] == t.name + (['='] + tail);
    assert s[1..][|t.name|] == '=';
  }

  lemma {:induction false} RenderParse(ts: seq<Token>)
    requires Canonical(ts)
    ensures Parse(Render(ts)) == ts
  {
    if ts != [] {
      RenderParse(ts[1..]);
      ReadsToken(ts[0], Render(ts[1..]));
      assert ts == [ts[0]] + ts[1..];
    }
  }

  lemma ReadsToken(t: Token, rest: string)
    requires if t.Plain? then !StartsParam([t.c] + rest) else Matched(t, rest)
    ensures Parse(RenderOnto(t, rest)) == [t] + Parse(rest)
  {
    if t.Plain? {
      assert ([t.c] + rest)[1..] == rest;
    } else {
      ReadsParam(t, rest);
    }
  }

  // ---------- scrubbing keeps the structure ----------

  lemma {:induction false} ScrubKeepsNames(ts: seq<Token>)
    requires Canonical(ts)
    ensures NameLength(Render(ScrubAll(ts))) == NameLength(Render(ts))
    ensures NameThenEquals(Render(ScrubAll(ts))) == NameThenEquals(Render(ts))
    ensures (Render(ScrubAll(ts)) == "") == (ts == []) == (Render(ts) == "")
    ensures ts != [] ==> Render(ScrubAll(ts))[0] == Render(ts)[0]
  {
    if ts != [] {
      var a, b := Render(ts), Render(ScrubAll(ts));
      assert ScrubAll(ts)[1..] == ScrubAll(ts[1..]);
      ScrubKeepsNames(ts[1..]);
      if ts[0].Plain? {
        assert a[1..] == Render(ts[1..]) && b[1..] == Render(ScrubAll(ts[1..]));
        if IsNameChar(ts[0].c) && ts[1..] != [] {
          NextAfterName(a);
          NextAfterName(b);
        }
      }
    }
  }

  lemma NextAfterName(s: string)
    requires s != "" && IsNameChar(s[0])
    ensures NameThenEquals(s) == (NameThenEquals(s[1..]) || (|s| > 1 && s[1] == '='))
  {
  }

  lemma {:induction false} ScrubMatched(t: Token, rest: string, scrubbedRest: string)
    requires Matched(t, rest)
    requires scrubbedRest != "" ==> rest != "" && scrubbedRest[0] == rest[0]
    ensures Matched(Scrub(t), scrubbedRest)
  {
    assert forall c :: c in REDACTED ==> IsValueChar(c);
  }

  lemma ScrubPlain(c: char, rest: string, scrubbedRest: string)
    requires NameThenEquals(rest) == NameThenEquals(scrubbedRest)
    ensures StartsParam([c] + rest) == StartsParam([c] + scrubbedRest)
  {
  }

  lemma {:induction false} ScrubCanonical(ts: seq<Token>)
    requires Canonical(ts)
    ensures Canonical(ScrubAll(ts))
  {
    if ts != [] {
      var rest, scrubbedRest := Render(ts[1..]), Render(ScrubAll(ts[1..]));
      assert ScrubAll(ts)[0] == Scrub(ts[0]) && ScrubAll(ts)[1..] == ScrubAll(ts[1..]);
      ScrubCanonical(ts[1..]);
      ScrubKeepsNames(ts[1..]);
      if ts[0].Plain? {
        ScrubPlain(ts[0].c, rest, scrubbedRest);
      } else {
        ScrubMatched(ts[0], rest, scrubbedRest);
      }
    }
  }

  /** Scrubbing what is scrubbed changes and counts nothing; counting nothing is changing nothing. */
  lemma {:induction false} ScrubAllFacts(ts: seq<Token>)
    ensures ScrubAll(ScrubAll(ts)) == ScrubAll(ts)
    ensures CountExposed(ScrubAll(ts)) == 0
    ensures CountExposed(ts) == 0 <==> ScrubAll(ts) == ts
    ensures forall t :: t in ScrubAll(ts) ==> !Exposes(t)
  {
    if ts != [] {
      ScrubAllFacts(ts[1..]);
      var r := ScrubAll(ts);
      assert r[0] == Scrub(ts[0]) && r[1..] == ScrubAll(ts[1..]);
      assert ts == [ts[0]] + ts[1..];
    }
  }

  lemma {:induction false} ScrubAllPointwise(ts: seq<Token>)
    ensures |ScrubAll(ts)| == |ts| && forall i :: 0 <= i < |ts| ==> ScrubAll(ts)[i] == Scrub(ts[i])
  {
    if ts != [] { ScrubAllPointwise(ts[1..]); }
  }

  ghost predicate ShowsCredential(t: Token) {
    t.Param? && NamesCredential(t.name) && t.value != "" && t.value != "[REDACTED]"
  }

  /** The tokens that show a credential, by their places. */
  ghost function Shown(ts: seq<Token>): (places: set<nat>) {
    set i | 0 <= i < |ts| && ShowsCredential(ts[i])
  }

  /** Only the values of these tokens are replaced. */
  ghost predicate Replaced(before: seq<Token>, after: seq<Token>) {
    |after| == |before| && forall i :: 0 <= i < |before| ==>
      after[i] == if ShowsCredential(before[i]) then before[i].(value := "[REDACTED]") else before[i]
  }

  lemma ExposesIs(t: Token)
    ensures Exposes(t) <==> ShowsCredential(t)
  {
    if t.Param? { SecretNamesAre(t.name); }
  }

  lemma ShownAppend(ts: seq<Token>, t: Token)
    ensures |Shown(ts + [t])| == |Shown(ts)| + if ShowsCredential(t) then 1 else 0
  {
    assert Shown(ts + [t]) == Shown(ts) + if ShowsCredential(t) then {|ts|} else {};
  }

  lemma {:induction false} CountIsShown(ts: seq<Token>)
    ensures CountExposed(ts) == |Shown(ts)|
  {
    if ts == [] {
      assert Shown(ts) == {};
    } else {
      var n := |ts| - 1;
      CountIsShown(ts[..n]);
      CountAppend(ts[..n], ts[n]);
      ShownAppend(ts[..n], ts[n]);
      ExposesIs(ts[n]);
      assert ts == ts[..n] + [ts[n]];
    }
  }

  lemma {:induction false} CountAppend(ts: seq<Token>, t: Token)
    ensures CountExposed(ts + [t]) == CountExposed(ts) + if Exposes(t) then 1 else 0
  {
    if ts == [] {
      assert ts + [t] == [t];
    } else {
      assert (ts + [t])[1..] == ts[1..] + [t];
      CountAppend(ts[1..], t);
    }
  }

  /**
   * The second pass finds nothing; the counter stays put exactly when the text does; and the result has the same
   * parameters in the same order, with only the credentials' values replaced, which are counted.
   */
  lemma RedactUrlTextFacts(s: string)
    ensures RedactUrlText(RedactUrlText(s).text) == ScrubbedUrl(RedactUrlText(s).text, 0)
    ensures RedactUrlText(s).redacted == 0 <==> RedactUrlText(s).text == s
    ensures var before, after := Parse(s), Parse(RedactUrlText(s).text);
            Replaced(before, after) && RedactUrlText(s).redacted == |Shown(before)|
  {
    var ts := Parse(s);
    ParseRender(s);
    ScrubCanonical(ts);
    ScrubAllFacts(ts);
    ScrubAllPointwise(ts);
    RenderParse(ScrubAll(ts));
    CountIsShown(ts);
    forall i | 0 <= i < |ts|
      ensures ScrubAll(ts)[i] == if ShowsCredential(ts[i]) then ts[i].(value := "[REDACTED]") else ts[i]
    {
      ExposesIs(ts[i]);
    }
  }

  // ---------- nothing is missed ----------

  ghost predicate ParamAt(text: string, before: string, separator: char, name: string, value: string, after: string) {
    var t := Param(separator, name, value);
    text == before + RenderOnto(t, after) && Matched(t, after)
  }

  lemma RenderOntoLength(t: Token, rest: string)
    ensures |RenderOnto(t, rest)| == TokenLength(t) + |rest|
    ensures RenderOnto(t, rest)[TokenLength(t)..] == rest
  {
  }

  /** Inside a token only the first character can be a separator. */
  lemma InsideToken(t: Token, rest: string, i: nat)
    requires Matched(t, rest) && 0 < i < TokenLength(t)
    ensures i < |RenderOnto(t, rest)| && !IsSeparator(RenderOnto(t, rest)[i])
  {
    var s, tail := RenderOnto(t, rest), t.value + rest;
    assert s[i] == (t.name + (['='] + tail))[i - 1];
    if i <= |t.name| {
      assert s[i] == t.name[i - 1];
      assert s[i] in t.name;
    } else if i > |t.name| + 1 {
      assert s[i] == tail[i - |t.name| - 2] == t.value[i - |t.name| - 2];
      assert s[i] in t.value;
    }
  }

  lemma DropWithin(a: string, b: string, k: nat)
    requires k <= |a|
    ensures (a + b)[k..] == a[k..] + b
  {
  }

  lemma ParamLeads(ts: seq<Token>, t: Token, after: string)
    requires Canonical(ts) && Matched(t, after) && Render(ts) == RenderOnto(t, after)
    ensures ts != [] && ts[0] == t
  {
    ReadsParam(t, after);
    RenderParse(ts);
    ReadsToken(t, after);
  }

  /** Every parameter in a text is a token of it. */
  lemma {:induction false} ParamIsToken(ts: seq<Token>, before: string, separator: char, name: string,
                                        value: string, after: string)
    requires Canonical(ts) && ParamAt(Render(ts), before, separator, name, value, after)
    ensures Param(separator, name, value) in ts
  {
    var t := Param(separator, name, value);
    var behind := RenderOnto(t, after);
    assert behind[0] == separator;
    if before == "" {
      assert Render(ts) == behind;
      ParamLeads(ts, t, after);
    } else {
      var rest, k := Render(ts[1..]), TokenLength(ts[0]);
      assert Render(ts)[|before|] == separator;
      if |before| < k { InsideToken(ts[0], rest, |before|); }
      RenderOntoLength(ts[0], rest);
      DropWithin(before, behind, k);
      ParamIsToken(ts[1..], before[k..], separator, name, value, after);
    }
  }

  /** A parameter by its places: the separator at `i`, the equals sign at `j`, and the whole value up to `k`. */
  ghost predicate ParameterAt(text: string, i: nat, j: nat, k: nat) {
    && i + 1 < j < k <= |text| && text[i] in "?&#;" && text[j] == '='
    && (forall c :: c in text[i + 1..j] ==> c !in "?&#;=" && c !in SPACES)
    && (forall c :: c in text[j + 1..k] ==> c !in "?&#;" && c !in SPACES)
    && (k < |text| ==> text[k] in "?&#;" || text[k] in SPACES)
  }

  /** Wherever a separator leads a credential's name, the whole value is empty or redacted. */
  ghost predicate NoSecretShown(text: string) {
    forall i: nat, j: nat, k: nat :: ParameterAt(text, i, j, k) && NamesCredential(text[i + 1..j]) ==>
      text[j + 1..k] == "" || text[j + 1..k] == "[REDACTED]"
  }

  lemma CutAt(text: string, i: nat, j: nat, k: nat)
    requires i + 1 < j < k <= |text| && text[j] == '='
    ensures text == text[..i] + RenderOnto(Param(text[i], text[i + 1..j], text[j + 1..k]), text[k..])
  {
    assert text[j..] == ['='] + text[j + 1..];
    assert text[j + 1..] == text[j + 1..k] + text[k..];
    assert text[i + 1..] == text[i + 1..j] + text[j..];
    assert text[i..] == [text[i]] + text[i + 1..];
    assert text == text[..i] + text[i..];
  }

  lemma PlacesAreParam(text: string, i: nat, j: nat, k: nat)
    requires ParameterAt(text, i, j, k)
    ensures ParamAt(text, text[..i], text[i], text[i + 1..j], text[j + 1..k], text[k..])
  {
    CutAt(text, i, j, k);
    SeparatorsAre(text[i]);
    forall c | c in text[i + 1..j] ensures IsNameChar(c) {
      SeparatorsAre(c);
    }
    forall c | c in text[j + 1..k] ensures IsValueChar(c) {
      SeparatorsAre(c);
    }
    if k < |text| { SeparatorsAre(text[k]); }
  }

  /** A parameter of a text none of whose tokens shows a credential. */
  lemma HiddenAt(ts: seq<Token>, i: nat, j: nat, k: nat)
    requires Canonical(ts) && forall t :: t in ts ==> !Exposes(t)
    requires ParameterAt(Render(ts), i, j, k) && NamesCredential(Render(ts)[i + 1..j])
    ensures Render(ts)[j + 1..k] == "" || Render(ts)[j + 1..k] == "[REDACTED]"
  {
    var text := Render(ts);
    PlacesAreParam(text, i, j, k);
    ParamIsToken(ts, text[..i], text[i], text[i + 1..j], text[j + 1..k], text[k..]);
    ExposesIs(Param(text[i], text[i + 1..j], text[j + 1..k]));
  }

  lemma {:induction false} RedactedTextShowsNoSecret(s: string)
    ensures NoSecretShown(RedactUrlText(s).text)
  {
    var ts := ScrubAll(Parse(s));
    ParseRender(s);
    ScrubCanonical(Parse(s));
    ScrubAllFacts(Parse(s));
    forall i: nat, j: nat, k: nat | ParameterAt(Render(ts), i, j, k) && NamesCredential(Render(ts)[i + 1..j])
      ensures Render(ts)[j + 1..k] == "" || Render(ts)[j + 1..k] == "[REDACTED]"
    {
      HiddenAt(ts, i, j, k);
    }
  }
}

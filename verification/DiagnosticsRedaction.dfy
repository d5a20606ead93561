/** Redacting secrets from captured JSON diagnostics, with a shared counter. */
module DiagnosticsRedaction {
  import opened UrlScrubbing

  datatype Json =
    | JsonText(text: string)
    | JsonNumber(number: real)
    | JsonBool(flag: bool)
    | JsonNull
    | JsonArray(items: seq<Json>)
    | JsonRecord(fields: seq<Field>)

  datatype Field = Field(key: string, value: Json)

  // ---------- secret keys ----------

  predicate Contains(s: string, word: string)
    decreases |s|
  {
    word <= s || (s != "" && Contains(s[1..], word))
  }

  predicate IsSecretKey(key: string) {
    var k := Lower(key);
    || Contains(k, "cookie") || Contains(k, "set-cookie") || Contains(k, "authorization") || Contains(k, "bearer")
    || Contains(k, "token") || Contains(k, "session") || Contains(k, "secret") || Contains(k, "signed")
    || Contains(k, "apikey") || Contains(k, "api-key") || Contains(k, "api_key") || Contains(k, "password")
  }

  // ---------- the redacted value and the count ----------

  /** A string under a secret key that is not yet redacted. */
  predicate Exposed(f: Field) {
    f.value.JsonText? && f.value.text != REDACTED && IsSecretKey(f.key)
  }

  function Redact(v: Json): Json {
    match v
    case JsonText(s) => JsonText(RedactUrlText(s).text)
    case JsonArray(items) => JsonArray(RedactItems(items))
    case JsonRecord(fields) => JsonRecord(RedactFields(fields))
    case _ => v
  }

  function RedactItems(items: seq<Json>): seq<Json> {
    if items == [] then [] else [Redact(items[0])] + RedactItems(items[1..])
  }

  function RedactFields(fields: seq<Field>): seq<Field> {
    if fields == [] then []
    else
      [RedactField(fields[0])] + RedactFields(fields[1..])
  }

  function RedactField(f: Field): (r: Field)
    decreases f
  {
    Field(f.key, if Exposed(f) then JsonText(REDACTED) else Redact(f.value))
  }

  function Count(v: Json): nat {
    match v
    case JsonText(s) => RedactUrlText(s).redacted
    case JsonArray(items) => CountItems(items)
    case JsonRecord(fields) => CountFields(fields)
    case _ => 0
  }

  function CountItems(items: seq<Json>): nat {
    if items == [] then 0 else Count(items[0]) + CountItems(items[1..])
  }

  function CountFields(fields: seq<Field>): nat {
    if fields == [] then 0
    else CountField(fields[0]) + CountFields(fields[1..])
  }

  function CountField(f: Field): (n: nat)
    decreases f
  {
    if Exposed(f) then 1 else Count(f.value)
  }

  // ---------- the running pass ----------

  class RedactionCounters {
    var redacted: nat

    constructor ()
      ensures redacted == 0
    {
      redacted := 0;
    }
  }

  lemma {:induction false} ItemsConcat(a: seq<Json>, b: seq<Json>)
    ensures RedactItems(a + b) == RedactItems(a) + RedactItems(b)
    ensures CountItems(a + b) == CountItems(a) + CountItems(b)
  {
    if a == [] {
      assert a + b == b;
    } else {
      assert (a + b)[1..] == a[1..] + b;
      ItemsConcat(a[1..], b);
    }
  }

  lemma {:induction false} FieldsConcat(a: seq<Field>, b: seq<Field>)
    ensures RedactFields(a + b) == RedactFields(a) + RedactFields(b)
    ensures CountFields(a + b) == CountFields(a) + CountFields(b)
  {
    if a == [] {
      assert a + b == b;
    } else {
      assert (a + b)[1..] == a[1..] + b;
      FieldsConcat(a[1..], b);
    }
  }

  lemma ItemsSnoc(items: seq<Json>, i: nat)
    requires i < |items|
    ensures RedactItems(items[..i + 1]) == RedactItems(items[..i]) + [Redact(items[i])]
    ensures CountItems(items[..i + 1]) == CountItems(items[..i]) + Count(items[i])
  {
    assert items[..i + 1] == items[..i] + [items[i]];
    ItemsConcat(items[..i], [items[i]]);
  }

  lemma FieldsSnoc(fields: seq<Field>, i: nat)
    requires i < |fields|
    ensures RedactFields(fields[..i + 1]) == RedactFields(fields[..i]) + [RedactField(fields[i])]
    ensures CountFields(fields[..i + 1]) == CountFields(fields[..i]) + CountField(fields[i])
  {
    assert fields[..i + 1] == fields[..i] + [fields[i]];
    FieldsConcat(fields[..i], [fields[i]]);
  }

  method RedactJsonValue(value: Json, counters: RedactionCounters) returns (redacted: Json)
    modifies counters
    ensures redacted == Redact(value) && IsRedaction(value, redacted) && ShowsNoSecret(redacted)
    ensures counters.redacted == old(counters.redacted) + Count(value) && Count(value) == Replacements(value)
    decreases value
  {
    RedactedValueShowsNoSecret(value);
    CountIsReplacements(value);
    match value
    case JsonText(s) =>
      var scrubbed := RedactUrlText(s);
      counters.redacted := counters.redacted + scrubbed.redacted;
      redacted := JsonText(scrubbed.text);
    case JsonArray(items) =>
      var out := [];
      for i := 0 to |items|
        invariant out == RedactItems(items[..i])
        invariant counters.redacted == old(counters.redacted) + CountItems(items[..i])
      {
        var item := RedactJsonValue(items[i], counters);
        out := out + [item];
        ItemsSnoc(items, i);
      }
      assert items[..|items|] == items;
      redacted := JsonArray(out);
    case JsonRecord(fields) =>
      var out := [];
      for i := 0 to |fields|
        invariant out == RedactFields(fields[..i])
        invariant counters.redacted == old(counters.redacted) + CountFields(fields[..i])
      {
        var f := fields[i];
        FieldsSnoc(fields, i);
        if f.value.JsonText? && f.value.text != REDACTED && IsSecretKey(f.key) {
          counters.redacted := counters.redacted + 1;
          out := out + [Field(f.key, JsonText(REDACTED))];
        } else {
          var entry := RedactJsonValue(f.value, counters);
          out := out + [Field(f.key, entry)];
        }
      }
      assert fields[..|fields|] == fields;
      redacted := JsonRecord(out);
    case _ =>
      redacted := value;
  }

  // ---------- idempotence and exact counting ----------

  lemma {:induction false} RedactFacts(v: Json)
    ensures Redact(Redact(v)) == Redact(v) && Count(Redact(v)) == 0
    ensures Count(v) == 0 <==> Redact(v) == v
  {
    match v
    case JsonText(s) => RedactUrlTextFacts(s);
    case JsonArray(items) => ItemsFacts(items);
    case JsonRecord(fields) => FieldsFacts(fields);
    case _ =>
  }

  lemma {:induction false} ItemsFacts(items: seq<Json>)
    ensures RedactItems(RedactItems(items)) == RedactItems(items) && CountItems(RedactItems(items)) == 0
    ensures CountItems(items) == 0 <==> RedactItems(items) == items
  {
    if items != [] {
      RedactFacts(items[0]);
      ItemsFacts(items[1..]);
      var r := RedactItems(items);
      assert r[0] == Redact(items[0]) && r[1..] == RedactItems(items[1..]);
      assert items == [items[0]] + items[1..];
    }
  }

  lemma {:induction false} FieldsFacts(fields: seq<Field>)
    ensures RedactFields(RedactFields(fields)) == RedactFields(fields) && CountFields(RedactFields(fields)) == 0
    ensures CountFields(fields) == 0 <==> RedactFields(fields) == fields
  {
    if fields != [] {
      var f, rest := fields[0], fields[1..];
      RedactFacts(f.value);
      FieldsFacts(rest);
      FieldFacts(f);
      var r := RedactFields(fields);
      assert r[0] == RedactField(f) && r[1..] == RedactFields(rest);
      assert fields == [f] + rest;
    }
  }

  lemma {:induction false} FieldFacts(f: Field)
    requires Redact(Redact(f.value)) == Redact(f.value) && Count(Redact(f.value)) == 0
    requires Count(f.value) == 0 <==> Redact(f.value) == f.value
    ensures RedactField(RedactField(f)) == RedactField(f) && CountField(RedactField(f)) == 0
    ensures CountField(f) == 0 <==> RedactField(f) == f
  {
    RedactedIsPlain();
    if !Exposed(f) { KeptFieldStaysHidden(f); }
  }

  lemma {:induction false} RedactedIsPlain()
    ensures RedactUrlText(REDACTED) == ScrubbedUrl(REDACTED, 0)
  {
    NoSeparatorNoParam(REDACTED);
  }

  lemma {:induction false} NoSeparatorNoParam(s: string)
    requires forall c :: c in s ==> !IsSeparator(c)
    ensures RedactUrlText(s) == ScrubbedUrl(s, 0)
  {
    if s != "" {
      assert s[0] in s;
      NoSeparatorNoParam(s[1..]);
      var ts := Parse(s);
      assert ts[0] == Plain(s[0]) && ts[1..] == Parse(s[1..]);
      assert ScrubAll(ts)[1..] == ScrubAll(ts[1..]);
      assert s == [s[0]] + s[1..];
    }
  }

  /** A field left to its value's own redaction is not exposed afterwards either. */
  lemma {:induction false} KeptFieldStaysHidden(f: Field)
    requires !Exposed(f)
    ensures !Exposed(Field(f.key, Redact(f.value)))
  {
    RedactedIsPlain();
  }

  // ---------- the keys, letter by letter ----------

  /** The word stands somewhere in the text, each letter in either case. */
  ghost predicate Occurs(s: string, word: string) {
    exists i :: OccursAt(s, i, word)
  }

  ghost predicate OccursAt(s: string, i: nat, word: string) {
    i + |word| <= |s| && Spells(s[i..i + |word|], word)
  }

  ghost predicate NamesSecret(key: string) {
    || Occurs(key, "cookie") || Occurs(key, "set-cookie") || Occurs(key, "authorization") || Occurs(key, "bearer")
    || Occurs(key, "token") || Occurs(key, "session") || Occurs(key, "secret") || Occurs(key, "signed")
    || Occurs(key, "apikey") || Occurs(key, "api-key") || Occurs(key, "api_key") || Occurs(key, "password")
  }

  lemma StartsIsSpelled(s: string, word: string)
    requires forall c :: c in word ==> !('A' <= c <= 'Z')
    ensures word <= Lower(s) <==> OccursAt(s, 0, word)
  {
    if |word| <= |s| {
      LowerSpells(s[..|word|], word);
      assert Lower(s)[..|word|] == Lower(s[..|word|]);
    }
  }

  lemma {:induction false} ContainsIsOccurs(s: string, word: string)
    requires word != "" && forall c :: c in word ==> !('A' <= c <= 'Z')
    ensures Contains(Lower(s), word) <==> Occurs(s, word)
  {
    StartsIsSpelled(s, word);
    if s != "" {
      assert Lower(s)[1..] == Lower(s[1..]);
      ContainsIsOccurs(s[1..], word);
      OccursFromNext(s, word);
    }
  }

  lemma OccursFromNext(s: string, word: string)
    requires s != "" && word != ""
    ensures Occurs(s, word) <==> OccursAt(s, 0, word) || Occurs(s[1..], word)
  {
    if Occurs(s, word) && !OccursAt(s, 0, word) {
      var i: nat :| OccursAt(s, i, word);
      assert s[1..][i - 1..i - 1 + |word|] == s[i..i + |word|];
      assert OccursAt(s[1..], i - 1, word);
    }
    if Occurs(s[1..], word) {
      var i: nat :| OccursAt(s[1..], i, word);
      assert s[1..][i..i + |word|] == s[i + 1..i + 1 + |word|];
      assert OccursAt(s, i + 1, word);
    }
  }

  lemma SecretKeysAre(key: string)
    ensures IsSecretKey(key) <==> NamesSecret(key)
  {
    ContainsIsOccurs(key, "cookie");
    ContainsIsOccurs(key, "set-cookie");
    ContainsIsOccurs(key, "authorization");
    ContainsIsOccurs(key, "bearer");
    ContainsIsOccurs(key, "token");
    ContainsIsOccurs(key, "session");
    ContainsIsOccurs(key, "secret");
    ContainsIsOccurs(key, "signed");
    ContainsIsOccurs(key, "apikey");
    ContainsIsOccurs(key, "api-key");
    ContainsIsOccurs(key, "api_key");
    ContainsIsOccurs(key, "password");
  }

  // ---------- completeness and shape ----------

  /** Every string of the value shows no secret parameter, and every string under a secret key is redacted. */
  ghost predicate ShowsNoSecret(v: Json) {
    match v
    case JsonText(s) => NoSecretShown(s)
    case JsonArray(items) => forall i :: 0 <= i < |items| ==> ShowsNoSecret(items[i])
    case JsonRecord(fields) => forall i :: 0 <= i < |fields| ==> FieldHidden(fields[i])
    case _ => true
  }

  ghost predicate FieldHidden(f: Field)
    decreases f
  {
    ShowsNoSecret(f.value) && (f.value.JsonText? && NamesSecret(f.key) ==> f.value.text == "[REDACTED]")
  }

  /** A string under a secret key that is not the placeholder itself. */
  ghost predicate MustGo(f: Field) {
    f.value.JsonText? && f.value.text != "[REDACTED]" && NamesSecret(f.key)
  }

  /**
   * What redaction is: the same arrays, the same keys in the same order, a placeholder for each string under a secret
   * key, only the credentials' values replaced in every other string, and everything else unchanged.
   */
  ghost predicate IsRedaction(a: Json, b: Json) {
    match a
    case JsonText(s) => b.JsonText? && Replaced(Parse(s), Parse(b.text))
    case JsonArray(items) =>
      b.JsonArray? && |b.items| == |items| && forall i :: 0 <= i < |items| ==> IsRedaction(items[i], b.items[i])
    case JsonRecord(fields) =>
      && b.JsonRecord? && |b.fields| == |fields|
      && forall i :: 0 <= i < |fields| ==> IsFieldRedaction(fields[i], b.fields[i])
    case _ => a == b
  }

  ghost predicate IsFieldRedaction(f: Field, g: Field)
    decreases f
  {
    g.key == f.key && if MustGo(f) then g.value == JsonText("[REDACTED]") else IsRedaction(f.value, g.value)
  }

  /** One for each string under a secret key, and one for each credential in the other strings. */
  ghost function Replacements(v: Json): (n: nat) {
    match v
    case JsonText(s) => |Shown(Parse(s))|
    case JsonArray(items) => Sum(seq(|items|, i requires 0 <= i < |items| => Replacements(items[i])))
    case JsonRecord(fields) =>
      Sum(seq(|fields|, i requires 0 <= i < |fields| =>
        if MustGo(fields[i]) then 1 else Replacements(fields[i].value)))
    case _ => 0
  }

  ghost function Sum(ns: seq<nat>): (n: nat) {
    if ns == [] then 0 else ns[0] + Sum(ns[1..])
  }

  lemma ExposedIs(f: Field)
    ensures Exposed(f) <==> MustGo(f)
  {
    SecretKeysAre(f.key);
  }

  lemma {:induction false} ItemsPointwise(items: seq<Json>)
    ensures |RedactItems(items)| == |items|
    ensures forall i :: 0 <= i < |items| ==> RedactItems(items)[i] == Redact(items[i])
  {
    if items != [] { ItemsPointwise(items[1..]); }
  }

  lemma {:induction false} FieldsPointwise(fields: seq<Field>)
    ensures |RedactFields(fields)| == |fields|
    ensures forall i :: 0 <= i < |fields| ==> RedactFields(fields)[i] == RedactField(fields[i])
  {
    if fields != [] { FieldsPointwise(fields[1..]); }
  }

  /** Tokens that are the replaced ones of a text are the redacted text's. */
  lemma TextIsRedaction(s: string, t: string)
    ensures Replaced(Parse(s), Parse(t)) <==> t == RedactUrlText(s).text
  {
    RedactUrlTextFacts(s);
    if Replaced(Parse(s), Parse(t)) {
      assert Parse(t) == Parse(RedactUrlText(s).text);
      ParseRender(t);
      ParseRender(RedactUrlText(s).text);
    }
  }

  /** The redacted value is exactly the one that the definition admits. */
  lemma {:induction false} RedactIsRedaction(v: Json, w: Json)
    ensures IsRedaction(v, w) <==> w == Redact(v)
  {
    match v
    case JsonText(s) => if w.JsonText? { TextIsRedaction(s, w.text); }
    case JsonArray(items) =>
      ItemsPointwise(items);
      if w.JsonArray? && |w.items| == |items| {
        forall i | 0 <= i < |items| ensures IsRedaction(items[i], w.items[i]) <==> w.items[i] == RedactItems(items)[i] {
          RedactIsRedaction(items[i], w.items[i]);
        }
        assert IsRedaction(v, w) ==> w.items == RedactItems(items);
      }
    case JsonRecord(fields) =>
      FieldsPointwise(fields);
      if w.JsonRecord? && |w.fields| == |fields| {
        forall i | 0 <= i < |fields|
          ensures IsFieldRedaction(fields[i], w.fields[i]) <==> w.fields[i] == RedactFields(fields)[i]
        {
          ExposedIs(fields[i]);
          RedactIsRedaction(fields[i].value, w.fields[i].value);
        }
        assert IsRedaction(v, w) ==> w.fields == RedactFields(fields);
      }
    case _ =>
  }

  lemma {:induction false} CountItemsIs(items: seq<Json>, ns: seq<nat>)
    requires |ns| == |items| && forall i :: 0 <= i < |items| ==> ns[i] == Count(items[i])
    ensures CountItems(items) == Sum(ns)
  {
    if items != [] { CountItemsIs(items[1..], ns[1..]); }
  }

  lemma {:induction false} CountFieldsIs(fields: seq<Field>, ns: seq<nat>)
    requires |ns| == |fields| && forall i :: 0 <= i < |fields| ==> ns[i] == CountField(fields[i])
    ensures CountFields(fields) == Sum(ns)
  {
    if fields != [] { CountFieldsIs(fields[1..], ns[1..]); }
  }

  lemma {:induction false} CountIsReplacements(v: Json)
    ensures Count(v) == Replacements(v)
  {
    match v
    case JsonText(s) => RedactUrlTextFacts(s);
    case JsonArray(items) =>
      forall i | 0 <= i < |items| ensures Count(items[i]) == Replacements(items[i]) {
        CountIsReplacements(items[i]);
      }
      CountItemsIs(items, seq(|items|, i requires 0 <= i < |items| => Replacements(items[i])));
    case JsonRecord(fields) =>
      forall i | 0 <= i < |fields|
        ensures CountField(fields[i]) == if MustGo(fields[i]) then 1 else Replacements(fields[i].value)
      {
        ExposedIs(fields[i]);
        CountIsReplacements(fields[i].value);
      }
      CountFieldsIs(fields, seq(|fields|, i requires 0 <= i < |fields| =>
        if MustGo(fields[i]) then 1 else Replacements(fields[i].value)));
    case _ =>
  }

  lemma {:induction false} RedactedValueShowsNoSecret(v: Json)
    ensures ShowsNoSecret(Redact(v)) && IsRedaction(v, Redact(v))
  {
    RedactIsRedaction(v, Redact(v));
    match v
    case JsonText(s) => RedactedTextShowsNoSecret(s);
    case JsonArray(items) =>
      ItemsPointwise(items);
      forall i | 0 <= i < |items| ensures ShowsNoSecret(RedactItems(items)[i]) {
        RedactedValueShowsNoSecret(items[i]);
      }
    case JsonRecord(fields) =>
      FieldsPointwise(fields);
      forall i | 0 <= i < |fields| ensures FieldHidden(RedactFields(fields)[i]) {
        RedactedValueShowsNoSecret(fields[i].value);
        RedactedFieldHidden(fields[i]);
      }
    case _ =>
  }

  lemma RedactedFieldHidden(f: Field)
    requires ShowsNoSecret(Redact(f.value))
    ensures FieldHidden(RedactField(f))
  {
    ExposedIs(f);
    RedactedIsPlain();
    RedactedTextShowsNoSecret(REDACTED);
    if !Exposed(f) {
      KeptFieldStaysHidden(f);
      ExposedIs(Field(f.key, Redact(f.value)));
    }
  }
}

/** JSON documents and JSON Pointer (RFC 6901), as the schema inventory writes and readers evaluate them. */
module JsonPointer {
  import opened Text

  datatype Value =
    | Null
    | Bool(b: bool)
    | Number(text: string)
    | Str(s: string)
    | Array(items: seq<Value>)
    | Object(members: seq<Member>)

  datatype Member = Member(key: string, value: Value)

  /** `object.get(key)`. */
  function Get(members: seq<Member>, key: string): Option<Value> {
    if members == [] then None
    else if members[0].key == key then Some(members[0].value)
    else Get(members[1..], key)
  }

  predicate DistinctKeys(members: seq<Member>) {
    forall i, j | 0 <= i < j < |members| :: members[i].key != members[j].key
  }

  /** Objects hold each key once, at every depth. */
  predicate WellFormed(v: Value) {
    match v
    case Array(items) => forall i | 0 <= i < |items| :: WellFormed(items[i])
    case Object(members) => DistinctKeys(members) && forall i | 0 <= i < |members| :: WellFormed(members[i].value)
    case _ => true
  }

  lemma {:induction false} GetFinds(members: seq<Member>, k: nat)
    requires DistinctKeys(members) && k < |members|
    ensures Get(members, members[k].key) == Some(members[k].value)
  {
    if k > 0 {
      assert members[1..][k - 1] == members[k];
      GetFinds(members[1..], k - 1);
    }
  }

  lemma {:induction false} GetIsMember(members: seq<Member>, key: string) returns (k: nat)
    requires Get(members, key).Some?
    ensures k < |members| && members[k] == Member(key, Get(members, key).value)
  {
    if members[0].key == key {
      k := 0;
    } else {
      k := GetIsMember(members[1..], key);
      k := k + 1;
    }
  }

  // ----- Writing a pointer -----

  /** `str::replace` of one character. */
  function Replace(s: string, c: char, t: string): string {
    if s == "" then "" else (if s[0] == c then t else [s[0]]) + Replace(s[1..], c, t)
  }

  /** `escape_json_pointer_segment`. */
  function Escape(segment: string): string {
    Replace(Replace(segment, '~', "~0"), '/', "~1")
  }

  const DIGITS := "0123456789"

  function Decimal(n: nat): string {
    if n < 10 then [DIGITS[n]] else Decimal(n / 10) + [DIGITS[n % 10]]
  }

  /** The pointer that spells a sequence of reference tokens. */
  function Render(tokens: seq<string>): string {
    if tokens == [] then "" else "/" + Escape(tokens[0]) + Render(tokens[1..])
  }

  // ----- Reading a pointer (RFC 6901, sections 3 and 4) -----

  /** Replace every occurrence of the two-character sequence `a b`. */
  function ReplacePair(s: string, a: char, b: char, c: char): string {
    if |s| >= 2 && s[0] == a && s[1] == b then [c] + ReplacePair(s[2..], a, b, c)
    else if s == "" then ""
    else [s[0]] + ReplacePair(s[1..], a, b, c)
  }

  /** First `~1` becomes `/`, then `~0` becomes `~`. */
  function Unescape(token: string): string {
    ReplacePair(ReplacePair(token, '~', '1', '/'), '~', '0', '~')
  }

  function UnescapeAll(tokens: seq<string>): seq<string> {
    if tokens == [] then [] else [Unescape(tokens[0])] + UnescapeAll(tokens[1..])
  }

  function Parse(pointer: string): Option<seq<string>> {
    if pointer == "" then Some([])
    else if pointer[0] != '/' then None
    else Some(UnescapeAll(Split(pointer[1..], '/')))
  }

  predicate IsDigit(c: char) {
    '0' <= c <= '9'
  }

  predicate AllDigits(s: string) {
    forall i | 0 <= i < |s| :: IsDigit(s[i])
  }

  function DigitsValue(s: string): nat
    requires AllDigits(s)
  {
    if s == "" then 0 else
    assert IsDigit(s[|s| - 1]);
    DigitsValue(s[..|s| - 1]) * 10 + (s[|s| - 1] as int - '0' as int)
  }

  /** An array index token: digits without a leading zero. */
  function ArrayIndex(token: string): Option<nat> {
    if token != "" && AllDigits(token) && (token == "0" || token[0] != '0')
    then Some(DigitsValue(token))
    else None
  }

  function Child(v: Value, token: string): Option<Value> {
    match v
    case Object(members) => Get(members, token)
    case Array(items) =>
      var index := ArrayIndex(token);
      if index.Some? && index.value < |items| then Some(items[index.value]) else None
    case _ => None
  }

  function Walk(v: Value, tokens: seq<string>): Option<Value>
    decreases tokens
  {
    if tokens == [] then Some(v)
    else var child := Child(v, tokens[0]); if child.Some? then Walk(child.value, tokens[1..]) else None
  }

  /** The value a pointer designates in a document, by RFC 6901 section 4. */
  function Evaluate(document: Value, pointer: string): Option<Value> {
    var tokens := Parse(pointer);
    if tokens.Some? then Walk(document, tokens.value) else None
  }

  // ----- Reading undoes writing -----

  function EscapeChar(c: char): string {
    if c == '~' then "~0" else if c == '/' then "~1" else [c]
  }

  lemma {:induction false} EscapeByChar(s: string)
    requires s != ""
    ensures Escape(s) == EscapeChar(s[0]) + Escape(s[1..])
  {
    if s[0] == '~' {
      var rest := Replace(s[1..], '~', "~0");
      assert Replace(s, '~', "~0") == "~0" + rest;
      assert ("~0" + rest)[1..] == "0" + rest && ("0" + rest)[1..] == rest;
      assert Replace("0" + rest, '/', "~1") == "0" + Replace(rest, '/', "~1");
    } else {
      assert ([s[0]] + Replace(s[1..], '~', "~0"))[1..] == Replace(s[1..], '~', "~0");
    }
  }

  lemma {:induction false} EscapeHasNoSlash(s: string)
    ensures '/' !in Escape(s)
  {
    if s != "" {
      EscapeByChar(s);
      EscapeHasNoSlash(s[1..]);
    }
  }

  /** Halfway: after the first pass only `~` is still escaped. */
  function HalfEscape(s: string): string {
    Replace(s, '~', "~0")
  }

  lemma {:induction false} FirstPass(s: string)
    ensures ReplacePair(Escape(s), '~', '1', '/') == HalfEscape(s)
  {
    if s != "" {
      EscapeByChar(s);
      FirstPass(s[1..]);
      var rest := Escape(s[1..]);
      if s[0] == '~' {
        var e := "~0" + rest;
        assert e[0] == '~' && e[1] == '0' && e[1..] == "0" + rest && ("0" + rest)[1..] == rest;
        assert ReplacePair("0" + rest, '~', '1', '/') == "0" + ReplacePair(rest, '~', '1', '/');
      } else if s[0] == '/' {
        var e := "~1" + rest;
        assert e[0] == '~' && e[1] == '1' && e[2..] == rest;
      } else {
        assert ([s[0]] + rest)[1..] == rest;
      }
    }
  }

  lemma {:induction false} SecondPass(s: string)
    ensures ReplacePair(HalfEscape(s), '~', '0', '~') == s
  {
    if s != "" {
      SecondPass(s[1..]);
      var rest := HalfEscape(s[1..]);
      if s[0] == '~' {
        var e := "~0" + rest;
        assert e[0] == '~' && e[1] == '0' && e[2..] == rest;
      } else {
        assert ([s[0]] + rest)[1..] == rest;
      }
    }
  }

  lemma UnescapeEscape(s: string)
    ensures Unescape(Escape(s)) == s
  {
    FirstPass(s);
    SecondPass(s);
  }

  function EscapeAll(tokens: seq<string>): seq<string> {
    if tokens == [] then [] else [Escape(tokens[0])] + EscapeAll(tokens[1..])
  }

  lemma {:induction false} UnescapeEscapeAll(tokens: seq<string>)
    ensures UnescapeAll(EscapeAll(tokens)) == tokens
  {
    if tokens != [] {
      UnescapeEscape(tokens[0]);
      UnescapeEscapeAll(tokens[1..]);
      assert EscapeAll(tokens)[1..] == EscapeAll(tokens[1..]);
    }
  }

  lemma RenderRest(tokens: seq<string>)
    requires tokens != []
    ensures Render(tokens)[0] == '/' && Render(tokens)[1..] == Escape(tokens[0]) + Render(tokens[1..])
  {
    DropFirst('/', Escape(tokens[0]), Render(tokens[1..]));
  }

  lemma DropFirst(c: char, a: string, b: string)
    ensures ([c] + a + b)[0] == c && ([c] + a + b)[1..] == a + b
  {
  }

  lemma {:induction false} SplitRender(tokens: seq<string>)
    requires tokens != []
    ensures Split(Render(tokens)[1..], '/') == EscapeAll(tokens)
  {
    var first, rest := Escape(tokens[0]), tokens[1..];
    RenderRest(tokens);
    EscapeHasNoSlash(tokens[0]);
    SplitWhole(first, '/');
    if rest == [] {
      assert first + Render(rest) == first;
    } else {
      RenderRest(rest);
      SplitRender(rest);
      SplitAround(first, Render(rest), '/');
    }
  }

  lemma ParseRender(tokens: seq<string>)
    ensures Parse(Render(tokens)) == Some(tokens)
  {
    if tokens != [] {
      SplitRender(tokens);
      UnescapeEscapeAll(tokens);
    }
  }

  lemma {:induction false} RenderAppend(tokens: seq<string>, token: string)
    ensures Render(tokens + [token]) == Render(tokens) + "/" + Escape(token)
  {
    if tokens == [] {
      assert [] + [token] == [token];
      assert Render([token]) == "/" + Escape(token) + Render([]);
    } else {
      assert (tokens + [token])[1..] == tokens[1..] + [token];
      RenderAppend(tokens[1..], token);
    }
  }

  /** Distinct token sequences have distinct pointers. */
  lemma RenderInjective(a: seq<string>, b: seq<string>)
    requires Render(a) == Render(b)
    ensures a == b
  {
    ParseRender(a);
    ParseRender(b);
  }

  lemma {:induction false} DecimalDigits(n: nat)
    ensures Decimal(n) != "" && AllDigits(Decimal(n))
    ensures DigitsValue(Decimal(n)) == n
    ensures n > 0 ==> Decimal(n)[0] != '0'
  {
    if n >= 10 {
      DecimalDigits(n / 10);
      assert Decimal(n)[..|Decimal(n)| - 1] == Decimal(n / 10);
    } else {
      assert Decimal(n)[..0] == "";
    }
  }

  lemma ArrayIndexDecimal(n: nat)
    ensures ArrayIndex(Decimal(n)) == Some(n)
  {
    DecimalDigits(n);
  }

  lemma DigitSpelling(c: char)
    requires IsDigit(c)
    ensures Decimal(c as int - '0' as int) == [c]
  {
  }

  lemma DecimalAppend(front: nat, c: char)
    requires front > 0 && IsDigit(c)
    ensures Decimal(front * 10 + (c as int - '0' as int)) == Decimal(front) + [c]
  {
    DigitSpelling(c);
    var d := c as int - '0' as int;
    assert (front * 10 + d) / 10 == front && (front * 10 + d) % 10 == d;
  }

  lemma DigitsAppend(front: string, c: char)
    requires AllDigits(front) && IsDigit(c)
    ensures AllDigits(front + [c])
    ensures DigitsValue(front + [c]) == DigitsValue(front) * 10 + (c as int - '0' as int)
  {
    assert (front + [c])[..|front|] == front;
  }

  /** Only the canonical spelling denotes an index. */
  lemma {:induction false} IndexSpelling(token: string)
    requires token != "" && AllDigits(token) && (|token| > 1 ==> token[0] != '0')
    ensures token == Decimal(DigitsValue(token))
    ensures token[0] != '0' ==> DigitsValue(token) > 0
  {
    var front, last := token[..|token| - 1], token[|token| - 1];
    assert token == front + [last];
    DigitsAppend(front, last);
    if front == "" {
      DigitSpelling(last);
    } else {
      IndexSpelling(front);
      DecimalAppend(DigitsValue(front), last);
    }
  }

  /** Digits need no escaping. */
  lemma {:induction false} EscapeDigits(s: string)
    requires AllDigits(s)
    ensures Escape(s) == s
  {
    if s != "" {
      EscapeByChar(s);
      EscapeDigits(s[1..]);
    }
  }
}

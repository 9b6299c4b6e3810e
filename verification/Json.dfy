/** JSON text over UTF-16 code units: string quoting as in section 7 of RFC 8259 with lone
    surrogates escaped, joining, and why quoted strings and number tokens can be read back. */
module Json {

  type Unit = u: int | 0 <= u < 0x1_0000
  type Units = seq<Unit>

  const QUOTE: Unit := 0x22
  const BACKSLASH: Unit := 0x5C
  const COMMA: Unit := 0x2C
  const COLON: Unit := 0x3A
  const LBRACKET: Unit := 0x5B
  const RBRACKET: Unit := 0x5D
  const LBRACE: Unit := 0x7B
  const RBRACE: Unit := 0x7D
  const NULL_TEXT: Units := [0x6E, 0x75, 0x6C, 0x6C]
  const TRUE_TEXT: Units := [0x74, 0x72, 0x75, 0x65]
  const FALSE_TEXT: Units := [0x66, 0x61, 0x6C, 0x73, 0x65]

  /** The code units of a text in ASCII. */
  function Ascii(s: string): (units: Units)
    ensures |units| == |s| && forall i | 0 <= i < |s| && s[i] < 0x80 as char :: units[i] == s[i] as int
  {
    seq(|s|, i requires 0 <= i < |s| => (s[i] as int) % 0x80)
  }

  predicate High(u: Unit) { 0xD800 <= u < 0xDC00 }

  predicate Low(u: Unit) { 0xDC00 <= u < 0xE000 }

  function HexUnit(d: int): Unit
    requires 0 <= d < 16
  {
    if d < 10 then 0x30 + d else 0x61 + d - 10
  }

  /** One code unit that is not part of a surrogate pair. */
  function Escape(u: Unit): Units {
    if u == 0x08 then [BACKSLASH, 0x62]
    else if u == 0x09 then [BACKSLASH, 0x74]
    else if u == 0x0A then [BACKSLASH, 0x6E]
    else if u == 0x0C then [BACKSLASH, 0x66]
    else if u == 0x0D then [BACKSLASH, 0x72]
    else if u == QUOTE || u == BACKSLASH then [BACKSLASH, u]
    else if u < 0x20 || High(u) || Low(u) then
      [BACKSLASH, 0x75, HexUnit(u / 0x1000), HexUnit(u / 0x100 % 0x10), HexUnit(u / 0x10 % 0x10), HexUnit(u % 0x10)]
    else [u]
  }

  predicate PairAt(s: Units) { |s| >= 2 && High(s[0]) && Low(s[1]) }

  function Body(s: Units): Units {
    if s == [] then []
    else if PairAt(s) then [s[0], s[1]] + Body(s[2..])
    else Escape(s[0]) + Body(s[1..])
  }

  function Quote(s: Units): Units { [QUOTE] + Body(s) + [QUOTE] }

  // ---- Quoted strings can be read back ----

  function HexValue(u: Unit): int { if u < 0x3A then u - 0x30 else u - 0x61 + 10 }

  /** The code unit that an escape at the head of `s` stands for, and the escape's length. */
  function ReadUnit(s: Units): (int, nat)
    requires s != []
  {
    if s[0] != BACKSLASH || |s| < 2 then (s[0], 1)
    else if s[1] == 0x62 then (0x08, 2)
    else if s[1] == 0x74 then (0x09, 2)
    else if s[1] == 0x6E then (0x0A, 2)
    else if s[1] == 0x66 then (0x0C, 2)
    else if s[1] == 0x72 then (0x0D, 2)
    else if s[1] == 0x75 && |s| >= 6 then
      (0x1000 * HexValue(s[2]) + 0x100 * HexValue(s[3]) + 0x10 * HexValue(s[4]) + HexValue(s[5]), 6)
    else (s[1], 2)
  }

  lemma FourDigits(u: Unit)
    ensures u == 0x1000 * (u / 0x1000) + 0x100 * (u / 0x100 % 0x10) + 0x10 * (u / 0x10 % 0x10) + u % 0x10
  {
    assert u / 0x100 == 0x10 * (u / 0x1000) + u / 0x100 % 0x10;
    assert u / 0x10 == 0x10 * (u / 0x100) + u / 0x10 % 0x10;
  }

  lemma ReadEscape(u: Unit, rest: Units)
    ensures Escape(u) + rest != [] && ReadUnit(Escape(u) + rest) == (u, |Escape(u)|)
  {
    var s := Escape(u) + rest;
    assert forall i | 0 <= i < |Escape(u)| :: s[i] == Escape(u)[i];
    if |Escape(u)| == 6 { FourDigits(u); }
  }

  lemma EscapeUnique(u: Unit, v: Unit, a: Units, b: Units)
    requires Escape(u) + a == Escape(v) + b
    ensures u == v && a == b
  {
    ReadEscape(u, a);
    ReadEscape(v, b);
    assert a == (Escape(u) + a)[|Escape(u)|..] && b == (Escape(v) + b)[|Escape(v)|..];
  }

  /** What a body, up to its closing quote, starts with. */
  lemma BodyStart(s: Units, x: Units)
    ensures Body(s) + [QUOTE] + x != []
    ensures (Body(s) + [QUOTE] + x)[0] == QUOTE <==> s == []
    ensures High((Body(s) + [QUOTE] + x)[0]) <==> PairAt(s)
  {
  }

  lemma BodyPair(s: Units, x: Units)
    requires PairAt(s)
    ensures Body(s) + [QUOTE] + x == s[..2] + (Body(s[2..]) + [QUOTE] + x)
  {
  }

  lemma BodyUnit(s: Units, x: Units)
    requires s != [] && !PairAt(s)
    ensures Body(s) + [QUOTE] + x == Escape(s[0]) + (Body(s[1..]) + [QUOTE] + x)
  {
  }

  lemma SameHead(a: Units, b: Units, x: Units, y: Units)
    requires |a| == |b| && a + x == b + y
    ensures a == b && x == y
  {
    assert a == (a + x)[..|a|] && b == (b + y)[..|b|];
    assert x == (a + x)[|a|..] && y == (b + y)[|b|..];
  }

  /** The closing quote is where it seems to be. */
  lemma {:induction false} BodyUnique(s: Units, t: Units, x: Units, y: Units)
    requires Body(s) + [QUOTE] + x == Body(t) + [QUOTE] + y
    ensures s == t && x == y
    decreases |s|
  {
    BodyStart(s, x);
    BodyStart(t, y);
    if s == [] {
      assert Body(s) + [QUOTE] + x == [QUOTE] + x && Body(t) + [QUOTE] + y == [QUOTE] + y;
      SameHead([QUOTE], [QUOTE], x, y);
    } else if PairAt(s) {
      BodyPair(s, x);
      BodyPair(t, y);
      hide Body;
      SameHead(s[..2], t[..2], Body(s[2..]) + [QUOTE] + x, Body(t[2..]) + [QUOTE] + y);
      BodyUnique(s[2..], t[2..], x, y);
      assert s == s[..2] + s[2..] && t == t[..2] + t[2..];
    } else {
      BodyUnit(s, x);
      BodyUnit(t, y);
      hide Body;
      EscapeUnique(s[0], t[0], Body(s[1..]) + [QUOTE] + x, Body(t[1..]) + [QUOTE] + y);
      BodyUnique(s[1..], t[1..], x, y);
      assert s == [s[0]] + s[1..] && t == [t[0]] + t[1..];
    }
  }

  lemma QuoteUnique(s: Units, t: Units, x: Units, y: Units)
    requires Quote(s) + x == Quote(t) + y
    ensures s == t && x == y
  {
    var whole := Quote(s) + x;
    assert whole[1..] == Body(s) + [QUOTE] + x == Body(t) + [QUOTE] + y;
    BodyUnique(s, t, x, y);
  }

  // ---- Number tokens can be read back ----

  predicate NumberUnit(u: Unit) { 0x30 <= u <= 0x39 || u == 0x2D || u == 0x2B || u == 0x2E || u == 0x65 }

  /** The characters `Number.prototype.toString` uses for a finite number. */
  predicate NumberText(s: Units) {
    && s != [] && (0x30 <= s[0] <= 0x39 || s[0] == 0x2D)
    && forall i | 0 <= i < |s| :: NumberUnit(s[i])
  }

  /** What may follow a value: nothing, or a delimiter. */
  predicate Delimited(x: Units) { x == [] || x[0] == COMMA || x[0] == RBRACKET || x[0] == RBRACE }

  /** A number token ends where its characters end. */
  lemma NumberEnd(s: Units, t: Units, x: Units, y: Units)
    requires NumberText(t) && Delimited(x) && s + x == t + y
    ensures |t| <= |s|
  {
    assert x != [] ==> (s + x)[|s|] == x[0];
    assert forall i | 0 <= i < |t| :: (t + y)[i] == t[i];
  }

  lemma NumberUnique(s: Units, t: Units, x: Units, y: Units)
    requires NumberText(s) && NumberText(t) && Delimited(x) && Delimited(y)
    requires s + x == t + y
    ensures s == t && x == y
  {
    NumberEnd(s, t, x, y);
    NumberEnd(t, s, y, x);
    SameHead(s, t, x, y);
  }

  // ---- Joining ----

  function Join(parts: seq<Units>): Units {
    if parts == [] then []
    else if |parts| == 1 then parts[0]
    else parts[0] + [COMMA] + Join(parts[1..])
  }

  /** A joined list, the bracket that closes it, and what comes after. */
  ghost function Closed(parts: seq<Units>, close: Unit, x: Units): Units { Join(parts) + [close] + x }

  /** What follows the first part of a joined list that is closed by `close`. */
  ghost function AfterFirst(parts: seq<Units>, close: Unit, x: Units): Units
    requires parts != []
  {
    if |parts| == 1 then [close] + x else [COMMA] + Closed(parts[1..], close, x)
  }

  lemma JoinFirst(parts: seq<Units>, close: Unit, x: Units)
    requires parts != []
    ensures Closed(parts, close, x) == parts[0] + AfterFirst(parts, close, x)
  {
  }

  lemma AfterFirstDelimited(parts: seq<Units>, close: Unit, x: Units)
    requires parts != [] && (close == RBRACE || close == RBRACKET)
    ensures Delimited(AfterFirst(parts, close, x))
  {
  }

  /** After the first part, either both lists close or both go on. */
  lemma AfterFirstUnique(p: seq<Units>, q: seq<Units>, close: Unit, x: Units, y: Units)
    requires p != [] && q != [] && close != COMMA
    requires AfterFirst(p, close, x) == AfterFirst(q, close, y)
    ensures |p| == 1 <==> |q| == 1
    ensures Closed(p[1..], close, x) == Closed(q[1..], close, y)
  {
    var a, b := AfterFirst(p, close, x), AfterFirst(q, close, y);
    assert a[0] == (if |p| == 1 then close else COMMA) && b[0] == (if |q| == 1 then close else COMMA);
    if |p| == 1 {
      assert Closed(p[1..], close, x) == a && Closed(q[1..], close, y) == b;
    } else {
      assert a[1..] == Closed(p[1..], close, x) && b[1..] == Closed(q[1..], close, y);
    }
  }

  /** A list that starts with its closing bracket is empty. */
  lemma NothingLeft(p: seq<Units>, q: seq<Units>, close: Unit, x: Units, y: Units)
    requires p == [] || q == []
    requires Closed(p, close, x) == Closed(q, close, y)
    requires p != [] ==> Closed(p, close, x)[0] != close
    requires q != [] ==> Closed(q, close, y)[0] != close
    ensures p == [] && q == [] && x == y
  {
    assert p == [] ==> Closed(p, close, x) == [close] + x;
    assert q == [] ==> Closed(q, close, y) == [close] + y;
    SameHead([close], [close], x, y);
  }
}

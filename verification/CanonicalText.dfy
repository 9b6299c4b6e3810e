/** The printed text itself: what the canonical printer writes for every kind of value, and the
    whole text that a session mandate is signed as (`services/agent/src/mandate.ts:53-68`). */
module CanonicalText {
  import opened Common
  import opened Json
  import opened CanonicalJson
  import opened Mandate

  // ---- Strings ----

  lemma HexDigitText(d: nat)
    requires d < 16
    ensures HexUnit(d) == Ascii("0123456789abcdef")[d]
  {
  }

  /** How a code unit that is not part of a surrogate pair is written between quotes: seven have
      short escapes, other control characters and lone surrogates are four lower-case
      hexadecimal digits, and all others stand for themselves. */
  lemma ShortEscapes()
    ensures Escape(8) == Ascii("\\b") && Escape(9) == Ascii("\\t") && Escape(10) == Ascii("\\n")
    ensures Escape(12) == Ascii("\\f") && Escape(13) == Ascii("\\r")
    ensures Escape(34) == Ascii("\\\"") && Escape(92) == Ascii("\\\\")
  {
  }

  lemma LongEscapes(u: Unit)
    requires (u < 32 && u !in {8, 9, 10, 12, 13}) || 0xD800 <= u <= 0xDFFF
    ensures var hex := Ascii("0123456789abcdef");
            Escape(u) == [92, 117] + [hex[u / 4096], hex[u / 256 % 16], hex[u / 16 % 16], hex[u % 16]]
  {
    HexDigitText(u / 4096);
    HexDigitText(u / 256 % 16);
    HexDigitText(u / 16 % 16);
    HexDigitText(u % 16);
    hide Ascii;
  }

  lemma NoEscape(u: Unit)
    requires 32 <= u && u != 34 && u != 92 && !(0xD800 <= u <= 0xDFFF)
    ensures Escape(u) == [u]
  {
  }

  /** A string is written unit by unit, a surrogate pair as it is. */
  lemma QuoteText(s: Units)
    ensures Quote(s) == [34] + Body(s) + [34]
    ensures s == [] ==> Body(s) == []
  {
    hide Escape, PairAt;
  }

  lemma BodyText(s: Units)
    requires s != []
    ensures if |s| >= 2 && 0xD800 <= s[0] <= 0xDBFF && 0xDC00 <= s[1] <= 0xDFFF then Body(s) == s[..2] + Body(s[2..])
            else Body(s) == Escape(s[0]) + Body(s[1..])
  {
    hide Escape;
    assert PairAt(s) ==> s[..2] == [s[0], s[1]];
  }

  predicate Letters(s: string) { forall i | 0 <= i < |s| :: 'A' <= s[i] <= 'z' && s[i] != '\\' }

  lemma {:induction false} PlainBody(s: Units)
    requires forall i | 0 <= i < |s| :: 32 <= s[i] < 128 && s[i] != '\"' as int && s[i] != '\\' as int
    ensures Body(s) == s
  {
    if s != [] { PlainBody(s[1..]); }
  }

  lemma QuoteLetters(s: string)
    requires Letters(s)
    ensures Quote(Ascii(s)) == Ascii("\"" + s + "\"")
  {
    PlainBody(Ascii(s));
    hide Body;
    assert Quote(Ascii(s)) == Ascii("\"") + Ascii(s) + Ascii("\"");
  }

  // ---- Lists ----

  /** Parts are joined with single commas. */
  lemma {:induction false} JoinText(a: seq<Units>, b: seq<Units>)
    requires a != [] && b != []
    ensures Join(a + b) == Join(a) + Ascii(",") + Join(b)
  {
    assert (a + b)[1..] == a[1..] + b;
    if |a| > 1 { JoinText(a[1..], b); }
  }

  lemma JoinSmall(x: Units)
    ensures Join([]) == [] && Join([x]) == x
  {
  }

  /** One entry of an object. */
  function Part(key: Units, value: Units): Units { Quote(key) + Ascii(":") + value }

  lemma AtomText(v: Value)
    ensures v == Bool(true) ==> Canonical(v) == Ascii("true")
    ensures v == Bool(false) ==> Canonical(v) == Ascii("false")
    ensures v.Null? || v.Undefined? || v.NonFinite? ==> Canonical(v) == Ascii("null")
    ensures v.Number? ==> Canonical(v) == v.text
    ensures v.Str? ==> Canonical(v) == Quote(v.s)
  {
  }

  /** An array prints its items in their order. */
  lemma ArrayText(items: seq<Value>)
    ensures Canonical(Arr(items)) == Ascii("[") + Join(seq(|items|, i requires 0 <= i < |items| => Canonical(items[i])))
                                     + Ascii("]")
  {
    assert ItemTexts(Arr(items)) == seq(|items|, i requires 0 <= i < |items| => Canonical(items[i]));
  }

  ghost predicate KeysInOrder(s: seq<Field>) {
    forall i, j | 0 <= i < j < |s| :: InKeyOrder(s[i].key, s[j].key)
  }

  lemma OrderIsAscending(s: seq<Field>)
    requires KeysInOrder(s)
    ensures Ascending(s)
  {
    hide InKeyOrder;
    forall i, j | 0 <= i < j < |s| ensures Before(s[i].key, s[j].key) { BeforeMeans(s[i].key, s[j].key); }
  }

  /** Only one list of given entries stands in order. */
  lemma SortedUnique(s: seq<Field>, t: seq<Field>)
    requires Ascending(s) && Ascending(t) && forall e :: e in s <==> e in t
    ensures s == t
  {
    SameKeys(s, t);
    forall i | 0 <= i < |s|
      ensures s[i] == t[i]
    {
      assert s[i] in s;
      var j :| 0 <= j < |t| && t[j] == s[i];
      BeforeStrict(t[i].key, t[i].key);
    }
  }

  lemma FieldTextsAre(fields: seq<Field>, entries: seq<Field>)
    requires Entries(fields) == entries
    ensures FieldTexts(Obj(fields)) == seq(|entries|, i requires 0 <= i < |entries| =>
                                             Part(entries[i].key, Canonical(entries[i].value)))
  {
    hide Entries, Quote;
    assert Ascii(":") == [COLON];
  }

  /** An object prints its defined entries in the order of their keys, however it was built. */
  lemma ObjectText(fields: seq<Field>, entries: seq<Field>)
    requires DistinctKeys(fields) && KeysInOrder(entries)
    requires forall e :: e in entries <==> e in fields && e.value != Undefined
    ensures Canonical(Obj(fields))
            == Ascii("{") + Join(seq(|entries|, i requires 0 <= i < |entries| =>
                                       Part(entries[i].key, Canonical(entries[i].value)))) + Ascii("}")
  {
    EntriesAscending(fields);
    EntriesMembers(fields);
    OrderIsAscending(entries);
    SortedUnique(Entries(fields), entries);
    FieldTextsAre(fields, entries);
    hide Entries, Ascending, KeysInOrder, FieldTexts, Part;
  }

  /** Two defined fields, inserted in either order, print with the smaller key first. */
  lemma TwoFieldsText(p: Units, v: Value, q: Units, w: Value)
    requires InKeyOrder(p, q) && v != Undefined && w != Undefined
    ensures var text := Ascii("{") + Quote(p) + Ascii(":") + Canonical(v) + Ascii(",")
                        + Quote(q) + Ascii(":") + Canonical(w) + Ascii("}");
            && Canonical(Obj([Field(p, v), Field(q, w)])) == text
            && Canonical(Obj([Field(q, w), Field(p, v)])) == text
  {
    var a, b := Field(p, v), Field(q, w);
    BeforeMeans(p, q);
    BeforeStrict(p, p);
    hide InKeyOrder, Canonical, Quote;
    ObjectText([a, b], [a, b]);
    ObjectText([b, a], [a, b]);
    var x, y := Part(p, Canonical(v)), Part(q, Canonical(w));
    assert seq(2, i requires 0 <= i < 2 => Part([a, b][i].key, Canonical([a, b][i].value))) == [x] + [y];
    JoinText([x], [y]);
  }

  lemma FirstDiffers(a: string, b: string, k: nat)
    requires k < |a| && k < |b| && a[..k] == b[..k] && a[k] < b[k]
    requires forall i | 0 <= i <= k :: a[i] < 128 as char && b[i] < 128 as char
    ensures InKeyOrder(Ascii(a), Ascii(b))
  {
    var p, q := Ascii(a), Ascii(b);
    forall i | 0 <= i < k
      ensures p[i] == q[i]
    {
      assert a[i] == a[..k][i] && b[i] == b[..k][i];
    }
    assert p[..k] == q[..k] && p[k] < q[k];
  }

  lemma AsciiAppend(a: string, b: string)
    ensures Ascii(a + b) == Ascii(a) + Ascii(b)
  {
  }

  lemma SmallText()
    ensures Ascii("{") + Ascii("\"a\"") + Ascii(":") + Ascii("1") + Ascii(",") + Ascii("\"b\"") + Ascii(":")
            + Ascii("2") + Ascii("}") == Ascii("{\"a\":1,\"b\":2}")
  {
    AsciiAppend("{", "\"a\"");
    AsciiAppend("{\"a\"", ":");
    AsciiAppend("{\"a\":", "1");
    AsciiAppend("{\"a\":1", ",");
    AsciiAppend("{\"a\":1,", "\"b\"");
    AsciiAppend("{\"a\":1,\"b\"", ":");
    AsciiAppend("{\"a\":1,\"b\":", "2");
    AsciiAppend("{\"a\":1,\"b\":2", "}");
    hide Ascii;
  }

  lemma QuotedLetter(s: string, t: string)
    requires Letters(s) && t == "\"" + s + "\""
    ensures Quote(Ascii(s)) == Ascii(t)
  {
    QuoteLetters(s);
  }

  lemma SmallObject()
    ensures Canonical(Obj([Field(Ascii("b"), Number(Ascii("2"))), Field(Ascii("a"), Number(Ascii("1")))]))
            == Ascii("{\"a\":1,\"b\":2}")
  {
    hide Quote, Canonical, InKeyOrder, Ascii;
    FirstDiffers("a", "b", 0);
    QuotedLetter("a", "\"a\"");
    QuotedLetter("b", "\"b\"");
    AtomText(Number(Ascii("1")));
    AtomText(Number(Ascii("2")));
    SmallText();
    TwoFieldsText(Ascii("a"), Number(Ascii("1")), Ascii("b"), Number(Ascii("2")));
  }

  // ---- The signed text of a mandate ----

  /** How a number is written. */
  function Shown(n: Numeric): Units { if n.Finite? then n.text else Ascii("null") }

  function Member(name: string, value: Units): Units { Ascii("\"" + name + "\":") + value }

  function BeforeCategory(p: Payload): seq<Units> {
    [Member("appraisalPriceStroops", Quote(p.appraisalPriceStroops)),
     Member("basePriceUsdc", Shown(p.basePriceUsdc))]
  }

  function AfterCategory(p: Payload): seq<Units> {
    [Member("commitDeadline", Shown(p.commitDeadline)),
     Member("contractId", Quote(p.contractId)),
     Member("expiresAt", Shown(p.expiresAt)),
     Member("issuedAt", Shown(p.issuedAt)),
     Member("itemRef", Quote(p.itemRef)),
     Member("maxAppraisalSpendStroops", Quote(p.maxAppraisalSpendStroops)),
     Member("maxBidStroops", Quote(p.maxBidStroops)),
     Member("maxEscrowStroops", Quote(p.maxEscrowStroops)),
     Member("principal", Quote(p.principal)),
     Member("roundId", Quote(p.roundId)),
     Member("sessionKey", Quote(p.sessionKey)),
     Member("version", Shown(p.version))]
  }

  /** The entries of the signed text, as they stand in it. */
  function SignedMembers(p: Payload): seq<Units> {
    BeforeCategory(p)
    + (if p.category.Some? then [Member("category", Quote(p.category.value))] else [])
    + AfterCategory(p)
  }

  /** The names in order, and where each of the printer's keys stands among them. */
  const NAMES: seq<string> := [
    "appraisalPriceStroops", "basePriceUsdc", "category", "commitDeadline", "contractId", "expiresAt", "issuedAt",
    "itemRef", "maxAppraisalSpendStroops", "maxBidStroops", "maxEscrowStroops", "principal", "roundId", "sessionKey",
    "version"]

  const PLACE: seq<nat> := [14, 11, 13, 4, 12, 7, 1, 2, 9, 10, 8, 0, 3, 6, 5]
  const ORDER: seq<nat> := [11, 6, 7, 12, 3, 14, 13, 5, 10, 8, 9, 1, 4, 2, 0]

  lemma NamesFirst(i: nat)
    requires 0 <= i < 5
    ensures InKeyOrder(Ascii(NAMES[i]), Ascii(NAMES[i + 1]))
  {
    hide InKeyOrder, Ascii;
    match i
    case 0 => FirstDiffers("appraisalPriceStroops", "basePriceUsdc", 0);
    case 1 => FirstDiffers("basePriceUsdc", "category", 0);
    case 2 => FirstDiffers("category", "commitDeadline", 1);
    case 3 => FirstDiffers("commitDeadline", "contractId", 2);
    case 4 => FirstDiffers("contractId", "expiresAt", 0);
  }

  lemma NamesMiddle(i: nat)
    requires 5 <= i < 10
    ensures InKeyOrder(Ascii(NAMES[i]), Ascii(NAMES[i + 1]))
  {
    hide InKeyOrder, Ascii;
    match i
    case 5 => FirstDiffers("expiresAt", "issuedAt", 0);
    case 6 => FirstDiffers("issuedAt", "itemRef", 1);
    case 7 => FirstDiffers("itemRef", "maxAppraisalSpendStroops", 0);
    case 8 => FirstDiffers("maxAppraisalSpendStroops", "maxBidStroops", 3);
    case 9 => FirstDiffers("maxBidStroops", "maxEscrowStroops", 3);
  }

  lemma NamesLast(i: nat)
    requires 10 <= i < 14
    ensures InKeyOrder(Ascii(NAMES[i]), Ascii(NAMES[i + 1]))
  {
    hide InKeyOrder, Ascii;
    match i
    case 10 => FirstDiffers("maxEscrowStroops", "principal", 0);
    case 11 => FirstDiffers("principal", "roundId", 0);
    case 12 => FirstDiffers("roundId", "sessionKey", 0);
    case 13 => FirstDiffers("sessionKey", "version", 0);
  }

  lemma NamesNext(i: nat)
    requires i < 14
    ensures InKeyOrder(Ascii(NAMES[i]), Ascii(NAMES[i + 1]))
  {
    hide InKeyOrder, Ascii;
    if i < 5 {
      NamesFirst(i);
    } else if i < 10 {
      NamesMiddle(i);
    } else {
      NamesLast(i);
    }
  }

  lemma {:induction false} NamesBefore(i: nat, j: nat)
    requires i < j < 15
    ensures Before(Ascii(NAMES[i]), Ascii(NAMES[j]))
    decreases j
  {
    hide Before, InKeyOrder, Ascii;
    NamesNext(j - 1);
    BeforeMeans(Ascii(NAMES[j - 1]), Ascii(NAMES[j]));
    if i < j - 1 {
      NamesBefore(i, j - 1);
      BeforeTransitive(Ascii(NAMES[i]), Ascii(NAMES[j - 1]), Ascii(NAMES[j]));
    }
  }

  /** The fields of a mandate in the order of their names. */
  function InOrder(p: Payload): seq<Field> {
    seq(15, i requires 0 <= i < 15 => Field(Ascii(NAMES[i]), Values(p)[ORDER[i]]))
  }

  lemma Places()
    ensures |PLACE| == |ORDER| == |KEYS| == |NAMES| == 15
    ensures forall i | 0 <= i < 15 :: PLACE[i] < 15 && ORDER[PLACE[i]] == i && KEYS[i] == Ascii(NAMES[PLACE[i]])
    ensures forall i | 0 <= i < 15 :: ORDER[i] < 15 && PLACE[ORDER[i]] == i
  {
  }

  lemma SameFields(p: Payload)
    ensures forall e :: e in InOrder(p) <==> e in Fields(p)
  {
    Places();
    hide Values, KEYS, NAMES, PLACE, ORDER;
    forall i | 0 <= i < 15
      ensures Fields(p)[i] in InOrder(p) && InOrder(p)[i] in Fields(p)
    {
      assert Fields(p)[i] == InOrder(p)[PLACE[i]];
      assert InOrder(p)[i] == Fields(p)[ORDER[i]];
    }
  }

  lemma {:induction false} DefinedAppend(a: seq<Field>, b: seq<Field>)
    ensures Defined(a + b) == Defined(a) + Defined(b)
  {
    if a == [] {
      assert a + b == b;
    } else {
      assert (a + b)[1..] == a[1..] + b;
      DefinedAppend(a[1..], b);
    }
  }

  lemma {:induction false} DefinedOrdered(s: seq<Field>)
    requires Ascending(s)
    ensures Ascending(Defined(s))
  {
    if s != [] {
      DefinedOrdered(s[1..]);
      DefinedMembers(s[1..]);
      hide Before;
      assert forall e | e in Defined(s[1..]) :: Before(s[0].key, e.key);
    }
  }

  lemma {:induction false} AllDefined(s: seq<Field>)
    requires forall i | 0 <= i < |s| :: s[i].value != Undefined
    ensures Defined(s) == s
  {
    if s != [] { AllDefined(s[1..]); }
  }

  lemma CategoryOpen(p: Payload)
    ensures |InOrder(p)| == 15 && (InOrder(p)[2].value == Undefined <==> p.category.None?)
    ensures forall i | 0 <= i < 15 && i != 2 :: InOrder(p)[i].value != Undefined
  {
    hide Ascii, NumberValue, KEYS, NAMES;
    NumbersDefined();
  }

  lemma NumbersDefined()
    ensures forall n :: NumberValue(n) != Undefined
  {
  }

  /** The defined fields of a mandate in order: all, but the category only if it is given. */
  lemma SignedFields(p: Payload)
    ensures var f := InOrder(p);
            Defined(f) == f[..2] + (if p.category.Some? then [f[2]] else []) + f[3..]
  {
    var f := InOrder(p);
    CategoryOpen(p);
    hide InOrder;
    assert f == f[..2] + ([f[2]] + f[3..]);
    DefinedAppend(f[..2], [f[2]] + f[3..]);
    DefinedAppend([f[2]], f[3..]);
    assert [f[2]][1..] == [];
    assert Defined([f[2]]) == if p.category.Some? then [f[2]] else [];
    AllDefined(f[..2]);
    AllDefined(f[3..]);
  }

  lemma SignedEntries(p: Payload)
    requires WellWritten(p)
    ensures Entries(Fields(p)) == Defined(InOrder(p))
  {
    PayloadWellFormed(p);
    hide Values, WellFormed, NAMES, KEYS, ORDER;
    SameFields(p);
    EntriesAscending(Fields(p));
    EntriesMembers(Fields(p));
    NamesAscend(p);
    DefinedOrdered(InOrder(p));
    DefinedMembers(InOrder(p));
    hide Entries, Defined, Fields, InOrder, InKeyOrder;
    SortedUnique(Entries(Fields(p)), Defined(InOrder(p)));
  }

  lemma NamesAscend(p: Payload)
    ensures Ascending(InOrder(p))
  {
    hide Before, Ascii, Values;
    forall i, j | 0 <= i < j < 15
      ensures Before(InOrder(p)[i].key, InOrder(p)[j].key)
    {
      NamesBefore(i, j);
    }
  }

  function EntryPart(e: Field): Units { Part(e.key, Canonical(e.value)) }

  lemma MemberText(name: string, e: Field, value: Units)
    requires Letters(name) && e.key == Ascii(name) && Canonical(e.value) == value
    ensures EntryPart(e) == Member(name, value)
  {
    QuoteLetters(name);
    AsciiAppend("\"" + name + "\"", ":");
    assert "\"" + name + "\":" == "\"" + name + "\"" + ":";
    hide Quote, Ascii, Canonical;
  }

  lemma ShownText(n: Numeric)
    ensures Canonical(NumberValue(n)) == Shown(n)
  {
    AtomText(NumberValue(n));
  }

  /** The fields of a mandate by name, in the order of the names. */
  function ByName(p: Payload): seq<Field> {
    [
      Field(Ascii("appraisalPriceStroops"), Str(p.appraisalPriceStroops)),
      Field(Ascii("basePriceUsdc"), NumberValue(p.basePriceUsdc)),
      Field(Ascii("category"), if p.category.Some? then Str(p.category.value) else Undefined),
      Field(Ascii("commitDeadline"), NumberValue(p.commitDeadline)),
      Field(Ascii("contractId"), Str(p.contractId)),
      Field(Ascii("expiresAt"), NumberValue(p.expiresAt)),
      Field(Ascii("issuedAt"), NumberValue(p.issuedAt)),
      Field(Ascii("itemRef"), Str(p.itemRef)),
      Field(Ascii("maxAppraisalSpendStroops"), Str(p.maxAppraisalSpendStroops)),
      Field(Ascii("maxBidStroops"), Str(p.maxBidStroops)),
      Field(Ascii("maxEscrowStroops"), Str(p.maxEscrowStroops)),
      Field(Ascii("principal"), Str(p.principal)),
      Field(Ascii("roundId"), Str(p.roundId)),
      Field(Ascii("sessionKey"), Str(p.sessionKey)),
      Field(Ascii("version"), NumberValue(p.version))
    ]
  }

  lemma InOrderByName(p: Payload)
    ensures InOrder(p) == ByName(p)
  {
    hide Ascii, NumberValue;
  }

  lemma PlainFront()
    ensures Letters("appraisalPriceStroops") && Letters("basePriceUsdc")
    ensures Letters("category")
  {
  }

  lemma PlainMiddle()
    ensures Letters("commitDeadline") && Letters("contractId")
    ensures Letters("expiresAt") && Letters("issuedAt")
  {
  }

  lemma PlainMaxima()
    ensures Letters("itemRef") && Letters("maxAppraisalSpendStroops")
    ensures Letters("maxBidStroops") && Letters("maxEscrowStroops")
  {
  }

  lemma PlainLast()
    ensures Letters("principal") && Letters("roundId")
    ensures Letters("sessionKey") && Letters("version")
  {
  }

  lemma TextMember(name: string, text: Units)
    requires Letters(name)
    ensures EntryPart(Field(Ascii(name), Str(text))) == Member(name, Quote(text))
  {
    AtomText(Str(text));
    MemberText(name, Field(Ascii(name), Str(text)), Quote(text));
  }

  lemma NumberMember(name: string, n: Numeric)
    requires Letters(name)
    ensures EntryPart(Field(Ascii(name), NumberValue(n))) == Member(name, Shown(n))
  {
    ShownText(n);
    MemberText(name, Field(Ascii(name), NumberValue(n)), Shown(n));
  }

  lemma FrontParts(p: Payload)
    ensures && EntryPart(ByName(p)[0]) == BeforeCategory(p)[0]
            && EntryPart(ByName(p)[1]) == BeforeCategory(p)[1]
  {
    PlainFront();
    hide Letters, Ascii, Member, EntryPart, Quote, Shown, NumberValue;
    TextMember("appraisalPriceStroops", p.appraisalPriceStroops);
    NumberMember("basePriceUsdc", p.basePriceUsdc);
  }

  lemma CategoryPart(p: Payload)
    requires p.category.Some?
    ensures EntryPart(ByName(p)[2]) == Member("category", Quote(p.category.value))
  {
    hide Ascii, Member, EntryPart, Quote;
    TextMember("category", p.category.value);
  }

  lemma MiddleParts(p: Payload)
    ensures && EntryPart(ByName(p)[3]) == AfterCategory(p)[0]
            && EntryPart(ByName(p)[4]) == AfterCategory(p)[1]
            && EntryPart(ByName(p)[5]) == AfterCategory(p)[2]
            && EntryPart(ByName(p)[6]) == AfterCategory(p)[3]
  {
    PlainMiddle();
    hide Letters, Ascii, Member, EntryPart, Quote, Shown, NumberValue;
    NumberMember("commitDeadline", p.commitDeadline);
    TextMember("contractId", p.contractId);
    NumberMember("expiresAt", p.expiresAt);
    NumberMember("issuedAt", p.issuedAt);
  }

  lemma MaximaParts(p: Payload)
    ensures && EntryPart(ByName(p)[7]) == AfterCategory(p)[4]
            && EntryPart(ByName(p)[8]) == AfterCategory(p)[5]
            && EntryPart(ByName(p)[9]) == AfterCategory(p)[6]
            && EntryPart(ByName(p)[10]) == AfterCategory(p)[7]
  {
    PlainMaxima();
    hide Letters, Ascii, Member, EntryPart, Quote, Shown, NumberValue;
    TextMember("itemRef", p.itemRef);
    TextMember("maxAppraisalSpendStroops", p.maxAppraisalSpendStroops);
    TextMember("maxBidStroops", p.maxBidStroops);
    TextMember("maxEscrowStroops", p.maxEscrowStroops);
  }

  lemma LastParts(p: Payload)
    ensures && EntryPart(ByName(p)[11]) == AfterCategory(p)[8]
            && EntryPart(ByName(p)[12]) == AfterCategory(p)[9]
            && EntryPart(ByName(p)[13]) == AfterCategory(p)[10]
            && EntryPart(ByName(p)[14]) == AfterCategory(p)[11]
  {
    PlainLast();
    hide Letters, Ascii, Member, EntryPart, Quote, Shown, NumberValue;
    TextMember("principal", p.principal);
    TextMember("roundId", p.roundId);
    TextMember("sessionKey", p.sessionKey);
    NumberMember("version", p.version);
  }

  lemma Assembled(f: seq<Field>, before: seq<Units>, middle: Option<Units>, after: seq<Units>, entries: seq<Field>)
    requires |f| == 15 && |before| == 2 && |after| == 12
    requires forall i | 0 <= i < 2 :: EntryPart(f[i]) == before[i]
    requires middle.Some? ==> EntryPart(f[2]) == middle.value
    requires forall i | 0 <= i < 12 :: EntryPart(f[3..][i]) == after[i]
    requires entries == f[..2] + (if middle.Some? then [f[2]] else []) + f[3..]
    ensures seq(|entries|, i requires 0 <= i < |entries| => Part(entries[i].key, Canonical(entries[i].value)))
            == before + (if middle.Some? then [middle.value] else []) + after
  {
    hide Part, Canonical;
    var parts := seq(|entries|, i requires 0 <= i < |entries| => Part(entries[i].key, Canonical(entries[i].value)));
    assert forall i | 0 <= i < |parts| :: parts[i] == EntryPart(entries[i]);
    hide EntryPart;
    var skip := if middle.Some? then 3 else 2;
    assert |parts| == skip + 12;
    assert forall i | 0 <= i < 12 :: entries[skip + i] == f[3..][i];
  }

  lemma PartsAfter(p: Payload)
    ensures |ByName(p)| == 15 && forall i | 0 <= i < 12 :: EntryPart(ByName(p)[3..][i]) == AfterCategory(p)[i]
  {
    MiddleParts(p);
    MaximaParts(p);
    LastParts(p);
    hide EntryPart, Ascii, Quote, NumberValue, Member, Shown;
    var f, after := ByName(p), AfterCategory(p);
    forall i | 0 <= i < 12
      ensures EntryPart(f[3..][i]) == after[i]
    {
      Twelve(f, after, i);
    }
  }

  lemma Twelve(f: seq<Field>, after: seq<Units>, i: nat)
    requires |f| == 15 && |after| == 12 && i < 12
    requires && EntryPart(f[3]) == after[0] && EntryPart(f[4]) == after[1] && EntryPart(f[5]) == after[2]
             && EntryPart(f[6]) == after[3] && EntryPart(f[7]) == after[4] && EntryPart(f[8]) == after[5]
             && EntryPart(f[9]) == after[6] && EntryPart(f[10]) == after[7] && EntryPart(f[11]) == after[8]
             && EntryPart(f[12]) == after[9] && EntryPart(f[13]) == after[10] && EntryPart(f[14]) == after[11]
    ensures EntryPart(f[3..][i]) == after[i]
  {
    hide EntryPart;
    assert f[3..][i] == f[i + 3];
  }

  lemma AllParts(p: Payload, entries: seq<Field>)
    requires var f := ByName(p);
             entries == f[..2] + (if p.category.Some? then [f[2]] else []) + f[3..]
    ensures seq(|entries|, i requires 0 <= i < |entries| => Part(entries[i].key, Canonical(entries[i].value)))
            == SignedMembers(p)
  {
    FrontParts(p);
    PartsAfter(p);
    if p.category.Some? { CategoryPart(p); }
    assert |BeforeCategory(p)| == 2 && |AfterCategory(p)| == 12;
    hide ByName, BeforeCategory, AfterCategory, EntryPart, Member, Part, Canonical, Quote, Ascii;
    Assembled(ByName(p), BeforeCategory(p),
              if p.category.Some? then Some(Member("category", Quote(p.category.value))) else None,
              AfterCategory(p), entries);
  }

  /** The whole text that a mandate is signed as: its fields by name, in the order of the names,
      the category only if it is given. */
  lemma SignedText(p: Payload)
    requires WellWritten(p)
    ensures Canonical(Obj(Fields(p))) == Ascii("{") + Join(SignedMembers(p)) + Ascii("}")
  {
    SignedEntries(p);
    SignedFields(p);
    InOrderByName(p);
    hide Entries, Defined, InOrder, ByName, Fields, SignedMembers, Join;
    FieldTextsAre(Fields(p), Entries(Fields(p)));
    AllParts(p, Entries(Fields(p)));
    hide FieldTexts, Part;
    assert Ascii("{") == [LBRACE] && Ascii("}") == [RBRACE];
  }
}

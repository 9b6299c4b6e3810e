/** The canonical JSON printer behind mandate signatures and appraisal hashes
    (`services/agent/src/mandate.ts:53-68`, `services/appraisal-api/src/appraisal.ts:65-79`):
    two values print alike exactly when they are equivalent. */
module CanonicalJson {
  import opened Json

  /** A JavaScript value as far as the printer looks: a finite number is the text that
      `Number.prototype.toString` gives it, an object its entries in insertion order. */
  datatype Value =
    | Undefined
    | Null
    | Bool(b: bool)
    | NonFinite(which: NotANumber)
    | Number(text: Units)
    | Str(s: Units)
    | Arr(items: seq<Value>)
    | Obj(fields: seq<Field>)

  datatype NotANumber = NaN | PlusInfinity | MinusInfinity

  datatype Field = Field(key: Units, value: Value)

  ghost predicate DistinctKeys(fields: seq<Field>) {
    forall i, j | 0 <= i < j < |fields| :: fields[i].key != fields[j].key
  }

  ghost predicate WellFormed(v: Value) {
    match v
    case Number(text) => NumberText(text)
    case Arr(items) => forall i | 0 <= i < |items| :: WellFormed(items[i])
    case Obj(fields) => DistinctKeys(fields) && forall i | 0 <= i < |fields| :: WellFormed(fields[i].value)
    case _ => true
  }

  // ---- The printer ----

  /** JavaScript's `<` on strings: by code units. */
  predicate Before(a: Units, b: Units) {
    b != [] && (a == [] || a[0] < b[0] || (a[0] == b[0] && Before(a[1..], b[1..])))
  }

  function Defined(fields: seq<Field>): seq<Field> {
    if fields == [] then []
    else (if fields[0].value != Undefined then [fields[0]] else []) + Defined(fields[1..])
  }

  function Insert(e: Field, s: seq<Field>): seq<Field> {
    if s == [] || !Before(s[0].key, e.key) then [e] + s else [s[0]] + Insert(e, s[1..])
  }

  function Sorted(s: seq<Field>): seq<Field> { if s == [] then [] else Insert(s[0], Sorted(s[1..])) }

  /** The entries an object prints: the defined ones, by key. */
  function Entries(fields: seq<Field>): seq<Field> { Sorted(Defined(fields)) }

  lemma {:induction false} DefinedMembers(fields: seq<Field>)
    ensures forall e :: e in Defined(fields) <==> e in fields && e.value != Undefined
  {
    if fields != [] { DefinedMembers(fields[1..]); }
  }

  lemma {:induction false} InsertMembers(e: Field, s: seq<Field>)
    ensures forall x :: x in Insert(e, s) <==> x == e || x in s
  {
    if s != [] { InsertMembers(e, s[1..]); }
  }

  lemma {:induction false} SortedMembers(s: seq<Field>)
    ensures forall x :: x in Sorted(s) <==> x in s
  {
    if s != [] {
      SortedMembers(s[1..]);
      InsertMembers(s[0], Sorted(s[1..]));
    }
  }

  /** Sorting loses and invents nothing. */
  lemma EntriesMembers(fields: seq<Field>)
    ensures forall e :: e in Entries(fields) <==> e in fields && e.value != Undefined
    ensures Keys(Entries(fields)) == Keys(Defined(fields))
  {
    DefinedMembers(fields);
    SortedMembers(Defined(fields));
  }

  ghost function Keys(s: seq<Field>): set<Units> { set e | e in s :: e.key }

  function ItemTexts(v: Value): seq<Units>
    requires v.Arr?
    decreases v, 0
  {
    seq(|v.items|, i requires 0 <= i < |v.items| => Canonical(v.items[i]))
  }

  function FieldTexts(v: Value): seq<Units>
    requires v.Obj?
    decreases v, 0
  {
    var entries := Entries(v.fields);
    seq(|entries|, i requires 0 <= i < |entries| =>
      EntriesMembers(v.fields);
      assert entries[i] in v.fields;
      Quote(entries[i].key) + [COLON] + Canonical(entries[i].value))
  }

  function Canonical(v: Value): Units
    decreases v, 1
  {
    match v
    case Arr(_) => [LBRACKET] + Join(ItemTexts(v)) + [RBRACKET]
    case Obj(_) => [LBRACE] + Join(FieldTexts(v)) + [RBRACE]
    case Bool(b) => if b then TRUE_TEXT else FALSE_TEXT
    case Number(text) => text
    case Str(s) => Quote(s)
    case _ => NULL_TEXT
  }

  // ---- When two values mean the same ----

  predicate Nullish(v: Value) { v.Undefined? || v.Null? || v.NonFinite? }

  /** Equal up to the order of keys and to undefined fields - and up to the difference between
      `null`, a non-finite number and, outside a field, `undefined`. */
  ghost predicate Equivalent(v: Value, w: Value) {
    match (v, w)
    case (Bool(a), Bool(b)) => a == b
    case (Number(a), Number(b)) => a == b
    case (Str(a), Str(b)) => a == b
    case (Arr(a), Arr(b)) => |a| == |b| && forall i | 0 <= i < |a| :: Equivalent(a[i], b[i])
    case (Obj(f), Obj(g)) =>
      && Keys(Defined(f)) == Keys(Defined(g))
      && forall i, j | 0 <= i < |f| && 0 <= j < |g| && f[i].key == g[j].key
                       && f[i].value != Undefined && g[j].value != Undefined ::
           Equivalent(f[i].value, g[j].value)
    case _ => Nullish(v) && Nullish(w)
  }

  // ---- Sorting ----

  ghost predicate Ascending(s: seq<Field>) {
    forall i, j | 0 <= i < j < |s| :: Before(s[i].key, s[j].key)
  }

  lemma {:induction false} BeforeTransitive(a: Units, b: Units, c: Units)
    requires Before(a, b) && Before(b, c)
    ensures Before(a, c)
    decreases |a|
  {
    if a != [] && a[0] == b[0] && b[0] == c[0] { BeforeTransitive(a[1..], b[1..], c[1..]); }
  }

  lemma {:induction false} BeforeTotal(a: Units, b: Units)
    ensures a == b || Before(a, b) || Before(b, a)
    decreases |a|
  {
    if a != [] && b != [] && a[0] == b[0] {
      BeforeTotal(a[1..], b[1..]);
      assert a == [a[0]] + a[1..] && b == [b[0]] + b[1..];
    }
  }

  lemma {:induction false} BeforeStrict(a: Units, b: Units)
    ensures !(Before(a, b) && Before(b, a))
    decreases |a|
  {
    if a != [] && b != [] { BeforeStrict(a[1..], b[1..]); }
  }

  lemma {:induction false} InsertAscending(e: Field, s: seq<Field>)
    requires Ascending(s) && forall x | x in s :: x.key != e.key
    ensures Ascending(Insert(e, s))
  {
    if s != [] {
      BeforeTotal(s[0].key, e.key);
      if Before(s[0].key, e.key) {
        InsertAscending(e, s[1..]);
        InsertMembers(e, s[1..]);
        assert forall x | x in s[1..] :: Before(s[0].key, x.key);
      } else {
        forall i | 0 < i < |s|
          ensures Before(e.key, s[i].key)
        {
          BeforeTransitive(e.key, s[0].key, s[i].key);
        }
      }
    }
  }

  lemma {:induction false} SortedAscending(s: seq<Field>)
    requires DistinctKeys(s)
    ensures Ascending(Sorted(s))
  {
    if s != [] {
      SortedAscending(s[1..]);
      SortedMembers(s[1..]);
      InsertAscending(s[0], Sorted(s[1..]));
    }
  }

  lemma {:induction false} DefinedDistinct(fields: seq<Field>)
    requires DistinctKeys(fields)
    ensures DistinctKeys(Defined(fields))
  {
    if fields != [] {
      DefinedDistinct(fields[1..]);
      DefinedMembers(fields[1..]);
    }
  }

  /** The order of keys: `a` is a proper beginning of `b`, or has the smaller code unit at the
      first place where they differ. */
  ghost predicate InKeyOrder(a: Units, b: Units) {
    (|a| < |b| && b[..|a|] == a) || exists i :: 0 <= i < |a| && i < |b| && a[..i] == b[..i] && a[i] < b[i]
  }

  lemma {:induction false} BeforeMeans(a: Units, b: Units)
    ensures Before(a, b) <==> InKeyOrder(a, b)
    decreases |a|
  {
    if a != [] && b != [] {
      if a[0] == b[0] {
        BeforeMeans(a[1..], b[1..]);
        OrderBehind(a, b);
      } else {
        assert a[..0] == b[..0];
        assert forall i | 0 < i < |a| && i < |b| :: a[..i][0] == a[0] && b[..i][0] == b[0];
        assert |a| < |b| ==> b[..|a|][0] == b[0];
      }
    }
  }

  /** An equal first unit does not matter. */
  lemma OrderBehind(a: Units, b: Units)
    requires a != [] && b != [] && a[0] == b[0]
    ensures InKeyOrder(a, b) <==> InKeyOrder(a[1..], b[1..])
  {
    var p, q := a[1..], b[1..];
    assert a == [a[0]] + p && b == [b[0]] + q;
    if |a| < |b| {
      assert b[..|a|] == [b[0]] + q[..|p|];
      assert b[..|a|] == a <==> q[..|p|] == p by {
        if b[..|a|] == a { assert q[..|p|] == b[..|a|][1..]; }
      }
    }
    forall i | 0 <= i < |p| && i < |q|
      ensures a[..i + 1] == b[..i + 1] <==> p[..i] == q[..i]
    {
      assert a[..i + 1] == [a[0]] + p[..i] && b[..i + 1] == [b[0]] + q[..i];
      if a[..i + 1] == b[..i + 1] { assert p[..i] == a[..i + 1][1..] && q[..i] == b[..i + 1][1..]; }
    }
    if InKeyOrder(p, q) && !(|p| < |q| && q[..|p|] == p) {
      var i :| 0 <= i < |p| && i < |q| && p[..i] == q[..i] && p[i] < q[i];
      assert a[..i + 1] == b[..i + 1] && a[i + 1] < b[i + 1];
    }
    if InKeyOrder(a, b) && !(|a| < |b| && b[..|a|] == a) {
      var i :| 0 <= i < |a| && i < |b| && a[..i] == b[..i] && a[i] < b[i];
      assert p[..i - 1] == q[..i - 1] && p[i - 1] < q[i - 1];
    }
  }

  /** The printed entries stand in increasing order of their keys. */
  lemma EntriesAscending(fields: seq<Field>)
    requires DistinctKeys(fields)
    ensures Ascending(Entries(fields))
    ensures forall i, j | 0 <= i < j < |Entries(fields)| :: InKeyOrder(Entries(fields)[i].key, Entries(fields)[j].key)
  {
    DefinedDistinct(fields);
    SortedAscending(Defined(fields));
    hide Entries, Before;
    forall i, j | 0 <= i < j < |Entries(fields)|
      ensures InKeyOrder(Entries(fields)[i].key, Entries(fields)[j].key)
    {
      BeforeMeans(Entries(fields)[i].key, Entries(fields)[j].key);
    }
  }

  lemma KeysSplit(s: seq<Field>)
    requires s != [] && Ascending(s)
    ensures Keys(s) == {s[0].key} + Keys(s[1..]) && s[0].key !in Keys(s[1..])
    ensures forall k | k in Keys(s[1..]) :: Before(s[0].key, k)
  {
    assert s == [s[0]] + s[1..];
    BeforeStrict(s[0].key, s[0].key);
  }

  /** Two ascending lists over the same keys have the same keys at the same places. */
  lemma {:induction false} SameKeys(s: seq<Field>, t: seq<Field>)
    requires Ascending(s) && Ascending(t) && Keys(s) == Keys(t)
    ensures |s| == |t| && forall i | 0 <= i < |s| :: s[i].key == t[i].key
    decreases |s|
  {
    if s == [] || t == [] {
      assert s != [] ==> s[0].key in Keys(s);
      assert t != [] ==> t[0].key in Keys(t);
    } else {
      KeysSplit(s);
      KeysSplit(t);
      BeforeStrict(s[0].key, t[0].key);
      hide Keys;
      assert s[0].key == t[0].key;
      SameKeys(s[1..], t[1..]);
      assert forall i | 1 <= i < |s| :: s[i] == s[1..][i - 1];
      assert forall i | 1 <= i < |t| :: t[i] == t[1..][i - 1];
    }
  }

  // ---- Equivalent values print alike ----

  /** The printed entries of two objects, place by place. */
  ghost predicate SameEntries(f: seq<Field>, g: seq<Field>) {
    && |Entries(f)| == |Entries(g)|
    && forall i | 0 <= i < |Entries(f)| ::
         Entries(f)[i].key == Entries(g)[i].key && Equivalent(Entries(f)[i].value, Entries(g)[i].value)
  }

  lemma EntriesOfEquivalent(f: seq<Field>, g: seq<Field>)
    requires WellFormed(Obj(f)) && WellFormed(Obj(g)) && Equivalent(Obj(f), Obj(g))
    ensures SameEntries(f, g)
  {
    EntriesAscending(f);
    EntriesAscending(g);
    EntriesMembers(f);
    EntriesMembers(g);
    var s, t := Entries(f), Entries(g);
    hide Entries, Defined, Keys;
    SameKeys(s, t);
    forall k | 0 <= k < |s|
      ensures Equivalent(s[k].value, t[k].value)
    {
      assert s[k] in s && t[k] in t;
      var i :| 0 <= i < |f| && f[i] == s[k];
      var j :| 0 <= j < |g| && g[j] == t[k];
    }
  }

  lemma ValuesWellFormed(f: seq<Field>)
    requires WellFormed(Obj(f))
    ensures forall i | 0 <= i < |Entries(f)| :: Entries(f)[i] in f && WellFormed(Entries(f)[i].value)
  {
    EntriesMembers(f);
    hide Entries;
    forall i | 0 <= i < |Entries(f)|
      ensures Entries(f)[i] in f && WellFormed(Entries(f)[i].value)
    {
      assert Entries(f)[i] in Entries(f);
    }
  }

  lemma {:induction false} EquivalentPrintsAlike(v: Value, w: Value)
    requires WellFormed(v) && WellFormed(w) && Equivalent(v, w)
    ensures Canonical(v) == Canonical(w)
    decreases v
  {
    if v.Arr? {
      forall i | 0 <= i < |v.items|
        ensures ItemTexts(v)[i] == ItemTexts(w)[i]
      {
        EquivalentPrintsAlike(v.items[i], w.items[i]);
      }
      assert ItemTexts(v) == ItemTexts(w);
    } else if v.Obj? {
      EntriesOfEquivalent(v.fields, w.fields);
      ValuesWellFormed(v.fields);
      ValuesWellFormed(w.fields);
      var s, t := Entries(v.fields), Entries(w.fields);
      hide Equivalent, WellFormed, Entries;
      forall i | 0 <= i < |s|
        ensures FieldTexts(v)[i] == FieldTexts(w)[i]
      {
        EquivalentPrintsAlike(s[i].value, t[i].value);
      }
      assert FieldTexts(v) == FieldTexts(w);
    }
  }

  // ---- A printed value can be read back ----

  /** What a value is, told from its first code unit. */
  datatype Kind = IsNull | IsBool | IsNumber | IsString | IsArray | IsObject | IsNothing

  function KindAt(u: Unit): Kind {
    if u == NULL_TEXT[0] then IsNull
    else if u == TRUE_TEXT[0] || u == FALSE_TEXT[0] then IsBool
    else if 0x30 <= u <= 0x39 || u == 0x2D then IsNumber
    else if u == QUOTE then IsString
    else if u == LBRACKET then IsArray
    else if u == LBRACE then IsObject
    else IsNothing
  }

  function KindOf(v: Value): Kind {
    match v
    case Bool(_) => IsBool
    case Number(_) => IsNumber
    case Str(_) => IsString
    case Arr(_) => IsArray
    case Obj(_) => IsObject
    case _ => IsNull
  }

  lemma FirstUnit(v: Value, x: Units)
    requires WellFormed(v)
    ensures Canonical(v) + x != [] && KindAt((Canonical(v) + x)[0]) == KindOf(v)
  {
  }

  lemma AtomReadBack(v: Value, w: Value, x: Units, y: Units)
    requires WellFormed(v) && WellFormed(w) && Delimited(x) && Delimited(y)
    requires KindOf(v) == KindOf(w) && !v.Arr? && !v.Obj?
    requires Canonical(v) + x == Canonical(w) + y
    ensures Equivalent(v, w) && x == y
  {
    if v.Str? {
      QuoteUnique(v.s, w.s, x, y);
    } else if v.Number? {
      NumberUnique(v.text, w.text, x, y);
    } else {
      assert (Canonical(v) + x)[0] == Canonical(v)[0] && (Canonical(w) + y)[0] == Canonical(w)[0];
      SameHead(Canonical(v), Canonical(w), x, y);
    }
  }

  /** The printed items from position `k` on, up to the bracket that closes them. */
  lemma {:induction false} ItemsReadBack(v: Value, w: Value, k: nat, x: Units, y: Units)
    requires v.Arr? && w.Arr? && WellFormed(v) && WellFormed(w)
    requires k <= |v.items| && k <= |w.items|
    requires Closed(ItemTexts(v)[k..], RBRACKET, x) == Closed(ItemTexts(w)[k..], RBRACKET, y)
    ensures |v.items| == |w.items| && x == y
    ensures forall i | k <= i < |v.items| :: Equivalent(v.items[i], w.items[i])
    decreases v, 0, |v.items| - k
  {
    var p, q := ItemTexts(v)[k..], ItemTexts(w)[k..];
    if p != [] { JoinFirst(p, RBRACKET, x); FirstUnit(v.items[k], AfterFirst(p, RBRACKET, x)); }
    if q != [] { JoinFirst(q, RBRACKET, y); FirstUnit(w.items[k], AfterFirst(q, RBRACKET, y)); }
    hide Canonical, Equivalent, Closed, AfterFirst;
    if p != [] && q != [] {
      AfterFirstDelimited(p, RBRACKET, x);
      AfterFirstDelimited(q, RBRACKET, y);
      ReadBack(v.items[k], w.items[k], AfterFirst(p, RBRACKET, x), AfterFirst(q, RBRACKET, y));
      AfterFirstUnique(p, q, RBRACKET, x, y);
      assert p[1..] == ItemTexts(v)[k + 1..] && q[1..] == ItemTexts(w)[k + 1..];
      ItemsReadBack(v, w, k + 1, x, y);
    } else {
      NothingLeft(p, q, RBRACKET, x, y);
    }
  }

  /** One printed entry: the key, a colon, the value. */
  function EntryText(e: Field): Units { Quote(e.key) + [COLON] + Canonical(e.value) }

  lemma EntryStart(a: Field, x: Units)
    ensures EntryText(a) + x != [] && (EntryText(a) + x)[0] == QUOTE
  {
  }

  lemma EntrySplit(a: Field, x: Units)
    ensures EntryText(a) + x == Quote(a.key) + ([COLON] + (Canonical(a.value) + x))
  {
    hide Quote, Canonical;
  }

  lemma EntryReadBack(a: Field, b: Field, x: Units, y: Units)
    requires EntryText(a) + x == EntryText(b) + y
    ensures a.key == b.key && Canonical(a.value) + x == Canonical(b.value) + y
  {
    EntrySplit(a, x);
    EntrySplit(b, y);
    hide Quote, Canonical, EntryText;
    var s, t := Canonical(a.value) + x, Canonical(b.value) + y;
    QuoteUnique(a.key, b.key, [COLON] + s, [COLON] + t);
    SameHead([COLON], [COLON], s, t);
  }

  lemma FieldParts(v: Value, k: nat)
    requires v.Obj? && WellFormed(v) && k <= |Entries(v.fields)|
    ensures |FieldTexts(v)| == |Entries(v.fields)|
    ensures k < |FieldTexts(v)| ==>
              && FieldTexts(v)[k] == EntryText(Entries(v.fields)[k])
              && FieldTexts(v)[k..][1..] == FieldTexts(v)[k + 1..]
              && Entries(v.fields)[k] in v.fields && WellFormed(Entries(v.fields)[k].value)
  {
    ValuesWellFormed(v.fields);
  }

  lemma {:induction false} FieldsReadBack(v: Value, w: Value, k: nat, x: Units, y: Units)
    requires v.Obj? && w.Obj? && WellFormed(v) && WellFormed(w)
    requires k <= |Entries(v.fields)| && k <= |Entries(w.fields)|
    requires |FieldTexts(v)| == |Entries(v.fields)| && |FieldTexts(w)| == |Entries(w.fields)|
    requires Closed(FieldTexts(v)[k..], RBRACE, x) == Closed(FieldTexts(w)[k..], RBRACE, y)
    ensures |Entries(v.fields)| == |Entries(w.fields)| && x == y
    ensures forall i | k <= i < |Entries(v.fields)| ::
              && Entries(v.fields)[i].key == Entries(w.fields)[i].key
              && Equivalent(Entries(v.fields)[i].value, Entries(w.fields)[i].value)
    decreases v, 0, |Entries(v.fields)| - k
  {
    hide Canonical, Equivalent, WellFormed, Entries, Closed, AfterFirst, EntryText, FieldTexts;
    var s, t := Entries(v.fields), Entries(w.fields);
    var p, q := FieldTexts(v)[k..], FieldTexts(w)[k..];
    FieldParts(v, k);
    FieldParts(w, k);
    if p != [] { JoinFirst(p, RBRACE, x); EntryStart(s[k], AfterFirst(p, RBRACE, x)); }
    if q != [] { JoinFirst(q, RBRACE, y); EntryStart(t[k], AfterFirst(q, RBRACE, y)); }
    if p != [] && q != [] {
      AfterFirstDelimited(p, RBRACE, x);
      AfterFirstDelimited(q, RBRACE, y);
      EntryReadBack(s[k], t[k], AfterFirst(p, RBRACE, x), AfterFirst(q, RBRACE, y));
      ReadBack(s[k].value, t[k].value, AfterFirst(p, RBRACE, x), AfterFirst(q, RBRACE, y));
      AfterFirstUnique(p, q, RBRACE, x, y);
      FieldsReadBack(v, w, k + 1, x, y);
    } else {
      NothingLeft(p, q, RBRACE, x, y);
    }
  }

  lemma KeysOfEntries(f: seq<Field>, g: seq<Field>)
    requires SameEntries(f, g)
    ensures Keys(Defined(f)) == Keys(Defined(g))
  {
    var s, t := Entries(f), Entries(g);
    EntriesMembers(f);
    EntriesMembers(g);
    hide Entries, Defined, Equivalent;
    assert forall i | 0 <= i < |s| :: s[i] in s && t[i] in t;
    assert Keys(s) == Keys(t);
  }

  lemma ValueOfKey(f: seq<Field>, g: seq<Field>, x: Field, y: Field)
    requires Ascending(Entries(f)) && SameEntries(f, g)
    requires x in Entries(f) && y in Entries(g) && x.key == y.key
    ensures Equivalent(x.value, y.value)
  {
    hide Entries, Equivalent;
    var s, t := Entries(f), Entries(g);
    var a :| 0 <= a < |s| && s[a] == x;
    var b :| 0 <= b < |t| && t[b] == y;
    BeforeStrict(x.key, x.key);
    assert s[a].key == s[b].key;
  }

  lemma EntriesGiveEquivalent(f: seq<Field>, g: seq<Field>)
    requires WellFormed(Obj(f)) && WellFormed(Obj(g)) && SameEntries(f, g)
    ensures Equivalent(Obj(f), Obj(g))
  {
    EntriesAscending(f);
    EntriesMembers(f);
    EntriesMembers(g);
    KeysOfEntries(f, g);
    hide SameEntries, WellFormed, Ascending, Keys, Entries, Defined;
    forall i, j | 0 <= i < |f| && 0 <= j < |g| && f[i].key == g[j].key
                  && f[i].value != Undefined && g[j].value != Undefined
      ensures Equivalent(f[i].value, g[j].value)
    {
      ValueOfKey(f, g, f[i], g[j]);
    }
  }

  /** Behind the opening bracket. */
  lemma Opened(p: seq<Units>, q: seq<Units>, start: Unit, close: Unit, x: Units, y: Units)
    requires [start] + Join(p) + [close] + x == [start] + Join(q) + [close] + y
    ensures Closed(p[0..], close, x) == Closed(q[0..], close, y)
  {
    assert p[0..] == p && q[0..] == q;
    hide Join;
    assert [start] + Join(p) + [close] + x == [start] + (Join(p) + [close] + x);
    assert [start] + Join(q) + [close] + y == [start] + (Join(q) + [close] + y);
    SameHead([start], [start], Join(p) + [close] + x, Join(q) + [close] + y);
  }

  lemma {:induction false} ObjReadBack(v: Value, w: Value, x: Units, y: Units)
    requires v.Obj? && w.Obj? && WellFormed(v) && WellFormed(w)
    requires Canonical(v) + x == Canonical(w) + y
    ensures Equivalent(v, w) && x == y
    decreases v, 0, |Entries(v.fields)| + 1
  {
    Opened(FieldTexts(v), FieldTexts(w), LBRACE, RBRACE, x, y);
    hide Canonical, FieldTexts, Join, WellFormed, Entries, Equivalent;
    FieldsReadBack(v, w, 0, x, y);
    EntriesGiveEquivalent(v.fields, w.fields);
  }

  lemma {:induction false} ArrReadBack(v: Value, w: Value, x: Units, y: Units)
    requires v.Arr? && w.Arr? && WellFormed(v) && WellFormed(w)
    requires Canonical(v) + x == Canonical(w) + y
    ensures Equivalent(v, w) && x == y
    decreases v, 0, |v.items| + 1
  {
    Opened(ItemTexts(v), ItemTexts(w), LBRACKET, RBRACKET, x, y);
    hide Canonical, ItemTexts, Join, WellFormed;
    ItemsReadBack(v, w, 0, x, y);
  }

  /** Unique readability: at the head of any text, followed by nothing or by a delimiter, at
      most one value can stand. */
  lemma {:induction false} ReadBack(v: Value, w: Value, x: Units, y: Units)
    requires WellFormed(v) && WellFormed(w) && Delimited(x) && Delimited(y)
    requires Canonical(v) + x == Canonical(w) + y
    ensures Equivalent(v, w) && x == y
    decreases v, 1
  {
    FirstUnit(v, x);
    FirstUnit(w, y);
    hide Canonical, WellFormed, Delimited, Equivalent;
    if v.Arr? {
      ArrReadBack(v, w, x, y);
    } else if v.Obj? {
      ObjReadBack(v, w, x, y);
    } else {
      AtomReadBack(v, w, x, y);
    }
  }

  /** Two values print alike exactly when they are equivalent; so the order of keys and
      undefined fields never matter, and nothing else is lost but which kind of nothing an
      item, or the whole value, was. */
  lemma CanonicalIffEquivalent(v: Value, w: Value)
    requires WellFormed(v) && WellFormed(w)
    ensures Canonical(v) == Canonical(w) <==> Equivalent(v, w)
  {
    hide Canonical, Equivalent, WellFormed;
    if Canonical(v) == Canonical(w) {
      ReadBack(v, w, [], []);
    } else if Equivalent(v, w) {
      EquivalentPrintsAlike(v, w);
    }
  }

  // ---- Plain values ----

  /** Equal up to the order of keys and undefined fields, and nothing else. */
  ghost predicate Same(v: Value, w: Value) {
    match (v, w)
    case (Arr(a), Arr(b)) => |a| == |b| && forall i | 0 <= i < |a| :: Same(a[i], b[i])
    case (Obj(f), Obj(g)) =>
      && Keys(Defined(f)) == Keys(Defined(g))
      && forall i, j | 0 <= i < |f| && 0 <= j < |g| && f[i].key == g[j].key
                       && f[i].value != Undefined && g[j].value != Undefined ::
           Same(f[i].value, g[j].value)
    case _ => v == w
  }

  /** No non-finite number anywhere, and `undefined` only as the value of a field. */
  ghost predicate Plain(v: Value) {
    match v
    case Undefined => false
    case NonFinite(_) => false
    case Arr(items) => forall i | 0 <= i < |items| :: Plain(items[i])
    case Obj(fields) => forall i | 0 <= i < |fields| :: fields[i].value == Undefined || Plain(fields[i].value)
    case _ => true
  }

  lemma {:induction false} PlainSame(v: Value, w: Value)
    requires Plain(v) && Plain(w)
    ensures Equivalent(v, w) <==> Same(v, w)
    decreases v
  {
    if v.Arr? && w.Arr? {
      forall i | 0 <= i < |v.items| && i < |w.items|
        ensures Equivalent(v.items[i], w.items[i]) <==> Same(v.items[i], w.items[i])
      {
        PlainSame(v.items[i], w.items[i]);
      }
    } else if v.Obj? && w.Obj? {
      var f, g := v.fields, w.fields;
      forall i, j | 0 <= i < |f| && 0 <= j < |g| && f[i].value != Undefined && g[j].value != Undefined
        ensures Equivalent(f[i].value, g[j].value) <==> Same(f[i].value, g[j].value)
      {
        PlainSame(f[i].value, g[j].value);
      }
    }
  }

  /** On plain values - every JSON document is one - the printer is injective up to the order
      of keys and undefined fields. */
  lemma CanonicalIsInjective(v: Value, w: Value)
    requires WellFormed(v) && WellFormed(w) && Plain(v) && Plain(w)
    ensures Canonical(v) == Canonical(w) <==> Same(v, w)
  {
    CanonicalIffEquivalent(v, w);
    PlainSame(v, w);
  }

  /** Not on others: these print alike and are different. */
  lemma NothingsCollide()
    ensures Canonical(Arr([Undefined])) == Canonical(Arr([Null])) && !Same(Arr([Undefined]), Arr([Null]))
    ensures Canonical(NonFinite(NaN)) == Canonical(Null) && !Same(NonFinite(NaN), Null)
    ensures Canonical(NonFinite(NaN)) == Canonical(NonFinite(PlusInfinity))
  {
    var v, w := Arr([Undefined]), Arr([Null]);
    assert ItemTexts(v) == [NULL_TEXT] && ItemTexts(w) == [NULL_TEXT];
    assert !Same(v.items[0], w.items[0]);
  }
}

/** What a principal's signature over a session mandate binds
    (`services/agent/src/mandate.ts:24-68`): every field, including whether a category is
    given at all. */
module Mandate {
  import opened Common
  import opened Json
  import opened CanonicalJson

  /** A JavaScript number: finite ones are the texts that `Number.prototype.toString` gives. */
  datatype Numeric = Finite(text: Units) | Odd(which: NotANumber)

  datatype Payload = Payload(
    version: Numeric, principal: Units, sessionKey: Units, contractId: Units, roundId: Units, itemRef: Units,
    basePriceUsdc: Numeric, category: Option<Units>, maxBidStroops: Units, maxEscrowStroops: Units,
    maxAppraisalSpendStroops: Units, appraisalPriceStroops: Units, commitDeadline: Numeric, issuedAt: Numeric,
    expiresAt: Numeric)

  const KEYS: seq<Units> := [
    Ascii("version"), Ascii("principal"), Ascii("sessionKey"), Ascii("contractId"), Ascii("roundId"), Ascii("itemRef"),
    Ascii("basePriceUsdc"), Ascii("category"), Ascii("maxBidStroops"), Ascii("maxEscrowStroops"),
    Ascii("maxAppraisalSpendStroops"), Ascii("appraisalPriceStroops"), Ascii("commitDeadline"), Ascii("issuedAt"),
    Ascii("expiresAt")]

  function NumberValue(n: Numeric): Value { if n.Finite? then Number(n.text) else NonFinite(n.which) }

  function Values(p: Payload): (r: seq<Value>)
    ensures |r| == 15
  {
    [NumberValue(p.version), Str(p.principal), Str(p.sessionKey), Str(p.contractId), Str(p.roundId), Str(p.itemRef),
     NumberValue(p.basePriceUsdc), if p.category.Some? then Str(p.category.value) else Undefined, Str(p.maxBidStroops),
     Str(p.maxEscrowStroops), Str(p.maxAppraisalSpendStroops), Str(p.appraisalPriceStroops),
     NumberValue(p.commitDeadline), NumberValue(p.issuedAt), NumberValue(p.expiresAt)]
  }

  function Fields(p: Payload): seq<Field> {
    seq(15, i requires 0 <= i < 15 => Field(KEYS[i], Values(p)[i]))
  }

  /** Finite numbers are written the way JavaScript writes them. */
  predicate Written(n: Numeric) { n.Finite? ==> NumberText(n.text) }

  predicate WellWritten(p: Payload) {
    && Written(p.version) && Written(p.basePriceUsdc) && Written(p.commitDeadline)
    && Written(p.issuedAt) && Written(p.expiresAt)
  }

  /** What the text keeps of a number: every finite one, but not which of the others it was. */
  predicate SameNumber(m: Numeric, n: Numeric) { m == n || (m.Odd? && n.Odd?) }

  /** Agreement in every field, up to that. */
  predicate Agree(p: Payload, q: Payload) {
    && SameNumber(p.version, q.version) && SameNumber(p.basePriceUsdc, q.basePriceUsdc)
    && SameNumber(p.commitDeadline, q.commitDeadline) && SameNumber(p.issuedAt, q.issuedAt)
    && SameNumber(p.expiresAt, q.expiresAt)
    && p == q.(version := p.version, basePriceUsdc := p.basePriceUsdc, commitDeadline := p.commitDeadline,
               issuedAt := p.issuedAt, expiresAt := p.expiresAt)
  }

  predicate AllFinite(p: Payload) {
    && p.version.Finite? && p.basePriceUsdc.Finite? && p.commitDeadline.Finite?
    && p.issuedAt.Finite? && p.expiresAt.Finite?
  }

  /** No two keys share both their length and their first letter. */
  lemma KeysDiffer()
    ensures forall i, j | 0 <= i < j < 15 :: KEYS[i] != KEYS[j]
  {
    assert forall i, j | 0 <= i < j < 15 :: |KEYS[i]| != |KEYS[j]| || KEYS[i][0] != KEYS[j][0];
  }

  predicate Atom(v: Value) { v.Undefined? || v.NonFinite? || v.Str? || (v.Number? && NumberText(v.text)) }

  lemma AtomsOnly(p: Payload)
    requires WellWritten(p)
    ensures forall i | 0 <= i < 15 :: Atom(Values(p)[i])
  {
  }

  lemma PayloadWellFormed(p: Payload)
    requires WellWritten(p)
    ensures DistinctKeys(Fields(p)) && WellFormed(Obj(Fields(p)))
  {
    AtomsOnly(p);
    KeysDiffer();
    hide Values;
    assert forall i | 0 <= i < 15 :: Fields(p)[i].key == KEYS[i] && Atom(Fields(p)[i].value);
  }

  /** What the printed text shows of a field. */
  predicate SameAtom(v: Value, w: Value) { v == w || (v.NonFinite? && w.NonFinite?) }

  lemma NumberTells(m: Numeric, n: Numeric)
    ensures SameAtom(NumberValue(m), NumberValue(n)) <==> SameNumber(m, n)
  {
  }

  lemma TextTells()
    ensures forall a, b :: SameAtom(Str(a), Str(b)) <==> a == b
  {
  }

  lemma CategoryTells(p: Payload, q: Payload)
    ensures SameAtom(Values(p)[7], Values(q)[7]) <==> p.category == q.category
  {
  }

  /** What the fifteen places show. */
  predicate NumbersShown(p: Payload, q: Payload) {
    var a, b := Values(p), Values(q);
    && SameAtom(a[0], b[0]) && SameAtom(a[6], b[6]) && SameAtom(a[12], b[12])
    && SameAtom(a[13], b[13]) && SameAtom(a[14], b[14])
  }

  predicate TextsShown(p: Payload, q: Payload) {
    var a, b := Values(p), Values(q);
    && SameAtom(a[1], b[1]) && SameAtom(a[2], b[2]) && SameAtom(a[3], b[3]) && SameAtom(a[4], b[4])
    && SameAtom(a[5], b[5])
    && SameAtom(a[8], b[8]) && SameAtom(a[9], b[9]) && SameAtom(a[10], b[10]) && SameAtom(a[11], b[11])
  }

  lemma NumbersTell(p: Payload, q: Payload)
    ensures NumbersShown(p, q) <==>
              && SameNumber(p.version, q.version) && SameNumber(p.basePriceUsdc, q.basePriceUsdc)
              && SameNumber(p.commitDeadline, q.commitDeadline) && SameNumber(p.issuedAt, q.issuedAt)
              && SameNumber(p.expiresAt, q.expiresAt)
  {
    NumberTells(p.version, q.version);
    NumberTells(p.basePriceUsdc, q.basePriceUsdc);
    NumberTells(p.commitDeadline, q.commitDeadline);
    NumberTells(p.issuedAt, q.issuedAt);
    NumberTells(p.expiresAt, q.expiresAt);
    hide NumberValue, SameNumber, SameAtom;
  }

  lemma TextsTell(p: Payload, q: Payload)
    ensures TextsShown(p, q) <==>
              && p.principal == q.principal && p.sessionKey == q.sessionKey && p.contractId == q.contractId
              && p.roundId == q.roundId && p.itemRef == q.itemRef && p.maxBidStroops == q.maxBidStroops
              && p.maxEscrowStroops == q.maxEscrowStroops && p.maxAppraisalSpendStroops == q.maxAppraisalSpendStroops
              && p.appraisalPriceStroops == q.appraisalPriceStroops
  {
    TextTells();
    hide NumberValue, SameAtom;
  }

  lemma ValuesTell(p: Payload, q: Payload)
    ensures (forall i | 0 <= i < 15 :: SameAtom(Values(p)[i], Values(q)[i])) <==> Agree(p, q)
  {
    hide Values, SameNumber, SameAtom;
    AllFifteen(Values(p), Values(q));
    NumbersTell(p, q);
    TextsTell(p, q);
    CategoryTells(p, q);
  }

  lemma AllFifteen(a: seq<Value>, b: seq<Value>)
    requires |a| == |b| == 15
    ensures (forall i | 0 <= i < 15 :: SameAtom(a[i], b[i])) <==>
              && SameAtom(a[0], b[0]) && SameAtom(a[1], b[1]) && SameAtom(a[2], b[2]) && SameAtom(a[3], b[3])
              && SameAtom(a[4], b[4]) && SameAtom(a[5], b[5]) && SameAtom(a[6], b[6]) && SameAtom(a[7], b[7])
              && SameAtom(a[8], b[8]) && SameAtom(a[9], b[9]) && SameAtom(a[10], b[10]) && SameAtom(a[11], b[11])
              && SameAtom(a[12], b[12]) && SameAtom(a[13], b[13]) && SameAtom(a[14], b[14])
  {
    hide SameAtom;
  }

  /** Objects written with the same keys in the same places agree value by value. */
  lemma SamePlaces(f: seq<Field>, g: seq<Field>)
    requires |f| == |g| && (forall i | 0 <= i < |f| :: f[i].key == g[i].key)
    requires DistinctKeys(f) && Equivalent(Obj(f), Obj(g))
    ensures forall i | 0 <= i < |f| ::
              if f[i].value == Undefined then g[i].value == Undefined
              else g[i].value != Undefined && Equivalent(f[i].value, g[i].value)
  {
    DefinedMembers(f);
    DefinedMembers(g);
    forall i | 0 <= i < |f|
      ensures f[i].value == Undefined <==> g[i].value == Undefined
    {
      if f[i].value != Undefined { assert f[i] in Defined(f) && f[i].key in Keys(Defined(f)); }
      if g[i].value != Undefined { assert g[i] in Defined(g) && g[i].key in Keys(Defined(g)); }
    }
  }

  lemma {:induction false} KeysOfPlaces(f: seq<Field>, g: seq<Field>)
    requires |f| == |g|
    requires forall i | 0 <= i < |f| :: f[i].key == g[i].key && (f[i].value == Undefined <==> g[i].value == Undefined)
    ensures Keys(Defined(f)) == Keys(Defined(g))
  {
    if f != [] {
      KeysOfPlaces(f[1..], g[1..]);
      assert Keys([f[0]] + Defined(f[1..])) == {f[0].key} + Keys(Defined(f[1..]));
      assert Keys([g[0]] + Defined(g[1..])) == {g[0].key} + Keys(Defined(g[1..]));
      assert [] + Defined(f[1..]) == Defined(f[1..]) && [] + Defined(g[1..]) == Defined(g[1..]);
    }
  }

  lemma SameAtomIsEquivalent(v: Value, w: Value)
    requires Atom(v) && Atom(w)
    ensures Equivalent(v, w) && (v == Undefined <==> w == Undefined) <==> SameAtom(v, w)
  {
  }

  lemma PlacesBack(f: seq<Field>, g: seq<Field>)
    requires |f| == |g| && DistinctKeys(f)
    requires forall i | 0 <= i < |f| :: f[i].key == g[i].key && Atom(f[i].value) && Atom(g[i].value)
    requires forall i | 0 <= i < |f| :: SameAtom(f[i].value, g[i].value)
    ensures Equivalent(Obj(f), Obj(g))
  {
    forall i | 0 <= i < |f|
      ensures Equivalent(f[i].value, g[i].value) && (f[i].value == Undefined <==> g[i].value == Undefined)
    {
      SameAtomIsEquivalent(f[i].value, g[i].value);
    }
    KeysOfPlaces(f, g);
    hide Keys, Defined, SameAtom, Atom;
  }

  /** Objects of atoms, written with the same keys in the same places, print alike exactly when
      their texts show the same value in every place. */
  lemma AtomsPrint(f: seq<Field>, g: seq<Field>)
    requires |f| == |g| && DistinctKeys(f) && WellFormed(Obj(f)) && WellFormed(Obj(g))
    requires forall i | 0 <= i < |f| :: f[i].key == g[i].key && Atom(f[i].value) && Atom(g[i].value)
    ensures Canonical(Obj(f)) == Canonical(Obj(g)) <==> forall i | 0 <= i < |f| :: SameAtom(f[i].value, g[i].value)
  {
    hide Canonical, WellFormed, Equivalent, DistinctKeys, Atom, SameAtom;
    CanonicalIffEquivalent(Obj(f), Obj(g));
    if Equivalent(Obj(f), Obj(g)) {
      SamePlaces(f, g);
      forall i | 0 <= i < |f|
        ensures SameAtom(f[i].value, g[i].value)
      {
        SameAtomIsEquivalent(f[i].value, g[i].value);
        UndefinedTwice(f[i].value, g[i].value);
      }
    } else if forall i | 0 <= i < |f| :: SameAtom(f[i].value, g[i].value) {
      PlacesBack(f, g);
    }
  }

  lemma UndefinedTwice(v: Value, w: Value)
    ensures v == Undefined && w == Undefined ==> Equivalent(v, w)
  {
  }

  /** Two mandates are signed as the same text exactly when they agree in every field, up to
      which of the non-finite numbers a number is. */
  lemma SignatureBindsEveryField(p: Payload, q: Payload)
    requires WellWritten(p) && WellWritten(q)
    ensures Canonical(Obj(Fields(p))) == Canonical(Obj(Fields(q))) <==> Agree(p, q)
    ensures AllFinite(p) ==> (Canonical(Obj(Fields(p))) == Canonical(Obj(Fields(q))) <==> p == q)
  {
    PayloadWellFormed(p);
    PayloadWellFormed(q);
    AtomsOnly(p);
    AtomsOnly(q);
    ValuesTell(p, q);
    hide Canonical, Values, WellFormed, DistinctKeys, WellWritten, Atom, SameAtom;
    assert forall i | 0 <= i < 15 :: Fields(p)[i].value == Values(p)[i] && Fields(q)[i].value == Values(q)[i];
    AtomsPrint(Fields(p), Fields(q));
  }

  /** Not more than that: any mandate and its copy with another non-finite price. */
  lemma OddPricesCollide(p: Payload)
    requires WellWritten(p)
    ensures var x, y := p.(basePriceUsdc := Odd(NaN)), p.(basePriceUsdc := Odd(PlusInfinity));
            x != y && Canonical(Obj(Fields(x))) == Canonical(Obj(Fields(y)))
  {
    SignatureBindsEveryField(p.(basePriceUsdc := Odd(NaN)), p.(basePriceUsdc := Odd(PlusInfinity)));
  }
}

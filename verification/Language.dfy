/**
 Languages of JSON documents: the syntax trees that RFC 8259 allows, that the parser accepts,
 and that its documentation describes.
 */
module Language {
  import opened Decimal
  import opened Json
  import opened Syntax

  /** What a language allows beyond the common core: a plus sign as a hexadecimal digit, Python's
      `NaN` and infinities, and surrogates that are not part of a pair. */
  datatype Rules = Rules(plus: bool, words: bool, lone: bool)

  const ANY: Rules := Rules(true, true, true)
  const RFC_8259: Rules := Rules(false, false, true)
  const ACCEPTED: Rules := Rules(true, true, false)

  /** Standard JSON with Python's words and without lone surrogates. */
  const DOCUMENTED: Rules := Rules(false, true, false)

  predicate IsHigh(h: string) {
    IsHex4(h) && 0xD800 <= HexNumber(h) < 0xDC00
  }

  predicate IsLow(h: string) {
    IsHex4(h) && 0xDC00 <= HexNumber(h) < 0xE000
  }

  /** The halves of a pair are too large to begin with a plus sign. */
  predicate AllowedUnit(u: Unit, r: Rules) {
    match u
    case Plain(c) => c != '"' && c != '\\' && c as int >= 32
    case Short(letter) => letter in LETTERS
    case Hex(h) => IsHex4(h) && (r.plus || h[0] != '+') && (r.lone || !IsSurrogate(HexNumber(h)))
    case Pair(hi, lo) => IsHigh(hi) && IsLow(lo)
  }

  /** Two escapes that are a pair. */
  predicate Paired(u: Unit, v: Unit) {
    u.Hex? && v.Hex? && IsHigh(u.h) && IsLow(v.h)
  }

  /** Escapes that are a pair are written as one. */
  predicate AllowedUnits(us: seq<Unit>, r: Rules) {
    && (forall i :: 0 <= i < |us| ==> AllowedUnit(us[i], r))
    && forall i :: 0 <= i < |us| - 1 ==> !Paired(us[i], us[i + 1])
  }

  const CORE_WORDS: set<string> := {"null", "true", "false"}
  const PYTHON_WORDS: set<string> := {"NaN", "Infinity", "-Infinity"}

  predicate Allowed(t: Tree, r: Rules)
    decreases t
  {
    match t
    case Word(w) => w in CORE_WORDS || (r.words && w in PYTHON_WORDS)
    case Number(_, whole, frac, exp) => IsNatLiteral(whole) && AllDigits(frac) && GoodExp(exp)
    case Text(us) => AllowedUnits(us, r)
    case EmptyList(space) => IsSpace(space)
    case List(items) => AllowedItems(items, r)
    case EmptyRecord(space) => IsSpace(space)
    case Record(members) => AllowedMembers(members, r)
  }

  predicate AllowedItems(s: Items, r: Rules)
    decreases s
  {
    IsSpace(s.before) && IsSpace(s.after) && Allowed(s.value, r) && (s.NextItem? ==> AllowedItems(s.more, r))
  }

  predicate AllowedMembers(s: Members, r: Rules)
    decreases s
  {
    && IsSpace(s.before) && IsSpace(s.colon) && IsSpace(s.gap) && IsSpace(s.after)
    && AllowedUnits(s.key, r) && Allowed(s.value, r) && (s.NextMember? ==> AllowedMembers(s.more, r))
  }

  /** Containers nest at most `n` deep. */
  predicate Within(t: Tree, n: nat)
    decreases t
  {
    match t
    case EmptyList(_) => n > 0
    case EmptyRecord(_) => n > 0
    case List(items) => n > 0 && ItemsWithin(items, n - 1)
    case Record(members) => n > 0 && MembersWithin(members, n - 1)
    case _ => true
  }

  predicate ItemsWithin(s: Items, n: nat)
    decreases s
  {
    Within(s.value, n) && (s.NextItem? ==> ItemsWithin(s.more, n))
  }

  predicate MembersWithin(s: Members, n: nat)
    decreases s
  {
    Within(s.value, n) && (s.NextMember? ==> MembersWithin(s.more, n))
  }

  // ----- how the languages relate

  lemma UnitsAccepted(us: seq<Unit>)
    ensures GoodUnits(us) <==> AllowedUnits(us, ACCEPTED)
  {
    hide HexNumber, IsHex4;
    assert forall i :: 0 <= i < |us| ==> (GoodUnit(us[i]) <==> AllowedUnit(us[i], ACCEPTED));
  }

  /** The parser's documents are the accepted trees within its depth. */
  lemma {:induction false} GoodIsAccepted(t: Tree, n: nat)
    ensures Good(t, n) <==> Allowed(t, ACCEPTED) && Within(t, n)
    decreases t
  {
    hide GoodUnits, AllowedUnits, IsSpace, GoodExp, IsNatLiteral, AllDigits;
    match t {
      case Text(us) => UnitsAccepted(us);
      case List(items) =>
        if n > 0 {
          ItemsAccepted(items, n - 1);
        }
      case Record(members) =>
        if n > 0 {
          MembersAccepted(members, n - 1);
        }
      case _ =>
    }
  }

  lemma {:induction false} ItemsAccepted(s: Items, n: nat)
    ensures GoodItems(s, n) <==> AllowedItems(s, ACCEPTED) && ItemsWithin(s, n)
    decreases s
  {
    hide Good, Allowed, Within, IsSpace;
    GoodIsAccepted(s.value, n);
    if s.NextItem? {
      ItemsAccepted(s.more, n);
    }
  }

  lemma {:induction false} MembersAccepted(s: Members, n: nat)
    ensures GoodMembers(s, n) <==> AllowedMembers(s, ACCEPTED) && MembersWithin(s, n)
    decreases s
  {
    hide Good, Allowed, Within, IsSpace, GoodUnits, AllowedUnits;
    UnitsAccepted(s.key);
    GoodIsAccepted(s.value, n);
    if s.NextMember? {
      MembersAccepted(s.more, n);
    }
  }

  function Meet(a: Rules, b: Rules): Rules {
    Rules(a.plus && b.plus, a.words && b.words, a.lone && b.lone)
  }

  lemma UnitsMeet(us: seq<Unit>, a: Rules, b: Rules)
    ensures AllowedUnits(us, a) && AllowedUnits(us, b) <==> AllowedUnits(us, Meet(a, b))
  {
    hide HexNumber, IsHex4, Paired, IsHigh, IsLow, IsSurrogate;
    assert forall i :: 0 <= i < |us| ==>
        (AllowedUnit(us[i], a) && AllowedUnit(us[i], b) <==> AllowedUnit(us[i], Meet(a, b)));
  }

  /** A tree is in two languages exactly when it uses what both allow. */
  lemma {:induction false} AllowedMeet(t: Tree, a: Rules, b: Rules)
    ensures Allowed(t, a) && Allowed(t, b) <==> Allowed(t, Meet(a, b))
    decreases t
  {
    hide AllowedUnits, IsSpace, GoodExp, IsNatLiteral, AllDigits;
    match t {
      case Text(us) => UnitsMeet(us, a, b);
      case List(items) => ItemsMeet(items, a, b);
      case Record(members) => MembersMeet(members, a, b);
      case _ =>
    }
  }

  lemma {:induction false} ItemsMeet(s: Items, a: Rules, b: Rules)
    ensures AllowedItems(s, a) && AllowedItems(s, b) <==> AllowedItems(s, Meet(a, b))
    decreases s
  {
    hide Allowed, IsSpace, Meet;
    AllowedMeet(s.value, a, b);
    if s.NextItem? {
      ItemsMeet(s.more, a, b);
    }
  }

  lemma {:induction false} MembersMeet(s: Members, a: Rules, b: Rules)
    ensures AllowedMembers(s, a) && AllowedMembers(s, b) <==> AllowedMembers(s, Meet(a, b))
    decreases s
  {
    hide Allowed, IsSpace, AllowedUnits, Meet;
    UnitsMeet(s.key, a, b);
    AllowedMeet(s.value, a, b);
    if s.NextMember? {
      MembersMeet(s.more, a, b);
    }
  }

  /** Every language is part of the widest one. */
  lemma AllowedAny(t: Tree, r: Rules)
    requires Allowed(t, r)
    ensures Allowed(t, ANY)
  {
    hide Allowed;
    AllowedMeet(t, r, ANY);
    assert Meet(r, ANY) == r;
  }
}

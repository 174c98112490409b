/**
 Every text has at most one syntax tree, so whether a text is in a language is decided by its
 tree; and which texts the parser and the standard tell apart.
 */
module Unambiguous {
  import opened Decimal
  import opened Documents
  import opened Grammar
  import opened Json
  import opened Language
  import opened RoundTrip
  import opened Scalars
  import opened Syntax
  import opened Utf8

  // ----- strings

  /** The unit a text begins with, read off its characters. */
  function FrontUnit(t: string): Unit {
    if |t| < 2 || t[0] != '\\' then Plain(if t == [] then ' ' else t[0])
    else if t[1] != 'u' || |t| < 6 then Short(t[1])
    else if IsHigh(t[2..6]) && |t| >= 12 && t[6..8] == "\\u" && IsLow(t[8..12]) then Pair(t[2..6], t[8..12])
    else Hex(t[2..6])
  }

  lemma UnitsStart(us: seq<Unit>, x: string)
    requires AllowedUnits(us, ANY)
    ensures UnitsText(us) + x != []
    ensures (UnitsText(us) + x)[0] == '"' <==> us == []
  {
    hide HexNumber, IsHex4;
    if us != [] {
      assert AllowedUnit(us[0], ANY);
      assert UnitText(us[0]) != [] && UnitText(us[0])[0] != '"';
    }
  }

  lemma UnitsUnfold(us: seq<Unit>, x: string)
    requires us != []
    ensures UnitsText(us) + x == UnitText(us[0]) + (UnitsText(us[1..]) + x)
  {
    hide UnitText;
  }

  lemma TailAllowed(us: seq<Unit>)
    requires us != [] && AllowedUnits(us, ANY)
    ensures AllowedUnit(us[0], ANY) && AllowedUnits(us[1..], ANY)
    ensures |us| > 1 ==> !Paired(us[0], us[1])
  {
    hide AllowedUnit, Paired;
    var more := us[1..];
    assert forall i :: 0 <= i < |more| ==> more[i] == us[i + 1];
  }

  /** A low surrogate escape at the front is a unit of its own. */
  lemma LowFront(us: seq<Unit>, x: string)
    requires AllowedUnits(us, ANY)
    requires
      var t := UnitsText(us) + x;
      |t| >= 6 && t[..2] == "\\u" && IsLow(t[2..6])
    ensures us != [] && us[0] == Hex((UnitsText(us) + x)[2..6])
  {
    hide UnitsText, HexNumber, IsHex4;
    var t := UnitsText(us) + x;
    assert t[0] == "\\u"[0] == '\\' && t[1] == "\\u"[1] == 'u' by {
      assert t[0] == t[..2][0] && t[1] == t[..2][1];
    }
    UnitsStart(us, x);
    UnitsUnfold(us, x);
    TailAllowed(us);
    UnitFront(us[0], UnitsText(us[1..]) + x);
  }

  lemma HexChars(h: string, y: string)
    requires |h| == 4
    ensures
      var t := "\\u" + (h + y);
      t[0] == '\\' && t[1] == 'u' && t[2..6] == h && t[6..] == y
  {
  }

  /** What the first characters say about the unit in front. */
  lemma UnitFront(u: Unit, y: string)
    requires AllowedUnit(u, ANY)
    ensures
      var t := UnitText(u) + y;
      && t != [] && (u.Plain? <==> t[0] != '\\') && (u.Plain? ==> t[0] == u.c)
      && (u.Short? ==> |t| >= 2 && t[1] == u.letter && u.letter != 'u')
      && (u.Hex? ==> |t| >= 6 && t[1] == 'u' && t[2..6] == u.h && t[6..] == y)
      && (u.Pair? ==> |t| >= 12 && t[1] == 'u' && t[2..6] == u.hi && t[6..8] == "\\u" && t[8..12] == u.lo)
  {
    hide HexNumber;
    match u {
      case Hex(h) =>
        assert UnitText(u) + y == "\\u" + (h + y);
        HexChars(h, y);
      case Pair(hi, lo) => PairFront(hi, lo, y);
      case _ =>
    }
  }

  lemma PairFront(hi: string, lo: string, y: string)
    requires |hi| == 4 && |lo| == 4
    ensures
      var t := UnitText(Pair(hi, lo)) + y;
      && |t| >= 12 && t[0] == '\\' && t[1] == 'u' && t[2..6] == hi && t[6..8] == "\\u" && t[8..12] == lo
  {
    var z := "\\u" + (lo + y);
    assert UnitText(Pair(hi, lo)) + y == "\\u" + (hi + z);
    HexChars(hi, z);
    HexChars(lo, y);
    var t := "\\u" + (hi + z);
    assert t[6..8] == t[6..][..2] && t[8..12] == t[6..][2..6] && z[..2] == "\\u";
  }

  lemma FrontUnitIs(us: seq<Unit>, x: string)
    requires us != [] && AllowedUnits(us, ANY)
    ensures FrontUnit(UnitsText(us) + x) == us[0]
  {
    hide UnitsText, UnitText, HexNumber, IsHex4;
    var u, y := us[0], UnitsText(us[1..]) + x;
    UnitsUnfold(us, x);
    TailAllowed(us);
    UnitFront(u, y);
    var t := UnitsText(us) + x;
    assert t == UnitText(u) + y;
    match u {
      case Plain(_) =>
      case Short(_) => assert t[0] == '\\' && FrontUnit(t) == Short(t[1]);
      case Hex(h) => HexFront(us, x, t, y);
      case Pair(hi, lo) => assert IsHigh(t[2..6]) && IsLow(t[8..12]);
    }
  }

  lemma HexFront(us: seq<Unit>, x: string, t: string, y: string)
    requires us != [] && us[0].Hex? && AllowedUnits(us, ANY) && y == UnitsText(us[1..]) + x
    requires |t| >= 6 && t[2..6] == us[0].h && t[6..] == y
    ensures !(IsHigh(t[2..6]) && |t| >= 12 && t[6..8] == "\\u" && IsLow(t[8..12]))
  {
    hide UnitsText, HexNumber, IsHex4, AllowedUnit;
    TailAllowed(us);
    if |t| >= 12 && t[6..8] == "\\u" && IsLow(t[8..12]) {
      assert y[..2] == t[6..8] && y[2..6] == t[8..12];
      LowFront(us[1..], x);
    }
  }

  lemma {:induction false} UnitsUnique(us: seq<Unit>, vs: seq<Unit>, x: string, y: string)
    requires AllowedUnits(us, ANY) && AllowedUnits(vs, ANY) && UnitsText(us) + x == UnitsText(vs) + y
    ensures us == vs && x == y
  {
    hide AllowedUnits, UnitsText, UnitText, FrontUnit;
    UnitsStart(us, x);
    UnitsStart(vs, y);
    if us == [] {
      Cancel(UnitsText(us), x, UnitsText(vs), y);
    } else {
      FrontUnitIs(us, x);
      FrontUnitIs(vs, y);
      UnitsUnfold(us, x);
      UnitsUnfold(vs, y);
      Cancel(UnitText(us[0]), UnitsText(us[1..]) + x, UnitText(vs[0]), UnitsText(vs[1..]) + y);
      TailAllowed(us);
      TailAllowed(vs);
      UnitsUnique(us[1..], vs[1..], x, y);
      assert us == [us[0]] + us[1..] && vs == [vs[0]] + vs[1..];
    }
  }

  /** The same front leaves the same rest. */
  lemma Cancel(a: string, x: string, b: string, y: string)
    requires a + x == b + y && |a| == |b|
    ensures a == b && x == y
  {
    assert a == (a + x)[..|a|] && b == (b + y)[..|b|];
    assert x == (a + x)[|a|..] && y == (b + y)[|b|..];
  }

  // ----- white space

  lemma SpaceUnique(w: string, x: string, v: string, y: string)
    requires IsSpace(w) && IsSpace(v) && x != [] && y != [] && !IsWs(x[0]) && !IsWs(y[0]) && w + x == v + y
    ensures w == v && x == y
  {
    hide IsSpace, SkipWs, IsWs;
    SkipTo(w, x);
    SkipTo(v, y);
    Cancel(w, x, v, y);
  }

  // ----- words and numbers

  /** The word that begins with a character. */
  function WordOf(c: char): string {
    match c
    case 'n' => "null"
    case 't' => "true"
    case 'f' => "false"
    case 'N' => "NaN"
    case 'I' => "Infinity"
    case _ => "-Infinity"
  }

  lemma WordIs(w: string)
    requires w in CORE_WORDS || w in PYTHON_WORDS
    ensures w != [] && w == WordOf(w[0])
  {
  }

  lemma WordUnique(w: string, v: string, x: string, y: string)
    requires (w in CORE_WORDS || w in PYTHON_WORDS) && (v in CORE_WORDS || v in PYTHON_WORDS) && w + x == v + y
    ensures w == v && x == y
  {
    hide WordOf;
    WordIs(w);
    WordIs(v);
    assert w[0] == (w + x)[0] == (v + y)[0] == v[0];
    Cancel(w, x, v, y);
  }

  /** The parts of the number a text begins with, and the text after it. */
  function FrontNumber(t: string): (bool, string, string, string, string) {
    var s := SignLen(t);
    var a := IntLen(t[s..]);
    var t1 := t[s + a..];
    var f := FracLen(t1);
    var t2 := t1[f..];
    (s == 1, t[s..][..a], if f == 0 then [] else t1[1..f], t2[..ExpLen(t2)], t2[ExpLen(t2)..])
  }

  lemma PartsInFront(t: string, s: nat, whole: string, t1: string, frac: string, t2: string, exp: string, x: string)
    requires s == SignLen(t) && IntLen(t[s..]) == |whole| && t[s..][..|whole|] == whole && t[s + |whole|..] == t1
    requires FracLen(t1) == (if frac == [] then 0 else 1 + |frac|) && t1[FracLen(t1)..] == t2
    requires frac != [] ==> t1[1..FracLen(t1)] == frac
    requires ExpLen(t2) == |exp| && t2[..|exp|] == exp && t2[|exp|..] == x
    ensures FrontNumber(t) == (s == 1, whole, frac, exp, x)
  {
    hide IntLen, FracLen, ExpLen, SignLen;
  }

  lemma FrontNumberIs(n: Tree, x: string)
    requires n.Number? && Allowed(n, ANY) && Boundary(x)
    ensures FrontNumber(TreeText(n) + x) == (n.neg, n.whole, n.frac, ExpPartText(n.exp), x)
  {
    hide FrontNumber, IntLen, FracLen, ExpLen, ExpValue, SignLen, SignText, FracText, ExpPartText,
      ExpPartValue, GoodExp, TreeText, AllDigits, Boundary, IsNatLiteral;
    var exp := ExpPartText(n.exp);
    var t2 := exp + x;
    var t1 := FracText(n.frac) + t2;
    NumberText(n.neg, n.whole, n.frac, n.exp, x);
    ExpReads(n.exp, x);
    TailReads(n.frac, n.exp, x);
    SignedTail(n.neg, n.whole, t1);
    IntLenExact(n.whole, t1);
    FrontOf(exp, x);
    PartsInFront(TreeText(n) + x, if n.neg then 1 else 0, n.whole, t1, n.frac, t2, exp, x);
  }

  lemma FrontOf(a: string, x: string)
    ensures (a + x)[..|a|] == a && (a + x)[|a|..] == x
  {
  }

  lemma ExpUnique(e: ExpPart, f: ExpPart)
    requires GoodExp(e) && GoodExp(f) && ExpPartText(e) == ExpPartText(f)
    ensures e == f
  {
    if e.Exp? && f.Exp? {
      assert IsDigit(e.digits[0]) && IsDigit(f.digits[0]);
      MarkReads(e.mark, e.sign, e.digits);
      MarkReads(f.mark, f.sign, f.digits);
    }
  }

  lemma NumberUnique(n: Tree, m: Tree, x: string, y: string)
    requires n.Number? && m.Number? && Allowed(n, ANY) && Allowed(m, ANY) && Boundary(x) && Boundary(y)
    requires TreeText(n) + x == TreeText(m) + y
    ensures n == m && x == y
  {
    hide FrontNumber, TreeText, ExpPartText, GoodExp, Boundary, AllDigits, IsNatLiteral;
    FrontNumberIs(n, x);
    FrontNumberIs(m, y);
    ExpUnique(n.exp, m.exp);
  }

  // ----- values

  lemma AllowedStart(t: Tree, x: string)
    requires Allowed(t, ANY)
    ensures ValueStart(TreeText(t)) && ValueStart(TreeText(t) + x)
  {
    hide UnitsText, FracText, ExpPartText, GoodExp, AllowedItems, AllowedMembers, AllowedUnits, ItemsText, MembersText;
    if t.Number? {
      assert IsDigit(t.whole[0]);
    }
  }

  predicate NumberFront(s: string) {
    s != [] && (IsDigit(s[0]) || (s[0] == '-' && |s| > 1 && IsDigit(s[1])))
  }

  lemma WordFront(w: string, x: string)
    requires w in CORE_WORDS || w in PYTHON_WORDS
    ensures
      var s := w + x;
      s != [] && s[0] != '"' && s[0] != '[' && s[0] != '{' && !NumberFront(s)
  {
  }

  lemma NumberChars(n: Tree, x: string)
    requires n.Number? && Allowed(n, ANY)
    ensures
      var s := TreeText(n) + x;
      NumberFront(s) && s[0] != '"' && s[0] != '[' && s[0] != '{'
  {
    hide FracText, ExpPartText, GoodExp;
    assert IsDigit(n.whole[0]);
  }

  /** The first characters say which kind of tree a text belongs to. */
  lemma KindOf(t: Tree, x: string)
    requires Allowed(t, ANY)
    ensures
      var s := TreeText(t) + x;
      && s != []
      && (t.Text? <==> s[0] == '"')
      && (t.EmptyList? || t.List? <==> s[0] == '[')
      && (t.EmptyRecord? || t.Record? <==> s[0] == '{')
      && (t.Number? <==> NumberFront(s))
  {
    hide UnitsText, AllowedItems, AllowedMembers, AllowedUnits, ItemsText, MembersText, FracText, ExpPartText, GoodExp;
    match t {
      case Word(w) => WordFront(w, x);
      case Number(_, _, _, _) => NumberChars(t, x);
      case _ =>
    }
  }

  /** After an opening bracket and white space, only an empty container is closed at once. */
  lemma ListFront(t: Tree, x: string)
    requires Allowed(t, ANY) && (t.EmptyList? || t.List?)
    ensures Starts(SkipWs((TreeText(t) + x)[1..]), ']') <==> t.EmptyList?
  {
    hide SkipWs, IsSpace, ItemsText;
    if t.EmptyList? {
      assert (TreeText(t) + x)[1..] == t.space + ([']'] + x);
      SkipToMark(t.space, ']', x);
    } else {
      assert (TreeText(t) + x)[1..] == ItemsText(t.items) + x;
      ItemsFront(t.items, x);
    }
  }

  /** What follows the white space before an item. */
  function AfterItem(s: Items, x: string): string {
    s.after + (if s.LastItem? then ([']'] + x) else ([','] + (ItemsText(s.more) + x)))
  }

  lemma ItemsFront(s: Items, x: string)
    requires AllowedItems(s, ANY)
    ensures SkipWs(ItemsText(s) + x) == TreeText(s.value) + AfterItem(s, x)
    ensures ValueStart(SkipWs(ItemsText(s) + x))
  {
    hide SkipWs, IsSpace, ItemsText, TreeText, Allowed;
    ItemsUnfold(s, x);
    AllowedStart(s.value, AfterItem(s, x));
    SkipTo(s.before, TreeText(s.value) + AfterItem(s, x));
  }

  lemma RecordFront(t: Tree, x: string)
    requires Allowed(t, ANY) && (t.EmptyRecord? || t.Record?)
    ensures Starts(SkipWs((TreeText(t) + x)[1..]), '}') <==> t.EmptyRecord?
  {
    hide SkipWs, IsSpace, MembersText, UnitsText, AllowedUnits, AllowedMembers;
    if t.EmptyRecord? {
      assert (TreeText(t) + x)[1..] == t.space + (['}'] + x);
      SkipToMark(t.space, '}', x);
    } else {
      assert (TreeText(t) + x)[1..] == MembersText(t.members) + x;
      MembersFront(t.members, x);
    }
  }

  function AfterMember(s: Members, x: string): string {
    s.after + (if s.LastMember? then (['}'] + x) else ([','] + (MembersText(s.more) + x)))
  }

  /** From a member's colon, and from its value, on. */
  function FromColon(s: Members, x: string): string {
    [':'] + (s.gap + (TreeText(s.value) + AfterMember(s, x)))
  }

  lemma MembersFront(s: Members, x: string)
    requires AllowedMembers(s, ANY)
    ensures SkipWs(MembersText(s) + x) == "\"" + (UnitsText(s.key) + (s.colon + FromColon(s, x)))
    ensures Starts(SkipWs(MembersText(s) + x), '"')
  {
    hide SkipWs, IsSpace, MembersText, TreeText, Allowed, UnitsText, AllowedUnits;
    MembersUnfold(s, x);
    SkipTo(s.before, "\"" + (UnitsText(s.key) + (s.colon + FromColon(s, x))));
  }

  lemma {:induction false} ItemsUnique(s: Items, r: Items, x: string, y: string)
    requires AllowedItems(s, ANY) && AllowedItems(r, ANY) && ItemsText(s) + x == ItemsText(r) + y
    ensures s == r && x == y
    decreases s, 0
  {
    hide ItemsText, TreeText, Allowed, IsSpace, SkipWs, Boundary, ValueStart;
    var a, b := AfterItem(s, x), AfterItem(r, y);
    ItemsUnfold(s, x);
    ItemsUnfold(r, y);
    ItemsFront(s, x);
    ItemsFront(r, y);
    Cancel(s.before, TreeText(s.value) + a, r.before, TreeText(r.value) + b);
    var tail, tail' := if s.LastItem? then x else ItemsText(s.more) + x,
        if r.LastItem? then y else ItemsText(r.more) + y;
    var mark, mark' := if s.LastItem? then ']' else ',', if r.LastItem? then ']' else ',';
    MarkBoundary(s.after, mark, tail);
    MarkBoundary(r.after, mark', tail');
    TreeUnique(s.value, r.value, a, b);
    AfterUnique(s.after, mark, tail, r.after, mark', tail');
    if s.NextItem? {
      ItemsUnique(s.more, r.more, x, y);
    }
  }

  lemma AfterUnique(w: string, c: char, x: string, v: string, d: char, y: string)
    requires IsSpace(w) && IsSpace(v) && !IsWs(c) && !IsWs(d) && w + ([c] + x) == v + ([d] + y)
    ensures w == v && c == d && x == y
  {
    hide IsSpace, IsWs;
    SpaceUnique(w, [c] + x, v, [d] + y);
    assert ([c] + x)[0] == c && ([d] + y)[0] == d;
    Cancel([c], x, [d], y);
  }

  lemma {:induction false} MembersUnique(s: Members, r: Members, x: string, y: string)
    requires AllowedMembers(s, ANY) && AllowedMembers(r, ANY) && MembersText(s) + x == MembersText(r) + y
    ensures s == r && x == y
    decreases s, 0
  {
    hide MembersText, TreeText, Allowed, AllowedUnits, UnitsText, IsSpace, SkipWs, Boundary;
    var a, b := AfterMember(s, x), AfterMember(r, y);
    MembersUnfold(s, x);
    MembersUnfold(r, y);
    MembersFront(s, x);
    MembersFront(r, y);
    var k, l := s.colon + FromColon(s, x), r.colon + FromColon(r, y);
    Cancel(s.before, "\"" + (UnitsText(s.key) + k), r.before, "\"" + (UnitsText(r.key) + l));
    Cancel("\"", UnitsText(s.key) + k, "\"", UnitsText(r.key) + l);
    UnitsUnique(s.key, r.key, k, l);
    AfterUnique(s.colon, ':', s.gap + (TreeText(s.value) + a), r.colon, ':', r.gap + (TreeText(r.value) + b));
    GapUnique(s.gap, s.value, a, r.gap, r.value, b);
    var tail, tail' := if s.LastMember? then x else MembersText(s.more) + x,
                       if r.LastMember? then y else MembersText(r.more) + y;
    var mark, mark' := if s.LastMember? then '}' else ',', if r.LastMember? then '}' else ',';
    MarkBoundary(s.after, mark, tail);
    MarkBoundary(r.after, mark', tail');
    TreeUnique(s.value, r.value, a, b);
    AfterUnique(s.after, mark, tail, r.after, mark', tail');
    if s.NextMember? {
      MembersUnique(s.more, r.more, x, y);
    }
  }

  lemma GapUnique(w: string, t: Tree, x: string, v: string, u: Tree, y: string)
    requires IsSpace(w) && IsSpace(v) && Allowed(t, ANY) && Allowed(u, ANY)
    requires w + (TreeText(t) + x) == v + (TreeText(u) + y)
    ensures w == v && TreeText(t) + x == TreeText(u) + y
  {
    hide IsSpace, Allowed, TreeText, IsWs;
    AllowedStart(t, x);
    AllowedStart(u, y);
    SpaceUnique(w, TreeText(t) + x, v, TreeText(u) + y);
  }

  lemma EmptyUnique(open: char, close: char, w: string, v: string, x: string, y: string)
    requires IsSpace(w) && IsSpace(v) && !IsWs(close) && [open] + (w + [close]) + x == [open] + (v + [close]) + y
    ensures w == v && x == y
  {
    hide IsSpace, IsWs;
    assert [open] + (w + [close]) + x == [open] + (w + ([close] + x));
    assert [open] + (v + [close]) + y == [open] + (v + ([close] + y));
    Cancel([open], w + ([close] + x), [open], v + ([close] + y));
    AfterUnique(w, close, x, v, close, y);
  }

  /** A text, up to a boundary, is the text of at most one tree. */
  lemma {:induction false} TreeUnique(t: Tree, u: Tree, x: string, y: string)
    requires Allowed(t, ANY) && Allowed(u, ANY) && Boundary(x) && Boundary(y) && TreeText(t) + x == TreeText(u) + y
    ensures t == u && x == y
    decreases t, 1
  {
    hide UnitsText, AllowedUnits, ItemsText, MembersText, AllowedItems, AllowedMembers, IsSpace, SkipWs, Boundary,
      NumberFront, FracText, ExpPartText, SignText, GoodExp, IsNatLiteral, AllDigits;
    KindOf(t, x);
    KindOf(u, y);
    match t {
      case Word(w) => WordUnique(w, u.word, x, y);
      case Number(_, _, _, _) => NumberUnique(t, u, x, y);
      case Text(us) =>
        Open('"', UnitsText(us), x, UnitsText(u.units), y);
        UnitsUnique(us, u.units, x, y);
      case EmptyList(w) =>
        ListFront(t, x);
        ListFront(u, y);
        EmptyUnique('[', ']', w, u.space, x, y);
      case List(items) =>
        ListFront(t, x);
        ListFront(u, y);
        Open('[', ItemsText(items), x, ItemsText(u.items), y);
        ItemsUnique(items, u.items, x, y);
      case EmptyRecord(w) =>
        RecordFront(t, x);
        RecordFront(u, y);
        EmptyUnique('{', '}', w, u.space, x, y);
      case Record(members) =>
        RecordFront(t, x);
        RecordFront(u, y);
        Open('{', MembersText(members), x, MembersText(u.members), y);
        MembersUnique(members, u.members, x, y);
    }
  }

  lemma Open(c: char, a: string, x: string, b: string, y: string)
    requires [c] + a + x == [c] + b + y
    ensures a + x == b + y
  {
    assert [c] + a + x == [c] + (a + x) && [c] + b + y == [c] + (b + y);
    Cancel([c], a + x, [c], b + y);
  }

  // ----- whole texts

  /** `text` is the text of `tree` with white space around it. */
  ghost predicate Spells(text: string, before: string, tree: Tree, after: string) {
    IsSpace(before) && IsSpace(after) && Allowed(tree, ANY) && text == before + (TreeText(tree) + after)
  }

  /** No text has two syntax trees. */
  lemma SpellingUnique(text: string, b: string, t: Tree, a: string, b': string, t': Tree, a': string)
    requires Spells(text, b, t, a) && Spells(text, b', t', a')
    ensures b == b' && t == t' && a == a'
  {
    hide IsSpace, Allowed, TreeText, Boundary;
    GapUnique(b, t, a, b', t', a');
    SpaceBoundary(a);
    SpaceBoundary(a');
    TreeUnique(t, t', a, a');
  }

  ghost predicate InLanguage(text: string, r: Rules) {
    exists before, tree, after :: Spells(text, before, tree, after) && Allowed(tree, r)
  }

  /** Whether a text is in a language is decided by its tree. */
  lemma LanguageByTree(text: string, b: string, t: Tree, a: string, r: Rules)
    requires Spells(text, b, t, a)
    ensures InLanguage(text, r) <==> Allowed(t, r)
  {
    hide Spells, Allowed;
    if b', t', a' :| Spells(text, b', t', a') && Allowed(t', r) {
      SpellingUnique(text, b, t, a, b', t', a');
    }
  }

  /** So is whether the parser accepts it. */
  lemma AcceptedByTree(fp: Rounding, text: string, b: string, t: Tree, a: string)
    requires Spells(text, b, t, a)
    ensures Parse(fp, text).Some? <==> Allowed(t, ACCEPTED) && Within(t, 512)
  {
    hide Parse, IsSpace, Allowed, Within, TreeText, TreeValue, Good;
    GoodIsAccepted(t, MAX_DEPTH);
    if Parse(fp, text).Some? {
      var v := Parse(fp, text).value;
      ParseIsExact(fp, text, v);
      var b', t', a' :| DenotesBy(fp, text, v, b', t', a');
      GoodIsAccepted(t', MAX_DEPTH);
      AllowedAny(t', ACCEPTED);
      SpellingUnique(text, b, t, a, b', t', a');
    }
    if Good(t, MAX_DEPTH) {
      var v := TreeValue(fp, t, MAX_DEPTH);
      assert DenotesBy(fp, text, v, b, t, a);
      ParseIsExact(fp, text, v);
    }
  }

  /** Texts without a tree are in no language and are refused. */
  lemma TreeExists(fp: Rounding, text: string, r: Rules)
    requires Parse(fp, text).Some? || InLanguage(text, r)
    ensures exists b, t, a :: Spells(text, b, t, a)
  {
    hide Parse, IsSpace, Allowed, Within, TreeText, TreeValue, Good;
    if Parse(fp, text).Some? {
      var v := Parse(fp, text).value;
      ParseIsExact(fp, text, v);
      var b, t, a :| DenotesBy(fp, text, v, b, t, a);
      GoodIsAccepted(t, MAX_DEPTH);
      AllowedAny(t, ACCEPTED);
      assert Spells(text, b, t, a);
    }
  }

  // ----- the parser against its documentation and against the standard

  const NO_PLUS: Rules := Rules(false, true, true)
  const NO_WORDS: Rules := Rules(true, false, true)
  const NO_LONE: Rules := Rules(true, true, false)

  /** Against the documented language: what the parser takes beyond it are the texts with a plus
      sign among hexadecimal digits, and what it refuses of it those nested too deeply. */
  lemma AgainstDocumented(fp: Rounding, text: string, b: string, t: Tree, a: string)
    requires Spells(text, b, t, a)
    ensures Parse(fp, text).Some? ==> (InLanguage(text, DOCUMENTED) <==> Allowed(t, NO_PLUS))
    ensures InLanguage(text, DOCUMENTED) ==> (Parse(fp, text).Some? <==> Within(t, 512))
  {
    hide Parse, Spells, InLanguage, Allowed, Within;
    AcceptedByTree(fp, text, b, t, a);
    LanguageByTree(text, b, t, a, DOCUMENTED);
    AllowedMeet(t, ACCEPTED, NO_PLUS);
    assert Meet(ACCEPTED, NO_PLUS) == DOCUMENTED;
  }

  /** Against RFC 8259: beyond it are the texts with a plus sign or one of Python's words, and
      refused of it are those with an unpaired surrogate escape or nested too deeply. */
  lemma AgainstStandard(fp: Rounding, text: string, b: string, t: Tree, a: string)
    requires Spells(text, b, t, a)
    ensures Parse(fp, text).Some? ==>
              (InLanguage(text, RFC_8259) <==> Allowed(t, NO_PLUS) && Allowed(t, NO_WORDS))
    ensures InLanguage(text, RFC_8259) ==>
              (Parse(fp, text).Some? <==> Allowed(t, NO_LONE) && Within(t, MAX_DEPTH))
  {
    hide Parse, Spells, InLanguage, Allowed, Within;
    AcceptedByTree(fp, text, b, t, a);
    LanguageByTree(text, b, t, a, RFC_8259);
    AllowedMeet(t, NO_PLUS, NO_WORDS);
    assert Meet(NO_PLUS, NO_WORDS) == RFC_8259;
    assert NO_LONE == ACCEPTED;
  }

  // ----- inputs on either side

  lemma OneUnit(u: Unit)
    ensures UnitsText([u]) == UnitText(u) + "\""
    ensures forall r :: AllowedUnits([u], r) <==> AllowedUnit(u, r)
  {
    hide UnitText, AllowedUnit;
    assert [u][1..] == [];
    assert [u][0] == u;
  }

  /** A plus sign among hexadecimal digits: accepted, and in neither language. */
  lemma PlusIsBeyond(fp: Rounding)
    ensures Parse(fp, "\"\\u+0ff\"") == Some(Str([0xFF as char]))
    ensures !InLanguage("\"\\u+0ff\"", DOCUMENTED) && !InLanguage("\"\\u+0ff\"", RFC_8259)
  {
    hide Parse, InLanguage, AllowedUnits;
    var text, u := "\"\\u+0ff\"", Hex("+0ff");
    PlusEscape(fp);
    OneUnit(u);
    assert Spells(text, "", Text([u]), "");
    LanguageByTree(text, "", Text([u]), "", DOCUMENTED);
    LanguageByTree(text, "", Text([u]), "", RFC_8259);
  }

  /** An unpaired surrogate: standard, and refused. */
  lemma LoneSurrogateRefused(fp: Rounding)
    ensures Parse(fp, "\"\\ud800\"").None? && InLanguage("\"\\ud800\"", RFC_8259)
  {
    hide Parse, InLanguage, AllowedUnits;
    var text, u := "\"\\ud800\"", Hex("d800");
    assert HexNumber("d800") == 0xD800;
    OneUnit(u);
    assert Spells(text, "", Text([u]), "");
    LanguageByTree(text, "", Text([u]), "", RFC_8259);
    AcceptedByTree(fp, text, "", Text([u]), "");
  }

  /** `n` pairs of square brackets, one inside the other. */
  function Brackets(n: nat): Tree
    requires n > 0
  {
    if n == 1 then EmptyList("") else List(LastItem("", Brackets(n - 1), ""))
  }

  lemma {:induction false} BracketsDepth(n: nat, r: Rules, k: nat)
    requires n > 0
    ensures Allowed(Brackets(n), r) && (Within(Brackets(n), k) <==> n <= k)
  {
    if n > 1 {
      BracketsDepth(n - 1, r, if k == 0 then 0 else k - 1);
    }
  }

  /** Brackets are in every language and accepted up to 512 deep. */
  lemma BracketsAccepted(fp: Rounding, n: nat, r: Rules)
    requires n > 0
    ensures InLanguage(TreeText(Brackets(n)), r)
    ensures Parse(fp, TreeText(Brackets(n))).Some? <==> n <= 512
  {
    hide Parse, InLanguage, Allowed, Within, TreeText, Brackets;
    var text := TreeText(Brackets(n));
    BracketsDepth(n, ANY, MAX_DEPTH);
    BracketsDepth(n, ACCEPTED, MAX_DEPTH);
    BracketsDepth(n, r, MAX_DEPTH);
    assert "" + (text + "") == text;
    assert Spells(text, "", Brackets(n), "");
    LanguageByTree(text, "", Brackets(n), "", r);
    AcceptedByTree(fp, text, "", Brackets(n), "");
  }
}

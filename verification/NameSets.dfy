/**
 Sets of names kept as sorted sequences, the way an ordered set of strings iterates.
 */
module NameSets {
  import opened Json
  import opened Utf8

  ghost predicate StrictlyAscending(s: seq<string>) {
    forall i, j :: 0 <= i < j < |s| ==> KeyLess(s[i], s[j])
  }

  function Add(x: string, s: seq<string>): seq<string> {
    if s == [] then [x]
    else if x == s[0] then s
    else if KeyLess(x, s[0]) then [x] + s
    else [s[0]] + Add(x, s[1..])
  }

  /** What `set_published_services` stores. */
  function SortedUnique(names: seq<string>): seq<string> {
    if names == [] then [] else Add(names[0], SortedUnique(names[1..]))
  }

  lemma KeyTotal(a: string, b: string)
    ensures a == b || KeyLess(a, b) || KeyLess(b, a)
  {
    LexTotal(Encode(a), Encode(b));
    if Encode(a) == Encode(b) {
      EncodeInjective(a, b);
    }
  }

  lemma KeyTransitive(a: string, b: string, c: string)
    requires KeyLess(a, b) && KeyLess(b, c)
    ensures KeyLess(a, c)
  {
    LexTransitive(Encode(a), Encode(b), Encode(c));
  }

  lemma KeyIrreflexive(a: string)
    ensures !KeyLess(a, a)
  {
    LexIrreflexive(Encode(a));
  }

  lemma AscendingPrepend(x: string, s: seq<string>)
    requires StrictlyAscending(s) && forall y :: y in s ==> KeyLess(x, y)
    ensures StrictlyAscending([x] + s)
  {
    hide KeyLess;
    var r := [x] + s;
    forall i, j | 0 <= i < j < |r| ensures KeyLess(r[i], r[j]) {
      assert r[j] == s[j - 1] && s[j - 1] in s;
      if i > 0 {
        assert r[i] == s[i - 1];
      }
    }
  }

  lemma HeadIsLeast(s: seq<string>)
    requires s != [] && StrictlyAscending(s)
    ensures StrictlyAscending(s[1..]) && forall y :: y in s[1..] ==> KeyLess(s[0], y)
  {
    hide KeyLess;
    forall y | y in s[1..] ensures KeyLess(s[0], y) {
      var j :| 0 <= j < |s[1..]| && s[1..][j] == y;
      assert s[j + 1] == y;
    }
  }

  lemma {:induction false} AddEffect(x: string, s: seq<string>)
    requires StrictlyAscending(s)
    ensures StrictlyAscending(Add(x, s))
    ensures forall y :: y in Add(x, s) <==> y == x || y in s
  {
    hide KeyLess;
    if s != [] && x != s[0] {
      HeadIsLeast(s);
      assert s == [s[0]] + s[1..];
      if KeyLess(x, s[0]) {
        forall y | y in s ensures KeyLess(x, y) {
          if y != s[0] {
            KeyTransitive(x, s[0], y);
          }
        }
        AscendingPrepend(x, s);
      } else {
        KeyTotal(x, s[0]);
        AddEffect(x, s[1..]);
        AscendingPrepend(s[0], Add(x, s[1..]));
      }
    }
  }

  /** The result is strictly ascending and holds exactly the given names. */
  lemma {:induction false} SortedUniqueEffect(names: seq<string>)
    ensures StrictlyAscending(SortedUnique(names))
    ensures forall y :: y in SortedUnique(names) <==> y in names
  {
    if names != [] {
      SortedUniqueEffect(names[1..]);
      AddEffect(names[0], SortedUnique(names[1..]));
      assert names == [names[0]] + names[1..];
    }
  }

  /** A strictly ascending sequence is determined by its elements. */
  lemma {:induction false} AscendingDetermined(a: seq<string>, b: seq<string>)
    requires StrictlyAscending(a) && StrictlyAscending(b)
    requires forall y :: y in a <==> y in b
    ensures a == b
  {
    hide KeyLess;
    SameEmptiness(a, b);
    if a != [] {
      SameHead(a, b);
      HeadIsLeast(a);
      HeadIsLeast(b);
      forall y ensures y in a[1..] <==> y in b[1..] {
        RestOf(a, y);
        RestOf(b, y);
      }
      AscendingDetermined(a[1..], b[1..]);
      assert a == [a[0]] + a[1..] && b == [b[0]] + b[1..];
    }
  }

  lemma SameEmptiness(a: seq<string>, b: seq<string>)
    requires forall y :: y in a <==> y in b
    ensures a == [] <==> b == []
    ensures a != [] ==> a[0] in b && b[0] in a
  {
    if a != [] {
      assert a[0] in a;
    }
    if b != [] {
      assert b[0] in b;
    }
  }

  lemma SameHead(a: seq<string>, b: seq<string>)
    requires a != [] && b != [] && StrictlyAscending(a) && StrictlyAscending(b)
    requires a[0] in b && b[0] in a
    ensures a[0] == b[0]
  {
    hide KeyLess;
    var i :| 0 <= i < |a| && a[i] == b[0];
    var j :| 0 <= j < |b| && b[j] == a[0];
    if i > 0 && j > 0 {
      KeyAsymmetric(a[0], a[i]);
    }
  }

  lemma RestOf(s: seq<string>, y: string)
    requires s != [] && StrictlyAscending(s)
    ensures y in s[1..] <==> y in s && y != s[0]
  {
    hide KeyLess;
    HeadIsLeast(s);
    KeyIrreflexive(s[0]);
    assert s == [s[0]] + s[1..];
  }

  /** Order and repetition of the given names do not matter, and nothing else is lost. */
  lemma SortedUniqueCanonical(a: seq<string>, b: seq<string>)
    ensures SortedUnique(a) == SortedUnique(b) <==> forall y :: y in a <==> y in b
  {
    SortedUniqueEffect(a);
    SortedUniqueEffect(b);
    if forall y :: y in a <==> y in b {
      AscendingDetermined(SortedUnique(a), SortedUnique(b));
    } else {
      var y :| !(y in a <==> y in b);
      assert !(y in SortedUnique(a) <==> y in SortedUnique(b));
    }
  }

  lemma SortedUniqueFixed(s: seq<string>)
    requires StrictlyAscending(s)
    ensures SortedUnique(s) == s
  {
    SortedUniqueEffect(s);
    AscendingDetermined(SortedUnique(s), s);
  }

  /** `set_published_services`: insert the names one by one into an ordered set. */
  method SetPublishedServices(names: seq<string>) returns (stored: seq<string>)
    ensures StrictlyAscending(stored) && forall y :: y in stored <==> y in names
    ensures stored == SortedUnique(names)
  {
    stored := [];
    for i := 0 to |names|
      invariant StrictlyAscending(stored) && forall y :: y in stored <==> y in names[..i]
    {
      AddEffect(names[i], stored);
      stored := Add(names[i], stored);
      assert names[..i + 1] == names[..i] + [names[i]];
    }
    assert names[..|names|] == names;
    SortedUniqueEffect(names);
    AscendingDetermined(stored, SortedUnique(names));
  }
}

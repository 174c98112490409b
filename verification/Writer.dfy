/**
 `PyJson::write` and `write_str`, as the program runs them: loops that push onto one output
 buffer.  The buffer ends up holding exactly the text that `Dump` denotes.
 */
module Writer {
  import opened Decimal
  import opened Json
  import opened Printer

  /** The text still to be written before item `k` of a list. */
  function Remaining(texts: seq<string>, lay: Layout, k: nat): string
    requires k <= |texts|
  {
    if k == |texts| then "" else if k == 0 then Join(texts, lay) else lay.itemSep + Join(texts[k..], lay)
  }

  lemma RemainingStep(texts: seq<string>, lay: Layout, k: nat)
    requires k < |texts|
    ensures Remaining(texts, lay, k) ==
              (if k > 0 then lay.itemSep else "") + lay.open + texts[k] + Remaining(texts, lay, k + 1)
  {
    assert texts[k..][0] == texts[k] && texts[k..][1..] == texts[k + 1..];
    assert texts[0..] == texts;
  }

  lemma Assoc2(a: string, b: string, c: string, d: string)
    ensures a + b + c + d == a + (b + c + d)
  {
  }

  lemma Assoc3(a: string, b: string, c: string, d: string, e: string)
    ensures a + b + c + d + e == a + (b + c + d + e)
  {
  }

  class Buffer {
    var out: string

    constructor ()
      ensures out == ""
    {
      out := "";
    }

    method WriteStr(s: string, ascii: bool)
      modifies this
      ensures out == old(out) + StrText(s, ascii)
    {
      hide EscapeChar;
      out := out + "\"";
      ghost var done := out + EscapeAll(s, ascii);
      assert s[0..] == s;
      for k := 0 to |s|
        invariant out + EscapeAll(s[k..], ascii) == done
      {
        assert s[k..][0] == s[k] && s[k..][1..] == s[k + 1..];
        assert out + EscapeChar(s[k], ascii) + EscapeAll(s[k + 1..], ascii) == done;
        out := out + EscapeChar(s[k], ascii);
      }
      assert s[|s|..] == [] && out + [] == out;
      Assoc2(old(out), "\"", EscapeAll(s, ascii), "\"");
      out := out + "\"";
    }

    method Write(v: Json, opts: DumpOptions, depth: nat)
      modifies this
      ensures out == old(out) + Dump(v, opts, depth)
      decreases v, 1
    {
      hide FloatRepr, NatText, Join, LayoutOf;
      match v {
        case Null => out := out + "null";
        case Bool(b) => out := out + if b then "true" else "false";
        case Int(n) => out := out + IntText(n);
        case BigInt(lit) => out := out + lit;
        case Float(f) => out := out + FloatRepr(f);
        case Str(s) => WriteStr(s, opts.ensureAscii);
        case Array(items) =>
          if items == [] {
            out := out + "[]";
          } else {
            WriteItems(v, opts, depth);
          }
        case Object(fields) =>
          if fields == [] {
            out := out + "{}";
          } else {
            WriteFields(v, opts, depth);
          }
      }
    }

    method WriteItems(v: Json, opts: DumpOptions, depth: nat)
      requires v.Array? && v.items != []
      modifies this
      ensures out == old(out) + Dump(v, opts, depth)
      decreases v, 0
    {
      hide LayoutOf, Join, Remaining;
      var lay := LayoutOf(opts, depth);
      ghost var texts := DumpAll(v.items, opts, depth + 1);
      out := out + "[";
      ghost var done := out + Remaining(texts, lay, 0);
      for k := 0 to |v.items|
        invariant out + Remaining(texts, lay, k) == done
      {
        RemainingStep(texts, lay, k);
        ghost var before := out;
        if k > 0 {
          out := out + lay.itemSep;
        }
        ghost var sep := if k > 0 then lay.itemSep else "";
        assert out == before + sep;
        out := out + lay.open;
        Write(v.items[k], opts, depth + 1);
        Assoc3(before, sep, lay.open, texts[k], Remaining(texts, lay, k + 1));
      }
      NothingRemains(texts, lay);
      assert out + "" == out;
      Assoc3(old(out), "[", Join(texts, lay), lay.close, "]");
      out := out + lay.close;
      out := out + "]";
    }

    method WriteFields(v: Json, opts: DumpOptions, depth: nat)
      requires v.Object? && v.fields != []
      modifies this
      ensures out == old(out) + Dump(v, opts, depth)
      decreases v, 0
    {
      hide LayoutOf, Join, Remaining, Ordered, StrText;
      var lay, ascii := LayoutOf(opts, depth), opts.ensureAscii;
      var fields := Ordered(v.fields, opts);
      ghost var texts := FieldTexts(DumpFields(fields, opts, depth + 1), lay, ascii);
      DumpOrdered(v.fields, opts, depth + 1);
      OrderedFrom(v.fields, opts);
      out := out + "{";
      ghost var done := out + Remaining(texts, lay, 0);
      for k := 0 to |fields|
        invariant out + Remaining(texts, lay, k) == done
      {
        RemainingStep(texts, lay, k);
        ghost var before := out;
        if k > 0 {
          out := out + lay.itemSep;
        }
        ghost var sep := if k > 0 then lay.itemSep else "";
        assert out == before + sep;
        out := out + lay.open;
        ghost var begun := out;
        WriteStr(fields[k].key, ascii);
        out := out + lay.keySep;
        Write(fields[k].value, opts, depth + 1);
        Assoc2(begun, StrText(fields[k].key, ascii), lay.keySep, Dump(fields[k].value, opts, depth + 1));
        Assoc3(before, sep, lay.open, texts[k], Remaining(texts, lay, k + 1));
      }
      NothingRemains(texts, lay);
      assert out + "" == out;
      Assoc3(old(out), "{", Join(texts, lay), lay.close, "}");
      out := out + lay.close;
      out := out + "}";
    }
  }

  lemma NothingRemains(texts: seq<string>, lay: Layout)
    requires texts != []
    ensures Remaining(texts, lay, 0) == Join(texts, lay) && Remaining(texts, lay, |texts|) == ""
  {
  }

  lemma OrderedFrom(fields: seq<Keyed<Json>>, opts: DumpOptions)
    ensures |Ordered(fields, opts)| == |fields|
    ensures forall k :: 0 <= k < |fields| ==> Ordered(fields, opts)[k] in fields
  {
    SortEffect(fields);
    forall k | 0 <= k < |fields| ensures Ordered(fields, opts)[k] in fields {
      if opts.sortKeys {
        SortMember(fields, k);
      }
    }
  }

  /** `PyJson::dumps`. */
  method WriteAll(v: Json, opts: DumpOptions) returns (text: string)
    ensures text == Dumps(v, opts)
  {
    var b := new Buffer();
    b.Write(v, opts, 0);
    assert "" + Dump(v, opts, 0) == Dump(v, opts, 0);
    text := b.out;
  }
}

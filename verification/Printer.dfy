/**
 `PyJson::dumps`: the text Python's `json.dumps` produces, as a function of the value.
 */
module Printer {
  import opened Decimal
  import opened Json
  import opened Utf8

  datatype DumpOptions = DumpOptions(sortKeys: bool, compact: bool, ensureAscii: bool, indent: Option<nat>)

  /** What the directory service signs. */
  const SIGNING := DumpOptions(true, true, false, None)
  /** `json.dumps(value)`. */
  const PYTHON_DEFAULT := DumpOptions(false, false, true, None)
  /** `json.dumps(value, indent=2, ensure_ascii=False)`. */
  const PRETTY := DumpOptions(false, false, false, Some(2))

  // ----- strings

  function HexDigit(d: nat): char
    requires d < 16
  {
    "0123456789abcdef"[d]
  }

  /** `{:04x}` of a 16-bit unit. */
  function Hex4Text(n: nat): string
    requires n < 0x10000
  {
    [HexDigit(n / 4096), HexDigit(n / 256 % 16), HexDigit(n / 16 % 16), HexDigit(n % 16)]
  }

  function UnitText(n: nat): string
    requires n < 0x10000
  {
    "\\u" + Hex4Text(n)
  }

  /** The character as `\u` escapes of its UTF-16 units. */
  function Utf16Text(c: char): string {
    var n := c as int;
    if n < 0x10000 then UnitText(n)
    else UnitText(0xD800 + (n - 0x10000) / 1024) + UnitText(0xDC00 + (n - 0x10000) % 1024)
  }

  function EscapeChar(c: char, ascii: bool): string {
    if c == '"' then "\\\""
    else if c == '\\' then "\\\\"
    else if c == '\n' then "\\n"
    else if c == '\r' then "\\r"
    else if c == '\t' then "\\t"
    else if c as int == 8 then "\\b"
    else if c as int == 12 then "\\f"
    else if (c as int) < 32 then UnitText(c as int)
    else if ascii && !(' ' <= c <= '~') then Utf16Text(c)
    else [c]
  }

  function EscapeAll(s: string, ascii: bool): string {
    if s == [] then [] else EscapeChar(s[0], ascii) + EscapeAll(s[1..], ascii)
  }

  function StrText(s: string, ascii: bool): string {
    "\"" + EscapeAll(s, ascii) + "\""
  }

  // ----- layout

  datatype Layout = Layout(itemSep: string, keySep: string, open: string, close: string)

  function Spaces(n: nat): (s: string)
    ensures |s| == n && forall i :: 0 <= i < n ==> s[i] == ' '
  {
    seq(n, _ => ' ')
  }

  function LayoutOf(opts: DumpOptions, depth: nat): Layout {
    match opts.indent
    case Some(n) => Layout(",", ": ", "\n" + Spaces(n * (depth + 1)), "\n" + Spaces(n * depth))
    case None => if opts.compact then Layout(",", ":", "", "") else Layout(", ", ": ", "", "")
  }

  function Join(texts: seq<string>, lay: Layout): string {
    if texts == [] then ""
    else if |texts| == 1 then lay.open + texts[0]
    else lay.open + texts[0] + lay.itemSep + Join(texts[1..], lay)
  }

  function FieldText(f: Keyed<string>, lay: Layout, ascii: bool): string {
    StrText(f.key, ascii) + lay.keySep + f.value
  }

  function FieldTexts(fs: seq<Keyed<string>>, lay: Layout, ascii: bool): (r: seq<string>)
    ensures |r| == |fs| && forall i :: 0 <= i < |fs| ==> r[i] == FieldText(fs[i], lay, ascii)
  {
    seq(|fs|, i requires 0 <= i < |fs| => FieldText(fs[i], lay, ascii))
  }

  function DumpAll(items: seq<Json>, opts: DumpOptions, depth: nat): (r: seq<string>)
    ensures |r| == |items| && forall i :: 0 <= i < |items| ==> r[i] == Dump(items[i], opts, depth)
    decreases items, 0
  {
    seq(|items|, i requires 0 <= i < |items| => Dump(items[i], opts, depth))
  }

  function DumpFields(fields: seq<Keyed<Json>>, opts: DumpOptions, depth: nat): (r: seq<Keyed<string>>)
    ensures |r| == |fields|
    ensures forall i :: 0 <= i < |fields| ==> r[i] == Keyed(fields[i].key, Dump(fields[i].value, opts, depth))
    decreases fields, 0
  {
    seq(|fields|, i requires 0 <= i < |fields| => Keyed(fields[i].key, Dump(fields[i].value, opts, depth)))
  }

  function Ordered<T>(fields: seq<Keyed<T>>, opts: DumpOptions): seq<Keyed<T>> {
    if opts.sortKeys then SortByKey(fields) else fields
  }

  function Dump(v: Json, opts: DumpOptions, depth: nat): string
    decreases v, 1
  {
    var lay := LayoutOf(opts, depth);
    match v
    case Null => "null"
    case Bool(b) => if b then "true" else "false"
    case Int(n) => IntText(n)
    case BigInt(lit) => lit
    case Float(f) => FloatRepr(f)
    case Str(s) => StrText(s, opts.ensureAscii)
    case Array(items) =>
      if items == [] then "[]"
      else "[" + Join(DumpAll(items, opts, depth + 1), lay) + lay.close + "]"
    case Object(fields) =>
      if fields == [] then "{}"
      else
        var texts := Ordered(DumpFields(fields, opts, depth + 1), opts);
        "{" + Join(FieldTexts(texts, lay, opts.ensureAscii), lay) + lay.close + "}"
  }

  function Dumps(v: Json, opts: DumpOptions): string {
    Dump(v, opts, 0)
  }

  /** Sorting the fields and then printing them is printing them and then sorting the texts. */
  lemma DumpOrdered(fields: seq<Keyed<Json>>, opts: DumpOptions, depth: nat)
    ensures Ordered(DumpFields(fields, opts, depth), opts) == DumpFields(Ordered(fields, opts), opts, depth)
  {
    var f := (v: Json) => Dump(v, opts, depth);
    assert DumpFields(fields, opts, depth) == MapValues(f, fields);
    assert DumpFields(Ordered(fields, opts), opts, depth) == MapValues(f, Ordered(fields, opts));
    SortMap(f, fields);
  }
}

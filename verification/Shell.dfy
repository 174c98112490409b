/**
 Splitting a command line into words, as a POSIX shell does for plain words: a reference
 reading of lines as tokens, the splitter, and their agreement on every line.
 */
module Shell {
  import opened Chars
  import opened Utf8

  // ----- lines as tokens

  /** What stands between double quotes: a plain character, or a backslash and the next one. */
  datatype Item = Plain(c: char) | Slash(c: char)

  datatype Token =
    | Blank(c: char)
    | Bare(c: char)
    | Escape(c: char)
    | Single(text: string)
    | Double(items: seq<Item>)

  predicate Special(c: char) {
    IsWhitespace(c) || c == '\'' || c == '"' || c == '\\'
  }

  predicate ValidItem(i: Item) {
    i.Plain? ==> i.c != '"' && i.c != '\\'
  }

  predicate ValidToken(t: Token) {
    match t
    case Blank(c) => IsWhitespace(c)
    case Bare(c) => !Special(c)
    case Escape(_) => true
    case Single(text) => '\'' !in text
    case Double(items) => forall i :: 0 <= i < |items| ==> ValidItem(items[i])
  }

  predicate ValidTokens(ts: seq<Token>) {
    forall i :: 0 <= i < |ts| ==> ValidToken(ts[i])
  }

  function ItemText(i: Item): string {
    if i.Plain? then [i.c] else ['\\', i.c]
  }

  /** Between double quotes a backslash escapes a quote or a backslash and is itself otherwise. */
  function ItemValue(i: Item): string {
    if i.Plain? || i.c == '"' || i.c == '\\' then [i.c] else ['\\', i.c]
  }

  function ItemsText(items: seq<Item>): string {
    if items == [] then "" else ItemText(items[0]) + ItemsText(items[1..])
  }

  function ItemsValue(items: seq<Item>): string {
    if items == [] then "" else ItemValue(items[0]) + ItemsValue(items[1..])
  }

  function TokenText(t: Token): string {
    match t
    case Blank(c) => [c]
    case Bare(c) => [c]
    case Escape(c) => ['\\', c]
    case Single(text) => "'" + text + "'"
    case Double(items) => "\"" + ItemsText(items) + "\""
  }

  function TokenValue(t: Token): string {
    match t
    case Blank(_) => ""
    case Bare(c) => [c]
    case Escape(c) => [c]
    case Single(text) => text
    case Double(items) => ItemsValue(items)
  }

  function Text(ts: seq<Token>): string {
    if ts == [] then "" else TokenText(ts[0]) + Text(ts[1..])
  }

  function OrEmpty(word: Option<string>): string {
    if word.Some? then word.value else ""
  }

  function Finish(word: Option<string>): seq<string> {
    if word.Some? then [word.value] else []
  }

  /** The words of a token list: blanks separate, everything else adds to the current word. */
  function Meaning(ts: seq<Token>, word: Option<string>): seq<string> {
    if ts == [] then Finish(word)
    else if ts[0].Blank? then Finish(word) + Meaning(ts[1..], None)
    else Meaning(ts[1..], Some(OrEmpty(word) + TokenValue(ts[0])))
  }

  // ----- the splitter, as a function of what is left to read

  datatype SplitError = UnterminatedSingle | UnterminatedDouble | TrailingBackslash

  datatype Split = Words(words: seq<string>) | Refused(error: SplitError)

  /** A quoted text and how many characters it took, closing quote included. */
  datatype Quoted = Quoted(text: string, used: nat) | Unterminated

  function More(text: string, n: nat, q: Quoted): Quoted {
    if q.Quoted? then Quoted(text + q.text, n + q.used) else Unterminated
  }

  function ReadSingle(s: string): (r: Quoted)
    ensures r.Quoted? ==> 0 < r.used <= |s|
  {
    if s == [] then Unterminated
    else if s[0] == '\'' then Quoted("", 1)
    else More([s[0]], 1, ReadSingle(s[1..]))
  }

  function ReadDouble(s: string): (r: Quoted)
    ensures r.Quoted? ==> 0 < r.used <= |s|
  {
    if s == [] then Unterminated
    else if s[0] == '"' then Quoted("", 1)
    else if s[0] != '\\' then More([s[0]], 1, ReadDouble(s[1..]))
    else if |s| == 1 then Unterminated
    else More(if s[1] == '"' || s[1] == '\\' then [s[1]] else ['\\', s[1]], 2, ReadDouble(s[2..]))
  }

  function Prepend(words: seq<string>, r: Split): Split {
    if r.Words? then Words(words + r.words) else r
  }

  function Rest(s: string, word: Option<string>): Split {
    if s == [] then Words(Finish(word))
    else if IsWhitespace(s[0]) then Prepend(Finish(word), Rest(s[1..], None))
    else if s[0] == '\'' then
      var q := ReadSingle(s[1..]);
      if q.Unterminated? then Refused(UnterminatedSingle)
      else Rest(s[1 + q.used..], Some(OrEmpty(word) + q.text))
    else if s[0] == '"' then
      var q := ReadDouble(s[1..]);
      if q.Unterminated? then Refused(UnterminatedDouble)
      else Rest(s[1 + q.used..], Some(OrEmpty(word) + q.text))
    else if s[0] == '\\' then
      if |s| == 1 then Refused(TrailingBackslash) else Rest(s[2..], Some(OrEmpty(word) + [s[1]]))
    else Rest(s[1..], Some(OrEmpty(word) + [s[0]]))
  }

  // ----- token lists split into their words

  lemma {:induction false} SingleReads(text: string, rest: string)
    requires '\'' !in text
    ensures ReadSingle(text + "'" + rest) == Quoted(text, |text| + 1)
  {
    if text == [] {
      assert text + "'" + rest == "'" + rest;
    } else {
      assert text + "'" + rest == [text[0]] + (text[1..] + "'" + rest);
      SingleReads(text[1..], rest);
      assert [text[0]] + text[1..] == text;
    }
  }

  lemma {:induction false} DoubleReads(items: seq<Item>, rest: string)
    requires forall i :: 0 <= i < |items| ==> ValidItem(items[i])
    ensures ReadDouble(ItemsText(items) + "\"" + rest) == Quoted(ItemsValue(items), |ItemsText(items)| + 1)
  {
    if items == [] {
      assert ItemsText(items) + "\"" + rest == "\"" + rest;
    } else {
      var tail := ItemsText(items[1..]) + "\"" + rest;
      assert ItemsText(items) + "\"" + rest == ItemText(items[0]) + tail;
      DoubleReads(items[1..], rest);
      assert ValidItem(items[0]);
      ItemReads(items[0], tail);
    }
  }

  lemma ItemReads(i: Item, tail: string)
    requires ValidItem(i)
    ensures ReadDouble(ItemText(i) + tail) == More(ItemValue(i), |ItemText(i)|, ReadDouble(tail))
  {
    var s := ItemText(i) + tail;
    assert s[|ItemText(i)|..] == tail;
  }

  lemma SingleTokenReads(text: string, rest: string, word: Option<string>)
    requires '\'' !in text
    ensures Rest(TokenText(Single(text)) + rest, word) == Rest(rest, Some(OrEmpty(word) + text))
  {
    hide ReadSingle, ReadDouble;
    var s := "'" + text + "'" + rest;
    SingleReads(text, rest);
    assert s[1..] == text + "'" + rest;
    assert s[1 + (|text| + 1)..] == rest;
    assert s[0] == '\'';
  }

  lemma DoubleTokenReads(items: seq<Item>, rest: string, word: Option<string>)
    requires ValidToken(Double(items))
    ensures Rest(TokenText(Double(items)) + rest, word) == Rest(rest, Some(OrEmpty(word) + ItemsValue(items)))
  {
    hide ReadSingle, ReadDouble, ItemsText, ItemsValue, ValidItem;
    var text := ItemsText(items);
    var s := "\"" + text + "\"" + rest;
    DoubleReads(items, rest);
    assert s[1..] == text + "\"" + rest;
    assert s[1 + (|text| + 1)..] == rest;
    assert s[0] == '"';
  }

  lemma TokenReads(t: Token, rest: string, word: Option<string>)
    requires ValidToken(t)
    ensures Rest(TokenText(t) + rest, word) ==
              if t.Blank? then Prepend(Finish(word), Rest(rest, None))
              else Rest(rest, Some(OrEmpty(word) + TokenValue(t)))
  {
    hide ReadSingle, ReadDouble, ItemsText, ItemsValue, ValidItem;
    match t {
      case Single(text) => SingleTokenReads(text, rest, word);
      case Double(items) => DoubleTokenReads(items, rest, word);
      case _ =>
        var s := TokenText(t) + rest;
        assert s[|TokenText(t)|..] == rest;
    }
  }

  /** Reading a valid token list and then something gives the list's words and then the rest. */
  lemma {:induction false} TokensRead(ts: seq<Token>, word: Option<string>)
    requires ValidTokens(ts)
    ensures Rest(Text(ts), word) == Words(Meaning(ts, word))
  {
    hide TokenText, TokenValue, Rest;
    if ts == [] {
      EndReads(word);
    } else {
      TokenReads(ts[0], Text(ts[1..]), word);
      if ts[0].Blank? {
        TokensRead(ts[1..], None);
      } else {
        TokensRead(ts[1..], Some(OrEmpty(word) + TokenValue(ts[0])));
      }
    }
  }

  lemma EndReads(word: Option<string>)
    ensures Rest("", word) == Words(Finish(word))
  {
  }

  /** A backslash outside quotes stands for the next character; between single quotes it is
      itself; between double quotes it is itself unless a quote or a backslash follows. */
  lemma BackslashRules(c: char)
    ensures Rest(['\\', c], None) == Words([[c]])
    ensures c != '\'' ==> Rest(['\'', '\\', c, '\''], None) == Words([['\\', c]])
    ensures Rest(['"', '\\', c, '"'], None) == Words([if c == '"' || c == '\\' then [c] else ['\\', c]])
  {
    hide Rest;
    OneToken(Escape(c));
    if c != '\'' {
      OneToken(Single(['\\', c]));
      assert TokenText(Single(['\\', c])) == ['\'', '\\', c, '\''];
    }
    OneToken(Double([Slash(c)]));
    assert [Slash(c)][1..] == [];
    assert ItemsText([Slash(c)]) == ['\\', c] && ItemsValue([Slash(c)]) == ItemValue(Slash(c));
    assert TokenText(Double([Slash(c)])) == ['"', '\\', c, '"'];
  }

  lemma OneToken(t: Token)
    requires ValidToken(t) && !t.Blank?
    ensures Rest(TokenText(t), None) == Words([TokenValue(t)])
  {
    hide Rest, TokenText, TokenValue;
    var ts := [t];
    assert ts[1..] == [] && Text(ts[1..]) == "";
    assert TokenText(t) + "" == TokenText(t) && "" + TokenValue(t) == TokenValue(t);
    TokensRead(ts, None);
  }

  // ----- every accepted line is such a list

  lemma {:induction false} SingleShape(s: string)
    requires ReadSingle(s).Quoted?
    ensures
      var q := ReadSingle(s);
      '\'' !in q.text && |q.text| + 1 == q.used && s[..q.used] == q.text + "'"
  {
    if s[0] != '\'' {
      SingleShape(s[1..]);
      var q := ReadSingle(s[1..]);
      assert s[..1 + q.used] == [s[0]] + s[1..][..q.used];
    }
  }

  /** The first item of a double-quoted text. */
  function FirstItem(s: string): (i: Item)
    requires s != [] && s[0] != '"' && (s[0] == '\\' ==> |s| > 1)
    ensures ValidItem(i) && |ItemText(i)| <= |s| && s[..|ItemText(i)|] == ItemText(i)
  {
    if s[0] == '\\' then Slash(s[1]) else Plain(s[0])
  }

  lemma {:induction false} DoubleShape(s: string) returns (items: seq<Item>)
    requires ReadDouble(s).Quoted?
    ensures forall i :: 0 <= i < |items| ==> ValidItem(items[i])
    ensures ReadDouble(s).text == ItemsValue(items) && s[..ReadDouble(s).used] == ItemsText(items) + "\""
  {
    if s[0] == '"' {
      items := [];
    } else {
      var i := FirstItem(s);
      var n := |ItemText(i)|;
      var more := DoubleShape(s[n..]);
      items := [i] + more;
      JoinItem(s, i, more);
    }
  }

  lemma JoinItem(s: string, i: Item, more: seq<Item>)
    requires s != [] && s[0] != '"' && (s[0] == '\\' ==> |s| > 1) && i == FirstItem(s)
    requires var q := ReadDouble(s[|ItemText(i)|..]);
      q.Quoted? && q.text == ItemsValue(more) && s[|ItemText(i)|..][..q.used] == ItemsText(more) + "\""
    ensures
      var q := ReadDouble(s);
      q.Quoted? && q.text == ItemsValue([i] + more) && s[..q.used] == ItemsText([i] + more) + "\""
  {
    hide ReadDouble, FirstItem, ItemText, ItemValue, ItemsText, ItemsValue;
    var n := |ItemText(i)|;
    ItemReads(i, s[n..]);
    assert s == ItemText(i) + s[n..];
    var q := ReadDouble(s[n..]);
    assert s[..n + q.used] == ItemText(i) + s[n..][..q.used];
    ItemsCons(i, more);
    assert ItemText(i) + (ItemsText(more) + "\"") == (ItemText(i) + ItemsText(more)) + "\"";
  }

  lemma ItemsCons(i: Item, more: seq<Item>)
    ensures ItemsText([i] + more) == ItemText(i) + ItemsText(more)
    ensures ItemsValue([i] + more) == ItemValue(i) + ItemsValue(more)
  {
    assert ([i] + more)[1..] == more;
  }

  lemma {:induction false} AcceptedShape(s: string, word: Option<string>) returns (ts: seq<Token>)
    requires Rest(s, word).Words?
    ensures ValidTokens(ts) && Text(ts) == s
  {
    hide ReadSingle, ReadDouble;
    if s == [] {
      ts := [];
    } else {
      var t := FirstToken(s);
      var n := |TokenText(t)|;
      assert s == TokenText(t) + s[n..];
      TokenReads(t, s[n..], word);
      var more := AcceptedShape(s[n..], if t.Blank? then None else Some(OrEmpty(word) + TokenValue(t)));
      ts := [t] + more;
      assert ts[1..] == more;
    }
  }

  /** The token a line that is not refused at once begins with. */
  lemma FirstToken(s: string) returns (t: Token)
    requires s != []
    requires s[0] == '\'' ==> ReadSingle(s[1..]).Quoted?
    requires s[0] == '"' ==> ReadDouble(s[1..]).Quoted?
    requires s[0] == '\\' ==> |s| > 1
    ensures ValidToken(t) && 0 < |TokenText(t)| <= |s| && s[..|TokenText(t)|] == TokenText(t)
  {
    hide ReadSingle, ReadDouble;
    if IsWhitespace(s[0]) {
      t := Blank(s[0]);
    } else if s[0] == '\'' {
      t := SingleToken(s);
    } else if s[0] == '"' {
      t := DoubleToken(s);
    } else if s[0] == '\\' {
      t := Escape(s[1]);
    } else {
      t := Bare(s[0]);
    }
  }

  lemma SingleToken(s: string) returns (t: Token)
    requires s != [] && s[0] == '\'' && ReadSingle(s[1..]).Quoted?
    ensures ValidToken(t) && 0 < |TokenText(t)| <= |s| && s[..|TokenText(t)|] == TokenText(t)
  {
    hide ReadSingle;
    SingleShape(s[1..]);
    var q := ReadSingle(s[1..]);
    t := Single(q.text);
    assert s[..1 + q.used] == "'" + s[1..][..q.used];
    assert "'" + (q.text + "'") == TokenText(t);
  }

  lemma DoubleToken(s: string) returns (t: Token)
    requires s != [] && s[0] == '"' && ReadDouble(s[1..]).Quoted?
    ensures ValidToken(t) && 0 < |TokenText(t)| <= |s| && s[..|TokenText(t)|] == TokenText(t)
  {
    hide ReadDouble, ItemsText, ItemsValue, ValidItem;
    var items := DoubleShape(s[1..]);
    var q := ReadDouble(s[1..]);
    t := Double(items);
    assert s[..1 + q.used] == "\"" + s[1..][..q.used];
    assert "\"" + (ItemsText(items) + "\"") == TokenText(t);
  }

  /** A line splits into `words` exactly when it is a list of tokens that mean `words`. */
  lemma SplitIsExact(line: string, words: seq<string>)
    ensures Rest(line, None) == Words(words) <==>
              exists ts :: ValidTokens(ts) && Text(ts) == line && Meaning(ts, None) == words
  {
    hide Rest, Text, Meaning, ValidTokens;
    if Rest(line, None) == Words(words) {
      var ts := AcceptedShape(line, None);
      TokensRead(ts, None);
    }
    if ts :| ValidTokens(ts) && Text(ts) == line && Meaning(ts, None) == words {
      TokensRead(ts, None);
    }
  }

  // ----- every refused line breaks off inside a token

  /** The inside of double quotes that are never closed. */
  ghost predicate OpenDouble(s: string) {
    exists items: seq<Item> :: OpenWith(s, items)
  }

  ghost predicate OpenWith(s: string, items: seq<Item>) {
    && (forall i :: 0 <= i < |items| ==> ValidItem(items[i]))
    && (s == ItemsText(items) || s == ItemsText(items) + "\\")
  }

  ghost predicate BreaksOff(tail: string, e: SplitError) {
    match e
    case TrailingBackslash => tail == "\\"
    case UnterminatedSingle => tail != [] && tail[0] == '\'' && '\'' !in tail[1..]
    case UnterminatedDouble => tail != [] && tail[0] == '"' && OpenDouble(tail[1..])
  }

  lemma {:induction false} SingleNeverCloses(s: string)
    ensures ReadSingle(s).Unterminated? <==> '\'' !in s
  {
    if s != [] {
      SingleNeverCloses(s[1..]);
      assert s == [s[0]] + s[1..];
    }
  }

  lemma {:induction false} OpenReads(items: seq<Item>, end: string)
    requires forall i :: 0 <= i < |items| ==> ValidItem(items[i])
    requires end == "" || end == "\\"
    ensures ReadDouble(ItemsText(items) + end).Unterminated?
  {
    if items == [] {
      assert ItemsText(items) + end == end;
    } else {
      assert ItemsText(items) + end == ItemText(items[0]) + (ItemsText(items[1..]) + end);
      OpenReads(items[1..], end);
      ItemReads(items[0], ItemsText(items[1..]) + end);
    }
  }

  lemma {:induction false} OpenShape(s: string)
    requires ReadDouble(s).Unterminated?
    ensures OpenDouble(s)
  {
    if s == [] || s == "\\" {
      assert OpenWith(s, []);
    } else {
      var i := FirstItem(s);
      var n := |ItemText(i)|;
      assert s == ItemText(i) + s[n..];
      ItemReads(i, s[n..]);
      OpenShape(s[n..]);
      OpenCons(i, s[n..]);
    }
  }

  lemma OpenCons(i: Item, rest: string)
    requires ValidItem(i) && OpenDouble(rest)
    ensures OpenDouble(ItemText(i) + rest)
  {
    hide ItemsText, ItemText;
    var items :| OpenWith(rest, items);
    var all := [i] + items;
    ItemsCons(i, items);
    assert forall j :: 0 <= j < |all| ==> ValidItem(all[j]);
    assert ItemText(i) + (ItemsText(items) + "\\") == ItemsText(all) + "\\";
    assert OpenWith(ItemText(i) + rest, all);
  }

  lemma DoubleNeverCloses(s: string)
    ensures ReadDouble(s).Unterminated? <==> OpenDouble(s)
  {
    if ReadDouble(s).Unterminated? {
      OpenShape(s);
    }
    if items :| OpenWith(s, items) {
      OpenReads(items, "");
      OpenReads(items, "\\");
      assert ItemsText(items) + "" == ItemsText(items);
    }
  }

  lemma TailRefused(tail: string, e: SplitError, word: Option<string>)
    requires BreaksOff(tail, e)
    ensures Rest(tail, word) == Refused(e)
  {
    hide OpenDouble, ReadSingle, ReadDouble;
    match e {
      case TrailingBackslash =>
      case UnterminatedSingle => SingleNeverCloses(tail[1..]);
      case UnterminatedDouble => DoubleNeverCloses(tail[1..]);
    }
  }

  lemma {:induction false} RefusedAfter(ts: seq<Token>, tail: string, e: SplitError, word: Option<string>)
    requires ValidTokens(ts) && BreaksOff(tail, e)
    ensures Rest(Text(ts) + tail, word) == Refused(e)
  {
    hide Rest, TokenText, TokenValue, BreaksOff;
    if ts == [] {
      assert Text(ts) + tail == tail;
      TailRefused(tail, e, word);
    } else {
      assert Text(ts) + tail == TokenText(ts[0]) + (Text(ts[1..]) + tail);
      TokenReads(ts[0], Text(ts[1..]) + tail, word);
      RefusedAfter(ts[1..], tail, e, if ts[0].Blank? then None else Some(OrEmpty(word) + TokenValue(ts[0])));
    }
  }

  lemma {:induction false} RefusedShape(s: string, word: Option<string>) returns (ts: seq<Token>, tail: string)
    requires Rest(s, word).Refused?
    ensures ValidTokens(ts) && Text(ts) + tail == s && BreaksOff(tail, Rest(s, word).error)
  {
    hide TokenText, TokenValue, BreaksOff, Breaks;
    if Breaks(s) {
      ts, tail := [], s;
      BreaksAtOnce(s, word);
      assert Text(ts) + tail == tail;
    } else {
      var t := NextToken(s, word);
      var n := |TokenText(t)|;
      assert s == TokenText(t) + s[n..];
      TokenReads(t, s[n..], word);
      var more;
      more, tail := RefusedShape(s[n..], if t.Blank? then None else Some(OrEmpty(word) + TokenValue(t)));
      ts := [t] + more;
      assert ts[1..] == more;
      assert TokenText(t) + Text(more) + tail == TokenText(t) + (Text(more) + tail);
    }
  }

  /** The first token is never finished. */
  predicate Breaks(s: string) {
    || (s != [] && s[0] == '\'' && ReadSingle(s[1..]).Unterminated?)
    || (s != [] && s[0] == '"' && ReadDouble(s[1..]).Unterminated?)
    || s == "\\"
  }

  lemma BreaksAtOnce(s: string, word: Option<string>)
    requires Breaks(s)
    ensures Rest(s, word).Refused? && BreaksOff(s, Rest(s, word).error)
  {
    hide ReadSingle, ReadDouble, OpenDouble;
    SingleNeverCloses(s[1..]);
    DoubleNeverCloses(s[1..]);
  }

  lemma NextToken(s: string, word: Option<string>) returns (t: Token)
    requires Rest(s, word).Refused? && !Breaks(s)
    ensures ValidToken(t) && 0 < |TokenText(t)| <= |s| && s[..|TokenText(t)|] == TokenText(t)
  {
    hide ReadSingle, ReadDouble, TokenText;
    t := FirstToken(s);
  }

  /** A line is refused exactly when whole tokens are followed by a quote that is never closed
      or by a final backslash, and the error says which. */
  lemma RefusalIsExact(line: string, e: SplitError)
    ensures Rest(line, None) == Refused(e) <==>
              exists ts, tail :: ValidTokens(ts) && Text(ts) + tail == line && BreaksOff(tail, e)
  {
    hide Rest, Text, ValidTokens, BreaksOff;
    if Rest(line, None) == Refused(e) {
      var ts, tail := RefusedShape(line, None);
    }
    if ts, tail :| ValidTokens(ts) && Text(ts) + tail == line && BreaksOff(tail, e) {
      RefusedAfter(ts, tail, e, None);
    }
  }

  // ----- quoting is undone by splitting

  datatype Style = InSingle | InDouble

  /** The inside of single quotes: a quote is closed, escaped and opened again. */
  function SingleBody(w: string): string {
    if w == [] then "" else (if w[0] == '\'' then "'\\''" else [w[0]]) + SingleBody(w[1..])
  }

  function DoubleItems(w: string): (items: seq<Item>)
    ensures forall i :: 0 <= i < |items| ==> ValidItem(items[i])
  {
    if w == [] then []
    else [if w[0] == '"' || w[0] == '\\' then Slash(w[0]) else Plain(w[0])] + DoubleItems(w[1..])
  }

  function Quote(w: string, style: Style): string {
    if style.InSingle? then "'" + SingleBody(w) + "'" else "\"" + ItemsText(DoubleItems(w)) + "\""
  }

  /** Words quoted each in its own style and joined by spaces. */
  function QuoteAll(words: seq<string>, styles: seq<Style>): string
    requires |styles| == |words|
  {
    if words == [] then ""
    else if |words| == 1 then Quote(words[0], styles[0])
    else Quote(words[0], styles[0]) + " " + QuoteAll(words[1..], styles[1..])
  }

  lemma {:induction false} DoubleItemsValue(w: string)
    ensures ItemsValue(DoubleItems(w)) == w
  {
    if w != [] {
      DoubleItemsValue(w[1..]);
      assert DoubleItems(w)[1..] == DoubleItems(w[1..]);
      assert [w[0]] + w[1..] == w;
    }
  }

  lemma ReopenedText(done: string, body: string, rest: string)
    ensures "'" + done + ("'\\''" + body) + "'" + rest ==
            TokenText(Single(done)) + (TokenText(Escape('\'')) + ("'" + "" + body + "'" + rest))
  {
  }

  lemma MovedChar(done: string, c: char, body: string, rest: string)
    ensures "'" + done + ([c] + body) + "'" + rest == "'" + (done + [c]) + body + "'" + rest
  {
  }

  lemma ClosedText(done: string, rest: string)
    ensures "'" + done + "" + "'" + rest == TokenText(Single(done)) + rest
  {
    assert done + "" == done;
  }

  lemma MovedWord(before: string, done: string, w: string)
    requires w != []
    ensures before + (done + [w[0]]) + w[1..] == before + done + w
    ensures before + done + [w[0]] + "" + w[1..] == before + done + w
  {
  }

  /** Inside single quotes, from any point of the word on. */
  lemma {:induction false} SingleBodyReads(done: string, w: string, rest: string, word: Option<string>)
    requires '\'' !in done
    ensures Rest("'" + done + SingleBody(w) + "'" + rest, word) == Rest(rest, Some(OrEmpty(word) + done + w))
    decreases |w|
  {
    hide Rest, TokenText;
    if w == [] {
      ClosedText(done, rest);
      SingleTokenReads(done, rest, word);
      assert OrEmpty(word) + done + w == OrEmpty(word) + done;
    } else if w[0] == '\'' {
      var inner := "'" + "" + SingleBody(w[1..]) + "'" + rest;
      ReopenedText(done, SingleBody(w[1..]), rest);
      SingleTokenReads(done, TokenText(Escape('\'')) + inner, word);
      TokenReads(Escape('\''), inner, Some(OrEmpty(word) + done));
      SingleBodyReads("", w[1..], rest, Some(OrEmpty(word) + done + "'"));
      MovedWord(OrEmpty(word), done, w);
    } else {
      MovedChar(done, w[0], SingleBody(w[1..]), rest);
      SingleBodyReads(done + [w[0]], w[1..], rest, word);
      MovedWord(OrEmpty(word), done, w);
    }
  }

  lemma QuoteReads(w: string, style: Style, rest: string)
    ensures Rest(Quote(w, style) + rest, None) == Rest(rest, Some(w))
  {
    hide Rest, SingleBody, DoubleItems, ItemsText, ItemsValue;
    if style.InSingle? {
      assert Quote(w, style) + rest == "'" + "" + SingleBody(w) + "'" + rest;
      SingleBodyReads("", w, rest, None);
      assert "" + "" + w == w;
    } else {
      DoubleTokenReads(DoubleItems(w), rest, None);
      DoubleItemsValue(w);
      assert "" + w == w;
    }
  }

  /** Any list of words, however each is quoted, empty words included, splits back into itself. */
  lemma {:induction false} SplitUndoesQuoting(words: seq<string>, styles: seq<Style>)
    requires |styles| == |words|
    ensures Rest(QuoteAll(words, styles), None) == Words(words)
  {
    hide Rest, Quote;
    if words == [] {
      EndReads(None);
    } else if |words| == 1 {
      assert Quote(words[0], styles[0]) + "" == Quote(words[0], styles[0]);
      QuoteReads(words[0], styles[0], "");
      EndReads(Some(words[0]));
    } else {
      var rest := QuoteAll(words[1..], styles[1..]);
      assert QuoteAll(words, styles) == Quote(words[0], styles[0]) + (" " + rest);
      QuoteReads(words[0], styles[0], " " + rest);
      assert " " + rest == TokenText(Blank(' ')) + rest;
      TokenReads(Blank(' '), rest, Some(words[0]));
      SplitUndoesQuoting(words[1..], styles[1..]);
      assert [words[0]] + words[1..] == words;
    }
  }

  // ----- the program

  /** Inner loop: what single quotes hold. */
  method SingleQuoted(line: string, start: nat, before: string) returns (i: nat, w: string, closed: bool)
    requires start <= |line|
    ensures closed <==> ReadSingle(line[start..]).Quoted?
    ensures closed ==> i == start + ReadSingle(line[start..]).used <= |line|
    ensures closed ==> w == before + ReadSingle(line[start..]).text
  {
    i, w := start, before;
    while i < |line|
      invariant start <= i <= |line| && w == before + line[start..i]
      invariant ReadSingle(line[start..]) == More(line[start..i], i - start, ReadSingle(line[i..]))
    {
      assert line[i..][1..] == line[i + 1..];
      if line[i] == '\'' {
        return i + 1, w, true;
      }
      assert line[start..i] + [line[i]] == line[start..i + 1];
      MoreMore(line[start..i], i - start, [line[i]], 1, ReadSingle(line[i + 1..]));
      w := w + [line[i]];
      i := i + 1;
    }
    closed := false;
  }

  lemma MoreMore(a: string, m: nat, b: string, n: nat, q: Quoted)
    ensures More(a, m, More(b, n, q)) == More(a + b, m + n, q)
  {
    if q.Quoted? {
      assert a + (b + q.text) == a + b + q.text;
    }
  }

  lemma DoubleUnfold(line: string, i: nat)
    requires i < |line|
    ensures line[i] == '"' ==> ReadDouble(line[i..]) == Quoted("", 1)
    ensures line[i] != '"' && line[i] != '\\' ==> ReadDouble(line[i..]) == More([line[i]], 1, ReadDouble(line[i + 1..]))
    ensures line[i] == '\\' && i + 1 == |line| ==> ReadDouble(line[i..]) == Unterminated
    ensures line[i] == '\\' && i + 1 < |line| ==>
              ReadDouble(line[i..]) == More(ItemValue(Slash(line[i + 1])), 2, ReadDouble(line[i + 2..]))
  {
    var s := line[i..];
    assert s[1..] == line[i + 1..];
    if i + 1 < |line| {
      assert s[2..] == line[i + 2..];
    }
  }

  /** Inner loop: what double quotes hold. */
  method DoubleQuoted(line: string, start: nat, before: string) returns (i: nat, w: string, closed: bool)
    requires start <= |line|
    ensures closed <==> ReadDouble(line[start..]).Quoted?
    ensures closed ==> i == start + ReadDouble(line[start..]).used <= |line|
    ensures closed ==> w == before + ReadDouble(line[start..]).text
  {
    hide ReadDouble;
    i, w := start, before;
    ghost var text := "";
    while i < |line|
      invariant start <= i <= |line| && w == before + text
      invariant ReadDouble(line[start..]) == More(text, i - start, ReadDouble(line[i..]))
    {
      var c := line[i];
      DoubleUnfold(line, i);
      if c == '"' {
        return i + 1, w, true;
      }
      if c == '\\' {
        if i + 1 == |line| {
          return i, w, false;
        }
        var d := line[i + 1];
        MoreMore(text, i - start, ItemValue(Slash(d)), 2, ReadDouble(line[i + 2..]));
        text := text + ItemValue(Slash(d));
        if d == '"' || d == '\\' {
          w := w + [d];
        } else {
          w := w + ['\\'];
          w := w + [d];
        }
        i := i + 2;
      } else {
        MoreMore(text, i - start, [c], 1, ReadDouble(line[i + 1..]));
        text := text + [c];
        w := w + [c];
        i := i + 1;
      }
    }
    closed := false;
    assert ReadDouble(line[i..]).Unterminated? by { DoubleEnd(line[i..]); }
  }

  lemma DoubleEnd(s: string)
    requires s == []
    ensures ReadDouble(s) == Unterminated
  {
  }

  /** One step of the outer loop, at a position of the line. */
  lemma RestUnfold(line: string, i: nat, word: Option<string>)
    requires i < |line|
    ensures
      var c, w := line[i], OrEmpty(word);
      Rest(line[i..], word) ==
        if IsWhitespace(c) then Prepend(Finish(word), Rest(line[i + 1..], None))
        else if c == '\'' then
          var q := ReadSingle(line[i + 1..]);
          if q.Unterminated? then Refused(UnterminatedSingle) else Rest(line[i + 1 + q.used..], Some(w + q.text))
        else if c == '"' then
          var q := ReadDouble(line[i + 1..]);
          if q.Unterminated? then Refused(UnterminatedDouble) else Rest(line[i + 1 + q.used..], Some(w + q.text))
        else if c == '\\' then
          if i + 1 == |line| then Refused(TrailingBackslash) else Rest(line[i + 2..], Some(w + [line[i + 1]]))
        else Rest(line[i + 1..], Some(w + [c]))
  {
    hide ReadSingle, ReadDouble, IsWhitespace;
    var s := line[i..];
    assert forall k :: 0 <= k <= |s| ==> s[k..] == line[i + k..];
  }

  /** `split_command`. */
  method SplitCommand(line: string) returns (r: Split)
    ensures r == Rest(line, None)
  {
    hide Rest, ReadSingle, ReadDouble, IsWhitespace;
    var words: seq<string> := [];
    var word: Option<string> := None;
    var i := 0;
    assert line[0..] == line;
    while i < |line|
      invariant i <= |line|
      invariant Rest(line, None) == Prepend(words, Rest(line[i..], word))
    {
      var c := line[i];
      RestUnfold(line, i, word);
      if IsWhitespace(c) {
        PrependTwice(words, Finish(word), Rest(line[i + 1..], None));
        words := words + Finish(word);
        word := None;
        i := i + 1;
      } else if c == '\'' {
        var j, w, closed := SingleQuoted(line, i + 1, OrEmpty(word));
        if !closed {
          return Refused(UnterminatedSingle);
        }
        word, i := Some(w), j;
      } else if c == '"' {
        var j, w, closed := DoubleQuoted(line, i + 1, OrEmpty(word));
        if !closed {
          return Refused(UnterminatedDouble);
        }
        word, i := Some(w), j;
      } else if c == '\\' {
        if i + 1 == |line| {
          return Refused(TrailingBackslash);
        }
        word := Some(OrEmpty(word) + [line[i + 1]]);
        i := i + 2;
      } else {
        word := Some(OrEmpty(word) + [c]);
        i := i + 1;
      }
    }
    assert line[i..] == "";
    EndReads(word);
    r := Words(words + Finish(word));
  }

  lemma PrependTwice(a: seq<string>, b: seq<string>, r: Split)
    ensures Prepend(a, Prepend(b, r)) == Prepend(a + b, r)
  {
    if r.Words? {
      assert a + (b + r.words) == a + b + r.words;
    }
  }
}

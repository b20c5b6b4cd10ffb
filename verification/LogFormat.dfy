/** The language of log format patterns: a recursive grammar, the printer that
    undoes it, and what formatting an event with a pattern means. */
module LogFormat {
  import opened Base

  /** One formatter item. `Field` stands for the items the program keeps in a table
      under a letter; `Percent` for the text item of a doubled percent sign. */
  datatype Item = Text(text: string) | Percent | Field(id: char) | Date(format: string)

  /** The letters the table of items knows (the percent sign is reached by `%%` only). */
  predicate Known(c: char) {
    c in {'m', 'c', 'L', 'l', 't', 'n', 'f', 'T', 'R'}
  }

  /** The position of the first `c`, or the length of the string. */
  function Find(s: string, c: char): (i: nat)
    ensures i <= |s|
    ensures forall k :: 0 <= k < i ==> s[k] != c
    ensures i < |s| ==> s[i] == c
  {
    if s == [] || s[0] == c then 0 else 1 + Find(s[1..], c)
  }

  /** The first construct of a nonempty pattern: the items it adds (none, for an
      unknown letter) and how many characters it takes; None when it is malformed. */
  datatype Head = Head(items: seq<Item>, length: nat)

  function First(p: string): (h: Option<Head>)
    requires p != []
    ensures h.Some? ==> 0 < h.value.length <= |p|
  {
    if p[0] != '%' then
      var n := Find(p, '%');
      Some(Head([Text(p[..n])], n))
    else if |p| == 1 then None
    else if p[1] == '%' then Some(Head([Percent], 2))
    else if p[1] == 'd' then
      if |p| == 2 || p[2] != '{' then None
      else
        var n := Find(p[3..], '}');
        if n == |p| - 3 then None else Some(Head([Date(p[3..3 + n])], n + 4))
    else if p[1] == '{' || p[1] == '}' then None
    else Some(Head(if Known(p[1]) then [Field(p[1])] else [], 2))
  }

  /** The items of a pattern, or None when the pattern is malformed. */
  function Parse(p: string): Option<seq<Item>> {
    if p == [] then Some([])
    else match First(p)
         case None => None
         case Some(h) =>
           match Parse(p[h.length..])
           case None => None
           case Some(rest) => Some(h.items + rest)
  }

  lemma ParseStep(p: string)
    requires p != []
    ensures Parse(p).Some? <==> First(p).Some? && Parse(p[First(p).value.length..]).Some?
    ensures Parse(p).Some? ==>
              Parse(p).value == First(p).value.items + Parse(p[First(p).value.length..]).value
  {
  }

  /** How many unknown letters an accepted pattern asks for. */
  function Dropped(p: string): nat {
    if p == [] || First(p).None? then 0
    else (if First(p).value.items == [] then 1 else 0) + Dropped(p[First(p).value.length..])
  }

  function PrintItem(item: Item): string {
    match item
    case Text(text) => text
    case Percent => "%%"
    case Field(id) => "%" + [id]
    case Date(format) => "%d{" + format + "}"
  }

  function Print(items: seq<Item>): string {
    if items == [] then [] else PrintItem(items[0]) + Print(items[1..])
  }

  // ------------------------------------------------------------------
  // The grammar, construct by construct

  /** The letters of the items, and what any other letter behind a percent sign comes to. */
  lemma LetterIsItem(c: char, rest: string)
    ensures c in {'m', 'c', 'L', 'l', 't', 'n', 'f', 'T', 'R'} ==>
              Parse("%" + [c] + rest) == if Parse(rest).None? then None else Some([Field(c)] + Parse(rest).value)
    ensures c !in {'m', 'c', 'L', 'l', 't', 'n', 'f', 'T', 'R', '%', 'd', '{', '}'} ==>
              Parse("%" + [c] + rest) == Parse(rest)
    ensures c == '%' ==>
              Parse("%" + [c] + rest) == if Parse(rest).None? then None else Some([Percent] + Parse(rest).value)
    ensures c in {'{', '}'} ==> Parse("%" + [c] + rest) == None
  {
    var p := "%" + [c] + rest;
    assert p[0] == '%' && p[1] == c && p[2..] == rest;
    assert Parse(rest).Some? ==> [] + Parse(rest).value == Parse(rest).value;
  }

  lemma LetterExactlyWhen(c: char)
    ensures Parse(['%', c]) == Some([Field(c)]) <==> c in {'m', 'c', 'L', 'l', 't', 'n', 'f', 'T', 'R'}
    ensures c !in {'m', 'c', 'L', 'l', 't', 'n', 'f', 'T', 'R', '%', 'd', '{', '}'} <==> Parse(['%', c]) == Some([])
  {
    LetterIsItem(c, []);
    assert ['%', c] == "%" + [c] + [];
    assert Parse([]) == Some([]) && [Field(c)] + [] == [Field(c)] && [Percent] + [] == [Percent];
    if c == 'd' {
      MissingRest([]);
      assert "%d" + [] == ['%', 'd'];
    }
  }

  /** A time format is what stands between the braces, up to the first closing one. */
  lemma DateIsItem(format: string, rest: string)
    requires '}' !in format
    ensures Parse("%d{" + format + "}" + rest)
         == if Parse(rest).None? then None else Some([Date(format)] + Parse(rest).value)
    ensures Parse("%d{" + format) == None
  {
    var p := "%d{" + format + "}" + rest;
    PrintedDateIsFirst(format, rest);
    assert p[|format| + 4..] == rest;
    ParseStep(p);
    var cut := "%d{" + format;
    assert cut[3..] == format && cut[0] == '%' && cut[1] == 'd' && cut[2] == '{';
    assert Find(format, '}') == |format|;
  }

  /** A percent sign at the end, and a `d` without an opening brace behind it, are malformed. */
  lemma MissingRest(rest: string)
    ensures Parse("%") == None
    ensures rest == [] || rest[0] != '{' ==> Parse("%d" + rest) == None
  {
    var p := "%d" + rest;
    assert p[0] == '%' && p[1] == 'd' && (rest != [] ==> p[2] == rest[0]);
  }

  // ------------------------------------------------------------------
  // Printing undoes parsing

  lemma {:induction false} PrintConcat(a: seq<Item>, b: seq<Item>)
    ensures Print(a + b) == Print(a) + Print(b)
  {
    hide PrintItem;
    if a == [] {
      assert a + b == b;
    } else {
      PrintConcat(a[1..], b);
      assert (a + b)[1..] == a[1..] + b;
      MoveBracket(PrintItem(a[0]), Print(a[1..]), Print(b));
    }
  }

  /** The first construct prints as itself, unless its letter is unknown. */
  lemma FirstPrints(p: string)
    requires p != [] && First(p).Some?
    ensures var h := First(p).value;
            if h.items == [] then h.length == 2 else |h.items| == 1 && Print(h.items) == p[..h.length]
  {
    var h := First(p).value;
    if h.items != [] {
      assert Print(h.items) == PrintItem(h.items[0]) + Print(h.items[1..]) == PrintItem(h.items[0]);
      if p[0] == '%' && p[1] == 'd' {
        var n := Find(p[3..], '}');
        assert p[..n + 4] == "%d{" + p[3..3 + n] + "}";
      }
    }
  }

  /** The printed items give the pattern back exactly when no letter was dropped;
      otherwise each dropped letter costs two characters. */
  lemma {:induction false} PrintAfterParse(p: string)
    requires Parse(p).Some?
    ensures |Print(Parse(p).value)| + 2 * Dropped(p) == |p|
    ensures Print(Parse(p).value) == p <==> Dropped(p) == 0
  {
    if p != [] {
      var h := First(p).value;
      var rest := p[h.length..];
      FirstPrints(p);
      PrintAfterParse(rest);
      PrintConcat(h.items, Parse(rest).value);
      assert p == p[..h.length] + rest;
    }
  }

  // ------------------------------------------------------------------
  // Parsing undoes printing

  predicate WellFormedItem(item: Item) {
    match item
    case Text(text) => text != [] && '%' !in text
    case Percent => true
    case Field(id) => Known(id)
    case Date(format) => '}' !in format
  }

  /** Items a pattern can denote without dropping anything: well formed, and no two texts in a row. */
  predicate Canonical(items: seq<Item>) {
    && (forall i :: 0 <= i < |items| ==> WellFormedItem(items[i]))
    && (forall i :: 0 <= i < |items| - 1 ==> !(items[i].Text? && items[i + 1].Text?))
  }

  lemma {:induction false} FindInConcat(a: string, b: string, c: char)
    requires c !in a
    ensures Find(a + b, c) == |a| + Find(b, c)
  {
    if a == [] {
      assert a + b == b;
    } else {
      FindInConcat(a[1..], b, c);
      assert (a + b)[1..] == a[1..] + b;
    }
  }

  lemma PrintedTextIsFirst(text: string, rest: string)
    requires WellFormedItem(Text(text)) && (rest == [] || rest[0] == '%')
    ensures First(text + rest) == Some(Head([Text(text)], |text|))
  {
    FindInConcat(text, rest, '%');
    assert (text + rest)[..|text|] == text;
  }

  lemma PrintedDateIsFirst(format: string, rest: string)
    requires '}' !in format
    ensures First("%d{" + format + "}" + rest) == Some(Head([Date(format)], |format| + 4))
  {
    var p := "%d{" + format + "}" + rest;
    assert p[3..] == format + ("}" + rest);
    FindInConcat(format, "}" + rest, '}');
    assert p[3..3 + |format|] == format;
  }

  lemma PrintedItemIsFirst(item: Item, rest: string)
    requires WellFormedItem(item)
    requires item.Text? ==> rest == [] || rest[0] == '%'
    ensures var p := PrintItem(item) + rest;
            p != [] && First(p) == Some(Head([item], |PrintItem(item)|)) && p[|PrintItem(item)|..] == rest
  {
    match item
    case Text(text) => PrintedTextIsFirst(text, rest);
    case Date(format) => PrintedDateIsFirst(format, rest);
    case Percent => assert ("%%" + rest)[1] == '%';
    case Field(id) => assert ("%" + [id] + rest)[1] == id;
  }

  lemma {:induction false} ParseAfterPrint(items: seq<Item>)
    requires Canonical(items)
    ensures Parse(Print(items)) == Some(items)
  {
    if items != [] {
      var rest := items[1..];
      ParseAfterPrint(rest);
      if rest != [] && items[0].Text? {
        assert !(items[0].Text? && items[0 + 1].Text?);
        assert rest[0] == items[1];
        assert Print(rest) == PrintItem(rest[0]) + Print(rest[1..]);
      }
      PrintedItemIsFirst(items[0], Print(rest));
      assert items == [items[0]] + rest;
    }
  }

  lemma FirstIsWellFormed(p: string)
    requires p != [] && First(p).Some?
    ensures forall i :: 0 <= i < |First(p).value.items| ==> WellFormedItem(First(p).value.items[i])
    ensures var h := First(p).value;
            h.items != [] && h.items[0].Text? ==> h.length == |p| || p[h.length] == '%'
  {
    if p[0] != '%' {
      var n := Find(p, '%');
      assert forall k :: 0 <= k < n ==> p[..n][k] == p[k];
    } else if |p| > 3 && p[1] == 'd' {
      var n := Find(p[3..], '}');
      assert forall k :: 0 <= k < n ==> p[3..3 + n][k] == p[3..][k];
    }
  }

  /** The pattern begins with something the printer could have printed. */
  ghost predicate BeginsPrinted(p: string) {
    exists item :: WellFormedItem(item) && PrintItem(item) <= p
  }

  /** A pattern has a first construct exactly when it begins as a printed item does, or with an unknown letter. */
  lemma FirstExactlyWhen(p: string)
    requires p != []
    ensures First(p).Some? <==>
            BeginsPrinted(p)
            || (|p| >= 2 && p[0] == '%' && p[1] !in {'%', 'd', '{', '}'} && !Known(p[1]))
  {
    if First(p).Some? {
      var h := First(p).value;
      FirstPrints(p);
      FirstIsWellFormed(p);
      if h.items != [] {
        var item := h.items[0];
        assert Print(h.items) == PrintItem(item) + Print(h.items[1..]) == PrintItem(item);
        assert PrintItem(item) <= p;
      }
    }
    if BeginsPrinted(p) {
      var item :| WellFormedItem(item) && PrintItem(item) <= p;
      var rest := p[|PrintItem(item)|..];
      assert p == PrintItem(item) + rest;
      if item.Text? {
        assert p[0] == item.text[0] && item.text[0] in item.text;
      } else {
        PrintedItemIsFirst(item, rest);
      }
    }
  }

  lemma PrependedIsCanonical(item: Item, tail: seq<Item>)
    requires WellFormedItem(item) && Canonical(tail)
    requires item.Text? && tail != [] ==> !tail[0].Text?
    ensures Canonical([item] + tail)
  {
    hide WellFormedItem;
    var items := [item] + tail;
    forall i | 0 <= i < |items| - 1 ensures !(items[i].Text? && items[i + 1].Text?) {
      if i > 0 {
        assert items[i] == tail[i - 1] && items[i + 1] == tail[i - 1 + 1];
      }
    }
  }

  /** What a pattern denotes is well formed, and canonical when nothing was dropped. */
  lemma {:induction false} ParsedIsCanonical(p: string)
    requires Parse(p).Some?
    ensures forall i :: 0 <= i < |Parse(p).value| ==> WellFormedItem(Parse(p).value[i])
    ensures Dropped(p) == 0 ==> Canonical(Parse(p).value)
    ensures Dropped(p) == 0 && p != [] && p[0] == '%' ==> !Parse(p).value[0].Text?
  {
    if p != [] {
      ParseStep(p);
      var h := First(p).value;
      var rest := p[h.length..];
      assert Dropped(p) == (if h.items == [] then 1 else 0) + Dropped(rest);
      assert p[0] == '%' && h.items != [] ==> !h.items[0].Text?;
      FirstIsWellFormed(p);
      FirstPrints(p);
      ParsedIsCanonical(rest);
      assert rest == [] ==> Parse(rest).value == [];
      hide Parse, First, Dropped, WellFormedItem, PrintItem, Print, Canonical;
      if Dropped(p) == 0 {
        assert h.items == [h.items[0]];
        PrependedIsCanonical(h.items[0], Parse(rest).value);
      }
    }
  }

  /** Exactly the canonical item lists survive printing and parsing. */
  lemma RoundTripExactlyWhen(items: seq<Item>)
    ensures Parse(Print(items)) == Some(items) <==> Canonical(items)
  {
    if Canonical(items) {
      ParseAfterPrint(items);
    }
    if Parse(Print(items)) == Some(items) {
      PrintAfterParse(Print(items));
      ParsedIsCanonical(Print(items));
    }
  }

  // ------------------------------------------------------------------
  // Formatting

  /** What the items read from a log event. `number` values are already in decimal. */
  datatype Event = Event(level: nat, message: string, logger: string, line: string, file: string,
                         thread: string, routine: string, time: int)

  function LevelName(level: nat): string {
    match level
    case 1 => "DEBUG"
    case 2 => "INFO"
    case 3 => "WARN"
    case 4 => "ERROR"
    case 5 => "FATAL"
    case _ => "UNKNOWN"
  }

  /** `strftime` is the library's rendering of a time under a time format. */
  function Render(item: Item, event: Event, strftime: (string, int) -> string): string {
    match item
    case Text(text) => text
    case Percent => "%"
    case Date(format) => strftime(format, event.time)
    case Field(id) =>
      match id
      case 'm' => event.message
      case 'c' => event.logger
      case 'L' => LevelName(event.level)
      case 'l' => event.line
      case 't' => "\t"
      case 'n' => "\r\n"
      case 'f' => event.file
      case 'T' => event.thread
      case 'R' => event.routine
      case _ => []
  }

  function Formatted(items: seq<Item>, event: Event, strftime: (string, int) -> string): string {
    if items == [] then []
    else Formatted(items[..|items| - 1], event, strftime) + Render(items[|items| - 1], event, strftime)
  }

  lemma {:induction false} FormattedConcat(a: seq<Item>, b: seq<Item>, event: Event, strftime: (string, int) -> string)
    ensures Formatted(a + b, event, strftime) == Formatted(a, event, strftime) + Formatted(b, event, strftime)
  {
    hide Render;
    if b == [] {
      assert a + b == a;
    } else {
      var b' := b[..|b| - 1];
      FormattedConcat(a, b', event, strftime);
      assert (a + b)[..|a + b| - 1] == a + b';
      MoveBracket(Formatted(a, event, strftime), Formatted(b', event, strftime),
                  Render(b[|b| - 1], event, strftime));
    }
  }

  // ------------------------------------------------------------------
  // Compositionality

  /** `r` formats every event as `a` followed by `b`. */
  ghost predicate Joins(r: seq<Item>, a: seq<Item>, b: seq<Item>) {
    forall event, strftime: (string, int) -> string ::
      Formatted(r, event, strftime) == Formatted(a, event, strftime) + Formatted(b, event, strftime)
  }

  lemma JoinsPrepended(head: seq<Item>, r: seq<Item>, a: seq<Item>, b: seq<Item>)
    requires Joins(r, a, b)
    ensures Joins(head + r, head + a, b)
  {
    forall event, strftime: (string, int) -> string
      ensures Formatted(head + r, event, strftime)
           == Formatted(head + a, event, strftime) + Formatted(b, event, strftime)
    {
      FormattedConcat(head, r, event, strftime);
      FormattedConcat(head, a, event, strftime);
      MoveBracket(Formatted(head, event, strftime), Formatted(a, event, strftime), Formatted(b, event, strftime));
    }
  }

  /** Two texts in a row format like the one text they make together. */
  lemma MergedTextJoins(t: string, u: string, rest: seq<Item>)
    ensures Joins([Text(t + u)] + rest, [Text(t)], [Text(u)] + rest)
  {
    forall event, strftime: (string, int) -> string
      ensures Formatted([Text(t + u)] + rest, event, strftime)
           == Formatted([Text(t)], event, strftime) + Formatted([Text(u)] + rest, event, strftime)
    {
      FormattedConcat([Text(t + u)], rest, event, strftime);
      FormattedConcat([Text(u)], rest, event, strftime);
      FormattedOne(Text(t + u), event, strftime);
      FormattedOne(Text(t), event, strftime);
      FormattedOne(Text(u), event, strftime);
      MoveBracket(t, u, Formatted(rest, event, strftime));
    }
  }

  lemma FormattedOne(item: Item, event: Event, strftime: (string, int) -> string)
    ensures Formatted([item], event, strftime) == Render(item, event, strftime)
  {
    assert [item][..0] == [];
    assert Formatted([item], event, strftime) == Formatted([], event, strftime) + Render(item, event, strftime);
  }

  /** What each item renders: the fields of the event letter by letter, the line end of the program,
      the names of the levels. */
  lemma ItemsRender(event: Event, strftime: (string, int) -> string, text: string)
    ensures Formatted([Text(text)], event, strftime) == text
    ensures Formatted([Percent], event, strftime) == "%"
    ensures Formatted([Date(text)], event, strftime) == strftime(text, event.time)
    ensures Formatted([Field('m')], event, strftime) == event.message
    ensures Formatted([Field('c')], event, strftime) == event.logger
    ensures Formatted([Field('l')], event, strftime) == event.line
    ensures Formatted([Field('f')], event, strftime) == event.file
    ensures Formatted([Field('T')], event, strftime) == event.thread
    ensures Formatted([Field('R')], event, strftime) == event.routine
    ensures Formatted([Field('t')], event, strftime) == "\t"
    ensures Formatted([Field('n')], event, strftime) == "\r\n"
    ensures Formatted([Field('L')], event, strftime) ==
            if event.level == 1 then "DEBUG" else if event.level == 2 then "INFO"
            else if event.level == 3 then "WARN" else if event.level == 4 then "ERROR"
            else if event.level == 5 then "FATAL" else "UNKNOWN"
  {
    FormattedOne(Text(text), event, strftime);
    FormattedOne(Percent, event, strftime);
    FormattedOne(Date(text), event, strftime);
    FormattedOne(Field('m'), event, strftime);
    FormattedOne(Field('c'), event, strftime);
    FormattedOne(Field('l'), event, strftime);
    FormattedOne(Field('f'), event, strftime);
    FormattedOne(Field('T'), event, strftime);
    FormattedOne(Field('R'), event, strftime);
    FormattedOne(Field('t'), event, strftime);
    FormattedOne(Field('n'), event, strftime);
    FormattedOne(Field('L'), event, strftime);
  }

  lemma NothingJoins(b: seq<Item>)
    ensures Joins(b, [], b)
  {
  }

  /** The first occurrence of a character does not move when more is appended behind it. */
  lemma FindIsLocal(s: string, more: string, c: char)
    requires Find(s, c) < |s|
    ensures Find(s + more, c) == Find(s, c)
    ensures (s + more)[..Find(s, c)] == s[..Find(s, c)]
  {
    var n := Find(s, c);
    assert s + more == s[..n] + (s[n..] + more);
    FindInConcat(s[..n], s[n..] + more, c);
  }

  /** More text after the pattern changes nothing about a construct that text cannot reach. */
  lemma FirstIsLocal(p: string, q: string)
    requires p != [] && First(p).Some? && (p[0] != '%' ==> First(p).value.length < |p|)
    ensures First(p + q) == First(p)
  {
    if p[0] != '%' {
      FindIsLocal(p, q, '%');
    } else if |p| > 3 && p[1] == 'd' {
      FindIsLocal(p[3..], q, '}');
      assert (p + q)[3..] == p[3..] + q;
      var n := Find(p[3..], '}');
      SliceOfTail(p + q, 3, n);
      SliceOfTail(p, 3, n);
    }
  }

  /** A run of text, up to the end or the next percent sign, is one item. */
  lemma LeadingText(p: string, rest: string)
    requires p != [] && '%' !in p && (rest == [] || rest[0] == '%')
    ensures Parse(p + rest).Some? <==> Parse(rest).Some?
    ensures Parse(rest).Some? ==> Parse(p + rest).value == [Text(p)] + Parse(rest).value
  {
    var r := p + rest;
    PrintedTextIsFirst(p, rest);
    ParseStep(r);
    assert r[|p|..] == rest;
  }

  lemma ParseText(p: string)
    requires p != [] && '%' !in p
    ensures Parse(p) == Some([Text(p)])
  {
    LeadingText(p, []);
    assert p + [] == p && [Text(p)] + [] == [Text(p)];
  }

  /** A pattern that is one run of text takes the text at the start of the next. */
  lemma TextMeetsText(p: string, u: string, rest: string)
    requires p != [] && '%' !in p && u != [] && '%' !in u && (rest == [] || rest[0] == '%')
    ensures Parse(p + u + rest).Some? <==> Parse(u + rest).Some?
    ensures Parse(u + rest).Some? ==> Joins(Parse(p + u + rest).value, [Text(p)], Parse(u + rest).value)
  {
    LeadingText(u, rest);
    LeadingText(p + u, rest);
    hide Parse, Joins;
    if Parse(rest).Some? {
      MergedTextJoins(p, u, Parse(rest).value);
    }
  }

  lemma TextMeetsConstruct(p: string, q: string)
    requires p != [] && '%' !in p && (q == [] || q[0] == '%')
    ensures Parse(p + q).Some? <==> Parse(q).Some?
    ensures Parse(q).Some? ==> Joins(Parse(p + q).value, [Text(p)], Parse(q).value)
  {
    LeadingText(p, q);
    hide Parse, Joins;
    if Parse(q).Some? {
      NothingJoins(Parse(q).value);
      JoinsPrepended([Text(p)], Parse(q).value, [], Parse(q).value);
      assert [Text(p)] + [] == [Text(p)];
    }
  }

  lemma TextMeetsPattern(p: string, q: string)
    requires p != [] && '%' !in p
    ensures Parse(p + q).Some? <==> Parse(q).Some?
    ensures Parse(q).Some? ==> Joins(Parse(p + q).value, [Text(p)], Parse(q).value)
  {
    hide Parse, Joins;
    var n := Find(q, '%');
    if n == 0 {
      TextMeetsConstruct(p, q);
    } else {
      TextMeetsText(p, q[..n], q[n..]);
      assert q == q[..n] + q[n..] && p + q == p + q[..n] + q[n..];
    }
  }

  /** A construct that the addition cannot reach stays the first one. */
  lemma ConstructStays(p: string, q: string)
    requires p != [] && '%' in p && First(p).Some?
    ensures var rest := p[First(p).value.length..];
            && (Parse(p + q).Some? <==> Parse(rest + q).Some?)
            && (Parse(rest + q).Some? ==> Parse(p + q).value == First(p).value.items + Parse(rest + q).value)
  {
    assert p[0] != '%' ==> First(p).value.length < |p|;
    hide Parse, First;
    var n := First(p).value.length;
    assert (p + q)[n..] == p[n..] + q;
    FirstIsLocal(p, q);
    hide Find, Known;
    ParseStep(p + q);
  }

  /** Appending to an accepted pattern: the whole is accepted exactly when the
      addition is, and then every event is formatted by the one and then the other,
      even where the text at the seam becomes a single item. */
  lemma {:induction false} ParseConcat(p: string, q: string)
    requires Parse(p).Some?
    ensures Parse(p + q).Some? <==> Parse(q).Some?
    ensures Parse(q).Some? ==> Joins(Parse(p + q).value, Parse(p).value, Parse(q).value)
  {
    assert p == [] ==> Parse(p) == Some([]);
    hide Parse, First, Joins;
    if p == [] {
      assert p + q == q;
      if Parse(q).Some? {
        NothingJoins(Parse(q).value);
      }
    } else if '%' !in p {
      ParseText(p);
      TextMeetsPattern(p, q);
    } else {
      ParseStep(p);
      ConstructStays(p, q);
      var h := First(p).value;
      var rest := p[h.length..];
      ParseConcat(rest, q);
      if Parse(q).Some? {
        JoinsPrepended(h.items, Parse(rest + q).value, Parse(rest).value, Parse(q).value);
      }
    }
  }
}

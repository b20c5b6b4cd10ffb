/** The formatter object: a table-driven machine of twelve states reads the pattern
    character by character, remembering a slice of it by its two ends. */
module LogFormatterObject {
  import opened Base
  import opened LogFormat

  datatype Sign = PercentSign | AlphaD | Brace | BackBrace | Other

  datatype State =
    | Start | TextBegin | TextKeep | PercentAfterText | SinglePercent | TryAddItem | DoublePercent
    | WaitBrace | TimeFormatBegin | TimeFormatKeep | TimeFormatEnd | Invalid

  function SignOf(c: char): Sign {
    match c
    case '%' => PercentSign
    case 'd' => AlphaD
    case '{' => Brace
    case '}' => BackBrace
    case _ => Other
  }

  /** One row of the transition table, a state per sign. */
  datatype Row = Row(percent: State, alphaD: State, brace: State, backBrace: State, other: State)

  function RowOf(st: State): Row {
    match st
    case Start => Row(SinglePercent, TextBegin, TextBegin, TextBegin, TextBegin)
    case TextBegin => Row(PercentAfterText, TextKeep, TextKeep, TextKeep, TextKeep)
    case TextKeep => Row(PercentAfterText, TextKeep, TextKeep, TextKeep, TextKeep)
    case PercentAfterText => Row(DoublePercent, WaitBrace, Invalid, Invalid, TryAddItem)
    case SinglePercent => Row(DoublePercent, WaitBrace, Invalid, Invalid, TryAddItem)
    case TryAddItem => Row(SinglePercent, TextBegin, TextBegin, TextBegin, TextBegin)
    case DoublePercent => Row(SinglePercent, TextBegin, TextBegin, TextBegin, TextBegin)
    case WaitBrace => Row(Invalid, Invalid, TimeFormatBegin, Invalid, Invalid)
    case TimeFormatBegin => Row(TimeFormatKeep, TimeFormatKeep, TimeFormatKeep, TimeFormatEnd, TimeFormatKeep)
    case TimeFormatKeep => Row(TimeFormatKeep, TimeFormatKeep, TimeFormatKeep, TimeFormatEnd, TimeFormatKeep)
    case TimeFormatEnd => Row(SinglePercent, TextBegin, TextBegin, TextBegin, TextBegin)
    case Invalid => Row(Invalid, Invalid, Invalid, Invalid, Invalid)
  }

  function Transform(st: State, c: char): State {
    var row := RowOf(st);
    match SignOf(c)
    case PercentSign => row.percent
    case AlphaD => row.alphaD
    case Brace => row.brace
    case BackBrace => row.backBrace
    case Other => row.other
  }

  // ------------------------------------------------------------------
  // How a state of the machine stands to the grammar

  predicate InText(st: State) {
    st.TextBegin? || st.TextKeep?
  }

  predicate AfterPercent(st: State) {
    st.PercentAfterText? || st.SinglePercent?
  }

  predicate InTime(st: State) {
    st.TimeFormatBegin? || st.TimeFormatKeep?
  }

  /** What the machine knows after `i` characters: where the construct it is in the
      middle of began, and what of it has been read. */
  predicate Knows(p: string, st: State, first: nat, i: nat) {
    && i <= |p| && !st.Invalid?
    && (InText(st) ==> first < i && '%' !in p[first..i])
    && (AfterPercent(st) ==> 1 <= i && p[i - 1] == '%')
    && (st.WaitBrace? ==> 2 <= i && p[i - 2] == '%' && p[i - 1] == 'd')
    && (InTime(st) ==> 2 <= first < i && p[first - 2] == '%' && p[first - 1] == 'd' && p[first] == '{'
                       && '}' !in p[first + 1..i])
  }

  /** Where the unfinished construct began. */
  function Begun(p: string, st: State, first: nat, i: nat): (b: nat)
    requires Knows(p, st, first, i)
    ensures b <= i
  {
    if InText(st) then first
    else if AfterPercent(st) then i - 1
    else if st.WaitBrace? then i - 2
    else if InTime(st) then first - 2
    else i
  }

  function Prepended(items: seq<Item>, rest: Option<seq<Item>>): Option<seq<Item>> {
    if rest.None? then None else Some(items + rest.value)
  }

  lemma PrependTwice(a: seq<Item>, b: seq<Item>, rest: Option<seq<Item>>)
    ensures Prepended(a, Prepended(b, rest)) == Prepended(a + b, rest)
  {
    if rest.Some? {
      MoveBracket(a, b, rest.value);
    }
  }

  lemma PrependNothing(rest: Option<seq<Item>>)
    ensures Prepended([], rest) == rest
  {
    assert rest.Some? ==> [] + rest.value == rest.value;
  }

  /** The items one transition adds. */
  function Added(p: string, st: State, first: nat, i: nat): seq<Item>
    requires Knows(p, st, first, i) && i < |p|
  {
    match Transform(st, p[i])
    case PercentAfterText => [Text(p[first..i])]
    case TryAddItem => if Known(p[i]) then [Field(p[i])] else []
    case DoublePercent => [Percent]
    case TimeFormatEnd => [Date(p[first + 1..i])]
    case _ => []
  }

  /** The left end of the slice after one transition. */
  function FirstAfter(st: State, first: nat, i: nat, st': State): nat {
    if st'.TextBegin? || st'.TimeFormatBegin? then i
    else if st'.PercentAfterText? || st'.TimeFormatEnd? then 0
    else first
  }

  lemma StillAbsent(p: string, from: nat, i: nat, c: char)
    requires from <= i < |p| && c !in p[from..i] && p[i] != c
    ensures c !in p[from..i + 1]
  {
    assert p[from..i + 1] == p[from..i] + [p[i]];
  }

  lemma KnowsMore(p: string, st: State, first: nat, i: nat)
    requires Knows(p, st, first, i) && i < |p| && !Transform(st, p[i]).Invalid?
    ensures Knows(p, Transform(st, p[i]), FirstAfter(st, first, i, Transform(st, p[i])), i + 1)
  {
    if InText(st) && p[i] != '%' {
      StillAbsent(p, first, i, '%');
    } else if InTime(st) && p[i] != '}' {
      StillAbsent(p, first + 1, i, '}');
    }
  }

  lemma TextEnds(p: string, first: nat, i: nat)
    requires first < i <= |p| && '%' !in p[first..i] && (i == |p| || p[i] == '%')
    ensures Parse(p[first..]) == Prepended([Text(p[first..i])], Parse(p[i..]))
  {
    assert p[first..] == p[first..i] + p[i..];
    LeadingText(p[first..i], p[i..]);
  }

  lemma PercentEnds(p: string, i: nat)
    requires 1 <= i < |p| && p[i - 1] == '%' && p[i] != 'd'
    ensures p[i] == '{' || p[i] == '}' ==> Parse(p[i - 1..]) == None
    ensures p[i] == '%' ==> Parse(p[i - 1..]) == Prepended([Percent], Parse(p[i + 1..]))
    ensures p[i] != '%' && p[i] != '{' && p[i] != '}' ==>
              Parse(p[i - 1..]) == Prepended(if Known(p[i]) then [Field(p[i])] else [], Parse(p[i + 1..]))
  {
    var q := p[i - 1..];
    assert q[0] == '%' && q[1] == p[i] && q[2..] == p[i + 1..];
    ParseStep(q);
  }

  lemma TimeEnds(p: string, first: nat, i: nat)
    requires 2 <= first < i < |p| && p[first - 2] == '%' && p[first - 1] == 'd' && p[first] == '{'
    requires '}' !in p[first + 1..i] && p[i] == '}'
    ensures Parse(p[first - 2..]) == Prepended([Date(p[first + 1..i])], Parse(p[i + 1..]))
  {
    var q, format := p[first - 2..], p[first + 1..i];
    assert q == "%d{" + format + "}" + p[i + 1..];
    PrintedDateIsFirst(format, p[i + 1..]);
    ParseStep(q);
    assert q[|format| + 4..] == p[i + 1..];
  }

  lemma BraceIsMissing(p: string, i: nat)
    requires 2 <= i <= |p| && p[i - 2] == '%' && p[i - 1] == 'd' && (i < |p| ==> p[i] != '{')
    ensures Parse(p[i - 2..]) == None
  {
    var q := p[i - 2..];
    assert q[0] == '%' && q[1] == 'd';
  }

  predicate Completes(st: State) {
    st.PercentAfterText? || st.TryAddItem? || st.DoublePercent? || st.TimeFormatEnd?
  }

  /** A transition that completes nothing adds nothing and leaves the beginning where it was. */
  lemma BeginningKept(p: string, st: State, first: nat, i: nat)
    requires Knows(p, st, first, i) && i < |p|
    requires !Transform(st, p[i]).Invalid? && !Completes(Transform(st, p[i]))
    ensures var st' := Transform(st, p[i]);
            var first' := FirstAfter(st, first, i, st');
            && Knows(p, st', first', i + 1) && Begun(p, st', first', i + 1) == Begun(p, st, first, i)
            && Added(p, st, first, i) == []
  {
    KnowsMore(p, st, first, i);
  }

  /** A transition that completes a construct adds its item and begins behind it. */
  lemma ConstructCompleted(p: string, st: State, first: nat, i: nat)
    requires Knows(p, st, first, i) && i < |p| && Completes(Transform(st, p[i]))
    ensures Parse(p[Begun(p, st, first, i)..])
         == Prepended(Added(p, st, first, i), Parse(p[if Transform(st, p[i]).PercentAfterText? then i else i + 1..]))
  {
    hide Parse, First;
    match Transform(st, p[i])
    case PercentAfterText => TextEnds(p, first, i);
    case TimeFormatEnd => TimeEnds(p, first, i);
    case _ => PercentEnds(p, i);
  }

  lemma Malformed(p: string, st: State, first: nat, i: nat)
    requires Knows(p, st, first, i) && i < |p| && Transform(st, p[i]).Invalid?
    ensures Parse(p[Begun(p, st, first, i)..]) == None
  {
    hide Parse, First;
    if st.WaitBrace? {
      BraceIsMissing(p, i);
    } else {
      PercentEnds(p, i);
    }
  }

  /** Each transition keeps what the pattern denotes: the items so far, then what the
      grammar makes of the rest from where the unfinished construct began. */
  lemma TransitionFollowsGrammar(p: string, st: State, first: nat, i: nat)
    requires Knows(p, st, first, i) && i < |p|
    ensures var st' := Transform(st, p[i]);
            if st'.Invalid? then Parse(p[Begun(p, st, first, i)..]) == None
            else
              && Knows(p, st', FirstAfter(st, first, i, st'), i + 1)
              && Parse(p[Begun(p, st, first, i)..])
                 == Prepended(Added(p, st, first, i), Parse(p[Begun(p, st', FirstAfter(st, first, i, st'), i + 1)..]))
  {
    hide Parse, First, Added, Prepended, Transform;
    var st' := Transform(st, p[i]);
    if st'.Invalid? {
      Malformed(p, st, first, i);
    } else {
      KnowsMore(p, st, first, i);
      if Completes(st') {
        ConstructCompleted(p, st, first, i);
      } else {
        BeginningKept(p, st, first, i);
        PrependNothing(Parse(p[Begun(p, st, first, i)..]));
      }
    }
  }

  /** At the end of the pattern a text is complete, and any other open construct is malformed. */
  lemma EndFollowsGrammar(p: string, st: State, first: nat)
    requires Knows(p, st, first, |p|)
    ensures var rest := Parse(p[Begun(p, st, first, |p|)..]);
            if InText(st) then rest == Some([Text(p[first..])])
            else if AfterPercent(st) || st.WaitBrace? || InTime(st) then rest == None
            else rest == Some([])
  {
    if InText(st) {
      assert p[first..|p|] == p[first..];
      ParseText(p[first..]);
    } else if st.WaitBrace? {
      BraceIsMissing(p, |p|);
    } else if InTime(st) {
      var q := p[first - 2..];
      assert q[0] == '%' && q[1] == 'd' && q[2] == '{' && q[3..] == p[first + 1..];
      assert p[first + 1..|p|] == p[first + 1..];
      assert Find(q[3..], '}') == |q| - 3;
    } else if AfterPercent(st) {
      assert p[|p| - 1..] == ['%'];
    }
  }

  // ------------------------------------------------------------------

  class LogFormatter {
    const pattern: string
    var items: seq<Item>

    constructor (pattern: string)
      ensures this.pattern == pattern && items == []
    {
      this.pattern := pattern;
      items := [];
    }

    method HandleTryAddItemState(c: char) returns (known: bool)
      modifies this
      ensures known <==> c in {'m', 'c', 'L', 'l', 't', 'n', 'f', 'T', 'R'}
      ensures known == Known(c)
      ensures items == old(items) + (if known then [Field(c)] else [])
    {
      known := Known(c);
      if known {
        items := items + [Field(c)];
      }
    }

    /** `ok` is false when the program throws. The items are then of no use, since no
        formatter comes into being. */
    method Init() returns (ok: bool)
      requires items == []
      modifies this
      ensures ok <==> Parse(pattern).Some?
      ensures ok ==> items == Parse(pattern).value
    {
      hide Parse, First, Known, SignOf, Find;
      var state := Start;
      var first, second := 0, 0;
      var i := 0;
      assert pattern[0..] == pattern;
      PrependNothing(Parse(pattern));
      while i < |pattern|
        invariant Knows(pattern, state, first, i)
        invariant Parse(pattern) == Prepended(items, Parse(pattern[Begun(pattern, state, first, i)..]))
      {
        ghost var before, st, first0 := items, state, first;
        TransitionFollowsGrammar(pattern, state, first, i);
        ghost var added := Added(pattern, state, first, i);
        state := Transform(state, pattern[i]);
        match state {
        case TextBegin => first := i;
        case TimeFormatBegin => first := i;
        case PercentAfterText =>
          second := i;
          items := items + [Text(pattern[first..second])];
          first, second := 0, 0;
        case TryAddItem =>
          var known := HandleTryAddItemState(pattern[i]);
        case DoublePercent => items := items + [Percent];
        case TimeFormatEnd =>
          second := i;
          items := items + [Date(pattern[first + 1..second])];
          first, second := 0, 0;
        case Invalid => return false;
        case _ =>
        }
        assert items == before + added && first == FirstAfter(st, first0, i, state);
        PrependTwice(before, added, Parse(pattern[Begun(pattern, state, first, i + 1)..]));
        i := i + 1;
      }
      EndFollowsGrammar(pattern, state, first);
      if state == TextBegin || state == TextKeep {
        items := items + [Text(pattern[first..])];
      } else if state == PercentAfterText || state == SinglePercent || state == WaitBrace
                || state == TimeFormatBegin || state == TimeFormatKeep {
        return false;
      }
      ok := true;
    }

    method Format(event: Event, strftime: (string, int) -> string) returns (str: string)
      ensures str == Formatted(items, event, strftime)
    {
      str := [];
      for k := 0 to |items|
        invariant str == Formatted(items[..k], event, strftime)
      {
        assert items[..k + 1][..k] == items[..k];
        str := str + Render(items[k], event, strftime);
      }
      assert items[..|items|] == items;
    }
  }
}

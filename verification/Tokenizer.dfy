/** Splitting the `argv` and `environ` items into strings, `setup_charpparray` of
    file_system/file_system.c. */
module Tokenizer {
  import opened Prelude

  type Text = seq<CChar>

  predicate IsQuote(c: CChar) {
    c == QUOTE || c == DQUOTE
  }

  // ---------------------------------------------------------------- what a line means

  /** Where a reader stands: between arguments, in one, or in a quoted stretch of one. */
  datatype Mode = Between | Word(sofar: Text) | Quoted(sofar: Text, quote: CChar)

  /** Reads a line character by character; None if it ends inside quotes. */
  function Lex(line: Text, mode: Mode): Option<seq<Text>> {
    if line == [] then
      match mode
      case Between => Some([])
      case Word(w) => Some([w])
      case Quoted(_, _) => None
    else
      var c, rest := line[0], line[1..];
      match mode
      case Between =>
        if c == SPACE then Lex(rest, Between)
        else if IsQuote(c) then Lex(rest, Quoted([], c))
        else Lex(rest, Word([c]))
      case Word(w) =>
        if c == SPACE then Prepend(w, Lex(rest, Between))
        else if IsQuote(c) then Lex(rest, Quoted(w, c))
        else Lex(rest, Word(w + [c]))
      case Quoted(w, q) =>
        if c == q then Lex(rest, Word(w)) else Lex(rest, Quoted(w + [c], q))
  }

  function Prepend(w: Text, more: Option<seq<Text>>): Option<seq<Text>> {
    if more.None? then None else Some([w] + more.value)
  }

  function Tokens(line: Text): Option<seq<Text>> {
    Lex(line, Between)
  }

  // ---------------------------------------------------------------- one argument, as the loops see it

  /** Index after the argument that continues at `i`, inside quote `q` if any; past the end of the
      line by one when a quote is never closed. */
  function ArgEnd(line: Text, i: nat, q: Option<CChar>): (e: nat)
    requires i <= |line|
    ensures i <= e <= |line| + 1
    ensures q.None? ==> (e == i <==> i == |line| || line[i] == SPACE)
    ensures q.Some? ==> e > i
    decreases |line| - i
  {
    match q
    case None =>
      if i == |line| || line[i] == SPACE then i
      else if IsQuote(line[i]) then ArgEnd(line, i + 1, Some(line[i]))
      else ArgEnd(line, i + 1, None)
    case Some(c) =>
      if i == |line| then i + 1
      else ArgEnd(line, i + 1, if line[i] == c then None else q)
  }

  /** The characters of that argument, without the quotes. */
  function ArgText(line: Text, i: nat, q: Option<CChar>): Text
    requires i <= |line|
    decreases |line| - i
  {
    match q
    case None =>
      if i == |line| || line[i] == SPACE then []
      else if IsQuote(line[i]) then ArgText(line, i + 1, Some(line[i]))
      else [line[i]] + ArgText(line, i + 1, None)
    case Some(c) =>
      if i == |line| then []
      else if line[i] == c then ArgText(line, i + 1, None)
      else [line[i]] + ArgText(line, i + 1, q)
  }

  function SpacesEnd(line: Text, i: nat): (e: nat)
    requires i <= |line|
    ensures i <= e <= |line| && (e < |line| ==> line[e] != SPACE)
    decreases |line| - i
  {
    if i < |line| && line[i] == SPACE then SpacesEnd(line, i + 1) else i
  }

  /** How many arguments start at or after `i`. */
  function ArgCount(line: Text, i: nat): nat
    decreases |line| - i
  {
    if i > |line| then 0
    else
      var s := SpacesEnd(line, i);
      if s == |line| then 0 else 1 + ArgCount(line, ArgEnd(line, s, None))
  }

  lemma {:induction false} LexArgument(line: Text, i: nat, q: Option<CChar>, w: Text)
    requires i <= |line|
    ensures var e, t := ArgEnd(line, i, q), ArgText(line, i, q);
            Lex(line[i..], if q.None? then Word(w) else Quoted(w, q.value)) ==
            if e > |line| then None else Prepend(w + t, Tokens(line[e..]))
    decreases |line| - i
  {
    var t := ArgText(line, i, q);
    if i < |line| {
      var c := line[i];
      assert line[i..][0] == c && line[i..][1..] == line[i + 1..];
      if q.None? && c == SPACE {
        assert w + [] == w;
      } else if q.None? && IsQuote(c) {
        LexArgument(line, i + 1, Some(c), w);
      } else if q.Some? && c == q.value {
        LexArgument(line, i + 1, None, w);
      } else {
        LexArgument(line, i + 1, q, w + [c]);
        assert w + [c] + ArgText(line, i + 1, q) == w + t;
      }
    } else {
      assert line[i..] == [] && w + [] == w && [w] + [] == [w];
    }
  }

  lemma {:induction false} LexSpaces(line: Text, i: nat)
    requires i <= |line|
    ensures Tokens(line[i..]) == Tokens(line[SpacesEnd(line, i)..])
    decreases |line| - i
  {
    if i < |line| && line[i] == SPACE {
      assert line[i..][1..] == line[i + 1..];
      LexSpaces(line, i + 1);
    }
  }

  /** The tokens from `i` on: nothing, or one argument and the tokens after it. */
  lemma TokensStep(line: Text, i: nat)
    requires i <= |line|
    ensures var s := SpacesEnd(line, i);
            Tokens(line[i..]) ==
            if s == |line| then Some([])
            else
              var e := ArgEnd(line, s, None);
              if e > |line| then None else Prepend(ArgText(line, s, None), Tokens(line[e..]))
  {
    var s := SpacesEnd(line, i);
    LexSpaces(line, i);
    if s < |line| {
      var l := line[s..];
      assert Lex(l, Between) == Lex(l, Word([])) by {
        assert [] + [l[0]] == [l[0]];
      }
      LexArgument(line, s, None, []);
      assert [] + ArgText(line, s, None) == ArgText(line, s, None);
    } else {
      assert line[s..] == [];
    }
  }

  // ---------------------------------------------------------------- the code

  /** `OutOfBounds`: the copy loop reads past the end of the item. */
  datatype Tokenized = Args(entries: nat, argv: seq<Option<Text>>) | OutOfBounds

  method SkipSpaces(line: Text, start: nat) returns (i: nat)
    requires start <= |line|
    ensures i == SpacesEnd(line, start)
  {
    i := start;
    while i < |line| && line[i] == SPACE
      invariant start <= i <= |line| && SpacesEnd(line, i) == SpacesEnd(line, start)
    {
      i := i + 1;
    }
  }

  /** The inner loop of the first pass over one argument. */
  method SkipArgument(line: Text, start: nat) returns (i: nat)
    requires start <= |line|
    ensures i == ArgEnd(line, start, None)
  {
    i := start;
    while i < |line| && line[i] != SPACE
      invariant start <= i <= |line| + 1
      invariant if i <= |line| then ArgEnd(line, i, None) == ArgEnd(line, start, None)
                else ArgEnd(line, start, None) == i
    {
      if IsQuote(line[i]) {
        var escape := line[i];
        i := i + 1;
        while i < |line| && line[i] != escape
          invariant start < i <= |line|
          invariant ArgEnd(line, i, Some(escape)) == ArgEnd(line, start, None)
        {
          i := i + 1;
        }
      }
      i := i + 1;
    }
  }

  /** The first pass: the number of arguments. */
  method CountArguments(line: Text) returns (arguments: nat)
    ensures arguments == ArgCount(line, 0)
  {
    arguments := 0;
    var i := 0;
    while i < |line|
      invariant i <= |line| + 1 && arguments + ArgCount(line, i) == ArgCount(line, 0)
      decreases |line| + 1 - i
    {
      i := SkipSpaces(line, i);
      if i >= |line| {
        break;
      }
      arguments := arguments + 1;
      i := SkipArgument(line, i);
    }
  }

  /** The loop of the second pass that counts the characters of one argument. */
  method MeasureArgument(line: Text, start: nat) returns (i: nat, count: nat)
    requires start <= |line|
    ensures i == ArgEnd(line, start, None) && count == |ArgText(line, start, None)|
  {
    i, count := start, 0;
    while i < |line| && line[i] != SPACE
      invariant start <= i <= |line| + 1
      invariant if i <= |line|
                then ArgEnd(line, i, None) == ArgEnd(line, start, None) &&
                     count + |ArgText(line, i, None)| == |ArgText(line, start, None)|
                else ArgEnd(line, start, None) == i && count == |ArgText(line, start, None)|
    {
      if IsQuote(line[i]) {
        var escape := line[i];
        i := i + 1;
        while i < |line| && line[i] != escape
          invariant start < i <= |line|
          invariant ArgEnd(line, i, Some(escape)) == ArgEnd(line, start, None)
          invariant count + |ArgText(line, i, Some(escape))| == |ArgText(line, start, None)|
        {
          count := count + 1;
          i := i + 1;
        }
      } else {
        count := count + 1;
      }
      i := i + 1;
    }
  }

  method Put(target: array<CChar>, copied: nat, c: CChar)
    requires copied + 1 < target.Length
    modifies target
    ensures target[..copied + 1] == old(target[..copied]) + [c]
    ensures target[target.Length - 1] == old(target[target.Length - 1])
  {
    target[copied] := c;
    assert target[..copied + 1] == target[..copied] + [c];
  }

  /** `target` holds `text` as far as `copied`, and the characters still missing are `more`. */
  predicate Partial(target: array<CChar>, copied: nat, more: Text, text: Text)
    reads target
  {
    && target.Length == |text| + 1 && target[|text|] == NUL
    && copied <= |text| && target[..copied] + more == text
  }

  lemma Room(done: Text, c: CChar, more: Text, text: Text)
    requires done + ([c] + more) == text
    ensures |done| < |text| && (done + [c]) + more == text
  {
  }

  /** The quoted stretch of an argument, up to the closing quote or the end of the line. */
  method CopyQuoted(line: Text, from: nat, end: nat, escape: CChar, target: array<CChar>, before: nat, ghost text: Text)
    returns (i: nat, copied: nat)
    requires from <= |line| && end == ArgEnd(line, from, Some(escape))
    requires Partial(target, before, ArgText(line, from, Some(escape)), text)
    modifies target
    ensures from <= i <= |line| && end == ArgEnd(line, i, Some(escape))
    ensures i == |line| || line[i] == escape
    ensures Partial(target, copied, ArgText(line, i, Some(escape)), text)
  {
    i, copied := from, before;
    while i < end && i < |line| && line[i] != escape
      invariant from <= i <= |line| && end == ArgEnd(line, i, Some(escape))
      invariant Partial(target, copied, ArgText(line, i, Some(escape)), text)
    {
      Room(target[..copied], line[i], ArgText(line, i + 1, Some(escape)), text);
      Put(target, copied, line[i]);
      copied := copied + 1;
      i := i + 1;
    }
  }

  /** The loop of the second pass that copies one argument; not ok if it reads past the line. */
  method CopyArgument(line: Text, start: nat, end: nat, target: array<CChar>) returns (ok: bool)
    requires start <= |line| && end == ArgEnd(line, start, None)
    requires target.Length == |ArgText(line, start, None)| + 1
    modifies target
    ensures ok <==> end <= |line|
    ensures ok ==> target[..target.Length - 1] == ArgText(line, start, None) && target[target.Length - 1] == NUL
  {
    ghost var text := ArgText(line, start, None);
    target[target.Length - 1] := NUL;
    var i: nat, copied: nat := start, 0;
    while i < end
      invariant start <= i <= |line| && i <= end == ArgEnd(line, i, None)
      invariant Partial(target, copied, ArgText(line, i, None), text)
    {
      if IsQuote(line[i]) {
        var escape := line[i];
        i, copied := CopyQuoted(line, i + 1, end, escape, target, copied, text);
        if i == |line| {
          return false;
        }
      } else {
        Room(target[..copied], line[i], ArgText(line, i + 1, None), text);
        Put(target, copied, line[i]);
        copied := copied + 1;
      }
      i := i + 1;
    }
    assert ArgText(line, i, None) == [];
    assert target[..copied] == text;
    ok := true;
  }

  /** The string pointers with the NULL after the last. */
  function Terminated(tokens: seq<Text>): seq<Option<Text>> {
    seq(|tokens| + 1, k requires 0 <= k <= |tokens| => if k < |tokens| then Some(tokens[k]) else None)
  }

  lemma IsTerminated(argv: seq<Option<Text>>, done: seq<Text>)
    requires |argv| == |done| + 1 && argv[|done|] == None && forall k | 0 <= k < |done| :: argv[k] == Some(done[k])
    ensures argv == Terminated(done)
  {
  }

  function After(done: seq<Text>, more: Option<seq<Text>>): Option<seq<Text>> {
    if more.None? then None else Some(done + more.value)
  }

  lemma AfterStep(done: seq<Text>, w: Text, more: Option<seq<Text>>)
    ensures After(done, Prepend(w, more)) == After(done + [w], more)
  {
    if more.Some? {
      assert done + ([w] + more.value) == done + [w] + more.value;
    }
  }

  /** The second pass over one argument: measure, allocate, copy. */
  method ReadArgument(line: Text, start: nat) returns (ok: bool, end: nat, text: Text)
    requires start <= |line|
    ensures end == ArgEnd(line, start, None) && (ok <==> end <= |line|)
    ensures ok ==> text == ArgText(line, start, None)
  {
    var count;
    end, count := MeasureArgument(line, start);
    var target := new CChar[count + 1];
    ok := CopyArgument(line, start, end, target);
    text := target[..count];
  }

  lemma EndOfLine(line: Text, done: seq<Text>)
    ensures After(done, Tokens(line[|line|..])) == Some(done)
    ensures ArgCount(line, |line|) == 0
  {
    assert line[|line|..] == [] && done + [] == done;
  }

  lemma AllTokens(line: Text)
    ensures Tokens(line) == After([], Tokens(line[0..]))
  {
    assert line[0..] == line;
    if Tokens(line).Some? {
      assert [] + Tokens(line).value == Tokens(line).value;
    }
  }

  /** The first strings are in place, and the last pointer is NULL. */
  predicate Filled(strings: array<Option<Text>>, done: seq<Text>)
    reads strings
  {
    && |done| < strings.Length && strings[strings.Length - 1] == None
    && forall k | 0 <= k < |done| :: strings[k] == Some(done[k])
  }

  method StoreString(strings: array<Option<Text>>, current: nat, text: Text, ghost done: seq<Text>)
    requires Filled(strings, done) && current == |done| < strings.Length - 1
    modifies strings
    ensures Filled(strings, done + [text])
  {
    strings[current] := Some(text);
  }

  /** The second pass: fills the pointers the first pass has made room for. */
  method FillStrings(line: Text, arguments: nat) returns (ok: bool, argv: seq<Option<Text>>)
    requires arguments == ArgCount(line, 0)
    ensures ok <==> Tokens(line).Some?
    ensures ok ==> |Tokens(line).value| == arguments && argv == Terminated(Tokens(line).value)
  {
    var strings := new Option<Text>[arguments + 1](_ => None);
    ghost var done: seq<Text> := [];
    var i, current := 0, 0;
    AllTokens(line);
    while i < |line|
      invariant i <= |line| && current == |done| && current + ArgCount(line, i) == arguments
      invariant Tokens(line) == After(done, Tokens(line[i..]))
      invariant Filled(strings, done)
      decreases |line| - i
    {
      TokensStep(line, i);
      i := SkipSpaces(line, i);
      if i >= |line| {
        break;
      }
      var whole, end, text := ReadArgument(line, i);
      if !whole {
        return false, [];
      }
      AfterStep(done, text, Tokens(line[end..]));
      StoreString(strings, current, text, done);
      done := done + [text];
      current := current + 1;
      i := end;
    }
    EndOfLine(line, done);
    ok, argv := true, strings[..];
    IsTerminated(argv, done);
  }

  /** setup_charpparray: both passes agree on how many arguments there are, and the strings are the
      tokens of the line; the copy runs past the item exactly when a quote is left open. */
  method SetupCharPPArray(line: Text) returns (r: Tokenized)
    ensures Tokens(line).None? ==> r == OutOfBounds
    ensures Tokens(line).Some? ==> r == Args(|Tokens(line).value|, Terminated(Tokens(line).value))
  {
    if |line| == 0 {
      return Args(0, [None]);
    }
    var arguments := CountArguments(line);
    var ok, argv := FillStrings(line, arguments);
    r := if ok then Args(arguments, argv) else OutOfBounds;
  }

  // ---------------------------------------------------------------- writing a line by the quoting rules

  /** A piece of an argument as the rules of README.md allow it to be written. */
  datatype Segment = Bare(c: CChar) | Single(text: Text) | Double(text: Text)

  predicate Writable(s: Segment) {
    match s
    case Bare(c) => c != SPACE && !IsQuote(c)
    case Single(text) => QUOTE !in text
    case Double(text) => DQUOTE !in text
  }

  function Written(s: Segment): Text {
    match s
    case Bare(c) => [c]
    case Single(text) => [QUOTE] + text + [QUOTE]
    case Double(text) => [DQUOTE] + text + [DQUOTE]
  }

  function Meaning(s: Segment): Text {
    match s
    case Bare(c) => [c]
    case Single(text) => text
    case Double(text) => text
  }

  function WrittenAll(segments: seq<Segment>): Text {
    if segments == [] then [] else Written(segments[0]) + WrittenAll(segments[1..])
  }

  function MeaningAll(segments: seq<Segment>): Text {
    if segments == [] then [] else Meaning(segments[0]) + MeaningAll(segments[1..])
  }

  /** An argument and the spaces in front of it. */
  datatype Item = Item(spaces: nat, segments: seq<Segment>)

  predicate ItemOk(item: Item) {
    item.segments != [] && forall s | s in item.segments :: Writable(s)
  }

  function Spaces(n: nat): Text {
    seq(n, _ => SPACE)
  }

  /** A whole line: at least one space between arguments, any number before and after. */
  function Line(items: seq<Item>, trailing: nat): Text {
    if items == [] then Spaces(trailing)
    else Spaces(items[0].spaces) + WrittenAll(items[0].segments) + Line(items[1..], trailing)
  }

  predicate LineOk(items: seq<Item>) {
    && (forall item | item in items :: ItemOk(item))
    && (forall k | 0 < k < |items| :: items[k].spaces > 0)
  }

  function Meanings(items: seq<Item>): seq<Text> {
    if items == [] then [] else [MeaningAll(items[0].segments)] + Meanings(items[1..])
  }

  lemma {:induction false} LexQuotedText(text: Text, rest: Text, w: Text, q: CChar)
    requires q !in text
    ensures Lex(text + [q] + rest, Quoted(w, q)) == Lex(rest, Word(w + text))
  {
    var line := text + [q] + rest;
    if text == [] {
      assert line == [q] + rest && line[1..] == rest && w + [] == w;
    } else {
      assert line[1..] == text[1..] + [q] + rest;
      LexQuotedText(text[1..], rest, w + [text[0]], q);
      assert w + [text[0]] + text[1..] == w + text;
    }
  }

  lemma LexSegment(s: Segment, rest: Text, w: Text)
    requires Writable(s)
    ensures Lex(Written(s) + rest, Word(w)) == Lex(rest, Word(w + Meaning(s)))
  {
    var line := Written(s) + rest;
    match s
    case Bare(c) =>
      assert line[0] == c && line[1..] == rest;
    case Single(text) =>
      assert line[0] == QUOTE && line[1..] == text + [QUOTE] + rest;
      LexQuotedText(text, rest, w, QUOTE);
    case Double(text) =>
      assert line[0] == DQUOTE && line[1..] == text + [DQUOTE] + rest;
      LexQuotedText(text, rest, w, DQUOTE);
  }

  lemma {:induction false} LexSegments(segments: seq<Segment>, rest: Text, w: Text)
    requires forall s | s in segments :: Writable(s)
    ensures Lex(WrittenAll(segments) + rest, Word(w)) == Lex(rest, Word(w + MeaningAll(segments)))
  {
    if segments == [] {
      assert [] + rest == rest && w + [] == w;
    } else {
      var s, more := segments[0], segments[1..];
      assert WrittenAll(segments) + rest == Written(s) + (WrittenAll(more) + rest);
      LexSegment(s, WrittenAll(more) + rest, w);
      LexSegments(more, rest, w + Meaning(s));
      assert w + Meaning(s) + MeaningAll(more) == w + MeaningAll(segments);
    }
  }

  lemma {:induction false} LexLeadingSpaces(n: nat, rest: Text)
    ensures Tokens(Spaces(n) + rest) == Tokens(rest)
  {
    if n == 0 {
      assert Spaces(0) + rest == rest;
    } else {
      assert (Spaces(n) + rest)[0] == SPACE && (Spaces(n) + rest)[1..] == Spaces(n - 1) + rest;
      LexLeadingSpaces(n - 1, rest);
    }
  }

  lemma FirstSegment(segments: seq<Segment>)
    requires segments != [] && Writable(segments[0])
    ensures WrittenAll(segments) != [] && WrittenAll(segments)[0] != SPACE
  {
  }

  lemma BetweenIsEmptyWord(line: Text)
    requires line != [] && line[0] != SPACE
    ensures Tokens(line) == Lex(line, Word([]))
  {
    assert [] + [line[0]] == [line[0]];
  }

  /** What follows an argument ends it: the line is over or goes on with a space. */
  lemma WordEnds(w: Text, rest: Text)
    requires rest != [] ==> rest[0] == SPACE
    ensures Lex(rest, Word(w)) == Prepend(w, Tokens(rest))
  {
    if rest == [] {
      assert [w] + [] == [w];
    }
  }

  lemma LineStart(items: seq<Item>, trailing: nat)
    requires items != [] ==> items[0].spaces > 0
    ensures var l := Line(items, trailing); l != [] ==> l[0] == SPACE
  {
  }

  /** Whatever arguments are written, in whatever way the rules allow and however spaced, reading
      the line gives back exactly those arguments. */
  lemma {:induction false} LineReadsBack(items: seq<Item>, trailing: nat)
    requires LineOk(items)
    ensures Tokens(Line(items, trailing)) == Some(Meanings(items))
  {
    if items == [] {
      LexLeadingSpaces(trailing, []);
      assert Spaces(trailing) + [] == Spaces(trailing);
    } else {
      var item, more := items[0], items[1..];
      assert item in items && forall k | 0 <= k < |more| :: more[k] == items[k + 1];
      var rest, text := Line(more, trailing), WrittenAll(item.segments);
      LineReadsBack(more, trailing);
      LineStart(more, trailing);
      FirstSegment(item.segments);
      assert Line(items, trailing) == Spaces(item.spaces) + (text + rest);
      LexLeadingSpaces(item.spaces, text + rest);
      BetweenIsEmptyWord(text + rest);
      LexSegments(item.segments, rest, []);
      assert [] + MeaningAll(item.segments) == MeaningAll(item.segments);
      WordEnds(MeaningAll(item.segments), rest);
    }
  }

  /** Every argument can be written: character by character, in the quotes it is not. */
  function Quote(argument: Text): seq<Segment> {
    if argument == [] then [Single([])] else QuoteChars(argument)
  }

  function QuoteChars(argument: Text): seq<Segment> {
    if argument == [] then []
    else [if argument[0] == QUOTE then Double([argument[0]]) else Single([argument[0]])] + QuoteChars(argument[1..])
  }

  lemma {:induction false} QuoteCharsMeaning(argument: Text)
    ensures MeaningAll(QuoteChars(argument)) == argument
    ensures forall s | s in QuoteChars(argument) :: Writable(s)
  {
    if argument != [] {
      QuoteCharsMeaning(argument[1..]);
      var q := QuoteChars(argument);
      assert q[1..] == QuoteChars(argument[1..]);
      assert MeaningAll(q) == [argument[0]] + argument[1..];
    }
  }

  function QuotedItems(arguments: seq<Text>): (items: seq<Item>)
    ensures |items| == |arguments|
  {
    if arguments == [] then [] else [Item(1, Quote(arguments[0]))] + QuotedItems(arguments[1..])
  }

  lemma {:induction false} QuotedItemsOk(arguments: seq<Text>)
    ensures LineOk(QuotedItems(arguments)) && Meanings(QuotedItems(arguments)) == arguments
  {
    if arguments != [] {
      var a, items := arguments[0], QuotedItems(arguments);
      QuotedItemsOk(arguments[1..]);
      QuoteCharsMeaning(a);
      assert items[1..] == QuotedItems(arguments[1..]);
      assert ItemOk(items[0]);
      assert MeaningAll(Quote(a)) == a;
      assert forall k | 0 < k < |items| :: items[k] == items[1..][k - 1];
    }
  }

  /** Any list of arguments, empty ones included, survives quoting, joining and tokenizing. */
  lemma ArgumentsRoundTrip(arguments: seq<Text>)
    ensures Tokens(Line(QuotedItems(arguments), 0)) == Some(arguments)
  {
    QuotedItemsOk(arguments);
    LineReadsBack(QuotedItems(arguments), 0);
  }
}

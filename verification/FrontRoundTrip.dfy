/** What applying a template with its markers in place does to the front matter. */
module FrontRoundTrip {
  import opened Wrappers
  import opened Text
  import opened Placeholders
  import opened FrontTemplate

  // Markers as strings ---------------------------------------------------------------

  /** A name has no brackets and no line break. */
  predicate PlainName(name: string) {
    forall i | 0 <= i < |name| :: name[i] != '[' && name[i] != ']' && name[i] != '\n'
  }

  lemma KeyCharacters(s: string, j: int)
    requires OccursAt(s, KEY, j)
    ensures s[j] == '[' && s[j + 1] == '[' && s[j + 2] == '[' && s[j + 3] == 'F' && s[j + 4] == 'M' && s[j + 5] == '_'
  {
    var k := s[j..j + 6];
    assert k == KEY;
    assert forall i | 0 <= i < 6 :: s[j + i] == k[i];
  }

  lemma MarkCharacters(name: string, rest: string)
    ensures var s := Mark(name) + rest;
            && |Mark(name)| == |name| + 9
            && s[0] == '[' && s[1] == '[' && s[2] == '[' && s[3] == 'F' && s[4] == 'M' && s[5] == '_'
            && (forall k | 6 <= k < 6 + |name| :: s[k] == name[k - 6])
            && s[6 + |name|] == ']' && s[7 + |name|] == ']' && s[8 + |name|] == ']'
  {
    var s := Mark(name) + rest;
    var m := Mark(name);
    assert forall i | 0 <= i < |m| :: s[i] == m[i];
    assert forall k | 6 <= k < 6 + |name| :: m[k] == (name + "]]]")[k - 6] == name[k - 6];
    assert m[6 + |name|..] == "]]]";
    assert m[6 + |name|] == m[6 + |name|..][0] && m[7 + |name|] == m[6 + |name|..][1];
    assert m[8 + |name|] == m[6 + |name|..][2];
  }

  lemma MarkHasKey(s: string, name: string, j: int)
    requires OccursAt(s, Mark(name), j)
    ensures OccursAt(s, KEY, j)
  {
    OccursFirst(s, KEY, name + "]]]", j);
  }

  lemma OccursFirst(s: string, a: string, b: string, j: int)
    requires OccursAt(s, a + b, j)
    ensures OccursAt(s, a, j)
  {
    assert s[j..j + |a|] == s[j..j + |a + b|][..|a|] == (a + b)[..|a|] == a;
  }

  lemma ContainsMark(s: string, name: string)
    ensures Contains(s, Mark(name)) ==> Contains(s, KEY)
  {
    if j :| OccursAt(s, Mark(name), j) {
      MarkHasKey(s, name, j);
    }
    hide OccursAt, Mark;
  }

  lemma KeyInLiteral(lit: string, tail: string, j: nat)
    requires |tail| >= 3 && tail[0] == '[' && tail[1] == '[' && tail[2] == '['
    requires OccursAt(lit + tail, KEY, j) && j < |lit|
    ensures j + 6 <= |lit| && OccursAt(lit, KEY, j)
  {
    KeyCharacters(lit + tail, j);
    SumAt(lit, tail, |lit|);
    SumAt(lit, tail, |lit| + 1);
    SumAt(lit, tail, |lit| + 2);
    assert j + 6 <= |lit|;
    assert (lit + tail)[j..j + 6] == lit[j..j + 6];
  }

  /** No key starts in a literal that has none, before a marker. */
  lemma NoKeyBefore(lit: string, name: string, rest: string, j: nat)
    requires !Contains(lit, KEY) && j < |lit|
    ensures !OccursAt(lit + (Mark(name) + rest), KEY, j)
  {
    MarkCharacters(name, rest);
    hide Mark, OccursAt;
    if OccursAt(lit + (Mark(name) + rest), KEY, j) {
      KeyInLiteral(lit, Mark(name) + rest, j);
      assert false;
    }
  }

  /** Nor does one start inside a marker, but at its start. */
  lemma NoKeyInside(name: string, rest: string, j: nat)
    requires PlainName(name) && j < |Mark(name)| && OccursAt(Mark(name) + rest, KEY, j)
    ensures j == 0
  {
    MarkCharacters(name, rest);
    KeyCharacters(Mark(name) + rest, j);
    hide Mark;
  }

  /** A marker that starts where another one does is that one. */
  lemma SameMark(x: string, y: string, rest: string)
    requires PlainName(x) && PlainName(y) && OccursAt(Mark(y) + rest, Mark(x), 0)
    ensures x == y
  {
    var s := Mark(y) + rest;
    MarkCharacters(y, rest);
    MarkCharacters(x, s[|Mark(x)|..]);
    assert s[0..|Mark(x)|] == Mark(x);
    assert Mark(x) + s[|Mark(x)|..] == s;
    hide Mark;
    assert |x| == |y|;
    assert forall i | 0 <= i < |x| :: x[i] == s[6 + i] == y[i];
  }

  /** Over a literal and a marker, another marker does not occur. */
  lemma NotInPart(lit: string, y: string, rest: string, x: string, j: nat)
    requires !Contains(lit, KEY) && PlainName(x) && PlainName(y)
    requires j < |lit| + |Mark(y)| && OccursAt(lit + (Mark(y) + rest), Mark(x), j)
    ensures j == |lit| && x == y
  {
    hide Mark, PlainName;
    var s := lit + (Mark(y) + rest);
    MarkHasKey(s, x, j);
    if j < |lit| {
      NoKeyBefore(lit, y, rest, j);
    } else {
      OccurrenceInTail(lit, Mark(y) + rest, KEY, j);
      OccurrenceInTail(lit, Mark(y) + rest, Mark(x), j);
      NoKeyInside(y, rest, j - |lit|);
      SameMark(x, y, rest);
    }
  }

  /** The marker after a literal is found there. */
  lemma MarkIsFound(lit: string, x: string, rest: string)
    requires !Contains(lit, KEY) && PlainName(x)
    ensures Index(lit + (Mark(x) + rest), Mark(x)) == |lit|
    ensures (lit + (Mark(x) + rest))[..|lit|] == lit
    ensures (lit + (Mark(x) + rest))[|lit| + |Mark(x)|..] == rest
  {
    hide Mark, PlainName, Contains, Index;
    var s := lit + (Mark(x) + rest);
    assert s[|lit|..|lit| + |Mark(x)|] == Mark(x);
    assert OccursAt(s, Mark(x), |lit|);
    forall j: nat | j < |lit|
      ensures !OccursAt(s, Mark(x), j)
    {
      if OccursAt(s, Mark(x), j) {
        NotInPart(lit, x, rest, x, j);
        assert false;
      }
    }
    IndexIsFirst(s, Mark(x), |lit|);
  }

  // Names ------------------------------------------------------------------------------

  lemma NamesArePlain(m: Marker, end: string)
    requires PlainName(end)
    ensures PlainName(NameOf(m, end))
  {
    DigitsAreDigits(m.index);
    hide Digits;
    var a, b := Upper(m.field), Digits(m.index);
    assert PlainName(a);
    assert PlainName(b);
    PlainSum("_", end);
    PlainSum(b, "_" + end);
    PlainSum("_", b + ("_" + end));
    PlainSum(a, "_" + (b + ("_" + end)));
  }

  lemma PlainSum(a: string, b: string)
    requires PlainName(a) && PlainName(b)
    ensures PlainName(a + b)
  {
  }

  lemma NamesDiffer(m: Marker, n: Marker, s: string, t: string)
    requires NameOf(m, s) == NameOf(n, t) && s in {"START", "END"} && t in {"START", "END"}
    ensures m == n && s == t
  {
    var a, b := NameOf(m, s), NameOf(n, t);
    LastOfName(m, s);
    LastOfName(n, t);
    assert s == t;
    FirstOfName(m, s);
    FirstOfName(n, t);
    assert m.field == n.field;
    DigitsOfName(m, s);
    DigitsOfName(n, t);
    DigitsInjective(m.index, n.index);
    hide *;
  }

  lemma LastOfName(m: Marker, s: string)
    requires s != ""
    ensures NameOf(m, s)[|NameOf(m, s)| - 1] == s[|s| - 1]
  {
    hide Digits;
    var d := Digits(m.index) + ("_" + s);
    assert d[|d| - 1] == s[|s| - 1];
    assert NameOf(m, s) == (Upper(m.field) + "_") + d;
  }

  lemma FirstOfName(m: Marker, s: string)
    ensures NameOf(m, s)[0] == Upper(m.field)[0]
    ensures Upper(m.field)[0] == match m.field case Summary => 'S' case Title => 'T' case ReadWhen => 'R'
  {
    hide Digits;
  }

  lemma DigitsOfName(m: Marker, s: string)
    ensures var name := NameOf(m, s);
            var from, to := |Upper(m.field)| + 1, |NameOf(m, s)| - |s| - 1;
            0 <= from <= to <= |name| && name[from..to] == Digits(m.index)
  {
    hide Digits, Upper;
    var name := NameOf(m, s);
    var a, d, e := Upper(m.field) + "_", Digits(m.index), "_" + s;
    assert name == a + (d + e);
    SplitSum(a, d + e);
    SplitSum(d, e);
    assert name[|a|..][..|d|] == name[|a|..|a| + |d|];
  }

  // Lines ----------------------------------------------------------------------------------

  /** No key in what is around the markers. */
  predicate IsClean(l: Line)
  {
    match l
    case Marked(prefix, _, value) => Index(prefix, KEY) == -1 && Index(value, KEY) == -1
    case Plain(text) => Index(text, KEY) == -1
  }

  predicate AllClean(lines: seq<Line>) {
    forall i | 0 <= i < |lines| :: IsClean(lines[i])
  }

  predicate DistinctMarkers(lines: seq<Line>) {
    forall i, j | 0 <= i < j < |lines| && lines[i].Marked? && lines[j].Marked? :: lines[i].marker != lines[j].marker
  }

  /** A marker does not occur over a line of others, or the line break after it. */
  lemma NotInLine(l: Line, rest: string, m: Marker, s: string, j: nat)
    requires IsClean(l) && s in {"START", "END"} && (l.Marked? ==> l.marker != m)
    requires j < |LineText(l) + "\n"|
    ensures !OccursAt(LineText(l) + "\n" + rest, Mark(NameOf(m, s)), j)
  {
    hide Mark, NameOf, Index, OccursAt;
    match l {
      case Plain(text) =>
        var x := NameOf(m, s);
        NamesArePlain(m, s);
        IndexFacts(text, KEY);
        Assoc(text, "\n", rest);
        MarkIsOneLine(x);
        ContainsMark(text, x);
        if OccursAt(text + ("\n" + rest), Mark(x), j) {
          EarlierIsInside(text, "\n" + rest, Mark(x), j);
          assert false;
        }
      case Marked(prefix, n, value) =>
        IndexFacts(prefix, KEY);
        IndexFacts(value, KEY);
        NotInMarkedLine(prefix, n, value, rest, m, s, j);
    }
  }

  lemma MarkIsOneLine(x: string)
    requires PlainName(x)
    ensures Mark(x) != "" && '\n' !in Mark(x)
  {
    assert '\n' !in x;
  }

  lemma MarkedLineParts(prefix: string, a: string, value: string, b: string, rest: string)
    ensures prefix + (a + (value + b)) + "\n" + rest == prefix + (a + (value + (b + ("\n" + rest))))
  {
    Assoc(value, b, "\n" + rest);
    Assoc(a, value + b, "\n" + rest);
    Assoc(prefix, a + (value + b), "\n" + rest);
    Assoc(prefix + (a + (value + b)), "\n", rest);
  }

  lemma NotInMarkedLine(prefix: string, n: Marker, value: string, rest: string, m: Marker, s: string, j: nat)
    requires !Contains(prefix, KEY) && !Contains(value, KEY) && s in {"START", "END"} && m != n
    requires j < |LineText(Marked(prefix, n, value))| + 1
    ensures !OccursAt(LineText(Marked(prefix, n, value)) + "\n" + rest, Mark(NameOf(m, s)), j)
  {
    hide Mark, NameOf, OccursAt, Contains;
    var x, a, b := NameOf(m, s), NameOf(n, "START"), NameOf(n, "END");
    NamesArePlain(m, s);
    NamesArePlain(n, "START");
    NamesArePlain(n, "END");
    if x == a {
      NamesDiffer(m, n, s, "START");
    }
    if x == b {
      NamesDiffer(m, n, s, "END");
    }
    MarkedLineParts(prefix, Mark(a), value, Mark(b), rest);
    NotInTwoParts(prefix, a, value, b, rest, x, j);
  }

  lemma NotInTwoParts(prefix: string, a: string, value: string, b: string, rest: string, x: string, j: nat)
    requires !Contains(prefix, KEY) && !Contains(value, KEY)
    requires PlainName(x) && PlainName(a) && PlainName(b) && x != a && x != b
    requires j < |prefix| + |Mark(a)| + |value| + |Mark(b)| + 1
    ensures !OccursAt(prefix + (Mark(a) + (value + (Mark(b) + ("\n" + rest)))), Mark(x), j)
  {
    hide Mark, OccursAt, Contains, PlainName;
    var tail := Mark(b) + ("\n" + rest);
    if OccursAt(prefix + (Mark(a) + (value + tail)), Mark(x), j) {
      if j < |prefix| + |Mark(a)| {
        NotInPart(prefix, a, value + tail, x, j);
      } else {
        var k := j - |prefix| - |Mark(a)|;
        Assoc(prefix, Mark(a), value + tail);
        OccurrenceInTail(prefix + Mark(a), value + tail, Mark(x), j);
        if k < |value| + |Mark(b)| {
          NotInPart(value, b, "\n" + rest, x, k);
        } else {
          Assoc(value, Mark(b), "\n" + rest);
          OccurrenceInTail(value + Mark(b), "\n" + rest, Mark(x), k);
          StartsWithBracket(x, "\n" + rest);
        }
      }
      assert false;
    }
  }

  lemma StartsWithBracket(x: string, t: string)
    requires OccursAt(t, Mark(x), 0)
    ensures t != "" && t[0] == '['
  {
    MarkHasKey(t, x, 0);
    KeyCharacters(t, 0);
  }

  // Extraction -------------------------------------------------------------------------------

  /** Text in which the first marker does not occur does not matter. */
  lemma ExtractBehind(before: string, text: string, start: string, end: string)
    requires start != "" && forall j | 0 <= j < |before| :: !OccursAt(before + text, start, j)
    requires Extract(text, start, end).Success?
    ensures Extract(before + text, start, end) == Extract(text, start, end)
  {
    hide Index, OccursAt;
    IndexInTail(before, text, start);
    IndexFacts(text, start);
    var i := Index(text, start);
    assert (before + text)[|before| + i + |start|..] == text[i + |start|..];
  }

  lemma ExtractHere(prefix: string, m: Marker, value: string, rest: string)
    requires !Contains(prefix, KEY) && !Contains(value, KEY)
    ensures Extract(LineText(Marked(prefix, m, value)) + rest, StartOf(m), EndOf(m)) == Success(value)
  {
    hide Mark, NameOf, Index, Contains;
    var a, b := NameOf(m, "START"), NameOf(m, "END");
    NamesArePlain(m, "START");
    NamesArePlain(m, "END");
    Assoc(prefix, Mark(a) + (value + Mark(b)), rest);
    Assoc(Mark(a), value + Mark(b), rest);
    Assoc(value, Mark(b), rest);
    MarkIsFound(prefix, a, value + (Mark(b) + rest));
    MarkIsFound(value, b, rest);
  }

  lemma TextOfMore(lines: seq<Line>)
    requires |lines| > 1
    ensures TextOf(lines) == LineText(lines[0]) + "\n" + TextOf(lines[1..])
  {
  }

  lemma TextStarts(lines: seq<Line>) returns (rest: string)
    requires lines != []
    ensures TextOf(lines) == LineText(lines[0]) + rest
  {
    hide LineText;
    if |lines| == 1 {
      rest := "";
      NothingAdded(LineText(lines[0]));
    } else {
      rest := "\n" + TextOf(lines[1..]);
      Assoc(LineText(lines[0]), "\n", TextOf(lines[1..]));
    }
  }

  /** From the text of the lines every value comes back. */
  lemma {:induction false} ExtractFinds(lines: seq<Line>, k: nat)
    requires AllClean(lines) && DistinctMarkers(lines) && k < |lines| && lines[k].Marked?
    ensures Extract(TextOf(lines), StartOf(lines[k].marker), EndOf(lines[k].marker)) == Success(lines[k].value)
    decreases |lines|
  {
    var m := lines[k].marker;
    assert IsClean(lines[0]);
    hide Mark, NameOf, Index, TextOf, LineText, Extract, StartOf, EndOf;
    if k == 0 {
      IndexFacts(lines[0].prefix, KEY);
      IndexFacts(lines[0].value, KEY);
      var rest := TextStarts(lines);
      ExtractHere(lines[0].prefix, m, lines[0].value, rest);
    } else {
      TextOfMore(lines);
      assert lines[1..][k - 1] == lines[k];
      ExtractFinds(lines[1..], k - 1);
      var before := LineText(lines[0]) + "\n";
      StartIsMark(m);
      forall j | 0 <= j < |before|
        ensures !OccursAt(before + TextOf(lines[1..]), StartOf(m), j)
      {
        NotInLine(lines[0], TextOf(lines[1..]), m, "START", j);
      }
      ExtractBehind(before, TextOf(lines[1..]), StartOf(m), EndOf(m));
    }
  }

  lemma StartIsMark(m: Marker)
    ensures StartOf(m) == Mark(NameOf(m, "START")) && StartOf(m) != ""
  {
  }

  // Applying a template ------------------------------------------------------------------------

  /** The data after the values of the lines, white space around them taken off. */
  function SetAll(data: Data, lines: seq<Line>): Data
    decreases |lines|
  {
    if lines == [] then data
    else if lines[0].Marked? then SetAll(SetValue(data, lines[0].marker, Trim(Go, lines[0].value)), lines[1..])
    else SetAll(data, lines[1..])
  }

  lemma {:induction false} ApplySetsFrom(data: Data, lines: seq<Line>, i: nat)
    requires AllClean(lines) && DistinctMarkers(lines) && i <= |lines|
    ensures Apply(data, MarkersOf(lines[i..]), TextOf(lines)) == (SetAll(data, lines[i..]), None)
    decreases |lines| - i
  {
    hide TextOf, Extract, StartOf, EndOf, SetValue, Trim, AllClean, DistinctMarkers;
    if i < |lines| {
      assert lines[i..][0] == lines[i] && lines[i..][1..] == lines[i + 1..];
      if lines[i].Marked? {
        ExtractFinds(lines, i);
        var markers := MarkersOf(lines[i..]);
        assert markers[0] == lines[i].marker && markers[1..] == MarkersOf(lines[i + 1..]);
        ApplySetsFrom(SetValue(data, lines[i].marker, Trim(Go, lines[i].value)), lines, i + 1);
      } else {
        NothingAdded(MarkersOf(lines[i + 1..]));
        ApplySetsFrom(data, lines, i + 1);
      }
    }
  }

  /**
   A reply with every marker once, in any order and with any text around them that has
   no key, sets each field to what is between its markers.
   */
  lemma ReplySets(data: Data, reply: seq<Line>)
    requires AllClean(reply) && DistinctMarkers(reply)
    ensures Apply(data, MarkersOf(reply), TextOf(reply)) == (SetAll(data, reply), None)
  {
    assert reply[0..] == reply;
    hide *;
    ApplySetsFrom(data, reply, 0);
  }

  // The untouched template -----------------------------------------------------------------------

  predicate LacksKey(s: string) {
    Index(s, KEY) == -1
  }

  predicate CleanItem(item: Item) {
    match item
    case Str(value) => LacksKey(value)
    case Printed(form) => LacksKey(form)
  }

  predicate CleanText(field: Option<string>) {
    field.Some? ==> LacksKey(field.value)
  }

  predicate CleanList(field: Option<seq<Item>>) {
    field.Some? ==> forall i | 0 <= i < |field.value| :: CleanItem(field.value[i])
  }

  /** No value that goes into the template contains the start of a marker. */
  predicate CleanData(data: Data) {
    && CleanText(TextField(data, "summary")) && CleanText(TextField(data, "title"))
    && CleanList(ListField(data, "read_when"))
  }

  /** Strings trimmed, everything else as it was. */
  function TrimItem(item: Item): Item {
    match item
    case Str(value) => Str(Trim(Go, value))
    case Printed(_) => item
  }

  function TrimItems(items: seq<Item>): (r: seq<Item>)
    ensures |r| == |items| && forall i | 0 <= i < |r| :: r[i] == TrimItem(items[i])
  {
    seq(|items|, i requires 0 <= i < |items| => TrimItem(items[i]))
  }

  function TrimField(name: string, field: Field): Field {
    if field.Text? && name in {"summary", "title"} then Text(Trim(Go, field.text))
    else if field.List? && name == "read_when" then List(TrimItems(field.items))
    else field
  }

  function Trimmed(data: Data): Data {
    map name | name in data :: TrimField(name, data[name])
  }

  lemma BracketFree(s: string, t: string)
    requires '[' !in s && LacksKey(t)
    ensures LacksKey(s + t) && LacksKey(s)
  {
    hide Index;
    IndexFacts(t, KEY);
    IndexFacts(s + t, KEY);
    IndexFacts(s, KEY);
    forall j
      ensures !OccursAt(s + t, KEY, j) && !OccursAt(s, KEY, j)
    {
      if OccursAt(s, KEY, j) {
        KeyCharacters(s, j);
        assert false;
      }
      if OccursAt(s + t, KEY, j) {
        KeyCharacters(s + t, j);
        SumAt(s, t, j);
        OccurrenceInTail(s, t, KEY, j);
        assert false;
      }
    }
  }

  lemma {:induction false} ItemLinesFacts(items: seq<Item>, i: nat)
    requires i <= |items|
    ensures |ItemLines(items, i)| == |items| - i
    ensures forall k | 0 <= k < |items| - i :: ItemLines(items, i)[k] == ItemLine(items, i + k)
    decreases |items| - i
  {
    hide ItemLine;
    if i < |items| {
      ItemLinesFacts(items, i + 1);
    }
  }

  lemma ItemLineIsClean(items: seq<Item>, i: nat)
    requires i < |items| && CleanItem(items[i])
    ensures IsClean(ItemLine(items, i))
    ensures ItemLine(items, i).Marked? ==> ItemLine(items, i).marker == Marker(ReadWhen, i)
  {
    match items[i] {
      case Str(value) => BracketFree("  - ", value);
      case Printed(form) => BracketFree("  - ", form);
    }
    hide Index;
  }

  lemma ListLines(items: seq<Item>) returns (lines: seq<Line>)
    requires forall i | 0 <= i < |items| :: CleanItem(items[i])
    ensures lines == [Plain("read_when:")] + ItemLines(items, 0)
    ensures AllClean(lines) && DistinctMarkers(lines)
    ensures forall k | 0 <= k < |lines| && lines[k].Marked? :: lines[k].marker.field == ReadWhen
  {
    hide IsClean, CleanItem, ItemLine, LacksKey;
    lines := [Plain("read_when:")] + ItemLines(items, 0);
    ItemLinesFacts(items, 0);
    HeadIsClean();
    forall k | 0 < k < |lines|
      ensures lines[k] == ItemLine(items, k - 1) && IsClean(lines[k])
      ensures lines[k].Marked? ==> lines[k].marker == Marker(ReadWhen, k - 1)
    {
      assert lines[k] == ItemLines(items, 0)[k - 1];
      ItemLineIsClean(items, k - 1);
    }
  }

  lemma HeadIsClean()
    ensures IsClean(Plain("read_when:"))
  {
    NothingLacksNothing();
    BracketFree("read_when:", "");
    hide Index;
  }

  lemma NothingLacksNothing()
    ensures LacksKey("")
  {
  }

  lemma OneLine(prefix: string, m: Marker, value: string)
    requires '[' !in prefix && LacksKey(value)
    ensures AllClean([Marked(prefix, m, value)]) && DistinctMarkers([Marked(prefix, m, value)])
  {
    BracketFree(prefix, value);
    hide Index;
  }

  /** Clean lines for different fields stay clean and distinct when put together. */
  lemma LinesTogether(a: seq<Line>, b: seq<Line>)
    requires AllClean(a) && AllClean(b) && DistinctMarkers(a) && DistinctMarkers(b)
    requires forall i, j | 0 <= i < |a| && 0 <= j < |b| && a[i].Marked? && b[j].Marked? ::
               a[i].marker.field != b[j].marker.field
    ensures AllClean(a + b) && DistinctMarkers(a + b)
  {
    hide IsClean;
    forall i | 0 <= i < |a + b|
      ensures (a + b)[i] == if i < |a| then a[i] else b[i - |a|]
    {
    }
  }

  lemma SetOne(data: Data, l: Line, lines: seq<Line>)
    ensures SetAll(data, [l] + lines)
            == SetAll(if l.Marked? then SetValue(data, l.marker, Trim(Go, l.value)) else data, lines)
  {
    assert ([l] + lines)[0] == l && ([l] + lines)[1..] == lines;
    hide SetValue, Trim;
  }

  lemma SetNone(data: Data)
    ensures SetAll(data, []) == data
  {
  }

  lemma SetItemInside(items: seq<Item>, i: nat, value: string)
    requires i < |items|
    ensures SetItem(items, i, value) == items[i := Str(value)]
  {
  }

  /** The items up to `i` are trimmed already. */
  lemma {:induction false} SetItems(data: Data, items: seq<Item>, current: seq<Item>, i: nat)
    requires i <= |items| == |current| && "read_when" in data && data["read_when"] == List(current)
    requires forall k | 0 <= k < |items| :: current[k] == if k < i then TrimItem(items[k]) else items[k]
    ensures SetAll(data, ItemLines(items, i)) == data["read_when" := List(TrimItems(items))]
    decreases |items| - i
  {
    hide Trim, SetItem;
    if i == |items| {
      assert current == TrimItems(items);
    } else {
      SetOne(data, ItemLine(items, i), ItemLines(items, i + 1));
      match items[i] {
        case Printed(_) =>
          SetItems(data, items, current, i + 1);
        case Str(value) =>
          var next := current[i := Str(Trim(Go, value))];
          SetItemInside(current, i, Trim(Go, value));
          SetItems(data["read_when" := List(next)], items, next, i + 1);
      }
    }
  }

  /** The parts of the lines, each with what it sets. */
  lemma SummaryPart(data: Data, rest: seq<Line>) returns (lines: seq<Line>)
    requires CleanText(TextField(data, "summary"))
    ensures lines == (if TextField(data, "summary").Some?
                      then [Marked("summary: ", Marker(Summary, 0), TextField(data, "summary").value)] else [])
    ensures AllClean(lines) && DistinctMarkers(lines)
    ensures forall k | 0 <= k < |lines| && lines[k].Marked? :: lines[k].marker.field == Summary
    ensures SetAll(data, lines + rest)
            == SetAll(TrimOne(data, "summary"), rest)
  {
    hide Index, IsClean, LacksKey;
    lines := [];
    var summary := TextField(data, "summary");
    if summary.Some? {
      OneLine("summary: ", Marker(Summary, 0), summary.value);
      lines := [Marked("summary: ", Marker(Summary, 0), summary.value)];
      SetOne(data, lines[0], rest);
    } else {
      NothingAdded(rest);
      assert "summary" in data ==> data["summary" := data["summary"]] == data;
    }
    hide Trim, SetAll;
  }

  lemma TitlePart(data: Data, rest: seq<Line>) returns (lines: seq<Line>)
    requires CleanText(TextField(data, "title"))
    ensures lines == (if TextField(data, "title").Some?
                      then [Marked("title: ", Marker(Title, 0), TextField(data, "title").value)] else [])
    ensures AllClean(lines) && DistinctMarkers(lines)
    ensures forall k | 0 <= k < |lines| && lines[k].Marked? :: lines[k].marker.field == Title
    ensures SetAll(data, lines + rest)
            == SetAll(TrimOne(data, "title"), rest)
  {
    hide Index, IsClean, LacksKey;
    lines := [];
    var title := TextField(data, "title");
    if title.Some? {
      OneLine("title: ", Marker(Title, 0), title.value);
      lines := [Marked("title: ", Marker(Title, 0), title.value)];
      SetOne(data, lines[0], rest);
    } else {
      NothingAdded(rest);
      assert "title" in data ==> data["title" := data["title"]] == data;
    }
    hide Trim, SetAll;
  }

  lemma ReadWhenPart(data: Data) returns (lines: seq<Line>)
    requires CleanList(ListField(data, "read_when"))
    ensures lines == (if ListField(data, "read_when").Some?
                      then [Plain("read_when:")] + ItemLines(ListField(data, "read_when").value, 0) else [])
    ensures AllClean(lines) && DistinctMarkers(lines)
    ensures forall k | 0 <= k < |lines| && lines[k].Marked? :: lines[k].marker.field == ReadWhen
    ensures SetAll(data, lines) == TrimOne(data, "read_when")
  {
    hide Index, IsClean, LacksKey;
    lines := [];
    var readWhen := ListField(data, "read_when");
    if readWhen.Some? {
      lines := ListLines(readWhen.value);
      SetOne(data, Plain("read_when:"), ItemLines(readWhen.value, 0));
      SetItems(data, readWhen.value, readWhen.value, 0);
    } else {
      SetNone(data);
      assert "read_when" in data ==> data["read_when" := data["read_when"]] == data;
    }
    hide Trim, SetAll, TrimItems;
  }

  function TrimOne(data: Data, name: string): Data {
    if name in data then data[name := TrimField(name, data[name])] else data
  }

  lemma TrimOneKeeps(data: Data, name: string, other: string)
    requires name != other
    ensures TextField(TrimOne(data, name), other) == TextField(data, other)
    ensures ListField(TrimOne(data, name), other) == ListField(data, other)
  {
    hide TrimField;
  }

  lemma TrimmedOneByOne(data: Data)
    ensures TrimOne(TrimOne(TrimOne(data, "summary"), "title"), "read_when") == Trimmed(data)
  {
    hide Trim, TrimItems;
  }

  /**
   Applying the template as it was built, when no value in it contains the start of a
   marker: the strings are trimmed, and everything else stays as it was.
   */
  lemma UntouchedTemplateTrims(data: Data)
    requires CleanData(data)
    ensures Apply(data, MarkersOf(LinesOf(data)), TextOf(LinesOf(data))) == (Trimmed(data), None)
  {
    assert CleanText(TextField(data, "summary")) && CleanText(TextField(data, "title"));
    assert CleanList(ListField(data, "read_when"));
    hide *;
    var d1 := TrimOne(data, "summary");
    var d2 := TrimOne(d1, "title");
    TrimOneKeeps(data, "summary", "title");
    TrimOneKeeps(data, "summary", "read_when");
    TrimOneKeeps(d1, "title", "read_when");
    var c := ReadWhenPart(d2);
    var b := TitlePart(d1, c);
    var a := SummaryPart(data, b + c);
    LinesTogether(b, c);
    NoSummary(b, c);
    LinesTogether(a, b + c);
    LinesAre(data, a, b, c);
    ReplySets(data, a + (b + c));
    TrimmedOneByOne(data);
  }

  lemma NoSummary(b: seq<Line>, c: seq<Line>)
    requires forall k | 0 <= k < |b| && b[k].Marked? :: b[k].marker.field == Title
    requires forall k | 0 <= k < |c| && c[k].Marked? :: c[k].marker.field == ReadWhen
    ensures forall k | 0 <= k < |b + c| && (b + c)[k].Marked? :: (b + c)[k].marker.field != Summary
  {
    forall k | 0 <= k < |b + c| && (b + c)[k].Marked?
      ensures (b + c)[k].marker.field != Summary
    {
      assert (b + c)[k] == if k < |b| then b[k] else c[k - |b|];
    }
  }

  lemma LinesAre(data: Data, a: seq<Line>, b: seq<Line>, c: seq<Line>)
    requires a == if TextField(data, "summary").Some?
                  then [Marked("summary: ", Marker(Summary, 0), TextField(data, "summary").value)] else []
    requires b == if TextField(data, "title").Some?
                  then [Marked("title: ", Marker(Title, 0), TextField(data, "title").value)] else []
    requires c == if ListField(data, "read_when").Some?
                  then [Plain("read_when:")] + ItemLines(ListField(data, "read_when").value, 0) else []
    ensures LinesOf(data) == a + (b + c)
  {
    hide TextField, ListField, ItemLines;
  }
}

/** The translatable fields of front matter, between markers, and back. */
module FrontTemplate {
  import opened Wrappers
  import opened Text
  import opened Placeholders

  /** A list item that is not a string only has a printed form here. */
  datatype Item = Str(value: string) | Printed(form: string)

  datatype Field = Text(text: string) | List(items: seq<Item>) | Other

  type Data = map<string, Field>

  datatype FieldName = Summary | Title | ReadWhen

  datatype Marker = Marker(field: FieldName, index: nat)

  const KEY := "[[[FM_"

  function Upper(field: FieldName): string {
    match field
    case Summary => "SUMMARY"
    case Title => "TITLE"
    case ReadWhen => "READ_WHEN"
  }

  function Mark(name: string): string {
    KEY + (name + "]]]")
  }

  function NameOf(m: Marker, end: string): string {
    Upper(m.field) + ("_" + (Digits(m.index) + ("_" + end)))
  }

  function StartOf(m: Marker): string {
    Mark(NameOf(m, "START"))
  }

  function EndOf(m: Marker): string {
    Mark(NameOf(m, "END"))
  }

  // The template ---------------------------------------------------------------------

  datatype Line = Marked(prefix: string, marker: Marker, value: string) | Plain(text: string)

  function LineText(l: Line): string {
    match l
    case Marked(prefix, m, value) => prefix + (StartOf(m) + (value + EndOf(m)))
    case Plain(text) => text
  }

  function TextOf(lines: seq<Line>): string {
    if lines == [] then ""
    else if |lines| == 1 then LineText(lines[0])
    else LineText(lines[0]) + "\n" + TextOf(lines[1..])
  }

  function MarkersOf(lines: seq<Line>): seq<Marker> {
    if lines == [] then []
    else (if lines[0].Marked? then [lines[0].marker] else []) + MarkersOf(lines[1..])
  }

  function ItemLine(items: seq<Item>, i: nat): Line
    requires i < |items|
  {
    match items[i]
    case Str(value) => Marked("  - ", Marker(ReadWhen, i), value)
    case Printed(form) => Plain("  - " + form)
  }

  function ItemLines(items: seq<Item>, i: nat): seq<Line>
    requires i <= |items|
    decreases |items| - i
  {
    if i == |items| then [] else [ItemLine(items, i)] + ItemLines(items, i + 1)
  }

  function TextField(data: Data, name: string): Option<string> {
    if name in data && data[name].Text? then Some(data[name].text) else None
  }

  function ListField(data: Data, name: string): Option<seq<Item>> {
    if name in data && data[name].List? then Some(data[name].items) else None
  }

  function LinesOf(data: Data): seq<Line> {
    var summary, title, readWhen := TextField(data, "summary"), TextField(data, "title"), ListField(data, "read_when");
    (if summary.Some? then [Marked("summary: ", Marker(Summary, 0), summary.value)] else [])
    + ((if title.Some? then [Marked("title: ", Marker(Title, 0), title.value)] else [])
       + (if readWhen.Some? then [Plain("read_when:")] + ItemLines(readWhen.value, 0) else []))
  }

  lemma {:induction false} MarkersAppend(a: seq<Line>, b: seq<Line>)
    ensures MarkersOf(a + b) == MarkersOf(a) + MarkersOf(b)
  {
    if a == [] {
      assert a + b == b;
    } else {
      assert (a + b)[0] == a[0] && (a + b)[1..] == a[1..] + b;
      MarkersAppend(a[1..], b);
    }
  }

  /** The lines and markers built so far. */
  ghost predicate Built(done: seq<Line>, lines: seq<string>, markers: seq<Marker>) {
    lines == Texts(done) && markers == MarkersOf(done)
  }

  lemma BuildOne(done: seq<Line>, l: Line, lines: seq<string>, markers: seq<Marker>)
    requires Built(done, lines, markers)
    ensures Built(done + [l], lines + [LineText(l)], if l.Marked? then markers + [l.marker] else markers)
  {
    hide LineText;
    MarkersAppend(done, [l]);
    assert [l][1..] == [];
    NothingAdded(markers);
    assert Texts(done + [l]) == Texts(done) + [LineText(l)];
  }

  lemma NothingBuilt(data: Data)
    ensures Built([], [], [])
    ensures data == map[] ==> LinesOf(data) == []
  {
  }

  lemma TextOfNothing()
    ensures TextOf([]) == "" && MarkersOf([]) == []
  {
  }

  method BuildItems(items: seq<Item>, ghost before: seq<Line>, lines: seq<string>, markers: seq<Marker>)
    returns (lines': seq<string>, markers': seq<Marker>)
    requires Built(before, lines, markers)
    ensures Built(before + ItemLines(items, 0), lines', markers')
  {
    hide Built, StartOf, EndOf;
    lines', markers' := lines, markers;
    ghost var done := before;
    for idx := 0 to |items|
      invariant Built(done, lines', markers')
      invariant done + ItemLines(items, idx) == before + ItemLines(items, 0)
    {
      BuildOne(done, ItemLine(items, idx), lines', markers');
      Assoc(done, [ItemLine(items, idx)], ItemLines(items, idx + 1));
      done := done + [ItemLine(items, idx)];
      match items[idx] {
        case Printed(form) =>
          lines' := lines' + ["  - " + form];
        case Str(value) =>
          var m := Marker(ReadWhen, idx);
          markers' := markers' + [m];
          lines' := lines' + ["  - " + (StartOf(m) + (value + EndOf(m)))];
      }
    }
    NothingAdded(done);
  }

  method BuildFrontmatterTemplate(data: Data) returns (template: string, markers: seq<Marker>)
    ensures template == TextOf(LinesOf(data)) && markers == MarkersOf(LinesOf(data))
  {
    hide Built, StartOf, EndOf, TextOf, MarkersOf, ItemLines, TextField, ListField;
    NothingBuilt(data);
    TextOfNothing();
    if data == map[] {
      return "", [];
    }
    markers := [];
    var lines: seq<string> := [];
    var summary, title, readWhen := TextField(data, "summary"), TextField(data, "title"), ListField(data, "read_when");
    ghost var a: seq<Line> := [];
    if summary.Some? {
      var m := Marker(Summary, 0);
      a := [Marked("summary: ", m, summary.value)];
      BuildOne([], a[0], lines, markers);
      NothingAdded(a);
      markers := markers + [m];
      lines := lines + ["summary: " + (StartOf(m) + (summary.value + EndOf(m)))];
    }
    ghost var b: seq<Line> := [];
    NothingAdded(a);
    if title.Some? {
      var m := Marker(Title, 0);
      b := [Marked("title: ", m, title.value)];
      BuildOne(a, b[0], lines, markers);
      markers := markers + [m];
      lines := lines + ["title: " + (StartOf(m) + (title.value + EndOf(m)))];
    }
    ghost var c: seq<Line> := [];
    NothingAdded(a + b);
    if readWhen.Some? {
      c := [Plain("read_when:")] + ItemLines(readWhen.value, 0);
      BuildOne(a + b, Plain("read_when:"), lines, markers);
      Assoc(a + b, [Plain("read_when:")], ItemLines(readWhen.value, 0));
      lines := lines + ["read_when:"];
      lines, markers := BuildItems(readWhen.value, a + b + [Plain("read_when:")], lines, markers);
    }
    Assoc(a, b, c);
    assert LinesOf(data) == a + (b + c);
    JoinBuilt(a + b + c, lines, markers);
    template := Join(lines, '\n');
  }

  lemma JoinBuilt(done: seq<Line>, lines: seq<string>, markers: seq<Marker>)
    requires Built(done, lines, markers)
    ensures Join(lines, '\n') == TextOf(done) && markers == MarkersOf(done)
  {
    JoinTexts(done);
  }

  function Texts(lines: seq<Line>): (texts: seq<string>)
    ensures |texts| == |lines| && forall i | 0 <= i < |lines| :: texts[i] == LineText(lines[i])
  {
    seq(|lines|, i requires 0 <= i < |lines| => LineText(lines[i]))
  }

  lemma {:induction false} JoinTexts(lines: seq<Line>)
    ensures Join(Texts(lines), '\n') == TextOf(lines)
  {
    hide LineText;
    if |lines| <= 1 {
    } else {
      JoinTexts(lines[1..]);
      assert Texts(lines)[1..] == Texts(lines[1..]);
    }
  }

  // Reading values back ------------------------------------------------------------------

  function Extract(text: string, start: string, end: string): Result<string, string> {
    var i := Index(text, start);
    if i == -1 then Failure(start)
    else
      var rest := text[i + |start|..];
      var j := Index(rest, end);
      if j == -1 then Failure(end) else Success(rest[..j])
  }

  function Pad(items: seq<Item>, n: nat): seq<Item>
    decreases n - |items|
  {
    if |items| >= n then items else Pad(items + [Str("")], n)
  }

  /** The items, and empty strings up to the wanted length. */
  lemma {:induction false} PadMeans(items: seq<Item>, n: nat)
    ensures |Pad(items, n)| == if |items| >= n then |items| else n
    ensures forall k | 0 <= k < |Pad(items, n)| :: Pad(items, n)[k] == if k < |items| then items[k] else Str("")
    decreases n - |items|
  {
    if |items| < n {
      PadMeans(items + [Str("")], n);
    }
  }

  /** `setReadWhenValue`: a list that is too short is filled up with empty strings. */
  method SetReadWhenValue(existing: seq<Item>, index: nat, value: string) returns (readWhen: seq<Item>)
    ensures readWhen == SetItem(existing, index, value)
  {
    readWhen := existing;
    while |readWhen| <= index
      invariant Pad(readWhen, index + 1) == Pad(existing, index + 1)
    {
      readWhen := readWhen + [Str("")];
    }
    readWhen := readWhen[index := Str(value)];
  }

  function SetItem(items: seq<Item>, index: nat, value: string): seq<Item> {
    PadMeans(items, index + 1);
    Pad(items, index + 1)[index := Str(value)]
  }

  /** One item is set; the others stay, and missing ones before it are empty. */
  lemma SetItemMeans(items: seq<Item>, index: nat, value: string)
    ensures var r := SetItem(items, index, value);
            && |r| == (if |items| > index then |items| else index + 1)
            && r[index] == Str(value)
            && forall k | 0 <= k < |r| && k != index :: r[k] == if k < |items| then items[k] else Str("")
  {
    PadMeans(items, index + 1);
    hide Pad;
  }

  function SetValue(data: Data, m: Marker, value: string): Data {
    match m.field
    case Summary => data["summary" := Text(value)]
    case Title => data["title" := Text(value)]
    case ReadWhen =>
      var items := ListField(data, "read_when");
      data["read_when" := List(SetItem(if items.Some? then items.value else [], m.index, value))]
  }

  /** The data after the markers, and the marker that was missing when one was. */
  function Apply(data: Data, markers: seq<Marker>, front: string): (Data, Option<string>)
    decreases |markers|
  {
    if markers == [] then (data, None)
    else
      match Extract(front, StartOf(markers[0]), EndOf(markers[0]))
      case Failure(missing) => (data, Some(missing))
      case Success(value) => Apply(SetValue(data, markers[0], Trim(Go, value)), markers[1..], front)
  }

  method ApplyFrontmatterTranslations(data: Data, markers: seq<Marker>, front: string)
    returns (updated: Data, missing: Option<string>)
    ensures (updated, missing) == Apply(data, markers, front)
  {
    updated := data;
    assert markers[0..] == markers;
    for i := 0 to |markers|
      invariant Apply(updated, markers[i..], front) == Apply(data, markers, front)
    {
      hide Extract, StartOf, EndOf, Trim, SetItem;
      assert markers[i..][0] == markers[i] && markers[i..][1..] == markers[i + 1..];
      var marker := markers[i];
      var extracted := Extract(front, StartOf(marker), EndOf(marker));
      if extracted.Failure? {
        return updated, Some(extracted.error);
      }
      var value := Trim(Go, extracted.value);
      match marker.field {
        case Summary => updated := updated["summary" := Text(value)];
        case Title => updated := updated["title" := Text(value)];
        case ReadWhen =>
          var existing := ListField(updated, "read_when");
          var readWhen := SetReadWhenValue(if existing.Some? then existing.value else [], marker.index, value);
          updated := updated["read_when" := List(readWhen)];
      }
    }
    return updated, None;
  }

  // What is missing ------------------------------------------------------------------------

  /** `pat` occurs at the end of `before`, and nowhere earlier. */
  ghost predicate FirstBehind(before: string, pat: string, after: string) {
    forall j: nat | j < |before| :: !OccursAt(before + (pat + after), pat, j)
  }

  /** A value is extracted exactly from between the first start marker and the first end marker behind it. */
  lemma ExtractIff(text: string, start: string, end: string, value: string)
    ensures Extract(text, start, end) == Success(value)
            <==> exists before, after ::
                   && text == before + (start + (value + (end + after)))
                   && FirstBehind(before, start, value + (end + after)) && FirstBehind(value, end, after)
  {
    hide Index, OccursAt;
    if Extract(text, start, end) == Success(value) {
      var i := Index(text, start);
      IndexFacts(text, start);
      var rest := text[i + |start|..];
      var j := Index(rest, end);
      IndexFacts(rest, end);
      var before, after := text[..i], rest[j + |end|..];
      SplitAtOccurrence(text, start, i);
      SplitAtOccurrence(rest, end, j);
      assert text == before + (start + (value + (end + after)));
      IndexIsEarliest(text, start);
      IndexIsEarliest(rest, end);
    }
    if before, after :|
      && text == before + (start + (value + (end + after)))
      && FirstBehind(before, start, value + (end + after)) && FirstBehind(value, end, after)
    {
      IndexBehind(before, start, value + (end + after));
      IndexBehind(value, end, after);
    }
  }

  lemma SplitAtOccurrence(s: string, pat: string, i: nat)
    requires OccursAt(s, pat, i)
    ensures i + |pat| <= |s| && s == s[..i] + (pat + s[i + |pat|..])
  {
    assert s[i..i + |pat|] == pat;
  }

  lemma IndexIsEarliest(s: string, pat: string)
    ensures Index(s, pat) != -1 ==> forall j: nat | j < Index(s, pat) :: !OccursAt(s, pat, j)
  {
    hide OccursAt;
  }

  lemma IndexBehind(before: string, pat: string, after: string)
    requires FirstBehind(before, pat, after)
    ensures Index(before + (pat + after), pat) == |before|
    ensures (before + (pat + after))[|before| + |pat|..] == after && (before + (pat + after))[..|before|] == before
  {
    var s := before + (pat + after);
    assert s[|before|..|before| + |pat|] == pat;
    assert OccursAt(s, pat, |before|);
    hide Index;
    IndexIsFirst(s, pat, |before|);
  }

  /** The marker reported as missing is the start marker when that is not there, and otherwise the end marker. */
  lemma MissingMarkerIs(text: string, start: string, end: string)
    requires start != end
    ensures Extract(text, start, end) == Failure(start) <==> !Contains(text, start)
    ensures forall before, after |
              text == before + (start + after) && FirstBehind(before, start, after) ::
              Extract(text, start, end) == Failure(end) <==> !Contains(after, end)
  {
    hide Index, OccursAt, Contains;
    IndexFacts(text, start);
    forall before, after | text == before + (start + after) && FirstBehind(before, start, after)
      ensures Extract(text, start, end) == Failure(end) <==> !Contains(after, end)
    {
      IndexBehind(before, start, after);
      IndexFacts(after, end);
    }
  }

  /** The fields before the first missing marker have been set, and nothing else. */
  lemma {:induction false} ApplyStopsAtMissing(
    data: Data, done: seq<Marker>, m: Marker, rest: seq<Marker>, front: string)
    requires Apply(data, done, front).1 == None
    requires Extract(front, StartOf(m), EndOf(m)).Failure?
    ensures Apply(data, done + ([m] + rest), front)
            == (Apply(data, done, front).0, Some(Extract(front, StartOf(m), EndOf(m)).error))
    decreases |done|
  {
    hide Extract, StartOf, EndOf, SetValue, Trim;
    var all := done + ([m] + rest);
    if done == [] {
      assert all == [m] + rest && all[0] == m;
    } else {
      assert all[0] == done[0] && all[1..] == done[1..] + ([m] + rest);
      var next := Extract(front, StartOf(done[0]), EndOf(done[0]));
      ApplyStopsAtMissing(SetValue(data, done[0], Trim(Go, next.value)), done[1..], m, rest, front);
    }
  }

  // The template of a page -----------------------------------------------------------------

  function Between(prefix: string, start: string, value: string, end: string): string {
    prefix + (start + (value + end))
  }

  function ReadWhenMark(i: nat, end: string): string {
    "[[[FM_READ_WHEN_" + Digits(i) + "_" + end + "]]]"
  }

  /** Items between their markers, each on its line. */
  function ItemsText(items: seq<Item>, i: nat): string
    requires i <= |items|
    decreases |items| - i
  {
    if i == |items| then ""
    else
      "\n" + (if items[i].Printed? then "  - " + items[i].form
              else Between("  - ", ReadWhenMark(i, "START"), items[i].value, ReadWhenMark(i, "END")))
      + ItemsText(items, i + 1)
  }

  lemma ReadWhenMarkers(i: nat, end: string)
    ensures Mark(NameOf(Marker(ReadWhen, i), end)) == ReadWhenMark(i, end)
  {
    hide Digits;
    var d := Digits(i);
    assert KEY + "READ_WHEN_" == "[[[FM_READ_WHEN_";
    Assoc("READ_WHEN", "_", d + ("_" + end));
    Assoc("READ_WHEN_", d + ("_" + end), "]]]");
    Assoc(KEY, "READ_WHEN_", d + ("_" + end) + "]]]");
    Assoc(d, "_" + end, "]]]");
    Assoc("[[[FM_READ_WHEN_", d, "_" + end + "]]]");
    Assoc("[[[FM_READ_WHEN_" + d, "_", end + "]]]");
    Assoc("[[[FM_READ_WHEN_" + d + "_", end, "]]]");
    Assoc("_", end, "]]]");
  }

  lemma SummaryMarkers()
    ensures StartOf(Marker(Summary, 0)) == "[[[FM_SUMMARY_0_START]]]" && EndOf(Marker(Summary, 0)) == "[[[FM_SUMMARY_0_END]]]"
  {
    assert Digits(0) == "0";
  }

  lemma TitleMarkers()
    ensures StartOf(Marker(Title, 0)) == "[[[FM_TITLE_0_START]]]" && EndOf(Marker(Title, 0)) == "[[[FM_TITLE_0_END]]]"
  {
    assert Digits(0) == "0";
  }

  lemma ItemLineText(items: seq<Item>, i: nat)
    requires i < |items|
    ensures LineText(ItemLine(items, i))
            == if items[i].Printed? then "  - " + items[i].form
               else Between("  - ", ReadWhenMark(i, "START"), items[i].value, ReadWhenMark(i, "END"))
  {
    ReadWhenMarkers(i, "START");
    ReadWhenMarkers(i, "END");
    hide Mark, NameOf, ReadWhenMark;
  }

  lemma TextOfCons(first: Line, second: Line, rest: seq<Line>)
    ensures TextOf([first] + ([second] + rest)) == LineText(first) + "\n" + TextOf([second] + rest)
  {
    assert ([first] + ([second] + rest))[1..] == [second] + rest;
    hide LineText;
  }

  lemma {:induction false} TextOfItems(first: Line, items: seq<Item>, i: nat)
    requires i <= |items|
    ensures TextOf([first] + ItemLines(items, i)) == LineText(first) + ItemsText(items, i)
    decreases |items| - i
  {
    hide LineText, ItemLine, TextOf, Between;
    if i == |items| {
      NothingAdded([first]);
      NothingAdded(LineText(first));
      TextOfOne(first);
    } else {
      var line := ItemLine(items, i);
      TextOfCons(first, line, ItemLines(items, i + 1));
      TextOfItems(line, items, i + 1);
      ItemLineText(items, i);
      Assoc(LineText(first), "\n", LineText(line) + ItemsText(items, i + 1));
      Assoc("\n", LineText(line), ItemsText(items, i + 1));
    }
  }

  lemma TextOfOne(first: Line)
    ensures TextOf([first]) == LineText(first)
  {
  }

  /** What the translator gets: summary, title and conditions in this order, each value between its own markers. */
  lemma TemplateIs(data: Data, summary: string, title: string, items: seq<Item>)
    requires "summary" in data && data["summary"] == Text(summary)
    requires "title" in data && data["title"] == Text(title)
    requires "read_when" in data && data["read_when"] == List(items)
    ensures TextOf(LinesOf(data))
            == Between("summary: ", "[[[FM_SUMMARY_0_START]]]", summary, "[[[FM_SUMMARY_0_END]]]") + "\n"
               + (Between("title: ", "[[[FM_TITLE_0_START]]]", title, "[[[FM_TITLE_0_END]]]") + "\n"
                  + ("read_when:" + ItemsText(items, 0)))
  {
    LinesOfAll(data, summary, title, items);
    hide *;
    var a, b := Marked("summary: ", Marker(Summary, 0), summary), Marked("title: ", Marker(Title, 0), title);
    var c := Plain("read_when:");
    TextOfItems(c, items, 0);
    TextOfCons(b, c, ItemLines(items, 0));
    TextOfCons(a, b, [c] + ItemLines(items, 0));
    SummaryMarkers();
    TitleMarkers();
    MarkedText("summary: ", Marker(Summary, 0), summary);
    MarkedText("title: ", Marker(Title, 0), title);
    PlainText("read_when:");
  }

  lemma LinesOfAll(data: Data, summary: string, title: string, items: seq<Item>)
    requires "summary" in data && data["summary"] == Text(summary)
    requires "title" in data && data["title"] == Text(title)
    requires "read_when" in data && data["read_when"] == List(items)
    ensures LinesOf(data)
            == [Marked("summary: ", Marker(Summary, 0), summary)]
               + ([Marked("title: ", Marker(Title, 0), title)] + ([Plain("read_when:")] + ItemLines(items, 0)))
  {
    hide ItemLines;
  }

  lemma MarkedText(prefix: string, m: Marker, value: string)
    ensures LineText(Marked(prefix, m, value)) == Between(prefix, StartOf(m), value, EndOf(m))
  {
    hide StartOf, EndOf;
  }

  lemma PlainText(text: string)
    ensures LineText(Plain(text)) == text
  {
  }
}

/** The string operations of the host languages that the modelled code relies on. */
module Text {

  // Sequences ------------------------------------------------------------------

  lemma Assoc<T>(a: seq<T>, b: seq<T>, c: seq<T>)
    ensures (a + b) + c == a + (b + c)
  {
  }

  lemma SplitSum<T>(a: seq<T>, b: seq<T>)
    ensures (a + b)[..|a|] == a && (a + b)[|a|..] == b
  {
  }

  lemma HeadTail<T>(s: seq<T>)
    requires s != []
    ensures [s[0]] + s[1..] == s
  {
  }

  lemma InitLast<T>(s: seq<T>)
    requires s != []
    ensures s[..|s| - 1] + [s[|s| - 1]] == s
  {
  }

  lemma NothingAdded<T>(s: seq<T>)
    ensures s + [] == s && [] + s == s
  {
  }

  // Trimming -----------------------------------------------------------------

  /** `String.prototype.trim` and `strings.TrimSpace` agree on all but two characters. */
  datatype Host = JavaScript | Go

  predicate IsSpace(host: Host, c: char) {
    var u := c as int;
    || 0x09 <= u <= 0x0D || u == 0x20 || u == 0xA0 || u == 0x1680 || 0x2000 <= u <= 0x200A
    || u == 0x2028 || u == 0x2029 || u == 0x202F || u == 0x205F || u == 0x3000
    || (host == JavaScript && u == 0xFEFF)
    || (host == Go && u == 0x85)
  }

  function TrimStart(host: Host, s: string): string {
    if s != "" && IsSpace(host, s[0]) then TrimStart(host, s[1..]) else s
  }

  function TrimEnd(host: Host, s: string): string {
    if s != "" && IsSpace(host, s[|s| - 1]) then TrimEnd(host, s[..|s| - 1]) else s
  }

  function Trim(host: Host, s: string): string {
    TrimStart(host, TrimEnd(host, s))
  }

  /** A string that does not start (end) with white space keeps its start (end). */
  lemma TrimOfTight(host: Host, s: string)
    requires s != "" ==> !IsSpace(host, s[0]) && !IsSpace(host, s[|s| - 1])
    ensures Trim(host, s) == s
  {
  }

  lemma {:induction false} TrimIsTight(host: Host, s: string)
    ensures var t := Trim(host, s); t != "" ==> !IsSpace(host, t[0]) && !IsSpace(host, t[|t| - 1])
  {
    TrimEndIsTight(host, s);
    TrimStartKeepsEnd(host, TrimEnd(host, s));
  }

  lemma {:induction false} TrimEndIsTight(host: Host, s: string)
    ensures var t := TrimEnd(host, s); t != "" ==> !IsSpace(host, t[|t| - 1])
  {
    if s != "" && IsSpace(host, s[|s| - 1]) {
      TrimEndIsTight(host, s[..|s| - 1]);
    }
  }

  lemma {:induction false} TrimStartKeepsEnd(host: Host, s: string)
    ensures var t := TrimStart(host, s); t != "" ==> s != "" && t[|t| - 1] == s[|s| - 1] && !IsSpace(host, t[0])
  {
    if s != "" && IsSpace(host, s[0]) {
      TrimStartKeepsEnd(host, s[1..]);
    }
  }

  // Searching ----------------------------------------------------------------

  predicate StartsWith(s: string, prefix: string) {
    |prefix| <= |s| && s[..|prefix|] == prefix
  }

  predicate EndsWith(s: string, suffix: string) {
    |suffix| <= |s| && s[|s| - |suffix|..] == suffix
  }

  predicate OccursAt(s: string, pat: string, i: int) {
    0 <= i <= |s| - |pat| && s[i..i + |pat|] == pat
  }

  ghost predicate Contains(s: string, pat: string) {
    exists i :: OccursAt(s, pat, i)
  }

  /** `strings.Index`: the first occurrence, or -1. */
  function Index(s: string, pat: string): (r: int)
    ensures r == -1 ==> !Contains(s, pat)
    ensures r != -1 ==> OccursAt(s, pat, r) && forall j | 0 <= j < r :: !OccursAt(s, pat, j)
  {
    IndexFrom(s, pat, 0)
  }

  function IndexFrom(s: string, pat: string, from: nat): (r: int)
    requires from <= |s|
    ensures r == -1 ==> forall j | from <= j :: !OccursAt(s, pat, j)
    ensures r != -1 ==> from <= r && OccursAt(s, pat, r) && forall j | from <= j < r :: !OccursAt(s, pat, j)
    decreases |s| - from
  {
    if |s| - from < |pat| then -1
    else if s[from..from + |pat|] == pat then from
    else if from == |s| then -1
    else IndexFrom(s, pat, from + 1)
  }

  lemma IndexFacts(s: string, pat: string)
    ensures Index(s, pat) == -1 <==> !Contains(s, pat)
    ensures Index(s, pat) != -1 ==> 0 <= Index(s, pat) <= |s| - |pat| && OccursAt(s, pat, Index(s, pat))
  {
    hide IndexFrom;
  }

  lemma IndexIsFirst(s: string, pat: string, i: nat)
    requires OccursAt(s, pat, i) && forall j: nat | j < i :: !OccursAt(s, pat, j)
    ensures Index(s, pat) == i
  {
    IndexFacts(s, pat);
    hide Index;
    assert Contains(s, pat);
  }

  lemma OccurrenceIsNat(s: string, pat: string, i: int)
    ensures OccursAt(s, pat, i) ==> i >= 0
  {
  }

  lemma SumAt(a: string, b: string, i: nat)
    requires i < |a + b|
    ensures (a + b)[i] == if i < |a| then a[i] else b[i - |a|]
  {
  }

  lemma OccurrenceInTail(a: string, b: string, pat: string, i: nat)
    requires OccursAt(a + b, pat, i) && i >= |a|
    ensures OccursAt(b, pat, i - |a|)
  {
    assert (a + b)[i..i + |pat|] == b[i - |a|..i - |a| + |pat|];
  }

  lemma OccursInSum(a: string, b: string, pat: string, i: int)
    ensures OccursAt(a, pat, i) ==> OccursAt(a + b, pat, i)
    ensures OccursAt(b, pat, i) ==> OccursAt(a + b, pat, |a| + i)
  {
    assert 0 <= i <= |a| - |pat| ==> (a + b)[i..i + |pat|] == a[i..i + |pat|];
    assert 0 <= i <= |b| - |pat| ==> (a + b)[|a| + i..|a| + i + |pat|] == b[i..i + |pat|];
  }

  lemma IndexInTail(a: string, b: string, pat: string)
    requires pat != "" && forall i | 0 <= i < |a| :: !OccursAt(a + b, pat, i)
    ensures Index(a + b, pat) == if Index(b, pat) == -1 then -1 else |a| + Index(b, pat)
  {
    hide IndexFrom;
    var i, j := Index(a + b, pat), Index(b, pat);
    if i != -1 {
      OccurrenceInTail(a, b, pat, i);
    }
    if j != -1 {
      OccursInSum(a, b, pat, j);
    }
    hide OccursAt;
  }

  lemma NoNewlineInside(s: string, pat: string, i: int, k: int)
    requires OccursAt(s, pat, i) && '\n' !in pat && i <= k < i + |pat|
    ensures s[k] != '\n'
  {
    assert s[k] == s[i..i + |pat|][k - i];
    assert pat[k - i] in pat;
  }

  lemma EarlierIsInside(x: string, rest: string, pat: string, j: nat)
    requires '\n' !in pat && OccursAt(x + rest, pat, j) && rest != "" && rest[0] == '\n' && j <= |x|
    ensures pat == "" || Contains(x, pat)
  {
    var s := x + rest;
    if pat != "" {
      assert s[|x|] == '\n';
      if j + |pat| > |x| {
        NoNewlineInside(s, pat, j, |x|);
        assert false;
      }
      assert x[j..j + |pat|] == s[j..j + |pat|];
      assert OccursAt(x, pat, j);
    }
  }

  lemma CharOfPrefix(s: string, prefix: string, k: nat)
    requires k < |prefix|
    ensures StartsWith(s, prefix) ==> k < |s| && s[k] == prefix[k]
  {
    assert |prefix| <= |s| ==> s[..|prefix|][k] == s[k];
  }

  // Splitting and joining ----------------------------------------------------

  function Split(s: string, sep: char): (parts: seq<string>)
    ensures |parts| >= 1
  {
    if s == "" then [""]
    else
      var rest := Split(s[1..], sep);
      if s[0] == sep then [""] + rest
      else [[s[0]] + rest[0]] + rest[1..]
  }

  function Join(parts: seq<string>, sep: char): string {
    if parts == [] then ""
    else if |parts| == 1 then parts[0]
    else parts[0] + [sep] + Join(parts[1..], sep)
  }

  lemma {:induction false} JoinOfSplit(s: string, sep: char)
    ensures Join(Split(s, sep), sep) == s
  {
    if s == "" {
    } else {
      JoinOfSplit(s[1..], sep);
      var rest := Split(s[1..], sep);
      assert s == [s[0]] + s[1..];
      if s[0] == sep {
        assert ([""] + rest)[1..] == rest;
      } else {
        assert ([[s[0]] + rest[0]] + rest[1..])[1..] == rest[1..];
      }
    }
  }

  lemma {:induction false} SplitPartsLackSep(s: string, sep: char)
    ensures forall k | 0 <= k < |Split(s, sep)| :: sep !in Split(s, sep)[k]
  {
    if s == "" {
    } else {
      SplitPartsLackSep(s[1..], sep);
    }
  }

  /** Splitting distributes over a separator. */
  lemma {:induction false} SplitAtSep(a: string, sep: char, b: string)
    ensures Split(a + [sep] + b, sep) == Split(a, sep) + Split(b, sep)
  {
    if a == "" {
      assert (a + [sep] + b)[1..] == b;
    } else {
      assert (a + [sep] + b)[1..] == a[1..] + [sep] + b;
      SplitAtSep(a[1..], sep, b);
      var ra, rb := Split(a[1..], sep), Split(b, sep);
      assert (ra + rb)[1..] == ra[1..] + rb;
      Assoc([""], ra, rb);
      Assoc([[a[0]] + ra[0]], ra[1..], rb);
    }
  }

  lemma {:induction false} SplitOfPlain(s: string, sep: char)
    requires sep !in s
    ensures Split(s, sep) == [s]
  {
    if s == "" {
    } else {
      SplitOfPlain(s[1..], sep);
      assert s == [s[0]] + s[1..];
    }
  }

  lemma {:induction false} SplitOfJoin(parts: seq<string>, sep: char)
    requires parts != []
    requires forall k | 0 <= k < |parts| :: sep !in parts[k]
    ensures Split(Join(parts, sep), sep) == parts
  {
    SplitOfPlain(parts[0], sep);
    if |parts| <= 1 {
    } else {
      SplitOfJoin(parts[1..], sep);
      SplitAtSep(parts[0], sep, Join(parts[1..], sep));
      assert parts == [parts[0]] + parts[1..];
    }
  }

  lemma {:induction false} JoinAppend(a: seq<string>, b: seq<string>, sep: char)
    requires a != [] && b != []
    ensures Join(a + b, sep) == Join(a, sep) + [sep] + Join(b, sep)
  {
    if |a| == 1 {
      assert (a + b)[1..] == b;
    } else {
      assert (a + b)[1..] == a[1..] + b;
      JoinAppend(a[1..], b, sep);
    }
  }
}

/** The text of a segment up to white space, and the key under which its translation is remembered. */
module SegmentText {
  import opened Text

  /** The cache key of a segment: its key and its normalized text; locale, provider and model are fixed. */
  datatype CacheKey = CacheKey(key: string, text: string)

  /** Every run of white space becomes one space. */
  function Squeeze(text: string): string {
    if text == "" then ""
    else if !IsSpace(JavaScript, text[0]) then [text[0]] + Squeeze(text[1..])
    else if |text| > 1 && IsSpace(JavaScript, text[1]) then Squeeze(text[1..])
    else " " + Squeeze(text[1..])
  }

  function NormalizeText(text: string): string {
    Squeeze(Trim(JavaScript, text))
  }

  function Slot(key: string, text: string): CacheKey {
    CacheKey(key, NormalizeText(text))
  }

  // Words --------------------------------------------------------------------------

  /** How many characters there are before the first white space. */
  function WordLength(s: string): (n: nat)
    ensures n <= |s| && (forall i | 0 <= i < n :: !IsSpace(JavaScript, s[i]))
    ensures n < |s| ==> IsSpace(JavaScript, s[n])
  {
    if s == "" || IsSpace(JavaScript, s[0]) then 0 else 1 + WordLength(s[1..])
  }

  /** The maximal runs of characters that are no white space. */
  function Words(s: string): seq<string>
    decreases |s|
  {
    if s == "" then []
    else if IsSpace(JavaScript, s[0]) then Words(s[1..])
    else [s[..WordLength(s)]] + Words(s[WordLength(s)..])
  }

  predicate EndsTight(s: string) {
    s != "" ==> !IsSpace(JavaScript, s[|s| - 1])
  }

  lemma WordsAtSpace(s: string)
    requires s != "" && IsSpace(JavaScript, s[0])
    ensures Words(s) == Words(s[1..])
  {
  }

  /** A character in front goes to the first word, or is a word of its own before white space. */
  lemma WordsAtCharacter(s: string)
    requires s != "" && !IsSpace(JavaScript, s[0])
    ensures |s| == 1 || IsSpace(JavaScript, s[1]) ==> Words(s) == [[s[0]]] + Words(s[1..])
    ensures |s| > 1 && !IsSpace(JavaScript, s[1]) ==>
              Words(s[1..]) != [] && Words(s) == [[s[0]] + Words(s[1..])[0]] + Words(s[1..])[1..]
  {
    hide *;
    var rest := s[1..];
    WordLengthSteps(s);
    WordsUnfold(s);
    SliceCons(s, WordLength(s) - 1);
    assert rest[..0] == [] && rest[0..] == rest;
    NothingAdded([s[0]]);
    if |s| > 1 && !IsSpace(JavaScript, s[1]) {
      WordsUnfold(rest);
    }
  }

  lemma WordLengthSteps(s: string)
    requires s != "" && !IsSpace(JavaScript, s[0])
    ensures WordLength(s) == if |s| == 1 || IsSpace(JavaScript, s[1]) then 1 else 1 + WordLength(s[1..])
  {
    hide IsSpace;
  }

  lemma SliceCons<T>(s: seq<T>, n: nat)
    requires n < |s|
    ensures s[..n + 1] == [s[0]] + s[1..][..n] && s[n + 1..] == s[1..][n..]
  {
  }

  lemma WordsUnfold(s: string)
    requires s != "" && !IsSpace(JavaScript, s[0])
    ensures Words(s) == [s[..WordLength(s)]] + Words(s[WordLength(s)..])
  {
    hide IsSpace;
  }

  lemma {:induction false} TightHasWords(s: string)
    requires EndsTight(s) && s != ""
    ensures Words(s) != []
    decreases |s|
  {
    hide IsSpace;
    if IsSpace(JavaScript, s[0]) {
      TightHasWords(s[1..]);
    }
  }

  lemma JoinFirst(prefix: string, first: string, rest: seq<string>)
    ensures Join([prefix + first] + rest, ' ') == prefix + Join([first] + rest, ' ')
  {
    assert ([prefix + first] + rest)[1..] == rest && ([first] + rest)[1..] == rest;
    if rest != [] {
      Assoc(prefix, first, [' '] + Join(rest, ' '));
      Assoc(prefix + first, [' '], Join(rest, ' '));
      Assoc(first, [' '], Join(rest, ' '));
    }
  }

  lemma JoinOneMore(first: string, rest: seq<string>)
    requires rest != []
    ensures Join([first] + rest, ' ') == first + (" " + Join(rest, ' '))
  {
    assert ([first] + rest)[1..] == rest;
    Assoc(first, [' '], Join(rest, ' '));
  }

  /** Squeezing is joining the words with single spaces, behind one space when white space comes first. */
  lemma {:induction false} SqueezeJoins(s: string)
    requires EndsTight(s)
    ensures Squeeze(s) == (if s != "" && IsSpace(JavaScript, s[0]) then " " else "") + Join(Words(s), ' ')
    decreases |s|
  {
    hide IsSpace, Words, Join;
    if s == "" {
      NoWords();
    } else {
      var rest := s[1..];
      assert EndsTight(rest);
      SqueezeJoins(rest);
      if IsSpace(JavaScript, s[0]) {
        WordsAtSpace(s);
      } else {
        WordsAtCharacter(s);
        if rest == "" {
          NoWords();
          OneWord(s);
        } else if IsSpace(JavaScript, rest[0]) {
          TightHasWords(rest);
          JoinOneMore([s[0]], Words(rest));
        } else {
          JoinFirst([s[0]], Words(rest)[0], Words(rest)[1..]);
          HeadTail(Words(rest));
        }
      }
    }
  }

  lemma NoWords()
    ensures Words("") == [] && Join([], ' ') == ""
  {
  }

  lemma OneWord(s: string)
    requires |s| == 1
    ensures Join([[s[0]]] + [], ' ') == s
  {
  }

  lemma {:induction false} WordsOfPadded(s: string, c: char)
    requires IsSpace(JavaScript, c)
    ensures Words(s + [c]) == Words(s)
    decreases |s|
  {
    hide IsSpace;
    var padded := s + [c];
    if s == "" {
      assert padded[1..] == "";
    } else if IsSpace(JavaScript, s[0]) {
      assert padded[1..] == s[1..] + [c];
      WordsOfPadded(s[1..], c);
    } else {
      var n := WordLength(s);
      assert WordLength(padded) == n by {
        assert padded[n] == if n < |s| then s[n] else c;
      }
      assert padded[..n] == s[..n] && padded[n..] == s[n..] + [c];
      WordsOfPadded(s[n..], c);
    }
  }

  lemma {:induction false} WordsOfTrimEnd(s: string)
    ensures Words(TrimEnd(JavaScript, s)) == Words(s)
  {
    hide IsSpace, Words;
    if s != "" && IsSpace(JavaScript, s[|s| - 1]) {
      InitLast(s);
      WordsOfPadded(s[..|s| - 1], s[|s| - 1]);
      WordsOfTrimEnd(s[..|s| - 1]);
    }
  }

  lemma {:induction false} WordsOfTrimStart(s: string)
    ensures Words(TrimStart(JavaScript, s)) == Words(s)
  {
    hide IsSpace, Words;
    if s != "" && IsSpace(JavaScript, s[0]) {
      WordsAtSpace(s);
      WordsOfTrimStart(s[1..]);
    }
  }

  /** The normalized text is the words with single spaces between them. */
  lemma NormalizedIsWords(s: string)
    ensures NormalizeText(s) == Join(Words(s), ' ')
  {
    hide IsSpace, Words, Join, Squeeze, TrimStart, TrimEnd;
    var t := Trim(JavaScript, s);
    TrimIsTight(JavaScript, s);
    WordsOfTrimEnd(s);
    WordsOfTrimStart(TrimEnd(JavaScript, s));
    SqueezeJoins(t);
    NothingAdded(Join(Words(t), ' '));
  }

  lemma {:induction false} WordsAreWords(s: string)
    ensures forall i | 0 <= i < |Words(s)| :: Words(s)[i] != "" && ' ' !in Words(s)[i]
    decreases |s|
  {
    if s == "" {
    } else if IsSpace(JavaScript, s[0]) {
      WordsAreWords(s[1..]);
    } else {
      var n := WordLength(s);
      WordsAreWords(s[n..]);
      assert IsSpace(JavaScript, ' ');
      assert ' ' !in s[..n];
    }
    hide IsSpace;
  }

  lemma WordsFromJoin(s: string)
    ensures Words(s) == if Join(Words(s), ' ') == "" then [] else Split(Join(Words(s), ' '), ' ')
  {
    var words := Words(s);
    WordsAreWords(s);
    hide Words;
    if words != [] {
      SplitOfJoin(words, ' ');
      assert words[0] != "";
    }
    hide Split;
  }

  /** Two segments share a translation exactly when they have the same key and the same words. */
  lemma SlotIff(a: string, s: string, b: string, t: string)
    ensures Slot(a, s) == Slot(b, t) <==> a == b && Words(s) == Words(t)
  {
    hide Words, Join, Split, NormalizeText;
    NormalizedIsWords(s);
    NormalizedIsWords(t);
    WordsFromJoin(s);
    WordsFromJoin(t);
  }

  lemma SlotHasKey(key: string, text: string)
    ensures Slot(key, text).key == key
  {
  }
}

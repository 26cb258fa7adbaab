/** Sending links to the localized version of a page, through redirects. */
module Links {
  import opened Wrappers
  import opened Text

  datatype RouteIndex = RouteIndex(
    targetLang: string,
    redirects: map<string, string>,
    sourceRoutes: set<string>,
    localizedRoutes: set<string>,
    localePrefixes: set<string>)

  // Routes ------------------------------------------------------------------------

  function TrimLeftSlashes(s: string): string {
    if s != "" && s[0] == '/' then TrimLeftSlashes(s[1..]) else s
  }

  function TrimRightSlashes(s: string): string {
    if s != "" && s[|s| - 1] == '/' then TrimRightSlashes(s[..|s| - 1]) else s
  }

  function NormalizeRoute(path: string): string {
    var trimmed := Trim(Go, path);
    if trimmed == "" then ""
    else
      var stripped := TrimLeftSlashes(TrimRightSlashes(trimmed));
      if stripped == "" then "/" else "/" + stripped
  }

  lemma NormalizedStartsWithSlash(path: string)
    ensures NormalizeRoute(path) != "" ==> NormalizeRoute(path)[0] == '/'
  {
  }

  datatype Redirect = Redirect(source: string, destination: string)

  /** Every redirect leads to a route. */
  predicate RedirectsToRoutes(redirects: map<string, string>) {
    forall source | source in redirects :: redirects[source] != "" && redirects[source][0] == '/'
  }

  function RedirectsOf(items: seq<Redirect>): map<string, string> {
    if items == [] then map[]
    else
      var before, last := RedirectsOf(items[..|items| - 1]), items[|items| - 1];
      var source, destination := NormalizeRoute(last.source), NormalizeRoute(last.destination);
      if source == "" || destination == "" then before else before[source := destination]
  }

  /** Item `i` sends route `a` to route `b`. */
  predicate Sends(items: seq<Redirect>, i: int, a: string, b: string) {
    && 0 <= i < |items| && a != "" && b != ""
    && a == NormalizeRoute(items[i].source) && b == NormalizeRoute(items[i].destination)
  }

  /** The last item that sends `a` anywhere sends it to `b`. */
  ghost predicate Hop(items: seq<Redirect>, a: string, b: string) {
    exists i :: Sends(items, i, a, b) && forall j, c | i < j :: !Sends(items, j, a, c)
  }

  /** The map says exactly what the items say, the later ones first. */
  ghost predicate Loaded(redirects: map<string, string>, items: seq<Redirect>) {
    forall a, b :: Hop(items, a, b) <==> a in redirects && redirects[a] == b
  }

  lemma {:induction false} RedirectsAreHops(items: seq<Redirect>)
    ensures Loaded(RedirectsOf(items), items)
  {
    hide NormalizeRoute;
    if items == [] {
      assert RedirectsOf(items) == map[];
    } else {
      var n := |items| - 1;
      var front := items[..n];
      RedirectsAreHops(front);
      forall a, b
        ensures Hop(items, a, b) <==> a in RedirectsOf(items) && RedirectsOf(items)[a] == b
      {
        HopOneMore(items, a, b);
      }
    }
  }

  lemma HopOneMore(items: seq<Redirect>, a: string, b: string)
    requires items != []
    ensures var n := |items| - 1;
            var front, to := items[..n], NormalizeRoute(items[n].destination);
            Hop(items, a, b) <==> if Sends(items, n, a, to) then b == to else Hop(front, a, b)
  {
    hide NormalizeRoute;
    var n := |items| - 1;
    var front, to := items[..n], NormalizeRoute(items[n].destination);
    forall j, c
      ensures Sends(items, j, a, c) <==> Sends(front, j, a, c) || (j == n && Sends(items, n, a, to) && c == to)
    {
    }
    if Hop(front, a, b) && !Sends(items, n, a, to) {
      var i :| Sends(front, i, a, b) && forall j, c | i < j :: !Sends(front, j, a, c);
      assert Sends(items, i, a, b);
    }
    if Hop(items, a, b) && !Sends(items, n, a, to) {
      var i :| Sends(items, i, a, b) && forall j, c | i < j :: !Sends(items, j, a, c);
      assert Sends(front, i, a, b);
    }
    if Sends(items, n, a, to) {
      assert Hop(items, a, to);
    }
  }

  method LoadRedirects(items: seq<Redirect>) returns (redirects: map<string, string>)
    ensures redirects == RedirectsOf(items) && RedirectsToRoutes(redirects)
    ensures Loaded(redirects, items)
  {
    redirects := map[];
    for i := 0 to |items|
      invariant redirects == RedirectsOf(items[..i]) && RedirectsToRoutes(redirects)
    {
      assert items[..i + 1][..i] == items[..i];
      var source := NormalizeRoute(items[i].source);
      var destination := NormalizeRoute(items[i].destination);
      NormalizedStartsWithSlash(items[i].destination);
      hide NormalizeRoute;
      if source == "" || destination == "" {
        continue;
      }
      redirects := redirects[source := destination];
    }
    assert items[..|items|] == items;
    hide Loaded;
    RedirectsAreHops(items);
  }

  // Following redirects --------------------------------------------------------------

  /** The route after `k` redirects, if there are so many. */
  function Nth(redirects: map<string, string>, from: string, k: nat): Option<string> {
    if k == 0 then Some(from)
    else
      var before := Nth(redirects, from, k - 1);
      if before.Some? && before.value in redirects then Some(redirects[before.value]) else None
  }

  /** Where the chain of redirects from a route ends. */
  ghost predicate EndsAt(redirects: map<string, string>, from: string, end: string) {
    end !in redirects && exists k: nat :: Nth(redirects, from, k) == Some(end)
  }

  /** The loop: follows redirects until there is none, or a route comes back. */
  function ChainEnd(redirects: map<string, string>, current: string, seen: set<string>): Option<string>
    requires current in seen
    decreases redirects.Keys - seen, if current in redirects then 1 else 0
  {
    if current !in redirects then Some(current)
    else
      var next := redirects[current];
      if next in seen then None
      else
        assert next in redirects ==> next in redirects.Keys - seen && next !in redirects.Keys - (seen + {next});
        assert redirects.Keys - (seen + {next}) <= redirects.Keys - seen;
        assert next !in redirects ==> redirects.Keys - (seen + {next}) == redirects.Keys - seen;
        ChainEnd(redirects, next, seen + {next})
  }

  predicate Served(ri: RouteIndex, route: string) {
    if route == "/" then route in ri.localizedRoutes else route in ri.sourceRoutes || route in ri.localizedRoutes
  }

  function Resolve(ri: RouteIndex, route: string): Option<string> {
    var start := NormalizeRoute(route);
    if start == "" then None
    else
      var end := ChainEnd(ri.redirects, start, {start});
      if end.Some? && Served(ri, end.value) then end else None
  }

  /** Terminates on every redirect map, cyclic ones included. */
  method ResolveRoute(ri: RouteIndex, route: string) returns (canonical: string, ok: bool)
    ensures ok <==> Resolve(ri, route).Some?
    ensures ok ==> Resolve(ri, route) == Some(canonical)
  {
    var current := NormalizeRoute(route);
    if current == "" {
      return "", false;
    }
    hide NormalizeRoute;
    var seen := {current};
    ghost var end := ChainEnd(ri.redirects, current, seen);
    while current in ri.redirects
      invariant current in seen && ChainEnd(ri.redirects, current, seen) == end
      decreases ri.redirects.Keys - seen, if current in ri.redirects then 1 else 0
    {
      ghost var before, from := seen, current;
      current := ri.redirects[current];
      if current in seen {
        return "", false;
      }
      seen := seen + {current};
      assert current in ri.redirects ==> current in ri.redirects.Keys - before && current !in ri.redirects.Keys - seen;
      assert ri.redirects.Keys - seen <= ri.redirects.Keys - before;
      assert current !in ri.redirects ==> ri.redirects.Keys - seen == ri.redirects.Keys - before;
    }
    if current == "/" {
      return current, current in ri.localizedRoutes;
    }
    if current in ri.sourceRoutes {
      return current, true;
    }
    if current in ri.localizedRoutes {
      return current, true;
    }
    return "", false;
  }

  lemma {:induction false} NthAfter(redirects: map<string, string>, from: string, i: nat, k: nat)
    requires Nth(redirects, from, i).Some?
    ensures Nth(redirects, from, i + k) == Nth(redirects, Nth(redirects, from, i).value, k)
  {
    if k == 0 {
    } else {
      NthAfter(redirects, from, i, k - 1);
    }
  }

  lemma {:induction false} NothingAfterEnd(redirects: map<string, string>, from: string, i: nat, k: nat)
    requires Nth(redirects, from, i).Some? && Nth(redirects, from, i).value !in redirects && k > i
    ensures Nth(redirects, from, k).None?
  {
    if k > i + 1 {
      NothingAfterEnd(redirects, from, i, k - 1);
    }
  }

  lemma {:induction false} EarlierAreSome(redirects: map<string, string>, from: string, i: nat, k: nat)
    requires Nth(redirects, from, k).Some? && i <= k
    ensures Nth(redirects, from, i).Some?
  {
    if i < k {
      EarlierAreSome(redirects, from, i, k - 1);
    }
  }

  /** A chain has at most one end. */
  lemma EndIsUnique(redirects: map<string, string>, from: string, a: string, b: string)
    requires EndsAt(redirects, from, a) && EndsAt(redirects, from, b)
    ensures a == b
  {
    var i: nat :| Nth(redirects, from, i) == Some(a);
    var j: nat :| Nth(redirects, from, j) == Some(b);
    if i < j {
      NothingAfterEnd(redirects, from, i, j);
    } else if j < i {
      NothingAfterEnd(redirects, from, j, i);
    }
    hide Nth;
  }

  /** A chain that comes back to where it was has no end. */
  lemma CycleHasNoEnd(redirects: map<string, string>, from: string, i: nat, k: nat, end: string)
    requires i < k && Nth(redirects, from, i).Some? && Nth(redirects, from, i) == Nth(redirects, from, k)
    ensures !EndsAt(redirects, from, end)
  {
    if EndsAt(redirects, from, end) {
      hide Nth;
      var e: nat :| Nth(redirects, from, e) == Some(end);
      if e < k {
        NothingAfterEnd(redirects, from, e, k);
      } else {
        NthAfter(redirects, from, k, e - k);
        NthAfter(redirects, from, i, e - k);
        NothingAfterEnd(redirects, from, i + (e - k), e);
      }
      assert false;
    }
  }

  /** What has been seen is what the chain has passed. */
  ghost predicate Passed(redirects: map<string, string>, from: string, k: nat, current: string, seen: set<string>) {
    && Nth(redirects, from, k) == Some(current)
    && (forall r | r in seen :: exists i: nat :: i <= k && Nth(redirects, from, i) == Some(r))
  }

  lemma PassOn(redirects: map<string, string>, from: string, k: nat, current: string, seen: set<string>)
    requires Passed(redirects, from, k, current, seen) && current in redirects
    ensures Nth(redirects, from, k + 1) == Some(redirects[current])
    ensures Passed(redirects, from, k + 1, redirects[current], seen + {redirects[current]})
  {
    assert Nth(redirects, from, k + 1) == Some(redirects[current]);
    hide Nth;
    var next := redirects[current];
    forall r | r in seen + {next}
      ensures exists i: nat :: i <= k + 1 && Nth(redirects, from, i) == Some(r)
    {
      if r in seen {
        var i: nat :| i <= k && Nth(redirects, from, i) == Some(r);
      }
    }
  }

  lemma {:induction false} ChainEndFollows(
    redirects: map<string, string>, from: string, k: nat, current: string, seen: set<string>)
    requires current in seen && Passed(redirects, from, k, current, seen)
    ensures var last := ChainEnd(redirects, current, seen);
            if last.Some? then EndsAt(redirects, from, last.value) else forall end :: !EndsAt(redirects, from, end)
    decreases redirects.Keys - seen, if current in redirects then 1 else 0
  {
    if current in redirects {
      var next := redirects[current];
      PassOn(redirects, from, k, current, seen);
      if next in seen {
        var i: nat :| i <= k && Nth(redirects, from, i) == Some(next);
        forall end
          ensures !EndsAt(redirects, from, end)
        {
          CycleHasNoEnd(redirects, from, i, k + 1, end);
        }
      } else {
        assert next in redirects ==> next in redirects.Keys - seen && next !in redirects.Keys - (seen + {next});
        assert redirects.Keys - (seen + {next}) <= redirects.Keys - seen;
        assert next !in redirects ==> redirects.Keys - (seen + {next}) == redirects.Keys - seen;
        ChainEndFollows(redirects, from, k + 1, next, seen + {next});
      }
    }
    hide Nth;
  }

  /** A route resolves exactly to the end of its chain, when there is one and it is served. */
  lemma ResolvesIff(ri: RouteIndex, route: string, canonical: string)
    ensures Resolve(ri, route) == Some(canonical)
            <==> NormalizeRoute(route) != "" && EndsAt(ri.redirects, NormalizeRoute(route), canonical)
                 && Served(ri, canonical)
  {
    hide NormalizeRoute, EndsAt, Served;
    var start := NormalizeRoute(route);
    StartPassed(ri.redirects, start);
    ChainEndFollows(ri.redirects, start, 0, start, {start});
    var end := ChainEnd(ri.redirects, start, {start});
    if end.Some? && EndsAt(ri.redirects, start, canonical) {
      EndIsUnique(ri.redirects, start, end.value, canonical);
    }
    hide ChainEnd, Passed;
  }

  lemma StartPassed(redirects: map<string, string>, start: string)
    ensures Passed(redirects, start, 0, start, {start})
  {
    assert Nth(redirects, start, 0) == Some(start);
  }

  // Localizing a link -------------------------------------------------------------------

  predicate HasURLScheme(raw: string) {
    || StartsWith(raw, "http://") || StartsWith(raw, "https://")
    || StartsWith(raw, "mailto:") || StartsWith(raw, "tel:")
    || StartsWith(raw, "data:") || StartsWith(raw, "javascript:")
  }

  predicate Marks(c: char) {
    c == '?' || c == '#'
  }

  /** Where the query or the fragment starts. */
  function PathLength(raw: string): (n: nat)
    ensures n <= |raw| && (forall i | 0 <= i < n :: !Marks(raw[i])) && (n < |raw| ==> Marks(raw[n]))
  {
    if raw == "" || Marks(raw[0]) then 0 else 1 + PathLength(raw[1..])
  }

  function PrefixLocaleRoute(lang: string, route: string): string {
    if route == "/" then "/" + lang else "/" + lang + route
  }

  function FirstSegment(route: string): string {
    Split(if StartsWith(route, "/") then route[1..] else route, '/')[0]
  }

  predicate HasLocalePrefix(ri: RouteIndex, route: string) {
    route != "/" && FirstSegment(route) != "" && FirstSegment(route) in ri.localePrefixes
  }

  function LocalizeURL(ri: RouteIndex, raw: string): string {
    var trimmed := Trim(Go, raw);
    if trimmed == "" then raw
    else if StartsWith(trimmed, "#") || StartsWith(trimmed, "//") then raw
    else if HasURLScheme(trimmed) then raw
    else
      var pathPart, suffix := trimmed[..PathLength(trimmed)], trimmed[PathLength(trimmed)..];
      if !StartsWith(pathPart, "/") then raw
      else
        var normalized := NormalizeRoute(pathPart);
        if HasLocalePrefix(ri, normalized) then raw
        else
          var canonical := Resolve(ri, normalized);
          if canonical.None? || canonical.value !in ri.localizedRoutes then raw
          else PrefixLocaleRoute(ri.targetLang, canonical.value) + suffix
  }

  /** A site-absolute path, without and with what follows it. */
  ghost predicate IsSiteLink(raw: string, path: string, suffix: string) {
    && Trim(Go, raw) == path + suffix
    && path != "" && path[0] == '/' && !StartsWith(path + suffix, "//")
    && (forall i | 0 <= i < |path| :: !Marks(path[i])) && (suffix != "" ==> Marks(suffix[0]))
  }

  lemma PathLengthOf(path: string, suffix: string)
    requires (forall i | 0 <= i < |path| :: !Marks(path[i])) && (suffix != "" ==> Marks(suffix[0]))
    ensures PathLength(path + suffix) == |path|
  {
    var trimmed := path + suffix;
    assert forall i | 0 <= i < |path| :: trimmed[i] == path[i];
    assert suffix != "" ==> trimmed[|path|] == suffix[0];
  }

  lemma SiteLinkLocalizes(ri: RouteIndex, raw: string, path: string, suffix: string)
    requires IsSiteLink(raw, path, suffix)
    ensures var normalized := NormalizeRoute(path);
            var canonical := Resolve(ri, normalized);
            LocalizeURL(ri, raw)
            == if HasLocalePrefix(ri, normalized) || canonical.None? || canonical.value !in ri.localizedRoutes then raw
               else PrefixLocaleRoute(ri.targetLang, canonical.value) + suffix
  {
    hide Marks, Trim, HasURLScheme, NormalizeRoute, HasLocalePrefix, Resolve, PrefixLocaleRoute;
    PathLengthOf(path, suffix);
    SplitSum(path, suffix);
    assert (path + suffix)[0] == '/';
    SchemeStartsWithLetter(path + suffix);
    assert path[..1] == "/";
  }

  /**
   A link changes only to the localized version of the page its redirects end at, and
   keeps its query and fragment. It does change exactly when it is a site-absolute link
   without a locale prefix whose chain ends at a localized route.
   */
  lemma LinkBecomes(ri: RouteIndex, raw: string, path: string, suffix: string)
    requires IsSiteLink(raw, path, suffix)
    ensures var start := NormalizeRoute(NormalizeRoute(path));
            forall end | EndsAt(ri.redirects, start, end) ::
              LocalizeURL(ri, raw)
              == if !HasLocalePrefix(ri, NormalizeRoute(path)) && end in ri.localizedRoutes
                 then PrefixLocaleRoute(ri.targetLang, end) + suffix else raw
    ensures (forall end :: !EndsAt(ri.redirects, NormalizeRoute(NormalizeRoute(path)), end))
            ==> LocalizeURL(ri, raw) == raw
  {
    assert path != "" && path[0] == '/';
    hide NormalizeRoute, Trim, EndsAt, HasLocalePrefix, Resolve, LocalizeURL, IsSiteLink, PrefixLocaleRoute;
    var normalized := NormalizeRoute(path);
    var start := NormalizeRoute(normalized);
    SiteLinkLocalizes(ri, raw, path, suffix);
    NormalizeOfRoute(path);
    NormalizeOfRoute(normalized);
    forall end
      ensures Resolve(ri, normalized) == Some(end) <==> EndsAt(ri.redirects, start, end) && Served(ri, end)
    {
      ResolvesIff(ri, normalized, end);
    }
    forall a, b | EndsAt(ri.redirects, start, a) && EndsAt(ri.redirects, start, b)
      ensures a == b
    {
      EndIsUnique(ri.redirects, start, a, b);
    }
  }

  lemma NormalizeOfRoute(path: string)
    requires path != "" && path[0] == '/'
    ensures NormalizeRoute(path) != "" && NormalizeRoute(path)[0] == '/'
  {
    TrimKeeps(path, 0);
    hide Trim;
  }

  lemma SchemeStartsWithLetter(s: string)
    requires s != "" && s[0] == '/'
    ensures !HasURLScheme(s) && !StartsWith(s, "#")
  {
    CharOfPrefix(s, "http://", 0);
    CharOfPrefix(s, "https://", 0);
    CharOfPrefix(s, "mailto:", 0);
    CharOfPrefix(s, "tel:", 0);
    CharOfPrefix(s, "data:", 0);
    CharOfPrefix(s, "javascript:", 0);
    CharOfPrefix(s, "#", 0);
    hide StartsWith;
  }

  /** Anything else is left alone. */
  lemma OtherLinksStay(ri: RouteIndex, raw: string)
    ensures LocalizeURL(ri, raw) == raw || exists path, suffix :: IsSiteLink(raw, path, suffix)
  {
    var trimmed := Trim(Go, raw);
    var n := PathLength(trimmed);
    hide Trim, Resolve, NormalizeRoute, HasURLScheme, HasLocalePrefix;
    if LocalizeURL(ri, raw) != raw {
      assert trimmed[..n] + trimmed[n..] == trimmed;
      CharOfPrefix(trimmed[..n], "/", 0);
      assert IsSiteLink(raw, trimmed[..n], trimmed[n..]);
    }
  }

  // Localizing twice ----------------------------------------------------------------------

  /** A locale as it can name a directory, without white space around it. */
  predicate IsLang(lang: string) {
    lang != "" && '/' !in lang && Trim(Go, lang) == lang
  }

  predicate MarkFree(s: string) {
    forall i | 0 <= i < |s| :: !Marks(s[i])
  }

  /** The localized root, or something below it. */
  predicate Below(lang: string, s: string) {
    "/" + lang <= s && (|s| == 1 + |lang| || s[1 + |lang|] == '/')
  }

  predicate BelowOrMarked(lang: string, s: string) {
    "/" + lang <= s && (|s| == 1 + |lang| || s[1 + |lang|] == '/' || Marks(s[1 + |lang|]))
  }

  lemma {:induction false} TrimEndKeeps(s: string, k: nat)
    requires k < |s| && !IsSpace(Go, s[k])
    ensures k < |TrimEnd(Go, s)| && TrimEnd(Go, s) <= s
  {
    if IsSpace(Go, s[|s| - 1]) {
      TrimEndKeeps(s[..|s| - 1], k);
    }
  }

  lemma {:induction false} TrimRightKeeps(s: string, k: nat)
    requires k < |s| && s[k] != '/'
    ensures k < |TrimRightSlashes(s)| && TrimRightSlashes(s) <= s
  {
    if s[|s| - 1] == '/' {
      TrimRightKeeps(s[..|s| - 1], k);
    }
  }

  /** Trimming takes nothing from a string that starts with a non-blank and has another at `k`. */
  lemma TrimKeeps(s: string, k: nat)
    requires k < |s| && !IsSpace(Go, s[0]) && !IsSpace(Go, s[k])
    ensures k < |Trim(Go, s)| && Trim(Go, s) <= s
  {
    TrimEndKeeps(s, k);
    var t := TrimEnd(Go, s);
    assert t[0] == s[0];
    hide TrimEnd;
  }

  lemma LangEnds(lang: string)
    requires IsLang(lang)
    ensures !IsSpace(Go, lang[0]) && !IsSpace(Go, lang[|lang| - 1]) && lang[0] != '/' && lang[|lang| - 1] != '/'
  {
    TrimIsTight(Go, lang);
    hide Trim, IsSpace;
  }

  lemma PrefixAt(lang: string, s: string)
    requires "/" + lang <= s && lang != ""
    ensures |s| >= 1 + |lang| && s[0] == '/' && s[1] == lang[0] && s[|lang|] == lang[|lang| - 1]
    ensures s[1..1 + |lang|] == lang
  {
    var p := "/" + lang;
    assert s[..|p|] == p;
    assert s[0] == p[0] && s[1] == p[1] && s[|lang|] == p[|lang|];
  }

  lemma PrefixOfLonger(p: string, t: string, s: string)
    requires p <= s && t <= s && |t| >= |p|
    ensures p <= t
  {
  }

  /** Below the localized root, normalizing stays below it. */
  lemma NormalizeBelow(lang: string, s: string)
    requires IsLang(lang) && Below(lang, s)
    ensures Below(lang, NormalizeRoute(s))
  {
    LangEnds(lang);
    PrefixAt(lang, s);
    TrimKeeps(s, |lang|);
    var t := Trim(Go, s);
    PrefixOfLonger("/" + lang, t, s);
    PrefixAt(lang, t);
    TrimRightKeeps(t, |lang|);
    var u := TrimRightSlashes(t);
    PrefixOfLonger("/" + lang, u, t);
    PrefixAt(lang, u);
    assert TrimLeftSlashes(u) == u[1..] by {
      assert u[1..][0] == u[1];
    }
    assert "/" + u[1..] == u;
    hide Trim, TrimRightSlashes, TrimLeftSlashes, IsSpace, IsLang;
  }

  lemma BelowHasPrefix(ri: RouteIndex, s: string)
    requires IsLang(ri.targetLang) && ri.targetLang in ri.localePrefixes && Below(ri.targetLang, s)
    ensures HasLocalePrefix(ri, s)
  {
    var lang := ri.targetLang;
    PrefixAt(lang, s);
    SplitOfPlain(lang, '/');
    if |s| == 1 + |lang| {
      assert s[1..] == lang;
    } else {
      assert s[1..] == lang + ['/'] + s[2 + |lang|..];
      SplitAtSep(lang, '/', s[2 + |lang|..]);
    }
    hide Split, Trim;
  }

  /** A link below the localized root is left alone. */
  lemma LocalizedStays(ri: RouteIndex, raw: string)
    requires IsLang(ri.targetLang) && ri.targetLang in ri.localePrefixes && MarkFree(ri.targetLang)
    requires BelowOrMarked(ri.targetLang, raw)
    ensures LocalizeURL(ri, raw) == raw
  {
    var lang := ri.targetLang;
    LangEnds(lang);
    PrefixAt(lang, raw);
    TrimKeeps(raw, |lang|);
    var trimmed := Trim(Go, raw);
    PrefixOfLonger("/" + lang, trimmed, raw);
    PrefixAt(lang, trimmed);
    var n := PathLength(trimmed);
    MarksComeLater(lang, trimmed, n);
    PrefixOfLonger("/" + lang, trimmed[..n], trimmed);
    assert Below(lang, trimmed[..n]);
    NormalizeBelow(lang, trimmed[..n]);
    BelowHasPrefix(ri, NormalizeRoute(trimmed[..n]));
    hide Trim, IsSpace, NormalizeRoute, HasLocalePrefix, Resolve, HasURLScheme, StartsWith, IsLang;
  }

  lemma MarksComeLater(lang: string, s: string, n: nat)
    requires "/" + lang <= s && MarkFree(lang) && n <= |s| && (n < |s| ==> Marks(s[n]))
    ensures n >= 1 + |lang|
  {
    var p := "/" + lang;
    forall i | 0 <= i < |p|
      ensures !Marks(s[i])
    {
      assert s[i] == p[i] == if i == 0 then '/' else lang[i - 1];
    }
  }

  lemma LocalizedIsBelow(ri: RouteIndex, raw: string)
    requires RedirectsToRoutes(ri.redirects) && LocalizeURL(ri, raw) != raw
    ensures BelowOrMarked(ri.targetLang, LocalizeURL(ri, raw))
  {
    var trimmed := Trim(Go, raw);
    var n := PathLength(trimmed);
    var normalized := NormalizeRoute(trimmed[..n]);
    var end := Resolve(ri, normalized).value;
    EndIsRoute(ri, normalized);
    hide Trim, NormalizeRoute, HasLocalePrefix, Resolve, HasURLScheme;
    PrefixedIsBelow(ri.targetLang, end, trimmed[n..]);
  }

  lemma PrefixedIsBelow(lang: string, end: string, suffix: string)
    requires end != "" && end[0] == '/' && (suffix != "" ==> Marks(suffix[0]))
    ensures BelowOrMarked(lang, PrefixLocaleRoute(lang, end) + suffix)
  {
  }

  lemma {:induction false} EndIsRoute(ri: RouteIndex, route: string)
    requires RedirectsToRoutes(ri.redirects) && Resolve(ri, route).Some?
    ensures Resolve(ri, route).value != "" && Resolve(ri, route).value[0] == '/'
  {
    NormalizedStartsWithSlash(route);
    hide NormalizeRoute;
    var start := NormalizeRoute(route);
    ChainStaysRoute(ri.redirects, start, {start});
  }

  lemma {:induction false} ChainStaysRoute(redirects: map<string, string>, current: string, seen: set<string>)
    requires RedirectsToRoutes(redirects) && current in seen && current != "" && current[0] == '/'
    requires ChainEnd(redirects, current, seen).Some?
    ensures var end := ChainEnd(redirects, current, seen).value; end != "" && end[0] == '/'
    decreases redirects.Keys - seen, if current in redirects then 1 else 0
  {
    if current in redirects {
      var next := redirects[current];
      assert next in redirects ==> next in redirects.Keys - seen && next !in redirects.Keys - (seen + {next});
      assert redirects.Keys - (seen + {next}) <= redirects.Keys - seen;
      assert next !in redirects ==> redirects.Keys - (seen + {next}) == redirects.Keys - seen;
      ChainStaysRoute(redirects, next, seen + {next});
    }
  }

  ghost predicate Idempotent(lang: string) {
    forall ri: RouteIndex, raw: string |
      ri.targetLang == lang && lang in ri.localePrefixes && RedirectsToRoutes(ri.redirects) ::
      LocalizeURL(ri, LocalizeURL(ri, raw)) == LocalizeURL(ri, raw)
  }

  lemma LocalizeTwice(ri: RouteIndex, raw: string)
    requires IsLang(ri.targetLang) && ri.targetLang in ri.localePrefixes && MarkFree(ri.targetLang)
    requires RedirectsToRoutes(ri.redirects)
    ensures LocalizeURL(ri, LocalizeURL(ri, raw)) == LocalizeURL(ri, raw)
  {
    hide *;
    if LocalizeURL(ri, raw) != raw {
      LocalizedIsBelow(ri, raw);
      LocalizedStays(ri, LocalizeURL(ri, raw));
    }
  }

  /** The locale that breaks: cut at its mark, its start is a route of its own. */
  function Breaking(lang: string): RouteIndex {
    var cut := NormalizeRoute(NormalizeRoute("/" + lang[..PathLength(lang)]));
    RouteIndex(lang, map[], {}, {"/a", cut}, {lang})
  }

  lemma ShortLink(ri: RouteIndex)
    requires ri.redirects == map[] && "/a" in ri.localizedRoutes && "a" !in ri.localePrefixes
    ensures LocalizeURL(ri, "/a") == "/" + ri.targetLang + "/a"
  {
    TrimOfTight(Go, "/a");
    TrimOfTight(Go, "/a/");
    assert IsSiteLink("/a", "/a", "");
    assert NormalizeRoute("/a") == "/a" by {
      assert TrimRightSlashes("/a") == "/a";
      assert TrimLeftSlashes("/a") == TrimLeftSlashes("/a"[1..]) && "/a"[1..] == "a";
      assert TrimLeftSlashes("a") == "a";
    }
    assert FirstSegment("/a") == "a" by {
      assert "/a"[1..] == "a";
      SplitOfPlain("a", '/');
    }
    OwnEnd(ri.redirects, "/a");
    LinkBecomes(ri, "/a", "/a", "");
    NothingAdded("/" + ri.targetLang + "/a");
    hide NormalizeRoute, Trim, LocalizeURL, EndsAt, FirstSegment;
  }

  lemma OwnEnd(redirects: map<string, string>, route: string)
    requires route !in redirects
    ensures EndsAt(redirects, route, route)
  {
    assert Nth(redirects, route, 0) == Some(route);
  }

  /** A locale with a mark cuts its own links short: localizing again does not stop. */
  lemma MarkedLangBreaks(lang: string)
    requires IsLang(lang) && !MarkFree(lang)
    ensures !Idempotent(lang)
  {
    var ri := Breaking(lang);
    var n := PathLength(lang);
    var path, suffix := "/" + lang[..n], lang[n..] + "/a";
    var once := "/" + lang + "/a";
    NoMarkInA(lang);
    ShortLink(ri);
    CutLink(lang, n);
    NormalizeOfRoute(path);
    NormalizeOfRoute(NormalizeRoute(path));
    var cut := NormalizeRoute(NormalizeRoute(path));
    OwnEnd(ri.redirects, cut);
    ShortHasNoPrefix(ri, path);
    LinkBecomes(ri, once, path, suffix);
    assert LocalizeURL(ri, once) == PrefixLocaleRoute(lang, cut) + suffix;
    assert |LocalizeURL(ri, once)| > |once|;
    hide NormalizeRoute, Trim, LocalizeURL, EndsAt, HasLocalePrefix, IsLang, PathLength;
    assert LocalizeURL(ri, LocalizeURL(ri, "/a")) != LocalizeURL(ri, "/a");
  }

  lemma NoMarkInA(lang: string)
    requires !MarkFree(lang)
    ensures lang != "a" && PathLength(lang) < |lang|
  {
  }

  lemma CutParts(lang: string, n: nat)
    requires n < |lang|
    ensures ("/" + lang[..n]) + (lang[n..] + "/a") == "/" + lang + "/a"
    ensures (lang[n..] + "/a")[0] == lang[n]
  {
    var a, b := lang[..n], lang[n..];
    assert a + b == lang;
    Assoc("/", a, b);
    Assoc("/" + a, b, "/a");
  }

  lemma CutMarks(lang: string, n: nat)
    requires n <= |lang| && forall i | 0 <= i < n :: !Marks(lang[i])
    ensures var path := "/" + lang[..n]; forall i | 0 <= i < |path| :: !Marks(path[i])
  {
    var path := "/" + lang[..n];
    forall i | 0 <= i < |path|
      ensures path[i] == if i == 0 then '/' else lang[i - 1]
    {
    }
  }

  lemma CutTight(lang: string)
    requires IsLang(lang)
    ensures Trim(Go, "/" + lang + "/a") == "/" + lang + "/a" && !StartsWith("/" + lang + "/a", "//")
  {
    var once := "/" + lang + "/a";
    LangEnds(lang);
    assert |once| == |lang| + 3 && once[0] == '/' && once[1] == lang[0] && once[|once| - 1] == 'a';
    hide IsLang, Trim;
    TrimOfTight(Go, once);
    assert once[..2][1] == once[1];
  }

  lemma CutLink(lang: string, n: nat)
    requires IsLang(lang) && n == PathLength(lang) < |lang|
    ensures IsSiteLink("/" + lang + "/a", "/" + lang[..n], lang[n..] + "/a")
  {
    hide Trim, IsLang, StartsWith;
    CutParts(lang, n);
    CutMarks(lang, n);
    CutTight(lang);
    assert ("/" + lang[..n])[0] == '/';
  }

  lemma {:induction false} SplitIsShort(s: string, sep: char)
    ensures |Split(s, sep)[0]| <= |s|
  {
    if s == "" {
    } else {
      SplitIsShort(s[1..], sep);
    }
  }

  lemma {:induction false} TrimmedIsShort(s: string)
    ensures |TrimEnd(Go, s)| <= |s| && |TrimStart(Go, s)| <= |s|
    ensures |TrimLeftSlashes(s)| <= |s| && |TrimRightSlashes(s)| <= |s|
    decreases |s|
  {
    if s == "" {
    } else {
      TrimmedIsShort(s[1..]);
      TrimmedIsShort(s[..|s| - 1]);
    }
    hide IsSpace;
  }

  lemma NormalizedIsShort(path: string)
    requires path != "" && path[0] == '/'
    ensures |NormalizeRoute(path)| <= |path|
  {
    TrimmedIsShort(path);
    TrimmedIsShort(TrimEnd(Go, path));
    TrimKeeps(path, 0);
    var t := Trim(Go, path);
    TrimmedIsShort(t);
    RightThenLeft(t);
    hide IsSpace;
  }

  /** Of a string that starts with a slash, trimming slashes takes one at least. */
  lemma RightThenLeft(t: string)
    requires t != "" && t[0] == '/'
    ensures |TrimLeftSlashes(TrimRightSlashes(t))| < |t|
  {
    var u := TrimRightSlashes(t);
    TrimmedIsShort(t);
    TrimRightStart(t);
    if u != "" {
      TrimmedIsShort(u[1..]);
    }
  }

  lemma {:induction false} TrimRightStart(t: string)
    requires t != ""
    ensures TrimRightSlashes(t) != "" ==> TrimRightSlashes(t)[0] == t[0]
  {
    if t[|t| - 1] == '/' && |t| > 1 {
      TrimRightStart(t[..|t| - 1]);
    }
  }

  lemma ShortHasNoPrefix(ri: RouteIndex, path: string)
    requires ri.localePrefixes == {ri.targetLang} && path != "" && path[0] == '/' && |path| <= |ri.targetLang|
    ensures !HasLocalePrefix(ri, NormalizeRoute(path))
  {
    NormalizedIsShort(path);
    NormalizeOfRoute(path);
    var r := NormalizeRoute(path);
    assert StartsWith(r, "/");
    SplitIsShort(r[1..], '/');
    hide NormalizeRoute;
  }

  /** Localizing twice is localizing once, whatever the routes, exactly for locales without `?` and `#`. */
  lemma IdempotentIff(lang: string)
    requires IsLang(lang)
    ensures Idempotent(lang) <==> MarkFree(lang)
  {
    if MarkFree(lang) {
      forall ri: RouteIndex, raw: string |
        ri.targetLang == lang && lang in ri.localePrefixes && RedirectsToRoutes(ri.redirects)
        ensures LocalizeURL(ri, LocalizeURL(ri, raw)) == LocalizeURL(ri, raw)
      {
        LocalizeTwice(ri, raw);
      }
    } else {
      MarkedLangBreaks(lang);
    }
    hide LocalizeURL, IsLang, MarkFree;
  }
}

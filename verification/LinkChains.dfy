/** Where links lead, in terms of the redirects as they were written and of the characters of a route. */
module LinkChains {
  import opened Wrappers
  import opened Text
  import opened Links

  // Routes -------------------------------------------------------------------------

  predicate AllSlashes(s: string) {
    forall i | 0 <= i < |s| :: s[i] == '/'
  }

  predicate AllBlank(s: string) {
    forall i | 0 <= i < |s| :: IsSpace(Go, s[i])
  }

  /** No slash and no white space at either end. */
  predicate IsCore(s: string) {
    s != "" && s[0] != '/' && s[|s| - 1] != '/' && !IsSpace(Go, s[0]) && !IsSpace(Go, s[|s| - 1])
  }

  lemma {:induction false} TrimEndOfBlank(s: string, blank: string)
    requires AllBlank(blank) && (s != "" ==> !IsSpace(Go, s[|s| - 1]))
    ensures TrimEnd(Go, s + blank) == s
    decreases |blank|
  {
    hide IsSpace;
    if blank == "" {
      assert s + blank == s;
    } else {
      assert (s + blank)[..|s + blank| - 1] == s + blank[..|blank| - 1];
      TrimEndOfBlank(s, blank[..|blank| - 1]);
    }
  }

  lemma {:induction false} TrimStartOfBlank(blank: string, s: string)
    requires AllBlank(blank) && (s != "" ==> !IsSpace(Go, s[0]))
    ensures TrimStart(Go, blank + s) == s
    decreases |blank|
  {
    hide IsSpace;
    if blank == "" {
      assert blank + s == s;
    } else {
      assert (blank + s)[1..] == blank[1..] + s;
      TrimStartOfBlank(blank[1..], s);
    }
  }

  lemma TrimOfBlank(blank: string, s: string, blank': string)
    requires AllBlank(blank) && AllBlank(blank')
    requires s != "" && !IsSpace(Go, s[0]) && !IsSpace(Go, s[|s| - 1])
    ensures Trim(Go, blank + s + blank') == s
  {
    hide IsSpace, TrimEnd, TrimStart;
    TrimEndOfBlank(blank + s, blank');
    TrimStartOfBlank(blank, s);
  }

  lemma {:induction false} TrimRightOfSlashes(s: string, slashes: string)
    requires AllSlashes(slashes) && (s != "" ==> s[|s| - 1] != '/')
    ensures TrimRightSlashes(s + slashes) == s
    decreases |slashes|
  {
    if slashes == "" {
      assert s + slashes == s;
    } else {
      assert (s + slashes)[..|s + slashes| - 1] == s + slashes[..|slashes| - 1];
      TrimRightOfSlashes(s, slashes[..|slashes| - 1]);
    }
  }

  lemma {:induction false} TrimLeftOfSlashes(slashes: string, s: string)
    requires AllSlashes(slashes) && (s != "" ==> s[0] != '/')
    ensures TrimLeftSlashes(slashes + s) == s
    decreases |slashes|
  {
    if slashes == "" {
      assert slashes + s == s;
    } else {
      assert (slashes + s)[1..] == slashes[1..] + s;
      TrimLeftOfSlashes(slashes[1..], s);
    }
  }

  /** A route is its core behind one slash, whatever blanks and slashes are around it. */
  lemma NormalizedCore(blank: string, left: string, core: string, right: string, blank': string)
    requires AllBlank(blank) && AllBlank(blank') && AllSlashes(left) && AllSlashes(right) && IsCore(core)
    ensures NormalizeRoute(blank + (left + core + right) + blank') == "/" + core
  {
    var s := left + core + right;
    SlashIsNoSpace();
    assert s[0] == if left != "" then '/' else core[0];
    assert s[|s| - 1] == if right != "" then '/' else core[|core| - 1];
    hide IsSpace, Trim, TrimLeftSlashes, TrimRightSlashes;
    TrimOfBlank(blank, s, blank');
    TrimRightOfSlashes(left + core, right);
    TrimLeftOfSlashes(left, core);
  }

  lemma SlashIsNoSpace()
    ensures !IsSpace(Go, '/')
  {
  }

  /** Slashes alone are the root, and blanks alone are no route. */
  lemma NormalizedSlashes(blank: string, slashes: string, blank': string)
    requires AllBlank(blank) && AllBlank(blank') && AllSlashes(slashes)
    ensures NormalizeRoute(blank + slashes + blank') == if slashes == "" then "" else "/"
  {
    SlashIsNoSpace();
    hide IsSpace, TrimLeftSlashes, TrimRightSlashes, TrimStart, TrimEnd;
    if slashes == "" {
      assert blank + slashes + blank' == "" + (blank + blank');
      TrimEndOfBlank("", blank + blank');
      TrimStartOfBlank("", "");
      assert "" + "" == "";
    } else {
      TrimOfBlank(blank, slashes, blank');
      TrimRightOfSlashes("", slashes);
      TrimLeftOfSlashes("", "");
      assert "" + slashes == slashes && "" + "" == "";
    }
  }

  /** A route has a locale prefix exactly when its first segment is the name of a locale. */
  lemma LocalePrefixIff(ri: RouteIndex, segment: string, rest: string)
    requires segment != "" && '/' !in segment && (rest != "" ==> rest[0] == '/')
    ensures HasLocalePrefix(ri, "/" + segment + rest) <==> segment in ri.localePrefixes
  {
    var route := "/" + segment + rest;
    assert route[..1] == "/" && route[1..] == segment + rest;
    SplitOfPlain(segment, '/');
    if rest == "" {
      assert segment + rest == segment;
    } else {
      assert segment + rest == segment + ['/'] + rest[1..];
      SplitAtSep(segment, '/', rest[1..]);
    }
    hide Split;
  }

  // Chains of redirects ---------------------------------------------------------------

  /** Each route is sent to the next one. */
  ghost predicate Chain(items: seq<Redirect>, path: seq<string>) {
    path != [] && forall k | 0 <= k < |path| - 1 :: Hop(items, path[k], path[k + 1])
  }

  ghost predicate ChainTo(items: seq<Redirect>, path: seq<string>, from: string, end: string) {
    Chain(items, path) && path[0] == from && path[|path| - 1] == end
  }

  lemma {:induction false} NthOfChain(redirects: map<string, string>, items: seq<Redirect>, path: seq<string>, k: nat)
    requires Loaded(redirects, items) && Chain(items, path) && k < |path|
    ensures Nth(redirects, path[0], k) == Some(path[k])
  {
    hide Hop;
    if k == 0 {
    } else {
      NthOfChain(redirects, items, path, k - 1);
      assert Hop(items, path[k - 1], path[k]);
    }
  }

  lemma {:induction false} ChainOfNth(
    redirects: map<string, string>, items: seq<Redirect>, from: string, k: nat) returns (path: seq<string>)
    requires Loaded(redirects, items) && Nth(redirects, from, k).Some?
    ensures |path| == k + 1 && ChainTo(items, path, from, Nth(redirects, from, k).value)
  {
    hide Hop;
    if k == 0 {
      path := [from];
    } else {
      var front := ChainOfNth(redirects, items, from, k - 1);
      path := front + [Nth(redirects, from, k).value];
      assert Hop(items, front[k - 1], Nth(redirects, from, k).value);
      forall j | 0 <= j < |path| - 1
        ensures Hop(items, path[j], path[j + 1])
      {
        if j < k - 1 {
          assert Hop(items, front[j], front[j + 1]);
        }
      }
    }
  }

  /** A route ends where a chain of written redirects leads and none leads on. */
  lemma EndsAtIff(redirects: map<string, string>, items: seq<Redirect>, from: string, end: string)
    requires Loaded(redirects, items)
    ensures EndsAt(redirects, from, end)
            <==> (exists path :: ChainTo(items, path, from, end)) && forall b :: !Hop(items, end, b)
  {
    hide Hop, Chain, Nth;
    if EndsAt(redirects, from, end) {
      var k: nat :| Nth(redirects, from, k) == Some(end);
      var path := ChainOfNth(redirects, items, from, k);
    }
    if path :| ChainTo(items, path, from, end) {
      ChainIsNotEmpty(items, path);
      NthOfChain(redirects, items, path, |path| - 1);
    }
    assert end in redirects ==> Hop(items, end, redirects[end]);
  }

  lemma ChainIsNotEmpty(items: seq<Redirect>, path: seq<string>)
    requires Chain(items, path)
    ensures path != []
  {
  }

  /**
   A route resolves to where the written redirects lead it, when there is a page: in the
   source, or localized; the root counts only when it is localized.
   */
  lemma ResolvesByHops(ri: RouteIndex, items: seq<Redirect>, route: string, canonical: string)
    requires Loaded(ri.redirects, items)
    ensures Resolve(ri, route) == Some(canonical)
            <==> && NormalizeRoute(route) != ""
                 && (exists path :: ChainTo(items, path, NormalizeRoute(route), canonical))
                 && (forall b :: !Hop(items, canonical, b))
                 && (canonical in ri.localizedRoutes || (canonical != "/" && canonical in ri.sourceRoutes))
  {
    hide Resolve, NormalizeRoute, EndsAt, Hop, ChainTo, Loaded;
    ResolvesIff(ri, route, canonical);
    EndsAtIff(ri.redirects, items, NormalizeRoute(route), canonical);
  }

  lemma SiteLinkOf(raw: string, path: string, suffix: string)
    requires Trim(Go, raw) == path + suffix && StartsWith(path, "/") && !StartsWith(path + suffix, "//")
    requires '?' !in path && '#' !in path && (suffix == "" || suffix[0] == '?' || suffix[0] == '#')
    ensures IsSiteLink(raw, path, suffix)
  {
    CharOfPrefix(path, "/", 0);
    hide Trim;
  }

  /**
   A site-absolute link, its page being a core between slashes without a locale in front, is
   sent to the localized version of the page that the written redirects lead to, when that is
   localized, with its query and fragment.
   */
  lemma LinkByHops(
    ri: RouteIndex, items: seq<Redirect>, raw: string, path: string, suffix: string, route: string, chain: seq<string>,
    end: string)
    requires Loaded(ri.redirects, items) && Trim(Go, raw) == path + suffix
    requires StartsWith(path, "/") && !StartsWith(path + suffix, "//")
    requires '?' !in path && '#' !in path && (suffix == "" || suffix[0] == '?' || suffix[0] == '#')
    requires route == NormalizeRoute(NormalizeRoute(path)) && ChainTo(items, chain, route, end)
    requires forall b :: !Hop(items, end, b)
    ensures LocalizeURL(ri, raw)
            == if HasLocalePrefix(ri, NormalizeRoute(path)) || end !in ri.localizedRoutes then raw
               else "/" + ri.targetLang + (if end == "/" then "" else end) + suffix
  {
    hide NormalizeRoute, HasLocalePrefix, LocalizeURL, IsSiteLink, EndsAt, ChainTo, Hop, Loaded;
    EndsAtIff(ri.redirects, items, route, end);
    SiteLinkOf(raw, path, suffix);
    LinkBecomes(ri, raw, path, suffix);
    NothingAdded("/" + ri.targetLang);
  }
}

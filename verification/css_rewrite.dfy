/**
 * The CSS fallback of the production build (lines 136 and 148-151 of the
 * helper): every relative `url(` reference in a stylesheet is re-rooted so
 * that it still resolves once the file is concatenated into
 * `<assets>/css/<group>.css`, two directories away from its source.
 *
 * The PCRE pattern is `url\((?!\s*(['"]?(((?:https?:)?//)|(?:data\:?:))))\s*(['"])?`
 * and the replacement `url($4<prefix>`: the match is case-sensitive, and the
 * whitespace between `url(` and the (optional) quote is consumed and dropped.
 */
module CssRewrite {
  import opened Wrappers
  import opened PathStrings

  /** PCRE's `\s` without the UTF-8 flag. */
  predicate IsSpace(c: char)
  {
    c == ' ' || c == '\t' || c == '\n' || c == '\r' || c as int == 11 || c as int == 12
  }

  predicate IsQuote(c: char)
  {
    c == '\'' || c == '"'
  }

  predicate AllSpace(s: string)
  {
    forall i :: 0 <= i < |s| ==> IsSpace(s[i])
  }

  /** How many characters `\s*` consumes at the start of `s`. */
  function SpaceRun(s: string): (n: nat)
    ensures n <= |s|
    ensures AllSpace(s[..n])
    ensures n < |s| ==> !IsSpace(s[n])
  {
    if s != [] && IsSpace(s[0]) then 1 + SpaceRun(s[1..]) else 0
  }

  /**
   * The negative lookahead's target, read after the whitespace: an optional
   * quote followed by a protocol-relative, http, https or data URL.
   */
  predicate IsAbsoluteTarget(t: string)
  {
    var u := if t != [] && IsQuote(t[0]) then t[1..] else t;
    StartsWith(u, "//") || StartsWith(u, "http://") || StartsWith(u, "https://")
      || StartsWith(u, "data:")
  }

  /** Line 136: the prefix that re-roots a file's references, `../../<dirname>/`. */
  function CssRel(relPath: string): (r: string)
    ensures StartsWith(r, "../../") && EndsWith(r, "/")
  {
    "../../" + Dirname(relPath) + "/"
  }

  /**
   * A file at `<dir>/<file>` below the system root gets the prefix
   * `../../<dir>/`: two levels up from the assets directory, then down
   * into the file's own directory.
   */
  lemma CssRelOfJoin(dir: string, file: string)
    requires dir != [] && dir[|dir| - 1] != '/'
    requires file != [] && forall i :: 0 <= i < |file| ==> file[i] != '/'
    ensures CssRel(dir + "/" + file) == "../../" + dir + "/"
  {
    DirnameOfJoin(dir, file);
  }

  /** The literal `url(` at the start of `s`, compared character by character. */
  predicate UrlAt(s: string)
  {
    |s| >= 4 && s[0] == 'u' && s[1] == 'r' && s[2] == 'l' && s[3] == '('
  }

  /** A match of the pattern at the start of the text: how much it consumes, and group 4. */
  datatype Match = Match(len: nat, quote: string)

  /** The regex tried at the start of `s`. */
  function MatchAt(s: string): (m: Option<Match>)
    ensures m.Some? ==> 4 <= m.value.len <= |s| && UrlAt(s)
  {
    if !UrlAt(s) then None
    else
      var rest := s[4..];
      var n := SpaceRun(rest);
      if IsAbsoluteTarget(rest[n..]) then None
      else
        var q := if n < |rest| && IsQuote(rest[n]) then [rest[n]] else [];
        Some(Match(4 + n + |q|, q))
  }

  /**
   * `preg_replace` with the pattern above: scan left to right; at a match,
   * emit `url(`, the quote if one was matched, and `rel`, and resume after
   * the matched text; elsewhere copy one character and move on.
   */
  function Rewrite(s: string, rel: string): (r: string)
    decreases |s|
  {
    if s == [] then []
    else match MatchAt(s)
      case Some(m) => "url(" + m.quote + rel + Rewrite(s[m.len..], rel)
      case None => [s[0]] + Rewrite(s[1..], rel)
  }

  /** Text without a `url(` anywhere passes through untouched (the match is case-sensitive). */
  lemma {:induction false} RewriteNoUrl(s: string, rel: string)
    requires forall i :: 0 <= i < |s| ==> !UrlAt(s[i..])
    ensures Rewrite(s, rel) == s
    decreases |s|
  {
    if s != [] {
      assert !UrlAt(s[0..]) && s[0..] == s;
      forall i | 0 <= i < |s[1..]| ensures !UrlAt(s[1..][i..]) {
        assert s[1..][i..] == s[i + 1..];
      }
      RewriteNoUrl(s[1..], rel);
      assert [s[0]] + s[1..] == s;
    }
  }

  /** Characters that cannot begin `url(` are copied one by one. */
  lemma {:induction false} RewriteCopiesPrefix(p: string, t: string, rel: string)
    requires forall i :: 0 <= i < |p| ==> p[i] != 'u'
    ensures Rewrite(p + t, rel) == p + Rewrite(t, rel)
    decreases |p|
  {
    if p == [] {
      assert p + t == t;
    } else {
      var s := p + t;
      assert s[0] == p[0];
      assert !UrlAt(s);
      RewriteSkip(s, rel);
      assert s[1..] == p[1..] + t;
      RewriteCopiesPrefix(p[1..], t, rel);
      assert p == [p[0]] + p[1..];
    }
  }

  /** A quote as the regex sees it: empty, or one quote character. */
  predicate QuoteOpt(q: string)
  {
    q == [] || (|q| == 1 && IsQuote(q[0]))
  }

  /** The pattern matches at a relative reference, consuming the whitespace and the quote. */
  lemma MatchRelative(ws: string, q: string, u: string)
    requires AllSpace(ws) && QuoteOpt(q)
    requires q == [] ==> u == [] || (!IsSpace(u[0]) && !IsQuote(u[0]))
    requires !IsAbsoluteTarget(q + u)
    ensures MatchAt("url(" + ws + q + u) == Some(Match(4 + |ws| + |q|, q))
  {
    var t := q + u;
    var rest := ws + t;
    UrlPrefix(ws, q, u);
    SpaceRunOver(ws, t);
    assert rest[|ws|..] == t;
    if q != [] {
      assert rest[|ws|] == q[0];
      assert [rest[|ws|]] == q;
    } else if u != [] {
      assert rest[|ws|] == u[0];
    }
  }

  /** `url(` followed by whitespace, quote and target: the literal matches and the rest follows it. */
  lemma UrlPrefix(ws: string, q: string, u: string)
    ensures UrlAt("url(" + ws + q + u)
    ensures ("url(" + ws + q + u)[4..] == ws + (q + u)
  {
  }

  /** The negative lookahead rejects an absolute or data reference, whatever whitespace precedes it. */
  lemma MatchAbsolute(ws: string, q: string, u: string)
    requires AllSpace(ws) && QuoteOpt(q)
    requires IsAbsoluteTarget(q + u)
    ensures MatchAt("url(" + ws + q + u) == None
  {
    var t := q + u;
    var rest := ws + t;
    UrlPrefix(ws, q, u);
    AbsoluteTargetHead(t);
    SpaceRunOver(ws, t);
    assert rest[|ws|..] == t;
  }

  /** An absolute target starts with a quote, `/`, `h` or `d`: never with whitespace. */
  lemma AbsoluteTargetHead(t: string)
    requires IsAbsoluteTarget(t)
    ensures t != [] && !IsSpace(t[0])
  {
    if t == [] || !IsQuote(t[0]) {
      if StartsWith(t, "//") {
        PrefixHead(t, "//");
      } else if StartsWith(t, "http://") {
        PrefixHead(t, "http://");
      } else if StartsWith(t, "https://") {
        PrefixHead(t, "https://");
      } else {
        PrefixHead(t, "data:");
      }
    }
  }

  lemma PrefixHead(s: string, p: string)
    requires p != [] && StartsWith(s, p)
    ensures s != [] && s[0] == p[0]
  {
    assert s[..|p|][0] == s[0];
  }

  /**
   * A relative reference is re-rooted: `url(` + whitespace + quote + target
   * becomes `url(` + quote + `rel` + target, the whitespace dropped.
   */
  lemma RewriteRelative(ws: string, q: string, u: string, rel: string)
    requires AllSpace(ws) && QuoteOpt(q)
    requires q == [] ==> u == [] || (!IsSpace(u[0]) && !IsQuote(u[0]))
    requires !IsAbsoluteTarget(q + u)
    ensures Rewrite("url(" + ws + q + u, rel) == "url(" + q + rel + Rewrite(u, rel)
  {
    var s := "url(" + ws + q + u;
    MatchRelative(ws, q, u);
    assert s[4 + |ws| + |q|..] == u;
  }

  /** An absolute or data reference, with its whitespace and quote, is kept as written. */
  lemma RewriteAbsolute(ws: string, q: string, u: string, rel: string)
    requires AllSpace(ws) && QuoteOpt(q)
    requires IsAbsoluteTarget(q + u)
    ensures Rewrite("url(" + ws + q + u, rel) == "url(" + ws + q + Rewrite(u, rel)
  {
    var p := "rl(" + ws + q;
    MatchAbsolute(ws, q, u);
    SkipTail(ws, q, u, p);
    NoUIn(ws, q, p);
    RewriteCopiesPrefix(p, u, rel);
    HeadJoin(ws, q, p);
    var s := "url(" + ws + q + u;
    RewriteSkip(s, rel);
    SkipThenCopy(Rewrite(s, rel), Rewrite(s[1..], rel), Rewrite(p + u, rel), Rewrite(u, rel), p, "url(" + ws + q);
  }

  /** Joining the pieces of a skipped `u`, a copied run `p` and the rewritten rest. */
  lemma SkipThenCopy(whole: string, tail: string, copied: string, rest: string, p: string, head: string)
    requires whole == ['u'] + tail && tail == copied && copied == p + rest
    requires ['u'] + p == head
    ensures whole == head + rest
  {
  }

  lemma SkipTail(ws: string, q: string, u: string, p: string)
    requires p == "rl(" + ws + q
    ensures ("url(" + ws + q + u)[1..] == p + u
    ensures ("url(" + ws + q + u)[0] == 'u'
  {
  }

  lemma HeadJoin(ws: string, q: string, p: string)
    requires p == "rl(" + ws + q
    ensures ['u'] + p == "url(" + ws + q
  {
  }

  lemma {:induction false} RewriteSkip(s: string, rel: string)
    requires s != [] && MatchAt(s) == None
    ensures Rewrite(s, rel) == [s[0]] + Rewrite(s[1..], rel)
  {
  }

  lemma NoUIn(ws: string, q: string, p: string)
    requires AllSpace(ws) && QuoteOpt(q)
    requires p == "rl(" + ws + q
    ensures forall i :: 0 <= i < |p| ==> p[i] != 'u'
  {
    forall i | 0 <= i < |p| ensures p[i] != 'u' {
      if 3 <= i < 3 + |ws| { assert p[i] == ws[i - 3]; }
      else if i >= 3 + |ws| { assert p[i] == q[i - 3 - |ws|]; }
    }
  }

  lemma {:induction false} SpaceRunOver(ws: string, t: string)
    requires AllSpace(ws)
    requires t == [] || !IsSpace(t[0])
    ensures SpaceRun(ws + t) == |ws|
    decreases |ws|
  {
    if ws != [] {
      assert (ws + t)[1..] == ws[1..] + t;
      SpaceRunOver(ws[1..], t);
    } else {
      assert ws + t == t;
    }
  }

  /** An absolute or data reference with no further `url(` after it leaves the text as written. */
  lemma RewriteKeepsAbsolute(ws: string, q: string, u: string, rel: string)
    requires AllSpace(ws) && QuoteOpt(q)
    requires IsAbsoluteTarget(q + u)
    requires forall i :: 0 <= i < |u| ==> !UrlAt(u[i..])
    ensures Rewrite("url(" + ws + q + u, rel) == "url(" + ws + q + u
  {
    RewriteAbsolute(ws, q, u, rel);
    RewriteNoUrl(u, rel);
  }
}

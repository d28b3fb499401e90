/**
 * The text transformation inside `update_html_paths` (update_paths.py): the
 * relative `./css/`, `./js/` and `./images/` references of a page become
 * Flask `url_for` template expressions. Reading and writing the template file
 * is not modelled; the transformation takes the file's content and returns
 * the new content.
 *
 * Every `re.sub` of the source has a pattern that is literal once its escapes
 * are removed, so each one, like each `str.replace`, is `Text.ReplaceAll`.
 */
module PathRewriter {
  import opened Text

  /** The text every rewrite inserts before the directory name. */
  const UrlForOpen: string := "{{ url_for('static', filename='"
  /** The text the closing step inserts after the directory name. */
  const UrlForClose: string := "') }}"

  /**
   * One relative-path rewrite: the text that leads the reference (an
   * attribute with its opening quote, or a CSS `url(` with its quote) and the
   * static directory.
   */
  datatype Rule = Rule(lead: string, dir: string) {
    /** The relative reference the rule looks for, for example `src="./js/`. */
    function Source(): string {
      lead + "./" + dir + "/"
    }

    /** What the rule writes instead, for example `src="{{ url_for('static', filename='js/`. */
    function Target(): string {
      lead + UrlForOpen + dir + "/"
    }

    /** The shape all rules of the script share. */
    predicate WellFormed() {
      '.' !in lead && '/' !in lead && '.' !in dir && '/' !in dir && '\'' !in dir
      && |lead| + |dir| <= 20
    }
  }

  const CssLink := Rule("href=\"", "css")              // line 8
  const JsScript := Rule("src=\"", "js")               // line 12
  const ImageSrc := Rule("src=\"", "images")           // line 15
  const ImageDataBg := Rule("data-bg=\"", "images")    // line 16
  const ImageUrl := Rule("url(", "images")             // line 17
  const ImageUrlSingle := Rule("url('", "images")      // line 18
  const ImageUrlDouble := Rule("url(\"", "images")     // line 19

  /** The rewrites of lines 12-19, in the order the script applies them. */
  const LaterRules: seq<Rule> := [JsScript, ImageSrc, ImageDataBg, ImageUrl, ImageUrlSingle, ImageUrlDouble]

  /** All seven rewrites of lines 8-19. */
  const AllRules: seq<Rule> := [CssLink] + LaterRules

  /** The directories whose `filename='<dir>/` lines 22-24 close, in order. */
  const ClosedDirs: seq<string> := ["css", "js", "images"]

  /** The text lines 22-24 look for. */
  function Filename(dir: string): string {
    "filename='" + dir + "/"
  }

  /** Applies each rule in turn, as consecutive statements of the script do. */
  function ApplyRules(s: string, rules: seq<Rule>): string
    decreases |rules|
  {
    if rules == [] then s
    else ApplyRules(ReplaceAll(s, rules[0].Source(), rules[0].Target()), rules[1..])
  }

  /** Lines 8-19. Line 9 replaces the css target by itself. */
  function RewriteSources(content: string): string {
    var afterCss := ReplaceAll(content, CssLink.Source(), CssLink.Target());
    var afterLine9 := ReplaceAll(afterCss, CssLink.Target(), CssLink.Target());
    ApplyRules(afterLine9, LaterRules)
  }

  /** Lines 22-24: appends the closing `') }}` after every `filename='<dir>/`. */
  function CloseUrlFor(s: string, dirs: seq<string>): string
    decreases |dirs|
  {
    if dirs == [] then s
    else CloseUrlFor(ReplaceAll(s, Filename(dirs[0]), Filename(dirs[0]) + UrlForClose), dirs[1..])
  }

  /** The whole transformation of `update_html_paths`. */
  function UpdateHtmlPaths(content: string): string {
    CloseUrlFor(RewriteSources(content), ClosedDirs)
  }

  // ---------------------------------------------------------------------
  // The script's rules have the shape the proofs below rely on.

  lemma UrlForPieces()
    ensures '.' !in UrlForOpen && '/' !in UrlForOpen && '.' !in UrlForClose && '/' !in UrlForClose
    ensures UrlForOpen == "{{ url_for('static', " + "filename='"
  {
  }

  lemma ImageRulesWellFormed()
    ensures ImageSrc.WellFormed() && ImageDataBg.WellFormed() && ImageUrl.WellFormed()
    ensures ImageUrlSingle.WellFormed() && ImageUrlDouble.WellFormed()
  {
  }

  lemma AllRulesWellFormed()
    ensures forall a :: a in AllRules ==> a.WellFormed()
  {
    assert CssLink.WellFormed() && JsScript.WellFormed();
    ImageRulesWellFormed();
    assert AllRules == [CssLink, JsScript, ImageSrc, ImageDataBg, ImageUrl, ImageUrlSingle, ImageUrlDouble];
  }

  // ---------------------------------------------------------------------
  // Why no relative reference survives lines 8-19. A pattern `q` holding a
  // '.' with no '/' before it and ending in '/' can neither be produced by a
  // replacement `r` without '.' whose only '/' is its last character, nor be
  // completed by text on either side of such an `r`.

  predicate Shielded(q: string, r: string, i: int) {
    0 <= i < |q| - 1 && q[i] == '.' && '/' !in q[..i] && q[|q| - 1] == '/'
    && |q| < |r| && '.' !in r && r[|r| - 1] == '/' && '/' !in r[..|r| - 1]
  }

  /** Every rule's source is shielded from every rule's target. */
  lemma RuleShielded(a: Rule, b: Rule)
    requires a.WellFormed() && b.WellFormed()
    ensures Shielded(a.Source(), b.Target(), |a.lead|)
  {
    UrlForPieces();
    var q, r := a.Source(), b.Target();
    assert q[..|a.lead|] == a.lead;
    assert r[..|r| - 1] == b.lead + UrlForOpen + b.dir;
  }

  /** A shielded `q` does not start inside `r`, whatever follows `r`. */
  lemma NotInsideTarget(r: string, o: string, q: string, i: int, k: int)
    requires Shielded(q, r, i) && 0 <= k < |r|
    ensures !OccursAt(r + o, q, k)
  {
    if k + |q| <= |r + o| {
      var w := (r + o)[k..k + |q|];
      if k + i < |r| {
        assert w[i] == r[k + i] != '.';
      } else {
        var j := |r| - k;
        assert w[j - 1] == r[|r| - 1] == '/';
        assert q[..i][j - 1] == q[j - 1];
      }
    }
  }

  /** An occurrence after a prefix `h` is an occurrence in what follows `h`. */
  lemma OccursAfterPrefix(h: string, o: string, q: string, k: int)
    requires OccursAt(h + o, q, k) && k >= |h|
    ensures OccursAt(o, q, k - |h|)
  {
    assert (h + o)[k..k + |q|] == o[k - |h|..k - |h| + |q|];
  }

  /**
   * If the output of a replacement starts with a suffix of a shielded `q`,
   * the input starts with that suffix too: the suffix was not made by `r`.
   */
  lemma {:induction false} PrefixFromInput(s: string, p: string, r: string, q: string, i: int, j: nat)
    requires |p| > 0 && Shielded(q, r, i) && j < |q|
    requires StartsWith(ReplaceAll(s, p, r), q[j..])
    ensures StartsWith(s, q[j..])
    decreases |s|
  {
    var u := q[j..];
    if |s| >= |p| {
      NoMatchAtStart(s, p, r, q, i, j);
      var o := ReplaceAll(s[1..], p, r);
      assert ReplaceAll(s, p, r) == [s[0]] + o;
      if |u| > 1 {
        assert ([s[0]] + o)[..|u|] == u;
        assert o[..|u| - 1] == u[1..];
        assert u[1..] == q[j + 1..];
        PrefixFromInput(s[1..], p, r, q, i, j + 1);
        assert s[..|u|] == [s[0]] + s[1..][..|u| - 1];
      } else {
        assert ([s[0]] + o)[..1] == u;
      }
    }
  }

  /**
   * An output that starts with a suffix of a shielded `q` was not made by
   * replacing `p` at the start: `r`'s only '/' is its last character, while
   * the suffix ends with a '/' that would fall strictly inside `r`.
   */
  lemma NoMatchAtStart(s: string, p: string, r: string, q: string, i: int, j: nat)
    requires |p| > 0 && Shielded(q, r, i) && j < |q| && |s| >= |p|
    requires StartsWith(ReplaceAll(s, p, r), q[j..])
    ensures s[..|p|] != p
  {
    var u := q[j..];
    var out := ReplaceAll(s, p, r);
    var tail := ReplaceAll(s[|p|..], p, r);
    assert s[..|p|] == p ==> out == r + tail;
    assert out[|u| - 1] == u[|u| - 1] == q[|q| - 1] == '/';
    assert r[..|r| - 1][|u| - 1] == r[|u| - 1];
  }

  /**
   * Replacing `p` by `r` leaves no occurrence of a shielded `q`: it removes
   * every occurrence when `q` is `p` itself, and creates none otherwise.
   */
  lemma {:induction false} ReplaceAllExcludes(s: string, p: string, r: string, q: string, i: int)
    requires |p| > 0 && Shielded(q, r, i)
    requires q == p || !Contains(s, q)
    ensures !Contains(ReplaceAll(s, p, r), q)
    decreases |s|
  {
    if |s| >= |p| {
      var matched := s[..|p|] == p;
      var d := if matched then |p| else 1;
      var head := if matched then r else [s[0]];
      var rest := s[d..];
      assert q == p || !Contains(rest, q) by {
        forall k | OccursAt(rest, q, k) ensures Contains(s, q) {
          OccursInSuffix(s, q, d, k);
        }
      }
      ReplaceAllExcludes(rest, p, r, q, i);
      var o := ReplaceAll(rest, p, r);
      assert ReplaceAll(s, p, r) == head + o;
      assert !matched ==> s == [s[0]] + rest;
      forall k | OccursAt(head + o, q, k) ensures false {
        if k >= |head| {
          OccursAfterPrefix(head, o, q, k);
        } else if matched {
          NotInsideTarget(r, o, q, i, k);
        } else {
          StartAfterChar(s[0], rest, o, p, r, q, i);
        }
      }
    }
  }

  /** The non-matching step of `ReplaceAllExcludes`: an occurrence at the kept character came from the input. */
  lemma StartAfterChar(c: char, rest: string, o: string, p: string, r: string, q: string, i: int)
    requires |p| > 0 && Shielded(q, r, i) && o == ReplaceAll(rest, p, r)
    requires OccursAt([c] + o, q, 0)
    ensures Contains([c] + rest, q) && ([c] + rest)[..|q|] == q
  {
    var w := ([c] + o)[0..|q|];
    assert w == q;
    assert |w| == |q| && |q| >= 2;
    forall m | 0 <= m < |q| - 1 ensures o[..|q| - 1][m] == w[1..][m] {
      assert w[1..][m] == w[m + 1] == ([c] + o)[m + 1] == o[m];
    }
    assert o[..|q| - 1] == w[1..];
    PrefixFromInput(rest, p, r, q, i, 1);
    assert ([c] + rest)[0..|q|] == [c] + rest[..|q| - 1];
    assert q == [q[0]] + q[1..];
    assert OccursAt([c] + rest, q, 0);
  }

  /** A sequence of rules whose targets all shield `q` creates no occurrence of `q`. */
  lemma {:induction false} ApplyRulesPreserves(s: string, rules: seq<Rule>, q: string, i: int)
    requires forall b :: b in rules ==> Shielded(q, b.Target(), i)
    requires !Contains(s, q)
    ensures !Contains(ApplyRules(s, rules), q)
    decreases |rules|
  {
    if rules != [] {
      ReplaceAllExcludes(s, rules[0].Source(), rules[0].Target(), q, i);
      ApplyRulesPreserves(ReplaceAll(s, rules[0].Source(), rules[0].Target()), rules[1..], q, i);
    }
  }

  /** After a sequence of well-formed rules, none of their sources is left. */
  lemma {:induction false} ApplyRulesEliminates(s: string, rules: seq<Rule>)
    requires forall b :: b in rules ==> b.WellFormed()
    ensures forall a :: a in rules ==> !Contains(ApplyRules(s, rules), a.Source())
    decreases |rules|
  {
    if rules != [] {
      var a0 := rules[0];
      var s1 := ReplaceAll(s, a0.Source(), a0.Target());
      ApplyRulesEliminates(s1, rules[1..]);
      RuleShielded(a0, a0);
      ReplaceAllExcludes(s, a0.Source(), a0.Target(), a0.Source(), |a0.lead|);
      forall b | b in rules[1..] ensures Shielded(a0.Source(), b.Target(), |a0.lead|) {
        RuleShielded(a0, b);
      }
      ApplyRulesPreserves(s1, rules[1..], a0.Source(), |a0.lead|);
    }
  }

  /**
   * Lines 8-19 leave none of the relative prefixes `href="./css/`,
   * `src="./js/`, `src="./images/`, `data-bg="./images/`, `url(./images/`,
   * `url('./images/` and `url("./images/` in the text.
   */
  lemma RewriteSourcesRemovesRelativePrefixes(content: string)
    ensures forall a :: a in AllRules ==> !Contains(RewriteSources(content), a.Source())
  {
    AllRulesWellFormed();
    var afterCss := ReplaceAll(content, CssLink.Source(), CssLink.Target());
    RuleShielded(CssLink, CssLink);
    ReplaceAllExcludes(content, CssLink.Source(), CssLink.Target(), CssLink.Source(), |CssLink.lead|);
    ReplaceAllSelf(afterCss, CssLink.Target());
    forall b | b in LaterRules ensures Shielded(CssLink.Source(), b.Target(), |CssLink.lead|) {
      RuleShielded(CssLink, b);
    }
    ApplyRulesPreserves(afterCss, LaterRules, CssLink.Source(), |CssLink.lead|);
    ApplyRulesEliminates(afterCss, LaterRules);
  }

  // ---------------------------------------------------------------------
  // Line 9, text that needs no rewriting, and text after the last '/'.

  /** Line 9 replaces the css target by itself, so lines 8-19 are the seven rules in order. */
  lemma RewriteSourcesSkipsLine9(content: string)
    ensures RewriteSources(content) == ApplyRules(content, AllRules)
  {
    var afterCss := ReplaceAll(content, CssLink.Source(), CssLink.Target());
    ReplaceAllSelf(afterCss, CssLink.Target());
    assert AllRules[0] == CssLink && AllRules[1..] == LaterRules;
  }

  /** Rules whose sources do not occur leave the text as it is. */
  lemma {:induction false} ApplyRulesUnchanged(s: string, rules: seq<Rule>)
    requires forall a :: a in rules ==> !Contains(s, a.Source())
    ensures ApplyRules(s, rules) == s
    decreases |rules|
  {
    if rules != [] {
      ReplaceAllAbsent(s, rules[0].Source(), rules[0].Target());
      ApplyRulesUnchanged(s, rules[1..]);
    }
  }

  /** Closing steps whose `filename='<dir>/` does not occur leave the text as it is. */
  lemma {:induction false} CloseUrlForUnchanged(s: string, dirs: seq<string>)
    requires forall d :: d in dirs ==> !Contains(s, Filename(d))
    ensures CloseUrlFor(s, dirs) == s
    decreases |dirs|
  {
    if dirs != [] {
      ReplaceAllAbsent(s, Filename(dirs[0]), Filename(dirs[0]) + UrlForClose);
      CloseUrlForUnchanged(s, dirs[1..]);
    }
  }

  /**
   * A page holding none of the seven relative prefixes and none of
   * `filename='css/`, `filename='js/`, `filename='images/` is written back
   * unchanged.
   */
  lemma UpdateHtmlPathsUnchanged(content: string)
    requires forall a :: a in AllRules ==> !Contains(content, a.Source())
    requires forall d :: d in ClosedDirs ==> !Contains(content, Filename(d))
    ensures UpdateHtmlPaths(content) == content
  {
    RewriteSourcesSkipsLine9(content);
    ApplyRulesUnchanged(content, AllRules);
    CloseUrlForUnchanged(content, ClosedDirs);
  }

  /** Text without a '.' has no relative reference, so lines 8-19 leave it as it is. */
  lemma RewriteSourcesDotFree(s: string)
    requires '.' !in s
    ensures RewriteSources(s) == s
  {
    forall a | a in AllRules ensures !Contains(s, a.Source()) {
      assert a.Source()[|a.lead|] == '.';
      AbsentByChar(s, a.Source(), '.');
    }
    RewriteSourcesSkipsLine9(s);
    ApplyRulesUnchanged(s, AllRules);
  }

  lemma {:induction false} ApplyRulesAppend(x: string, t: string, rules: seq<Rule>)
    requires '/' !in t
    ensures ApplyRules(x + t, rules) == ApplyRules(x, rules) + t
    decreases |rules|
  {
    if rules != [] {
      var a := rules[0];
      ReplaceAllAppend(x, t, a.Source(), a.Target());
      ApplyRulesAppend(ReplaceAll(x, a.Source(), a.Target()), t, rules[1..]);
    }
  }

  lemma {:induction false} CloseUrlForAppend(x: string, t: string, dirs: seq<string>)
    requires '/' !in t
    ensures CloseUrlFor(x + t, dirs) == CloseUrlFor(x, dirs) + t
    decreases |dirs|
  {
    if dirs != [] {
      var p := Filename(dirs[0]);
      ReplaceAllAppend(x, t, p, p + UrlForClose);
      CloseUrlForAppend(ReplaceAll(x, p, p + UrlForClose), t, dirs[1..]);
    }
  }

  /**
   * Every pattern of the script ends with '/', so text after the last '/'
   * of the page is copied through unchanged.
   */
  lemma UpdateHtmlPathsAppend(x: string, t: string)
    requires '/' !in t
    ensures UpdateHtmlPaths(x + t) == UpdateHtmlPaths(x) + t
  {
    RewriteSourcesSkipsLine9(x + t);
    RewriteSourcesSkipsLine9(x);
    ApplyRulesAppend(x, t, AllRules);
    CloseUrlForAppend(RewriteSources(x), t, ClosedDirs);
  }

  // ---------------------------------------------------------------------
  // Lines 22-24 close each rewritten reference once, right after its
  // directory name.

  /** The text before `filename='` in a rule's target. */
  function TargetHead(b: Rule): string {
    b.lead + "{{ url_for('static', "
  }

  lemma TargetSplit(b: Rule)
    requires b.WellFormed()
    ensures b.Target() == TargetHead(b) + Filename(b.dir)
    ensures '/' !in TargetHead(b) && '/' !in Filename(b.dir)[..|Filename(b.dir)| - 1]
  {
    UrlForPieces();
    assert Filename(b.dir)[..|Filename(b.dir)| - 1] == "filename='" + b.dir;
  }

  /** The end of a rule's target spells `filename='<d>/` only for the rule's own directory. */
  lemma TargetEndMismatch(b: Rule, d: string)
    requires b.WellFormed() && '\'' !in d && d != b.dir
    requires |Filename(d)| <= |b.Target()|
    ensures b.Target()[|b.Target()| - |Filename(d)|..] != Filename(d)
  {
    TargetSplit(b);
    var t, f, g := b.Target(), Filename(d), Filename(b.dir);
    var k, h := |t| - |f|, |TargetHead(b)|;
    if |d| < |b.dir| {
      assert t[k..][9] == t[k + 9] == b.dir[k + 9 - h - 10] != '\'';
    } else if |d| > |b.dir| {
      var m := 9 + |d| - |b.dir|;
      assert t[k..][m] == t[h + 9] == '\'';
      assert f[m] == d[m - 10] != '\'';
    } else {
      assert t[k..] == g;
      assert g[10..10 + |d|] == b.dir && f[10..10 + |d|] == d;
    }
  }

  /** In a rule's target, `filename='<d>/` occurs exactly when `d` is the rule's own directory. */
  lemma TargetFilename(b: Rule, d: string)
    requires b.WellFormed() && '/' !in d && '\'' !in d
    ensures Contains(b.Target(), Filename(d)) <==> d == b.dir
  {
    TargetSplit(b);
    var t, f := b.Target(), Filename(d);
    if d == b.dir {
      assert OccursAt(t, f, |TargetHead(b)|);
    } else {
      assert t[..|t| - 1] == TargetHead(b) + Filename(b.dir)[..|Filename(b.dir)| - 1];
      forall k | 0 <= k <= |t| - |f| ensures !OccursAt(t, f, k) {
        OccurrenceAtEnd(t, f, k);
        if k == |t| - |f| {
          TargetEndMismatch(b, d);
          assert t[k..k + |f|] == t[k..];
        }
      }
    }
  }

  predicate Distinct(dirs: seq<string>) {
    forall i, j :: 0 <= i < j < |dirs| ==> dirs[i] != dirs[j]
  }

  /** The closing step for a rule's own directory appends `') }}` to its target. */
  lemma CloseOwnTarget(b: Rule)
    requires b.WellFormed()
    ensures ReplaceAll(b.Target(), Filename(b.dir), Filename(b.dir) + UrlForClose) == b.Target() + UrlForClose
  {
    TargetSplit(b);
    ReplaceAllAtEnd(TargetHead(b), Filename(b.dir), Filename(b.dir) + UrlForClose);
  }

  /**
   * The closing steps append `') }}` to a rewritten reference exactly when
   * its directory is one of the closed ones.
   */
  lemma {:induction false} CloseUrlForTarget(b: Rule, dirs: seq<string>)
    requires b.WellFormed() && Distinct(dirs)
    requires forall d :: d in dirs ==> '/' !in d && '\'' !in d
    ensures CloseUrlFor(b.Target(), dirs) == if b.dir in dirs then b.Target() + UrlForClose else b.Target()
    decreases |dirs|
  {
    if dirs != [] {
      var t, p, rest := b.Target(), Filename(dirs[0]), dirs[1..];
      assert Distinct(rest);
      CloseUrlForTarget(b, rest);
      assert CloseUrlFor(t, dirs) == CloseUrlFor(ReplaceAll(t, p, p + UrlForClose), rest);
      if dirs[0] == b.dir {
        CloseOwnTarget(b);
        UrlForPieces();
        CloseUrlForAppend(t, UrlForClose, rest);
        assert b.dir !in rest;
      } else {
        TargetFilename(b, dirs[0]);
        ReplaceAllAbsent(t, p, p + UrlForClose);
        assert b.dir in dirs <==> b.dir in rest;
      }
    }
  }

  lemma ClosedDirsShape()
    ensures Distinct(ClosedDirs)
    ensures forall d :: d in ClosedDirs ==> '/' !in d && '\'' !in d
  {
  }

  /** Lines 8-19 turn the bare `src="./js/` into the rewritten `src="{{ url_for('static', filename='js/`. */
  lemma RewriteJsSource()
    ensures RewriteSources(JsScript.Source()) == JsScript.Target()
  {
    var js, target := JsScript.Source(), JsScript.Target();
    RewriteSourcesSkipsLine9(js);
    assert |js| < |CssLink.Source()|;
    ReplaceAllAbsent(js, CssLink.Source(), CssLink.Target());
    assert ApplyRules(js, AllRules) == ApplyRules(js, LaterRules) by {
      assert AllRules[0] == CssLink && AllRules[1..] == LaterRules;
    }
    ReplaceAllWhole(js, target);
    assert ApplyRules(js, LaterRules) == ApplyRules(target, LaterRules[1..]) by {
      assert LaterRules[0] == JsScript;
    }
    UrlForPieces();
    forall a | a in LaterRules[1..] ensures !Contains(target, a.Source()) {
      assert a.Source()[|a.lead|] == '.';
      AbsentByChar(target, a.Source(), '.');
    }
    ApplyRulesUnchanged(target, LaterRules[1..]);
  }

  /**
   * `src="./js/` followed by text without '/' (such as `app.js"`) becomes
   * `src="{{ url_for('static', filename='js/') }}` followed by that text.
   */
  lemma JsReferenceExample(t: string)
    requires '/' !in t
    ensures UpdateHtmlPaths(JsScript.Source() + t) == JsScript.Target() + UrlForClose + t
  {
    UpdateHtmlPathsAppend(JsScript.Source(), t);
    RewriteJsSource();
    ClosedDirsShape();
    CloseUrlForTarget(JsScript, ClosedDirs);
  }

  /** A second run over a closed reference closes it again. */
  lemma SecondRunClosesAgain()
    ensures UpdateHtmlPaths(JsScript.Target() + UrlForClose) == JsScript.Target() + UrlForClose + UrlForClose
  {
    var once := JsScript.Target() + UrlForClose;
    UrlForPieces();
    RewriteSourcesDotFree(once);
    ClosedDirsShape();
    CloseUrlForTarget(JsScript, ClosedDirs);
    CloseUrlForAppend(JsScript.Target(), UrlForClose, ClosedDirs);
  }

  /**
   * Lines 22-24 also close references that are already closed, so a second
   * run adds another `') }}`: the transformation is not idempotent.
   */
  lemma UpdateHtmlPathsNotIdempotent(t: string)
    requires '/' !in t
    ensures UpdateHtmlPaths(UpdateHtmlPaths(JsScript.Source() + t)) == JsScript.Target() + UrlForClose + UrlForClose + t
    ensures UpdateHtmlPaths(UpdateHtmlPaths(JsScript.Source() + t)) != UpdateHtmlPaths(JsScript.Source() + t)
  {
    var once := JsScript.Target() + UrlForClose;
    JsReferenceExample(t);
    assert UpdateHtmlPaths(JsScript.Source() + t) == once + t;
    UpdateHtmlPathsAppend(once, t);
    SecondRunClosesAgain();
    assert |once + UrlForClose + t| > |once + t|;
  }
}

/**
 * The four preg_replace() passes of SoarHtml::asExplainHtml() in soar.php,
 * each a pattern of the form  OPEN(.+?)CLOSE  with a replacement
 * BEFORE$1AFTER. A pass scans left to right; at the first position where the
 * pattern matches it replaces the match and resumes after it, so matches never
 * overlap. `.` matches any character except a newline, and `.+?` is lazy: the
 * capture is the shortest non-empty run of non-newline characters followed by
 * CLOSE. No pattern is anchored to the start of a line.
 */
module ExplainMarkup {
  import opened Wrappers
  import opened PhpStrings

  datatype Rule = Rule(open: string, close: string, before: string, after: string)

  predicate NoNewline(s: string) {
    '\n' !in s
  }

  /**
   * The pattern of `rule` matches at the start of `s` with its capture ending
   * at `j`: OPEN, then a non-empty capture without newline, then CLOSE at j.
   */
  predicate MatchEndsAt(s: string, rule: Rule, j: nat) {
    && IsPrefix(rule.open, s)
    && |rule.open| < j
    && j + |rule.close| <= |s|
    && NoNewline(s[|rule.open|..j])
    && s[j..j + |rule.close|] == rule.close
  }

  /** Searches the end of the lazy capture from `j` on; no earlier end exists. */
  function FindClose(s: string, rule: Rule, j: nat): (m: Option<nat>)
    requires IsPrefix(rule.open, s) && |rule.open| < j <= |s|
    requires NoNewline(s[|rule.open|..j - 1])
    ensures m.Some? ==> j <= m.value && MatchEndsAt(s, rule, m.value)
    ensures m.Some? ==> forall k :: j <= k < m.value ==> !MatchEndsAt(s, rule, k)
    ensures m.None? ==> forall k :: j <= k ==> !MatchEndsAt(s, rule, k)
    decreases |s| - j
  {
    if s[j - 1] == '\n' then
      assert forall k :: j <= k <= |s| ==> s[|rule.open|..k][j - 1 - |rule.open|] == '\n';
      None
    else
      assert s[|rule.open|..j] == s[|rule.open|..j - 1] + [s[j - 1]];
      if j + |rule.close| <= |s| && s[j..j + |rule.close|] == rule.close then Some(j)
      else if j < |s| then FindClose(s, rule, j + 1)
      else None
  }

  /**
   * Where the pattern matches at the start of `s`, the end of its (lazy)
   * capture: the least j that ends a match, and None when no j does.
   */
  function MatchAt(s: string, rule: Rule): (m: Option<nat>)
    ensures m.Some? ==> MatchEndsAt(s, rule, m.value)
    ensures m.Some? ==> forall k: nat :: k < m.value ==> !MatchEndsAt(s, rule, k)
    ensures m.None? ==> forall k :: !MatchEndsAt(s, rule, k)
  {
    if IsPrefix(rule.open, s) && |rule.open| < |s| then
      assert s[|rule.open|..|rule.open|] == [];
      FindClose(s, rule, |rule.open| + 1)
    else None
  }

  /** One preg_replace() pass of `rule` over `s`. */
  function Apply(rule: Rule, s: string): string
    decreases |s|
  {
    if s == [] then []
    else
      match MatchAt(s, rule)
      case Some(j) => rule.before + s[|rule.open|..j] + rule.after + Apply(rule, s[j + |rule.close|..])
      case None => [s[0]] + Apply(rule, s[1..])
  }

  // '/####(.+?)\n/' => '<h4 style="margin:5px 20px;">$1</h4>'
  const SubHeading := Rule("####", "\n", "<h4 style=\"margin:5px 20px;\">", "</h4>")
  // '/###(.+?)\n/' => '<h3 style="margin:10px 0px;">$1：</h3>' (a full-width colon)
  const Heading := Rule("###", "\n", "<h3 style=\"margin:10px 0px;\">", "\U{FF1A}</h3>")
  // '/\* (.+?)\n/' => '<ul style="margin:0px;">$1</ul>'
  const Bullet := Rule("* ", "\n", "<ul style=\"margin:0px;\">", "</ul>")
  // '/\*\*(.+?)\*\*/' => '<strong>$1</strong>'
  const Strong := Rule("**", "**", "<strong>", "</strong>")

  /** The four passes, in the order asExplainHtml() applies them. */
  function MarkupToHtml(text: string): string {
    Apply(Strong, Apply(Bullet, Apply(Heading, Apply(SubHeading, text))))
  }

  // ---------------------------------------------------------------------
  // Properties of a pass
  // ---------------------------------------------------------------------

  /**
   * Text before the leftmost match is copied unchanged: if no match starts in
   * the first |u| positions of u + w, the pass is u followed by the pass over w.
   */
  lemma {:induction false} ApplyUnmatchedPrefix(rule: Rule, u: string, w: string)
    requires forall i :: 0 <= i < |u| ==> MatchAt((u + w)[i..], rule).None?
    ensures Apply(rule, u + w) == u + Apply(rule, w)
  {
    if u != [] {
      var s := u + w;
      assert s[0..] == s;
      assert MatchAt(s, rule).None?;
      assert s[1..] == u[1..] + w;
      assert Apply(rule, s) == [s[0]] + Apply(rule, s[1..]);
      forall i | 0 <= i < |u| - 1 ensures MatchAt((u[1..] + w)[i..], rule).None? {
        assert (u[1..] + w)[i..] == s[i + 1..];
      }
      ApplyUnmatchedPrefix(rule, u[1..], w);
      assert s[0] == u[0];
      assert Apply(rule, s) == [u[0]] + (u[1..] + Apply(rule, w));
      assert u + Apply(rule, w) == [u[0]] + (u[1..] + Apply(rule, w));
    } else {
      assert u + w == w;
    }
  }

  /**
   * A match at the start is replaced by BEFORE, the capture and AFTER; CLOSE is
   * consumed, and the scan resumes right behind it.
   */
  lemma ApplyMatch(rule: Rule, cap: string, rest: string)
    requires cap != [] && NoNewline(cap)
    requires forall k :: 0 < k < |cap| ==> !IsPrefix(rule.close, cap[k..] + rule.close + rest)
    ensures Apply(rule, rule.open + cap + rule.close + rest) == rule.before + cap + rule.after + Apply(rule, rest)
  {
    var s := rule.open + cap + rule.close + rest;
    var o := |rule.open|;
    var j := o + |cap|;
    assert s[..o] == rule.open;
    assert s[o..j] == cap;
    assert s[j..j + |rule.close|] == rule.close;
    assert MatchEndsAt(s, rule, j);
    forall k: nat | k < j ensures !MatchEndsAt(s, rule, k) {
      if o < k {
        assert s[k..] == cap[k - o..] + rule.close + rest;
        if k + |rule.close| <= |s| {
          assert s[k..k + |rule.close|] == s[k..][..|rule.close|];
        }
      }
    }
    assert s[j + |rule.close|..] == rest;
  }

  /** For the line rules (CLOSE is a newline) a capture is the rest of the line. */
  lemma ApplyMatchLine(rule: Rule, cap: string, rest: string)
    requires rule.close == "\n"
    requires cap != [] && NoNewline(cap)
    ensures Apply(rule, rule.open + cap + rule.close + rest) == rule.before + cap + rule.after + Apply(rule, rest)
  {
    forall k | 0 < k < |cap| ensures !IsPrefix(rule.close, cap[k..] + rule.close + rest) {
      assert (cap[k..] + rule.close + rest)[..1][0] == cap[k];
    }
    ApplyMatch(rule, cap, rest);
  }

  /** Text in which the first character of OPEN never occurs is copied unchanged. */
  lemma ApplyWithoutOpen(rule: Rule, u: string, w: string)
    requires rule.open != [] && rule.open[0] !in u
    ensures Apply(rule, u + w) == u + Apply(rule, w)
  {
    forall i | 0 <= i < |u| ensures MatchAt((u + w)[i..], rule).None? {
      var t := (u + w)[i..];
      assert t[0] == u[i];
      if |rule.open| <= |t| {
        assert t[..|rule.open|][0] == t[0];
      }
    }
    ApplyUnmatchedPrefix(rule, u, w);
  }

  /** Explain text with neither '#' nor '*' comes out of the four passes unchanged. */
  lemma MarkupPlainText(text: string)
    requires '#' !in text && '*' !in text
    ensures MarkupToHtml(text) == text
  {
    assert text + [] == text;
    ApplyWithoutOpen(SubHeading, text, []);
    ApplyWithoutOpen(Heading, text, []);
    ApplyWithoutOpen(Bullet, text, []);
    ApplyWithoutOpen(Strong, text, []);
  }

  /** Plain text for a heading or list item: one line, no markup characters. */
  predicate PlainLine(t: string) {
    t != [] && '\n' !in t && '#' !in t && '*' !in t
  }

  /** No "####" occurs in a "###" heading line followed by plain text. */
  lemma HeadingLineHasNoSubHeading(sub: Rule, title: string, rest: string)
    requires sub.open == "####"
    requires PlainLine(title) && '#' !in rest
    ensures Apply(sub, "###" + title + rest) == "###" + title + rest
  {
    var text := "###" + title + rest;
    forall i | 0 <= i < |text| ensures MatchAt((text + [])[i..], sub).None? {
      var t := (text + [])[i..];
      if i < 3 {
        assert t[3 - i] == title[0];
        if 4 <= |t| { assert t[..4][3 - i] == t[3 - i]; }
      } else {
        assert t[0] == text[i];
        if i < 3 + |title| { assert text[i] == title[i - 3]; } else { assert text[i] == rest[i - 3 - |title|]; }
        if 4 <= |t| { assert t[..4][0] == t[0]; }
      }
    }
    ApplyUnmatchedPrefix(sub, text, []);
    assert text + [] == text;
  }

  /** Wrapping text without '*' in tags without '*' gives text without '*'. */
  lemma WrappedHasNoStar(before: string, t: string, after: string)
    requires '*' !in before && '*' !in t && '*' !in after
    ensures '*' !in before + t + after
  {
    forall i | 0 <= i < |before + t + after| ensures (before + t + after)[i] != '*' {
      if i < |before| {
        assert (before + t + after)[i] == before[i];
      } else if i < |before| + |t| {
        assert (before + t + after)[i] == t[i - |before|];
      } else {
        assert (before + t + after)[i] == after[i - |before| - |t|];
      }
    }
  }

  /** The heading pass turns the heading line into HTML and leaves the bullet line. */
  lemma HeadingPassOver(head: Rule, title: string, rest: string)
    requires head.open == "###" && head.close == "\n"
    requires PlainLine(title) && '#' !in rest
    ensures Apply(head, "###" + title + "\n" + rest) == (head.before + title + head.after) + rest
  {
    ApplyMatchLine(head, title, rest);
    assert rest + [] == rest;
    ApplyWithoutOpen(head, rest, []);
  }

  /** The bullet pass keeps HTML without '*' and turns the bullet line into a list. */
  lemma BulletPassOver(bullet: Rule, h: string, point: string)
    requires bullet.open == "* " && bullet.close == "\n"
    requires '*' !in h && PlainLine(point)
    ensures Apply(bullet, h + ("* " + point + "\n")) == h + (bullet.before + point + bullet.after)
  {
    ApplyWithoutOpen(bullet, h, "* " + point + "\n");
    assert "* " + point + "\n" == bullet.open + point + bullet.close + [];
    ApplyMatchLine(bullet, point, []);
  }

  /** The first two passes over a heading line and a bullet line. */
  lemma HeadingLinePasses(sub: Rule, head: Rule, title: string, rest: string)
    requires sub.open == "####" && head.open == "###" && head.close == "\n"
    requires PlainLine(title) && '#' !in rest
    ensures Apply(head, Apply(sub, "###" + title + "\n" + rest)) == (head.before + title + head.after) + rest
  {
    var text := "###" + title + "\n" + rest;
    assert text == "###" + title + ("\n" + rest);
    HeadingLineHasNoSubHeading(sub, title, "\n" + rest);
    HeadingPassOver(head, title, rest);
  }

  /** The last two passes over the heading's HTML and a bullet line. */
  lemma BulletLinePasses(bullet: Rule, strong: Rule, h: string, point: string)
    requires bullet.open == "* " && bullet.close == "\n" && strong.open != [] && strong.open[0] == '*'
    requires '*' !in bullet.before && '*' !in bullet.after
    requires '*' !in h && PlainLine(point)
    ensures Apply(strong, Apply(bullet, h + ("* " + point + "\n"))) == h + (bullet.before + point + bullet.after)
  {
    var b := bullet.before + point + bullet.after;
    BulletPassOver(bullet, h, point);
    WrappedHasNoStar(bullet.before, point, bullet.after);
    assert '*' !in h + b;
    assert (h + b) + [] == h + b;
    ApplyWithoutOpen(strong, h + b, []);
  }

  /** The four passes over a heading line and a bullet line, for rules of the shapes used here. */
  lemma HeadingAndBulletPasses(sub: Rule, head: Rule, bullet: Rule, strong: Rule, title: string, point: string)
    requires sub.open == "####" && head.open == "###" && head.close == "\n"
    requires bullet.open == "* " && bullet.close == "\n" && strong.open != [] && strong.open[0] == '*'
    requires '*' !in head.before && '*' !in head.after && '*' !in bullet.before && '*' !in bullet.after
    requires PlainLine(title) && PlainLine(point)
    ensures Apply(strong, Apply(bullet, Apply(head, Apply(sub, "###" + title + "\n" + "* " + point + "\n"))))
         == (head.before + title + head.after) + (bullet.before + point + bullet.after)
  {
    var rest := "* " + point + "\n";
    var h := head.before + title + head.after;
    assert "###" + title + "\n" + "* " + point + "\n" == "###" + title + "\n" + rest;
    HeadingLinePasses(sub, head, title, rest);
    WrappedHasNoStar(head.before, title, head.after);
    BulletLinePasses(bullet, strong, h, point);
  }

  /** The shapes of the four rules that the passes above depend on. */
  lemma RuleShapes()
    ensures SubHeading.open == "####" && Heading.open == "###" && Heading.close == "\n"
    ensures Bullet.open == "* " && Bullet.close == "\n" && Strong.open != [] && Strong.open[0] == '*'
    ensures '*' !in Heading.before && '*' !in Heading.after && '*' !in Bullet.before && '*' !in Bullet.after
  {
    assert '*' !in Heading.before by {
      assert forall i :: 0 <= i < |Heading.before| ==> Heading.before[i] != '*';
    }
    assert '*' !in Bullet.before by {
      assert forall i :: 0 <= i < |Bullet.before| ==> Bullet.before[i] != '*';
    }
  }

  /**
   * A "###" heading line followed by a "* " bullet line becomes a level-3
   * heading ending in a full-width colon, then a one-item list; each line's
   * newline is consumed.
   */
  lemma MarkupHeadingAndBullet(title: string, point: string)
    requires PlainLine(title) && PlainLine(point)
    ensures MarkupToHtml("###" + title + "\n" + "* " + point + "\n")
         == (Heading.before + title + Heading.after) + (Bullet.before + point + Bullet.after)
  {
    RuleShapes();
    HeadingAndBulletPasses(SubHeading, Heading, Bullet, Strong, title, point);
  }
}

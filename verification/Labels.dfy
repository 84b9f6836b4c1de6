/**
  What normalising a label means: the words of the label in lower case with single blanks between
  them, without a leading article.  White space and underscores separate words.
*/
module Labels {
  import opened DetectionText
  import opened Text

  const UPPER := "ABCDEFGHIJKLMNOPQRSTUVWXYZ"
  const LOWER := "abcdefghijklmnopqrstuvwxyz"

  /** Lower case takes each letter to the one at the same place, and keeps all other characters. */
  lemma LowerIsAlphabet(c: char)
    ensures forall i :: 0 <= i < 26 && c == UPPER[i] ==> Lower(c) == LOWER[i]
    ensures c !in UPPER ==> Lower(c) == c
  {
    if 'A' <= c <= 'Z' {
      assert UPPER[c as int - 'A' as int] == c;
    }
  }

  ghost predicate AllSpace(s: string) {
    forall i :: 0 <= i < |s| ==> IsSpace(s[i])
  }

  /** What separates two words. */
  ghost predicate IsGap(g: string) {
    g != "" && forall i :: 0 <= i < |g| ==> IsSpace(g[i]) || g[i] == '_'
  }

  ghost predicate IsWord(w: string) {
    w != "" && forall i :: 0 <= i < |w| ==> !IsSpace(w[i]) && w[i] != '_'
  }

  predicate IsArticle(w: string) {
    w == "a" || w == "an" || w == "the"
  }

  ghost predicate AreWords(ws: seq<string>) {
    ws != [] && forall i :: 0 <= i < |ws| ==> IsWord(ws[i])
  }

  ghost predicate AreGaps(gaps: seq<string>) {
    forall i :: 0 <= i < |gaps| ==> IsGap(gaps[i])
  }

  ghost predicate AreSpaces(gaps: seq<string>) {
    forall i :: 0 <= i < |gaps| ==> gaps[i] != "" && AllSpace(gaps[i])
  }

  /** The words with the gaps between them. */
  ghost function Spread(ws: seq<string>, gaps: seq<string>): string
    requires ws != [] && |gaps| == |ws| - 1
  {
    if |ws| == 1 then ws[0] else ws[0] + (gaps[0] + Spread(ws[1..], gaps[1..]))
  }

  /** The words with single blanks between them. */
  ghost function Blanks(ws: seq<string>): string
    requires ws != []
  {
    if |ws| == 1 then ws[0] else ws[0] + (" " + Blanks(ws[1..]))
  }

  ghost function LowerCase(w: string): (r: string)
    ensures |r| == |w| && forall i :: 0 <= i < |w| ==> r[i] == Lower(w[i])
  {
    seq(|w|, i requires 0 <= i < |w| => Lower(w[i]))
  }

  ghost function AllLower(ws: seq<string>): (r: seq<string>)
    ensures |r| == |ws| && forall i :: 0 <= i < |ws| ==> r[i] == LowerCase(ws[i])
  {
    seq(|ws|, i requires 0 <= i < |ws| => LowerCase(ws[i]))
  }

  ghost function AllPlain(gaps: seq<string>): (r: seq<string>)
    ensures |r| == |gaps| && forall i :: 0 <= i < |gaps| ==> r[i] == Plainer(gaps[i])
  {
    seq(|gaps|, i requires 0 <= i < |gaps| => Plainer(gaps[i]))
  }

  // ---------- the steps ----------

  lemma PlainerConcat(a: string, b: string)
    ensures Plainer(a + b) == Plainer(a) + Plainer(b)
  {
  }

  lemma PlainWord(w: string)
    requires IsWord(w)
    ensures Plainer(w) == LowerCase(w) && IsWord(LowerCase(w))
  {
  }

  lemma PlainGap(g: string)
    requires IsGap(g)
    ensures Plainer(g) != "" && AllSpace(Plainer(g))
  {
  }

  lemma {:induction false} SpreadPlain(ws: seq<string>, gaps: seq<string>)
    requires AreWords(ws) && |gaps| == |ws| - 1 && AreGaps(gaps)
    ensures Plainer(Spread(ws, gaps)) == Spread(AllLower(ws), AllPlain(gaps))
    ensures AreWords(AllLower(ws)) && AreSpaces(AllPlain(gaps))
    decreases |ws|
  {
    forall i | 0 <= i < |ws| ensures IsWord(AllLower(ws)[i]) { PlainWord(ws[i]); }
    forall i | 0 <= i < |gaps| ensures AllPlain(gaps)[i] != "" && AllSpace(AllPlain(gaps)[i]) { PlainGap(gaps[i]); }
    PlainWord(ws[0]);
    if |ws| == 1 {
    } else {
      SpreadPlain(ws[1..], gaps[1..]);
      PlainerConcat(ws[0], gaps[0] + Spread(ws[1..], gaps[1..]));
      PlainerConcat(gaps[0], Spread(ws[1..], gaps[1..]));
      assert AllLower(ws)[1..] == AllLower(ws[1..]) && AllPlain(gaps)[1..] == AllPlain(gaps[1..]);
    }
  }

  lemma SpaceIsStripped(s: string)
    requires AllSpace(s)
    ensures LStrip(s) == ""
  {
  }

  lemma {:induction false} SolidEnds(ws: seq<string>, gaps: seq<string>)
    requires AreWords(ws) && |gaps| == |ws| - 1
    ensures var s := Spread(ws, gaps); s != "" && !IsSpace(s[0]) && !IsSpace(s[|s| - 1])
    decreases |ws|
  {
    if |ws| == 1 {
      assert IsWord(ws[0]);
    } else {
      assert IsWord(ws[0]);
      SolidEnds(ws[1..], gaps[1..]);
      LastOfRest(ws[0], gaps[0] + Spread(ws[1..], gaps[1..]));
      LastOfRest(gaps[0], Spread(ws[1..], gaps[1..]));
    }
  }

  lemma LastOfRest(a: string, b: string)
    requires b != ""
    ensures (a + b)[|a + b| - 1] == b[|b| - 1]
  {
  }

  lemma StripAfter(lead: string, s: string)
    requires AllSpace(lead) && s != "" && !IsSpace(s[0]) && !IsSpace(s[|s| - 1])
    ensures Strip(lead + s) == s
  {
    LStripFront(lead, s);
    SpaceIsStripped(lead);
    RStripNothing(s);
    assert "" + s == s;
  }

  lemma {:induction false} StripBetween(lead: string, s: string, trail: string)
    requires AllSpace(lead) && AllSpace(trail) && s != "" && !IsSpace(s[0]) && !IsSpace(s[|s| - 1])
    ensures Strip(lead + s + trail) == s
    decreases |trail|
  {
    if trail == "" {
      StripAfter(lead, s);
      NothingAfter(lead + s);
    } else {
      var front, x := trail[..|trail| - 1], trail[|trail| - 1];
      StripBetween(lead, s, front);
      StripTrailing(lead + s + front, x);
      LastApart(lead + s, trail);
    }
  }

  lemma NothingAfter(s: string)
    ensures s + "" == s
  {
  }

  lemma LastApart(a: string, b: string)
    requires b != ""
    ensures a + b == a + b[..|b| - 1] + [b[|b| - 1]]
  {
  }

  lemma StartsWithWordIff(v: string, h: string, rest: string, w: string)
    requires IsWord(v) && h != "" && IsSpace(h[0]) && IsArticle(w)
    ensures StartsWithWord(v + (h + rest), w) <==> v == w
  {
    var s := v + (h + rest);
    assert s[|v|] == h[0] && s[..|v|] == v;
    assert forall i :: 0 <= i < |w| ==> !IsSpace(w[i]);
    if |w| < |v| {
      assert s[|w|] == v[|w|];
    } else if |w| > |v| {
      if |w| < |s| { assert s[..|w|][|v|] == s[|v|]; }
    }
  }

  lemma WordStartsWithNoWord(v: string, w: string)
    requires IsWord(v)
    ensures !StartsWithWord(v, w)
  {
  }

  lemma DropsArticle(v: string, h: string, rest: string)
    requires IsWord(v) && h != "" && AllSpace(h) && rest != "" && !IsSpace(rest[0])
    ensures DropArticle(v + (h + rest)) == if IsArticle(v) then rest else v + (h + rest)
  {
    var s := v + (h + rest);
    StartsWithWordIff(v, h, rest, "a");
    StartsWithWordIff(v, h, rest, "an");
    StartsWithWordIff(v, h, rest, "the");
    if IsArticle(v) {
      assert s[|v|..] == h + rest;
      LStripFront(h, rest);
      SpaceIsStripped(h);
      assert "" + rest == rest;
    }
  }

  lemma {:induction false} CollapseWord(w: string, rest: string)
    requires forall i :: 0 <= i < |w| ==> !IsSpace(w[i])
    ensures Collapse(w + rest) == w + Collapse(rest)
    decreases |w|
  {
    if w == "" {
      assert w + rest == rest;
    } else {
      CollapseWord(w[1..], rest);
      assert (w + rest)[1..] == w[1..] + rest;
      assert [w[0]] + (w[1..] + Collapse(rest)) == w + Collapse(rest);
    }
  }

  lemma CollapseGap(h: string, rest: string)
    requires h != "" && AllSpace(h) && rest != "" && !IsSpace(rest[0])
    ensures Collapse(h + rest) == " " + Collapse(rest)
  {
    assert (h + rest)[1..] == h[1..] + rest;
    LStripFront(h[1..], rest);
    SpaceIsStripped(h[1..]);
    assert "" + rest == rest;
  }

  lemma {:induction false} CollapseSpread(ws: seq<string>, gaps: seq<string>)
    requires AreWords(ws) && |gaps| == |ws| - 1 && AreSpaces(gaps)
    ensures Collapse(Spread(ws, gaps)) == Blanks(ws)
    decreases |ws|
  {
    assert IsWord(ws[0]);
    if |ws| == 1 {
      CollapseWord(ws[0], "");
      assert ws[0] + "" == ws[0];
    } else {
      var rest := Spread(ws[1..], gaps[1..]);
      SolidEnds(ws[1..], gaps[1..]);
      CollapseSpread(ws[1..], gaps[1..]);
      CollapseWord(ws[0], gaps[0] + rest);
      CollapseGap(gaps[0], rest);
    }
  }

  // ---------- labels made of words ----------

  /** The words without an article in front of others. */
  ghost function WithoutArticle(ws: seq<string>): (r: seq<string>)
    requires ws != []
    ensures r != []
  {
    if |ws| > 1 && IsArticle(ws[0]) then ws[1..] else ws
  }

  lemma PlainSpreadIsNormalized(ws: seq<string>, gaps: seq<string>)
    requires AreWords(ws) && |gaps| == |ws| - 1 && AreSpaces(gaps)
    ensures Collapse(DropArticle(Spread(ws, gaps))) == Blanks(WithoutArticle(ws))
  {
    CollapseSpread(ws, gaps);
    if |ws| == 1 {
      assert IsWord(ws[0]);
      WordStartsWithNoWord(ws[0], "a");
      WordStartsWithNoWord(ws[0], "an");
      WordStartsWithNoWord(ws[0], "the");
    } else {
      SolidEnds(ws[1..], gaps[1..]);
      DropsArticle(ws[0], gaps[0], Spread(ws[1..], gaps[1..]));
      CollapseSpread(ws[1..], gaps[1..]);
    }
  }

  /**
    A label that is words with white space or underscores between them, and white space around, is
    normalised to its words in lower case with single blanks, without a leading article.
  */
  lemma NormalizedWords(lead: string, ws: seq<string>, gaps: seq<string>, trail: string)
    requires AllSpace(lead) && AllSpace(trail) && AreWords(ws) && |gaps| == |ws| - 1 && AreGaps(gaps)
    ensures NormalizeLabel(lead + Spread(ws, gaps) + trail) == Blanks(WithoutArticle(AllLower(ws)))
  {
    SolidEnds(ws, gaps);
    StripBetween(lead, Spread(ws, gaps), trail);
    SpreadPlain(ws, gaps);
    PlainSpreadIsNormalized(AllLower(ws), AllPlain(gaps));
  }

  // ---------- labels that are normal already ----------

  ghost predicate IsPlainChar(c: char) {
    !('A' <= c <= 'Z') && c != '_' && (IsSpace(c) ==> c == ' ')
  }

  /** No upper case, no underscore, and white space only as single blanks. */
  ghost predicate IsTidy(s: string) {
    && (forall i :: 0 <= i < |s| ==> IsPlainChar(s[i]))
    && forall i :: 0 <= i < |s| - 1 ==> s[i] != ' ' || s[i + 1] != ' '
  }

  /** A tidy text without blanks at its ends. */
  ghost predicate IsNormal(s: string) {
    s != "" && IsTidy(s) && s[0] != ' ' && s[|s| - 1] != ' '
  }

  lemma LowerFirst(w: string, more: seq<string>)
    requires IsWord(w) && LowerCase(w) == w && AreWords(more) && AllLower(more) == more
    ensures AreWords([w] + more) && AllLower([w] + more) == [w] + more
    ensures Blanks([w] + more) == w + (" " + Blanks(more))
  {
    var ws := [w] + more;
    assert ws[1..] == more;
    assert forall i :: 0 < i < |ws| ==> ws[i] == more[i - 1] && LowerCase(more[i - 1]) == AllLower(more)[i - 1];
    assert AllLower(ws) == ws;
  }

  /** A normal text is its words with single blanks between them. */
  lemma {:induction false} NormalIsBlanks(s: string) returns (ws: seq<string>)
    requires IsNormal(s)
    ensures AreWords(ws) && Blanks(ws) == s && AllLower(ws) == ws
    decreases |s|
  {
    var k := Next(s, ' ', 0);
    var w := s[..k];
    assert IsWord(w) && LowerCase(w) == w;
    if k == |s| {
      ws := [w];
      assert w == s;
    } else {
      var rest := s[k + 1..];
      assert rest[0] != ' ' && rest[|rest| - 1] == s[|s| - 1];
      assert IsTidy(rest) by {
        assert forall i :: 0 <= i < |rest| ==> rest[i] == s[k + 1 + i];
      }
      var more := NormalIsBlanks(rest);
      ws := [w] + more;
      LowerFirst(w, more);
      assert s == w + (" " + rest);
    }
  }

  ghost function SingleBlanks(n: nat): (gaps: seq<string>)
    ensures |gaps| == n && forall i :: 0 <= i < n ==> gaps[i] == " "
  {
    seq(n, _ => " ")
  }

  lemma {:induction false} BlanksAreSpread(ws: seq<string>)
    requires ws != []
    ensures Spread(ws, SingleBlanks(|ws| - 1)) == Blanks(ws)
    decreases |ws|
  {
    if |ws| == 1 {
    } else {
      BlanksAreSpread(ws[1..]);
      assert SingleBlanks(|ws| - 1)[1..] == SingleBlanks(|ws| - 2);
    }
  }

  lemma BlanksNormalized(ws: seq<string>)
    requires AreWords(ws) && AllLower(ws) == ws
    ensures NormalizeLabel(Blanks(ws)) == Blanks(WithoutArticle(ws))
  {
    var gaps := SingleBlanks(|ws| - 1);
    BlanksAreSpread(ws);
    assert AreGaps(gaps);
    NormalizedWords("", ws, gaps, "");
    assert "" + Spread(ws, gaps) + "" == Spread(ws, gaps);
  }

  /** An article in front of a normal text is dropped. */
  lemma ArticleIsDropped(w: string, s: string)
    requires IsArticle(w) && IsNormal(s)
    ensures NormalizeLabel(w + " " + s) == s
  {
    var more := NormalIsBlanks(s);
    ArticleIsWord(w);
    LowerFirst(w, more);
    BlanksNormalized([w] + more);
    BlankBefore(w, s);
    assert ([w] + more)[1..] == more;
  }

  lemma ArticleIsWord(w: string)
    requires IsArticle(w)
    ensures IsWord(w) && LowerCase(w) == w
  {
    assert |LowerCase(w)| == |w|;
  }

  lemma BlankBefore(w: string, s: string)
    ensures w + (" " + s) == w + " " + s
  {
  }

  /** A normal text that does not start with an article stays as it is. */
  lemma NormalStays(s: string)
    requires IsNormal(s) && forall w :: IsArticle(w) ==> !(w + " " <= s)
    ensures NormalizeLabel(s) == s
  {
    var ws := NormalIsBlanks(s);
    if |ws| > 1 {
      assert s == ws[0] + (" " + Blanks(ws[1..])) == ws[0] + " " + Blanks(ws[1..]);
      assert ws[0] + " " <= s;
    }
    BlanksNormalized(ws);
  }

  // ---------- every result ----------

  ghost predicate NoUpperOrUnderscore(s: string) {
    forall i :: 0 <= i < |s| ==> !('A' <= s[i] <= 'Z') && s[i] != '_'
  }

  lemma DropArticleKeepsPlain(s: string)
    requires NoUpperOrUnderscore(s)
    ensures NoUpperOrUnderscore(DropArticle(s))
  {
  }

  lemma {:induction false} CollapseIsTidy(s: string)
    requires NoUpperOrUnderscore(s)
    ensures IsTidy(Collapse(s))
    ensures s != "" && !IsSpace(s[0]) ==> Collapse(s) != "" && Collapse(s)[0] == s[0]
    ensures s == "" ==> Collapse(s) == ""
    decreases |s|
  {
    if s == "" {
    } else if IsSpace(s[0]) {
      var rest := LStrip(s[1..]);
      LStripIsSolid(s[1..]);
      CollapseIsTidy(rest);
      TidyCons(' ', Collapse(rest));
    } else {
      CollapseIsTidy(s[1..]);
      TidyCons(s[0], Collapse(s[1..]));
    }
  }

  lemma TidyCons(c: char, s: string)
    requires IsPlainChar(c) && IsTidy(s) && (c == ' ' && s != "" ==> s[0] != ' ')
    ensures IsTidy([c] + s)
  {
  }

  /** Whatever the label, the result has no upper case, no underscore and no run of white space. */
  lemma NormalizedIsTidy(s: string)
    ensures IsTidy(NormalizeLabel(s))
  {
    var plain := Plainer(Strip(s));
    assert NoUpperOrUnderscore(plain);
    DropArticleKeepsPlain(plain);
    CollapseIsTidy(DropArticle(plain));
  }

  /** Nothing but white space leaves nothing. */
  lemma NothingIsNormalized(s: string)
    requires AllSpace(s)
    ensures NormalizeLabel(s) == ""
  {
    SpaceIsStripped(s);
    assert RStrip("") == "";
  }
}

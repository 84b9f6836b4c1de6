/** Python string operations used by the prompt parser and the detection protocol. */
module Text {

  /** ASCII white space as `str.strip` and the pattern `\s` see it. */
  predicate IsSpace(c: char) {
    '\t' <= c <= '\r' || c == ' ' || '\U{1C}' <= c <= '\U{1F}'
  }

  /** The white space characters: tab, line feed, vertical tab, form feed, carriage return, the four
      separators of ASCII, and the blank. */
  lemma SpacesAre(c: char)
    ensures IsSpace(c) <==>
      c in ['\t', '\n', '\U{0B}', '\U{0C}', '\r', '\U{1C}', '\U{1D}', '\U{1E}', '\U{1F}', ' ']
  {
  }

  /** Where the white space that starts at `i` ends. */
  function SpaceEnd(s: string, i: nat): (k: nat)
    requires i <= |s|
    ensures i <= k <= |s|
    ensures forall j :: i <= j < k ==> IsSpace(s[j])
    ensures k < |s| ==> !IsSpace(s[k])
    decreases |s| - i
  {
    if i < |s| && IsSpace(s[i]) then SpaceEnd(s, i + 1) else i
  }

  /** Where the white space that ends at `n` starts. */
  function SpaceStart(s: string, n: nat): (k: nat)
    requires n <= |s|
    ensures k <= n
    ensures forall j :: k <= j < n ==> IsSpace(s[j])
    ensures k > 0 ==> !IsSpace(s[k - 1])
  {
    if n > 0 && IsSpace(s[n - 1]) then SpaceStart(s, n - 1) else n
  }

  function LStrip(s: string): string {
    s[SpaceEnd(s, 0)..]
  }

  function RStrip(s: string): string {
    s[..SpaceStart(s, |s|)]
  }

  function Strip(s: string): string {
    RStrip(LStrip(s))
  }

  /** Stripping drops white space at both ends, and leaves none there. */
  lemma StripIsMiddle(s: string) returns (lead: string, trail: string)
    ensures s == lead + Strip(s) + trail
    ensures forall i :: 0 <= i < |lead| ==> IsSpace(lead[i])
    ensures forall i :: 0 <= i < |trail| ==> IsSpace(trail[i])
    ensures var r := Strip(s); r != "" ==> !IsSpace(r[0]) && !IsSpace(r[|r| - 1])
  {
    var rest := LStrip(s);
    lead, trail := s[..SpaceEnd(s, 0)], rest[SpaceStart(rest, |rest|)..];
    assert s == lead + rest && rest == Strip(s) + trail;
    assert lead + Strip(s) + trail == lead + (Strip(s) + trail);
    if Strip(s) != "" { assert rest[0] == Strip(s)[0]; }
  }

  /** The first position of a character from `i` on, or the length. */
  function Next(s: string, c: char, i: nat): (k: nat)
    requires i <= |s|
    ensures i <= k <= |s|
    ensures forall j :: i <= j < k ==> s[j] != c
    ensures k < |s| ==> s[k] == c
    decreases |s| - i
  {
    if i < |s| && s[i] != c then Next(s, c, i + 1) else i
  }

  /** One more than the last position of a character before `n`, or 0. */
  function Last(s: string, c: char, n: nat): (k: nat)
    requires n <= |s|
    ensures k <= n
    ensures forall j :: k <= j < n ==> s[j] != c
    ensures k > 0 ==> s[k - 1] == c
  {
    if n > 0 && s[n - 1] != c then Last(s, c, n - 1) else n
  }

  /** The first position of a character, or -1. */
  function Find(s: string, c: char): int {
    var k := Next(s, c, 0);
    if k == |s| then -1 else k
  }

  /** The last position of a character, or -1. */
  function RFind(s: string, c: char): int {
    Last(s, c, |s|) - 1
  }

  function Split(s: string, c: char): (parts: seq<string>)
    ensures parts != []
    decreases |s|
  {
    var k := Next(s, c, 0);
    if k == |s| then [s] else [s[..k]] + Split(s[k + 1..], c)
  }

  /** A Python slice with bounds from the front that lie on the text: empty when the bounds cross. */
  function Slice(s: string, from: nat, to: nat): string
    requires to <= |s|
  {
    if from <= to then s[from..to] else ""
  }

  /** The character does not occur. */
  predicate Lacks(s: string, c: char) {
    forall i :: 0 <= i < |s| ==> s[i] != c
  }

  lemma FindAt(a: string, c: char, b: string)
    requires Lacks(a, c)
    ensures Find(a + [c] + b, c) == |a|
  {
    var s := a + [c] + b;
    assert forall i :: 0 <= i < |a| ==> s[i] == a[i];
    assert s[|a|] == c;
  }

  lemma RFindAt(a: string, c: char, b: string)
    requires Lacks(b, c)
    ensures RFind(a + [c] + b, c) == |a|
  {
    var s := a + [c] + b;
    assert forall i :: |a| < i < |s| ==> s[i] == b[i - |a| - 1];
    assert s[|a|] == c;
  }

  lemma SplitNone(a: string, c: char)
    requires Lacks(a, c)
    ensures Split(a, c) == [a]
  {
  }

  lemma SplitAt(a: string, c: char, b: string)
    requires Lacks(a, c)
    ensures Split(a + [c] + b, c) == [a] + Split(b, c)
  {
    FindAt(a, c, b);
    var s := a + [c] + b;
    assert s[..|a|] == a && s[|a| + 1..] == b;
  }

  lemma {:induction false} SplitPartsLack(s: string, c: char)
    ensures forall i :: 0 <= i < |Split(s, c)| ==> Lacks(Split(s, c)[i], c)
    decreases |s|
  {
    var k := Next(s, c, 0);
    if k == |s| {
    } else {
      SplitPartsLack(s[k + 1..], c);
    }
  }

  lemma {:induction false} SplitKeepsLack(s: string, sep: char, c: char)
    requires Lacks(s, c)
    ensures forall i :: 0 <= i < |Split(s, sep)| ==> Lacks(Split(s, sep)[i], c)
    decreases |s|
  {
    var k := Next(s, sep, 0);
    if k == |s| {
    } else {
      SplitKeepsLack(s[k + 1..], sep, c);
    }
  }

  /** No text of the list has the character. */
  ghost predicate AllLack(parts: seq<string>, c: char) {
    forall i :: 0 <= i < |parts| ==> Lacks(parts[i], c)
  }

  lemma AllLackConcat(a: seq<string>, b: seq<string>, c: char)
    ensures AllLack(a + b, c) <==> AllLack(a, c) && AllLack(b, c)
  {
    var s := a + b;
    if AllLack(s, c) {
      forall i | 0 <= i < |a| ensures Lacks(a[i], c) { assert s[i] == a[i]; }
      forall i | 0 <= i < |b| ensures Lacks(b[i], c) { assert s[|a| + i] == b[i]; }
    }
  }

  lemma AllLackOne(part: string, c: char)
    ensures AllLack([part], c) <==> Lacks(part, c)
  {
    if AllLack([part], c) { assert [part][0] == part; }
  }

  /** Splitting at another character loses no character. */
  lemma {:induction false} SplitLacksIff(s: string, sep: char, c: char)
    requires c != sep
    ensures Lacks(s, c) <==> AllLack(Split(s, sep), c)
    decreases |s|
  {
    var k := Next(s, sep, 0);
    AllLackOne(s[..k], c);
    if k == |s| {
      assert s[..k] == s;
    } else {
      SplitLacksIff(s[k + 1..], sep, c);
      assert s == s[..k] + ([sep] + s[k + 1..]);
      LacksConcat(s[..k], [sep] + s[k + 1..], c);
      LacksConcat([sep], s[k + 1..], c);
      AllLackConcat([s[..k]], Split(s[k + 1..], sep), c);
    }
  }

  lemma LacksConcat(a: string, b: string, c: char)
    ensures Lacks(a + b, c) <==> Lacks(a, c) && Lacks(b, c)
  {
    var s := a + b;
    assert forall i :: 0 <= i < |a| ==> s[i] == a[i];
    assert forall i :: 0 <= i < |b| ==> s[|a| + i] == b[i];
  }

  /** White space ends where a solid text begins. */
  lemma LStripFront(a: string, b: string)
    requires b != "" && !IsSpace(b[0])
    ensures LStrip(a + b) == LStrip(a) + b
  {
    var s, k := a + b, SpaceEnd(a, 0);
    assert forall i :: 0 <= i < |a| ==> s[i] == a[i];
    assert s[|a|] == b[0];
    assert SpaceEnd(s, 0) == k;
  }

  lemma RStripNothing(s: string)
    requires s == "" || !IsSpace(s[|s| - 1])
    ensures RStrip(s) == s
  {
  }

  lemma LStripNothing(s: string)
    requires s == "" || !IsSpace(s[0])
    ensures LStrip(s) == s
  {
  }

  lemma LStripIsSolid(s: string)
    ensures LStrip(s) == "" || !IsSpace(LStrip(s)[0])
  {
  }

  lemma LStripSpace(x: char, s: string)
    requires IsSpace(x)
    ensures LStrip([x] + s) == LStrip(s)
  {
    var t, k := [x] + s, SpaceEnd(s, 0);
    assert forall i :: 0 <= i < |s| ==> t[i + 1] == s[i];
    assert forall i :: 0 < i < |t| ==> t[i] == s[i - 1];
    assert SpaceEnd(t, 0) == k + 1;
  }

  lemma RStripSpace(s: string, x: char)
    requires IsSpace(x)
    ensures RStrip(s + [x]) == RStrip(s)
  {
    var t := s + [x];
    assert forall i :: 0 <= i < |s| ==> t[i] == s[i];
    assert SpaceStart(t, |t|) == SpaceStart(s, |s|);
  }

  /** Trailing white space does not change what stripping leaves. */
  lemma StripTrailing(s: string, x: char)
    requires IsSpace(x)
    ensures Strip(s + [x]) == Strip(s)
  {
    var t, k := s + [x], SpaceEnd(s, 0);
    assert forall i :: 0 <= i < |s| ==> t[i] == s[i];
    if k < |s| {
      assert SpaceEnd(t, 0) == k;
      assert LStrip(t) == LStrip(s) + [x];
      RStripSpace(LStrip(s), x);
    } else {
      assert SpaceEnd(t, 0) == |t|;
      assert LStrip(t) == "" == LStrip(s);
    }
  }

  lemma LStripKeeps(s: string, c: char)
    requires !IsSpace(c)
    ensures Lacks(s, c) <==> Lacks(LStrip(s), c)
  {
    var k := SpaceEnd(s, 0);
    assert forall i :: 0 <= i < |LStrip(s)| ==> LStrip(s)[i] == s[k + i];
    assert forall i :: k <= i < |s| ==> s[i] == LStrip(s)[i - k];
  }

  lemma RStripKeeps(s: string, c: char)
    requires !IsSpace(c)
    ensures Lacks(s, c) <==> Lacks(RStrip(s), c)
  {
    assert forall i :: 0 <= i < |RStrip(s)| ==> RStrip(s)[i] == s[i];
  }

  /** Stripping keeps every character that is not white space. */
  lemma StripKeeps(s: string, c: char)
    requires !IsSpace(c)
    ensures Lacks(s, c) <==> Lacks(Strip(s), c)
  {
    LStripKeeps(s, c);
    RStripKeeps(LStrip(s), c);
  }

  lemma SliceMiddle(a: string, b: string, c: string)
    ensures Slice(a + b + c, |a|, |a| + |b|) == b
  {
  }
}

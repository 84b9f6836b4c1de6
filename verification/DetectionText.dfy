/**
  The detection text protocol: the printer of the detection node, and the two independent
  parsers of the reactive controller and of the scene manager.

  A label survives printing and parsing exactly when it has none of the separators.
  The number reader `num` stands for Python's `float`; `ReadsPrinted` is all that is used of it,
  and `DecimalReader` shows that plain decimal reading satisfies it.
*/
module DetectionText {
  import opened Text
  import opened Wrappers

  /** A number as it is printed with a fixed count of decimals, in units of the last one. */
  datatype Decimal = Decimal(negative: bool, units: nat)

  datatype Detection = Detection(name: string, x0: Decimal, y0: Decimal, x1: Decimal, y1: Decimal, score: Decimal)

  /** What the controller reads from one entry. */
  datatype Parsed = Parsed(name: string, bbox: seq<real>, confidence: real)

  /** What the scene manager reads from one entry. */
  datatype Sighting = Sighting(name: string, confidence: real)

  // ---------- numbers ----------

  function Digit(d: nat): char
    requires d < 10
  {
    '0' + d as char
  }

  function Digits(n: nat): (s: string)
    ensures s != ""
  {
    if n < 10 then [Digit(n)] else Digits(n / 10) + [Digit(n % 10)]
  }

  function Sign(negative: bool): string {
    if negative then "-" else ""
  }

  function OneDecimal(u: nat): string {
    Digits(u / 10) + "." + [Digit(u % 10)]
  }

  function TwoDecimals(u: nat): string {
    Digits(u / 100) + "." + [Digit(u / 10 % 10), Digit(u % 10)]
  }

  function PrintTenths(d: Decimal): string {
    Sign(d.negative) + OneDecimal(d.units)
  }

  function PrintHundredths(d: Decimal): string {
    Sign(d.negative) + TwoDecimals(d.units)
  }

  function Signed(negative: bool, x: real): real {
    if negative then -x else x
  }

  function Ratio(n: nat, k: nat): real
    requires k > 0
  {
    n as real / k as real
  }

  function Tenths(d: Decimal): real {
    Signed(d.negative, Ratio(d.units, 10))
  }

  function Hundredths(d: Decimal): real {
    Signed(d.negative, Ratio(d.units, 100))
  }

  /** A printed number is its units divided by ten or by a hundred. */
  lemma UnitsAre(d: Decimal)
    ensures 10.0 * Tenths(d) == 100.0 * Hundredths(d) == if d.negative then -(d.units as real) else d.units as real
  {
  }

  type NumberReader = string -> Option<real>

  /** What is assumed of `float`: it reads printed decimals back and rejects the empty text. */
  ghost predicate ReadsPrinted(num: NumberReader) {
    && num("") == None
    && (forall d :: num(PrintTenths(d)) == Some(Tenths(d)))
    && forall d :: num(PrintHundredths(d)) == Some(Hundredths(d))
  }

  /** The characters of printed numbers. */
  predicate IsPlain(s: string) {
    forall i :: 0 <= i < |s| ==> '0' <= s[i] <= '9' || s[i] == '.' || s[i] == '-'
  }

  lemma {:induction false} DigitsArePlain(n: nat)
    ensures IsPlain(Digits(n))
  {
    if n < 10 {
    } else {
      DigitsArePlain(n / 10);
    }
  }

  lemma PrintedArePlain(d: Decimal)
    ensures IsPlain(PrintTenths(d)) && PrintTenths(d) != ""
    ensures IsPlain(PrintHundredths(d)) && PrintHundredths(d) != ""
  {
    DigitsArePlain(d.units / 10);
    DigitsArePlain(d.units / 100);
  }

  // ---------- the printer ----------

  function PrintBox(d: Detection): string {
    PrintTenths(d.x0) + ", " + (PrintTenths(d.y0) + ", " + (PrintTenths(d.x1) + ", " + PrintTenths(d.y1)))
  }

  function PrintEntry(d: Detection): string {
    d.name + " " + Brackets(PrintBox(d), PrintHundredths(d.score))
  }

  function Brackets(box: string, score: string): string {
    "[" + box + "] (" + score + ")"
  }

  /** The entries joined by "; ". */
  function PrintEntries(ds: seq<Detection>): string
    requires ds != []
  {
    if |ds| == 1 then PrintEntry(ds[0]) else PrintEntry(ds[0]) + "; " + PrintEntries(ds[1..])
  }

  const NOTHING := "no detections"

  function PrintMessage(ds: seq<Detection>): string {
    if ds == [] then NOTHING else PrintEntries(ds)
  }

  // ---------- labels ----------

  function Lower(c: char): char {
    if 'A' <= c <= 'Z' then c + ' ' else c
  }

  /** Lower case, with underscores as blanks. */
  function Plainer(s: string): (r: string)
    ensures |r| == |s|
    ensures forall i :: 0 <= i < |s| ==> r[i] == if s[i] == '_' then ' ' else Lower(s[i])
  {
    seq(|s|, i requires 0 <= i < |s| => if s[i] == '_' then ' ' else Lower(s[i]))
  }

  predicate StartsWithWord(s: string, word: string) {
    |word| < |s| && s[..|word|] == word && IsSpace(s[|word|])
  }

  /** Drops a leading article and the white space after it. */
  function DropArticle(s: string): string {
    if StartsWithWord(s, "a") then LStrip(s[1..])
    else if StartsWithWord(s, "an") then LStrip(s[2..])
    else if StartsWithWord(s, "the") then LStrip(s[3..])
    else s
  }

  /** Every run of white space becomes one blank. */
  function Collapse(s: string): string
    decreases |s|
  {
    if s == "" then ""
    else if IsSpace(s[0]) then " " + Collapse(LStrip(s[1..]))
    else [s[0]] + Collapse(s[1..])
  }

  function NormalizeLabel(s: string): string {
    Collapse(DropArticle(Plainer(Strip(s))))
  }

  predicate IsSeparator(c: char) {
    c == ';' || c == '[' || c == ']'
  }

  /** No separator of the protocol occurs in the label. */
  predicate CleanLabel(s: string) {
    Lacks(s, ';') && Lacks(s, '[') && Lacks(s, ']')
  }

  // ---------- the parsers ----------

  /** The entries both parsers skip. */
  predicate IsNothing(s: string) {
    s == "" || s == NOTHING
  }

  /** The values of the parts that can be read, in order. */
  function Collect<T>(read: string -> Option<T>, parts: seq<string>): seq<T> {
    if parts == [] then [] else
      var last := |parts| - 1;
      var r := read(parts[last]);
      Collect(read, parts[..last]) + if r.Some? then [r.value] else []
  }

  /** The loop of both parsers: reads each part and appends what it gives. */
  method CollectParts<T>(read: string -> Option<T>, parts: seq<string>) returns (values: seq<T>)
    ensures values == Collect(read, parts)
  {
    values := [];
    for i := 0 to |parts|
      invariant values == Collect(read, parts[..i])
    {
      assert parts[..i + 1][..i] == parts[..i];
      var r := read(parts[i]);
      if r.Some? {
        values := values + [r.value];
      }
    }
    assert parts[..|parts|] == parts;
  }

  /** The numbers of all parts, if every part is one. */
  function ReadAll(num: NumberReader, parts: seq<string>): Option<seq<real>> {
    if parts == [] then Some([]) else
      var x, xs := num(Strip(parts[0])), ReadAll(num, parts[1..]);
      if x.None? || xs.None? then None else Some([x.value] + xs.value)
  }

  /** The texts in front of the box, inside it, and inside the last parentheses. */
  datatype Pieces = Pieces(name: string, box: string, score: string)

  function CutEntry(s: string): Option<Pieces> {
    var boxStart, boxEnd, confStart, confEnd := Find(s, '['), Find(s, ']'), RFind(s, '('), RFind(s, ')');
    if IsNothing(s) || boxStart == -1 || boxEnd == -1 || confStart == -1 || confEnd == -1 then None
    else Some(Pieces(s[..boxStart], Slice(s, boxStart + 1, boxEnd), Slice(s, confStart + 1, confEnd)))
  }

  /** The controller's reading of the pieces of an entry. */
  function Assemble(num: NumberReader, p: Pieces): Option<Parsed> {
    var bbox, confidence := ReadAll(num, Split(p.box, ',')), num(p.score);
    if bbox.None? || confidence.None? || |bbox.value| != 4 then None
    else Some(Parsed(NormalizeLabel(p.name), bbox.value, confidence.value))
  }

  /** `parse_detection` of the controller. */
  function ParseDetection(num: NumberReader, text: string): Option<Parsed> {
    var pieces := CutEntry(Strip(text));
    if pieces.None? then None else Assemble(num, pieces.value)
  }

  /** The controller's list of parsed entries, before depths are looked up. */
  function ControllerReads(num: NumberReader, message: string): seq<Parsed> {
    Collect(text => ParseDetection(num, text), Split(message, ';'))
  }

  /** The depth at a point of the image, where there is one. */
  type DepthLookup = (real, real) -> Option<real>

  /** A parsed entry with the centre of its box and the depth there. */
  datatype Candidate = Candidate(parsed: Parsed, x: real, y: real, depth: real)

  function CentreX(p: Parsed): real {
    if |p.bbox| == 4 then (p.bbox[0] + p.bbox[2]) / 2.0 else 0.0
  }

  function CentreY(p: Parsed): real {
    if |p.bbox| == 4 then (p.bbox[1] + p.bbox[3]) / 2.0 else 0.0
  }

  /** The candidate for a parsed entry, if there is a depth at the centre of its box. */
  function Locate(lookup: DepthLookup, p: Parsed): Option<Candidate> {
    var depth := lookup(CentreX(p), CentreY(p));
    if depth.None? then None else Some(Candidate(p, CentreX(p), CentreY(p), depth.value))
  }

  /** The values of a list for which there is a result, in order. */
  function Kept<T, U>(f: T -> Option<U>, xs: seq<T>): seq<U> {
    if xs == [] then [] else
      var r := f(xs[|xs| - 1]);
      Kept(f, xs[..|xs| - 1]) + if r.Some? then [r.value] else []
  }

  lemma KeptSnoc<T, U>(f: T -> Option<U>, xs: seq<T>, x: T)
    ensures Kept(f, xs + [x]) == Kept(f, xs) + (if f(x).Some? then [f(x).value] else [])
  {
    assert (xs + [x])[..|xs|] == xs;
  }

  lemma NoMore<T>(xs: seq<T>)
    ensures xs + [] == xs
  {
  }

  /** Reading in two steps is reading the parts and then keeping what has a result. */
  lemma {:induction false} CollectInSteps<T, U>(read: string -> Option<T>, f: T -> Option<U>, both: string -> Option<U>,
                                                parts: seq<string>)
    requires forall s :: both(s) == if read(s).None? then None else f(read(s).value)
    ensures Collect(both, parts) == Kept(f, Collect(read, parts))
    decreases |parts|
  {
    if parts == [] {
    } else {
      var front, last := parts[..|parts| - 1], parts[|parts| - 1];
      CollectInSteps(read, f, both, front);
      if read(last).Some? {
        KeptSnoc(f, Collect(read, front), read(last).value);
      } else {
        NoMore(Collect(read, front));
        NoMore(Collect(both, front));
      }
    }
  }

  /** The body of the controller's loop for one entry. */
  function ReadCandidate(num: NumberReader, lookup: DepthLookup, text: string): Option<Candidate> {
    var parsed := ParseDetection(num, text);
    if parsed.None? then None else Locate(lookup, parsed.value)
  }

  /** What holds of every value read from a part holds of all collected values. */
  lemma {:induction false} CollectedHave<T>(read: string -> Option<T>, parts: seq<string>, have: T -> bool)
    requires forall k :: 0 <= k < |parts| ==> read(parts[k]).None? || have(read(parts[k]).value)
    ensures forall i :: 0 <= i < |Collect(read, parts)| ==> have(Collect(read, parts)[i])
    decreases |parts|
  {
    if parts == [] {
    } else {
      var last := |parts| - 1;
      assert forall k :: 0 <= k < last ==> parts[..last][k] == parts[k];
      CollectedHave(read, parts[..last], have);
    }
  }

  /** The same of the values that were kept. */
  lemma {:induction false} KeptHave<T, U>(f: T -> Option<U>, xs: seq<T>, have: U -> bool)
    requires forall k :: 0 <= k < |xs| ==> f(xs[k]).None? || have(f(xs[k]).value)
    ensures forall i :: 0 <= i < |Kept(f, xs)| ==> have(Kept(f, xs)[i])
    decreases |xs|
  {
    if xs == [] {
    } else {
      var last := |xs| - 1;
      assert forall k :: 0 <= k < last ==> xs[..last][k] == xs[k];
      KeptHave(f, xs[..last], have);
    }
  }

  lemma ParsedHasFour(num: NumberReader, message: string)
    ensures forall i :: 0 <= i < |ControllerReads(num, message)| ==> |ControllerReads(num, message)[i].bbox| == 4
  {
    CollectedHave(text => ParseDetection(num, text), Split(message, ';'), (p: Parsed) => |p.bbox| == 4);
  }

  /** The point is as far from the left as from the right edge of the box, and as far from its top as
      from its bottom, and the depth is the one at this point. */
  ghost predicate IsCentred(lookup: DepthLookup, c: Candidate) {
    && |c.parsed.bbox| == 4
    && c.x - c.parsed.bbox[0] == c.parsed.bbox[2] - c.x
    && c.y - c.parsed.bbox[1] == c.parsed.bbox[3] - c.y
    && lookup(c.x, c.y) == Some(c.depth)
  }

  lemma LocatedIsCentred(lookup: DepthLookup, p: Parsed)
    requires |p.bbox| == 4 && Locate(lookup, p).Some?
    ensures IsCentred(lookup, Locate(lookup, p).value) && Locate(lookup, p).value.parsed == p
  {
  }

  lemma CandidatesAreCentred(lookup: DepthLookup, parsed: seq<Parsed>)
    requires forall i :: 0 <= i < |parsed| ==> |parsed[i].bbox| == 4
    ensures var candidates := Kept(p => Locate(lookup, p), parsed);
      forall i :: 0 <= i < |candidates| ==> IsCentred(lookup, candidates[i])
  {
    forall k | 0 <= k < |parsed|
      ensures Locate(lookup, parsed[k]).None? || IsCentred(lookup, Locate(lookup, parsed[k]).value)
    {
      if Locate(lookup, parsed[k]).Some? { LocatedIsCentred(lookup, parsed[k]); }
    }
    KeptHave(p => Locate(lookup, p), parsed, c => IsCentred(lookup, c));
  }

  /** The controller's callback: the entries with a depth at the centre of their box become candidates,
      in order, and there are none while no depth image has arrived. */
  method DetectionsCallback(num: NumberReader, message: string, image: Option<DepthLookup>)
    returns (candidates: seq<Candidate>)
    ensures candidates ==
      if image.None? then [] else Kept(p => Locate(image.value, p), ControllerReads(num, message))
    ensures image.Some? ==> forall i :: 0 <= i < |candidates| ==> IsCentred(image.value, candidates[i])
  {
    if image.None? {
      return [];
    }
    var lookup := image.value;
    candidates := CollectParts(text => ReadCandidate(num, lookup, text), Split(message, ';'));
    CollectInSteps(text => ParseDetection(num, text), p => Locate(lookup, p),
      text => ReadCandidate(num, lookup, text), Split(message, ';'));
    ParsedHasFour(num, message);
    CandidatesAreCentred(lookup, ControllerReads(num, message));
  }

  /** The scene manager does not look for the end of the box. */
  function CutSighting(s: string): Option<Pieces> {
    var boxStart, confStart, confEnd := Find(s, '['), RFind(s, '('), RFind(s, ')');
    if IsNothing(s) || boxStart == -1 || confStart == -1 || confEnd == -1 then None
    else Some(Pieces(s[..boxStart], "", Slice(s, confStart + 1, confEnd)))
  }

  /** The body of the scene manager's loop for one entry. */
  function ParseSighting(num: NumberReader, text: string): Option<Sighting> {
    var pieces := CutSighting(Strip(text));
    if pieces.None? || num(pieces.value.score).None? then None
    else Some(Sighting(NormalizeLabel(pieces.value.name), num(pieces.value.score).value))
  }

  function SceneReads(num: NumberReader, message: string): seq<Sighting> {
    Collect(text => ParseSighting(num, text), Split(message, ';'))
  }

  method ParseDetectionEntries(num: NumberReader, message: string) returns (sightings: seq<Sighting>)
    ensures sightings == SceneReads(num, message)
  {
    sightings := CollectParts(text => ParseSighting(num, text), Split(message, ';'));
  }

  /** Whatever the text, an entry the controller accepts is read by the scene manager as well,
      with the same label and confidence. */
  lemma ParsersAgree(num: NumberReader, text: string)
    requires ParseDetection(num, text).Some?
    ensures var p := ParseDetection(num, text).value; ParseSighting(num, text) == Some(Sighting(p.name, p.confidence))
  {
    CutsAgree(Strip(text));
  }

  lemma CutsAgree(s: string)
    requires CutEntry(s).Some?
    ensures CutSighting(s) == Some(CutEntry(s).value.(box := ""))
  {
  }

  // ---------- one printed entry ----------

  lemma PlainLacks(s: string, c: char)
    requires IsPlain(s) && (c == '[' || c == ']' || c == '(' || c == ')' || c == ';' || c == ',' || IsSpace(c))
    ensures Lacks(s, c)
  {
  }

  lemma Assoc(a: string, b: string, c: string)
    ensures (a + b) + c == a + (b + c)
  {
  }

  /** Stripping a printed entry, with or without a blank in front, strips the front of its label. */
  lemma StrippedEntry(lead: string, name: string, tail: string)
    requires tail != "" && !IsSpace(tail[0]) && !IsSpace(tail[|tail| - 1])
    ensures Strip(lead + (name + " " + tail)) == LStrip(lead + name + " ") + tail
  {
    Assoc(lead, name + " ", tail);
    Assoc(lead, name, " ");
    LStripFront(lead + name + " ", tail);
    assert (LStrip(lead + name + " ") + tail)[|LStrip(lead + name + " ")| + |tail| - 1] == tail[|tail| - 1];
    RStripNothing(LStrip(lead + name + " ") + tail);
  }

  lemma StrippedLabel(lead: string, name: string)
    requires lead == "" || lead == " "
    ensures NormalizeLabel(LStrip(lead + name + " ")) == NormalizeLabel(name)
  {
    LStripIsSolid(lead + name + " ");
    LStripNothing(LStrip(lead + name + " "));
    StripTrailing(lead + name, ' ');
    if lead == " " {
      LStripSpace(' ', name);
    } else {
      assert lead + name == name;
    }
  }

  lemma OpenBracketAt(name: string, box: string, score: string)
    requires Lacks(name, '[')
    ensures var s := name + Brackets(box, score); Find(s, '[') == |name| && s[..|name|] == name
  {
    var rest := box + "] (" + score + ")";
    assert name + Brackets(box, score) == name + ['['] + rest;
    FindAt(name, '[', rest);
  }

  lemma CloseBracketAt(name: string, box: string, score: string)
    requires Lacks(name, ']') && Lacks(box, ']')
    ensures var s := name + Brackets(box, score);
      Find(s, ']') == |name| + 1 + |box| && Slice(s, |name| + 1, |name| + 1 + |box|) == box
  {
    var front, rest := name + "[" + box, " (" + score + ")";
    assert name + Brackets(box, score) == front + [']'] + rest;
    LacksConcat(name, "[", ']');
    LacksConcat(name + "[", box, ']');
    FindAt(front, ']', rest);
    SliceMiddle(name + "[", box, "]" + rest);
    assert name + Brackets(box, score) == name + "[" + box + ("]" + rest);
  }

  lemma NothingBehind(s: string)
    ensures s + "" == s
  {
  }

  lemma ParenthesesAt(name: string, box: string, score: string)
    requires Lacks(score, '(')
    ensures var s := name + Brackets(box, score);
      && RFind(s, '(') == |name| + |box| + 3 && RFind(s, ')') == |s| - 1
      && Slice(s, |name| + |box| + 4, |s| - 1) == score
  {
    var front := name + "[" + box + "] ";
    assert name + Brackets(box, score) == front + ['('] + (score + ")");
    LacksConcat(score, ")", '(');
    RFindAt(front, '(', score + ")");
    RFindAt(front + "(" + score, ')', "");
    NothingBehind(front + "(" + score + ")");
    SliceMiddle(front + "(", score, ")");
    assert name + Brackets(box, score) == front + "(" + score + ")";
  }

  lemma EntryIsSomething(name: string, box: string, score: string)
    ensures !IsNothing(name + Brackets(box, score))
  {
    var s := name + Brackets(box, score);
    assert s[|s| - 1] == ')';
    assert NOTHING[|NOTHING| - 1] == 's';
  }

  lemma EntryIsCut(name: string, box: string, score: string)
    requires Lacks(name, '[') && Lacks(name, ']') && Lacks(box, ']') && Lacks(score, '(')
    ensures CutEntry(name + Brackets(box, score)) == Some(Pieces(name, box, score))
  {
    EntryIsSomething(name, box, score);
    OpenBracketAt(name, box, score);
    CloseBracketAt(name, box, score);
    ParenthesesAt(name, box, score);
  }

  lemma SightingIsCut(name: string, box: string, score: string)
    requires Lacks(name, '[') && Lacks(score, '(')
    ensures CutSighting(name + Brackets(box, score)) == Some(Pieces(name, "", score))
  {
    EntryIsSomething(name, box, score);
    OpenBracketAt(name, box, score);
    ParenthesesAt(name, box, score);
  }

  lemma FieldsLack(a: string, rest: string, c: char)
    requires c != ',' && c != ' '
    ensures Lacks(a + ", " + rest, c) <==> Lacks(a, c) && Lacks(rest, c)
  {
    LacksConcat(a, ", ", c);
    LacksConcat(a + ", ", rest, c);
  }

  lemma BoxLacks(d: Detection, c: char)
    requires c == '[' || c == ']' || c == '(' || c == ')' || c == ';'
    ensures Lacks(PrintBox(d), c)
  {
    var x, y, z, w := PrintTenths(d.x0), PrintTenths(d.y0), PrintTenths(d.x1), PrintTenths(d.y1);
    PrintedArePlain(d.x0);
    PrintedArePlain(d.y0);
    PrintedArePlain(d.x1);
    PrintedArePlain(d.y1);
    FieldsLack(z, w, c);
    FieldsLack(y, z + ", " + w, c);
    FieldsLack(x, y + ", " + (z + ", " + w), c);
  }

  lemma StripPlain(s: string)
    requires IsPlain(s) && s != ""
    ensures Strip(s) == s && Strip(" " + s) == s
  {
    LStripNothing(s);
    RStripNothing(s);
    LStripSpace(' ', s);
    assert " " + s == [' '] + s;
  }

  lemma Regroup(lead: string, field: string, rest: string)
    ensures lead + (field + ", " + rest) == (lead + field) + [','] + (" " + rest)
  {
  }

  /** One more field in front of fields that can be read. */
  lemma FieldIsRead(num: NumberReader, lead: string, field: string, rest: string, xs: seq<real>)
    requires Lacks(lead, ',') && Lacks(field, ',') && num(Strip(lead + field)).Some?
    requires ReadAll(num, Split(" " + rest, ',')) == Some(xs)
    ensures ReadAll(num, Split(lead + (field + ", " + rest), ',')) == Some([num(Strip(lead + field)).value] + xs)
  {
    Regroup(lead, field, rest);
    LacksConcat(lead, field, ',');
    SplitAt(lead + field, ',', " " + rest);
    ReadField(num, lead + field, Split(" " + rest, ','));
  }

  lemma ReadField(num: NumberReader, part: string, parts: seq<string>)
    requires num(Strip(part)).Some? && ReadAll(num, parts).Some?
    ensures ReadAll(num, [part] + parts) == Some([num(Strip(part)).value] + ReadAll(num, parts).value)
  {
    assert ([part] + parts)[1..] == parts;
  }

  lemma LastFieldIsRead(num: NumberReader, field: string)
    requires Lacks(field, ',') && num(Strip(" " + field)).Some?
    ensures ReadAll(num, Split(" " + field, ',')) == Some([num(Strip(" " + field)).value])
  {
    LacksConcat(" ", field, ',');
    SplitNone(" " + field, ',');
    OneFieldIsRead(num, " " + field);
  }

  lemma OneFieldIsRead(num: NumberReader, part: string)
    requires num(Strip(part)).Some?
    ensures ReadAll(num, [part]) == Some([num(Strip(part)).value])
  {
    assert [part][1..] == [];
    var x := num(Strip(part)).value;
    assert [x] + [] == [x];
  }

  lemma TenthsAreRead(num: NumberReader, d: Decimal)
    requires ReadsPrinted(num)
    ensures Lacks(PrintTenths(d), ',')
    ensures num(Strip("" + PrintTenths(d))) == num(Strip(" " + PrintTenths(d))) == Some(Tenths(d))
  {
    var s := PrintTenths(d);
    assert num(s) == Some(Tenths(d));
    PrintedArePlain(d);
    PlainLacks(s, ',');
    StripPlain(s);
    NothingInFront(s);
  }

  lemma NothingInFront(s: string)
    ensures "" + s == s
  {
  }

  lemma FourTogether(w: real, x: real, y: real, z: real)
    ensures [w] + ([x] + ([y] + [z])) == [w, x, y, z]
  {
  }

  lemma BoxIsRead(num: NumberReader, d: Detection)
    requires ReadsPrinted(num)
    ensures ReadAll(num, Split(PrintBox(d), ',')) == Some([Tenths(d.x0), Tenths(d.y0), Tenths(d.x1), Tenths(d.y1)])
  {
    var b, c, e := PrintTenths(d.y0), PrintTenths(d.x1), PrintTenths(d.y1);
    TenthsAreRead(num, d.x0);
    TenthsAreRead(num, d.y0);
    TenthsAreRead(num, d.x1);
    TenthsAreRead(num, d.y1);
    LastFieldIsRead(num, e);
    FieldIsRead(num, " ", c, e, [Tenths(d.y1)]);
    FieldIsRead(num, " ", b, c + ", " + e, [Tenths(d.x1)] + [Tenths(d.y1)]);
    FieldIsRead(num, "", PrintTenths(d.x0), b + ", " + (c + ", " + e), [Tenths(d.y0)] + ([Tenths(d.x1)] + [Tenths(d.y1)]));
    NothingInFront(PrintBox(d));
    FourTogether(Tenths(d.x0), Tenths(d.y0), Tenths(d.x1), Tenths(d.y1));
  }

  function ExpectedParse(d: Detection): Parsed {
    Parsed(NormalizeLabel(d.name), [Tenths(d.x0), Tenths(d.y0), Tenths(d.x1), Tenths(d.y1)], Hundredths(d.score))
  }

  function ExpectedSighting(d: Detection): Sighting {
    Sighting(NormalizeLabel(d.name), Hundredths(d.score))
  }

  lemma BracketsAreSolid(box: string, score: string)
    ensures var t := Brackets(box, score); t != "" && !IsSpace(t[0]) && !IsSpace(t[|t| - 1])
  {
    var t := Brackets(box, score);
    assert t[0] == '[' && t[|t| - 1] == ')';
  }

  lemma LabelLacks(lead: string, name: string, c: char)
    requires Lacks(lead + name, c) && !IsSpace(c)
    ensures Lacks(LStrip(lead + name + " "), c)
  {
    LacksConcat(lead + name, " ", c);
    LStripKeeps(lead + name + " ", c);
  }

  lemma StrippedIsCut(lead: string, name: string, box: string, score: string)
    requires Lacks(lead + name, '[') && Lacks(score, '(')
    ensures var s := Strip(lead + (name + " " + Brackets(box, score)));
      var front := LStrip(lead + name + " ");
      && (Lacks(lead + name, ']') && Lacks(box, ']') ==> CutEntry(s) == Some(Pieces(front, box, score)))
      && CutSighting(s) == Some(Pieces(front, "", score))
  {
    BracketsAreSolid(box, score);
    StrippedEntry(lead, name, Brackets(box, score));
    LabelLacks(lead, name, '[');
    SightingIsCut(LStrip(lead + name + " "), box, score);
    if Lacks(lead + name, ']') && Lacks(box, ']') {
      LabelLacks(lead, name, ']');
      EntryIsCut(LStrip(lead + name + " "), box, score);
    }
  }

  lemma PrintedEntryIsCut(lead: string, d: Detection)
    requires (lead == "" || lead == " ") && Lacks(d.name, '[') && Lacks(d.name, ']')
    ensures CutEntry(Strip(lead + PrintEntry(d)))
         == Some(Pieces(LStrip(lead + d.name + " "), PrintBox(d), PrintHundredths(d.score)))
  {
    BoxLacks(d, ']');
    PrintedArePlain(d.score);
    PlainLacks(PrintHundredths(d.score), '(');
    LacksConcat(lead, d.name, '[');
    LacksConcat(lead, d.name, ']');
    StrippedIsCut(lead, d.name, PrintBox(d), PrintHundredths(d.score));
  }

  lemma PiecesAreRead(num: NumberReader, p: Pieces, bbox: seq<real>, confidence: real)
    requires ReadAll(num, Split(p.box, ',')) == Some(bbox) && |bbox| == 4 && num(p.score) == Some(confidence)
    ensures Assemble(num, p) == Some(Parsed(NormalizeLabel(p.name), bbox, confidence))
  {
  }

  lemma PrintedPiecesAreRead(num: NumberReader, name: string, d: Detection)
    requires ReadsPrinted(num) && NormalizeLabel(name) == NormalizeLabel(d.name)
    ensures Assemble(num, Pieces(name, PrintBox(d), PrintHundredths(d.score))) == Some(ExpectedParse(d))
  {
    BoxIsRead(num, d);
    PiecesAreRead(num, Pieces(name, PrintBox(d), PrintHundredths(d.score)),
                  [Tenths(d.x0), Tenths(d.y0), Tenths(d.x1), Tenths(d.y1)], Hundredths(d.score));
  }

  lemma EntryIsParsed(num: NumberReader, lead: string, d: Detection)
    requires ReadsPrinted(num) && (lead == "" || lead == " ") && Lacks(d.name, '[') && Lacks(d.name, ']')
    ensures ParseDetection(num, lead + PrintEntry(d)) == Some(ExpectedParse(d))
  {
    PrintedEntryIsCut(lead, d);
    StrippedLabel(lead, d.name);
    PrintedPiecesAreRead(num, LStrip(lead + d.name + " "), d);
  }

  lemma EntryIsSighted(num: NumberReader, lead: string, d: Detection)
    requires ReadsPrinted(num) && (lead == "" || lead == " ") && Lacks(d.name, '[')
    ensures ParseSighting(num, lead + PrintEntry(d)) == Some(ExpectedSighting(d))
  {
    PrintedArePlain(d.score);
    PlainLacks(PrintHundredths(d.score), '(');
    LacksConcat(lead, d.name, '[');
    StrippedIsCut(lead, d.name, PrintBox(d), PrintHundredths(d.score));
    StrippedLabel(lead, d.name);
  }

  // ---------- a printed message ----------

  lemma {:induction false} CollectConcat<T>(read: string -> Option<T>, a: seq<string>, b: seq<string>)
    ensures Collect(read, a + b) == Collect(read, a) + Collect(read, b)
    decreases |b|
  {
    if b == [] {
      assert a + b == a;
    } else {
      var last := |b| - 1;
      assert (a + b)[..|a| + last] == a + b[..last];
      CollectConcat(read, a, b[..last]);
    }
  }

  lemma CollectOne<T>(read: string -> Option<T>, part: string)
    ensures Collect(read, [part]) == if read(part).Some? then [read(part).value] else []
  {
    assert [part][..0] == [];
  }

  ghost predicate NoSemicolons(ds: seq<Detection>) {
    forall i :: 0 <= i < |ds| ==> Lacks(ds[i].name, ';')
  }

  /** The parts of a printed message: every entry but the first has a blank in front. */
  function Parts(lead: string, ds: seq<Detection>): (parts: seq<string>)
    ensures |parts| == |ds|
    decreases |ds|
  {
    if ds == [] then [] else [lead + PrintEntry(ds[0])] + Parts(" ", ds[1..])
  }

  lemma EntryLacksSemicolon(d: Detection)
    requires Lacks(d.name, ';')
    ensures Lacks(PrintEntry(d), ';')
  {
    var box, score := PrintBox(d), PrintHundredths(d.score);
    BoxLacks(d, ';');
    PrintedArePlain(d.score);
    PlainLacks(score, ';');
    LacksConcat("[", box, ';');
    LacksConcat("[" + box, "] (", ';');
    LacksConcat("[" + box + "] (", score, ';');
    LacksConcat("[" + box + "] (" + score, ")", ';');
    LacksConcat(d.name, " ", ';');
    LacksConcat(d.name + " ", Brackets(box, score), ';');
  }

  lemma JoinSplit(lead: string, entry: string, rest: string)
    requires Lacks(lead, ';') && Lacks(entry, ';')
    ensures Split(lead + (entry + "; " + rest), ';') == [lead + entry] + Split(" " + rest, ';')
  {
    assert lead + (entry + "; " + rest) == (lead + entry) + [';'] + (" " + rest);
    LacksConcat(lead, entry, ';');
    SplitAt(lead + entry, ';', " " + rest);
  }

  /** Splitting a printed message gives its entries back. */
  lemma {:induction false} MessageSplits(lead: string, ds: seq<Detection>)
    requires ds != [] && NoSemicolons(ds) && Lacks(lead, ';')
    ensures Split(lead + PrintEntries(ds), ';') == Parts(lead, ds)
    decreases |ds|
  {
    EntryLacksSemicolon(ds[0]);
    if |ds| == 1 {
      SplitNone(lead + PrintEntry(ds[0]), ';');
      assert Parts(" ", ds[1..]) == [];
    } else {
      JoinSplit(lead, PrintEntry(ds[0]), PrintEntries(ds[1..]));
      MessageSplits(" ", ds[1..]);
    }
  }

  function ExpectedParses(ds: seq<Detection>): (r: seq<Parsed>)
    ensures |r| == |ds| && forall i :: 0 <= i < |ds| ==> r[i] == ExpectedParse(ds[i])
  {
    if ds == [] then [] else [ExpectedParse(ds[0])] + ExpectedParses(ds[1..])
  }

  function ExpectedSightings(ds: seq<Detection>): (r: seq<Sighting>)
    ensures |r| == |ds| && forall i :: 0 <= i < |ds| ==> r[i] == ExpectedSighting(ds[i])
  {
    if ds == [] then [] else [ExpectedSighting(ds[0])] + ExpectedSightings(ds[1..])
  }

  ghost predicate Parsable(ds: seq<Detection>) {
    forall i :: 0 <= i < |ds| ==> Lacks(ds[i].name, '[') && Lacks(ds[i].name, ']')
  }

  lemma ParsableTail(ds: seq<Detection>)
    requires ds != [] && Parsable(ds)
    ensures Parsable(ds[1..]) && Lacks(ds[0].name, '[') && Lacks(ds[0].name, ']')
  {
  }

  lemma {:induction false} PartsAreParsed(num: NumberReader, lead: string, ds: seq<Detection>)
    requires ReadsPrinted(num) && (lead == "" || lead == " ")
    requires Parsable(ds)
    ensures Collect(text => ParseDetection(num, text), Parts(lead, ds)) == ExpectedParses(ds)
    decreases |ds|
  {
    if ds == [] {
    } else {
      var read := text => ParseDetection(num, text);
      ParsableTail(ds);
      EntryIsParsed(num, lead, ds[0]);
      CollectOne(read, lead + PrintEntry(ds[0]));
      CollectConcat(read, [lead + PrintEntry(ds[0])], Parts(" ", ds[1..]));
      PartsAreParsed(num, " ", ds[1..]);
    }
  }

  lemma {:induction false} PartsAreSighted(num: NumberReader, lead: string, ds: seq<Detection>)
    requires ReadsPrinted(num) && (lead == "" || lead == " ") && forall i :: 0 <= i < |ds| ==> Lacks(ds[i].name, '[')
    ensures Collect(text => ParseSighting(num, text), Parts(lead, ds)) == ExpectedSightings(ds)
    decreases |ds|
  {
    if ds == [] {
    } else {
      var read := text => ParseSighting(num, text);
      EntryIsSighted(num, lead, ds[0]);
      CollectOne(read, lead + PrintEntry(ds[0]));
      CollectConcat(read, [lead + PrintEntry(ds[0])], Parts(" ", ds[1..]));
      PartsAreSighted(num, " ", ds[1..]);
    }
  }

  lemma NothingIsSplit()
    ensures Split(NOTHING, ';') == [NOTHING] && Strip(NOTHING) == NOTHING
  {
    assert NOTHING[0] == 'n' && NOTHING[|NOTHING| - 1] == 's';
    assert Lacks(NOTHING, ';');
    SplitNone(NOTHING, ';');
    LStripNothing(NOTHING);
    RStripNothing(NOTHING);
  }

  // ---------- which labels survive ----------

  lemma SuffixKeeps(s: string, k: nat, c: char)
    requires k <= |s| && Lacks(s[..k], c)
    ensures Lacks(s, c) <==> Lacks(s[k..], c)
  {
    assert s == s[..k] + s[k..];
    LacksConcat(s[..k], s[k..], c);
  }

  lemma DropArticleKeeps(s: string, c: char)
    requires IsSeparator(c)
    ensures Lacks(s, c) <==> Lacks(DropArticle(s), c)
  {
    if StartsWithWord(s, "a") {
      SuffixKeeps(s, 1, c);
      LStripKeeps(s[1..], c);
    } else if StartsWithWord(s, "an") {
      SuffixKeeps(s, 2, c);
      LStripKeeps(s[2..], c);
    } else if StartsWithWord(s, "the") {
      SuffixKeeps(s, 3, c);
      LStripKeeps(s[3..], c);
    }
  }

  lemma {:induction false} CollapseKeeps(s: string, c: char)
    requires IsSeparator(c)
    ensures Lacks(s, c) <==> Lacks(Collapse(s), c)
    decreases |s|
  {
    if s == "" {
    } else {
      assert s == [s[0]] + s[1..];
      LacksConcat([s[0]], s[1..], c);
      if IsSpace(s[0]) {
        LStripKeeps(s[1..], c);
        CollapseKeeps(LStrip(s[1..]), c);
        LacksConcat(" ", Collapse(LStrip(s[1..])), c);
      } else {
        CollapseKeeps(s[1..], c);
        LacksConcat([s[0]], Collapse(s[1..]), c);
      }
    }
  }

  lemma PlainerKeeps(s: string, c: char)
    requires IsSeparator(c)
    ensures Lacks(s, c) <==> Lacks(Plainer(s), c)
  {
    assert forall i :: 0 <= i < |s| ==> (Plainer(s)[i] == c <==> s[i] == c);
  }

  /** Normalising a label neither adds nor removes a separator. */
  lemma NormalizeKeepsSeparators(s: string, c: char)
    requires IsSeparator(c)
    ensures Lacks(s, c) <==> Lacks(NormalizeLabel(s), c)
  {
    StripKeeps(s, c);
    PlainerKeeps(Strip(s), c);
    DropArticleKeeps(Plainer(Strip(s)), c);
    CollapseKeeps(DropArticle(Plainer(Strip(s))), c);
  }

  lemma EmptyBoxIsRejected(num: NumberReader, p: Pieces)
    requires num("") == None && p.box == ""
    ensures Assemble(num, p) == None
  {
    SplitNone("", ',');
    assert Strip("") == "";
    assert ReadAll(num, [""]) == None;
  }

  /** A label the controller reads has no separator, whatever the message. */
  lemma ParsedPartIsClean(num: NumberReader, part: string)
    requires num("") == None && Lacks(part, ';') && ParseDetection(num, part).Some?
    ensures CleanLabel(ParseDetection(num, part).value.name)
  {
    var s := Strip(part);
    var p := CutEntry(s).value;
    StripKeeps(part, ';');
    if !Lacks(p.name, ']') {
      CloseBracketInName(s);
      EmptyBoxIsRejected(num, p);
    }
    CutNameLacks(s);
    NormalizeKeepsSeparators(p.name, ';');
    NormalizeKeepsSeparators(p.name, '[');
    NormalizeKeepsSeparators(p.name, ']');
  }

  lemma CloseBracketInName(s: string)
    requires CutEntry(s).Some? && !Lacks(CutEntry(s).value.name, ']')
    ensures CutEntry(s).value.box == ""
  {
    var name := CutEntry(s).value.name;
    var k :| 0 <= k < |name| && name[k] == ']';
    assert s[k] == ']';
    assert Next(s, ']', 0) <= k;
  }

  lemma CutNameLacks(s: string)
    requires CutEntry(s).Some?
    ensures Lacks(CutEntry(s).value.name, '[')
    ensures Lacks(s, ';') ==> Lacks(CutEntry(s).value.name, ';')
  {
  }

  lemma SightingNameLacks(s: string)
    requires CutSighting(s).Some?
    ensures Lacks(CutSighting(s).value.name, '[')
    ensures Lacks(s, ';') ==> Lacks(CutSighting(s).value.name, ';')
  {
  }

  lemma SightedPartIsClean(num: NumberReader, part: string)
    requires Lacks(part, ';') && ParseSighting(num, part).Some?
    ensures Lacks(ParseSighting(num, part).value.name, ';') && Lacks(ParseSighting(num, part).value.name, '[')
  {
    StripKeeps(part, ';');
    SightingNameLacks(Strip(part));
    var p := CutSighting(Strip(part)).value;
    NormalizeKeepsSeparators(p.name, ';');
    NormalizeKeepsSeparators(p.name, '[');
  }

  lemma ControllerLabelsAreClean(num: NumberReader, message: string)
    requires num("") == None
    ensures forall i :: 0 <= i < |ControllerReads(num, message)| ==> CleanLabel(ControllerReads(num, message)[i].name)
  {
    var read := text => ParseDetection(num, text);
    var parts := Split(message, ';');
    SplitPartsLack(message, ';');
    forall k | 0 <= k < |parts| ensures read(parts[k]).None? || CleanLabel(read(parts[k]).value.name) {
      if read(parts[k]).Some? { ParsedPartIsClean(num, parts[k]); }
    }
    CollectedHave(read, parts, (p: Parsed) => CleanLabel(p.name));
  }

  lemma SceneLabelsAreClean(num: NumberReader, message: string)
    ensures forall i :: 0 <= i < |SceneReads(num, message)| ==>
      Lacks(SceneReads(num, message)[i].name, ';') && Lacks(SceneReads(num, message)[i].name, '[')
  {
    var read := text => ParseSighting(num, text);
    var parts := Split(message, ';');
    SplitPartsLack(message, ';');
    forall k | 0 <= k < |parts|
      ensures read(parts[k]).None? || (Lacks(read(parts[k]).value.name, ';') && Lacks(read(parts[k]).value.name, '['))
    {
      if read(parts[k]).Some? { SightedPartIsClean(num, parts[k]); }
    }
    CollectedHave(read, parts, (p: Sighting) => Lacks(p.name, ';') && Lacks(p.name, '['));
  }

  ghost predicate AllClean(ds: seq<Detection>) {
    forall i :: 0 <= i < |ds| ==> CleanLabel(ds[i].name)
  }

  lemma CleanMessageIsParsed(num: NumberReader, ds: seq<Detection>)
    requires ReadsPrinted(num) && AllClean(ds)
    ensures ControllerReads(num, PrintMessage(ds)) == ExpectedParses(ds)
  {
    if ds == [] {
      NothingIsSplit();
      CollectOne(text => ParseDetection(num, text), NOTHING);
    } else {
      MessageSplits("", ds);
      NothingInFront(PrintEntries(ds));
      PartsAreParsed(num, "", ds);
    }
  }

  lemma ExpectedCleanMeansClean(ds: seq<Detection>)
    requires forall i :: 0 <= i < |ds| ==> CleanLabel(ExpectedParses(ds)[i].name)
    ensures AllClean(ds)
  {
    forall i | 0 <= i < |ds| ensures CleanLabel(ds[i].name) {
      assert ExpectedParses(ds)[i] == ExpectedParse(ds[i]);
      NormalizeKeepsSeparators(ds[i].name, ';');
      NormalizeKeepsSeparators(ds[i].name, '[');
      NormalizeKeepsSeparators(ds[i].name, ']');
    }
  }

  /** The controller reads a printed list of detections back, in order and with normalised labels,
      exactly when no label contains a separator. */
  lemma ControllerRoundTripIff(num: NumberReader, ds: seq<Detection>)
    requires ReadsPrinted(num)
    ensures ControllerReads(num, PrintMessage(ds)) == ExpectedParses(ds) <==> AllClean(ds)
  {
    if AllClean(ds) {
      CleanMessageIsParsed(num, ds);
    }
    ControllerLabelsAreClean(num, PrintMessage(ds));
    if ControllerReads(num, PrintMessage(ds)) == ExpectedParses(ds) {
      ExpectedCleanMeansClean(ds);
    }
  }

  ghost predicate AllSightable(ds: seq<Detection>) {
    forall i :: 0 <= i < |ds| ==> Lacks(ds[i].name, ';') && Lacks(ds[i].name, '[')
  }

  lemma CleanMessageIsSighted(num: NumberReader, ds: seq<Detection>)
    requires ReadsPrinted(num) && AllSightable(ds)
    ensures SceneReads(num, PrintMessage(ds)) == ExpectedSightings(ds)
  {
    if ds == [] {
      NothingIsSplit();
      CollectOne(text => ParseSighting(num, text), NOTHING);
    } else {
      MessageSplits("", ds);
      NothingInFront(PrintEntries(ds));
      PartsAreSighted(num, "", ds);
    }
  }

  lemma ExpectedSightableMeansSightable(ds: seq<Detection>)
    requires forall i :: 0 <= i < |ds| ==> Lacks(ExpectedSightings(ds)[i].name, ';') && Lacks(ExpectedSightings(ds)[i].name, '[')
    ensures AllSightable(ds)
  {
    forall i | 0 <= i < |ds| ensures Lacks(ds[i].name, ';') && Lacks(ds[i].name, '[') {
      assert ExpectedSightings(ds)[i] == ExpectedSighting(ds[i]);
      NormalizeKeepsSeparators(ds[i].name, ';');
      NormalizeKeepsSeparators(ds[i].name, '[');
    }
  }

  /** The scene manager's parser does the same, and tolerates a closing bracket in a label. */
  lemma SceneRoundTripIff(num: NumberReader, ds: seq<Detection>)
    requires ReadsPrinted(num)
    ensures SceneReads(num, PrintMessage(ds)) == ExpectedSightings(ds) <==> AllSightable(ds)
  {
    if AllSightable(ds) {
      CleanMessageIsSighted(num, ds);
    }
    SceneLabelsAreClean(num, PrintMessage(ds));
    if SceneReads(num, PrintMessage(ds)) == ExpectedSightings(ds) {
      ExpectedSightableMeansSightable(ds);
    }
  }

  // ---------- a reader of plain decimals ----------

  predicate AllDigits(s: string) {
    forall i :: 0 <= i < |s| ==> '0' <= s[i] <= '9'
  }

  function Value(s: string): nat
    requires AllDigits(s)
  {
    if s == "" then 0 else 10 * Value(s[..|s| - 1]) + (s[|s| - 1] - '0') as nat
  }

  function Pow10(k: nat): (r: nat)
    ensures r > 0
  {
    if k == 0 then 1 else 10 * Pow10(k - 1)
  }

  /** Digits with at most one point among them. */
  function ReadUnsigned(s: string): Option<real> {
    var dot := Find(s, '.');
    var whole, part := if dot == -1 then s else s[..dot], if dot == -1 then "" else s[dot + 1..];
    if whole + part == "" || !AllDigits(whole + part) then None
    else Some(Ratio(Value(whole + part), Pow10(|part|)))
  }

  /** A text without its sign, if it has one. */
  function Unsigned(s: string): string {
    if s != "" && (s[0] == '-' || s[0] == '+') then s[1..] else s
  }

  function WithSign(negative: bool, x: Option<real>): Option<real> {
    if x.None? then None else Some(Signed(negative, x.value))
  }

  function DecimalReader(text: string): Option<real> {
    var s := Strip(text);
    WithSign(s != "" && s[0] == '-', ReadUnsigned(Unsigned(s)))
  }

  lemma ValueSnoc(s: string, d: nat)
    requires AllDigits(s) && d < 10
    ensures AllDigits(s + [Digit(d)]) && Value(s + [Digit(d)]) == 10 * Value(s) + d
  {
    assert (s + [Digit(d)])[..|s|] == s;
  }

  lemma {:induction false} ValueOfDigits(n: nat)
    ensures AllDigits(Digits(n)) && Value(Digits(n)) == n
  {
    if n < 10 {
      ValueSnoc("", n);
      assert "" + [Digit(n)] == [Digit(n)];
    } else {
      ValueOfDigits(n / 10);
      ValueSnoc(Digits(n / 10), n % 10);
    }
  }

  lemma PointIsFound(whole: string, part: string)
    requires AllDigits(whole) && AllDigits(part) && whole != ""
    ensures ReadUnsigned(whole + "." + part) == Some(Ratio(Value(whole + part), Pow10(|part|)))
  {
    FindAt(whole, '.', part);
    var s := whole + "." + part;
    assert s[..|whole|] == whole && s[|whole| + 1..] == part;
  }

  lemma SignedTextIsPlain(negative: bool, s: string)
    requires s != "" && IsPlain(s)
    ensures Sign(negative) + s != "" && IsPlain(Sign(negative) + s)
  {
  }

  lemma SignIsTaken(negative: bool, s: string)
    requires s != "" && '0' <= s[0] <= '9'
    ensures var t := Sign(negative) + s; t != "" && (t[0] == '-' <==> negative) && Unsigned(t) == s
  {
    if negative {
      assert ("-" + s)[1..] == s;
    } else {
      NothingInFront(s);
      assert Sign(negative) + s == s && s[0] != '-' && s[0] != '+';
    }
  }

  lemma SignIsRead(negative: bool, s: string)
    requires s != "" && IsPlain(s) && '0' <= s[0] <= '9'
    ensures DecimalReader(Sign(negative) + s) == WithSign(negative, ReadUnsigned(s))
  {
    SignedTextIsPlain(negative, s);
    StripPlain(Sign(negative) + s);
    SignIsTaken(negative, s);
  }

  lemma DigitsStart(n: nat)
    ensures '0' <= Digits(n)[0] <= '9'
  {
    ValueOfDigits(n);
  }

  lemma UnsignedTenths(u: nat)
    ensures ReadUnsigned(OneDecimal(u)) == Some(Ratio(u, 10))
  {
    ValueOfDigits(u / 10);
    ValueSnoc(Digits(u / 10), u % 10);
    TenthsSplit(u);
    PointIsFound(Digits(u / 10), [Digit(u % 10)]);
    PowersOfTen();
  }

  lemma TenthsSplit(u: nat)
    ensures 10 * (u / 10) + u % 10 == u
  {
  }

  lemma PowersOfTen()
    ensures Pow10(1) == 10 && Pow10(2) == 100
  {
    assert Pow10(1) == 10;
  }

  lemma ValueOfTwoMore(s: string, a: nat, b: nat)
    requires AllDigits(s) && a < 10 && b < 10
    ensures AllDigits(s + [Digit(a), Digit(b)]) && Value(s + [Digit(a), Digit(b)]) == 10 * (10 * Value(s) + a) + b
  {
    ValueSnoc(s, a);
    ValueSnoc(s + [Digit(a)], b);
    assert s + [Digit(a), Digit(b)] == s + [Digit(a)] + [Digit(b)];
  }

  lemma UnsignedHundredths(u: nat)
    ensures ReadUnsigned(TwoDecimals(u)) == Some(Ratio(u, 100))
  {
    ValueOfDigits(u / 100);
    ValueOfTwoMore(Digits(u / 100), u / 10 % 10, u % 10);
    HundredsSplit(u);
    PointIsFound(Digits(u / 100), [Digit(u / 10 % 10), Digit(u % 10)]);
    PowersOfTen();
  }

  /** A number text that starts with a digit. */
  lemma NumberText(n: nat, part: string)
    requires IsPlain(part)
    ensures var s := Digits(n) + "." + part; s != "" && IsPlain(s) && '0' <= s[0] <= '9'
  {
    DigitsStart(n);
    DigitsArePlain(n);
  }

  /** Reading a signed text that starts with a digit. */
  lemma SignedNumber(negative: bool, s: string, x: real)
    requires s != "" && IsPlain(s) && '0' <= s[0] <= '9' && ReadUnsigned(s) == Some(x)
    ensures DecimalReader(Sign(negative) + s) == Some(Signed(negative, x))
  {
    SignIsRead(negative, s);
  }

  lemma TenthsAreReadBack(d: Decimal)
    ensures DecimalReader(PrintTenths(d)) == Some(Tenths(d))
  {
    UnsignedTenths(d.units);
    NumberText(d.units / 10, [Digit(d.units % 10)]);
    SignedNumber(d.negative, OneDecimal(d.units), Ratio(d.units, 10));
  }

  lemma HundredthsAreReadBack(d: Decimal)
    ensures DecimalReader(PrintHundredths(d)) == Some(Hundredths(d))
  {
    UnsignedHundredths(d.units);
    NumberText(d.units / 100, [Digit(d.units / 10 % 10), Digit(d.units % 10)]);
    SignedNumber(d.negative, TwoDecimals(d.units), Ratio(d.units, 100));
  }

  lemma HundredsSplit(u: nat)
    ensures 10 * (10 * (u / 100) + u / 10 % 10) + u % 10 == u
  {
    assert u / 10 / 10 == u / 100;
  }

  lemma EmptyIsNoNumber()
    ensures DecimalReader("") == None
  {
    assert Strip("") == "";
  }

  /** Plain decimal reading meets the assumption on `float`. */
  lemma DecimalReaderReadsPrinted()
    ensures ReadsPrinted(DecimalReader)
  {
    EmptyIsNoNumber();
    forall d ensures DecimalReader(PrintTenths(d)) == Some(Tenths(d)) { TenthsAreReadBack(d); }
    forall d ensures DecimalReader(PrintHundredths(d)) == Some(Hundredths(d)) { HundredthsAreReadBack(d); }
  }

  // ---------- where the labels come from ----------

  predicate IsBracket(c: char) {
    c == '[' || c == ']' || c == '(' || c == ')'
  }

  function StripBrackets(s: string): (r: string)
    decreases |s|
  {
    if s != "" && IsBracket(s[0]) then StripBrackets(s[1..])
    else if s != "" && IsBracket(s[|s| - 1]) then StripBrackets(s[..|s| - 1])
    else s
  }

  ghost predicate AllBrackets(s: string) {
    forall i :: 0 <= i < |s| ==> s[i] in "[]()"
  }

  /** What is left is the text between brackets at its ends, and has none at its own. */
  lemma {:induction false} BracketsAreStripped(s: string) returns (front: string, back: string)
    ensures s == front + StripBrackets(s) + back && AllBrackets(front) && AllBrackets(back)
    ensures var r := StripBrackets(s); r != "" ==> r[0] !in "[]()" && r[|r| - 1] !in "[]()"
    decreases |s|
  {
    if s != "" {
      BracketsAre(s[0]);
      BracketsAre(s[|s| - 1]);
    }
    if s != "" && IsBracket(s[0]) {
      front, back := BracketsAreStripped(s[1..]);
      OneMoreInFront(s[0], s[1..], front, StripBrackets(s), back);
      front := [s[0]] + front;
    } else if s != "" && IsBracket(s[|s| - 1]) {
      front, back := BracketsAreStripped(s[..|s| - 1]);
      OneMoreBehind(s[..|s| - 1], s[|s| - 1], front, StripBrackets(s), back);
      back := back + [s[|s| - 1]];
    } else {
      front, back := "", "";
      NothingInFront(s);
      NothingBehind(s);
    }
  }

  lemma BracketsAre(c: char)
    ensures IsBracket(c) <==> c in "[]()"
  {
    assert "[]()"[0] == '[' && "[]()"[1] == ']' && "[]()"[2] == '(' && "[]()"[3] == ')';
  }

  lemma OneMoreInFront(c: char, s: string, front: string, r: string, back: string)
    requires s == front + r + back
    ensures [c] + s == [c] + front + r + back
  {
  }

  lemma OneMoreBehind(s: string, c: char, front: string, r: string, back: string)
    requires s == front + r + back
    ensures s + [c] == front + r + (back + [c])
  {
  }

  function StrippedParts(parts: seq<string>): seq<string> {
    if parts == [] then [] else
      var last := |parts| - 1;
      StrippedParts(parts[..last]) + if Strip(parts[last]) != "" then [Strip(parts[last])] else []
  }

  /** The labels of a query: its non-empty parts, or a person when there is none. */
  function QueryLabels(query: string): seq<string> {
    var labels := StrippedParts(Split(StripBrackets(query), ','));
    if labels == [] then ["a person"] else labels
  }

  lemma {:induction false} StrippedPartsLackIff(parts: seq<string>, c: char)
    requires !IsSpace(c)
    ensures AllLack(StrippedParts(parts), c) <==> AllLack(parts, c)
    decreases |parts|
  {
    if parts == [] {
    } else {
      var front, last := parts[..|parts| - 1], parts[|parts| - 1];
      StrippedPartsLackIff(front, c);
      StripKeeps(last, c);
      AllLackConcat(front, [last], c);
      AllLackOne(last, c);
      AllLackConcat(StrippedParts(front), [Strip(last)], c);
      AllLackOne(Strip(last), c);
      assert parts == front + [last];
      assert Strip(last) == "" ==> StrippedParts(front) + [] == StrippedParts(front);
    }
  }

  lemma {:induction false} SomeText(parts: seq<string>)
    ensures forall i :: 0 <= i < |StrippedParts(parts)| ==> StrippedParts(parts)[i] != ""
    decreases |parts|
  {
    if parts == [] {
    } else {
      SomeText(parts[..|parts| - 1]);
    }
  }

  lemma QueryLabelsLackIff(query: string, c: char)
    requires IsSeparator(c)
    ensures AllLack(QueryLabels(query), c) <==> Lacks(StripBrackets(query), c)
  {
    SplitLacksIff(StripBrackets(query), ',', c);
    StrippedPartsLackIff(Split(StripBrackets(query), ','), c);
    LabelsLackIff(StrippedParts(Split(StripBrackets(query), ',')), c);
  }

  lemma LabelsLackIff(labels: seq<string>, c: char)
    requires IsSeparator(c)
    ensures AllLack(if labels == [] then ["a person"] else labels, c) <==> AllLack(labels, c)
  {
    AllLackOne("a person", c);
  }

  /** The labels of a query are never empty, and one of them has a separator exactly if the query has
      one between its outer brackets. */
  lemma QueryLabelsAreCleanIff(query: string)
    ensures forall i :: 0 <= i < |QueryLabels(query)| ==> QueryLabels(query)[i] != ""
    ensures (forall i :: 0 <= i < |QueryLabels(query)| ==> CleanLabel(QueryLabels(query)[i])) <==>
      CleanLabel(StripBrackets(query))
  {
    var labels := QueryLabels(query);
    SomeText(Split(StripBrackets(query), ','));
    QueryLabelsLackIff(query, ';');
    QueryLabelsLackIff(query, '[');
    QueryLabelsLackIff(query, ']');
    assert (forall i :: 0 <= i < |labels| ==> CleanLabel(labels[i])) <==>
      AllLack(labels, ';') && AllLack(labels, '[') && AllLack(labels, ']');
  }
}

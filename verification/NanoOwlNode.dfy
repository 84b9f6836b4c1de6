/**
  The NanoOWL node: the labels it keeps for the current query, and the text message it publishes
  about the boxes found for them.
*/
module NanoOwlNode {
  import opened DetectionText
  import Labels
  import opened Text
  import opened Wrappers

  /** A box the predictor returned, its numbers rounded as they are printed. */
  datatype OwlBox = OwlBox(labelIndex: int, x0: Decimal, y0: Decimal, x1: Decimal, y1: Decimal, score: Decimal)

  function IntText(n: int): string {
    if n < 0 then "-" + Digits(-n) else Digits(n)
  }

  /** The text of a label, or the number itself when the query has no such label. */
  function ClassName(labels: seq<string>, index: int): string {
    if 0 <= index < |labels| then labels[index] else IntText(index)
  }

  function Named(labels: seq<string>, boxes: seq<OwlBox>): (ds: seq<Detection>)
    ensures |ds| == |boxes|
  {
    seq(|boxes|, i requires 0 <= i < |boxes| => NamedBox(labels, boxes[i]))
  }

  function NamedBox(labels: seq<string>, b: OwlBox): Detection {
    Detection(ClassName(labels, b.labelIndex), b.x0, b.y0, b.x1, b.y1, b.score)
  }

  /** `'; '.join(entries)`. */
  function Join(entries: seq<string>): string
    requires entries != []
  {
    if |entries| == 1 then entries[0] else entries[0] + "; " + Join(entries[1..])
  }

  function Entries(ds: seq<Detection>): (r: seq<string>)
    ensures |r| == |ds| && forall i :: 0 <= i < |r| ==> r[i] == PrintEntry(ds[i])
  {
    seq(|ds|, i requires 0 <= i < |ds| => PrintEntry(ds[i]))
  }

  lemma {:induction false} JoinPrintsEntries(ds: seq<Detection>)
    requires ds != []
    ensures Join(Entries(ds)) == PrintEntries(ds)
    decreases |ds|
  {
    if |ds| <= 1 {
    } else {
      JoinPrintsEntries(ds[1..]);
      assert Entries(ds)[1..] == Entries(ds[1..]);
    }
  }

  class Node {
    var query: string
    var queryText: seq<string>

    /** The cached labels are those of the current query. */
    predicate Valid()
      reads this
    {
      queryText == QueryLabels(query)
    }

    constructor (query: string)
      ensures Valid() && this.query == query
    {
      this.query := query;
      queryText := [];
      new;
      UpdateQueryCache(query);
    }

    method UpdateQueryCache(query: string)
      modifies this
      ensures Valid() && this.query == query
    {
      this.query := query;
      var parts := Split(StripBrackets(query), ',');
      queryText := [];
      for i := 0 to |parts|
        invariant this.query == query && queryText == StrippedParts(parts[..i])
      {
        assert parts[..i + 1][..i] == parts[..i];
        var part := Strip(parts[i]);
        if part != "" {
          queryText := queryText + [part];
        }
      }
      assert parts[..|parts|] == parts;
      if queryText == [] {
        queryText := ["a person"];
      }
    }

    /** A message about a query, which need not be a new one. */
    method QueryListenerCallback(data: string)
      requires Valid()
      modifies this
      ensures Valid() && query == data
    {
      if data != query {
        UpdateQueryCache(data);
      }
    }

    /** The text message about the boxes found. */
    method LegacyMessage(boxes: seq<OwlBox>) returns (message: string)
      ensures message == PrintMessage(Named(queryText, boxes))
    {
      var entries: seq<string> := [];
      ghost var ds := Named(queryText, boxes);
      for i := 0 to |boxes|
        invariant entries == Entries(ds)[..i]
      {
        entries := entries + [PrintEntry(NamedBox(queryText, boxes[i]))];
      }
      assert Entries(ds)[..|boxes|] == Entries(ds);
      if entries == [] {
        message := NOTHING;
      } else {
        message := Join(entries);
        JoinPrintsEntries(ds);
      }
    }
  }

  lemma IntTextIsClean(n: int)
    ensures CleanLabel(IntText(n))
  {
    DigitsArePlain(if n < 0 then -n else n);
    PlainLacks(IntText(n), ';');
    PlainLacks(IntText(n), '[');
    PlainLacks(IntText(n), ']');
  }

  lemma NamedAreClean(labels: seq<string>, boxes: seq<OwlBox>)
    requires forall i :: 0 <= i < |labels| ==> CleanLabel(labels[i])
    ensures AllClean(Named(labels, boxes)) && AllSightable(Named(labels, boxes))
  {
    forall i | 0 <= i < |boxes| ensures CleanLabel(ClassName(labels, boxes[i].labelIndex)) {
      IntTextIsClean(boxes[i].labelIndex);
    }
  }

  // ---------- the labels of a query ----------

  /** A query lists its labels, separated by commas. */
  function Listed(labels: seq<string>): string
    requires labels != []
  {
    if |labels| == 1 then labels[0] else labels[0] + ", " + Listed(labels[1..])
  }

  /** A label that a query can list: no comma, and no white space or bracket at its ends. */
  ghost predicate IsListable(l: string) {
    && l != "" && Lacks(l, ',')
    && !IsSpace(l[0]) && !IsSpace(l[|l| - 1]) && !IsBracket(l[0]) && !IsBracket(l[|l| - 1])
  }

  ghost predicate AreListable(labels: seq<string>) {
    labels != [] && forall i :: 0 <= i < |labels| ==> IsListable(labels[i])
  }

  /** The parts of a listing: every label but the first has a blank in front. */
  function Leads(lead: string, labels: seq<string>): (parts: seq<string>)
    ensures |parts| == |labels|
    decreases |labels|
  {
    if labels == [] then [] else [lead + labels[0]] + Leads(" ", labels[1..])
  }

  lemma CommaSplits(lead: string, part: string, rest: string)
    requires Lacks(lead, ',') && Lacks(part, ',')
    ensures Split(lead + (part + ", " + rest), ',') == [lead + part] + Split(" " + rest, ',')
  {
    Regroup(lead, part, rest);
    LacksConcat(lead, part, ',');
    SplitAt(lead + part, ',', " " + rest);
  }

  lemma {:induction false} ListedSplits(lead: string, labels: seq<string>)
    requires AreListable(labels) && Lacks(lead, ',')
    ensures Split(lead + Listed(labels), ',') == Leads(lead, labels)
    decreases |labels|
  {
    assert IsListable(labels[0]);
    LacksConcat(lead, labels[0], ',');
    if |labels| == 1 {
      SplitNone(lead + labels[0], ',');
      assert Leads(" ", labels[1..]) == [];
    } else {
      CommaSplits(lead, labels[0], Listed(labels[1..]));
      ListedSplits(" ", labels[1..]);
    }
  }

  function StripOne(part: string): Option<string> {
    if Strip(part) != "" then Some(Strip(part)) else None
  }

  lemma {:induction false} StrippedAreCollected(parts: seq<string>)
    ensures StrippedParts(parts) == Collect(StripOne, parts)
    decreases |parts|
  {
    if parts == [] {
    } else {
      StrippedAreCollected(parts[..|parts| - 1]);
    }
  }

  lemma ListableStays(lead: string, l: string)
    requires (lead == "" || lead == " ") && IsListable(l)
    ensures StripOne(lead + l) == Some(l)
  {
    LStripNothing(l);
    RStripNothing(l);
    LStripSpace(' ', l);
    NothingInFront(l);
  }

  /** `read` takes the listed labels from their parts. */
  ghost predicate Takes(read: string -> Option<string>, labels: seq<string>) {
    forall i :: 0 <= i < |labels| ==> read("" + labels[i]) == Some(labels[i]) && read(" " + labels[i]) == Some(labels[i])
  }

  lemma {:induction false} LeadsAreCollected(read: string -> Option<string>, lead: string, labels: seq<string>)
    requires (lead == "" || lead == " ") && Takes(read, labels)
    ensures Collect(read, Leads(lead, labels)) == labels
    decreases |labels|
  {
    if labels == [] {
    } else {
      assert Takes(read, labels[1..]);
      LeadsAreCollected(read, " ", labels[1..]);
      CollectOne(read, lead + labels[0]);
      CollectConcat(read, [lead + labels[0]], Leads(" ", labels[1..]));
    }
  }

  lemma {:induction false} ListedEnds(labels: seq<string>)
    requires AreListable(labels)
    ensures var s := Listed(labels); s != "" && !IsBracket(s[0]) && !IsBracket(s[|s| - 1])
    decreases |labels|
  {
    assert IsListable(labels[0]);
    if |labels| > 1 {
      ListedEnds(labels[1..]);
    }
  }

  lemma Unbracketed(s: string)
    requires s != "" && !IsBracket(s[0]) && !IsBracket(s[|s| - 1])
    ensures StripBrackets("[" + s + "]") == s
  {
    var t := "[" + s + "]";
    assert t[0] == '[' && t[1..] == s + "]";
    assert (s + "]")[|s|] == ']' && (s + "]")[..|s|] == s;
    assert StripBrackets(s + "]") == StripBrackets(s) == s;
  }

  /** The node's labels for a query that lists some are these labels, in order. */
  lemma QueryListsLabels(labels: seq<string>)
    requires AreListable(labels)
    ensures QueryLabels("[" + Listed(labels) + "]") == labels
  {
    ListedEnds(labels);
    Unbracketed(Listed(labels));
    ListedSplits("", labels);
    NothingInFront(Listed(labels));
    StrippedAreCollected(Leads("", labels));
    forall i | 0 <= i < |labels|
      ensures StripOne("" + labels[i]) == Some(labels[i]) && StripOne(" " + labels[i]) == Some(labels[i])
    {
      ListableStays("", labels[i]);
      ListableStays(" ", labels[i]);
    }
    LeadsAreCollected(StripOne, "", labels);
  }

  ghost predicate IsBlankList(s: string) {
    forall i :: 0 <= i < |s| ==> s[i] == ',' || IsSpace(s[i])
  }

  ghost predicate AllBlank(parts: seq<string>) {
    forall i :: 0 <= i < |parts| ==> Labels.AllSpace(parts[i])
  }

  lemma {:induction false} BlankListSplits(s: string)
    requires IsBlankList(s)
    ensures AllBlank(Split(s, ','))
    decreases |s|
  {
    var k := Next(s, ',', 0);
    if k < |s| {
      BlankListSplits(s[k + 1..]);
    }
  }

  lemma BlankIsNoLabel(part: string)
    requires Labels.AllSpace(part)
    ensures StripOne(part) == None
  {
    Labels.SpaceIsStripped(part);
    assert RStrip("") == "";
  }

  lemma {:induction false} NothingIsCollected(read: string -> Option<string>, parts: seq<string>)
    requires forall i :: 0 <= i < |parts| ==> read(parts[i]) == None
    ensures Collect(read, parts) == []
    decreases |parts|
  {
    if parts != [] {
      NothingIsCollected(read, parts[..|parts| - 1]);
    }
  }

  /** A query without a label asks for a person. */
  lemma BlankQueryAsksForPerson(query: string)
    requires IsBlankList(StripBrackets(query))
    ensures QueryLabels(query) == ["a person"]
  {
    var parts := Split(StripBrackets(query), ',');
    BlankListSplits(StripBrackets(query));
    forall i | 0 <= i < |parts| ensures StripOne(parts[i]) == None { BlankIsNoLabel(parts[i]); }
    NothingIsCollected(StripOne, parts);
    StrippedAreCollected(parts);
  }

  // ---------- what the readers make of a message ----------

  lemma WholeIsRead(s: string)
    requires s != "" && AllDigits(s)
    ensures ReadUnsigned(s) == Some(Ratio(Value(s), 1))
  {
    assert Lacks(s, '.');
    NothingBehind(s);
    assert Pow10(0) == 1;
  }

  lemma DigitsAreRead(negative: bool, u: nat)
    ensures DecimalReader(Sign(negative) + Digits(u)) == Some(Signed(negative, u as real))
  {
    DigitsStart(u);
    DigitsArePlain(u);
    ValueOfDigits(u);
    WholeIsRead(Digits(u));
    WholeRatio(u);
    SignedNumber(negative, Digits(u), Ratio(u, 1));
  }

  lemma WholeRatio(u: nat)
    ensures Ratio(u, 1) == u as real
  {
  }

  lemma IntTextIsRead(n: int)
    ensures DecimalReader(IntText(n)) == Some(n as real)
  {
    var u := if n < 0 then -n else n;
    DigitsAreRead(n < 0, u);
    NothingInFront(Digits(u));
  }

  lemma IntTextStays(n: int)
    ensures NormalizeLabel(IntText(n)) == IntText(n)
  {
    var s := IntText(n);
    DigitsArePlain(if n < 0 then -n else n);
    assert IsPlain(s);
    assert Labels.IsNormal(s);
    forall w | Labels.IsArticle(w) ensures !(w + " " <= s) {
      assert (w + " ")[|w|] == ' ';
    }
    Labels.NormalStays(s);
  }

  /** The name is the normalised label the box refers to, or the text of its number when there is no such label. */
  ghost predicate IsNameOf(name: string, labels: seq<string>, b: OwlBox) {
    if 0 <= b.labelIndex < |labels| then name == NormalizeLabel(labels[b.labelIndex])
    else DecimalReader(name) == Some(b.labelIndex as real)
  }

  ghost predicate IsReading(p: Parsed, labels: seq<string>, b: OwlBox) {
    && IsNameOf(p.name, labels, b)
    && p.bbox == [Tenths(b.x0), Tenths(b.y0), Tenths(b.x1), Tenths(b.y1)]
    && p.confidence == Hundredths(b.score)
  }

  lemma ClassNameIsRead(labels: seq<string>, b: OwlBox)
    ensures IsNameOf(NormalizeLabel(ClassName(labels, b.labelIndex)), labels, b)
  {
    IntTextStays(b.labelIndex);
    IntTextIsRead(b.labelIndex);
  }

  /** The controller reads all boxes of the message back, in order. */
  ghost predicate ReadBack(num: NumberReader, labels: seq<string>, boxes: seq<OwlBox>) {
    var read := ControllerReads(num, PrintMessage(Named(labels, boxes)));
    |read| == |boxes| && forall i :: 0 <= i < |boxes| ==> IsReading(read[i], labels, boxes[i])
  }

  /** The scene manager reads all labels and scores of the message back, in order. */
  ghost predicate SeenBack(num: NumberReader, labels: seq<string>, boxes: seq<OwlBox>) {
    var seen := SceneReads(num, PrintMessage(Named(labels, boxes)));
    && |seen| == |boxes|
    && forall i :: 0 <= i < |boxes| ==> IsNameOf(seen[i].name, labels, boxes[i]) && seen[i].confidence == Hundredths(boxes[i].score)
  }

  lemma CleanIsReadBack(num: NumberReader, labels: seq<string>, boxes: seq<OwlBox>)
    requires ReadsPrinted(num) && forall i :: 0 <= i < |labels| ==> CleanLabel(labels[i])
    ensures ReadBack(num, labels, boxes)
  {
    var ds := Named(labels, boxes);
    NamedAreClean(labels, boxes);
    ControllerRoundTripIff(num, ds);
    forall i | 0 <= i < |boxes| ensures IsReading(ExpectedParses(ds)[i], labels, boxes[i]) {
      ClassNameIsRead(labels, boxes[i]);
    }
  }

  lemma CleanIsSeenBack(num: NumberReader, labels: seq<string>, boxes: seq<OwlBox>)
    requires ReadsPrinted(num) && forall i :: 0 <= i < |labels| ==> CleanLabel(labels[i])
    ensures SeenBack(num, labels, boxes)
  {
    var ds := Named(labels, boxes);
    NamedAreClean(labels, boxes);
    SceneRoundTripIff(num, ds);
    forall i | 0 <= i < |boxes|
      ensures IsNameOf(ExpectedSightings(ds)[i].name, labels, boxes[i])
           && ExpectedSightings(ds)[i].confidence == Hundredths(boxes[i].score)
    {
      ClassNameIsRead(labels, boxes[i]);
    }
  }

  lemma OneBoxTells(num: NumberReader, labels: seq<string>, i: nat)
    requires ReadsPrinted(num) && i < |labels|
    ensures var zero := Decimal(false, 0);
      ReadBack(num, labels, [OwlBox(i, zero, zero, zero, zero, zero)]) ==> CleanLabel(labels[i])
  {
    var zero := Decimal(false, 0);
    var boxes := [OwlBox(i, zero, zero, zero, zero, zero)];
    var message := PrintMessage(Named(labels, boxes));
    ControllerLabelsAreClean(num, message);
    if ReadBack(num, labels, boxes) {
      assert IsReading(ControllerReads(num, message)[0], labels, boxes[0]);
      NormalizeKeepsSeparators(labels[i], ';');
      NormalizeKeepsSeparators(labels[i], '[');
      NormalizeKeepsSeparators(labels[i], ']');
    }
  }

  /**
    From the query to the controller: the messages about all possible boxes are read back with the
    node's labels if and only if the query has no separator between its outer brackets; then the
    scene manager reads them back as well.
  */
  lemma MessagesAreReadIff(num: NumberReader, query: string)
    requires ReadsPrinted(num)
    ensures (forall boxes: seq<OwlBox> :: ReadBack(num, QueryLabels(query), boxes)) <==>
      CleanLabel(StripBrackets(query))
    ensures CleanLabel(StripBrackets(query)) ==>
      forall boxes: seq<OwlBox> :: SeenBack(num, QueryLabels(query), boxes)
  {
    var labels := QueryLabels(query);
    QueryLabelsAreCleanIff(query);
    if CleanLabel(StripBrackets(query)) {
      forall boxes: seq<OwlBox> ensures ReadBack(num, labels, boxes) && SeenBack(num, labels, boxes) {
        CleanIsReadBack(num, labels, boxes);
        CleanIsSeenBack(num, labels, boxes);
      }
    }
    if forall boxes: seq<OwlBox> :: ReadBack(num, labels, boxes) {
      forall i | 0 <= i < |labels| ensures CleanLabel(labels[i]) {
        OneBoxTells(num, labels, i);
      }
    }
  }
}

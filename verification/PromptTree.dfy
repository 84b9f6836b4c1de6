/**
  Prompt trees: the one-pass, two-stack parser of prompts such as
  `[a face [an eye]](a dog, a cat)`, against the grammar of such prompts.

  `Body` is the grammar, `Print` its canonical printer and `TreeOf` the tree a prompt
  means, defined by recursion over the grammar. The parser is the state machine `Run`,
  and `FromPrompt` is its loop over shared, mutable nodes.
*/
module PromptTree {
  import opened Text

  datatype TreeOp = Detect | Classify

  datatype Node = Node(op: TreeOp, input: nat, outputs: seq<nat>)

  datatype Tree = Tree(nodes: seq<Node>, labels: seq<string>)

  /** The run-time errors of the parser; a comma outside all brackets is an index error. */
  datatype Error = UnexpectedClose(op: TreeOp) | MissingClose(op: TreeOp) | CommaOutside

  datatype Result<+T> = Ok(value: T) | Err(error: Error)

  // ---------- the language ----------

  /** Text and bracket groups in order; a group holds alternatives separated by commas. */
  datatype Body = End | Char(c: char, rest: Body) | Group(op: TreeOp, alts: Alts, rest: Body)

  datatype Alts = Last(body: Body) | More(body: Body, rest: Alts)

  predicate IsText(c: char) {
    c != '[' && c != ']' && c != '(' && c != ')' && c != ','
  }

  function Opener(op: TreeOp): char {
    if op == Detect then '[' else '('
  }

  function Closer(op: TreeOp): char {
    if op == Detect then ']' else ')'
  }

  predicate WellFormed(b: Body) {
    match b
    case End => true
    case Char(c, rest) => IsText(c) && WellFormed(rest)
    case Group(_, alts, rest) => WellFormedAlts(alts) && WellFormed(rest)
  }

  predicate WellFormedAlts(a: Alts) {
    match a
    case Last(b) => WellFormed(b)
    case More(b, rest) => WellFormed(b) && WellFormedAlts(rest)
  }

  function Print(b: Body): string {
    match b
    case End => ""
    case Char(c, rest) => [c] + Print(rest)
    case Group(op, alts, rest) => [Opener(op)] + PrintAlts(alts) + [Closer(op)] + Print(rest)
  }

  function PrintAlts(a: Alts): string {
    match a
    case Last(b) => Print(b)
    case More(b, rest) => Print(b) + "," + PrintAlts(rest)
  }

  // ---------- what a prompt means ----------

  /** The number of labels inside the brackets of a body. */
  function Count(b: Body): nat {
    match b
    case End => 0
    case Char(_, rest) => Count(rest)
    case Group(_, alts, rest) => CountAlts(alts) + Count(rest)
  }

  function CountAlts(a: Alts): nat {
    match a
    case Last(b) => 1 + Count(b)
    case More(b, rest) => 1 + Count(b) + CountAlts(rest)
  }

  /** The text of a body outside its brackets. */
  function OwnText(b: Body): string {
    match b
    case End => ""
    case Char(c, rest) => [c] + OwnText(rest)
    case Group(_, _, rest) => OwnText(rest)
  }

  /** The labels inside the brackets, in the order of their numbers. */
  function Labels(b: Body): (r: seq<string>)
    ensures |r| == Count(b)
  {
    match b
    case End => []
    case Char(_, rest) => Labels(rest)
    case Group(_, alts, rest) => LabelsAlts(alts) + Labels(rest)
  }

  function LabelsAlts(a: Alts): (r: seq<string>)
    ensures |r| == CountAlts(a)
  {
    match a
    case Last(b) => [OwnText(b)] + Labels(b)
    case More(b, rest) => [OwnText(b)] + Labels(b) + LabelsAlts(rest)
  }

  /** The numbers of the alternatives of a group whose first label is `next`. */
  function Outputs(a: Alts, next: nat): (r: seq<nat>)
    ensures r != [] && r[0] == next
  {
    match a
    case Last(_) => [next]
    case More(b, rest) => [next] + Outputs(rest, next + 1 + Count(b))
  }

  /** The nodes of a body that belongs to label `owner`, numbering its labels from `next`. */
  function Nodes(b: Body, owner: nat, next: nat): seq<Node> {
    match b
    case End => []
    case Char(_, rest) => Nodes(rest, owner, next)
    case Group(op, alts, rest) =>
      [Node(op, owner, Outputs(alts, next))] + NodesAlts(alts, next) + Nodes(rest, owner, next + CountAlts(alts))
  }

  function NodesAlts(a: Alts, next: nat): seq<Node> {
    match a
    case Last(b) => Nodes(b, next, next + 1)
    case More(b, rest) => Nodes(b, next, next + 1) + NodesAlts(rest, next + 1 + Count(b))
  }

  function StripAll(labels: seq<string>): (r: seq<string>)
    ensures |r| == |labels| && forall i :: 0 <= i < |r| ==> r[i] == Strip(labels[i])
  {
    seq(|labels|, i requires 0 <= i < |labels| => Strip(labels[i]))
  }

  function TreeOf(b: Body): Tree {
    Tree(Nodes(b, 0, 1), StripAll(["image" + OwnText(b)] + Labels(b)))
  }

  // ---------- the parser as a state machine ----------

  /** `nodeStack` holds positions in `nodes`; the parser itself holds the node objects. */
  datatype State = State(nodes: seq<Node>, nodeStack: seq<nat>, labelStack: seq<nat>, labels: seq<string>,
                         labelIndex: nat)

  predicate Valid(st: State) {
    && |st.labelStack| == |st.nodeStack| + 1
    && (forall i :: 0 <= i < |st.nodeStack| ==> st.nodeStack[i] < |st.nodes|)
    && (forall i :: 0 <= i < |st.labelStack| ==> st.labelStack[i] < |st.labels|)
    && |st.labels| == st.labelIndex + 1
  }

  const INITIAL := State([], [], [0], ["image"], 0)

  function Top<T>(s: seq<T>): T
    requires s != []
  {
    s[|s| - 1]
  }

  function Pop<T>(s: seq<T>): seq<T>
    requires s != []
  {
    s[..|s| - 1]
  }

  function Open(st: State, op: TreeOp): (r: State)
    requires Valid(st)
    ensures Valid(r)
  {
    var number := st.labelIndex + 1;
    State(st.nodes + [Node(op, Top(st.labelStack), [number])], st.nodeStack + [|st.nodes|],
          st.labelStack + [number], st.labels + [""], number)
  }

  function Close(st: State, op: TreeOp): (r: Result<State>)
    requires Valid(st)
    ensures r.Ok? ==> Valid(r.value)
  {
    if st.nodeStack == [] || st.nodes[Top(st.nodeStack)].op != op then Err(UnexpectedClose(op))
    else Ok(st.(nodeStack := Pop(st.nodeStack), labelStack := Pop(st.labelStack)))
  }

  function AddOutput(nodes: seq<Node>, i: nat, number: nat): (r: seq<Node>)
    requires i < |nodes|
    ensures |r| == |nodes|
  {
    nodes[i := nodes[i].(outputs := nodes[i].outputs + [number])]
  }

  function Comma(st: State): (r: Result<State>)
    requires Valid(st)
    ensures r.Ok? ==> Valid(r.value)
  {
    var number := st.labelIndex + 1;
    if st.nodeStack == [] then Err(CommaOutside)
    else Ok(State(AddOutput(st.nodes, Top(st.nodeStack), number), st.nodeStack,
                  Pop(st.labelStack) + [number], st.labels + [""], number))
  }

  function AppendText(st: State, c: char): (r: State)
    requires Valid(st)
    ensures Valid(r)
  {
    var number := Top(st.labelStack);
    st.(labels := st.labels[number := st.labels[number] + [c]])
  }

  function Step(st: State, c: char): (r: Result<State>)
    requires Valid(st)
    ensures r.Ok? ==> Valid(r.value)
  {
    if c == '[' then Ok(Open(st, Detect))
    else if c == ']' then Close(st, Detect)
    else if c == '(' then Ok(Open(st, Classify))
    else if c == ')' then Close(st, Classify)
    else if c == ',' then Comma(st)
    else Ok(AppendText(st, c))
  }

  function Run(st: State, s: string): (r: Result<State>)
    requires Valid(st)
    ensures r.Ok? ==> Valid(r.value)
    decreases |s|
  {
    if s == "" then Ok(st)
    else match Step(st, s[0])
      case Err(e) => Err(e)
      case Ok(next) => Run(next, s[1..])
  }

  /** A bracket still open at the end is an error. */
  function Finish(st: State): Result<Tree>
    requires Valid(st)
  {
    if st.nodeStack == [] then Ok(Tree(st.nodes, StripAll(st.labels)))
    else Err(MissingClose(st.nodes[Top(st.nodeStack)].op))
  }

  function Parse(prompt: string): Result<Tree> {
    match Run(INITIAL, prompt)
    case Err(e) => Err(e)
    case Ok(st) => Finish(st)
  }

  // ---------- printed prompts parse to their tree ----------

  /** The labels once a body is read for label `owner`. */
  function BodyLabels(labels: seq<string>, owner: nat, b: Body): (r: seq<string>)
    requires owner < |labels|
    ensures |r| == |labels| + Count(b)
  {
    labels[owner := labels[owner] + OwnText(b)] + Labels(b)
  }

  /** The state after a body was read by the label on top of the stack. */
  function After(b: Body, st: State): (r: State)
    requires Valid(st)
    ensures Valid(r)
  {
    var owner := Top(st.labelStack);
    State(st.nodes + Nodes(b, owner, |st.labels|), st.nodeStack, st.labelStack,
          BodyLabels(st.labels, owner, b), st.labelIndex + Count(b))
  }

  /** A group has just been opened, or a comma read: the newest label is current and empty. */
  predicate AtAlternative(st: State) {
    && Valid(st) && st.nodeStack != []
    && Top(st.labelStack) == st.labelIndex && Top(st.labels) == ""
  }

  /** The nodes once the alternatives `a`, the first of them already entered, are read for node `n`. */
  function AltNodes(nodes: seq<Node>, n: nat, a: Alts, next: nat): seq<Node>
    requires n < |nodes|
  {
    nodes[n := nodes[n].(outputs := nodes[n].outputs + Outputs(a, next)[1..])] + NodesAlts(a, next)
  }

  /** The state after the remaining alternatives of the open group and its closing bracket. */
  function AfterAlts(a: Alts, st: State): (r: State)
    requires AtAlternative(st)
    ensures Valid(r)
  {
    State(AltNodes(st.nodes, Top(st.nodeStack), a, st.labelIndex),
          Pop(st.nodeStack), Pop(st.labelStack),
          Pop(st.labels) + LabelsAlts(a), st.labelIndex + CountAlts(a) - 1)
  }

  lemma RunStep(st: State, c: char, tail: string)
    requires Valid(st)
    ensures Run(st, [c] + tail) == (if Step(st, c).Err? then Step(st, c) else Run(Step(st, c).value, tail))
  {
    assert ([c] + tail)[1..] == tail;
  }

  lemma AfterEnd(st: State)
    requires Valid(st)
    ensures After(End, st) == st
  {
    var owner := Top(st.labelStack);
    assert st.labels[owner] + "" == st.labels[owner];
    assert st.labels[owner := st.labels[owner]] + [] == st.labels;
    assert st.nodes + [] == st.nodes;
  }

  lemma AfterText(c: char, rest: Body, st: State)
    requires Valid(st)
    ensures After(rest, AppendText(st, c)) == After(Char(c, rest), st)
  {
    var owner := Top(st.labelStack);
    assert (st.labels[owner] + [c]) + OwnText(rest) == st.labels[owner] + ([c] + OwnText(rest));
    var next := AppendText(st, c);
    assert next.labels[owner := next.labels[owner] + OwnText(rest)]
        == st.labels[owner := st.labels[owner] + OwnText(Char(c, rest))];
  }

  lemma GroupNodes(nodes: seq<Node>, op: TreeOp, owner: nat, alts: Alts, rest: Body, next: nat)
    ensures AltNodes(nodes + [Node(op, owner, [next])], |nodes|, alts, next) + Nodes(rest, owner, next + CountAlts(alts))
         == nodes + Nodes(Group(op, alts, rest), owner, next)
  {
    var outs, inner := Outputs(alts, next), NodesAlts(alts, next);
    OpenedNode(nodes, op, owner, outs, inner);
    Regroup(nodes, [Node(op, owner, outs)], inner, Nodes(rest, owner, next + CountAlts(alts)));
  }

  lemma OpenedNode(nodes: seq<Node>, op: TreeOp, owner: nat, outs: seq<nat>, inner: seq<Node>)
    requires outs != []
    ensures var opened' := nodes + [Node(op, owner, [outs[0]])];
      opened'[|nodes| := opened'[|nodes|].(outputs := opened'[|nodes|].outputs + outs[1..])] + inner
      == nodes + [Node(op, owner, outs)] + inner
  {
    assert [outs[0]] + outs[1..] == outs;
  }

  lemma Regroup<T>(a: seq<T>, b: seq<T>, c: seq<T>, d: seq<T>)
    ensures a + b + c + d == a + (b + c + d)
  {
  }

  lemma GroupLabels(labels: seq<string>, op: TreeOp, owner: nat, alts: Alts, rest: Body)
    requires owner < |labels|
    ensures BodyLabels(labels + LabelsAlts(alts), owner, rest) == BodyLabels(labels, owner, Group(op, alts, rest))
  {
    ReadBehind(labels, owner, OwnText(rest), LabelsAlts(alts), Labels(rest));
  }

  lemma ReadBehind(labels: seq<string>, owner: nat, text: string, inner: seq<string>, after: seq<string>)
    requires owner < |labels|
    ensures (labels + inner)[owner := (labels + inner)[owner] + text] + after
         == labels[owner := labels[owner] + text] + (inner + after)
  {
  }

  lemma ReadIntoLast(labels: seq<string>, text: string, after: seq<string>)
    requires labels != [] && Top(labels) == ""
    ensures labels[|labels| - 1 := Top(labels) + text] + after == Pop(labels) + ([text] + after)
  {
    assert "" + text == text;
  }

  lemma PopInvertsPush<T>(stack: seq<T>, x: T)
    ensures Pop(stack + [x]) == stack
  {
  }

  /** `inner` is `st` with the alternatives of a group read that was opened there. */
  predicate GroupRead(op: TreeOp, alts: Alts, st: State, inner: State)
    requires Valid(st)
  {
    var nodes := st.nodes + [Node(op, Top(st.labelStack), [|st.labels|])];
    && inner.nodeStack == st.nodeStack && inner.labelStack == st.labelStack
    && inner.nodes == AltNodes(nodes, |st.nodes|, alts, |st.labels|)
    && inner.labels == st.labels + LabelsAlts(alts)
    && inner.labelIndex == st.labelIndex + CountAlts(alts)
  }

  lemma EnterGroup(op: TreeOp, alts: Alts, st: State)
    requires Valid(st)
    ensures AtAlternative(Open(st, op)) && GroupRead(op, alts, st, AfterAlts(alts, Open(st, op)))
  {
    PopInvertsPush(st.labelStack, |st.labels|);
    PopInvertsPush(st.nodeStack, |st.nodes|);
    PopInvertsPush(st.labels, "");
  }

  lemma LeaveGroup(op: TreeOp, alts: Alts, rest: Body, st: State, inner: State)
    requires Valid(st) && Valid(inner) && GroupRead(op, alts, st, inner)
    ensures After(rest, inner) == After(Group(op, alts, rest), st)
  {
    var owner := Top(st.labelStack);
    GroupNodes(st.nodes, op, owner, alts, rest, |st.labels|);
    GroupLabels(st.labels, op, owner, alts, rest);
  }

  lemma AfterGroup(op: TreeOp, alts: Alts, rest: Body, st: State)
    requires Valid(st)
    ensures AtAlternative(Open(st, op))
    ensures After(rest, AfterAlts(alts, Open(st, op))) == After(Group(op, alts, rest), st)
  {
    EnterGroup(op, alts, st);
    LeaveGroup(op, alts, rest, st, AfterAlts(alts, Open(st, op)));
  }

  lemma {:induction false} RunBody(b: Body, st: State, tail: string)
    requires Valid(st) && WellFormed(b)
    ensures Run(st, Print(b) + tail) == Run(After(b, st), tail)
    decreases b
  {
    match b
    case End =>
      AfterEnd(st);
      assert Print(b) + tail == tail;
    case Char(c, rest) =>
      assert Print(b) + tail == [c] + (Print(rest) + tail);
      RunStep(st, c, Print(rest) + tail);
      RunBody(rest, AppendText(st, c), tail);
      AfterText(c, rest, st);
    case Group(op, alts, rest) =>
      var inner := PrintAlts(alts) + [Closer(op)] + (Print(rest) + tail);
      assert Print(b) + tail == [Opener(op)] + inner;
      RunStep(st, Opener(op), inner);
      AfterGroup(op, alts, rest, st);
      RunAlts(alts, op, Open(st, op), Print(rest) + tail);
      RunBody(rest, AfterAlts(alts, Open(st, op)), tail);
  }

  lemma BodyOfAlternative(b: Body, st: State)
    requires AtAlternative(st)
    ensures var body := After(b, st);
      && body.nodes == st.nodes + Nodes(b, st.labelIndex, st.labelIndex + 1)
      && body.labels == Pop(st.labels) + ([OwnText(b)] + Labels(b))
  {
    ReadIntoLast(st.labels, OwnText(b), Labels(b));
  }

  lemma AltNodesLast(nodes: seq<Node>, n: nat, b: Body, next: nat)
    requires n < |nodes|
    ensures AltNodes(nodes, n, Last(b), next) == nodes + Nodes(b, next, next + 1)
  {
    assert nodes[n].outputs + [next][1..] == nodes[n].outputs;
    assert nodes[n := nodes[n]] == nodes;
  }

  lemma AltNodesMore(nodes: seq<Node>, n: nat, b: Body, rest: Alts, L: nat, next: nat)
    requires n < |nodes| && next == L + 1 + Count(b)
    ensures AltNodes(AddOutput(nodes + Nodes(b, L, L + 1), n, next), n, rest, next)
         == AltNodes(nodes, n, More(b, rest), L)
  {
    var inner := Nodes(b, L, L + 1);
    var outs := Outputs(rest, next);
    var added := AddOutput(nodes + inner, n, next);
    assert added[n].outputs + outs[1..] == nodes[n].outputs + outs;
    assert ([L] + outs)[1..] == outs;
    var node := nodes[n].(outputs := nodes[n].outputs + outs);
    assert added[n := node] == nodes[n := node] + inner;
    assert nodes[n := node] + inner + NodesAlts(rest, next) == nodes[n := node] + (inner + NodesAlts(rest, next));
  }

  lemma AfterLast(b: Body, st: State)
    requires AtAlternative(st)
    ensures var body := After(b, st);
      body.(nodeStack := Pop(body.nodeStack), labelStack := Pop(body.labelStack)) == AfterAlts(Last(b), st)
  {
    BodyOfAlternative(b, st);
    AltNodesLast(st.nodes, Top(st.nodeStack), b, st.labelIndex);
  }

  lemma LabelsMore(before: seq<string>, b: Body, rest: Alts)
    ensures Pop(before + ([OwnText(b)] + Labels(b)) + [""]) + LabelsAlts(rest) == before + LabelsAlts(More(b, rest))
  {
    assert Pop(before + ([OwnText(b)] + Labels(b)) + [""]) == before + ([OwnText(b)] + Labels(b));
  }

  /** What `AfterMore` compares: the state after a comma, with the first alternative read. */
  predicate CommaRead(b: Body, st: State, comma: State)
    requires AtAlternative(st)
  {
    var number := st.labelIndex + 1 + Count(b);
    && comma.nodeStack == st.nodeStack && comma.labelStack == Pop(st.labelStack) + [number]
    && comma.nodes == AddOutput(st.nodes + Nodes(b, st.labelIndex, st.labelIndex + 1), Top(st.nodeStack), number)
    && comma.labels == Pop(st.labels) + ([OwnText(b)] + Labels(b)) + [""]
    && comma.labelIndex == number
  }

  lemma ReadComma(b: Body, st: State)
    requires AtAlternative(st)
    ensures Comma(After(b, st)).Ok? && CommaRead(b, st, Comma(After(b, st)).value)
  {
    BodyOfAlternative(b, st);
  }

  lemma LeaveComma(b: Body, rest: Alts, st: State, comma: State)
    requires AtAlternative(st) && AtAlternative(comma) && CommaRead(b, st, comma)
    ensures AfterAlts(rest, comma) == AfterAlts(More(b, rest), st)
  {
    AltNodesMore(st.nodes, Top(st.nodeStack), b, rest, st.labelIndex, comma.labelIndex);
    LabelsMore(Pop(st.labels), b, rest);
    PopInvertsPush(Pop(st.labelStack), comma.labelIndex);
  }

  lemma AfterMore(b: Body, rest: Alts, st: State)
    requires AtAlternative(st)
    ensures Comma(After(b, st)).Ok? && AtAlternative(Comma(After(b, st)).value)
    ensures AfterAlts(rest, Comma(After(b, st)).value) == AfterAlts(More(b, rest), st)
  {
    ReadComma(b, st);
    LeaveComma(b, rest, st, Comma(After(b, st)).value);
  }

  lemma RunClose(b: Body, op: TreeOp, st: State, tail: string)
    requires AtAlternative(st) && st.nodes[Top(st.nodeStack)].op == op
    ensures Run(After(b, st), [Closer(op)] + tail) == Run(AfterAlts(Last(b), st), tail)
  {
    var body := After(b, st);
    RunStep(body, Closer(op), tail);
    assert Step(body, Closer(op)) == Close(body, op);
    AfterLast(b, st);
  }

  lemma RunComma(b: Body, st: State, tail: string)
    requires AtAlternative(st)
    ensures Comma(After(b, st)).Ok?
    ensures Run(After(b, st), "," + tail) == Run(Comma(After(b, st)).value, tail)
  {
    RunStep(After(b, st), ',', tail);
  }

  lemma {:induction false} RunAlts(a: Alts, op: TreeOp, st: State, tail: string)
    requires AtAlternative(st) && WellFormedAlts(a) && st.nodes[Top(st.nodeStack)].op == op
    ensures Run(st, PrintAlts(a) + [Closer(op)] + tail) == Run(AfterAlts(a, st), tail)
    decreases a
  {
    match a
    case Last(b) =>
      assert PrintAlts(a) + [Closer(op)] + tail == Print(b) + ([Closer(op)] + tail);
      RunBody(b, st, [Closer(op)] + tail);
      RunClose(b, op, st, tail);
    case More(b, rest) =>
      var after := PrintAlts(rest) + [Closer(op)] + tail;
      assert PrintAlts(a) + [Closer(op)] + tail == Print(b) + ("," + after);
      RunBody(b, st, "," + after);
      RunComma(b, st, after);
      AfterMore(b, rest, st);
      RunAlts(rest, op, Comma(After(b, st)).value, tail);
  }

  /** Printing a well-formed prompt and parsing it gives the tree the prompt means. */
  lemma ParseInvertsPrint(b: Body)
    requires WellFormed(b)
    ensures Parse(Print(b)) == Ok(TreeOf(b))
  {
    RunBody(b, INITIAL, "");
    assert Print(b) + "" == Print(b);
    assert INITIAL.labels[0 := "image" + OwnText(b)] == ["image" + OwnText(b)];
    assert INITIAL.nodes + Nodes(b, 0, 1) == Nodes(b, 0, 1);
  }

  // ---------- a family of prompts in full ----------

  ghost predicate AllText(s: string) {
    forall i :: 0 <= i < |s| ==> IsText(s[i])
  }

  /** A body that starts with a text. */
  function Words(s: string, rest: Body): Body {
    if s == "" then rest else Char(s[0], Words(s[1..], rest))
  }

  /** What a body looks like, and what it means for label `owner` when its labels are numbered from `next`. */
  ghost predicate Means(b: Body, owner: nat, next: nat, printed: string, own: string, labels: seq<string>, nodes: seq<Node>) {
    && WellFormed(b) && Print(b) == printed
    && OwnText(b) == own && Labels(b) == labels && Nodes(b, owner, next) == nodes
  }

  lemma FirstApart(c: char, s: string, t: string)
    ensures [c] + (s + t) == ([c] + s) + t
  {
  }

  lemma {:induction false} WordsMean(s: string, rest: Body, owner: nat, next: nat, printed: string, own: string,
                                     labels: seq<string>, nodes: seq<Node>)
    requires AllText(s) && Means(rest, owner, next, printed, own, labels, nodes)
    ensures Means(Words(s, rest), owner, next, s + printed, s + own, labels, nodes)
    decreases |s|
  {
    if s == "" {
      assert s + printed == printed && s + own == own;
    } else {
      WordsMean(s[1..], rest, owner, next, printed, own, labels, nodes);
      FirstApart(s[0], s[1..], printed);
      FirstApart(s[0], s[1..], own);
      assert [s[0]] + s[1..] == s;
    }
  }

  lemma OnlyText(s: string, owner: nat, next: nat)
    requires AllText(s)
    ensures Means(Words(s, End), owner, next, s, s, [], [])
  {
    WordsMean(s, End, owner, next, "", "", [], []);
    assert s + "" == s;
  }

  lemma OneMeans(op: TreeOp, inner: Body, rest: Body, owner: nat, next: nat, p: string, o: string, ls: seq<string>,
                 ns: seq<Node>, q: string, r: string, ms: seq<string>, more: seq<Node>)
    requires Means(inner, next, next + 1, p, o, ls, ns) && Means(rest, owner, next + 1 + |ls|, q, r, ms, more)
    ensures Means(Group(op, Last(inner), rest), owner, next, [Opener(op)] + p + [Closer(op)] + q, r,
                  [o] + ls + ms, [Node(op, owner, [next])] + ns + more)
  {
  }

  lemma TwoMean(op: TreeOp, x: Body, y: Body, rest: Body, owner: nat, next: nat, u: string, v: string,
                q: string, r: string, ms: seq<string>, more: seq<Node>)
    requires Means(x, next, next + 1, u, u, [], []) && Means(y, next + 1, next + 2, v, v, [], [])
    requires Means(rest, owner, next + 2, q, r, ms, more)
    ensures Means(Group(op, More(x, Last(y)), rest), owner, next, [Opener(op)] + (u + "," + v) + [Closer(op)] + q, r,
                  ([u] + [] + ([v] + [])) + ms, [Node(op, owner, [next] + [next + 1])] + ([] + []) + more)
  {
    var alts := More(x, Last(y));
    assert Count(x) == |Labels(x)| == 0 && Count(y) == |Labels(y)| == 0;
    assert Outputs(Last(y), next + 1) == [next + 1];
    assert NodesAlts(Last(y), next + 1) == [];
    assert PrintAlts(Last(y)) == v && LabelsAlts(Last(y)) == [v] + [];
    assert CountAlts(alts) == 2 && Outputs(alts, next) == [next] + [next + 1] && NodesAlts(alts, next) == [] + [];
    assert PrintAlts(alts) == u + "," + v && LabelsAlts(alts) == [u] + [] + ([v] + []);
  }

  lemma StripFive(a: string, s: string, t: string, u: string, v: string)
    ensures StripAll([a, s, t, u, v]) == [Strip(a), Strip(s), Strip(t), Strip(u), Strip(v)]
  {
  }

  lemma ImageIsSolid()
    ensures Strip("image") == "image"
  {
    LStripNothing("image");
    RStripNothing("image");
  }

  lemma Written(s: string, t: string, u: string, v: string)
    ensures "[" + (s + ("[" + t + "]" + "")) + "]" + ("(" + (u + "," + v) + ")" + "")
         == "[" + s + "[" + t + "]](" + u + "," + v + ")"
  {
  }

  lemma LabelsListed(s: string, t: string, u: string, v: string)
    ensures ["image" + ""] + ([s + ""] + ([t] + [] + []) + ([u] + [] + ([v] + []) + [])) == ["image", s, t, u, v]
  {
    assert s + "" == s && "image" + "" == "image";
  }

  lemma NodesListed(a: Node, b: Node, c: Node)
    ensures [a] + ([b] + [] + []) + ([c] + ([] + []) + []) == [a, b, c]
  {
  }

  lemma MeantTree(b: Body, printed: string, own: string, labels: seq<string>, nodes: seq<Node>)
    requires Means(b, 0, 1, printed, own, labels, nodes)
    ensures Parse(printed) == Ok(Tree(nodes, StripAll(["image" + own] + labels)))
  {
    ParseInvertsPrint(b);
  }

  /**
    For any texts: a square bracket detects in the image or in the label around it, a round one
    classifies, alternatives are outputs of one node, and labels are numbered as they come.
  */
  lemma PromptOfFour(s: string, t: string, u: string, v: string)
    requires AllText(s) && AllText(t) && AllText(u) && AllText(v)
    ensures Parse("[" + s + "[" + t + "]](" + u + "," + v + ")")
         == Ok(Tree([Node(Detect, 0, [1]), Node(Detect, 1, [2]), Node(Classify, 0, [3, 4])],
                    ["image", Strip(s), Strip(t), Strip(u), Strip(v)]))
  {
    OnlyText(t, 2, 3);
    OneMeans(Detect, Words(t, End), End, 1, 2, t, t, [], [], "", "", [], []);
    var inner := Group(Detect, Last(Words(t, End)), End);
    WordsMean(s, inner, 1, 2, "[" + t + "]" + "", "", [t] + [] + [], [Node(Detect, 1, [2])] + [] + []);
    OnlyText(u, 3, 4);
    OnlyText(v, 4, 5);
    TwoMean(Classify, Words(u, End), Words(v, End), End, 0, 3, u, v, "", "", [], []);
    var choice := Group(Classify, More(Words(u, End), Last(Words(v, End))), End);
    PairMeans(s, t, u, v, Words(s, inner), choice);
  }

  lemma PairMeans(s: string, t: string, u: string, v: string, nested: Body, choice: Body)
    requires Means(nested, 1, 2, s + ("[" + t + "]" + ""), s + "", [t] + [] + [], [Node(Detect, 1, [2])] + [] + [])
    requires Means(choice, 0, 3, "(" + (u + "," + v) + ")" + "", "", [u] + [] + ([v] + []) + [],
                   [Node(Classify, 0, [3] + [4])] + ([] + []) + [])
    ensures Parse("[" + s + "[" + t + "]](" + u + "," + v + ")")
         == Ok(Tree([Node(Detect, 0, [1]), Node(Detect, 1, [2]), Node(Classify, 0, [3, 4])],
                    ["image", Strip(s), Strip(t), Strip(u), Strip(v)]))
  {
    var b := Group(Detect, Last(nested), choice);
    OneMeans(Detect, nested, choice, 0, 1, s + ("[" + t + "]" + ""), s + "", [t] + [] + [],
             [Node(Detect, 1, [2])] + [] + [], "(" + (u + "," + v) + ")" + "", "", [u] + [] + ([v] + []) + [],
             [Node(Classify, 0, [3] + [4])] + ([] + []) + []);
    Written(s, t, u, v);
    LabelsListed(s, t, u, v);
    NodesListed(Node(Detect, 0, [1]), Node(Detect, 1, [2]), Node(Classify, 0, [3] + [4]));
    assert [3] + [4] == [3, 4];
    ImageIsSolid();
    StripFive("image", s, t, u, v);
    MeantTree(b, "[" + s + "[" + t + "]](" + u + "," + v + ")", "", [s + ""] + ([t] + [] + []) + ([u] + [] + ([v] + []) + []),
              [Node(Detect, 0, [1]), Node(Detect, 1, [2]), Node(Classify, 0, [3, 4])]);
  }

  // ---------- only well-formed prompts parse ----------

  /** What is left to read inside nested groups: the rest of each group and what follows it. */
  datatype Spine = Outermost(body: Body) | Inside(op: TreeOp, alts: Alts, up: Spine)

  function PrintSpine(sp: Spine): string {
    match sp
    case Outermost(b) => Print(b)
    case Inside(op, alts, up) => PrintAlts(alts) + [Closer(op)] + PrintSpine(up)
  }

  ghost predicate WellFormedSpine(sp: Spine) {
    match sp
    case Outermost(b) => WellFormed(b)
    case Inside(_, alts, up) => WellFormedAlts(alts) && WellFormedSpine(up)
  }

  ghost function SpineOps(sp: Spine): seq<TreeOp> {
    match sp
    case Outermost(_) => []
    case Inside(op, _, up) => SpineOps(up) + [op]
  }

  ghost function FirstBody(sp: Spine): Body {
    match sp
    case Outermost(b) => b
    case Inside(_, alts, _) => alts.body
  }

  ghost function WithFirstBody(sp: Spine, b: Body): Spine {
    match sp
    case Outermost(_) => Outermost(b)
    case Inside(op, alts, up) => Inside(op, alts.(body := b), up)
  }

  /** The operators of the open brackets, outermost first. */
  ghost function OpsOf(st: State): (ops: seq<TreeOp>)
    requires Valid(st)
    ensures |ops| == |st.nodeStack|
  {
    seq(|st.nodeStack|, i requires 0 <= i < |st.nodeStack| => st.nodes[st.nodeStack[i]].op)
  }

  lemma SpineStartsWithBody(sp: Spine, b: Body, front: string)
    requires Print(b) == front + Print(FirstBody(sp))
    ensures PrintSpine(WithFirstBody(sp, b)) == front + PrintSpine(sp)
  {
    match sp
    case Outermost(_) =>
    case Inside(op, Last(_), up) =>
    case Inside(op, More(first, rest), up) =>
      assert Print(b) + "," + PrintAlts(rest) == front + (Print(first) + "," + PrintAlts(rest));
  }

  lemma WithFirstBodyKeeps(sp: Spine, b: Body)
    requires WellFormedSpine(sp) && WellFormed(b)
    ensures WellFormedSpine(WithFirstBody(sp, b)) && SpineOps(WithFirstBody(sp, b)) == SpineOps(sp)
    ensures WellFormed(FirstBody(sp))
  {
    match sp
    case Outermost(_) =>
    case Inside(op, Last(_), up) =>
    case Inside(op, More(first, rest), up) =>
  }

  /** What a step does to the open brackets. */
  ghost predicate OpsChange(before: seq<TreeOp>, c: char, after: seq<TreeOp>) {
    && (c == '[' ==> after == before + [Detect])
    && (c == '(' ==> after == before + [Classify])
    && (c == ']' ==> before == after + [Detect])
    && (c == ')' ==> before == after + [Classify])
    && (c == ',' || IsText(c) ==> after == before)
    && (c == ',' ==> before != [])
  }

  lemma StepOps(st: State, c: char)
    requires Valid(st) && Step(st, c).Ok?
    ensures OpsChange(OpsOf(st), c, OpsOf(Step(st, c).value))
  {
  }

  /** A run that ends outside all brackets has read the rest of a well-formed prompt. */
  lemma {:induction false} AcceptedTextIsPrinted(st: State, s: string) returns (sp: Spine)
    requires Valid(st) && Run(st, s).Ok? && Run(st, s).value.nodeStack == []
    ensures WellFormedSpine(sp) && SpineOps(sp) == OpsOf(st) && PrintSpine(sp) == s
    decreases |s|
  {
    if s == "" {
      return Outermost(End);
    }
    StepOps(st, s[0]);
    var inner := AcceptedTextIsPrinted(Step(st, s[0]).value, s[1..]);
    sp := PrependChar(inner, s[0], OpsOf(st));
    assert s == [s[0]] + s[1..];
  }

  /** One more character in front of a spine. */
  lemma PrependChar(inner: Spine, c: char, ops: seq<TreeOp>) returns (sp: Spine)
    requires WellFormedSpine(inner) && OpsChange(ops, c, SpineOps(inner))
    ensures WellFormedSpine(sp) && SpineOps(sp) == ops && PrintSpine(sp) == [c] + PrintSpine(inner)
  {
    if c == '[' {
      sp := PrependGroup(inner, Detect, ops);
    } else if c == '(' {
      sp := PrependGroup(inner, Classify, ops);
    } else if c == ']' || c == ')' {
      sp := Inside(if c == ']' then Detect else Classify, Last(End), inner);
      assert PrintAlts(Last(End)) == "";
    } else if c == ',' {
      sp := Inside(inner.op, More(End, inner.alts), inner.up);
      assert PrintAlts(More(End, inner.alts)) == "," + PrintAlts(inner.alts);
    } else {
      var b := Char(c, FirstBody(inner));
      WithFirstBodyKeeps(inner, End);
      WithFirstBodyKeeps(inner, b);
      SpineStartsWithBody(inner, b, [c]);
      sp := WithFirstBody(inner, b);
    }
  }

  /** An opening bracket in front: the innermost group becomes a group of the level above. */
  lemma PrependGroup(inner: Spine, op: TreeOp, ops: seq<TreeOp>) returns (sp: Spine)
    requires WellFormedSpine(inner) && SpineOps(inner) == ops + [op]
    ensures WellFormedSpine(sp) && SpineOps(sp) == ops && PrintSpine(sp) == [Opener(op)] + PrintSpine(inner)
  {
    assert inner.Inside?;
    assert SpineOps(inner)[|ops|] == inner.op;
    var up := inner.up;
    assert SpineOps(up) == SpineOps(inner)[..|ops|] == ops;
    var b := Group(op, inner.alts, FirstBody(up));
    WithFirstBodyKeeps(up, End);
    WithFirstBodyKeeps(up, b);
    SpineStartsWithBody(up, b, [Opener(op)] + PrintAlts(inner.alts) + [Closer(op)]);
    sp := WithFirstBody(up, b);
  }

  /** The parser accepts exactly the printed forms of well-formed prompts: balanced in both
      bracket kinds, every comma inside a bracket. */
  lemma ParsesIffWellFormed(prompt: string)
    ensures Parse(prompt).Ok? <==> exists b :: WellFormed(b) && Print(b) == prompt
  {
    if Parse(prompt).Ok? {
      var sp := AcceptedTextIsPrinted(INITIAL, prompt);
      assert sp.Outermost?;
      assert WellFormed(sp.body) && Print(sp.body) == prompt;
    }
    if b :| WellFormed(b) && Print(b) == prompt {
      ParseInvertsPrint(b);
    }
  }
}

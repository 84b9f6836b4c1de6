/**
  The parser loop on shared node objects: the node on top of the stack is the same object
  as the one in the node list, so a comma changes both.
*/
module PromptParser {
  import opened PromptTree
  import TreeStructure

  class TreeNode {
    const op: TreeOp
    const input: nat
    var outputs: seq<nat>

    constructor (op: TreeOp, input: nat)
      ensures this.op == op && this.input == input && outputs == []
    {
      this.op := op;
      this.input := input;
      outputs := [];
    }

    function View(): Node
      reads this
    {
      Node(op, input, outputs)
    }

    method Append(number: nat)
      modifies this
      ensures outputs == old(outputs) + [number]
    {
      outputs := outputs + [number];
    }
  }

  /** The objects hold the nodes of the state, and the stack holds the same objects. */
  ghost predicate Holds(nodes: seq<TreeNode>, nodeStack: seq<TreeNode>, st: State)
    reads nodes
  {
    && |nodes| == |st.nodes| && |nodeStack| == |st.nodeStack|
    && (forall i, j :: 0 <= i < j < |nodes| ==> nodes[i] != nodes[j])
    && (forall i :: 0 <= i < |nodes| ==> nodes[i].View() == st.nodes[i])
    && forall i :: 0 <= i < |nodeStack| ==> st.nodeStack[i] < |nodes| && nodeStack[i] == nodes[st.nodeStack[i]]
  }

  lemma HoldsOneMore(nodes: seq<TreeNode>, nodeStack: seq<TreeNode>, st: State, node: TreeNode, op: TreeOp)
    requires PromptTree.Valid(st) && Holds(nodes, nodeStack, st) && node !in nodes
    requires node.View() == Node(op, Top(st.labelStack), [st.labelIndex + 1])
    ensures Holds(nodes + [node], nodeStack + [node], Open(st, op))
  {
  }

  /** Another output of the node on top of the stack, which `nodes` holds as well; `views` are the views before. */
  lemma HoldsOneOutput(nodes: seq<TreeNode>, nodeStack: seq<TreeNode>, st: State, after: State)
    requires PromptTree.Valid(st) && st.nodeStack != [] && Comma(st) == Ok(after)
    requires |nodes| == |st.nodes| && |nodeStack| == |st.nodeStack|
    requires forall i, j :: 0 <= i < j < |nodes| ==> nodes[i] != nodes[j]
    requires forall i :: 0 <= i < |nodeStack| ==> st.nodeStack[i] < |nodes| && nodeStack[i] == nodes[st.nodeStack[i]]
    requires forall i :: 0 <= i < |nodes| ==>
      nodes[i].View() == if i == Top(st.nodeStack)
        then st.nodes[i].(outputs := st.nodes[i].outputs + [st.labelIndex + 1]) else st.nodes[i]
    ensures Holds(nodes, nodeStack, after)
  {
  }

  /** The variables of the parser. `st` is the state they stand for. */
  class Reader {
    var nodes: seq<TreeNode>
    var nodeStack: seq<TreeNode>
    var labelStack: seq<nat>
    var labels: seq<string>
    var labelIndex: nat
    ghost var st: State
    ghost var Repr: set<TreeNode>

    ghost predicate Inv()
      reads this, Repr
    {
      && (forall n :: n in nodes ==> n in Repr)
      && PromptTree.Valid(st) && Holds(nodes, nodeStack, st)
      && st.labelStack == labelStack && st.labels == labels && st.labelIndex == labelIndex
    }

    constructor ()
      ensures Inv() && st == INITIAL && Repr == {}
    {
      nodes, nodeStack, labelStack, labels, labelIndex := [], [], [0], ["image"], 0;
      st, Repr := INITIAL, {};
    }

    method OpenBracket(op: TreeOp)
      requires Inv()
      modifies this
      ensures Inv() && st == Open(old(st), op)
      ensures fresh(Repr - old(Repr))
    {
      labelIndex := labelIndex + 1;
      var node := new TreeNode(op, Top(labelStack));
      node.Append(labelIndex);
      HoldsOneMore(nodes, nodeStack, st, node, op);
      nodeStack := nodeStack + [node];
      labelStack := labelStack + [labelIndex];
      labels := labels + [""];
      nodes, Repr := nodes + [node], Repr + {node};
      st := Open(st, op);
    }

    method CloseBracket(op: TreeOp) returns (ok: bool)
      requires Inv()
      modifies this
      ensures ok == Close(old(st), op).Ok? && Repr == old(Repr)
      ensures ok ==> Inv() && st == Close(old(st), op).value
    {
      if |nodeStack| == 0 {
        return false;
      }
      var node := Top(nodeStack);
      assert node.View() == st.nodes[Top(st.nodeStack)];
      nodeStack := Pop(nodeStack);
      if node.op != op {
        return false;
      }
      labelStack := Pop(labelStack);
      st := Close(st, op).value;
      return true;
    }

    method NextAlternative() returns (ok: bool)
      requires Inv()
      modifies this, Repr
      ensures ok == Comma(old(st)).Ok? && Repr == old(Repr)
      ensures ok ==> Inv() && st == Comma(old(st)).value
    {
      labelStack := Pop(labelStack);
      labelIndex := labelIndex + 1;
      labelStack := labelStack + [labelIndex];
      if |nodeStack| == 0 {
        return false;
      }
      ghost var n := Top(st.nodeStack);
      assert Top(nodeStack) == nodes[n] && nodes[n].View() == st.nodes[n];
      Top(nodeStack).Append(labelIndex);
      HoldsOneOutput(nodes, nodeStack, st, Comma(st).value);
      labels := labels + [""];
      st := Comma(st).value;
      return true;
    }

    method AddText(c: char)
      requires Inv()
      modifies this
      ensures Inv() && st == AppendText(old(st), c) && Repr == old(Repr)
    {
      var number := Top(labelStack);
      labels := labels[number := labels[number] + [c]];
      st := AppendText(st, c);
    }

    function Views(): (views: seq<Node>)
      reads this, nodes
      ensures |views| == |nodes| && forall i :: 0 <= i < |nodes| ==> views[i] == nodes[i].View()
    {
      seq(|nodes|, i requires 0 <= i < |nodes| reads this, nodes => nodes[i].View())
    }
  }

  /** Handles one character; the error is that of the state machine. */
  method ReadChar(reader: Reader, c: char) returns (error: Result<()>)
    requires reader.Inv()
    modifies reader, reader.Repr
    ensures error.Err? <==> Step(old(reader.st), c).Err?
    ensures error.Err? ==> Step(old(reader.st), c) == Err(error.error)
    ensures error.Ok? ==> reader.Inv() && reader.st == Step(old(reader.st), c).value
    ensures fresh(reader.Repr - old(reader.Repr))
  {
    var ok;
    if c == '[' {
      reader.OpenBracket(Detect);
    } else if c == ']' {
      ok := reader.CloseBracket(Detect);
      if !ok { return Err(UnexpectedClose(Detect)); }
    } else if c == '(' {
      reader.OpenBracket(Classify);
    } else if c == ')' {
      ok := reader.CloseBracket(Classify);
      if !ok { return Err(UnexpectedClose(Classify)); }
    } else if c == ',' {
      ok := reader.NextAlternative();
      if !ok { return Err(CommaOutside); }
    } else {
      reader.AddText(c);
    }
    return Ok(());
  }

  /** After the last character: an open bracket is an error, otherwise the tree is built. */
  method Conclude(reader: Reader) returns (r: Result<Tree>)
    requires reader.Inv()
    requires Finish(reader.st).Ok? ==> TreeStructure.UniqueOutputs(reader.st.nodes)
    ensures r == Finish(reader.st)
  {
    if |reader.nodeStack| > 0 {
      assert Top(reader.nodeStack).View() == reader.st.nodes[Top(reader.st.nodeStack)];
      return Err(MissingClose(Top(reader.nodeStack).op));
    }
    var views := reader.Views();
    assert views == reader.st.nodes;
    r := Ok(Tree(views, StripAll(reader.labels)));
    var nodeOf := TreeStructure.BuildLabelIndexToNodeMap(views);
    assert nodeOf.LabelMap?;
  }

  /**
    Parses a prompt in one pass. The result is that of the state machine, error for error; see
    `ParsesIffWellFormed` and `ParseInvertsPrint` for what it means. The check for duplicate
    outputs never fails.
  */
  method FromPrompt(prompt: string) returns (r: Result<Tree>)
    ensures r == Parse(prompt)
  {
    var reader := new Reader();
    for i := 0 to |prompt|
      invariant reader.Inv() && fresh(reader) && fresh(reader.Repr)
      invariant Run(INITIAL, prompt) == Run(reader.st, prompt[i..])
    {
      assert prompt[i..] == [prompt[i]] + prompt[i + 1..];
      RunStep(reader.st, prompt[i], prompt[i + 1..]);
      var step := ReadChar(reader, prompt[i]);
      if step.Err? {
        return Err(step.error);
      }
    }
    assert prompt[|prompt|..] == "";
    if Parse(prompt).Ok? { TreeStructure.ParsedTreesAreTidy(prompt); }
    r := Conclude(reader);
  }
}

/** The loader: the stack machine that turns a file into a tree of property ranges, and the
    copy loop that hands out a node's properties. */
module OtbLoader {
  import opened OtbFormat
  import opened PropStreams

  datatype Result<+T> = Ok(value: T) | InvalidOtbFormat

  type Identifier = s: seq<byte> | |s| == 4 witness [0, 0, 0, 0]

  const WILDCARD: Identifier := [0, 0, 0, 0]
  const IDENTIFIER_SIZE := 4
  const MINIMAL_SIZE := 7

  /** What a finished node holds: its type, where its properties lie in the file, its children. */
  datatype PNode = PNode(typ: byte, propsBegin: nat, propsEnd: nat, children: seq<PNode>)

  // ----- The stack machine, as a function of the bytes still to read ----------------------

  /** Either nodes are open (the innermost last, each with its finished children), or the root is finished. */
  datatype Parsing = Open(stack: seq<PNode>) | Closed(root: PNode)

  /** The end of the properties is fixed by the first marker after them. */
  function MarkProps(n: PNode, pos: nat): PNode {
    if n.children == [] then n.(propsEnd := pos) else n
  }

  function Begin(stack: seq<PNode>, typ: byte, pos: nat): Parsing
    requires stack != []
  {
    var top := |stack| - 1;
    Open(stack[top := MarkProps(stack[top], pos)] + [PNode(typ, pos + 2, 0, [])])
  }

  function Finish(stack: seq<PNode>, pos: nat): Parsing
    requires stack != []
  {
    var top := |stack| - 1;
    var node := MarkProps(stack[top], pos);
    if top == 0 then Closed(node)
    else Open(stack[..top][top - 1 := AddChild(stack[top - 1], node)])
  }

  function AddChild(parent: PNode, child: PNode): PNode {
    parent.(children := parent.children + [child])
  }

  function Run(s: seq<byte>, pos: nat, st: Parsing): Result<PNode>
    requires st.Open? ==> st.stack != []
    decreases |s|
  {
    if s == [] then
      if st.Closed? then Ok(st.root) else InvalidOtbFormat
    else if s[0] == START then
      if st.Closed? || |s| == 1 then InvalidOtbFormat
      else Run(s[2..], pos + 2, Begin(st.stack, s[1], pos))
    else if s[0] == END then
      if st.Closed? then InvalidOtbFormat else Run(s[1..], pos + 1, Finish(st.stack, pos))
    else if s[0] == ESCAPE then
      if |s| == 1 then InvalidOtbFormat else Run(s[2..], pos + 2, st)
    else
      Run(s[1..], pos + 1, st)
  }

  function Parse(file: seq<byte>): Result<PNode>
    requires |file| > MINIMAL_SIZE
  {
    if file[IDENTIFIER_SIZE] != START then InvalidOtbFormat
    else Run(file[6..], 6, Open([PNode(file[5], 6, 0, [])]))
  }

  predicate Loadable(file: seq<byte>, accepted: Identifier) {
    |file| > MINIMAL_SIZE && (file[..IDENTIFIER_SIZE] == accepted || file[..IDENTIFIER_SIZE] == WILDCARD)
  }

  // ----- The nodes in memory ----------------------------------------------------------------

  class Node {
    var typ: byte
    var propsBegin: nat
    var propsEnd: nat
    var children: seq<Node>

    constructor ()
      ensures children == [] && propsEnd == 0
    {
      typ, propsBegin, propsEnd, children := 0, 0, 0, [];
    }
  }

  /** The values of the nodes that are finished. */
  type Views = map<Node, PNode>

  ghost predicate AreViews(kids: seq<Node>, values: seq<PNode>, views: Views) {
    |kids| == |values| && forall j :: 0 <= j < |kids| ==> IsView(kids[j], values[j], views)
  }

  ghost predicate IsView(n: Node, value: PNode, views: Views) {
    n in views && views[n] == value
  }

  /** The fields of `n` are those of `value`, and `kids` are its children. */
  ghost predicate Holds(n: Node, value: PNode, kids: seq<Node>, views: Views)
    reads n
  {
    && n.typ == value.typ && n.propsBegin == value.propsBegin && n.propsEnd == value.propsEnd
    && AreViews(kids, value.children, views)
  }

  /** Every finished node holds, in its fields and through its children, exactly its value. */
  ghost predicate AllSettled(views: Views)
    reads views.Keys
  {
    forall n | n in views :: Holds(n, views[n], n.children, views)
  }

  /** A node on the stack below the top: its last child is the node above it. */
  ghost predicate Waiting(n: Node, above: Node, frame: PNode, views: Views)
    reads n
  {
    && |n.children| == |frame.children| + 1 && n.children[|frame.children|] == above
    && Holds(n, frame, n.children[..|frame.children|], views)
  }

  /** The pointers on the parse stack stand for `frames`. */
  ghost predicate Stacked(stack: seq<Node>, frames: seq<PNode>, views: Views)
    reads stack
  {
    && |stack| == |frames|
    && (forall i, j :: 0 <= i < j < |stack| ==> stack[i] != stack[j])
    && (forall i :: 0 <= i < |stack| ==> stack[i] !in views)
    && (forall i :: 0 <= i < |stack| - 1 ==> Waiting(stack[i], stack[i + 1], frames[i], views))
    && (stack != [] ==>
          var top := |stack| - 1; Holds(stack[top], frames[top], stack[top].children, views))
  }

  lemma ViewsGrow(n: Node, value: PNode, kids: seq<Node>, views: Views, done: Node, v: PNode)
    requires Holds(n, value, kids, views) && done !in views
    ensures Holds(n, value, kids, views[done := v])
  {
    forall j | 0 <= j < |kids| ensures IsView(kids[j], value.children[j], views[done := v]) {
      assert IsView(kids[j], value.children[j], views);
    }
  }

  /** Once the node above is finished, the node below it holds one child more. */
  lemma ParentHolds(parent: Node, child: Node, frame: PNode, v: PNode, views: Views)
    requires Waiting(parent, child, frame, views) && IsView(child, v, views)
    ensures Holds(parent, AddChild(frame, v), parent.children, views)
  {
    var k := |frame.children|;
    forall j | 0 <= j <= k ensures IsView(parent.children[j], AddChild(frame, v).children[j], views) {
      if j < k {
        assert parent.children[j] == parent.children[..k][j];
      }
    }
  }

  lemma NoKids(views: Views)
    ensures AreViews([], [], views)
  {
  }

  lemma BeginIs(stack: seq<PNode>, typ: byte, pos: nat)
    requires stack != []
    ensures var next := Begin(stack, typ, pos); var top := |stack| - 1;
            && next.Open? && |next.stack| == top + 2
            && (forall i :: 0 <= i < top ==> next.stack[i] == stack[i])
            && next.stack[top] == MarkProps(stack[top], pos) && next.stack[top + 1] == PNode(typ, pos + 2, 0, [])
  {
  }

  lemma FinishIs(stack: seq<PNode>, pos: nat)
    requires stack != []
    ensures var top := |stack| - 1; var next := Finish(stack, pos);
            if top == 0 then next == Closed(MarkProps(stack[top], pos)) else next.Open? && |next.stack| == top
  {
  }

  /** One step of the machine, from the position `it` of the file. */
  lemma RunAt(file: seq<byte>, it: nat, st: Parsing)
    requires it < |file| && (st.Open? ==> st.stack != [])
    ensures Run(file[it..], it, st) ==
            if file[it] == START then
              if st.Closed? || it + 1 == |file| then InvalidOtbFormat
              else Run(file[it + 2..], it + 2, Begin(st.stack, file[it + 1], it))
            else if file[it] == END then
              if st.Closed? then InvalidOtbFormat else Run(file[it + 1..], it + 1, Finish(st.stack, it))
            else if file[it] == ESCAPE then
              if it + 1 == |file| then InvalidOtbFormat else Run(file[it + 2..], it + 2, st)
            else Run(file[it + 1..], it + 1, st)
  {
    assert file[it..][1..] == file[it + 1..];
    assert it + 2 <= |file| ==> file[it..][2..] == file[it + 2..];
  }

  class Loader {
    const fileContents: seq<byte>
    const root: Node
    var propBuffer: seq<byte>
    /** The nodes that `ParseTree` has finished, and what they hold. */
    ghost var views: Views

    constructor (fileContents: seq<byte>)
      ensures this.fileContents == fileContents
      ensures fresh(root) && root.children == []
    {
      this.fileContents := fileContents;
      root := new Node();
      propBuffer := [];
      views := map[];
    }

    /** The checks that the loader makes before there is anything to parse. */
    static method Load(fileContents: seq<byte>, acceptedIdentifier: Identifier) returns (r: Result<Loader>)
      ensures r.Ok? <==> Loadable(fileContents, acceptedIdentifier)
      ensures r.Ok? <==> |fileContents| > 7 && (fileContents[..4] == acceptedIdentifier
                                                || fileContents[..4] == [0, 0, 0, 0])
      ensures r.Ok? ==> fresh(r.value) && fresh(r.value.root) && r.value.root.children == []
      ensures r.Ok? ==> r.value.fileContents == fileContents
    {
      if |fileContents| <= MINIMAL_SIZE {
        return InvalidOtbFormat;
      }
      var fileIdentifier := fileContents[..IDENTIFIER_SIZE];
      if fileIdentifier != acceptedIdentifier && fileIdentifier != WILDCARD {
        return InvalidOtbFormat;
      }
      var loader := new Loader(fileContents);
      return Ok(loader);
    }

    /** The current node gets a new last child, whose type is the byte at `it`. */
    method AppendChild(currentNode: Node, it: nat) returns (child: Node)
      requires 0 < it < |fileContents|
      modifies currentNode
      ensures fresh(child) && child.typ == fileContents[it] && child.propsBegin == it + 1
      ensures child.propsEnd == 0 && child.children == []
      ensures currentNode.typ == old(currentNode.typ) && currentNode.propsBegin == old(currentNode.propsBegin)
      ensures currentNode.propsEnd == if old(currentNode.children) == [] then it - 1 else old(currentNode.propsEnd)
      ensures currentNode.children == old(currentNode.children) + [child]
    {
      if currentNode.children == [] {
        currentNode.propsEnd := it - 1;
      }
      child := new Node();
      currentNode.children := currentNode.children + [child];
      child.typ, child.propsBegin := fileContents[it], it + 1;
    }

    /** A START at `it - 1`: the child is the new top of the stack. */
    method PushChild(parseStack: seq<Node>, it: nat, ghost frames: seq<PNode>) returns (child: Node)
      requires parseStack != [] && 0 < it < |fileContents|
      requires Stacked(parseStack, frames, views) && AllSettled(views)
      modifies parseStack[|parseStack| - 1]
      ensures fresh(child) && child.typ == fileContents[it]
      ensures Stacked(parseStack + [child], Begin(frames, child.typ, it - 1).stack, views)
      ensures AllSettled(views)
    {
      var currentNode := parseStack[|parseStack| - 1];
      ghost var kids := currentNode.children;
      child := AppendChild(currentNode, it);
      assert currentNode.children[..|kids|] == kids;
      forall n | n in views ensures Holds(n, views[n], n.children, views) {
        assert old(Holds(n, views[n], n.children, views));
      }
      ghost var stack', frames' := parseStack + [child], Begin(frames, child.typ, it - 1).stack;
      BeginIs(frames, child.typ, it - 1);
      hide Begin, AreViews;
      forall i | 0 <= i < |parseStack| ensures Waiting(stack'[i], stack'[i + 1], frames'[i], views) {
        if i < |parseStack| - 1 {
          assert old(Waiting(parseStack[i], parseStack[i + 1], frames[i], views));
        }
      }
      assert AreViews([], [], views) by { NoKids(views); }
    }

    /** An END at `it`: the current node is finished. */
    method EndCurrent(parseStack: seq<Node>, it: nat, ghost frames: seq<PNode>)
      requires parseStack != []
      requires Stacked(parseStack, frames, views) && AllSettled(views)
      modifies parseStack[|parseStack| - 1], this`views
      ensures var top := |parseStack| - 1;
              && views == old(views)[parseStack[top] := MarkProps(frames[top], it)]
              && Stacked(parseStack[..top], if top == 0 then [] else Finish(frames, it).stack, views)
      ensures AllSettled(views)
    {
      var currentNode := parseStack[|parseStack| - 1];
      if currentNode.children == [] {
        currentNode.propsEnd := it;
      }
      ghost var top, was, v := |frames| - 1, views, MarkProps(frames[|frames| - 1], it);
      views := views[currentNode := v];
      assert Holds(currentNode, v, currentNode.children, was);
      forall n | n in views ensures Holds(n, views[n], n.children, views) {
        ViewsGrow(n, views[n], n.children, was, currentNode, v);
      }
      forall i | 0 <= i < top ensures Waiting(parseStack[i], parseStack[i + 1], frames[i], views) {
        assert Waiting(parseStack[i], parseStack[i + 1], frames[i], was);
        ViewsGrow(parseStack[i], frames[i], parseStack[i].children[..|frames[i].children|], was, currentNode, v);
      }
      if top > 0 {
        ParentHolds(parseStack[top - 1], currentNode, frames[top - 1], v, views);
      }
    }

    method ParseTree() returns (r: Result<Node>)
      requires |fileContents| > MINIMAL_SIZE
      requires root.children == []
      modifies this`views, root
      ensures r.Ok? <==> Parse(fileContents).Ok?
      ensures r.Ok? ==> r.value == root && root in views && AllSettled(views)
      ensures r.Ok? ==> views[root] == Parse(fileContents).value
    {
      var it := IDENTIFIER_SIZE;
      if fileContents[it] != START {
        return InvalidOtbFormat;
      }
      it := it + 1;
      root.typ := fileContents[it];
      it := it + 1;
      root.propsBegin := it;
      root.propsEnd := 0;
      views := map[];
      r := ParseNodes(it, PNode(root.typ, it, 0, []));
    }

    /** Where the loop stands: the nodes on the stack and the finished ones are those of the machine, and the
        machine, going on from here, ends with `parsed`. */
    ghost predicate At(parseStack: seq<Node>, frames: seq<PNode>, it: nat, parsed: Result<PNode>)
      reads this, parseStack, views.Keys
    {
      && it <= |fileContents| && |frames| == |parseStack|
      && Stacked(parseStack, frames, views) && AllSettled(views)
      && (parseStack == [] ==> root in views)
      && (parseStack != [] ==> parseStack[0] == root)
      && parsed == Run(fileContents[it..], it, if parseStack == [] then Closed(views[root]) else Open(frames))
    }

    method OpenNode(parseStack: seq<Node>, it: nat, ghost frames: seq<PNode>, ghost parsed: Result<PNode>)
      returns (stack: seq<Node>, ghost next: seq<PNode>)
      requires At(parseStack, frames, it, parsed) && parseStack != []
      requires it + 1 < |fileContents| && fileContents[it] == START
      modifies parseStack[|parseStack| - 1]
      ensures At(stack, next, it + 2, parsed)
      ensures |stack| == |parseStack| + 1 && stack[..|parseStack|] == parseStack && fresh(stack[|parseStack|])
    {
      RunAt(fileContents, it, Open(frames));
      hide Run, Stacked, AllSettled, Begin;
      var child := PushChild(parseStack, it + 1, frames);
      BeginIs(frames, child.typ, it);
      stack, next := parseStack + [child], Begin(frames, child.typ, it).stack;
    }

    method CloseNode(parseStack: seq<Node>, it: nat, ghost frames: seq<PNode>, ghost parsed: Result<PNode>)
      returns (stack: seq<Node>, ghost next: seq<PNode>)
      requires At(parseStack, frames, it, parsed) && parseStack != []
      requires it < |fileContents| && fileContents[it] == END
      modifies parseStack[|parseStack| - 1], this`views
      ensures At(stack, next, it + 1, parsed) && stack == parseStack[..|parseStack| - 1]
    {
      RunAt(fileContents, it, Open(frames));
      hide Run, Stacked, AllSettled, Finish;
      EndCurrent(parseStack, it, frames);
      FinishIs(frames, it);
      stack := parseStack[..|parseStack| - 1];
      next := if stack == [] then [] else Finish(frames, it).stack;
    }

    /** Ordinary bytes and escaped ones are passed over; and where the machine stops in error. */
    lemma Passes(parseStack: seq<Node>, frames: seq<PNode>, it: nat, parsed: Result<PNode>)
      requires At(parseStack, frames, it, parsed)
      ensures it == |fileContents| ==> parsed == if parseStack == [] then Ok(views[root]) else InvalidOtbFormat
      ensures it < |fileContents| ==>
                var b := fileContents[it];
                && (b == START && (parseStack == [] || it + 1 == |fileContents|) ==> parsed == InvalidOtbFormat)
                && (b == END && parseStack == [] ==> parsed == InvalidOtbFormat)
                && (b == ESCAPE ==> if it + 1 == |fileContents| then parsed == InvalidOtbFormat
                                    else At(parseStack, frames, it + 2, parsed))
                && (b < ESCAPE ==> At(parseStack, frames, it + 1, parsed))
    {
      if it < |fileContents| {
        RunAt(fileContents, it, if parseStack == [] then Closed(views[root]) else Open(frames));
      }
    }

    /** The loop of `ParseTree`, from behind the root's type on. */
    method ParseNodes(begin: nat, ghost frame: PNode) returns (r: Result<Node>)
      requires begin <= |fileContents| && Stacked([root], [frame], views) && AllSettled(views)
      modifies this`views, root
      ensures var parsed := Run(fileContents[begin..], begin, Open([frame]));
              && (r.Ok? <==> parsed.Ok?)
              && (r.Ok? ==> r.value == root && root in views && AllSettled(views) && views[root] == parsed.value)
    {
      var it, parseStack := begin, [root];
      ghost var frames := [frame];
      ghost var parsed := Run(fileContents[begin..], begin, Open([frame]));
      hide Run, Stacked, AllSettled;
      while it < |fileContents|
        invariant At(parseStack, frames, it, parsed)
        invariant forall i :: 0 <= i < |parseStack| ==> parseStack[i] == root || fresh(parseStack[i])
      {
        Passes(parseStack, frames, it, parsed);
        if fileContents[it] == START {
          if parseStack == [] {
            return InvalidOtbFormat;
          }
          if it + 1 == |fileContents| {
            return InvalidOtbFormat;
          }
          parseStack, frames := OpenNode(parseStack, it, frames, parsed);
          it := it + 1;
        } else if fileContents[it] == END {
          if parseStack == [] {
            return InvalidOtbFormat;
          }
          parseStack, frames := CloseNode(parseStack, it, frames, parsed);
        } else if fileContents[it] == ESCAPE {
          it := it + 1;
          if it == |fileContents| {
            return InvalidOtbFormat;
          }
        }
        it := it + 1;
      }
      Passes(parseStack, frames, it, parsed);
      if parseStack != [] {
        return InvalidOtbFormat;
      }
      return Ok(root);
    }

    /** Copies a node's properties without their escapes; false, and nothing copied, when there are none. */
    method GetProps(node: Node, props: PropStream) returns (found: bool)
      requires node.propsBegin <= node.propsEnd <= |fileContents|
      modifies this`propBuffer, props
      ensures found <==> node.propsBegin < node.propsEnd
      ensures found ==> props.Valid() &&
                        props.Remaining() == Unescape(fileContents[node.propsBegin..node.propsEnd], false)
      ensures !found ==> unchanged(props)
    {
      var size := node.propsEnd - node.propsBegin;
      if size == 0 {
        return false;
      }
      var range := fileContents[node.propsBegin..node.propsEnd];
      propBuffer := [];
      var lastEscaped := false;
      var i := 0;
      while i < size
        invariant 0 <= i <= size
        invariant propBuffer + Unescape(range[i..], lastEscaped) == Unescape(range, false)
      {
        UnescapeAt(range, i, lastEscaped);
        lastEscaped := range[i] == ESCAPE && !lastEscaped;
        if !lastEscaped {
          propBuffer := propBuffer + [range[i]];
        }
        i := i + 1;
      }
      assert range[i..] == [];
      props.Init(propBuffer, |propBuffer|);
      return true;
    }
  }

  lemma UnescapeAt(s: seq<byte>, i: nat, escaped: bool)
    requires i < |s|
    ensures var now := s[i] == ESCAPE && !escaped;
            forall before: seq<byte> :: before + Unescape(s[i..], escaped)
              == (if now then before else before + [s[i]]) + Unescape(s[i + 1..], now)
  {
    assert s[i..][1..] == s[i + 1..];
  }
}

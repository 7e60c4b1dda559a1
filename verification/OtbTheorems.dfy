/** What the stack machine accepts and what it builds: exactly the documents of the grammar,
    and for each the tree that was written. */
module OtbTheorems {
  import opened Sequences
  import opened OtbFormat
  import opened OtbLoader

  // ----- Where the parts of a node lie ------------------------------------------------------

  /** The finished node for `c`, when the text of `c` begins at `pos`. */
  ghost function Layout(c: Cst, pos: nat): PNode
    decreases c, 1
  {
    var behind := pos + 2 + |c.props|;
    PNode(c.typ, pos + 2, behind, LayoutKids(c.kids, behind))
  }

  ghost function LayoutKids(kids: seq<Kid>, pos: nat): seq<PNode>
    decreases kids, 0
  {
    if kids == [] then []
    else [Layout(kids[0].node, pos)] +
         LayoutKids(kids[1..], pos + |Print(kids[0].node)| + |kids[0].junk|)
  }

  lemma {:induction false} LayoutKidsSnoc(kids: seq<Kid>, k: Kid, pos: nat)
    ensures LayoutKids(kids + [k], pos) == LayoutKids(kids, pos) + [Layout(k.node, pos + |PrintKids(kids)|)]
  {
    if kids == [] {
      assert kids + [k] == [k] && [k][1..] == [];
    } else {
      LayoutKidsSnoc(kids[1..], k, pos + |Print(kids[0].node)| + |kids[0].junk|);
      assert (kids + [k])[1..] == kids[1..] + [k];
    }
  }

  // ----- Every document is accepted ---------------------------------------------------------

  lemma {:induction false} RunTokens(t: seq<byte>, rest: seq<byte>, pos: nat, st: Parsing)
    requires Tokens(t) && (st.Open? ==> st.stack != [])
    ensures Run(t + rest, pos, st) == Run(rest, pos + |t|, st)
  {
    if t == [] {
      assert t + rest == rest;
    } else {
      var n := if t[0] == ESCAPE then 2 else 1;
      assert (t + rest)[n..] == t[n..] + rest;
      RunTokens(t[n..], rest, pos + n, st);
    }
  }

  /** The state after the node on top of `below` is finished as `node`. */
  ghost function Above(below: seq<PNode>, node: PNode): Parsing {
    if below == [] then Closed(node)
    else Open(below[|below| - 1 := AddChild(below[|below| - 1], node)])
  }

  /** From just behind a node's type to just behind its END. */
  lemma {:induction false} RunBody(c: Cst, rest: seq<byte>, pos: nat, below: seq<PNode>)
    requires Grammatical(c)
    ensures Run(c.props + PrintKids(c.kids) + [END] + rest, pos + 2, Open(below + [PNode(c.typ, pos + 2, 0, [])]))
            == Run(rest, pos + |Print(c)|, Above(below, Layout(c, pos)))
    decreases c, 1
  {
    var begun := PNode(c.typ, pos + 2, 0, []);
    var behind := pos + 2 + |c.props|;
    var kids := PrintKids(c.kids);
    Associative(c.props + kids, [END], rest);
    Associative(c.props, kids, [END] + rest);
    RunTokens(c.props, kids + ([END] + rest), pos + 2, Open(below + [begun]));
    RunKids(c.kids, [END] + rest, behind, below, begun);
    RunEnd(WithKids(begun, c.kids, behind), rest, behind + |kids|, below);
    BodyLayout(c, pos);
  }

  lemma RunEnd(node: PNode, rest: seq<byte>, pos: nat, below: seq<PNode>)
    ensures Run([END] + rest, pos, Open(below + [node])) == Run(rest, pos + 1, Above(below, MarkProps(node, pos)))
  {
    assert ([END] + rest)[1..] == rest;
    assert (below + [node])[..|below|] == below;
  }

  lemma BodyLayout(c: Cst, pos: nat)
    ensures var behind := pos + 2 + |c.props|;
            MarkProps(WithKids(PNode(c.typ, pos + 2, 0, []), c.kids, behind), behind + |PrintKids(c.kids)|)
            == Layout(c, pos)
  {
  }

  ghost function WithKids(n: PNode, kids: seq<Kid>, pos: nat): PNode {
    if kids == [] then n
    else MarkProps(n, pos).(children := n.children + LayoutKids(kids, pos))
  }

  lemma WithKidsStep(n: PNode, kids: seq<Kid>, pos: nat)
    requires kids != []
    ensures WithKids(AddChild(MarkProps(n, pos), Layout(kids[0].node, pos)), kids[1..],
                     pos + |Print(kids[0].node)| + |kids[0].junk|) == WithKids(n, kids, pos)
  {
    var node, next := Layout(kids[0].node, pos), pos + |Print(kids[0].node)| + |kids[0].junk|;
    assert n.children + LayoutKids(kids, pos) == n.children + [node] + LayoutKids(kids[1..], next);
  }

  lemma PrintKidsFirst(kids: seq<Kid>, rest: seq<byte>)
    requires kids != []
    ensures PrintKids(kids) + rest
            == Print(kids[0].node) + (kids[0].junk + (PrintKids(kids[1..]) + rest))
    ensures |PrintKids(kids)| == |Print(kids[0].node)| + |kids[0].junk| + |PrintKids(kids[1..])|
  {
    Associative(Print(kids[0].node) + kids[0].junk, PrintKids(kids[1..]), rest);
    Associative(Print(kids[0].node), kids[0].junk, PrintKids(kids[1..]) + rest);
  }

  lemma {:induction false} RunKids(kids: seq<Kid>, rest: seq<byte>, pos: nat, below: seq<PNode>, top: PNode)
    requires GrammaticalKids(kids)
    ensures Run(PrintKids(kids) + rest, pos, Open(below + [top]))
            == Run(rest, pos + |PrintKids(kids)|, Open(below + [WithKids(top, kids, pos)]))
    decreases kids, 0
  {
    hide Run, Layout, AddChild, MarkProps, Grammatical, Tokens;
    if kids == [] {
      assert PrintKids(kids) + rest == rest;
    } else {
      var c, junk, more := kids[0].node, kids[0].junk, PrintKids(kids[1..]);
      hide WithKids, Print, PrintKids;
      var one := AddChild(MarkProps(top, pos), Layout(c, pos));
      var next := pos + |Print(c)| + |junk|;
      PrintKidsFirst(kids, rest);
      RunKid(c, junk, more + rest, pos, below, top);
      RunKids(kids[1..], rest, next, below, one);
      WithKidsStep(top, kids, pos);
    }
  }

  lemma {:induction false} RunKid(c: Cst, junk: seq<byte>, rest: seq<byte>, pos: nat, below: seq<PNode>, top: PNode)
    requires Grammatical(c) && Tokens(junk)
    ensures Run(Print(c) + (junk + rest), pos, Open(below + [top]))
            == Run(rest, pos + |Print(c)| + |junk|,
                   Open(below + [AddChild(MarkProps(top, pos), Layout(c, pos))]))
    decreases c, 3
  {
    hide Run, Layout, AddChild, MarkProps, Print, Grammatical, Tokens;
    RunChild(c, junk + rest, pos, below, top);
    RunTokens(junk, rest, pos + |Print(c)|, Open(below + [AddChild(MarkProps(top, pos), Layout(c, pos))]));
  }

  lemma {:induction false} RunChild(c: Cst, rest: seq<byte>, pos: nat, below: seq<PNode>, top: PNode)
    requires Grammatical(c)
    ensures Run(Print(c) + rest, pos, Open(below + [top]))
            == Run(rest, pos + |Print(c)|, Open(below + [AddChild(MarkProps(top, pos), Layout(c, pos))]))
    decreases c, 2
  {
    var body := c.props + PrintKids(c.kids) + [END] + rest;
    var s := Print(c) + rest;
    assert s == [START, c.typ] + body;
    assert s[2..] == body;
    var marked := MarkProps(top, pos);
    assert (below + [top])[|below| := marked] == below + [marked];
    RunBody(c, rest, pos, below + [marked]);
    var one := AddChild(marked, Layout(c, pos));
    assert (below + [marked])[|below| := one] == below + [one];
  }

  // ----- Nothing else is accepted -----------------------------------------------------------

  /** A node whose END has not been read.  What comes after a child belongs to that child's junk. */
  datatype OpenCst = OpenCst(typ: byte, props: seq<byte>, kids: seq<Kid>)

  ghost function PrintOpen(o: OpenCst): seq<byte> {
    [START, o.typ] + o.props + PrintKids(o.kids)
  }

  ghost predicate GrammaticalOpen(o: OpenCst) {
    Tokens(o.props) && GrammaticalKids(o.kids)
  }

  ghost function PrintOpens(os: seq<OpenCst>): seq<byte> {
    if os == [] then [] else PrintOpens(os[..|os| - 1]) + PrintOpen(os[|os| - 1])
  }

  /** The frame for `o`: the end of its properties is known once a child has begun. */
  ghost function Frame(o: OpenCst, pos: nat, childBegan: bool): PNode {
    var behind := pos + 2 + |o.props|;
    PNode(o.typ, pos + 2, if childBegan || o.kids != [] then behind else 0, LayoutKids(o.kids, behind))
  }

  ghost function Frames(os: seq<OpenCst>, pos: nat): (fs: seq<PNode>)
    ensures |fs| == |os|
  {
    if os == [] then []
    else var n := |os| - 1;
         Frames(os[..n], pos) + [Frame(os[n], pos + |PrintOpens(os[..n])|, true)]
  }

  /** `o` with the token `t` read behind it. */
  ghost function AddToken(o: OpenCst, t: seq<byte>): OpenCst {
    if o.kids == [] then o.(props := o.props + t)
    else var n := |o.kids| - 1;
         o.(kids := o.kids[..n] + [Kid(o.kids[n].node, o.kids[n].junk + t)])
  }

  lemma AddTokenKeeps(o: OpenCst, t: seq<byte>, pos: nat)
    requires GrammaticalOpen(o) && Tokens(t)
    ensures GrammaticalOpen(AddToken(o, t)) && PrintOpen(AddToken(o, t)) == PrintOpen(o) + t
    ensures Frame(AddToken(o, t), pos, false) == Frame(o, pos, false)
  {
    if o.kids == [] {
      TokensConcat(o.props, t);
      assert PrintOpen(o) == [START, o.typ] + o.props;
      Associative([START, o.typ], o.props, t);
    } else {
      var n := |o.kids| - 1;
      assert o.kids == o.kids[..n] + [o.kids[n]];
      ExtendJunk(o.kids[..n], o.kids[n], t, pos + 2 + |o.props|);
      Associative([START, o.typ] + o.props, PrintKids(o.kids), t);
    }
  }

  lemma ExtendJunk(init: seq<Kid>, k: Kid, t: seq<byte>, pos: nat)
    requires GrammaticalKids(init + [k]) && Tokens(t)
    ensures var longer := init + [Kid(k.node, k.junk + t)];
            && GrammaticalKids(longer) && PrintKids(longer) == PrintKids(init + [k]) + t
            && LayoutKids(longer, pos) == LayoutKids(init + [k], pos)
  {
    var k' := Kid(k.node, k.junk + t);
    PrintKidsSnoc(init, k);
    TokensConcat(k.junk, t);
    PrintKidsSnoc(init, k');
    LayoutKidsSnoc(init, k, pos);
    LayoutKidsSnoc(init, k', pos);
  }

  /** `o` with its child `c` finished. */
  ghost function AddNode(o: OpenCst, c: Cst): OpenCst {
    o.(kids := o.kids + [Kid(c, [])])
  }

  lemma AddNodeKeeps(o: OpenCst, c: Cst, pos: nat)
    requires GrammaticalOpen(o) && Grammatical(c)
    ensures GrammaticalOpen(AddNode(o, c)) && PrintOpen(AddNode(o, c)) == PrintOpen(o) + Print(c)
    ensures Frame(AddNode(o, c), pos, false)
            == AddChild(Frame(o, pos, true), Layout(c, pos + |PrintOpen(o)|))
  {
    PrintKidsSnoc(o.kids, Kid(c, []));
    assert PrintKids(o.kids) + Print(c) + [] == PrintKids(o.kids) + Print(c);
    Associative([START, o.typ] + o.props, PrintKids(o.kids), Print(c));
    LayoutKidsSnoc(o.kids, Kid(c, []), pos + 2 + |o.props|);
  }

  /** Once the root is finished only tokens may follow. */
  lemma {:induction false} AcceptedTail(s: seq<byte>, pos: nat, root: PNode)
    ensures Run(s, pos, Closed(root)) == if Tokens(s) then Ok(root) else InvalidOtbFormat
  {
    if s != [] && s[0] <= ESCAPE && (s[0] == ESCAPE ==> |s| > 1) {
      var n := if s[0] == ESCAPE then 2 else 1;
      AcceptedTail(s[n..], pos + n, root);
    }
  }

  /** The text read so far and the frames that stand for it. */
  ghost predicate Reading(below: seq<OpenCst>, top: OpenCst, pos: nat) {
    && (forall o | o in below :: GrammaticalOpen(o)) && GrammaticalOpen(top)
    && pos == 4 + |PrintOpens(below)| + |PrintOpen(top)|
  }

  ghost function Stack(below: seq<OpenCst>, top: OpenCst): seq<PNode> {
    Frames(below, 4) + [Frame(top, 4 + |PrintOpens(below)|, false)]
  }

  ghost function Text(below: seq<OpenCst>, top: OpenCst): seq<byte> {
    PrintOpens(below) + PrintOpen(top)
  }

  lemma ReadStart(below: seq<OpenCst>, top: OpenCst, pos: nat, typ: byte)
    requires Reading(below, top, pos)
    ensures var child := OpenCst(typ, [], []);
            && Reading(below + [top], child, pos + 2)
            && Begin(Stack(below, top), typ, pos) == Open(Stack(below + [top], child))
            && Text(below + [top], child) == Text(below, top) + [START, typ]
  {
    assert (below + [top])[..|below|] == below;
    assert PrintOpen(OpenCst(typ, [], [])) == [START, typ];
    assert MarkProps(Frame(top, 4 + |PrintOpens(below)|, false), pos)
        == Frame(top, 4 + |PrintOpens(below)|, true);
  }

  lemma ReadToken(below: seq<OpenCst>, top: OpenCst, pos: nat, t: seq<byte>)
    requires Reading(below, top, pos) && Tokens(t)
    ensures var top' := AddToken(top, t);
            && Reading(below, top', pos + |t|)
            && Stack(below, top') == Stack(below, top)
            && Text(below, top') == Text(below, top) + t
  {
    AddTokenKeeps(top, t, 4 + |PrintOpens(below)|);
    Associative(PrintOpens(below), PrintOpen(top), t);
  }

  lemma ReadEnd(below: seq<OpenCst>, top: OpenCst, pos: nat)
    requires Reading(below, top, pos)
    ensures var c := Cst(top.typ, top.props, top.kids);
            && Grammatical(c) && Print(c) == PrintOpen(top) + [END]
            && MarkProps(Frame(top, 4 + |PrintOpens(below)|, false), pos) == Layout(c, 4 + |PrintOpens(below)|)
  {
  }

  lemma ReadChildEnd(below: seq<OpenCst>, top: OpenCst, pos: nat)
    requires Reading(below, top, pos) && below != []
    ensures var n := |below| - 1;
            var parent := AddNode(below[n], Cst(top.typ, top.props, top.kids));
            && Reading(below[..n], parent, pos + 1)
            && Finish(Stack(below, top), pos) == Open(Stack(below[..n], parent))
            && Text(below[..n], parent) == Text(below, top) + [END]
  {
    var n := |below| - 1;
    var c := Cst(top.typ, top.props, top.kids);
    ReadEnd(below, top, pos);
    AddNodeKeeps(below[n], c, 4 + |PrintOpens(below[..n])|);
    assert Stack(below, top)[..|below|] == Frames(below, 4);
    Associative(PrintOpens(below[..n]), PrintOpen(below[n]), Print(c));
    Associative(PrintOpens(below), PrintOpen(top), [END]);
  }

  lemma RootEnds(top: OpenCst, pos: nat)
    requires Reading([], top, pos)
    ensures var c := Cst(top.typ, top.props, top.kids);
            Grammatical(c) && Text([], top) + [END] == Print(c) && Finish(Stack([], top), pos) == Closed(Layout(c, 4))
  {
    ReadEnd([], top, pos);
    assert Text([], top) == PrintOpen(top);
  }

  lemma DocumentEnds(c: Cst, junk: seq<byte>)
    requires Grammatical(c) && Tokens(junk)
    ensures IsDocument(Print(c) + junk, c, junk)
  {
  }

  lemma {:induction false} AcceptedIsDocument(below: seq<OpenCst>, top: OpenCst, s: seq<byte>, pos: nat)
    returns (c: Cst, junk: seq<byte>)
    requires Reading(below, top, pos)
    requires Run(s, pos, Open(Stack(below, top))).Ok?
    ensures IsDocument(Text(below, top) + s, c, junk)
    decreases |s|
  {
    hide Reading, Stack, Text, Layout, IsDocument, Begin, Finish, Print, Grammatical;
    if s[0] == START {
      ReadStart(below, top, pos, s[1]);
      c, junk := AcceptedIsDocument(below + [top], OpenCst(s[1], [], []), s[2..], pos + 2);
      assert s == [START, s[1]] + s[2..];
      Associative(Text(below, top), [START, s[1]], s[2..]);
    } else if s[0] == END {
      assert s == [END] + s[1..];
      Associative(Text(below, top), [END], s[1..]);
      if below == [] {
        c, junk := Cst(top.typ, top.props, top.kids), s[1..];
        RootEnds(top, pos);
        AcceptedTail(junk, pos + 1, Layout(c, 4));
        DocumentEnds(c, junk);
      } else {
        ReadChildEnd(below, top, pos);
        var n := |below| - 1;
        c, junk := AcceptedIsDocument(
          below[..n], AddNode(below[n], Cst(top.typ, top.props, top.kids)), s[1..], pos + 1);
      }
    } else {
      var n := if s[0] == ESCAPE then 2 else 1;
      ReadToken(below, top, pos, s[..n]);
      c, junk := AcceptedIsDocument(below, AddToken(top, s[..n]), s[n..], pos + n);
      assert s == s[..n] + s[n..];
      Associative(Text(below, top), s[..n], s[n..]);
    }
  }

  // ----- The loader accepts exactly the grammar ---------------------------------------------

  lemma DocumentIsParsed(file: seq<byte>, c: Cst, junk: seq<byte>)
    requires |file| > MINIMAL_SIZE && IsDocument(file[4..], c, junk)
    ensures Parse(file) == Ok(Layout(c, 4))
  {
    var body := c.props + PrintKids(c.kids) + [END] + junk;
    assert file[4..] == [START, c.typ] + body;
    assert file[4] == file[4..][0] && file[5] == file[4..][1];
    assert file[6..] == file[4..][2..] == body;
    RunBody(c, junk, 4, []);
    assert [] + [PNode(c.typ, 6, 0, [])] == [PNode(c.typ, 6, 0, [])];
    AcceptedTail(junk, 4 + |Print(c)|, Layout(c, 4));
  }

  lemma ParsedIsDocument(file: seq<byte>) returns (c: Cst, junk: seq<byte>)
    requires |file| > MINIMAL_SIZE && Parse(file).Ok?
    ensures IsDocument(file[4..], c, junk) && Parse(file).value == Layout(c, 4)
  {
    var root := OpenCst(file[5], [], []);
    assert Stack([], root) == [PNode(file[5], 6, 0, [])];
    c, junk := AcceptedIsDocument([], root, file[6..], 6);
    assert file[4..] == Text([], root) + file[6..];
    DocumentIsParsed(file, c, junk);
  }

  /** The parser accepts a file if and only if, behind its identifier, it is a document; and
      there is only one way in which it is one. */
  lemma AcceptsExactlyTheGrammar(file: seq<byte>)
    requires |file| > MINIMAL_SIZE
    ensures Parse(file).Ok? <==> exists c, junk :: IsDocument(file[4..], c, junk)
    ensures forall c, junk, d, more | IsDocument(file[4..], c, junk) && IsDocument(file[4..], d, more) ::
              c == d && junk == more
  {
    if Parse(file).Ok? {
      var c, junk := ParsedIsDocument(file);
    }
    forall c, junk, d, more | IsDocument(file[4..], c, junk) && IsDocument(file[4..], d, more)
      ensures c == d && junk == more
    {
      PrintIsPrefixFree(c, junk, d, more);
    }
    if c, junk :| IsDocument(file[4..], c, junk) {
      DocumentIsParsed(file, c, junk);
    }
  }

  // ----- What the nodes hold ----------------------------------------------------------------

  /** `p` is, within `file`, the node `c`: its range is exactly the property bytes of `c`. */
  ghost predicate Denotes(file: seq<byte>, p: PNode, c: Cst)
    decreases c, 1
  {
    && p.typ == c.typ
    && p.propsBegin <= p.propsEnd <= |file| && file[p.propsBegin..p.propsEnd] == c.props
    && DenoteKids(file, p.children, c.kids)
  }

  ghost predicate DenoteKids(file: seq<byte>, ps: seq<PNode>, kids: seq<Kid>)
    decreases kids, 0
  {
    && |ps| == |kids|
    && (kids != [] ==> Denotes(file, ps[0], kids[0].node) && DenoteKids(file, ps[1..], kids[1..]))
  }

  lemma {:induction false} LayoutDenotes(before: seq<byte>, c: Cst, rest: seq<byte>)
    ensures Denotes(before + Print(c) + rest, Layout(c, |before|), c)
    decreases c, 1
  {
    var file := before + Print(c) + rest;
    var front := before + [START, c.typ];
    assert file == front + c.props + PrintKids(c.kids) + ([END] + rest);
    assert file[|front|..|front| + |c.props|] == c.props;
    KidsLayoutDenotes(front + c.props, c.kids, [END] + rest);
  }

  lemma {:induction false} KidsLayoutDenotes(before: seq<byte>, kids: seq<Kid>, rest: seq<byte>)
    ensures DenoteKids(before + PrintKids(kids) + rest, LayoutKids(kids, |before|), kids)
    decreases kids, 0
  {
    if kids != [] {
      var c, junk, more := kids[0].node, kids[0].junk, PrintKids(kids[1..]);
      KidsAround(before, Print(c), junk, more, rest);
      LayoutDenotes(before, c, junk + more + rest);
      KidsLayoutDenotes(before + Print(c) + junk, kids[1..], rest);
      assert LayoutKids(kids, |before|)[1..] == LayoutKids(kids[1..], |before + Print(c) + junk|);
    }
  }

  lemma KidsAround(before: seq<byte>, node: seq<byte>, junk: seq<byte>, more: seq<byte>, rest: seq<byte>)
    ensures before + (node + junk + more) + rest == before + node + (junk + more + rest)
    ensures before + (node + junk + more) + rest == before + node + junk + more + rest
  {
  }

  /** Every range of the tree lies in the file and ends where a token ends. */
  ghost predicate RangesAreTokens(file: seq<byte>, p: PNode) {
    && p.propsBegin <= p.propsEnd <= |file| && Tokens(file[p.propsBegin..p.propsEnd])
    && forall q | q in p.children :: RangesAreTokens(file, q)
  }

  lemma {:induction false} DenotedRanges(file: seq<byte>, p: PNode, c: Cst)
    requires Denotes(file, p, c) && Grammatical(c)
    ensures RangesAreTokens(file, p)
    decreases c, 1
  {
    DenotedKidsRanges(file, p.children, c.kids);
  }

  lemma {:induction false} DenotedKidsRanges(file: seq<byte>, ps: seq<PNode>, kids: seq<Kid>)
    requires DenoteKids(file, ps, kids) && GrammaticalKids(kids)
    ensures forall q | q in ps :: RangesAreTokens(file, q)
    decreases kids, 0
  {
    if kids != [] {
      DenotedRanges(file, ps[0], kids[0].node);
      DenotedKidsRanges(file, ps[1..], kids[1..]);
      assert ps == [ps[0]] + ps[1..];
    }
  }

  /** In whatever file is accepted, no property range splits a token or holds a bare marker. */
  lemma AcceptedRangesAreTokens(file: seq<byte>)
    requires |file| > MINIMAL_SIZE && Parse(file).Ok?
    ensures RangesAreTokens(file, Parse(file).value)
  {
    var c, junk := ParsedIsDocument(file);
    hide Print, Layout, Denotes, RangesAreTokens, Parse, Grammatical, Tokens;
    assert file == file[..4] + file[4..];
    Associative(file[..4], Print(c), junk);
    LayoutDenotes(file[..4], c, junk);
    DenotedRanges(file, Layout(c, 4), c);
  }

  // ----- Writing, then loading --------------------------------------------------------------

  /** The tree that a reader recovers: each node's type, and its properties as `GetProps` gives them. */
  ghost predicate Recovers(file: seq<byte>, p: PNode, t: Tree)
    decreases t, 1
  {
    && p.typ == t.typ
    && p.propsBegin <= p.propsEnd <= |file|
    && Unescape(file[p.propsBegin..p.propsEnd], false) == t.props
    && (p.propsBegin == p.propsEnd <==> t.props == [])
    && RecoverAll(file, p.children, t.children)
  }

  ghost predicate RecoverAll(file: seq<byte>, ps: seq<PNode>, ts: seq<Tree>)
    decreases ts, 0
  {
    && |ps| == |ts|
    && (ts != [] ==> Recovers(file, ps[0], ts[0]) && RecoverAll(file, ps[1..], ts[1..]))
  }

  lemma {:induction false} DenotedTree(file: seq<byte>, p: PNode, t: Tree)
    requires Denotes(file, p, TreeCst(t))
    ensures Recovers(file, p, t)
    decreases t, 1
  {
    UnescapeEscape(t.props);
    EscapeIsTokens(t.props);
    assert t.props == [] ==> Escape(t.props) == [];
    DenotedTrees(file, p.children, t.children);
  }

  lemma {:induction false} DenotedTrees(file: seq<byte>, ps: seq<PNode>, ts: seq<Tree>)
    requires DenoteKids(file, ps, TreeKids(ts))
    ensures RecoverAll(file, ps, ts)
    decreases ts, 0
  {
    if ts != [] {
      assert TreeKids(ts)[1..] == TreeKids(ts[1..]);
      DenotedTree(file, ps[0], ts[0]);
      DenotedTrees(file, ps[1..], ts[1..]);
    }
  }

  /** Loading undoes writing, for every tree; only a file of a bare root without properties is
      too short to be loaded. */
  lemma LoadUndoesWrite(id: Identifier, t: Tree)
    ensures var file := id + Serialize(t);
            && (Loadable(file, id) <==> t.props != [] || t.children != [])
            && (Loadable(file, id) ==> Parse(file).Ok? && Recovers(file, Parse(file).value, t))
  {
    var file := id + Serialize(t);
    assert file[..4] == id && file[4..] == Serialize(t);
    SerializeIsGrammatical(t);
    EscapeIsTokens(t.props);
    assert t.children != [] ==> |Serialize(t.children[0])| >= 3;
    if |file| > MINIMAL_SIZE {
      assert Serialize(t) == Serialize(t) + [];
      DocumentIsParsed(file, TreeCst(t), []);
      assert file == id + Serialize(t) + [];
      LayoutDenotes(id, TreeCst(t), []);
      DenotedTree(file, Layout(TreeCst(t), 4), t);
    }
  }

  /** A written file that is cut short anywhere is rejected. */
  lemma CutFileIsRejected(id: Identifier, t: Tree, k: nat)
    requires MINIMAL_SIZE < k < |id + Serialize(t)|
    ensures Parse((id + Serialize(t))[..k]) == InvalidOtbFormat
  {
    var whole := id + Serialize(t);
    var file, cut := whole[..k], whole[k..];
    if Parse(file).Ok? {
      var c, junk := ParsedIsDocument(file);
      SerializeIsGrammatical(t);
      assert whole[4..] == Serialize(t) && whole[4..] == file[4..] + cut;
      Associative(Print(c), junk, cut);
      assert Serialize(t) == Serialize(t) + [];
      PrintIsPrefixFree(c, junk + cut, TreeCst(t), []);
    }
  }
}

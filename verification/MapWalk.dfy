/** A client of the streaming reader that walks a whole node tree, and the proof that it sees
    what the loader sees. */
module MapWalk {
  import opened Basics
  import opened Sequences
  import opened OtbFormat
  import opened PropStreams
  import opened FileStreams
  import opened OtbLoader
  import opened OtbTheorems

  /** How wide the fields are that a client reads in each node. */
  datatype Plan = Plan(widths: seq<nat>, children: seq<Plan>)

  /** What the client saw: in each node the type and the numbers read. */
  datatype Seen = Seen(typ: byte, values: seq<nat>, children: seq<Seen>)

  function Sum(widths: seq<nat>): nat {
    if widths == [] then 0 else widths[0] + Sum(widths[1..])
  }

  /** The bytes that the numbers stand for, little end first. */
  function Bytes(widths: seq<nat>, values: seq<nat>): seq<byte>
    requires |widths| == |values|
  {
    if widths == [] then []
    else var n := |widths| - 1;
         Bytes(widths[..n], values[..n]) + LittleEndian(widths[n], values[n])
  }

  /** The plan reads fields of one, two, four or eight bytes and, in each node, all the properties. */
  ghost predicate Fits(plan: Plan, t: Tree)
    decreases t
  {
    && (forall w | w in plan.widths :: w in {1, 2, 4, 8})
    && Sum(plan.widths) == |t.props|
    && |plan.children| == |t.children|
    && forall k :: 0 <= k < |t.children| ==> Fits(plan.children[k], t.children[k])
  }

  /** No node has the type 0xFD. */
  ghost predicate PlainTypes(t: Tree) {
    t.typ != ESCAPE && forall c | c in t.children :: PlainTypes(c)
  }

  ghost predicate Sees(seen: Seen, plan: Plan, t: Tree)
    decreases t
  {
    && seen.typ == t.typ
    && |seen.values| == |plan.widths| && Bytes(plan.widths, seen.values) == t.props
    && |seen.children| == |plan.children| == |t.children|
    && forall k :: 0 <= k < |t.children| ==> Sees(seen.children[k], plan.children[k], t.children[k])
  }

  lemma {:induction false} BytesOfNumber(a: seq<byte>)
    ensures LittleEndian(|a|, FromLittleEndian(a)) == a
  {
    if a != [] {
      var rest := FromLittleEndian(a[1..]);
      BytesOfNumber(a[1..]);
      FirstByte(|a| - 1, a[0], rest);
      hide LittleEndian;
      assert a == [a[0]] + a[1..];
    }
  }

  lemma FirstByte(width: nat, b: byte, rest: nat)
    ensures LittleEndian(width + 1, b as nat + 256 * rest) == [b] + LittleEndian(width, rest)
  {
    LowDigit(b as nat, rest);
  }

  lemma LowDigit(digit: nat, rest: nat)
    requires digit < 256
    ensures (digit + 256 * rest) % 256 == digit && (digit + 256 * rest) / 256 == rest
  {
  }

  lemma BytesSnoc(widths: seq<nat>, values: seq<nat>, a: seq<byte>)
    requires |widths| == |values| + 1 && widths[|values|] == |a|
    ensures Bytes(widths, values + [FromLittleEndian(a)]) == Bytes(widths[..|values|], values) + a
  {
    BytesOfNumber(a);
    assert (values + [FromLittleEndian(a)])[..|values|] == values;
  }

  /** From `pos` on, the data is `s`. */
  ghost predicate Holds(data: seq<byte>, pos: nat, s: seq<byte>) {
    |data| == pos + |s| && forall k :: 0 <= k < |s| ==> data[pos + k] == s[k]
  }

  lemma HoldsIsSuffix(data: seq<byte>, pos: nat, s: seq<byte>)
    ensures Holds(data, pos, s) <==> pos <= |data| && data[pos..] == s
  {
    if pos <= |data| && data[pos..] == s {
      assert forall k :: 0 <= k < |s| ==> data[pos..][k] == s[k];
    }
  }

  /** What is still to be read is `s`. */
  ghost predicate Ahead(f: FileStream, s: seq<byte>)
    reads f
  {
    Holds(f.m_data, f.m_pos, s)
  }

  lemma AheadByte(f: FileStream, b: byte, s: seq<byte>)
    requires f.Valid() && Ahead(f, [b] + s)
    ensures f.m_pos < |f.m_data| && f.m_data[f.m_pos] == b && Holds(f.m_data, f.m_pos + 1, s)
    ensures b != ESCAPE ==> FetchU8(f.m_data, f.m_pos, f.m_nodes > 0) == Fetched([b], f.m_pos + 1)
  {
    HoldsBehind(f.m_data, f.m_pos, [b], s);
    assert ([b] + s)[0] == b;
  }

  lemma HoldsBehind(data: seq<byte>, pos: nat, x: seq<byte>, y: seq<byte>)
    requires Holds(data, pos, x + y)
    ensures Holds(data, pos + |x|, y)
  {
    forall k | 0 <= k < |y| ensures data[pos + |x| + k] == y[k] {
      assert (x + y)[|x| + k] == y[k];
    }
  }

  lemma EscapedAt(data: seq<byte>, pos: nat, a: seq<byte>, s: seq<byte>)
    requires Holds(data, pos, Escape(a) + s)
    ensures pos + |a| <= |data| && ReadEscaped(data, pos, |a|) == Fetched(a, pos + |Escape(a)|)
    ensures Holds(data, pos + |Escape(a)|, s)
  {
    hide Escape, Tokens, ReadEscaped;
    HoldsBehind(data, pos, Escape(a), s);
    HoldsIsSuffix(data, pos, Escape(a) + s);
    hide Holds;
    var before := data[..pos];
    assert data == before + (Escape(a) + s);
    Associative(before, Escape(a), s);
    EscapeIsTokens(a);
    ReadEscapedOfEscaped(before, a, s);
  }

  lemma AheadEscaped(f: FileStream, a: seq<byte>, s: seq<byte>)
    requires f.m_nodes > 0 && a != [] && Ahead(f, Escape(a) + s)
    ensures f.Next(|a|) == Fetched(a, f.m_pos + |Escape(a)|)
    ensures Holds(f.m_data, f.m_pos + |Escape(a)|, s)
  {
    hide Escape, ReadEscaped, Holds;
    EscapedAt(f.m_data, f.m_pos, a, s);
  }

  /** One byte is read by the reader's special case for it. */
  lemma AheadU8(f: FileStream, a: seq<byte>, s: seq<byte>)
    requires f.Valid() && f.m_nodes > 0 && |a| == 1 && Ahead(f, Escape(a) + s)
    ensures FetchU8(f.m_data, f.m_pos, true) == Fetched(a, f.m_pos + |Escape(a)|)
    ensures FromLittleEndian(a) == a[0] as nat
  {
    AheadEscaped(f, a, s);
    FetchU8LeavesIff(f.m_data, f.m_pos, true);
    hide Holds, Escape, FetchU8;
    assert a[1..] == [];
  }

  lemma EscapedPieces(a: seq<byte>, b: seq<byte>, rest: seq<byte>)
    ensures Escape(a + b) + rest == Escape(a) + (Escape(b) + rest)
  {
    EscapeConcat(a, b);
    Associative(Escape(a), Escape(b), rest);
  }

  /** Reads one field, of `w` bytes. */
  method ReadField(f: FileStream, w: nat, ghost a: seq<byte>, ghost rest: seq<byte>) returns (v: nat)
    requires f.Valid() && f.m_nodes > 0
    requires w > 0 && |a| == w && Ahead(f, Escape(a) + rest)
    modifies f`m_pos, f`outside
    ensures f.Valid() && Ahead(f, rest) && f.m_pos >= old(f.m_pos)
    ensures v == FromLittleEndian(a)
  {
    hide Escape, Holds, Fetch, FetchU8, FromLittleEndian;
    AheadEscaped(f, a, rest);
    if w == 1 {
      AheadU8(f, a, rest);
      var b := f.GetU8();
      v := b as nat;
    } else {
      v := f.GetNumber(w);
    }
  }

  /** Reads a node's fields. */
  method ReadFields(f: FileStream, widths: seq<nat>, ghost props: seq<byte>, ghost rest: seq<byte>)
    returns (values: seq<nat>)
    requires f.Valid() && f.m_nodes > 0
    requires (forall w | w in widths :: w in {1, 2, 4, 8}) && Sum(widths) == |props|
    requires Ahead(f, Escape(props) + rest)
    modifies f`m_pos, f`outside
    ensures f.Valid() && Ahead(f, rest)
    ensures |values| == |widths| && Bytes(widths, values) == props
    ensures f.m_pos >= old(f.m_pos)
  {
    values := [];
    ghost var done: seq<byte>, left := [], props;
    var i := 0;
    while i < |widths|
      invariant 0 <= i <= |widths| && |values| == i
      invariant f.Valid() && f.m_pos >= old(f.m_pos) && Ahead(f, Escape(left) + rest)
      invariant done + left == props && Sum(widths[i..]) == |left|
      invariant Bytes(widths[..i], values) == done
    {
      var w := widths[i];
      assert w in widths && widths[i..][1..] == widths[i + 1..];
      ghost var a, b := left[..w], left[w..];
      assert left == a + b;
      EscapedPieces(a, b, rest);
      var v := ReadField(f, w, a, Escape(b) + rest);
      BytesSnoc(widths[..i + 1], values, a);
      assert widths[..i + 1][..i] == widths[..i];
      values := values + [v];
      Associative(done, a, b);
      done, left := done + a, b;
      i := i + 1;
    }
    assert widths[..i] == widths && left == [] && done + [] == done;
    assert Escape(left) + rest == rest;
  }

  /** A node's text from just behind its START, and what follows it. */
  ghost function Body(t: Tree, rest: seq<byte>): seq<byte> {
    [t.typ] + (Escape(t.props) + (SerializeAll(t.children) + ([END] + rest)))
  }

  lemma NodeParts(t: Tree, rest: seq<byte>)
    ensures Serialize(t) + rest == [START] + Body(t, rest)
  {
  }

  /** What there is to read once the child at `i` has been entered, or found not to be there. */
  ghost function AtChild(ts: seq<Tree>, i: nat, rest: seq<byte>): seq<byte> {
    if i < |ts| then Body(ts[i], SerializeAll(ts[i + 1..]) + rest) else rest
  }

  lemma NoMoreChildren(ts: seq<Tree>, rest: seq<byte>)
    ensures AtChild(ts, |ts|, rest) == rest
  {
  }

  lemma NextChild(ts: seq<Tree>, i: nat, rest: seq<byte>)
    requires i <= |ts|
    ensures SerializeAll(ts[i..]) + rest
            == if i < |ts| then [START] + AtChild(ts, i, rest) else rest
  {
    if i < |ts| {
      assert ts[i..][1..] == ts[i + 1..];
      Associative(Serialize(ts[i]), SerializeAll(ts[i + 1..]), rest);
      NodeParts(ts[i], SerializeAll(ts[i + 1..]) + rest);
    }
  }

  /** From just behind a node's START to just behind its END. */
  method WalkNode(f: FileStream, plan: Plan, ghost t: Tree, ghost rest: seq<byte>) returns (seen: Seen)
    requires f.Valid() && 0 < f.m_nodes && f.m_nodes + |f.m_data| < U32 + f.m_pos
    requires Fits(plan, t) && PlainTypes(t)
    requires Ahead(f, Body(t, rest))
    modifies f`m_pos, f`m_nodes, f`outside
    ensures f.Valid() && Ahead(f, rest) && f.m_pos > old(f.m_pos)
    ensures f.m_nodes == old(f.m_nodes) - 1
    ensures Sees(seen, plan, t)
    decreases plan, 1
  {
    ghost var behind := SerializeAll(t.children) + ([END] + rest);
    AheadByte(f, t.typ, Escape(t.props) + behind);
    var typ := f.GetU8();
    var values := ReadFields(f, plan.widths, t.props, behind);
    assert t.children[0..] == t.children;
    var children := WalkChildren(f, plan.children, t.children, [END] + rest);
    AheadByte(f, END, rest);
    var ended := f.EndNode();
    seen := Seen(typ, values, children);
  }

  /** The children of a node, up to its END. */
  method WalkChildren(f: FileStream, plans: seq<Plan>, ghost ts: seq<Tree>, ghost rest: seq<byte>)
    returns (children: seq<Seen>)
    requires f.Valid() && 0 < f.m_nodes && f.m_nodes + |f.m_data| < U32 + f.m_pos
    requires |plans| == |ts| && forall k :: 0 <= k < |ts| ==> Fits(plans[k], ts[k]) && PlainTypes(ts[k])
    requires rest != [] && rest[0] == END && Ahead(f, SerializeAll(ts[0..]) + rest)
    modifies f`m_pos, f`m_nodes, f`outside
    ensures f.Valid() && Ahead(f, rest) && f.m_pos >= old(f.m_pos)
    ensures f.m_nodes == old(f.m_nodes)
    ensures |children| == |ts| && forall k :: 0 <= k < |ts| ==> Sees(children[k], plans[k], ts[k])
    decreases plans, 0
  {
    hide AtChild, Holds, Sees, Fits, PlainTypes;
    children := [];
    var more := EnterChild(f, ts, 0, rest);
    while more
      invariant f.Valid() && |children| <= |ts| && (more <==> |children| < |ts|)
      invariant f.m_pos >= old(f.m_pos)
      invariant f.m_nodes == old(f.m_nodes) + if more then 1 else 0
      invariant f.m_nodes + |f.m_data| < U32 + f.m_pos
      invariant Ahead(f, AtChild(ts, |children|, rest))
      invariant forall k :: 0 <= k < |children| ==> Sees(children[k], plans[k], ts[k])
      decreases |ts| - |children|
    {
      var child;
      child, more := WalkOne(f, plans[|children|], ts, |children|, rest);
      children := children + [child];
    }
    NoMoreChildren(ts, rest);
  }

  /** The child at `i`, and the look for the next one. */
  method WalkOne(f: FileStream, plan: Plan, ghost ts: seq<Tree>, ghost i: nat, ghost rest: seq<byte>)
    returns (child: Seen, more: bool)
    requires f.Valid() && 0 < f.m_nodes && f.m_nodes + |f.m_data| < U32 + f.m_pos
    requires i < |ts| && Fits(plan, ts[i]) && PlainTypes(ts[i])
    requires rest != [] && rest[0] == END && Ahead(f, AtChild(ts, i, rest))
    modifies f`m_pos, f`m_nodes, f`outside
    ensures f.Valid() && f.m_pos >= old(f.m_pos) && f.m_nodes + |f.m_data| < U32 + f.m_pos
    ensures more <==> i + 1 < |ts|
    ensures f.m_nodes == if more then old(f.m_nodes) else old(f.m_nodes) - 1
    ensures Ahead(f, AtChild(ts, i + 1, rest))
    ensures Sees(child, plan, ts[i])
    decreases plan, 2
  {
    child := WalkNode(f, plan, ts[i], SerializeAll(ts[i + 1..]) + rest);
    more := EnterChild(f, ts, i + 1, rest);
  }

  /** With an ordinary byte ahead a node is entered at a START, and otherwise nothing moves. */
  method EnterNode(f: FileStream, ghost b: byte) returns (started: bool)
    requires f.Valid() && f.m_pos + 1 < U32
    requires FetchU8(f.m_data, f.m_pos, f.m_nodes > 0) == Fetched([b], f.m_pos + 1)
    modifies f`m_pos, f`m_nodes, f`outside
    ensures f.Valid() && (started <==> b == START)
    ensures f.m_pos == old(f.m_pos) + if started then 1 else 0
    ensures f.m_nodes == if started then Plus32(old(f.m_nodes), 1) else old(f.m_nodes)
  {
    hide FetchU8;
    started := f.StartNode(0);
  }

  /** At the place where the child at `i` would begin: an END, or the START in front of the child. */
  lemma ChildAhead(f: FileStream, ts: seq<Tree>, i: nat, rest: seq<byte>) returns (marker: byte)
    requires f.Valid() && i <= |ts| && rest != [] && rest[0] == END
    requires Ahead(f, SerializeAll(ts[i..]) + rest)
    ensures f.m_pos < |f.m_data| && (marker == START <==> i < |ts|)
    ensures FetchU8(f.m_data, f.m_pos, f.m_nodes > 0) == Fetched([marker], f.m_pos + 1)
    ensures Holds(f.m_data, f.m_pos + if marker == START then 1 else 0, AtChild(ts, i, rest))
  {
    hide FetchU8, Holds, Serialize, SerializeAll, Body, AtChild;
    NextChild(ts, i, rest);
    marker := if i < |ts| then START else END;
    assert rest == [END] + rest[1..];
    AheadByte(f, marker, if i < |ts| then AtChild(ts, i, rest) else rest[1..]);
    if i == |ts| {
      NoMoreChildren(ts, rest);
    }
  }

  /** At that place: enters the child if there is one, and only then. */
  method EnterChild(f: FileStream, ghost ts: seq<Tree>, ghost i: nat, ghost rest: seq<byte>) returns (more: bool)
    requires f.Valid() && f.m_nodes + |f.m_data| < U32 + f.m_pos
    requires i <= |ts| && rest != [] && rest[0] == END
    requires Ahead(f, SerializeAll(ts[i..]) + rest)
    modifies f`m_pos, f`m_nodes, f`outside
    ensures f.Valid() && f.m_pos >= old(f.m_pos) && f.m_nodes + |f.m_data| < U32 + f.m_pos
    ensures more <==> i < |ts|
    ensures f.m_nodes == old(f.m_nodes) + if more then 1 else 0
    ensures Ahead(f, AtChild(ts, i, rest))
  {
    ghost var marker := ChildAhead(f, ts, i, rest);
    hide FetchU8, Holds, Serialize, SerializeAll, Body, AtChild;
    more := EnterNode(f, marker);
  }

  /** Walks the whole tree written at the position of `f`. */
  method Walk(f: FileStream, plan: Plan, ghost t: Tree, ghost rest: seq<byte>) returns (seen: Seen)
    requires f.Valid() && f.m_nodes + |f.m_data| < U32 + f.m_pos
    requires Fits(plan, t) && PlainTypes(t)
    requires Ahead(f, Serialize(t) + rest)
    modifies f`m_pos, f`m_nodes, f`outside
    ensures f.Valid() && Ahead(f, rest)
    ensures f.m_nodes == old(f.m_nodes)
    ensures Sees(seen, plan, t)
  {
    NodeParts(t, rest);
    AheadByte(f, START, Body(t, rest));
    var started := f.StartNode(0);
    seen := WalkNode(f, plan, t, rest);
  }

  // ----- The two readers agree --------------------------------------------------------------

  /** What the walk saw is what the loader holds: the same types, and numbers whose bytes are the
      properties that `GetProps` copies out. */
  ghost predicate Agree(file: seq<byte>, p: PNode, plan: Plan, seen: Seen)
    decreases p
  {
    && seen.typ == p.typ
    && p.propsBegin <= p.propsEnd <= |file|
    && |seen.values| == |plan.widths|
    && Bytes(plan.widths, seen.values) == Unescape(file[p.propsBegin..p.propsEnd], false)
    && |seen.children| == |plan.children| == |p.children|
    && forall k :: 0 <= k < |p.children| ==> Agree(file, p.children[k], plan.children[k], seen.children[k])
  }

  lemma {:induction false} RecoverEach(file: seq<byte>, ps: seq<PNode>, ts: seq<Tree>)
    requires RecoverAll(file, ps, ts)
    ensures forall k :: 0 <= k < |ts| ==> Recovers(file, ps[k], ts[k])
    decreases ts, 0
  {
    if ts != [] {
      RecoverEach(file, ps[1..], ts[1..]);
      assert forall k :: 0 < k < |ts| ==> ps[k] == ps[1..][k - 1] && ts[k] == ts[1..][k - 1];
    }
  }

  lemma {:induction false} SeesAgrees(file: seq<byte>, p: PNode, t: Tree, plan: Plan, seen: Seen)
    requires Sees(seen, plan, t) && Recovers(file, p, t)
    ensures Agree(file, p, plan, seen)
    decreases t
  {
    RecoverEach(file, p.children, t.children);
    forall k | 0 <= k < |p.children| ensures Agree(file, p.children[k], plan.children[k], seen.children[k]) {
      SeesAgrees(file, p.children[k], t.children[k], plan.children[k], seen.children[k]);
    }
  }

  /** Loads a written file with the loader and walks it with the streaming reader. */
  method ReadBoth(file: seq<byte>, id: Identifier, plan: Plan, ghost t: Tree)
    returns (r: Result<Node>, seen: Seen, ghost value: PNode)
    requires file == id + Serialize(t) && Loadable(file, id) && |file| < U32
    requires Fits(plan, t) && PlainTypes(t)
    ensures r.Ok? && Parse(file) == Ok(value)
    ensures Agree(file, value, plan, seen) && Recovers(file, value, t) && Sees(seen, plan, t)
  {
    LoadUndoesWrite(id, t);
    var loaded := Loader.Load(file, id);
    var loader := loaded.value;
    r := loader.ParseTree();
    value := loader.views[loader.root];

    assert file[IDENTIFIER_SIZE..] == Serialize(t) + [];
    var f := new FileStream(file[IDENTIFIER_SIZE..]);
    HoldsIsSuffix(f.m_data, 0, Serialize(t) + []);
    seen := Walk(f, plan, t, []);
    SeesAgrees(file, value, t, plan, seen);
  }

  /** Inside a node the type byte is read right, and alone, exactly if it is not 0xFD. */
  lemma TypeIsReadUnlessEscape(data: seq<byte>, pos: nat)
    requires pos < |data|
    ensures Fetch(data, pos, 1, true) == Fetched([data[pos]], pos + 1) <==> data[pos] != ESCAPE
  {
    FetchByte(data, pos, true);
  }
}

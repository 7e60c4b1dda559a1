/** The OTB byte format, stated on its own: what a property range may hold, what a node
    looks like on disk, and what a correct file is.  Nothing here mentions the parser. */
module OtbFormat {
  import opened Sequences

  newtype byte = x: int | 0 <= x < 256

  const ESCAPE: byte := 0xFD
  const START: byte := 0xFE
  const END: byte := 0xFF

  // ----- Escaping ---------------------------------------------------------------------

  /** The three marker values are written behind an ESCAPE; every other byte stands for itself. */
  function EscapeByte(b: byte): seq<byte> {
    if b >= ESCAPE then [ESCAPE, b] else [b]
  }

  function Escape(s: seq<byte>): seq<byte> {
    if s == [] then [] else EscapeByte(s[0]) + Escape(s[1..])
  }

  /** Drops each ESCAPE that is not itself escaped; `escaped` says whether the byte before was such a one. */
  function Unescape(s: seq<byte>, escaped: bool): seq<byte> {
    if s == [] then []
    else if s[0] == ESCAPE && !escaped then Unescape(s[1..], true)
    else [s[0]] + Unescape(s[1..], false)
  }

  /** A run of tokens: each an ordinary byte, or an ESCAPE together with the byte it protects. */
  predicate Tokens(s: seq<byte>) {
    s == [] ||
    if s[0] == ESCAPE then |s| >= 2 && Tokens(s[2..])
    else s[0] < ESCAPE && Tokens(s[1..])
  }

  lemma {:induction false} EscapeIsTokens(s: seq<byte>)
    ensures Tokens(Escape(s))
    ensures |s| <= |Escape(s)|
  {
    if s != [] {
      EscapeIsTokens(s[1..]);
      assert (EscapeByte(s[0]) + Escape(s[1..]))[|EscapeByte(s[0])|..] == Escape(s[1..]);
    }
  }

  /** Only bytes from 0xFD on are escaped, each by one byte. */
  lemma {:induction false} EscapeIsIdentityIff(s: seq<byte>)
    ensures |s| <= |Escape(s)|
    ensures Escape(s) == s <==> forall i :: 0 <= i < |s| ==> s[i] < 0xFD
  {
    if s != [] {
      EscapeIsIdentityIff(s[1..]);
      assert Escape(s)[|EscapeByte(s[0])|..] == Escape(s[1..]);
      if s[0] < ESCAPE {
        assert Escape(s) == s <==> Escape(s[1..]) == s[1..] by {
          assert s == [s[0]] + s[1..];
        }
      } else {
        EscapeIsTokens(s[1..]);
        assert |Escape(s)| > |s|;
      }
    }
  }

  lemma {:induction false} UnescapeEscape(s: seq<byte>)
    ensures Unescape(Escape(s), false) == s
  {
    if s != [] {
      UnescapeEscape(s[1..]);
      var e := Escape(s);
      assert e[|EscapeByte(s[0])|..] == Escape(s[1..]);
      if s[0] >= ESCAPE {
        assert e[1..][0] == s[0] && e[1..][1..] == e[2..];
      }
    }
  }

  lemma {:induction false} EscapeConcat(a: seq<byte>, b: seq<byte>)
    ensures Escape(a + b) == Escape(a) + Escape(b)
  {
    if a == [] {
      assert a + b == b;
    } else {
      EscapeConcat(a[1..], b);
      assert (a + b)[1..] == a[1..] + b;
      Associative(EscapeByte(a[0]), Escape(a[1..]), Escape(b));
    }
  }

  lemma {:induction false} TokensConcat(a: seq<byte>, b: seq<byte>)
    requires Tokens(a)
    ensures Tokens(a + b) <==> Tokens(b)
  {
    if a == [] {
      assert a + b == b;
    } else {
      var n := if a[0] == ESCAPE then 2 else 1;
      TokensConcat(a[n..], b);
      assert (a + b)[n..] == a[n..] + b;
    }
  }

  /** Two token runs in front of a node marker (or the end) are the same run. */
  lemma {:induction false} TokensSplitUniquely(a: seq<byte>, x: seq<byte>, b: seq<byte>, y: seq<byte>)
    requires Tokens(a) && Tokens(b) && a + x == b + y
    requires x != [] && x[0] > ESCAPE
    requires y != [] && y[0] > ESCAPE
    ensures a == b && x == y
  {
    if a == [] || b == [] {
      assert (a + x)[0] == (b + y)[0];
      assert a == [] ==> a + x == x;
      assert b == [] ==> b + y == y;
    } else {
      assert (a + x)[0] == a[0] && (b + y)[0] == b[0];
      var n := if a[0] == ESCAPE then 2 else 1;
      assert (a + x)[n..] == a[n..] + x && (b + y)[n..] == b[n..] + y;
      TokensSplitUniquely(a[n..], x, b[n..], y);
      assert a == a[..n] + a[n..] && b == b[..n] + b[n..];
      assert a[..n] == (a + x)[..n] && b[..n] == (b + y)[..n];
    }
  }

  // ----- The grammar ------------------------------------------------------------------

  /** A node as it lies in the file: raw property bytes, then children, each followed by
      bytes that readers skip. */
  datatype Cst = Cst(typ: byte, props: seq<byte>, kids: seq<Kid>)
  datatype Kid = Kid(node: Cst, junk: seq<byte>)

  function Print(c: Cst): seq<byte>
    decreases c, 1
  {
    [START, c.typ] + c.props + PrintKids(c.kids) + [END]
  }

  function PrintKids(kids: seq<Kid>): seq<byte>
    decreases kids, 0
  {
    if kids == [] then [] else Print(kids[0].node) + kids[0].junk + PrintKids(kids[1..])
  }

  predicate Grammatical(c: Cst)
    decreases c, 1
  {
    Tokens(c.props) && GrammaticalKids(c.kids)
  }

  predicate GrammaticalKids(kids: seq<Kid>)
    decreases kids, 0
  {
    kids == [] ||
    (Grammatical(kids[0].node) && Tokens(kids[0].junk) && GrammaticalKids(kids[1..]))
  }

  /** The balanced grammar: one node, then bytes that are skipped. */
  ghost predicate IsDocument(s: seq<byte>, c: Cst, junk: seq<byte>) {
    Grammatical(c) && Tokens(junk) && s == Print(c) + junk
  }

  lemma {:induction false} PrintKidsSnoc(kids: seq<Kid>, k: Kid)
    ensures PrintKids(kids + [k]) == PrintKids(kids) + Print(k.node) + k.junk
    ensures GrammaticalKids(kids + [k]) <==>
            GrammaticalKids(kids) && Grammatical(k.node) && Tokens(k.junk)
  {
    if kids == [] {
      assert kids + [k] == [k] && [k][1..] == [];
    } else {
      PrintKidsSnoc(kids[1..], k);
      assert (kids + [k])[1..] == kids[1..] + [k];
    }
  }

  /** What stands behind the properties begins with a marker, for every list of children. */
  lemma BehindProps(c: Cst, rest: seq<byte>)
    ensures var b := PrintKids(c.kids) + [END] + rest;
            Print(c) + rest == [START, c.typ] + (c.props + b) && b != [] && b[0] > ESCAPE
  {
  }

  /** No node's text begins another node's text: the grammar is prefix-free, hence unambiguous. */
  lemma {:induction false} PrintIsPrefixFree(c: Cst, x: seq<byte>, d: Cst, y: seq<byte>)
    requires Grammatical(c) && Grammatical(d) && Print(c) + x == Print(d) + y
    ensures c == d && x == y
    decreases c, 1
  {
    BehindProps(c, x);
    BehindProps(d, y);
    var bc, bd := PrintKids(c.kids) + [END] + x, PrintKids(d.kids) + [END] + y;
    assert ([START, c.typ] + (c.props + bc))[1] == ([START, d.typ] + (d.props + bd))[1];
    assert ([START, c.typ] + (c.props + bc))[2..] == c.props + bc;
    assert ([START, d.typ] + (d.props + bd))[2..] == d.props + bd;
    TokensSplitUniquely(c.props, bc, d.props, bd);
    KidsArePrefixFree(c.kids, x, d.kids, y);
  }

  lemma {:induction false} KidsArePrefixFree(ks: seq<Kid>, x: seq<byte>, ls: seq<Kid>, y: seq<byte>)
    requires GrammaticalKids(ks) && GrammaticalKids(ls)
    requires PrintKids(ks) + [END] + x == PrintKids(ls) + [END] + y
    ensures ks == ls && x == y
    decreases ks, 0
  {
    if ks == [] {
      NoKidsPrint(x, ls, y);
    } else if ls == [] {
      NoKidsPrint(y, ks, x);
    } else {
      var sk, tl := PrintKids(ks[1..]) + [END] + x, PrintKids(ls[1..]) + [END] + y;
      FirstKidPrints(ks, x);
      FirstKidPrints(ls, y);
      PrintIsPrefixFree(ks[0].node, ks[0].junk + sk, ls[0].node, ls[0].junk + tl);
      KidsBeginWithMarker(ks[1..], x);
      KidsBeginWithMarker(ls[1..], y);
      TokensSplitUniquely(ks[0].junk, sk, ls[0].junk, tl);
      KidsArePrefixFree(ks[1..], x, ls[1..], y);
      assert ks == [ks[0]] + ks[1..] && ls == [ls[0]] + ls[1..];
    }
  }

  lemma FirstKidPrints(ks: seq<Kid>, x: seq<byte>)
    requires ks != []
    ensures PrintKids(ks) + [END] + x
            == Print(ks[0].node) + (ks[0].junk + (PrintKids(ks[1..]) + [END] + x))
  {
    var a, b, c := Print(ks[0].node), ks[0].junk, PrintKids(ks[1..]);
    assert PrintKids(ks) == a + b + c;
    hide Print, PrintKids;
    Associative(a + b, c, [END]);
    Associative(a + b, c + [END], x);
    Associative(a, b, c + [END] + x);
  }

  lemma NoKidsPrint(x: seq<byte>, ls: seq<Kid>, y: seq<byte>)
    requires PrintKids([]) + [END] + x == PrintKids(ls) + [END] + y
    ensures ls == [] && x == y
  {
    KidsBeginWithMarker([], x);
    KidsBeginWithMarker(ls, y);
    assert (PrintKids([]) + [END] + x)[1..] == x;
    assert ([END] + y)[1..] == y;
  }

  lemma KidsBeginWithMarker(ks: seq<Kid>, x: seq<byte>)
    ensures var b := PrintKids(ks) + [END] + x; b != [] && b[0] == if ks == [] then END else START
  {
  }

  // ----- The writer -------------------------------------------------------------------

  /** A node tree as a program sees it: property bytes without escapes. */
  datatype Tree = Tree(typ: byte, props: seq<byte>, children: seq<Tree>)

  function Serialize(t: Tree): seq<byte>
    decreases t, 1
  {
    [START, t.typ] + Escape(t.props) + SerializeAll(t.children) + [END]
  }

  function SerializeAll(ts: seq<Tree>): seq<byte>
    decreases ts, 0
  {
    if ts == [] then [] else Serialize(ts[0]) + SerializeAll(ts[1..])
  }

  ghost function TreeCst(t: Tree): Cst
    decreases t, 1
  {
    Cst(t.typ, Escape(t.props), TreeKids(t.children))
  }

  ghost function TreeKids(ts: seq<Tree>): seq<Kid>
    decreases ts, 0
  {
    if ts == [] then [] else [Kid(TreeCst(ts[0]), [])] + TreeKids(ts[1..])
  }

  lemma {:induction false} SerializeIsGrammatical(t: Tree)
    ensures Serialize(t) == Print(TreeCst(t)) && Grammatical(TreeCst(t))
    decreases t, 1
  {
    EscapeIsTokens(t.props);
    SerializeAllIsGrammatical(t.children);
  }

  lemma {:induction false} SerializeAllIsGrammatical(ts: seq<Tree>)
    ensures SerializeAll(ts) == PrintKids(TreeKids(ts)) && GrammaticalKids(TreeKids(ts))
    decreases ts, 0
  {
    if ts != [] {
      SerializeIsGrammatical(ts[0]);
      SerializeAllIsGrammatical(ts[1..]);
      assert TreeKids(ts)[1..] == TreeKids(ts[1..]);
    }
  }

  /** A root of type 7 with the one property byte 0xFE, and in it a node of type 9. */
  lemma ASmallTree()
    ensures Serialize(Tree(7, [0xFE], [Tree(9, [], [])])) == [0xFE, 7, 0xFD, 0xFE, 0xFE, 9, 0xFF, 0xFF]
  {
    var t := Tree(9, [], []);
    assert Serialize(t) == [0xFE, 9] + [] + [] + [0xFF] == [0xFE, 9, 0xFF];
    assert SerializeAll([t]) == Serialize(t) + [] == Serialize(t);
    assert Escape([0xFE]) == [0xFD, 0xFE] + [] == [0xFD, 0xFE];
  }
}

/** The streaming reader of the same bytes: it keeps a position and a depth, and removes
    escapes as it goes. */
module FileStreams {
  import opened Basics
  import opened Sequences
  import opened OtbFormat
  import opened PropStreams

  /** Positions and depths are 32-bit counters, with unsigned arithmetic. */
  function Plus32(a: nat, b: nat): nat {
    if a + b < U32 then a + b else a + b - U32
  }

  function Minus32(a: nat, b: nat): nat
    requires b <= a + U32
  {
    if b <= a then a - b else a + U32 - b
  }

  /** The bytes that a read gives and where it ends, or that it would leave the data. */
  datatype Fetched = Fetched(bytes: seq<byte>, next: nat) | PastEnd

  /** The `n` bytes from `pos` on, each read behind its escape. */
  function ReadEscaped(data: seq<byte>, pos: nat, n: nat): (r: Fetched)
    ensures r.Fetched? ==> |r.bytes| == n && pos + n <= r.next && (n > 0 ==> r.next <= |data|)
  {
    if n == 0 then Fetched([], pos)
    else
      var r := ReadEscaped(data, pos, n - 1);
      if r.PastEnd? then PastEnd
      else
        var at := if r.next < |data| && data[r.next] == ESCAPE then r.next + 1 else r.next;
        if at < |data| then Fetched(r.bytes + [data[at]], at + 1) else PastEnd
  }

  /** Escaped bytes are read back as they were before escaping, and the read ends right behind them. */
  lemma {:induction false} ReadEscapedOfEscaped(before: seq<byte>, a: seq<byte>, rest: seq<byte>)
    ensures ReadEscaped(before + Escape(a) + rest, |before|, |a|) == Fetched(a, |before| + |Escape(a)|)
  {
    if a != [] {
      var init, last := a[..|a| - 1], a[|a| - 1];
      assert a == init + [last];
      ReadEscapedOfEscaped(before, init, EscapeByte(last) + rest);
      EscapeLast(init, last);
      hide Escape, EscapeByte, ReadEscaped;
      Associative(before, Escape(init), EscapeByte(last));
      Associative(before + Escape(init), EscapeByte(last), rest);
      ReadMore(before + Escape(init), last, rest, |before|, init);
    }
  }

  /** A read that has come to an escaped byte goes on with that byte. */
  lemma ReadMore(before: seq<byte>, last: byte, rest: seq<byte>, pos: nat, init: seq<byte>)
    requires ReadEscaped(before + (EscapeByte(last) + rest), pos, |init|) == Fetched(init, |before|)
    ensures ReadEscaped(before + (EscapeByte(last) + rest), pos, |init| + 1)
            == Fetched(init + [last], |before| + |EscapeByte(last)|)
  {
    ReadLast(before, last, rest);
    hide EscapeByte;
  }

  lemma EscapeLast(init: seq<byte>, last: byte)
    ensures Escape(init + [last]) == Escape(init) + EscapeByte(last)
  {
    EscapeConcat(init, [last]);
    assert Escape([last]) == EscapeByte(last) + [] == EscapeByte(last);
  }

  /** The byte that comes next, behind its escape if it has one. */
  lemma ReadLast(before: seq<byte>, last: byte, rest: seq<byte>)
    ensures var data, pos := before + (EscapeByte(last) + rest), |before|;
            var at := if data[pos] == ESCAPE then pos + 1 else pos;
            at < |data| && data[at] == last && at + 1 == pos + |EscapeByte(last)|
  {
  }

  /** What a read of `n` bytes at `pos` gives; too little data gives zeros and no move. */
  function Fetch(data: seq<byte>, pos: nat, n: nat, escapes: bool): (r: Fetched)
    ensures r.Fetched? ==> |r.bytes| == n && (r.next <= |data| || r.next == pos)
  {
    if pos + n > |data| then Fetched(seq(n, _ => 0), pos)
    else if escapes then ReadEscaped(data, pos, n)
    else Fetched(data[pos..pos + n], pos + n)
  }

  /** Outside nodes bytes are read as they are; where there are too few, zeros are given and nothing is read. */
  lemma FetchPlain(data: seq<byte>, pos: nat, n: nat, escapes: bool)
    ensures pos + n > |data| ==> Fetch(data, pos, n, escapes) == Fetched(seq(n, _ => 0), pos)
    ensures pos + n <= |data| && !escapes ==> Fetch(data, pos, n, escapes) == Fetched(data[pos..pos + n], pos + n)
  {
  }

  /** Whole pieces: each an ESCAPE with the byte behind it, whatever that is, or another byte. */
  predicate Pieces(s: seq<byte>) {
    s == [] ||
    if s[0] == ESCAPE then |s| >= 2 && Pieces(s[2..]) else Pieces(s[1..])
  }

  /** One piece at a time is taken out of its escape. */
  lemma UnescapeFirst(s: seq<byte>)
    ensures s != [] && s[0] != ESCAPE ==> Unescape(s, false) == [s[0]] + Unescape(s[1..], false)
    ensures |s| >= 2 && s[0] == ESCAPE ==> Unescape(s, false) == [s[1]] + Unescape(s[2..], false)
  {
    if |s| >= 2 && s[0] == ESCAPE {
      assert Unescape(s, false) == Unescape(s[1..], true) == [s[1]] + Unescape(s[1..][1..], false);
      assert s[1..][1..] == s[2..];
    }
  }

  lemma {:induction false} UnescapePieces(a: seq<byte>, b: seq<byte>)
    requires Pieces(a)
    ensures Unescape(a + b, false) == Unescape(a, false) + Unescape(b, false)
    ensures Pieces(b) ==> Pieces(a + b)
  {
    UnescapeFirst(a);
    UnescapeFirst(a + b);
    if a == [] {
      assert a + b == b;
    } else {
      hide Unescape;
      var n := if a[0] == ESCAPE then 2 else 1;
      UnescapePieces(a[n..], b);
      assert (a + b)[n..] == a[n..] + b && (a + b)[n - 1] == a[n - 1];
      Associative([a[n - 1]], Unescape(a[n..], false), Unescape(b, false));
    }
  }

  /** Inside nodes what is read is what lies between the two positions, without its escapes. */
  lemma {:induction false} ReadIsUnescaped(data: seq<byte>, pos: nat, n: nat)
    requires pos <= |data| && ReadEscaped(data, pos, n).Fetched?
    ensures var r := ReadEscaped(data, pos, n);
            && pos + n <= r.next <= |data| && Pieces(data[pos..r.next])
            && Unescape(data[pos..r.next], false) == r.bytes
  {
    if n > 0 {
      ReadIsUnescaped(data, pos, n - 1);
      var was, r := ReadEscaped(data, pos, n - 1), ReadEscaped(data, pos, n);
      var piece := data[was.next..r.next];
      assert data[pos..r.next] == data[pos..was.next] + piece;
      UnescapePieces(data[pos..was.next], piece);
      OnePiece(piece);
    } else {
      assert data[pos..pos] == [];
    }
  }

  lemma OnePiece(s: seq<byte>)
    ensures |s| == 1 && s[0] != ESCAPE ==> Pieces(s) && Unescape(s, false) == [s[0]]
    ensures |s| == 2 && s[0] == ESCAPE ==> Pieces(s) && Unescape(s, false) == [s[1]]
  {
    UnescapeFirst(s);
    assert |s| == 2 ==> s[2..] == [];
    assert |s| == 1 ==> s[1..] == [];
    assert forall b: byte :: [b] + [] == [b];
  }

  /** The byte that a one-byte read gives, and where that read ends. */
  lemma FetchByte(data: seq<byte>, pos: nat, escapes: bool)
    ensures pos >= |data| ==> Fetch(data, pos, 1, escapes) == Fetched([0], pos)
    ensures pos < |data| && !(escapes && data[pos] == ESCAPE) ==>
              Fetch(data, pos, 1, escapes) == Fetched([data[pos]], pos + 1)
    ensures escapes && pos + 1 < |data| && data[pos] == ESCAPE ==>
              Fetch(data, pos, 1, escapes) == Fetched([data[pos + 1]], pos + 2)
    ensures escapes && pos + 1 == |data| && data[pos] == ESCAPE ==> Fetch(data, pos, 1, escapes) == PastEnd
  {
    assert seq(1, _ => 0 as byte) == [0];
    assert ReadEscaped(data, pos, 0) == Fetched([], pos);
    assert forall b: byte :: [] + [b] == [b];
  }

  // ----- When a read leaves the data --------------------------------------------------------

  /** How many complete bytes there are to read behind their escapes; a lone ESCAPE at the end is none. */
  function BytesLeft(data: seq<byte>, pos: nat): nat
    decreases if pos < |data| then |data| - pos else 0
  {
    if pos >= |data| then 0
    else if data[pos] != ESCAPE then 1 + BytesLeft(data, pos + 1)
    else if pos + 1 < |data| then 1 + BytesLeft(data, pos + 2)
    else 0
  }

  lemma {:induction false} ReadEscapedLeavesIff(data: seq<byte>, pos: nat, n: nat)
    ensures ReadEscaped(data, pos, n).PastEnd? <==> BytesLeft(data, pos) < n
    ensures var r := ReadEscaped(data, pos, n); r.Fetched? ==> BytesLeft(data, r.next) + n == BytesLeft(data, pos)
  {
    if n > 0 {
      ReadEscapedLeavesIff(data, pos, n - 1);
    }
  }

  /** The size test counts bytes and no escapes: a read that passes it leaves the data if and only if it removes
      escapes and there are fewer complete bytes than it wants. */
  lemma FetchLeavesIff(data: seq<byte>, pos: nat, n: nat, escapes: bool)
    ensures Fetch(data, pos, n, escapes).PastEnd? <==> escapes && pos + n <= |data| && BytesLeft(data, pos) < n
  {
    ReadEscapedLeavesIff(data, pos, n);
  }

  /** Two bytes are there, and a 16-bit read passes the test; they are one escape and the byte it stands for. */
  lemma ATwoByteReadLeavesTheData()
    ensures Fetch([ESCAPE, ESCAPE], 0, 2, true) == PastEnd
  {
    assert BytesLeft([ESCAPE, ESCAPE], 2) == 0;
    FetchLeavesIff([ESCAPE, ESCAPE], 0, 2, true);
  }

  /** What the one-byte reader gives at `pos`: its size test is a 32-bit sum. */
  function FetchU8(data: seq<byte>, pos: nat, escapes: bool): Fetched {
    if Plus32(pos, 1) > |data| then Fetched([0], pos)
    else if pos >= |data| then PastEnd
    else if !(escapes && data[pos] == ESCAPE) then Fetched([data[pos]], pos + 1)
    else if pos + 1 < |data| then Fetched([data[pos + 1]], pos + 2)
    else PastEnd
  }

  /** The one-byte reader leaves the data at a lone ESCAPE at the end, and at the last 32-bit position, where its
      size test wraps around; anywhere else it is the general reader. */
  lemma FetchU8LeavesIff(data: seq<byte>, pos: nat, escapes: bool)
    requires |data| < U32 && pos < U32
    ensures FetchU8(data, pos, escapes).PastEnd?
            <==> pos == U32 - 1 || (escapes && pos + 1 == |data| && data[pos] == ESCAPE)
    ensures pos < U32 - 1 ==> FetchU8(data, pos, escapes) == Fetch(data, pos, 1, escapes)
  {
    FetchByte(data, pos, escapes);
  }

  class FileStream {
    const m_data: seq<byte>
    var m_pos: nat
    var m_nodes: nat
    /** A read has left the data; from then on anything may happen. */
    ghost var outside: bool

    ghost predicate InRange()
      reads this
    {
      |m_data| < U32 && m_pos < U32 && m_nodes < U32
    }

    ghost predicate Valid()
      reads this
    {
      InRange() && !outside
    }

    /** What reading `n` bytes here gives; inside a node, escapes are removed. */
    ghost function Next(n: nat): Fetched
      reads this
    {
      Fetch(m_data, m_pos, n, m_nodes > 0)
    }

    constructor (data: seq<byte>)
      requires |data| < U32
      ensures Valid() && m_data == data && m_pos == 0 && m_nodes == 0
    {
      m_data, m_pos, m_nodes, outside := data, 0, 0, false;
    }

    method Tell() returns (pos: nat)
      ensures pos == m_pos
    {
      pos := m_pos;
    }

    method Seek(pos: nat)
      requires Valid() && pos < U32
      modifies this`m_pos
      ensures Valid() && m_pos == if pos <= |m_data| then pos else old(m_pos)
    {
      if pos > |m_data| {
        return;
      }
      m_pos := pos;
    }

    method Skip(len: nat)
      requires Valid() && len < U32
      modifies this`m_pos
      ensures Valid()
      ensures m_pos == if Plus32(old(m_pos), len) <= |m_data| then Plus32(old(m_pos), len) else old(m_pos)
    {
      var at := Tell();
      Seek(Plus32(at, len));
    }

    method Back(pos: nat)
      requires InRange() && pos < U32
      modifies this`m_pos
      ensures InRange() && m_pos == Minus32(old(m_pos), pos)
    {
      m_pos := Minus32(m_pos, pos);
    }

    method Read(size: nat, escape: bool) returns (ok: bool, bytes: seq<byte>)
      requires Valid()
      modifies this`m_pos, this`outside
      ensures outside <==> old(Fetch(m_data, m_pos, size, escape)).PastEnd?
      ensures ok <==> old(m_pos) + size <= |m_data|
      ensures !outside ==> Valid() && m_pos == old(Fetch(m_data, m_pos, size, escape)).next
      ensures !outside && ok ==> bytes == old(Fetch(m_data, m_pos, size, escape)).bytes
    {
      bytes := [];
      if m_pos + size > |m_data| {
        return false, bytes;
      }
      ok := true;
      if escape {
        ghost var start := m_pos;
        var i := 0;
        while i < size
          invariant 0 <= i <= size && m_pos <= |m_data| && !outside
          invariant ReadEscaped(m_data, start, i) == Fetched(bytes, m_pos)
        {
          if m_pos < |m_data| && m_data[m_pos] == ESCAPE {
            m_pos := m_pos + 1;
          }
          if m_pos >= |m_data| {
            outside := true;
            NeverBack(m_data, start, i + 1, size);
            return;
          }
          bytes := bytes + [m_data[m_pos]];
          m_pos := m_pos + 1;
          i := i + 1;
        }
      } else {
        bytes := m_data[m_pos..m_pos + size];
        m_pos := m_pos + size;
      }
    }

    /** Outside the data there is no telling what is read; here it is 0. */
    method GetU8() returns (v: byte)
      requires Valid()
      modifies this`m_pos, this`outside
      ensures outside <==> old(FetchU8(m_data, m_pos, m_nodes > 0)).PastEnd?
      ensures InRange() && (outside ==> v == 0)
      ensures !outside ==> Valid() && old(FetchU8(m_data, m_pos, m_nodes > 0)) == Fetched([v], m_pos)
    {
      v := 0;
      if Plus32(m_pos, 1) > |m_data| {
        return;
      }
      if m_pos >= |m_data| {
        outside := true;
        return;
      }
      if m_nodes > 0 && m_data[m_pos] == ESCAPE {
        m_pos := m_pos + 1;
      }
      if m_pos >= |m_data| {
        outside := true;
        return;
      }
      v := m_data[m_pos];
      m_pos := m_pos + 1;
    }

    /** The 16, 32 and 64-bit readers. */
    method GetNumber(width: nat) returns (v: nat)
      requires Valid()
      modifies this`m_pos, this`outside
      ensures outside <==> old(Next(width)).PastEnd?
      ensures !outside ==> Valid() && v == FromLittleEndian(old(Next(width)).bytes) && m_pos == old(Next(width)).next
    {
      var ok, bytes := Read(width, m_nodes > 0);
      v := if ok then FromLittleEndian(bytes) else 0;
      if !ok { ZerosAreZero(width); }
    }

    /** A byte that is not wanted, or only looked at, is given back by one position; an escape before it is not. */
    method IsProp(prop: byte, toNext: bool) returns (found: bool)
      requires Valid()
      modifies this`m_pos, this`outside
      ensures outside <==> old(FetchU8(m_data, m_pos, m_nodes > 0)).PastEnd?
      ensures var a := old(FetchU8(m_data, m_pos, m_nodes > 0));
              !outside ==>
                && Valid() && (found <==> a.bytes == [prop])
                && m_pos == if found && toNext then a.next else Minus32(a.next, 1)
    {
      var v := GetU8();
      if v == prop {
        if !toNext {
          Back(1);
        }
        return true;
      }
      Back(1);
      return false;
    }

    /** Enters the node that begins here, if one does.  `typ` 0 stands for every type and leaves
        the type byte to be read; any other type is read and compared.  Each byte that is not wanted is
        given back by one position, at the end of the data too, where none was taken. */
    method StartNode(typ: byte) returns (started: bool)
      requires Valid()
      modifies this`m_pos, this`m_nodes, this`outside
      ensures var a := old(FetchU8(m_data, m_pos, m_nodes > 0));
              && (outside <==> a.PastEnd? || (a.bytes == [START] && typ != 0
                                              && FetchU8(m_data, a.next, old(m_nodes) > 0).PastEnd?))
              && (!outside ==>
                    && Valid() && m_nodes == (if started then Plus32(old(m_nodes), 1) else old(m_nodes))
                    && (a.bytes != [START] ==> !started && m_pos == Minus32(a.next, 1))
                    && (a.bytes == [START] && typ == 0 ==> started && m_pos == a.next)
                    && (a.bytes == [START] && typ != 0 ==>
                          var b := FetchU8(m_data, a.next, old(m_nodes) > 0);
                          (started <==> b.bytes == [typ]) && m_pos == if started then b.next else Minus32(b.next, 2)))
    {
      var v := GetU8();
      if v == START {
        if typ == 0 {
          m_nodes := Plus32(m_nodes, 1);
          return true;
        }
        var t := GetU8();
        if t == typ {
          m_nodes := Plus32(m_nodes, 1);
          return true;
        }
        Back(1);
      }
      Back(1);
      return false;
    }

    method EndNode() returns (ended: bool)
      requires Valid()
      modifies this`m_pos, this`m_nodes, this`outside
      ensures var a := old(FetchU8(m_data, m_pos, m_nodes > 0));
              && (outside <==> a.PastEnd?)
              && (!outside ==>
                    && Valid() && (ended <==> a.bytes == [END])
                    && m_nodes == (if ended then Minus32(old(m_nodes), 1) else old(m_nodes))
                    && m_pos == if ended then a.next else Minus32(a.next, 1))
    {
      var v := GetU8();
      if v == END {
        m_nodes := Minus32(m_nodes, 1);
        return true;
      }
      Back(1);
      return false;
    }
  }

  /** A read that leaves the data does so whatever else is wanted. */
  lemma {:induction false} NeverBack(data: seq<byte>, pos: nat, k: nat, n: nat)
    requires k <= n && ReadEscaped(data, pos, k).PastEnd?
    ensures ReadEscaped(data, pos, n).PastEnd?
  {
    if k < n {
      NeverBack(data, pos, k, n - 1);
    }
  }

  lemma {:induction false} ZerosAreZero(n: nat)
    ensures FromLittleEndian(seq(n, _ => 0 as byte)) == 0
  {
    if n > 0 {
      ZerosAreZero(n - 1);
      assert seq(n, _ => 0 as byte)[1..] == seq(n - 1, _ => 0 as byte);
    }
  }
}

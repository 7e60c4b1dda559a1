/** The flat property streams: a writer that appends fields to a buffer and a reader that
    takes them back off. */
module PropStreams {
  import opened Basics
  import opened Sequences
  import opened OtbFormat

  const MAX_STRING := 65535

  // ----- Little-endian numbers ------------------------------------------------------------

  function Pow256(width: nat): (p: nat)
    ensures p > 0
  {
    if width == 0 then 1 else 256 * Pow256(width - 1)
  }

  function LittleEndian(width: nat, value: nat): (s: seq<byte>)
    ensures |s| == width
  {
    if width == 0 then [] else [(value % 256) as byte] + LittleEndian(width - 1, value / 256)
  }

  function FromLittleEndian(s: seq<byte>): nat {
    if s == [] then 0 else s[0] as nat + 256 * FromLittleEndian(s[1..])
  }

  lemma {:induction false} NumberRoundTrip(width: nat, value: nat)
    requires value < Pow256(width)
    ensures FromLittleEndian(LittleEndian(width, value)) == value
  {
    if width > 0 {
      NumberRoundTrip(width - 1, value / 256);
      assert LittleEndian(width, value)[1..] == LittleEndian(width - 1, value / 256);
    }
  }

  /** The bytes of a number, the lowest first. */
  lemma {:induction false} LittleEndianAt(width: nat, value: nat, i: nat)
    requires i < width
    ensures LittleEndian(width, value)[i] as nat == value / Pow256(i) % 256
  {
    if i > 0 {
      LittleEndianAt(width - 1, value / 256, i - 1);
      DivideTwice(value, Pow256(i - 1));
    }
  }

  lemma DivideTwice(value: nat, p: nat)
    requires p > 0
    ensures 256 * p > 0 && value / 256 / p == value / (256 * p)
  {
    var q, r := value / 256 / p, value / 256 % p;
    assert value / 256 == q * p + r;
    assert value == 256 * (q * p + r) + value % 256;
    var low := 256 * r + value % 256;
    assert value == q * (256 * p) + low && 0 <= low < 256 * p;
    QuotientIs(value, 256 * p, q, low);
  }

  lemma QuotientIs(value: nat, d: nat, q: nat, low: nat)
    requires d > 0 && value == q * d + low && low < d
    ensures value / d == q
  {
    var e := value / d;
    assert value == e * d + value % d;
    if e < q {
      LessTimes(e, q, d);
    } else if e > q {
      LessTimes(q, e, d);
    }
  }

  lemma LessTimes(a: nat, b: nat, d: nat)
    requires a < b
    ensures a * d + d <= b * d
  {
    assert b * d == (a + 1) * d + (b - a - 1) * d;
  }

  // ----- Fields -----------------------------------------------------------------------------

  /** A number of one, two, four or eight bytes, or a string. */
  datatype Kind = NumKind(width: nat) | StrKind
  datatype Field = Num(width: nat, value: nat) | Str(bytes: seq<byte>)

  predicate Representable(f: Field) {
    f.Num? ==> f.width in {1, 2, 4, 8} && f.value < Pow256(f.width)
  }

  function KindOf(f: Field): Kind {
    match f
    case Num(w, _) => NumKind(w)
    case Str(_) => StrKind
  }

  function Encode(f: Field): seq<byte> {
    match f
    case Num(w, v) => LittleEndian(w, v)
    case Str(s) => if |s| > MAX_STRING then LittleEndian(2, 0) else LittleEndian(2, |s|) + s
  }

  function EncodeAll(fs: seq<Field>): seq<byte> {
    if fs == [] then [] else Encode(fs[0]) + EncodeAll(fs[1..])
  }

  lemma EncodeAllAt(fs: seq<Field>, i: nat, before: seq<byte>)
    requires i < |fs|
    ensures before + EncodeAll(fs[i..]) == before + Encode(fs[i]) + EncodeAll(fs[i + 1..])
  {
    assert fs[i..][1..] == fs[i + 1..];
  }

  /** The field at the front of `s` and what follows it. */
  function Decode(k: Kind, s: seq<byte>): Option<(Field, seq<byte>)> {
    match k
    case NumKind(w) =>
      if |s| < w then None else Some((Num(w, FromLittleEndian(s[..w])), s[w..]))
    case StrKind =>
      if |s| < 2 || |s| - 2 < FromLittleEndian(s[..2]) then None
      else
        var len := FromLittleEndian(s[..2]);
        Some((Str(s[2..2 + len]), s[2 + len..]))
  }

  function DecodeAll(ks: seq<Kind>, s: seq<byte>): Option<(seq<Field>, seq<byte>)> {
    if ks == [] then Some(([], s))
    else match Decode(ks[0], s)
      case None => None
      case Some((f, rest)) =>
        match DecodeAll(ks[1..], rest)
        case None => None
        case Some((fs, rest')) => Some(([f] + fs, rest'))
  }

  /** What a reader finds of a field: a string too long for its 16-bit length was written as an empty one. */
  function Kept(f: Field): Field {
    if f.Str? && |f.bytes| > MAX_STRING then Str([]) else f
  }

  lemma NoLength()
    ensures LittleEndian(2, 0) == [0, 0]
  {
    assert LittleEndian(2, 0) == [0] + LittleEndian(1, 0) && LittleEndian(1, 0) == [0] + [];
  }

  lemma FieldRoundTrip(f: Field, rest: seq<byte>)
    requires Representable(f)
    ensures Decode(KindOf(f), Encode(f) + rest) == Some((Kept(f), rest))
    ensures f.Num? || |f.bytes| <= 65535 ==> Decode(KindOf(f), Encode(f) + rest) == Some((f, rest))
    ensures f.Str? && |f.bytes| > 65535 ==> Encode(f) == [0, 0]
  {
    match f
    case Num(w, v) =>
      NumberRoundTrip(w, v);
      assert (Encode(f) + rest)[..w] == Encode(f) && (Encode(f) + rest)[w..] == rest;
    case Str(s) =>
      var len := |Kept(f).bytes|;
      assert Pow256(2) == 256 * Pow256(1) == 65536;
      NumberRoundTrip(2, len);
      NoLength();
      hide LittleEndian, FromLittleEndian;
      var e := Encode(f) + rest;
      assert e == LittleEndian(2, len) + (Kept(f).bytes + rest);
      assert e[..2] == LittleEndian(2, len);
      assert e[2..2 + len] == Kept(f).bytes && e[2 + len..] == rest;
  }

  function KindsOf(fs: seq<Field>): seq<Kind> {
    if fs == [] then [] else [KindOf(fs[0])] + KindsOf(fs[1..])
  }

  function KeptAll(fs: seq<Field>): seq<Field> {
    if fs == [] then [] else [Kept(fs[0])] + KeptAll(fs[1..])
  }

  /** Reading back, kind by kind, what was written gives every field as kept and uses up exactly what was written. */
  lemma {:induction false} FieldsRoundTrip(fs: seq<Field>, rest: seq<byte>)
    requires forall f | f in fs :: Representable(f)
    ensures DecodeAll(KindsOf(fs), EncodeAll(fs) + rest) == Some((KeptAll(fs), rest))
  {
    if fs == [] {
      assert EncodeAll(fs) + rest == rest;
    } else {
      Associative(Encode(fs[0]), EncodeAll(fs[1..]), rest);
      FieldRoundTrip(fs[0], EncodeAll(fs[1..]) + rest);
      FieldsRoundTrip(fs[1..], rest);
      assert KindsOf(fs)[1..] == KindsOf(fs[1..]);
    }
  }

  // ----- The streams ------------------------------------------------------------------------

  lemma SliceOfSlice(s: seq<byte>, a: nat, b: nat, i: nat, j: nat)
    requires a <= b <= |s| && i <= j <= b - a
    ensures s[a..b][i..j] == s[a + i..a + j]
  {
    var inner, outer := s[a..b][i..j], s[a + i..a + j];
    assert forall k :: 0 <= k < j - i ==> inner[k] == outer[k];
  }

  class PropWriteStream {
    var buffer: seq<byte>

    constructor ()
      ensures buffer == []
    {
      buffer := [];
    }

    method Clear()
      modifies this
      ensures buffer == []
    {
      buffer := [];
    }

    method Write(width: nat, add: nat)
      requires Representable(Num(width, add))
      modifies this
      ensures buffer == old(buffer) + Encode(Num(width, add))
    {
      var byteArray := LittleEndian(width, add);
      buffer := buffer + byteArray;
    }

    method WriteString(str: seq<byte>)
      modifies this
      ensures buffer == old(buffer) + Encode(Str(str))
    {
      var strLength := |str|;
      assert Pow256(2) == 256 * Pow256(1) == 65536;
      if strLength > MAX_STRING {
        Write(2, 0);
        return;
      }
      Write(2, strLength);
      buffer := buffer + str;
    }

    /** Writes the fields one after the other, as every serializer does. */
    method WriteAll(fs: seq<Field>)
      requires forall f | f in fs :: Representable(f)
      modifies this
      ensures buffer == old(buffer) + EncodeAll(fs)
    {
      var i := 0;
      while i < |fs|
        invariant 0 <= i <= |fs|
        invariant buffer + EncodeAll(fs[i..]) == old(buffer) + EncodeAll(fs)
      {
        EncodeAllAt(fs, i, buffer);
        match fs[i] {
          case Num(w, v) => Write(w, v);
          case Str(s) => WriteString(s);
        }
        i := i + 1;
      }
    }
  }

  class PropStream {
    var data: seq<byte>
    var p: nat
    var end: nat

    ghost predicate Valid()
      reads this
    {
      p <= end <= |data|
    }

    ghost function Remaining(): seq<byte>
      requires Valid()
      reads this
    {
      data[p..end]
    }

    constructor ()
      ensures Valid() && Remaining() == []
    {
      data, p, end := [], 0, 0;
    }

    method Init(a: seq<byte>, size: nat)
      requires size <= |a|
      modifies this
      ensures Valid() && Remaining() == a[..size]
    {
      data, p, end := a, 0, size;
    }

    method Size() returns (size: nat)
      requires Valid()
      ensures size == |Remaining()|
    {
      size := end - p;
    }

    method Read(width: nat) returns (ok: bool, ret: nat)
      requires Valid()
      modifies this`p
      ensures Valid()
      ensures var d := Decode(NumKind(width), old(Remaining()));
              if d.None? then !ok && Remaining() == old(Remaining())
              else ok && Num(width, ret) == d.value.0 && Remaining() == d.value.1
    {
      ret := 0;
      var size := Size();
      if size < width {
        return false, ret;
      }
      SliceOfSlice(data, p, end, 0, width);
      SliceOfSlice(data, p, end, width, end - p);
      ret := FromLittleEndian(data[p..p + width]);
      p := p + width;
      ok := true;
    }

    /** When the announced string is not all there, the two length bytes are gone all the same. */
    method ReadString() returns (ok: bool, ret: seq<byte>)
      requires Valid()
      modifies this`p
      ensures Valid()
      ensures var d := Decode(StrKind, old(Remaining()));
              if d.Some? then ok && Str(ret) == d.value.0 && Remaining() == d.value.1
              else !ok && Remaining() == if old(|Remaining()|) < 2 then old(Remaining())
                                         else old(Remaining())[2..]
    {
      ret := [];
      ghost var before, at := Remaining(), p;
      var gotLength, strLen := Read(2);
      if !gotLength {
        return false, ret;
      }
      assert Remaining() == before[2..];
      var size := Size();
      if size < strLen {
        return false, ret;
      }
      assert before == data[at..end] && p == at + 2;
      SliceOfSlice(data, at, end, 2, 2 + strLen);
      SliceOfSlice(data, at, end, 2 + strLen, end - at);
      ret := data[p..p + strLen];
      p := p + strLen;
      ok := true;
    }

    method Skip(n: nat) returns (ok: bool)
      requires Valid()
      modifies this`p
      ensures Valid()
      ensures ok <==> n <= old(|Remaining()|)
      ensures Remaining() == if ok then old(Remaining())[n..] else old(Remaining())
    {
      var size := Size();
      if size < n {
        return false;
      }
      p := p + n;
      return true;
    }

    /** Reads one field of each kind, as every deserializer does; stops at the first that is not there. */
    method ReadAll(ks: seq<Kind>) returns (fs: Option<seq<Field>>)
      requires Valid()
      modifies this`p
      ensures Valid()
      ensures var d := DecodeAll(ks, old(Remaining()));
              if d.None? then fs.None? else fs == Some(d.value.0) && Remaining() == d.value.1
    {
      var got: seq<Field> := [];
      ghost var whole := DecodeAll(ks, Remaining());
      NothingDecoded(ks, Remaining());
      hide DecodeAll, DecodedUpTo;
      var i := 0;
      while i < |ks|
        invariant 0 <= i <= |ks| && Valid()
        invariant DecodedUpTo(ks, i, got, whole, Remaining())
      {
        DecodeNext(ks, i, got, whole, Remaining());
        match ks[i] {
          case NumKind(w) =>
            var ok, v := Read(w);
            if !ok { return None; }
            got := got + [Num(w, v)];
          case StrKind =>
            var ok, s := ReadString();
            if !ok { return None; }
            got := got + [Str(s)];
        }
        i := i + 1;
      }
      AllDecoded(ks, got, whole, Remaining());
      return Some(got);
    }
  }

  /** The first `i` fields are decoded, and the rest of the work is on `s`. */
  ghost predicate DecodedUpTo(ks: seq<Kind>, i: nat, got: seq<Field>, whole: Option<(seq<Field>, seq<byte>)>,
                              s: seq<byte>)
    requires i <= |ks|
  {
    match DecodeAll(ks[i..], s)
    case None => whole.None?
    case Some((fs, rest)) => whole == Some((got + fs, rest))
  }

  lemma NothingDecoded(ks: seq<Kind>, s: seq<byte>)
    ensures DecodedUpTo(ks, 0, [], DecodeAll(ks, s), s)
  {
    assert ks[0..] == ks && forall fs: seq<Field> :: [] + fs == fs;
  }

  lemma DecodeNext(ks: seq<Kind>, i: nat, got: seq<Field>, whole: Option<(seq<Field>, seq<byte>)>, s: seq<byte>)
    requires i < |ks| && DecodedUpTo(ks, i, got, whole, s)
    ensures match Decode(ks[i], s)
            case None => whole.None?
            case Some((f, rest)) => DecodedUpTo(ks, i + 1, got + [f], whole, rest)
  {
    assert ks[i..][1..] == ks[i + 1..];
    hide Decode;
    assert forall f: Field, fs: seq<Field> :: got + ([f] + fs) == got + [f] + fs;
  }

  lemma AllDecoded(ks: seq<Kind>, got: seq<Field>, whole: Option<(seq<Field>, seq<byte>)>, s: seq<byte>)
    requires DecodedUpTo(ks, |ks|, got, whole, s)
    ensures whole == Some((got, s))
  {
    assert got + [] == got;
  }
}

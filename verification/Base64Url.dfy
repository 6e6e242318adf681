/**
 The session-token encoder: a 32-bit shift buffer that is never masked, against the base64url
 encoding of section 5 of RFC 4648 with the padding left out.
 */
module Base64Url {
  import opened Common

  type Byte = b: nat | b < 256

  type Sextet = v: nat | v < 64

  // ----- the alphabet -----

  /** Table 2 of RFC 4648. */
  function Char(v: Sextet): char {
    if v < 26 then 'A' + v as char
    else if v < 52 then 'a' + (v - 26) as char
    else if v < 62 then '0' + (v - 52) as char
    else if v == 62 then '-'
    else '_'
  }

  function Value(c: char): Option<Sextet> {
    if 'A' <= c <= 'Z' then Some((c - 'A') as nat)
    else if 'a' <= c <= 'z' then Some((c - 'a') as nat + 26)
    else if '0' <= c <= '9' then Some((c - '0') as nat + 52)
    else if c == '-' then Some(62)
    else if c == '_' then Some(63)
    else None
  }

  lemma CharIff(v: Sextet, c: char)
    ensures Char(v) == c <==> Value(c) == Some(v)
  {
  }

  /** The digit values of a text, if all of its characters belong to the alphabet. */
  function Values(s: string): Option<seq<Sextet>> {
    if s == "" then Some([])
    else
      match (Value(s[0]), Values(s[1..]))
      case (Some(v), Some(rest)) => Some([v] + rest)
      case _ => None
  }

  function Text(digits: seq<Sextet>): (s: string)
    ensures |s| == |digits|
  {
    if digits == [] then "" else [Char(digits[0])] + Text(digits[1..])
  }

  lemma {:induction false} TextIff(digits: seq<Sextet>, s: string)
    ensures Text(digits) == s <==> Values(s) == Some(digits)
  {
    if digits == [] || s == "" {
    } else {
      TextIff(digits[1..], s[1..]);
      CharIff(digits[0], s[0]);
      assert s == [s[0]] + s[1..] && digits == [digits[0]] + digits[1..];
      if Values(s).Some? {
        assert Values(s).value[0] == Value(s[0]).value && Values(s).value[1..] == Values(s[1..]).value;
      }
      assert Text(digits)[0] == Char(digits[0]) && Text(digits)[1..] == Text(digits[1..]);
    }
  }

  lemma {:induction false} TextAppend(digits: seq<Sextet>, more: seq<Sextet>)
    ensures Text(digits + more) == Text(digits) + Text(more)
  {
    if digits == [] {
      assert digits + more == more;
    } else {
      assert (digits + more)[1..] == digits[1..] + more;
      TextAppend(digits[1..], more);
    }
  }

  // ----- the standard's grouping of bits -----

  /** Three bytes as four 6-bit values. */
  function Sextets(x: Byte, y: Byte, z: Byte): (Sextet, Sextet, Sextet, Sextet) {
    (x / 4, x % 4 * 16 + y / 16, y % 16 * 4 + z / 64, z % 64)
  }

  /** Four 6-bit values as three bytes. */
  function Octets(a: Sextet, b: Sextet, c: Sextet, d: Sextet): (Byte, Byte, Byte) {
    (a * 4 + b / 16, b % 16 * 16 + c / 4, c % 4 * 64 + d)
  }

  lemma MultipleIsFar(d: int, m: nat)
    ensures 1 <= d ==> m <= d * m
    ensures d <= -1 ==> d * m + m <= 0
  {
    if 1 <= d {
      assert d * m == m + (d - 1) * m;
    } else if d <= -1 {
      assert d * m + m == (d + 1) * m;
    }
  }

  lemma DivModUnique(x: nat, m: nat, q: nat, r: nat)
    requires x == q * m + r && r < m
    ensures x / m == q && x % m == r
  {
    MultipleIsFar(q - x / m, m);
    assert (q - x / m) * m == q * m - x / m * m;
  }

  lemma OctetsOfSextets(x: Byte, y: Byte, z: Byte)
    ensures var (a, b, c, d) := Sextets(x, y, z); Octets(a, b, c, d) == (x, y, z)
  {
    var (a, b, c, d) := Sextets(x, y, z);
    DivModUnique(b, 16, x % 4, y / 16);
    DivModUnique(c, 4, y % 16, z / 64);
  }

  lemma SextetsOfOctets(a: Sextet, b: Sextet, c: Sextet, d: Sextet)
    ensures var (x, y, z) := Octets(a, b, c, d); Sextets(x, y, z) == (a, b, c, d)
  {
    var (x, y, z) := Octets(a, b, c, d);
    DivModUnique(x, 4, a, b / 16);
    DivModUnique(y, 16, b % 16, c / 4);
    DivModUnique(z, 64, c % 4, d);
  }

  function Quad(x: Byte, y: Byte, z: Byte): (q: seq<Sextet>)
    ensures |q| == 4
  {
    var (a, b, c, d) := Sextets(x, y, z);
    [a, b, c, d]
  }

  /** Groups of three bytes become four digits; one or two bytes left over become two or three. */
  function Regroup(bytes: seq<Byte>): seq<Sextet> {
    if |bytes| == 0 then []
    else if |bytes| == 1 then Quad(bytes[0], 0, 0)[..2]
    else if |bytes| == 2 then Quad(bytes[0], bytes[1], 0)[..3]
    else Quad(bytes[0], bytes[1], bytes[2]) + Regroup(bytes[3..])
  }

  /** The strict inverse: pad bits must be zero. */
  function Ungroup(s: seq<Sextet>): Option<seq<Byte>> {
    if |s| == 0 then Some([])
    else if |s| == 1 then None
    else if |s| == 2 then
      var (x, y, z) := Octets(s[0], s[1], 0, 0);
      if y == 0 then Some([x]) else None
    else if |s| == 3 then
      var (x, y, z) := Octets(s[0], s[1], s[2], 0);
      if z == 0 then Some([x, y]) else None
    else
      var (x, y, z) := Octets(s[0], s[1], s[2], s[3]);
      match Ungroup(s[4..])
      case Some(rest) => Some([x, y, z] + rest)
      case None => None
  }

  lemma UngroupQuad(x: Byte, y: Byte, z: Byte, rest: seq<Sextet>)
    ensures Ungroup(Quad(x, y, z) + rest)
         == match Ungroup(rest) case Some(bytes) => Some([x, y, z] + bytes) case None => None
  {
    OctetsOfSextets(x, y, z);
    assert (Quad(x, y, z) + rest)[4..] == rest;
  }

  lemma ZeroSextets(x: Byte, y: Byte)
    ensures Sextets(x, 0, 0).2 == 0 && Sextets(x, 0, 0).3 == 0 && Sextets(x, y, 0).3 == 0
  {
  }

  lemma UngroupOne(x: Byte)
    ensures Ungroup(Quad(x, 0, 0)[..2]) == Some([x])
  {
    OctetsOfSextets(x, 0, 0);
    ZeroSextets(x, 0);
    var (a, b, c, d) := Sextets(x, 0, 0);
    assert Quad(x, 0, 0)[..2] == [a, b];
  }

  lemma UngroupTwo(x: Byte, y: Byte)
    ensures Ungroup(Quad(x, y, 0)[..3]) == Some([x, y])
  {
    OctetsOfSextets(x, y, 0);
    ZeroSextets(x, y);
    var (a, b, c, d) := Sextets(x, y, 0);
    assert Quad(x, y, 0)[..3] == [a, b, c];
  }

  lemma {:induction false} UngroupRegroup(bytes: seq<Byte>)
    ensures Ungroup(Regroup(bytes)) == Some(bytes)
  {
    if |bytes| == 1 {
      UngroupOne(bytes[0]);
      assert bytes == [bytes[0]];
    } else if |bytes| == 2 {
      UngroupTwo(bytes[0], bytes[1]);
      assert bytes == [bytes[0], bytes[1]];
    } else if |bytes| >= 3 {
      var x, y, z, rest := bytes[0], bytes[1], bytes[2], bytes[3..];
      UngroupRegroup(rest);
      UngroupQuad(x, y, z, Regroup(rest));
      assert Regroup(bytes) == Quad(x, y, z) + Regroup(rest);
      assert bytes == [x, y, z] + rest;
    }
  }

  lemma {:induction false} RegroupUngroup(s: seq<Sextet>)
    requires Ungroup(s).Some?
    ensures Regroup(Ungroup(s).value) == s
  {
    if |s| == 0 {
    } else if |s| == 2 {
      SextetsOfOctets(s[0], s[1], 0, 0);
    } else if |s| == 3 {
      SextetsOfOctets(s[0], s[1], s[2], 0);
    } else {
      SextetsOfOctets(s[0], s[1], s[2], s[3]);
      RegroupUngroup(s[4..]);
      assert Ungroup(s).value[3..] == Ungroup(s[4..]).value;
      assert s == s[..4] + s[4..];
    }
  }

  // ----- encoding and decoding -----

  function Encode(bytes: seq<Byte>): string {
    Text(Regroup(bytes))
  }

  function Decode(s: string): Option<seq<Byte>> {
    match Values(s)
    case Some(digits) => Ungroup(digits)
    case None => None
  }

  /** A string decodes to `bytes` exactly when it is their encoding; so the encoding is injective. */
  lemma DecodesToIff(s: string, bytes: seq<Byte>)
    ensures Decode(s) == Some(bytes) <==> s == Encode(bytes)
  {
    UngroupRegroup(bytes);
    TextIff(Regroup(bytes), s);
    if Decode(s) == Some(bytes) {
      RegroupUngroup(Values(s).value);
    }
  }

  /** `n` bytes become exactly as many characters as their bits need: `ceil(8n / 6)`. */
  lemma {:induction false} EncodedLength(bytes: seq<Byte>)
    ensures |Encode(bytes)| == (8 * |bytes| + 5) / 6
  {
    if |bytes| >= 3 {
      EncodedLength(bytes[3..]);
    }
  }

  // ----- the encoder -----

  /** Whole groups are regrouped independently of what follows them. */
  lemma {:induction false} RegroupAppend(whole: seq<Byte>, tail: seq<Byte>)
    requires |whole| % 3 == 0
    ensures Regroup(whole + tail) == Regroup(whole) + Regroup(tail)
  {
    if whole == [] {
      assert whole + tail == tail;
    } else {
      assert (whole + tail)[3..] == whole[3..] + tail;
      RegroupAppend(whole[3..], tail);
    }
  }

  const TWO_32: nat := 0x1_0000_0000

  /** `(buf << 8) | b as u32`: the top byte of the buffer falls off, and the two parts share no bit. */
  function ShiftIn(buf: nat, b: Byte): nat {
    buf * 256 % TWO_32 + b
  }

  /** `(buf >> bits) & 0x3F`, for the only shifts that occur. */
  function Top(buf: nat, bits: nat): Sextet
    requires bits <= 6 && bits % 2 == 0
  {
    (if bits == 0 then buf else if bits == 2 then buf / 4 else if bits == 4 then buf / 16 else buf / 64) % 64
  }

  /** `(buf << (6 - bits)) & 0x3F`, for the only shifts that occur. */
  function Padded(buf: nat, bits: nat): Sextet
    requires bits == 2 || bits == 4
  {
    (if bits == 2 then buf * 16 else buf * 4) % TWO_32 % 64
  }

  const TABLE: string := "ABCDEFGHIJKLMNOPQRSTUVWXYZ" + "abcdefghijklmnopqrstuvwxyz" + "0123456789" + "-_"

  method TableChar(v: Sextet) returns (c: char)
    ensures [c] == Text([v])
  {
    c := TABLE[v];
  }

  /** The bits of the tail not yet written are the low bits of the buffer. */
  predicate PendingAre(tail: seq<Byte>, buf: nat)
    requires |tail| < 3
  {
    && (|tail| == 1 ==> buf % 4 == tail[0] % 4)
    && (|tail| == 2 ==> buf % 16 == tail[1] % 16)
  }

  /** Everything the inner loop writes from here on. */
  function Drained(buf: nat, bits: nat): seq<Sextet>
    requires bits <= 12 && bits % 2 == 0
  {
    if bits < 6 then [] else [Top(buf, bits - 6)] + Drained(buf, bits - 6)
  }

  /** The wrap at 32 bits never reaches the bits that are still wanted. */
  lemma ShiftedBuffer(buf: nat, b: Byte)
    returns (r: nat)
    ensures ShiftIn(buf, b) == 256 * r + b && r % 4 == buf % 4 && r % 16 == buf % 16
  {
    var q := buf / 0x100_0000;
    r := buf % 0x100_0000;
    DivModUnique(buf * 256, TWO_32, q, 256 * r);
    DivModUnique(buf, 4, 0x40_0000 * q + r / 4, r % 4);
    DivModUnique(buf, 16, 0x10_0000 * q + r / 16, r % 16);
  }

  lemma TopOfFirst(r: nat, b: Byte)
    ensures var next := 256 * r + b; Top(next, 2) == b / 4 && next % 4 == b % 4
  {
    DivModUnique(256 * r + b, 4, 64 * r + b / 4, b % 4);
    DivModUnique(64 * r + b / 4, 64, r, b / 4);
  }

  lemma TopOfSecond(r: nat, b: Byte)
    ensures var next := 256 * r + b; Top(next, 4) == r % 4 * 16 + b / 16 && next % 16 == b % 16
  {
    var s, p := r / 4, r % 4;
    DivModUnique(256 * r + b, 16, 64 * s + (16 * p + b / 16), b % 16);
    DivModUnique(64 * s + (16 * p + b / 16), 64, s, 16 * p + b / 16);
  }

  lemma TopOfThird(r: nat, b: Byte)
    ensures var next := 256 * r + b; Top(next, 6) == r % 16 * 4 + b / 64 && Top(next, 0) == b % 64
  {
    var s, p := r / 16, r % 16;
    DivModUnique(256 * r + b, 64, 64 * s + (4 * p + b / 64), b % 64);
    DivModUnique(64 * s + (4 * p + b / 64), 64, s, 4 * p + b / 64);
  }

  lemma DrainedSextets(buf: nat)
    ensures Drained(buf, 8) == [Top(buf, 2)]
    ensures Drained(buf, 10) == [Top(buf, 4)]
    ensures Drained(buf, 12) == [Top(buf, 6), Top(buf, 0)]
  {
    assert Drained(buf, 2) == [] && Drained(buf, 4) == [] && Drained(buf, 0) == [];
    assert Drained(buf, 6) == [Top(buf, 0)];
  }

  lemma FirstOfGroup(b: Byte, buf: nat)
    ensures Drained(ShiftIn(buf, b), 8) == Regroup([b])[..1]
    ensures ShiftIn(buf, b) % 4 == b % 4
  {
    DrainedSextets(ShiftIn(buf, b));
    var r := ShiftedBuffer(buf, b);
    TopOfFirst(r, b);
  }

  lemma SecondOfGroup(x: Byte, b: Byte, buf: nat)
    requires buf % 4 == x % 4
    ensures Regroup([x])[..1] + Drained(ShiftIn(buf, b), 10) == Regroup([x, b])[..2]
    ensures ShiftIn(buf, b) % 16 == b % 16
  {
    DrainedSextets(ShiftIn(buf, b));
    var r := ShiftedBuffer(buf, b);
    TopOfSecond(r, b);
    assert Drained(ShiftIn(buf, b), 10) == [Regroup([x, b])[1]] && Regroup([x])[..1] == [Regroup([x, b])[0]];
  }

  lemma ThirdOfGroup(x: Byte, y: Byte, b: Byte, buf: nat)
    requires buf % 16 == y % 16
    ensures Regroup([x, y])[..2] + Drained(ShiftIn(buf, b), 12) == Regroup([x, y, b])
  {
    DrainedSextets(ShiftIn(buf, b));
    var r := ShiftedBuffer(buf, b);
    TopOfThird(r, b);
  }

  /** One byte shifted in and drained, by how many bytes already wait. */
  lemma TailStep(tail: seq<Byte>, b: Byte, buf: nat)
    requires |tail| < 3 && PendingAre(tail, buf)
    ensures var next, full := ShiftIn(buf, b), tail + [b];
            var written := Regroup(tail)[..|tail|] + Drained(next, 2 * |tail| + 8);
            if |tail| < 2 then PendingAre(full, next) && written == Regroup(full)[..|full|]
            else written == Regroup(full)
  {
    if |tail| == 0 {
      assert tail + [b] == [b];
      FirstOfGroup(b, buf);
    } else if |tail| == 1 {
      assert tail == [tail[0]] && tail + [b] == [tail[0], b];
      SecondOfGroup(tail[0], b, buf);
    } else {
      assert tail == [tail[0], tail[1]] && tail + [b] == [tail[0], tail[1], b];
      ThirdOfGroup(tail[0], tail[1], b, buf);
    }
  }

  /**
   The encoder after some bytes: the bytes of all whole groups and those past the last one, the
   buffer, and the digits written.
   */
  datatype Encoder = Encoder(whole: seq<Byte>, tail: seq<Byte>, buf: nat, digits: seq<Sextet>) {
    /** Everything is written but for the bits that still wait in the buffer. */
    ghost predicate UpToDate() {
      && |whole| % 3 == 0 && |tail| < 3
      && PendingAre(tail, buf)
      && digits == Regroup(whole) + Regroup(tail)[..|tail|]
    }

    function Next(b: Byte): Encoder
      requires |tail| < 3
    {
      var next := ShiftIn(buf, b);
      var more := digits + Drained(next, 2 * |tail| + 8);
      if |tail| < 2 then Encoder(whole, tail + [b], next, more)
      else Encoder(whole + (tail + [b]), [], next, more)
    }
  }

  lemma AppendDigits(whole: seq<Sextet>, part: seq<Sextet>, drained: seq<Sextet>, grown: seq<Sextet>)
    requires part + drained == grown
    ensures whole + part + drained == whole + grown
  {
    assert whole + part + drained == whole + (part + drained);
  }

  lemma WholeIsUpToDate(whole: seq<Byte>, buf: nat, digits: seq<Sextet>)
    requires |whole| % 3 == 0 && digits == Regroup(whole)
    ensures Encoder(whole, [], buf, digits).UpToDate()
  {
    assert digits + [] == digits;
  }

  lemma GroupGoesOn(e: Encoder, b: Byte)
    requires e.UpToDate() && |e.tail| < 2
    ensures e.Next(b).UpToDate()
  {
    var next, full := ShiftIn(e.buf, b), e.tail + [b];
    TailStep(e.tail, b, e.buf);
    AppendDigits(Regroup(e.whole), Regroup(e.tail)[..|e.tail|], Drained(next, 2 * |e.tail| + 8), Regroup(full)[..|full|]);
  }

  lemma GroupEnds(e: Encoder, b: Byte)
    requires e.UpToDate() && |e.tail| == 2
    ensures e.Next(b).UpToDate()
  {
    var next, full := ShiftIn(e.buf, b), e.tail + [b];
    TailStep(e.tail, b, e.buf);
    AppendDigits(Regroup(e.whole), Regroup(e.tail)[..2], Drained(next, 12), Regroup(full));
    RegroupAppend(e.whole, full);
    WholeIsUpToDate(e.whole + full, next, e.digits + Drained(next, 12));
  }

  /** One byte shifted in and drained keeps the output up to date. */
  lemma ByteStep(e: Encoder, b: Byte)
    requires e.UpToDate()
    ensures e.Next(b).UpToDate()
  {
    if |e.tail| == 2 {
      GroupEnds(e, b);
    } else {
      GroupGoesOn(e, b);
    }
  }

  /** The last character carries the pending bits followed by zeros. */
  lemma PadBits(buf: nat)
    ensures Padded(buf, 2) == buf % 4 * 16 && Padded(buf, 4) == buf % 16 * 4
  {
    var q, r := buf / 0x1000_0000, buf % 0x1000_0000;
    DivModUnique(buf * 16, TWO_32, q, 16 * r);
    DivModUnique(16 * r, 64, r / 4, r % 4 * 16);
    DivModUnique(buf, 4, 0x400_0000 * q + r / 4, r % 4);
    var q', r' := buf / 0x4000_0000, buf % 0x4000_0000;
    DivModUnique(buf * 4, TWO_32, q', 4 * r');
    DivModUnique(4 * r', 64, r' / 16, r' % 16 * 4);
    DivModUnique(buf, 16, 0x400_0000 * q' + r' / 16, r' % 16);
  }

  /** The encoder once `bytes` have gone through it. */
  function Feed(bytes: seq<Byte>): (e: Encoder)
    ensures |e.tail| < 3
  {
    if bytes == [] then Encoder([], [], 0, []) else Feed(bytes[..|bytes| - 1]).Next(bytes[|bytes| - 1])
  }

  lemma FeedNext(bytes: seq<Byte>, i: nat)
    requires i < |bytes|
    ensures Feed(bytes[..i + 1]) == Feed(bytes[..i]).Next(bytes[i])
  {
    assert bytes[..i + 1][..i] == bytes[..i];
  }

  ghost predicate Encodes(e: Encoder, bytes: seq<Byte>) {
    e.UpToDate() && e.whole + e.tail == bytes
  }

  lemma EncodesStep(e: Encoder, bytes: seq<Byte>)
    requires bytes != [] && Encodes(e, bytes[..|bytes| - 1])
    ensures Encodes(e.Next(bytes[|bytes| - 1]), bytes)
  {
    ByteStep(e, bytes[|bytes| - 1]);
    assert e.whole + (e.tail + [bytes[|bytes| - 1]]) == bytes;
  }

  lemma {:induction false} FeedEncodes(bytes: seq<Byte>)
    ensures Encodes(Feed(bytes), bytes)
  {
    if bytes != [] {
      FeedEncodes(bytes[..|bytes| - 1]);
      EncodesStep(Feed(bytes[..|bytes| - 1]), bytes);
    }
  }

  lemma Finish(bytes: seq<Byte>)
    ensures var e := Feed(bytes);
            Encode(bytes) == Text(e.digits) + (if |e.tail| > 0 then Text([Padded(e.buf, 2 * |e.tail|)]) else "")
  {
    var e := Feed(bytes);
    var last := if |e.tail| > 0 then [Padded(e.buf, 2 * |e.tail|)] else [];
    FeedEncodes(bytes);
    RegroupAppend(e.whole, e.tail);
    PadBits(e.buf);
    assert Regroup(bytes) == e.digits + last;
    TextAppend(e.digits, last);
  }

  /** How many bits the inner loop leaves. */
  function Left(bits: nat): nat {
    if bits < 6 then bits else Left(bits - 6)
  }

  lemma TextStep(digit: Sextet, rest: seq<Sextet>)
    ensures Text([digit] + rest) == Text([digit]) + Text(rest)
  {
    TextAppend([digit], rest);
  }

  method Drain(buf: nat, start: nat) returns (out: string, bits: nat)
    requires start <= 12 && start % 2 == 0
    ensures out == Text(Drained(buf, start)) && bits == Left(start)
  {
    out, bits := "", start;
    while bits >= 6
      invariant bits <= 12 && bits % 2 == 0 && Left(bits) == Left(start)
      invariant out + Text(Drained(buf, bits)) == Text(Drained(buf, start))
    {
      bits := bits - 6;
      TextStep(Top(buf, bits), Drained(buf, bits));
      var c := TableChar(Top(buf, bits));
      out := out + [c];
    }
  }

  /** The outer loop, over all bytes. */
  method WriteAll(bytes: seq<Byte>) returns (out: string, buf: nat, bits: nat)
    ensures Holds(Feed(bytes), out, buf, bits)
  {
    out, buf, bits := "", 0, 0;
    for i := 0 to |bytes|
      invariant Holds(Feed(bytes[..i]), out, buf, bits)
    {
      var written;
      buf, written, bits := WriteByte(Feed(bytes[..i]), buf, bits, bytes[i]);
      out := out + written;
      FeedNext(bytes, i);
    }
    assert bytes[..|bytes|] == bytes;
  }

  /** The loop's variables are those of the encoder `e`. */
  ghost predicate Holds(e: Encoder, out: string, buf: nat, bits: nat) {
    out == Text(e.digits) && buf == e.buf && bits == 2 * |e.tail|
  }

  method WriteByte(ghost e: Encoder, buf: nat, bits: nat, b: Byte) returns (next: nat, written: string, left: nat)
    requires |e.tail| < 3 && buf == e.buf && bits == 2 * |e.tail|
    ensures next == e.Next(b).buf && left == 2 * |e.Next(b).tail|
    ensures Text(e.Next(b).digits) == Text(e.digits) + written
  {
    next := ShiftIn(buf, b);
    written, left := Drain(next, bits + 8);
    TextAppend(e.digits, Drained(next, bits + 8));
  }

  /** The source's encoder gives, for every byte string, what the standard prescribes. */
  method Base64url(bytes: seq<Byte>) returns (out: string)
    ensures out == Encode(bytes)
  {
    var buf, bits;
    out, buf, bits := WriteAll(bytes);
    Finish(bytes);
    if bits > 0 {
      var c := TableChar(Padded(buf, bits));
      out := out + [c];
    }
  }
}

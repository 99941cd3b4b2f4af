/**
 The standard Base64 alphabet with padding (section 4 of RFC 4648), encoding and strict decoding: bytes
 are cut into 6-bit symbols, and symbols are spelled as characters.
 */
module Base64 {
  import opened Wrappers

  type Byte = x: int | 0 <= x < 256
  type Sextet = x: int | 0 <= x < 64

  /** A position of an encoded text: six bits, or padding. */
  datatype Symbol = Bits(v: Sextet) | Pad

  // Symbols and characters.

  function Letter(symbol: Symbol): char {
    match symbol
    case Pad => '='
    case Bits(i) =>
      if i < 26 then 'A' + i as char
      else if i < 52 then 'a' + (i - 26) as char
      else if i < 62 then '0' + (i - 52) as char
      else if i == 62 then '+' else '/'
  }

  function Value(c: char): Option<Symbol> {
    if 'A' <= c <= 'Z' then Some(Bits(c as int - 'A' as int))
    else if 'a' <= c <= 'z' then Some(Bits(c as int - 'a' as int + 26))
    else if '0' <= c <= '9' then Some(Bits(c as int - '0' as int + 52))
    else if c == '+' then Some(Bits(62))
    else if c == '/' then Some(Bits(63))
    else if c == '=' then Some(Pad)
    else None
  }

  function Spell(x: seq<Symbol>): (s: string)
    ensures |s| == |x|
  {
    seq(|x|, i requires 0 <= i < |x| => Letter(x[i]))
  }

  /** The symbols of a text, if every character is of the alphabet or padding. */
  function Read(s: string): Option<seq<Symbol>> {
    if forall i :: 0 <= i < |s| ==> Value(s[i]).Some? then
      Some(seq(|s|, i requires 0 <= i < |s| => Value(s[i]).value))
    else None
  }

  lemma ValueOfLetter(symbol: Symbol)
    ensures Value(Letter(symbol)) == Some(symbol)
  {
  }

  lemma LetterOfValue(c: char)
    ensures Value(c).Some? ==> Letter(Value(c).value) == c
  {
  }

  lemma ReadOfSpell(x: seq<Symbol>)
    ensures Read(Spell(x)) == Some(x)
  {
    var s := Spell(x);
    forall i | 0 <= i < |s|
      ensures Value(s[i]) == Some(x[i])
    {
      ValueOfLetter(x[i]);
    }
    assert Read(s).value == x;
  }

  lemma SpellOfRead(s: string)
    ensures Read(s).Some? ==> Spell(Read(s).value) == s
  {
    if Read(s).Some? {
      forall i | 0 <= i < |s|
        ensures Spell(Read(s).value)[i] == s[i]
      {
        LetterOfValue(s[i]);
      }
    }
  }

  lemma CapitalAt(i: nat)
    requires i < 26
    ensures "ABCDEFGHIJKLMNOPQRSTUVWXYZ"[i] == 'A' + i as char
  {
  }

  lemma SmallAt(i: nat)
    requires i < 26
    ensures "abcdefghijklmnopqrstuvwxyz"[i] == 'a' + i as char
  {
  }

  lemma DigitAt(i: nat)
    requires i < 10
    ensures "0123456789"[i] == '0' + i as char
  {
  }

  /** The standard alphabet in the order of its values, and the padding character. */
  lemma AlphabetIs(i: Sextet)
    ensures i < 26 ==> Letter(Bits(i)) == "ABCDEFGHIJKLMNOPQRSTUVWXYZ"[i]
    ensures 26 <= i < 52 ==> Letter(Bits(i)) == "abcdefghijklmnopqrstuvwxyz"[i - 26]
    ensures 52 <= i < 62 ==> Letter(Bits(i)) == "0123456789"[i - 52]
    ensures i >= 62 ==> Letter(Bits(i)) == "+/"[i - 62]
    ensures Letter(Pad) == '='
  {
    if i < 26 {
      CapitalAt(i);
    } else if i < 52 {
      SmallAt(i - 26);
    } else if i < 62 {
      DigitAt(i - 52);
    }
  }

  // Bytes and symbols.

  /** Three bytes as four symbols; missing bytes at the end become padding. */
  function Cut(b: seq<Byte>): seq<Symbol> {
    if b == [] then []
    else if |b| == 1 then [Bits(b[0] / 4), Bits(b[0] % 4 * 16), Pad, Pad]
    else if |b| == 2 then [Bits(b[0] / 4), Bits(b[0] % 4 * 16 + b[1] / 16), Bits(b[1] % 16 * 4), Pad]
    else
      [Bits(b[0] / 4), Bits(b[0] % 4 * 16 + b[1] / 16), Bits(b[1] % 16 * 4 + b[2] / 64), Bits(b[2] % 64)] + Cut(b[3..])
  }

  /** The bytes of one group of four symbols; only a last group may be padded, and unused bits must be 0. */
  function Group(x: seq<Symbol>, last: bool): Option<seq<Byte>>
    requires |x| == 4
  {
    match (x[0], x[1], x[2], x[3])
    case (Bits(v0), Bits(v1), Bits(v2), Bits(v3)) =>
      Some([v0 * 4 + v1 / 16, v1 % 16 * 16 + v2 / 4, v2 % 4 * 64 + v3])
    case (Bits(v0), Bits(v1), Bits(v2), Pad) =>
      if last && v2 % 4 == 0 then Some([v0 * 4 + v1 / 16, v1 % 16 * 16 + v2 / 4]) else None
    case (Bits(v0), Bits(v1), Pad, Pad) =>
      if last && v1 % 16 == 0 then Some([v0 * 4 + v1 / 16]) else None
    case _ => None
  }

  function Join(x: seq<Symbol>): Option<seq<Byte>> {
    if x == [] then Some([])
    else if |x| < 4 then None
    else
      match (Group(x[..4], |x| == 4), Join(x[4..]))
      case (Some(first), Some(rest)) => Some(first + rest)
      case _ => None
  }

  function Encode(b: seq<Byte>): string {
    Spell(Cut(b))
  }

  function Decode(s: string): Option<seq<Byte>> {
    match Read(s)
    case None => None
    case Some(x) => Join(x)
  }

  /** The four symbols of one byte read back, ... */
  lemma GroupOfOne(b0: Byte)
    ensures Group(Cut([b0]), true) == Some([b0])
  {
  }

  /** ... those of two, ... */
  lemma GroupOfTwo(b0: Byte, b1: Byte)
    ensures Group(Cut([b0, b1]), true) == Some([b0, b1])
  {
    var v1: Sextet := b0 % 4 * 16 + b1 / 16;
    assert v1 / 16 == b0 % 4 && v1 % 16 == b1 / 16;
    assert b1 % 16 * 4 / 4 == b1 % 16;
  }

  /** ... and those of three, wherever they stand. */
  lemma GroupOfThree(b0: Byte, b1: Byte, b2: Byte, last: bool)
    ensures |Cut([b0, b1, b2])| == 4 && Group(Cut([b0, b1, b2]), last) == Some([b0, b1, b2])
  {
    var v1, v2: Sextet := b0 % 4 * 16 + b1 / 16, b1 % 16 * 4 + b2 / 64;
    assert v1 / 16 == b0 % 4 && v1 % 16 == b1 / 16;
    assert v2 / 4 == b1 % 16 && v2 % 4 == b2 / 64;
    assert [b0, b1, b2][3..] == [];
  }

  /** The group of at most three bytes reads back; a full one wherever it stands. */
  lemma GroupOfCut(b: seq<Byte>, last: bool)
    requires 1 <= |b| <= 3 && (|b| < 3 ==> last)
    ensures |Cut(b)| == 4 && Group(Cut(b), last) == Some(b)
  {
    if |b| == 1 {
      assert b == [b[0]];
      GroupOfOne(b[0]);
    } else if |b| == 2 {
      assert b == [b[0], b[1]];
      GroupOfTwo(b[0], b[1]);
    } else {
      assert b == [b[0], b[1], b[2]];
      GroupOfThree(b[0], b[1], b[2], last);
    }
  }

  /** The symbols of three bytes carry the same 24 bits, most significant first. */
  lemma CutKeepsBits(b0: Byte, b1: Byte, b2: Byte)
    ensures var x := Cut([b0, b1, b2]);
            && |x| == 4 && x[0].Bits? && x[1].Bits? && x[2].Bits? && x[3].Bits?
            && x[0].v * 262144 + x[1].v * 4096 + x[2].v * 64 + x[3].v == b0 * 65536 + b1 * 256 + b2
  {
    assert [b0, b1, b2][3..] == [];
    assert b0 == b0 / 4 * 4 + b0 % 4 && b1 == b1 / 16 * 16 + b1 % 16 && b2 == b2 / 64 * 64 + b2 % 64;
  }

  /** A missing byte is encoded as a zero byte, with its last symbol, or its last two, replaced by padding. */
  lemma CutOfShort(b0: Byte, b1: Byte)
    ensures Cut([b0, b1]) == Cut([b0, b1, 0])[..3] + [Pad]
    ensures Cut([b0]) == Cut([b0, 0, 0])[..2] + [Pad, Pad]
  {
    assert [b0, b1, 0][3..] == [] && [b0, 0, 0][3..] == [];
  }

  /** Joining a group and what follows it. */
  lemma JoinAfterGroup(x: seq<Symbol>, more: seq<Symbol>, first: seq<Byte>, rest: seq<Byte>)
    requires |x| == 4 && Group(x, more == []) == Some(first) && Join(more) == Some(rest)
    ensures Join(x + more) == Some(first + rest)
  {
    assert (x + more)[..4] == x && (x + more)[4..] == more;
  }

  /** Three more bytes in front put their four symbols in front. */
  lemma CutAfterThree(first: seq<Byte>, rest: seq<Byte>)
    requires |first| == 3
    ensures Cut(first + rest) == Cut(first) + Cut(rest)
  {
    assert (first + rest)[3..] == rest && first[3..] == [];
  }

  lemma {:induction false} JoinOfCut(b: seq<Byte>)
    ensures Join(Cut(b)) == Some(b)
  {
    if b != [] {
      var n := if |b| < 3 then |b| else 3;
      var first, rest := b[..n], b[n..];
      assert b == first + rest;
      GroupOfCut(first, Cut(rest) == []);
      if n == 3 {
        CutAfterThree(first, rest);
      } else {
        assert first == b && Cut(b) == Cut(first) + Cut(rest);
      }
      JoinOfCut(rest);
      JoinAfterGroup(Cut(first), Cut(rest), first, rest);
    }
  }

  /** Decoding an encoding gives the bytes back. */
  lemma DecodeOfEncode(b: seq<Byte>)
    ensures Decode(Encode(b)) == Some(b)
  {
    ReadOfSpell(Cut(b));
    JoinOfCut(b);
  }

  /** Three bytes put together from four 6-bit values are cut into these, ... */
  lemma CutOfFull(v0: Sextet, v1: Sextet, v2: Sextet, v3: Sextet)
    ensures Cut([v0 * 4 + v1 / 16, v1 % 16 * 16 + v2 / 4, v2 % 4 * 64 + v3]) == [Bits(v0), Bits(v1), Bits(v2), Bits(v3)]
  {
    var b0, b1, b2: Byte := v0 * 4 + v1 / 16, v1 % 16 * 16 + v2 / 4, v2 % 4 * 64 + v3;
    assert b0 / 4 == v0 && b0 % 4 == v1 / 16;
    assert b1 / 16 == v1 % 16 && b1 % 16 == v2 / 4;
    assert b2 / 64 == v2 % 4 && b2 % 64 == v3;
    assert [b0, b1, b2][3..] == [];
  }

  /** ... two bytes from three, the last of them with two zero bits, ... */
  lemma CutOfPaddedOnce(v0: Sextet, v1: Sextet, v2: Sextet)
    requires v2 % 4 == 0
    ensures Cut([v0 * 4 + v1 / 16, v1 % 16 * 16 + v2 / 4]) == [Bits(v0), Bits(v1), Bits(v2), Pad]
  {
    var b0, b1: Byte := v0 * 4 + v1 / 16, v1 % 16 * 16 + v2 / 4;
    assert b0 / 4 == v0 && b0 % 4 == v1 / 16;
    assert b1 / 16 == v1 % 16 && b1 % 16 == v2 / 4;
  }

  /** ... and one byte from two, the last of them with four zero bits. */
  lemma CutOfPaddedTwice(v0: Sextet, v1: Sextet)
    requires v1 % 16 == 0
    ensures Cut([v0 * 4 + v1 / 16]) == [Bits(v0), Bits(v1), Pad, Pad]
  {
  }

  /** A group is the cut of its bytes. */
  lemma CutOfGroup(x: seq<Symbol>, last: bool)
    requires |x| == 4 && Group(x, last).Some?
    ensures Cut(Group(x, last).value) == x
  {
    match (x[0], x[1], x[2], x[3])
    case (Bits(v0), Bits(v1), Bits(v2), Bits(v3)) => CutOfFull(v0, v1, v2, v3);
    case (Bits(v0), Bits(v1), Bits(v2), Pad) => CutOfPaddedOnce(v0, v1, v2);
    case (Bits(v0), Bits(v1), Pad, Pad) => CutOfPaddedTwice(v0, v1);
  }

  /** A group that is not last is full. */
  lemma InnerGroup(x: seq<Symbol>)
    requires |x| == 4 && Group(x, false).Some?
    ensures |Group(x, false).value| == 3
  {
  }

  lemma {:induction false} CutOfJoin(x: seq<Symbol>)
    ensures Join(x).Some? ==> Cut(Join(x).value) == x
  {
    if Join(x).Some? && x != [] {
      var first, rest := Group(x[..4], |x| == 4).value, Join(x[4..]).value;
      CutOfGroup(x[..4], |x| == 4);
      CutOfJoin(x[4..]);
      if |x| == 4 {
        assert first + rest == first;
      } else {
        InnerGroup(x[..4]);
        CutAfterThree(first, rest);
      }
      assert x == x[..4] + x[4..];
    }
  }

  /** Every text that decodes is the one encoding of its bytes: no second spelling is accepted. */
  lemma EncodeOfDecode(s: string)
    ensures Decode(s).Some? ==> Encode(Decode(s).value) == s
  {
    if Decode(s).Some? {
      CutOfJoin(Read(s).value);
      SpellOfRead(s);
    }
  }

  /** An encoding is no shorter than what it encodes. */
  lemma {:induction false} EncodeGrows(b: seq<Byte>)
    ensures |Encode(b)| >= |b|
  {
    if |b| >= 3 {
      EncodeGrows(b[3..]);
    }
  }
}

/**
  The `IP2STR` macro of the firmware and the `IPSTR` ("%d.%d.%d.%d") log
  format it feeds. The address is an unsigned 32-bit value stored in
  network byte order, so its lowest byte is the first octet printed.
  Shifts of an unsigned value are written as division by a power of two
  and the `& 0xff` mask as the remainder modulo 256.
*/
module Ipv4 {
  import opened Wrappers
  import opened Printf

  type uint32 = x: int | 0 <= x < 0x1_0000_0000
  type Octet = x: int | 0 <= x < 256

  /** The four octets in the order `IP2STR` passes them to the format. */
  datatype Quad = Quad(o0: Octet, o1: Octet, o2: Octet, o3: Octet)

  /** The 32-bit value whose bytes, lowest first, are the octets of `q`. */
  function Pack(q: Quad): (addr: uint32)
  {
    q.o0 + 256 * q.o1 + 65536 * q.o2 + 16777216 * q.o3
  }

  /** `addr >> 8` on an unsigned value. */
  function Shr8(a: nat): nat {
    a / 256
  }

  /**
    `IP2STR(addr)`: `addr & 0xff`, `(addr >> 8) & 0xff`, `(addr >> 16) & 0xff`,
    `(addr >> 24) & 0xff`, where a shift by 16 or 24 is two or three shifts by 8.
  */
  function Ip2Str(addr: uint32): (q: Quad)
    ensures Pack(q) == addr
  {
    var a1 := Shr8(addr);
    var a2 := Shr8(a1);
    var a3 := Shr8(a2);
    assert addr == addr % 256 + 256 * a1;
    assert a1 == a1 % 256 + 256 * a2;
    assert a2 == a2 % 256 + 256 * a3;
    assert a3 < 256;
    Quad(addr % 256, a1 % 256, a2 % 256, a3 % 256)
  }

  /** Splitting the packed value again gives back the same octets, so `Ip2Str` is a bijection. */
  lemma UnpackPack(q: Quad)
    ensures Ip2Str(Pack(q)) == q
  {
    var a := Pack(q);
    var t3: nat := q.o3;
    var t2 := q.o2 + 256 * t3;
    var t1 := q.o1 + 256 * t2;
    assert a == q.o0 + 256 * t1;
    assert Shr8(a) == t1 && a % 256 == q.o0;
    assert Shr8(t1) == t2 && t1 % 256 == q.o1;
    assert Shr8(t2) == t3 && t2 % 256 == q.o2;
  }

  lemma OctetDigits(o: Octet)
    ensures 1 <= |FormatD(o)| <= 3
  {
    var s := Digits(o);
    if |s| > 3 {
      Pow10Monotone(3, |s| - 1);
    }
  }

  lemma {:induction false} Pow10Monotone(i: nat, j: nat)
    requires i <= j
    ensures Pow10(i) <= Pow10(j)
    decreases j - i
  {
    if i < j {
      Pow10Monotone(i, j - 1);
    }
  }

  /** The pieces of `s` between occurrences of `sep` (one piece when `sep` does not occur). */
  function Split(s: string, sep: char): (parts: seq<string>)
    ensures |parts| >= 1
    decreases |s|
  {
    if |s| == 0 then [""]
    else
      var rest := Split(s[1..], sep);
      if s[0] == sep then [""] + rest else [[s[0]] + rest[0]] + rest[1..]
  }

  lemma {:induction false} SplitNoSep(x: string, sep: char)
    requires sep !in x
    ensures Split(x, sep) == [x]
    decreases |x|
  {
    if |x| > 0 {
      SplitNoSep(x[1..], sep);
      assert [x[0]] + x[1..] == x;
    }
  }

  lemma {:induction false} SplitAtSep(x: string, sep: char, y: string)
    requires sep !in x
    ensures Split(x + [sep] + y, sep) == [x] + Split(y, sep)
    decreases |x|
  {
    var s := x + [sep] + y;
    if |x| == 0 {
      assert s[1..] == y;
    } else {
      assert s[1..] == x[1..] + [sep] + y;
      SplitAtSep(x[1..], sep, y);
      assert [x[0]] + x[1..] == x;
    }
  }

  /** Reads one octet back from its `%d` text. */
  function ParseOctet(s: string): Option<Octet>
  {
    if 1 <= |s| <= 3 && AllDigits(s) && ParseDigits(s) < 256 then Some(ParseDigits(s)) else None
  }

  /** Reads a dotted-quad text back into the octets it shows. */
  function ParseDottedQuad(s: string): Option<Quad>
  {
    var parts := Split(s, '.');
    if |parts| != 4 then None
    else match (ParseOctet(parts[0]), ParseOctet(parts[1]), ParseOctet(parts[2]), ParseOctet(parts[3]))
      case (Some(a), Some(b), Some(c), Some(d)) => Some(Quad(a, b, c, d))
      case _ => None
  }

  lemma OctetText(o: Octet)
    ensures '.' !in FormatD(o)
    ensures ParseOctet(FormatD(o)) == Some(o)
  {
    OctetDigits(o);
  }

  lemma SplitFour(a: string, b: string, c: string, d: string)
    requires '.' !in a && '.' !in b && '.' !in c && '.' !in d
    ensures Split(a + "." + b + "." + c + "." + d, '.') == [a, b, c, d]
  {
    var cd := c + ['.'] + d;
    var bcd := b + ['.'] + cd;
    assert a + "." + b + "." + c + "." + d == a + ['.'] + bcd;
    SplitNoSep(d, '.');
    SplitAtSep(c, '.', d);
    SplitAtSep(b, '.', cd);
    SplitAtSep(a, '.', bcd);
  }

  /**
    The text `IPSTR` renders for `IP2STR(addr)`: the four `%d` texts of the
    octets, joined by dots. Each octet prints as one to three digits, so the
    text is 7 to 15 characters long, and it parses back to the octets it was
    printed from.
  */
  function DottedQuad(q: Quad): (s: string)
    ensures Split(s, '.') == [FormatD(q.o0), FormatD(q.o1), FormatD(q.o2), FormatD(q.o3)]
    ensures 7 <= |s| <= 15
    ensures ParseDottedQuad(s) == Some(q)
  {
    OctetText(q.o0);
    OctetText(q.o1);
    OctetText(q.o2);
    OctetText(q.o3);
    SplitFour(FormatD(q.o0), FormatD(q.o1), FormatD(q.o2), FormatD(q.o3));
    FormatD(q.o0) + "." + FormatD(q.o1) + "." + FormatD(q.o2) + "." + FormatD(q.o3)
  }

  /** The address logged for the example acquisition 203.0.113.5. */
  lemma ExampleAddressText()
    ensures DottedQuad(Ip2Str(Pack(Quad(203, 0, 113, 5)))) == "203.0.113.5"
  {
    var q := Quad(203, 0, 113, 5);
    assert Ip2Str(Pack(q)) == q by {
      UnpackPack(q);
    }
    assert FormatD(203) == "203" by {
      assert Digits(20) == "20";
    }
    assert FormatD(113) == "113" by {
      assert Digits(11) == "11";
    }
    assert FormatD(0) == "0" && FormatD(5) == "5";
  }
}

/** How challenges travel: hexadecimal inside the service, base64url without padding (section 5 of
    RFC 4648) to and from the browser. */
module Base64 {
  import opened Bytes
  import opened Cbor

  // ----- hexadecimal

  type Nibble = n: int | 0 <= n < 16

  function HexDigit(n: Nibble): char {
    if n < 10 then (n + '0' as int) as char else (n - 10 + 'a' as int) as char
  }

  function HexValue(c: char): Option<Nibble> {
    if '0' <= c <= '9' then Some((c - '0') as int)
    else if 'a' <= c <= 'f' then Some((c - 'a') as int + 10)
    else if 'A' <= c <= 'F' then Some((c - 'A') as int + 10)
    else None
  }

  function ByteOf(hi: Nibble, lo: Nibble): Byte {
    var high: int, low: int := hi, lo;
    high * 16 + low
  }

  /** `bytes.hex()` */
  function Hex(bs: ByteString): string {
    if bs == [] then "" else [HexDigit(bs[0] / 16), HexDigit(bs[0] % 16)] + Hex(bs[1..])
  }

  predicate IsSpace(c: char) { c == ' ' || '\t' as int <= c as int <= '\r' as int }

  /** `bytes.fromhex`: white space between bytes is skipped, digits come in pairs. */
  function FromHex(s: string): Option<ByteString> {
    if s == "" then Some([])
    else if IsSpace(s[0]) then FromHex(s[1..])
    else if |s| == 1 then None
    else
      match (HexValue(s[0]), HexValue(s[1]), FromHex(s[2..]))
      case (Some(hi), Some(lo), Some(rest)) => Some([ByteOf(hi, lo)] + rest)
      case _ => None
  }

  lemma {:induction false} HexDigits(n: Nibble)
    ensures HexValue(HexDigit(n)) == Some(n) && !IsSpace(HexDigit(n))
  {
  }

  lemma {:induction false} HexRoundTrip(bs: ByteString)
    ensures FromHex(Hex(bs)) == Some(bs)
  {
    if bs == [] {
    } else {
      HexRoundTrip(bs[1..]);
      var hi, lo := bs[0] / 16, bs[0] % 16;
      HexDigits(hi);
      HexDigits(lo);
      var s := Hex(bs);
      assert s[0] == HexDigit(hi) && s[1] == HexDigit(lo) && s[2..] == Hex(bs[1..]);
      assert [ByteOf(hi, lo)] + bs[1..] == bs;
    }
  }

  // ----- base64

  type Six = n: int | 0 <= n < 64

  function Letter(n: Six): char {
    if n < 26 then (n + 'A' as int) as char
    else if n < 52 then (n - 26 + 'a' as int) as char
    else if n < 62 then (n - 52 + '0' as int) as char
    else if n == 62 then '+'
    else '/'
  }

  function LetterValue(c: char): Option<Six> {
    if 'A' <= c <= 'Z' then Some((c - 'A') as int)
    else if 'a' <= c <= 'z' then Some((c - 'a') as int + 26)
    else if '0' <= c <= '9' then Some((c - '0') as int + 52)
    else if c == '+' then Some(62)
    else if c == '/' then Some(63)
    else None
  }

  /** The letters of section 4 of RFC 4648, before padding. */
  function Letters(bs: ByteString): string {
    if bs == [] then ""
    else if |bs| == 1 then [Letter(bs[0] / 4), Letter(bs[0] % 4 * 16)]
    else if |bs| == 2 then
      [Letter(bs[0] / 4), Letter(bs[0] % 4 * 16 + bs[1] / 16), Letter(bs[1] % 16 * 4)]
    else
      [Letter(bs[0] / 4), Letter(bs[0] % 4 * 16 + bs[1] / 16), Letter(bs[1] % 16 * 4 + bs[2] / 64), Letter(bs[2] % 64)]
      + Letters(bs[3..])
  }

  function Padding(n: nat): string { if n % 3 == 0 then "" else if n % 3 == 1 then "==" else "=" }

  /** `base64.b64encode` */
  function B64Encode(bs: ByteString): string { Letters(bs) + Padding(|bs|) }

  /** What the decoder has read of the current group of four: how many letters, the bits of the
      last one that are still to be used, and the padding characters since. */
  datatype Group = Group(count: nat, left: nat, pads: nat)
  {
    ghost predicate Valid() {
      || (count == 0 && left == 0)
      || (count == 1 && left < 64)
      || (count == 2 && left < 16)
      || (count == 3 && left < 4)
    }
  }

  function AddLetter(g: Group, n: Six): (r: (ByteString, Group))
    requires g.Valid()
    ensures r.1.Valid()
  {
    if g.count == 0 then ([], Group(1, n, 0))
    else if g.count == 1 then ([g.left * 4 + n / 16], Group(2, n % 16, 0))
    else if g.count == 2 then ([g.left * 16 + n / 4], Group(3, n % 4, 0))
    else ([g.left * 64 + n], Group(0, 0, 0))
  }

  /** The bytes of the letters read are put before what the rest decodes to. */
  function Before(out: ByteString, rest: Option<ByteString>): Option<ByteString> {
    match rest
    case None => None
    case Some(r) => Some(out + r)
  }

  /** `base64.b64decode` as it is by default: characters outside the alphabet are skipped, and
      nothing after sufficient padding is read. None is `binascii.Error`. */
  function B64DecodeFrom(s: string, g: Group): Option<ByteString>
    requires g.Valid()
  {
    if s == "" then (if g.count == 0 then Some([]) else None)
    else if s[0] == '=' then
      if g.count >= 2 && g.count + g.pads + 1 >= 4 then Some([])
      else B64DecodeFrom(s[1..], if g.count >= 2 then g.(pads := g.pads + 1) else g)
    else
      match LetterValue(s[0])
      case None => B64DecodeFrom(s[1..], g)
      case Some(n) =>
        var (out, g') := AddLetter(g, n);
        Before(out, B64DecodeFrom(s[1..], g'))
  }

  predicate IsAscii(s: string) { forall i :: 0 <= i < |s| ==> s[i] as int < 128 }

  /** A string with a character outside ASCII is a `ValueError`. */
  function B64Decode(s: string): Option<ByteString> {
    if IsAscii(s) then B64DecodeFrom(s, Group(0, 0, 0)) else None
  }

  // ----- the service's own functions

  function Replace(s: string, from: char, to: char): (r: string)
    ensures |r| == |s|
  {
    seq(|s|, i requires 0 <= i < |s| => if s[i] == from then to else s[i])
  }

  function RStrip(s: string, c: char): string {
    if s != "" && s[|s| - 1] == c then RStrip(s[..|s| - 1], c) else s
  }

  function Equals(n: nat): (r: string)
    ensures |r| == n
  {
    seq(n, _ => '=')
  }

  /** `_b64url` */
  function B64Url(bs: ByteString): string {
    RStrip(Replace(Replace(B64Encode(bs), '+', '-'), '/', '_'), '=')
  }

  function Padded(t: string): string {
    var padding := 4 - |t| % 4;
    if padding != 4 then t + Equals(padding) else t
  }

  /** `_b64url_decode` */
  function B64UrlDecode(s: string): Option<ByteString> {
    var t := Replace(Replace(s, '-', '+'), '_', '/');
    B64Decode(Padded(t))
  }

  // ----- laws

  predicate IsLetter(c: char) { LetterValue(c).Some? }

  lemma {:induction false} LetterBack(n: Six)
    ensures LetterValue(Letter(n)) == Some(n) && Letter(n) != '='
  {
  }

  lemma {:induction false} LettersShape(bs: ByteString)
    ensures |Letters(bs)| == |bs| / 3 * 4 + if |bs| % 3 == 0 then 0 else |bs| % 3 + 1
    ensures forall c :: c in Letters(bs) ==> IsLetter(c)
  {
    if |bs| >= 3 { LettersShape(bs[3..]); }
  }

  lemma {:induction false} ReadLetter(n: Six, rest: string, g: Group)
    requires g.Valid()
    ensures B64DecodeFrom([Letter(n)] + rest, g) == Before(AddLetter(g, n).0, B64DecodeFrom(rest, AddLetter(g, n).1))
  {
    LetterBack(n);
    var s := [Letter(n)] + rest;
    assert s[0] == Letter(n) && s[1..] == rest;
  }

  lemma {:induction false} ReadPads(count: nat, left: nat)
    requires count == 2 || count == 3
    requires Group(count, left, 0).Valid()
    ensures B64DecodeFrom(if count == 2 then "==" else "=", Group(count, left, 0)) == Some([])
  {
    assert "=="[1..] == "=";
  }

  lemma {:induction false} BeforeTwice(a: ByteString, b: ByteString, rest: Option<ByteString>)
    ensures Before(a, Before(b, rest)) == Before(a + b, rest)
  {
    if rest.Some? { Assoc(a, b, rest.value); }
  }

  lemma {:induction false} ReadTwo(m: Six, n: Six, rest: string, g: Group)
    requires g.Valid()
    ensures var (a, g1) := AddLetter(g, m);
      var (b, g2) := AddLetter(g1, n);
      B64DecodeFrom([Letter(m), Letter(n)] + rest, g) == Before(a + b, B64DecodeFrom(rest, g2))
  {
    var (a, g1) := AddLetter(g, m);
    var (b, g2) := AddLetter(g1, n);
    assert [Letter(m), Letter(n)] + rest == [Letter(m)] + ([Letter(n)] + rest);
    ReadLetter(m, [Letter(n)] + rest, g);
    ReadLetter(n, rest, g1);
    BeforeTwice(a, b, B64DecodeFrom(rest, g2));
  }

  lemma {:induction false} DecodeOne(b: Byte)
    ensures B64DecodeFrom(Letters([b]) + "==", Group(0, 0, 0)) == Some([b])
  {
    var m, n := b / 4, b % 4 * 16;
    assert Letters([b]) == [Letter(m), Letter(n)] && [m * 4 + n / 16] == [b] && n % 16 == 0;
    assert [] + [m * 4 + n / 16] == [b];
    ReadTwo(m, n, "==", Group(0, 0, 0));
    ReadPads(2, 0);
    assert [b] + [] == [b];
  }

  /** The six-bit pieces of two bytes, and of three, put together again. */
  lemma {:induction false} Joined(b: Byte, c: Byte)
    ensures [b / 4 * 4 + (b % 4 * 16 + c / 16) / 16] == [b]
    ensures (b % 4 * 16 + c / 16) % 16 == c / 16
  {
  }

  lemma {:induction false} JoinedLast(c: Byte, d: Byte)
    ensures [c / 16 * 16 + (c % 16 * 4 + d / 64) / 4] == [c]
    ensures [c / 16 * 16 + (c % 16 * 4 + d / 64) / 4, (c % 16 * 4 + d / 64) % 4 * 64 + d % 64] == [c, d]
    ensures c % 16 * 4 % 4 == 0 && [c / 16 * 16 + c % 16 * 4 / 4] == [c]
  {
  }

  lemma {:induction false} DecodeTwo(b: Byte, c: Byte)
    ensures B64DecodeFrom(Letters([b, c]) + "=", Group(0, 0, 0)) == Some([b, c])
  {
    var m, n, o := b / 4, b % 4 * 16 + c / 16, c % 16 * 4;
    assert Letters([b, c]) == [Letter(m), Letter(n), Letter(o)];
    DecodeThreeLetters(m, n, o);
    Joined(b, c);
    JoinedLast(c, 0);
    assert [b] + [c] == [b, c];
  }

  lemma {:induction false} DecodeThreeLetters(m: Six, n: Six, o: Six)
    requires o % 4 == 0
    ensures B64DecodeFrom([Letter(m), Letter(n), Letter(o)] + "=", Group(0, 0, 0)) ==
      Some([m * 4 + n / 16] + [n % 16 * 16 + o / 4])
  {
    assert [Letter(m), Letter(n), Letter(o)] + "=" == [Letter(m), Letter(n)] + ([Letter(o)] + "=");
    ReadTwo(m, n, [Letter(o)] + "=", Group(0, 0, 0));
    assert [] + [m * 4 + n / 16] == [m * 4 + n / 16];
    ReadLetter(o, "=", Group(2, n % 16, 0));
    ReadPads(3, 0);
    assert [n % 16 * 16 + o / 4] + [] == [n % 16 * 16 + o / 4];
  }

  lemma {:induction false} ReadFirstTwo(m: Six, n: Six, rest: string)
    ensures B64DecodeFrom([Letter(m), Letter(n)] + rest, Group(0, 0, 0)) ==
      Before([m * 4 + n / 16], B64DecodeFrom(rest, Group(2, n % 16, 0)))
  {
    ReadTwo(m, n, rest, Group(0, 0, 0));
    assert [] + [m * 4 + n / 16] == [m * 4 + n / 16];
  }

  lemma {:induction false} ReadLastTwo(o: Six, p: Six, left: nat, rest: string)
    requires left < 16
    ensures B64DecodeFrom([Letter(o), Letter(p)] + rest, Group(2, left, 0)) ==
      Before([left * 16 + o / 4, o % 4 * 64 + p], B64DecodeFrom(rest, Group(0, 0, 0)))
  {
    ReadTwo(o, p, rest, Group(2, left, 0));
    assert [left * 16 + o / 4] + [o % 4 * 64 + p] == [left * 16 + o / 4, o % 4 * 64 + p];
  }

  lemma {:induction false} DecodeFourLetters(m: Six, n: Six, o: Six, p: Six, rest: string)
    ensures B64DecodeFrom([Letter(m), Letter(n), Letter(o), Letter(p)] + rest, Group(0, 0, 0)) ==
      Before([m * 4 + n / 16] + [n % 16 * 16 + o / 4, o % 4 * 64 + p], B64DecodeFrom(rest, Group(0, 0, 0)))
  {
    assert [Letter(m), Letter(n), Letter(o), Letter(p)] + rest == [Letter(m), Letter(n)] + ([Letter(o), Letter(p)] + rest);
    ReadFirstTwo(m, n, [Letter(o), Letter(p)] + rest);
    ReadLastTwo(o, p, n % 16, rest);
    BeforeTwice([m * 4 + n / 16], [n % 16 * 16 + o / 4, o % 4 * 64 + p], B64DecodeFrom(rest, Group(0, 0, 0)));
  }

  lemma {:induction false} DecodeThree(b: Byte, c: Byte, d: Byte, rest: string)
    ensures B64DecodeFrom(Letters([b, c, d]) + rest, Group(0, 0, 0)) ==
      Before([b, c, d], B64DecodeFrom(rest, Group(0, 0, 0)))
  {
    var m, n, o, p := b / 4, b % 4 * 16 + c / 16, c % 16 * 4 + d / 64, d % 64;
    assert [b, c, d][3..] == [];
    assert Letters([b, c, d]) == [Letter(m), Letter(n), Letter(o), Letter(p)];
    DecodeFourLetters(m, n, o, p, rest);
    Joined(b, c);
    JoinedLast(c, d);
    assert [b] + [c, d] == [b, c, d];
  }

  lemma {:induction false} PaddingSame(n: nat)
    ensures Padding(3 + n) == Padding(n)
  {
  }

  lemma {:induction false} LettersSplit(b: Byte, c: Byte, d: Byte, tail: ByteString)
    ensures B64Encode([b, c, d] + tail) == Letters([b, c, d]) + B64Encode(tail)
  {
    LettersNext([b, c, d], tail);
    PaddingSame(|tail|);
  }

  lemma {:induction false} LettersNext(head: ByteString, tail: ByteString)
    requires |head| == 3
    ensures Letters(head + tail) == Letters(head) + Letters(tail)
  {
    var bs := head + tail;
    assert head[3..] == [] && bs[3..] == tail;
    assert bs[0] == head[0] && bs[1] == head[1] && bs[2] == head[2];
  }

  lemma {:induction false} DecodeEncoded(bs: ByteString)
    ensures B64DecodeFrom(B64Encode(bs), Group(0, 0, 0)) == Some(bs)
  {
    if |bs| == 1 {
      DecodeOne(bs[0]);
      assert bs == [bs[0]];
    } else if |bs| == 2 {
      DecodeTwo(bs[0], bs[1]);
      assert bs == [bs[0], bs[1]];
    } else if |bs| >= 3 {
      DecodeEncoded(bs[3..]);
      DecodeNext(bs[0], bs[1], bs[2], bs[3..]);
      assert bs == [bs[0], bs[1], bs[2]] + bs[3..];
    }
  }

  lemma {:induction false} DecodeNext(b: Byte, c: Byte, d: Byte, tail: ByteString)
    requires B64DecodeFrom(B64Encode(tail), Group(0, 0, 0)) == Some(tail)
    ensures B64DecodeFrom(B64Encode([b, c, d] + tail), Group(0, 0, 0)) == Some([b, c, d] + tail)
  {
    LettersSplit(b, c, d, tail);
    DecodeThree(b, c, d, B64Encode(tail));
  }

  /** Stripping the padding off the translated text leaves the translated letters. */
  lemma {:induction false} StripsPadding(s: string, n: nat)
    requires forall c :: c in s ==> c != '='
    ensures RStrip(s + Equals(n), '=') == s
    decreases n
  {
    if n == 0 {
      assert s + Equals(0) == s;
      if s != "" { assert s[|s| - 1] in s; }
    } else {
      assert (s + Equals(n))[..|s + Equals(n)| - 1] == s + Equals(n - 1);
      StripsPadding(s, n - 1);
    }
  }

  lemma {:induction false} UrlAndBack(s: string)
    requires forall c :: c in s ==> IsLetter(c)
    ensures var u := Replace(Replace(s, '+', '-'), '/', '_');
      Replace(Replace(u, '-', '+'), '_', '/') == s
  {
    forall i | 0 <= i < |s| ensures s[i] != '-' && s[i] != '_' { assert s[i] in s; }
  }

  lemma {:induction false} Translated(s: string, n: nat)
    requires forall c :: c in s ==> IsLetter(c)
    ensures var u := Replace(Replace(s, '+', '-'), '/', '_');
      Replace(Replace(s + Equals(n), '+', '-'), '/', '_') == u + Equals(n) && forall c :: c in u ==> c != '='
  {
    forall i | 0 <= i < |s| ensures s[i] != '=' { assert s[i] in s; }
  }

  lemma {:induction false} UrlIsLetters(bs: ByteString)
    ensures B64Url(bs) == Replace(Replace(Letters(bs), '+', '-'), '/', '_')
  {
    LettersShape(bs);
    var n := |Padding(|bs|)|;
    assert Padding(|bs|) == Equals(n);
    Translated(Letters(bs), n);
    StripsPadding(Replace(Replace(Letters(bs), '+', '-'), '/', '_'), n);
  }

  /** Nothing is lost by stripping the padding: the length tells how much there was. */
  lemma {:induction false} PaddingRestored(bs: ByteString)
    ensures Padded(Letters(bs)) == B64Encode(bs)
  {
    LettersLength(bs);
    RestCases(|bs|);
    assert Padding(|bs|) == Equals(|Padding(|bs|)|);
    assert Letters(bs) + "" == Letters(bs);
  }

  lemma {:induction false} LettersLength(bs: ByteString)
    ensures |Letters(bs)| == LengthOf(|bs|)
  {
    LettersShape(bs);
  }

  function LengthOf(n: nat): nat { n / 3 * 4 + if n % 3 == 0 then 0 else n % 3 + 1 }

  lemma {:induction false} RestCases(n: nat)
    ensures 4 - LengthOf(n) % 4 == if n % 3 == 0 then 4 else |Padding(n)|
  {
  }

  lemma {:induction false} LettersAreLetters(bs: ByteString)
    ensures forall c :: c in Letters(bs) ==> IsLetter(c)
  {
    LettersShape(bs);
  }

  lemma {:induction false} EncodedIsAscii(bs: ByteString)
    ensures IsAscii(B64Encode(bs))
  {
    LettersShape(bs);
    forall i | 0 <= i < |B64Encode(bs)| ensures (B64Encode(bs)[i] as int) < 128 {
      if i < |Letters(bs)| { assert Letters(bs)[i] in Letters(bs); }
    }
  }

  /** Section 5 of RFC 4648: base64url text without padding decodes to the bytes it was made from. */
  lemma {:induction false} Base64UrlRoundTrip(bs: ByteString)
    ensures B64UrlDecode(B64Url(bs)) == Some(bs)
  {
    UrlIsLetters(bs);
    LettersAreLetters(bs);
    UrlAndBack(Letters(bs));
    PaddingRestored(bs);
    EncodedIsAscii(bs);
    DecodeEncoded(bs);
  }

  /** What `login_start` sends for a challenge, `login_complete` turns back into the very key under
      which the store keeps it. */
  lemma {:induction false} ChallengeRoundTrip(raw: ByteString)
    ensures FromHex(Hex(raw)) == Some(raw)
    ensures B64UrlDecode(B64Url(raw)) == Some(raw)
    ensures var sent := B64Url(FromHex(Hex(raw)).value);
      B64UrlDecode(sent).Some? && Hex(B64UrlDecode(sent).value) == Hex(raw)
  {
    HexRoundTrip(raw);
    Base64UrlRoundTrip(raw);
  }

  /** Two draws of the generator never become one key. */
  lemma {:induction false} HexInjective(a: ByteString, b: ByteString)
    requires Hex(a) == Hex(b)
    ensures a == b
  {
    HexRoundTrip(a);
    HexRoundTrip(b);
  }
}

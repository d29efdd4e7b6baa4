/**
 * Percent-encoded texts read back by the rules of section 2.1 of RFC 3986 and section 3 of RFC 3629: what
 * `encodeURIComponent` writes is the text it was given, and nothing is escaped that need not be.
 */
module UriReading {
  import opened Prelude
  import opened CodeUnits

  /** The characters that stand for themselves. */
  predicate IsPlain(u: Unit) {
    || 'A' as int <= u <= 'Z' as int || 'a' as int <= u <= 'z' as int || '0' as int <= u <= '9' as int
    || u == '-' as int || u == '_' as int || u == '.' as int || u == '!' as int || u == '~' as int || u == '*' as int
    || u == '\'' as int || u == '(' as int || u == ')' as int
  }

  function HexDigit(u: Unit): Option<nat> {
    if '0' as int <= u <= '9' as int then Some(u - '0' as int)
    else if 'A' as int <= u <= 'F' as int then Some(u - 'A' as int + 10)
    else None
  }

  /** The byte that a percent sign and two digits stand for. */
  function ByteAt(t: Text): (b: Option<nat>)
    ensures b.Some? ==> |t| >= 3
  {
    if |t| >= 3 && t[0] == '%' as int && HexDigit(t[1]).Some? && HexDigit(t[2]).Some? then
      Some(HexDigit(t[1]).value * 16 + HexDigit(t[2]).value)
    else None
  }

  function BytesAt(t: Text, n: nat): (bytes: Option<seq<nat>>)
    ensures bytes.Some? ==> |bytes.value| == n && |t| >= 3 * n
  {
    if n == 0 then Some([])
    else if ByteAt(t).None? || BytesAt(t[3..], n - 1).None? then None
    else Some([ByteAt(t).value] + BytesAt(t[3..], n - 1).value)
  }

  /** How many bytes the first of them announces. */
  function Announced(lead: nat): nat {
    if lead < 128 then 1 else if lead / 32 == 6 then 2 else if lead / 16 == 14 then 3 else 4
  }

  /** The last six bits of the bytes behind the first one. */
  function Continued(value: nat, bytes: seq<nat>): nat
    decreases |bytes|
  {
    if bytes == [] then value else Continued(value * 64 + bytes[0] % 64, bytes[1..])
  }

  function CodePoint(bytes: seq<nat>): nat
    requires bytes != []
  {
    Continued(match |bytes| case 1 => bytes[0] case 2 => bytes[0] % 32 case 3 => bytes[0] % 16 case _ => bytes[0] % 8,
              bytes[1..])
  }

  /** A code point as one code unit or as a pair. */
  function UnitsOf(n: nat): seq<int> {
    if n < 0x10000 then [n] else [0xD800 + (n - 0x10000) / 1024, 0xDC00 + (n - 0x10000) % 1024]
  }

  function Read(t: Text): Option<seq<int>>
    decreases |t|
  {
    if t == [] then Some([])
    else if t[0] == '%' as int then
      if ByteAt(t).None? then None
      else
        var n := Announced(ByteAt(t).value);
        if BytesAt(t, n).None? || Read(t[3 * n..]).None? then None
        else Some(UnitsOf(CodePoint(BytesAt(t, n).value)) + Read(t[3 * n..]).value)
    else if !IsPlain(t[0]) || Read(t[1..]).None? then None
    else Some([t[0]] + Read(t[1..]).value)
  }

  function Escaped(b: Byte): (t: Text)
    ensures |t| == 3 && t[0] == '%' as int
  {
    [PERCENT, UpperHex(b / 16), UpperHex(b % 16)]
  }

  lemma EscapedByteReads(b: Byte, x: Text)
    ensures ByteAt(Escaped(b) + x) == Some(b)
  {
  }

  lemma FirstEscaped(bytes: seq<Byte>, x: Text)
    requires bytes != []
    ensures PercentBytes(bytes) + x == Escaped(bytes[0]) + (PercentBytes(bytes[1..]) + x)
  {
  }

  lemma {:induction false} BytesRead(bytes: seq<Byte>, x: Text)
    ensures BytesAt(PercentBytes(bytes) + x, |bytes|) == Some(bytes)
    decreases |bytes|
  {
    if bytes != [] {
      BytesRead(bytes[1..], x);
      FirstEscaped(bytes, x);
      OneMoreByte(bytes[0], bytes[1..], PercentBytes(bytes[1..]) + x);
      assert bytes == [bytes[0]] + bytes[1..];
    }
  }

  lemma OneMoreByte(b: Byte, more: seq<Byte>, rest: Text)
    requires BytesAt(rest, |more|) == Some(more)
    ensures BytesAt(Escaped(b) + rest, |more| + 1) == Some([b] + more)
  {
    EscapedByteReads(b, rest);
    assert (Escaped(b) + rest)[3..] == rest;
  }

  lemma Continued1(v: nat, b: nat)
    ensures Continued(v, [b]) == v * 64 + b % 64
  {
    assert [b][1..] == [];
  }

  lemma Continued2(v: nat, b: nat, c: nat)
    ensures Continued(v, [b, c]) == (v * 64 + b % 64) * 64 + c % 64
  {
    assert [b, c][1..] == [c];
    Continued1(v * 64 + b % 64, c);
  }

  lemma Continued3(v: nat, b: nat, c: nat, d: nat)
    ensures Continued(v, [b, c, d]) == ((v * 64 + b % 64) * 64 + c % 64) * 64 + d % 64
  {
    assert [b, c, d][1..] == [c, d];
    Continued2(v * 64 + b % 64, c, d);
  }

  lemma TwoBytes(n: nat)
    requires 0x80 <= n < 0x800
    ensures var lead, b := 0xC0 + n / 0x40, 0x80 + n % 0x40; lead / 32 == 6 && (lead % 32) * 64 + b % 64 == n
  {
    assert (0xC0 + n / 0x40) % 32 == n / 0x40;
    assert (0x80 + n % 0x40) % 64 == n % 0x40;
  }

  lemma ThreeBytes(n: nat)
    requires 0x800 <= n < 0x10000
    ensures var lead, b, c := 0xE0 + n / 0x1000, 0x80 + n / 0x40 % 0x40, 0x80 + n % 0x40;
            lead / 16 == 14 && ((lead % 16) * 64 + b % 64) * 64 + c % 64 == n
  {
    SixBits(n);
    assert (0xE0 + n / 0x1000) % 16 == n / 0x1000;
    assert (0x80 + n / 0x40 % 0x40) % 64 == n / 0x40 % 0x40 && (0x80 + n % 0x40) % 64 == n % 0x40;
  }

  lemma FourBytes(n: nat)
    requires 0x10000 <= n < 0x110000
    ensures var lead, b, c, d :=
              0xF0 + n / 0x40000, 0x80 + n / 0x1000 % 0x40, 0x80 + n / 0x40 % 0x40, 0x80 + n % 0x40;
            lead / 16 == 15 && (((lead % 8) * 64 + b % 64) * 64 + c % 64) * 64 + d % 64 == n
  {
    SixBits(n);
    assert (0xF0 + n / 0x40000) % 8 == n / 0x40000;
    assert (0x80 + n / 0x1000 % 0x40) % 64 == n / 0x1000 % 0x40;
    assert (0x80 + n / 0x40 % 0x40) % 64 == n / 0x40 % 0x40 && (0x80 + n % 0x40) % 64 == n % 0x40;
  }

  lemma {:induction false} PointReads(n: nat)
    requires IsScalar(n)
    ensures CodePoint(Utf8(n)) == n && Announced(Utf8(n)[0]) == |Utf8(n)|
  {
    var bytes := Utf8(n);
    if 0x80 <= n < 0x800 {
      TwoBytes(n);
      assert bytes[1..] == [bytes[1]];
      Continued1(bytes[0] % 32, bytes[1]);
    } else if 0x800 <= n < 0x10000 {
      ThreeBytes(n);
      assert bytes[1..] == [bytes[1], bytes[2]];
      Continued2(bytes[0] % 16, bytes[1], bytes[2]);
    } else if 0x10000 <= n {
      FourBytes(n);
      assert bytes[1..] == [bytes[1], bytes[2], bytes[3]];
      Continued3(bytes[0] % 8, bytes[1], bytes[2], bytes[3]);
    }
  }

  lemma FrontReads(s: Text)
    requires s != [] && PointAt(s).Some?
    ensures UnitsOf(PointAt(s).value.value) == s[..PointAt(s).value.width]
  {
  }

  lemma FirstByteReads(bytes: seq<Byte>, x: Text)
    requires bytes != []
    ensures var t := PercentBytes(bytes) + x;
            t[0] == '%' as int && ByteAt(t) == Some(bytes[0]) && t[3 * |bytes|..] == x
  {
    FirstEscaped(bytes, x);
    EscapedByteReads(bytes[0], PercentBytes(bytes[1..]) + x);
  }

  lemma EscapedReads(bytes: seq<Byte>, x: Text)
    requires bytes != [] && Announced(bytes[0]) == |bytes| && Read(x).Some?
    ensures Read(PercentBytes(bytes) + x) == Some(UnitsOf(CodePoint(bytes)) + Read(x).value)
  {
    FirstByteReads(bytes, x);
    BytesRead(bytes, x);
  }

  lemma PlainReads(u: Unit, x: Text)
    requires IsPlain(u) && Read(x).Some?
    ensures Read([u] + x) == Some([u as int] + Read(x).value)
  {
    assert ([u] + x)[1..] == x;
  }

  lemma EncodedPointReads(n: nat, x: Text)
    requires IsScalar(n) && Read(x).Some?
    ensures Read(EncodePoint(n) + x) == Some(UnitsOf(n) + Read(x).value)
  {
    if IsUnescaped(n) {
      PlainReads(n, x);
    } else {
      PointReads(n);
      EscapedReads(Utf8(n), x);
    }
  }

  lemma EncodeStep(s: Text)
    requires s != [] && EncodeComponent(s).Success?
    ensures PointAt(s).Some?
    ensures var p := PointAt(s).value;
            && EncodeComponent(s[p.width..]).Success?
            && EncodeComponent(s).value == EncodePoint(p.value) + EncodeComponent(s[p.width..]).value
  {
  }

  /** Reading what was encoded gives the text back. */
  lemma {:induction false} EncodedReads(s: Text)
    requires EncodeComponent(s).Success?
    ensures Read(EncodeComponent(s).value) == Some(s)
    decreases |s|
  {
    if s != [] {
      EncodeStep(s);
      var p := PointAt(s).value;
      EncodedReads(s[p.width..]);
      EncodedPointReads(p.value, EncodeComponent(s[p.width..]).value);
      FrontReads(s);
      assert s == s[..p.width] + s[p.width..];
    }
  }

  /** Characters that may stand for themselves do. */
  lemma {:induction false} PlainStays(s: Text)
    requires forall u <- s :: IsPlain(u)
    ensures EncodeComponent(s) == Success(s)
    decreases |s|
  {
    if s != [] {
      assert IsPlain(s[0]);
      PlainStays(s[1..]);
      assert s == [s[0]] + s[1..];
    }
  }
}

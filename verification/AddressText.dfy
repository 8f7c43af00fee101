/** The canonical text of an address: 32 hexadecimal digits. */
module AddressText {
  import opened Bytes
  import opened Header
  import opened Wrappers

  const PROTOCOL_MAGIC := 0xFB14

  datatype AddrParseError = Format | BadProtocol

  predicate IsHexDigit(c: char) {
    '0' <= c <= '9' || 'a' <= c <= 'f' || 'A' <= c <= 'F'
  }

  function HexVal(c: char): (n: nat)
    requires IsHexDigit(c)
    ensures n < 16
  {
    if '0' <= c <= '9' then c as int - '0' as int
    else if 'a' <= c <= 'f' then c as int - 'a' as int + 10
    else c as int - 'A' as int + 10
  }

  /** The digit in lower case. */
  function Lower(c: char): char {
    if 'A' <= c <= 'F' then (c as int + 32) as char else c
  }

  function Hex(b: bytes): (s: string)
    ensures |s| == 2 * |b|
  {
    if b == [] then "" else Hex(b[..|b| - 1]) + [HexDigit(b[|b| - 1] / 16), HexDigit(b[|b| - 1] % 16)]
  }

  function CanonicalString(a: Address): (s: string)
    ensures |s| == 32
  {
    Hex(AddressBytes(a))
  }

  predicate AllHex(s: string) {
    forall i :: 0 <= i < |s| ==> IsHexDigit(s[i])
  }

  /** The bytes that an even number of digits denotes. */
  function Unhex(s: string): (b: bytes)
    requires |s| % 2 == 0 && AllHex(s)
    ensures 2 * |b| == |s|
  {
    if s == "" then [] else Unhex(s[..|s| - 2]) + [16 * HexVal(s[|s| - 2]) + HexVal(s[|s| - 1])]
  }

  function FromCanonicalStr(s: string): Result<Address, AddrParseError> {
    if |s| != 32 || !AllHex(s) then Err(Format)
    else
      var a := ReadAddress(Unhex(s));
      if a.protocol != PROTOCOL_MAGIC then Err(BadProtocol) else Ok(a)
  }

  lemma {:induction false} DigitRoundTrip(n: nat)
    requires n < 16
    ensures IsHexDigit(HexDigit(n)) && HexVal(HexDigit(n)) == n
  {
  }

  lemma {:induction false} DigitBack(c: char)
    requires IsHexDigit(c)
    ensures HexDigit(HexVal(c)) == Lower(c)
  {
  }

  lemma {:induction false} HexMore(b: bytes, x: u8)
    ensures Hex(b + [x]) == Hex(b) + [HexDigit(x / 16), HexDigit(x % 16)]
  {
    assert (b + [x])[..|b|] == b;
  }

  lemma {:induction false} UnhexMore(s: string, c: char, d: char)
    requires |s| % 2 == 0 && AllHex(s) && IsHexDigit(c) && IsHexDigit(d)
    ensures AllHex(s + [c, d]) && Unhex(s + [c, d]) == Unhex(s) + [16 * HexVal(c) + HexVal(d)]
  {
    hide IsHexDigit, HexVal;
    assert (s + [c, d])[..|s|] == s;
  }

  lemma {:induction false} UnhexHex(b: bytes)
    ensures AllHex(Hex(b)) && |Hex(b)| % 2 == 0 && Unhex(Hex(b)) == b
  {
    hide IsHexDigit, HexVal, HexDigit, Hex, Unhex;
    if b == [] {
      NoDigits();
    } else {
      var n := |b| - 1;
      UnhexHex(b[..n]);
      assert b == b[..n] + [b[n]];
      HexMore(b[..n], b[n]);
      DigitRoundTrip(b[n] / 16);
      DigitRoundTrip(b[n] % 16);
      UnhexMore(Hex(b[..n]), HexDigit(b[n] / 16), HexDigit(b[n] % 16));
    }
  }

  lemma {:induction false} NoDigits()
    ensures Hex([]) == "" && Unhex("") == []
  {
  }

  function LowerAll(s: string): (r: string)
    ensures |r| == |s| && forall i :: 0 <= i < |s| ==> r[i] == Lower(s[i])
  {
    seq(|s|, i requires 0 <= i < |s| => Lower(s[i]))
  }

  lemma {:induction false} PairBack(c: char, d: char)
    requires IsHexDigit(c) && IsHexDigit(d)
    ensures var x := 16 * HexVal(c) + HexVal(d); [HexDigit(x / 16), HexDigit(x % 16)] == [Lower(c), Lower(d)]
  {
    hide IsHexDigit, HexVal, HexDigit, Lower;
    DigitBack(c);
    DigitBack(d);
    var h, l := HexVal(c), HexVal(d);
    assert (16 * h + l) / 16 == h && (16 * h + l) % 16 == l;
  }

  lemma {:induction false} HexUnhex(s: string)
    requires |s| % 2 == 0 && AllHex(s)
    ensures Hex(Unhex(s)) == LowerAll(s)
  {
    hide IsHexDigit, HexVal, HexDigit, Lower, Hex;
    if s == "" {
      assert Hex([]) == "";
    } else {
      var n := |s| - 2;
      HexUnhex(s[..n]);
      PairBack(s[n], s[n + 1]);
      HexMore(Unhex(s[..n]), 16 * HexVal(s[n]) + HexVal(s[n + 1]));
      assert LowerAll(s) == LowerAll(s[..n]) + [Lower(s[n]), Lower(s[n + 1])];
    }
  }

  /** Printing and parsing give the address back, exactly if it carries the protocol number. */
  lemma {:induction false} PrintThenParse(a: Address)
    ensures FromCanonicalStr(CanonicalString(a)) == if a.protocol == PROTOCOL_MAGIC then Ok(a) else Err(BadProtocol)
  {
    UnhexHex(AddressBytes(a));
    AddressToBytes(a);
  }

  /** What parses prints as the same digits in lower case; and every 32 digits with the protocol number parse. */
  lemma {:induction false} ParseThenPrint(s: string)
    ensures var r := FromCanonicalStr(s);
            && (r.Ok? ==> CanonicalString(r.value) == LowerAll(s) && r.value.protocol == PROTOCOL_MAGIC)
            && (r.Ok? <==> |s| == 32 && AllHex(s) && LowerAll(s)[..4] == "fb14")
  {
    if |s| == 32 && AllHex(s) {
      HexUnhex(s);
      AddressFromBytes(Unhex(s));
      var a := ReadAddress(Unhex(s));
      assert CanonicalString(a) == LowerAll(s);
      FirstDigits(a);
    }
  }

  /** The first four digits are the protocol number. */
  lemma {:induction false} FirstDigits(a: Address)
    ensures CanonicalString(a)[..4] == "fb14" <==> a.protocol == PROTOCOL_MAGIC
  {
    var b := AddressBytes(a);
    HexPrefix(b, 2);
    assert b[..2] == Be16(a.protocol);
    TwoBytes(b[..2]);
    if Hex(b[..2]) == "fb14" {
      DigitRoundTrip(b[0] / 16);
      DigitRoundTrip(b[0] % 16);
      DigitRoundTrip(b[1] / 16);
      DigitRoundTrip(b[1] % 16);
    }
  }

  lemma {:induction false} TwoBytes(b: bytes)
    requires |b| == 2
    ensures Hex(b) == [HexDigit(b[0] / 16), HexDigit(b[0] % 16), HexDigit(b[1] / 16), HexDigit(b[1] % 16)]
  {
    assert b[..1][..0] == [];
    assert Hex(b[..1]) == [HexDigit(b[0] / 16), HexDigit(b[0] % 16)];
  }

  lemma {:induction false} HexPrefix(b: bytes, n: nat)
    requires n <= |b|
    ensures Hex(b)[..2 * n] == Hex(b[..n])
  {
    if n < |b| {
      var m := |b| - 1;
      HexPrefix(b[..m], n);
      assert b[..m][..n] == b[..n];
    } else {
      assert b[..n] == b;
    }
  }

  /** Different addresses have different texts. */
  lemma {:induction false} CanonicalInjective(a: Address, b: Address)
    requires CanonicalString(a) == CanonicalString(b)
    ensures a == b
  {
    UnhexHex(AddressBytes(a));
    UnhexHex(AddressBytes(b));
    AddressInjective(a, b);
  }

  // ---- the program ----

  method ToCanonicalString(a: Address) returns (s: string)
    ensures s == CanonicalString(a)
  {
    hide HexDigit;
    var wire := AddressBytes(a);
    s := "";
    var i := 0;
    while i < |wire|
      invariant 0 <= i <= |wire| && s == Hex(wire[..i])
    {
      HexMore(wire[..i], wire[i]);
      assert wire[..i + 1] == wire[..i] + [wire[i]];
      s := s + [HexDigit(wire[i] / 16)];
      s := s + [HexDigit(wire[i] % 16)];
      i := i + 1;
    }
    assert wire[..i] == wire;
  }

  method ParseCanonical(s: string) returns (r: Result<Address, AddrParseError>)
    ensures r == FromCanonicalStr(s)
  {
    hide HexVal, IsHexDigit, ReadAddress;
    if |s| != 32 || !AllHex(s) { return Err(Format); }
    var wire: bytes := [];
    var i := 0;
    while i < 16
      invariant 0 <= i <= 16 && wire == Unhex(s[..2 * i])
    {
      assert s[..2 * i + 2][..2 * i] == s[..2 * i];
      wire := wire + [16 * HexVal(s[2 * i]) + HexVal(s[2 * i + 1])];
      i := i + 1;
    }
    assert s[..32] == s;
    var a := ReadAddress(wire);
    if a.protocol != PROTOCOL_MAGIC { return Err(BadProtocol); }
    r := Ok(a);
  }
}

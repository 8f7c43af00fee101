/** The hand-written printer and parser for JSON arrays of strings that the resolver's
    database keeps its address lists in. A `char` is a Unicode scalar value. */
module JsonList {
  import opened Bytes
  import opened Wrappers

  // ---- printing ----

  /** How one character is written inside a string. */
  function EscapeChar(c: char): (s: string)
    ensures s != []
  {
    if c == '"' then ['\\', '"']
    else if c == '\\' then ['\\', '\\']
    else if c == '\n' then ['\\', 'n']
    else if c == '\r' then ['\\', 'r']
    else if c == '\t' then ['\\', 't']
    else if (c as int) < 0x20 then ['\\', 'u', '0', '0', HexDigit(c as int / 16), HexDigit(c as int % 16)]
    else [c]
  }

  function EscapeString(s: string): string {
    if s == [] then [] else EscapeChar(s[0]) + EscapeString(s[1..])
  }

  function Quoted(s: string): string {
    ['"'] + EscapeString(s) + ['"']
  }

  /** The items that follow an earlier one. */
  function Following(list: seq<string>): string {
    if list == [] then [] else [','] + Quoted(list[0]) + Following(list[1..])
  }

  function Items(list: seq<string>): string {
    if list == [] then [] else Quoted(list[0]) + Following(list[1..])
  }

  function Encoded(list: seq<string>): string {
    ['['] + Items(list) + [']']
  }

  function Remaining(list: seq<string>, i: nat): string
    requires i <= |list|
  {
    if i == 0 then Items(list) else Following(list[i..])
  }

  lemma {:induction false} RemainingStep(list: seq<string>, i: nat, before: string)
    requires i < |list|
    ensures before + Remaining(list, i)
      == before + (if i > 0 then [','] else []) + Quoted(list[i]) + Remaining(list, i + 1)
  {
    hide Quoted;
    assert list[i..][1..] == list[i + 1..];
  }

  method EncodeJsonStrings(list: seq<string>) returns (s: string)
    ensures s == Encoded(list)
  {
    hide EscapeString, Remaining;
    s := ['['];
    var i := 0;
    StartsWithAll(list);
    while i < |list|
      invariant 0 <= i <= |list|
      invariant s + Remaining(list, i) == ['['] + Items(list)
    {
      RemainingStep(list, i, s);
      ghost var before := s;
      if i > 0 {
        s := s + [','];
      }
      s := s + ['"'];
      s := AppendEscaped(s, list[i]);
      s := s + ['"'];
      assert s == before + (if i > 0 then [','] else []) + Quoted(list[i]);
      i := i + 1;
    }
    s := s + [']'];
  }

  lemma {:induction false} StartsWithAll(list: seq<string>)
    ensures Remaining(list, 0) == Items(list)
    ensures Remaining(list, |list|) == []
  {
  }

  method AppendEscaped(prefix: string, item: string) returns (s: string)
    ensures s == prefix + EscapeString(item)
  {
    s := prefix;
    var i := 0;
    while i < |item|
      invariant 0 <= i <= |item|
      invariant s + EscapeString(item[i..]) == prefix + EscapeString(item)
    {
      assert item[i..][1..] == item[i + 1..];
      ghost var before := s;
      s := s + EscapeChar(item[i]);
      assert s + EscapeString(item[i + 1..]) == before + EscapeString(item[i..]);
      i := i + 1;
    }
  }

  // ---- parsing ----

  /** The characters with the Unicode White_Space property. */
  predicate IsSpace(c: char) {
    var n := c as int;
    || 0x09 <= n <= 0x0D || n == 0x20 || n == 0x85 || n == 0xA0 || n == 0x1680
    || 0x2000 <= n <= 0x200A || n == 0x2028 || n == 0x2029 || n == 0x202F || n == 0x205F || n == 0x3000
  }

  function TrimStart(s: string): string {
    if s != [] && IsSpace(s[0]) then TrimStart(s[1..]) else s
  }

  function TrimEnd(s: string): string {
    if s != [] && IsSpace(s[|s| - 1]) then TrimEnd(s[..|s| - 1]) else s
  }

  function Trim(s: string): string {
    TrimEnd(TrimStart(s))
  }

  function HexValue(c: char): Option<nat> {
    if '0' <= c <= '9' then Some(c as int - '0' as int)
    else if 'a' <= c <= 'f' then Some(c as int - 'a' as int + 10)
    else if 'A' <= c <= 'F' then Some(c as int - 'A' as int + 10)
    else Option.None
  }

  function Digits(h: string): Option<nat> {
    if h == [] then Some(0)
    else
      var front := Digits(h[..|h| - 1]);
      var last := HexValue(h[|h| - 1]);
      if front.Some? && last.Some? then Some(16 * front.value + last.value) else Option.None
  }

  /** The library's radix-16 reading of four characters, which allows a leading plus sign. */
  function ParseHex(h: string): Option<nat>
    requires |h| == 4
  {
    if h[0] == '+' then Digits(h[1..]) else Digits(h)
  }

  /** The character that a `\u` sequence adds: none when its digits are malformed or
      name a surrogate. */
  function UnicodeEscape(h: string): string
    requires |h| == 4
  {
    var code := ParseHex(h);
    if code.Some? && (code.value < 0xD800 || 0xE000 <= code.value < 0x11_0000)
    then [code.value as char] else []
  }

  /** The character that a one-letter escape stands for. */
  function Unescape(c: char): char {
    if c == 'n' then '\n' else if c == 'r' then '\r' else if c == 't' then '\t' else c
  }

  datatype Scanner = Scanner(result: seq<string>, current: string, inString: bool, escape: bool)

  /** How many characters the scanner takes in one turn, and its state afterwards. */
  function Turn(rest: string, st: Scanner): (r: (nat, Scanner))
    requires rest != []
    ensures 0 < r.0 <= |rest|
  {
    var c := rest[0];
    if st.escape then
      if c == 'u' then
        if |rest| > 4
        then (5, st.(current := st.current + UnicodeEscape(rest[1..5]), escape := false))
        else (1, st.(escape := false))
      else (1, st.(current := st.current + [Unescape(c)], escape := false))
    else if st.inString then
      if c == '\\' then (1, st.(escape := true))
      else if c == '"' then (1, st.(inString := false, result := st.result + [st.current], current := []))
      else (1, st.(current := st.current + [c]))
    else (1, st.(inString := c == '"'))
  }

  function Scan(rest: string, st: Scanner): seq<string> {
    if rest == [] then st.result
    else
      var t := Turn(rest, st);
      Scan(rest[t.0..], t.1)
  }

  const IDLE := Scanner([], [], false, false)

  function Decoded(text: string): seq<string> {
    var s := Trim(text);
    if s == [] || s[0] != '[' || s[|s| - 1] != ']' then []
    else if Trim(s[1..|s| - 1]) == [] then []
    else Scan(s[1..|s| - 1], IDLE)
  }

  lemma {:induction false} TurnsAt(chars: string, i: nat, j: nat, st: Scanner, st': Scanner)
    requires i < j <= |chars| && Turn(chars[i..], st) == (j - i, st')
    ensures Scan(chars[i..], st) == Scan(chars[j..], st')
  {
    assert chars[i..][j - i..] == chars[j..];
  }

  lemma {:induction false} ScanEnds(rest: string, st: Scanner)
    requires rest == []
    ensures Scan(rest, st) == st.result
  {
  }

  lemma {:induction false} DigitsAhead(chars: string, i: nat)
    requires i + 4 < |chars|
    ensures chars[i..][1..5] == chars[i + 1..i + 5]
  {
    SliceOfSlice(chars, i, |chars|, 1, 5);
    assert chars[i..|chars|] == chars[i..];
  }

  method DecodeJsonStrings(text: string) returns (list: seq<string>)
    ensures list == Decoded(text)
  {
    hide Scan, Trim, UnicodeEscape, Unescape;
    var s := Trim(text);
    if s == [] || s[0] != '[' || s[|s| - 1] != ']' {
      return [];
    }
    var chars := s[1..|s| - 1];
    if Trim(chars) == [] {
      return [];
    }
    var result: seq<string>, current: string, inString, escape := [], [], false, false;
    var i := 0;
    assert chars[0..] == chars;
    while i < |chars|
      invariant 0 <= i <= |chars|
      invariant Scan(chars[i..], Scanner(result, current, inString, escape)) == Scan(chars, IDLE)
    {
      ghost var st := Scanner(result, current, inString, escape);
      ghost var start := i;
      var c := chars[i];
      if escape {
        if c == 'u' {
          if i + 4 < |chars| {
            DigitsAhead(chars, i);
            current := current + UnicodeEscape(chars[i + 1..i + 5]);
            i := i + 4;
          }
        } else {
          current := current + [Unescape(c)];
        }
        escape := false;
      } else if inString {
        if c == '\\' {
          escape := true;
        } else if c == '"' {
          inString := false;
          result := result + [current];
          current := [];
        } else {
          current := current + [c];
        }
      } else if c == '"' {
        inString := true;
      }
      i := i + 1;
      TurnsAt(chars, start, i, st, Scanner(result, current, inString, escape));
    }
    ScanEnds(chars[i..], Scanner(result, current, inString, escape));
    list := result;
  }

  // ---- parsing what was printed ----

  predicate Inside(st: Scanner) {
    st.inString && !st.escape
  }

  lemma {:induction false} HexRoundTrip(n: nat)
    requires n < 0x20
    ensures UnicodeEscape(['0', '0', HexDigit(n / 16), HexDigit(n % 16)]) == [n as char]
  {
    var h := ['0', '0', HexDigit(n / 16), HexDigit(n % 16)];
    HexDigitReads(n / 16);
    HexDigitReads(n % 16);
    assert h[..3][..2][..1][..0] == [];
    assert Digits(h[..3][..2][..1]) == Some(0);
    assert Digits(h[..3][..2]) == Some(0);
    assert Digits(h[..3]) == Some(n / 16);
    assert Digits(h) == Some(n);
  }

  lemma {:induction false} HexDigitReads(n: nat)
    requires n < 16
    ensures HexValue(HexDigit(n)) == Some(n)
  {
  }

  /** One turn of the scanner on a text that continues with `rest`. */
  lemma {:induction false} Turns(taken: string, rest: string, st: Scanner)
    requires taken != [] && Turn(taken + rest, st).0 == |taken|
    ensures Scan(taken + rest, st) == Scan(rest, Turn(taken + rest, st).1)
  {
    assert (taken + rest)[|taken|..] == rest;
  }

  lemma {:induction false} ScanControl(c: char, rest: string, st: Scanner)
    requires (c as int) < 0x20 && c !in ['\n', '\r', '\t'] && Inside(st)
    ensures Scan(EscapeChar(c) + rest, st) == Scan(rest, st.(current := st.current + [c]))
  {
    hide UnicodeEscape, HexDigit;
    var tail := EscapeChar(c)[1..];
    assert EscapeChar(c) + rest == ['\\'] + (tail + rest);
    Turns(['\\'], tail + rest, st);
    HexRoundTrip(c as int);
    assert (tail + rest)[1..5] == ['0', '0', HexDigit(c as int / 16), HexDigit(c as int % 16)];
    Turns(tail, rest, st.(escape := true));
  }

  lemma {:induction false} ScanChar(c: char, rest: string, st: Scanner)
    requires Inside(st)
    ensures Scan(EscapeChar(c) + rest, st) == Scan(rest, st.(current := st.current + [c]))
  {
    hide UnicodeEscape, HexDigit;
    if c in ['"', '\\', '\n', '\r', '\t'] {
      var letter := [EscapeChar(c)[1]];
      assert EscapeChar(c) + rest == ['\\'] + (letter + rest);
      Turns(['\\'], letter + rest, st);
      Turns(letter, rest, st.(escape := true));
    } else if (c as int) < 0x20 {
      ScanControl(c, rest, st);
    } else {
      Turns([c], rest, st);
    }
  }

  lemma {:induction false} ScanString(s: string, rest: string, st: Scanner)
    requires Inside(st)
    ensures Scan(EscapeString(s) + rest, st) == Scan(rest, st.(current := st.current + s))
  {
    hide EscapeChar, Scan;
    if s == [] {
      assert EscapeString(s) + rest == rest;
      assert st.current + s == st.current;
    } else {
      var more := EscapeString(s[1..]) + rest;
      assert EscapeString(s) + rest == EscapeChar(s[0]) + more;
      ScanChar(s[0], more, st);
      ScanString(s[1..], rest, st.(current := st.current + [s[0]]));
      assert st.current + [s[0]] + s[1..] == st.current + s;
    }
  }

  lemma {:induction false} ScanQuoted(s: string, rest: string, done: seq<string>)
    ensures Scan(Quoted(s) + rest, Scanner(done, [], false, false)) == Scan(rest, Scanner(done + [s], [], false, false))
  {
    hide EscapeString;
    var body := EscapeString(s) + ['"'] + rest;
    assert Quoted(s) + rest == ['"'] + body;
    Turns(['"'], body, Scanner(done, [], false, false));
    assert body == EscapeString(s) + (['"'] + rest);
    ScanString(s, ['"'] + rest, Scanner(done, [], true, false));
    assert [] + s == s;
    Turns(['"'], rest, Scanner(done, s, true, false));
  }

  lemma {:induction false} ScanFollowing(list: seq<string>, done: seq<string>)
    ensures Scan(Following(list), Scanner(done, [], false, false)) == done + list
  {
    hide Quoted;
    if list == [] {
      assert done + list == done;
    } else {
      var more := Quoted(list[0]) + Following(list[1..]);
      assert Following(list) == [','] + more;
      Turns([','], more, Scanner(done, [], false, false));
      ScanQuoted(list[0], Following(list[1..]), done);
      ScanFollowing(list[1..], done + [list[0]]);
      assert done + [list[0]] + list[1..] == done + list;
    }
  }

  lemma {:induction false} TrimKeeps(s: string)
    requires s != [] && !IsSpace(s[0])
    ensures Trim(s) != []
    ensures !IsSpace(s[|s| - 1]) ==> Trim(s) == s
  {
    TrimEndKeeps(s);
  }

  lemma {:induction false} TrimEndKeeps(s: string)
    requires s != [] && !IsSpace(s[0])
    ensures TrimEnd(s) != []
  {
    if IsSpace(s[|s| - 1]) {
      TrimEndKeeps(s[..|s| - 1]);
    }
  }

  /** Parsing what was printed gives back every list of strings: the empty list, empty
      strings, quotes, backslashes and control characters included. */
  lemma {:induction false} PrintThenParse(list: seq<string>)
    ensures Decoded(Encoded(list)) == list
  {
    hide Quoted, Following, TrimStart, TrimEnd;
    var s := Encoded(list);
    TrimKeeps(s);
    assert s[1..|s| - 1] == Items(list);
    if list == [] {
      assert Decoded(s) == [];
    } else {
      QuotedStarts(list[0]);
      TrimKeeps(Items(list));
      ScanQuoted(list[0], Following(list[1..]), []);
      ScanFollowing(list[1..], [list[0]]);
      assert [] + [list[0]] == [list[0]];
      assert [list[0]] + list[1..] == list;
    }
  }

  lemma {:induction false} QuotedStarts(s: string)
    ensures Quoted(s) != [] && Quoted(s)[0] == '"'
  {
  }

  /** The printed text is unambiguous. */
  lemma {:induction false} EncodedInjective(a: seq<string>, b: seq<string>)
    requires Encoded(a) == Encoded(b)
    ensures a == b
  {
    PrintThenParse(a);
    PrintThenParse(b);
  }

  // ---- the standard ----

  predicate Printable(s: string) {
    forall k :: 0 <= k < |s| ==> (s[k] as int) >= 0x20
  }

  lemma {:induction false} EscapeStringPrintable(s: string)
    ensures Printable(EscapeString(s))
  {
    if s == [] {
    } else {
      EscapeStringPrintable(s[1..]);
    }
  }

  lemma {:induction false} FollowingPrintable(list: seq<string>)
    ensures Printable(Following(list))
  {
    if list == [] {
    } else {
      EscapeStringPrintable(list[0]);
      FollowingPrintable(list[1..]);
    }
  }

  /** Section 7 of RFC 8259 forbids raw control characters: none is ever printed. */
  lemma {:induction false} EncodedPrintable(list: seq<string>)
    ensures Printable(Encoded(list))
  {
    if list != [] {
      EscapeStringPrintable(list[0]);
      FollowingPrintable(list[1..]);
    }
  }

  /** The one-letter escapes of section 7 of RFC 8259. */
  function StandardEscape(c: char): Option<char> {
    if c in ['"', '\\', '/'] then Some(c)
    else if c == 'b' then Some(8 as char)
    else if c == 'f' then Some(12 as char)
    else if c == 'n' then Some(10 as char)
    else if c == 'r' then Some(13 as char)
    else if c == 't' then Some(9 as char)
    else Option.None
  }

  /** The parser reads a standard one-letter escape, in any text and at any point of a string,
      as the standard says exactly when the letter is neither `b` nor `f`. */
  lemma {:induction false} ReadsStandardEscape(c: char, rest: string, st: Scanner)
    requires Inside(st) && StandardEscape(c).Some?
    ensures Scan(['\\', c] + rest, st) == Scan(rest, st.(current := st.current + [Unescape(c)]))
    ensures Unescape(c) == StandardEscape(c).value <==> c != 'b' && c != 'f'
  {
    assert ['\\', c] + rest == ['\\'] + ([c] + rest);
    Turns(['\\'], [c] + rest, st);
    Turns([c], rest, st.(escape := true));
  }

  // ---- unicode escapes ----

  predicate AllHex(h: string) {
    forall k :: 0 <= k < |h| ==> HexValue(h[k]).Some?
  }

  /** The code unit that four hexadecimal digits denote. */
  function CodeUnit(h: string): (n: nat)
    requires |h| == 4 && AllHex(h)
    ensures n < 0x1_0000
  {
    HexValue(h[0]).value * 0x1000 + HexValue(h[1]).value * 0x100 + HexValue(h[2]).value * 0x10 + HexValue(h[3]).value
  }

  lemma {:induction false} DigitsAre(h: string)
    ensures Digits(h).Some? <==> AllHex(h)
  {
    hide AllHex;
    if h == [] {
      NoHex(h);
    } else {
      var n := |h| - 1;
      DigitsAre(h[..n]);
      AllHexSplits(h);
    }
  }

  lemma {:induction false} NoHex(h: string)
    requires h == []
    ensures AllHex(h)
  {
  }

  lemma {:induction false} AllHexSplits(h: string)
    requires h != []
    ensures var n := |h| - 1; AllHex(h) <==> AllHex(h[..n]) && HexValue(h[n]).Some?
  {
    var n := |h| - 1;
    if AllHex(h) {
      forall k | 0 <= k < n ensures HexValue(h[..n][k]).Some? { assert h[..n][k] == h[k]; }
    }
    if AllHex(h[..n]) && HexValue(h[n]).Some? {
      forall k | 0 <= k < |h| ensures HexValue(h[k]).Some? {
        if k < n { assert h[..n][k] == h[k]; }
      }
    }
  }

  lemma {:induction false} FourDigits(h: string)
    requires |h| == 4 && AllHex(h)
    ensures Digits(h) == Some(CodeUnit(h))
  {
    var h3, h2, h1 := h[..3], h[..2], h[..1];
    assert h3[..2] == h2 && h2[..1] == h1 && h1[..0] == [];
    assert Digits(h1) == Some(HexValue(h[0]).value);
    assert Digits(h2) == Some(HexValue(h[0]).value * 16 + HexValue(h[1]).value);
    assert Digits(h3) == Some(HexValue(h[0]).value * 256 + HexValue(h[1]).value * 16 + HexValue(h[2]).value);
  }

  /** Four characters are read as a number exactly when they are hexadecimal digits, or three of them after a plus
      sign, which the standard does not allow. */
  lemma {:induction false} ParsesHexExactly(h: string)
    requires |h| == 4
    ensures ParseHex(h).Some? <==> AllHex(h) || (h[0] == '+' && AllHex(h[1..]))
    ensures AllHex(h) ==> ParseHex(h) == Some(CodeUnit(h))
  {
    hide Digits;
    DigitsAre(h);
    DigitsAre(h[1..]);
    if AllHex(h) {
      assert HexValue(h[0]).Some?;
      FourDigits(h);
    }
  }

  predicate Surrogate(code: nat) {
    0xD800 <= code < 0xE000
  }

  /** A unicode escape inside a string, wherever it stands, is read as the character that section 7 of RFC 8259 gives
      it exactly when it is no surrogate; a surrogate reads as nothing. */
  lemma {:induction false} ReadsUnicodeEscape(h: string, rest: string, st: Scanner)
    requires Inside(st) && |h| == 4 && AllHex(h)
    ensures Scan(['\\', 'u'] + h + rest, st) == Scan(rest, st.(current := st.current + UnicodeEscape(h)))
    ensures if Surrogate(CodeUnit(h)) then UnicodeEscape(h) == [] else UnicodeEscape(h) == [CodeUnit(h) as char]
  {
    hide Digits, ParseHex, Scan, AllHex;
    ParsesHexExactly(h);
    EscapeTurns(h, rest, st);
  }

  lemma {:induction false} EscapeTurns(h: string, rest: string, st: Scanner)
    requires Inside(st) && |h| == 4
    ensures Scan(['\\', 'u'] + h + rest, st) == Scan(rest, st.(current := st.current + UnicodeEscape(h)))
  {
    hide UnicodeEscape;
    var taken := ['u'] + h;
    assert ['\\', 'u'] + h + rest == ['\\'] + (taken + rest);
    Turns(['\\'], taken + rest, st);
    assert (taken + rest)[1..5] == h;
    Turns(taken, rest, st.(escape := true));
  }

  /** The character beyond 16 bits that the standard writes as a pair of surrogates. */
  function PairChar(high: nat, low: nat): char
    requires 0xD800 <= high < 0xDC00 <= low < 0xE000
  {
    (0x1_0000 + (high - 0xD800) * 0x400 + (low - 0xDC00)) as char
  }

  /** Such a pair reads as nothing, so no character beyond 16 bits is read from escapes. */
  lemma {:induction false} DropsSurrogatePair(h: string, l: string, rest: string, st: Scanner)
    requires Inside(st) && |h| == |l| == 4 && AllHex(h) && AllHex(l)
    requires 0xD800 <= CodeUnit(h) < 0xDC00 <= CodeUnit(l) < 0xE000
    ensures Scan(['\\', 'u'] + h + (['\\', 'u'] + l + rest), st) == Scan(rest, st)
    ensures Scan([PairChar(CodeUnit(h), CodeUnit(l))] + rest, st)
      == Scan(rest, st.(current := st.current + [PairChar(CodeUnit(h), CodeUnit(l))]))
  {
    hide Scan, AllHex, CodeUnit, UnicodeEscape;
    ReadsUnicodeEscape(h, ['\\', 'u'] + l + rest, st);
    ReadsUnicodeEscape(l, rest, st);
    assert st.current + [] == st.current;
    var c := PairChar(CodeUnit(h), CodeUnit(l));
    assert EscapeChar(c) == [c];
    ScanChar(c, rest, st);
  }
}

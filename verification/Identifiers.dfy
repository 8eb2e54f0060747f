/**
 16-byte identifiers: endpoint slugs, as the two clients encode them, and call ids, as they are printed
 and parsed.
 */
module Identifiers {

  import opened Wrappers
  import opened Text
  import opened AccountLayouts

  const SLUG_LEN := 16

  // ---------------------------------------------------------------------------------------------
  // Slugs. A slug is given by the bytes of its UTF-8 encoding.
  // ---------------------------------------------------------------------------------------------

  function Zeros(n: nat): (b: Bytes)
    ensures |b| == n && forall i :: 0 <= i < n ==> b[i] == 0
  {
    seq(n, _ => 0)
  }

  // slugBytes of the Solana client: what does not fit is cut off.
  function SlugBytes(utf8: Bytes): Bytes16 {
    if |utf8| < SLUG_LEN then utf8 + Zeros(SLUG_LEN - |utf8|) else utf8[..SLUG_LEN]
  }

  datatype IdError = TooLong(bytes: nat) | WrongLength(length: nat)

  // normalizeSlug, for a slug that is given as bytes.
  function NormalizeSlug(slug: Bytes): Result<Bytes16, IdError> {
    if |slug| == SLUG_LEN then Ok(slug)
    else if |slug| > SLUG_LEN then Err(TooLong(|slug|))
    else Ok(slug + Zeros(SLUG_LEN - |slug|))
  }

  // slugToBytes16 of the EVM client: what does not fit is an error.
  function SlugToBytes16(utf8: Bytes): Result<Bytes16, IdError> {
    if |utf8| > SLUG_LEN then Err(TooLong(|utf8|)) else Ok(utf8 + Zeros(SLUG_LEN - |utf8|))
  }

  /** The clients agree exactly on the slugs of at most 16 bytes; the EVM one rejects all others. */
  lemma SlugsAgree(utf8: Bytes)
    ensures SlugToBytes16(utf8) == Ok(SlugBytes(utf8)) <==> |utf8| <= SLUG_LEN
    ensures SlugToBytes16(utf8) == NormalizeSlug(utf8)
  {
    if |utf8| == SLUG_LEN {
      assert utf8[..SLUG_LEN] == utf8 && utf8 + Zeros(0) == utf8;
    }
  }

  /** Byte by byte: the slug, then NULs, and what does not fit is cut off. */
  lemma SlugMeaning(utf8: Bytes, i: nat)
    requires i < 16
    ensures SlugBytes(utf8)[i] == if i < |utf8| then utf8[i] else 0
  {
  }

  // Without the NULs at the end.
  function Stripped(b: Bytes): Bytes {
    if b != [] && b[|b| - 1] == 0 then Stripped(b[..|b| - 1]) else b
  }

  lemma {:induction false} StrippedPadding(b: Bytes, n: nat)
    ensures Stripped(b + Zeros(n)) == Stripped(b)
  {
    if n == 0 {
      assert b + Zeros(0) == b;
    } else {
      assert (b + Zeros(n))[..|b| + n - 1] == b + Zeros(n - 1);
      StrippedPadding(b, n - 1);
    }
  }

  lemma {:induction false} PaddedStripped(b: Bytes, n: nat)
    requires |b| <= n
    ensures |Stripped(b)| <= |b| && Stripped(b) + Zeros(n - |Stripped(b)|) == b + Zeros(n - |b|)
  {
    if b != [] && b[|b| - 1] == 0 {
      PaddedStripped(b[..|b| - 1], n);
      assert b[..|b| - 1] + Zeros(n - (|b| - 1)) == b + Zeros(n - |b|);
    }
  }

  lemma SlugIsPadded(a: Bytes)
    requires |a| <= SLUG_LEN
    ensures SlugBytes(a) == a + Zeros(SLUG_LEN - |a|)
  {
    if |a| == SLUG_LEN {
      assert a[..SLUG_LEN] == a && a + Zeros(0) == a;
    }
  }

  // A padded slug strips to what the slug strips to, and is that padded.
  lemma StripsAlike(a: Bytes, id: Bytes)
    requires |a| <= SLUG_LEN && id == a + Zeros(SLUG_LEN - |a|)
    ensures Stripped(id) == Stripped(a) && |Stripped(a)| <= SLUG_LEN
    ensures id == Stripped(a) + Zeros(SLUG_LEN - |Stripped(a)|)
  {
    StrippedPadding(a, SLUG_LEN - |a|);
    PaddedStripped(a, SLUG_LEN);
  }

  lemma PaddedCollision(a: Bytes, b: Bytes, x: Bytes, y: Bytes)
    requires |a| <= SLUG_LEN && x == a + Zeros(SLUG_LEN - |a|)
    requires |b| <= SLUG_LEN && y == b + Zeros(SLUG_LEN - |b|)
    ensures x == y <==> Stripped(a) == Stripped(b)
  {
    StripsAlike(a, x);
    StripsAlike(b, y);
  }

  /**
   Two slugs of at most 16 bytes get the same identifier exactly if they differ in NULs at the end
   only; slugs that do not end in NUL therefore have different identifiers.
   */
  lemma SlugCollision(a: Bytes, b: Bytes)
    requires |a| <= SLUG_LEN && |b| <= SLUG_LEN
    ensures SlugBytes(a) == SlugBytes(b) <==> Stripped(a) == Stripped(b)
  {
    SlugIsPadded(a);
    SlugIsPadded(b);
    PaddedCollision(a, b, SlugBytes(a), SlugBytes(b));
  }

  // ---------------------------------------------------------------------------------------------
  // Hexadecimal
  // ---------------------------------------------------------------------------------------------

  predicate IsHexDigit(c: char) {
    '0' <= c <= '9' || 'a' <= c <= 'f' || 'A' <= c <= 'F'
  }

  function DigitValue(c: char): (d: nat)
    requires IsHexDigit(c)
    ensures d < 16
  {
    if '0' <= c <= '9' then (c - '0') as int
    else if 'a' <= c <= 'f' then (c - 'a') as int + 10
    else (c - 'A') as int + 10
  }

  function Digit(d: nat): (c: char)
    requires d < 16
    ensures IsHexDigit(c) && DigitValue(c) == d && LowerChar(c) == c
  {
    if d < 10 then '0' + d as char else 'a' + (d - 10) as char
  }

  // x.toString(16).padStart(2, "0"), for each byte.
  function PrintHex(b: Bytes): (s: string)
    ensures |s| == 2 * |b|
  {
    if b == [] then "" else [Digit(b[0] / 16), Digit(b[0] % 16)] + PrintHex(b[1..])
  }

  /** The digits are the usual ones, in small letters; capital ones are read as well. */
  lemma DigitTable(d: nat, c: char)
    requires d < 16
    ensures Digit(d) == "0123456789abcdef"[d]
    ensures DigitValue("0123456789abcdef"[d]) == DigitValue("0123456789ABCDEF"[d]) == d
    ensures IsHexDigit(c) <==> c in "0123456789abcdefABCDEF"
  {
    var digits := "0123456789abcdefABCDEF";
    assert forall i :: 0 <= i < 22 ==>
      digits[i] as int == if i < 10 then 48 + i else if i < 16 then 87 + i else 49 + i;
    if IsHexDigit(c) {
      var n := c as int;
      assert digits[if n < 58 then n - 48 else if 97 <= n then n - 87 else n - 49] == c;
    }
  }

  /** Each byte is printed as its high digit and its low digit. */
  lemma {:induction false} PrintedAt(b: Bytes, i: nat)
    requires i < |b|
    ensures PrintHex(b)[2 * i] == "0123456789abcdef"[b[i] / 16]
    ensures PrintHex(b)[2 * i + 1] == "0123456789abcdef"[b[i] % 16]
  {
    DigitTable(b[i] / 16, '0');
    DigitTable(b[i] % 16, '0');
    if i != 0 {
      PrintedAt(b[1..], i - 1);
    }
  }

  // asSlugBytes16 accepts 0x and 32 hexadecimal digits as the identifier itself.
  predicate IsBytes16Hex(s: string) {
    |s| == 34 && s[0] == '0' && s[1] == 'x' && forall i :: 2 <= i < 34 ==> IsHexDigit(s[i])
  }

  // The UTF-8 encoding of an ASCII string.
  function AsciiBytes(s: string): (b: Bytes)
    requires forall i :: 0 <= i < |s| ==> s[i] < '\U{80}'
    ensures |b| == |s| && forall i :: 0 <= i < |s| ==> b[i] == s[i] as int
  {
    seq(|s|, i requires 0 <= i < |s| => s[i] as int as byte)
  }

  /** No string of that form is a slug that the client would encode: the two readings never compete. */
  lemma HexFormIsNoSlug(s: string)
    requires IsBytes16Hex(s)
    ensures (forall i :: 0 <= i < |s| ==> s[i] < '\U{80}') && SlugToBytes16(AsciiBytes(s)) == Err(TooLong(34))
  {
    assert forall i :: 0 <= i < |s| ==> i < 2 || IsHexDigit(s[i]);
  }

  // ---------------------------------------------------------------------------------------------
  // Call ids
  // ---------------------------------------------------------------------------------------------

  function WithoutDashes(s: string): (t: string)
    ensures '-' !in t
  {
    if s == "" then ""
    else if s[0] == '-' then WithoutDashes(s[1..])
    else [s[0]] + WithoutDashes(s[1..])
  }

  /** Dashes go, and all else stays, in order. */
  lemma {:induction false} DashesGo(s: string, c: char, t: string)
    ensures WithoutDashes(s + [c] + t) == WithoutDashes(s) + (if c == '-' then "" else [c]) + WithoutDashes(t)
  {
    if s == "" {
      assert "" + [c] + t == [c] + t && ([c] + t)[1..] == t;
    } else {
      assert (s + [c] + t)[1..] == s[1..] + [c] + t;
      DashesGo(s[1..], c, t);
    }
  }

  // parseInt("ab", 16) stored into a byte. parseInt skips a blank and a sign, stops at the first
  // character that is no digit, and gives NaN, stored as 0, when there is no digit; "0x" is a prefix.
  function ParsePair(a: char, b: char): byte {
    if IsHexDigit(a) then
      if IsHexDigit(b) then 16 * DigitValue(a) + DigitValue(b) else DigitValue(a)
    else if (IsBlank(a) || a == '+') && IsHexDigit(b) then DigitValue(b)
    else 0
  }

  function ParsePairs(hex: string): (b: Bytes)
    ensures |b| == |hex| / 2
  {
    if |hex| < 2 then [] else [ParsePair(hex[0], hex[1])] + ParsePairs(hex[2..])
  }

  method AddPair(out: Bytes, hex: string, at: nat) returns (more: Bytes)
    requires at + 2 <= |hex|
    ensures |more| == |out| + 1 && more + ParsePairs(hex[at + 2..]) == out + ParsePairs(hex[at..])
  {
    var pair := ParsePair(hex[at], hex[at + 1]);
    more := out + [pair];
    assert hex[at..][2..] == hex[at + 2..];
    assert out + ([pair] + ParsePairs(hex[at + 2..])) == more + ParsePairs(hex[at + 2..]);
  }

  // The loop of parseCallId.
  method ParseLoop(hex: string) returns (out: Bytes)
    requires |hex| == 32
    ensures out == ParsePairs(hex)
  {
    out := [];
    for n := 0 to 16
      invariant |out| == n
      invariant ParsePairs(hex) == out + ParsePairs(hex[2 * n..])
    {
      out := AddPair(out, hex, 2 * n);
    }
  }

  /** Each byte is read from two characters, as parseInt reads them. */
  lemma {:induction false} ParsedAt(hex: string, i: nat)
    requires 2 * i + 1 < |hex|
    ensures ParsePairs(hex)[i] == ParsePair(hex[2 * i], hex[2 * i + 1])
    decreases i
  {
    if i != 0 {
      ParsedAt(hex[2..], i - 1);
    }
  }

  /** A pair of digits is their number, high digit first; a sign or a blank before a digit does not count. */
  lemma PairMeaning(h: nat, l: nat, c: char)
    requires h < 16 && l < 16
    ensures ParsePair("0123456789abcdef"[h], "0123456789abcdef"[l]) == 16 * h + l
    ensures ParsePair(' ', "0123456789abcdef"[l]) == ParsePair('+', "0123456789abcdef"[l]) == l
    ensures !IsHexDigit(c) ==> ParsePair("0123456789abcdef"[h], c) == h
    ensures !IsHexDigit(c) && c != '+' && !IsBlank(c) ==> ParsePair(c, "0123456789abcdef"[l]) == 0
  {
    DigitTable(h, '0');
    DigitTable(l, '0');
    DigitTable(0, "0123456789abcdef"[h]);
    DigitTable(0, "0123456789abcdef"[l]);
  }

  method ParseCallId(callId: string) returns (r: Result<Bytes16, IdError>)
    ensures r
          == if |WithoutDashes(callId)| != 32 then Err(WrongLength(|callId|)) else Ok(ParsePairs(WithoutDashes(callId)))
  {
    var hex := WithoutDashes(callId);
    if |hex| != 32 { return Err(WrongLength(|callId|)); }
    var out := ParseLoop(hex);
    r := Ok(out);
  }

  // What is printed holds no dash.
  lemma {:induction false} PrintedIsHex(b: Bytes)
    ensures forall c :: c in PrintHex(b) ==> IsHexDigit(c) && c != '-'
    ensures WithoutDashes(PrintHex(b)) == PrintHex(b)
  {
    if b != [] {
      PrintedIsHex(b[1..]);
      var s := PrintHex(b);
      assert s[2..] == PrintHex(b[1..]) && s[1..] == [s[1]] + s[2..] && s[1..][1..] == s[2..];
      assert WithoutDashes(s[1..]) == [s[1]] + WithoutDashes(s[2..]);
    }
  }

  lemma {:induction false} ParsePrinted(b: Bytes)
    ensures ParsePairs(PrintHex(b)) == b
  {
    if b != [] {
      ParsePrinted(b[1..]);
      assert PrintHex(b)[2..] == PrintHex(b[1..]);
    }
  }

  /** Printing a call id and inserting dashes anywhere gives a text that parses to the id. */
  lemma CallIdRoundTrip(id: Bytes16, text: string)
    requires WithoutDashes(text) == PrintHex(id)
    ensures |WithoutDashes(text)| == 32 && ParsePairs(WithoutDashes(text)) == id
    ensures WithoutDashes(PrintHex(id)) == PrintHex(id)
  {
    ParsePrinted(id);
    PrintedIsHex(id);
  }

  lemma LowerDigit(c: char)
    requires IsHexDigit(c)
    ensures LowerChar(c) == Digit(DigitValue(c))
  {
  }

  lemma HexOfLower(c: char)
    ensures IsHexDigit(LowerChar(c)) ==> IsHexDigit(c)
  {
  }

  lemma PairPrints(a: char, b: char)
    ensures var p := ParsePair(a, b);
            [Digit(p / 16), Digit(p % 16)] == [LowerChar(a), LowerChar(b)] <==> IsHexDigit(a) && IsHexDigit(b)
  {
    var p := ParsePair(a, b);
    if IsHexDigit(a) && IsHexDigit(b) {
      LowerDigit(a);
      LowerDigit(b);
      assert p / 16 == DigitValue(a) && p % 16 == DigitValue(b);
    } else if [Digit(p / 16), Digit(p % 16)] == [LowerChar(a), LowerChar(b)] {
      assert [Digit(p / 16), Digit(p % 16)][0] == LowerChar(a) && [Digit(p / 16), Digit(p % 16)][1] == LowerChar(b);
      HexOfLower(a);
      HexOfLower(b);
      assert false;
    }
  }

  ghost predicate AllHex(s: string) {
    forall i :: 0 <= i < |s| ==> IsHexDigit(s[i])
  }

  lemma AllHexPair(s: string)
    requires 2 <= |s|
    ensures AllHex(s) <==> IsHexDigit(s[0]) && IsHexDigit(s[1]) && AllHex(s[2..])
  {
    if IsHexDigit(s[0]) && IsHexDigit(s[1]) && AllHex(s[2..]) {
      assert forall i :: 2 <= i < |s| ==> s[i] == s[2..][i - 2];
    }
  }

  lemma LowerPair(s: string)
    requires 2 <= |s|
    ensures Lower(s) == [LowerChar(s[0]), LowerChar(s[1])] + Lower(s[2..])
  {
  }

  lemma PrintedPair(hex: string)
    requires 2 <= |hex|
    ensures var p := ParsePair(hex[0], hex[1]);
            PrintHex(ParsePairs(hex)) == [Digit(p / 16), Digit(p % 16)] + PrintHex(ParsePairs(hex[2..]))
  {
    assert ParsePairs(hex)[1..] == ParsePairs(hex[2..]);
  }

  lemma SameParts(a: string, b: string, c: string, d: string)
    requires |a| == |c|
    ensures a + b == c + d <==> a == c && b == d
  {
    if a + b == c + d {
      assert a == (a + b)[..|a|] == (c + d)[..|c|] == c;
      assert b == (a + b)[|a|..] == (c + d)[|c|..] == d;
    }
  }

  /**
   The parser checks the length only. What it returns prints back to the text, dashes removed and in
   lower case, exactly if the text is made of hexadecimal digits; any other text of the right length is
   accepted as well, and read as some other id.
   */
  lemma {:induction false} ParsedPrintsBackIff(hex: string)
    requires |hex| % 2 == 0
    ensures PrintHex(ParsePairs(hex)) == Lower(hex) <==> AllHex(hex)
    decreases |hex|
  {
    if hex != "" {
      var rest := hex[2..];
      var p := ParsePair(hex[0], hex[1]);
      ParsedPrintsBackIff(rest);
      PairPrints(hex[0], hex[1]);
      AllHexPair(hex);
      PrintedPair(hex);
      LowerPair(hex);
      SameParts([Digit(p / 16), Digit(p % 16)], PrintHex(ParsePairs(rest)),
                [LowerChar(hex[0]), LowerChar(hex[1])], Lower(rest));
    }
  }

  // ---------------------------------------------------------------------------------------------
  // A slug, or the identifier itself
  // ---------------------------------------------------------------------------------------------

  // The UTF-8 encoder, which leaves ASCII alone.
  ghost predicate Utf8(encode: string -> Bytes) {
    forall s: string :: (forall i :: 0 <= i < |s| ==> s[i] < '\U{80}') ==> encode(s) == AsciiBytes(s)
  }

  // The text of an identifier.
  function HexForm(id: Bytes16): string {
    "0x" + PrintHex(id)
  }

  function AsSlugBytes16(encode: string -> Bytes, s: string): Result<string, IdError> {
    if IsBytes16Hex(s) then Ok(Lower(s))
    else
      match SlugToBytes16(encode(s))
      case Err(e) => Err(e)
      case Ok(id) => Ok(HexForm(id))
  }

  lemma HexPairsAre16(s: string)
    requires IsBytes16Hex(s)
    ensures |ParsePairs(s[2..])| == 16
  {
  }

  // The identifier that a text of either form stands for.
  ghost function Denoted(encode: string -> Bytes, s: string): Result<Bytes16, IdError> {
    if IsBytes16Hex(s) then HexPairsAre16(s); Ok(ParsePairs(s[2..])) else SlugToBytes16(encode(s))
  }

  lemma HexIsLowerForm(s: string)
    requires IsBytes16Hex(s)
    ensures |ParsePairs(s[2..])| == 16 && Lower(s) == HexForm(ParsePairs(s[2..]))
  {
    assert AllHex(s[2..]);
    ParsedPrintsBackIff(s[2..]);
    LowerPair(s);
  }

  // What is printed is of the form, and reads as what was printed.
  lemma FormIsHex(id: Bytes16)
    ensures IsBytes16Hex(HexForm(id)) && HexForm(id)[2..] == PrintHex(id)
    ensures ParsePairs(HexForm(id)[2..]) == id && Lower(HexForm(id)) == HexForm(id)
  {
    var s := HexForm(id);
    PrintedIsHex(id);
    ParsePrinted(id);
    assert s[2..] == PrintHex(id);
    forall i | 2 <= i < 34
      ensures IsHexDigit(s[i])
    {
      assert s[i] == PrintHex(id)[i - 2] && PrintHex(id)[i - 2] in PrintHex(id);
    }
    HexIsLowerForm(s);
  }

  lemma DenotedForm(encode: string -> Bytes, s: string)
    ensures var r, id := AsSlugBytes16(encode, s), Denoted(encode, s);
            && (r.Ok? <==> id.Ok?)
            && (r.Ok? ==> r.value == HexForm(id.value) && ParsePairs(r.value[2..]) == id.value
                          && AsSlugBytes16(encode, r.value) == r)
  {
    if IsBytes16Hex(s) {
      HexIsLowerForm(s);
    }
    if Denoted(encode, s).Ok? {
      FormIsHex(Denoted(encode, s).value);
    }
  }

  /**
   The result is the text of the identifier that the input stands for, so that two inputs get the same
   result exactly if they stand for the same identifier. It is an input of the other form that stands
   for itself. An input of the hexadecimal form would be too long as a slug.
   */
  lemma SlugOrHex(encode: string -> Bytes, s: string, t: string)
    requires Utf8(encode)
    ensures var r, id := AsSlugBytes16(encode, s), Denoted(encode, s);
            && (r.Ok? <==> id.Ok?) && (r.Ok? <==> IsBytes16Hex(s) || |encode(s)| <= SLUG_LEN)
            && (r.Ok? ==> r.value == HexForm(id.value) && AsSlugBytes16(encode, r.value) == r)
            && (r.Ok? && AsSlugBytes16(encode, t).Ok? ==>
                  (r == AsSlugBytes16(encode, t) <==> id == Denoted(encode, t)))
    ensures IsBytes16Hex(s) ==> SlugToBytes16(encode(s)) == Err(TooLong(34))
  {
    DenotedForm(encode, s);
    DenotedForm(encode, t);
    if IsBytes16Hex(s) {
      HexFormIsNoSlug(s);
    }
  }

  lemma {:induction false} AllZero(s: string)
    requires forall i :: 0 <= i < |s| ==> !IsHexDigit(s[i])
    ensures forall i :: 0 <= i < |ParsePairs(s)| ==> ParsePairs(s)[i] == 0
    decreases |s|
  {
    if 2 <= |s| {
      AllZero(s[2..]);
    }
  }

  /** Any text of the right length without a hexadecimal digit is read as the id of zeros. */
  lemma NoDigitsParse(text: string)
    requires |WithoutDashes(text)| == 32 && forall i :: 0 <= i < 32 ==> !IsHexDigit(WithoutDashes(text)[i])
    ensures ParsePairs(WithoutDashes(text)) == Zeros(16)
  {
    AllZero(WithoutDashes(text));
  }
}

/** The bit-string object formats `bits`, `bits.ssem` and `bits.snp`: writer and loader (writer.c, loader.c). */
module ObjectFormat {
  import opened Words
  import opened Wrappers
  import opened Memory
  import opened Sections
  import Arch

  /** BITS_SSEM (least significant bit first) and BITS_ADDR (address before each word). */
  datatype Flags = Flags(ssem: bool, addr: bool)

  // ----- numbers and bits as text -----

  predicate IsDigit(c: char) {
    '0' <= c <= '9'
  }

  function Digit(n: nat): char
    requires n < 10
  {
    '0' + n as char
  }

  function Decimal(n: nat): string {
    if n < 10 then [Digit(n)] else Decimal(n / 10) + [Digit(n % 10)]
  }

  /** `%04d` of a number that is not negative. */
  function Padded(n: nat): string {
    var d := Decimal(n);
    if |d| >= 4 then d else seq(4 - |d|, i => '0') + d
  }

  /** The value of a digit string, as strtoul computes it. */
  function DecimalValue(s: string): nat
    requires forall i :: 0 <= i < |s| ==> IsDigit(s[i])
  {
    if s == [] then 0
    else
      assert IsDigit(s[|s| - 1]);
      10 * DecimalValue(s[..|s| - 1]) + (s[|s| - 1] as int - '0' as int)
  }

  lemma {:induction false} DecimalRoundTrip(n: nat)
    ensures forall i :: 0 <= i < |Decimal(n)| ==> IsDigit(Decimal(n)[i])
    ensures |Decimal(n)| > 0 && DecimalValue(Decimal(n)) == n
  {
    if n >= 10 {
      DecimalRoundTrip(n / 10);
      assert Decimal(n)[..|Decimal(n)| - 1] == Decimal(n / 10);
    } else {
      assert [Digit(n)][..0] == [];
    }
  }

  lemma {:induction false} LeadingZeros(k: nat, s: string)
    requires forall i :: 0 <= i < |s| ==> IsDigit(s[i])
    ensures var t := seq(k, i => '0') + s;
      (forall i :: 0 <= i < |t| ==> IsDigit(t[i])) && DecimalValue(t) == DecimalValue(s)
    decreases |s| + k
  {
    var t := seq(k, i => '0') + s;
    if s == [] {
      if k > 0 {
        LeadingZeros(k - 1, s);
        assert t[..|t| - 1] == seq(k - 1, i => '0') + s;
      }
    } else {
      LeadingZeros(k, s[..|s| - 1]);
      assert t[..|t| - 1] == seq(k, i => '0') + s[..|s| - 1];
    }
  }

  lemma PaddedRoundTrip(n: nat)
    ensures forall i :: 0 <= i < |Padded(n)| ==> IsDigit(Padded(n)[i])
    ensures |Padded(n)| > 0 && DecimalValue(Padded(n)) == n
  {
    DecimalRoundTrip(n);
    if |Decimal(n)| < 4 {
      LeadingZeros(4 - |Decimal(n)|, Decimal(n));
    }
  }

  function Bit(w: nat, k: nat): nat {
    ShiftRight(w, k) % 2
  }

  /** The place value of character k of a 32-character bit string. */
  function Place(ssem: bool, k: nat): nat
    requires k < 32
  {
    if ssem then k else 31 - k
  }

  function BitString(w: Word, ssem: bool): (s: string)
    ensures |s| == 32
  {
    seq(32, k requires 0 <= k < 32 => if Bit(w, Place(ssem, k)) == 1 then '1' else '0')
  }

  /** The number whose bits below k are those of the string. */
  function BitsBelow(s: string, k: nat): (r: nat)
    requires |s| == 32 && k <= 32
    ensures r < Pow2(k)
  {
    if k == 0 then 0
    else BitsBelow(s, k - 1) + if s[k - 1] == '1' then Pow2(k - 1) else 0
  }

  lemma {:induction false} LowBits(w: nat, s: string, k: nat)
    requires |s| == 32 && k <= 32
    requires forall i :: 0 <= i < k ==> (s[i] == '1' <==> Bit(w, i) == 1)
    ensures Pow2(k) > 0 && BitsBelow(s, k) == w % Pow2(k)
  {
    Pow2Monotonic(k, k);
    if k > 0 {
      LowBits(w, s, k - 1);
      assert (s[k - 1] == '1') == (Bit(w, k - 1) == 1);
      SplitLowBits(w, k - 1);
    }
  }

  lemma SplitLowBits(w: nat, k: nat)
    ensures Pow2(k) > 0 && Pow2(k + 1) > 0
    ensures w % Pow2(k + 1) == w % Pow2(k) + Bit(w, k) * Pow2(k)
  {
    hide ShiftRight;
    Pow2Monotonic(k, k);
    Arch.ShiftRightIsDiv(w, k);
    SplitRemainder(w, Pow2(k));
  }

  lemma Distribute(p: nat, h: nat, b: nat)
    requires b < 2
    ensures p * (2 * h + b) == (2 * p) * h + b * p && b * p == if b == 0 then 0 else p
  {}

  lemma Regroup(w: nat, p: nat, q: nat, r: nat, h: nat, b: nat)
    requires w == p * q + r && r < p && q == 2 * h + b && b < 2
    ensures w == (2 * p) * h + (b * p + r) && b * p + r < 2 * p
  {
    Distribute(p, h, b);
  }

  lemma SplitRemainder(w: nat, p: nat)
    requires p > 0
    ensures w % (2 * p) == w % p + w / p % 2 * p
  {
    var q, r := w / p, w % p;
    Regroup(w, p, q, r, q / 2, q % 2);
    DivModUnique(w, 2 * p, q / 2, q % 2 * p + r);
  }

  /** The word of a bit string. */
  function WordOf(s: string, ssem: bool): Word
    requires |s| == 32
  {
    Pow2Of32();
    BitsBelow(seq(32, i requires 0 <= i < 32 => s[Place(ssem, i)]), 32)
  }

  lemma BitStringRoundTrip(w: Word, ssem: bool)
    ensures WordOf(BitString(w, ssem), ssem) == w
  {
    var s := BitString(w, ssem);
    var t := seq(32, i requires 0 <= i < 32 => s[Place(ssem, i)]);
    forall i | 0 <= i < 32 ensures t[i] == '1' <==> Bit(w, i) == 1 {
      assert Place(ssem, Place(ssem, i)) == i;
    }
    LowBits(w, t, 32);
    Pow2Of32();
    SmallMod(w, TWO32);
  }

  // ----- what the writer writes -----

  function LineOf(w: Word, i: nat, f: Flags): string {
    (if f.addr then Padded(i) + ": " else "") + BitString(w, f.ssem) + "\n"
  }

  function TextOf(words: seq<Word>, f: Flags): string {
    if words == [] then ""
    else TextOf(words[..|words| - 1], f) + LineOf(words[|words| - 1], |words| - 1, f)
  }

  // ----- what the loader accepts -----

  predicate IsSpace(c: char) {
    c == ' ' || c == '\t' || c == '\n' || c as int == 11 || c as int == 12 || c == '\r'
  }

  predicate IsBit(c: char) {
    c == '0' || c == '1'
  }

  /** SNP_COMMENT up to the end of the line: space, then nothing or a comment. */
  predicate Comment(s: string) {
    s == [] || s[0] == ';' || (IsSpace(s[0]) && Comment(s[1..]))
  }

  /** The number of digits that a line starts with. */
  function Digits(s: string): (n: nat)
    ensures n <= |s|
    ensures forall i :: 0 <= i < n ==> IsDigit(s[i])
    ensures n < |s| ==> !IsDigit(s[n])
  {
    if s != [] && IsDigit(s[0]) then 1 + Digits(s[1..]) else 0
  }

  predicate BitsAt(s: string, k: nat) {
    k + 32 <= |s| && (forall i :: k <= i < k + 32 ==> IsBit(s[i])) && Comment(s[k + 32..])
  }

  datatype Line = Statement(addr: Option<Word>, bits: string) | Ignorable | Malformed

  /** strtoul saturates at 2^64 - 1; its result is then cut to 32 bits. */
  function StrToUl(s: string): Word
    requires forall i :: 0 <= i < |s| ==> IsDigit(s[i])
  {
    Wrap(if DecimalValue(s) < TWO64 then DecimalValue(s) else TWO64 - 1)
  }

  /** Matching a line against REG_SNP_STMT or REG_PLAIN_BITS, and then REG_SNP_IGNORE. */
  function Recognise(s: string, f: Flags): (l: Line)
    ensures l.Statement? ==> |l.bits| == 32 && l.addr.Some? == f.addr
  {
    var n := Digits(s);
    if f.addr && n > 0 && n + 2 <= |s| && s[n] == ':' && s[n + 1] == ' ' && BitsAt(s, n + 2) then
      Statement(Some(StrToUl(s[..n])), s[n + 2..n + 34])
    else if !f.addr && BitsAt(s, 0) then Statement(None, s[..32])
    else if Comment(s) then Ignorable
    else Malformed
  }

  /** The length of the first line, with its newline if it has one. */
  function LineLength(text: string): (n: nat)
    requires text != []
    ensures 0 < n <= |text|
  {
    if text[0] == '\n' || |text| == 1 then 1 else 1 + LineLength(text[1..])
  }

  /** The words of a text that is read after `sofar`; None if a line is malformed or out of sequence. */
  function ReadText(text: string, f: Flags, sofar: seq<Word>): Option<seq<Word>>
    decreases |text|
  {
    if text == [] then Some(sofar)
    else
      var n := LineLength(text);
      match Recognise(text[..n], f)
      case Malformed => None
      case Ignorable => ReadText(text[n..], f, sofar)
      case Statement(addr, bits) =>
        if addr.Some? && addr.value != Wrap(|sofar|) then None
        else ReadText(text[n..], f, sofar + [WordOf(bits, f.ssem)])
  }

  /** The words read up to the first line that is malformed or out of sequence, or to the end. */
  function ReadSoFar(text: string, f: Flags, sofar: seq<Word>): seq<Word>
    decreases |text|
  {
    if text == [] then sofar
    else
      var n := LineLength(text);
      match Recognise(text[..n], f)
      case Malformed => sofar
      case Ignorable => ReadSoFar(text[n..], f, sofar)
      case Statement(addr, bits) =>
        if addr.Some? && addr.value != Wrap(|sofar|) then sofar
        else ReadSoFar(text[n..], f, sofar + [WordOf(bits, f.ssem)])
  }

  lemma {:induction false} ReadAll(text: string, f: Flags, sofar: seq<Word>)
    ensures ReadText(text, f, sofar).Some? ==> ReadText(text, f, sofar).value == ReadSoFar(text, f, sofar)
    decreases |text|
  {
    if text != [] {
      var n := LineLength(text);
      match Recognise(text[..n], f)
      case Malformed =>
      case Ignorable => ReadAll(text[n..], f, sofar);
      case Statement(addr, bits) => ReadAll(text[n..], f, sofar + [WordOf(bits, f.ssem)]);
    }
  }

  // ----- inverse -----

  lemma {:induction false} DigitsThen(d: string, rest: string)
    requires forall i :: 0 <= i < |d| ==> IsDigit(d[i])
    requires rest != [] && !IsDigit(rest[0])
    ensures Digits(d + rest) == |d|
  {
    if d == [] {
      assert d + rest == rest;
    } else {
      assert (d + rest)[1..] == d[1..] + rest;
      DigitsThen(d[1..], rest);
    }
  }

  lemma CommentLine()
    ensures Comment("\n")
  {
    assert "\n"[1..] == "";
  }

  lemma PlainLine(b: string)
    requires |b| == 32 && forall i :: 0 <= i < 32 ==> IsBit(b[i])
    ensures BitsAt(b + "\n", 0) && (b + "\n")[..32] == b
  {
    CommentLine();
    assert (b + "\n")[32..] == "\n";
  }

  lemma AddressedLine(d: string, b: string)
    requires |d| > 0 && forall i :: 0 <= i < |d| ==> IsDigit(d[i])
    requires |b| == 32 && forall i :: 0 <= i < 32 ==> IsBit(b[i])
    ensures var s, n := d + ": " + b + "\n", |d|;
      && Digits(s) == n && n + 34 <= |s| && s[n] == ':' && s[n + 1] == ' '
      && s[..n] == d && s[n + 2..n + 34] == b && BitsAt(s, n + 2)
  {
    hide Digits, Comment;
    var s, n := d + ": " + b + "\n", |d|;
    DigitsThen(d, ": " + b + "\n");
    assert s == d + (": " + b + "\n");
    CommentLine();
    assert s[n + 34..] == "\n";
    assert s[n + 2..n + 34] == b;
    forall i | n + 2 <= i < n + 34 ensures IsBit(s[i]) {
      assert s[i] == b[i - n - 2];
    }
  }

  lemma LineRecognised(w: Word, i: nat, f: Flags)
    requires i < SIGN_BIT
    ensures Recognise(LineOf(w, i, f), f) == Statement(if f.addr then Some(i) else None, BitString(w, f.ssem))
  {
    hide Digits, BitsAt, Padded, Bit, Place, DecimalValue;
    var b := BitString(w, f.ssem);
    if f.addr {
      PaddedRoundTrip(i);
      AddressedLine(Padded(i), b);
      SmallMod(i, TWO32);
    } else {
      PlainLine(b);
      assert LineOf(w, i, f) == b + "\n";
    }
  }

  lemma {:induction false} LineEnds(s: string, rest: string)
    requires forall i :: 0 <= i < |s| ==> s[i] != '\n'
    ensures LineLength(s + "\n" + rest) == |s| + 1
  {
    var t := s + "\n" + rest;
    if s != [] {
      assert t[1..] == s[1..] + "\n" + rest;
      LineEnds(s[1..], rest);
    }
  }

  /** One written line followed by more text is read as that word and then the rest. */
  lemma ReadLine(w: Word, i: nat, f: Flags, rest: string, sofar: seq<Word>)
    requires i < SIGN_BIT && |sofar| == i
    ensures ReadText(LineOf(w, i, f) + rest, f, sofar) == ReadText(rest, f, sofar + [w])
  {
    var s := LineOf(w, i, f);
    var text := s + rest;
    PaddedRoundTrip(i);
    var front := s[..|s| - 1];
    assert s == front + "\n" && text == front + "\n" + rest;
    LineEnds(front, rest);
    assert text[..|s|] == s && text[|s|..] == rest;
    LineRecognised(w, i, f);
    BitStringRoundTrip(w, f.ssem);
    SmallMod(i, TWO32);
  }

  lemma {:induction false} ReadWritten(words: seq<Word>, f: Flags, rest: string)
    requires |words| < SIGN_BIT
    ensures ReadText(TextOf(words, f) + rest, f, []) == ReadText(rest, f, words)
  {
    if words == [] {
      assert TextOf(words, f) + rest == rest;
    } else {
      var n := |words| - 1;
      var line := LineOf(words[n], n, f);
      assert TextOf(words, f) + rest == TextOf(words[..n], f) + (line + rest);
      ReadWritten(words[..n], f, line + rest);
      ReadLine(words[n], n, f, rest, words[..n]);
      assert words[..n] + [words[n]] == words;
    }
  }

  /** Reading back what was written gives the words, in every format. */
  lemma WriteReadRoundTrip(words: seq<Word>, f: Flags)
    requires |words| < SIGN_BIT
    ensures ReadText(TextOf(words, f), f, []) == Some(words)
  {
    ReadWritten(words, f, "");
    assert TextOf(words, f) + "" == TextOf(words, f);
  }

  // ----- the writer -----

  lemma TestBit(w: nat, k: nat)
    ensures BitAnd(w, Pow2(k)) != 0 <==> Bit(w, k) == 1
  {
    Arch.ShiftLeftIsMul(1, k);
    AndShiftedMask(w, 1, k);
    assert Pow2(1) == 2;
    AndLowMask(ShiftRight(w, k), 1);
    Arch.ShiftLeftIsMul(Bit(w, k), k);
    Pow2Monotonic(k, k);
  }

  /** The test mask after k characters of a word. */
  function Mask(ssem: bool, k: nat): nat
    requires k <= 32
  {
    if k == 32 then 0 else Pow2(Place(ssem, k))
  }

  lemma FirstMask(ssem: bool)
    ensures Mask(ssem, 0) == if ssem then 1 else 0x8000_0000
  {
    Pow2Of32();
  }

  lemma NextMask(ssem: bool, k: nat)
    requires k < 32
    ensures 0 < Mask(ssem, k) < TWO32
    ensures Mask(ssem, k + 1) == if ssem then Wrap(2 * Mask(ssem, k)) else Mask(ssem, k) / 2
  {
    Pow2Of32();
    var p := Place(ssem, k);
    Pow2Monotonic(0, p);
    Pow2Monotonic(p, 31);
    if ssem && k < 31 {
      Pow2Monotonic(p + 1, 31);
    }
  }

  /** One more character of the bit string. */
  lemma PutStep(val: Word, ssem: bool, k: nat)
    requires k < 32
    ensures BitString(val, ssem)[..k + 1]
         == BitString(val, ssem)[..k] + [if BitAnd(val, Mask(ssem, k)) != 0 then '1' else '0']
  {
    hide BitAnd, Pow2, Bit;
    TestBit(val, Place(ssem, k));
  }

  /** The inner loop of `bits_writer`. */
  method PutBits(val: Word, ssem: bool) returns (out: string)
    ensures out == BitString(val, ssem)
  {
    hide BitAnd, BitString, Place, Pow2;
    out := "";
    ghost var k := 0;
    FirstMask(ssem);
    var tst: Word := if ssem then 1 else 0x8000_0000;
    while tst != 0
      invariant 0 <= k <= 32 && tst == Mask(ssem, k)
      invariant out == BitString(val, ssem)[..k]
      decreases 32 - k
    {
      NextMask(ssem, k);
      PutStep(val, ssem, k);
      out := out + [if BitAnd(val, tst) != 0 then '1' else '0'];
      tst := if ssem then Wrap(2 * tst) else tst / 2;
      k := k + 1;
    }
    if k < 32 { NextMask(ssem, k); }
  }

  function Values(cells: seq<Cell>): (r: seq<Word>)
    ensures |r| == |cells| && forall i :: 0 <= i < |cells| ==> r[i] == cells[i].value
  {
    if cells == [] then [] else Values(cells[..|cells| - 1]) + [cells[|cells| - 1].value]
  }

  function Zeros(n: nat): (r: seq<Word>)
    ensures |r| == n && forall i :: 0 <= i < n ==> r[i] == 0
  {
    if n == 0 then [] else Zeros(n - 1) + [0]
  }

  /** The words a section stands for: zeros up to its origin, then its contents. */
  ghost function WordsOf(section: Section): (r: seq<Word>)
    reads section, section.data
    requires section.Valid()
    ensures |r| == section.org + section.length
  {
    Zeros(section.org) + Values(section.data[..section.length])
  }

  lemma WordAt(section: Section, i: nat)
    requires section.Valid() && i < section.org + section.length
    ensures WordsOf(section)[i] == if i < section.org then 0 else section.data[i - section.org].value
  {}

  /** `bits_writer`. */
  method BitsWriter(section: Section, f: Flags) returns (stream: string)
    requires section.Valid() && section.org + section.length < SIGN_BIT
    ensures stream == TextOf(WordsOf(section), f)
  {
    hide WordsOf, BitString, Padded;
    stream := "";
    ghost var words := WordsOf(section);
    var word := 0;
    while word < section.org + section.length
      invariant 0 <= word <= |words|
      invariant stream == TextOf(words[..word], f)
    {
      var val := if word < section.org then 0 else section.data[word - section.org].value;
      WordAt(section, word);
      var bits := PutBits(val, f.ssem);
      stream := stream + ((if f.addr then Padded(word) + ": " else "") + bits + "\n");
      assert words[..word + 1][..word] == words[..word];
      word := word + 1;
    }
    assert words[..word] == words;
  }

  // ----- the loader -----

  lemma {:induction false} SetBitBound(v: nat, p: nat, n: nat)
    requires p < n && v < Pow2(n)
    ensures BitOr(v, Pow2(p)) < Pow2(n)
  {
    hide BitOr;
    OrPow2(v, p);
    HalfBelow(v, n);
    if p > 0 {
      hide Pow2;
      SetBitBound(v / 2, p - 1, n - 1);
    }
  }

  lemma HalfBelow(v: nat, n: nat)
    requires n > 0 && v < Pow2(n)
    ensures Pow2(n) == 2 * Pow2(n - 1) && v / 2 < Pow2(n - 1)
  {}

  lemma OrPow2(v: nat, p: nat)
    ensures BitOr(v, Pow2(p)) == if p == 0 then 1 + 2 * (v / 2) else v % 2 + 2 * BitOr(v / 2, Pow2(p - 1))
  {
    Pow2Monotonic(0, p);
    if p == 0 {
      assert Pow2(0) == 1 && BitOr(v / 2, 0) == v / 2;
    } else {
      assert Pow2(p) % 2 == 0 && Pow2(p) / 2 == Pow2(p - 1);
      Pow2Monotonic(0, p - 1);
      if v == 0 {
        assert BitOr(0, Pow2(p - 1)) == Pow2(p - 1);
      }
    }
  }

  lemma Halves(b: nat, h: nat)
    requires b < 2
    ensures (b + 2 * h) % 2 == b && (b + 2 * h) / 2 == h
  {}

  lemma {:induction false} SetBit(v: nat, p: nat, i: nat)
    ensures Bit(BitOr(v, Pow2(p)), i) == if i == p then 1 else Bit(v, i)
  {
    OrPow2(v, p);
    hide BitOr, Pow2;
    if p == 0 {
      Halves(1, v / 2);
    } else {
      Halves(v % 2, BitOr(v / 2, Pow2(p - 1)));
      if i > 0 {
        SetBit(v / 2, p - 1, i - 1);
      }
    }
  }

  lemma {:induction false} NoBits(i: nat)
    ensures Bit(0, i) == 0
  {
    if i > 0 {
      NoBits(i - 1);
    }
  }

  /** The number holds the first k characters of the bit string. */
  ghost predicate Collected(v: nat, bits: string, ssem: bool, k: nat)
    requires |bits| == 32
  {
    v < TWO32 && forall i :: 0 <= i < 32 ==> (Bit(v, i) == 1 <==> Place(ssem, i) < k && bits[Place(ssem, i)] == '1')
  }

  lemma CollectNothing(bits: string, ssem: bool)
    requires |bits| == 32
    ensures Collected(0, bits, ssem, 0)
  {
    forall i: nat ensures Bit(0, i) == 0 { NoBits(i); }
  }

  lemma CollectNext(v: nat, bits: string, ssem: bool, k: nat)
    requires |bits| == 32 && k < 32 && Collected(v, bits, ssem, k)
    ensures Collected(if bits[k] == '1' then BitOr(v, Mask(ssem, k)) else v, bits, ssem, k + 1)
  {
    hide Bit, BitOr, Pow2;
    if bits[k] == '1' {
      Pow2Of32();
      SetBitBound(v, Place(ssem, k), 32);
      forall i: nat ensures Bit(BitOr(v, Mask(ssem, k)), i) == if i == Place(ssem, k) then 1 else Bit(v, i) {
        SetBit(v, Place(ssem, k), i);
      }
    }
  }

  lemma CollectAll(v: nat, bits: string, ssem: bool)
    requires |bits| == 32 && Collected(v, bits, ssem, 32)
    ensures v == WordOf(bits, ssem)
  {
    hide Bit, Pow2;
    LowBits(v, seq(32, i requires 0 <= i < 32 => bits[Place(ssem, i)]), 32);
    Pow2Of32();
    SmallMod(v, TWO32);
  }

  /** The inner loop of `bits_read`. */
  method GetBits(bits: string, ssem: bool) returns (v: Word)
    requires |bits| == 32
    ensures v == WordOf(bits, ssem)
  {
    hide Bit, BitOr, Pow2, Place, WordOf;
    v := 0;
    ghost var k := 0;
    FirstMask(ssem);
    CollectNothing(bits, ssem);
    var vc := 0;
    var bit: Word := if ssem then 1 else 0x8000_0000;
    while bit != 0
      invariant 0 <= k <= 32 && bit == Mask(ssem, k) && vc == k
      invariant Collected(v, bits, ssem, k)
      decreases 32 - k
    {
      NextMask(ssem, k);
      CollectNext(v, bits, ssem, k);
      if bits[vc] == '1' {
        v := BitOr(v, bit);
      }
      vc := vc + 1;
      bit := if ssem then Wrap(2 * bit) else bit / 2;
      k := k + 1;
    }
    if k < 32 { NextMask(ssem, k); }
    CollectAll(v, bits, ssem);
  }

  /** `bits_read`: with no page it only measures; with one, each word goes to the address it is due at. When
      it fails, the words before the line at fault have been stored. */
  method BitsRead(text: string, f: Flags, page: Page?, length: nat) returns (ok: bool, maxAddr: Word)
    requires page != null ==> page.Valid()
    modifies if page == null then {} else {page.data}
    ensures ok <==> (page == null || length != 0) && ReadText(text, f, []).Some?
    ensures ok ==> maxAddr == Wrap(|ReadText(text, f, []).value|)
    ensures ok && page != null ==> page.data[..] == LoadImage(old(page.data[..]), ReadText(text, f, []).value)
    ensures page != null ==>
      page.data[..] == if length == 0 then old(page.data[..])
                       else LoadImage(old(page.data[..]), ReadSoFar(text, f, []))
  {
    hide Recognise, LineLength, WordOf, BitAnd, IsPow2, Store;
    ReadAll(text, f, []);
    maxAddr := 0;
    if page != null && length == 0 {
      return false, 0;
    }
    var rest := text;
    ghost var words: seq<Word> := [];
    ghost var s0 := if page == null then [] else page.data[..];
    while rest != []
      invariant ReadText(text, f, []) == ReadText(rest, f, words)
      invariant ReadSoFar(text, f, []) == ReadSoFar(rest, f, words)
      invariant maxAddr == Wrap(|words|)
      invariant page != null ==> page.data[..] == LoadImage(s0, words)
      decreases |rest|
    {
      var n := LineLength(rest);
      var line := Recognise(rest[..n], f);
      match line {
        case Statement(addr, bits) =>
          if addr.Some? && addr.value != maxAddr {
            return false, maxAddr;
          }
          if page != null {
            var v := GetBits(bits, f.ssem);
            page.WriteWord(maxAddr, v);
          }
          words := words + [WordOf(bits, f.ssem)];
          assert words[..|words| - 1] + [words[|words| - 1]] == words;
          WrapNext(|words| - 1);
          maxAddr := Wrap(maxAddr + 1);
        case Ignorable =>
        case Malformed =>
          return false, maxAddr;
      }
      rest := rest[n..];
    }
    return true, maxAddr;
  }

  lemma WrapNext(n: nat)
    ensures Wrap(Wrap(n) + 1) == Wrap(n + 1)
  {}

  lemma WordsFromZero(section: Section)
    requires section.Valid() && section.org == 0
    ensures forall i :: 0 <= i < section.length ==> WordsOf(section)[i] == section.data[i].value
  {}

  /** Write, measure, load: for every non-empty section and every format, the loader measures the section's
      length and each address of a power-of-two page of at least that length then reads the section's word. */
  method WriteThenLoad(section: Section, f: Flags, page: Page)
    requires section.Valid() && section.org == 0 && 0 < section.length < SIGN_BIT
    requires page.Valid() && IsPow2(page.data.Length) && section.length <= page.data.Length
    modifies page.data
    ensures forall i :: 0 <= i < section.length ==> page.ReadWord(i) == section.data[i].value
    ensures forall i :: section.length <= i < page.data.Length ==> page.data[i] == old(page.data[i])
  {
    hide TextOf, ReadText, ReadSoFar, LoadImage, IsPow2, WordsOf;
    var text := BitsWriter(section, f);
    ghost var words, s0 := WordsOf(section), page.data[..];
    WordsFromZero(section);
    WriteReadRoundTrip(words, f);
    SmallMod(section.length, TWO32);
    var measured, length := BitsRead(text, f, null, 0);
    assert measured && length == section.length;
    var loaded, _ := BitsRead(text, f, page, length);
    assert loaded;
    LoadImageOnPow2(s0, words);
    forall i | 0 <= i < section.length ensures page.ReadWord(i) == section.data[i].value {
      SmallMod(i, page.data.Length);
      assert page.data[..][i] == words[i];
    }
    forall i | section.length <= i < page.data.Length ensures page.data[i] == old(page.data[i]) {
      assert page.data[..][i] == s0[i];
    }
  }
}

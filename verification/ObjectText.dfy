/** The text of an object file, character by character, and what the loader passes over in one. */
module ObjectText {
  import opened Words
  import opened Wrappers
  import opened ObjectFormat
  import Arch

  // ----- `%04d` -----

  predicate AllDigits(s: string) {
    forall i :: 0 <= i < |s| ==> '0' <= s[i] <= '9'
  }

  function Pow10(k: nat): (p: nat)
    ensures p > 0
  {
    if k == 0 then 1 else 10 * Pow10(k - 1)
  }

  lemma DecimalValueNext(s: string)
    requires AllDigits(s) && s != []
    ensures var n := |s| - 1;
      AllDigits(s[..n]) && DecimalValue(s) == 10 * DecimalValue(s[..n]) + (s[n] as int - 48)
  {
    assert '0' <= s[|s| - 1] <= '9';
  }

  lemma {:induction false} DecimalBelow(s: string)
    requires AllDigits(s)
    ensures DecimalValue(s) < Pow10(|s|)
    ensures s != [] && s[0] != '0' ==> DecimalValue(s) >= Pow10(|s| - 1)
  {
    if s != [] {
      var n := |s| - 1;
      DecimalValueNext(s);
      DecimalBelow(s[..n]);
      if n > 0 && s[0] != '0' {
        assert s[..n][0] == s[0];
        assert Pow10(n) == 10 * Pow10(n - 1);
      }
    }
  }

  /** Digit strings of one length are equal if their values are. */
  lemma {:induction false} DecimalUnique(s: string, t: string)
    requires AllDigits(s) && AllDigits(t) && |s| == |t| && DecimalValue(s) == DecimalValue(t)
    ensures s == t
  {
    if s != [] {
      var n := |s| - 1;
      DecimalValueNext(s);
      DecimalValueNext(t);
      DecimalUnique(s[..n], t[..n]);
      assert s == s[..n] + [s[n]] && t == t[..n] + [t[n]];
    }
  }

  lemma {:induction false} PowMore(a: nat, b: nat)
    requires a <= b
    ensures Pow10(a) <= Pow10(b)
  {
    if a < b {
      PowMore(a, b - 1);
    }
  }

  lemma {:induction false} NoLeadingZero(n: nat)
    ensures |Decimal(n)| > 0 && (n > 0 ==> Decimal(n)[0] != '0')
  {
    if n >= 10 {
      NoLeadingZero(n / 10);
    }
  }

  /** An address is written in at least four digits, and with zeros in front only to make four. */
  lemma PaddedLaw(n: nat)
    ensures AllDigits(Padded(n)) && DecimalValue(Padded(n)) == n
    ensures |Padded(n)| >= 4 && (|Padded(n)| == 4 <==> n < 10000)
    ensures |Padded(n)| > 4 ==> Padded(n)[0] != '0'
  {
    PaddedRoundTrip(n);
    NoLeadingZero(n);
    var p := Padded(n);
    assert Pow10(4) == 10000 by { assert Pow10(2) == 100; assert Pow10(3) == 1000; }
    DecimalBelow(p);
    if |p| > 4 {
      assert p == Decimal(n);
      DecimalRoundTrip(n);
      PowMore(4, |p| - 1);
    }
  }

  /** It is the shortest string of at least four digits with that value, and the only one of its length. */
  lemma PaddedShortest(n: nat, s: string)
    requires AllDigits(s) && |s| >= 4 && DecimalValue(s) == n
    ensures |s| >= |Padded(n)| && (|s| == |Padded(n)| ==> s == Padded(n))
  {
    hide Padded;
    PaddedLaw(n);
    var p := Padded(n);
    if |s| < |p| {
      DecimalBelow(s);
      DecimalBelow(p);
      PowMore(|s|, |p| - 1);
      assert false;
    }
    if |s| == |p| {
      DecimalUnique(s, p);
    }
  }

  lemma Places(a: nat, b: nat, c: nat, d: nat)
    requires a < 10 && b < 10 && c < 10 && d < 10
    ensures var n := 10 * (10 * (10 * a + b) + c) + d;
      n / 1000 == a && n / 100 % 10 == b && n / 10 % 10 == c && n % 10 == d
  {
    var n := 10 * (10 * (10 * a + b) + c) + d;
    DivModUnique(n, 1000, a, 100 * b + 10 * c + d);
    DivModUnique(n, 100, 10 * a + b, 10 * c + d);
    DivModUnique(n, 10, 100 * a + 10 * b + c, d);
    DivModUnique(10 * a + b, 10, a, b);
    DivModUnique(100 * a + 10 * b + c, 10, 10 * a + b, c);
  }

  lemma FourDigits(s: string)
    requires AllDigits(s) && |s| == 4
    ensures var n := DecimalValue(s);
      && s[0] as int - 48 == n / 1000 && s[1] as int - 48 == n / 100 % 10
      && s[2] as int - 48 == n / 10 % 10 && s[3] as int - 48 == n % 10
  {
    DecimalValueNext(s);
    DecimalValueNext(s[..3]);
    DecimalValueNext(s[..3][..2]);
    DecimalValueNext(s[..3][..2][..1]);
    assert s[..3][..2][..1][..0] == [];
    var a, b, c, d := s[0] as int - 48, s[1] as int - 48, s[2] as int - 48, s[3] as int - 48;
    assert '0' <= s[0] <= '9' && '0' <= s[1] <= '9' && '0' <= s[2] <= '9' && '0' <= s[3] <= '9';
    assert DecimalValue(s) == 10 * (10 * (10 * a + b) + c) + d;
    Places(a, b, c, d);
  }

  // ----- the written text -----

  lemma BitLaw(w: nat, k: nat)
    ensures Pow2(k) > 0 && Bit(w, k) == w / Pow2(k) % 2
  {
    Arch.ShiftRightIsDiv(w, k);
  }

  /** A line without address: 32 bits, the most significant first unless the format is `bits.ssem`, and a
      newline. */
  lemma PlainLineLaw(w: Word, i: nat, ssem: bool, k: nat)
    requires k < 32
    ensures var s, p := LineOf(w, i, Flags(ssem, false)), if ssem then k else 31 - k;
      |s| == 33 && s[32] == '\n' && Pow2(p) > 0 && s[k] == if w / Pow2(p) % 2 == 1 then '1' else '0'
  {
    hide Bit, Pow2;
    assert LineOf(w, i, Flags(ssem, false)) == BitString(w, ssem) + "\n";
    BitLaw(w, if ssem then k else 31 - k);
  }

  /** An addressed line is that after the address, a colon and a space; below 10000 the colon is in column 4. */
  lemma AddressedLineLaw(w: Word, i: nat, ssem: bool)
    ensures var s, d := LineOf(w, i, Flags(ssem, true)), Padded(i);
      && s == d + ": " + LineOf(w, i, Flags(ssem, false))
      && (i < 10000 ==> (
            && |s| == 39 && s[4] == ':' && s[5] == ' '
            && s[0] as int - 48 == i / 1000 && s[1] as int - 48 == i / 100 % 10
            && s[2] as int - 48 == i / 10 % 10 && s[3] as int - 48 == i % 10))
  {
    hide BitString, Padded;
    PaddedLaw(i);
    var s, d, b := LineOf(w, i, Flags(ssem, true)), Padded(i), BitString(w, ssem) + "\n";
    assert s == d + ": " + b && LineOf(w, i, Flags(ssem, false)) == b;
    if i < 10000 {
      FourDigits(d);
      assert s[..4] == d && s[4] == ':' && s[5] == ' ';
      assert s[0] == d[0] && s[1] == d[1] && s[2] == d[2] && s[3] == d[3];
    }
  }

  /** The text is its lines, one for each word, from address 0; up to 10000 words all lines are equally long. */
  lemma {:induction false} TextLaw(words: seq<Word>, f: Flags, i: nat)
    requires i < |words| <= 10000
    ensures var width, t := if f.addr then 39 else 33, TextOf(words, f);
      |t| == width * |words| && t[width * i..width * (i + 1)] == LineOf(words[i], i, f)
    decreases |words|
  {
    hide LineOf;
    var n, width := |words| - 1, if f.addr then 39 else 33;
    var before, last := TextOf(words[..n], f), LineOf(words[n], n, f);
    WidthLaw(words[n], n, f);
    assert TextOf(words, f) == before + last;
    if n > 0 {
      TextLaw(words[..n], f, if i < n then i else 0);
    } else {
      assert before == "";
    }
    if i < n {
      Within(before, last, width * i, width * (i + 1));
    } else {
      assert TextOf(words, f)[width * n..] == last;
    }
  }

  lemma Within(a: string, b: string, lo: nat, hi: nat)
    requires lo <= hi <= |a|
    ensures (a + b)[lo..hi] == a[lo..hi]
  {}

  lemma WidthLaw(w: Word, i: nat, f: Flags)
    requires i < 10000
    ensures |LineOf(w, i, f)| == if f.addr then 39 else 33
  {
    PlainLineLaw(w, i, f.ssem, 0);
    AddressedLineLaw(w, i, f.ssem);
  }

  // ----- what a line is -----

  /** The six characters of `[:space:]`. */
  predicate AllSpace(s: string) {
    forall i :: 0 <= i < |s| ==> s[i] == ' ' || 9 <= s[i] as int <= 13
  }

  lemma SpaceLaw(c: char)
    ensures IsSpace(c) <==> c == ' ' || 9 <= c as int <= 13
    ensures AllSpace([c]) <==> c == ' ' || 9 <= c as int <= 13
  {
    assert [c][0] == c;
  }

  lemma SpaceMore(s: string, t: string)
    ensures AllSpace("") && (AllSpace(s + t) <==> AllSpace(s) && AllSpace(t))
  {
    forall i | 0 <= i < |t| ensures t[i] == (s + t)[|s| + i] {}
    forall i | 0 <= i < |s| ensures s[i] == (s + t)[i] {}
  }

  lemma {:induction false} SpaceThenComment(s: string, k: nat)
    requires k <= |s| && AllSpace(s[..k]) && (k == |s| || s[k] == ';')
    ensures Comment(s)
    decreases k
  {
    if k > 0 {
      hide AllSpace;
      var rest := s[1..];
      assert s[..k] == [s[0]] + rest[..k - 1];
      SpaceMore([s[0]], rest[..k - 1]);
      SpaceLaw(s[0]);
      SpaceThenComment(rest, k - 1);
    }
  }

  lemma {:induction false} CommentSpace(s: string) returns (k: nat)
    requires Comment(s)
    ensures k <= |s| && AllSpace(s[..k]) && (k == |s| || s[k] == ';')
  {
    if s == [] || s[0] == ';' {
      k := 0;
    } else {
      hide AllSpace;
      var j := CommentSpace(s[1..]);
      k := j + 1;
      assert s[..k] == [s[0]] + s[1..][..j];
      SpaceMore([s[0]], s[1..][..j]);
      SpaceLaw(s[0]);
    }
  }

  /** A comment is space, and then nothing or a semicolon. */
  lemma CommentExact(s: string)
    ensures Comment(s) <==> exists k :: 0 <= k <= |s| && AllSpace(s[..k]) && (k == |s| || s[k] == ';')
  {
    hide Comment, AllSpace;
    if Comment(s) {
      var k := CommentSpace(s);
      assert AllSpace(s[..k]);
    }
    if k :| 0 <= k <= |s| && AllSpace(s[..k]) && (k == |s| || s[k] == ';') {
      SpaceThenComment(s, k);
    }
  }

  predicate AllBits(s: string) {
    forall i :: 0 <= i < |s| ==> s[i] == '0' || s[i] == '1'
  }

  /** The first n characters are an address, a colon, a space and 32 bits follow, and then nothing but a
      comment. */
  ghost predicate Addressed(s: string, n: nat) {
    && 0 < n && n + 34 <= |s| && AllDigits(s[..n]) && s[n] == ':' && s[n + 1] == ' '
    && AllBits(s[n + 2..n + 34]) && Comment(s[n + 34..])
  }

  ghost predicate Unaddressed(s: string) {
    32 <= |s| && AllBits(s[..32]) && Comment(s[32..])
  }

  lemma {:induction false} DigitsAre(s: string, n: nat)
    requires n < |s| && AllDigits(s[..n]) && !('0' <= s[n] <= '9')
    ensures Digits(s) == n
  {
    var d, rest := s[..n], s[n..];
    assert s == d + rest;
    DigitsThen(d, rest);
  }

  lemma BitsAre(s: string, k: nat)
    requires k + 32 <= |s|
    ensures BitsAt(s, k) <==> AllBits(s[k..k + 32]) && Comment(s[k + 32..])
  {
    var b := s[k..k + 32];
    if AllBits(b) {
      forall i | k <= i < k + 32 ensures IsBit(s[i]) { assert s[i] == b[i - k]; }
    }
    if BitsAt(s, k) {
      forall i | 0 <= i < 32 ensures b[i] == '0' || b[i] == '1' { assert IsBit(s[k + i]); }
    }
  }

  /** The number an address stands for: beyond 64 bits the greatest, cut to 32 bits. */
  lemma AddressLaw(d: string)
    requires AllDigits(d)
    ensures DecimalValue(d) < 0x1_0000_0000 ==> StrToUl(d) == DecimalValue(d)
    ensures DecimalValue(d) < 0x1_0000_0000_0000_0000 ==> StrToUl(d) == DecimalValue(d) % 0x1_0000_0000
    ensures DecimalValue(d) >= 0x1_0000_0000_0000_0000 ==> StrToUl(d) == 0xFFFF_FFFF
  {
    if DecimalValue(d) < TWO32 {
      SmallMod(DecimalValue(d), TWO32);
    }
  }

  /** In a format with addresses a line is a statement exactly if it is an address, a colon, a space, 32 bits
      and a comment or nothing, and stands for those; otherwise it is passed over exactly if it is a comment or
      nothing. */
  lemma AddressedExact(s: string, ssem: bool)
    ensures var l := Recognise(s, Flags(ssem, true));
      && (l.Statement? <==> exists n: nat :: Addressed(s, n))
      && (forall n: nat :: Addressed(s, n) ==> l == Statement(Some(StrToUl(s[..n])), s[n + 2..n + 34]))
      && (l.Ignorable? <==> Comment(s) && !l.Statement?)
  {
    hide Digits, Comment, BitsAt;
    var f, m := Flags(ssem, true), Digits(s);
    forall n: nat | Addressed(s, n)
      ensures Recognise(s, f) == Statement(Some(StrToUl(s[..n])), s[n + 2..n + 34])
    {
      DigitsAre(s, n);
      BitsAre(s, n + 2);
    }
    if Recognise(s, f).Statement? {
      assert BitsAt(s, m + 2) by { hide *; }
      BitsInside(s, m + 2);
      BitsAre(s, m + 2);
      assert Addressed(s, m);
    }
  }

  lemma BitsInside(s: string, k: nat)
    requires BitsAt(s, k)
    ensures k + 32 <= |s|
  {}

  /** In a format without addresses a line is a statement exactly if it is 32 bits and a comment or nothing. */
  lemma UnaddressedExact(s: string, ssem: bool)
    ensures var l := Recognise(s, Flags(ssem, false));
      && (l.Statement? <==> Unaddressed(s))
      && (Unaddressed(s) ==> l == Statement(None, s[..32]))
      && (l.Ignorable? <==> Comment(s) && !Unaddressed(s))
  {
    hide Digits, Comment;
    if 32 <= |s| {
      BitsAre(s, 0);
    }
  }

  // ----- what the loader passes over -----

  /** A line of space and perhaps a comment is no statement. */
  lemma BlankIgnored(line: string, k: nat, f: Flags)
    requires k <= |line| && AllSpace(line[..k])
    requires k == |line| || line[k] == ';'
    ensures Recognise(line, f) == Ignorable
  {
    SpaceThenComment(line, k);
    if line != [] {
      assert k > 0 ==> line[0] == line[..k][0];
      assert !IsDigit(line[0]);
    }
  }

  /** A line that ends before `rest` starts. */
  lemma {:induction false} FirstLine(before: string, rest: string)
    requires before != "" && before[|before| - 1] == '\n'
    ensures LineLength(before + rest) == LineLength(before)
    ensures var n := LineLength(before);
      && (before + rest)[..n] == before[..n] && (before + rest)[n..] == before[n..] + rest
      && (before[n..] == "" || before[n..][|before[n..]| - 1] == '\n')
  {
    assert (before + rest)[0] == before[0];
    if before[0] != '\n' {
      assert (before + rest)[1..] == before[1..] + rest;
      FirstLine(before[1..], rest);
    }
  }

  /** Texts that are read alike after the lines before them are read alike with those lines. */
  lemma {:induction false} SameAfter(before: string, x: string, y: string, f: Flags, sofar: seq<Word>)
    requires before == "" || before[|before| - 1] == '\n'
    requires forall words :: ReadText(x, f, words) == ReadText(y, f, words)
    ensures ReadText(before + x, f, sofar) == ReadText(before + y, f, sofar)
    decreases |before|
  {
    if before == "" {
      assert before + x == x && before + y == y;
    } else {
      hide Recognise, LineLength;
      FirstLine(before, x);
      FirstLine(before, y);
      var n := LineLength(before);
      match Recognise(before[..n], f)
      case Malformed =>
      case Ignorable => SameAfter(before[n..], x, y, f, sofar);
      case Statement(_, bits) => SameAfter(before[n..], x, y, f, sofar + [WordOf(bits, f.ssem)]);
    }
  }

  /** A line up to its newline and the text after it. */
  lemma LineThen(line: string, rest: string)
    requires '\n' !in line
    ensures var t := line + "\n" + rest;
      LineLength(t) == |line| + 1 && t[..|line| + 1] == line + "\n" && t[|line| + 1..] == rest
  {
    LineEnds(line, rest);
  }

  /** Putting a line of space and perhaps a comment between two lines changes nothing that is read. */
  lemma BlankLinesIgnored(before: string, line: string, k: nat, after: string, f: Flags, sofar: seq<Word>)
    requires before == "" || before[|before| - 1] == '\n'
    requires '\n' !in line && k <= |line| && (k == |line| || line[k] == ';')
    requires AllSpace(line[..k])
    ensures ReadText(before + (line + "\n" + after), f, sofar) == ReadText(before + after, f, sofar)
  {
    hide Recognise, LineLength;
    LineThen(line, after);
    var s, m := line + "\n", if k == |line| then k + 1 else k;
    SpaceMore(line[..k], "\n");
    assert s[..m] == if k == |line| then line[..k] + "\n" else line[..k];
    BlankIgnored(s, m, f);
    SameAfter(before, line + "\n" + after, after, f, sofar);
  }

  function StatementText(d: string, b: string, f: Flags): string {
    if f.addr then d + ": " + b else b
  }

  /** A statement with nothing, space or a comment after its bits. */
  lemma StatementLine(d: string, b: string, tail: string, k: nat, f: Flags)
    requires AllDigits(d) && |d| > 0 && AllBits(b) && |b| == 32
    requires k <= |tail| && (k == |tail| || tail[k] == ';') && AllSpace(tail[..k])
    ensures Recognise(StatementText(d, b, f) + tail + "\n", f)
         == Statement(if f.addr then Some(StrToUl(d)) else None, b)
  {
    hide Recognise, StrToUl, Comment, AllDigits, AllBits, AllSpace;
    var s, t := StatementText(d, b, f) + tail + "\n", tail + "\n";
    TailIsComment(tail, k);
    if f.addr {
      assert s == d + (": " + b + t);
      AddressedParts(d, b, t);
      assert Addressed(s, |d|);
      AddressedExact(s, f.ssem);
    } else {
      assert s == b + t && s[..32] == b && s[32..] == t;
      UnaddressedExact(s, f.ssem);
    }
  }

  lemma AddressedParts(d: string, b: string, t: string)
    requires |b| == 32
    ensures var s, n := d + (": " + b + t), |d|;
      s[..n] == d && s[n] == ':' && s[n + 1] == ' ' && s[n + 2..n + 34] == b && s[n + 34..] == t
  {}

  /** It adds its word, if its address is the next one. */
  lemma StatementRead(d: string, b: string, tail: string, k: nat, rest: string, f: Flags, sofar: seq<Word>)
    requires AllDigits(d) && |d| > 0 && AllBits(b) && |b| == 32
    requires '\n' !in tail && k <= |tail| && (k == |tail| || tail[k] == ';') && AllSpace(tail[..k])
    ensures var line := StatementText(d, b, f) + tail + "\n";
      && ReadText(line + rest, f, sofar)
         == (if f.addr && StrToUl(d) != |sofar| % 0x1_0000_0000 then None
             else ReadText(rest, f, sofar + [WordOf(b, f.ssem)]))
      && ReadSoFar(line + rest, f, sofar)
         == (if f.addr && StrToUl(d) != |sofar| % 0x1_0000_0000 then sofar
             else ReadSoFar(rest, f, sofar + [WordOf(b, f.ssem)]))
  {
    hide Recognise, LineLength, StrToUl, WordOf, StatementText, AllDigits, AllBits, AllSpace;
    StatementLine(d, b, tail, k, f);
    NoNewline(d, b, tail, f);
    LineThen(StatementText(d, b, f) + tail, rest);
  }

  lemma TailIsComment(tail: string, k: nat)
    requires k <= |tail| && (k == |tail| || tail[k] == ';')
    requires AllSpace(tail[..k])
    ensures Comment(tail + "\n")
  {
    var s, m := tail + "\n", if k == |tail| then k + 1 else k;
    SpaceMore(tail[..k], "\n");
    assert s[..m] == if k == |tail| then tail[..k] + "\n" else tail[..k];
    SpaceThenComment(s, m);
  }

  lemma NoNewline(d: string, b: string, tail: string, f: Flags)
    requires AllDigits(d) && AllBits(b) && '\n' !in tail
    ensures '\n' !in StatementText(d, b, f) + tail
  {}

  /** Such a tail changes nothing that is read, wherever the statement stands. */
  lemma TailsIgnored(before: string, d: string, b: string, tail: string, k: nat, rest: string, f: Flags,
                     sofar: seq<Word>)
    requires before == "" || before[|before| - 1] == '\n'
    requires AllDigits(d) && |d| > 0 && AllBits(b) && |b| == 32
    requires '\n' !in tail && k <= |tail| && (k == |tail| || tail[k] == ';') && AllSpace(tail[..k])
    ensures var stmt := if f.addr then d + ": " + b else b;
      ReadText(before + (stmt + tail + "\n" + rest), f, sofar) == ReadText(before + (stmt + "\n" + rest), f, sofar)
  {
    var stmt := StatementText(d, b, f);
    assert stmt + "" == stmt;
    forall words ensures ReadText(stmt + tail + "\n" + rest, f, words) == ReadText(stmt + "\n" + rest, f, words) {
      hide *;
      StatementRead(d, b, tail, k, rest, f, words);
      StatementRead(d, b, "", 0, rest, f, words);
    }
    SameAfter(before, stmt + tail + "\n" + rest, stmt + "\n" + rest, f, sofar);
  }

  /** A line that is neither a statement nor a comment ends the reading. */
  lemma MalformedRead(line: string, rest: string, f: Flags, sofar: seq<Word>)
    requires '\n' !in line && !Comment(line + "\n")
    requires if f.addr then !exists n: nat :: Addressed(line + "\n", n) else !Unaddressed(line + "\n")
    ensures ReadText(line + "\n" + rest, f, sofar) == None && ReadSoFar(line + "\n" + rest, f, sofar) == sofar
  {
    hide Recognise, LineLength, Comment;
    LineThen(line, rest);
    if f.addr {
      AddressedExact(line + "\n", f.ssem);
    } else {
      UnaddressedExact(line + "\n", f.ssem);
    }
  }

  /** Such a line at the end of the text may lack its newline. */
  lemma LastLineIgnored(before: string, line: string, k: nat, f: Flags, sofar: seq<Word>)
    requires before == "" || before[|before| - 1] == '\n'
    requires '\n' !in line && k <= |line| && (k == |line| || line[k] == ';') && AllSpace(line[..k])
    ensures ReadText(before + line, f, sofar) == ReadText(before, f, sofar)
  {
    hide Recognise, LineLength;
    BlankIgnored(line, k, f);
    if line != "" {
      WholeLine(line);
      assert line[..|line|] == line && line[|line|..] == "";
    }
    SameAfter(before, line, "", f, sofar);
    assert before + "" == before;
  }

  lemma {:induction false} WholeLine(line: string)
    requires line != "" && '\n' !in line
    ensures LineLength(line) == |line|
  {
    if |line| > 1 {
      WholeLine(line[1..]);
    }
  }

  /** Lines that have been read without fault leave their words, to which what follows adds; so when a later
      line is at fault, the words before it are known. */
  lemma {:induction false} ReadAfter(before: string, x: string, f: Flags, sofar: seq<Word>)
    requires before == "" || before[|before| - 1] == '\n'
    requires ReadText(before, f, sofar).Some?
    ensures var words := ReadText(before, f, sofar).value;
      && ReadText(before + x, f, sofar) == ReadText(x, f, words)
      && ReadSoFar(before + x, f, sofar) == ReadSoFar(x, f, words)
    decreases |before|
  {
    if before == "" {
      assert before + x == x;
    } else {
      hide Recognise, LineLength;
      FirstLine(before, x);
      var n := LineLength(before);
      match Recognise(before[..n], f)
      case Malformed =>
      case Ignorable => ReadAfter(before[n..], x, f, sofar);
      case Statement(_, bits) => ReadAfter(before[n..], x, f, sofar + [WordOf(bits, f.ssem)]);
    }
  }
}

/** The string operations of the log checker: strip, split, str(int) and int(str). */
module Text {
  import opened Options

  // ---------------------------------------------------------------------
  // strip and split
  // ---------------------------------------------------------------------

  predicate Over(s: string, chars: string) {
    forall i :: 0 <= i < |s| ==> s[i] in chars
  }

  function LStrip(s: string, drop: string): string {
    if s != [] && s[0] in drop then LStrip(s[1..], drop) else s
  }

  function RStrip(s: string, drop: string): string {
    if s != [] && s[|s| - 1] in drop then RStrip(s[..|s| - 1], drop) else s
  }

  function Strip(s: string, drop: string): string {
    RStrip(LStrip(s, drop), drop)
  }

  /** s begins and ends with characters that strip keeps. */
  predicate Tight(s: string, drop: string) {
    s != [] && s[0] !in drop && s[|s| - 1] !in drop
  }

  lemma {:induction false} LStripPadding(pre: string, s: string, drop: string)
    requires Over(pre, drop) && s != [] && s[0] !in drop
    ensures LStrip(pre + s, drop) == s
  {
    if pre == [] {
      assert pre + s == s;
    } else {
      LStripPadding(pre[1..], s, drop);
      assert (pre + s)[1..] == pre[1..] + s;
    }
  }

  lemma {:induction false} RStripPadding(s: string, post: string, drop: string)
    requires Over(post, drop) && s != [] && s[|s| - 1] !in drop
    ensures RStrip(s + post, drop) == s
  {
    if post == [] {
      assert s + post == s;
    } else {
      RStripPadding(s, post[..|post| - 1], drop);
      assert (s + post)[..|s + post| - 1] == s + post[..|post| - 1];
    }
  }

  lemma StripPadding(pre: string, s: string, post: string, drop: string)
    requires Over(pre, drop) && Over(post, drop) && Tight(s, drop)
    ensures Strip(pre + s + post, drop) == s
  {
    assert pre + s + post == pre + (s + post);
    LStripPadding(pre, s + post, drop);
    RStripPadding(s, post, drop);
  }

  lemma StripNewline(s: string)
    requires Tight(s, " \t\n")
    ensures Strip(s + "\n", " \t\n") == s
  {
    StripPadding("", s, "\n", " \t\n");
    assert "" + s + "\n" == s + "\n";
  }

  /** Characters that are not dropped keep their number. */
  lemma {:induction false} LStripKeepsCount(s: string, drop: string, c: char)
    requires c !in drop
    ensures multiset(LStrip(s, drop))[c] == multiset(s)[c]
  {
    if s != [] && s[0] in drop {
      LStripKeepsCount(s[1..], drop, c);
      assert s == [s[0]] + s[1..];
    }
  }

  lemma {:induction false} RStripKeepsCount(s: string, drop: string, c: char)
    requires c !in drop
    ensures multiset(RStrip(s, drop))[c] == multiset(s)[c]
  {
    if s != [] && s[|s| - 1] in drop {
      RStripKeepsCount(s[..|s| - 1], drop, c);
      assert s == s[..|s| - 1] + [s[|s| - 1]];
    }
  }

  function Split(s: string, sep: char): (r: seq<string>)
    ensures |r| >= 1
  {
    if s == [] then [""]
    else if s[0] == sep then [""] + Split(s[1..], sep)
    else
      var rest := Split(s[1..], sep);
      [[s[0]] + rest[0]] + rest[1..]
  }

  lemma {:induction false} SplitWhole(s: string, sep: char)
    requires sep !in s
    ensures Split(s, sep) == [s]
  {
    if s != [] {
      SplitWhole(s[1..], sep);
      assert s == [s[0]] + s[1..];
    }
  }

  lemma {:induction false} SplitFirst(a: string, sep: char, b: string)
    requires sep !in a
    ensures Split(a + [sep] + b, sep) == [a] + Split(b, sep)
  {
    var s := a + [sep] + b;
    if a == [] {
      assert s[1..] == b;
    } else {
      SplitFirst(a[1..], sep, b);
      assert s[1..] == a[1..] + [sep] + b;
      assert a == [a[0]] + a[1..];
    }
  }

  lemma SplitThree(a: string, sep: char, b: string, d: string)
    requires sep !in a && sep !in b && sep !in d
    ensures Split(a + [sep] + b + [sep] + d, sep) == [a, b, d]
  {
    SplitWhole(d, sep);
    SplitFirst(b, sep, d);
    SplitFirst(a, sep, b + [sep] + d);
    assert a + [sep] + b + [sep] + d == a + [sep] + (b + [sep] + d);
  }

  lemma {:induction false} SplitCounts(s: string, sep: char)
    ensures |Split(s, sep)| == multiset(s)[sep] + 1
  {
    if s != [] {
      SplitCounts(s[1..], sep);
      assert s == [s[0]] + s[1..];
    }
  }

  // ---------------------------------------------------------------------
  // Integers
  // ---------------------------------------------------------------------

  predicate IsDigit(c: char) {
    '0' <= c <= '9'
  }

  predicate AllDigits(s: string) {
    s != [] && forall i :: 0 <= i < |s| ==> IsDigit(s[i])
  }

  function DigitChar(d: nat): (c: char)
    requires d < 10
    ensures IsDigit(c) && c as int - '0' as int == d
  {
    (d + '0' as int) as char
  }

  function Digits(n: nat): (s: string)
    ensures AllDigits(s)
  {
    if n < 10 then [DigitChar(n)] else Digits(n / 10) + [DigitChar(n % 10)]
  }

  /** str of an int. */
  function PrintInt(n: int): string {
    if n < 0 then "-" + Digits(-n) else Digits(n)
  }

  function ReadDigits(s: string): Option<int> {
    if s == [] then Some(0)
    else
      var last := s[|s| - 1];
      match ReadDigits(s[..|s| - 1])
      case None => None
      case Some(n) => if IsDigit(last) then Some(10 * n + (last as int - '0' as int)) else None
  }

  function ReadNat(s: string): Option<int> {
    if s == [] then None else ReadDigits(s)
  }

  /** The characters that int() ignores around a number. */
  const BLANKS := " \t\n\r\U{b}\U{c}"

  /** int of a string; None for its ValueError. */
  function ParseInt(text: string): Option<int> {
    var t := Strip(text, BLANKS);
    if t != [] && t[0] == '-' then
      match ReadNat(t[1..])
      case None => None
      case Some(n) => Some(-n)
    else
      match ReadNat(if t != [] && t[0] == '+' then t[1..] else t)
      case None => None
      case Some(n) => Some(n)
  }

  lemma {:induction false} ReadDigitsOfDigits(n: nat)
    ensures ReadDigits(Digits(n)) == Some(n)
  {
    var s := Digits(n);
    if n < 10 {
      assert s[..0] == [];
    } else {
      ReadDigitsOfDigits(n / 10);
      assert s[..|s| - 1] == Digits(n / 10) && s[|s| - 1] == DigitChar(n % 10);
      assert n == 10 * (n / 10) + n % 10;
    }
  }

  /** A printed number, with blanks around it, parses to itself. */
  lemma ParsePrinted(pre: string, n: int, post: string)
    requires Over(pre, BLANKS) && Over(post, BLANKS)
    ensures ParseInt(pre + PrintInt(n) + post) == Some(n)
  {
    var s := PrintInt(n);
    assert s[0] == '-' || IsDigit(s[0]);
    assert IsDigit(s[|s| - 1]);
    StripPadding(pre, s, post, BLANKS);
    ReadDigitsOfDigits(if n < 0 then -n else n);
    assert n < 0 ==> s[1..] == Digits(-n);
  }

  lemma ParsePrintedAlone(n: int)
    ensures ParseInt(PrintInt(n)) == Some(n)
  {
    ParsePrinted("", n, "");
    assert "" + PrintInt(n) + "" == PrintInt(n);
  }

  /** A printed number holds a dash exactly when it is negative, and nothing but
      digits otherwise. */
  lemma DashWhenNegative(n: int)
    ensures '-' in PrintInt(n) <==> n < 0
    ensures forall x :: x in PrintInt(n) ==> x == '-' || IsDigit(x)
  {
  }

  // ---------------------------------------------------------------------
  // Lines
  // ---------------------------------------------------------------------

  /** Iterating over a file: each line with its newline, and an unfinished last one. */
  function Lines(file: string): seq<string> {
    if file == [] then []
    else
      var rest := Lines(file[1..]);
      if file[0] == '\n' || rest == [] then [[file[0]]] + rest
      else [[file[0]] + rest[0]] + rest[1..]
  }

  lemma {:induction false} FirstOfLines(line: string, file: string)
    requires '\n' !in line
    ensures Lines(line + "\n" + file) == [line + "\n"] + Lines(file)
  {
    var all := line + "\n" + file;
    if line == [] {
      assert all[1..] == file && line + "\n" == ['\n'];
    } else {
      FirstOfLines(line[1..], file);
      assert all[1..] == line[1..] + "\n" + file;
      assert [line[0]] + (line[1..] + "\n") == line + "\n";
    }
  }
}

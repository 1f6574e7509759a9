/** What exactly the parsers of the log checker and of the client accept, for any input. */
module Grammar {
  import opened Options
  import opened Commands
  import opened Text
  import opened LogFiles
  import opened CommandFiles
  import opened LogChecks

  // ---------------------------------------------------------------------
  // strip and split
  // ---------------------------------------------------------------------

  lemma {:induction false} LStripCuts(s: string, drop: string) returns (pre: string)
    ensures Over(pre, drop) && s == pre + LStrip(s, drop)
    ensures LStrip(s, drop) == [] || LStrip(s, drop)[0] !in drop
  {
    if s != [] && s[0] in drop {
      var rest := LStripCuts(s[1..], drop);
      pre := [s[0]] + rest;
      assert s == [s[0]] + s[1..];
    } else {
      pre := [];
    }
  }

  lemma {:induction false} RStripCuts(s: string, drop: string) returns (post: string)
    ensures Over(post, drop) && s == RStrip(s, drop) + post
    ensures RStrip(s, drop) == [] || RStrip(s, drop)[|RStrip(s, drop)| - 1] !in drop
  {
    if s != [] && s[|s| - 1] in drop {
      var rest := RStripCuts(s[..|s| - 1], drop);
      post := rest + [s[|s| - 1]];
      assert s == s[..|s| - 1] + [s[|s| - 1]];
    } else {
      post := [];
    }
  }

  lemma {:induction false} RStripAll(s: string, drop: string)
    requires Over(s, drop)
    ensures RStrip(s, drop) == []
  {
    if s != [] {
      RStripAll(s[..|s| - 1], drop);
    }
  }

  /** rstrip takes away a longest end of dropped characters, and nothing else. */
  lemma RStripExactly(s: string, drop: string, t: string)
    ensures RStrip(s, drop) == t <==>
      (t == [] || t[|t| - 1] !in drop) && exists post :: Over(post, drop) && s == t + post
  {
    var cut := RStripCuts(s, drop);
    if post :| (t == [] || t[|t| - 1] !in drop) && Over(post, drop) && s == t + post {
      if t == [] {
        assert s == post;
        RStripAll(s, drop);
      } else {
        RStripPadding(t, post, drop);
      }
    }
  }

  lemma {:induction false} LStripAll(s: string, drop: string)
    requires Over(s, drop)
    ensures LStrip(s, drop) == []
  {
    if s != [] {
      LStripAll(s[1..], drop);
    }
  }

  lemma StripCuts(s: string, drop: string) returns (pre: string, post: string)
    ensures Over(pre, drop) && Over(post, drop) && s == pre + Strip(s, drop) + post
    ensures Strip(s, drop) == [] || Tight(Strip(s, drop), drop)
  {
    pre := LStripCuts(s, drop);
    post := RStripCuts(LStrip(s, drop), drop);
    assert Strip(s, drop) != [] ==> Strip(s, drop)[0] == LStrip(s, drop)[0];
  }

  /** strip takes away dropped characters at both ends until none is left there. */
  lemma StripExactly(s: string, drop: string, t: string)
    ensures Strip(s, drop) == t <==>
      (t == [] || Tight(t, drop)) && exists pre, post :: Over(pre, drop) && Over(post, drop) && s == pre + t + post
  {
    var a, b := StripCuts(s, drop);
    if pre, post :| (t == [] || Tight(t, drop)) && Over(pre, drop) && Over(post, drop) && s == pre + t + post {
      if t == [] {
        assert Over(s, drop);
        LStripAll(s, drop);
      } else {
        StripPadding(pre, t, post, drop);
      }
    }
  }

  function Join(parts: seq<string>, sep: char): string {
    if parts == [] then ""
    else if |parts| == 1 then parts[0]
    else parts[0] + [sep] + Join(parts[1..], sep)
  }

  predicate SepFree(parts: seq<string>, sep: char) {
    forall k :: 0 <= k < |parts| ==> sep !in parts[k]
  }

  lemma JoinLonger(c: char, parts: seq<string>, sep: char)
    requires parts != []
    ensures Join([[c] + parts[0]] + parts[1..], sep) == [c] + Join(parts, sep)
  {
    var longer := [[c] + parts[0]] + parts[1..];
    assert longer[1..] == parts[1..];
    if |parts| > 1 {
      assert ([c] + parts[0]) + [sep] + Join(parts[1..], sep) == [c] + (parts[0] + [sep] + Join(parts[1..], sep));
    }
  }

  lemma {:induction false} JoinOfSplit(s: string, sep: char)
    ensures SepFree(Split(s, sep), sep) && Join(Split(s, sep), sep) == s
  {
    if s != [] {
      JoinOfSplit(s[1..], sep);
      var rest := Split(s[1..], sep);
      assert s == [s[0]] + s[1..];
      if s[0] == sep {
        assert Split(s, sep)[1..] == rest;
      } else {
        JoinLonger(s[0], rest, sep);
      }
    }
  }

  lemma {:induction false} SplitOfJoin(parts: seq<string>, sep: char)
    requires parts != [] && SepFree(parts, sep)
    ensures Split(Join(parts, sep), sep) == parts
  {
    if |parts| == 1 {
      SplitWhole(parts[0], sep);
    } else {
      assert SepFree(parts[1..], sep) by {
        assert forall k :: 0 <= k < |parts[1..]| ==> parts[1..][k] == parts[k + 1];
      }
      SplitOfJoin(parts[1..], sep);
      SplitFirst(parts[0], sep, Join(parts[1..], sep));
      assert parts == [parts[0]] + parts[1..];
    }
  }

  /** split gives the one list of parts without the separator that join to the string. */
  lemma SplitExactly(s: string, sep: char, parts: seq<string>)
    ensures Split(s, sep) == parts <==> parts != [] && SepFree(parts, sep) && Join(parts, sep) == s
  {
    JoinOfSplit(s, sep);
    if parts != [] && SepFree(parts, sep) {
      SplitOfJoin(parts, sep);
    }
  }

  // ---------------------------------------------------------------------
  // Integers
  // ---------------------------------------------------------------------

  function Zeros(k: nat): string {
    if k == 0 then "" else Zeros(k - 1) + "0"
  }

  lemma {:induction false} ZerosReadNothing(k: nat, s: string)
    requires s != []
    ensures ReadDigits(Zeros(k) + s) == ReadDigits(s)
    decreases k + |s|
  {
    var all, init := Zeros(k) + s, s[..|s| - 1];
    assert all[..|all| - 1] == Zeros(k) + init && all[|all| - 1] == s[|s| - 1];
    if init != [] {
      ZerosReadNothing(k, init);
    } else {
      assert Zeros(k) + init == Zeros(k);
      ReadZeros(k);
    }
  }

  lemma {:induction false} ReadZeros(k: nat)
    ensures ReadDigits(Zeros(k)) == Some(0)
  {
    if k > 0 {
      ReadZeros(k - 1);
      assert Zeros(k)[..|Zeros(k)| - 1] == Zeros(k - 1);
    }
  }

  lemma {:induction false} ReadDigitsShape(s: string, m: nat) returns (k: nat)
    requires s != [] && ReadDigits(s) == Some(m)
    ensures s == Zeros(k) + Digits(m)
  {
    var init, last := s[..|s| - 1], s[|s| - 1];
    var q, d: nat := ReadDigits(init).value, last as int - '0' as int;
    assert s == init + [last] && [last] == Digits(d) by { assert DigitChar(d) == last; }
    if init == [] {
      k := 0;
    } else {
      ReadIsNat(init);
      var j := ReadDigitsShape(init, q);
      if q == 0 {
        k := j + 1;
        assert Digits(0) == "0" && Zeros(j) + "0" == Zeros(j + 1);
      } else {
        k := j;
        assert m / 10 == q && m % 10 == d;
        assert Digits(m) == Digits(q) + [last];
        assert Zeros(j) + (Digits(q) + [last]) == Zeros(j) + Digits(q) + [last];
      }
    }
  }

  lemma {:induction false} ReadIsNat(s: string)
    ensures ReadDigits(s).Some? ==> ReadDigits(s).value >= 0
  {
    if s != [] {
      ReadIsNat(s[..|s| - 1]);
    }
  }

  predicate SignFits(sign: string, n: int) {
    (sign == "-" && n <= 0) || ((sign == "" || sign == "+") && n >= 0)
  }

  function Abs(n: int): nat {
    if n < 0 then -n else n
  }

  /** The text of n as int accepts it: a sign, zeros, and the digits. */
  predicate Spells(t: string, n: int, sign: string, k: nat) {
    SignFits(sign, n) && t == sign + Zeros(k) + Digits(Abs(n))
  }

  lemma {:induction false} ZerosAre(k: nat)
    ensures forall i :: 0 <= i < |Zeros(k)| ==> Zeros(k)[i] == '0'
  {
    if k > 0 {
      ZerosAre(k - 1);
    }
  }

  lemma DigitsSpell(k: nat, m: nat)
    ensures var s := Zeros(k) + Digits(m); s != [] && IsDigit(s[0]) && ReadDigits(s) == Some(m)
  {
    ZerosAre(k);
    ZerosReadNothing(k, Digits(m));
    ReadDigitsOfDigits(m);
    var s := Zeros(k) + Digits(m);
    assert s[0] == if k == 0 then Digits(m)[0] else Zeros(k)[0];
  }

  /** int on a sign and something that reads as a number. */
  lemma SignedReads(text: string, sign: string, s: string, m: nat)
    requires Strip(text, BLANKS) == sign + s && sign in ["-", "+", ""]
    requires s != [] && IsDigit(s[0]) && ReadDigits(s) == Some(m)
    ensures ParseInt(text) == if sign == "-" then Some(0 - m) else Some(m)
  {
    var t := Strip(text, BLANKS);
    if sign == "" {
      assert t == s;
    } else {
      assert t[0] == sign[0] && t[1..] == s;
    }
  }

  lemma SpelledParses(text: string, n: int, sign: string, k: nat)
    requires Spells(Strip(text, BLANKS), n, sign, k)
    ensures ParseInt(text) == Some(n)
  {
    var digits := Zeros(k) + Digits(Abs(n));
    assert Strip(text, BLANKS) == sign + digits;
    DigitsSpell(k, Abs(n));
    SignedReads(text, sign, digits, Abs(n));
  }

  function SignOf(t: string): string {
    if t != [] && t[0] == '-' then "-" else if t != [] && t[0] == '+' then "+" else ""
  }

  lemma ParsedIsSpelled(text: string, n: int) returns (k: nat)
    requires ParseInt(text) == Some(n)
    ensures Spells(Strip(text, BLANKS), n, SignOf(Strip(text, BLANKS)), k)
  {
    var t := Strip(text, BLANKS);
    var sign := SignOf(t);
    var digits := if sign == "" then t else t[1..];
    assert t == sign + digits;
    ReadIsNat(digits);
    assert ReadNat(digits) == Some(Abs(n)) && SignFits(sign, n);
    k := ReadDigitsShape(digits, Abs(n));
    assert sign + (Zeros(k) + Digits(Abs(n))) == sign + Zeros(k) + Digits(Abs(n));
  }

  /** int accepts exactly an optional sign, any number of zeros and the decimal digits,
      with blanks around them, and gives the number so written. */
  lemma ParseIntExactly(text: string, n: int)
    ensures ParseInt(text) == Some(n) <==> exists sign, k :: Spells(Strip(text, " \t\n\r\U{b}\U{c}"), n, sign, k)
  {
    if sign, k :| Spells(Strip(text, BLANKS), n, sign, k) {
      SpelledParses(text, n, sign, k);
    }
    if ParseInt(text) == Some(n) {
      var k := ParsedIsSpelled(text, n);
    }
  }

  // ---------------------------------------------------------------------
  // Lines of a log
  // ---------------------------------------------------------------------

  /** A line with exactly the fields a, b and d, the last of which is a kind and a number. */
  predicate ReadsAs(line: string, p: ParsedLine, b: string, d: string, w: string) {
    && '-' !in p.instance && '-' !in b && '-' !in d && ' ' !in p.kind && ' ' !in w
    && Strip(line, " \t\n") == p.instance + "-" + b + "-" + d
    && Strip(d, "\n \t") == p.kind + " " + w
    && ParseInt(w) == Some(p.resource)
  }

  lemma ThreeParts(s: string, a: string, b: string, d: string)
    ensures Split(s, '-') == [a, b, d] <==> '-' !in a && '-' !in b && '-' !in d && s == a + "-" + b + "-" + d
  {
    SplitExactly(s, '-', [a, b, d]);
    var parts := [a, b, d];
    assert parts[1..] == [b, d] && [b, d][1..] == [d];
    assert Join([d], '-') == d && Join([b, d], '-') == b + "-" + d;
    assert Join(parts, '-') == a + "-" + (b + "-" + d);
    assert a + "-" + (b + "-" + d) == a + "-" + b + "-" + d;
    assert SepFree(parts, '-') <==> '-' !in parts[0] && '-' !in parts[1] && '-' !in parts[2];
  }

  lemma TwoParts(s: string, a: string, b: string)
    ensures Split(s, ' ') == [a, b] <==> ' ' !in a && ' ' !in b && s == a + " " + b
  {
    SplitExactly(s, ' ', [a, b]);
    var parts := [a, b];
    assert parts[1..] == [b];
    assert SepFree(parts, ' ') <==> ' ' !in parts[0] && ' ' !in parts[1];
  }

  /** A line parses if and only if it has the three fields and its last field is two words
      of which the second is a number; the result is those parts. */
  lemma ParseLineExactly(line: string, p: ParsedLine)
    ensures ParseLine(line) == Some(p) <==> exists b, d, w :: ReadsAs(line, p, b, d, w)
  {
    if b, d, w :| ReadsAs(line, p, b, d, w) {
      ThreeParts(Strip(line, " \t\n"), p.instance, b, d);
      TwoParts(Strip(d, "\n \t"), p.kind, w);
      FieldsParse(line, [p.instance, b, d], [p.kind, w], p.resource);
    }
    if ParseLine(line) == Some(p) {
      var fields := Split(Strip(line, " \t\n"), '-');
      var words := Split(Strip(fields[2], "\n \t"), ' ');
      assert fields == [fields[0], fields[1], fields[2]] && words == [words[0], words[1]];
      ThreeParts(Strip(line, " \t\n"), fields[0], fields[1], fields[2]);
      TwoParts(Strip(fields[2], "\n \t"), words[0], words[1]);
      assert ReadsAs(line, p, fields[1], fields[2], words[1]);
    }
  }

  /** The line reads as p, whose instance is the number i; entry is its command printed again. */
  predicate RecordsAs(line: string, i: int, entry: string, p: ParsedLine, b: string, d: string, w: string) {
    ReadsAs(line, p, b, d, w) && ParseInt(p.instance) == Some(i) && entry == p.kind + " " + PrintInt(p.resource)
  }

  /** A line of a log counts as a record if and only if it parses and its first field is
      a number: the instance, with the command printed again. */
  lemma ReadLineExactly(line: string, i: int, entry: string)
    ensures ReadLine(line) == Some((i, entry)) <==> exists p, b, d, w :: RecordsAs(line, i, entry, p, b, d, w)
  {
    if p, b, d, w :| RecordsAs(line, i, entry, p, b, d, w) {
      ParseLineExactly(line, p);
    }
    if ReadLine(line) == Some((i, entry)) {
      var p := ParseLine(line).value;
      ParseLineExactly(line, p);
      var b, d, w :| ReadsAs(line, p, b, d, w);
      assert RecordsAs(line, i, entry, p, b, d, w);
    }
  }

  predicate IsCommandLine(line: string) {
    ParseLine(line).Some? && ParseLine(line).value.kind in ["lock", "unlock"]
  }

  function CommandIn(line: string): Command
    requires IsCommandLine(line)
  {
    var p := ParseLine(line).value;
    Command(if p.kind == "lock" then LOCK else UNLOCK, p.resource)
  }

  /** The lines are commands that execute one after the other, starting from lockSet. */
  ghost predicate Executes(lines: seq<string>, lockSet: seq<int>)
    decreases |lines|
  {
    lines == [] ||
      (&& IsCommandLine(lines[0])
       && ExecuteCommand(lockSet, CommandIn(lines[0])).Some?
       && Executes(lines[1..], ExecuteCommand(lockSet, CommandIn(lines[0])).value))
  }

  /** A line that parses but is neither a lock nor an unlock. */
  predicate IsOther(line: string) {
    ParseLine(line).Some? && ParseLine(line).value.kind !in ["lock", "unlock"]
  }

  lemma FirstExecutes(lines: seq<string>, lockSet: seq<int>, k: nat)
    requires 0 < k <= |lines|
    ensures Executes(lines[..k], lockSet) <==>
      && IsCommandLine(lines[0])
      && ExecuteCommand(lockSet, CommandIn(lines[0])).Some?
      && Executes(lines[1..][..k - 1], ExecuteCommand(lockSet, CommandIn(lines[0])).value)
  {
    assert lines[..k][0] == lines[0] && lines[..k][1..] == lines[1..][..k - 1];
  }

  /** Good lines, then one of another kind. */
  ghost predicate BreaksAt(lines: seq<string>, lockSet: seq<int>, k: nat) {
    k < |lines| && IsOther(lines[k]) && Executes(lines[..k], lockSet)
  }

  lemma BreaksLater(lines: seq<string>, lockSet: seq<int>)
    requires lines != [] && IsCommandLine(lines[0]) && ExecuteCommand(lockSet, CommandIn(lines[0])).Some?
    ensures var next := ExecuteCommand(lockSet, CommandIn(lines[0])).value;
      (exists k :: BreaksAt(lines, lockSet, k)) <==> exists k :: BreaksAt(lines[1..], next, k)
  {
    var next := ExecuteCommand(lockSet, CommandIn(lines[0])).value;
    if k: nat :| BreaksAt(lines[1..], next, k) {
      FirstExecutes(lines, lockSet, k + 1);
      assert BreaksAt(lines, lockSet, k + 1);
    }
    if k: nat :| BreaksAt(lines, lockSet, k) {
      FirstExecutes(lines, lockSet, k);
      assert BreaksAt(lines[1..], next, k - 1);
    }
  }

  lemma BreaksNever(lines: seq<string>, lockSet: seq<int>, k: nat)
    requires BreaksAt(lines, lockSet, k) && k > 0
    ensures IsCommandLine(lines[0]) && ExecuteCommand(lockSet, CommandIn(lines[0])).Some?
  {
    FirstExecutes(lines, lockSet, k);
  }

  lemma {:induction false} ValidateFrom(lines: seq<string>, lockSet: seq<int>)
    ensures ValidateLines(lines, lockSet) == Some(true) <==> Executes(lines, lockSet)
    ensures ValidateLines(lines, lockSet) == Some(false) <==> exists k :: BreaksAt(lines, lockSet, k)
    decreases |lines|
  {
    if lines == [] {
    } else if IsOther(lines[0]) {
      assert lines[..0] == [] && BreaksAt(lines, lockSet, 0);
    } else if IsCommandLine(lines[0]) && ExecuteCommand(lockSet, CommandIn(lines[0])).Some? {
      BreaksLater(lines, lockSet);
      ValidateFrom(lines[1..], ExecuteCommand(lockSet, CommandIn(lines[0])).value);
    } else if k: nat :| BreaksAt(lines, lockSet, k) {
      if k > 0 {
        BreaksNever(lines, lockSet, k);
      }
      assert false;
    }
  }

  /** What the checker answers to any file: true when all lines are commands that execute,
      false when such lines are followed by one of another kind, and in all other cases
      an assertion or a conversion fails. */
  lemma CheckerAnswersExactly(file: string)
    ensures var lines := Lines(file);
      && (ValidateLines(lines, []) == Some(true) <==> Executes(lines, []))
      && (ValidateLines(lines, []) == Some(false) <==>
            exists k :: BreaksAt(lines, [], k))
  {
    ValidateFrom(Lines(file), []);
  }

  function Concat(lines: seq<string>): string {
    if lines == [] then "" else lines[0] + Concat(lines[1..])
  }

  /** One newline, at the end. */
  predicate IsFullLine(line: string) {
    line != [] && line[|line| - 1] == '\n' && '\n' !in line[..|line| - 1]
  }

  lemma {:induction false} LinesConcat(file: string)
    ensures Concat(Lines(file)) == file
  {
    if file != [] {
      LinesConcat(file[1..]);
      var lines, rest := Lines(file), Lines(file[1..]);
      assert file == [file[0]] + file[1..];
      if file[0] == '\n' || rest == [] {
        assert lines[0] == [file[0]] && lines[1..] == rest;
      } else {
        assert lines[0] == [file[0]] + rest[0] && lines[1..] == rest[1..];
        assert [file[0]] + (rest[0] + Concat(rest[1..])) == lines[0] + Concat(lines[1..]);
      }
    }
  }

  predicate IsLastLine(line: string) {
    IsFullLine(line) || (line != [] && '\n' !in line)
  }

  lemma LongerLine(c: char, line: string)
    requires c != '\n'
    ensures IsFullLine(line) ==> IsFullLine([c] + line)
    ensures IsLastLine(line) ==> IsLastLine([c] + line)
  {
    var longer := [c] + line;
    if line != [] {
      assert longer[..|longer| - 1] == [c] + line[..|line| - 1];
      assert longer[|longer| - 1] == line[|line| - 1];
    }
  }

  /** Iterating over a file cuts it behind every newline; only the last line may lack one. */
  lemma {:induction false} LinesExactly(file: string)
    ensures var lines := Lines(file);
      && Concat(lines) == file
      && (forall k :: 0 <= k < |lines| - 1 ==> IsFullLine(lines[k]))
      && (lines != [] ==> IsLastLine(lines[|lines| - 1]))
  {
    LinesConcat(file);
    if file != [] {
      LinesExactly(file[1..]);
      var lines, rest := Lines(file), Lines(file[1..]);
      if file[0] == '\n' || rest == [] {
        assert lines[0] == [file[0]] && forall k :: 1 <= k < |lines| ==> lines[k] == rest[k - 1];
      } else {
        LongerLine(file[0], rest[0]);
        assert lines[0] == [file[0]] + rest[0] && forall k :: 1 <= k < |lines| ==> lines[k] == rest[k];
      }
    }
  }

  // ---------------------------------------------------------------------
  // Command files
  // ---------------------------------------------------------------------

  /** An action, a blank and a number, then newlines and then blanks. */
  predicate Orders(text: string, c: Command, action: string, number: string, newlines: string, blanks: string) {
    && text == action + " " + number + newlines + blanks
    && Over(newlines, "\n") && Over(blanks, " ")
    && ' ' !in action && ' ' !in number && number != [] && number[|number| - 1] != '\n'
    && ToLower(action) == (if c.kind.UNLOCK? then "unlock" else "lock") && !c.kind.NONE?
    && ParseInt(number) == Some(c.resource)
  }

  lemma OrdersCreate(text: string, c: Command, action: string, number: string, newlines: string, blanks: string)
    requires Orders(text, c, action, number, newlines, blanks)
    ensures CreateCommand(text) == Some(c)
  {
    var core := action + " " + number;
    assert core[|core| - 1] == number[|number| - 1];
    assert (core + newlines)[|core + newlines| - 1] != ' ';
    RStripPadding(core + newlines, blanks, " ");
    RStripPadding(core, newlines, "\n");
    TwoParts(core, action, number);
    assert "lock" != "unlock";
  }

  /** create_command accepts exactly an action that is lock or unlock in any case, one
      blank and a number, with newlines and then blanks behind it. */
  lemma CreateCommandExactly(text: string, c: Command)
    ensures CreateCommand(text) == Some(c) <==>
      exists action, number, newlines, blanks :: Orders(text, c, action, number, newlines, blanks)
  {
    if action, number, newlines, blanks :| Orders(text, c, action, number, newlines, blanks) {
      OrdersCreate(text, c, action, number, newlines, blanks);
    }
    if CreateCommand(text) == Some(c) {
      var blanks := RStripCuts(text, " ");
      var mid := RStrip(text, " ");
      var newlines := RStripCuts(mid, "\n");
      var core := RStrip(mid, "\n");
      var items := Split(core, ' ');
      assert items == [items[0], items[1]];
      TwoParts(core, items[0], items[1]);
      EmptyIsNoNumber();
      assert core[|core| - 1] == items[1][|items[1]| - 1];
      assert Orders(text, c, items[0], items[1], newlines, blanks);
    }
  }

  lemma EmptyIsNoNumber()
    ensures ParseInt("") == None
  {
    assert Strip("", BLANKS) == "";
  }

  /** A command file loads if and only if each line is a command, and to those commands. */
  lemma {:induction false} LoadCommandsExactly(lines: seq<string>, cs: seq<Command>)
    ensures LoadCommands(lines) == Some(cs) <==>
      |cs| == |lines| && forall k :: 0 <= k < |lines| ==> CreateCommand(lines[k]) == Some(cs[k])
    decreases |lines|
  {
    if lines != [] {
      if cs != [] {
        LoadCommandsExactly(lines[1..], cs[1..]);
        assert cs == [cs[0]] + cs[1..];
        assert forall k :: 1 <= k < |lines| ==> lines[k] == lines[1..][k - 1];
        assert forall k :: 1 <= k < |cs| ==> cs[k] == cs[1..][k - 1];
        if LoadCommands(lines) == Some(cs) {
          assert LoadCommands(lines[1..]).value == cs[1..];
        }
      }
    }
  }
}

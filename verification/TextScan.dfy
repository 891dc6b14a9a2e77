/** The Go string helpers the textfile reader is written with, over ASCII text. */
module TextScan {
  import opened Basics
  import opened Decimal

  const MAX_INT64: int := 0x7FFF_FFFF_FFFF_FFFF
  const MAX_SCAN_LINE: nat := 65535

  predicate IsSpace(c: char) { c == ' ' || c == '\t' || c == '\n' || c == '\r' || c as int == 11 || c as int == 12 }

  predicate IsPrint(c: char) { ' ' <= c <= '~' }

  predicate Printable(s: string) { forall c :: c in s ==> IsPrint(c) }

  predicate NoSpace(s: string) { forall c :: c in s ==> !IsSpace(c) }

  predicate HasSuffix(s: string, t: string) { |t| <= |s| && s[|s| - |t|..] == t }

  // bufio.ScanLines

  function FirstNewline(s: string): (n: nat)
    ensures n <= |s|
  {
    if s == [] || s[0] == '\n' then 0 else 1 + FirstNewline(s[1..])
  }

  function DropCR(s: string): string {
    if s != [] && s[|s| - 1] == '\r' then s[..|s| - 1] else s
  }

  /** The text between newlines, carriage returns included. */
  function Lines(s: string): seq<string>
    decreases |s|
  {
    if s == [] then []
    else
      var n := FirstNewline(s);
      [s[..n]] + if n == |s| then [] else Lines(s[n + 1..])
  }

  /** The scanner gives up at the first line that does not fit its buffer, and drops a final carriage return. */
  function Scanned(lines: seq<string>): seq<string> {
    if lines == [] || |lines[0]| > MAX_SCAN_LINE then [] else [DropCR(lines[0])] + Scanned(lines[1..])
  }

  function Join(lines: seq<string>): string {
    if lines == [] then "" else lines[0] + "\n" + Join(lines[1..])
  }

  lemma {:induction false} JoinAppend(a: seq<string>, b: seq<string>)
    ensures Join(a + b) == Join(a) + Join(b)
  {
    if a == [] {
      assert a + b == b;
    } else {
      JoinAppend(a[1..], b);
      assert (a + b)[1..] == a[1..] + b;
      Spliced(a[0] + "\n", Join(a[1..]), Join(b));
    }
  }

  lemma Spliced(a: string, b: string, c: string)
    ensures a + (b + c) == (a + b) + c
  {
  }

  lemma {:induction false} FirstNewlineAfter(line: string, rest: string)
    requires Printable(line)
    ensures FirstNewline(line + "\n" + rest) == |line|
  {
    if line != [] {
      assert line[0] in line && line[0] != '\n';
      FirstNewlineAfter(line[1..], rest);
      assert (line + "\n" + rest)[1..] == line[1..] + "\n" + rest;
    }
  }

  lemma FirstLine(line: string, rest: string)
    requires Printable(line)
    ensures Lines(line + "\n" + rest) == [line] + Lines(rest)
  {
    var s := line + "\n" + rest;
    FirstNewlineAfter(line, rest);
    assert s[..|line|] == line && s[|line| + 1..] == rest;
  }

  lemma NoReturn(line: string)
    requires Printable(line)
    ensures DropCR(line) == line
  {
    if line != [] { assert line[|line| - 1] in line; }
  }

  lemma {:induction false} LinesOfJoin(lines: seq<string>)
    requires forall i :: 0 <= i < |lines| ==> Printable(lines[i])
    ensures Lines(Join(lines)) == lines
  {
    if lines != [] {
      FirstLine(lines[0], Join(lines[1..]));
      LinesOfJoin(lines[1..]);
    }
  }

  lemma {:induction false} ScannedAll(lines: seq<string>)
    requires forall i :: 0 <= i < |lines| ==> |lines[i]| <= MAX_SCAN_LINE && Printable(lines[i])
    ensures Scanned(lines) == lines
  {
    if lines != [] {
      NoReturn(lines[0]);
      ScannedAll(lines[1..]);
    }
  }

  // strings.TrimSpace and strings.Fields

  function TrimLeft(s: string): string {
    if s != [] && IsSpace(s[0]) then TrimLeft(s[1..]) else s
  }

  function TrimRight(s: string): string {
    if s != [] && IsSpace(s[|s| - 1]) then TrimRight(s[..|s| - 1]) else s
  }

  function TrimSpace(s: string): string { TrimRight(TrimLeft(s)) }

  function TokenLength(s: string): (n: nat)
    ensures n <= |s|
    ensures s != [] && !IsSpace(s[0]) ==> n > 0
  {
    if s == [] || IsSpace(s[0]) then 0 else 1 + TokenLength(s[1..])
  }

  function Fields(s: string): seq<string>
    decreases |s|
  {
    if s == [] then []
    else if IsSpace(s[0]) then Fields(s[1..])
    else [s[..TokenLength(s)]] + Fields(s[TokenLength(s)..])
  }

  lemma {:induction false} TokenAll(s: string)
    requires NoSpace(s)
    ensures TokenLength(s) == |s|
  {
    if s != [] {
      assert s[0] in s;
      TokenAll(s[1..]);
    }
  }

  lemma {:induction false} TokenBefore(s: string, rest: string)
    requires NoSpace(s)
    ensures TokenLength(s + " " + rest) == |s|
  {
    if s != [] {
      assert s[0] in s;
      TokenBefore(s[1..], rest);
      assert (s + " " + rest)[1..] == s[1..] + " " + rest;
    }
  }

  lemma OneField(s: string)
    requires s != [] && NoSpace(s)
    ensures Fields(s) == [s]
  {
    TokenAll(s);
    assert s[0] in s;
    assert s[|s|..] == [] && s[..|s|] == s;
  }

  lemma FirstField(s: string, rest: string)
    requires s != [] && !IsSpace(s[0]) && rest == s[TokenLength(s)..]
    ensures Fields(s) == [s[..TokenLength(s)]] + Fields(rest)
  {
  }

  lemma SpaceThenWord(word: string)
    requires word != [] && NoSpace(word)
    ensures Fields(" " + word) == [word]
  {
    OneField(word);
    assert (" " + word)[1..] == word;
  }

  /** Behind the first token, the text with one more word is what is left of it with one more word. */
  lemma RestAfterToken(s: string, word: string)
    requires s != [] && !IsSpace(s[0])
    ensures var all, n := s + " " + word, TokenLength(s);
            TokenLength(all) == n && all[..n] == s[..n] && all[n..] == s[n..] + " " + word
  {
    TokenStops(s, word);
    SplitBehind(s, " ", word, s + " " + word, TokenLength(s));
  }

  lemma SplitBehind(s: string, t: string, u: string, all: string, n: nat)
    requires n <= |s| && all == s + t + u
    ensures all[..n] == s[..n] && all[n..] == s[n..] + t + u
  {
  }

  /** A last word without spaces is one more field. */
  lemma {:induction false} LastField(s: string, word: string)
    requires word != [] && NoSpace(word)
    ensures Fields(s + " " + word) == Fields(s) + [word]
    decreases |s|
  {
    var all := s + " " + word;
    if s == [] {
      SpaceThenWord(word);
      assert all == " " + word;
    } else if IsSpace(s[0]) {
      LastField(s[1..], word);
      assert all[1..] == s[1..] + " " + word;
    } else {
      RestAfterToken(s, word);
      var n := TokenLength(s);
      FirstField(s, s[n..]);
      FirstField(all, s[n..] + " " + word);
      LastField(s[n..], word);
    }
  }

  lemma {:induction false} TokenStops(s: string, word: string)
    ensures TokenLength(s + " " + word) == TokenLength(s)
  {
    if s != [] && !IsSpace(s[0]) {
      TokenStops(s[1..], word);
      assert (s + " " + word)[1..] == s[1..] + " " + word;
    }
  }

  lemma {:induction false} SomeField(s: string)
    requires s != [] && !IsSpace(s[|s| - 1])
    ensures |Fields(s)| >= 1
    decreases |s|
  {
    if IsSpace(s[0]) { SomeField(s[1..]); }
  }

  /** Text that starts and ends with a non-space and has a space inside is at least two fields. */
  lemma SeveralFields(s: string)
    requires s != [] && !IsSpace(s[0]) && !IsSpace(s[|s| - 1]) && !NoSpace(s)
    ensures |Fields(s)| >= 2
  {
    ShortToken(s);
    SomeField(s[TokenLength(s)..]);
  }

  lemma ShortToken(s: string)
    requires !NoSpace(s)
    ensures TokenLength(s) < |s|
  {
    TokenIsSpaceFree(s);
    assert s[..|s|] == s;
  }

  lemma {:induction false} TokenIsSpaceFree(s: string)
    ensures NoSpace(s[..TokenLength(s)])
  {
    if s != [] && !IsSpace(s[0]) {
      TokenIsSpaceFree(s[1..]);
      assert s[..TokenLength(s)] == [s[0]] + s[1..][..TokenLength(s[1..])];
    }
  }

  // fmt %d and strconv.ParseInt

  function Int(v: int): (s: string)
    ensures s != []
  {
    if v < 0 then "-" + Digits(-v) else Digits(v)
  }

  function ParseInt(s: string): Option<int> {
    var digits := if s != [] && (s[0] == '-' || s[0] == '+') then s[1..] else s;
    if digits == [] || !AllDigits(digits) then None
    else
      var v: int := if s[0] == '-' then 0 - Value(digits) else Value(digits);
      if -MAX_INT64 - 1 <= v <= MAX_INT64 then Some(v) else None
  }

  lemma DigitsText(n: nat)
    ensures NoSpace(Digits(n)) && Printable(Digits(n)) && IsDigit(Digits(n)[0])
  {
    var s := Digits(n);
    forall c | c in s ensures IsDigit(c) {
      var i :| 0 <= i < |s| && s[i] == c;
    }
  }

  lemma IntText(v: int)
    ensures NoSpace(Int(v)) && Printable(Int(v)) && !IsSpace(Int(v)[|Int(v)| - 1])
  {
    DigitsText(if v < 0 then -v else v);
    assert Int(v)[|Int(v)| - 1] in Int(v);
  }

  lemma ParseOfInt(v: int)
    requires -MAX_INT64 - 1 <= v <= MAX_INT64
    ensures ParseInt(Int(v)) == Some(v)
  {
    var n := if v < 0 then -v else v;
    DigitsText(n);
    ValueOfDigits(n);
    assert v < 0 ==> Int(v)[1..] == Digits(n);
  }
}

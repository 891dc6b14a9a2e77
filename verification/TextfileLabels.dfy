/** Quoting a label loses nothing: the quoted text can be read back. */
module TextfileLabels {
  import opened Textfile

  function HexValue(c: char): int { if '0' <= c <= '9' then c as int - '0' as int else c as int - 'a' as int + 10 }

  /** The character a backslash and a letter stand for. */
  function Named(c: char): char {
    match c
    case 'n' => '\n'
    case 't' => '\t'
    case 'r' => '\r'
    case 'a' => 7 as char
    case 'b' => 8 as char
    case 'v' => 11 as char
    case 'f' => 12 as char
    case _ => c
  }

  function HexChar(high: char, low: char): char {
    var n := 16 * HexValue(high) + HexValue(low);
    if 0 <= n < 256 then n as char else '?'
  }

  function Unescaped(s: string): string
    decreases |s|
  {
    if s == [] then []
    else if s[0] != '\\' || |s| < 2 then [s[0]] + Unescaped(s[1..])
    else if s[1] == 'x' && |s| >= 4 then [HexChar(s[2], s[3])] + Unescaped(s[4..])
    else [Named(s[1])] + Unescaped(s[2..])
  }

  predicate Ascii(s: string) { forall i :: 0 <= i < |s| ==> s[i] as int < 128 }

  lemma HexDigitValue(d: nat)
    requires d < 16
    ensures HexValue(HexDigit(d)) == d
  {
  }

  lemma HexBack(c: char)
    requires c as int < 128
    ensures HexChar(HexDigit(c as int / 16 % 16), HexDigit(c as int % 16)) == c
  {
    HexDigitValue(c as int / 16 % 16);
    HexDigitValue(c as int % 16);
  }

  /** One quoted character is read back, whatever follows. */
  lemma OneBack(c: char, rest: string)
    requires c as int < 128
    ensures Unescaped(Escape(c) + rest) == [c] + Unescaped(rest)
  {
    var s := Escape(c) + rest;
    if |Escape(c)| == 1 {
      assert s[1..] == rest;
    } else if |Escape(c)| == 2 {
      assert s[2..] == rest;
    } else {
      HexBack(c);
      assert s[4..] == rest;
    }
  }

  /** Every ASCII label is recovered from its quoted form. */
  lemma {:induction false} LabelReadsBack(tag: string)
    requires Ascii(tag)
    ensures Unescaped(Escaped(tag)) == tag
  {
    if tag != [] {
      LabelReadsBack(tag[1..]);
      OneBack(tag[0], Escaped(tag[1..]));
    }
  }

  /** So two labels never print alike. */
  lemma LabelsApart(a: string, b: string)
    requires Ascii(a) && Ascii(b) && Escaped(a) == Escaped(b)
    ensures a == b
  {
    LabelReadsBack(a);
    LabelReadsBack(b);
  }
}

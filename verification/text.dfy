/** The text layer of the command stream: the line cleanup the readers apply,
    strtok tokenising, the C number parsers atoi and strtoul (base 0, 32-bit
    unsigned long), and the decimal rendering Python's str and printf's %d
    produce. */
module Text {
  import opened LittleEndian

  type String = seq<char>

  /** The delimiters every reader hands to strtok: "[,]". */
  const TokenDelimiters: set<char> := {'[', ',', ']'}

  /** The characters C's isspace accepts: space, \t, \n, \v, \f and \r. */
  const Whitespace: set<char> := {' ', '\t', '\n', '\U{000B}', '\U{000C}', '\r'}

  /** A line ends at the first line feed or carriage return; a C string also
      ends at its first NUL. */
  predicate IsLineEnd(c: char)
  {
    c == '\0' || c == '\n' || c == '\r'
  }

  /** The line a reader works on after cutting at '\n' and then at '\r'. */
  function Normalize(line: String): String
  {
    if |line| == 0 || IsLineEnd(line[0]) then [] else [line[0]] + Normalize(line[1..])
  }

  /** The line a reader works on is the longest prefix holding no line end. */
  lemma {:induction false} NormalizeCutsAtLineEnd(line: String)
    ensures Normalize(line) <= line
    ensures forall i :: 0 <= i < |Normalize(line)| ==> !IsLineEnd(Normalize(line)[i])
    ensures |Normalize(line)| < |line| ==> IsLineEnd(line[|Normalize(line)|])
  {
    if |line| > 0 && !IsLineEnd(line[0]) {
      NormalizeCutsAtLineEnd(line[1..]);
      var r := Normalize(line[1..]);
      assert Normalize(line) == [line[0]] + r;
    }
  }

  /** A line without line-end characters is its own content. */
  lemma NormalizeClean(line: String)
    requires forall i :: 0 <= i < |line| ==> !IsLineEnd(line[i])
    ensures Normalize(line) == line
  {
    NormalizeCutsAtLineEnd(line);
  }

  /** A line ended by a line-end character: the content is what comes before it. */
  lemma NormalizeTerminated(line: String, c: char, rest: String)
    requires forall i :: 0 <= i < |line| ==> !IsLineEnd(line[i])
    requires IsLineEnd(c)
    ensures Normalize(line + [c] + rest) == line
  {
    var s := line + [c] + rest;
    NormalizeCutsAtLineEnd(s);
    assert s[|line|] == c;
  }

  /** Length of the leading run of non-delimiter characters. */
  function RunLength(s: String, delims: set<char>): (n: nat)
    ensures n <= |s|
    ensures forall i :: 0 <= i < n ==> s[i] !in delims
    ensures n < |s| ==> s[n] in delims
  {
    if |s| == 0 || s[0] in delims then 0 else 1 + RunLength(s[1..], delims)
  }

  /** The tokens successive strtok calls return: the maximal non-empty runs of
      non-delimiter characters, in order. */
  function Split(s: String, delims: set<char>): (ts: seq<String>)
    ensures forall i :: 0 <= i < |ts| ==> |ts[i]| > 0
    ensures forall i, j :: 0 <= i < |ts| && 0 <= j < |ts[i]| ==> ts[i][j] !in delims
    decreases |s|
  {
    if |s| == 0 then []
    else if s[0] in delims then Split(s[1..], delims)
    else
      var n := RunLength(s, delims);
      [s[..n]] + Split(s[n..], delims)
  }

  /** The tokens of a command line. */
  function Tokens(line: String): seq<String>
  {
    Split(line, TokenDelimiters)
  }

  /** Parts joined with commas, as Python's str of a list prints them once the
      spaces are removed, and as "%d,%d,...,%d" prints them. */
  function JoinComma(parts: seq<String>): (s: String)
    ensures |parts| == 0 ==> s == []
  {
    if |parts| == 0 then []
    else if |parts| == 1 then parts[0]
    else parts[0] + [','] + JoinComma(parts[1..])
  }

  /** The bracketed list text "[a,b,...]". */
  function ListText(parts: seq<String>): String
  {
    ['['] + JoinComma(parts) + [']']
  }

  /** A string holding no line-end character. */
  predicate Clean(s: String)
  {
    forall i :: 0 <= i < |s| ==> !IsLineEnd(s[i])
  }

  /** Joining clean parts with commas gives a clean string. */
  lemma {:induction false} JoinCommaClean(parts: seq<String>)
    requires forall i :: 0 <= i < |parts| ==> Clean(parts[i])
    ensures Clean(JoinComma(parts))
    decreases |parts|
  {
    if |parts| > 1 {
      var head, tail := parts[0], JoinComma(parts[1..]);
      JoinCommaClean(parts[1..]);
      var s := head + [','] + tail;
      forall i | 0 <= i < |s|
        ensures !IsLineEnd(s[i])
      {
        if i < |head| {
          assert s[i] == head[i];
        } else if i > |head| {
          assert s[i] == tail[i - |head| - 1];
        }
      }
    }
  }

  /** The list text of clean parts is clean. */
  lemma ListTextClean(parts: seq<String>)
    requires forall i :: 0 <= i < |parts| ==> Clean(parts[i])
    ensures Clean(ListText(parts))
  {
    var body := JoinComma(parts);
    JoinCommaClean(parts);
    var s := ListText(parts);
    forall i | 0 <= i < |s|
      ensures !IsLineEnd(s[i])
    {
      if 0 < i <= |body| {
        assert s[i] == body[i - 1];
      }
    }
  }

  /** A token: non-empty and free of delimiters. */
  predicate IsToken(p: String, delims: set<char>)
  {
    |p| > 0 && forall j :: 0 <= j < |p| ==> p[j] !in delims
  }

  /** The run of a token followed by a delimiter (or nothing) is the token. */
  lemma {:induction false} RunOfToken(p: String, rest: String, delims: set<char>)
    requires IsToken(p, delims)
    requires |rest| == 0 || rest[0] in delims
    ensures RunLength(p + rest, delims) == |p|
    decreases |p|
  {
    var s := p + rest;
    assert s[0] == p[0];
    if |p| > 1 {
      assert s[1..] == p[1..] + rest;
      RunOfToken(p[1..], rest, delims);
    } else {
      assert s[1..] == rest;
    }
  }

  /** Splitting a string of delimiters only yields nothing. */
  lemma {:induction false} SplitOfDelimiters(s: String, delims: set<char>)
    requires forall j :: 0 <= j < |s| ==> s[j] in delims
    ensures Split(s, delims) == []
    decreases |s|
  {
    if |s| > 0 {
      SplitOfDelimiters(s[1..], delims);
    }
  }

  /** A token followed by a delimiter (or nothing) is the first token. */
  lemma SplitToken(p: String, rest: String, delims: set<char>)
    requires IsToken(p, delims)
    requires |rest| == 0 || rest[0] in delims
    ensures Split(p + rest, delims) == [p] + Split(rest, delims)
  {
    var s := p + rest;
    RunOfToken(p, rest, delims);
    assert s[0] == p[0];
    assert s[..|p|] == p && s[|p|..] == rest;
  }

  /** Tokens joined by commas and followed by delimiters split back into the tokens. */
  lemma {:induction false} SplitJoin(parts: seq<String>, tail: String, delims: set<char>)
    requires ',' in delims
    requires forall i :: 0 <= i < |parts| ==> IsToken(parts[i], delims)
    requires forall j :: 0 <= j < |tail| ==> tail[j] in delims
    ensures Split(JoinComma(parts) + tail, delims) == parts
    decreases |parts|
  {
    if |parts| == 0 {
      assert JoinComma(parts) + tail == tail;
      SplitOfDelimiters(tail, delims);
    } else if |parts| == 1 {
      SplitToken(parts[0], tail, delims);
      SplitOfDelimiters(tail, delims);
    } else {
      var more := JoinComma(parts[1..]) + tail;
      assert JoinComma(parts) + tail == parts[0] + ([','] + more);
      SplitToken(parts[0], [','] + more, delims);
      assert ([','] + more)[1..] == more;
      SplitJoin(parts[1..], tail, delims);
    }
  }

  /** The tokens of a bracketed list text are its parts. */
  lemma TokensOfListText(parts: seq<String>)
    requires forall i :: 0 <= i < |parts| ==> IsToken(parts[i], TokenDelimiters)
    ensures Tokens(ListText(parts)) == parts
  {
    var s := ListText(parts);
    assert s[1..] == JoinComma(parts) + [']'];
    SplitJoin(parts, [']'], TokenDelimiters);
  }

  // ---------------------------------------------------------------- numbers

  /** The value of a digit character in bases up to 16; 16 for anything else. */
  function DigitValue(c: char): (d: nat)
    ensures d <= 16
  {
    if '0' <= c <= '9' then c as int - '0' as int
    else if 'a' <= c <= 'f' then c as int - 'a' as int + 10
    else if 'A' <= c <= 'F' then c as int - 'A' as int + 10
    else 16
  }

  /** Length of the leading run of digits of the given base. */
  function DigitRun(s: String, base: nat): (n: nat)
    ensures n <= |s|
    ensures forall i :: 0 <= i < n ==> DigitValue(s[i]) < base
    ensures n < |s| ==> DigitValue(s[n]) >= base
  {
    if |s| == 0 || DigitValue(s[0]) >= base then 0 else 1 + DigitRun(s[1..], base)
  }

  /** The value of a digit string, most significant digit first. */
  function DigitsValue(ds: String, base: nat): nat
  {
    if |ds| == 0 then 0 else DigitsValue(ds[..|ds| - 1], base) * base + DigitValue(ds[|ds| - 1])
  }

  /** The input with its leading isspace characters dropped. */
  function SkipSpace(s: String): (r: String)
    ensures |r| <= |s| && r == s[|s| - |r|..]
    ensures |r| > 0 ==> r[0] !in Whitespace
    ensures forall i :: 0 <= i < |s| - |r| ==> s[i] in Whitespace
  {
    if |s| > 0 && s[0] in Whitespace then SkipSpace(s[1..]) else s
  }

  const LongMin: int := -0x8000_0000
  const LongMax: int := 0x7FFF_FFFF
  const ULongMax: int := 0xFFFF_FFFF

  /** atoi, which the C library defines as strtol(s, NULL, 10) on a 32-bit long:
      spaces, an optional sign, decimal digits; the value saturates at the
      bounds of long. */
  function Atoi(s: String): (r: int)
    ensures LongMin <= r <= LongMax
  {
    var t := SkipSpace(s);
    Long32(IsNegative(t), DigitsValue(LeadingDigits(Unsigned(t), 10), 10))
  }

  /** Whether the number text starts with a minus sign. */
  predicate IsNegative(t: String)
  {
    |t| > 0 && t[0] == '-'
  }

  /** The number text after an optional sign. */
  function Unsigned(t: String): (u: String)
    ensures |t| > 0 && (t[0] == '-' || t[0] == '+') ==> u == t[1..]
    ensures |t| == 0 || (t[0] != '-' && t[0] != '+') ==> u == t
  {
    if |t| > 0 && (t[0] == '-' || t[0] == '+') then t[1..] else t
  }

  /** The leading digits of the given base. */
  function LeadingDigits(s: String, base: nat): (ds: String)
    ensures ds <= s
  {
    s[..DigitRun(s, base)]
  }

  /** The long strtol returns for a magnitude and sign: the signed value, clamped to the range of long. */
  function Long32(neg: bool, v: nat): (r: int)
    ensures LongMin <= r <= LongMax
    ensures neg && v <= -LongMin ==> r == -(v as int)
    ensures !neg && v <= LongMax ==> r == v
    ensures neg && v > -LongMin ==> r == LongMin
    ensures !neg && v > LongMax ==> r == LongMax
  {
    if neg then (if v > -LongMin then LongMin else -(v as int))
    else (if v > LongMax then LongMax else v)
  }

  /** The magnitude strtoul reads with base 0 once spaces and sign are gone:
      hexadecimal after "0x" or "0X", octal after a leading "0", decimal otherwise. */
  function UnsignedValue(u: String): nat
  {
    if |u| >= 2 && u[0] == '0' && (u[1] == 'x' || u[1] == 'X') then DigitsValue(LeadingDigits(u[2..], 16), 16)
    else if |u| >= 1 && u[0] == '0' then DigitsValue(LeadingDigits(u, 8), 8)
    else DigitsValue(LeadingDigits(u, 10), 10)
  }

  /** strtoul(s, NULL, 0) on a 32-bit unsigned long: spaces, an optional sign,
      then hexadecimal after "0x" or "0X", octal after a leading "0", decimal
      otherwise. A value past the range saturates at ULONG_MAX; a negative sign
      negates modulo 2^32. */
  function Strtoul(s: String): (r: uint32)
  {
    var t := SkipSpace(s);
    Magnitude32(IsNegative(t), UnsignedValue(Unsigned(t)))
  }

  /** The unsigned long strtoul returns for a magnitude and sign. */
  function Magnitude32(neg: bool, v: nat): (r: uint32)
    ensures v > ULongMax ==> r == ULongMax
    ensures v <= ULongMax && !neg ==> r == v
    ensures v <= ULongMax && neg ==> r + v == 0 || r + v == 0x1_0000_0000
  {
    if v > ULongMax then ULongMax
    else if neg then (if v == 0 then 0 else 0x1_0000_0000 - v)
    else v
  }

  function DigitChar(d: nat): (c: char)
    requires d < 10
    ensures DigitValue(c) == d
  {
    ('0' as int + d) as char
  }

  /** The decimal digits of a natural number, without leading zeros. */
  function NatText(n: nat): (s: String)
    ensures |s| > 0
    ensures forall i :: 0 <= i < |s| ==> DigitValue(s[i]) < 10
    ensures DigitsValue(s, 10) == n
    ensures s[0] == '0' ==> n == 0
  {
    if n < 10 then [DigitChar(n)]
    else
      var s := NatText(n / 10) + [DigitChar(n % 10)];
      assert s[..|s| - 1] == NatText(n / 10);
      s
  }

  /** The decimal text of an integer, as Python's str and printf's %d print it. */
  function Dec(n: int): (s: String)
    ensures |s| > 0
    ensures n >= 0 ==> s == NatText(n)
    ensures n < 0 ==> s == ['-'] + NatText(-n)
  {
    if n < 0 then ['-'] + NatText(-n) else NatText(n)
  }

  /** Decimal text is a command-line token: it holds no delimiter. */
  lemma DecIsToken(n: int)
    ensures IsToken(Dec(n), TokenDelimiters)
  {
    var s := Dec(n);
    forall j | 0 <= j < |s|
      ensures s[j] !in TokenDelimiters
    {
      if n < 0 && j > 0 {
        assert s[j] == NatText(-n)[j - 1];
      }
    }
  }

  /** Decimal text holds no line end either. */
  lemma DecIsClean(n: int)
    ensures Clean(Dec(n))
  {
    var s := Dec(n);
    forall j | 0 <= j < |s|
      ensures !IsLineEnd(s[j])
    {
      if n < 0 && j > 0 {
        assert s[j] == NatText(-n)[j - 1];
      }
    }
  }

  /** The decimal texts of a list of numbers. */
  function DecList(vs: seq<int>): (ps: seq<String>)
    ensures |ps| == |vs|
  {
    seq(|vs|, i requires 0 <= i < |vs| => Dec(vs[i]))
  }

  /** A printed list of numbers, read back as a line: the reader sees the list text, whose
      tokens are the numbers' decimal texts, and which is not the closing "]". */
  lemma DecListLine(vs: seq<int>)
    ensures Normalize(ListText(DecList(vs)) + "\n") == ListText(DecList(vs))
    ensures Tokens(ListText(DecList(vs))) == DecList(vs)
    ensures |ListText(DecList(vs))| >= 2
  {
    var parts := DecList(vs);
    forall i | 0 <= i < |parts|
      ensures IsToken(parts[i], TokenDelimiters) && Clean(parts[i])
    {
      DecIsToken(vs[i]);
      DecIsClean(vs[i]);
    }
    TokensOfListText(parts);
    ListTextClean(parts);
    var l := ListText(parts);
    NormalizeTerminated(l, '\n', []);
    assert l + ['\n'] + [] == l + "\n";
  }

  /** A string of digits is its own leading digit run. */
  lemma DigitRunOfDigits(s: String, base: nat)
    requires forall i :: 0 <= i < |s| ==> DigitValue(s[i]) < base
    ensures LeadingDigits(s, base) == s
  {
  }

  /** A digit is neither a space nor a sign. */
  lemma DigitIsNotSpace(c: char)
    requires DigitValue(c) < 16
    ensures c !in Whitespace && c != '-' && c != '+'
  {
  }

  /** Text that starts with a digit or a minus sign has no leading space. */
  lemma NoLeadingSpace(s: String)
    requires |s| > 0 && s[0] !in Whitespace
    ensures SkipSpace(s) == s
  {
  }

  /** atoi of a string of decimal digits. */
  lemma AtoiOfDigits(ds: String)
    requires |ds| > 0 && forall i :: 0 <= i < |ds| ==> DigitValue(ds[i]) < 10
    ensures Atoi(ds) == Long32(false, DigitsValue(ds, 10))
  {
    DigitRunOfDigits(ds, 10);
    DigitIsNotSpace(ds[0]);
    NoLeadingSpace(ds);
    assert Unsigned(ds) == ds;
  }

  /** atoi of a minus sign followed by decimal digits. */
  lemma AtoiOfNegativeDigits(ds: String)
    requires |ds| > 0 && forall i :: 0 <= i < |ds| ==> DigitValue(ds[i]) < 10
    ensures Atoi(['-'] + ds) == Long32(true, DigitsValue(ds, 10))
  {
    DigitRunOfDigits(ds, 10);
    var s := ['-'] + ds;
    NoLeadingSpace(s);
    assert Unsigned(s) == ds;
  }

  /** atoi reads back the decimal text of any value of long. */
  lemma AtoiOfDec(n: int)
    requires LongMin <= n <= LongMax
    ensures Atoi(Dec(n)) == n
  {
    if n < 0 {
      AtoiOfNegativeDigits(NatText(-n));
    } else {
      AtoiOfDigits(NatText(n));
    }
  }

  /** Dropping the leading spaces of text made of a run of spaces followed by text that
      does not start with one leaves that text. */
  lemma {:induction false} SkipSpacePrefix(ws: String, t: String)
    requires forall i :: 0 <= i < |ws| ==> ws[i] in Whitespace
    requires |t| == 0 || t[0] !in Whitespace
    ensures SkipSpace(ws + t) == t
    decreases |ws|
  {
    if |ws| == 0 {
      assert ws + t == t;
    } else {
      assert (ws + t)[0] == ws[0] && (ws + t)[1..] == ws[1..] + t;
      SkipSpacePrefix(ws[1..], t);
    }
  }

  /** The leading digits of a digit run followed by text that does not start with a digit
      are that run. */
  lemma LeadingDigitsStop(ds: String, rest: String, base: nat)
    requires forall i :: 0 <= i < |ds| ==> DigitValue(ds[i]) < base
    requires |rest| == 0 || DigitValue(rest[0]) >= base
    ensures LeadingDigits(ds + rest, base) == ds
  {
    assert (ds + rest)[..|ds|] == ds;
  }

  /** atoi after leading spaces reads the text that follows them. */
  lemma AtoiAfterSpaces(ws: String, t: String)
    requires forall i :: 0 <= i < |ws| ==> ws[i] in Whitespace
    requires |t| == 0 || t[0] !in Whitespace
    ensures Atoi(ws + t) == Long32(IsNegative(t), DigitsValue(LeadingDigits(Unsigned(t), 10), 10))
  {
    SkipSpacePrefix(ws, t);
  }

  lemma Regroup(a: String, b: String, c: String, d: String)
    ensures a + b + c + d == a + (b + (c + d))
  {
  }

  /** An optional sign, digits and text that does not start with a digit: the text does
      not start with a space, is negative exactly after a minus sign, and its leading digits
      after the sign are those digits. */
  lemma SignedDigits(sign: String, ds: String, rest: String)
    requires sign == "" || sign == "-" || sign == "+"
    requires |ds| > 0 && forall i :: 0 <= i < |ds| ==> DigitValue(ds[i]) < 10
    requires |rest| == 0 || DigitValue(rest[0]) >= 10
    ensures var t := sign + (ds + rest);
      && t[0] !in Whitespace && IsNegative(t) == (sign == "-")
      && LeadingDigits(Unsigned(t), 10) == ds
  {
    var u := ds + rest;
    var t := sign + u;
    DigitIsNotSpace(ds[0]);
    assert u[0] == ds[0];
    if sign == "" {
      assert t == u;
    } else {
      assert t[0] == sign[0] && t[1..] == u;
    }
    LeadingDigitsStop(ds, rest, 10);
  }

  /** atoi of spaces, an optional sign, decimal digits and any text that does not start
      with a digit: the digits' value, negated after a minus sign, clamped to long. */
  lemma AtoiOfText(ws: String, sign: String, ds: String, rest: String)
    requires forall i :: 0 <= i < |ws| ==> ws[i] in Whitespace
    requires sign == "" || sign == "-" || sign == "+"
    requires |ds| > 0 && forall i :: 0 <= i < |ds| ==> DigitValue(ds[i]) < 10
    requires |rest| == 0 || DigitValue(rest[0]) >= 10
    ensures Atoi(ws + sign + ds + rest) == Long32(sign == "-", DigitsValue(ds, 10))
  {
    Regroup(ws, sign, ds, rest);
    SignedDigits(sign, ds, rest);
    AtoiAfterSpaces(ws, sign + (ds + rest));
  }

  /** An optional sign followed by text that starts with neither a digit nor a space, nor
      with a sign when there is no first: the text does not start with a space, and no
      digits follow the sign. */
  lemma SignedNoDigits(sign: String, rest: String)
    requires sign == "" || sign == "-" || sign == "+"
    requires |rest| == 0 || (DigitValue(rest[0]) >= 10 && rest[0] !in Whitespace)
    requires sign == "" && |rest| > 0 ==> rest[0] != '-' && rest[0] != '+'
    ensures var t := sign + rest;
      && (|t| == 0 || t[0] !in Whitespace) && LeadingDigits(Unsigned(t), 10) == []
  {
    var t := sign + rest;
    if sign == "" {
      assert t == rest;
    } else {
      assert t[0] == sign[0] && t[1..] == rest;
    }
    LeadingDigitsStop([], rest, 10);
    assert [] + rest == rest;
  }

  /** atoi of spaces and an optional sign not followed by a digit: zero, as strtol returns
      when no digits are read. */
  lemma AtoiWithoutDigits(ws: String, sign: String, rest: String)
    requires forall i :: 0 <= i < |ws| ==> ws[i] in Whitespace
    requires sign == "" || sign == "-" || sign == "+"
    requires |rest| == 0 || (DigitValue(rest[0]) >= 10 && rest[0] !in Whitespace)
    requires sign == "" && |rest| > 0 ==> rest[0] != '-' && rest[0] != '+'
    ensures Atoi(ws + sign + rest) == 0
  {
    assert ws + sign + rest == ws + (sign + rest);
    SignedNoDigits(sign, rest);
    AtoiAfterSpaces(ws, sign + rest);
  }

  /** The decimal text of a natural number reads back as that number under
      strtoul's base detection ("0" is read as octal, with the same value). */
  lemma UnsignedValueOfNatText(m: nat)
    ensures UnsignedValue(NatText(m)) == m
  {
    var u := NatText(m);
    if m == 0 {
      assert u == ['0'];
      assert DigitRun(u, 8) == 1;
      assert LeadingDigits(u, 8) == u;
      assert DigitsValue(u, 8) == DigitsValue(u[..0], 8) * 8 + DigitValue(u[0]);
    } else {
      DigitRunOfDigits(u, 10);
    }
  }

  /** strtoul reads the decimal text of an integer as that integer modulo 2^32
      (a negative value wraps to 2^32 + n), and saturates when its magnitude does not fit in 32 bits. */
  lemma StrtoulOfDec(n: int)
    ensures 0 <= n < 0x1_0000_0000 ==> Strtoul(Dec(n)) == n
    ensures -0x1_0000_0000 < n < 0 ==> Strtoul(Dec(n)) == 0x1_0000_0000 + n
    ensures (n <= -0x1_0000_0000 || 0x1_0000_0000 <= n) ==> Strtoul(Dec(n)) == ULongMax
  {
    var s := Dec(n);
    var m := if n < 0 then -n else n;
    UnsignedValueOfNatText(m);
    DigitIsNotSpace(NatText(m)[0]);
    NoLeadingSpace(s);
    assert Unsigned(s) == NatText(m);
  }

  /** The decimal text of a natural number below 2^32 reads back through strtoul. */
  lemma StrtoulOfNat(n: nat)
    requires n < 0x1_0000_0000
    ensures Strtoul(Dec(n)) == n
  {
    StrtoulOfDec(n);
  }
}

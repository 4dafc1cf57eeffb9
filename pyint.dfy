/** Python's `int(text)` on the text of a spinbox: surrounding whitespace
    is ignored, one optional sign is allowed, and the digits may be grouped
    by single underscores (`"1_000"`). Anything else raises `ValueError`,
    which is `None` here. */
module PyInt {
  import opened Options

  /** The characters `int` strips from both ends: the six ASCII blanks
      (space, tab, line feed, vertical tab, form feed, carriage return) and
      the non-ASCII characters Unicode counts as whitespace, which `int`
      first turns into spaces. Control characters U+001C..U+001F are left as
      they are, so they make the text invalid. */
  predicate IsSpace(c: char)
  {
    || '\t' <= c <= '\r'
    || c == ' ' || c == '\U{85}' || c == '\U{A0}' || c == '\U{1680}'
    || '\U{2000}' <= c <= '\U{200A}'
    || c == '\U{2028}' || c == '\U{2029}' || c == '\U{202F}' || c == '\U{205F}' || c == '\U{3000}'
  }

  predicate IsDigit(c: char)
  {
    '0' <= c <= '9'
  }

  function DigitValue(c: char): (d: nat)
    requires IsDigit(c)
  {
    c as int - '0' as int
  }

  function DigitChar(d: nat): (c: char)
    requires d < 10
    ensures IsDigit(c) && DigitValue(c) == d
  {
    ('0' as int + d) as char
  }

  /** `s` without its leading whitespace. */
  function TrimStart(s: string): (r: string)
    ensures |r| <= |s|
  {
    if |s| > 0 && IsSpace(s[0]) then TrimStart(s[1..]) else s
  }

  /** `s` without its trailing whitespace. */
  function TrimEnd(s: string): (r: string)
    ensures |r| <= |s|
  {
    if |s| > 0 && IsSpace(s[|s| - 1]) then TrimEnd(s[..|s| - 1]) else s
  }

  /** `s.strip()`. */
  function Strip(s: string): (r: string)
    ensures |r| <= |s|
  {
    TrimEnd(TrimStart(s))
  }

  /** `TrimStart` drops a run of whitespace from the front and stops at the
      first other character. */
  lemma {:induction false} TrimStartShape(s: string)
    ensures var r := TrimStart(s);
            && r == s[|s| - |r|..]
            && (forall i :: 0 <= i < |s| - |r| ==> IsSpace(s[i]))
            && (|r| > 0 ==> !IsSpace(r[0]))
  {
    if |s| > 0 && IsSpace(s[0]) {
      TrimStartShape(s[1..]);
      var r := TrimStart(s);
      forall i | 0 <= i < |s| - |r| ensures IsSpace(s[i]) {
        if i > 0 {
          assert s[i] == s[1..][i - 1];
        }
      }
    }
  }

  /** `TrimEnd` drops a run of whitespace from the back and stops at the
      last other character. */
  lemma {:induction false} TrimEndShape(s: string)
    ensures var r := TrimEnd(s);
            && r == s[..|r|]
            && (forall i :: |r| <= i < |s| ==> IsSpace(s[i]))
            && (|r| > 0 ==> !IsSpace(r[|r| - 1]))
  {
    if |s| > 0 && IsSpace(s[|s| - 1]) {
      TrimEndShape(s[..|s| - 1]);
      var r := TrimEnd(s);
      forall i | |r| <= i < |s| ensures IsSpace(s[i]) {
        if i < |s| - 1 {
          assert s[i] == s[..|s| - 1][i];
        }
      }
    }
  }

  /** Neither end of the stripped text is whitespace. */
  lemma StripShape(s: string)
    ensures var r := Strip(s);
            |r| > 0 ==> !IsSpace(r[0]) && !IsSpace(r[|r| - 1])
  {
    TrimStartShape(s);
    TrimEndShape(TrimStart(s));
  }

  /** Digits, with single underscores allowed only between two digits. */
  predicate WellFormedDigits(s: string)
  {
    && |s| > 0
    && IsDigit(s[0]) && IsDigit(s[|s| - 1])
    && (forall i :: 0 <= i < |s| ==> IsDigit(s[i]) || s[i] == '_')
    && (forall i :: 0 <= i < |s| - 1 ==> !(s[i] == '_' && s[i + 1] == '_'))
  }

  function DropUnderscores(s: string): (r: string)
    ensures (forall i :: 0 <= i < |s| ==> IsDigit(s[i]) || s[i] == '_') ==>
              forall i :: 0 <= i < |r| ==> IsDigit(r[i])
  {
    if |s| == 0 then []
    else (if s[0] == '_' then [] else [s[0]]) + DropUnderscores(s[1..])
  }

  /** The value of a string of decimal digits, most significant first. */
  function DigitsValue(s: string): (v: nat)
    requires forall i :: 0 <= i < |s| ==> IsDigit(s[i])
  {
    if |s| == 0 then 0 else DigitsValue(s[..|s| - 1]) * 10 + DigitValue(s[|s| - 1])
  }

  /** The most decimal digits `int` reads and `str` writes, the default
      of `sys.set_int_max_str_digits`; longer text raises `ValueError`. */
  const MaxStrDigits: nat := 4300

  /** The text after one optional leading sign. */
  function Unsigned(t: string): (b: string)
  {
    if |t| > 0 && (t[0] == '-' || t[0] == '+') then t[1..] else t
  }

  /** The value of the text after the sign: well-formed digits, at most
      `MaxStrDigits` of them once the underscores are dropped (leading
      zeros count). */
  function ReadUnsigned(body: string): (r: Option<nat>)
    ensures r.Some? ==> WellFormedDigits(body)
  {
    if WellFormedDigits(body) && |DropUnderscores(body)| <= MaxStrDigits
    then Some(DigitsValue(DropUnderscores(body)))
    else None
  }

  /** What `int` makes of the stripped text: one optional sign, then the
      digits `ReadUnsigned` accepts. */
  function ParseStripped(t: string): (r: Option<int>)
    ensures r.Some? ==> |t| > 0
  {
    match ReadUnsigned(Unsigned(t))
    case None => None
    case Some(v) => Some(if |t| > 0 && t[0] == '-' then -(v as int) else v)
  }

  /** `int(s)`; `None` where Python raises `ValueError`. */
  function ParseInt(s: string): (r: Option<int>)
    ensures r.Some? ==> |Strip(s)| > 0
  {
    ParseStripped(Strip(s))
  }

  /** `str(n)` for a natural number: its decimal digits, no leading zero. */
  function NatText(n: nat): (s: string)
    ensures |s| > 0
    ensures forall i :: 0 <= i < |s| ==> IsDigit(s[i])
  {
    if n < 10 then [DigitChar(n)] else NatText(n / 10) + [DigitChar(n % 10)]
  }

  /** The integers `str` prints and `int` reads back: at most
      `MaxStrDigits` digits. */
  predicate WithinStrLimit(n: int)
  {
    |NatText(if n < 0 then -n else n)| <= MaxStrDigits
  }

  /** `str(n)` for an integer (Python raises instead when `n` is not
      `WithinStrLimit`). */
  function IntText(n: int): (s: string)
    ensures |s| > 0 && !IsSpace(s[0]) && !IsSpace(s[|s| - 1])
  {
    if n < 0 then "-" + NatText(-n) else NatText(n)
  }

  lemma {:induction false} NatTextValue(n: nat)
    ensures DigitsValue(NatText(n)) == n
  {
    if n >= 10 {
      var s := NatText(n);
      assert s[..|s| - 1] == NatText(n / 10);
      NatTextValue(n / 10);
    }
  }

  lemma {:induction false} DropUnderscoresOfDigits(s: string)
    requires forall i :: 0 <= i < |s| ==> IsDigit(s[i])
    ensures DropUnderscores(s) == s
  {
    if |s| > 0 {
      DropUnderscoresOfDigits(s[1..]);
      assert s == [s[0]] + s[1..];
    }
  }

  lemma StripOfUnpadded(s: string)
    requires |s| > 0 && !IsSpace(s[0]) && !IsSpace(s[|s| - 1])
    ensures Strip(s) == s
  {
  }

  /** The digits of `str(n)` are well formed and read back as `n`. */
  lemma NatTextParses(n: nat)
    ensures WellFormedDigits(NatText(n))
    ensures DropUnderscores(NatText(n)) == NatText(n)
    ensures DigitsValue(NatText(n)) == n
  {
    DropUnderscoresOfDigits(NatText(n));
    NatTextValue(n);
  }

  /** A minus sign negates whatever the rest reads as. */
  lemma ParseNegative(t: string)
    ensures ParseStripped("-" + t) ==
              if ReadUnsigned(t).Some? then Some(-(ReadUnsigned(t).value as int)) else None
  {
    assert ("-" + t)[1..] == t;
  }

  /** Text that starts with a digit has no sign to drop. */
  lemma ParsePlain(t: string)
    requires |t| > 0 && IsDigit(t[0])
    ensures ParseStripped(t) == if ReadUnsigned(t).Some? then Some(ReadUnsigned(t).value as int) else None
  {
  }

  /** Plain digits read as their value, unless there are too many. */
  lemma ReadDigits(t: string)
    requires |t| > 0 && forall i :: 0 <= i < |t| ==> IsDigit(t[i])
    ensures ReadUnsigned(t) == if |t| <= MaxStrDigits then Some(DigitsValue(t)) else None
  {
    DropUnderscoresOfDigits(t);
    assert WellFormedDigits(t);
  }

  /** Whatever integer `str` prints, `int` reads back; the text of an
      integer with too many digits `int` refuses. */
  lemma IntTextRoundTrip(n: int)
    ensures ParseInt(IntText(n)) == if WithinStrLimit(n) then Some(n) else None
  {
    StripOfUnpadded(IntText(n));
    var m: nat := if n < 0 then -n else n;
    var t := NatText(m);
    NatTextValue(m);
    ReadDigits(t);
    if n < 0 {
      ParseNegative(t);
    } else {
      ParsePlain(t);
    }
  }

  /** A character after the sign that is neither a digit nor an underscore
      makes the text invalid. */
  lemma {:induction false} ParseIntRejectsJunk(s: string, i: int)
    requires var body := Unsigned(Strip(s));
             0 <= i < |body| && !IsDigit(body[i]) && body[i] != '_'
    ensures ParseInt(s) == None
  {
  }

  /** A character of `s` that is not whitespace survives `Strip`, at its
      position less the leading whitespace. */
  lemma StripKeeps(s: string, i: int)
    requires 0 <= i < |s| && !IsSpace(s[i])
    ensures var a := |s| - |TrimStart(s)|;
            a <= i < a + |Strip(s)| && Strip(s)[i - a] == s[i]
  {
    var u := TrimStart(s);
    var a := |s| - |u|;
    TrimStartShape(s);
    TrimEndShape(u);
    assert a <= i;
    assert u[i - a] == s[i];
    var w := TrimEnd(u);
    assert i - a < |w|;
    assert w[i - a] == u[i - a];
  }

  /** Text that is all whitespace, the empty text included, is refused. */
  lemma ParseIntBlank(s: string)
    requires forall i :: 0 <= i < |s| ==> IsSpace(s[i])
    ensures ParseInt(s) == None
  {
    TrimStartShape(s);
  }

  lemma {:induction false} TrimStartPadded(p: string, t: string)
    requires forall i :: 0 <= i < |p| ==> IsSpace(p[i])
    requires |t| > 0 && !IsSpace(t[0])
    ensures TrimStart(p + t) == t
  {
    if |p| == 0 {
      assert p + t == t;
    } else {
      assert (p + t)[1..] == p[1..] + t;
      TrimStartPadded(p[1..], t);
    }
  }

  lemma {:induction false} TrimEndPadded(t: string, q: string)
    requires forall i :: 0 <= i < |q| ==> IsSpace(q[i])
    requires |t| > 0 && !IsSpace(t[|t| - 1])
    ensures TrimEnd(t + q) == t
    decreases |q|
  {
    if |q| == 0 {
      assert t + q == t;
    } else {
      assert (t + q)[..|t + q| - 1] == t + q[..|q| - 1];
      TrimEndPadded(t, q[..|q| - 1]);
    }
  }

  /** Whitespace around the text is ignored: padding `s` on either side
      with any whitespace reads the same as `s`. */
  lemma ParseIntPadded(p: string, s: string, q: string)
    requires forall i :: 0 <= i < |p| ==> IsSpace(p[i])
    requires forall i :: 0 <= i < |q| ==> IsSpace(q[i])
    requires |s| > 0 ==> !IsSpace(s[0]) && !IsSpace(s[|s| - 1])
    ensures ParseInt(p + s + q) == ParseInt(s)
  {
    if |s| == 0 {
      BlankPadding(p, q);
      assert p + s + q == p + q;
      ParseIntBlank(p + s + q);
      ParseIntBlank(s);
    } else {
      StripPadded(p, s, q);
      StripOfUnpadded(s);
      ParseIntOfStrip(p + s + q, s);
    }
  }

  /** `int` sees only the stripped text. */
  lemma ParseIntOfStrip(x: string, y: string)
    requires Strip(x) == Strip(y)
    ensures ParseInt(x) == ParseInt(y)
  {
  }

  lemma BlankPadding(p: string, q: string)
    requires forall i :: 0 <= i < |p| ==> IsSpace(p[i])
    requires forall i :: 0 <= i < |q| ==> IsSpace(q[i])
    ensures forall i :: 0 <= i < |p + q| ==> IsSpace((p + q)[i])
  {
    var x := p + q;
    forall i | 0 <= i < |x| ensures IsSpace(x[i]) {
      if i < |p| { assert x[i] == p[i]; } else { assert x[i] == q[i - |p|]; }
    }
  }

  lemma StripPadded(p: string, s: string, q: string)
    requires forall i :: 0 <= i < |p| ==> IsSpace(p[i])
    requires forall i :: 0 <= i < |q| ==> IsSpace(q[i])
    requires |s| > 0 && !IsSpace(s[0]) && !IsSpace(s[|s| - 1])
    ensures Strip(p + s + q) == s
  {
    assert p + s + q == p + (s + q);
    TrimStartPadded(p, s + q);
    TrimEndPadded(s, q);
  }

  /** A well-formed digit string reads as the value of its digits. */
  lemma ParseIntOfDigits(s: string)
    requires WellFormedDigits(s)
    ensures ParseInt(s) == if |DropUnderscores(s)| <= MaxStrDigits then Some(DigitsValue(DropUnderscores(s))) else None
  {
    StripOfUnpadded(s);
  }

  /** Single underscores between digits do not change the value:
      `int("1_000") == int("1000")`. Both are accepted unless there are more
      than `MaxStrDigits` digits, underscores not counted. */
  lemma ParseIntGrouped(s: string)
    requires WellFormedDigits(s)
    ensures ParseInt(s).Some? <==> |DropUnderscores(s)| <= MaxStrDigits
    ensures ParseInt(s) == ParseInt(DropUnderscores(s))
  {
    var d := DropUnderscores(s);
    ParseIntOfDigits(s);
    assert d == [s[0]] + DropUnderscores(s[1..]);
    assert WellFormedDigits(d);
    ParseIntOfDigits(d);
    DropUnderscoresOfDigits(d);
  }

  /** Two underscores in a row, anywhere in the text, make it invalid. */
  lemma ParseIntDoubleUnderscore(s: string, i: int)
    requires 0 <= i < |s| - 1 && s[i] == '_' && s[i + 1] == '_'
    ensures ParseInt(s) == None
  {
    StripKeeps(s, i);
    StripKeeps(s, i + 1);
    var t := Strip(s);
    var j := i - (|s| - |TrimStart(s)|);
    var signed := t[0] == '-' || t[0] == '+';
    var body := if signed then t[1..] else t;
    if signed {
      assert body[j - 1] == '_' && body[j] == '_';
    } else {
      assert body[j] == '_' && body[j + 1] == '_';
    }
  }

  /** A character that is neither whitespace, a digit, an underscore nor a
      sign (a decimal point, a letter) makes the text invalid wherever it is. */
  lemma ParseIntForeignChar(s: string, i: int)
    requires 0 <= i < |s| && !IsSpace(s[i]) && !IsDigit(s[i])
    requires s[i] != '_' && s[i] != '-' && s[i] != '+'
    ensures ParseInt(s) == None
  {
    StripKeeps(s, i);
    var t := Strip(s);
    var j := i - (|s| - |TrimStart(s)|);
    var signed := t[0] == '-' || t[0] == '+';
    var body := if signed then t[1..] else t;
    if signed {
      assert body[j - 1] == s[i];
    } else {
      assert body[j] == s[i];
    }
  }
}

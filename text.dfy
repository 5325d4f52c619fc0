/** String helpers shared by the model: JavaScript's `split('\n')`, `join('\n')`,
    `trim()`, the `\s` character class and decimal rendering of small numbers. */
module Text {

  datatype Option<+T> = None | Some(value: T)

  /** JavaScript's `\s`: the WhiteSpace and LineTerminator code points. */
  predicate IsSpace(c: char) {
    c == '\t' || c == '\n' || c == '\U{000B}' || c == '\U{000C}' || c == '\r' || c == ' '
    || c == '\U{00A0}' || c == '\U{1680}' || ('\U{2000}' <= c <= '\U{200A}')
    || c == '\U{2028}' || c == '\U{2029}' || c == '\U{202F}' || c == '\U{205F}'
    || c == '\U{3000}' || c == '\U{FEFF}'
  }

  /** The characters JavaScript's `.` refuses to match. */
  predicate IsLineTerminator(c: char) {
    c == '\n' || c == '\r' || c == '\U{2028}' || c == '\U{2029}'
  }

  predicate IsDigit(c: char) { '0' <= c <= '9' }

  function DigitValue(c: char): nat
    requires IsDigit(c)
  {
    (c as int - '0' as int) as nat
  }

  function DigitChar(d: nat): (c: char)
    requires d < 10
    ensures IsDigit(c) && DigitValue(c) == d
  {
    ('0' as int + d) as char
  }

  predicate StartsWith(s: string, prefix: string) {
    |prefix| <= |s| && s[..|prefix|] == prefix
  }

  /** A line is blank when `line.trim()` is the empty string. */
  predicate IsBlank(s: string) {
    forall i :: 0 <= i < |s| ==> IsSpace(s[i])
  }

  // ---------------------------------------------------------------------------
  // split('\n') and join('\n')
  // ---------------------------------------------------------------------------

  /** `s.split('\n')`: never empty; "" splits into [""] and a trailing newline
      gives a trailing "". */
  function Split(s: string): (lines: seq<string>)
    ensures |lines| >= 1
    decreases |s|
  {
    if |s| == 0 then [""]
    else if s[0] == '\n' then [""] + Split(s[1..])
    else
      var rest := Split(s[1..]);
      [[s[0]] + rest[0]] + rest[1..]
  }

  lemma AppendAssoc<T>(a: seq<T>, b: seq<T>, c: seq<T>)
    ensures a + b + c == a + (b + c)
  {
  }

  /** `parts.join('\n')`. */
  function Join(parts: seq<string>): string
  {
    if |parts| == 0 then ""
    else if |parts| == 1 then parts[0]
    else parts[0] + "\n" + Join(parts[1..])
  }

  lemma {:induction false} JoinSplit(s: string)
    ensures Join(Split(s)) == s
    decreases |s|
  {
    if |s| == 0 {
    } else if s[0] == '\n' {
      JoinSplit(s[1..]);
      assert Split(s) == [""] + Split(s[1..]);
      assert s == "" + "\n" + s[1..];
    } else {
      JoinSplit(s[1..]);
      var rest := Split(s[1..]);
      if |rest| == 1 {
        assert s == [s[0]] + rest[0];
      } else {
        assert Join(rest) == rest[0] + "\n" + Join(rest[1..]);
        assert s == ([s[0]] + rest[0]) + "\n" + Join(rest[1..]);
      }
    }
  }

  lemma {:induction false} SplitNoNewline(s: string)
    requires '\n' !in s
    ensures Split(s) == [s]
    decreases |s|
  {
    if |s| > 0 {
      assert '\n' !in s[1..] by { assert forall i :: 0 <= i < |s| - 1 ==> s[1..][i] == s[i + 1]; }
      SplitNoNewline(s[1..]);
      assert s == [s[0]] + s[1..];
    }
  }

  lemma SplitConsChar(c: char, s: string)
    requires c != '\n'
    ensures Split([c] + s) == [[c] + Split(s)[0]] + Split(s)[1..]
  {
    assert ([c] + s)[0] == c;
    assert ([c] + s)[1..] == s;
  }

  lemma SplitConsNewline(s: string)
    ensures Split("\n" + s) == [""] + Split(s)
  {
    assert ("\n" + s)[0] == '\n';
    assert ("\n" + s)[1..] == s;
  }

  /** One more character in front of the first line. */
  lemma SplitConcatChar(c: char, a: string, b: string)
    requires c != '\n'
    requires Split(a + "\n" + b) == Split(a) + Split(b)
    ensures Split([c] + a + "\n" + b) == Split([c] + a) + Split(b)
  {
    var s := a + "\n" + b;
    assert [c] + a + "\n" + b == [c] + s;
    SplitConsChar(c, s);
    SplitConsChar(c, a);
    var ra, rb := Split(a), Split(b);
    var rs := ra + rb;
    assert rs[0] == ra[0];
    assert rs[1..] == ra[1..] + rb;
    AppendAssoc([[c] + ra[0]], ra[1..], rb);
  }

  /** One more empty line in front. */
  lemma SplitConcatNewline(a: string, b: string)
    requires Split(a + "\n" + b) == Split(a) + Split(b)
    ensures Split("\n" + a + "\n" + b) == Split("\n" + a) + Split(b)
  {
    assert "\n" + a + "\n" + b == "\n" + (a + "\n" + b);
    SplitConsNewline(a + "\n" + b);
    SplitConsNewline(a);
    AppendAssoc([""], Split(a), Split(b));
  }

  /** Splitting at a newline splits the two sides independently. */
  lemma {:induction false} SplitConcat(a: string, b: string)
    ensures Split(a + "\n" + b) == Split(a) + Split(b)
    decreases |a|
  {
    if |a| == 0 {
      assert a + "\n" + b == "\n" + b;
      SplitConsNewline(b);
    } else {
      var c, a' := a[0], a[1..];
      assert a == [c] + a';
      SplitConcat(a', b);
      if c == '\n' {
        SplitConcatNewline(a', b);
      } else {
        SplitConcatChar(c, a', b);
      }
    }
  }

  /** Lines without a newline split back out of their join. */
  lemma {:induction false} SplitJoin(parts: seq<string>)
    requires |parts| >= 1
    requires forall k :: 0 <= k < |parts| ==> '\n' !in parts[k]
    ensures Split(Join(parts)) == parts
    decreases |parts|
  {
    SplitNoNewline(parts[0]);
    if |parts| > 1 {
      SplitJoin(parts[1..]);
      SplitConcat(parts[0], Join(parts[1..]));
      assert parts == [parts[0]] + parts[1..];
    }
  }

  lemma {:induction false} JoinAppend(a: seq<string>, b: seq<string>)
    requires |a| >= 1 && |b| >= 1
    ensures Join(a + b) == Join(a) + "\n" + Join(b)
    decreases |a|
  {
    if |a| == 1 {
      assert (a + b)[1..] == b;
    } else {
      assert (a + b)[1..] == a[1..] + b;
      JoinAppend(a[1..], b);
    }
  }

  // ---------------------------------------------------------------------------
  // trim()
  // ---------------------------------------------------------------------------

  /** `s` without its leading `\s` characters. */
  function TrimStart(s: string): string
    decreases |s|
  {
    if |s| > 0 && IsSpace(s[0]) then TrimStart(s[1..]) else s
  }

  /** `s` without its trailing `\s` characters. */
  function TrimEnd(s: string): string
    decreases |s|
  {
    if |s| > 0 && IsSpace(s[|s| - 1]) then TrimEnd(s[..|s| - 1]) else s
  }

  /** `s.trim()`. */
  function Trim(s: string): string {
    TrimEnd(TrimStart(s))
  }

  lemma {:induction false} TrimStartShape(s: string)
    ensures |TrimStart(s)| <= |s| && TrimStart(s) == s[|s| - |TrimStart(s)|..]
    ensures |TrimStart(s)| > 0 ==> !IsSpace(TrimStart(s)[0])
    ensures IsBlank(s[..|s| - |TrimStart(s)|])
    decreases |s|
  {
    if |s| > 0 && IsSpace(s[0]) {
      TrimStartShape(s[1..]);
      var r := TrimStart(s);
      assert s[1..][|s| - 1 - |r|..] == s[|s| - |r|..];
      assert s[..|s| - |r|] == [s[0]] + s[1..][..|s| - 1 - |r|];
    } else {
      assert s[0..] == s;
    }
  }

  lemma {:induction false} TrimEndShape(s: string)
    ensures |TrimEnd(s)| <= |s| && TrimEnd(s) == s[..|TrimEnd(s)|]
    ensures |TrimEnd(s)| > 0 ==> !IsSpace(TrimEnd(s)[|TrimEnd(s)| - 1])
    ensures IsBlank(s[|TrimEnd(s)|..])
    decreases |s|
  {
    if |s| > 0 && IsSpace(s[|s| - 1]) {
      TrimEndShape(s[..|s| - 1]);
      var r := TrimEnd(s);
      assert s[..|s| - 1][..|r|] == s[..|r|];
      assert forall i :: 0 <= i < |s| - |r| - 1 ==> s[|r|..][i] == s[..|s| - 1][|r|..][i];
    } else {
      assert s[|s|..] == [];
    }
  }

  /** `trim()` leaves no `\s` at either end. */
  lemma TrimEnds(s: string)
    ensures |Trim(s)| == 0 || (!IsSpace(Trim(s)[0]) && !IsSpace(Trim(s)[|Trim(s)| - 1]))
  {
    var t := TrimStart(s);
    TrimStartShape(s);
    TrimEndShape(t);
    if |Trim(s)| > 0 {
      assert Trim(s)[0] == t[0];
    }
  }

  lemma {:induction false} TrimStartSnoc(s: string, c: char)
    ensures TrimStart(s + [c]) == if IsBlank(s) then TrimStart([c]) else TrimStart(s) + [c]
    decreases |s|
  {
    if |s| == 0 {
      assert s + [c] == [c];
    } else {
      assert (s + [c])[0] == s[0];
      assert (s + [c])[1..] == s[1..] + [c];
      TrimStartSnoc(s[1..], c);
      if IsSpace(s[0]) {
        assert IsBlank(s) <==> IsBlank(s[1..]) by {
          assert forall i :: 0 < i < |s| ==> s[i] == s[1..][i - 1];
        }
      } else {
        assert !IsBlank(s);
      }
    }
  }

  lemma TrimOfEmpty()
    ensures Trim("") == ""
  {
    TrimEmptyIffBlank("");
  }

  /** A trailing space makes no difference to `trim()`. */
  lemma TrimTrailingSpace(s: string)
    ensures Trim(s + " ") == Trim(s)
  {
    TrimStartSnoc(s, ' ');
    if IsBlank(s) {
      assert TrimStart(" ") == TrimStart(" "[1..]);
      assert TrimStart(s + " ") == "";
      TrimEmptyIffBlank(s);
    } else {
      var t := TrimStart(s);
      assert (t + " ")[..|t|] == t;
    }
  }

  /** `trim()` yields "" exactly for the blank strings. */
  lemma TrimEmptyIffBlank(s: string)
    ensures Trim(s) == "" <==> IsBlank(s)
  {
    var t := TrimStart(s);
    TrimStartShape(s);
    TrimEndShape(t);
    if Trim(s) == "" {
      assert t[0..] == t;
      assert s[..|s|] == s;
    }
  }

  // ---------------------------------------------------------------------------
  // Decimal rendering
  // ---------------------------------------------------------------------------

  predicate AllDigits(s: string) {
    forall i :: 0 <= i < |s| ==> IsDigit(s[i])
  }

  lemma NoCharInDigits(s: string, c: char)
    requires AllDigits(s) && !IsDigit(c)
    ensures c !in s
  {
    forall k | 0 <= k < |s| ensures s[k] != c {
      assert IsDigit(s[k]);
    }
  }

  /** The value of a string of decimal digits. */
  function DecimalValue(s: string): nat
    requires AllDigits(s)
  {
    if |s| == 0 then 0 else 10 * DecimalValue(s[..|s| - 1]) + DigitValue(s[|s| - 1])
  }

  function Pow10(n: nat): (p: nat)
    ensures p >= 1
  {
    if n == 0 then 1 else 10 * Pow10(n - 1)
  }

  /** `x` written with exactly `width` digits, zero-padded on the left. */
  function Pad(x: nat, width: nat): (s: string)
    ensures |s| == width
  {
    if width == 0 then "" else Pad(x / 10, width - 1) + [DigitChar(x % 10)]
  }

  lemma {:induction false} PadDigits(x: nat, width: nat)
    ensures AllDigits(Pad(x, width))
  {
    if width > 0 {
      PadDigits(x / 10, width - 1);
    }
  }

  lemma {:induction false} PadValue(x: nat, width: nat)
    requires x < Pow10(width)
    ensures AllDigits(Pad(x, width)) && DecimalValue(Pad(x, width)) == x
  {
    PadDigits(x, width);
    if width > 0 {
      var q, r := x / 10, x % 10;
      assert x == 10 * q + r;
      assert q < Pow10(width - 1);
      var s := Pad(x, width);
      PadDigits(q, width - 1);
      assert s[..width - 1] == Pad(q, width - 1);
      assert s[width - 1] == DigitChar(r);
      PadValue(q, width - 1);
    }
  }

  /** The number of decimal digits `String(x)` has. */
  function DigitCount(x: nat): (n: nat)
    ensures n >= 1 && x < Pow10(n)
  {
    if x < 10 then 1 else 1 + DigitCount(x / 10)
  }

  /** `String(x)` for a natural number. */
  function NatString(x: nat): (s: string)
    ensures |s| >= 1
  {
    Pad(x, DigitCount(x))
  }
}

/**
 * The Python string and integer builtins the reflector relies on:
 * `str.isspace`, `str.strip`, `str.upper`, `str.split`, `str(int)` and `int(str)`.
 */
module PyStr {
  import opened Wrappers

  /** `c.isspace()`: the characters Python treats as whitespace. */
  predicate IsSpace(c: char) {
    || ('\t' <= c <= '\r')
    || ('\U{1C}' <= c <= '\U{1F}')
    || c == ' ' || c == '\U{85}' || c == '\U{A0}' || c == '\U{1680}'
    || ('\U{2000}' <= c <= '\U{200A}')
    || c == '\U{2028}' || c == '\U{2029}' || c == '\U{202F}' || c == '\U{205F}' || c == '\U{3000}'
  }

  /** The whitespace `int()` skips around its digits: `isspace` without U+001C..U+001F. */
  predicate IsIntSpace(c: char) {
    IsSpace(c) && !('\U{1C}' <= c <= '\U{1F}')
  }

  /** The two notions of whitespace in play: that of `str.strip` and that of `int()`. */
  datatype Space = StrSpace | IntSpace

  predicate Ws(space: Space, c: char) {
    match space
    case StrSpace => IsSpace(c)
    case IntSpace => IsIntSpace(c)
  }

  predicate IsDigit(c: char) {
    '0' <= c <= '9'
  }

  predicate AllSpace(s: string, space: Space) {
    forall k :: 0 <= k < |s| ==> Ws(space, s[k])
  }

  /** `s.lstrip()` for the given notion of whitespace. */
  function LStrip(s: string, space: Space): (r: string)
    ensures |r| <= |s|
  {
    if s != [] && Ws(space, s[0]) then LStrip(s[1..], space) else s
  }

  /** `s.rstrip()` for the given notion of whitespace. */
  function RStrip(s: string, space: Space): (r: string)
    ensures |r| <= |s|
  {
    if s != [] && Ws(space, s[|s| - 1]) then RStrip(s[..|s| - 1], space) else s
  }

  /** `lstrip` keeps a suffix that does not start with whitespace and removes only whitespace. */
  lemma {:induction false} LStripSpec(s: string, space: Space)
    ensures var r := LStrip(s, space);
      && r == s[|s| - |r|..]
      && (r == [] || !Ws(space, r[0]))
      && AllSpace(s[..|s| - |r|], space)
  {
    if s != [] && Ws(space, s[0]) {
      var t := s[1..];
      LStripSpec(t, space);
      var r := LStrip(t, space);
      assert t[|t| - |r|..] == s[|s| - |r|..];
      var removed := s[..|s| - |r|];
      forall j | 0 <= j < |removed|
        ensures Ws(space, removed[j])
      {
        if j > 0 {
          assert removed[j] == t[..|t| - |r|][j - 1];
        }
      }
    }
  }

  /** `rstrip` keeps a prefix that does not end with whitespace and removes only whitespace. */
  lemma {:induction false} RStripSpec(s: string, space: Space)
    ensures var r := RStrip(s, space);
      && r == s[..|r|]
      && (r == [] || !Ws(space, r[|r| - 1]))
      && AllSpace(s[|r|..], space)
  {
    if s != [] && Ws(space, s[|s| - 1]) {
      var t := s[..|s| - 1];
      RStripSpec(t, space);
      var r := RStrip(t, space);
      assert t[..|r|] == s[..|r|];
      var removed := s[|r|..];
      forall j | 0 <= j < |removed|
        ensures Ws(space, removed[j])
      {
        if |r| + j < |t| {
          assert removed[j] == t[|r|..][j];
        }
      }
    }
  }

  function StripBy(s: string, space: Space): string {
    RStrip(LStrip(s, space), space)
  }

  /** `s.strip()`. */
  function Strip(s: string): string {
    StripBy(s, StrSpace)
  }

  /** A string is already stripped when it is empty or starts and ends with non-whitespace. */
  predicate Trimmed(s: string, space: Space) {
    s == [] || (!Ws(space, s[0]) && !Ws(space, s[|s| - 1]))
  }

  /** A string that is already stripped is left as it is. */
  lemma TrimmedFixed(s: string, space: Space)
    requires Trimmed(s, space)
    ensures StripBy(s, space) == s
  {
    if s != [] {
      assert LStrip(s, space) == s;
    }
  }

  /** The result of stripping starts and ends with non-whitespace. */
  lemma StripTrimmed(s: string, space: Space)
    ensures Trimmed(StripBy(s, space), space)
  {
    var l := LStrip(s, space);
    var r := RStrip(l, space);
    LStripSpec(s, space);
    RStripSpec(l, space);
    if r != [] {
      assert r[0] == l[0];
    }
  }

  /** Stripping gives the empty string exactly for an all-whitespace input. */
  lemma StripBlank(s: string, space: Space)
    ensures StripBy(s, space) == [] <==> AllSpace(s, space)
  {
    var l := LStrip(s, space);
    var r := RStrip(l, space);
    LStripSpec(s, space);
    RStripSpec(l, space);
    if r == [] {
      assert l[|r|..] == l;
      assert l == [];
      assert s[..|s| - |l|] == s;
    } else {
      assert r[0] == l[0] && l[0] == s[|s| - |l|];
    }
  }

  /** Stripping removes whitespace from both ends and nothing else; it is blank exactly for blank input. */
  lemma StripSpec(s: string, space: Space)
    ensures Trimmed(StripBy(s, space), space)
    ensures |StripBy(s, space)| <= |s|
    ensures StripBy(s, space) == [] <==> AllSpace(s, space)
    ensures Trimmed(s, space) ==> StripBy(s, space) == s
  {
    StripTrimmed(s, space);
    StripBlank(s, space);
    if Trimmed(s, space) {
      TrimmedFixed(s, space);
    }
  }

  lemma {:induction false} LStripPadded(pre: string, t: string, space: Space)
    requires AllSpace(pre, space) && (t == [] || !Ws(space, t[0]))
    ensures LStrip(pre + t, space) == t
  {
    if pre == [] {
      assert pre + t == t;
    } else {
      assert (pre + t)[0] == pre[0] && (pre + t)[1..] == pre[1..] + t;
      LStripPadded(pre[1..], t, space);
    }
  }

  lemma {:induction false} RStripPadded(t: string, post: string, space: Space)
    requires AllSpace(post, space) && (t == [] || !Ws(space, t[|t| - 1]))
    ensures RStrip(t + post, space) == t
  {
    if post == [] {
      assert t + post == t;
    } else {
      var s := t + post;
      assert s[|s| - 1] == post[|post| - 1] && s[..|s| - 1] == t + post[..|post| - 1];
      RStripPadded(t, post[..|post| - 1], space);
    }
  }

  /** Stripping a non-blank trimmed word padded with whitespace on both sides gives back the word. */
  lemma StripPadded(pre: string, w: string, post: string, space: Space)
    requires AllSpace(pre, space) && AllSpace(post, space)
    requires w != [] && Trimmed(w, space)
    ensures StripBy(pre + w + post, space) == w
  {
    assert pre + w + post == pre + (w + post);
    assert (w + post)[0] == w[0];
    LStripPadded(pre, w + post, space);
    RStripPadded(w, post, space);
  }

  /** Stripping is idempotent. */
  lemma StripIdempotent(s: string, space: Space)
    ensures StripBy(StripBy(s, space), space) == StripBy(s, space)
  {
    StripSpec(s, space);
    StripSpec(StripBy(s, space), space);
  }

  /** `c.upper()` on ASCII letters. */
  function UpperChar(c: char): char {
    if 'a' <= c <= 'z' then (c as int - 32) as char else c
  }

  /** `s.upper()`, character by character. */
  function Upper(s: string): string {
    seq(|s|, i requires 0 <= i < |s| => UpperChar(s[i]))
  }

  /** Upper-casing keeps the length, is idempotent and never turns whitespace into non-whitespace or back. */
  lemma UpperSpec(s: string)
    ensures |Upper(s)| == |s|
    ensures Upper(Upper(s)) == Upper(s)
    ensures forall i :: 0 <= i < |s| ==> (IsSpace(Upper(s)[i]) <==> IsSpace(s[i]))
    ensures Trimmed(s, StrSpace) ==> Trimmed(Upper(s), StrSpace)
  {
  }

  /** `s.split(sep)`: the pieces between occurrences of `sep`, always at least one. */
  function Split(s: string, sep: char): (r: seq<string>)
    ensures |r| >= 1
  {
    if s == "" then [""]
    else
      var rest := Split(s[1..], sep);
      if s[0] == sep then [""] + rest else [[s[0]] + rest[0]] + rest[1..]
  }

  /** No piece of a split contains the separator. */
  lemma {:induction false} SplitPieces(s: string, sep: char)
    ensures forall t :: t in Split(s, sep) ==> sep !in t
  {
    if s != "" {
      SplitPieces(s[1..], sep);
      var rest := Split(s[1..], sep);
      if s[0] != sep {
        assert rest[0] in rest;
        forall t | t in Split(s, sep) ensures sep !in t {
          if t != [s[0]] + rest[0] {
            assert t in rest[1..];
          }
        }
      }
    }
  }

  /** `sep.join(ts)`. */
  function Join(ts: seq<string>, sep: char): string
    requires |ts| >= 1
  {
    if |ts| == 1 then ts[0] else ts[0] + [sep] + Join(ts[1..], sep)
  }

  /** Joining the pieces of a split gives back the string. */
  lemma {:induction false} JoinSplit(s: string, sep: char)
    ensures Join(Split(s, sep), sep) == s
  {
    if s != "" {
      var rest := Split(s[1..], sep);
      JoinSplit(s[1..], sep);
      if s[0] == sep {
        assert Split(s, sep)[1..] == rest;
      } else {
        var r := Split(s, sep);
        assert r[0] == [s[0]] + rest[0];
        if |rest| > 1 {
          assert r[1..] == rest[1..];
          assert Join(rest, sep) == rest[0] + [sep] + Join(rest[1..], sep);
        }
      }
    }
  }

  /** Splitting a string with no separator gives the string as the only piece. */
  lemma {:induction false} SplitNoSep(x: string, sep: char)
    requires sep !in x
    ensures Split(x, sep) == [x]
  {
    if x != "" {
      assert x[0] in x && [x[0]] + x[1..] == x;
      SplitNoSep(x[1..], sep);
    }
  }

  /** Splitting `x + sep + y` cuts off `x` as the first piece when `x` has no separator. */
  lemma {:induction false} SplitAtSep(x: string, y: string, sep: char)
    requires sep !in x
    ensures Split(x + [sep] + y, sep) == [x] + Split(y, sep)
  {
    var s := x + [sep] + y;
    if x == "" {
      assert s[0] == sep && s[1..] == y;
    } else {
      assert s[0] == x[0] && s[1..] == x[1..] + [sep] + y;
      SplitAtSep(x[1..], y, sep);
      assert [x[0]] + x[1..] == x;
    }
  }

  /** Splitting a join of separator-free pieces gives back the pieces. */
  lemma {:induction false} SplitJoin(ts: seq<string>, sep: char)
    requires |ts| >= 1
    requires forall t :: t in ts ==> sep !in t
    ensures Split(Join(ts, sep), sep) == ts
  {
    if |ts| == 1 {
      SplitNoSep(ts[0], sep);
    } else {
      assert ts[0] in ts;
      assert forall t :: t in ts[1..] ==> t in ts;
      SplitJoin(ts[1..], sep);
      SplitAtSep(ts[0], Join(ts[1..], sep), sep);
    }
  }

  function DigitChar(d: int): char
    requires 0 <= d < 10
  {
    ('0' as int + d) as char
  }

  function DigitValue(c: char): nat
    requires IsDigit(c)
  {
    c as int - '0' as int
  }

  /** The decimal digits of a natural number, most significant first. */
  function NatDigits(n: nat): (r: string)
    ensures |r| >= 1
    ensures forall i :: 0 <= i < |r| ==> IsDigit(r[i])
  {
    if n < 10 then [DigitChar(n)] else NatDigits(n / 10) + [DigitChar(n % 10)]
  }

  /** `str(n)` for an integer, as written; `StrFits` says when `str` does not raise. */
  function Decimal(n: int): string {
    if n < 0 then "-" + NatDigits(-n) else NatDigits(n)
  }

  /**
   * CPython's default limit on the number of decimal digits an `int`/`str` conversion
   * handles (`sys.int_info.default_max_str_digits`); longer conversions raise `ValueError`.
   */
  const MaxStrDigits: nat := 4300

  /** `str(n)` succeeds: the decimal form of `n` has at most `MaxStrDigits` digits, sign not counted. */
  predicate StrFits(n: int) {
    |NatDigits(if n < 0 then -n else n)| <= MaxStrDigits
  }

  function Pow10(k: nat): (r: nat)
    ensures r >= 1
  {
    if k == 0 then 1 else 10 * Pow10(k - 1)
  }

  /** A natural number has at most `k` decimal digits exactly when it is below `10^k`. */
  lemma {:induction false} NatDigitsLength(n: nat, k: nat)
    requires k >= 1
    ensures |NatDigits(n)| <= k <==> n < Pow10(k)
  {
    if n >= 10 && k > 1 {
      NatDigitsLength(n / 10, k - 1);
      assert n == 10 * (n / 10) + n % 10;
    }
  }

  /** Every integer strictly between `-10^k` and `10^k`, for `1 <= k <= MaxStrDigits`, converts. */
  lemma StrFitsBelow(n: int, k: nat)
    requires 1 <= k <= MaxStrDigits && -(Pow10(k) as int) < n < Pow10(k)
    ensures StrFits(n)
  {
    NatDigitsLength(if n < 0 then -n else n, k);
  }

  /** The digit part `int()` accepts: ASCII digits, with single underscores only between two digits. */
  predicate DigitRun(s: string) {
    && |s| > 0 && IsDigit(s[0]) && IsDigit(s[|s| - 1])
    && (forall i :: 0 <= i < |s| ==> IsDigit(s[i]) || s[i] == '_')
    && (forall i :: 0 <= i < |s| - 1 ==> IsDigit(s[i]) || IsDigit(s[i + 1]))
  }

  /** The number a digit run denotes; underscores are skipped. */
  function DigitsValue(s: string): nat {
    if s == "" then 0
    else if IsDigit(s[|s| - 1]) then DigitsValue(s[..|s| - 1]) * 10 + DigitValue(s[|s| - 1])
    else DigitsValue(s[..|s| - 1])
  }

  /** The number of digits in `s`; underscores do not count towards `int()`'s limit. */
  function DigitCount(s: string): (r: nat)
    ensures r <= |s|
    ensures (forall i :: 0 <= i < |s| ==> IsDigit(s[i])) ==> r == |s|
  {
    if s == "" then 0
    else DigitCount(s[..|s| - 1]) + (if IsDigit(s[|s| - 1]) then 1 else 0)
  }

  /** The value of an unsigned digit run, if `int()` accepts it: a proper run within the digit limit. */
  function Magnitude(run: string): Option<nat> {
    if DigitRun(run) && DigitCount(run) <= MaxStrDigits then Some(DigitsValue(run)) else None
  }

  /** The number denoted by a sign (or none) followed by a digit run. */
  function SignedValue(t: string): Option<int> {
    if |t| > 0 && (t[0] == '+' || t[0] == '-') then
      match Magnitude(t[1..])
      case None => None
      case Some(v) => Some(if t[0] == '-' then -(v as int) else v)
    else Magnitude(t)
  }

  /** `int(s)` in base 10: `None` stands for the `ValueError` it raises. */
  function ParseInt(s: string): (r: Option<int>)
    ensures AllSpace(s, IntSpace) ==> r.None?
  {
    StripBlank(s, IntSpace);
    SignedValue(StripBy(s, IntSpace))
  }

  lemma {:induction false} NatDigitsValue(n: nat)
    ensures DigitRun(NatDigits(n))
    ensures DigitsValue(NatDigits(n)) == n
  {
    var d := NatDigits(n);
    if n >= 10 {
      NatDigitsValue(n / 10);
      assert d[..|d| - 1] == NatDigits(n / 10);
    }
  }

  /**
   * `int(str(n)) == n` whenever `str(n)` is within the digit limit; a longer decimal form
   * is rejected by `int()` just as `str` refuses to produce it.
   */
  lemma DecimalRoundTrip(n: int)
    ensures ParseInt(Decimal(n)) == if StrFits(n) then Some(n) else None
  {
    var s := Decimal(n);
    var m := if n < 0 then -n else n;
    NatDigitsValue(m);
    assert DigitCount(NatDigits(m)) == |NatDigits(m)|;
    assert Trimmed(s, IntSpace);
    TrimmedFixed(s, IntSpace);
    if n < 0 {
      assert s[1..] == NatDigits(-n);
    }
  }

  /** `int()` rejects a plain digit string longer than the limit, even one padded with leading zeros. */
  lemma ParseIntTooManyDigits(s: string)
    requires |s| > MaxStrDigits
    requires forall i :: 0 <= i < |s| ==> IsDigit(s[i])
    ensures ParseInt(s) == None
  {
    assert Trimmed(s, IntSpace);
    TrimmedFixed(s, IntSpace);
    assert DigitCount(s) == |s|;
  }

  /** `str(n)` has no character other than digits and a leading minus sign. */
  lemma DecimalChars(n: int)
    ensures forall i :: 0 <= i < |Decimal(n)| ==> IsDigit(Decimal(n)[i]) || (i == 0 && Decimal(n)[i] == '-')
  {
  }

  /** `int()` skips the whitespace around its digits: a string equal to `" 7\r\n"` reads as 7. */
  lemma ParseIntPadded(s: string)
    requires s == " 7\r\n"
    ensures ParseInt(s) == Some(7)
  {
    assert StripBy(s, IntSpace) == "7" by {
      assert s == " " + "7" + "\r\n";
      assert AllSpace(" ", IntSpace) && Trimmed("7", IntSpace);
      assert AllSpace("\r\n", IntSpace) by {
        assert IsIntSpace("\r\n"[0]) && IsIntSpace("\r\n"[1]);
      }
      StripPadded(" ", "7", "\r\n", IntSpace);
    }
    assert SignedValue("7") == Some(7) by {
      assert DigitRun("7") && DigitsValue("7") == 7 by { assert "7"[..0] == ""; }
    }
  }

  lemma ParseIntUnderscore()
    ensures ParseInt("+1_000") == Some(1000)
  {
    var t := "+1_000";
    TrimmedFixed(t, IntSpace);
    assert t[1..] == "1_000";
    assert DigitRun("1_000");
    assert DigitsValue("1_000") == 1000 by {
      assert "1_000"[..4] == "1_00" && "1_00"[..3] == "1_0" && "1_0"[..2] == "1_" && "1_"[..1] == "1";
      assert "1"[..0] == "";
    }
  }

  lemma ParseIntThree()
    ensures ParseInt("3") == Some(3)
  {
    assert !IsIntSpace('3');
    TrimmedFixed("3", IntSpace);
    assert DigitsValue("3") == 3 by { assert "3"[..0] == ""; }
  }

  lemma ParseIntNegative()
    ensures ParseInt("-5") == Some(-5)
  {
    TrimmedFixed("-5", IntSpace);
    assert "-5"[1..] == "5" && "5"[..0] == "";
  }

  lemma ParseIntRejectsEmpty()
    ensures ParseInt("") == None
  {
  }

  lemma ParseIntRejectsLetters()
    ensures ParseInt("abc") == None
  {
    TrimmedFixed("abc", IntSpace);
    assert !IsDigit("abc"[0]);
  }

  lemma ParseIntRejectsDoubleUnderscore()
    ensures ParseInt("1__0") == None
  {
    TrimmedFixed("1__0", IntSpace);
    assert !(IsDigit("1__0"[1]) || IsDigit("1__0"[2]));
  }

  /** U+001C counts as whitespace for `strip()` but not for `int()`. */
  lemma ParseIntRejectsSeparatorChar()
    ensures ParseInt("\U{1C}5") == None
  {
    TrimmedFixed("\U{1C}5", IntSpace);
    assert !IsDigit("\U{1C}5"[0]);
  }

  lemma StripSeparatorChar(s: string)
    requires s == "\U{1C}5"
    ensures Strip(s) == "5"
  {
    assert s == "\U{1C}" + "5" + "";
    assert AllSpace("\U{1C}", StrSpace) && Trimmed("5", StrSpace);
    StripPadded("\U{1C}", "5", "", StrSpace);
  }
}

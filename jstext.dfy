/**
 * The JavaScript string built-ins the domain layer relies on, written out:
 * `String.prototype.split` with a one-character separator, the inverse join,
 * `String.prototype.toLowerCase`, the global `parseInt` with no radix, and
 * the text `String(x)` gives for an integer and for a boolean.
 */
module JsText {
  import opened Wrappers

  // ---------------------------------------------------------------------------
  // split / join

  /** The segments `parts.join(sep)` glues back together. */
  function Join(parts: seq<string>, sep: char): string
    requires |parts| >= 1
    decreases |parts|
  {
    if |parts| == 1 then parts[0] else parts[0] + [sep] + Join(parts[1..], sep)
  }

  /**
   * `s.split(sep)`: never empty (`"".split(':')` is `[""]`), no segment holds
   * the separator, and joining the segments gives back `s`.
   */
  function Split(s: string, sep: char): (parts: seq<string>)
    ensures |parts| >= 1
    ensures forall i :: 0 <= i < |parts| ==> sep !in parts[i]
    ensures Join(parts, sep) == s
    decreases |s|
  {
    if s == [] then [[]]
    else
      var rest := Split(s[1..], sep);
      if s[0] == sep then
        assert s == [sep] + s[1..];
        [[]] + rest
      else
        var parts := [[s[0]] + rest[0]] + rest[1..];
        assert parts[1..] == rest[1..];
        assert Join(parts, sep) == [s[0]] + Join(rest, sep) by {
          if |rest| > 1 {
            assert Join(parts, sep) == ([s[0]] + rest[0]) + [sep] + Join(rest[1..], sep);
          }
        }
        assert s == [s[0]] + s[1..];
        parts
  }

  /** Splitting a separator-free prefix glues it onto the first segment. */
  lemma {:induction false} SplitPrepend(x: string, s: string, sep: char)
    requires sep !in x
    ensures Split(x + s, sep) == [x + Split(s, sep)[0]] + Split(s, sep)[1..]
    decreases |x|
  {
    if x != [] {
      var xs := x + s;
      assert xs[0] == x[0] && xs[0] != sep;
      assert xs[1..] == x[1..] + s;
      SplitPrepend(x[1..], s, sep);
      var rest := Split(xs[1..], sep);
      assert rest == [x[1..] + Split(s, sep)[0]] + Split(s, sep)[1..];
      assert Split(xs, sep) == [[xs[0]] + rest[0]] + rest[1..];
      assert [x[0]] + (x[1..] + Split(s, sep)[0]) == x + Split(s, sep)[0];
    } else {
      assert x + s == s;
      assert x + Split(s, sep)[0] == Split(s, sep)[0];
      assert Split(s, sep) == [Split(s, sep)[0]] + Split(s, sep)[1..];
    }
  }

  /** Round trip: splitting a join of separator-free segments gives the segments. */
  lemma {:induction false} SplitJoin(parts: seq<string>, sep: char)
    requires |parts| >= 1
    requires forall i :: 0 <= i < |parts| ==> sep !in parts[i]
    ensures Split(Join(parts, sep), sep) == parts
    decreases |parts|
  {
    if |parts| == 1 {
      SplitPrepend(parts[0], [], sep);
      assert parts[0] + [] == parts[0];
    } else {
      var tail := Join(parts[1..], sep);
      SplitJoin(parts[1..], sep);
      assert Join(parts, sep) == parts[0] + ([sep] + tail);
      SplitPrepend(parts[0], [sep] + tail, sep);
      assert ([sep] + tail)[1..] == tail;
      var st := [sep] + tail;
      assert st[0] == sep;
      assert Split(st, sep) == [[]] + Split(tail, sep);
      assert Split(st, sep) == [[]] + parts[1..];
      assert Split(st, sep)[0] == [] && Split(st, sep)[1..] == parts[1..];
      assert parts[0] + [] == parts[0];
      assert parts == [parts[0]] + parts[1..];
    }
  }

  /**
   * The last segment of a split is a suffix of the text, and the separator
   * comes just before it unless it is the whole text.
   */
  lemma {:induction false} SplitLastSegment(s: string, sep: char)
    ensures var parts := Split(s, sep); var last := parts[|parts| - 1];
      |last| <= |s| && last == s[|s| - |last|..] &&
      (|last| < |s| ==> s[|s| - |last| - 1] == sep) &&
      (|parts| > 1 ==> |last| < |s|)
    decreases |s|
  {
    if s != [] {
      var tail := s[1..];
      var rest := Split(tail, sep);
      SplitLastSegment(tail, sep);
      var last := rest[|rest| - 1];
      assert tail[|tail| - |last|..] == s[|s| - |last|..];
      if s[0] == sep {
        assert Split(s, sep) == [[]] + rest;
      } else if |rest| == 1 {
        assert Split(s, sep) == [[s[0]] + rest[0]];
        assert rest[0] == tail;
        assert s == [s[0]] + tail;
      } else {
        assert Split(s, sep) == [[s[0]] + rest[0]] + rest[1..];
        assert Split(s, sep)[|Split(s, sep)| - 1] == last;
      }
    }
  }

  // ---------------------------------------------------------------------------
  // toLowerCase

  /** Lower-case mapping of one character (ASCII letters; see README). */
  function LowerChar(c: char): char
  {
    if 'A' <= c <= 'Z' then (c as int + 32) as char else c
  }

  /**
   * `toLowerCase`: no upper-case letter is left, and each character either
   * stays or is an upper-case letter turned into its lower-case partner.
   */
  function ToLower(s: string): (r: string)
    ensures |r| == |s|
    ensures forall i :: 0 <= i < |r| ==> !('A' <= r[i] <= 'Z')
    ensures forall i :: 0 <= i < |s| ==> r[i] == s[i] || ('A' <= s[i] <= 'Z' && r[i] as int == s[i] as int + 32)
  {
    seq(|s|, i requires 0 <= i < |s| => LowerChar(s[i]))
  }

  /** Lower-casing twice is lower-casing once. */
  lemma ToLowerIdempotent(s: string)
    ensures ToLower(ToLower(s)) == ToLower(s)
  {
  }

  // ---------------------------------------------------------------------------
  // parseInt(string) with no radix argument

  /** The white space and line terminators `parseInt` skips at the start. */
  predicate IsJsWhitespace(c: char)
  {
    var n := c as int;
    n == 0x09 || n == 0x0A || n == 0x0B || n == 0x0C || n == 0x0D || n == 0x20 ||
    n == 0xA0 || n == 0x1680 || (0x2000 <= n <= 0x200A) || n == 0x2028 || n == 0x2029 ||
    n == 0x202F || n == 0x205F || n == 0x3000 || n == 0xFEFF
  }

  function TrimStart(s: string): (r: string)
    ensures |r| <= |s| && r == s[|s| - |r|..]
    ensures r != [] ==> !IsJsWhitespace(r[0])
    decreases |s|
  {
    if s != [] && IsJsWhitespace(s[0]) then TrimStart(s[1..]) else s
  }

  /** The value of a digit character in radix 36; 36 for a non-digit. */
  function DigitValue(c: char): nat
  {
    if '0' <= c <= '9' then c as int - '0' as int
    else if 'a' <= c <= 'z' then c as int - 'a' as int + 10
    else if 'A' <= c <= 'Z' then c as int - 'A' as int + 10
    else 36
  }

  predicate IsDigit(c: char, radix: nat)
  {
    DigitValue(c) < radix
  }

  /** The longest prefix of `s` made of digits of `radix`. */
  function DigitPrefix(s: string, radix: nat): (ds: string)
    ensures |ds| <= |s| && ds == s[..|ds|]
    ensures forall i :: 0 <= i < |ds| ==> IsDigit(ds[i], radix)
    ensures |ds| < |s| ==> !IsDigit(s[|ds|], radix)
    decreases |s|
  {
    if s == [] || !IsDigit(s[0], radix) then [] else [s[0]] + DigitPrefix(s[1..], radix)
  }

  /** The number a digit string denotes, most significant digit first. */
  function DigitsValue(ds: string, radix: nat): nat
    decreases |ds|
  {
    if ds == [] then 0
    else DigitsValue(ds[..|ds| - 1], radix) * radix + DigitValue(ds[|ds| - 1])
  }

  /**
   * The unsigned part of `parseInt`: radix 16 after a `0x`/`0X` prefix, radix
   * 10 otherwise, then the longest run of digits; `None` when there is none.
   */
  function ParseUnsigned(u: string): Option<nat>
  {
    var hex := |u| >= 2 && u[0] == '0' && (u[1] == 'x' || u[1] == 'X');
    var radix := if hex then 16 else 10;
    var ds := DigitPrefix(if hex then u[2..] else u, radix);
    if ds == [] then None else Some(DigitsValue(ds, radix))
  }

  /**
   * `parseInt(s)`: skip leading white space, take an optional sign, then read
   * the unsigned part. `None` stands for NaN. A negative zero is the integer 0.
   */
  function ParseInt(s: string): Option<int>
  {
    var t := TrimStart(s);
    var signed := t != [] && (t[0] == '-' || t[0] == '+');
    match ParseUnsigned(if signed then t[1..] else t)
    case None => None
    case Some(v) => Some(if signed && t[0] == '-' then -(v as int) else v)
  }

  // ---------------------------------------------------------------------------
  // String(n) for an integer, String(b) for a boolean

  function DigitChar(d: nat): (c: char)
    requires d < 10
    ensures '0' <= c <= '9' && DigitValue(c) == d
  {
    ('0' as int + d) as char
  }

  /** Decimal text of a natural number, without leading zeros. */
  function NatText(n: nat): (r: string)
    ensures |r| >= 1
    ensures forall i :: 0 <= i < |r| ==> '0' <= r[i] <= '9'
    ensures r[0] == '0' ==> n == 0
    ensures n == 0 ==> r == "0"
    decreases n
  {
    if n < 10 then [DigitChar(n)] else NatText(n / 10) + [DigitChar(n % 10)]
  }

  /** `String(n)` for an integer `n` (plain decimal, `-` for negatives). */
  function IntText(n: int): string
  {
    if n < 0 then "-" + NatText(-n) else NatText(n)
  }

  /** `String(b)` for a boolean. */
  function BoolText(b: bool): string
  {
    if b then "true" else "false"
  }

  lemma {:induction false} DigitsValueOfNatText(n: nat)
    ensures DigitsValue(NatText(n), 10) == n
    decreases n
  {
    if n >= 10 {
      var r := NatText(n);
      DigitsValueOfNatText(n / 10);
      assert r[..|r| - 1] == NatText(n / 10);
    }
  }

  lemma {:induction false} DigitPrefixOfDigits(s: string, radix: nat)
    requires forall i :: 0 <= i < |s| ==> IsDigit(s[i], radix)
    ensures DigitPrefix(s, radix) == s
    decreases |s|
  {
    if s != [] {
      DigitPrefixOfDigits(s[1..], radix);
      assert s == [s[0]] + s[1..];
    }
  }

  /** The decimal digits of a natural number read back as that number. */
  lemma ParseNatText(n: nat)
    ensures DigitPrefix(NatText(n), 10) == NatText(n)
    ensures DigitsValue(NatText(n), 10) == n
  {
    var digits := NatText(n);
    forall i | 0 <= i < |digits| ensures IsDigit(digits[i], 10) {
      assert '0' <= digits[i] <= '9';
    }
    DigitPrefixOfDigits(digits, 10);
    DigitsValueOfNatText(n);
  }

  lemma SignOrDigitIsNotWhitespace(c: char)
    requires c == '-' || '0' <= c <= '9'
    ensures !IsJsWhitespace(c)
  {
  }

  lemma TrimStartKeeps(s: string)
    requires s != [] && !IsJsWhitespace(s[0])
    ensures TrimStart(s) == s
  {
  }

  lemma ParseUnsignedNatText(m: nat)
    ensures ParseUnsigned(NatText(m)) == Some(m)
  {
    ParseNatText(m);
    var digits := NatText(m);
    assert !(|digits| >= 2 && digits[0] == '0');
  }

  /** Round trip: `parseInt(String(n))` is `n` for every integer `n`. */
  lemma ParseIntOfIntText(n: int)
    ensures ParseInt(IntText(n)) == Some(n)
  {
    var s := IntText(n);
    var m: nat := if n < 0 then -n else n;
    ParseUnsignedNatText(m);
    SignOrDigitIsNotWhitespace(s[0]);
    TrimStartKeeps(s);
    if n < 0 {
      assert s[0] == '-' && s[1..] == NatText(m);
    } else {
      assert s == NatText(m) && s[0] != '-' && s[0] != '+';
    }
  }
}

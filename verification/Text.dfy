// Strings as the repository formats and compares them: code point order, decimal numbers.
module Text {

  datatype Option<+T> = None | Some(value: T)

  /** Lexicographic order, the order of Rust's `str` and byte slices. */
  predicate LexLess(a: seq<int>, b: seq<int>) {
    if b == [] then false
    else if a == [] then true
    else a[0] < b[0] || (a[0] == b[0] && LexLess(a[1..], b[1..]))
  }

  lemma {:induction false} LexTotal(a: seq<int>, b: seq<int>)
    ensures LexLess(a, b) || a == b || LexLess(b, a)
    ensures !(LexLess(a, b) && LexLess(b, a))
    ensures !LexLess(a, a)
  {
    if a != [] && b != [] {
      LexTotal(a[1..], b[1..]);
      assert a == [a[0]] + a[1..] && b == [b[0]] + b[1..];
    }
    if a != [] {
      LexTotal(a[1..], a[1..]);
    }
  }

  lemma {:induction false} LexTransitive(a: seq<int>, b: seq<int>, c: seq<int>)
    requires LexLess(a, b) && LexLess(b, c)
    ensures LexLess(a, c)
  {
    if a != [] && a[0] == b[0] == c[0] {
      LexTransitive(a[1..], b[1..], c[1..]);
    }
  }

  /** Comparing two texts block by block, when the leading blocks have one length. */
  lemma {:induction false} LexConcat(a: seq<int>, b: seq<int>, c: seq<int>, d: seq<int>)
    requires |a| == |b|
    requires LexLess(a, b) || (a == b && LexLess(c, d))
    ensures LexLess(a + c, b + d)
  {
    if a == [] {
      assert a + c == c && b + d == d;
    } else {
      assert (a + c)[1..] == a[1..] + c && (b + d)[1..] == b[1..] + d;
      if a[0] == b[0] {
        LexConcat(a[1..], b[1..], c, d);
      }
    }
  }

  function Codes(s: string): (r: seq<int>)
    ensures |r| == |s|
    ensures forall i :: 0 <= i < |s| ==> r[i] == s[i] as int
  {
    seq(|s|, i requires 0 <= i < |s| => s[i] as int)
  }

  predicate StrLess(a: string, b: string) {
    LexLess(Codes(a), Codes(b))
  }

  lemma CodesInjective(a: string, b: string)
    requires Codes(a) == Codes(b)
    ensures a == b
  {
    forall i | 0 <= i < |a| ensures a[i] == b[i] {
      assert Codes(a)[i] == Codes(b)[i];
    }
  }

  lemma StrTotal(a: string, b: string)
    ensures StrLess(a, b) || a == b || StrLess(b, a)
    ensures !(StrLess(a, b) && StrLess(b, a))
    ensures !StrLess(a, a)
  {
    LexTotal(Codes(a), Codes(b));
    if Codes(a) == Codes(b) { CodesInjective(a, b); }
  }

  lemma StrConcat(a: string, b: string, c: string, d: string)
    requires |a| == |b|
    requires StrLess(a, b) || (a == b && StrLess(c, d))
    ensures StrLess(a + c, b + d)
  {
    LexConcat(Codes(a), Codes(b), Codes(c), Codes(d));
    assert Codes(a + c) == Codes(a) + Codes(c);
    assert Codes(b + d) == Codes(b) + Codes(d);
  }

  function Digit(d: nat): (c: char)
    requires d < 10
    ensures '0' <= c <= '9'
  {
    '0' + d as char
  }

  predicate IsDigit(c: char) { '0' <= c <= '9' }

  predicate AllDigits(s: string) { forall i :: 0 <= i < |s| ==> IsDigit(s[i]) }

  /** Rust's `{}` of an unsigned integer. */
  function Dec(n: nat): (s: string)
    ensures |s| > 0 && AllDigits(s)
    ensures n > 0 ==> s[0] != '0'
  {
    if n < 10 then [Digit(n)] else Dec(n / 10) + [Digit(n % 10)]
  }

  /** The number a string of decimal digits denotes. */
  function ReadDec(s: string): nat
    requires AllDigits(s)
  {
    if s == [] then 0
    else 10 * ReadDec(s[..|s| - 1]) + (s[|s| - 1] as int - '0' as int)
  }

  lemma {:induction false} ReadDecOfDec(n: nat)
    ensures ReadDec(Dec(n)) == n
  {
    if n >= 10 {
      ReadDecOfDec(n / 10);
      assert Dec(n)[..|Dec(n)| - 1] == Dec(n / 10);
    }
  }

  lemma DecInjective(m: nat, n: nat)
    requires Dec(m) == Dec(n)
    ensures m == n
  {
    ReadDecOfDec(m);
    ReadDecOfDec(n);
  }

  /** The last `w` decimal digits of `n`, Rust's `{:0w}` when `n` has no more than `w`. */
  function Digits(n: nat, w: nat): (s: string)
    ensures |s| == w && AllDigits(s)
  {
    if w == 0 then "" else Digits(n / 10, w - 1) + [Digit(n % 10)]
  }

  function Pow10(w: nat): nat { if w == 0 then 1 else 10 * Pow10(w - 1) }

  lemma {:induction false} ReadDecOfDigits(n: nat, w: nat)
    requires n < Pow10(w)
    ensures ReadDec(Digits(n, w)) == n
  {
    if w > 0 {
      ReadDecOfDigits(n / 10, w - 1);
      assert Digits(n, w)[..w - 1] == Digits(n / 10, w - 1);
    }
  }

  lemma {:induction false} DigitsOrder(m: nat, n: nat, w: nat)
    requires m < n < Pow10(w)
    ensures StrLess(Digits(m, w), Digits(n, w))
  {
    if m / 10 < n / 10 {
      DigitsOrder(m / 10, n / 10, w - 1);
    } else {
      var a, b := [Digit(m % 10)], [Digit(n % 10)];
      assert Codes(a)[0] < Codes(b)[0];
    }
    StrConcat(Digits(m / 10, w - 1), Digits(n / 10, w - 1), [Digit(m % 10)], [Digit(n % 10)]);
  }

  /** `{:0w}`: the decimal text padded with zeros to at least `w` characters. */
  function Pad(n: nat, w: nat): string {
    var s := Dec(n);
    if |s| >= w then s else seq(w - |s|, _ => '0') + s
  }

  lemma {:induction false} PadIsDigits(n: nat, w: nat)
    requires n < Pow10(w) && w > 0
    ensures Pad(n, w) == Digits(n, w)
  {
    if w == 1 {
      assert Digits(n, w) == Digits(n / 10, 0) + [Digit(n % 10)];
      assert n < 10;
    } else if n < 10 {
      PadIsDigits(0, w - 1);
      assert Pad(n, w) == Pad(0, w - 1) + [Digit(n)];
    } else {
      PadIsDigits(n / 10, w - 1);
      assert Pad(n, w) == Pad(n / 10, w - 1) + [Digit(n % 10)];
    }
  }

  lemma {:induction false} DecLength(n: nat, w: nat)
    requires n >= Pow10(w)
    ensures |Dec(n)| > w
  {
    if w > 0 {
      assert Pow10(w) == 10 * Pow10(w - 1) >= 10 by { Pow10Positive(w - 1); }
      DecLength(n / 10, w - 1);
    }
  }

  lemma {:induction false} Pow10Positive(w: nat)
    ensures Pow10(w) >= 1
  {
    if w > 0 { Pow10Positive(w - 1); }
  }

  // ---- counting ----

  function Below(n: nat): (s: set<nat>)
    ensures |s| == n
    ensures forall c: nat :: c in s <==> c < n
  {
    if n == 0 then {} else Below(n - 1) + {n - 1}
  }

  // ---- hexadecimal ----

  function HexChar(d: nat): (c: char)
    requires d < 16
  {
    if d < 10 then '0' + d as char else 'a' + (d - 10) as char
  }

  function HexCharValue(c: char): Option<nat> {
    if '0' <= c <= '9' then Some(c as int - '0' as int)
    else if 'a' <= c <= 'f' then Some(c as int - 'a' as int + 10)
    else None
  }

  /** Rust's `{:x}`. */
  function Hex(n: nat): string { if n < 16 then [HexChar(n)] else Hex(n / 16) + [HexChar(n % 16)] }

  /** Rust's `{:02x}`. */
  function Hex2(n: nat): string { if n < 16 then "0" + Hex(n) else Hex(n) }

  function ReadHex(s: string): Option<nat> {
    if s == [] then Some(0)
    else
      match (ReadHex(s[..|s| - 1]), HexCharValue(s[|s| - 1]))
      case (Some(n), Some(d)) => Some(16 * n + d)
      case _ => None
  }

  lemma {:induction false} ReadHexOfHex(n: nat)
    ensures ReadHex(Hex(n)) == Some(n) && |Hex(n)| > 0
  {
    if n < 16 {
      assert Hex(n)[..0] == [];
    } else {
      ReadHexOfHex(n / 16);
      assert Hex(n)[..|Hex(n)| - 1] == Hex(n / 16);
    }
  }

  lemma ReadHexOfHex2(n: nat)
    ensures ReadHex(Hex2(n)) == Some(n) && |Hex2(n)| > 0
  {
    ReadHexOfHex(n);
    if n < 16 {
      var s := "0" + Hex(n);
      assert s[..1] == "0" && "0"[..0] == [];
      assert ReadHex("0") == Some(0);
    }
  }

  lemma {:induction false} HexChars(n: nat)
    ensures forall c :: c in Hex(n) ==> HexCharValue(c).Some?
  {
    if n >= 16 { HexChars(n / 16); }
  }

  // ---- splitting ----

  /** The pieces between the separators: `split` of Rust. */
  function SplitOn(s: string, sep: char): (r: seq<string>)
    ensures |r| > 0
  {
    if s == [] then [""]
    else
      var rest := SplitOn(s[1..], sep);
      if s[0] == sep then [""] + rest else [[s[0]] + rest[0]] + rest[1..]
  }

  lemma {:induction false} SplitPiece(w: string, rest: string, sep: char)
    requires sep !in w
    ensures SplitOn(w + [sep] + rest, sep) == [w] + SplitOn(rest, sep)
  {
    var s := w + [sep] + rest;
    if w == [] {
      assert s == [sep] + rest;
      assert s[1..] == rest;
    } else {
      SplitPiece(w[1..], rest, sep);
      assert s[1..] == w[1..] + [sep] + rest;
      assert w == [w[0]] + w[1..];
    }
  }

  lemma {:induction false} SplitLast(w: string, sep: char)
    requires sep !in w
    ensures SplitOn(w, sep) == [w]
  {
    if w != [] {
      SplitLast(w[1..], sep);
      assert w == [w[0]] + w[1..];
    }
  }
}

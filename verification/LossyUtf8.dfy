// Rust's lossy decoding: every longest part that cannot belong to a character becomes U+FFFD.
module LossyUtf8 {
  import opened Text
  import opened Bytes

  const REPLACEMENT: char := '\U{fffd}'

  function Low(b: byte, mark: int): int { b - mark }

  /** The number of the character that a byte string begins with. */
  function CharNumber(s: bytes): (n: nat)
    requires CharLen(s) > 0
    ensures n < 0xD800 || 0xE000 <= n < 0x110000
    ensures s[0] < 0x80 ==> n == s[0]
    ensures s[0] >= 0x80 ==> n >= 0x80
  {
    if s[0] < 0x80 then s[0]
    else if s[0] < 0xE0 then Low(s[0], 0xC0) * 64 + Low(s[1], 0x80)
    else if s[0] < 0xF0 then Low(s[0], 0xE0) * 4096 + Low(s[1], 0x80) * 64 + Low(s[2], 0x80)
    else Low(s[0], 0xF0) * 262144 + Low(s[1], 0x80) * 4096 + Low(s[2], 0x80) * 64 + Low(s[3], 0x80)
  }

  /** How much of a byte string that begins with no character is replaced at once: a lead byte goes with
      the bytes after it that could still have continued it. */
  function BadLen(s: bytes): (r: nat)
    requires s != [] && CharLen(s) == 0
    ensures 1 <= r <= 3 && r <= |s|
    ensures forall i :: 0 < i < r ==> 0x80 <= s[i] <= 0xBF
  {
    if 0xE0 <= s[0] <= 0xEF then
      (if Continues(s, 1, if s[0] == 0xE0 then 0xA0 else 0x80, if s[0] == 0xED then 0x9F else 0xBF) then 2 else 1)
    else if 0xF0 <= s[0] <= 0xF4 then
      (if !Continues(s, 1, if s[0] == 0xF0 then 0x90 else 0x80, if s[0] == 0xF4 then 0x8F else 0xBF) then 1
       else if Continues(s, 2, 0x80, 0xBF) then 3 else 2)
    else 1
  }

  /** Some well-formed character begins with these bytes. */
  ghost predicate Continuable(s: bytes) { exists t: bytes :: CharLen(s + t) >= |s| && CharLen(s + t) > 0 }

  lemma ContinuesWith(s: bytes, t: bytes)
    requires CharLen(s + t) >= |s| && CharLen(s + t) > 0
    ensures Continuable(s)
  {
  }

  lemma TwoOfThree(s: bytes)
    requires |s| >= 2 && 0xE0 <= s[0] <= 0xEF
    ensures Continuable(s[..2]) <==>
      Continues(s, 1, if s[0] == 0xE0 then 0xA0 else 0x80, if s[0] == 0xED then 0x9F else 0xBF)
  {
    var a := s[..2];
    assert (a + [0x80])[0] == s[0] && (a + [0x80])[1] == s[1] && (a + [0x80])[2] == 0x80;
    if Continues(s, 1, if s[0] == 0xE0 then 0xA0 else 0x80, if s[0] == 0xED then 0x9F else 0xBF) {
      ContinuesWith(a, [0x80]);
    }
    if t: bytes :| CharLen(a + t) >= |a| && CharLen(a + t) > 0 { assert (a + t)[0] == s[0] && (a + t)[1] == s[1]; }
  }

  lemma PartOfFour(s: bytes, n: nat)
    requires 2 <= n <= 3 && |s| >= n && 0xF0 <= s[0] <= 0xF4
    ensures Continuable(s[..n]) <==>
      Continues(s, 1, if s[0] == 0xF0 then 0x90 else 0x80, if s[0] == 0xF4 then 0x8F else 0xBF)
      && (n == 3 ==> Continues(s, 2, 0x80, 0xBF))
  {
    var a, more := s[..n], if n == 2 then [0x80, 0x80] else [0x80];
    assert (a + more)[0] == s[0] && (a + more)[1] == s[1] && (n == 3 ==> (a + more)[2] == s[2]);
    if Continues(s, 1, if s[0] == 0xF0 then 0x90 else 0x80, if s[0] == 0xF4 then 0x8F else 0xBF)
       && (n == 3 ==> Continues(s, 2, 0x80, 0xBF))
    {
      ContinuesWith(a, more);
    }
    if t: bytes :| CharLen(a + t) >= |a| && CharLen(a + t) > 0 {
      assert (a + t)[0] == s[0] && (a + t)[1] == s[1] && (n == 3 ==> (a + t)[2] == s[2]);
    }
  }

  /** Nothing longer than a lead byte allows can be continued. */
  lemma TooLong(s: bytes, n: nat)
    requires CharLen(s) == 0 && 0 < n <= |s| && Continuable(s[..n]) && n > 1
    ensures (0xE0 <= s[0] <= 0xEF && n == 2) || (0xF0 <= s[0] <= 0xF4 && n <= 3)
  {
    var a := s[..n];
    var t: bytes :| CharLen(a + t) >= |a| && CharLen(a + t) > 0;
    assert forall i :: 0 <= i < n ==> (a + t)[i] == s[i];
  }

  /** What is replaced at once is the longest part that some character could have begun with, or one byte if there
      is none. */
  lemma ReplacedPart(s: bytes, n: nat)
    requires s != [] && CharLen(s) == 0 && 0 < n <= |s|
    ensures n > BadLen(s) ==> !Continuable(s[..n])
    ensures n == BadLen(s) > 1 ==> Continuable(s[..n])
  {
    if n > 1 && 0xE0 <= s[0] <= 0xEF { TwoOfThree(s); }
    if n > 1 && 0xF0 <= s[0] <= 0xF4 && n <= 3 { PartOfFour(s, n); }
    if n > 1 && Continuable(s[..n]) { TooLong(s, n); }
  }

  /** The bytes that make the first character of the decoded text, and that character. */
  function PieceLen(s: bytes): (r: nat)
    requires s != []
    ensures 1 <= r <= 4 && r <= |s|
  {
    if CharLen(s) > 0 then CharLen(s) else BadLen(s)
  }

  lemma PieceRest(s: bytes, i: nat)
    requires s != [] && 0 < i < PieceLen(s)
    ensures 0x80 <= s[i] <= 0xBF
  {
  }

  function PieceChar(s: bytes): (c: char)
    requires s != []
    ensures if s[0] < 0x80 then c as int == s[0] && PieceLen(s) == 1 else c as int >= 0x80
  {
    if CharLen(s) > 0 then CharNumber(s) as char else REPLACEMENT
  }

  function Decode(s: bytes): string
    decreases |s|
  {
    if s == [] then "" else [PieceChar(s)] + Decode(s[PieceLen(s)..])
  }

  lemma DecodeStep(s: bytes)
    requires s != []
    ensures Decode(s) == [PieceChar(s)] + Decode(s[PieceLen(s)..])
    ensures Decode(s)[0] == PieceChar(s) && Decode(s)[1..] == Decode(s[PieceLen(s)..])
    ensures s == s[..PieceLen(s)] + s[PieceLen(s)..]
    ensures 0x80 <= s[0] <= 0xBF ==> PieceLen(s) == 1 && PieceChar(s) == REPLACEMENT
  {
  }

  lemma DecodeNothing()
    ensures Decode([]) == ""
  {
  }

  // ---- against encoding ----

  function Encode(text: string): bytes {
    if text == "" then [] else EncodeChar(text[0] as int) + Encode(text[1..])
  }

  /** Taking a number apart in sixes of bits gives its parts back. */
  lemma Parts(a: nat, b: nat, c: nat, d: nat)
    requires b < 64 && c < 64 && d < 64
    ensures (a * 64 + b) / 64 == a && (a * 64 + b) % 64 == b
    ensures var n := a * 4096 + b * 64 + c; n / 4096 == a && n / 64 % 64 == b && n % 64 == c
    ensures var n := a * 262144 + b * 4096 + c * 64 + d;
      n / 262144 == a && n / 4096 % 64 == b && n / 64 % 64 == c && n % 64 == d
  {
  }

  lemma EncodeTwo(s: bytes)
    requires CharLen(s) > 0 && 0x80 <= s[0] < 0xE0
    ensures EncodeChar(CharNumber(s)) == s[..CharLen(s)]
  {
    Parts(Low(s[0], 0xC0), Low(s[1], 0x80), 0, 0);
  }

  lemma EncodeThree(s: bytes)
    requires CharLen(s) > 0 && 0xE0 <= s[0] < 0xF0
    ensures EncodeChar(CharNumber(s)) == s[..CharLen(s)]
  {
    Parts(Low(s[0], 0xE0), Low(s[1], 0x80), Low(s[2], 0x80), 0);
  }

  lemma EncodeFour(s: bytes)
    requires CharLen(s) > 0 && 0xF0 <= s[0]
    ensures EncodeChar(CharNumber(s)) == s[..CharLen(s)]
  {
    Parts(Low(s[0], 0xF0), Low(s[1], 0x80), Low(s[2], 0x80), Low(s[3], 0x80));
  }

  lemma EncodeFirst(s: bytes)
    requires CharLen(s) > 0
    ensures EncodeChar(CharNumber(s)) == s[..CharLen(s)]
  {
    if s[0] >= 0xF0 {
      EncodeFour(s);
    } else if s[0] >= 0xE0 {
      EncodeThree(s);
    } else if s[0] >= 0x80 {
      EncodeTwo(s);
    }
  }

  lemma EncodedShort(n: nat, rest: bytes)
    requires n < 0x800
    ensures CharLen(EncodeChar(n) + rest) == |EncodeChar(n)| > 0
  {
  }

  lemma EncodedThree(n: nat, rest: bytes)
    requires 0x800 <= n < 0xD800 || 0xE000 <= n < 0x10000
    ensures CharLen(EncodeChar(n) + rest) == |EncodeChar(n)| > 0
  {
  }

  lemma EncodedFour(n: nat, rest: bytes)
    requires 0x10000 <= n < 0x110000
    ensures CharLen(EncodeChar(n) + rest) == |EncodeChar(n)| > 0
  {
  }

  lemma EncodedLen(n: nat, rest: bytes)
    requires n < 0xD800 || 0xE000 <= n < 0x110000
    ensures CharLen(EncodeChar(n) + rest) == |EncodeChar(n)| > 0
  {
    hide CharLen, EncodeChar;
    if n < 0x800 {
      EncodedShort(n, rest);
    } else if n < 0x10000 {
      EncodedThree(n, rest);
    } else {
      EncodedFour(n, rest);
    }
  }

  lemma {:induction false} EncodeIsUtf8(text: string)
    ensures ValidUtf8(Encode(text))
  {
    if text != "" {
      hide EncodeChar, CharLen;
      var n := text[0] as int;
      EncodedLen(n, Encode(text[1..]));
      EncodeIsUtf8(text[1..]);
      assert (EncodeChar(n) + Encode(text[1..]))[|EncodeChar(n)|..] == Encode(text[1..]);
    }
  }

  lemma {:induction false} EncodeOfDecode(s: bytes)
    requires ValidUtf8(s)
    ensures Encode(Decode(s)) == s
    decreases |s|
  {
    if s != [] {
      EncodeFirst(s);
      DecodeStep(s);
      hide EncodeChar, CharLen, CharNumber, Decode;
      EncodeOfDecode(s[PieceLen(s)..]);
    }
  }

  /** Decoding loses something exactly when the bytes are not UTF-8. */
  lemma DecodeLosesNothing(s: bytes)
    ensures Encode(Decode(s)) == s <==> ValidUtf8(s)
  {
    EncodeIsUtf8(Decode(s));
    if ValidUtf8(s) { EncodeOfDecode(s); }
  }

  // ---- decoding the end of something ----

  function Replacements(n: nat): (s: string)
    ensures |s| == n && forall c :: c in s ==> c == REPLACEMENT
  {
    seq(n, _ => REPLACEMENT)
  }

  /** A cut piece decodes to one replacement character for each byte that is left of it. */
  lemma {:induction false} CutPiece(s: bytes, i: nat)
    requires s != [] && 0 < i <= PieceLen(s)
    ensures Decode(s[i..]) == Replacements(PieceLen(s) - i) + Decode(s[PieceLen(s)..])
    decreases PieceLen(s) - i
  {
    hide Decode, PieceLen, PieceChar;
    var n := PieceLen(s) - i;
    if n > 0 {
      assert s[i..][0] == s[i];
      PieceRest(s, i);
      DecodeStep(s[i..]);
      CutPiece(s, i + 1);
      assert s[i..][1..] == s[i + 1..];
      assert Replacements(n) == [REPLACEMENT] + Replacements(n - 1);
    }
  }

  predicate IsSuffix<T(==)>(a: seq<T>, b: seq<T>) { |a| <= |b| && a == b[|b| - |a|..] }

  lemma NothingCut(s: bytes)
    ensures Decode(s[0..]) == Replacements(0) + Decode(s) && s[0..] == s && IsSuffix(Decode(s), Decode(s))
  {
    hide Decode;
  }

  lemma SuffixStep<T>(a: seq<T>, whole: seq<T>, end: seq<T>)
    ensures IsSuffix(end, whole) ==> IsSuffix(end, a + whole)
    ensures IsSuffix(whole, whole)
  {
  }

  lemma CutFurther(s: bytes, l: nat, k: nat, n: nat)
    requires l <= k <= l + n <= |s|
    requires Decode(s[l..][k - l..]) == Replacements(l + n - k) + Decode(s[l..][n..])
    ensures Decode(s[k..]) == Replacements(l + n - k) + Decode(s[l + n..])
  {
    assert s[l..][k - l..] == s[k..] && s[l..][n..] == s[l + n..];
  }

  lemma SuffixFurther(s: bytes, l: nat, n: nat, c: char)
    requires l + n <= |s| && IsSuffix(Decode(s[l..][n..]), Decode(s[l..]))
    ensures IsSuffix(Decode(s[l + n..]), [c] + Decode(s[l..]))
  {
    assert s[l..][n..] == s[l + n..];
    SuffixStep([c], Decode(s[l..]), Decode(s[l + n..]));
  }

  /**
   * Decoding from any byte `k` on gives at most three replacement characters, for the rest of a piece that
   * was cut, and then an end of the decoded whole.
   */
  lemma {:induction false} DecodeOfEnd(s: bytes, k: nat) returns (m: nat)
    requires k <= |s|
    ensures k <= m <= |s| && m - k <= 3
    ensures Decode(s[k..]) == Replacements(m - k) + Decode(s[m..])
    ensures IsSuffix(Decode(s[m..]), Decode(s))
    decreases |s|
  {
    hide Decode, PieceLen, PieceChar, Replacements, IsSuffix;
    if k == 0 {
      NothingCut(s);
      m := 0;
    } else {
      DecodeStep(s);
      var l := PieceLen(s);
      if k <= l {
        CutPiece(s, k);
        SuffixStep([PieceChar(s)], Decode(s[l..]), Decode(s[l..]));
        m := l;
      } else {
        var n := DecodeOfEnd(s[l..], k - l);
        CutFurther(s, l, k, n);
        SuffixFurther(s, l, n, PieceChar(s));
        m := l + n;
      }
    }
  }

  // ---- ASCII within ----

  predicate IsAscii(s: string) { forall i :: 0 <= i < |s| ==> s[i] < 128 as char }

  lemma AsciiStep(pattern: string)
    requires IsAscii(pattern) && pattern != ""
    ensures IsAscii(pattern[1..]) && pattern == [pattern[0]] + pattern[1..]
    ensures Ascii(pattern) == [pattern[0] as int] + Ascii(pattern[1..]) && pattern[0] as int < 128
  {
    hide Ascii;
    var a, b := Ascii(pattern), Ascii(pattern[1..]);
    assert a[1..] == b;
    assert a == [a[0]] + a[1..];
  }

  lemma PrefixStep<T>(x: T, xs: seq<T>, y: T, ys: seq<T>)
    ensures [x] + xs <= [y] + ys <==> x == y && xs <= ys
  {
    var a, b := [x] + xs, [y] + ys;
    if x == y && xs <= ys { assert b == a + ys[|xs|..]; }
    if a <= b {
      assert a == b[..|a|] && a[0] == b[0];
      assert xs == a[1..] == b[1..|a|] == ys[..|xs|];
    }
  }

  lemma {:induction false} AsciiPrefix(s: bytes, pattern: string)
    requires IsAscii(pattern)
    ensures pattern <= Decode(s) <==> Ascii(pattern) <= s
  {
    hide Decode, PieceLen, PieceChar, Ascii;
    if pattern == "" {
    } else if s == [] {
      DecodeNothing();
    } else {
      AsciiStep(pattern);
      DecodeStep(s);
      AsciiPrefix(s[1..], pattern[1..]);
      PrefixStep(pattern[0], pattern[1..], PieceChar(s), Decode(s[PieceLen(s)..]));
      PrefixStep(pattern[0] as int, Ascii(pattern[1..]), s[0], s[1..]);
      assert s == [s[0]] + s[1..];
    }
  }

  predicate At<T(==)>(s: seq<T>, pattern: seq<T>, i: nat) { i + |pattern| <= |s| && s[i..i + |pattern|] == pattern }

  lemma AtShifted<T>(a: seq<T>, s: seq<T>, pattern: seq<T>, i: nat)
    ensures At(a + s, pattern, |a| + i) <==> At(s, pattern, i)
  {
    if i + |pattern| <= |s| {
      assert (a + s)[|a| + i..|a| + i + |pattern|] == s[i..i + |pattern|];
    }
  }

  lemma AtTail<T>(x: T, s: seq<T>, pattern: seq<T>, i: nat)
    requires i > 0
    ensures At([x] + s, pattern, i) <==> At(s, pattern, i - 1)
  {
    AtShifted([x], s, pattern, i - 1);
  }

  lemma AtStart<T>(s: seq<T>, pattern: seq<T>)
    ensures At(s, pattern, 0) <==> pattern <= s
  {
  }

  lemma NotInNothing(pattern: string, i: nat)
    requires pattern != ""
    ensures !At(Decode([]), pattern, i)
  {
  }

  lemma {:induction false} CharsInBytes(s: bytes, pattern: string, i: nat) returns (p: nat)
    requires IsAscii(pattern) && pattern != "" && At(Decode(s), pattern, i)
    ensures At(s, Ascii(pattern), p)
    decreases |s|
  {
    hide Decode, PieceLen, PieceChar, Ascii, At;
    NotInNothing(pattern, i);
    if i == 0 {
      AtStart(Decode(s), pattern);
      AsciiPrefix(s, pattern);
      AtStart(s, Ascii(pattern));
      p := 0;
    } else {
      DecodeStep(s);
      var l := PieceLen(s);
      AtTail(PieceChar(s), Decode(s[l..]), pattern, i);
      p := CharsInBytes(s[l..], pattern, i - 1);
      AtShifted(s[..l], s[l..], Ascii(pattern), p);
      p := l + p;
    }
  }

  lemma StartsAscii(s: bytes, pattern: string, p: nat)
    requires IsAscii(pattern) && pattern != "" && At(s, Ascii(pattern), p)
    ensures p < |s| && s[p] < 128
  {
    assert s[p] == s[p..p + |pattern|][0] == Ascii(pattern)[0];
  }

  lemma {:induction false} BytesInChars(s: bytes, pattern: string, p: nat) returns (i: nat)
    requires IsAscii(pattern) && pattern != "" && At(s, Ascii(pattern), p)
    ensures At(Decode(s), pattern, i)
    decreases |s|
  {
    hide Decode, PieceLen, PieceChar, Ascii, At;
    StartsAscii(s, pattern, p);
    if p == 0 {
      AtStart(Decode(s), pattern);
      AsciiPrefix(s, pattern);
      AtStart(s, Ascii(pattern));
      i := 0;
    } else {
      DecodeStep(s);
      var l := PieceLen(s);
      if p < l { PieceRest(s, p); }
      AtShifted(s[..l], s[l..], Ascii(pattern), p - l);
      i := BytesInChars(s[l..], pattern, p - l);
      AtTail(PieceChar(s), Decode(s[l..]), pattern, i + 1);
      i := i + 1;
    }
  }

  /** ASCII text is found in the decoded form exactly when its bytes are in the string. */
  lemma AsciiFound(s: bytes, pattern: string)
    requires IsAscii(pattern) && pattern != ""
    ensures (exists i: nat :: At(Decode(s), pattern, i)) <==> exists p: nat :: At(s, Ascii(pattern), p)
  {
    hide At, Ascii, Decode;
    if i: nat :| At(Decode(s), pattern, i) {
      var p := CharsInBytes(s, pattern, i);
    }
    if p: nat :| At(s, Ascii(pattern), p) {
      var i := BytesInChars(s, pattern, p);
    }
  }

  /** An ASCII byte ends whatever was begun before it. */
  lemma {:induction false} DecodeBefore(a: bytes, rest: bytes)
    requires rest != [] && rest[0] < 0x80
    ensures Decode(a + rest) == Decode(a) + Decode(rest)
    decreases |a|
  {
    hide Decode, PieceLen, PieceChar;
    if a == [] {
      assert a + rest == rest;
      DecodeNothing();
    } else {
      SamePiece(a, rest);
      DecodeStep(a);
      DecodeStep(a + rest);
      var l := PieceLen(a);
      DropConcat(a, rest, l);
      DecodeBefore(a[l..], rest);
      Regroup([PieceChar(a)], Decode(a[l..]), Decode(rest));
    }
  }

  lemma DropConcat<T>(a: seq<T>, b: seq<T>, l: nat)
    requires l <= |a|
    ensures (a + b)[l..] == a[l..] + b
  {
  }

  lemma Regroup<T>(a: seq<T>, b: seq<T>, c: seq<T>)
    ensures a + (b + c) == a + b + c
  {
  }

  lemma SamePiece(a: bytes, rest: bytes)
    requires a != [] && rest != [] && rest[0] < 0x80
    ensures PieceLen(a + rest) == PieceLen(a) && PieceChar(a + rest) == PieceChar(a)
  {
  }
}

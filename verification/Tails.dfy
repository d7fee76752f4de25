// Reading only the end of a console log: its last lines, and the last tunnel report in it.
module Tails {
  import opened Text
  import opened Bytes
  import opened LossyUtf8

  const TAIL_WINDOW_BYTES: nat := 64 * 1024

  const LF: byte := 10
  const CR: byte := 13

  // ---- lines ----

  function Find(s: bytes, b: byte): (r: Option<nat>)
    ensures r.Some? ==> r.value < |s| && s[r.value] == b && forall i :: 0 <= i < r.value ==> s[i] != b
    ensures r.None? ==> b !in s
  {
    if s == [] then None
    else if s[0] == b then Some(0)
    else
      var r := Find(s[1..], b);
      if r.None? then None else Some(r.value + 1)
  }

  function StripCr(s: bytes): bytes { if s != [] && s[|s| - 1] == CR then s[..|s| - 1] else s }

  /** Rust's `lines`: a line ends with LF or CR LF, and the last one may go without. */
  function Lines(s: bytes): seq<bytes>
    decreases |s|
  {
    if s == [] then []
    else
      match Find(s, LF)
      case None => [s]
      case Some(i) => [StripCr(s[..i])] + Lines(s[i + 1..])
  }

  function Last<T>(s: seq<T>, n: nat): seq<T> { if |s| <= n then s else s[|s| - n..] }

  /** Text up to and including a line feed contributes its own lines, whatever follows. */
  lemma {:induction false} LinesOfConcat(a: bytes, b: bytes)
    requires a != [] && a[|a| - 1] == LF
    ensures Lines(a + b) == Lines(a) + Lines(b) && Lines(a) != []
    decreases |a|
  {
    hide Find, Lines, StripCr;
    assert a[|a| - 1] in a;
    FindInConcat(a, b);
    var i := Find(a, LF).value;
    CutConcat(a, b, i);
    LinesStep(a, i);
    LinesStep(a + b, i);
    LinesOfNothing();
    var rest := a[i + 1..];
    if rest == [] {
      assert rest + b == b;
    } else {
      LinesOfConcat(rest, b);
    }
    Regroup([StripCr(a[..i])], Lines(rest), Lines(b));
  }

  lemma CutConcat(a: bytes, b: bytes, i: nat)
    requires i < |a|
    ensures (a + b)[..i] == a[..i] && (a + b)[i + 1..] == a[i + 1..] + b
    ensures a[i + 1..] != [] ==> a[i + 1..][|a[i + 1..]| - 1] == a[|a| - 1]
  {
  }

  lemma LinesStep(s: bytes, i: nat)
    requires Find(s, LF) == Some(i)
    ensures Lines(s) == [StripCr(s[..i])] + Lines(s[i + 1..])
  {
  }

  lemma LinesOfNothing()
    ensures Lines([]) == []
  {
  }

  lemma {:induction false} FindInConcat(a: bytes, b: bytes)
    requires LF in a
    ensures Find(a, LF).Some? && Find(a + b, LF) == Find(a, LF)
  {
    if a[0] != LF {
      assert a == [a[0]] + a[1..];
      FindInConcat(a[1..], b);
      assert (a + b)[1..] == a[1..] + b;
    }
  }

  /** What splitting into lines means: each line is followed by LF or by CR LF, and only the last may be by
      nothing, but then it is not empty. */
  predicate SplitsInto(s: bytes, lines: seq<bytes>)
    decreases |lines|
  {
    if lines == [] then s == []
    else
      var l := lines[0];
      && l <= s && LF !in l
      && (|| (s == l && l != [] && |lines| == 1)
          || (|s| > |l| && s[|l|] == LF && (l == [] || l[|l| - 1] != CR) && SplitsInto(s[|l| + 1..], lines[1..]))
          || (|s| > |l| + 1 && s[|l|] == CR && s[|l| + 1] == LF && SplitsInto(s[|l| + 2..], lines[1..])))
  }

  lemma OneMoreLine(l: bytes, end: bytes, rest: bytes, more: seq<bytes>)
    requires LF !in l && SplitsInto(rest, more)
    requires end == [CR, LF] || (end == [LF] && (l == [] || l[|l| - 1] != CR))
    ensures SplitsInto(l + end + rest, [l] + more)
  {
    var s := l + end + rest;
    assert s[|l| + |end|..] == rest && ([l] + more)[1..] == more;
    assert s[..|l|] == l && s[|l|] == end[0] && (|end| == 2 ==> s[|l| + 1] == end[1]);
  }

  lemma {:induction false} LinesSplit(s: bytes)
    ensures SplitsInto(s, Lines(s))
    decreases |s|
  {
    if LF in s {
      var i := Find(s, LF).value;
      LinesStep(s, i);
      LinesSplit(s[i + 1..]);
      hide Find, Lines, SplitsInto, StripCr;
      StripEnd(s, i);
      var end := if i > 0 && s[i - 1] == CR then [CR, LF] else [LF];
      OneMoreLine(StripCr(s[..i]), end, s[i + 1..], Lines(s[i + 1..]));
    }
  }

  lemma StripEnd(s: bytes, i: nat)
    requires i < |s| && s[i] == LF && LF !in s[..i]
    ensures var l, end := StripCr(s[..i]), if i > 0 && s[i - 1] == CR then [CR, LF] else [LF];
      && LF !in l && s == l + end + s[i + 1..]
      && (end == [LF] ==> l == [] || l[|l| - 1] != CR)
  {
    if i > 0 { assert s[..i][i - 1] == s[i - 1]; }
  }

  // ---- the tail of a file ----

  /** The part of the file that is shown: all of it when it fits the window, otherwise what follows the
      first line break in the window. */
  function Visible(file: bytes, window: nat): bytes {
    if |file| <= window then file
    else
      match Find(file[|file| - window..], LF)
      case None => []
      case Some(i) => file[|file| - window + i + 1..]
  }

  function TailLines(file: bytes, window: nat, n: nat): seq<bytes> { Last(Lines(Visible(file, window)), n) }

  lemma LastOfSuffix<T>(a: seq<T>, b: seq<T>, n: nat)
    ensures IsSuffix(Last(b, n), Last(a + b, n))
    ensures Last(b, n) == Last(a + b, n) <==> n <= |b| || a == []
  {
    var whole := a + b;
    if |b| >= n {
      assert whole[|whole| - n..] == b[|b| - n..];
    } else if |whole| <= n {
      assert whole[|whole| - |b|..] == b;
    } else {
      assert whole[|whole| - n..][n - |b|..] == b;
    }
    if a == [] { assert whole == b; }
  }

  lemma SplitAfter(file: bytes, p: nat)
    requires p < |file| && file[p] == LF
    ensures var a, b := file[..p + 1], file[p + 1..]; file == a + b && a != [] && a[|a| - 1] == LF
  {
  }

  lemma VisibleAt(file: bytes, window: nat) returns (p: nat)
    requires |file| > window && LF in file[|file| - window..]
    ensures p < |file| && file[p] == LF && Visible(file, window) == file[p + 1..]
  {
    hide Find;
    p := |file| - window + Find(file[|file| - window..], LF).value;
  }

  /** What precedes the visible part ends in a line break. */
  lemma VisibleSplit(file: bytes, window: nat)
    requires |file| > window && LF in file[|file| - window..]
    ensures |Visible(file, window)| <= |file|
    ensures var b := Visible(file, window); var a := file[..|file| - |b|];
      file == a + b && a != [] && a[|a| - 1] == LF
  {
    var p := VisibleAt(file, window);
    hide Visible;
    SplitAfter(file, p);
    assert |file| - |Visible(file, window)| == p + 1;
  }

  /**
   * The lines shown are always a suffix of the last `n` lines of the whole file, and all of them exactly
   * when the file fits the window or they and a line break before them do.
   */
  lemma TailRefinesFile(file: bytes, window: nat, n: nat)
    ensures IsSuffix(TailLines(file, window, n), Last(Lines(file), n))
    ensures TailLines(file, window, n) == Last(Lines(file), n) <==>
      || |file| <= window || n == 0
      || exists p :: |file| - window <= p < |file| && file[p] == LF && |Lines(file[p + 1..])| >= n
  {
    hide Lines, Visible, Last, IsSuffix;
    if |file| > window {
      if LF in file[|file| - window..] {
        TailAfterBreak(file, window, n);
        MoreVisible(file, window, n);
      } else {
        NoBreak(file, window);
        NothingVisible(file, window, n);
      }
    } else {
      AllVisible(file, window, n);
    }
  }

  lemma AllVisible(file: bytes, window: nat, n: nat)
    requires |file| <= window
    ensures TailLines(file, window, n) == Last(Lines(file), n)
    ensures IsSuffix(TailLines(file, window, n), Last(Lines(file), n))
  {
    hide Lines, Last;
  }

  lemma TailAfterBreak(file: bytes, window: nat, n: nat)
    requires |file| > window && LF in file[|file| - window..]
    ensures IsSuffix(TailLines(file, window, n), Last(Lines(file), n))
    ensures TailLines(file, window, n) == Last(Lines(file), n) <==> n <= |Lines(Visible(file, window))|
  {
    hide Lines, Last, IsSuffix, Visible;
    VisibleSplit(file, window);
    var b := Visible(file, window);
    var a := file[..|file| - |b|];
    LinesOfConcat(a, b);
    LastOfSuffix(Lines(a), Lines(b), n);
  }

  lemma NoBreak(file: bytes, window: nat)
    requires |file| > window && LF !in file[|file| - window..]
    ensures Visible(file, window) == []
    ensures forall p :: |file| - window <= p < |file| ==> file[p] != LF
  {
    forall p | |file| - window <= p < |file| ensures file[p] != LF {
      assert file[p] == file[|file| - window..][p - (|file| - window)];
    }
  }

  lemma NothingVisible(file: bytes, window: nat, n: nat)
    requires |file| > window && Visible(file, window) == []
    ensures IsSuffix(TailLines(file, window, n), Last(Lines(file), n))
    ensures TailLines(file, window, n) == Last(Lines(file), n) <==> n == 0
  {
    assert Lines(file) != [];
  }

  /** The first line break in the window shows the most lines. */
  lemma MoreVisible(file: bytes, window: nat, n: nat)
    requires |file| > window && LF in file[|file| - window..]
    ensures |Lines(Visible(file, window))| >= n <==>
      exists p :: |file| - window <= p < |file| && file[p] == LF && |Lines(file[p + 1..])| >= n
  {
    hide Lines;
    var start := |file| - window;
    var first := start + Find(file[start..], LF).value;
    assert file[first] == file[start..][first - start];
    assert Visible(file, window) == file[first + 1..];
    forall p | start <= p < first ensures file[p] != LF { assert file[start..][p - start] == file[p]; }
    forall p | start <= p < |file| && file[p] == LF ensures |Lines(file[p + 1..])| <= |Lines(file[first + 1..])| {
      FewerLines(file, first, p);
    }
  }

  lemma FewerLines(file: bytes, q: nat, p: nat)
    requires q <= p < |file| && file[p] == LF
    ensures |Lines(file[p + 1..])| <= |Lines(file[q + 1..])|
  {
    hide Lines;
    if q < p {
      var a, b := file[q + 1..p + 1], file[p + 1..];
      assert file[q + 1..] == a + b;
      LinesOfConcat(a, b);
    }
  }

  // ---- lines of decoded text ----

  /** Rust's `lines` of decoded text. */
  function StrLines(s: string): seq<string> {
    var pieces := SplitOn(s, '\n');
    var last := pieces[|pieces| - 1];
    StripAll(pieces[..|pieces| - 1]) + if last == "" then [] else [last]
  }

  function StripAll(lines: seq<string>): seq<string> {
    if lines == [] then [] else [StripReturn(lines[0])] + StripAll(lines[1..])
  }

  function DecodeAll(lines: seq<bytes>): seq<string> {
    if lines == [] then [] else [Decode(lines[0])] + DecodeAll(lines[1..])
  }

  lemma {:induction false} DecodedHas(s: bytes, b: byte)
    requires b < 0x80
    ensures b as char in Decode(s) <==> b in s
    decreases |s|
  {
    if s != [] {
      DecodeStep(s);
      hide Decode, PieceLen, PieceChar;
      var l := PieceLen(s);
      DecodedHas(s[l..], b);
      forall i | 0 < i < l ensures s[i] != b { PieceRest(s, i); }
      assert forall x :: x in s <==> x in s[..l] || x in s[l..];
    }
  }

  /** The last character is ASCII exactly when the last byte is, and then they are the same. */
  lemma {:induction false} DecodedLast(s: bytes)
    requires s != []
    ensures Decode(s) != ""
    ensures var b, c := s[|s| - 1], Decode(s)[|Decode(s)| - 1]; if b < 0x80 then c as int == b else c as int >= 0x80
    decreases |s|
  {
    hide Decode, PieceLen, PieceChar;
    DecodeStep(s);
    var l := PieceLen(s);
    if l == |s| {
      NothingDecoded(s[l..]);
      if l > 1 { PieceRest(s, l - 1); }
    } else {
      DecodedLast(s[l..]);
    }
  }

  lemma NothingDecoded(s: bytes)
    requires s == []
    ensures Decode(s) == ""
  {
  }

  function StripReturn(s: string): string { if s != "" && s[|s| - 1] == '\r' then s[..|s| - 1] else s }

  lemma DecodedStrip(s: bytes)
    ensures StripReturn(Decode(s)) == Decode(StripCr(s))
  {
    hide Decode;
    if s == [] {
      NothingDecoded(s);
    } else {
      DecodedLast(s);
      if s[|s| - 1] == CR {
        var a := s[..|s| - 1];
        DecodeBefore(a, [CR]);
        assert s == a + [CR];
        OneDecoded(CR);
        assert StripReturn(Decode(a) + "\r") == Decode(a);
      }
    }
  }

  lemma OneDecoded(b: byte)
    requires b < 0x80
    ensures Decode([b]) == [b as char]
  {
  }

  lemma StrLinesStep(w: string, rest: string)
    requires '\n' !in w
    ensures StrLines(w + "\n" + rest) == [StripReturn(w)] + StrLines(rest)
  {
    SplitPiece(w, rest, '\n');
    var pieces, more := SplitOn(w + "\n" + rest, '\n'), SplitOn(rest, '\n');
    hide SplitOn;
    assert pieces == [w] + more;
    assert pieces[..|pieces| - 1] == [w] + more[..|more| - 1];
  }

  lemma StrLinesLast(w: string)
    requires '\n' !in w && w != ""
    ensures StrLines(w) == [w]
  {
    SplitLast(w, '\n');
  }

  /** Decoding the whole and taking lines is taking lines and decoding each. */
  lemma {:induction false} LinesOfDecoded(s: bytes)
    ensures StrLines(Decode(s)) == DecodeAll(Lines(s))
    decreases |s|
  {
    hide Decode, StripReturn, StripCr;
    if s == [] {
      NothingDecoded(s);
      assert SplitOn("", '\n') == [""];
    } else {
      DecodedHas(s, LF);
      if LF !in s {
        OneLine(s);
      } else {
        var i := Find(s, LF).value;
        CutAtBreak(s, i);
        DecodedStrip(s[..i]);
        StrLinesStep(Decode(s[..i]), Decode(s[i + 1..]));
        LinesOfDecoded(s[i + 1..]);
        FirstDecoded(StripCr(s[..i]), Lines(s[i + 1..]));
        LinesStep(s, i);
      }
    }
  }

  lemma FirstDecoded(line: bytes, more: seq<bytes>)
    ensures DecodeAll([line] + more) == [Decode(line)] + DecodeAll(more)
  {
    assert ([line] + more)[1..] == more;
  }

  lemma OneLine(s: bytes)
    requires s != [] && LF !in s && '\n' !in Decode(s)
    ensures Lines(s) == [s] && StrLines(Decode(s)) == DecodeAll([s])
  {
    hide Decode, StrLines;
    DecodedLast(s);
    StrLinesLast(Decode(s));
  }

  lemma CutAtBreak(s: bytes, i: nat)
    requires Find(s, LF) == Some(i)
    ensures '\n' !in Decode(s[..i])
    ensures Decode(s) == Decode(s[..i]) + "\n" + Decode(s[i + 1..])
  {
    hide Decode;
    DecodedHas(s[..i], LF);
    DecodeBefore(s[..i], [LF] + s[i + 1..]);
    assert s == s[..i] + ([LF] + s[i + 1..]);
    AsciiFirst(LF, s[i + 1..]);
  }

  lemma AsciiFirst(b: byte, rest: bytes)
    requires b < 0x80
    ensures Decode([b] + rest) == [b as char] + Decode(rest)
  {
    DecodeStep([b] + rest);
    assert ([b] + rest)[1..] == rest;
  }

  // ---- sanitizing ----

  /** Rust's `char::is_control`. */
  predicate IsControl(c: char) { c < ' ' || '\U{7f}' <= c <= '\U{9f}' }

  /** The characters of the general category Cc. */
  lemma ControlIs(c: char)
    ensures IsControl(c) <==> (c as int) / 32 in {0, 4} || c as int == 127
  {
  }

  /** How many characters of a text are not control characters. */
  function Shown(s: string): nat { if s == "" then 0 else (if IsControl(s[0]) then 0 else 1) + Shown(s[1..]) }

  function Filtered(s: string): (r: string)
    ensures |r| == Shown(s) && forall c :: c in r ==> !IsControl(c)
  {
    if s == "" then "" else (if IsControl(s[0]) then "" else [s[0]]) + Filtered(s[1..])
  }

  /** Control characters go before the length is counted: the `k`th of the others comes `k`th. */
  function Sanitize(line: string, limit: nat): (r: string)
    ensures |r| == (if Shown(line) < limit then Shown(line) else limit) && forall c :: c in r ==> !IsControl(c)
    ensures forall i :: 0 <= i < |line| && !IsControl(line[i]) && Shown(line[..i]) < limit ==>
      Shown(line[..i]) < |r| && r[Shown(line[..i])] == line[i]
  {
    AllInOrder(line);
    var s := Filtered(line);
    if |s| <= limit then s else s[..limit]
  }

  lemma ShownStep(s: string)
    requires s != ""
    ensures Shown(s) == (if IsControl(s[0]) then 0 else 1) + Shown(s[1..])
    ensures Filtered(s) == (if IsControl(s[0]) then "" else [s[0]]) + Filtered(s[1..])
  {
  }

  lemma {:induction false} InOrder(s: string, i: nat)
    requires i < |s| && !IsControl(s[i])
    ensures var k := Shown(s[..i]); k < Shown(s) && Filtered(s)[k] == s[i]
  {
    ShownStep(s);
    if i == 0 {
      assert Shown(s[..0]) == 0;
    } else {
      hide Shown, Filtered, IsControl;
      InOrder(s[1..], i - 1);
      ShownStep(s[..i]);
      assert s[..i][1..] == s[1..][..i - 1];
    }
  }

  lemma AllInOrder(s: string)
    ensures forall i :: 0 <= i < |s| && !IsControl(s[i]) ==>
      Shown(s[..i]) < Shown(s) && Filtered(s)[Shown(s[..i])] == s[i]
  {
    forall i | 0 <= i < |s| && !IsControl(s[i])
      ensures Shown(s[..i]) < Shown(s) && Filtered(s)[Shown(s[..i])] == s[i]
    {
      InOrder(s, i);
    }
  }

  /** A short line without control characters comes out as it is. */
  lemma {:induction false} CleanLineStays(line: string, limit: nat)
    requires |line| <= limit && forall c :: c in line ==> !IsControl(c)
    ensures Sanitize(line, limit) == line
  {
    AllShown(line);
    forall i | 0 <= i < |line| ensures Shown(line[..i]) == i && !IsControl(line[i]) {
      AllShown(line[..i]);
    }
  }

  lemma {:induction false} AllShown(s: string)
    requires forall c :: c in s ==> !IsControl(c)
    ensures Shown(s) == |s|
  {
    if s != "" {
      assert s[0] in s;
      AllShown(s[1..]);
    }
  }

  function SanitizeAll(lines: seq<string>, limit: nat): seq<string> {
    if lines == [] then []
    else SanitizeAll(lines[..|lines| - 1], limit) + [Sanitize(lines[|lines| - 1], limit)]
  }

  lemma {:induction false} DecodedCount(lines: seq<bytes>)
    ensures |DecodeAll(lines)| == |lines|
  {
    if lines != [] { DecodedCount(lines[1..]); }
  }

  lemma {:induction false} DecodedDrop(lines: seq<bytes>, k: nat)
    requires k <= |lines|
    ensures k <= |DecodeAll(lines)| && DecodeAll(lines)[k..] == DecodeAll(lines[k..])
  {
    if k == 0 {
      assert lines[0..] == lines;
    } else {
      DecodedDrop(lines[1..], k - 1);
      assert lines[1..][k - 1..] == lines[k..];
      assert DecodeAll(lines)[k..] == DecodeAll(lines[1..])[k - 1..];
    }
  }

  /** The last lines of the file, each decoded and sanitized. */
  method TailSanitized(file: Option<bytes>, n: nat, limit: nat) returns (r: seq<string>)
    ensures r == if file.None? then [] else SanitizeAll(DecodeAll(TailLines(file.value, 65536, n)), limit)
  {
    if file.None? { return []; }
    hide Lines, StrLines, Decode, Sanitize, SanitizeAll;
    var visible := CutWindow(file.value);
    var lines := StrLines(Decode(visible));
    LinesOfDecoded(visible);
    DecodedCount(Lines(visible));
    var keep := if |lines| < n then 0 else |lines| - n;
    DecodedDrop(Lines(visible), keep);
    assert Lines(visible)[keep..] == Last(Lines(visible), n);
    r := SanitizeLines(lines[keep..], limit);
  }

  method SanitizeLines(lines: seq<string>, limit: nat) returns (r: seq<string>)
    ensures r == SanitizeAll(lines, limit)
  {
    r := [];
    for i := 0 to |lines|
      invariant r == SanitizeAll(lines[..i], limit)
    {
      assert lines[..i + 1][..i] == lines[..i];
      r := r + [Sanitize(lines[i], limit)];
    }
    assert lines[..|lines|] == lines;
  }

  /** Reads the window and drops its first line, which was cut in two. */
  method CutWindow(file: bytes) returns (buf: bytes)
    ensures buf == Visible(file, TAIL_WINDOW_BYTES)
  {
    var len := |file|;
    var start := if len < TAIL_WINDOW_BYTES then 0 else len - TAIL_WINDOW_BYTES;
    buf := file[start..];
    if start > 0 {
      var idx := 0;
      while idx < |buf| && buf[idx] != LF
        invariant 0 <= idx <= |buf| && forall i :: 0 <= i < idx ==> buf[i] != LF
      {
        idx := idx + 1;
      }
      if idx == |buf| { return []; }
      assert Find(buf, LF) == Some(idx);
      buf := buf[idx + 1..];
    }
  }

  // ---- the last tunnel report ----

  const BEGIN := "---MIYORI-TUNNEL-BEGIN---"

  const END := "---MIYORI-TUNNEL-END---"

  /** Rust's `rfind`. */
  function LastIndex(text: string, pattern: string, below: nat): (r: Option<nat>)
    ensures r.Some? ==> r.value < below && At(text, pattern, r.value)
    ensures r.Some? ==> forall i :: r.value < i < below ==> !At(text, pattern, i)
    ensures r.None? ==> forall i :: 0 <= i < below ==> !At(text, pattern, i)
  {
    if below == 0 then None
    else if At(text, pattern, below - 1) then Some(below - 1)
    else LastIndex(text, pattern, below - 1)
  }

  /** Rust's `find`. */
  function FirstIndex(text: string, pattern: string, from: nat): (r: Option<nat>)
    ensures r.Some? ==> from <= r.value && At(text, pattern, r.value)
    ensures r.Some? ==> forall i :: from <= i < r.value ==> !At(text, pattern, i)
    ensures r.None? ==> forall i :: from <= i ==> !At(text, pattern, i)
    decreases |text| + 1 - from
  {
    if from > |text| then None
    else if At(text, pattern, from) then Some(from)
    else FirstIndex(text, pattern, from + 1)
  }

  /** The text of the last report: after the last opening mark, up to the first closing mark after it. */
  function LastBody(text: string): Option<string> {
    match LastIndex(text, BEGIN, |text| + 1)
    case None => None
    case Some(start) =>
      var body := text[start + |BEGIN|..];
      match FirstIndex(body, END, 0)
      case None => None
      case Some(stop) => Some(body[..stop])
  }

  datatype Fields = Fields(ifc: Option<string>, set_: Option<string>, route: Option<string>)

  datatype TunnelBlock = TunnelBlock(ifc: string, set_: string, route: string)

  predicate IsWhite(c: char) {
    c == ' ' || '\t' <= c <= '\r' || c == '\U{85}' || c == '\U{a0}' || c == '\U{1680}' || '\U{2000}' <= c <= '\U{200a}'
    || c == '\U{2028}' || c == '\U{2029}' || c == '\U{202f}' || c == '\U{205f}' || c == '\U{3000}'
  }

  function Trim(s: string): string {
    if s == "" then ""
    else if IsWhite(s[0]) then Trim(s[1..])
    else if IsWhite(s[|s| - 1]) then Trim(s[..|s| - 1])
    else s
  }

  function After(line: string, prefix: string): Option<string> {
    if prefix <= line then Some(Trim(line[|prefix|..])) else None
  }

  function TakeLine(f: Fields, raw: string): Fields {
    var line := Trim(raw);
    if After(line, "TUNNEL-IFC:").Some? then f.(ifc := After(line, "TUNNEL-IFC:"))
    else if After(line, "TUNNEL-SET:").Some? then f.(set_ := After(line, "TUNNEL-SET:"))
    else if After(line, "TUNNEL-ROUTE:").Some? then f.(route := After(line, "TUNNEL-ROUTE:"))
    else f
  }

  function TakeLines(lines: seq<string>): Fields {
    if lines == [] then Fields(None, None, None)
    else TakeLine(TakeLines(lines[..|lines| - 1]), lines[|lines| - 1])
  }

  function Complete(f: Fields): Option<TunnelBlock> {
    if f.ifc.None? || f.set_.None? || f.route.None? then None
    else Some(TunnelBlock(f.ifc.value, f.set_.value, f.route.value))
  }

  function LastTunnelBlock(text: string): Option<TunnelBlock> {
    match LastBody(text)
    case None => None
    case Some(body) => Complete(TakeLines(StrLines(body)))
  }

  method ParseLastTunnelBlock(text: string) returns (r: Option<TunnelBlock>)
    ensures r == LastTunnelBlock(text)
  {
    hide TakeLine;
    var start := LastIndex(text, BEGIN, |text| + 1);
    if start.None? { return None; }
    var body := text[start.value + |BEGIN|..];
    var stop := FirstIndex(body, END, 0);
    if stop.None? { return None; }
    body := body[..stop.value];
    var lines := StrLines(body);
    var f := Fields(None, None, None);
    for i := 0 to |lines|
      invariant f == TakeLines(lines[..i])
    {
      assert lines[..i + 1][..i] == lines[..i];
      f := TakeLine(f, lines[i]);
    }
    assert lines[..|lines|] == lines;
    return Complete(f);
  }

  lemma AtBound(text: string, pattern: string, i: nat)
    requires At(text, pattern, i)
    ensures i + |pattern| <= |text|
  {
  }

  // ---- what the report is ----

  /** The characters with the Unicode property White_Space. */
  lemma WhiteIs(c: char)
    ensures IsWhite(c) <==> c as int in {9, 10, 11, 12, 13, 32, 133, 160, 5760, 8192, 8193, 8194, 8195, 8196, 8197,
                                         8198, 8199, 8200, 8201, 8202, 8232, 8233, 8239, 8287, 12288}
  {
  }

  /** `t` is `s` without the white space at both ends. */
  ghost predicate Trims(s: string, t: string) {
    exists a: nat, b: nat ::
      && a <= b <= |s| && t == s[a..b]
      && (forall i :: 0 <= i < |s| && !(a <= i < b) ==> IsWhite(s[i]))
      && (a < b ==> !IsWhite(s[a]) && !IsWhite(s[b - 1]))
  }

  lemma {:induction false} TrimCut(s: string) returns (a: nat, b: nat)
    ensures a <= b <= |s| && Trim(s) == s[a..b]
    ensures forall i :: 0 <= i < |s| && !(a <= i < b) ==> IsWhite(s[i])
    ensures a < b ==> !IsWhite(s[a]) && !IsWhite(s[b - 1])
    decreases |s|
  {
    hide IsWhite;
    if s == "" {
      a, b := 0, 0;
    } else if IsWhite(s[0]) {
      a, b := TrimCut(s[1..]);
      assert forall i :: 1 <= i < |s| ==> s[i] == s[1..][i - 1];
      a, b := a + 1, b + 1;
      assert s[a..b] == s[1..][a - 1..b - 1];
    } else if IsWhite(s[|s| - 1]) {
      a, b := TrimCut(s[..|s| - 1]);
      assert s[a..b] == s[..|s| - 1][a..b];
    } else {
      a, b := 0, |s|;
    }
  }

  lemma TrimIs(s: string, t: string)
    ensures Trim(s) == t <==> Trims(s, t)
  {
    hide Trim, IsWhite;
    var a, b := TrimCut(s);
    if a0: nat, b0: nat :|
      && a0 <= b0 <= |s| && t == s[a0..b0]
      && (forall i :: 0 <= i < |s| && !(a0 <= i < b0) ==> IsWhite(s[i]))
      && (a0 < b0 ==> !IsWhite(s[a0]) && !IsWhite(s[b0 - 1]))
    {
      if a < b || a0 < b0 { assert a == a0 && b == b0; }
    }
  }

  /** `value` is the trimmed rest of the last line that starts, once trimmed, with `tag`. */
  ghost predicate LastLabelled(lines: seq<string>, tag: string, value: string) {
    exists i ::
      && 0 <= i < |lines| && tag <= Trim(lines[i]) && value == Trim(Trim(lines[i])[|tag|..])
      && forall j :: i < j < |lines| ==> !(tag <= Trim(lines[j]))
  }

  predicate SomeLabelled(lines: seq<string>, tag: string) {
    exists i :: 0 <= i < |lines| && tag <= Trim(lines[i])
  }

  function LastValue(lines: seq<string>, tag: string): Option<string> {
    if lines == [] then None
    else
      var here := After(Trim(lines[|lines| - 1]), tag);
      if here.Some? then here else LastValue(lines[..|lines| - 1], tag)
  }

  lemma {:induction false} LastValueIs(lines: seq<string>, tag: string, value: string)
    ensures LastValue(lines, tag) == Some(value) <==> LastLabelled(lines, tag, value)
    ensures LastValue(lines, tag).Some? <==> SomeLabelled(lines, tag)
  {
    hide Trim;
    if lines != [] {
      var n := |lines| - 1;
      var init := lines[..n];
      LastValueIs(init, tag, value);
      assert forall i :: 0 <= i < n ==> init[i] == lines[i];
      if tag <= Trim(lines[n]) {
        assert LastLabelled(lines, tag, Trim(Trim(lines[n])[|tag|..]));
      } else {
        SameLabelled(lines, tag, value);
        StillSome(lines, tag);
      }
    }
  }

  /** A last line without the label changes nothing. */
  lemma SameLabelled(lines: seq<string>, tag: string, value: string)
    requires lines != [] && !(tag <= Trim(lines[|lines| - 1]))
    ensures LastLabelled(lines, tag, value) <==> LastLabelled(lines[..|lines| - 1], tag, value)
  {
    hide LastLabelled, Trim;
    if LastLabelled(lines, tag, value) { LabelledBefore(lines, tag, value); }
    if LastLabelled(lines[..|lines| - 1], tag, value) { LabelledStill(lines, tag, value); }
  }

  lemma LabelledBefore(lines: seq<string>, tag: string, value: string)
    requires lines != [] && !(tag <= Trim(lines[|lines| - 1])) && LastLabelled(lines, tag, value)
    ensures LastLabelled(lines[..|lines| - 1], tag, value)
  {
    hide Trim;
    var init := lines[..|lines| - 1];
    var i :| 0 <= i < |lines| && tag <= Trim(lines[i]) && value == Trim(Trim(lines[i])[|tag|..])
      && forall j :: i < j < |lines| ==> !(tag <= Trim(lines[j]));
    assert i < |init| && init[i] == lines[i];
  }

  lemma LabelledStill(lines: seq<string>, tag: string, value: string)
    requires lines != [] && !(tag <= Trim(lines[|lines| - 1])) && LastLabelled(lines[..|lines| - 1], tag, value)
    ensures LastLabelled(lines, tag, value)
  {
    hide Trim;
    var init := lines[..|lines| - 1];
    var i :| 0 <= i < |init| && tag <= Trim(init[i]) && value == Trim(Trim(init[i])[|tag|..])
      && forall j :: i < j < |init| ==> !(tag <= Trim(init[j]));
    assert init[i] == lines[i];
    forall j | i < j < |lines| ensures !(tag <= Trim(lines[j])) { if j < |init| { assert init[j] == lines[j]; } }
  }

  lemma StillSome(lines: seq<string>, tag: string)
    requires lines != [] && !(tag <= Trim(lines[|lines| - 1]))
    ensures SomeLabelled(lines, tag) <==> SomeLabelled(lines[..|lines| - 1], tag)
  {
    hide Trim;
    var init := lines[..|lines| - 1];
    if i :| 0 <= i < |lines| && tag <= Trim(lines[i]) { assert init[i] == lines[i]; }
    if i :| 0 <= i < |init| && tag <= Trim(init[i]) { assert lines[i] == init[i]; }
  }

  /** No line starts with two of the labels. */
  lemma LabelsApart(line: string)
    ensures !("TUNNEL-IFC:" <= line && "TUNNEL-SET:" <= line)
    ensures !("TUNNEL-IFC:" <= line && "TUNNEL-ROUTE:" <= line)
    ensures !("TUNNEL-SET:" <= line && "TUNNEL-ROUTE:" <= line)
  {
    assert "TUNNEL-IFC:"[7] == 'I' && "TUNNEL-SET:"[7] == 'S' && "TUNNEL-ROUTE:"[7] == 'R';
  }

  lemma {:induction false} LinesTaken(lines: seq<string>)
    ensures TakeLines(lines) ==
      Fields(LastValue(lines, "TUNNEL-IFC:"), LastValue(lines, "TUNNEL-SET:"), LastValue(lines, "TUNNEL-ROUTE:"))
  {
    hide Trim;
    if lines != [] {
      LinesTaken(lines[..|lines| - 1]);
      LabelsApart(Trim(lines[|lines| - 1]));
    }
  }

  /** The report stands between the last opening mark, at `start`, and the first closing mark after it. */
  ghost predicate Framed(text: string, start: nat, stop: nat) {
    && At(text, "---MIYORI-TUNNEL-BEGIN---", start) && start + 25 <= stop
    && (forall i :: i > start ==> !At(text, "---MIYORI-TUNNEL-BEGIN---", i))
    && At(text, "---MIYORI-TUNNEL-END---", stop)
    && (forall i :: start + 25 <= i < stop ==> !At(text, "---MIYORI-TUNNEL-END---", i))
  }

  lemma MarkTexts()
    ensures BEGIN == "---MIYORI-TUNNEL-BEGIN---" && |BEGIN| == 25 && END == "---MIYORI-TUNNEL-END---"
  {
  }

  lemma EndShifted(text: string, from: nat, i: nat)
    requires from <= |text|
    ensures At(text[from..], END, i) <==> At(text, END, from + i)
  {
    hide END;
    var a := text[..from];
    assert text == a + text[from..];
    AtShifted(a, text[from..], END, i);
  }

  /** The body that is parsed is the framed one. */
  lemma BodyIsFramed(text: string, start: nat, stop: nat)
    requires Framed(text, start, stop)
    ensures start + 25 <= stop <= |text| && LastBody(text) == Some(text[start + 25..stop])
  {
    MarkTexts();
    hide BEGIN, END;
    AtBound(text, BEGIN, start);
    AtBound(text, END, stop);
    hide At;
    var last := LastIndex(text, BEGIN, |text| + 1);
    assert last == Some(start);
    var from := start + 25;
    var body := text[from..];
    forall i: nat ensures At(body, END, i) <==> At(text, END, from + i) { EndShifted(text, from, i); }
    var first := FirstIndex(body, END, 0);
    assert At(body, END, stop - from);
    assert first == Some(stop - from);
    assert body[..stop - from] == text[from..stop];
  }

  lemma BodyHasFrame(text: string) returns (start: nat, stop: nat)
    requires LastBody(text).Some?
    ensures Framed(text, start, stop)
  {
    MarkTexts();
    hide BEGIN, END;
    start := LastIndex(text, BEGIN, |text| + 1).value;
    AtBound(text, BEGIN, start);
    var from := start + 25;
    var body := text[from..];
    var first := FirstIndex(body, END, 0).value;
    stop := from + first;
    forall i: nat ensures At(body, END, i) <==> At(text, END, from + i) { EndShifted(text, from, i); }
    forall i: nat | i > |text| ensures !At(text, BEGIN, i) {}
    hide At;
    forall i: nat | from <= i < stop ensures !At(text, END, i) { assert !At(body, END, i - from); }
  }

  ghost predicate Reports(text: string, start: nat, stop: nat, b: TunnelBlock) {
    && Framed(text, start, stop) && start + 25 <= stop <= |text|
    && var lines := StrLines(text[start + 25..stop]);
       && LastLabelled(lines, "TUNNEL-IFC:", b.ifc)
       && LastLabelled(lines, "TUNNEL-SET:", b.set_)
       && LastLabelled(lines, "TUNNEL-ROUTE:", b.route)
  }

  /** What is reported: for each label the trimmed rest of the last line that starts with it, among the lines
      between the last opening mark and the first closing mark after it. */
  lemma ReportIs(text: string, b: TunnelBlock)
    ensures LastTunnelBlock(text) == Some(b) <==> exists start: nat, stop: nat :: Reports(text, start, stop, b)
  {
    hide LastBody, Framed, TakeLines, StrLines, LastLabelled, LastValue;
    if LastTunnelBlock(text) == Some(b) {
      var start, stop := BodyHasFrame(text);
      BodyIsFramed(text, start, stop);
      FieldsAre(StrLines(text[start + 25..stop]), b);
      assert Reports(text, start, stop, b);
    }
    if start: nat, stop: nat :| Reports(text, start, stop, b) {
      BodyIsFramed(text, start, stop);
      FieldsAre(StrLines(text[start + 25..stop]), b);
    }
  }

  lemma FieldsAre(lines: seq<string>, b: TunnelBlock)
    ensures Complete(TakeLines(lines)) == Some(b) <==>
      && LastLabelled(lines, "TUNNEL-IFC:", b.ifc)
      && LastLabelled(lines, "TUNNEL-SET:", b.set_)
      && LastLabelled(lines, "TUNNEL-ROUTE:", b.route)
  {
    hide TakeLines, LastLabelled, LastValue, SomeLabelled;
    LinesTaken(lines);
    LastValueIs(lines, "TUNNEL-IFC:", b.ifc);
    LastValueIs(lines, "TUNNEL-SET:", b.set_);
    LastValueIs(lines, "TUNNEL-ROUTE:", b.route);
  }

  /** There is a report exactly when a closing mark follows the last opening one and each label starts some
      line between them. */
  lemma ReportExists(text: string)
    ensures LastTunnelBlock(text).Some? <==>
      exists start: nat, stop: nat ::
        && Framed(text, start, stop) && start + 25 <= stop <= |text|
        && var lines := StrLines(text[start + 25..stop]);
           && SomeLabelled(lines, "TUNNEL-IFC:") && SomeLabelled(lines, "TUNNEL-SET:")
           && SomeLabelled(lines, "TUNNEL-ROUTE:")
  {
    hide LastBody, Framed, TakeLines, StrLines, LastLabelled, LastValue, SomeLabelled;
    if LastTunnelBlock(text).Some? {
      var start, stop := BodyHasFrame(text);
      BodyIsFramed(text, start, stop);
      AllLabelled(StrLines(text[start + 25..stop]));
      assert Framed(text, start, stop);
    }
    if start: nat, stop: nat :|
      && Framed(text, start, stop) && start + 25 <= stop <= |text|
      && var lines := StrLines(text[start + 25..stop]);
         && SomeLabelled(lines, "TUNNEL-IFC:") && SomeLabelled(lines, "TUNNEL-SET:")
         && SomeLabelled(lines, "TUNNEL-ROUTE:")
    {
      BodyIsFramed(text, start, stop);
      AllLabelled(StrLines(text[start + 25..stop]));
    }
  }

  lemma AllLabelled(lines: seq<string>)
    ensures Complete(TakeLines(lines)).Some? <==>
      SomeLabelled(lines, "TUNNEL-IFC:") && SomeLabelled(lines, "TUNNEL-SET:") && SomeLabelled(lines, "TUNNEL-ROUTE:")
  {
    hide TakeLines, LastLabelled, LastValue, SomeLabelled;
    LinesTaken(lines);
    LastValueIs(lines, "TUNNEL-IFC:", "");
    LastValueIs(lines, "TUNNEL-SET:", "");
    LastValueIs(lines, "TUNNEL-ROUTE:", "");
  }

  /** Moving a text behind some characters that no opening mark contains moves the marks along. */
  lemma MarkShifted(junk: string, text: string, k: nat, i: nat)
    requires k <= |text| && forall c :: c in junk ==> c !in BEGIN
    ensures At(junk + text[k..], BEGIN, |junk| + i) <==> At(text, BEGIN, k + i)
  {
    var t := junk + text[k..];
    if |junk| + i + |BEGIN| <= |t| {
      assert t[|junk| + i..|junk| + i + |BEGIN|] == text[k + i..k + i + |BEGIN|];
    }
  }

  lemma JunkOpensNothing(junk: string, rest: string, i: nat)
    requires i < |junk| && forall c :: c in junk ==> c !in BEGIN
    ensures !At(junk + rest, BEGIN, i)
  {
    var t := junk + rest;
    assert junk[i] in junk && t[i] == junk[i] && BEGIN[0] in BEGIN;
    if At(t, BEGIN, i) { AtFirst(t, BEGIN, i); }
  }

  lemma AtFirst(text: string, pattern: string, i: nat)
    requires At(text, pattern, i) && pattern != ""
    ensures text[i] == pattern[0]
  {
    assert text[i..i + |pattern|][0] == text[i];
  }

  /** Where the last opening mark stands in the end of a text. */
  lemma LastMarkShifts(text: string, k: nat, junk: string)
    requires k <= |text| && forall c :: c in junk ==> c !in BEGIN
    ensures var last := LastIndex(text, BEGIN, |text| + 1);
      LastIndex(junk + text[k..], BEGIN, |junk + text[k..]| + 1) ==
        if last.Some? && last.value >= k then Some(|junk| + last.value - k) else None
  {
    var tail := junk + text[k..];
    var last, found := LastIndex(text, BEGIN, |text| + 1), LastIndex(tail, BEGIN, |tail| + 1);
    hide LastIndex, BEGIN, At;
    if found.Some? {
      if found.value < |junk| { JunkOpensNothing(junk, text[k..], found.value); }
      else { MarkShifted(junk, text, k, found.value - |junk|); }
    }
    if last.Some? && last.value >= k { MarkShifted(junk, text, k, last.value - k); }
  }

  /**
   * On the end of a text, possibly behind replacement characters of a character cut in two, the parser
   * finds exactly the last report of the whole text if its opening mark is there, and nothing otherwise.
   */
  lemma TailReportIsLastReport(text: string, k: nat, junk: string)
    requires k <= |text| && forall c :: c in junk ==> c !in BEGIN
    ensures var tail := junk + text[k..];
      var last := LastIndex(text, BEGIN, |text| + 1);
      LastTunnelBlock(tail) == if last.Some? && last.value >= k then LastTunnelBlock(text) else None
  {
    hide LastTunnelBlock, LastIndex, BEGIN, At;
    LastMarkShifts(text, k, junk);
    var tail := junk + text[k..];
    var last := LastIndex(text, BEGIN, |text| + 1);
    if last.Some? && last.value >= k {
      var found := |junk| + last.value - k;
      AtBound(text, BEGIN, last.value);
      DropShifted(text, k, junk, last.value + |BEGIN|);
      SameReport(text, last.value, tail, found);
    } else {
      NoReport(tail);
    }
  }

  lemma DropShifted(text: string, k: nat, junk: string, m: nat)
    requires k <= m <= |text|
    ensures (junk + text[k..])[|junk| + m - k..] == text[m..]
  {
  }

  lemma SameReport(a: string, i: nat, b: string, j: nat)
    requires LastIndex(a, BEGIN, |a| + 1) == Some(i) && LastIndex(b, BEGIN, |b| + 1) == Some(j)
    requires a[i + |BEGIN|..] == b[j + |BEGIN|..]
    ensures LastTunnelBlock(a) == LastTunnelBlock(b)
  {
    hide LastIndex, FirstIndex, Complete, TakeLines, StrLines, BEGIN, END;
  }

  lemma NoReport(text: string)
    requires LastIndex(text, BEGIN, |text| + 1).None?
    ensures LastTunnelBlock(text) == None
  {
    hide LastIndex, FirstIndex, Complete, TakeLines, StrLines, BEGIN, END;
  }

  // ---- the report in the end of the console file ----

  function ConsoleTail(file: bytes, cap: nat): bytes { if |file| <= cap then file else file[|file| - cap..] }

  /** The bytes of an opening mark stand within the last `cap` of the file. */
  predicate MarkWithin(file: bytes, cap: nat) {
    exists p: nat :: p <= |file| && |file| <= p + cap && At(file, Ascii(BEGIN), p)
  }

  lemma MarkIsAscii()
    ensures IsAscii(BEGIN) && BEGIN != "" && REPLACEMENT !in BEGIN
  {
  }

  lemma TailMark(file: bytes, cap: nat)
    ensures MarkWithin(file, cap) <==> exists p: nat :: At(ConsoleTail(file, cap), Ascii(BEGIN), p)
  {
    MarkIsAscii();
    hide BEGIN, Ascii;
    var k := if |file| <= cap then 0 else |file| - cap;
    var a, t := file[..k], ConsoleTail(file, cap);
    assert file == a + t;
    if MarkWithin(file, cap) {
      var p: nat :| p <= |file| && |file| <= p + cap && At(file, Ascii(BEGIN), p);
      AtShifted(a, t, Ascii(BEGIN), p - k);
    }
    if p: nat :| At(t, Ascii(BEGIN), p) {
      AtShifted(a, t, Ascii(BEGIN), p);
      assert At(file, Ascii(BEGIN), k + p);
    }
  }

  lemma LastIndexIff(text: string)
    ensures LastIndex(text, BEGIN, |text| + 1).Some? <==> exists i: nat :: At(text, BEGIN, i)
  {
    hide LastIndex, BEGIN;
    if i: nat :| At(text, BEGIN, i) { assert i < |text| + 1; }
  }

  /**
   * Reading only the last `cap` bytes, and decoding them even if the cut went through a character, gives the
   * last report of the whole file exactly when its opening mark is within those bytes, and nothing otherwise.
   */
  lemma ConsoleReport(file: bytes, cap: nat)
    ensures LastTunnelBlock(Decode(ConsoleTail(file, cap))) ==
      if MarkWithin(file, cap) then LastTunnelBlock(Decode(file)) else None
  {
    hide LastTunnelBlock, LastIndex, BEGIN, Decode, MarkWithin, Ascii, At;
    var k := if |file| <= cap then 0 else |file| - cap;
    var tail := Decode(ConsoleTail(file, cap));
    assert ConsoleTail(file, cap) == file[k..];
    MarkIsAscii();
    TailMark(file, cap);
    AsciiFound(ConsoleTail(file, cap), BEGIN);
    LastIndexIff(tail);
    var m := DecodeOfEnd(file, k);
    TailOfDecoded(Decode(file), Decode(file[m..]), Replacements(m - k));
  }

  lemma TailOfDecoded(text: string, end: string, junk: string)
    requires IsSuffix(end, text) && forall c :: c in junk ==> c !in BEGIN
    ensures LastTunnelBlock(junk + end) ==
      if LastIndex(junk + end, BEGIN, |junk + end| + 1).Some? then LastTunnelBlock(text) else None
  {
    hide LastTunnelBlock, LastIndex, BEGIN;
    TailReportIsLastReport(text, |text| - |end|, junk);
    LastMarkShifts(text, |text| - |end|, junk);
  }

  const CONSOLE_TAIL_BYTES: nat := 64 * 1024

  /** What the status shows of the tunnel: the report in the end of the console file, if that can be read. */
  method TunnelStatus(console: Option<bytes>) returns (r: Option<TunnelBlock>)
    ensures r ==
      if console.Some? && MarkWithin(console.value, 65536) then LastTunnelBlock(Decode(console.value))
      else None
  {
    if console.None? { return None; }
    hide LastTunnelBlock, Decode, MarkWithin;
    var len := |console.value|;
    var start := if len < CONSOLE_TAIL_BYTES then 0 else len - CONSOLE_TAIL_BYTES;
    var buf := console.value[start..];
    assert buf == ConsoleTail(console.value, CONSOLE_TAIL_BYTES);
    ConsoleReport(console.value, CONSOLE_TAIL_BYTES);
    r := ParseLastTunnelBlock(Decode(buf));
  }
}

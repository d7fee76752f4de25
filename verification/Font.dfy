// Drawing text of the label bar into a pixel buffer, glyph by glyph and bit by bit.
module Font {
  import opened Text

  const GLYPH_WIDTH: nat := 10
  const GLYPH_HEIGHT: nat := 20
  const ROW_BYTES: nat := 2

  type Bitmap = s: seq<bv8> | |s| == GLYPH_HEIGHT * ROW_BYTES witness seq(GLYPH_HEIGHT * ROW_BYTES, _ => 0)

  /** The table of glyphs by character code, in increasing order of codes. */
  type Table = seq<(nat, Bitmap)>

  const REPLACEMENT: char := '?'

  predicate Sorted(t: Table) { forall i, j :: 0 <= i < j < |t| ==> t[i].0 < t[j].0 }

  predicate HasCode(t: Table, code: nat) { exists i :: 0 <= i < |t| && t[i].0 == code }

  function Glyph(t: Table, code: nat): Option<Bitmap> {
    if t == [] then None else if t[0].0 == code then Some(t[0].1) else Glyph(t[1..], code)
  }

  lemma {:induction false} GlyphAt(t: Table, code: nat, i: nat)
    requires Sorted(t) && i < |t| && t[i].0 == code
    ensures Glyph(t, code) == Some(t[i].1)
  {
    if i > 0 { GlyphAt(t[1..], code, i - 1); }
  }

  lemma {:induction false} NoGlyph(t: Table, code: nat)
    ensures Glyph(t, code).None? <==> !HasCode(t, code)
  {
    if t != [] {
      NoGlyph(t[1..], code);
      if HasCode(t[1..], code) {
        var i :| 0 <= i < |t| - 1 && t[1..][i].0 == code;
        assert t[i + 1].0 == code;
      }
      if HasCode(t, code) && t[0].0 != code {
        var i :| 0 <= i < |t| && t[i].0 == code;
        assert t[1..][i - 1].0 == code;
      }
    }
  }

  /** Binary search by code. */
  method FindGlyph(t: Table, code: nat) returns (r: Option<Bitmap>)
    requires Sorted(t)
    ensures r == Glyph(t, code)
  {
    var lo, hi := 0, |t|;
    while lo < hi
      invariant 0 <= lo <= hi <= |t|
      invariant forall i :: 0 <= i < lo ==> t[i].0 < code
      invariant forall i :: hi <= i < |t| ==> code < t[i].0
    {
      var mid := (lo + hi) / 2;
      if t[mid].0 == code {
        GlyphAt(t, code, mid);
        return Some(t[mid].1);
      }
      if t[mid].0 < code { lo := mid + 1; } else { hi := mid; }
    }
    NoGlyph(t, code);
    return None;
  }

  /** Unknown characters are drawn as '?', which the table has. */
  function GlyphOrReplacement(t: Table, ch: char): Bitmap
    requires HasCode(t, REPLACEMENT as nat)
  {
    NoGlyph(t, REPLACEMENT as nat);
    match Glyph(t, ch as nat)
    case Some(b) => b
    case None => Glyph(t, REPLACEMENT as nat).value
  }

  /** Bit `col` of row `row`, the highest bit of the row's first byte being bit 0. */
  predicate Bit(b: Bitmap, row: nat, col: nat)
    requires row < GLYPH_HEIGHT && col < GLYPH_WIDTH
  {
    (b[row * ROW_BYTES + col / 8] >> (7 - col % 8)) & 1 == 1
  }

  /** The two bytes of a row, the first one high, as one number: its highest bits are the row's pixels. */
  function RowBits(b: Bitmap, row: nat): bv16
    requires row < GLYPH_HEIGHT
  {
    ((b[2 * row] as bv16) << 8) | (b[2 * row + 1] as bv16)
  }

  lemma BitOfRow(b: Bitmap, row: nat, col: nat)
    requires row < GLYPH_HEIGHT && col < GLYPH_WIDTH
    ensures Bit(b, row, col) <==> (RowBits(b, row) >> (15 - col)) & 1 == 1
  {
    var hi, lo := b[2 * row], b[2 * row + 1];
    assert row * ROW_BYTES == 2 * row;
    if col < 8 { HighBit(hi, lo, col); } else { LowBit(hi, lo, col); }
  }

  lemma HighBit(hi: bv8, lo: bv8, col: nat)
    requires col < 8
    ensures (hi >> (7 - col)) & 1 == 1 <==> ((((hi as bv16) << 8) | (lo as bv16)) >> (15 - col)) & 1 == 1
  {
    if col == 0 {} else if col == 1 {} else if col == 2 {} else if col == 3 {}
    else if col == 4 {} else if col == 5 {} else if col == 6 {}
  }

  lemma LowBit(hi: bv8, lo: bv8, col: nat)
    requires 8 <= col < 16
    ensures (lo >> (15 - col)) & 1 == 1 <==> ((((hi as bv16) << 8) | (lo as bv16)) >> (15 - col)) & 1 == 1
  {
    if col == 8 {} else if col == 9 {} else if col == 10 {} else if col == 11 {}
    else if col == 12 {} else if col == 13 {} else if col == 14 {}
  }

  /** The shape drawn for a character is the one the table has for it, and that of '?' if it has none. */
  lemma ShapeIs(t: Table, ch: char)
    requires Sorted(t) && HasCode(t, REPLACEMENT as nat)
    ensures var code := if HasCode(t, ch as nat) then ch as nat else '?' as nat;
      exists i :: 0 <= i < |t| && t[i] == (code, GlyphOrReplacement(t, ch))
  {
    NoGlyph(t, ch as nat);
    var code := if HasCode(t, ch as nat) then ch as nat else '?' as nat;
    var i :| 0 <= i < |t| && t[i].0 == code;
    GlyphAt(t, code, i);
    assert t[i] == (code, GlyphOrReplacement(t, ch));
  }

  // ---- images ----

  function Index(w: nat, px: nat, py: nat): nat { py * w + px }

  lemma IndexInBounds(w: nat, h: nat, px: nat, py: nat)
    requires px < w && py < h
    ensures Index(w, px, py) < w * h
  {
    assert (py + 1) * w <= h * w;
  }

  lemma IndexInjective(w: nat, a: nat, b: nat, c: nat, d: nat)
    requires a < w && c < w && Index(w, a, b) == Index(w, c, d)
    ensures a == c && b == d
  {
    if b < d { LowerRow(w, a, b, c, d); }
    if d < b { LowerRow(w, c, d, a, b); }
  }

  lemma LowerRow(w: nat, a: nat, b: nat, c: nat, d: nat)
    requires a < w && b < d
    ensures Index(w, a, b) < Index(w, c, d)
  {
    assert (b + 1) * w <= d * w;
  }

  type Points = set<(nat, nat)>

  /** `after` is `before` with the points of `ink` in the foreground colour and nothing else changed. */
  ghost predicate Shows(before: seq<int>, after: seq<int>, w: nat, h: nat, ink: Points, fg: int) {
    && |before| == |after| && w * h <= |before|
    && (forall px: nat, py: nat :: px < w && py < h ==> (
          && Index(w, px, py) < |before|
          && after[Index(w, px, py)] == if (px, py) in ink then fg else before[Index(w, px, py)]))
    && (forall i :: w * h <= i < |before| ==> after[i] == before[i])
  }

  lemma ShowsNothing(s: seq<int>, w: nat, h: nat, fg: int)
    requires w * h <= |s|
    ensures Shows(s, s, w, h, {}, fg)
  {
    forall px: nat, py: nat | px < w && py < h ensures Index(w, px, py) < |s| { IndexInBounds(w, h, px, py); }
  }

  lemma ShowsBoth(a: seq<int>, b: seq<int>, c: seq<int>, w: nat, h: nat, p: Points, q: Points, fg: int)
    requires Shows(a, b, w, h, p, fg) && Shows(b, c, w, h, q, fg)
    ensures Shows(a, c, w, h, p + q, fg)
  {
    hide Index;
    forall px: nat, py: nat | px < w && py < h
      ensures c[Index(w, px, py)] == if (px, py) in p + q then fg else a[Index(w, px, py)]
    {
      assert Index(w, px, py) < |a|;
      assert b[Index(w, px, py)] == if (px, py) in p then fg else a[Index(w, px, py)];
    }
  }

  lemma ShowsPoint(s: seq<int>, w: nat, h: nat, px: nat, py: nat, fg: int)
    requires w * h <= |s| && px < w && py < h
    ensures Index(w, px, py) < |s| && Shows(s, s[Index(w, px, py) := fg], w, h, {(px, py)}, fg)
  {
    IndexInBounds(w, h, px, py);
    var k := Index(w, px, py);
    forall a: nat, b: nat | a < w && b < h
      ensures Index(w, a, b) < |s| && (Index(w, a, b) == k ==> (a, b) == (px, py))
    {
      IndexInBounds(w, h, a, b);
      if Index(w, a, b) == k { IndexInjective(w, a, b, px, py); }
    }
  }

  // ---- drawing ----

  /** The points of one row of a glyph drawn at (x, y), up to column `cols`, that fall into the buffer. */
  predicate InRow(b: Bitmap, x: nat, y: nat, row: nat, cols: nat, w: nat, p: (nat, nat))
    requires row < GLYPH_HEIGHT && cols <= GLYPH_WIDTH
  {
    p.1 == y + row && x <= p.0 < x + cols && p.0 < w && Bit(b, row, p.0 - x)
  }

  method DrawRow(buf: array<int>, w: nat, h: nat, x: nat, y: nat, row: nat, b: Bitmap, fg: int)
    returns (ghost ink: Points)
    requires row < GLYPH_HEIGHT && y + row < h && w * h <= buf.Length
    modifies buf
    ensures Shows(old(buf[..]), buf[..], w, h, ink, fg)
    ensures forall p :: p in ink <==> InRow(b, x, y, row, GLYPH_WIDTH, w, p)
  {
    hide Shows, Bit, Index;
    ink := {};
    ShowsNothing(buf[..], w, h, fg);
    for col := 0 to GLYPH_WIDTH
      invariant Shows(old(buf[..]), buf[..], w, h, ink, fg)
      invariant forall p :: p in ink <==> InRow(b, x, y, row, col, w, p)
    {
      var px := x + col;
      if px >= w { break; }
      if Bit(b, row, col) {
        ghost var was := buf[..];
        ShowsPoint(was, w, h, px, y + row, fg);
        buf[Index(w, px, y + row)] := fg;
        assert buf[..] == was[Index(w, px, y + row) := fg];
        ShowsBoth(old(buf[..]), was, buf[..], w, h, ink, {(px, y + row)}, fg);
        ink := ink + {(px, y + row)};
      }
    }
  }

  predicate InGlyph(b: Bitmap, x: nat, y: nat, rows: nat, w: nat, h: nat, p: (nat, nat))
    requires rows <= GLYPH_HEIGHT
  {
    p.1 < h && y <= p.1 < y + rows && InRow(b, x, y, p.1 - y, GLYPH_WIDTH, w, p)
  }

  method DrawGlyph(buf: array<int>, w: nat, h: nat, x: nat, y: nat, b: Bitmap, fg: int) returns (ghost ink: Points)
    requires w * h <= buf.Length
    modifies buf
    ensures Shows(old(buf[..]), buf[..], w, h, ink, fg)
    ensures forall p :: p in ink <==> InGlyph(b, x, y, GLYPH_HEIGHT, w, h, p)
  {
    hide Shows, Bit;
    ink := {};
    ShowsNothing(buf[..], w, h, fg);
    for row := 0 to GLYPH_HEIGHT
      invariant Shows(old(buf[..]), buf[..], w, h, ink, fg)
      invariant forall p :: p in ink <==> InGlyph(b, x, y, row, w, h, p)
    {
      if y + row >= h { break; }
      ghost var was := buf[..];
      ghost var more := DrawRow(buf, w, h, x, y, row, b, fg);
      ShowsBoth(old(buf[..]), was, buf[..], w, h, ink, more, fg);
      ink := ink + more;
    }
  }

  /** The pixel lies in the box of the text and its bit is set in the glyph of the character it falls on. */
  predicate Painted(t: Table, text: string, x: nat, y: nat, px: nat, py: nat)
    requires HasCode(t, REPLACEMENT as nat)
  {
    && y <= py < y + GLYPH_HEIGHT && x <= px < x + GLYPH_WIDTH * |text|
    && Bit(GlyphOrReplacement(t, text[(px - x) / GLYPH_WIDTH]), py - y, (px - x) % GLYPH_WIDTH)
  }

  lemma PaintedStep(t: Table, text: string, i: nat, x: nat, y: nat, w: nat, h: nat, p: (nat, nat))
    requires HasCode(t, REPLACEMENT as nat) && i < |text|
    ensures p.0 < w && p.1 < h && Painted(t, text[..i + 1], x, y, p.0, p.1) <==>
      || (p.0 < w && p.1 < h && Painted(t, text[..i], x, y, p.0, p.1))
      || InGlyph(GlyphOrReplacement(t, text[i]), x + GLYPH_WIDTH * i, y, GLYPH_HEIGHT, w, h, p)
  {
    hide Bit, GlyphOrReplacement;
    if x + GLYPH_WIDTH * i <= p.0 < x + GLYPH_WIDTH * (i + 1) {
      assert (p.0 - x) / GLYPH_WIDTH == i && (p.0 - x) % GLYPH_WIDTH == p.0 - (x + GLYPH_WIDTH * i);
    } else if x <= p.0 < x + GLYPH_WIDTH * i {
      assert (p.0 - x) / GLYPH_WIDTH < i;
    }
  }

  /** Every pixel of the painted bits gets the foreground colour, every other pixel and whatever lies
      beyond the image keeps its value; all accesses are within the buffer. */
  method DrawText(t: Table, buf: array<int>, w: nat, h: nat, x: nat, y: nat, text: string, fg: int)
    requires Sorted(t) && HasCode(t, REPLACEMENT as nat) && w * h <= buf.Length
    modifies buf
    ensures forall px: nat, py: nat :: px < w && py < h ==> (
      && Index(w, px, py) < buf.Length
      && buf[Index(w, px, py)] == if Painted(t, text, x, y, px, py) then fg else old(buf[Index(w, px, py)]))
    ensures forall i :: w * h <= i < buf.Length ==> buf[i] == old(buf[i])
  {
    hide Shows, Painted, InGlyph, GlyphOrReplacement;
    ghost var was := buf[..];
    ghost var ink: Points := {};
    ShowsNothing(was, w, h, fg);
    NothingPainted(t, x, y);
    var cursor := x;
    for i := 0 to |text|
      invariant cursor == x + GLYPH_WIDTH * i
      invariant Shows(was, buf[..], w, h, ink, fg)
      invariant forall p: (nat, nat) :: p in ink <==> p.0 < w && p.1 < h && Painted(t, text[..i], x, y, p.0, p.1)
    {
      ghost var before := buf[..];
      var bitmap := ShapeOf(t, text[i]);
      ghost var more := DrawGlyph(buf, w, h, cursor, y, bitmap, fg);
      ShowsBoth(was, before, buf[..], w, h, ink, more, fg);
      forall p: (nat, nat)
        ensures p in ink + more <==> p.0 < w && p.1 < h && Painted(t, text[..i + 1], x, y, p.0, p.1)
      {
        PaintedStep(t, text, i, x, y, w, h, p);
      }
      ink := ink + more;
      cursor := cursor + GLYPH_WIDTH;
    }
    assert text[..|text|] == text;
    Unfold(was, buf[..], w, h, ink, fg);
  }

  method ShapeOf(t: Table, ch: char) returns (b: Bitmap)
    requires Sorted(t) && HasCode(t, REPLACEMENT as nat)
    ensures b == GlyphOrReplacement(t, ch)
  {
    var found := FindGlyph(t, ch as nat);
    if found.Some? { return found.value; }
    found := FindGlyph(t, REPLACEMENT as nat);
    NoGlyph(t, REPLACEMENT as nat);
    return found.value;
  }

  lemma NothingPainted(t: Table, x: nat, y: nat)
    requires HasCode(t, REPLACEMENT as nat)
    ensures forall px: nat, py: nat :: !Painted(t, "", x, y, px, py)
  {
  }

  lemma Unfold(before: seq<int>, after: seq<int>, w: nat, h: nat, ink: Points, fg: int)
    requires Shows(before, after, w, h, ink, fg)
    ensures |before| == |after|
    ensures forall px: nat, py: nat :: px < w && py < h ==> (
      && Index(w, px, py) < |before|
      && after[Index(w, px, py)] == if (px, py) in ink then fg else before[Index(w, px, py)])
    ensures forall i :: w * h <= i < |before| ==> after[i] == before[i]
  {
  }

  // ---- fitting ----

  const ELLIPSIS := "..."

  function TextWidth(text: string): nat { GLYPH_WIDTH * |text| }

  function FitText(text: string, limit: nat): string {
    if TextWidth(text) <= limit then text
    else
      var fits := limit / GLYPH_WIDTH;
      if fits <= |ELLIPSIS| then text[..fits] else text[..fits - |ELLIPSIS|] + ELLIPSIS
  }

  /** The result never exceeds the limit and is as long as that allows; what is cut ends in dots when
      there is room for more than the dots, and only what is too wide is cut. */
  lemma FitTextFits(text: string, limit: nat)
    ensures var r := FitText(text, limit);
      && 10 * |r| <= limit
      && |r| == (if |text| < limit / 10 then |text| else limit / 10)
      && (r == text || (10 * |text| > limit &&
            if |r| <= 3 then r < text else r[..|r| - 3] < text && r[|r| - 3..] == "..."))
  {
    var r, fits := FitText(text, limit), limit / GLYPH_WIDTH;
    if TextWidth(text) > limit {
      assert fits < |text|;
      if fits > 3 { assert r[..|r| - 3] == text[..fits - 3]; }
    }
  }
}

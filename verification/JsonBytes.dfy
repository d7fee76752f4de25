// Which bytes printed JSON is made of: UTF-8 without control bytes, except U+007F, which is not escaped.
module JsonBytes {
  import opened Text
  import opened Bytes
  import opened Json
  import opened JsonRoundTrip

  /** U+007F stands in some string of the value, keys included. */
  predicate HasDelete(v: Value) {
    match v
    case Str(s) => DELETE in s
    case Arr(items) => HasDeleteItems(items)
    case Obj(fields) => HasDeleteFields(fields)
    case _ => false
  }

  predicate HasDeleteItems(items: Items) {
    items.Item? && (HasDelete(items.head) || HasDeleteItems(items.tail))
  }

  predicate HasDeleteFields(fields: Fields) {
    fields.Field? && (DELETE in fields.key || HasDelete(fields.value) || HasDeleteFields(fields.rest))
  }

  predicate Graphic(s: bytes) { forall b :: b in s ==> b >= 32 }

  lemma {:induction false} EscapeBytes(s: bytes)
    ensures Graphic(Escape(s)) && (DELETE in Escape(s) <==> DELETE in s)
  {
    if s != [] {
      EscapeBytes(s[1..]);
      assert s == [s[0]] + s[1..];
    }
  }

  lemma {:induction false} EscapeConcat(s: bytes, t: bytes)
    ensures Escape(s + t) == Escape(s) + Escape(t)
  {
    hide EscapeByte;
    if s == [] {
      assert s + t == t;
    } else {
      EscapeConcat(s[1..], t);
      assert (s + t)[1..] == s[1..] + t;
    }
  }

  lemma {:induction false} EscapeHigh(c: bytes)
    requires forall i :: 0 <= i < |c| ==> c[i] >= 0x80
    ensures Escape(c) == c
  {
    if c != [] { EscapeHigh(c[1..]); }
  }

  lemma CharLenOfPrefix(s: bytes)
    requires CharLen(s) > 0
    ensures CharLen(s) <= |s| && CharLen(s[..CharLen(s)]) == CharLen(s)
  {
  }

  lemma {:induction false} EscapeUtf8(s: bytes)
    requires ValidUtf8(s)
    ensures ValidUtf8(Escape(s))
    decreases |s|
  {
    if s != [] {
      var k := CharLen(s);
      CharLenOfPrefix(s);
      CharLenOfConcat(s, []);
      EscapeUtf8(s[k..]);
      var c, rest := s[..k], s[k..];
      EscapeChar(s, k);
      assert s == c + rest;
      EscapeConcat(c, rest);
      Utf8Concat(Escape(c), Escape(rest));
    }
  }

  /** The escape of one whole character. */
  lemma EscapeChar(s: bytes, k: nat)
    requires s != [] && k == CharLen(s) > 0 && k <= |s|
    ensures ValidUtf8(Escape(s[..k]))
  {
    var c := s[..k];
    CharLenOfPrefix(s);
    CharLenOfConcat(s, []);
    if s[0] < 0x80 {
      assert c == [s[0]] && [s[0]][1..] == [] && Escape([]) == [];
      assert Escape(c) == EscapeByte(s[0]) + [] == EscapeByte(s[0]);
      AsciiIsUtf8(EscapeByte(s[0]));
    } else {
      EscapeHigh(c);
      assert ValidUtf8(c) by { assert c[k..] == []; }
    }
  }

  lemma PrintStrBytes(s: bytes)
    requires ValidUtf8(s)
    ensures var p := PrintStr(s); Graphic(p) && (DELETE in p <==> DELETE in s) && ValidUtf8(p)
  {
    EscapeBytes(s);
    EscapeUtf8(s);
    AsciiIsUtf8([QUOTE]);
    Utf8Concat([QUOTE], Escape(s));
    Utf8Concat([QUOTE] + Escape(s), [QUOTE]);
  }

  /** What every printed text keeps, and what concatenation of such texts keeps. */
  predicate Printed(p: bytes, deletes: bool) {
    Graphic(p) && ValidUtf8(p) && (DELETE in p <==> deletes)
  }

  lemma PrintedConcat(p: bytes, d: bool, q: bytes, e: bool)
    requires Printed(p, d) && Printed(q, e)
    ensures Printed(p + q, d || e)
  {
    Utf8Concat(p, q);
  }

  lemma PrintedAscii(p: bytes)
    requires forall i :: 0 <= i < |p| ==> 32 <= p[i] < 127
    ensures Printed(p, false)
  {
    AsciiIsUtf8(p);
  }

  lemma PrintedInt(n: int)
    ensures Printed(PrintInt(n), false)
  {
    var s := if n < 0 then Dec(-n) else Dec(n);
    var t := PrintInt(n);
    assert forall i :: 0 <= i < |s| ==> 48 <= Ascii(s)[i] <= 57;
    PrintedAscii(t);
  }

  lemma FractionBytes(s: bytes, i: nat)
    requires FractionLen(s).Some? && i < FractionLen(s).value
    ensures s[i] == 46 || IsDigitByte(s[i])
  {
    if i > 0 { assert s[i] == s[1..][i - 1]; }
  }

  lemma ExponentBytes(s: bytes, i: nat)
    requires ExponentLen(s).Some? && i < ExponentLen(s).value
    ensures s[i] in {43, 45, 69, 101} || IsDigitByte(s[i])
  {
    var sign := if |s| > 1 && (s[1] == 43 || s[1] == 45) then 2 else 1;
    if i >= sign { assert s[i] == s[sign..][i - sign]; }
  }

  lemma PrintedLexeme(s: bytes)
    requires IsLexeme(s)
    ensures Printed(s, false)
  {
    var sign, n, f, e := LexemeParts(s);
    hide IsLexeme, ReadDigits, FractionLen, ExponentLen, DigitRun, NotInteger, Printed;
    forall i | 0 <= i < |s| ensures 32 <= s[i] < 127 {
      if sign <= i < sign + n {
        assert s[i] == s[sign..][..n][i - sign];
      } else if sign + n <= i < sign + n + f {
        FractionBytes(s[sign + n..], i - sign - n);
      } else if sign + n + f <= i {
        ExponentBytes(s[sign + n + f..], i - sign - n - f);
      }
    }
    PrintedAscii(s);
  }

  /** Printed JSON is UTF-8 without control bytes below U+0020, and contains U+007F exactly when a string of
      the value does. */
  lemma {:induction false} PrintBytes(v: Value)
    requires Holds(v)
    ensures Printed(Print(v), HasDelete(v))
    decreases v, 1
  {
    match v
    case Num(n) => PrintedInt(n);
    case Real(lexeme) => PrintedLexeme(lexeme);
    case Str(s) => PrintStrBytes(s);
    case Arr(items) =>
      if items.End? { PrintedAscii(Print(v)); } else {
        ItemsBytes(items);
        PrintedAscii([OPEN_ARR]);
        PrintedConcat([OPEN_ARR], false, PrintItems(items), HasDeleteItems(items));
      }
    case Obj(fields) =>
      if fields.NoFields? { PrintedAscii(Print(v)); } else {
        FieldsBytes(fields);
        PrintedAscii([OPEN_OBJ]);
        PrintedConcat([OPEN_OBJ], false, PrintFields(fields), HasDeleteFields(fields));
      }
    case _ => PrintedAscii(Print(v));
  }

  lemma {:induction false} ItemsBytes(items: Items)
    requires items.Item? && HoldsItems(items)
    ensures Printed(PrintItems(items), HasDeleteItems(items))
    decreases items, 0
  {
    PrintBytes(items.head);
    if items.tail.End? {
      PrintedAscii([CLOSE_ARR]);
      PrintedConcat(Print(items.head), HasDelete(items.head), [CLOSE_ARR], false);
    } else {
      ItemsBytes(items.tail);
      PrintedAscii([COMMA]);
      PrintedConcat([COMMA], false, PrintItems(items.tail), HasDeleteItems(items.tail));
      PrintedConcat(Print(items.head), HasDelete(items.head),
                    [COMMA] + PrintItems(items.tail), HasDeleteItems(items.tail));
    }
  }

  lemma MemberBytes(key: bytes, v: Value, end: bytes, deletes: bool)
    requires ValidUtf8(key) && Printed(Print(v), HasDelete(v)) && Printed(end, deletes)
    ensures Printed(PrintStr(key) + ([COLON] + (Print(v) + end)), DELETE in key || HasDelete(v) || deletes)
  {
    hide Printed, HasDelete, Print;
    PrintedKey(key);
    PrintedConcat(Print(v), HasDelete(v), end, deletes);
    PrintedAscii([COLON]);
    PrintedConcat([COLON], false, Print(v) + end, HasDelete(v) || deletes);
    PrintedConcat(PrintStr(key), DELETE in key, [COLON] + (Print(v) + end), HasDelete(v) || deletes);
  }

  lemma PrintedKey(key: bytes)
    requires ValidUtf8(key)
    ensures Printed(PrintStr(key), DELETE in key)
  {
    PrintStrBytes(key);
  }

  lemma {:induction false} FieldsBytes(fields: Fields)
    requires fields.Field? && HoldsFields(fields)
    ensures Printed(PrintFields(fields), HasDeleteFields(fields))
    decreases fields, 0
  {
    PrintBytes(fields.value);
    if fields.rest.NoFields? {
      PrintedAscii([CLOSE_OBJ]);
      MemberBytes(fields.key, fields.value, [CLOSE_OBJ], false);
    } else {
      FieldsBytes(fields.rest);
      PrintedAscii([COMMA]);
      PrintedConcat([COMMA], false, PrintFields(fields.rest), HasDeleteFields(fields.rest));
      MemberBytes(fields.key, fields.value, [COMMA] + PrintFields(fields.rest), HasDeleteFields(fields.rest));
    }
  }
}

// The manifest exported as shell assignments for `eval`, and the shell's reading of that text: single
// quotes and backslashes as in sections 2.2.1 and 2.2.2 of the POSIX Shell Command Language.
module Shell {
  import opened Text

  datatype Keyring = Keyring(path: string, sha256: string)

  datatype Blob = Blob(path: string, sha256: string, into: string, strip: nat)

  datatype File = File(path: string, sha256: string, into: string, mode: string)

  datatype Manifest = Manifest(
    id: string, builder: string, suite: string, packages: seq<string>, firmware: seq<string>, sources: seq<string>,
    mode: string, command: string, memoryMb: nat, cpus: nat, diskGb: nat, dataMb: nat, level: string, gpu: string,
    keyring: Option<Keyring>, blobs: seq<Blob>, files: seq<File>)

  type Pairs = seq<(string, string)>

  // ---- what is to be assigned ----

  function Join(parts: seq<string>, sep: string): string {
    if parts == [] then "" else if |parts| == 1 then parts[0] else parts[0] + sep + Join(parts[1..], sep)
  }

  /** Assignments come in groups: a single variable, or one of the three lists, element by element. */
  datatype Key = Key(group: nat, index: nat, field: nat)

  const SOURCES: nat := 6
  const BLOBS: nat := 18
  const FILES: nat := 20

  function ScalarName(group: nat): string {
    match group
    case 0 => "MIYORI_ID"
    case 1 => "MIYORI_BUILDER"
    case 2 => "MIYORI_SUITE"
    case 3 => "MIYORI_PACKAGES"
    case 4 => "MIYORI_FIRMWARE"
    case 5 => "MIYORI_SOURCE_COUNT"
    case 7 => "MIYORI_MODE"
    case 8 => "MIYORI_COMMAND"
    case 9 => "MIYORI_MEMORY_MB"
    case 10 => "MIYORI_CPUS"
    case 11 => "MIYORI_DISK_GB"
    case 12 => "MIYORI_DATA_MB"
    case 13 => "MIYORI_LEVEL"
    case 14 => "MIYORI_GPU"
    case 15 => "MIYORI_KEYRING_PATH"
    case 16 => "MIYORI_KEYRING_SHA256"
    case 17 => "MIYORI_BLOB_COUNT"
    case _ => "MIYORI_FILE_COUNT"
  }

  function FieldName(field: nat): string {
    match field
    case 0 => "_PATH"
    case 1 => "_SHA256"
    case 2 => "_INTO"
    case 3 => "_STRIP"
    case _ => "_MODE"
  }

  function KeyName(k: Key): string {
    if k.group == SOURCES then "MIYORI_SOURCE_" + Dec(k.index)
    else if k.group == BLOBS then "MIYORI_BLOB_" + Dec(k.index) + FieldName(k.field)
    else if k.group == FILES then "MIYORI_FILE_" + Dec(k.index) + FieldName(k.field)
    else ScalarName(k.group)
  }

  predicate IsKey(k: Key) {
    if k.group == SOURCES then k.field == 0
    else if k.group == BLOBS then k.field <= 3
    else if k.group == FILES then k.field <= 2 || k.field == 4
    else k.group <= 19 && k.index == 0 && k.field == 0
  }

  type Assignments = seq<(Key, string)>

  function Scalar(group: nat, value: string): (Key, string) { (Key(group, 0, 0), value) }

  function Head(m: Manifest): Assignments {
    [Scalar(0, m.id), Scalar(1, m.builder), Scalar(2, m.suite), Scalar(3, Join(m.packages, ",")),
     Scalar(4, Join(m.firmware, " ")), Scalar(5, Dec(|m.sources|))]
  }

  function SourceItems(sources: seq<string>): Assignments {
    if sources == [] then []
    else
      var i := |sources| - 1;
      SourceItems(sources[..i]) + [(Key(SOURCES, i, 0), sources[i])]
  }

  function Middle(m: Manifest): Assignments {
    var (path, sha256) := match m.keyring { case Some(k) => (k.path, k.sha256) case None => ("", "") };
    [Scalar(7, m.mode), Scalar(8, m.command), Scalar(9, Dec(m.memoryMb)), Scalar(10, Dec(m.cpus)),
     Scalar(11, Dec(m.diskGb)), Scalar(12, Dec(m.dataMb)), Scalar(13, m.level), Scalar(14, m.gpu),
     Scalar(15, path), Scalar(16, sha256), Scalar(17, Dec(|m.blobs|))]
  }

  function BlobItem(i: nat, b: Blob): Assignments {
    [(Key(BLOBS, i, 0), b.path), (Key(BLOBS, i, 1), b.sha256), (Key(BLOBS, i, 2), b.into),
     (Key(BLOBS, i, 3), Dec(b.strip))]
  }

  function BlobItems(blobs: seq<Blob>): Assignments {
    if blobs == [] then []
    else
      var i := |blobs| - 1;
      BlobItems(blobs[..i]) + BlobItem(i, blobs[i])
  }

  function FileItem(i: nat, f: File): Assignments {
    [(Key(FILES, i, 0), f.path), (Key(FILES, i, 1), f.sha256), (Key(FILES, i, 2), f.into), (Key(FILES, i, 4), f.mode)]
  }

  function FileItems(files: seq<File>): Assignments {
    if files == [] then []
    else
      var i := |files| - 1;
      FileItems(files[..i]) + FileItem(i, files[i])
  }

  /** Every assignment of the export, in order. */
  function Intended(m: Manifest): Assignments {
    Head(m) + SourceItems(m.sources) + Middle(m) + BlobItems(m.blobs)
    + [Scalar(19, Dec(|m.files|))] + FileItems(m.files)
  }

  // ---- the text ----

  function Escaped(v: string): string {
    if v == "" then "" else (if v[0] == '\'' then ['\'', '\\', '\'', '\''] else [v[0]]) + Escaped(v[1..])
  }

  function ShellQuote(v: string): string { ['\''] + Escaped(v) + ['\''] }

  function AssignmentText(a: (Key, string)): string { KeyName(a.0) + ['='] + ShellQuote(a.1) + ['\n'] }

  function ExportText(l: Assignments): string {
    if l == [] then "" else ExportText(l[..|l| - 1]) + AssignmentText(l[|l| - 1])
  }

  // ---- the shell ----

  predicate NameStart(c: char) { 'A' <= c <= 'Z' || 'a' <= c <= 'z' || c == '_' }

  predicate NameChar(c: char) { NameStart(c) || IsDigit(c) }

  function NameLength(s: string): (n: nat)
    ensures n <= |s|
  {
    if s == "" || !NameChar(s[0]) then 0 else 1 + NameLength(s[1..])
  }

  function Prepend(c: char, r: Option<(string, string)>): Option<(string, string)> {
    match r
    case None => None
    case Some((v, rest)) => Some(([c] + v, rest))
  }

  /** The rest of a word up to its newline; None outside the part of the language modelled here. */
  function ReadValue(s: string): (r: Option<(string, string)>)
    ensures r.Some? ==> |r.value.1| < |s|
    decreases |s|
  {
    if s == "" then None
    else if s[0] == '\n' then Some(("", s[1..]))
    else if s[0] == '\'' then ReadQuoted(s[1..])
    else if s[0] == '\\' then
      if |s| < 2 || s[1] == '\0' then None
      else if s[1] == '\n' then ReadValue(s[2..])
      else Prepend(s[1], ReadValue(s[2..]))
    else if NameChar(s[0]) then Prepend(s[0], ReadValue(s[1..]))
    else None
  }

  /** Between single quotes every character stands for itself. */
  function ReadQuoted(s: string): (r: Option<(string, string)>)
    ensures r.Some? ==> |r.value.1| < |s|
    decreases |s|
  {
    if s == "" || s[0] == '\0' then None
    else if s[0] == '\'' then ReadValue(s[1..])
    else Prepend(s[0], ReadQuoted(s[1..]))
  }

  /** The assignments a text of one assignment per line performs, in order. */
  function Evaluate(s: string): Option<Pairs>
    decreases |s|
  {
    if s == "" then Some([])
    else
      var n := NameLength(s);
      if n == 0 || IsDigit(s[0]) || n == |s| || s[n] != '=' then None
      else
        match ReadValue(s[n + 1..])
        case None => None
        case Some((v, rest)) =>
          match Evaluate(rest)
          case None => None
          case Some(more) => Some([(s[..n], v)] + more)
  }

  // ---- reading back what was written ----

  predicate NoNul(v: string) { '\0' !in v }

  lemma {:induction false} QuotedReads(v: string, rest: string)
    requires NoNul(v)
    ensures ReadQuoted(Escaped(v) + ['\''] + ['\n'] + rest) == Some((v, rest))
  {
    var tail := ['\''] + ['\n'] + rest;
    if v == "" {
      assert Escaped(v) + ['\''] + ['\n'] + rest == tail;
      assert tail[1..] == ['\n'] + rest && ([ '\n'] + rest)[1..] == rest;
    } else {
      var more := Escaped(v[1..]) + ['\''] + ['\n'] + rest;
      QuotedReads(v[1..], rest);
      assert v == [v[0]] + v[1..];
      if v[0] == '\'' {
        QuoteReads(more);
        assert Escaped(v) + ['\''] + ['\n'] + rest == ['\'', '\\', '\'', '\''] + more;
      } else {
        assert Escaped(v) + ['\''] + ['\n'] + rest == [v[0]] + more;
        assert ([v[0]] + more)[1..] == more;
      }
    }
  }

  /** A quote inside the value: close, escaped quote, open. */
  lemma QuoteReads(more: string)
    ensures ReadQuoted(['\'', '\\', '\'', '\''] + more) == Prepend('\'', ReadQuoted(more))
  {
    var s := ['\'', '\\', '\'', '\''] + more;
    var t := ['\\', '\'', '\''] + more;
    assert s[1..] == t;
    assert t[2..] == ['\''] + more && (['\''] + more)[1..] == more;
    assert ReadValue(['\''] + more) == ReadQuoted(more);
    assert ReadValue(t) == Prepend('\'', ReadValue(['\''] + more));
  }

  lemma ValueReads(v: string, rest: string)
    requires NoNul(v)
    ensures ReadValue(ShellQuote(v) + ['\n'] + rest) == Some((v, rest))
  {
    QuotedReads(v, rest);
    var s := ShellQuote(v) + ['\n'] + rest;
    assert s[1..] == Escaped(v) + ['\''] + ['\n'] + rest;
  }

  predicate IsName(s: string) { s != "" && !IsDigit(s[0]) && forall c :: c in s ==> NameChar(c) }

  lemma {:induction false} NameLengthOf(name: string, rest: string)
    requires (forall c :: c in name ==> NameChar(c)) && rest != "" && rest[0] == '='
    ensures NameLength(name + rest) == |name|
  {
    if name == "" {
      assert name + rest == rest;
    } else {
      assert name[0] in name;
      NameLengthOf(name[1..], rest);
      assert (name + rest)[1..] == name[1..] + rest;
    }
  }

  lemma AssignmentReads(name: string, v: string, rest: string)
    requires IsName(name) && NoNul(v)
    ensures Evaluate(name + ['='] + ShellQuote(v) + ['\n'] + rest) ==
      if Evaluate(rest).None? then None else Some([(name, v)] + Evaluate(rest).value)
  {
    hide ShellQuote, ReadValue;
    var s := name + ['='] + ShellQuote(v) + ['\n'] + rest;
    var tail := ['='] + ShellQuote(v) + ['\n'] + rest;
    assert s == name + tail;
    NameLengthOf(name, tail);
    ValueReads(v, rest);
    assert s[|name| + 1..] == ShellQuote(v) + ['\n'] + rest;
    assert s[..|name|] == name && s[0] == name[0] && s[|name|] == '=';
  }

  function Named(l: Assignments): Pairs {
    if l == [] then [] else Named(l[..|l| - 1]) + [(KeyName(l[|l| - 1].0), l[|l| - 1].1)]
  }

  predicate Readable(l: Assignments) { forall a :: a in l ==> IsName(KeyName(a.0)) && NoNul(a.1) }

  lemma {:induction false} ExportReads(l: Assignments, rest: string)
    requires Readable(l) && Evaluate(rest).Some?
    ensures Evaluate(ExportText(l) + rest) == Some(Named(l) + Evaluate(rest).value)
  {
    hide Evaluate, ShellQuote, KeyName;
    if l == [] {
      assert ExportText(l) + rest == rest && Named(l) + Evaluate(rest).value == Evaluate(rest).value;
    } else {
      var init, a := l[..|l| - 1], l[|l| - 1];
      assert a in l && forall x :: x in init ==> x in l;
      AssignmentReads(KeyName(a.0), a.1, rest);
      assert AssignmentText(a) + rest == KeyName(a.0) + ['='] + ShellQuote(a.1) + ['\n'] + rest;
      ExportReads(init, AssignmentText(a) + rest);
      assert ExportText(l) + rest == ExportText(init) + (AssignmentText(a) + rest);
      var pair, more := (KeyName(a.0), a.1), Evaluate(rest).value;
      assert Named(init) + ([pair] + more) == Named(init) + [pair] + more;
    }
  }

  // ---- keys ----

  predicate Before(a: Key, b: Key) {
    a.group < b.group || (a.group == b.group && (a.index < b.index || (a.index == b.index && a.field < b.field)))
  }

  predicate Ascending(l: Assignments) { forall i, j :: 0 <= i < j < |l| ==> Before(l[i].0, l[j].0) }

  /** All keys of `l` are keys of groups `lo` to `hi`. */
  predicate Within(l: Assignments, lo: nat, hi: nat) { forall a :: a in l ==> IsKey(a.0) && lo <= a.0.group <= hi }

  lemma AscendingConcat(a: Assignments, b: Assignments, lo: nat, mid: nat, hi: nat)
    requires Ascending(a) && Ascending(b) && Within(a, lo, mid) && Within(b, mid + 1, hi) && lo <= mid
    ensures Ascending(a + b) && Within(a + b, lo, hi + mid)
    ensures mid < hi ==> Within(a + b, lo, hi)
  {
    forall i, j | 0 <= i < j < |a + b| ensures Before((a + b)[i].0, (a + b)[j].0) {
      if i < |a| <= j { assert a[i] in a && b[j - |a|] in b; }
    }
  }

  lemma {:induction false} SourceKeys(sources: seq<string>)
    ensures var l := SourceItems(sources); Ascending(l) && Within(l, SOURCES, SOURCES)
    ensures forall a :: a in SourceItems(sources) ==> a.0.index < |sources|
  {
    if sources != [] {
      var i := |sources| - 1;
      SourceKeys(sources[..i]);
      var init := SourceItems(sources[..i]);
      assert forall k :: 0 <= k < |init| ==> init[k] in init;
    }
  }

  lemma AscendingAppend(a: Assignments, b: Assignments)
    requires Ascending(a) && Ascending(b) && forall x, y :: x in a && y in b ==> Before(x.0, y.0)
    ensures Ascending(a + b)
  {
    hide Before;
    forall i, j | 0 <= i < j < |a + b| ensures Before((a + b)[i].0, (a + b)[j].0) {
      if i < |a| <= j { assert a[i] in a && b[j - |a|] in b; }
    }
  }

  lemma BlobItemKeys(i: nat, b: Blob)
    ensures var l := BlobItem(i, b); Ascending(l) && Within(l, BLOBS, BLOBS) && forall a :: a in l ==> a.0.index == i
  {
    hide Dec;
    var l := BlobItem(i, b);
    assert forall k :: 0 <= k < |l| ==> l[k].0 == Key(BLOBS, i, k);
  }

  lemma {:induction false} BlobKeys(blobs: seq<Blob>)
    ensures var l := BlobItems(blobs); Ascending(l) && Within(l, BLOBS, BLOBS)
    ensures forall a :: a in BlobItems(blobs) ==> a.0.index < |blobs|
  {
    if blobs != [] {
      hide Ascending, BlobItem;
      var i := |blobs| - 1;
      BlobKeys(blobs[..i]);
      BlobItemKeys(i, blobs[i]);
      AscendingAppend(BlobItems(blobs[..i]), BlobItem(i, blobs[i]));
    } else {
      assert BlobItems(blobs) == [];
    }
  }

  lemma FileItemKeys(i: nat, f: File)
    ensures var l := FileItem(i, f); Ascending(l) && Within(l, FILES, FILES) && forall a :: a in l ==> a.0.index == i
  {
    var l := FileItem(i, f);
    assert forall k :: 0 <= k < |l| ==> l[k].0 == Key(FILES, i, if k < 3 then k else 4);
  }

  lemma {:induction false} FileKeys(files: seq<File>)
    ensures var l := FileItems(files); Ascending(l) && Within(l, FILES, FILES)
    ensures forall a :: a in FileItems(files) ==> a.0.index < |files|
  {
    if files != [] {
      hide Ascending, FileItem;
      var i := |files| - 1;
      FileKeys(files[..i]);
      FileItemKeys(i, files[i]);
      AscendingAppend(FileItems(files[..i]), FileItem(i, files[i]));
    } else {
      assert FileItems(files) == [];
    }
  }

  lemma IntendedAscending(m: Manifest)
    ensures Ascending(Intended(m)) && Within(Intended(m), 0, FILES)
  {
    hide Before;
    ScalarGroups(m);
    SourceKeys(m.sources);
    BlobKeys(m.blobs);
    FileKeys(m.files);
    hide Ascending, Within, Head, SourceItems, Middle, BlobItems, FileItems, Scalar;
    AscendingConcat(Head(m), SourceItems(m.sources), 0, 5, 6);
    AscendingConcat(Head(m) + SourceItems(m.sources), Middle(m), 0, 6, 17);
    AscendingConcat(Head(m) + SourceItems(m.sources) + Middle(m), BlobItems(m.blobs), 0, 17, 18);
    var l := Head(m) + SourceItems(m.sources) + Middle(m) + BlobItems(m.blobs);
    var last := [Scalar(19, Dec(|m.files|))];
    AscendingConcat(l, last, 0, 18, 19);
    AscendingConcat(l + last, FileItems(m.files), 0, 19, 20);
  }

  /** Single variables, one group after the other. */
  predicate Numbered(l: Assignments, lo: nat) { forall i :: 0 <= i < |l| ==> l[i].0 == Key(lo + i, 0, 0) }

  lemma NumberedAscending(l: Assignments, lo: nat, hi: nat)
    requires Numbered(l, lo) && hi == lo + |l| - 1 && hi <= 19
    requires (hi < SOURCES || SOURCES < lo) && (hi < BLOBS || BLOBS < lo)
    ensures Ascending(l) && Within(l, lo, hi)
  {
  }

  lemma HeadNumbered(m: Manifest)
    ensures Numbered(Head(m), 0) && |Head(m)| == 6
  {
    hide Join, Dec;
  }

  lemma MiddleNumbered(m: Manifest)
    ensures Numbered(Middle(m), 7) && |Middle(m)| == 11
  {
    hide Join, Dec;
  }

  lemma ScalarGroups(m: Manifest)
    ensures Ascending(Head(m)) && Within(Head(m), 0, 5)
    ensures Ascending(Middle(m)) && Within(Middle(m), 7, 17)
    ensures var last := [Scalar(19, Dec(|m.files|))]; Ascending(last) && Within(last, 19, 19)
  {
    hide Head, Middle, Dec, Ascending, Within, Numbered;
    HeadNumbered(m);
    MiddleNumbered(m);
    NumberedAscending(Head(m), 0, 5);
    NumberedAscending(Middle(m), 7, 17);
    LastNumbered(Dec(|m.files|));
    NumberedAscending([Scalar(19, Dec(|m.files|))], 19, 19);
  }

  lemma LastNumbered(v: string)
    ensures Numbered([Scalar(19, v)], 19)
  {
  }

  // ---- names tell keys apart ----

  /** What tells the names of the single variables apart: their length and two characters. */
  predicate HasPrint(group: nat, length: nat, a: char, b: char) {
    var s := ScalarName(group);
    && |s| == length && s[7] == a && s[8] == b
    && (|s| > 12 ==> !IsDigit(s[12])) && (|s| > 14 ==> !IsDigit(s[14]))
    && s[0] == 'M' && forall i :: 0 <= i < |s| ==> NameChar(s[i])
  }

  lemma Prints0()
    ensures HasPrint(0, 9, 'I', 'D')
    ensures HasPrint(1, 14, 'B', 'U')
    ensures HasPrint(2, 12, 'S', 'U')
  {
  }

  lemma Prints1()
    ensures HasPrint(3, 15, 'P', 'A')
    ensures HasPrint(4, 15, 'F', 'I')
    ensures HasPrint(5, 19, 'S', 'O')
  {
  }

  lemma Prints2()
    ensures HasPrint(7, 11, 'M', 'O')
    ensures HasPrint(8, 14, 'C', 'O')
    ensures HasPrint(9, 16, 'M', 'E')
  {
  }

  lemma Prints3()
    ensures HasPrint(10, 11, 'C', 'P')
    ensures HasPrint(11, 14, 'D', 'I')
    ensures HasPrint(12, 14, 'D', 'A')
  {
  }

  lemma Prints4()
    ensures HasPrint(13, 12, 'L', 'E')
    ensures HasPrint(14, 10, 'G', 'P')
    ensures HasPrint(15, 19, 'K', 'E')
  {
  }

  lemma Prints5()
    ensures HasPrint(16, 21, 'K', 'E')
    ensures HasPrint(17, 17, 'B', 'L')
    ensures HasPrint(19, 17, 'F', 'I')
  {
  }

  lemma Prints()
    ensures HasPrint(0, 9, 'I', 'D')
    ensures HasPrint(1, 14, 'B', 'U')
    ensures HasPrint(2, 12, 'S', 'U')
    ensures HasPrint(3, 15, 'P', 'A')
    ensures HasPrint(4, 15, 'F', 'I')
    ensures HasPrint(5, 19, 'S', 'O')
    ensures HasPrint(7, 11, 'M', 'O')
    ensures HasPrint(8, 14, 'C', 'O')
    ensures HasPrint(9, 16, 'M', 'E')
    ensures HasPrint(10, 11, 'C', 'P')
    ensures HasPrint(11, 14, 'D', 'I')
    ensures HasPrint(12, 14, 'D', 'A')
    ensures HasPrint(13, 12, 'L', 'E')
    ensures HasPrint(14, 10, 'G', 'P')
    ensures HasPrint(15, 19, 'K', 'E')
    ensures HasPrint(16, 21, 'K', 'E')
    ensures HasPrint(17, 17, 'B', 'L')
    ensures HasPrint(19, 17, 'F', 'I')
  {
    hide HasPrint;
    Prints0();
    Prints1();
    Prints2();
    Prints3();
    Prints4();
    Prints5();
  }

  predicate ScalarGroup(group: nat) { group <= 19 && group != SOURCES && group != BLOBS }

  lemma ScalarNamesDiffer(g: nat, h: nat)
    requires ScalarGroup(g) && ScalarGroup(h) && g != h
    ensures ScalarName(g) != ScalarName(h)
  {
    hide ScalarName;
    Prints();
  }

  lemma ScalarNames(g: nat)
    requires ScalarGroup(g)
    ensures var s := ScalarName(g);
      && (|s| > 12 ==> !IsDigit(s[12])) && (|s| > 14 ==> !IsDigit(s[14])) && IsName(s)
  {
    hide ScalarName;
    Prints();
  }

  /** Names of list elements: the fixed part, the index, and the field. */
  lemma IndexedName(prefix: string, index: nat, suffix: string)
    requires prefix != "" && NameStart(prefix[0])
    requires (forall c :: c in prefix ==> NameChar(c)) && forall c :: c in suffix ==> NameChar(c)
    ensures var s := prefix + Dec(index) + suffix; IsName(s) && IsDigit(s[|prefix|])
  {
    assert forall c :: c in Dec(index) ==> IsDigit(c);
  }

  lemma IndexedInjective(prefix: string, i: nat, j: nat, suffix: string)
    requires prefix + Dec(i) + suffix == prefix + Dec(j) + suffix
    ensures i == j
  {
    var s, t := prefix + Dec(i) + suffix, prefix + Dec(j) + suffix;
    assert Dec(i) == s[|prefix|..|s| - |suffix|];
    assert Dec(j) == t[|prefix|..|t| - |suffix|];
    DecInjective(i, j);
  }

  /** The five field names end in five different characters. */
  lemma FieldNames(field: nat)
    requires field <= 4
    ensures var s := FieldName(field);
      && s != "" && (forall i :: 0 <= i < |s| ==> NameChar(s[i]))
      && s[|s| - 1] == match field { case 0 => 'H' case 1 => '6' case 2 => 'O' case 3 => 'P' case _ => 'E' }
  {
  }

  lemma PrefixChars()
    ensures forall c :: c in "MIYORI_SOURCE_" ==> NameChar(c)
    ensures forall c :: c in "MIYORI_BLOB_" ==> NameChar(c)
    ensures forall c :: c in "MIYORI_FILE_" ==> NameChar(c)
  {
  }

  function Prefix(group: nat): string {
    if group == SOURCES then "MIYORI_SOURCE_" else if group == BLOBS then "MIYORI_BLOB_" else "MIYORI_FILE_"
  }

  function Suffix(k: Key): string { if k.group == SOURCES then "" else FieldName(k.field) }

  predicate Indexed(k: Key) { k.group == SOURCES || k.group == BLOBS || k.group == FILES }

  lemma IndexedKeyName(k: Key)
    requires IsKey(k) && Indexed(k)
    ensures KeyName(k) == Prefix(k.group) + Dec(k.index) + Suffix(k)
    ensures IsName(KeyName(k)) && IsDigit(KeyName(k)[|Prefix(k.group)|])
  {
    hide FieldName, Dec;
    PrefixChars();
    if k.group == SOURCES {
      assert KeyName(k) + "" == KeyName(k);
    } else {
      FieldNames(k.field);
    }
    IndexedName(Prefix(k.group), k.index, Suffix(k));
  }

  lemma KeyIsName(k: Key)
    requires IsKey(k)
    ensures IsName(KeyName(k))
  {
    hide IsName, ScalarName, Prefix, Suffix;
    if Indexed(k) { IndexedKeyName(k); } else { ScalarNames(k.group); }
  }

  lemma SameSuffix(j: Key, k: Key)
    requires IsKey(j) && IsKey(k) && Indexed(j) && j.group == k.group && KeyName(j) == KeyName(k)
    ensures j == k
  {
    hide FieldName, Dec, KeyName;
    IndexedKeyName(j);
    IndexedKeyName(k);
    if j.group != SOURCES {
      FieldNames(j.field);
      FieldNames(k.field);
      var s, t := KeyName(j), KeyName(k);
      assert s[|s| - 1] == Suffix(j)[|Suffix(j)| - 1] && t[|t| - 1] == Suffix(k)[|Suffix(k)| - 1];
      assert j.field == k.field;
    }
    IndexedInjective(Prefix(j.group), j.index, k.index, Suffix(j));
  }

  lemma PrefixesDiffer(j: Key, k: Key)
    requires IsKey(j) && IsKey(k) && Indexed(j) && Indexed(k) && j.group != k.group
    ensures KeyName(j) != KeyName(k)
  {
    hide FieldName, Dec, KeyName, IsName;
    IndexedKeyName(j);
    IndexedKeyName(k);
    assert KeyName(j)[7] == Prefix(j.group)[7] && KeyName(k)[7] == Prefix(k.group)[7];
  }

  /** Different keys have different names. */
  lemma KeyNamesDiffer(j: Key, k: Key)
    requires IsKey(j) && IsKey(k) && j != k
    ensures KeyName(j) != KeyName(k)
  {
    hide FieldName, Dec, IsName, ScalarName, NameChar;
    if Indexed(j) && Indexed(k) {
      if j.group != k.group { PrefixesDiffer(j, k); }
      else if KeyName(j) == KeyName(k) { SameSuffix(j, k); }
    } else if !Indexed(j) && !Indexed(k) {
      ScalarNamesDiffer(j.group, k.group);
    } else {
      var x, y := if Indexed(j) then j else k, if Indexed(j) then k else j;
      IndexedKeyName(x);
      ScalarNames(y.group);
    }
  }

  // ---- the whole export ----

  /** A shell variable cannot hold NUL. */
  predicate NoNulValues(m: Manifest) { forall a :: a in Intended(m) ==> NoNul(a.1) }

  /** Evaluating the export performs exactly the intended assignments, in order, to distinct variables. */
  lemma ExportRoundTrip(m: Manifest)
    requires NoNulValues(m)
    ensures Evaluate(ExportText(Intended(m))) == Some(Named(Intended(m)))
    ensures forall i, j :: 0 <= i < j < |Named(Intended(m))| ==> Named(Intended(m))[i].0 != Named(Intended(m))[j].0
  {
    hide Evaluate, ExportText, Named, Intended, KeyName, IsName;
    var l := Intended(m);
    IntendedAscending(m);
    forall a | a in l ensures IsName(KeyName(a.0)) { KeyIsName(a.0); }
    EvaluateNothing();
    ExportReads(l, "");
    assert ExportText(l) + "" == ExportText(l) && Named(l) + [] == Named(l);
    NamesDistinct(l);
  }

  lemma EvaluateNothing()
    ensures Evaluate("") == Some([])
  {
  }

  lemma {:induction false} NamedAt(l: Assignments)
    ensures |Named(l)| == |l| && forall i :: 0 <= i < |l| ==> Named(l)[i] == (KeyName(l[i].0), l[i].1)
  {
    if l != [] { NamedAt(l[..|l| - 1]); }
  }

  lemma NamesDistinct(l: Assignments)
    requires Ascending(l) && Within(l, 0, FILES)
    ensures forall i, j :: 0 <= i < j < |Named(l)| ==> Named(l)[i].0 != Named(l)[j].0
  {
    hide KeyName, Named;
    NamedAt(l);
    forall i, j | 0 <= i < j < |l| ensures KeyName(l[i].0) != KeyName(l[j].0) {
      assert Before(l[i].0, l[j].0) && l[i] in l && l[j] in l;
      KeyNamesDiffer(l[i].0, l[j].0);
    }
  }

  // ---- the lists a script reads back ----

  /** The value of a variable after the assignments; the last one wins. */
  function Value(env: Pairs, name: string): string {
    if env == [] then ""
    else if env[|env| - 1].0 == name then env[|env| - 1].1
    else Value(env[..|env| - 1], name)
  }

  function Number(v: string): nat { if AllDigits(v) then ReadDec(v) else 0 }

  function ReadSources(env: Pairs): seq<string> {
    seq(Number(Value(env, "MIYORI_SOURCE_COUNT")), i requires 0 <= i => Value(env, "MIYORI_SOURCE_" + Dec(i)))
  }

  function BlobValue(env: Pairs, i: nat, field: string): string { Value(env, "MIYORI_BLOB_" + Dec(i) + field) }

  function ReadBlobs(env: Pairs): seq<Blob> {
    seq(Number(Value(env, "MIYORI_BLOB_COUNT")), i requires 0 <= i =>
      Blob(BlobValue(env, i, "_PATH"), BlobValue(env, i, "_SHA256"), BlobValue(env, i, "_INTO"),
           Number(BlobValue(env, i, "_STRIP"))))
  }

  function FileValue(env: Pairs, i: nat, field: string): string { Value(env, "MIYORI_FILE_" + Dec(i) + field) }

  function ReadFiles(env: Pairs): seq<File> {
    seq(Number(Value(env, "MIYORI_FILE_COUNT")), i requires 0 <= i =>
      File(FileValue(env, i, "_PATH"), FileValue(env, i, "_SHA256"), FileValue(env, i, "_INTO"),
           FileValue(env, i, "_MODE")))
  }

  /** The names the elements of the lists are exported under. */
  lemma ElementNames(i: nat)
    ensures KeyName(Key(SOURCES, i, 0)) == "MIYORI_SOURCE_" + Dec(i)
    ensures KeyName(Key(BLOBS, i, 0)) == "MIYORI_BLOB_" + Dec(i) + "_PATH"
    ensures KeyName(Key(BLOBS, i, 1)) == "MIYORI_BLOB_" + Dec(i) + "_SHA256"
    ensures KeyName(Key(BLOBS, i, 2)) == "MIYORI_BLOB_" + Dec(i) + "_INTO"
    ensures KeyName(Key(BLOBS, i, 3)) == "MIYORI_BLOB_" + Dec(i) + "_STRIP"
    ensures KeyName(Key(FILES, i, 0)) == "MIYORI_FILE_" + Dec(i) + "_PATH"
    ensures KeyName(Key(FILES, i, 1)) == "MIYORI_FILE_" + Dec(i) + "_SHA256"
    ensures KeyName(Key(FILES, i, 2)) == "MIYORI_FILE_" + Dec(i) + "_INTO"
    ensures KeyName(Key(FILES, i, 4)) == "MIYORI_FILE_" + Dec(i) + "_MODE"
  {
    hide Dec;
  }

  lemma {:induction false} ValueAt(env: Pairs, i: nat)
    requires i < |env| && forall j, k :: 0 <= j < k < |env| ==> env[j].0 != env[k].0
    ensures Value(env, env[i].0) == env[i].1
  {
    if i < |env| - 1 {
      ValueAt(env[..|env| - 1], i);
      assert env[i].0 != env[|env| - 1].0;
    }
  }

  lemma IntendedValue(m: Manifest, a: (Key, string))
    requires a in Intended(m)
    ensures Value(Named(Intended(m)), KeyName(a.0)) == a.1
  {
    hide Intended, Named, KeyName, Value;
    var l := Intended(m);
    IntendedAscending(m);
    NamesDistinct(l);
    NamedAt(l);
    var i :| 0 <= i < |l| && l[i] == a;
    ValueAt(Named(l), i);
  }

  lemma {:induction false} SourceItemAt(sources: seq<string>, i: nat)
    requires i < |sources|
    ensures (Key(SOURCES, i, 0), sources[i]) in SourceItems(sources)
  {
    if i < |sources| - 1 { SourceItemAt(sources[..|sources| - 1], i); }
  }

  lemma {:induction false} BlobItemAt(blobs: seq<Blob>, i: nat)
    requires i < |blobs|
    ensures forall a :: a in BlobItem(i, blobs[i]) ==> a in BlobItems(blobs)
  {
    hide BlobItem;
    if i < |blobs| - 1 { BlobItemAt(blobs[..|blobs| - 1], i); }
  }

  lemma {:induction false} FileItemAt(files: seq<File>, i: nat)
    requires i < |files|
    ensures forall a :: a in FileItem(i, files[i]) ==> a in FileItems(files)
  {
    hide FileItem;
    if i < |files| - 1 { FileItemAt(files[..|files| - 1], i); }
  }

  lemma CountValue(m: Manifest, group: nat, n: nat)
    requires Scalar(group, Dec(n)) in Intended(m)
    ensures Number(Value(Named(Intended(m)), KeyName(Key(group, 0, 0)))) == n
  {
    hide Value, Named, Dec, ReadDec, Intended, KeyName;
    IntendedValue(m, Scalar(group, Dec(n)));
    ReadDecOfDec(n);
  }

  lemma CountsIntended(m: Manifest)
    ensures Scalar(5, Dec(|m.sources|)) in Intended(m)
    ensures Scalar(17, Dec(|m.blobs|)) in Intended(m)
    ensures Scalar(19, Dec(|m.files|)) in Intended(m)
  {
    hide Dec, Join, SourceItems, BlobItems, FileItems;
    assert Scalar(5, Dec(|m.sources|)) in Head(m) by { assert Head(m)[5] == Scalar(5, Dec(|m.sources|)); }
    assert Scalar(17, Dec(|m.blobs|)) in Middle(m) by { assert Middle(m)[10] == Scalar(17, Dec(|m.blobs|)); }
    hide Head, Middle;
  }

  lemma Counts(m: Manifest)
    ensures var env := Named(Intended(m));
      && Number(Value(env, "MIYORI_SOURCE_COUNT")) == |m.sources|
      && Number(Value(env, "MIYORI_BLOB_COUNT")) == |m.blobs|
      && Number(Value(env, "MIYORI_FILE_COUNT")) == |m.files|
  {
    hide Number, Value, Named, Intended;
    CountsIntended(m);
    CountValue(m, 5, |m.sources|);
    CountValue(m, 17, |m.blobs|);
    CountValue(m, 19, |m.files|);
  }

  lemma BlobReadBack(m: Manifest, i: nat)
    requires i < |m.blobs|
    ensures var env, b := Named(Intended(m)), m.blobs[i];
      && BlobValue(env, i, "_PATH") == b.path && BlobValue(env, i, "_SHA256") == b.sha256
      && BlobValue(env, i, "_INTO") == b.into && Number(BlobValue(env, i, "_STRIP")) == b.strip
  {
    ElementNames(i);
    hide Value, Named, Dec, KeyName, ReadDec, Head, Middle, SourceItems, FileItems, BlobItems;
    var l := BlobItem(i, m.blobs[i]);
    BlobItemAt(m.blobs, i);
    assert l[0] in l && l[1] in l && l[2] in l && l[3] in l;
    assert forall a :: a in l ==> a in Intended(m);
    hide Intended;
    IntendedValue(m, l[0]);
    IntendedValue(m, l[1]);
    IntendedValue(m, l[2]);
    IntendedValue(m, l[3]);
    ReadDecOfDec(m.blobs[i].strip);
  }

  lemma FileReadBack(m: Manifest, i: nat)
    requires i < |m.files|
    ensures var env, f := Named(Intended(m)), m.files[i];
      && FileValue(env, i, "_PATH") == f.path && FileValue(env, i, "_SHA256") == f.sha256
      && FileValue(env, i, "_INTO") == f.into && FileValue(env, i, "_MODE") == f.mode
  {
    ElementNames(i);
    hide Value, Named, Dec, KeyName, Head, Middle, SourceItems, FileItems, BlobItems;
    var l := FileItem(i, m.files[i]);
    FileItemAt(m.files, i);
    assert l[0] in l && l[1] in l && l[2] in l && l[3] in l;
    assert forall a :: a in l ==> a in Intended(m);
    hide Intended;
    IntendedValue(m, l[0]);
    IntendedValue(m, l[1]);
    IntendedValue(m, l[2]);
    IntendedValue(m, l[3]);
  }

  lemma SourceReadBack(m: Manifest, i: nat)
    requires i < |m.sources|
    ensures Value(Named(Intended(m)), "MIYORI_SOURCE_" + Dec(i)) == m.sources[i]
  {
    ElementNames(i);
    hide Value, Named, KeyName, Head, Middle, SourceItems, FileItems, BlobItems;
    SourceItemAt(m.sources, i);
    IntendedValue(m, (Key(SOURCES, i, 0), m.sources[i]));
  }

  /** A script that evaluates the export and reads the counted variables gets the three lists back. */
  lemma ListsRecovered(m: Manifest)
    requires NoNulValues(m)
    ensures var env := Evaluate(ExportText(Intended(m)));
      && env.Some? && ReadSources(env.value) == m.sources && ReadBlobs(env.value) == m.blobs
      && ReadFiles(env.value) == m.files
  {
    hide Value, Named, KeyName, Intended, Evaluate, ExportText, BlobValue, FileValue, Dec;
    ExportRoundTrip(m);
    Counts(m);
    var env := Named(Intended(m));
    forall i: nat | i < |m.sources| ensures ReadSources(env)[i] == m.sources[i] { SourceReadBack(m, i); }
    forall i: nat | i < |m.blobs| ensures ReadBlobs(env)[i] == m.blobs[i] { BlobReadBack(m, i); }
    forall i: nat | i < |m.files| ensures ReadFiles(env)[i] == m.files[i] { FileReadBack(m, i); }
  }

  // ---- the single variables ----

  lemma HeadIntended(m: Manifest)
    ensures Scalar(0, m.id) in Intended(m) && Scalar(1, m.builder) in Intended(m)
    ensures Scalar(2, m.suite) in Intended(m) && Scalar(3, Join(m.packages, ",")) in Intended(m)
    ensures Scalar(4, Join(m.firmware, " ")) in Intended(m)
  {
    hide Dec, Join, SourceItems, Middle, BlobItems, FileItems;
    var l := Head(m);
    assert l[0] in l && l[1] in l && l[2] in l && l[3] in l && l[4] in l;
    assert forall a :: a in l ==> a in Intended(m);
    hide Intended;
  }

  function KeyringPath(m: Manifest): string { if m.keyring.Some? then m.keyring.value.path else "" }

  function KeyringSum(m: Manifest): string { if m.keyring.Some? then m.keyring.value.sha256 else "" }

  lemma MiddleIntended(m: Manifest)
    ensures Scalar(7, m.mode) in Intended(m) && Scalar(8, m.command) in Intended(m)
    ensures Scalar(9, Dec(m.memoryMb)) in Intended(m) && Scalar(10, Dec(m.cpus)) in Intended(m)
    ensures Scalar(11, Dec(m.diskGb)) in Intended(m) && Scalar(12, Dec(m.dataMb)) in Intended(m)
    ensures Scalar(13, m.level) in Intended(m) && Scalar(14, m.gpu) in Intended(m)
    ensures Scalar(15, KeyringPath(m)) in Intended(m) && Scalar(16, KeyringSum(m)) in Intended(m)
  {
    hide Dec, Join, SourceItems, Head, BlobItems, FileItems;
    var l := Middle(m);
    assert l[0] in l && l[1] in l && l[2] in l && l[3] in l && l[4] in l && l[5] in l;
    assert l[6] in l && l[7] in l && l[8] in l && l[9] in l;
    assert forall a :: a in l ==> a in Intended(m);
    hide Intended;
  }

  lemma ScalarValue(m: Manifest, group: nat, name: string, v: string)
    requires Scalar(group, v) in Intended(m) && ScalarGroup(group) && group != FILES && name == ScalarName(group)
    ensures Value(Named(Intended(m)), name) == v
  {
    hide Value, Named, Intended, ScalarName;
    IntendedValue(m, Scalar(group, v));
  }

  lemma NumberBack(n: nat)
    ensures Number(Dec(n)) == n
  {
    hide Dec, ReadDec;
    ReadDecOfDec(n);
  }

  lemma HeadValues(m: Manifest)
    ensures var env := Named(Intended(m));
      && Value(env, "MIYORI_ID") == m.id && Value(env, "MIYORI_BUILDER") == m.builder
      && Value(env, "MIYORI_SUITE") == m.suite && Value(env, "MIYORI_PACKAGES") == Join(m.packages, ",")
      && Value(env, "MIYORI_FIRMWARE") == Join(m.firmware, " ")
  {
    hide Value, Named, Intended, Join;
    HeadIntended(m);
    ScalarValue(m, 0, "MIYORI_ID", m.id);
    ScalarValue(m, 1, "MIYORI_BUILDER", m.builder);
    ScalarValue(m, 2, "MIYORI_SUITE", m.suite);
    ScalarValue(m, 3, "MIYORI_PACKAGES", Join(m.packages, ","));
    ScalarValue(m, 4, "MIYORI_FIRMWARE", Join(m.firmware, " "));
  }

  lemma TextValues(m: Manifest)
    ensures var env := Named(Intended(m));
      && Value(env, "MIYORI_MODE") == m.mode && Value(env, "MIYORI_COMMAND") == m.command
      && Value(env, "MIYORI_LEVEL") == m.level && Value(env, "MIYORI_GPU") == m.gpu
      && Value(env, "MIYORI_KEYRING_PATH") == KeyringPath(m) && Value(env, "MIYORI_KEYRING_SHA256") == KeyringSum(m)
  {
    hide Value, Named, Intended, KeyringPath, KeyringSum;
    MiddleIntended(m);
    ScalarValue(m, 7, "MIYORI_MODE", m.mode);
    ScalarValue(m, 8, "MIYORI_COMMAND", m.command);
    ScalarValue(m, 13, "MIYORI_LEVEL", m.level);
    ScalarValue(m, 14, "MIYORI_GPU", m.gpu);
    ScalarValue(m, 15, "MIYORI_KEYRING_PATH", KeyringPath(m));
    ScalarValue(m, 16, "MIYORI_KEYRING_SHA256", KeyringSum(m));
  }

  lemma NumberValues(m: Manifest)
    ensures var env := Named(Intended(m));
      && Number(Value(env, "MIYORI_MEMORY_MB")) == m.memoryMb && Number(Value(env, "MIYORI_CPUS")) == m.cpus
      && Number(Value(env, "MIYORI_DISK_GB")) == m.diskGb && Number(Value(env, "MIYORI_DATA_MB")) == m.dataMb
  {
    hide Value, Named, Intended, Number, Dec;
    MiddleIntended(m);
    ScalarValue(m, 9, "MIYORI_MEMORY_MB", Dec(m.memoryMb));
    ScalarValue(m, 10, "MIYORI_CPUS", Dec(m.cpus));
    ScalarValue(m, 11, "MIYORI_DISK_GB", Dec(m.diskGb));
    ScalarValue(m, 12, "MIYORI_DATA_MB", Dec(m.dataMb));
    NumberBack(m.memoryMb);
    NumberBack(m.cpus);
    NumberBack(m.diskGb);
    NumberBack(m.dataMb);
  }

  /** A script that evaluates the export finds each field of the manifest in the variable named after it; the
      packages and the firmware come as one text each. */
  lemma ScalarsRecovered(m: Manifest)
    requires NoNulValues(m)
    ensures Evaluate(ExportText(Intended(m))).Some?
    ensures var env := Evaluate(ExportText(Intended(m))).value;
      && Value(env, "MIYORI_ID") == m.id && Value(env, "MIYORI_BUILDER") == m.builder
      && Value(env, "MIYORI_SUITE") == m.suite && Value(env, "MIYORI_PACKAGES") == Join(m.packages, ",")
      && Value(env, "MIYORI_FIRMWARE") == Join(m.firmware, " ")
      && Value(env, "MIYORI_MODE") == m.mode && Value(env, "MIYORI_COMMAND") == m.command
      && Number(Value(env, "MIYORI_MEMORY_MB")) == m.memoryMb && Number(Value(env, "MIYORI_CPUS")) == m.cpus
      && Number(Value(env, "MIYORI_DISK_GB")) == m.diskGb && Number(Value(env, "MIYORI_DATA_MB")) == m.dataMb
      && Value(env, "MIYORI_LEVEL") == m.level && Value(env, "MIYORI_GPU") == m.gpu
      && Value(env, "MIYORI_KEYRING_PATH") == (if m.keyring.Some? then m.keyring.value.path else "")
      && Value(env, "MIYORI_KEYRING_SHA256") == (if m.keyring.Some? then m.keyring.value.sha256 else "")
  {
    hide Value, Named, KeyName, Intended, Evaluate, ExportText, Number, Join;
    ExportRoundTrip(m);
    HeadValues(m);
    TextValues(m);
    NumberValues(m);
  }

  /** Words without the separator are recovered from their joined text. */
  lemma {:induction false} JoinSplits(parts: seq<string>, sep: char)
    requires parts != [] && forall i :: 0 <= i < |parts| ==> sep !in parts[i]
    ensures SplitOn(Join(parts, [sep]), sep) == parts
  {
    if |parts| == 1 {
      SplitLast(parts[0], sep);
    } else {
      JoinSplits(parts[1..], sep);
      SplitPiece(parts[0], Join(parts[1..], [sep]), sep);
      assert parts == [parts[0]] + parts[1..];
    }
  }

  // ---- the exporter ----

  /** Appends one assignment, the `n`-th of a section `l` that follows what was exported before. */
  method Put(out: string, ghost before: Assignments, ghost l: Assignments, ghost n: nat, name: string, v: string)
    returns (r: string)
    requires n < |l| && out == ExportText(before + l[..n]) && name == KeyName(l[n].0) && v == l[n].1
    ensures r == ExportText(before + l[..n + 1])
  {
    hide KeyName, ShellQuote;
    r := out + name + "=" + ShellQuote(v) + "\n";
    ghost var done := before + l[..n];
    assert before + l[..n + 1] == done + [l[n]] && (done + [l[n]])[..|done|] == done;
    assert r == out + (name + ['='] + ShellQuote(v) + ['\n']);
  }

  method PutHead(m: Manifest) returns (out: string)
    ensures out == ExportText(Head(m))
  {
    hide ExportText, Join, Dec;
    ghost var l := Head(m);
    NothingExported(l);
    out := Put("", [], l, 0, "MIYORI_ID", m.id);
    out := Put(out, [], l, 1, "MIYORI_BUILDER", m.builder);
    out := Put(out, [], l, 2, "MIYORI_SUITE", m.suite);
    out := Put(out, [], l, 3, "MIYORI_PACKAGES", Join(m.packages, ","));
    out := Put(out, [], l, 4, "MIYORI_FIRMWARE", Join(m.firmware, " "));
    out := Put(out, [], l, 5, "MIYORI_SOURCE_COUNT", Dec(|m.sources|));
    assert [] + l[..6] == l;
  }

  lemma NothingExported(l: Assignments)
    ensures ExportText([] + l[..0]) == ""
  {
  }

  method PutSources(start: string, ghost before: Assignments, sources: seq<string>) returns (out: string)
    requires start == ExportText(before)
    ensures out == ExportText(before + SourceItems(sources))
  {
    hide ExportText, Dec;
    out := start;
    assert before + SourceItems(sources[..0]) == before;
    for i := 0 to |sources|
      invariant out == ExportText(before + SourceItems(sources[..i]))
    {
      ghost var done, l := SourceItems(sources[..i]), [(Key(SOURCES, i, 0), sources[i])];
      assert sources[..i + 1][..i] == sources[..i];
      assert before + done + l[..0] == before + done;
      out := Put(out, before + done, l, 0, "MIYORI_SOURCE_" + Dec(i), sources[i]);
      assert before + SourceItems(sources[..i + 1]) == before + done + l[..1];
    }
    assert sources[..|sources|] == sources;
  }

  method PutMiddle(start: string, ghost before: Assignments, m: Manifest) returns (out: string)
    requires start == ExportText(before)
    ensures out == ExportText(before + Middle(m))
  {
    hide ExportText, Dec;
    ghost var l := Middle(m);
    assert before + l[..0] == before;
    out := Put(start, before, l, 0, "MIYORI_MODE", m.mode);
    out := Put(out, before, l, 1, "MIYORI_COMMAND", m.command);
    out := Put(out, before, l, 2, "MIYORI_MEMORY_MB", Dec(m.memoryMb));
    out := Put(out, before, l, 3, "MIYORI_CPUS", Dec(m.cpus));
    out := Put(out, before, l, 4, "MIYORI_DISK_GB", Dec(m.diskGb));
    out := Put(out, before, l, 5, "MIYORI_DATA_MB", Dec(m.dataMb));
    out := Put(out, before, l, 6, "MIYORI_LEVEL", m.level);
    out := Put(out, before, l, 7, "MIYORI_GPU", m.gpu);
    var path, sha256 := "", "";
    if m.keyring.Some? { path, sha256 := m.keyring.value.path, m.keyring.value.sha256; }
    out := Put(out, before, l, 8, "MIYORI_KEYRING_PATH", path);
    out := Put(out, before, l, 9, "MIYORI_KEYRING_SHA256", sha256);
    out := Put(out, before, l, 10, "MIYORI_BLOB_COUNT", Dec(|m.blobs|));
    assert l[..11] == l;
  }

  method PutBlobs(start: string, ghost before: Assignments, blobs: seq<Blob>) returns (out: string)
    requires start == ExportText(before)
    ensures out == ExportText(before + BlobItems(blobs))
  {
    hide ExportText, Dec;
    out := start;
    assert before + BlobItems(blobs[..0]) == before;
    for i := 0 to |blobs|
      invariant out == ExportText(before + BlobItems(blobs[..i]))
    {
      var b := blobs[i];
      ghost var done, l := before + BlobItems(blobs[..i]), BlobItem(i, b);
      assert blobs[..i + 1][..i] == blobs[..i];
      assert done + l[..0] == done;
      out := Put(out, done, l, 0, "MIYORI_BLOB_" + Dec(i) + "_PATH", b.path);
      out := Put(out, done, l, 1, "MIYORI_BLOB_" + Dec(i) + "_SHA256", b.sha256);
      out := Put(out, done, l, 2, "MIYORI_BLOB_" + Dec(i) + "_INTO", b.into);
      out := Put(out, done, l, 3, "MIYORI_BLOB_" + Dec(i) + "_STRIP", Dec(b.strip));
      assert before + BlobItems(blobs[..i + 1]) == done + l[..4];
    }
    assert blobs[..|blobs|] == blobs;
  }

  method PutFiles(start: string, ghost before: Assignments, files: seq<File>) returns (out: string)
    requires start == ExportText(before)
    ensures out == ExportText(before + FileItems(files))
  {
    hide ExportText, Dec;
    out := start;
    assert before + FileItems(files[..0]) == before;
    for i := 0 to |files|
      invariant out == ExportText(before + FileItems(files[..i]))
    {
      var f := files[i];
      ghost var done, l := before + FileItems(files[..i]), FileItem(i, f);
      assert files[..i + 1][..i] == files[..i];
      assert done + l[..0] == done;
      out := Put(out, done, l, 0, "MIYORI_FILE_" + Dec(i) + "_PATH", f.path);
      out := Put(out, done, l, 1, "MIYORI_FILE_" + Dec(i) + "_SHA256", f.sha256);
      out := Put(out, done, l, 2, "MIYORI_FILE_" + Dec(i) + "_INTO", f.into);
      out := Put(out, done, l, 3, "MIYORI_FILE_" + Dec(i) + "_MODE", f.mode);
      assert before + FileItems(files[..i + 1]) == done + l[..4];
    }
    assert files[..|files|] == files;
  }

  method ExportEnv(m: Manifest) returns (out: string)
    ensures out == ExportText(Intended(m))
  {
    hide ExportText, Head, SourceItems, Middle, BlobItems, FileItems, Dec;
    out := PutHead(m);
    ghost var l := Head(m);
    out := PutSources(out, l, m.sources);
    l := l + SourceItems(m.sources);
    out := PutMiddle(out, l, m);
    l := l + Middle(m);
    out := PutBlobs(out, l, m.blobs);
    l := l + BlobItems(m.blobs);
    ghost var count := [Scalar(19, Dec(|m.files|))];
    assert l + count[..0] == l && count[..1] == count;
    out := Put(out, l, count, 0, "MIYORI_FILE_COUNT", Dec(|m.files|));
    out := PutFiles(out, l + count, m.files);
  }
}

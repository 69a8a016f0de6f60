/** IniFile: a string map that is written through to a text file of key=value lines. */
module IniFile {
  import opened Common

  type Dict = map<string, string>

  // ------------------------------------------------------------ the text format

  /** The lines getline delivers: the text between newlines; an empty remainder
      after the last newline is no line. */
  function Lines(t: string): seq<string> {
    if t == "" then []
    else
      var n := LineEnd(t);
      if n == |t| then [t] else [t[..n]] + Lines(t[n + 1..])
  }

  function LineEnd(t: string): (n: nat)
    ensures n <= |t| && '\n' !in t[..n]
    ensures n < |t| ==> t[n] == '\n'
  {
    if t == "" || t[0] == '\n' then 0
    else
      var n := LineEnd(t[1..]);
      assert t[..1 + n] == [t[0]] + t[1..][..n];
      1 + n
  }

  /** line.find('=') */
  function Splitter(line: string): (p: nat)
    ensures p <= |line| && '=' !in line[..p]
    ensures p < |line| ==> line[p] == '='
  {
    if line == "" || line[0] == '=' then 0
    else
      var p := Splitter(line[1..]);
      assert line[..1 + p] == [line[0]] + line[1..][..p];
      1 + p
  }

  function AddLine(d: Dict, line: string): Dict {
    var p := Splitter(line);
    if p < |line| then d[line[..p] := line[p + 1..]] else d
  }

  function AddLines(d: Dict, lines: seq<string>): Dict
    decreases lines
  {
    if lines == [] then d else AddLines(AddLine(d, lines[0]), lines[1..])
  }

  /** The map that load reads from a text. */
  function Parse(t: string): Dict {
    AddLines(map[], Lines(t))
  }

  /** What flush writes when it visits the keys in the given order. */
  function Print(d: Dict, order: seq<string>): string
    requires forall k :: k in order ==> k in d
  {
    if order == [] then ""
    else order[0] + "=" + d[order[0]] + "\n" + Print(d, order[1..])
  }

  /** A text that flush can write for the map. */
  ghost predicate IsPrinted(t: string, d: Dict) {
    exists order :: Enumerates(order, d) && t == Print(d, order)
  }

  /** What the format can express. */
  predicate WellFormed(d: Dict) {
    forall k :: k in d ==> '=' !in k && '\n' !in k && '\n' !in d[k]
  }

  // -------------------------------------------------------------- print and parse

  lemma {:induction false} LineEndOf(a: string, b: string)
    requires '\n' !in a
    ensures LineEnd(a + "\n" + b) == |a|
  {
    var t := a + "\n" + b;
    if a != "" {
      assert t[1..] == a[1..] + "\n" + b;
      LineEndOf(a[1..], b);
    }
  }

  lemma {:induction false} SplitterOf(k: string, v: string)
    requires '=' !in k
    ensures Splitter(k + "=" + v) == |k|
  {
    var t := k + "=" + v;
    if k != "" {
      assert t[1..] == k[1..] + "=" + v;
      SplitterOf(k[1..], v);
    }
  }

  /** The first line of a printed text, and the entry it is read as. */
  lemma PrintedLine(k: string, v: string, rest: string)
    requires '=' !in k && '\n' !in k && '\n' !in v
    ensures Lines(k + "=" + v + "\n" + rest) == [k + "=" + v] + Lines(rest)
    ensures forall d: Dict :: AddLine(d, k + "=" + v) == d[k := v]
  {
    var line := k + "=" + v;
    LineEndOf(line, rest);
    var t := line + "\n" + rest;
    assert t[..|line|] == line && t[|line| + 1..] == rest;
    SplitterOf(k, v);
    assert line[..|k|] == k && line[|k| + 1..] == v;
  }

  lemma {:induction false} ParsePrinted(base: Dict, d: Dict, order: seq<string>)
    requires WellFormed(d) && forall k :: k in order ==> k in d
    ensures var r := AddLines(base, Lines(Print(d, order)));
            forall k :: (k in r <==> k in base || k in order)
                        && (k in r ==> r[k] == if k in order then d[k] else base[k])
    decreases order
  {
    if order != [] {
      var k, rest := order[0], order[1..];
      PrintedLine(k, d[k], Print(d, rest));
      var line := k + "=" + d[k];
      assert Print(d, order) == line + "\n" + Print(d, rest);
      ParsePrinted(base[k := d[k]], d, rest);
      assert ([line] + Lines(Print(d, rest)))[1..] == Lines(Print(d, rest));
      assert order == [k] + rest;
    }
  }

  /** Everything that was ever loaded is expressible. */
  lemma {:induction false} LoadedIsWellFormed(d: Dict, lines: seq<string>)
    requires WellFormed(d) && forall i :: 0 <= i < |lines| ==> '\n' !in lines[i]
    ensures WellFormed(AddLines(d, lines))
    decreases lines
  {
    if lines != [] {
      LoadedIsWellFormed(AddLine(d, lines[0]), lines[1..]);
    }
  }

  lemma {:induction false} LinesHaveNoNewline(t: string)
    ensures forall i :: 0 <= i < |Lines(t)| ==> '\n' !in Lines(t)[i]
  {
    if t != "" {
      var n := LineEnd(t);
      if n < |t| {
        LinesHaveNoNewline(t[n + 1..]);
      } else {
        assert t[..n] == t;
      }
    }
  }

  lemma ParsedIsWellFormed(t: string)
    ensures WellFormed(Parse(t))
  {
    LinesHaveNoNewline(t);
    LoadedIsWellFormed(map[], Lines(t));
  }

  /** Loading what was flushed gives the same map exactly when no key holds '=' or
      a newline and no value holds a newline, in every iteration order. */
  lemma PrintParseIff(d: Dict, order: seq<string>)
    requires Enumerates(order, d)
    ensures Parse(Print(d, order)) == d <==> WellFormed(d)
  {
    if WellFormed(d) {
      ParsePrinted(map[], d, order);
    } else {
      ParsedIsWellFormed(Print(d, order));
    }
  }

  /** For every text at all: load, flush, load is the same as load. */
  lemma ReloadIsStable(t: string, order: seq<string>)
    requires Enumerates(order, Parse(t))
    ensures Parse(Print(Parse(t), order)) == Parse(t)
  {
    ParsedIsWellFormed(t);
    PrintParseIff(Parse(t), order);
  }

  // --------------------------------------------------- the format, law by law

  lemma {:induction false} AddLinesOver(d: Dict, lines: seq<string>)
    ensures AddLines(d, lines) == d + AddLines(map[], lines)
    decreases lines
  {
    if lines == [] {
      assert d + map[] == d;
    } else {
      var one := AddLine(map[], lines[0]);
      AddLinesOver(AddLine(d, lines[0]), lines[1..]);
      AddLinesOver(one, lines[1..]);
      assert AddLine(d, lines[0]) == d + one;
    }
  }

  lemma {:induction false} LineEndPast(a: string, b: string)
    requires '\n' in a
    ensures LineEnd(a + b) == LineEnd(a) < |a|
  {
    if a[0] != '\n' {
      assert (a + b)[1..] == a[1..] + b;
      LineEndPast(a[1..], b);
    }
  }

  /** The first line of a text comes first. */
  lemma ParsesFirstLine(t: string)
    requires LineEnd(t) < |t|
    ensures Parse(t) == ParseLine(t[..LineEnd(t)]) + Parse(t[LineEnd(t) + 1..])
  {
    hide LineEnd, AddLines, ParseLine;
    var n := LineEnd(t);
    FirstLine(t[..n], Lines(t[n + 1..]));
    assert Lines(t) == [t[..n]] + Lines(t[n + 1..]);
  }

  /** A newline separates two texts: the entries of the second are added over those
      of the first. */
  lemma {:induction false} ParsesInPieces(a: string, b: string)
    ensures Parse(a + "\n" + b) == Parse(a) + Parse(b)
  {
    hide Parse, ParseLine, LineEnd;
    var t := a + "\n" + b;
    if '\n' !in a {
      LineEndOf(a, b);
      ParsesFirstLine(t);
      assert t[..|a|] == a && t[|a| + 1..] == b;
      ParsesOneLine(a);
    } else {
      var n := LineEnd(a);
      var line, rest := a[..n], a[n + 1..];
      assert t == a + ("\n" + b);
      LineEndPast(a, "\n" + b);
      assert t[..n] == line && t[n + 1..] == rest + "\n" + b;
      ParsesInPieces(rest, b);
      ParsesFirstLine(t);
      ParsesFirstLine(a);
      OverAssociates(ParseLine(line), Parse(rest), Parse(b));
    }
  }

  lemma OverAssociates(a: Dict, b: Dict, c: Dict)
    ensures a + b + c == a + (b + c)
  {
  }

  lemma ParsesOneLine(a: string)
    requires '\n' !in a
    ensures Parse(a) == ParseLine(a)
  {
    NoNewlineNoEnd(a);
    FirstLine(a, []);
  }

  function ParseLine(line: string): Dict {
    AddLine(map[], line)
  }

  lemma FirstLine(line: string, rest: seq<string>)
    ensures AddLines(map[], [line] + rest) == ParseLine(line) + AddLines(map[], rest)
    ensures AddLines(map[], [line]) == ParseLine(line)
  {
    assert ([line] + rest)[1..] == rest && [line][1..] == [];
    AddLinesOver(AddLine(map[], line), rest);
  }

  lemma {:induction false} NoNewlineNoEnd(a: string)
    requires '\n' !in a
    ensures LineEnd(a) == |a| && Lines(a) == if a == "" then [] else [a]
    ensures a == "" ==> ParseLine(a) == map[]
  {
    if a != "" {
      NoNewlineNoEnd(a[1..]);
    }
  }

  /** One line, terminated or not: an entry, split at its first '='. */
  lemma ParsesEntry(k: string, v: string)
    requires '=' !in k && '\n' !in k && '\n' !in v
    ensures Parse(k + "=" + v) == map[k := v]
  {
    var line := k + "=" + v;
    ParsesOneLine(line);
    SplitterOf(k, v);
    assert line[..|k|] == k && line[|k| + 1..] == v;
  }

  lemma {:induction false} NoSplitter(line: string)
    requires '=' !in line
    ensures Splitter(line) == |line|
  {
    if line != "" {
      NoSplitter(line[1..]);
    }
  }

  /** And a line without '=' is ignored. */
  lemma IgnoresOtherLines(line: string)
    requires '=' !in line && '\n' !in line
    ensures Parse(line) == map[]
  {
    ParsesOneLine(line);
    NoSplitter(line);
  }

  /** What flush writes, law by law: one line an entry, in the order of the keys. */
  lemma {:induction false} PrintsInPieces(d: Dict, a: seq<string>, b: seq<string>, k: string)
    requires k in d && forall q :: q in a || q in b ==> q in d
    ensures Print(d, a + b) == Print(d, a) + Print(d, b)
    ensures Print(d, [k]) == k + "=" + d[k] + "\n" && Print(d, []) == ""
    decreases a
  {
    assert [k][1..] == [];
    assert k + "=" + d[k] + "\n" + "" == k + "=" + d[k] + "\n";
    if a == [] {
      assert a + b == b;
    } else {
      assert (a + b)[1..] == a[1..] + b;
      PrintsInPieces(d, a[1..], b, k);
      var line := a[0] + "=" + d[a[0]] + "\n";
      assert line + Print(d, a[1..]) + Print(d, b) == line + (Print(d, a[1..]) + Print(d, b));
    }
  }

  /** Quotes are dropped from a file name wherever they stand, and nothing else. */
  lemma {:induction false} UnquotesInPieces(a: string, b: string)
    ensures Unquoted(a + b) == Unquoted(a) + Unquoted(b)
  {
    if a == "" {
      assert a + b == b;
    } else {
      assert (a + b)[1..] == a[1..] + b && (a + b)[0] == a[0];
      UnquotesInPieces(a[1..], b);
      var first := if a[0] == '"' then "" else [a[0]];
      Associative(first, Unquoted(a[1..]), Unquoted(b));
      assert Unquoted(a) == first + Unquoted(a[1..]);
      assert Unquoted(a + b) == first + Unquoted(a[1..] + b);
    }
  }

  lemma UnquotesOne(c: char)
    ensures Unquoted([c]) == if c == '"' then "" else [c]
  {
    assert [c][1..] == "";
  }

  lemma {:induction false} UnquotedAlready(name: string)
    requires '"' !in name
    ensures Unquoted(name) == name
  {
    if name != "" {
      UnquotedAlready(name[1..]);
    }
  }

  // ------------------------------------------------------------------- the class

  /** The files that exist and their texts. Whether an open succeeds is up to the
      file system and passed in by the caller of each operation. */
  class Disk {
    var files: map<string, string>
  }

  function ValueOf(d: Dict, key: string, defaultValue: string): string {
    if key in d then d[key] else defaultValue
  }

  /** The state of one object and the disk. */
  datatype World = World(filename: string, dict: Dict, files: map<string, string>)

  /** The map a load of the file would give. */
  function FileDict(w: World, f: string): Dict {
    if f in w.files then Parse(w.files[f]) else map[]
  }

  /** Parsing the file on disk gives the map in memory. */
  predicate OnDisk(w: World) {
    w.dict == FileDict(w, w.filename)
  }

  /** An operation. `opens` says whether the file could be opened, `text` is what
      the flush writes when it could. */
  datatype Op =
    | LoadOp(filename: string, opens: bool)
    | SetOp(key: string, value: string, opens: bool, text: string)
    | ClearOp(opens: bool, text: string)

  function WithText(op: Op, text: string): Op {
    match op
    case LoadOp(_, _) => op
    case SetOp(key, value, opens, _) => SetOp(key, value, opens, text)
    case ClearOp(opens, _) => ClearOp(opens, text)
  }

  class IniFile {
    var m_filename: string
    var m_dict: Dict
    const disk: Disk

    constructor (disk: Disk)
      ensures m_filename == "" && m_dict == map[] && this.disk == disk
    {
      m_filename, m_dict := "", map[];
      this.disk := disk;
    }

    function Contents(): World
      reads this, disk
    {
      World(m_filename, m_dict, disk.files)
    }

    /** load; the stream opens only when the file exists. */
    method Load(filename: string, opens: bool) returns (ok: bool)
      modifies this
      ensures m_filename == Unquoted(filename)
      ensures ok == (opens && m_filename in disk.files)
      ensures m_dict == if ok then Parse(disk.files[m_filename]) else map[]
      ensures OnDisk(Contents()) <==> ok || m_filename !in disk.files || Parse(disk.files[m_filename]) == map[]
    {
      m_filename := Unquoted(filename);
      m_dict := map[];
      if !opens || m_filename !in disk.files {
        return false;
      }
      var lines := Lines(disk.files[m_filename]);
      var i := 0;
      assert lines[..0] == [];
      while i < |lines|
        invariant 0 <= i <= |lines|
        invariant m_dict == AddLines(map[], lines[..i])
        invariant m_filename == Unquoted(filename)
      {
        AddLinesSnoc(map[], lines[..i], lines[i]);
        assert lines[..i + 1] == lines[..i] + [lines[i]];
        var splitterPos := Splitter(lines[i]);
        if splitterPos < |lines[i]| {
          m_dict := m_dict[lines[i][..splitterPos] := lines[i][splitterPos + 1..]];
        }
        i := i + 1;
      }
      assert lines[..i] == lines;
      ParsedIsWellFormed(disk.files[m_filename]);
      ok := true;
    }

    /** value */
    function Get(key: string, defaultValue: string): (value: string)
      reads this
      ensures if key in m_dict then value == m_dict[key] else value == defaultValue
    {
      ValueOf(m_dict, key, defaultValue)
    }

    /** flush: truncates the file and writes every entry. */
    method Flush(opens: bool) returns (ok: bool)
      modifies disk
      ensures ok == opens
      ensures !ok ==> disk.files == old(disk.files)
      ensures ok ==> m_filename in disk.files && IsPrinted(disk.files[m_filename], m_dict)
      ensures ok ==> disk.files == old(disk.files)[m_filename := disk.files[m_filename]]
      ensures ok && WellFormed(m_dict) ==> OnDisk(Contents())
    {
      if !opens {
        return false;
      }
      var text, left := "", m_dict.Keys;
      ghost var order: seq<string> := [];
      while left != {}
        invariant disk.files == old(disk.files)
        invariant left <= m_dict.Keys
        invariant forall k :: k in order <==> k in m_dict && k !in left
        invariant forall i, j :: 0 <= i < j < |order| ==> order[i] != order[j]
        invariant text == Print(m_dict, order)
        decreases |left|
      {
        var k :| k in left;
        PrintSnoc(m_dict, order, k);
        text := text + (k + "=" + m_dict[k] + "\n");
        order := order + [k];
        left := left - {k};
      }
      disk.files := disk.files[m_filename := text];
      assert Enumerates(order, m_dict) && IsPrinted(text, m_dict);
      PrintParseIff(m_dict, order);
      ok := true;
    }

    method Clear(opens: bool) returns (ok: bool)
      modifies this, disk
      ensures m_dict == map[] && m_filename == old(m_filename) && ok == opens
      ensures ok ==> OnDisk(Contents())
      ensures if ok then disk.files == old(disk.files)[m_filename := ""] else disk.files == old(disk.files)
    {
      m_dict := map[];
      ok := Flush(opens);
    }

    /** setValue: refused before a load gave a file name. */
    method SetValue(key: string, value: string, opens: bool) returns (ok: bool)
      modifies this, disk
      ensures ok == (opens && m_filename != "") && m_filename == old(m_filename)
      ensures m_dict == if m_filename == "" then old(m_dict) else old(m_dict)[key := value]
      ensures !ok ==> disk.files == old(disk.files)
      ensures ok ==> m_filename in disk.files && IsPrinted(disk.files[m_filename], m_dict)
                     && disk.files == old(disk.files)[m_filename := disk.files[m_filename]]
      ensures ok && old(WellFormed(m_dict)) && '=' !in key && '\n' !in key && '\n' !in value ==> OnDisk(Contents())
    {
      if m_filename == "" {
        return false;
      }
      m_dict := m_dict[key := value];
      ok := Flush(opens);
    }

    /** One operation of a history, with the text that its flush happened to write. */
    method Perform(op: Op) returns (ghost text: string)
      modifies this, disk
      ensures Truthful(old(Contents()), WithText(op, text))
      ensures Contents() == Apply(old(Contents()), WithText(op, text))
    {
      hide Parse, IsPrinted, Print;
      match op {
        case LoadOp(filename, opens) =>
          var _ := Load(filename, opens);
        case SetOp(key, value, opens, _) =>
          var _ := SetValue(key, value, opens);
        case ClearOp(opens, _) =>
          var _ := Clear(opens);
          EmptyIsPrinted();
      }
      text := if m_filename in disk.files then disk.files[m_filename] else "";
    }

    /** Any history of operations: the object and the disk follow Apply. */
    method PerformAll(ops: seq<Op>) returns (ghost done: seq<Op>)
      modifies this, disk
      ensures |done| == |ops|
      ensures forall k :: 0 <= k < |ops| ==> WithText(done[k], "") == WithText(ops[k], "")
      ensures AllTruthful(old(Contents()), done)
      ensures Contents() == ApplyAll(old(Contents()), done)
    {
      hide Apply, Truthful;
      done := [];
      for i := 0 to |ops|
        invariant |done| == i
        invariant forall k :: 0 <= k < i ==> WithText(done[k], "") == WithText(ops[k], "")
        invariant AllTruthful(old(Contents()), done)
        invariant Contents() == ApplyAll(old(Contents()), done)
      {
        ghost var text := Perform(ops[i]);
        ghost var front := done;
        TruthfulSnoc(old(Contents()), front, WithText(ops[i], text));
        done := front + [WithText(ops[i], text)];
      }
    }
  }

  /** The file name without its quotes. */
  function Unquoted(filename: string): (r: string)
    ensures '"' !in r
  {
    if filename == "" then ""
    else (if filename[0] == '"' then "" else [filename[0]]) + Unquoted(filename[1..])
  }

  lemma {:induction false} AddLinesSnoc(d: Dict, lines: seq<string>, line: string)
    ensures AddLines(d, lines + [line]) == AddLine(AddLines(d, lines), line)
    decreases lines
  {
    if lines == [] {
      assert lines + [line] == [line] && [line][1..] == [];
      assert AddLines(AddLine(d, line), []) == AddLine(d, line);
    } else {
      assert (lines + [line])[1..] == lines[1..] + [line];
      AddLinesSnoc(AddLine(d, lines[0]), lines[1..], line);
    }
  }

  lemma {:induction false} PrintSnoc(d: Dict, order: seq<string>, k: string)
    requires k in d && forall q :: q in order ==> q in d
    ensures Print(d, order + [k]) == Print(d, order) + (k + "=" + d[k] + "\n")
  {
    if order == [] {
      assert order + [k] == [k] && [k][1..] == [];
    } else {
      assert (order + [k])[1..] == order[1..] + [k];
      PrintSnoc(d, order[1..], k);
    }
  }

  // ------------------------------------------------------------------- histories

  function Written(w: World, opens: bool, text: string): World {
    if opens then w.(files := w.files[w.filename := text]) else w
  }

  /** The three methods of the class, on values. */
  function Apply(w: World, op: Op): World {
    match op
    case LoadOp(filename, opens) =>
      var f := Unquoted(filename);
      w.(filename := f, dict := if opens then FileDict(w, f) else map[])
    case SetOp(key, value, opens, text) =>
      if w.filename == "" then w else Written(w.(dict := w.dict[key := value]), opens, text)
    case ClearOp(opens, text) => Written(w.(dict := map[]), opens, text)
  }

  function ApplyAll(w: World, ops: seq<Op>): World {
    if ops == [] then w else Apply(ApplyAll(w, ops[..|ops| - 1]), ops[|ops| - 1])
  }

  /** The text is one that flush can write for the map it finds. */
  ghost predicate Truthful(w: World, op: Op) {
    match op
    case LoadOp(_, _) => true
    case SetOp(key, value, opens, text) => opens && w.filename != "" ==> IsPrinted(text, w.dict[key := value])
    case ClearOp(opens, text) => opens ==> IsPrinted(text, map[])
  }

  ghost predicate AllTruthful(w: World, ops: seq<Op>) {
    forall k :: 0 <= k < |ops| ==> Truthful(ApplyAll(w, ops[..k]), ops[k])
  }

  lemma TruthfulSnoc(w: World, ops: seq<Op>, op: Op)
    requires AllTruthful(w, ops) && Truthful(ApplyAll(w, ops), op)
    ensures AllTruthful(w, ops + [op])
    ensures ApplyAll(w, ops + [op]) == Apply(ApplyAll(w, ops), op)
  {
    hide Apply, Truthful;
    var all := ops + [op];
    assert all[..|ops|] == ops;
    assert forall k :: 0 <= k < |ops| ==> all[..k] == ops[..k];
  }

  lemma EmptyIsPrinted()
    ensures IsPrinted("", map[])
  {
    var none: Dict := map[];
    assert Enumerates([], none) && Print(none, []) == "";
  }

  /** The key and the value fit the format. */
  predicate Fits(key: string, value: string) {
    '=' !in key && '\n' !in key && '\n' !in value
  }

  /** A load opens the file, or there is nothing in it; a set before any load is
      refused, any other one fits the format and opens the file, or changes
      nothing; a clear opens the file, or there is nothing to clear. */
  predicate Keeps(w: World, op: Op) {
    match op
    case LoadOp(filename, opens) => opens || FileDict(w, Unquoted(filename)) == map[]
    case SetOp(key, value, opens, _) =>
      w.filename == "" || (Fits(key, value) && (opens || w.dict[key := value] == w.dict))
    case ClearOp(opens, _) => opens || w.dict == map[]
  }

  predicate AllKeep(w: World, ops: seq<Op>) {
    forall k :: 0 <= k < |ops| ==> Keeps(ApplyAll(w, ops[..k]), ops[k])
  }

  lemma FilesAreWellFormed(w: World, f: string)
    ensures WellFormed(FileDict(w, f))
  {
    if f in w.files {
      ParsedIsWellFormed(w.files[f]);
    }
  }

  lemma PrintedTextParsesIff(text: string, d: Dict)
    requires IsPrinted(text, d)
    ensures Parse(text) == d <==> WellFormed(d)
  {
    var order :| Enumerates(order, d) && text == Print(d, order);
    PrintParseIff(d, order);
  }

  /** The exact condition for one operation: memory and disk agree afterwards if
      and only if it keeps them together. */
  lemma StaysOnDiskIff(w: World, op: Op)
    requires OnDisk(w) && Truthful(w, op)
    ensures OnDisk(Apply(w, op)) <==> Keeps(w, op)
  {
    hide Parse, Print, Enumerates;
    FilesAreWellFormed(w, w.filename);
    match op
    case LoadOp(_, _) =>
    case SetOp(key, value, opens, text) =>
      var d := w.dict[key := value];
      assert WellFormed(d) <==> Fits(key, value) by {
        assert d[key] == value;
      }
      if w.filename != "" && opens {
        PrintedTextParsesIff(text, d);
      }
    case ClearOp(opens, text) =>
      if opens {
        PrintedTextParsesIff(text, map[]);
      }
  }

  ghost predicate AlwaysOnDisk(w: World, ops: seq<Op>) {
    forall k :: 0 <= k <= |ops| ==> OnDisk(ApplyAll(w, ops[..k]))
  }

  lemma FrontKeeps(w: World, ops: seq<Op>)
    requires ops != []
    ensures var front, op := ops[..|ops| - 1], ops[|ops| - 1];
            && (AllTruthful(w, ops) ==> AllTruthful(w, front) && Truthful(ApplyAll(w, front), op))
            && (AllKeep(w, ops) <==> AllKeep(w, front) && Keeps(ApplyAll(w, front), op))
  {
    hide Keeps, Truthful, ApplyAll;
    var n := |ops| - 1;
    assert forall k :: 0 <= k <= n ==> ops[..n][..k] == ops[..k];
    assert ops[..n][..n] == ops[..n];
  }

  lemma FrontOnDisk(w: World, ops: seq<Op>)
    requires ops != []
    ensures AlwaysOnDisk(w, ops) <==> AlwaysOnDisk(w, ops[..|ops| - 1]) && OnDisk(ApplyAll(w, ops))
    ensures AlwaysOnDisk(w, ops[..|ops| - 1]) ==> OnDisk(ApplyAll(w, ops[..|ops| - 1]))
  {
    hide OnDisk, ApplyAll;
    var n := |ops| - 1;
    assert forall k :: 0 <= k <= n ==> ops[..n][..k] == ops[..k];
    assert ops[..n][..n] == ops[..n] && ops[..n + 1] == ops;
  }

  /** And for a history: they agree after each of its operations if and only if
      every operation keeps them together. */
  lemma {:induction false} HistoryOnDiskIff(w: World, ops: seq<Op>)
    requires OnDisk(w) && AllTruthful(w, ops)
    ensures AlwaysOnDisk(w, ops) <==> AllKeep(w, ops)
  {
    if ops == [] {
      assert ops[..0] == [];
    } else {
      hide OnDisk, AlwaysOnDisk, AllKeep, AllTruthful, Keeps, Truthful, Apply;
      var front := ops[..|ops| - 1];
      FrontKeeps(w, ops);
      FrontOnDisk(w, ops);
      HistoryOnDiskIff(w, front);
      if AlwaysOnDisk(w, front) {
        StaysOnDiskIff(ApplyAll(w, front), ops[|ops| - 1]);
      }
    }
  }

  /** What a history alone says file f holds: the entries set since it was last
      cleared, on top of what it held at first. */
  function Kept(w: World, ops: seq<Op>, f: string): Dict {
    if ops == [] then FileDict(w, f)
    else
      var front, op := ops[..|ops| - 1], ops[|ops| - 1];
      if ApplyAll(w, front).filename != f then Kept(w, front, f)
      else
        match op
        case LoadOp(_, _) => Kept(w, front, f)
        case SetOp(key, value, _, _) => if f == "" then Kept(w, front, f) else Kept(w, front, f)[key := value]
        case ClearOp(_, _) => map[]
  }

  /** Write-through: after every history whose operations keep memory and disk
      together, every file on disk, and the map in memory, hold what was set. */
  lemma {:induction false} FilesHoldWhatWasSet(w: World, ops: seq<Op>)
    requires OnDisk(w) && AllTruthful(w, ops) && AllKeep(w, ops)
    ensures var after := ApplyAll(w, ops);
            && OnDisk(after) && after.dict == Kept(w, ops, after.filename)
            && forall f :: FileDict(after, f) == Kept(w, ops, f)
  {
    hide Parse, Truthful, Keeps, AllTruthful, AllKeep;
    if ops != [] {
      var front, op := ops[..|ops| - 1], ops[|ops| - 1];
      FrontKeeps(w, ops);
      FilesHoldWhatWasSet(w, front);
      StaysOnDiskIff(ApplyAll(w, front), op);
      OtherFilesStay(ApplyAll(w, front), op);
    }
  }

  /** An operation changes no file but the current one, and a load not even that. */
  lemma OtherFilesStay(w: World, op: Op)
    ensures forall f :: f != w.filename || op.LoadOp? ==> FileDict(Apply(w, op), f) == FileDict(w, f)
    ensures !op.LoadOp? ==> Apply(w, op).filename == w.filename
  {
    hide Parse;
  }

  lemma {:induction false} NameHasNoQuotes(w: World, ops: seq<Op>)
    requires '"' !in w.filename
    ensures '"' !in ApplyAll(w, ops).filename
  {
    if ops != [] {
      NameHasNoQuotes(w, ops[..|ops| - 1]);
    }
  }

  /** So a fresh load of the current file changes nothing. */
  lemma WriteThrough(w: World, ops: seq<Op>)
    requires OnDisk(w) && AllTruthful(w, ops) && AllKeep(w, ops) && '"' !in w.filename
    ensures var after := ApplyAll(w, ops);
            Apply(after, LoadOp(after.filename, true)) == after
  {
    FilesHoldWhatWasSet(w, ops);
    NameHasNoQuotes(w, ops);
    UnquotedAlready(ApplyAll(w, ops).filename);
  }

  function Lookup(d: Dict, key: string): Option<string> {
    if key in d then Some(d[key]) else None
  }

  /** What a history says about a key: the value of the last set that was not
      refused, unless a clear or a load came after it; a clear leaves nothing, and
      a load what the file says. */
  function LastValue(w: World, ops: seq<Op>, key: string): Option<string> {
    if ops == [] then Lookup(w.dict, key)
    else
      var front, op := ops[..|ops| - 1], ops[|ops| - 1];
      match op
      case LoadOp(filename, opens) =>
        if opens then Lookup(FileDict(ApplyAll(w, front), Unquoted(filename)), key) else None
      case SetOp(k, value, _, _) =>
        if k == key && ApplyAll(w, front).filename != "" then Some(value) else LastValue(w, front, key)
      case ClearOp(_, _) => None
  }

  /** value returns the last value the history gives the key, or the default,
      whether the flushes worked or not, for every history. */
  lemma {:induction false} LastSetWins(w: World, ops: seq<Op>, key: string, defaultValue: string)
    ensures Lookup(ApplyAll(w, ops).dict, key) == LastValue(w, ops, key)
    ensures ValueOf(ApplyAll(w, ops).dict, key, defaultValue)
            == match LastValue(w, ops, key) case Some(value) => value case None => defaultValue
  {
    if ops != [] {
      LastSetWins(w, ops[..|ops| - 1], key, defaultValue);
    }
  }
}

/** The text encoder (`log/encoder/text_encoder.go`) and its round trip through the line parser. */
module LogWriter {
  import opened Strings
  import opened LogFormat

  /** An entry with its time and level already rendered. */
  datatype LogEntry = LogEntry(time: string, level: string, message: string)

  /** A field: its string, and the rendering of its interface value used when that is empty. */
  datatype LogField = LogField(key: string, text: string, rendered: string) {
    function Value(): string { if text == "" then rendered else text }
  }

  // ---------- The line an entry becomes ----------

  /** Later fields replace earlier ones with the same key. */
  function FieldMap(fields: seq<LogField>): map<string, LogField> {
    if fields == [] then map[]
    else FieldMap(fields[..|fields| - 1])[fields[|fields| - 1].key := fields[|fields| - 1]]
  }

  function FieldCells(fields: map<string, LogField>, order: seq<string>): seq<string>
    requires forall k :: k in order ==> k in fields
  {
    if order == [] then []
    else FieldCells(fields, order[..|order| - 1]) + [fields[order[|order| - 1]].key, fields[order[|order| - 1]].Value()]
  }

  /** The cells behind the header: the message, unless it has no key, and the fields. */
  function BodyCells(messageKey: string, ent: LogEntry, fields: map<string, LogField>, order: seq<string>): seq<string>
    requires forall k :: k in order ==> k in fields
  {
    (if messageKey != "" then [ent.message] else []) + FieldCells(fields, order)
  }

  function Cells(messageKey: string, ent: LogEntry, fields: map<string, LogField>, order: seq<string>): seq<string>
    requires forall k :: k in order ==> k in fields
  {
    [ent.time, ent.level] + BodyCells(messageKey, ent, fields, order)
  }

  /** What a custom header function appends behind time and level. */
  type Header = Option<(LogEntry, map<string, LogField>) -> string>

  function HeaderText(header: Header, ent: LogEntry, fields: map<string, LogField>): string {
    if header.Some? then header.value(ent, fields) else ""
  }

  /** Every cell is followed by a tab. */
  function CellText(cells: seq<string>): string {
    if cells == [] then "" else cells[0] + TAB + CellText(cells[1..])
  }

  lemma {:induction false} CellTextSum(a: seq<string>, b: seq<string>)
    ensures CellText(a + b) == CellText(a) + CellText(b)
    decreases |a|
  {
    if a == [] {
      assert a + b == b;
    } else {
      assert (a + b)[1..] == a[1..] + b;
      CellTextSum(a[1..], b);
      assert a[0] + TAB + (CellText(a[1..]) + CellText(b)) == a[0] + TAB + CellText(a[1..]) + CellText(b);
    }
  }

  lemma OneCell(cell: string)
    ensures CellText([cell]) == cell + TAB
  {
    assert [cell][1..] == [];
    assert cell + TAB + "" == cell + TAB;
  }

  /** One printed line. */
  function LineText(messageKey: string, header: Header, ent: LogEntry, fields: map<string, LogField>, order: seq<string>): string
    requires forall k :: k in order ==> k in fields
  {
    CellText([ent.time, ent.level]) + HeaderText(header, ent, fields)
    + CellText(BodyCells(messageKey, ent, fields, order)) + "\n"
  }

  /** Without a custom header the line is nothing but cells. */
  lemma PlainLine(messageKey: string, ent: LogEntry, fields: map<string, LogField>, order: seq<string>)
    requires forall k :: k in order ==> k in fields
    ensures LineText(messageKey, None, ent, fields, order) == CellText(Cells(messageKey, ent, fields, order)) + "\n"
  {
    hide CellText, BodyCells;
    CellTextSum([ent.time, ent.level], BodyCells(messageKey, ent, fields, order));
    assert CellText([ent.time, ent.level]) + "" == CellText([ent.time, ent.level]);
  }

  /** A visiting order of the keys of a map. */
  ghost predicate IsOrder(order: seq<string>, keys: set<string>) {
    (forall k :: k in order <==> k in keys) && forall i, j :: 0 <= i < j < |order| ==> order[i] != order[j]
  }

  /** The message and the fields, one after the other behind the header. */
  lemma BodyText(messageKey: string, ent: LogEntry, fields: map<string, LogField>, order: seq<string>, head: string)
    requires forall k :: k in order ==> k in fields
    ensures head + CellText(BodyCells(messageKey, ent, fields, order)) ==
            (if messageKey != "" then head + CellText([ent.message]) else head) + CellText(FieldCells(fields, order))
  {
    hide CellText, FieldCells;
    if messageKey != "" {
      CellTextSum([ent.message], FieldCells(fields, order));
      assert head + (CellText([ent.message]) + CellText(FieldCells(fields, order)))
          == head + CellText([ent.message]) + CellText(FieldCells(fields, order));
    } else {
      assert [] + FieldCells(fields, order) == FieldCells(fields, order);
    }
  }

  lemma Glue(a: string, b: string, c: string, d: string)
    ensures a + b + c + d == a + (b + c + d)
  {
  }

  lemma NoFields(fields: map<string, LogField>)
    ensures FieldCells(fields, []) == [] && CellText([]) == ""
    ensures IsOrder([], {})
  {
  }

  lemma PairText(before: seq<string>, a: string, b: string)
    ensures CellText(before) + CellText([a]) + CellText([b]) == CellText(before + [a, b])
  {
    CellTextSum(before, [a]);
    CellTextSum(before + [a], [b]);
    assert before + [a] + [b] == before + [a, b];
  }

  lemma OneMoreField(fields: map<string, LogField>, order: seq<string>, key: string, seen: set<string>)
    requires IsOrder(order, seen) && seen <= fields.Keys && key in fields && key !in seen
    ensures IsOrder(order + [key], seen + {key})
    ensures FieldCells(fields, order + [key]) == FieldCells(fields, order) + [fields[key].key, fields[key].Value()]
  {
    assert (order + [key])[..|order|] == order;
  }

  class TextEncoder {
    const messageKey: string
    const headerFunc: Header
    var buf: string

    constructor (messageKey: string, headerFunc: Header)
      ensures this.messageKey == messageKey && this.headerFunc == headerFunc && buf == ""
    {
      this.messageKey, this.headerFunc := messageKey, headerFunc;
      buf := "";
    }

    method AppendString(val: string)
      modifies this
      ensures buf == old(buf) + val
    {
      buf := buf + val;
    }

    /** A cell and the tab after it. */
    method AppendCell(val: string)
      modifies this
      ensures buf == old(buf) + CellText([val])
    {
      AppendString(val);
      AppendString(TAB);
      OneCell(val);
      assert buf == old(buf) + (val + TAB);
    }

    /** Time and level, which cannot be customized, then what the header function appends. */
    method FormatHeader(ent: LogEntry, fields: map<string, LogField>)
      modifies this
      ensures buf == old(buf) + CellText([ent.time, ent.level]) + HeaderText(headerFunc, ent, fields)
    {
      AppendCell(ent.time);
      AppendCell(ent.level);
      CellTextSum([ent.time], [ent.level]);
      assert [ent.time] + [ent.level] == [ent.time, ent.level];
      assert buf == old(buf) + CellText([ent.time, ent.level]);
      if headerFunc.Some? {
        AppendString(headerFunc.value(ent, fields));
      } else {
        assert buf + "" == buf;
      }
    }

    /** The fields in some order of the keys. */
    method AppendFields(fields: map<string, LogField>) returns (ghost order: seq<string>)
      modifies this
      ensures IsOrder(order, fields.Keys) && buf == old(buf) + CellText(FieldCells(fields, order))
    {
      order := [];
      var keys := fields.Keys;
      NoFields(fields);
      assert buf + "" == buf;
      assert fields.Keys - keys == {};
      hide FieldCells, CellText;
      while keys != {}
        invariant keys <= fields.Keys
        invariant IsOrder(order, fields.Keys - keys)
        invariant buf == old(buf) + CellText(FieldCells(fields, order))
        decreases keys
      {
        var key :| key in keys;
        ghost var seen := fields.Keys - keys;
        keys := keys - {key};
        AppendCell(fields[key].key);
        AppendCell(fields[key].Value());
        OneMoreField(fields, order, key, seen);
        PairText(FieldCells(fields, order), fields[key].key, fields[key].Value());
        Glue(old(buf), CellText(FieldCells(fields, order)), CellText([fields[key].key]), CellText([fields[key].Value()]));
        assert seen + {key} == fields.Keys - keys;
        order := order + [key];
      }
      assert fields.Keys - {} == fields.Keys;
    }

    /** Writes into a fresh encoder; the fields come in some order of the keys. */
    method EncodeEntry(ent: LogEntry, fields: seq<LogField>) returns (line: string)
      ensures exists order :: IsOrder(order, FieldMap(fields).Keys)
                           && line == LineText(messageKey, headerFunc, ent, FieldMap(fields), order)
    {
      var final := new TextEncoder(messageKey, headerFunc);
      var fieldsMap: map<string, LogField> := map[];
      assert fields[..0] == [];
      hide FieldCells, CellText, BodyCells;
      for i := 0 to |fields|
        invariant fieldsMap == FieldMap(fields[..i])
      {
        assert fields[..i + 1][..i] == fields[..i];
        fieldsMap := fieldsMap[fields[i].key := fields[i]];
      }
      assert fields[..|fields|] == fields;
      hide FieldMap, HeaderText;
      final.FormatHeader(ent, fieldsMap);
      ghost var head, level := final.buf, CellText([ent.time, ent.level]);
      assert head == "" + level + HeaderText(headerFunc, ent, fieldsMap);
      assert "" + level == level;
      if final.messageKey != "" {
        final.AppendCell(ent.message);
      }
      ghost var order := final.AppendFields(fieldsMap);
      final.AppendString("\n");
      line := final.buf;
      BodyText(messageKey, ent, fieldsMap, order, head);
    }
  }

  // ---------- Printer and parser ----------

  const NAMES := ["time", "level", "message"]

  function Record(ent: LogEntry): Entry {
    map["time" := ent.time, "level" := ent.level, "message" := ent.message]
  }

  lemma SplitCell(cell: string, rest: string)
    requires '\t' !in cell
    ensures Split(cell + TAB + rest, TAB) == [cell] + Split(rest, TAB) && |Split(rest, TAB)| > 0
  {
    var s := cell + TAB + rest;
    assert s[..|cell|] == cell && s[|cell|] == '\t' && s[|cell| + 1..] == rest;
    SplitAtFirst(s, '\t', |cell|);
  }

  lemma SplitPrinted(ent: LogEntry, extra: seq<string>)
    requires '\t' !in ent.time && '\t' !in ent.level && '\t' !in ent.message
    ensures var parts := Split(CellText([ent.time, ent.level, ent.message] + extra), TAB);
            |parts| >= 3 && parts[0] == ent.time && parts[1] == ent.level && parts[2] == ent.message
  {
    hide Split;
    var three := [ent.time, ent.level, ent.message] + extra;
    var two, one := [ent.level, ent.message] + extra, [ent.message] + extra;
    assert three[1..] == two && two[1..] == one && one[1..] == extra;
    SplitCell(ent.time, CellText(two));
    SplitCell(ent.level, CellText(one));
    SplitCell(ent.message, CellText(extra));
  }

  lemma ThreeFields(parts: seq<string>)
    requires |parts| >= 3
    ensures Fields(NAMES, parts, 3) == map["time" := parts[0], "level" := parts[1], "message" := parts[2]]
  {
    assert Fields(NAMES, parts, 1) == map["time" := parts[0]];
    assert Fields(NAMES, parts, 2) == map["time" := parts[0], "level" := parts[1]];
  }

  /** Parsing a printed line gives back time, level and message, whatever follows them,
      exactly when none of the three contains a tab. */
  lemma PrintedParsesIff(ent: LogEntry, extra: seq<string>)
    ensures ParseLine(CellText([ent.time, ent.level, ent.message] + extra), TAB, NAMES) == Some(Record(ent))
            <==> '\t' !in ent.time && '\t' !in ent.level && '\t' !in ent.message
  {
    hide CellText, Split;
    var text := CellText([ent.time, ent.level, ent.message] + extra);
    if '\t' !in ent.time && '\t' !in ent.level && '\t' !in ent.message {
      SplitPrinted(ent, extra);
      ThreeFields(Split(text, TAB));
    } else if ParseLine(text, TAB, NAMES) == Some(Record(ent)) {
      var parts := Split(text, TAB);
      ThreeFields(parts);
      assert Record(ent)["time"] == parts[0] && Record(ent)["level"] == parts[1] && Record(ent)["message"] == parts[2];
      PartsHaveNoSeparator(text, '\t', parts[0]);
      PartsHaveNoSeparator(text, '\t', parts[1]);
      PartsHaveNoSeparator(text, '\t', parts[2]);
      assert false;
    }
  }

  lemma OneLine(body: string)
    requires '\n' !in body
    ensures LinesIn(body + "\n", 0, |body| + 1) == [body]
  {
    var data := body + "\n";
    assert forall j :: 0 <= j < |body| ==> data[j] == body[j];
    EolUnique(data, 0, |data|, |body|);
    assert data[0..|body|] == body;
  }

  lemma {:induction false} NoNewline(cells: seq<string>)
    requires forall c :: c in cells ==> '\n' !in c
    ensures '\n' !in CellText(cells)
    decreases |cells|
  {
    if cells != [] {
      NoNewline(cells[1..]);
    }
  }

  /** The full round trip: the printed line is one line, and it parses back, for every order of
      the field map. */
  lemma RoundTrip(messageKey: string, ent: LogEntry, fields: map<string, LogField>, order: seq<string>)
    requires messageKey != "" && forall k :: k in order ==> k in fields
    requires '\t' !in ent.time && '\t' !in ent.level && '\t' !in ent.message
    requires forall c :: c in Cells(messageKey, ent, fields, order) ==> '\n' !in c
    ensures var line := LineText(messageKey, None, ent, fields, order);
            && LinesIn(line, 0, |line|) == [line[..|line| - 1]]
            && ParseLine(line[..|line| - 1], TAB, NAMES) == Some(Record(ent))
  {
    hide CellText, LinesIn, ParseLine, FieldCells;
    var extra := FieldCells(fields, order);
    var cells := Cells(messageKey, ent, fields, order);
    assert cells == [ent.time, ent.level, ent.message] + extra;
    PrintedParsesIff(ent, extra);
    NoNewline(cells);
    PlainLine(messageKey, ent, fields, order);
    var body := CellText(cells);
    OneLine(body);
    assert (body + "\n")[..|body|] == body;
  }

  // ---------- What stands in a line ----------

  /** The keys of the field map are those of the fields. */
  lemma {:induction false} FieldKeys(fields: seq<LogField>, k: string)
    ensures k in FieldMap(fields) <==> exists j :: 0 <= j < |fields| && fields[j].key == k
    decreases |fields|
  {
    if fields != [] {
      var front, last := fields[..|fields| - 1], fields[|fields| - 1];
      FieldKeys(front, k);
      assert FieldMap(fields) == FieldMap(front)[last.key := last];
      hide FieldMap;
      if k == last.key {
        assert fields[|fields| - 1].key == k;
      } else if j :| 0 <= j < |fields| && fields[j].key == k {
        assert front[j].key == k;
      }
    }
  }

  /** Of the fields with one key the last is taken. */
  lemma {:induction false} LastFieldWins(fields: seq<LogField>, j: nat)
    requires j < |fields| && forall m :: j < m < |fields| ==> fields[m].key != fields[j].key
    ensures fields[j].key in FieldMap(fields) && FieldMap(fields)[fields[j].key] == fields[j]
    decreases |fields|
  {
    var front := fields[..|fields| - 1];
    if j < |front| {
      assert front[j] == fields[j] && fields[|fields| - 1].key != fields[j].key;
      LastFieldWins(front, j);
    }
  }

  lemma {:induction false} FieldCellsAt(fields: map<string, LogField>, order: seq<string>, i: nat)
    requires i < |order| && forall k :: k in order ==> k in fields
    ensures |FieldCells(fields, order)| == 2 * |order|
    ensures FieldCells(fields, order)[2 * i] == fields[order[i]].key
    ensures FieldCells(fields, order)[2 * i + 1] == fields[order[i]].Value()
    decreases |order|
  {
    var front := order[..|order| - 1];
    if i < |front| {
      FieldCellsAt(fields, front, i);
    } else if front != [] {
      FieldCellsAt(fields, front, 0);
    } else {
      assert FieldCells(fields, front) == [];
    }
  }

  /** A key and its value are neighbours: the text of the last field given for the key or, when that
      is empty, what its interface value renders to. */
  lemma FieldMeaningInLine(fields: seq<LogField>, order: seq<string>, i: nat, j: nat)
    requires IsOrder(order, FieldMap(fields).Keys) && i < |order| && j < |fields| && fields[j].key == order[i]
    requires forall m :: j < m < |fields| ==> fields[m].key != order[i]
    ensures var cells := FieldCells(FieldMap(fields), order);
            && |cells| == 2 * |order| && cells[2 * i] == order[i]
            && cells[2 * i + 1] == if fields[j].text != "" then fields[j].text else fields[j].rendered
  {
    hide FieldCells, FieldMap;
    LastFieldWins(fields, j);
    FieldCellsAt(FieldMap(fields), order, i);
  }

  lemma {:induction false} CellsBack(cells: seq<string>)
    requires forall c :: c in cells ==> '\t' !in c
    ensures Split(CellText(cells), TAB) == cells + [""]
    decreases |cells|
  {
    if cells == [] {
      assert ""[..0] == "";
      SplitAtFirst("", '\t', 0);
    } else {
      hide Split;
      assert CellText(cells) == cells[0] + TAB + CellText(cells[1..]);
      assert cells[0] in cells && forall c :: c in cells[1..] ==> c in cells;
      hide CellText;
      CellsBack(cells[1..]);
      SplitCell(cells[0], CellText(cells[1..]));
      assert [cells[0]] + (cells[1..] + [""]) == cells + [""];
    }
  }

  /** Cutting a printed line at its tabs gives time, level, the message if it has a key, and then
      the cells of the fields. */
  lemma PrintedCells(messageKey: string, ent: LogEntry, fields: map<string, LogField>, order: seq<string>)
    requires forall k :: k in order ==> k in fields
    requires '\t' !in ent.time && '\t' !in ent.level && '\t' !in ent.message
    requires forall c :: c in FieldCells(fields, order) ==> '\t' !in c
    ensures var line := LineText(messageKey, None, ent, fields, order);
            && line != "" && line[|line| - 1] == '\n'
            && Split(line[..|line| - 1], TAB) ==
               [ent.time, ent.level] + (if messageKey != "" then [ent.message] else []) + FieldCells(fields, order) + [""]
  {
    var cells := [ent.time, ent.level] + (if messageKey != "" then [ent.message] else []) + FieldCells(fields, order);
    assert cells == Cells(messageKey, ent, fields, order);
    PlainLine(messageKey, ent, fields, order);
    hide FieldCells, CellText, Split, LineText;
    forall c | c in cells
      ensures '\t' !in c
    {
      if c !in [ent.time, ent.level] && c !in [ent.message] {
        assert c in FieldCells(fields, order);
      }
    }
    CellsBack(cells);
    assert (CellText(cells) + "\n")[..|CellText(cells)|] == CellText(cells);
  }

  /** What a custom header function returns stands behind time and level, the rest of the line behind
      that. */
  lemma HeaderInLine(messageKey: string, f: (LogEntry, map<string, LogField>) -> string, ent: LogEntry,
                     fields: map<string, LogField>, order: seq<string>) returns (rest: string)
    requires forall k :: k in order ==> k in fields
    ensures LineText(messageKey, None, ent, fields, order) == ent.time + "\t" + ent.level + "\t" + rest
    ensures LineText(messageKey, Some(f), ent, fields, order) == ent.time + "\t" + ent.level + "\t" + f(ent, fields) + rest
  {
    var start := ent.time + "\t" + ent.level + "\t";
    rest := CellText(BodyCells(messageKey, ent, fields, order)) + "\n";
    assert CellText([ent.time, ent.level]) == start by {
      OneCell(ent.time);
      OneCell(ent.level);
      CellTextSum([ent.time], [ent.level]);
      assert [ent.time] + [ent.level] == [ent.time, ent.level];
      assert ent.time + "\t" + (ent.level + "\t") == start;
    }
    hide CellText, BodyCells;
    assert start + "" == start;
    assert start + CellText(BodyCells(messageKey, ent, fields, order)) + "\n" == start + rest;
    assert start + f(ent, fields) + CellText(BodyCells(messageKey, ent, fields, order)) + "\n" == start + f(ent, fields) + rest;
  }
}

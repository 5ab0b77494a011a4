/** Writer and query engine together: over files that the encoder wrote, a query returns the
    records of the entries that pass its filters. */
module LogWritten {
  import opened Strings
  import opened LogFormat
  import opened LogScan
  import opened LogQuery
  import opened LogWriter

  // ---------- Files given as lists of lines ----------

  function TextOf(bodies: seq<string>): string {
    if bodies == [] then "" else bodies[0] + "\n" + TextOf(bodies[1..])
  }

  /** A line that starts with a timestamp and a tab and has no other one followed by a tab. */
  ghost predicate GoodLine(q: Query, b: string) {
    && |b| > STAMP && '\n' !in b && b[STAMP] == '\t' && q.clock(b[..STAMP]).Some?
    && (q.Sep() != "" ==> !(q.Sep() <= b))
    && forall p :: 0 < p ==> !StampTab(q.clock, b, p)
  }

  ghost function LineTime(clock: Clock, b: string): int {
    match ParseTime(clock, b)
    case Some(t) => t
    case None => 0
  }

  ghost predicate GoodLines(q: Query, bodies: seq<string>) {
    && (forall i :: 0 <= i < |bodies| ==> GoodLine(q, bodies[i]))
    && forall i, j :: 0 <= i < j < |bodies| ==> LineTime(q.clock, bodies[i]) <= LineTime(q.clock, bodies[j])
  }

  lemma TailIsGood(q: Query, bodies: seq<string>)
    requires bodies != [] && GoodLines(q, bodies)
    ensures GoodLines(q, bodies[1..]) && GoodLine(q, bodies[0])
    ensures forall j :: 0 <= j < |bodies| - 1 ==> LineTime(q.clock, bodies[0]) <= LineTime(q.clock, bodies[1..][j])
  {
    hide GoodLine, LineTime;
  }

  /** Positions in `b + "\n" + rest` behind the newline are positions in `rest`. */
  lemma Shift(b: string, rest: string, p: nat)
    requires '\n' !in b && p < |b| + 1 + |rest|
    ensures var data, k := b + "\n" + rest, |b| + 1;
            && (p >= k ==> (LineStart(data, p) <==> LineStart(rest, p - k)))
            && (p >= k ==> Eol(data, p, |data|) == k + Eol(rest, p - k, |rest|)
                           && data[p..Eol(data, p, |data|)] == rest[p - k..Eol(rest, p - k, |rest|)])
            && (p >= k && p + STAMP <= |data| ==> data[p..p + STAMP] == rest[p - k..p - k + STAMP])
            && (0 < p < k ==> !LineStart(data, p))
  {
    var data, k := b + "\n" + rest, |b| + 1;
    assert forall j :: 0 <= j < |b| ==> data[j] == b[j];
    assert forall j :: k <= j < |data| ==> data[j] == rest[j - k];
    if p >= k {
      var n := Eol(rest, p - k, |rest|);
      EolUnique(data, p, |data|, k + n);
      assert data[p..k + n] == rest[p - k..n];
    }
  }

  lemma FirstLineEnds(b: string, rest: string)
    requires '\n' !in b
    ensures var data := b + "\n" + rest; Eol(data, 0, |data|) == |b| && data[0..|b|] == b
  {
    var data := b + "\n" + rest;
    assert forall j :: 0 <= j < |b| ==> data[j] == b[j];
    EolUnique(data, 0, |data|, |b|);
  }

  lemma {:induction false} TextIsStamped(q: Query, bodies: seq<string>)
    requires Layout(q.clock) && GoodLines(q, bodies)
    ensures Stamped(q, TextOf(bodies))
    decreases |bodies|
  {
    if bodies != [] {
      hide Layout, LineTime;
      TailIsGood(q, bodies);
      TextIsStamped(q, bodies[1..]);
      var b, rest, data := bodies[0], TextOf(bodies[1..]), TextOf(bodies);
      forall p | 0 <= p < |data| && LineStart(data, p)
        ensures StampAt(q, data, p)
      {
        Shift(b, rest, p);
        if p == 0 {
          FirstLineEnds(b, rest);
          assert data[0..STAMP] == b[..STAMP];
        } else {
          assert StampAt(q, rest, p - |b| - 1);
        }
      }
    }
  }

  lemma SameWindow(a: string, b: string, p: nat, n: nat)
    requires p + n <= |a|
    ensures (a + b)[p..p + n] == a[p..p + n]
  {
  }

  /** A timestamp and tab in text cut by a tab or newline lies on one side of the cut, or ends
      at a tab that is the cut. */
  lemma StampBeside(clock: Clock, a: string, cut: char, rest: string, p: nat)
    requires Layout(clock) && (cut == '\t' || cut == '\n')
    ensures StampTab(clock, a + [cut] + rest, p) ==>
              || StampTab(clock, a, p)
              || (p + STAMP == |a| && cut == '\t' && clock(a[p..]).Some?)
              || (p > |a| && StampTab(clock, rest, p - |a| - 1))
  {
    var text := a + [cut] + rest;
    if p + STAMP < |text| {
      var stamp := text[p..p + STAMP];
      assert |stamp| == STAMP;
      if p > |a| {
        assert stamp == rest[p - |a| - 1..p - |a| - 1 + STAMP];
      } else if p + STAMP > |a| {
        assert stamp[|a| - p] == cut;
        assert cut in stamp;
      } else {
        SameWindow(a, [cut] + rest, p, STAMP);
        assert text == a + ([cut] + rest);
        assert p + STAMP == |a| ==> a[p..p + STAMP] == a[p..];
      }
    }
  }

  lemma NoTabNoStamp(clock: Clock, c: string, p: nat)
    requires '\t' !in c
    ensures !StampTab(clock, c, p)
  {
  }

  lemma {:induction false} TextHasNoStray(q: Query, bodies: seq<string>)
    requires Layout(q.clock) && GoodLines(q, bodies)
    ensures NoStrayStamp(q.clock, TextOf(bodies))
    decreases |bodies|
  {
    if bodies != [] {
      hide LineTime, GoodLines;
      TailIsGood(q, bodies);
      TextHasNoStray(q, bodies[1..]);
      var b, rest, data := bodies[0], TextOf(bodies[1..]), TextOf(bodies);
      forall p | StampTab(q.clock, data, p)
        ensures LineStart(data, p)
      {
        Shift(b, rest, p);
        StampBeside(q.clock, b, '\n', rest, p);
      }
    }
  }

  lemma ShiftTime(clock: Clock, b: string, rest: string, p: nat)
    requires '\n' !in b && p + STAMP <= |b + "\n" + rest|
    ensures p == 0 && |b| > STAMP ==> TimeAt(clock, b + "\n" + rest, p) == LineTime(clock, b)
    ensures p > |b| ==> TimeAt(clock, b + "\n" + rest, p) == TimeAt(clock, rest, p - |b| - 1)
  {
    var data := b + "\n" + rest;
    if p > |b| {
      Shift(b, rest, p);
    } else if p == 0 && |b| > STAMP {
      assert data[0..STAMP] == b[..STAMP];
    }
  }

  lemma GoodLineShape(q: Query, b: string)
    requires GoodLine(q, b)
    ensures |b| > STAMP && '\n' !in b
  {
  }

  lemma {:induction false} TimeComesFromLine(q: Query, bodies: seq<string>, p: nat) returns (j: nat)
    requires Layout(q.clock) && GoodLines(q, bodies)
    requires p < |TextOf(bodies)| && LineStart(TextOf(bodies), p)
    ensures j < |bodies| && p + STAMP <= |TextOf(bodies)|
    ensures TimeAt(q.clock, TextOf(bodies), p) == LineTime(q.clock, bodies[j])
    decreases |bodies|
  {
    TailIsGood(q, bodies);
    TextIsStamped(q, bodies);
    assert StampAt(q, TextOf(bodies), p);
    var b, rest := bodies[0], TextOf(bodies[1..]);
    hide GoodLines, Stamped, LineTime, TimeAt, Layout;
    GoodLineShape(q, b);
    Shift(b, rest, p);
    ShiftTime(q.clock, b, rest, p);
    j := 0;
    if p != 0 {
      j := TimeComesFromLine(q, bodies[1..], p - |b| - 1);
      j := j + 1;
    }
  }

  lemma SortedPair(q: Query, bodies: seq<string>, p: nat, r: nat)
    requires bodies != [] && Layout(q.clock) && GoodLines(q, bodies) && Stamped(q, TextOf(bodies))
    requires Stamped(q, TextOf(bodies[1..])) && Sorted(q, TextOf(bodies[1..]))
    requires p <= r < |TextOf(bodies)| && LineStart(TextOf(bodies), p) && LineStart(TextOf(bodies), r)
    ensures p + STAMP <= |TextOf(bodies)| && r + STAMP <= |TextOf(bodies)|
    ensures TimeAt(q.clock, TextOf(bodies), p) <= TimeAt(q.clock, TextOf(bodies), r)
  {
    hide Layout, GoodLine, LineTime, TimeAt, LineStart, GoodLines;
    var b, rest, data := bodies[0], TextOf(bodies[1..]), TextOf(bodies);
    assert StampAt(q, data, p) && StampAt(q, data, r);
    TailIsGood(q, bodies);
    GoodLineShape(q, b);
    hide Stamped, StampAt, TextOf;
    Shift(b, rest, p);
    Shift(b, rest, r);
    ShiftTime(q.clock, b, rest, p);
    ShiftTime(q.clock, b, rest, r);
    if p == 0 && r != 0 {
      var j := TimeComesFromLine(q, bodies[1..], r - |b| - 1);
    }
  }

  lemma {:induction false} TextIsSorted(q: Query, bodies: seq<string>)
    requires Layout(q.clock) && GoodLines(q, bodies) && Stamped(q, TextOf(bodies))
    ensures Sorted(q, TextOf(bodies))
    decreases |bodies|
  {
    if bodies != [] {
      TailIsGood(q, bodies);
      TextIsStamped(q, bodies[1..]);
      TextIsSorted(q, bodies[1..]);
      var b, rest, data := bodies[0], TextOf(bodies[1..]), TextOf(bodies);
      forall p, r | 0 <= p <= r < |data| && LineStart(data, p) && LineStart(data, r)
        ensures TimeAt(q.clock, data, p) <= TimeAt(q.clock, data, r)
      {
        SortedPair(q, bodies, p, r);
      }
    }
  }

  /** Good lines make a well-formed file. */
  lemma TextIsOk(q: Query, bodies: seq<string>)
    requires Layout(q.clock) && GoodLines(q, bodies)
    ensures FileOk(q, TextOf(bodies))
  {
    hide Layout, GoodLines, Stamped, NoStrayStamp, Sorted;
    TextIsStamped(q, bodies);
    TextHasNoStray(q, bodies);
    TextIsSorted(q, bodies);
  }

  lemma NoLines(data: string, p: nat)
    requires p >= |data|
    ensures LinesIn(data, p, |data|) == []
  {
  }

  lemma {:induction false} LinesShift(b: string, rest: string, p: nat)
    requires '\n' !in b && p <= |rest|
    ensures var data := b + "\n" + rest;
            LinesIn(data, |b| + 1 + p, |data|) == LinesIn(rest, p, |rest|)
    decreases |rest| - p
  {
    hide LinesIn, Eol;
    var data, k := b + "\n" + rest, |b| + 1;
    if p < |rest| {
      Shift(b, rest, k + p);
      LinesFirst(data, k + p, |data|);
      LinesFirst(rest, p, |rest|);
      var n := Eol(rest, p, |rest|);
      if n < |rest| {
        LinesShift(b, rest, n + 1);
      } else {
        NoLines(data, |data| + 1);
        NoLines(rest, |rest| + 1);
      }
    } else {
      NoLines(data, |data|);
      NoLines(rest, |rest|);
    }
  }

  lemma {:induction false} LinesOfText(bodies: seq<string>)
    requires forall b :: b in bodies ==> '\n' !in b
    ensures LinesIn(TextOf(bodies), 0, |TextOf(bodies)|) == bodies
    decreases |bodies|
  {
    if bodies != [] {
      var b, rest, data := bodies[0], TextOf(bodies[1..]), TextOf(bodies);
      FirstLineEnds(b, rest);
      LinesOfText(bodies[1..]);
      LinesShift(b, rest, 0);
      assert bodies == [b] + bodies[1..];
    }
  }

  /** A last line without a newline is a line too. */
  lemma {:induction false} LinesOfOpenText(bodies: seq<string>, last: string)
    requires last != "" && '\n' !in last && forall b :: b in bodies ==> '\n' !in b
    ensures var data := TextOf(bodies) + last; LinesIn(data, 0, |data|) == bodies + [last]
    decreases |bodies|
  {
    var data := TextOf(bodies) + last;
    if bodies == [] {
      assert data == last && data[0..|data|] == last;
      EolUnique(data, 0, |data|, |data|);
      NoLines(data, |data| + 1);
      LinesFirst(data, 0, |data|);
    } else {
      var b, rest := bodies[0], TextOf(bodies[1..]) + last;
      assert data == b + "\n" + rest;
      FirstLineEnds(b, rest);
      LinesFirst(data, 0, |data|);
      LinesOfOpenText(bodies[1..], last);
      LinesShift(b, rest, 0);
      assert bodies + [last] == [b] + (bodies[1..] + [last]);
    }
  }

  // ---------- Files the encoder wrote ----------

  /** An entry as printed: the cells behind the message are its fields, in whatever order. */
  datatype Written = Written(ent: LogEntry, extra: seq<string>) {
    function Body(): string { CellText([ent.time, ent.level, ent.message] + extra) }
  }

  /** What the encoder writes, with a message key and without a custom header, is such an entry
      and a newline. */
  lemma EncodedIsWritten(messageKey: string, ent: LogEntry, fields: map<string, LogField>, line: string)
    returns (w: Written)
    requires messageKey != ""
    requires exists order :: IsOrder(order, fields.Keys) && line == LineText(messageKey, None, ent, fields, order)
    ensures w.ent == ent && line == w.Body() + "\n"
  {
    var order :| IsOrder(order, fields.Keys) && line == LineText(messageKey, None, ent, fields, order);
    w := Written(ent, FieldCells(fields, order));
    PlainLine(messageKey, ent, fields, order);
    assert Cells(messageKey, ent, fields, order) == [ent.time, ent.level, ent.message] + w.extra;
  }

  /** A cell without tab or newline that does not end in a timestamp. */
  ghost predicate PlainCell(clock: Clock, c: string) {
    '\t' !in c && '\n' !in c && (|c| >= STAMP ==> clock(c[|c| - STAMP..]).None?)
  }

  ghost predicate PlainEntry(clock: Clock, w: Written) {
    && |w.ent.time| == STAMP && clock(w.ent.time).Some?
    && forall c :: c in [w.ent.level, w.ent.message] + w.extra ==> PlainCell(clock, c)
  }

  /** Between plain cells no timestamp is followed by a tab. */
  lemma {:induction false} PlainCellsHideNothing(clock: Clock, cells: seq<string>, p: nat)
    requires Layout(clock) && forall c :: c in cells ==> PlainCell(clock, c)
    ensures !StampTab(clock, CellText(cells), p)
    decreases |cells|
  {
    if cells != [] {
      PlainCellsHideNothing(clock, cells[1..], if p > |cells[0]| then p - |cells[0]| - 1 else 0);
      StampBeside(clock, cells[0], '\t', CellText(cells[1..]), p);
      assert PlainCell(clock, cells[0]);
      assert !StampTab(clock, cells[0], p) by { NoTabNoStamp(clock, cells[0], p); }
    }
  }

  lemma BodyShape(w: Written)
    ensures w.Body() == w.ent.time + TAB + CellText([w.ent.level, w.ent.message] + w.extra)
  {
    var all := [w.ent.time, w.ent.level, w.ent.message] + w.extra;
    assert all[1..] == [w.ent.level, w.ent.message] + w.extra;
  }

  lemma BodyHasNoNewline(clock: Clock, w: Written)
    requires Layout(clock) && PlainEntry(clock, w)
    ensures '\n' !in w.Body()
  {
    var all := [w.ent.time, w.ent.level, w.ent.message] + w.extra;
    forall c | c in all
      ensures '\n' !in c
    {
      if c != w.ent.time {
        assert c in [w.ent.level, w.ent.message] + w.extra;
        assert PlainCell(clock, c);
      }
    }
    NoNewline(all);
  }

  lemma BodyIsGood(q: Query, w: Written)
    requires Layout(q.clock) && q.Sep() == TAB && PlainEntry(q.clock, w)
    ensures GoodLine(q, w.Body()) && w.Body()[..STAMP] == w.ent.time
    ensures '\t' !in w.ent.time && '\t' !in w.ent.level && '\t' !in w.ent.message
  {
    hide CellText;
    var cells := [w.ent.level, w.ent.message] + w.extra;
    var b, rest := w.Body(), CellText(cells);
    BodyShape(w);
    BodyHasNoNewline(q.clock, w);
    assert PlainCell(q.clock, w.ent.level) && PlainCell(q.clock, w.ent.message);
    forall p | 0 < p
      ensures !StampTab(q.clock, b, p)
    {
      StampBeside(q.clock, w.ent.time, '\t', rest, p);
      if p > STAMP {
        PlainCellsHideNothing(q.clock, cells, p - STAMP - 1);
      }
    }
    assert b[..STAMP] == w.ent.time;
    assert b[0] == w.ent.time[0];
  }

  function Bodies(ws: seq<Written>): (bodies: seq<string>)
    ensures |bodies| == |ws| && forall i :: 0 <= i < |ws| ==> bodies[i] == ws[i].Body()
  {
    seq(|ws|, i requires 0 <= i < |ws| => ws[i].Body())
  }

  /** The records of the entries that pass. */
  function PassingRecords(q: Query, ws: seq<Written>): seq<Entry> {
    if ws == [] then []
    else (if Passes(q, Record(ws[0].ent)) then [Record(ws[0].ent)] else []) + PassingRecords(q, ws[1..])
  }

  ghost function Decoded(clock: Clock, w: Written): int {
    match clock(w.ent.time)
    case Some(t) => t
    case None => 0
  }

  /** What the query engine is told about one day: plain entries in time order. */
  ghost predicate PlainDay(q: Query, day: seq<Written>) {
    && (forall i :: 0 <= i < |day| ==> PlainEntry(q.clock, day[i]))
    && forall i, j :: 0 <= i < j < |day| ==> Decoded(q.clock, day[i]) <= Decoded(q.clock, day[j])
  }

  lemma DayIsOk(q: Query, day: seq<Written>)
    requires Layout(q.clock) && q.Sep() == TAB && PlainDay(q, day)
    ensures FileOk(q, TextOf(Bodies(day)))
    ensures LinesIn(TextOf(Bodies(day)), 0, |TextOf(Bodies(day))|) == Bodies(day)
  {
    hide FileOk, PlainEntry, GoodLine, Layout;
    var bodies := Bodies(day);
    forall i | 0 <= i < |day|
      ensures GoodLine(q, bodies[i]) && LineTime(q.clock, bodies[i]) == Decoded(q.clock, day[i]) && '\n' !in bodies[i]
    {
      BodyIsGood(q, day[i]);
      BodyHasNoNewline(q.clock, day[i]);
      GoodLineShape(q, bodies[i]);
    }
    LinesOfText(bodies);
    TextIsOk(q, bodies);
  }

  lemma {:induction false} SelectOfBodies(q: Query, ws: seq<Written>)
    requires Layout(q.clock) && q.Sep() == TAB && q.req.fieldNames == NAMES
    requires forall w :: w in ws ==> PlainEntry(q.clock, w)
    ensures Select(q, Bodies(ws)) == PassingRecords(q, ws)
    decreases |ws|
  {
    hide Passes, PlainEntry, Layout, ParseLine;
    if ws != [] {
      var w := ws[0];
      BodyIsGood(q, w);
      PrintedParsesIff(w.ent, w.extra);
      SelectOfBodies(q, ws[1..]);
      assert Bodies(ws) == [w.Body()] + Bodies(ws[1..]);
      SelectCons(q, w.Body(), Bodies(ws[1..]));
    }
  }

  function Files(days: seq<seq<Written>>): (files: seq<Option<string>>)
    ensures |files| == |days| && forall i :: 0 <= i < |days| ==> files[i] == Some(TextOf(Bodies(days[i])))
  {
    seq(|days|, i requires 0 <= i < |days| => Some(TextOf(Bodies(days[i]))))
  }

  function Flat<T>(days: seq<seq<T>>): seq<T> {
    if days == [] then [] else days[0] + Flat(days[1..])
  }

  lemma {:induction false} LinesOfFiles(q: Query, days: seq<seq<Written>>)
    requires Layout(q.clock) && q.Sep() == TAB && forall d :: d in days ==> PlainDay(q, d)
    ensures AllLines(Files(days)) == Bodies(Flat(days))
    ensures forall w :: w in Flat(days) ==> PlainEntry(q.clock, w)
    decreases |days|
  {
    hide PlainEntry, Layout, TextOf, LinesIn;
    if days != [] {
      DayIsOk(q, days[0]);
      LinesOfFiles(q, days[1..]);
      assert Files(days)[1..] == Files(days[1..]);
      assert Bodies(days[0] + Flat(days[1..])) == Bodies(days[0]) + Bodies(Flat(days[1..]));
    }
  }

  /** Written by the encoder, read by the engine: a query for time, level and message over
      daily files of plain entries returns the records of the first `room` entries that pass. */
  lemma QueryOfWritten(q: Query, days: seq<seq<Written>>, room: int)
    requires Layout(q.clock) && q.Sep() == TAB && q.req.fieldNames == NAMES && q.req.message != Some("")
    requires forall d :: d in days ==> PlainDay(q, d)
    requires forall d :: d in days ==> Reached(TextOf(Bodies(d))) == |TextOf(Bodies(d))|
    ensures FromFiles(q, Files(days), room) == Some(Take(PassingRecords(q, Flat(days)), room))
  {
    hide FileOk, PlainDay, Layout, TextOf, Bodies, Select, PassingRecords, Reached, FromFiles, AllLines, ReachedLines, Take, Passes;
    var files := Files(days);
    forall f | f in files
      ensures f.Some? && FileOk(q, f.value) && Reached(f.value) == |f.value|
    {
      var i :| 0 <= i < |days| && f == files[i];
      DayIsOk(q, days[i]);
    }
    FilesAreNaive(q, files, room);
    AllAreReached(files);
    LinesOfFiles(q, days);
    SelectOfBodies(q, Flat(days));
  }

  // ---------- From entries to the reply ----------

  datatype Logged = Logged(ent: LogEntry, fields: seq<LogField>)

  /** An entry all of whose cells will be plain. */
  ghost predicate Loggable(clock: Clock, l: Logged) {
    && |l.ent.time| == STAMP && clock(l.ent.time).Some? && PlainCell(clock, l.ent.level) && PlainCell(clock, l.ent.message)
    && forall i :: 0 <= i < |l.fields| ==> PlainCell(clock, l.fields[i].key) && PlainCell(clock, l.fields[i].Value())
  }

  ghost function Time(clock: Clock, ent: LogEntry): int {
    match clock(ent.time)
    case Some(t) => t
    case None => 0
  }

  /** A day of such entries in time order. */
  ghost predicate LoggableDay(clock: Clock, day: seq<Logged>) {
    && (forall i :: 0 <= i < |day| ==> Loggable(clock, day[i]))
    && forall i, j :: 0 <= i < j < |day| ==> Time(clock, day[i].ent) <= Time(clock, day[j].ent)
  }

  function Ents(day: seq<Logged>): (ents: seq<LogEntry>)
    ensures |ents| == |day| && forall i :: 0 <= i < |day| ==> ents[i] == day[i].ent
  {
    seq(|day|, i requires 0 <= i < |day| => day[i].ent)
  }

  /** The records of the entries that pass, in order. */
  function PassingOf(q: Query, ents: seq<LogEntry>): seq<Entry> {
    if ents == [] then []
    else (if Passes(q, Record(ents[0])) then [Record(ents[0])] else []) + PassingOf(q, ents[1..])
  }

  lemma {:induction false} PassingSame(q: Query, ws: seq<Written>, ents: seq<LogEntry>)
    requires |ws| == |ents| && forall i :: 0 <= i < |ws| ==> ws[i].ent == ents[i]
    ensures PassingRecords(q, ws) == PassingOf(q, ents)
    decreases |ws|
  {
    hide Passes;
    if ws != [] {
      PassingSame(q, ws[1..], ents[1..]);
    }
  }

  lemma {:induction false} FieldMapFrom(fields: seq<LogField>, k: string)
    requires k in FieldMap(fields)
    ensures FieldMap(fields)[k] in fields
    decreases |fields|
  {
    var last := fields[|fields| - 1];
    if k != last.key {
      FieldMapFrom(fields[..|fields| - 1], k);
    }
  }

  lemma {:induction false} PlainFields(clock: Clock, l: Logged, order: seq<string>)
    requires Loggable(clock, l) && forall k :: k in order ==> k in FieldMap(l.fields)
    ensures forall c :: c in FieldCells(FieldMap(l.fields), order) ==> PlainCell(clock, c)
    decreases |order|
  {
    hide PlainCell;
    if order != [] {
      var k := order[|order| - 1];
      PlainFields(clock, l, order[..|order| - 1]);
      FieldMapFrom(l.fields, k);
    }
  }

  /** The line of a loggable entry is a plain entry. */
  lemma LoggedIsPlain(clock: Clock, messageKey: string, l: Logged, line: string) returns (w: Written)
    requires messageKey != "" && Loggable(clock, l)
    requires exists order :: IsOrder(order, FieldMap(l.fields).Keys)
                          && line == LineText(messageKey, None, l.ent, FieldMap(l.fields), order)
    ensures w.ent == l.ent && line == w.Body() + "\n" && PlainEntry(clock, w)
  {
    hide PlainCell, FieldCells, CellText, FieldMap;
    var fields := FieldMap(l.fields);
    var order :| IsOrder(order, fields.Keys) && line == LineText(messageKey, None, l.ent, fields, order);
    w := Written(l.ent, FieldCells(fields, order));
    PlainLine(messageKey, l.ent, fields, order);
    assert Cells(messageKey, l.ent, fields, order) == [l.ent.time, l.ent.level, l.ent.message] + w.extra;
    PlainFields(clock, l, order);
  }

  lemma {:induction false} TextSnoc(bodies: seq<string>, b: string)
    ensures TextOf(bodies + [b]) == TextOf(bodies) + (b + "\n")
    decreases |bodies|
  {
    if bodies == [] {
      assert [] + [b] == [b] && [b][1..] == [];
      assert b + "\n" + "" == "" + (b + "\n");
    } else {
      assert (bodies + [b])[1..] == bodies[1..] + [b];
      TextSnoc(bodies[1..], b);
      assert bodies[0] + "\n" + (TextOf(bodies[1..]) + (b + "\n")) == bodies[0] + "\n" + TextOf(bodies[1..]) + (b + "\n");
    }
  }

  /** The entries as written are those that were logged. */
  ghost predicate SameDay(clock: Clock, day: seq<Logged>, ws: seq<Written>) {
    |ws| == |day| && forall i :: 0 <= i < |day| ==> ws[i].ent == day[i].ent && PlainEntry(clock, ws[i])
  }

  /** Logs the entries of a day, one encoded line after the other. */
  method WriteDay(clock: Clock, enc: TextEncoder, day: seq<Logged>) returns (text: string)
    requires enc.messageKey != "" && enc.headerFunc == None && forall i :: 0 <= i < |day| ==> Loggable(clock, day[i])
    ensures exists ws :: SameDay(clock, day, ws) && text == TextOf(Bodies(ws))
  {
    text := "";
    ghost var ws := [];
    hide PlainEntry, Loggable, LineText, IsOrder, FieldMap;
    for i := 0 to |day|
      invariant |ws| == i && text == TextOf(Bodies(ws))
      invariant forall j :: 0 <= j < i ==> ws[j].ent == day[j].ent && PlainEntry(clock, ws[j])
    {
      var line := enc.EncodeEntry(day[i].ent, day[i].fields);
      ghost var w := LoggedIsPlain(clock, enc.messageKey, day[i], line);
      assert Bodies(ws + [w]) == Bodies(ws) + [w.Body()];
      TextSnoc(Bodies(ws), w.Body());
      text, ws := text + line, ws + [w];
    }
    assert SameDay(clock, day, ws);
  }

  lemma DayIsPlain(q: Query, day: seq<Logged>, ws: seq<Written>)
    requires LoggableDay(q.clock, day) && SameDay(q.clock, day, ws)
    ensures PlainDay(q, ws)
  {
    hide PlainEntry, Loggable;
    forall i, j | 0 <= i < j < |ws|
      ensures Decoded(q.clock, ws[i]) <= Decoded(q.clock, ws[j])
    {
      assert Time(q.clock, day[i].ent) <= Time(q.clock, day[j].ent);
    }
  }

  /** The days one after the other, a file each. */
  method WriteDays(clock: Clock, enc: TextEncoder, days: seq<seq<Logged>>) returns (files: seq<Option<string>>, ghost wss: seq<seq<Written>>)
    requires enc.messageKey != "" && enc.headerFunc == None
    requires forall d :: d in days ==> LoggableDay(clock, d)
    ensures files == Files(wss) && |wss| == |days|
    ensures forall i :: 0 <= i < |days| ==> SameDay(clock, days[i], wss[i])
  {
    files, wss := [], [];
    for i := 0 to |days|
      invariant |wss| == i && files == Files(wss)
      invariant forall j :: 0 <= j < i ==> SameDay(clock, days[j], wss[j])
    {
      assert LoggableDay(clock, days[i]);
      var text := WriteDay(clock, enc, days[i]);
      ghost var ws :| SameDay(clock, days[i], ws) && text == TextOf(Bodies(ws));
      assert Files(wss + [ws]) == Files(wss) + [Some(text)];
      files, wss := files + [Some(text)], wss + [ws];
    }
  }

  lemma {:induction false} FlatSame(clock: Clock, days: seq<seq<Logged>>, wss: seq<seq<Written>>)
    requires |wss| == |days| && forall i :: 0 <= i < |days| ==> SameDay(clock, days[i], wss[i])
    ensures |Flat(wss)| == |Flat(days)| && forall i :: 0 <= i < |Flat(days)| ==> Flat(wss)[i].ent == Flat(days)[i].ent
    decreases |days|
  {
    hide PlainEntry;
    if days != [] {
      FlatSame(clock, days[1..], wss[1..]);
    }
  }

  lemma NamesAre()
    ensures NAMES == ["time", "level", "message"] && TAB == "\t"
  {
  }

  /** Logging days and asking for them: the reply holds the records of the first logged entries
      that pass the request, as long as the files are looked at in full. */
  method WriteAndQuery(clock: Clock, enc: TextEncoder, days: seq<seq<Logged>>, req: Request, path: string)
    returns (files: seq<Option<string>>, reply: Reply)
    requires enc.messageKey != "" && enc.headerFunc == None
    requires Layout(clock) && forall d :: d in days ==> LoggableDay(clock, d)
    ensures |files| == |days| && forall f :: f in files ==> f.Some?
    ensures Answerable(clock, req, path) && req.fieldNames == ["time", "level", "message"]
            && (req.separator == None || req.separator == Some("\t")) && req.message != Some("") && (forall f :: f in files ==> Reached(f.value) == |f.value|) ==>
              reply == Logs(Take(PassingOf(Query(clock, req), Ents(Flat(days))), LOG_LIMIT))
  {
    hide *;
    ghost var q, wss := Query(clock, req), [];
    files, wss := WriteDays(clock, enc, days);
    reply := QueryLogs(clock, req, path, files);
    SepMeaning(q);
    NamesAre();
    if Answerable(clock, req, path) && req.fieldNames == NAMES && q.Sep() == TAB && req.message != Some("")
       && (forall f :: f in files ==> Reached(f.value) == |f.value|) {
      forall d | d in wss
        ensures PlainDay(q, d) && Reached(TextOf(Bodies(d))) == |TextOf(Bodies(d))|
      {
        var i :| 0 <= i < |wss| && wss[i] == d;
        assert files[i] == Some(TextOf(Bodies(d))) && files[i] in files;
        assert days[i] in days;
        DayIsPlain(q, days[i], d);
      }
      QueryOfWritten(q, wss, LOG_LIMIT);
      FlatSame(clock, days, wss);
      PassingSame(q, Flat(wss), Ents(Flat(days)));
    }
  }
}

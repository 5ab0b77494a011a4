/** The query engine itself (`log/encoder/text_query.go`): the manager, its running total and
    scratch buffer, and the loops over bytes, lines, chunks and files. */
module LogQuery {
  import opened Strings
  import opened LogFormat
  import opened LogChunks
  import opened LogScan

  const LOG_LIMIT := 10000

  /** Copies a timestamp into its own buffer before decoding it. */
  class TimeParser {
    const buf: array<char>

    constructor ()
      ensures fresh(buf) && buf.Length == STAMP
    {
      buf := new char[STAMP](_ => ' ');
    }

    method Parse(clock: Clock, b: string) returns (t: Option<int>)
      requires buf.Length == STAMP
      modifies buf
      ensures t == ParseTime(clock, b)
    {
      if |b| < STAMP {
        return None;
      }
      forall i | 0 <= i < STAMP {
        buf[i] := b[i];
      }
      assert buf[..] == b[..STAMP];
      return clock(buf[..]);
    }
  }

  /** Position of the last "/", or -1. */
  function LastSlash(path: string): (k: int)
    ensures k == -1 <==> '/' !in path
    ensures k != -1 ==> 0 <= k < |path| && path[k] == '/' && '/' !in path[k + 1..]
  {
    if path == "" then -1
    else
      var k := LastSlash(path[1..]);
      assert path == [path[0]] + path[1..];
      if k != -1 then (assert path[1..][k + 1..] == path[k + 2..]; k + 1) else if path[0] == '/' then 0 else -1
  }

  lemma CutAtSlash(path: string, k: nat)
    requires k < |path| && path[k] == '/'
    ensures path == path[..k] + "/" + path[k + 1..]
  {
  }

  // ---------- Steps of the loops ----------

  ghost function After(results: seq<Entry>, added: int, rest: (seq<Entry>, int)): (seq<Entry>, int) {
    (results + rest.0, added + rest.1)
  }

  lemma AfterAfter(a: seq<Entry>, n: int, b: seq<Entry>, m: int, rest: (seq<Entry>, int))
    ensures After(a, n, After(b, m, rest)) == After(a + b, n + m, rest)
  {
    assert a + (b + rest.0) == a + b + rest.0;
  }

  lemma NothingAfter(results: seq<Entry>, added: int)
    ensures After(results, added, ([], 0)) == (results, added)
  {
    assert results + [] == results;
  }

  lemma FromChunksSplit(q: Query, data: string, chunks: seq<Chunk>, room: int)
    ensures chunks == [] || room <= 0 ==> FromChunks(q, data, chunks, room) == ([], 0)
    ensures chunks != [] && room > 0 ==>
              var added := |Picked(q, data, chunks[0], room)|;
              FromChunks(q, data, chunks, room) ==
              After(ChunkResult(q, data, chunks[0], room), added, FromChunks(q, data, chunks[1..], room - added))
    ensures FromChunks(q, data, chunks, room) == After([], 0, FromChunks(q, data, chunks, room))
  {
    hide ChunkResult, Picked;
    var all := FromChunks(q, data, chunks, room);
    assert [] + all.0 == all.0;
  }

  lemma NoMoreChunks(q: Query, data: string, chunks: seq<Chunk>, room: int)
    requires chunks == [] || room <= 0
    ensures FromChunks(q, data, chunks, room) == ([], 0)
  {
  }

  lemma OneMoreChunk(q: Query, data: string, chunks: seq<Chunk>, i: nat, room: int, results: seq<Entry>, soFar: int)
    requires i < |chunks| && room > 0
    ensures var here, added := ChunkResult(q, data, chunks[i], room), |Picked(q, data, chunks[i], room)|;
            After(results, soFar, FromChunks(q, data, chunks[i..], room)) ==
            After(results + here, soFar + added, FromChunks(q, data, chunks[i + 1..], room - added))
  {
    hide ChunkResult, Picked, FromChunks;
    var here, added := ChunkResult(q, data, chunks[i], room), |Picked(q, data, chunks[i], room)|;
    FromChunksSplit(q, data, chunks[i..], room);
    assert chunks[i..][0] == chunks[i] && chunks[i..][1..] == chunks[i + 1..];
    AfterAfter(results, soFar, here, added, FromChunks(q, data, chunks[i + 1..], room - added));
  }

  lemma LastHitStep(data: string, start: nat, i: int)
    ensures LastHit(data, start, i) ==
            if i < start then -1 else if HitAt(data, start, i) then i else LastHit(data, start, i - 1)
  {
  }

  lemma NoneTaken<T>(all: seq<T>, room: int)
    ensures Take(all, room) == [] + Take(all, room)
    ensures all == [] ==> Take(all, room) == []
  {
  }

  lemma TakeOne<T>(all: seq<T>, results: seq<T>, kept: seq<T>, rest: seq<T>, room: int)
    requires |kept| <= 1 && |results| < room
    requires Take(all, room) == results + Take(kept + rest, room - |results|)
    ensures Take(all, room) == results + kept + Take(rest, room - |results + kept|)
  {
    TakeSum(kept, rest, room - |results|);
    assert Take(kept, room - |results|) == kept by {
      if kept == [] {
        NoneTaken(kept, room - |results|);
      }
    }
    hide Take;
    assert results + (kept + Take(rest, room - |results| - |kept|)) == results + kept + Take(rest, room - |results| - |kept|);
  }

  lemma JumpStep(q: Query, pattern: string, data: string, p: nat, e: nat)
    requires e <= |data|
    ensures p > e ==> Jumped(q, pattern, data, p, e) == [] && RunsOff(pattern, data, p, e)
    ensures p <= e && Find(data, pattern, p, e) == -1 ==>
              Jumped(q, pattern, data, p, e) == [] && !RunsOff(pattern, data, p, e)
    ensures p <= e && Find(data, pattern, p, e) != -1 ==>
              var k := Find(data, pattern, p, e);
              var n := Eol(data, k, e);
              && Jumped(q, pattern, data, p, e) ==
                 Kept(q, data[LineBack(data, p, k)..n]) + Jumped(q, pattern, data, n + 1, e)
              && (RunsOff(pattern, data, p, e) <==> RunsOff(pattern, data, n + 1, e))
  {
    hide Find, Kept, Eol, LineBack, OccursAt;
  }

  /** The parts a chunk's result is made of. */
  lemma ChunkParts(q: Query, data: string, cr: Chunk, room: int)
    ensures !Inside(data, cr) ==> Picked(q, data, cr, room) == [] == ChunkResult(q, data, cr, room)
    ensures Inside(data, cr) <==> 0 <= cr.start <= cr.end <= |data|
    ensures Inside(data, cr) ==>
            var range := ChunkRange(q.clock, data, cr);
            var s := SkipToLine(data, cr.start, cr.end);
            var message := q.req.message;
            var picked := Picked(q, data, cr, room);
            if range.Panicked? || (range.Range? && (range.from > q.To() || range.to < q.From())) then
              picked == [] && ChunkResult(q, data, cr, room) == []
            else if message.None? then
              picked == Take(Select(q, LinesIn(data, s, cr.end)), room) && ChunkResult(q, data, cr, room) == picked
            else
              && picked == Take(Jumped(q, message.value, data, s, cr.end), room)
              && ChunkResult(q, data, cr, room) ==
                 if |picked| < room && RunsOff(message.value, data, s, cr.end) then [] else picked
  {
    hide Select, Jumped, RunsOff, LinesIn, ChunkRange, SkipToLine;
  }

  ghost function Prepend(results: seq<Entry>, rest: Option<seq<Entry>>): Option<seq<Entry>> {
    match rest
    case Some(more) => Some(results + more)
    case None => None
  }

  lemma Prepended(results: seq<Entry>, rest: Option<seq<Entry>>)
    ensures Prepend([], rest) == rest
    ensures Prepend(results, Some([])) == Some(results)
  {
    assert rest.Some? ==> [] + rest.value == rest.value;
    assert results + [] == results;
  }

  lemma PrependTwice(a: seq<Entry>, b: seq<Entry>, rest: Option<seq<Entry>>)
    ensures Prepend(a, Prepend(b, rest)) == Prepend(a + b, rest)
  {
    assert rest.Some? ==> a + (b + rest.value) == a + b + rest.value;
  }

  lemma PrependNone(results: seq<Entry>)
    ensures Prepend(results, None) == None
  {
  }

  /** Files in order until `room` entries were picked; an unreadable file met before that fails
      the query. */
  ghost function FromFiles(q: Query, files: seq<Option<string>>, room: int): Option<seq<Entry>>
    decreases |files|
  {
    if files == [] || room <= 0 then Some([])
    else if files[0].None? then None
    else
      var data := files[0].value;
      var here := FromChunks(q, data, ChunkList(data, ChunkNum(|data|)), room);
      Prepend(here.0, FromFiles(q, files[1..], room - here.1))
  }

  lemma FromFilesStep(q: Query, files: seq<Option<string>>, room: int)
    ensures files == [] || room <= 0 ==> FromFiles(q, files, room) == Some([])
    ensures files != [] && room > 0 && files[0].None? ==> FromFiles(q, files, room) == None
    ensures files != [] && room > 0 && files[0].Some? ==>
              var data := files[0].value;
              var here := FromChunks(q, data, ChunkList(data, ChunkNum(|data|)), room);
              FromFiles(q, files, room) == Prepend(here.0, FromFiles(q, files[1..], room - here.1))
  {
    hide ChunkNum, ChunkList, FromChunks, Prepend;
  }

  // ---------- The manager ----------

  class Manager {
    const logDir: string
    const filePrefix: string
    const clock: Clock
    const timeParser: TimeParser
    const needMsgMatch: bool
    const msgPattern: string
    const limit: int
    const separator: string
    const fieldNames: seq<string>
    var total: int

    constructor (clock: Clock, req: Request, path: string, limit: int)
      requires '/' in path
      ensures this.clock == clock && Serves(req) && fresh(timeParser.buf)
      ensures this.limit == (if limit > 0 then limit else LOG_LIMIT) && total == 0
      ensures exists name :: '/' !in name && path == logDir + "/" + name && filePrefix == name + "."
    {
      hide LastSlash;
      var index := LastSlash(path);
      logDir := path[..index];
      filePrefix := path[index + 1..] + ".";
      this.clock := clock;
      timeParser := new TimeParser();
      this.limit := if limit > 0 then limit else LOG_LIMIT;
      needMsgMatch := req.message.Some?;
      msgPattern := if req.message.Some? then req.message.value else "";
      separator := if req.separator.Some? then req.separator.value else TAB;
      fieldNames := req.fieldNames;
      total := 0;
      CutAtSlash(path, index);
    }

    /** The manager was made for this request. */
    ghost predicate Serves(req: Request) {
      && timeParser.buf.Length == STAMP
      && needMsgMatch == req.message.Some?
      && (needMsgMatch ==> msgPattern == req.message.value)
      && separator == Query(clock, req).Sep()
      && fieldNames == req.fieldNames
    }

    /** Scans back for the last timestamp that is followed by a tab. */
    method GetChunkTimeRange(data: string, cr: Chunk) returns (range: TimeRange)
      requires timeParser.buf.Length == STAMP
      requires 0 <= cr.start <= cr.end <= |data|
      modifies timeParser.buf
      ensures range == ChunkRange(clock, data, cr)
    {
      hide LastHit;
      var from := None;
      if cr.start + STAMP < cr.end {
        from := timeParser.Parse(clock, data[cr.start..]);
      }
      var i := cr.end - 1;
      while i >= cr.start
        invariant cr.start - 1 <= i < cr.end && (i == cr.end - 1 || i >= 1)
        invariant LastHit(data, cr.start, i) == LastHit(data, cr.start, cr.end - 1)
      {
        LastHitStep(data, cr.start, i);
        if i < 2 {
          LastHitStep(data, cr.start, i - 1);
          LastHitStep(data, cr.start, i - 2);
          return Panicked;
        }
        assert data[i - 2..i] == [data[i - 2], data[i - 1]];
        if data[i - 2..i] == "Z\t" && i - STAMP - 1 >= cr.start {
          assert HitAt(data, cr.start, i);
          var to := timeParser.Parse(clock, data[i - STAMP - 1..i - 1]);
          return if from.Some? && to.Some? then Range(from.value, to.value) else NoRange;
        }
        i := i - 1;
      }
      LastHitStep(data, cr.start, i);
      return NoRange;
    }

    method ParseLogLine(line: string, sep: string, fieldNames: seq<string>) returns (entry: Option<Entry>)
      ensures entry == ParseLine(line, sep, fieldNames)
    {
      var parts := Split(line, sep);
      if |fieldNames| == 0 || |parts| < |fieldNames| {
        return None;
      }
      var fields: Entry := map[];
      for i := 0 to |fieldNames|
        invariant fields == Fields(fieldNames, parts, i)
      {
        if fieldNames[i] != "" {
          fields := fields[fieldNames[i] := parts[i]];
        }
      }
      return Some(fields);
    }

    method MatchFilters(entry: Entry, req: Request, reqFrom: int, reqTo: int) returns (passed: bool)
      requires timeParser.buf.Length == STAMP
      requires reqFrom == Query(clock, req).From() && reqTo == Query(clock, req).To()
      modifies timeParser.buf
      ensures passed <==> Passes(Query(clock, req), entry)
    {
      var text := Get(entry, "time");
      if text != "" {
        var t := timeParser.Parse(clock, text);
        if t.None? || t.value < reqFrom || t.value > reqTo {
          return false;
        }
      }
      if req.level.Some? && req.level.value != Get(entry, "level") {
        return false;
      }
      if req.message.Some? && !Contains(Get(entry, "message"), req.message.value) {
        return false;
      }
      var keys := req.filters.Keys;
      while keys != {}
        invariant keys <= req.filters.Keys
        invariant forall k :: k in req.filters && k !in keys && req.filters[k].Some? ==> Get(entry, k) == req.filters[k].value
        decreases keys
      {
        var k :| k in keys;
        keys := keys - {k};
        if req.filters[k].Some? && Get(entry, k) != req.filters[k].value {
          return false;
        }
      }
      return true;
    }

    /** One line into the results, if it parses and passes. */
    method TakeLine(line: string, req: Request, reqFrom: int, reqTo: int) returns (kept: seq<Entry>)
      requires Serves(req)
      requires reqFrom == Query(clock, req).From() && reqTo == Query(clock, req).To()
      modifies `total, timeParser.buf
      ensures kept == Kept(Query(clock, req), line) && |kept| <= 1
      ensures total == old(total) + |kept|
    {
      kept := [];
      var entry := ParseLogLine(line, separator, fieldNames);
      if entry.Some? {
        var passed := MatchFilters(entry.value, req, reqFrom, reqTo);
        if passed {
          kept := [entry.value];
          total := total + 1;
        }
      }
    }

    method WalkLines(data: string, first: nat, cr: Chunk, req: Request, reqFrom: int, reqTo: int)
      returns (results: seq<Entry>)
      requires Serves(req) && first <= cr.end <= |data|
      requires reqFrom == Query(clock, req).From() && reqTo == Query(clock, req).To()
      modifies `total, timeParser.buf
      ensures results == Take(Select(Query(clock, req), LinesIn(data, first, cr.end)), limit - old(total))
      ensures total == old(total) + |results|
    {
      hide *;
      ghost var q := Query(clock, req);
      ghost var all := Select(q, LinesIn(data, first, cr.end));
      ghost var room := limit - total;
      var start := first;
      results := [];
      NoneTaken(all, room);
      while total < limit
        invariant total == old(total) + |results|
        invariant Take(all, room) == results + Take(Select(q, LinesIn(data, start, cr.end)), room - |results|)
        decreases cr.end + 1 - start
      {
        if start >= cr.end {
          NothingPast(q, data, start, cr.end);
          NoneTaken<Entry>([], room - |results|);
          return;
        }
        var lineEnd := Eol(data, start, cr.end);
        LinesFirst(data, start, cr.end);
        SelectCons(q, data[start..lineEnd], LinesIn(data, lineEnd + 1, cr.end));
        var kept := TakeLine(data[start..lineEnd], req, reqFrom, reqTo);
        TakeOne(all, results, kept, Select(q, LinesIn(data, lineEnd + 1, cr.end)), room);
        results := results + kept;
        start := lineEnd + 1;
      }
      NoRoom(Select(q, LinesIn(data, start, cr.end)), room - |results|);
    }

    /** From a hit back and forward to the ends of its line. */
    method LineAround(data: string, low: nat, pos: nat, end: nat) returns (lineStart: nat, lineEnd: nat)
      requires low <= pos <= end <= |data|
      ensures lineStart == LineBack(data, low, pos) && lineEnd == Eol(data, pos, end)
    {
      lineStart := pos;
      while lineStart > low && data[lineStart - 1] != '\n'
        invariant low <= lineStart <= pos
        invariant LineBack(data, low, lineStart) == LineBack(data, low, pos)
      {
        lineStart := lineStart - 1;
      }
      lineEnd := pos;
      while lineEnd < end && data[lineEnd] != '\n'
        invariant pos <= lineEnd <= end
        invariant forall j :: pos <= j < lineEnd ==> data[j] != '\n'
      {
        lineEnd := lineEnd + 1;
      }
      EolUnique(data, pos, end, lineEnd);
    }

    method JumpLines(data: string, first: nat, cr: Chunk, req: Request, reqFrom: int, reqTo: int)
      returns (results: seq<Entry>, panicked: bool)
      requires Serves(req) && req.message.Some? && first <= cr.end <= |data|
      requires reqFrom == Query(clock, req).From() && reqTo == Query(clock, req).To()
      modifies `total, timeParser.buf
      ensures results == Take(Jumped(Query(clock, req), msgPattern, data, first, cr.end), limit - old(total))
      ensures total == old(total) + |results|
      ensures panicked <==> |results| < limit - old(total) && RunsOff(msgPattern, data, first, cr.end)
    {
      hide *;
      ghost var q := Query(clock, req);
      ghost var all := Jumped(q, msgPattern, data, first, cr.end);
      ghost var room := limit - total;
      var searchStart := first;
      results, panicked := [], false;
      NoneTaken(all, room);
      while total < limit
        invariant total == old(total) + |results|
        invariant Take(all, room) == results + Take(Jumped(q, msgPattern, data, searchStart, cr.end), room - |results|)
        invariant RunsOff(msgPattern, data, first, cr.end) <==> RunsOff(msgPattern, data, searchStart, cr.end)
        decreases cr.end + 1 - searchStart
      {
        JumpStep(q, msgPattern, data, searchStart, cr.end);
        if searchStart > cr.end {
          NoneTaken<Entry>([], room - |results|);
          return results, true;
        }
        var patternPos := Find(data, msgPattern, searchStart, cr.end);
        if patternPos == -1 {
          NoneTaken<Entry>([], room - |results|);
          return;
        }
        var lineStart, lineEnd := LineAround(data, searchStart, patternPos, cr.end);
        var kept := TakeLine(data[lineStart..lineEnd], req, reqFrom, reqTo);
        TakeOne(all, results, kept, Jumped(q, msgPattern, data, lineEnd + 1, cr.end), room);
        results := results + kept;
        searchStart := lineEnd + 1;
      }
      NoRoom(Jumped(q, msgPattern, data, searchStart, cr.end), room - |results|);
    }

    method Bounds(req: Request) returns (reqFrom: int, reqTo: int)
      requires Serves(req)
      modifies timeParser.buf
      ensures reqFrom == Query(clock, req).From() && reqTo == Query(clock, req).To()
      ensures needMsgMatch == req.message.Some? && (needMsgMatch ==> msgPattern == req.message.value)
      ensures timeParser.buf.Length == STAMP
    {
      var from := timeParser.Parse(clock, TrimBlank(req.from));
      var to := timeParser.Parse(clock, TrimBlank(req.to));
      reqFrom := if from.Some? then from.value else ZERO_TIME;
      reqTo := if to.Some? then to.value else ZERO_TIME;
    }

    /** A chunk that starts inside a line begins with the next one. */
    method FirstLine(data: string, cr: Chunk) returns (start: nat)
      requires 0 <= cr.start <= cr.end <= |data|
      ensures start == SkipToLine(data, cr.start, cr.end)
    {
      start := cr.start;
      if cr.start > 0 {
        while start < cr.end && data[start - 1] != '\n'
          invariant cr.start <= start <= cr.end
          invariant SkipToLine(data, start, cr.end) == SkipToLine(data, cr.start, cr.end)
        {
          start := start + 1;
        }
      }
    }

    /** One chunk; a panic in it is recovered and loses the results but not the count. */
    method ProcessChunk(data: string, cr: Chunk, req: Request) returns (results: seq<Entry>)
      requires Serves(req)
      modifies `total, timeParser.buf
      ensures results == ChunkResult(Query(clock, req), data, cr, limit - old(total))
      ensures total == old(total) + |Picked(Query(clock, req), data, cr, limit - old(total))|
    {
      hide *;
      ghost var q := Query(clock, req);
      var reqFrom, reqTo := Bounds(req);
      ChunkParts(q, data, cr, limit - total);
      if !(0 <= cr.start <= cr.end <= |data|) {
        return [];   // a slice or an index past the data panics, or there is nothing to search
      }
      var range := GetChunkTimeRange(data, cr);
      if range.Panicked? {
        return [];
      }
      if range.Range? && (range.from > reqTo || range.to < reqFrom) {
        return [];
      }
      var start := FirstLine(data, cr);
      if needMsgMatch {
        var panicked;
        results, panicked := JumpLines(data, start, cr, req, reqFrom, reqTo);
        if panicked {
          return [];
        }
      } else {
        results := WalkLines(data, start, cr, req, reqFrom, reqTo);
      }
    }

    /** The chunks of a file in order, until the limit is reached. */
    method ProcessChunks(data: string, chunks: seq<Chunk>, req: Request) returns (results: seq<Entry>)
      requires Serves(req)
      modifies `total, timeParser.buf
      ensures var all := FromChunks(Query(clock, req), data, chunks, limit - old(total));
              results == all.0 && total == old(total) + all.1
    {
      hide *;
      ghost var q := Query(clock, req);
      ghost var all := FromChunks(q, data, chunks, limit - total);
      results := [];
      assert chunks[0..] == chunks;
      FromChunksSplit(q, data, chunks, limit - total);
      for i := 0 to |chunks|
        invariant Serves(req)
        invariant all == After(results, total - old(total), FromChunks(q, data, chunks[i..], limit - total))
      {
        if total >= limit {
          NoMoreChunks(q, data, chunks[i..], limit - total);
          NothingAfter(results, total - old(total));
          return;
        }
        OneMoreChunk(q, data, chunks, i, limit - total, results, total - old(total));
        var here := ProcessChunk(data, chunks[i], req);
        results := results + here;
      }
      NoMoreChunks(q, data, chunks[|chunks|..], limit - total);
      NothingAfter(results, total - old(total));
    }

    method ProcessLogFile(data: string, req: Request) returns (results: seq<Entry>)
      requires Serves(req)
      modifies `total, timeParser.buf
      ensures var all := FromChunks(Query(clock, req), data, ChunkList(data, ChunkNum(|data|)), limit - old(total));
              results == all.0 && total == old(total) + all.1
    {
      hide *;
      var chunkNum := ChunkNum(|data|);
      ChunkNumPositive(|data|);
      var chunks := SplitDataToChunks(data, chunkNum);
      results := ProcessChunks(data, chunks, req);
    }

    /** The files of the query in order, until the limit is reached; None if one cannot be read. */
    method ProcessFiles(files: seq<Option<string>>, req: Request) returns (results: Option<seq<Entry>>)
      requires Serves(req)
      modifies `total, timeParser.buf
      ensures results == FromFiles(Query(clock, req), files, limit - old(total))
    {
      hide *;
      ghost var q := Query(clock, req);
      var finalResults := [];
      var i := 0;
      assert files[0..] == files;
      Prepended([], FromFiles(q, files, limit - total));
      while i < |files|
        invariant 0 <= i <= |files| && Serves(req)
        invariant FromFiles(q, files, limit - old(total)) == Prepend(finalResults, FromFiles(q, files[i..], limit - total))
      {
        FromFilesStep(q, files[i..], limit - total);
        if total >= limit {
          Prepended(finalResults, None);
          return Some(finalResults);
        }
        assert files[i..][0] == files[i] && files[i..][1..] == files[i + 1..];
        if files[i].None? {
          PrependNone(finalResults);
          return None;
        }
        var here := ProcessLogFile(files[i].value, req);
        PrependTwice(finalResults, here, FromFiles(q, files[i + 1..], limit - total));
        finalResults := finalResults + here;
        i := i + 1;
      }
      FromFilesStep(q, files[i..], limit - total);
      Prepended(finalResults, None);
      return Some(finalResults);
    }
  }

  // ---------- Files and the whole query ----------

  /** The lines of the files that the engine looks at. */
  function ReachedLines(files: seq<Option<string>>): seq<string>
    requires forall f :: f in files ==> f.Some?
  {
    if files == [] then [] else LinesIn(files[0].value, 0, Reached(files[0].value)) + ReachedLines(files[1..])
  }

  function AllLines(files: seq<Option<string>>): seq<string>
    requires forall f :: f in files ==> f.Some?
  {
    if files == [] then [] else LinesIn(files[0].value, 0, |files[0].value|) + AllLines(files[1..])
  }

  lemma {:induction false} AllAreReached(files: seq<Option<string>>)
    requires forall f :: f in files ==> f.Some? && Reached(f.value) == |f.value|
    ensures ReachedLines(files) == AllLines(files)
    decreases |files|
  {
    hide LinesIn, Reached;
    if files != [] {
      AllAreReached(files[1..]);
    }
  }

  lemma NothingSelected(q: Query)
    ensures Select(q, []) == []
  {
  }

  /** The engine agrees with the naive query: over well-formed, time-sorted files the result is
      the first entries, in file order, of the reached lines that parse and pass the filters. */
  lemma {:induction false} FilesAreNaive(q: Query, files: seq<Option<string>>, room: int)
    requires TimeFirst(q.req.fieldNames) && q.req.message != Some("")
    requires forall f :: f in files ==> f.Some? && FileOk(q, f.value)
    ensures FromFiles(q, files, room) == Some(Take(Select(q, ReachedLines(files)), room))
    decreases |files|
  {
    hide Select, LinesIn, FileOk, Reached, ChunkNum, FromChunks;
    if files == [] {
      NothingSelected(q);
    } else if room > 0 {
      var data := files[0].value;
      var lines := LinesIn(data, 0, Reached(data));
      FileIsNaive(q, data, room);
      var taken := Take(Select(q, lines), room);
      FilesAreNaive(q, files[1..], room - |taken|);
      SelectSum(q, lines, ReachedLines(files[1..]));
      TakeSum(Select(q, lines), Select(q, ReachedLines(files[1..])), room);
    }
  }

  /** How many entries the files add to the total before it reaches the limit. */
  ghost function AddedBy(q: Query, files: seq<Option<string>>, room: int): nat
    requires forall f :: f in files ==> f.Some?
    decreases |files|
  {
    if files == [] || room <= 0 then 0
    else
      var data := files[0].value;
      var here := FromChunks(q, data, ChunkList(data, ChunkNum(|data|)), room).1;
      here + AddedBy(q, files[1..], room - here)
  }

  /** A query fails exactly when an unreadable file is reached before the limit, whatever the
      files before it hold. */
  lemma {:induction false} FailsIff(q: Query, files: seq<Option<string>>, room: int, n: nat)
    requires n < |files| && files[n].None?
    requires forall f :: f in files[..n] ==> f.Some?
    ensures FromFiles(q, files, room).None? <==> AddedBy(q, files[..n], room) < room
    decreases n
  {
    hide ChunkNum, FromChunks;
    FromFilesStep(q, files, room);
    if n > 0 && room > 0 {
      assert files[..n][0] == files[0] && files[..n][1..] == files[1..][..n - 1];
      var data := files[0].value;
      var here := FromChunks(q, data, ChunkList(data, ChunkNum(|data|)), room);
      FailsIff(q, files[1..], room - here.1, n - 1);
    }
  }

  /** Well-formed files add what the naive query finds, up to the limit. */
  lemma {:induction false} AddedIsNaive(q: Query, files: seq<Option<string>>, room: int)
    requires TimeFirst(q.req.fieldNames) && q.req.message != Some("")
    requires forall f :: f in files ==> f.Some? && FileOk(q, f.value)
    ensures AddedBy(q, files, room) == |Take(Select(q, ReachedLines(files)), room)|
    decreases |files|
  {
    hide Select, LinesIn, FileOk, Reached, ChunkNum, FromChunks;
    if files == [] {
      NothingSelected(q);
    } else if room > 0 {
      var data := files[0].value;
      var lines := LinesIn(data, 0, Reached(data));
      FileIsNaive(q, data, room);
      var taken := Take(Select(q, lines), room);
      AddedIsNaive(q, files[1..], room - |taken|);
      SelectSum(q, lines, ReachedLines(files[1..]));
      TakeSum(Select(q, lines), Select(q, ReachedLines(files[1..])), room);
    }
  }

  datatype Reply = Logs(logs: seq<Entry>) | Failed(error: string) | NoDirectory

  predicate Answerable(clock: Clock, req: Request, path: string) {
    && '/' in path && req.fieldNames != [] && req.fieldNames[0] == "time"
    && clock(TrimBlank(req.from)).Some? && clock(TrimBlank(req.to)).Some?
  }

  /** The query over the contents of the daily files its time range names; a path without a
      directory panics. */
  method QueryLogs(clock: Clock, req: Request, path: string, files: seq<Option<string>>) returns (reply: Reply)
    ensures reply == NoDirectory <==> '/' !in path
    ensures '/' in path && !Answerable(clock, req, path) ==> reply.Failed?
    ensures Answerable(clock, req, path) ==>
              match FromFiles(Query(clock, req), files, LOG_LIMIT)
              case Some(logs) => reply == Logs(logs)
              case None => reply.Failed?
    ensures Answerable(clock, req, path) && TimeFirst(req.fieldNames) && req.message != Some("")
            && (forall f :: f in files ==> f.Some? && FileOk(Query(clock, req), f.value)) ==>
              reply == Logs(Take(Select(Query(clock, req), ReachedLines(files)), LOG_LIMIT))
  {
    hide FileOk, Select, TrimBlank, FromFiles, ReachedLines;
    if LastSlash(path) == -1 {
      return NoDirectory;
    }
    var mgr := new Manager(clock, req, path, LOG_LIMIT);
    if |req.fieldNames| == 0 || req.fieldNames[0] != "time" {
      return Failed("first field must be time");
    }
    if clock(TrimBlank(req.from)).None? || clock(TrimBlank(req.to)).None? {
      return Failed("invalid time range");
    }
    if TimeFirst(req.fieldNames) && req.message != Some("") && forall f :: f in files ==> f.Some? && FileOk(Query(clock, req), f.value) {
      FilesAreNaive(Query(clock, req), files, LOG_LIMIT);
    }
    var results := mgr.ProcessFiles(files, req);
    if results.None? {
      return Failed("unreadable file");
    }
    reply := Logs(results.value);
  }
}

/** What one pass over a chunk, a file and a list of files yields (`log/encoder/text_query.go`),
    and why chunking, time-range skipping and substring jumping do not show in the result. */
module LogScan {
  import opened Strings
  import opened LogFormat
  import opened LogChunks

  // ---------- The time range of a chunk ----------

  datatype TimeRange = Panicked | NoRange | Range(from: int, to: int)

  /** "Z" and a tab end at `i`, with room for a timestamp in front of the tab. */
  predicate HitAt(data: string, start: int, i: int) {
    0 <= start <= i - STAMP - 1 && i <= |data| && data[i - 2] == 'Z' && data[i - 1] == '\t'
  }

  /** The last hit of the backward scan from `i`, or -1. */
  function LastHit(data: string, start: nat, i: int): (h: int)
    ensures h == -1 || (HitAt(data, start, h) && h <= i)
    ensures forall j :: start <= j <= i && HitAt(data, start, j) ==> j <= h
    decreases i - start
  {
    if i < start then -1 else if HitAt(data, start, i) then i else LastHit(data, start, i - 1)
  }

  /** The scan indexes two bytes back, so without a hit it runs off the front of the file. */
  function ChunkRange(clock: Clock, data: string, cr: Chunk): TimeRange
    requires 0 <= cr.start <= cr.end <= |data|
  {
    var i := LastHit(data, cr.start, cr.end - 1);
    if i == -1 then
      if cr.start < 2 && cr.start < cr.end then Panicked else NoRange
    else
      var first := if cr.start + STAMP < cr.end then ParseTime(clock, data[cr.start..]) else None;
      var last := ParseTime(clock, data[i - STAMP - 1..i - 1]);
      if first.Some? && last.Some? then Range(first.value, last.value) else NoRange
  }

  predicate Skipped(q: Query, range: TimeRange) {
    range.Range? && (range.from > q.To() || range.to < q.From())
  }

  // ---------- The two ways through a chunk ----------

  /** The first line start at or after `p`. */
  function SkipToLine(data: string, p: nat, e: nat): (s: nat)
    requires p <= e <= |data|
    ensures p <= s <= e && (s == e || LineStart(data, s))
    ensures forall j :: p <= j < s ==> !LineStart(data, j)
    decreases e - p
  {
    if 0 < p < e && data[p - 1] != '\n' then SkipToLine(data, p + 1, e) else p
  }

  /** Back from `pos` to the start of its line, but not past `low`. */
  function LineBack(data: string, low: nat, pos: nat): (s: nat)
    requires low <= pos <= |data|
    ensures low <= s <= pos && (s == low || data[s - 1] == '\n')
    ensures forall j :: s <= j < pos ==> data[j] != '\n'
    decreases pos
  {
    if pos > low && data[pos - 1] != '\n' then LineBack(data, low, pos - 1) else pos
  }

  /** The first occurrence of `pattern` inside data[p..e], as a position in `data`, or -1. */
  function Find(data: string, pattern: string, p: nat, e: nat): (k: int)
    requires p <= e <= |data|
    ensures k == -1 || (p <= k && k + |pattern| <= e && OccursAt(data, pattern, k))
    ensures forall j :: p <= j <= e - |pattern| && OccursAt(data, pattern, j) ==> -1 < k <= j
    decreases e - p
  {
    if p + |pattern| <= e && OccursAt(data, pattern, p) then p
    else if p == e then -1
    else Find(data, pattern, p + 1, e)
  }

  /** The entries of the lines the substring search lands on. */
  function Jumped(q: Query, pattern: string, data: string, p: nat, e: nat): seq<Entry>
    requires e <= |data|
    decreases e + 1 - p
  {
    if p > e then []
    else
      var k := Find(data, pattern, p, e);
      if k == -1 then []
      else
        var n := Eol(data, k, e);
        Kept(q, data[LineBack(data, p, k)..n]) + Jumped(q, pattern, data, n + 1, e)
  }

  /** Whether the search ends by slicing past the chunk, which panics. */
  predicate RunsOff(pattern: string, data: string, p: nat, e: nat)
    requires e <= |data|
    decreases e + 1 - p
  {
    p > e ||
    var k := Find(data, pattern, p, e);
    k != -1 && RunsOff(pattern, data, Eol(data, k, e) + 1, e)
  }

  /** Everything one chunk yields when no limit stops it. */
  function Found(q: Query, data: string, cr: Chunk): seq<Entry>
    requires 0 <= cr.start <= cr.end <= |data|
  {
    var s := SkipToLine(data, cr.start, cr.end);
    if q.req.message.Some? then Jumped(q, q.req.message.value, data, s, cr.end)
    else Select(q, LinesIn(data, s, cr.end))
  }

  predicate Inside(data: string, cr: Chunk) { 0 <= cr.start <= cr.end <= |data| }

  /** What is added to the running total: entries found before the limit.  A chunk that is not
      inside the data yields nothing: the scans and slices that reach past it panic. */
  function Picked(q: Query, data: string, cr: Chunk, room: int): seq<Entry> {
    if !Inside(data, cr) then []
    else
      var range := ChunkRange(q.clock, data, cr);
      if range.Panicked? || Skipped(q, range) then [] else Take(Found(q, data, cr), room)
  }

  /** What is returned: a recovered panic throws the picked entries away. */
  function ChunkResult(q: Query, data: string, cr: Chunk, room: int): seq<Entry> {
    var picked := Picked(q, data, cr, room);
    if Inside(data, cr) && |picked| < room && q.req.message.Some?
       && RunsOff(q.req.message.value, data, SkipToLine(data, cr.start, cr.end), cr.end)
    then [] else picked
  }

  // ---------- Jumping equals walking ----------

  ghost predicate Absent(data: string, pattern: string, p: nat, m: nat) {
    forall j :: p <= j <= m - |pattern| ==> !OccursAt(data, pattern, j)
  }

  lemma WindowOccurs(data: string, pattern: string, p: nat, n: nat, i: nat)
    requires p <= n <= |data|
    ensures OccursAt(data[p..n], pattern, i) ==> OccursAt(data, pattern, p + i)
  {
    if i + |pattern| <= n - p {
      var inner, outer := data[p..n][i..i + |pattern|], data[p + i..p + i + |pattern|];
      forall x | 0 <= x < |pattern|
        ensures inner[x] == outer[x]
      {
      }
      assert inner == outer;
    }
  }

  lemma AbsentFromLine(data: string, pattern: string, p: nat, n: nat)
    requires p <= n <= |data| && Absent(data, pattern, p, n)
    ensures !Contains(data[p..n], pattern)
  {
    forall i | 0 <= i <= n - p
      ensures !OccursAt(data[p..n], pattern, i)
    {
      WindowOccurs(data, pattern, p, n, i);
    }
  }

  lemma SelectCons(q: Query, line: string, rest: seq<string>)
    ensures Select(q, [line] + rest) == Kept(q, line) + Select(q, rest)
  {
    hide Kept;
    assert ([line] + rest)[1..] == rest;
  }

  /** No line of a stretch without the wanted text is kept. */
  lemma {:induction false} NothingKept(q: Query, data: string, p: nat, m: nat)
    requires m <= |data| && q.req.message.Some? && Absent(data, q.req.message.value, p, m)
    ensures Select(q, LinesIn(data, p, m)) == []
    decreases m - p
  {
    hide OccursAt, Kept;
    if p < m {
      var n := Eol(data, p, m);
      AbsentFromLine(data, q.req.message.value, p, n);
      NotKept(q, data[p..n]);
      NothingKept(q, data, n + 1, m);
      SelectCons(q, data[p..n], LinesIn(data, n + 1, m));
    }
  }

  lemma LineBackIsStart(data: string, low: nat, pos: nat)
    requires low <= pos <= |data|
    ensures low == LineBack(data, low, pos) || LineStart(data, LineBack(data, low, pos))
  {
  }

  lemma FindStaysShort(data: string, pattern: string, p: nat, e: nat)
    requires p <= e <= |data| && pattern != ""
    ensures Find(data, pattern, p, e) < e || Find(data, pattern, p, e) == -1
    ensures forall m: nat :: m <= Find(data, pattern, p, e) ==> Absent(data, pattern, p, m)
    ensures Find(data, pattern, p, e) == -1 ==> Absent(data, pattern, p, e)
  {
    hide OccursAt, Find;
  }

  /** Where the search lands, the lines in between hold nothing. */
  lemma JumpLands(q: Query, data: string, p: nat, e: nat, k: nat)
    requires p <= e <= |data| && q.req.message.Some? && q.req.message.value != ""
    requires Find(data, q.req.message.value, p, e) == k
    ensures p <= k < e
    ensures var n := Eol(data, k, e);
            Select(q, LinesIn(data, p, e)) ==
            Kept(q, data[LineBack(data, p, k)..n]) + Select(q, LinesIn(data, n + 1, e))
  {
    hide *;
    FindStaysShort(data, q.req.message.value, p, e);
    var s, n := LineBack(data, p, k), Eol(data, k, e);
    NothingKept(q, data, p, s);
    LineBackIsStart(data, p, k);
    LinesSplit(data, p, s, e);
    SelectSum(q, LinesIn(data, p, s), LinesIn(data, s, e));
    EolUnique(data, s, e, n);
    LinesFirst(data, s, e);
    SelectCons(q, data[s..n], LinesIn(data, n + 1, e));
  }

  lemma NothingPast(q: Query, data: string, p: nat, e: nat)
    requires e <= |data| && p >= e
    ensures Select(q, LinesIn(data, p, e)) == []
  {
  }

  lemma {:induction false} TextJumpIsWalk(q: Query, data: string, p: nat, e: nat)
    requires e <= |data| && q.req.message.Some? && q.req.message.value != ""
    ensures Jumped(q, q.req.message.value, data, p, e) == Select(q, LinesIn(data, p, e))
    decreases e + 1 - p
  {
    hide Select, Kept, Find, LinesIn, OccursAt, Absent, LineBack, Eol;
    FindStaysShort(data, q.req.message.value, if p <= e then p else e, e);
    if p > e {
      NothingPast(q, data, p, e);
    } else {
      var pattern := q.req.message.value;
      var k := Find(data, pattern, p, e);
      if k == -1 {
        NothingKept(q, data, p, e);
      } else {
        JumpLands(q, data, p, e, k);
        TextJumpIsWalk(q, data, Eol(data, k, e) + 1, e);
      }
    }
  }

  /** The empty pattern is found everywhere, at the very end of the chunk too: there it lands on
      one more line, an empty one. */
  function EmptyTail(pattern: string, data: string, p: nat, e: nat): seq<string>
    requires e <= |data|
  {
    if pattern == "" && p <= e && (p == e || data[e - 1] == '\n') then [""] else []
  }

  lemma EmptyFound(data: string, p: nat, e: nat)
    requires p <= e <= |data|
    ensures Find(data, "", p, e) == p && LineBack(data, p, p) == p
  {
    assert OccursAt(data, "", p);
  }

  lemma EmptyLines(data: string, p: nat, e: nat)
    requires e <= |data|
    ensures p > e ==> LinesIn(data, p, e) + EmptyTail("", data, p, e) == LinesIn(data, p, e)
    ensures p <= e ==>
              var n := Eol(data, p, e);
              LinesIn(data, p, e) + EmptyTail("", data, p, e) ==
              [data[p..n]] + (LinesIn(data, n + 1, e) + EmptyTail("", data, n + 1, e))
  {
    if p <= e {
      var n := Eol(data, p, e);
      if p < e {
        assert LinesIn(data, p, e) == [data[p..n]] + LinesIn(data, n + 1, e);
        assert EmptyTail("", data, p, e) == EmptyTail("", data, n + 1, e);
      } else {
        assert data[p..n] == "" && LinesIn(data, n + 1, e) == [];
      }
    }
  }

  lemma {:induction false} EmptyJumpIsWalk(q: Query, data: string, p: nat, e: nat)
    requires e <= |data| && q.req.message == Some("")
    ensures Jumped(q, "", data, p, e) == Select(q, LinesIn(data, p, e) + EmptyTail("", data, p, e))
    decreases e + 1 - p
  {
    hide Select, Kept, Find, LineBack, LinesIn, EmptyTail;
    EmptyLines(data, p, e);
    if p > e {
      NothingPast(q, data, p, e);
    } else {
      EmptyFound(data, p, e);
      var n := Eol(data, p, e);
      EmptyJumpIsWalk(q, data, n + 1, e);
      SelectCons(q, data[p..n], LinesIn(data, n + 1, e) + EmptyTail("", data, n + 1, e));
    }
  }

  /** Substring jumping yields the entries of walking every line, in the same order. */
  lemma JumpIsWalk(q: Query, data: string, p: nat, e: nat)
    requires e <= |data| && q.req.message.Some?
    ensures Jumped(q, q.req.message.value, data, p, e) ==
            Select(q, LinesIn(data, p, e) + EmptyTail(q.req.message.value, data, p, e))
  {
    hide Jumped, Select;
    if q.req.message.value == "" {
      EmptyJumpIsWalk(q, data, p, e);
    } else {
      TextJumpIsWalk(q, data, p, e);
      assert LinesIn(data, p, e) + [] == LinesIn(data, p, e);
    }
  }

  lemma {:induction false} EmptyRunsOff(data: string, p: nat, e: nat)
    requires e <= |data|
    ensures RunsOff("", data, p, e)
    decreases e + 1 - p
  {
    if p <= e {
      EmptyFound(data, p, e);
      EmptyRunsOff(data, Eol(data, p, e) + 1, e);
    }
  }

  lemma {:induction false} LineBackLater(data: string, low: nat, higher: nat, pos: nat)
    requires low <= higher <= pos <= |data| && LineBack(data, low, pos) >= higher
    ensures LineBack(data, higher, pos) == LineBack(data, low, pos)
    decreases pos
  {
    if pos > higher && data[pos - 1] != '\n' {
      LineBackLater(data, low, higher, pos - 1);
    }
  }

  /** The search slices past the chunk exactly when the text after the last newline holds the
      pattern. */
  lemma {:induction false} RunsOffIff(pattern: string, data: string, p: nat, e: nat)
    requires p <= e <= |data|
    ensures RunsOff(pattern, data, p, e) <==> Find(data, pattern, LineBack(data, p, e), e) != -1
    decreases e - p
  {
    hide Find, OccursAt, Eol, LineBack, Absent;
    var tail := LineBack(data, p, e);
    if pattern == "" {
      EmptyRunsOff(data, p, e);
      EmptyFound(data, tail, e);
    } else {
      FindStaysShort(data, pattern, p, e);
      var k := Find(data, pattern, p, e);
      if k != -1 {
        var n := Eol(data, k, e);
        if n < e {
          assert tail > n;
          LineBackLater(data, p, n + 1, e);
          RunsOffIff(pattern, data, n + 1, e);
        } else {
          assert tail <= k;
        }
      }
    }
  }

  /** One chunk inside any data: without a panic in the time scan and without a skip, the result
      is the naive one, except that a hit after the last newline loses everything unless the
      limit is reached first. */
  lemma ChunkExactly(q: Query, data: string, cr: Chunk, room: int)
    requires Inside(data, cr)
    ensures var s := SkipToLine(data, cr.start, cr.end);
            var extra := if q.req.message.Some? then EmptyTail(q.req.message.value, data, s, cr.end) else [];
            var naive := Take(Select(q, LinesIn(data, s, cr.end) + extra), room);
            var range := ChunkRange(q.clock, data, cr);
            var lost := q.req.message.Some? && |naive| < room
                        && Find(data, q.req.message.value, LineBack(data, s, cr.end), cr.end) != -1;
            if range.Panicked? || (range.Range? && (range.from > q.To() || range.to < q.From()))
            then Picked(q, data, cr, room) == [] == ChunkResult(q, data, cr, room)
            else Picked(q, data, cr, room) == naive && ChunkResult(q, data, cr, room) == if lost then [] else naive
  {
    hide Select, ChunkRange, LinesIn, Find, RunsOff, Jumped, LineBack, EmptyTail;
    var s := SkipToLine(data, cr.start, cr.end);
    if q.req.message.Some? {
      JumpIsWalk(q, data, s, cr.end);
      RunsOffIff(q.req.message.value, data, s, cr.end);
    } else {
      assert LinesIn(data, s, cr.end) + [] == LinesIn(data, s, cr.end);
    }
  }

  /** The empty pattern loses every chunk that does not reach the limit. */
  lemma EmptyPatternLosesAll(q: Query, data: string, cr: Chunk, room: int)
    requires Inside(data, cr) && q.req.message == Some("")
    requires !ChunkRange(q.clock, data, cr).Panicked? && !Skipped(q, ChunkRange(q.clock, data, cr))
    ensures ChunkResult(q, data, cr, room) == [] || |ChunkResult(q, data, cr, room)| == room
  {
    hide Select, ChunkRange, LinesIn, Find, RunsOff, Jumped, LineBack, EmptyTail, Picked, ChunkResult;
    ChunkExactly(q, data, cr, room);
    EmptyFound(data, LineBack(data, SkipToLine(data, cr.start, cr.end), cr.end), cr.end);
  }

  lemma NoTail(data: string, pattern: string, p: nat, e: nat)
    requires p <= e <= |data| && pattern != "" && (p == e || data[e - 1] == '\n')
    ensures Find(data, pattern, LineBack(data, p, e), e) == -1
  {
  }

  // ---------- Chunk skipping ----------

  /** A decoder of a layout that ends in "Z" and has no tab or line break. */
  ghost predicate Layout(clock: Clock) {
    forall s: string :: |s| == STAMP && clock(s).Some? ==> s[STAMP - 1] == 'Z' && '\n' !in s && '\t' !in s
  }

  ghost predicate StampAt(q: Query, data: string, p: nat) {
    && p + STAMP < |data| && data[p + STAMP] == '\t' && q.clock(data[p..p + STAMP]).Some?
    && (q.Sep() != "" ==> !(q.Sep() <= data[p..Eol(data, p, |data|)]))
  }

  /** Newline-terminated lines that start with a timestamp and a tab, and do not open with
      the separator. */
  ghost predicate Stamped(q: Query, data: string) {
    && (data == "" || data[|data| - 1] == '\n')
    && forall p :: 0 <= p < |data| && LineStart(data, p) ==> StampAt(q, data, p)
  }

  predicate StampTab(clock: Clock, s: string, p: int) {
    0 <= p && p + STAMP < |s| && s[p + STAMP] == '\t' && clock(s[p..p + STAMP]).Some?
  }

  /** A timestamp followed by a tab stands only at the start of a line. */
  ghost predicate NoStrayStamp(clock: Clock, data: string) {
    forall p :: StampTab(clock, data, p) ==> LineStart(data, p)
  }

  ghost function TimeAt(clock: Clock, data: string, p: nat): int
    requires p + STAMP <= |data|
  {
    match clock(data[p..p + STAMP])
    case Some(t) => t
    case None => 0
  }

  ghost predicate Sorted(q: Query, data: string)
    requires Stamped(q, data)
  {
    forall p, r :: 0 <= p <= r < |data| && LineStart(data, p) && LineStart(data, r) ==>
      TimeAt(q.clock, data, p) <= TimeAt(q.clock, data, r)
  }

  ghost predicate FileOk(q: Query, data: string) {
    Layout(q.clock) && Stamped(q, data) && NoStrayStamp(q.clock, data) && Sorted(q, data)
  }

  /** The time column comes first and its name is not used again. */
  predicate TimeFirst(names: seq<string>) {
    |names| > 0 && names[0] == "time" && "time" !in names[1..]
  }

  lemma StampInLine(q: Query, data: string, p: nat, n: nat)
    requires Layout(q.clock) && StampAt(q, data, p)
    requires p <= n <= |data| && (forall j :: p <= j < n ==> data[j] != '\n') && (n < |data| ==> data[n] == '\n')
    ensures p + STAMP <= n && data[p..n][..STAMP] == data[p..p + STAMP]
    ensures q.Sep() != "" ==> !(q.Sep() <= data[p..n])
  {
    forall j | p <= j < p + STAMP
      ensures data[j] != '\n'
    {
      assert data[j] == data[p..p + STAMP][j - p];
    }
    EolUnique(data, p, |data|, n);
  }

  /** The first part of a line is not empty, and if it is long enough it opens with the stamp. */
  lemma FirstPart(line: string, sep: string, stamp: string)
    requires |stamp| == STAMP <= |line| && line[..STAMP] == stamp
    requires sep != "" ==> !(sep <= line)
    ensures |Split(line, sep)| > 0 && Split(line, sep)[0] != ""
    ensures |Split(line, sep)[0]| >= STAMP ==> Split(line, sep)[0][..STAMP] == stamp
  {
    hide Contains, OccursAt;
    if sep != "" {
      var k := Index(line, sep);
      if k != -1 {
        assert sep <= line[k..] && line[0..] == line;
        assert k >= STAMP ==> line[..k][..STAMP] == line[..STAMP];
      }
    }
  }

  /** A kept line carries a time inside the request. */
  lemma KeptInTime(q: Query, data: string, p: nat, n: nat)
    requires TimeFirst(q.req.fieldNames) && Layout(q.clock) && StampAt(q, data, p)
    requires p <= n <= |data| && (forall j :: p <= j < n ==> data[j] != '\n') && (n < |data| ==> data[n] == '\n')
    requires Kept(q, data[p..n]) != []
    ensures q.From() <= TimeAt(q.clock, data, p) <= q.To()
  {
    var line, names := data[p..n], q.req.fieldNames;
    var parts := Split(line, q.Sep());
    FieldMeaning(names, parts, |names|, 0);
    assert data[p..p + STAMP][..] == data[p..p + STAMP];
    StampInLine(q, data, p, n);
    FirstPart(line, q.Sep(), data[p..p + STAMP]);
  }

  /** The backward scan of a well-formed chunk finds the stamp of every line start in it. */
  lemma StampIsHit(q: Query, data: string, start: nat, end: nat, p: nat)
    requires Layout(q.clock) && StampAt(q, data, p) && start <= p < end <= |data| && LineStart(data, end)
    ensures p + STAMP + 1 < end && HitAt(data, start, p + STAMP + 1)
  {
    var stamp := data[p..p + STAMP];
    forall j | p <= j < p + STAMP
      ensures data[j] == stamp[j - p]
    {
    }
    assert data[end - 1] == '\n';
  }

  /** The last hit of a chunk is a stamp at or behind every line start in it. */
  lemma LastStamp(q: Query, data: string, cr: Chunk, p: nat)
    requires Layout(q.clock) && StampAt(q, data, p)
    requires 0 <= cr.start <= p < cr.end <= |data| && LineStart(data, cr.end)
    ensures var i := LastHit(data, cr.start, cr.end - 1);
            && HitAt(data, cr.start, i) && i < cr.end && p <= i - STAMP - 1
            && (q.clock(data[i - STAMP - 1..i - 1]).Some? ==> StampTab(q.clock, data, i - STAMP - 1))
  {
    StampIsHit(q, data, cr.start, cr.end, p);
  }

  lemma HitShape(data: string, start: int, i: int)
    requires HitAt(data, start, i)
    ensures 0 <= start <= i - STAMP - 1 && i <= |data|
  {
  }

  /** The scan of a well-formed chunk does not panic, and what it reports spans every line. */
  lemma RangeSpans(q: Query, data: string, cr: Chunk, p: nat)
    requires FileOk(q, data)
    requires 0 <= cr.start <= p < cr.end <= |data| && LineStart(data, cr.start) && LineStart(data, cr.end)
    requires LineStart(data, p)
    ensures var range := ChunkRange(q.clock, data, cr);
            !range.Panicked? && (range.Range? ==> range.from <= TimeAt(q.clock, data, p) <= range.to)
  {
    hide Layout, LastHit, HitAt, StampAt, LineStart, StampTab;
    assert StampAt(q, data, p);
    LastStamp(q, data, cr, p);
    var i := LastHit(data, cr.start, cr.end - 1);
    var r := i - STAMP - 1;
    HitShape(data, cr.start, i);
    assert data[cr.start..][..STAMP] == data[cr.start..cr.start + STAMP];
    assert data[r..i - 1][..STAMP] == data[r..r + STAMP];
  }

  lemma RangeFromHit(clock: Clock, data: string, cr: Chunk, h: int)
    requires 0 <= cr.start && cr.start + STAMP < cr.end <= |data| && LastHit(data, cr.start, cr.end - 1) == h
    requires HitAt(data, cr.start, h)
    ensures var first, last := clock(data[cr.start..cr.start + STAMP]), clock(data[h - STAMP - 1..h - 1]);
            ChunkRange(clock, data, cr) ==
            if first.Some? && last.Some? then Range(first.value, last.value) else NoRange
  {
    hide LastHit;
    assert data[cr.start..][..STAMP] == data[cr.start..cr.start + STAMP];
    assert data[h - STAMP - 1..h - 1][..STAMP] == data[h - STAMP - 1..h - 1];
  }

  /** No "Z" and tab stand behind the stamp of the line at `p`. */
  lemma NoLaterHit(data: string, start: nat, end: nat, p: nat)
    requires start <= p && end <= |data| && p + STAMP + 1 < end && HitAt(data, start, p + STAMP + 1)
    ensures p + STAMP + 1 <= LastHit(data, start, end - 1) < end && HitAt(data, start, LastHit(data, start, end - 1))
    ensures LastHit(data, start, end - 1) == p + STAMP + 1 <==>
            forall j :: p + STAMP < j < end - 1 ==> !(data[j] == '\t' && data[j - 1] == 'Z')
  {
    var h := LastHit(data, start, end - 1);
    if h == p + STAMP + 1 {
      forall j | p + STAMP < j < end - 1
        ensures !(data[j] == '\t' && data[j - 1] == 'Z')
      {
        assert !HitAt(data, start, j + 1);
      }
    } else {
      assert data[h - 1] == '\t' && data[h - 1 - 1] == 'Z';
    }
  }

  lemma NoStampBehind(q: Query, data: string, cr: Chunk, last: nat, h: int)
    requires 0 <= cr.start && cr.end <= |data| && NoStrayStamp(q.clock, data)
    requires HitAt(data, cr.start, h) && last + STAMP + 1 < h < cr.end
    requires forall j :: last < j < cr.end ==> !LineStart(data, j)
    ensures q.clock(data[h - STAMP - 1..h - 1]).None?
  {
    hide LineStart;
    var r := h - STAMP - 1;
    assert data[r..h - 1] == data[r..r + STAMP];
    assert StampTab(q.clock, data, r) ==> LineStart(data, r);
  }

  lemma FirstAndLast(q: Query, data: string, a: nat, b: nat)
    requires StampAt(q, data, a) && StampAt(q, data, b)
    ensures q.clock(data[a..a + STAMP]) == Some(TimeAt(q.clock, data, a))
    ensures q.clock(data[b..b + STAMP]) == Some(TimeAt(q.clock, data, b))
  {
  }

  lemma LineIsStamped(q: Query, data: string, p: nat)
    requires FileOk(q, data) && p < |data| && LineStart(data, p)
    ensures StampAt(q, data, p) && Layout(q.clock) && NoStrayStamp(q.clock, data)
    ensures p + STAMP < |data|
  {
    hide Layout, NoStrayStamp, LineStart;
  }

  /** What the scan reports of a well-formed chunk: from the time of its first line to that of its
      last, unless the text behind the last stamp has a "Z" and a tab. */
  lemma RangeExactly(q: Query, data: string, cr: Chunk, last: nat)
    requires FileOk(q, data)
    requires 0 <= cr.start <= last < cr.end <= |data| && LineStart(data, cr.start) && LineStart(data, cr.end)
    requires LineStart(data, last) && forall j :: last < j < cr.end ==> !LineStart(data, j)
    ensures ChunkRange(q.clock, data, cr) ==
            if forall j :: last + STAMP < j < cr.end - 1 ==> !(data[j] == '\t' && data[j - 1] == 'Z')
            then Range(TimeAt(q.clock, data, cr.start), TimeAt(q.clock, data, last))
            else NoRange
  {
    hide *;
    LineIsStamped(q, data, cr.start);
    LineIsStamped(q, data, last);
    StampIsHit(q, data, cr.start, cr.end, cr.start);
    StampIsHit(q, data, cr.start, cr.end, last);
    FirstAndLast(q, data, cr.start, last);
    NoLaterHit(data, cr.start, cr.end, last);
    var h := LastHit(data, cr.start, cr.end - 1);
    HitShape(data, cr.start, h);
    RangeFromHit(q.clock, data, cr, h);
    if h != last + STAMP + 1 {
      NoStampBehind(q, data, cr, last, h);
    }
  }

  lemma LineInside(q: Query, data: string, p: nat, e: nat)
    requires p < e <= |data| && LineStart(data, p) && LineStart(data, e) && Stamped(q, data)
    ensures StampAt(q, data, p) && Eol(data, p, e) < e && LineStart(data, Eol(data, p, e) + 1)
  {
    assert data[e - 1] == '\n';
  }

  /** Skipping a chunk is sound: none of its lines passes the filters. */
  lemma {:induction false} SkipIsSound(q: Query, data: string, cr: Chunk, p: nat)
    requires FileOk(q, data) && TimeFirst(q.req.fieldNames)
    requires 0 <= cr.start <= p <= cr.end <= |data| && LineStart(data, cr.start) && LineStart(data, cr.end)
    requires LineStart(data, p) && Skipped(q, ChunkRange(q.clock, data, cr))
    ensures Select(q, LinesIn(data, p, cr.end)) == []
    decreases cr.end - p
  {
    hide Kept, ChunkRange, Select, LineStart, Stamped, NoStrayStamp, Sorted, Layout, TimeFirst, StampAt, TimeAt;
    if p >= cr.end {
      NothingPast(q, data, p, cr.end);
    } else {
      var n := Eol(data, p, cr.end);
      RangeSpans(q, data, cr, p);
      LineInside(q, data, p, cr.end);
      if Kept(q, data[p..n]) != [] {
        KeptInTime(q, data, p, n);
      }
      SkipIsSound(q, data, cr, n + 1);
      SelectCons(q, data[p..n], LinesIn(data, n + 1, cr.end));
    }
  }

  lemma EmptyRange(clock: Clock, data: string, cr: Chunk)
    requires 0 <= cr.start == cr.end <= |data|
    ensures ChunkRange(clock, data, cr).NoRange?
  {
  }

  /** On a well-formed file one chunk yields what the naive query yields on its lines. */
  lemma ChunkIsNaive(q: Query, data: string, cr: Chunk, room: int)
    requires FileOk(q, data) && TimeFirst(q.req.fieldNames) && q.req.message != Some("")
    requires Inside(data, cr) && LineStart(data, cr.start) && LineStart(data, cr.end)
    ensures ChunkResult(q, data, cr, room) == Picked(q, data, cr, room)
    ensures Picked(q, data, cr, room) == Take(Select(q, LinesIn(data, cr.start, cr.end)), room)
  {
    hide Select, ChunkRange, LinesIn, FileOk, RunsOff, Jumped, Find, Found;
    var s := SkipToLine(data, cr.start, cr.end);
    if q.req.message.Some? {
      NoTail(data, q.req.message.value, s, cr.end);
    }
    assert LinesIn(data, s, cr.end) + [] == LinesIn(data, s, cr.end);
    ChunkExactly(q, data, cr, room);
    if cr.start < cr.end {
      RangeSpans(q, data, cr, cr.start);
    } else {
      EmptyRange(q.clock, data, cr);
    }
    if Skipped(q, ChunkRange(q.clock, data, cr)) {
      SkipIsSound(q, data, cr, cr.start);
    }
  }

  // ---------- Files ----------

  /** The chunks of one file in order, until `room` entries were picked: the entries returned
      and the number added to the total. */
  ghost function FromChunks(q: Query, data: string, chunks: seq<Chunk>, room: int): (seq<Entry>, nat)
    decreases |chunks|
  {
    if chunks == [] || room <= 0 then ([], 0)
    else
      var here, added := ChunkResult(q, data, chunks[0], room), |Picked(q, data, chunks[0], room)|;
      var rest := FromChunks(q, data, chunks[1..], room - added);
      (here + rest.0, added + rest.1)
  }

  /** How far the chunks cover the data: up to the first that reaches past it. */
  function Reach(data: string, chunks: seq<Chunk>, from: nat): (r: nat)
    ensures from <= |data| ==> r <= |data|
  {
    if chunks == [] || !Inside(data, chunks[0]) then from else Reach(data, chunks[1..], chunks[0].end)
  }

  /** Each chunk begins where the one before it ends, at a line start if it is inside; behind one
      that is not inside there is none that is. */
  ghost predicate InRow(data: string, chunks: seq<Chunk>, from: nat) {
    && (chunks != [] ==> chunks[0].start == from)
    && (forall i :: 0 < i < |chunks| ==> chunks[i].start == chunks[i - 1].end)
    && (forall i :: 0 <= i < |chunks| && Inside(data, chunks[i]) ==>
          LineStart(data, chunks[i].start) && LineStart(data, chunks[i].end))
    && (forall i, j :: 0 <= i < j < |chunks| && Inside(data, chunks[j]) ==> Inside(data, chunks[i]))
  }

  lemma InsideIsInside(data: string, cr: Chunk)
    requires Inside(data, cr)
    ensures 0 <= cr.start <= cr.end <= |data|
  {
  }

  lemma InsideFrom(data: string, cr: Chunk)
    requires 0 <= cr.start <= cr.end <= |data|
    ensures Inside(data, cr)
  {
  }

  lemma RestInRow(data: string, chunks: seq<Chunk>, from: nat)
    requires chunks != [] && InRow(data, chunks, from) && Inside(data, chunks[0])
    ensures InRow(data, chunks[1..], chunks[0].end)
    ensures chunks[0].start == from && LineStart(data, from) && LineStart(data, chunks[0].end)
  {
    hide LineStart;
    assert forall i :: 0 <= i < |chunks| - 1 ==> chunks[1..][i] == chunks[i + 1];
  }

  lemma NoRoom<T>(rest: seq<T>, room: int)
    requires room <= 0
    ensures Take(rest, room) == []
  {
  }

  lemma {:induction false} NothingOutside(q: Query, data: string, chunks: seq<Chunk>, room: int)
    requires forall i :: 0 <= i < |chunks| ==> !Inside(data, chunks[i])
    ensures FromChunks(q, data, chunks, room) == ([], 0)
    decreases |chunks|
  {
    if chunks != [] && room > 0 {
      assert !Inside(data, chunks[0]);
      assert Picked(q, data, chunks[0], room) == [] == ChunkResult(q, data, chunks[0], room);
      hide Inside, Picked, ChunkResult;
      NothingOutside(q, data, chunks[1..], room);
      assert [] + FromChunks(q, data, chunks[1..], room).0 == [];
    }
  }

  lemma {:induction false} ReachIsStart(data: string, chunks: seq<Chunk>, from: nat)
    requires InRow(data, chunks, from) && LineStart(data, from)
    ensures LineStart(data, Reach(data, chunks, from)) && from <= Reach(data, chunks, from) <= |data|
    decreases |chunks|
  {
    if chunks != [] && Inside(data, chunks[0]) {
      RestInRow(data, chunks, from);
      hide InRow;
      ReachIsStart(data, chunks[1..], chunks[0].end);
    }
  }

  lemma ReachStep(data: string, chunks: seq<Chunk>, from: nat)
    ensures Reach(data, chunks, from) ==
            if chunks == [] || !Inside(data, chunks[0]) then from else Reach(data, chunks[1..], chunks[0].end)
  {
  }

  lemma FromNone(q: Query, data: string, chunks: seq<Chunk>, room: int)
    requires room <= 0
    ensures FromChunks(q, data, chunks, room) == ([], 0)
  {
  }

  lemma FromSome(q: Query, data: string, chunks: seq<Chunk>, room: int)
    requires chunks != [] && room > 0
    ensures var added := |Picked(q, data, chunks[0], room)|;
            var rest := FromChunks(q, data, chunks[1..], room - added);
            FromChunks(q, data, chunks, room) == (ChunkResult(q, data, chunks[0], room) + rest.0, added + rest.1)
  {
    hide Picked, ChunkResult;
  }

  /** The naive result of a stretch is that of its first lines and then of the others. */
  lemma NaiveSum(q: Query, data: string, p: nat, m: nat, e: nat, room: int)
    requires p <= m <= e <= |data| && LineStart(data, m)
    ensures var taken := Take(Select(q, LinesIn(data, p, m)), room);
            Take(Select(q, LinesIn(data, p, e)), room) ==
            taken + Take(Select(q, LinesIn(data, m, e)), room - |taken|)
  {
    hide Select, LinesIn, LineStart, Take;
    LinesSplit(data, p, m, e);
    SelectSum(q, LinesIn(data, p, m), LinesIn(data, m, e));
    TakeSum(Select(q, LinesIn(data, p, m)), Select(q, LinesIn(data, m, e)), room);
  }

  lemma NothingTaken<T>(room: int)
    ensures Take<T>([], room) == []
  {
  }

  lemma AllOutside(data: string, chunks: seq<Chunk>, from: nat)
    requires InRow(data, chunks, from) && (chunks != [] ==> !Inside(data, chunks[0]))
    ensures forall i :: 0 <= i < |chunks| ==> !Inside(data, chunks[i])
  {
  }

  /** Consecutive chunks together yield the naive result on the lines they cover. */
  lemma {:induction false} ChunksAreNaive(q: Query, data: string, chunks: seq<Chunk>, from: nat, room: int)
    requires FileOk(q, data) && TimeFirst(q.req.fieldNames) && q.req.message != Some("")
    requires InRow(data, chunks, from) && LineStart(data, from)
    ensures var naive := Take(Select(q, LinesIn(data, from, Reach(data, chunks, from))), room);
            FromChunks(q, data, chunks, room) == (naive, |naive|)
    decreases |chunks|
  {
    hide *;
    ReachIsStart(data, chunks, from);
    var reach := Reach(data, chunks, from);
    if room <= 0 {
      NoRoom(Select(q, LinesIn(data, from, reach)), room);
      FromNone(q, data, chunks, room);
    } else if chunks == [] || !Inside(data, chunks[0]) {
      AllOutside(data, chunks, from);
      NothingOutside(q, data, chunks, room);
      ReachStep(data, chunks, from);
      NothingPast(q, data, from, from);
      NothingTaken<Entry>(room);
    } else {
      var cr, rest := chunks[0], chunks[1..];
      RestInRow(data, chunks, from);
      ReachStep(data, chunks, from);
      InsideIsInside(data, cr);
      ChunkIsNaive(q, data, cr, room);
      ReachIsStart(data, rest, cr.end);
      var taken := Take(Select(q, LinesIn(data, from, cr.end)), room);
      ChunksAreNaive(q, data, rest, cr.end, room - |taken|);
      NaiveSum(q, data, from, cr.end, reach, room);
      FromSome(q, data, chunks, room);
    }
  }

  // ---------- One file ----------

  /** How much of a file the engine looks at. */
  function Reached(data: string): (r: nat)
    ensures r <= |data|
  {
    Reach(data, ChunkList(data, ChunkNum(|data|)), 0)
  }

  lemma ChunkOutside(data: string, n: nat, i: nat)
    requires i < n
    ensures Inside(data, ChunkAt(data, n, i)) <==>
            Boundary(data, Nominal(|data|, n), if i == n - 1 then i else i + 1) <= |data|
  {
    hide CutAfter, Nominal;
    if i < n - 1 {
      BoundaryMonotone(data, Nominal(|data|, n), i, i + 1);
    }
  }

  lemma CutIsStart(data: string, p: nat)
    requires data == "" || data[|data| - 1] == '\n'
    ensures CutAfter(data, p) <= |data| ==> LineStart(data, CutAfter(data, p))
  {
  }

  lemma BoundaryIsStart(data: string, size: nat, i: nat)
    requires data == "" || data[|data| - 1] == '\n'
    ensures Boundary(data, size, i) <= |data| ==> LineStart(data, Boundary(data, size, i))
  {
    if i > 0 {
      CutIsStart(data, Boundary(data, size, i - 1) + size);
    }
  }

  lemma EndIsStart(data: string)
    requires data == "" || data[|data| - 1] == '\n'
    ensures LineStart(data, |data|)
  {
  }

  lemma ChunksInRow(data: string, n: nat)
    requires data == "" || data[|data| - 1] == '\n'
    ensures InRow(data, ChunkList(data, n), 0)
  {
    hide CutAfter, Nominal, LineStart, Inside;
    var chunks, size := ChunkList(data, n), Nominal(|data|, if n == 0 then 1 else n);
    forall i | 0 <= i < n && Inside(data, chunks[i])
      ensures LineStart(data, chunks[i].start) && LineStart(data, chunks[i].end)
    {
      InsideIsInside(data, chunks[i]);
      BoundaryIsStart(data, size, i);
      BoundaryIsStart(data, size, i + 1);
      EndIsStart(data);
    }
    forall i, j | 0 <= i < j < n && Inside(data, chunks[j])
      ensures Inside(data, chunks[i])
    {
      ChunkOutside(data, n, i);
      ChunkOutside(data, n, j);
      BoundaryMonotone(data, size, i + 1, if j == n - 1 then j else j + 1);
    }
  }

  lemma ReachedIs(data: string)
    ensures Reached(data) == Reach(data, ChunkList(data, ChunkNum(|data|)), 0)
  {
  }

  /** A well-formed file: chunking, skipping and jumping do not show in the lines reached. */
  lemma FileIsNaive(q: Query, data: string, room: int)
    requires FileOk(q, data) && TimeFirst(q.req.fieldNames) && q.req.message != Some("")
    ensures var naive := Take(Select(q, LinesIn(data, 0, Reached(data))), room);
            FromChunks(q, data, ChunkList(data, ChunkNum(|data|)), room) == (naive, |naive|)
  {
    assert data == "" || data[|data| - 1] == '\n';
    assert LineStart(data, 0);
    hide *;
    ChunksInRow(data, ChunkNum(|data|));
    ChunksAreNaive(q, data, ChunkList(data, ChunkNum(|data|)), 0, room);
    ReachedIs(data);
  }

  /** The first chunk from `i` on that is not inside the data ends what is reached. */
  lemma {:induction false} ReachStops(data: string, n: nat, i: nat) returns (m: nat)
    requires i <= n && n > 0 && Boundary(data, Nominal(|data|, n), i) <= |data|
    ensures i <= m <= n && (forall j :: i <= j < m ==> Inside(data, ChunkAt(data, n, j)))
    ensures m < n ==> !Inside(data, ChunkAt(data, n, m)) && Boundary(data, Nominal(|data|, n), m) <= |data|
    ensures Reach(data, ChunkList(data, n)[i..], if i == n then |data| else Boundary(data, Nominal(|data|, n), i)) ==
            if m == n then |data| else Boundary(data, Nominal(|data|, n), m)
    decreases n - i
  {
    hide CutAfter, Nominal, Inside;
    m := i;
    var rest := ChunkList(data, n)[i..];
    if i < n && Inside(data, ChunkAt(data, n, i)) {
      assert rest[0] == ChunkAt(data, n, i) && rest[1..] == ChunkList(data, n)[i + 1..];
      if i < n - 1 {
        ChunkOutside(data, n, i);
        m := ReachStops(data, n, i + 1);
      } else {
        m := n;
        assert rest[1..] == [];
      }
    }
  }

  lemma StopsBeforeFit(data: string, n: nat, m: nat)
    requires m < n && !Inside(data, ChunkAt(data, n, m))
    ensures !CutsFit(data, n)
  {
    hide CutAfter, Nominal;
    if CutsFit(data, n) {
      ChunkInside(data, n, m);
    }
  }

  lemma EndIsWhereItStops(data: string, n: nat, m: nat, i: nat)
    requires m < n && i < n && !Inside(data, ChunkAt(data, n, m)) && Boundary(data, Nominal(|data|, n), m) <= |data|
    requires Boundary(data, Nominal(|data|, n), i) == |data|
    ensures Boundary(data, Nominal(|data|, n), m) == |data|
  {
    hide CutAfter, Nominal, Inside, Boundary, ChunkAt;
    var size := Nominal(|data|, n);
    ChunkOutside(data, n, m);
    if i <= m {
      BoundaryMonotone(data, size, i, m);
    } else {
      BoundaryMonotone(data, size, m + 1, i);
    }
  }

  lemma AllInsideFits(data: string, n: nat)
    requires n > 0 && forall i :: 0 <= i < n ==> Inside(data, ChunkAt(data, n, i))
    ensures CutsFit(data, n)
  {
    hide Nominal;
    if n > 1 {
      assert Inside(data, ChunkAt(data, n, n - 2));
    }
  }

  /** The whole file is reached exactly when the last inner nominal cut falls inside it, or a cut
      falls on its very end. */
  lemma ReachedIff(data: string)
    ensures var n := ChunkNum(|data|);
            && n > 0
            && (Reached(data) == |data| <==>
                CutsFit(data, n) || exists i :: 0 <= i < n && Boundary(data, Nominal(|data|, n), i) == |data|)
  {
    ChunkNumPositive(|data|);
    hide *;
    var n := ChunkNum(|data|);
    var size := Nominal(|data|, n);
    BoundaryStart(data, size);
    var m := ReachStops(data, n, 0);
    assert ChunkList(data, n)[0..] == ChunkList(data, n);
    ReachedIs(data);
    if m < n {
      StopsBeforeFit(data, n, m);
      if i :| 0 <= i < n && Boundary(data, size, i) == |data| {
        EndIsWhereItStops(data, n, m, i);
      }
    } else {
      AllInsideFits(data, n);
    }
  }

  /** Files of fewer than three times the nominal size are always reached in full. */
  lemma SmallIsReached(data: string)
    requires |data| < 3 * DATA_SIZE
    ensures Reached(data) == |data|
  {
    ReachedIff(data);
    hide Reached, CutAfter;
    var n := ChunkNum(|data|);
    assert n <= 2;
    if n == 2 {
      BoundaryStart(data, Nominal(|data|, n));
    }
  }

  lemma FirstCut(data: string, size: nat, p: nat)
    requires size < p < |data| && data[p - 1] == '\n' && '\n' !in data[..p - 1]
    ensures Boundary(data, size, 1) == p
  {
    assert Boundary(data, size, 0) == 0;
    assert forall j :: 0 <= j < p - 1 ==> data[j] == data[..p - 1][j];
    EolUnique(data, size, |data|, p - 1);
  }

  lemma SecondCut(data: string, size: nat, p: nat)
    requires Boundary(data, size, 1) == p && p + size > |data|
    ensures Boundary(data, size, 2) > |data|
  {
  }

  /** What a long line loses: the first cut comes late, though inside the data, and the next
      nominal cut jumps over the end; nothing behind the long line is looked at. */
  lemma LostBehindLongLine(data: string, p: nat)
    requires ChunkNum(|data|) >= 3 && Nominal(|data|, ChunkNum(|data|)) < p < |data|
    requires data[p - 1] == '\n' && '\n' !in data[..p - 1]
    requires p + Nominal(|data|, ChunkNum(|data|)) > |data|
    ensures Reached(data) == p
  {
    var n := ChunkNum(|data|);
    var size := Nominal(|data|, n);
    FirstCut(data, size, p);
    assert Boundary(data, size, 0) == 0;
    SecondCut(data, size, p);
    hide CutAfter, Nominal, Inside, ChunkNum;
    ChunkOutside(data, n, 0);
    ChunkOutside(data, n, 1);
    var chunks := ChunkList(data, n);
    assert chunks[1..][0] == ChunkAt(data, n, 1) && chunks[0] == ChunkAt(data, n, 0);
    assert Reach(data, chunks[1..], p) == p;
  }

  // ---------- A hit on an unterminated last line ----------

  /** A query for lines of a time and a message that holds "X". */
  ghost predicate WantsX(q: Query) {
    && q.req.message == Some("X") && q.req.separator == None && q.req.level == None && q.req.filters == map[]
    && q.req.fieldNames == ["time", "message"] && Layout(q.clock)
  }

  lemma TwoLines(stamp: string)
    requires |stamp| == STAMP && '\n' !in stamp && '\t' !in stamp
    ensures var data := stamp + "\tX\nX"; LinesIn(data, 0, |data|) == [stamp + "\tX", "X"]
  {
    var data := stamp + "\tX\nX";
    assert forall j :: 0 <= j < STAMP ==> data[j] == stamp[j];
    EolUnique(data, 0, |data|, STAMP + 2);
    LinesFirst(data, 0, |data|);
    EolUnique(data, STAMP + 3, |data|, |data|);
    LinesFirst(data, STAMP + 3, |data|);
    assert data[0..STAMP + 2] == stamp + "\tX" && data[STAMP + 3..|data|] == "X";
    assert LinesIn(data, |data| + 1, |data|) == [];
  }

  lemma PartsOfLine(stamp: string)
    requires |stamp| == STAMP && '\t' !in stamp
    ensures Split(stamp + "\tX", TAB) == [stamp, "X"] && Split("X", TAB) == ["X"]
  {
    var line := stamp + "\tX";
    assert |line| == STAMP + 2 && line[STAMP + 1] == 'X';
    assert line[..STAMP] == stamp && line[STAMP + 1..] == "X" && "X"[..1] == "X";
    SplitAtFirst(line, '\t', STAMP);
    SplitAtFirst("X", '\t', 1);
  }

  lemma TwoFields(a: string, b: string)
    ensures Fields(["time", "message"], [a, b], 2) == map["time" := a, "message" := b]
  {
    assert Fields(["time", "message"], [a, b], 1) == map["time" := a];
  }

  lemma OneIsKept(q: Query, stamp: string)
    requires WantsX(q) && |stamp| == STAMP && '\t' !in stamp
    requires q.clock(stamp).Some? && q.From() <= q.clock(stamp).value <= q.To()
    ensures Select(q, [stamp + "\tX", "X"]) == [map["time" := stamp, "message" := "X"]]
  {
    var line := stamp + "\tX";
    hide Split, Fields, Select, Layout;
    PartsOfLine(stamp);
    TwoFields(stamp, "X");
    assert OccursAt("X", "X", 0);
    assert stamp[..STAMP] == stamp;
    hide Query.From, Query.To;
    assert Kept(q, line) == [map["time" := stamp, "message" := "X"]];
    assert Kept(q, "X") == [];
    hide Kept;
    SelectCons(q, line, ["X"]);
    SelectCons(q, "X", []);
    assert ["X"] + [] == ["X"] && [line] + ["X"] == [line, "X"];
    assert Select(q, []) == [] by {
      NothingPast(q, "", 0, 0);
    }
  }

  lemma TwoLinesHit(stamp: string)
    requires |stamp| == STAMP && stamp[STAMP - 1] == 'Z'
    ensures var data := stamp + "\tX\nX"; |data| == STAMP + 4 && LastHit(data, 0, |data| - 1) == STAMP + 1
  {
    var data := stamp + "\tX\nX";
    assert data[STAMP - 1] == 'Z' && data[STAMP] == '\t' && data[STAMP + 1] == 'X';
    assert HitAt(data, 0, STAMP + 1);
    assert !HitAt(data, 0, STAMP + 2) && !HitAt(data, 0, STAMP + 3);
  }

  lemma TwoLinesRange(q: Query, stamp: string)
    requires |stamp| == STAMP && q.clock(stamp).Some? && q.From() <= q.clock(stamp).value <= q.To()
    requires stamp[STAMP - 1] == 'Z'
    ensures var data := stamp + "\tX\nX";
            var range := ChunkRange(q.clock, data, Chunk(0, |data|));
            !range.Panicked? && !Skipped(q, range)
  {
    hide Query.From, Query.To, LastHit;
    var data := stamp + "\tX\nX";
    TwoLinesHit(stamp);
    assert data[0..][..STAMP] == stamp;
    assert data[0..STAMP][..STAMP] == stamp;
  }

  lemma TwoLinesTail(stamp: string)
    requires |stamp| == STAMP
    ensures var data := stamp + "\tX\nX"; Find(data, "X", LineBack(data, 0, |data|), |data|) != -1
  {
    var data := stamp + "\tX\nX";
    hide Find;
    assert data[STAMP + 2] == '\n';
    assert OccursAt(data, "X", |data| - 1);
  }

  lemma StartsHere(data: string, e: nat)
    requires e <= |data|
    ensures SkipToLine(data, 0, e) == 0
  {
  }

  lemma TakeAll<T>(s: seq<T>, n: nat)
    requires |s| <= n
    ensures Take(s, n) == s
  {
  }

  /** An entry that passes is found by walking the lines, but the chunk returns nothing: the hit on
      the unterminated last line makes the next search slice past the end. */
  lemma HitOnLastLineLosesAll(q: Query, stamp: string, room: int)
    requires WantsX(q) && |stamp| == STAMP && room > 1
    requires q.clock(stamp).Some? && q.From() <= q.clock(stamp).value <= q.To()
    ensures var data := stamp + "\tX\nX";
            && Select(q, LinesIn(data, 0, |data|)) == [map["time" := stamp, "message" := "X"]]
            && ChunkResult(q, data, Chunk(0, |data|), room) == []
  {
    assert stamp[STAMP - 1] == 'Z' && '\n' !in stamp && '\t' !in stamp;
    var data := stamp + "\tX\nX";
    var cr := Chunk(0, |data|);
    InsideFrom(data, cr);
    TwoLines(stamp);
    OneIsKept(q, stamp);
    TwoLinesRange(q, stamp);
    TwoLinesTail(stamp);
    StartsHere(data, |data|);
    TakeAll([map["time" := stamp, "message" := "X"]], room);
    assert LinesIn(data, 0, |data|) + [] == LinesIn(data, 0, |data|);
    assert q.req.message == Some("X");
    assert EmptyTail("X", data, 0, |data|) == [];
    hide *;
    ChunkExactly(q, data, cr, room);
  }
}

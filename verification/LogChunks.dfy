/** Cutting a log file into newline-aligned chunks (`log/encoder/text_query.go`): the scanning
    loop, the exact condition under which its chunks tile the file, and a bound on line length
    that guarantees it. */
module LogChunks {
  import opened LogFormat

  datatype Chunk = Chunk(start: int, end: int)

  /** Where the scan from `p` stops: just after the next newline, or at the end of the data.
      A scan that begins past the end stays where it is. */
  function CutAfter(data: string, p: nat): (q: nat)
    ensures q >= p
    ensures p <= |data| ==> q <= |data| && (q == |data| || LineStart(data, q))
    ensures p < |data| ==> q > p
  {
    if p >= |data| then p
    else
      var n := Eol(data, p, |data|);
      if n < |data| then n + 1 else n
  }

  function Nominal(totalSize: nat, chunkNum: nat): nat
    requires chunkNum > 0
  {
    totalSize / chunkNum
  }

  /** Start of chunk `i` when every non-final chunk is nominally `size` bytes. */
  function Boundary(data: string, size: nat, i: nat): nat {
    if i == 0 then 0 else CutAfter(data, Boundary(data, size, i - 1) + size)
  }

  function ChunkAt(data: string, chunkNum: nat, i: nat): Chunk
    requires i < chunkNum
  {
    var size := Nominal(|data|, chunkNum);
    Chunk(Boundary(data, size, i), if i == chunkNum - 1 then |data| else Boundary(data, size, i + 1))
  }

  /** The scan for the next newline, which is taken into the chunk. */
  method FindCut(data: string, nominal: nat) returns (end: nat)
    ensures end == CutAfter(data, nominal)
    ensures if nominal >= |data| then end == nominal else nominal < end <= |data|
    ensures forall j :: nominal <= j < end - 1 && j < |data| ==> data[j] != '\n'
    ensures nominal < |data| ==> data[end - 1] == '\n' || end == |data|
  {
    end := nominal;
    while end < |data| && data[end] != '\n'
      invariant nominal <= end && (nominal <= |data| ==> end <= |data|) && (nominal > |data| ==> end == nominal)
      invariant forall j :: nominal <= j < end && j < |data| ==> data[j] != '\n'
    {
      end := end + 1;
    }
    if nominal < |data| {
      EolUnique(data, nominal, |data|, end);
    }
    if end < |data| {
      end := end + 1;
    }
  }

  function ChunkList(data: string, chunkNum: nat): (chunks: seq<Chunk>)
    ensures |chunks| == chunkNum
  {
    seq(chunkNum, i requires 0 <= i < chunkNum => ChunkAt(data, chunkNum, i))
  }

  method SplitDataToChunks(data: string, chunkNum: nat) returns (chunks: seq<Chunk>)
    requires chunkNum > 0
    ensures chunks == ChunkList(data, chunkNum)
  {
    hide CutAfter, Nominal;
    var totalSize := |data|;
    var chunkSize := Nominal(totalSize, chunkNum);
    chunks := [];
    var start := 0;
    for i := 0 to chunkNum
      invariant |chunks| == i
      invariant i < chunkNum ==> start == Boundary(data, chunkSize, i)
      invariant forall j :: 0 <= j < i ==> chunks[j] == ChunkAt(data, chunkNum, j)
    {
      var end := start + chunkSize;
      if i == chunkNum - 1 {
        end := totalSize;
      } else {
        end := FindCut(data, end);
      }
      chunks := chunks + [Chunk(start, end)];
      start := end;
    }
  }

  lemma CutMeaning(data: string, p: nat)
    ensures var q := CutAfter(data, p);
            && (if p >= |data| then q == p else p < q <= |data| && (q == |data| || data[q - 1] == '\n'))
            && forall j :: p <= j < q - 1 && j < |data| ==> data[j] != '\n'
  {
  }

  /** The chunks follow each other from 0 to the end; every chunk but the last takes its nominal
      share and then whatever is left of the line it stops in. */
  lemma ChunksMeaning(data: string, n: nat)
    requires n > 0
    ensures var chunks := ChunkList(data, n);
            && chunks[0].start == 0 && chunks[n - 1].end == |data|
            && (forall i :: 0 <= i < n - 1 ==> chunks[i + 1].start == chunks[i].end)
            && (forall i :: 0 <= i < n - 1 ==>
                  var from, end := chunks[i].start + |data| / n, chunks[i].end;
                  && (if from >= |data| then end == from
                      else from < end <= |data| && (end == |data| || data[end - 1] == '\n'))
                  && forall j :: from <= j < end - 1 && 0 <= j < |data| ==> data[j] != '\n')
  {
    hide CutAfter;
    var chunks := ChunkList(data, n);
    forall i | 0 <= i < n - 1
      ensures var from, end := chunks[i].start + |data| / n, chunks[i].end;
              && (if from >= |data| then end == from
                  else from < end <= |data| && (end == |data| || data[end - 1] == '\n'))
              && forall j :: from <= j < end - 1 && 0 <= j < |data| ==> data[j] != '\n'
    {
      CutMeaning(data, Boundary(data, |data| / n, i) + |data| / n);
    }
  }

  /** Chunks in order, in bounds, contiguous from 0 to the end of the data, every inner cut
      at the start of a line or at the end of the data. */
  ghost predicate Tiles(data: string, chunks: seq<Chunk>) {
    && |chunks| > 0 && chunks[0].start == 0 && chunks[|chunks| - 1].end == |data|
    && (forall i :: 0 <= i < |chunks| ==> 0 <= chunks[i].start <= chunks[i].end <= |data|)
    && (forall i :: 0 < i < |chunks| ==> chunks[i].start == chunks[i - 1].end)
    && (forall i :: 0 <= i < |chunks| ==> chunks[i].end == |data| || LineStart(data, chunks[i].end))
  }

  /** The last nominal cut still falls inside the data. */
  ghost predicate CutsFit(data: string, chunkNum: nat)
    requires chunkNum > 0
  {
    chunkNum == 1 || Boundary(data, Nominal(|data|, chunkNum), chunkNum - 2) + Nominal(|data|, chunkNum) <= |data|
  }

  lemma {:induction false} BoundaryMonotone(data: string, size: nat, i: nat, j: nat)
    requires i <= j
    ensures Boundary(data, size, i) <= Boundary(data, size, j)
    decreases j - i
  {
    hide CutAfter;
    if i < j {
      BoundaryMonotone(data, size, i, j - 1);
    }
  }

  lemma ChunkInside(data: string, chunkNum: nat, i: nat)
    requires i < chunkNum && CutsFit(data, chunkNum)
    ensures var c := ChunkAt(data, chunkNum, i);
            0 <= c.start <= c.end <= |data| && (c.end == |data| || LineStart(data, c.end))
  {
    hide LineStart, Nominal, CutAfter;
    var size := Nominal(|data|, chunkNum);
    if i < chunkNum - 1 {
      BoundaryMonotone(data, size, i, chunkNum - 2);
    } else if i > 0 {
      BoundaryMonotone(data, size, i - 1, chunkNum - 2);
    }
  }

  lemma BoundaryStart(data: string, size: nat)
    ensures Boundary(data, size, 0) == 0
  {
  }

  lemma LastCut(data: string, chunkNum: nat)
    requires chunkNum > 1 && !CutsFit(data, chunkNum)
    ensures ChunkAt(data, chunkNum, chunkNum - 2).end > |data|
  {
  }

  /** A chunk list that comes from the scan tiles the file exactly when its last inner cut
      fits; over-long lines are what breaks it. */
  lemma TilesIff(data: string, chunkNum: nat, chunks: seq<Chunk>)
    requires chunkNum > 0 && |chunks| == chunkNum
    requires forall i :: 0 <= i < chunkNum ==> chunks[i] == ChunkAt(data, chunkNum, i)
    ensures Tiles(data, chunks) <==> CutsFit(data, chunkNum)
  {
    hide LineStart, Boundary, Nominal;
    assert Boundary(data, Nominal(|data|, chunkNum), 0) == 0 by { BoundaryStart(data, Nominal(|data|, chunkNum)); }
    if CutsFit(data, chunkNum) {
      forall i | 0 <= i < chunkNum
        ensures 0 <= chunks[i].start <= chunks[i].end <= |data|
        ensures chunks[i].end == |data| || LineStart(data, chunks[i].end)
      {
        ChunkInside(data, chunkNum, i);
      }
    } else if chunkNum > 1 {
      LastCut(data, chunkNum);
      assert chunks[chunkNum - 2].end > |data|;
    }
  }

  // ---------- A bound on line length that is enough ----------

  /** Every line, its newline included, has at most `most` bytes. */
  ghost predicate ShortLines(data: string, most: nat) {
    forall p :: 0 <= p < |data| && LineStart(data, p) ==> CutAfter(data, p) <= p + most
  }

  /** The start of the line that holds byte `p`. */
  lemma LineOf(data: string, p: nat) returns (s: nat)
    requires p < |data|
    ensures s <= p && LineStart(data, s) && CutAfter(data, s) == CutAfter(data, p)
    decreases p
  {
    if p == 0 || data[p - 1] == '\n' {
      s := p;
    } else {
      s := LineOf(data, p - 1);
      EolUnique(data, p - 1, |data|, Eol(data, p, |data|));
    }
  }

  lemma CutBound(data: string, p: nat, most: nat)
    requires ShortLines(data, most)
    ensures CutAfter(data, p) <= if p < |data| then p + most else p
  {
    if p < |data| {
      var s := LineOf(data, p);
    }
  }

  /** The product, under a name that can be kept closed. */
  function Times(a: int, b: int): int { a * b }

  lemma TimesSum(a: int, b: int, c: int)
    ensures Times(a, b + c) == Times(a, b) + Times(a, c) && Times(a, b) == Times(b, a)
  {
  }

  lemma TimesStep(a: int, b: int)
    ensures Times(a, b) == Times(a - 1, b) + b && Times(0, b) == 0
  {
  }

  lemma {:induction false} Product(x: nat, y: nat, n: nat)
    requires x <= y
    ensures Times(x, n) <= Times(y, n)
    decreases y
  {
    if x < y {
      hide Times;
      Product(x, y - 1, n);
      TimesStep(y, n);
    }
  }

  lemma TimesIs(a: int, b: int)
    ensures Times(a, b) == a * b
  {
  }

  lemma Quotient(a: nat, n: nat)
    requires n > 0
    ensures Times(a / n, n) <= a < Times(a / n + 1, n)
  {
    var q, r := a / n, a % n;
    assert a == q * n + r;
    hide Times;
    TimesStep(q + 1, n);
    assert Times(q, n) == q * n by {
      TimesIs(q, n);
    }
  }

  lemma {:induction false} BoundaryBound(data: string, size: nat, most: nat, i: nat)
    requires ShortLines(data, most)
    requires Times(i, size + most) <= |data| + most
    ensures Boundary(data, size, i) <= Times(i, size + most)
  {
    hide CutAfter, ShortLines, Times;
    TimesStep(i, size + most);
    if i > 0 {
      BoundaryBound(data, size, most, i - 1);
      CutBound(data, Boundary(data, size, i - 1) + size, most);
    }
  }

  lemma RoomForCuts(chunkNum: nat, size: nat, most: nat, length: nat)
    requires Times(size, chunkNum) <= length && Times(chunkNum - 2, most) <= size
    ensures Times(chunkNum - 2, size + most) + size <= length
  {
    hide Times;
    TimesSum(chunkNum - 2, size, most);
    TimesStep(chunkNum, size);
    TimesStep(chunkNum - 1, size);
    TimesSum(size, chunkNum, 0);
  }

  lemma NominalProduct(length: nat, n: nat)
    requires n > 0
    ensures Times(Nominal(length, n), n) <= length
  {
    hide Times;
    Quotient(length, n);
  }

  lemma CutsFitIf(data: string, n: nat, most: nat)
    requires n > 0 && ShortLines(data, most) && Times(n - 2, most) <= Nominal(|data|, n)
    ensures CutsFit(data, n)
  {
    hide CutAfter, ShortLines, Nominal, Boundary, Times;
    if n > 1 {
      NominalProduct(|data|, n);
      RoomForCuts(n, Nominal(|data|, n), most, |data|);
      BoundaryBound(data, Nominal(|data|, n), most, n - 2);
    }
  }

  /** If no line is longer than `most` bytes and chunkNum - 2 such lines fit in a nominal
      chunk, the chunks tile the file. */
  lemma ShortLinesFit(data: string, chunkNum: nat, most: nat)
    requires chunkNum > 0 && ShortLines(data, most)
    requires (chunkNum - 2) * most <= Nominal(|data|, chunkNum)
    ensures CutsFit(data, chunkNum)
  {
    TimesIs(chunkNum - 2, most);
    hide *;
    CutsFitIf(data, chunkNum, most);
  }

  const DATA_SIZE := 1024 * 1024 * 200

  function ChunkNum(length: nat): nat {
    if length > DATA_SIZE then length / DATA_SIZE else 1
  }

  /** A file is cut into as many chunks as DATA_SIZE goes into its length, and at least one. */
  lemma ChunkNumMeaning(length: nat)
    ensures DATA_SIZE == 209715200
    ensures var n := ChunkNum(length);
            if length <= DATA_SIZE then n == 1 else n * DATA_SIZE <= length < (n + 1) * DATA_SIZE
  {
  }

  lemma ChunkNumPositive(length: nat)
    ensures ChunkNum(length) > 0
  {
  }

  lemma QuotientAtLeast(a: nat, n: nat, d: nat)
    requires n > 0
    ensures Times(d, n) <= a ==> d <= a / n
  {
    hide Times;
    Quotient(a, n);
    if a / n < d {
      Product(a / n + 1, d, n);
    }
  }

  lemma DivideBack(a: nat, d: nat)
    requires 0 < d <= a
    ensures a / d > 0 && a / (a / d) >= d
  {
    hide Times;
    Quotient(a, d);
    TimesStep(1, d);
    QuotientAtLeast(a, d, 1);
    TimesSum(a / d, d, 0);
    QuotientAtLeast(a, a / d, d);
  }

  /** With the chosen number of chunks, a nominal chunk of a large file is at least DATA_SIZE. */
  lemma NominalSize(length: nat)
    requires length > DATA_SIZE
    ensures ChunkNum(length) > 0 && Nominal(length, ChunkNum(length)) >= DATA_SIZE
  {
    DivideBack(length, DATA_SIZE);
  }

  lemma NominalFits(length: nat, n: nat)
    requires n > 0
    ensures Nominal(length, n) <= length
  {
    hide Times, Nominal;
    NominalProduct(length, n);
    TimesSum(Nominal(length, n), n, 0);
    Product(1, n, Nominal(length, n));
    TimesStep(1, Nominal(length, n));
  }

  lemma EndlessBoundary(data: string, size: nat)
    requires '\n' !in data && 0 < size <= |data|
    ensures Boundary(data, size, 1) == |data|
  {
    assert Boundary(data, size, 0) == 0;
    EolUnique(data, size, |data|, |data|);
  }

  /** One endless line in a file large enough for three chunks breaks the tiling. */
  lemma EndlessLineNeverFits(data: string)
    requires '\n' !in data && ChunkNum(|data|) >= 3
    ensures !CutsFit(data, ChunkNum(|data|))
  {
    var n := ChunkNum(|data|);
    var size := Nominal(|data|, n);
    NominalSize(|data|);
    NominalFits(|data|, n);
    hide ChunkNum, Nominal;
    EndlessBoundary(data, size);
    BoundaryMonotone(data, size, 1, n - 2);
  }
}

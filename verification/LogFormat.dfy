/** What a log query asks for (`log/encoder/text_query.go`): lines, parsed entries and filters.
    The layout decoder is a parameter, `clock`: it turns a 24-byte text into a time, or fails. */
module LogFormat {
  import opened Strings

  type Clock = string -> Option<int>
  type Entry = map<string, string>

  const STAMP := 24      // bytes of a timestamp
  const ZERO_TIME := 0   // the time a failed parse leaves behind
  const TAB := "\t"      // the default separator

  datatype Request = Request(
    from: string, to: string,
    level: Option<string>, message: Option<string>, separator: Option<string>,
    fieldNames: seq<string>, filters: map<string, Option<string>>)

  function ParseTime(clock: Clock, b: string): Option<int> {
    if |b| < STAMP then None else clock(b[..STAMP])
  }

  function TrimBlank(s: string): (t: string)
    ensures t != "" ==> !IsBlank(t[0]) && !IsBlank(t[|t| - 1])
  {
    if s != "" && IsBlank(s[0]) then TrimBlank(s[1..])
    else if s != "" && IsBlank(s[|s| - 1]) then TrimBlank(s[..|s| - 1])
    else s
  }

  predicate AllBlank(s: string) { forall i :: 0 <= i < |s| ==> IsBlank(s[i]) }

  lemma BlankInFront(c: char, rest: string)
    requires IsBlank(c)
    ensures TrimBlank([c] + rest) == TrimBlank(rest)
  {
    assert ([c] + rest)[1..] == rest;
  }

  lemma BlankBehind(rest: string, c: char)
    requires IsBlank(c) && rest != "" && !IsBlank(rest[0])
    ensures TrimBlank(rest + [c]) == TrimBlank(rest)
  {
    assert (rest + [c])[..|rest|] == rest;
  }

  /** Trimming takes the blanks off both ends and nothing else. */
  lemma {:induction false} TrimBlankMeaning(left: string, text: string, right: string)
    requires AllBlank(left) && AllBlank(right)
    requires text != "" ==> !IsBlank(text[0]) && !IsBlank(text[|text| - 1])
    ensures TrimBlank(left + text + right) == text
    decreases |left| + |right|
  {
    assert TrimBlank(text) == text;
    hide TrimBlank, IsBlank;
    if left != "" {
      TrimBlankMeaning(left[1..], text, right);
      BlankInFront(left[0], left[1..] + text + right);
      assert left + text + right == [left[0]] + (left[1..] + text + right);
    } else if right != "" && text != "" {
      var k := |right| - 1;
      TrimBlankMeaning(left, text, right[..k]);
      BlankBehind(left + text + right[..k], right[k]);
      assert left + text + right == left + text + right[..k] + [right[k]];
    } else if right != "" {
      TrimBlankMeaning(left, text, right[1..]);
      BlankInFront(right[0], left + text + right[1..]);
      assert left + text + right == [right[0]] + (left + text + right[1..]);
    } else {
      assert left + text + right == text;
    }
  }

  /** A request bound; a text the parser rejects silently becomes the zero time. */
  function Bound(clock: Clock, text: string): int {
    match ParseTime(clock, TrimBlank(text))
    case Some(t) => t
    case None => ZERO_TIME
  }

  /** A bound is the time its text decodes to, blanks around it apart. */
  lemma BoundMeaning(clock: Clock, left: string, text: string, right: string)
    requires AllBlank(left) && AllBlank(right) && |text| >= STAMP
    requires !IsBlank(text[0]) && !IsBlank(text[|text| - 1])
    ensures Bound(clock, left + text + right) ==
            if clock(text[..STAMP]).Some? then clock(text[..STAMP]).value else 0
  {
    TrimBlankMeaning(left, text, right);
  }

  datatype Query = Query(clock: Clock, req: Request) {
    function Sep(): string { if req.separator.Some? then req.separator.value else TAB }
    function From(): int { Bound(clock, req.from) }
    function To(): int { Bound(clock, req.to) }
  }

  // ---------- Lines ----------

  ghost predicate LineStart(data: string, p: int) {
    0 <= p <= |data| && (p == 0 || data[p - 1] == '\n')
  }

  /** The first newline in data[p..e], or e. */
  function Eol(data: string, p: nat, e: nat): (n: nat)
    requires p <= e <= |data|
    ensures p <= n <= e && (n < e ==> data[n] == '\n')
    ensures forall j :: p <= j < n ==> data[j] != '\n'
    decreases e - p
  {
    if p == e || data[p] == '\n' then p else Eol(data, p + 1, e)
  }

  /** The lines of data[p..e], without their newlines; a last line may lack one. */
  function LinesIn(data: string, p: nat, e: nat): (lines: seq<string>)
    requires e <= |data|
    ensures p < e ==> |lines| > 0
    decreases e - p
  {
    if p >= e then []
    else
      var n := Eol(data, p, e);
      [data[p..n]] + LinesIn(data, n + 1, e)
  }

  lemma EolUnique(data: string, p: nat, e: nat, n: nat)
    requires p <= n <= e <= |data| && (forall j :: p <= j < n ==> data[j] != '\n') && (n < e ==> data[n] == '\n')
    ensures Eol(data, p, e) == n
  {
  }

  lemma EndsBefore(data: string, p: nat, m: nat, e: nat)
    requires p < m <= e <= |data| && LineStart(data, m)
    ensures Eol(data, p, e) < m && Eol(data, p, m) == Eol(data, p, e)
  {
    EolUnique(data, p, m, Eol(data, p, e));
  }

  lemma LinesFirst(data: string, p: nat, e: nat)
    requires p < e <= |data|
    ensures LinesIn(data, p, e) == [data[p..Eol(data, p, e)]] + LinesIn(data, Eol(data, p, e) + 1, e)
  {
    hide Eol;
  }

  lemma {:induction false} LinesSplit(data: string, p: nat, m: nat, e: nat)
    requires p <= m <= e <= |data| && (p == m || LineStart(data, m))
    ensures LinesIn(data, p, e) == LinesIn(data, p, m) + LinesIn(data, m, e)
    decreases m - p
  {
    if p < m {
      var n := Eol(data, p, e);
      EndsBefore(data, p, m, e);
      LinesSplit(data, n + 1, m, e);
      LinesFirst(data, p, e);
      LinesFirst(data, p, m);
      hide *;
      var first, rest := [data[p..n]], LinesIn(data, n + 1, m);
      assert first + (rest + LinesIn(data, m, e)) == first + rest + LinesIn(data, m, e);
    } else {
      assert LinesIn(data, p, m) == [];
    }
  }

  // ---------- One line ----------

  /** The first `n` names paired with the first `n` parts; a later duplicate name wins. */
  function Fields(names: seq<string>, parts: seq<string>, n: nat): (entry: Entry)
    requires n <= |names| && n <= |parts|
  {
    if n == 0 then map[]
    else
      var entry := Fields(names, parts, n - 1);
      if names[n - 1] == "" then entry else entry[names[n - 1] := parts[n - 1]]
  }

  /** A field holds the part at the last position its name stands at. */
  lemma {:induction false} FieldMeaning(names: seq<string>, parts: seq<string>, n: nat, k: nat)
    requires n <= |names| && n <= |parts| && k < n
    requires names[k] != "" && names[k] !in names[k + 1..n]
    ensures names[k] in Fields(names, parts, n) && Fields(names, parts, n)[names[k]] == parts[k]
    decreases n
  {
    if k < n - 1 {
      assert names[n - 1] == names[k + 1..n][n - 1 - (k + 1)];
      assert names[k + 1..n] == names[k + 1..n - 1] + [names[n - 1]];
      FieldMeaning(names, parts, n - 1, k);
    }
  }

  lemma {:induction false} FieldFromPart(names: seq<string>, parts: seq<string>, n: nat, name: string)
    requires n <= |names| && n <= |parts|
    ensures name in Fields(names, parts, n) <==> name != "" && name in names[..n]
    ensures name in Fields(names, parts, n) ==> Fields(names, parts, n)[name] in parts
    decreases n
  {
    if n > 0 {
      FieldFromPart(names, parts, n - 1, name);
      assert names[..n] == names[..n - 1] + [names[n - 1]];
    }
  }

  function ParseLine(line: string, sep: string, names: seq<string>): Option<Entry> {
    var parts := Split(line, sep);
    if |names| == 0 || |parts| < |names| then None else Some(Fields(names, parts, |names|))
  }

  /** The separator of a query is a tab unless the request names one. */
  lemma SepMeaning(q: Query)
    ensures q.Sep() == match q.req.separator
                       case Some(sep) => sep
                       case None => "\t"
  {
  }

  predicate InTime(clock: Clock, entry: Entry, from: int, to: int) {
    var text := Get(entry, "time");
    text != "" ==>
      match ParseTime(clock, text)
      case Some(t) => from <= t <= to
      case None => false
  }

  /** A line of separator-free parts: with enough of them the first parts become the fields, the
      last of equal names winning and empty names dropped; with too few the line is refused. */
  lemma ParseLineMeaning(parts: seq<string>, c: char, names: seq<string>)
    requires |parts| > 0 && forall p :: p in parts ==> c !in p
    ensures var parsed := ParseLine(Join(parts, [c]), [c], names);
            && (parsed.None? <==> |names| == 0 || |parts| < |names|)
            && (parsed.Some? ==>
                  && (forall name :: name in parsed.value <==> name != "" && name in names)
                  && forall k :: 0 <= k < |names| && names[k] in parsed.value && names[k] !in names[k + 1..] ==>
                       parsed.value[names[k]] == parts[k])
  {
    SplitOfJoin(parts, c);
    hide Split, Join, Fields;
    if |names| != 0 && |parts| >= |names| {
      forall name: string
        ensures name in Fields(names, parts, |names|) <==> name != "" && name in names
      {
        FieldFromPart(names, parts, |names|, name);
        assert names[..|names|] == names;
      }
      forall k | 0 <= k < |names| && names[k] != "" && names[k] !in names[k + 1..]
        ensures names[k] in Fields(names, parts, |names|) && Fields(names, parts, |names|)[names[k]] == parts[k]
      {
        assert names[k + 1..|names|] == names[k + 1..];
        FieldMeaning(names, parts, |names|, k);
      }
    }
  }

  /** All filters of the request hold; "message" is a substring test only in its own field. */
  predicate Passes(q: Query, entry: Entry) {
    && InTime(q.clock, entry, q.From(), q.To())
    && (q.req.level.Some? ==> q.req.level.value == Get(entry, "level"))
    && (q.req.message.Some? ==> Contains(Get(entry, "message"), q.req.message.value))
    && forall k :: k in q.req.filters && q.req.filters[k].Some? ==> Get(entry, k) == q.req.filters[k].value
  }

  // ---------- What each part of a request asks for ----------

  lemma FiltersWith(q: Query, k: string, v: string, entry: Entry)
    requires k in q.req.filters ==> q.req.filters[k].None?
    ensures var more := q.req.filters[k := Some(v)];
            (forall j :: j in more && more[j].Some? ==> Get(entry, j) == more[j].value) <==>
            (forall j :: j in q.req.filters && q.req.filters[j].Some? ==> Get(entry, j) == q.req.filters[j].value)
            && Get(entry, k) == v
  {
    var more := q.req.filters[k := Some(v)];
    if forall j :: j in more && more[j].Some? ==> Get(entry, j) == more[j].value {
      assert k in more && more[k] == Some(v);
      forall j | j in q.req.filters && q.req.filters[j].Some?
        ensures Get(entry, j) == q.req.filters[j].value
      {
        assert j in more && more[j] == q.req.filters[j];
      }
    }
  }

  /** One more filter, on any field, keeps the entries that have exactly its value there; an absent
      field counts as empty. */
  lemma FilterAdded(q: Query, k: string, v: string, entry: Entry)
    requires k in q.req.filters ==> q.req.filters[k].None?
    ensures Passes(Query(q.clock, q.req.(filters := q.req.filters[k := Some(v)])), entry) <==>
            Passes(q, entry) && (if k in entry then entry[k] else "") == v
  {
    hide InTime, Contains;
    FiltersWith(q, k, v, entry);
  }

  /** A wanted level keeps the entries of that level. */
  lemma LevelAdded(q: Query, level: string, entry: Entry)
    requires q.req.level.None?
    ensures Passes(Query(q.clock, q.req.(level := Some(level))), entry) <==>
            Passes(q, entry) && (if "level" in entry then entry["level"] else "") == level
  {
    hide InTime, Contains;
  }

  /** A wanted message keeps the entries whose message has it somewhere. */
  lemma MessageAdded(q: Query, text: string, entry: Entry)
    requires q.req.message.None?
    ensures Passes(Query(q.clock, q.req.(message := Some(text))), entry) <==>
            Passes(q, entry) && exists a, b :: (if "message" in entry then entry["message"] else "") == a + text + b
  {
    ContainsIff(Get(entry, "message"), text);
    hide InTime, Contains;
  }

  /** A request for nothing else keeps the entries without a time, and those whose time decodes to
      one between the bounds. */
  lemma OnlyTime(q: Query, entry: Entry)
    requires q.req.level.None? && q.req.message.None? && forall k :: k in q.req.filters ==> q.req.filters[k].None?
    ensures Passes(q, entry) <==>
            "time" !in entry || entry["time"] == ""
            || (|entry["time"]| >= STAMP && q.clock(entry["time"][..STAMP]).Some?
                && Bound(q.clock, q.req.from) <= q.clock(entry["time"][..STAMP]).value <= Bound(q.clock, q.req.to))
  {
    hide Bound;
  }

  // ---------- The filters as documented ----------

  /** As the comment on the filters has it: "message" is a substring test there too. */
  predicate PassesAsDocumented(q: Query, entry: Entry) {
    && InTime(q.clock, entry, q.From(), q.To())
    && (q.req.level.Some? ==> q.req.level.value == Get(entry, "level"))
    && (q.req.message.Some? ==> Contains(Get(entry, "message"), q.req.message.value))
    && forall k :: k in q.req.filters && q.req.filters[k].Some? ==>
         if k == "message" then Contains(Get(entry, k), q.req.filters[k].value)
         else Get(entry, k) == q.req.filters[k].value
  }

  predicate Filters(req: Request, k: string) { k in req.filters && req.filters[k].Some? }

  /** The filters do not fix the time, and do not ask for another level than the request. */
  predicate LeaveRoom(req: Request) {
    !Filters(req, "time") && (Filters(req, "level") && req.level.Some? ==> req.filters["level"] == req.level)
  }

  /** An entry whose message holds the filter's text and the wanted text, and more. */
  function LongMessage(req: Request): Entry
    requires Filters(req, "message")
  {
    var wanted := if req.message.Some? then req.message.value else "";
    var others: Entry := map k | k in req.filters && req.filters[k].Some? :: req.filters[k].value;
    (if req.level.Some? then others["level" := req.level.value] else others)
      ["message" := req.filters["message"].value + "x" + wanted]
  }

  lemma NoTimePasses(q: Query, entry: Entry)
    requires Get(entry, "time") == ""
    ensures InTime(q.clock, entry, q.From(), q.To())
  {
  }

  lemma LongMessageDiffers(q: Query)
    requires Filters(q.req, "message") && LeaveRoom(q.req)
    ensures PassesAsDocumented(q, LongMessage(q.req)) && !Passes(q, LongMessage(q.req))
  {
    hide InTime;
    var entry, v := LongMessage(q.req), q.req.filters["message"].value;
    var text := Get(entry, "message");
    assert OccursAt(text, v, 0) by {
      assert text[0..|v|] == v;
    }
    if q.req.message.Some? {
      var wanted := q.req.message.value;
      assert OccursAt(text, wanted, |v| + 1) by {
        assert text[|v| + 1..|v| + 1 + |wanted|] == wanted;
      }
    }
    assert |text| > |v|;
    NoTimePasses(q, entry);
  }

  /** Code and documentation agree on every entry exactly when "message" is not filtered on. */
  lemma FiltersAsDocumentedIff(q: Query)
    requires LeaveRoom(q.req)
    ensures (forall entry :: Passes(q, entry) <==> PassesAsDocumented(q, entry)) <==> !Filters(q.req, "message")
  {
    if Filters(q.req, "message") {
      LongMessageDiffers(q);
    }
  }

  /** A filter and an entry on which they differ. */
  lemma MessageFilterIsExact(clock: Clock, from: string, to: string, names: seq<string>)
    ensures var q := Query(clock, Request(from, to, None, None, None, names, map["message" := Some("disk")]));
            PassesAsDocumented(q, map["message" := "diskx"]) && !Passes(q, map["message" := "diskx"])
  {
    var q := Query(clock, Request(from, to, None, None, None, names, map["message" := Some("disk")]));
    LongMessageDiffers(q);
    assert "disk" + "x" + "" == "diskx";
    assert LongMessage(q.req) == map["message" := "diskx"];
  }

  function Kept(q: Query, line: string): (entries: seq<Entry>) {
    match ParseLine(line, q.Sep(), q.req.fieldNames)
    case Some(entry) => if Passes(q, entry) then [entry] else []
    case None => []
  }

  // ---------- The naive query ----------

  /** The entries of the lines that parse and pass, in line order. */
  function Select(q: Query, lines: seq<string>): seq<Entry> {
    if lines == [] then [] else Kept(q, lines[0]) + Select(q, lines[1..])
  }

  /** Positions moved up by one. */
  function Up(rest: seq<nat>): (up: seq<nat>)
    ensures |up| == |rest| && forall i :: 0 <= i < |rest| ==> up[i] == rest[i] + 1
  {
    seq(|rest|, i requires 0 <= i < |rest| => rest[i] + 1)
  }

  lemma UpHas(rest: seq<nat>, n: nat)
    ensures n in Up(rest) <==> n > 0 && n - 1 in rest
  {
    if n > 0 && n - 1 in rest {
      var i :| 0 <= i < |rest| && rest[i] == n - 1;
      assert Up(rest)[i] == n;
    }
    if n in Up(rest) {
      var i :| 0 <= i < |rest| && Up(rest)[i] == n;
      assert rest[i] == n - 1;
    }
  }

  function Positions(first: bool, rest: seq<nat>): (all: seq<nat>)
    ensures |all| == |rest| + if first then 1 else 0
  {
    (if first then [0] else []) + Up(rest)
  }

  lemma PositionsHave(first: bool, rest: seq<nat>, n: nat)
    ensures n in Positions(first, rest) <==> if n == 0 then first else n - 1 in rest
  {
    UpHas(rest, n);
    hide Up;
  }

  lemma PositionsGrow(first: bool, rest: seq<nat>)
    requires forall i, j :: 0 <= i < j < |rest| ==> rest[i] < rest[j]
    ensures var all := Positions(first, rest); forall i, j :: 0 <= i < j < |all| ==> all[i] < all[j]
  {
  }

  lemma PositionsAt(first: bool, rest: seq<nat>, i: nat)
    requires i < |Positions(first, rest)|
    ensures Positions(first, rest)[i] == if !first then rest[i] + 1 else if i == 0 then 0 else rest[i - 1] + 1
  {
  }

  lemma KeptIs(q: Query, line: string)
    ensures match ParseLine(line, q.Sep(), q.req.fieldNames)
            case Some(entry) => Kept(q, line) == if Passes(q, entry) then [entry] else []
            case None => Kept(q, line) == []
  {
  }

  /** The naive query takes, in order, the lines that parse into an entry that passes, and no
      others: `from` says where each entry comes from. */
  lemma {:induction false} SelectMeaning(q: Query, lines: seq<string>) returns (from: seq<nat>)
    ensures |from| == |Select(q, lines)|
    ensures forall i :: 0 <= i < |from| ==>
              from[i] < |lines| && ParseLine(lines[from[i]], q.Sep(), q.req.fieldNames) == Some(Select(q, lines)[i])
    ensures forall i, j :: 0 <= i < j < |from| ==> from[i] < from[j]
    ensures forall n :: 0 <= n < |lines| ==>
              (n in from <==> match ParseLine(lines[n], q.Sep(), q.req.fieldNames)
                              case Some(entry) => Passes(q, entry)
                              case None => false)
    decreases |lines|
  {
    hide ParseLine, Passes, Query.Sep, Kept, Positions;
    from := [];
    if lines != [] {
      var rest := SelectMeaning(q, lines[1..]);
      var kept := Kept(q, lines[0]);
      KeptIs(q, lines[0]);
      from := Positions(kept != [], rest);
      PositionsGrow(kept != [], rest);
      assert Select(q, lines) == kept + Select(q, lines[1..]);
      hide Select;
      forall i | 0 <= i < |from|
        ensures from[i] < |lines| && ParseLine(lines[from[i]], q.Sep(), q.req.fieldNames) == Some(Select(q, lines)[i])
      {
        PositionsAt(kept != [], rest, i);
      }
      forall n | 0 <= n < |lines|
        ensures n in from <==> match ParseLine(lines[n], q.Sep(), q.req.fieldNames)
                               case Some(entry) => Passes(q, entry)
                               case None => false
      {
        PositionsHave(kept != [], rest, n);
      }
    }
  }

  function Take<T>(s: seq<T>, n: int): (t: seq<T>)
    ensures |t| <= |s| && (n >= 0 ==> |t| <= n)
  {
    if n <= 0 then [] else if |s| <= n then s else s[..n]
  }

  /** The first `n` elements, or all if there are fewer. */
  lemma TakeMeaning<T>(s: seq<T>, n: int)
    ensures Take(s, n) <= s && |Take(s, n)| == if n <= 0 then 0 else if n < |s| then n else |s|
  {
  }

  lemma {:induction false} SelectSum(q: Query, a: seq<string>, b: seq<string>)
    ensures Select(q, a + b) == Select(q, a) + Select(q, b)
    decreases |a|
  {
    if a == [] {
      assert a + b == b;
    } else {
      assert (a + b)[1..] == a[1..] + b;
      SelectSum(q, a[1..], b);
    }
  }

  lemma TakeSum<T>(a: seq<T>, b: seq<T>, n: int)
    ensures Take(a + b, n) == Take(a, n) + Take(b, n - |Take(a, n)|)
  {
    if n > |a| {
      assert |a + b| > n ==> (a + b)[..n] == a + b[..n - |a|];
    } else if 0 < n {
      assert (a + b)[..n] == a[..n];
    }
  }

  /** A line without the wanted text is never kept. */
  lemma NotKept(q: Query, line: string)
    requires q.req.message.Some? && !Contains(line, q.req.message.value)
    ensures Kept(q, line) == []
  {
    var names, parts := q.req.fieldNames, Split(line, q.Sep());
    if |names| != 0 && |parts| >= |names| {
      var entry := Fields(names, parts, |names|);
      FieldFromPart(names, parts, |names|, "message");
      var text := Get(entry, "message");
      if Contains(text, q.req.message.value) {
        if "message" in entry {
          PartsAreInside(line, q.Sep(), text);
        } else {
          assert OccursAt(line, text, 0);
        }
        ContainsTrans(line, text, q.req.message.value);
      }
    }
  }
}

/** The event registry (`observable/helpers.go`, `observable/observable.go`) as operations on
    lists of callbacks: removal while ranging, snapshots, switching off, dispatching. */
module Observables {
  import opened Strings

  const ALL_EVENTS := "*"

  type Registry<T> = map<string, seq<T>>

  function Listed<T>(reg: Registry<T>, s: string): seq<T> {
    if s in reg then reg[s] else []
  }

  // ---------- Removing while ranging ----------

  ghost predicate Differ<T>(list: seq<T>, fnOf: T -> int) {
    forall i, j :: 0 <= i < j < |list| ==> fnOf(list[i]) != fnOf(list[j])
  }

  /** What is left of a list when every element that matches is deleted and the range then
      steps over the one that slid into its place. */
  function Sweep<T>(s: seq<T>, fnOf: T -> int, fn: int): (left: seq<T>)
    ensures |left| <= |s| && (|s| >= 2 ==> left != [])
    decreases |s|
  {
    if s == [] then []
    else if fnOf(s[0]) != fn then [s[0]] + Sweep(s[1..], fnOf, fn)
    else if |s| == 1 then []
    else [s[1]] + Sweep(s[2..], fnOf, fn)
  }

  /** Every second element of a run. */
  function Seconds<T>(run: seq<T>): (r: seq<T>)
    ensures |r| == |run| / 2 && forall i :: 0 <= i < |r| ==> r[i] == run[2 * i + 1]
  {
    seq(|run| / 2, i requires 0 <= i < |run| / 2 => run[2 * i + 1])
  }

  lemma SweepPair<T>(x: T, y: T, rest: seq<T>, fnOf: T -> int, fn: int)
    requires fnOf(x) == fn
    ensures Sweep([x, y] + rest, fnOf, fn) == [y] + Sweep(rest, fnOf, fn)
  {
    assert ([x, y] + rest)[2..] == rest;
  }

  lemma OneMatch<T>(x: T, fnOf: T -> int, fn: int)
    requires fnOf(x) == fn
    ensures Sweep([x], fnOf, fn) == [] && Seconds([x]) == []
  {
  }

  lemma NoneToSweep<T>(fnOf: T -> int, fn: int)
    ensures Sweep<T>([], fnOf, fn) == [] && Seconds<T>([]) == []
  {
  }

  lemma SecondsStep<T>(run: seq<T>)
    requires |run| >= 2
    ensures Seconds(run) == [run[1]] + Seconds(run[2..])
  {
  }

  /** An element that does not match stays. */
  lemma SweepKeeps<T>(x: T, rest: seq<T>, fnOf: T -> int, fn: int)
    requires fnOf(x) != fn
    ensures Sweep([x] + rest, fnOf, fn) == [x] + Sweep(rest, fnOf, fn) && Sweep<T>([], fnOf, fn) == []
  {
    assert ([x] + rest)[1..] == rest;
  }

  /** Of a run of matches every second one survives, and what follows the run is not disturbed. */
  lemma {:induction false} SweepOfRun<T>(run: seq<T>, rest: seq<T>, fnOf: T -> int, fn: int)
    requires forall i :: 0 <= i < |run| ==> fnOf(run[i]) == fn
    requires rest != [] ==> fnOf(rest[0]) != fn
    ensures Sweep(run + rest, fnOf, fn) == Seconds(run) + Sweep(rest, fnOf, fn)
    decreases |run|
  {
    NoneToSweep(fnOf, fn);
    hide Sweep, Seconds;
    if run == [] {
      assert run + rest == rest && Seconds(run) + Sweep(rest, fnOf, fn) == Sweep(rest, fnOf, fn);
    } else if |run| == 1 {
      assert run == [run[0]];
      OneMatch(run[0], fnOf, fn);
      if rest == [] {
        assert run + rest == run;
      } else {
        SweepPair(run[0], rest[0], rest[1..], fnOf, fn);
        assert run + rest == [run[0], rest[0]] + rest[1..] && rest == [rest[0]] + rest[1..];
        SweepKeeps(rest[0], rest[1..], fnOf, fn);
      }
    } else {
      SweepPair(run[0], run[1], run[2..] + rest, fnOf, fn);
      assert run + rest == [run[0], run[1]] + (run[2..] + rest);
      SweepOfRun(run[2..], rest, fnOf, fn);
      SecondsStep(run);
      assert [run[1]] + Seconds(run[2..]) + Sweep(rest, fnOf, fn) == [run[1]] + (Seconds(run[2..]) + Sweep(rest, fnOf, fn));
    }
  }

  /** Deletion as intended: every match goes, the rest keeps its order. */
  function Without<T>(s: seq<T>, fnOf: T -> int, fn: int): (left: seq<T>)
    ensures forall x :: x in left ==> x in s && fnOf(x) != fn
    decreases |s|
  {
    if s == [] then []
    else if fnOf(s[0]) == fn then Without(s[1..], fnOf, fn)
    else [s[0]] + Without(s[1..], fnOf, fn)
  }

  predicate SideBySide<T>(s: seq<T>, fnOf: T -> int, fn: int) {
    exists i :: 0 <= i < |s| - 1 && fnOf(s[i]) == fn && fnOf(s[i + 1]) == fn
  }

  /** The last element matches, and so does an earlier one: the range later reads the stale copy
      of the last element past the end of the shortened list, and slicing there panics. */
  predicate RangePanics<T>(s: seq<T>, fnOf: T -> int, fn: int) {
    |s| > 0 && fnOf(s[|s| - 1]) == fn && exists i :: 0 <= i < |s| - 1 && fnOf(s[i]) == fn
  }

  lemma NotSideBySide<T>(s: seq<T>, k: nat, fnOf: T -> int, fn: int)
    requires k <= |s| && !SideBySide(s, fnOf, fn)
    ensures !SideBySide(s[k..], fnOf, fn)
  {
    forall i | 0 <= i < |s[k..]| - 1
      ensures !(fnOf(s[k..][i]) == fn && fnOf(s[k..][i + 1]) == fn)
    {
      assert s[k..][i] == s[k + i] && s[k..][i + 1] == s[k + i + 1];
    }
  }

  lemma {:induction false} SweepLeaves<T>(s: seq<T>, fnOf: T -> int, fn: int) returns (x: T)
    requires SideBySide(s, fnOf, fn)
    ensures x in Sweep(s, fnOf, fn) && fnOf(x) == fn
    decreases |s|
  {
    var i :| 0 <= i < |s| - 1 && fnOf(s[i]) == fn && fnOf(s[i + 1]) == fn;
    if fnOf(s[0]) != fn {
      assert s[1..][i - 1] == s[i] && s[1..][i] == s[i + 1];
      x := SweepLeaves(s[1..], fnOf, fn);
    } else if fnOf(s[1]) == fn {
      x := s[1];
    } else {
      assert s[2..][i - 2] == s[i] && s[2..][i - 1] == s[i + 1];
      x := SweepLeaves(s[2..], fnOf, fn);
    }
  }

  /** Deletion as intended, element by element. */
  lemma WithoutMeaning<T>(x: T, rest: seq<T>, fnOf: T -> int, fn: int)
    ensures Without([x] + rest, fnOf, fn) == (if fnOf(x) == fn then [] else [x]) + Without(rest, fnOf, fn)
    ensures Without<T>([], fnOf, fn) == []
  {
    assert ([x] + rest)[1..] == rest;
  }

  /** The loop deletes what it should exactly when no two matches stand side by side. */
  lemma {:induction false} SweepIff<T>(s: seq<T>, fnOf: T -> int, fn: int)
    ensures Sweep(s, fnOf, fn) == Without(s, fnOf, fn) <==> !SideBySide(s, fnOf, fn)
    decreases |s|
  {
    if SideBySide(s, fnOf, fn) {
      var x := SweepLeaves(s, fnOf, fn);
    } else if s != [] {
      if fnOf(s[0]) != fn {
        NotSideBySide(s, 1, fnOf, fn);
        SweepIff(s[1..], fnOf, fn);
      } else if |s| > 1 {
        NotSideBySide(s, 2, fnOf, fn);
        SweepIff(s[2..], fnOf, fn);
        assert fnOf(s[1]) != fn;
        assert s[1..][1..] == s[2..];
      }
    }
  }

  /** With pairwise distinct functions the loop is right: it neither panics nor leaves a match. */
  lemma DistinctIsSafe<T>(s: seq<T>, fnOf: T -> int, fn: int)
    requires Differ(s, fnOf)
    ensures Sweep(s, fnOf, fn) == Without(s, fnOf, fn) && !RangePanics(s, fnOf, fn)
  {
    SweepIff(s, fnOf, fn);
  }

  function Itself(x: int): int { x }

  /** Of two neighbours that match, one survives. */
  lemma NeighbourSurvives()
    ensures Sweep([7, 7, 8], Itself, 7) == [7, 8] && Without([7, 7, 8], Itself, 7) == [8]
  {
    assert [7, 7, 8][2..] == [8] && [8][1..] == [];
    assert [7, 7, 8][1..] == [7, 8] && [7, 8][1..] == [8];
  }

  /** With a match at the end and another before it, the loop panics. */
  lemma MatchAtTheEndPanics()
    ensures RangePanics([7, 7], Itself, 7)
  {
    assert Itself([7, 7][0]) == 7;
  }

  /** `append(list[:i], list[i+1:]...)` on the array behind a slice of length `n`. */
  method DeleteAt<T>(cbs: array<T>, i: nat, n: nat)
    requires i < n <= cbs.Length
    modifies cbs
    ensures forall k :: 0 <= k < i || n - 1 <= k < cbs.Length ==> cbs[k] == old(cbs[k])
    ensures forall k :: i <= k < n - 1 ==> cbs[k] == old(cbs[k + 1])
  {
    forall k | i <= k < n - 1 {
      cbs[k] := cbs[k + 1];
    }
  }

  /** One turn of the range at a position inside the shortened list. */
  lemma SweepTurn<T>(whole: seq<T>, kept: seq<T>, rest: seq<T>, fnOf: T -> int, fn: int)
    requires rest != [] && whole == kept + Sweep(rest, fnOf, fn)
    ensures fnOf(rest[0]) != fn ==> whole == kept + [rest[0]] + Sweep(rest[1..], fnOf, fn)
    ensures fnOf(rest[0]) == fn && |rest| == 1 ==> whole == kept
    ensures fnOf(rest[0]) == fn && |rest| > 1 ==> whole == kept + [rest[1]] + Sweep(rest[2..], fnOf, fn)
  {
  }

  lemma SweepDone<T>(a: seq<T>, i: nat, n: nat, fnOf: T -> int, fn: int)
    requires n <= |a|
    ensures i == n ==> a[..i] + Sweep(a[i..n], fnOf, fn) == a[..n]
  {
  }

  /** The loop that deletes `fn` while it ranges over the list: the range keeps reading the
      array behind the slice up to its first length; `n` is the length of the shrinking list. */
  method RemoveInPlace<T>(cbs: array<T>, fnOf: T -> int, fn: int) returns (n: nat, panicked: bool)
    modifies cbs
    ensures n <= cbs.Length && cbs[..n] == Sweep(old(cbs[..]), fnOf, fn)
    ensures panicked <==> RangePanics(old(cbs[..]), fnOf, fn)
  {
    hide Sweep;
    ghost var s := cbs[..];
    var len := cbs.Length;
    n, panicked := len, false;
    ghost var first := len;
    assert cbs[..0] == [] && cbs[0..n] == s && [] + Sweep(s, fnOf, fn) == Sweep(s, fnOf, fn);
    for i := 0 to len
      invariant n <= len
      invariant i <= n ==> Sweep(s, fnOf, fn) == cbs[..i] + Sweep(cbs[i..n], fnOf, fn)
      invariant i > n ==> Sweep(s, fnOf, fn) == cbs[..n]
      invariant forall j :: i <= j < len && n - 1 <= j ==> cbs[j] == s[len - 1]
      invariant n == len ==> first == len && cbs[..] == s && forall j :: 0 <= j < i ==> fnOf(s[j]) != fn
      invariant n < len ==> 0 <= first < i && first < len && fnOf(s[first]) == fn && forall j :: 0 <= j < first ==> fnOf(s[j]) != fn
      invariant first < len - 1 && i == len ==> fnOf(s[len - 1]) != fn
    {
      if i < n {
        SweepTurn(Sweep(s, fnOf, fn), cbs[..i], cbs[i..n], fnOf, fn);
      }
      if fnOf(cbs[i]) == fn {
        if i + 1 > n {
          SweepDone(cbs[..], i, n, fnOf, fn);
          return n, true;
        }
        ghost var kept, rest := cbs[..i], cbs[i..n];
        if n == len {
          first := i;
        }
        DeleteAt(cbs, i, n);
        n := n - 1;
        assert cbs[..i] == kept;
        if i < n {
          assert cbs[..i + 1] == kept + [rest[1]];
          assert cbs[i + 1..n] == rest[2..];
        }
      } else if i < n {
        assert cbs[..i + 1] == cbs[..i] + [cbs[i..n][0]];
        assert cbs[i + 1..n] == cbs[i..n][1..];
      } else {
        SweepDone(cbs[..], i, n, fnOf, fn);
      }
    }
    SweepDone(cbs[..], len, n, fnOf, fn);
  }

  // ---------- The registry ----------

  /** One new callback per name, each at the end of its list. */
  function AddAll<T>(reg: Registry<T>, names: seq<string>, made: seq<T>): Registry<T>
    requires |names| == |made|
  {
    if names == [] then reg
    else
      var k := |names| - 1;
      var before := AddAll(reg, names[..k], made[..k]);
      before[names[k] := Listed(before, names[k]) + [made[k]]]
  }

  function RemoveFrom<T>(reg: Registry<T>, s: string, fnOf: T -> int, fn: int): Registry<T> {
    var left := Sweep(Listed(reg, s), fnOf, fn);
    if left == [] then reg - {s} else reg[s := left]
  }

  function Cleaned<T>(reg: Registry<T>, s: string): Registry<T> {
    if s == ALL_EVENTS then map[] else reg - {s}
  }

  lemma CleanedMeaning<T>(reg: Registry<T>, s: string, cleaned: Registry<T>)
    requires forall e :: e in cleaned <==> e in reg && e != s && s != ALL_EVENTS
    requires forall e :: e in cleaned ==> cleaned[e] == reg[e]
    ensures cleaned == Cleaned(reg, s)
  {
  }

  ghost predicate NoEmptyLists<T>(reg: Registry<T>) {
    forall s :: s in reg ==> reg[s] != []
  }

  lemma AddNone<T>(reg: Registry<T>, names: seq<string>, made: seq<T>)
    requires |names| == |made| == 0
    ensures AddAll(reg, names, made) == reg
  {
  }

  lemma AddOne<T>(reg: Registry<T>, names: seq<string>, i: nat, made: seq<T>, cb: T)
    requires |made| == i < |names|
    ensures var before := AddAll(reg, names[..i], made);
            AddAll(reg, names[..i + 1], made + [cb]) == before[names[i] := Listed(before, names[i]) + [cb]]
  {
    assert names[..i + 1][..i] == names[..i] && (made + [cb])[..i] == made;
  }

  lemma {:induction false} AddKeepsLists<T>(reg: Registry<T>, names: seq<string>, made: seq<T>)
    requires |names| == |made| && NoEmptyLists(reg)
    ensures NoEmptyLists(AddAll(reg, names, made))
    decreases |names|
  {
    if names != [] {
      AddKeepsLists(reg, names[..|names| - 1], made[..|names| - 1]);
    }
  }

  function NewFor<T>(names: seq<string>, made: seq<T>, s: string): seq<T>
    requires |names| == |made|
  {
    if names == [] then []
    else
      var k := |names| - 1;
      NewFor(names[..k], made[..k], s) + if names[k] == s then [made[k]] else []
  }

  /** The new callbacks of an event are those made for its name, in the order of the names: `from`
      says which. */
  lemma {:induction false} NewForMeaning<T>(names: seq<string>, made: seq<T>, s: string) returns (from: seq<nat>)
    requires |names| == |made|
    ensures |from| == |NewFor(names, made, s)|
    ensures forall i :: 0 <= i < |from| ==>
              from[i] < |names| && names[from[i]] == s && made[from[i]] == NewFor(names, made, s)[i]
    ensures forall i, j :: 0 <= i < j < |from| ==> from[i] < from[j]
    ensures forall n :: 0 <= n < |names| && names[n] == s ==> n in from
    decreases |names|
  {
    from := [];
    if names != [] {
      var k := |names| - 1;
      var front := NewForMeaning(names[..k], made[..k], s);
      var early, all := NewFor(names[..k], made[..k], s), NewFor(names, made, s);
      assert all == early + if names[k] == s then [made[k]] else [];
      hide NewFor;
      from := front + if names[k] == s then [k] else [];
      forall i | 0 <= i < |from|
        ensures from[i] < |names| && names[from[i]] == s && made[from[i]] == all[i]
      {
        if i < |front| {
          assert names[..k][front[i]] == names[front[i]] && made[..k][front[i]] == made[front[i]];
        }
      }
      forall n | 0 <= n < |names| && names[n] == s
        ensures n in from
      {
        if n < k {
          assert names[..k][n] == s && n in front;
        }
      }
    }
  }

  /** What is in the list of an event after an addition: what was there, then the new callbacks
      of that event. */
  lemma {:induction false} AddedAtEnd<T>(reg: Registry<T>, names: seq<string>, made: seq<T>, s: string)
    requires |names| == |made|
    ensures Listed(AddAll(reg, names, made), s) == Listed(reg, s) + NewFor(names, made, s)
    decreases |names|
  {
    if names == [] {
      assert Listed(reg, s) + [] == Listed(reg, s);
    } else {
      AddedAtEnd(reg, names[..|names| - 1], made[..|names| - 1], s);
    }
  }

  // ---------- Snapshots ----------

  /** What a dispatch is handed: once-callbacks that are spent are left out, the others are
      spent as they are taken. */
  function Snapshot<T(==)>(list: seq<T>, unique: T -> bool, spent: set<T>): (cbs: seq<T>)
    ensures forall x :: x in cbs ==> x in list && !(unique(x) && x in spent)
  {
    if list == [] then []
    else if unique(list[0]) && list[0] in spent then Snapshot(list[1..], unique, spent)
    else [list[0]] + Snapshot(list[1..], unique, if unique(list[0]) then spent + {list[0]} else spent)
  }

  function Unspent<T(==)>(list: seq<T>, unique: T -> bool, spent: set<T>): seq<T> {
    if list == [] then []
    else (if unique(list[0]) && list[0] in spent then [] else [list[0]]) + Unspent(list[1..], unique, spent)
  }

  lemma SnapshotStep<T>(list: seq<T>, unique: T -> bool, spent: set<T>)
    ensures list == [] ==> Snapshot(list, unique, spent) == []
    ensures list != [] && unique(list[0]) && list[0] in spent ==>
              Snapshot(list, unique, spent) == Snapshot(list[1..], unique, spent)
    ensures list != [] && !(unique(list[0]) && list[0] in spent) ==>
              Snapshot(list, unique, spent) ==
              [list[0]] + Snapshot(list[1..], unique, if unique(list[0]) then spent + {list[0]} else spent)
  {
  }

  /** No once-callback is handed out twice, not even by one dispatch of a list that repeats it. */
  lemma {:induction false} SnapshotOnce<T>(list: seq<T>, unique: T -> bool, spent: set<T>, i: nat, j: nat)
    requires i < j < |Snapshot(list, unique, spent)|
    requires Snapshot(list, unique, spent)[i] == Snapshot(list, unique, spent)[j]
    ensures !unique(Snapshot(list, unique, spent)[i])
    decreases |list|
  {
    var snap := Snapshot(list, unique, spent);
    if unique(list[0]) && list[0] in spent {
      SnapshotOnce(list[1..], unique, spent, i, j);
    } else {
      var spent' := if unique(list[0]) then spent + {list[0]} else spent;
      var rest := Snapshot(list[1..], unique, spent');
      assert snap[1..] == rest;
      assert snap[j] == rest[j - 1] && rest[j - 1] in rest;
      if i > 0 {
        SnapshotOnce(list[1..], unique, spent', i - 1, j - 1);
      }
    }
  }

  lemma {:induction false} MoreSpent<T>(list: seq<T>, unique: T -> bool, spent: set<T>, x: T)
    requires x !in list
    ensures Unspent(list, unique, spent + {x}) == Unspent(list, unique, spent)
    decreases |list|
  {
    if list != [] {
      MoreSpent(list[1..], unique, spent, x);
    }
  }

  /** From a list without repetitions a dispatch gets every callback that is not spent, in
      registration order. */
  lemma {:induction false} SnapshotIsRest<T>(list: seq<T>, unique: T -> bool, spent: set<T>)
    requires forall i, j :: 0 <= i < j < |list| ==> list[i] != list[j]
    ensures Snapshot(list, unique, spent) == Unspent(list, unique, spent)
    decreases |list|
  {
    if list != [] {
      assert list[0] !in list[1..];
      if unique(list[0]) && list[0] !in spent {
        SnapshotIsRest(list[1..], unique, spent + {list[0]});
        MoreSpent(list[1..], unique, spent, list[0]);
      } else {
        SnapshotIsRest(list[1..], unique, spent);
      }
    }
  }

  // ---------- Event names ----------

  /** Unicode white space. */
  predicate IsSpace(c: char) {
    || IsBlank(c) || c == '\U{85}' || c == '\U{a0}' || c == '\U{1680}' || '\U{2000}' <= c <= '\U{200a}'
    || c == '\U{2028}' || c == '\U{2029}' || c == '\U{202f}' || c == '\U{205f}' || c == '\U{3000}'
  }

  function WordEnd(s: string): (k: nat)
    ensures k <= |s| && (s != "" && !IsSpace(s[0]) ==> k > 0)
  {
    if s == "" || IsSpace(s[0]) then 0 else 1 + WordEnd(s[1..])
  }

  /** The space-separated names of an event string. */
  function Words(s: string): seq<string>
    decreases |s|
  {
    if s == "" then []
    else if IsSpace(s[0]) then Words(s[1..])
    else [s[..WordEnd(s)]] + Words(s[WordEnd(s)..])
  }

  lemma {:induction false} WordEndAt(s: string, k: nat)
    requires k <= |s| && (forall i :: 0 <= i < k ==> !IsSpace(s[i])) && (k < |s| ==> IsSpace(s[k]))
    ensures WordEnd(s) == k
    decreases k
  {
    if k > 0 {
      WordEndAt(s[1..], k - 1);
    }
  }

  lemma {:induction false} WordEndIsFirst(s: string)
    ensures WordEnd(s) < |s| ==> IsSpace(s[WordEnd(s)])
    ensures forall i :: 0 <= i < WordEnd(s) ==> !IsSpace(s[i])
    decreases |s|
  {
    if s != "" && !IsSpace(s[0]) {
      WordEndIsFirst(s[1..]);
      assert forall i :: 0 < i < WordEnd(s) ==> s[i] == s[1..][i - 1];
    }
  }

  /** The white space of Unicode, by code point. */
  lemma SpacesAre(c: char)
    ensures IsSpace(c) <==>
            c as int in {0x09, 0x0a, 0x0b, 0x0c, 0x0d, 0x20, 0x85, 0xa0, 0x1680, 0x2000, 0x2001, 0x2002, 0x2003, 0x2004,
                         0x2005, 0x2006, 0x2007, 0x2008, 0x2009, 0x200a, 0x2028, 0x2029, 0x202f, 0x205f, 0x3000}
  {
  }

  lemma NoWords()
    ensures Words("") == []
  {
  }

  lemma WordAlone(w: string)
    requires w != "" && forall c :: c in w ==> !IsSpace(c)
    ensures Words(w) == [w]
  {
    WordEndAt(w, |w|);
    assert w[..|w|] == w && w[|w|..] == "";
  }

  /** The first word does not see what follows the text. */
  lemma FirstWord(a: string, space: char, b: string)
    requires IsSpace(space) && a != "" && !IsSpace(a[0])
    ensures 0 < WordEnd(a) <= |a|
    ensures Words(a) == [a[..WordEnd(a)]] + Words(a[WordEnd(a)..])
    ensures Words(a + [space] + b) == [a[..WordEnd(a)]] + Words(a[WordEnd(a)..] + [space] + b)
  {
    hide IsSpace;
    var s, k := a + [space] + b, WordEnd(a);
    WordEndIsFirst(a);
    WordEndAt(s, k);
    assert s[0] == a[0] && s[..k] == a[..k] && s[k..] == a[k..] + [space] + b;
  }

  /** A space between two texts keeps their words apart. */
  lemma {:induction false} WordsApart(a: string, space: char, b: string)
    requires IsSpace(space)
    ensures Words(a + [space] + b) == Words(a) + Words(b)
    decreases |a|
  {
    hide IsSpace;
    var s := a + [space] + b;
    if a == "" {
      assert s[0] == space && s[1..] == b;
      assert Words(s) == Words(b);
    } else if IsSpace(a[0]) {
      assert s[0] == a[0] && s[1..] == a[1..] + [space] + b;
      WordsApart(a[1..], space, b);
    } else {
      var k := WordEnd(a);
      FirstWord(a, space, b);
      WordsApart(a[k..], space, b);
      assert [a[..k]] + Words(a[k..]) + Words(b) == [a[..k]] + (Words(a[k..]) + Words(b));
    }
  }

  // ---------- Switching off ----------

  ghost predicate AllDiffer<T>(reg: Registry<T>, fnOf: T -> int) {
    forall s :: s in reg ==> Differ(reg[s], fnOf)
  }

  lemma DifferCons<T>(x: T, rest: seq<T>, fnOf: T -> int)
    requires Differ(rest, fnOf) && forall y :: y in rest ==> fnOf(y) != fnOf(x)
    ensures Differ([x] + rest, fnOf)
  {
    forall i | 0 <= i < |rest|
      ensures fnOf(rest[i]) != fnOf(x)
    {
      assert rest[i] in rest;
    }
  }

  lemma DifferTail<T>(s: seq<T>, fnOf: T -> int)
    requires s != [] && Differ(s, fnOf)
    ensures Differ(s[1..], fnOf) && forall y :: y in s[1..] ==> fnOf(y) != fnOf(s[0])
  {
  }

  lemma {:induction false} WithoutDiffers<T>(s: seq<T>, fnOf: T -> int, fn: int)
    requires Differ(s, fnOf)
    ensures Differ(Without(s, fnOf, fn), fnOf)
    ensures forall x :: x in Without(s, fnOf, fn) ==> x in s
    decreases |s|
  {
    if s != [] {
      DifferTail(s, fnOf);
      WithoutDiffers(s[1..], fnOf, fn);
      hide Differ;
      if fnOf(s[0]) != fn {
        DifferCons(s[0], Without(s[1..], fnOf, fn), fnOf);
      }
    }
  }

  lemma {:induction false} WithoutTwice<T>(s: seq<T>, fnOf: T -> int, fn: int)
    ensures Without(Without(s, fnOf, fn), fnOf, fn) == Without(s, fnOf, fn)
    decreases |s|
  {
    if s != [] {
      WithoutTwice(s[1..], fnOf, fn);
    }
  }

  /** Removing one function from one event, when the functions of every event differ. */
  lemma RemoveMeaning<T>(reg: Registry<T>, name: string, fnOf: T -> int, fn: int)
    requires AllDiffer(reg, fnOf)
    ensures !RangePanics(Listed(reg, name), fnOf, fn) && AllDiffer(RemoveFrom(reg, name, fnOf, fn), fnOf)
    ensures forall s :: Listed(RemoveFrom(reg, name, fnOf, fn), s) ==
                        if s == name then Without(Listed(reg, s), fnOf, fn) else Listed(reg, s)
  {
    hide Sweep, Without, RangePanics;
    assert Differ(Listed(reg, name), fnOf);
    DistinctIsSafe(Listed(reg, name), fnOf, fn);
    WithoutDiffers(Listed(reg, name), fnOf, fn);
  }

  function OffNames<T>(reg: Registry<T>, names: seq<string>, fnOf: T -> int, fns: seq<int>): (Registry<T>, bool)
    decreases |names|
  {
    if names == [] then (reg, false)
    else if |fns| == 0 then OffNames(Cleaned(reg, names[0]), names[1..], fnOf, fns)
    else if |fns| > 1 then (reg, true)
    else
      var next := RemoveFrom(reg, names[0], fnOf, fns[0]);
      if RangePanics(Listed(reg, names[0]), fnOf, fns[0]) then (next, true) else OffNames(next, names[1..], fnOf, fns)
  }

  function OffAll<T>(reg: Registry<T>, event: string, fnOf: T -> int, fns: seq<int>): (Registry<T>, bool) {
    if event == ALL_EVENTS then (map[], false) else OffNames(reg, Words(event), fnOf, fns)
  }

  /** Switching off without a function empties the named events, or all of them when "*" is among
      the names. */
  lemma {:induction false} OffWholeEvents<T>(reg: Registry<T>, names: seq<string>, fnOf: T -> int, s: string)
    ensures !OffNames(reg, names, fnOf, []).1
    ensures Listed(OffNames(reg, names, fnOf, []).0, s) ==
            if s in names || ALL_EVENTS in names then [] else Listed(reg, s)
    decreases |names|
  {
    if names != [] {
      OffWholeEvents(Cleaned(reg, names[0]), names[1..], fnOf, s);
    }
  }

  /** With a function, it takes that one from the named events and nothing else, in order. */
  lemma {:induction false} OffOneFunction<T>(reg: Registry<T>, names: seq<string>, fnOf: T -> int, fn: int, s: string)
    requires AllDiffer(reg, fnOf)
    ensures !OffNames(reg, names, fnOf, [fn]).1
    ensures Listed(OffNames(reg, names, fnOf, [fn]).0, s) ==
            if s in names then Without(Listed(reg, s), fnOf, fn) else Listed(reg, s)
    decreases |names|
  {
    hide RemoveFrom, RangePanics, Without, AllDiffer;
    if names != [] {
      RemoveMeaning(reg, names[0], fnOf, fn);
      OffOneFunction(RemoveFrom(reg, names[0], fnOf, fn), names[1..], fnOf, fn, s);
      WithoutTwice(Listed(reg, s), fnOf, fn);
    }
  }

  /** What switching off comes to, from the event string on. */
  lemma OffMeaning<T>(reg: Registry<T>, event: string, fnOf: T -> int, fns: seq<int>)
    ensures event == "*" ==> OffAll(reg, event, fnOf, fns) == (map[], false)
    ensures event != "*" && |fns| == 0 ==>
              var off := OffAll(reg, event, fnOf, fns);
              !off.1 && forall s :: Listed(off.0, s) == if s in Words(event) || "*" in Words(event) then [] else Listed(reg, s)
    ensures event != "*" && |fns| == 1 && AllDiffer(reg, fnOf) ==>
              var off := OffAll(reg, event, fnOf, fns);
              !off.1 && forall s :: Listed(off.0, s) ==
                                    if s in Words(event) then Without(Listed(reg, s), fnOf, fns[0]) else Listed(reg, s)
    ensures event != "*" && |fns| > 1 ==> OffAll(reg, event, fnOf, fns) == (reg, Words(event) != [])
  {
    hide Words, Without, Listed, AllDiffer;
    if event != "*" && |fns| == 0 {
      assert fns == [];
      forall s
        ensures Listed(OffNames(reg, Words(event), fnOf, []).0, s) ==
                if s in Words(event) || ALL_EVENTS in Words(event) then [] else Listed(reg, s)
      {
        OffWholeEvents(reg, Words(event), fnOf, s);
      }
      OffWholeEvents(reg, Words(event), fnOf, "");
    }
    if event != "*" && |fns| == 1 && AllDiffer(reg, fnOf) {
      assert fns == [fns[0]];
      forall s
        ensures Listed(OffNames(reg, Words(event), fnOf, [fns[0]]).0, s) ==
                if s in Words(event) then Without(Listed(reg, s), fnOf, fns[0]) else Listed(reg, s)
      {
        OffOneFunction(reg, Words(event), fnOf, fns[0], s);
      }
      OffOneFunction(reg, Words(event), fnOf, fns[0], "");
    }
  }

  // ---------- Dispatching ----------

  /** How a callback is looked at: its event, its function, and whether it is for one call. */
  datatype Look<!T> = Look(eventOf: T -> string, fnOf: T -> int, unique: T -> bool)

  /** What a dispatch or a trigger leaves: the registry, the once-callbacks spent, the calls made
      in order, and whether a removal panicked. */
  datatype After<T> = After(reg: Registry<T>, spent: set<T>, called: seq<T>, panicked: bool)

  /** Calls `cbs` in turn; each once-callback is removed after its call, and a panic there ends it. */
  function Retire<T>(look: Look<T>, reg: Registry<T>, spent: set<T>, cbs: seq<T>): After<T>
    decreases |cbs|
  {
    if cbs == [] then After(reg, spent, [], false)
    else
      var cb := cbs[0];
      var panics := look.unique(cb) && RangePanics(Listed(reg, look.eventOf(cb)), look.fnOf, look.fnOf(cb));
      var next := if look.unique(cb) then RemoveFrom(reg, look.eventOf(cb), look.fnOf, look.fnOf(cb)) else reg;
      if panics then After(next, spent, [cb], true)
      else
        var rest := Retire(look, next, spent, cbs[1..]);
        rest.(called := [cb] + rest.called)
  }

  function Spend<T(==)>(look: Look<T>, spent: set<T>, cbs: seq<T>): set<T> {
    spent + set c | c in cbs && look.unique(c)
  }

  /** One dispatch: its snapshot spends the once-callbacks in it. */
  function Dispatched<T(==)>(look: Look<T>, reg: Registry<T>, spent: set<T>, s: string): After<T> {
    var cbs := Snapshot(Listed(reg, s), look.unique, spent);
    Retire(look, reg, Spend(look, spent, cbs), cbs)
  }

  /** One dispatch after the other, until one panics. */
  function Dispatches<T(==)>(look: Look<T>, reg: Registry<T>, spent: set<T>, names: seq<string>): After<T>
    decreases |names|
  {
    if names == [] then After(reg, spent, [], false)
    else
      var first := Dispatched(look, reg, spent, names[0]);
      if first.panicked then first
      else
        var rest := Dispatches(look, first.reg, first.spent, names[1..]);
        rest.(called := first.called + rest.called)
  }

  lemma DispatchesStep<T>(look: Look<T>, reg: Registry<T>, spent: set<T>, names: seq<string>)
    ensures names == [] ==> Dispatches(look, reg, spent, names) == After(reg, spent, [], false)
    ensures names != [] ==>
              var first := Dispatched(look, reg, spent, names[0]);
              var rest := Dispatches(look, first.reg, first.spent, names[1..]);
              Dispatches(look, reg, spent, names) ==
              if first.panicked then first else rest.(called := first.called + rest.called)
  {
    hide Dispatched;
  }

  /** The names one trigger dispatches: its words, then the name for all events. */
  function Targets(event: string): seq<string> {
    Words(event) + if event == ALL_EVENTS then [] else [ALL_EVENTS]
  }

  lemma RetireStep<T>(look: Look<T>, reg: Registry<T>, spent: set<T>, cbs: seq<T>)
    ensures cbs == [] ==> Retire(look, reg, spent, cbs) == After(reg, spent, [], false)
    ensures cbs != [] && look.unique(cbs[0]) ==>
              var name, fn := look.eventOf(cbs[0]), look.fnOf(cbs[0]);
              var next := RemoveFrom(reg, name, look.fnOf, fn);
              var rest := Retire(look, next, spent, cbs[1..]);
              Retire(look, reg, spent, cbs) ==
              if RangePanics(Listed(reg, name), look.fnOf, fn) then After(next, spent, [cbs[0]], true)
              else rest.(called := [cbs[0]] + rest.called)
    ensures cbs != [] && !look.unique(cbs[0]) ==>
              var rest := Retire(look, reg, spent, cbs[1..]);
              Retire(look, reg, spent, cbs) == rest.(called := [cbs[0]] + rest.called)
  {
    hide RemoveFrom, RangePanics;
  }

  lemma {:induction false} SweepInside<T>(list: seq<T>, fnOf: T -> int, fn: int)
    ensures forall x :: x in Sweep(list, fnOf, fn) ==> x in list
    decreases |list|
  {
    if |list| > 0 {
      SweepInside(list[1..], fnOf, fn);
    }
    if |list| > 1 {
      SweepInside(list[2..], fnOf, fn);
    }
  }

  lemma RemoveInside<T>(reg: Registry<T>, name: string, fnOf: T -> int, fn: int)
    ensures forall s, x :: x in Listed(RemoveFrom(reg, name, fnOf, fn), s) ==> x in Listed(reg, s)
  {
    SweepInside(Listed(reg, name), fnOf, fn);
  }

  /** Retiring leaves no callback in the registry that was not there. */
  lemma {:induction false} RetireInside<T>(look: Look<T>, reg: Registry<T>, spent: set<T>, cbs: seq<T>)
    ensures forall s, x :: x in Listed(Retire(look, reg, spent, cbs).reg, s) ==> x in Listed(reg, s)
    decreases |cbs|
  {
    hide Retire, RemoveFrom, RangePanics, Listed;
    RetireStep(look, reg, spent, cbs);
    if cbs != [] {
      var name, fn := look.eventOf(cbs[0]), look.fnOf(cbs[0]);
      var next := if look.unique(cbs[0]) then RemoveFrom(reg, name, look.fnOf, fn) else reg;
      RemoveInside(reg, name, look.fnOf, fn);
      RetireInside(look, next, spent, cbs[1..]);
    }
  }

  /** Everything but the once-callbacks among `gone`. */
  function Staying<T(==)>(list: seq<T>, unique: T -> bool, gone: seq<T>): seq<T> {
    if list == [] then []
    else (if unique(list[0]) && list[0] in gone then [] else [list[0]]) + Staying(list[1..], unique, gone)
  }

  lemma {:induction false} StayingAll<T>(list: seq<T>, unique: T -> bool)
    ensures Staying(list, unique, []) == list
    decreases |list|
  {
    if list != [] {
      StayingAll(list[1..], unique);
    }
  }

  lemma {:induction false} StayingWithout<T>(list: seq<T>, unique: T -> bool, gone: seq<T>, fnOf: T -> int)
    requires gone != [] && unique(gone[0])
    requires forall x :: x in list && fnOf(x) == fnOf(gone[0]) ==> x == gone[0]
    ensures Staying(Without(list, fnOf, fnOf(gone[0])), unique, gone[1..]) == Staying(list, unique, gone)
    decreases |list|
  {
    assert gone == [gone[0]] + gone[1..];
    if list != [] {
      StayingWithout(list[1..], unique, gone, fnOf);
    }
  }

  lemma {:induction false} StayingPlain<T>(list: seq<T>, unique: T -> bool, gone: seq<T>)
    requires gone != [] && !unique(gone[0])
    ensures Staying(list, unique, gone[1..]) == Staying(list, unique, gone)
    decreases |list|
  {
    assert gone == [gone[0]] + gone[1..];
    if list != [] {
      StayingPlain(list[1..], unique, gone);
    }
  }

  /** The functions of every event differ, and every callback is filed under its own event. */
  ghost predicate Tidy<T>(look: Look<T>, reg: Registry<T>) {
    AllDiffer(reg, look.fnOf) && forall s, i :: s in reg && 0 <= i < |reg[s]| ==> look.eventOf(reg[s][i]) == s
  }

  lemma WithoutInside<T>(s: seq<T>, fnOf: T -> int, fn: int)
    ensures forall x :: x in Without(s, fnOf, fn) ==> x in s
  {
  }

  /** When callbacks leave the registry alone, a dispatch never panics, calls its whole snapshot,
      removes exactly the once-callbacks in it, and touches no other event. */
  lemma {:induction false} RetireMeaning<T>(look: Look<T>, reg: Registry<T>, spent: set<T>, cbs: seq<T>, name: string)
    requires AllDiffer(reg, look.fnOf) && forall c :: c in cbs ==> look.eventOf(c) == name
    requires forall x, c :: x in Listed(reg, name) && c in cbs && look.fnOf(x) == look.fnOf(c) ==> x == c
    ensures var after := Retire(look, reg, spent, cbs);
            && !after.panicked && after.called == cbs && after.spent == spent && AllDiffer(after.reg, look.fnOf)
            && forall s :: Listed(after.reg, s) ==
                           if s == name then Staying(Listed(reg, s), look.unique, cbs) else Listed(reg, s)
    decreases |cbs|
  {
    hide RemoveFrom, RangePanics, Without, AllDiffer, Listed, Staying, Retire;
    RetireStep(look, reg, spent, cbs);
    if cbs == [] {
      StayingAll(Listed(reg, name), look.unique);
    } else {
      assert cbs == [cbs[0]] + cbs[1..];
      if !look.unique(cbs[0]) {
        RetireMeaning(look, reg, spent, cbs[1..], name);
        StayingPlain(Listed(reg, name), look.unique, cbs);
      } else {
        var fn := look.fnOf(cbs[0]);
        RemoveMeaning(reg, name, look.fnOf, fn);
        StayingWithout(Listed(reg, name), look.unique, cbs, look.fnOf);
        WithoutInside(Listed(reg, name), look.fnOf, fn);
        RetireMeaning(look, RemoveFrom(reg, name, look.fnOf, fn), spent, cbs[1..], name);
      }
    }
  }

  // ---------- What a trigger leaves ----------

  /** Lasting callbacks, and once-callbacks spent before. */
  function Lasting<T(==)>(list: seq<T>, unique: T -> bool, spent: set<T>): seq<T> {
    if list == [] then []
    else (if unique(list[0]) && list[0] !in spent then [] else [list[0]]) + Lasting(list[1..], unique, spent)
  }

  lemma {:induction false} LastingHas<T>(list: seq<T>, unique: T -> bool, spent: set<T>, x: T)
    ensures x in Lasting(list, unique, spent) <==> x in list && (unique(x) ==> x in spent)
    decreases |list|
  {
    if list != [] {
      LastingHas(list[1..], unique, spent, x);
    }
  }

  /** Spending more changes nothing for a list that holds nothing of it. */
  lemma {:induction false} LastingSame<T>(list: seq<T>, unique: T -> bool, spent: set<T>, more: set<T>)
    requires forall x :: x in list && unique(x) ==> (x in spent <==> x in more)
    ensures Lasting(list, unique, spent) == Lasting(list, unique, more)
    decreases |list|
  {
    if list != [] {
      LastingSame(list[1..], unique, spent, more);
    }
  }

  lemma {:induction false} LastingAll<T>(list: seq<T>, unique: T -> bool, spent: set<T>)
    requires forall x :: x in list && unique(x) ==> x in spent
    ensures Lasting(list, unique, spent) == list
    decreases |list|
  {
    if list != [] {
      LastingAll(list[1..], unique, spent);
    }
  }

  /** What stays when a snapshot retires. */
  lemma {:induction false} StayingIsLasting<T>(list: seq<T>, unique: T -> bool, spent: set<T>, gone: seq<T>)
    requires forall x :: x in list && unique(x) ==> (x in gone <==> x !in spent)
    ensures Staying(list, unique, gone) == Lasting(list, unique, spent)
    decreases |list|
  {
    if list != [] {
      StayingIsLasting(list[1..], unique, spent, gone);
    }
  }

  lemma {:induction false} SnapshotHas<T>(list: seq<T>, unique: T -> bool, spent: set<T>, x: T)
    ensures x in Snapshot(list, unique, spent) <==> x in list && !(unique(x) && x in spent)
    decreases |list|
  {
    if list != [] {
      var more := if unique(list[0]) then spent + {list[0]} else spent;
      SnapshotHas(list[1..], unique, spent, x);
      SnapshotHas(list[1..], unique, more, x);
    }
  }

  /** Only the marks of the once-callbacks in the list count. */
  lemma {:induction false} SnapshotSame<T>(list: seq<T>, unique: T -> bool, spent: set<T>, more: set<T>)
    requires forall x :: x in list && unique(x) ==> (x in spent <==> x in more)
    ensures Snapshot(list, unique, spent) == Snapshot(list, unique, more)
    decreases |list|
  {
    if list != [] {
      if unique(list[0]) {
        SnapshotSame(list[1..], unique, spent + {list[0]}, more + {list[0]});
      }
      SnapshotSame(list[1..], unique, spent, more);
    }
  }

  lemma OneFunctionEach<T>(look: Look<T>, reg: Registry<T>, name: string)
    requires Tidy(look, reg)
    ensures forall x :: x in Listed(reg, name) ==> look.eventOf(x) == name
    ensures forall x, y :: x in Listed(reg, name) && y in Listed(reg, name) && look.fnOf(x) == look.fnOf(y) ==> x == y
  {
    var list := Listed(reg, name);
    forall x, y | x in list && y in list && look.fnOf(x) == look.fnOf(y)
      ensures x == y
    {
      var i :| 0 <= i < |list| && list[i] == x;
      var j :| 0 <= j < |list| && list[j] == y;
      assert Differ(reg[name], look.fnOf);
    }
  }

  lemma StaysTidy<T>(look: Look<T>, reg: Registry<T>, after: Registry<T>, name: string, spent: set<T>)
    requires Tidy(look, reg) && AllDiffer(after, look.fnOf)
    requires forall s :: Listed(after, s) == if s == name then Lasting(Listed(reg, s), look.unique, spent) else Listed(reg, s)
    ensures Tidy(look, after)
  {
    hide Lasting, AllDiffer;
    forall s, i | s in after && 0 <= i < |after[s]|
      ensures look.eventOf(after[s][i]) == s
    {
      OneFunctionEach(look, reg, s);
      assert after[s] == Listed(after, s);
      LastingHas(Listed(reg, s), look.unique, spent, after[s][i]);
      assert after[s][i] in Listed(reg, s);
    }
  }

  /** One dispatch when callbacks leave the registry alone. */
  lemma DispatchMeaning<T>(look: Look<T>, reg: Registry<T>, spent: set<T>, name: string)
    requires Tidy(look, reg)
    ensures var after := Dispatched(look, reg, spent, name);
            && !after.panicked && Tidy(look, after.reg)
            && after.called == Snapshot(Listed(reg, name), look.unique, spent)
            && after.spent == Spend(look, spent, after.called)
            && forall s :: Listed(after.reg, s) ==
                           if s == name then Lasting(Listed(reg, s), look.unique, spent) else Listed(reg, s)
  {
    var list := Listed(reg, name);
    var cbs := Snapshot(list, look.unique, spent);
    forall x | x in list
      ensures x in cbs <==> !(look.unique(x) && x in spent)
    {
      SnapshotHas(list, look.unique, spent, x);
    }
    OneFunctionEach(look, reg, name);
    hide AllDiffer, Snapshot, Staying, Lasting, Retire;
    RetireMeaning(look, reg, Spend(look, spent, cbs), cbs, name);
    StayingIsLasting(list, look.unique, spent, cbs);
    StaysTidy(look, reg, Dispatched(look, reg, spent, name).reg, name, spent);
  }

  /** A second dispatch finds the lists of the first as it left them. */
  lemma LastingTwice<T>(look: Look<T>, reg: Registry<T>, spent: set<T>, name: string, s: string)
    requires Tidy(look, reg)
    ensures var cbs := Snapshot(Listed(reg, name), look.unique, spent);
            var once := Lasting(Listed(reg, s), look.unique, spent);
            && Lasting(if s == name then once else Listed(reg, s), look.unique, Spend(look, spent, cbs)) == once
  {
    hide Tidy, Lasting, Snapshot, Listed;
    var cbs, list := Snapshot(Listed(reg, name), look.unique, spent), Listed(reg, s);
    if s == name {
      forall x | x in Lasting(list, look.unique, spent) && look.unique(x)
        ensures x in Spend(look, spent, cbs)
      {
        LastingHas(list, look.unique, spent, x);
      }
      LastingAll(Lasting(list, look.unique, spent), look.unique, Spend(look, spent, cbs));
    } else {
      OneFunctionEach(look, reg, s);
      OneFunctionEach(look, reg, name);
      LastingSame(list, look.unique, spent, Spend(look, spent, cbs));
    }
  }

  /** Who is called by the first dispatch, and who is left for the others. */
  lemma CalledHere<T>(look: Look<T>, reg: Registry<T>, spent: set<T>, name: string, x: T)
    requires Tidy(look, reg)
    ensures var cbs, s := Snapshot(Listed(reg, name), look.unique, spent), look.eventOf(x);
            var left := if s == name then Lasting(Listed(reg, s), look.unique, spent) else Listed(reg, s);
            var goes := x in Listed(reg, s) && (look.unique(x) ==> x !in spent);
            && (x in cbs <==> s == name && goes)
            && (s != name ==> (goes <==> x in left && (look.unique(x) ==> x !in Spend(look, spent, cbs))))
            && (s == name && x in left && (look.unique(x) ==> x !in Spend(look, spent, cbs)) ==> goes)
  {
    OneFunctionEach(look, reg, name);
    SnapshotHas(Listed(reg, name), look.unique, spent, x);
    hide Tidy, Lasting, Snapshot, Listed;
    LastingHas(Listed(reg, name), look.unique, spent, x);
  }

  /** A whole trigger, when callbacks leave the registry alone: it does not panic; it calls exactly
      the callbacks of the events it dispatches, but no once-callback that was spent; only lasting
      callbacks stay there, and other events keep their lists. */
  lemma {:induction false} TriggerMeaning<T>(look: Look<T>, reg: Registry<T>, spent: set<T>, names: seq<string>)
    requires Tidy(look, reg)
    ensures var after := Dispatches(look, reg, spent, names);
            && !after.panicked
            && (forall x :: x in after.called <==>
                  look.eventOf(x) in names && x in Listed(reg, look.eventOf(x)) && (look.unique(x) ==> x !in spent))
            && forall s :: Listed(after.reg, s) ==
                           if s in names then Lasting(Listed(reg, s), look.unique, spent) else Listed(reg, s)
    decreases |names|
  {
    if names != [] {
      hide Tidy, Dispatched, Lasting, Snapshot, Listed;
      var name := names[0];
      DispatchMeaning(look, reg, spent, name);
      var first := Dispatched(look, reg, spent, name);
      TriggerMeaning(look, first.reg, first.spent, names[1..]);
      var after := Dispatches(look, reg, spent, names);
      forall s
        ensures Listed(after.reg, s) == if s in names then Lasting(Listed(reg, s), look.unique, spent) else Listed(reg, s)
      {
        LastingTwice(look, reg, spent, name, s);
      }
      forall x
        ensures x in after.called <==>
                look.eventOf(x) in names && x in Listed(reg, look.eventOf(x)) && (look.unique(x) ==> x !in spent)
      {
        CalledHere(look, reg, spent, name, x);
      }
    }
  }

  /** No trigger calls a once-callback twice, however often its event is named. */
  lemma {:induction false} TriggerOnce<T>(look: Look<T>, reg: Registry<T>, spent: set<T>, names: seq<string>, i: nat, j: nat)
    requires Tidy(look, reg)
    requires var called := Dispatches(look, reg, spent, names).called; i < j < |called| && called[i] == called[j]
    ensures !look.unique(Dispatches(look, reg, spent, names).called[i])
    decreases |names|
  {
    hide Tidy, Dispatched, Lasting, Snapshot, Listed;
    var name := names[0];
    DispatchMeaning(look, reg, spent, name);
    var first := Dispatched(look, reg, spent, name);
    var rest := Dispatches(look, first.reg, first.spent, names[1..]);
    var k := |first.called|;
    if j < k {
      SnapshotOnce(Listed(reg, name), look.unique, spent, i, j);
    } else if i >= k {
      TriggerOnce(look, first.reg, first.spent, names[1..], i - k, j - k);
    } else {
      TriggerMeaning(look, first.reg, first.spent, names[1..]);
      assert rest.called[j - k] in rest.called && first.called[i] in first.called;
    }
  }

  // ---------- What a trigger calls ----------

  lemma TargetsAre(event: string)
    ensures forall s :: s in Targets(event) <==> s in Words(event) || s == "*"
  {
    if event == "*" {
      SpacesAre('*');
      WordAlone("*");
    }
  }

  /** A trigger dispatches its words and the name for all events, whose callbacks are called too. */
  lemma TriggerCalls<T>(look: Look<T>, reg: Registry<T>, spent: set<T>, event: string)
    requires Tidy(look, reg)
    ensures var after := Dispatches(look, reg, spent, Targets(event));
            && !after.panicked
            && (forall x :: x in after.called <==>
                  && (look.eventOf(x) in Words(event) || look.eventOf(x) == "*")
                  && x in Listed(reg, look.eventOf(x)) && (look.unique(x) ==> x !in spent))
            && forall s :: Listed(after.reg, s) ==
                           if s in Words(event) || s == "*" then Lasting(Listed(reg, s), look.unique, spent) else Listed(reg, s)
  {
    hide Tidy, Dispatches, Lasting, Listed, Words;
    TargetsAre(event);
    TriggerMeaning(look, reg, spent, Targets(event));
  }

  lemma TriggerCallsOne<T>(look: Look<T>, reg: Registry<T>, spent: set<T>, event: string, x: T)
    requires Tidy(look, reg)
    ensures x in Dispatches(look, reg, spent, Targets(event)).called <==>
            && (look.eventOf(x) in Words(event) || look.eventOf(x) == "*")
            && x in Listed(reg, look.eventOf(x)) && (look.unique(x) ==> x !in spent)
  {
    hide *;
    TriggerCalls(look, reg, spent, event);
  }

  /** The calls of some events, one event after the other. */
  function CallsOf<T(==)>(look: Look<T>, reg: Registry<T>, spent: set<T>, names: seq<string>): seq<T> {
    if names == [] then [] else Unspent(Listed(reg, names[0]), look.unique, spent) + CallsOf(look, reg, spent, names[1..])
  }

  lemma {:induction false} UnspentSame<T>(list: seq<T>, unique: T -> bool, spent: set<T>, more: set<T>)
    requires forall x :: x in list && unique(x) ==> (x in spent <==> x in more)
    ensures Unspent(list, unique, spent) == Unspent(list, unique, more)
    decreases |list|
  {
    if list != [] {
      UnspentSame(list[1..], unique, spent, more);
    }
  }

  lemma {:induction false} CallsSame<T>(look: Look<T>, reg: Registry<T>, other: Registry<T>, spent: set<T>, more: set<T>, names: seq<string>)
    requires forall s :: s in names ==> Listed(other, s) == Listed(reg, s)
    requires forall s, x :: s in names && x in Listed(reg, s) && look.unique(x) ==> (x in spent <==> x in more)
    ensures CallsOf(look, reg, spent, names) == CallsOf(look, other, more, names)
    decreases |names|
  {
    hide Listed, Unspent;
    if names != [] {
      UnspentSame(Listed(reg, names[0]), look.unique, spent, more);
      CallsSame(look, reg, other, spent, more, names[1..]);
    }
  }

  lemma OthersUnspent<T>(look: Look<T>, reg: Registry<T>, spent: set<T>, name: string, s: string)
    requires Tidy(look, reg) && s != name
    ensures var more := Spend(look, spent, Snapshot(Listed(reg, name), look.unique, spent));
            forall x :: x in Listed(reg, s) ==> (x in spent <==> x in more)
  {
    OneFunctionEach(look, reg, name);
    OneFunctionEach(look, reg, s);
    hide Tidy, Listed, Snapshot;
  }

  lemma ListIsDistinct<T>(look: Look<T>, reg: Registry<T>, name: string)
    requires Tidy(look, reg)
    ensures var list := Listed(reg, name); forall i, j :: 0 <= i < j < |list| ==> list[i] != list[j]
  {
    assert name in reg ==> Differ(reg[name], look.fnOf);
  }

  /** Events dispatched once each are called one after the other, each list in order. */
  lemma {:induction false} CallOrder<T>(look: Look<T>, reg: Registry<T>, spent: set<T>, names: seq<string>)
    requires Tidy(look, reg) && forall i, j :: 0 <= i < j < |names| ==> names[i] != names[j]
    ensures Dispatches(look, reg, spent, names).called == CallsOf(look, reg, spent, names)
    decreases |names|
  {
    if names != [] {
      hide Tidy, Dispatched, Listed, Snapshot, Unspent, Lasting;
      var name, rest := names[0], names[1..];
      DispatchMeaning(look, reg, spent, name);
      ListIsDistinct(look, reg, name);
      SnapshotIsRest(Listed(reg, name), look.unique, spent);
      var first := Dispatched(look, reg, spent, name);
      CallOrder(look, first.reg, first.spent, rest);
      forall s | s in rest
        ensures Listed(first.reg, s) == Listed(reg, s) && forall x :: x in Listed(reg, s) ==> (x in spent <==> x in first.spent)
      {
        OthersUnspent(look, reg, spent, name, s);
      }
      CallsSame(look, reg, first.reg, spent, first.spent, rest);
    }
  }

  lemma {:induction false} CallsOfSum<T>(look: Look<T>, reg: Registry<T>, spent: set<T>, a: seq<string>, b: seq<string>)
    ensures CallsOf(look, reg, spent, a + b) == CallsOf(look, reg, spent, a) + CallsOf(look, reg, spent, b)
    decreases |a|
  {
    hide Unspent, Listed;
    if a == [] {
      assert a + b == b;
    } else {
      assert (a + b)[1..] == a[1..] + b;
      CallsOfSum(look, reg, spent, a[1..], b);
    }
  }

  /** The callbacks of different words are called word by word, those for all events at the end. */
  lemma TriggerOrder<T>(look: Look<T>, reg: Registry<T>, spent: set<T>, event: string)
    requires Tidy(look, reg) && "*" !in Words(event)
    requires forall i, j :: 0 <= i < j < |Words(event)| ==> Words(event)[i] != Words(event)[j]
    ensures Dispatches(look, reg, spent, Targets(event)).called ==
            CallsOf(look, reg, spent, Words(event)) + Unspent(Listed(reg, "*"), look.unique, spent)
  {
    var words := Words(event);
    if event == "*" {
      SpacesAre('*');
      WordAlone("*");
    } else {
      assert Targets(event) == words + ["*"];
      hide Tidy, Dispatches, Words, Listed, Unspent;
      CallOrder(look, reg, spent, words + ["*"]);
      CallsOfSum(look, reg, spent, words, ["*"]);
      assert CallsOf(look, reg, spent, ["*"]) == Unspent(Listed(reg, "*"), look.unique, spent) + CallsOf(look, reg, spent, ["*"][1..]);
    }
  }
}

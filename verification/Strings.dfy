/** Byte-string operations the other modules rely on.  A Go string or byte slice is a
    `string` here, one `char` per byte; only equality of bytes is ever used. */
module Strings {

  datatype Option<+T> = None | Some(value: T)

  /** ASCII white space. */
  predicate IsBlank(c: char) { c == ' ' || c == '\t' || c == '\n' || c == '\r' || c == '\U{0b}' || c == '\U{0c}' }

  /** A Go map gives the empty string for a key it has not. */
  function Get(m: map<string, string>, key: string): string {
    if key in m then m[key] else ""
  }

  predicate OccursAt(s: string, sub: string, i: int) {
    0 <= i && i + |sub| <= |s| && s[i..i + |sub|] == sub
  }

  predicate Contains(s: string, sub: string) {
    exists i :: 0 <= i <= |s| && OccursAt(s, sub, i)
  }

  /** A text holds another exactly when it is that text with something before and behind. */
  lemma ContainsIff(s: string, sub: string)
    ensures Contains(s, sub) <==> exists a, b :: s == a + sub + b
  {
    if i :| 0 <= i <= |s| && OccursAt(s, sub, i) {
      var a, b := s[..i], s[i + |sub|..];
      assert s == a + sub + b;
    }
    if a, b :| s == a + sub + b {
      assert s[|a|..|a| + |sub|] == sub;
      assert OccursAt(s, sub, |a|);
    }
  }

  predicate HasSuffix(s: string, suffix: string) {
    |suffix| <= |s| && s[|s| - |suffix|..] == suffix
  }

  lemma SuffixIff(s: string, suffix: string)
    ensures HasSuffix(s, suffix) <==> exists a :: s == a + suffix
  {
    if HasSuffix(s, suffix) {
      assert s == s[..|s| - |suffix|] + suffix;
    }
    if a :| s == a + suffix {
      assert s[|a|..] == suffix;
    }
  }

  /** Position of the first occurrence of `sub` at or after `i`, or -1. */
  function IndexFrom(s: string, sub: string, i: nat): (k: int)
    requires i <= |s|
    ensures k == -1 <==> forall j :: i <= j <= |s| ==> !OccursAt(s, sub, j)
    ensures k != -1 ==> i <= k && k + |sub| <= |s| && s[k..k + |sub|] == sub
    ensures forall j :: i <= j < k ==> !OccursAt(s, sub, j)
    decreases |s| - i
  {
    if OccursAt(s, sub, i) then i
    else if i == |s| then -1
    else IndexFrom(s, sub, i + 1)
  }

  function Index(s: string, sub: string): (k: int)
    ensures k == -1 <==> !Contains(s, sub)
    ensures k != -1 ==> 0 <= k && k + |sub| <= |s| && s[k..k + |sub|] == sub
    ensures forall j :: 0 <= j < k ==> !OccursAt(s, sub, j)
  {
    IndexFrom(s, sub, 0)
  }

  /** The pieces of `s` between occurrences of `sep`; an empty `sep` cuts after every byte. */
  function Split(s: string, sep: string): (parts: seq<string>)
    ensures sep != "" ==> |parts| > 0
    decreases |s|
  {
    if sep == "" then
      if s == "" then [] else [s[..1]] + Split(s[1..], sep)
    else
      var k := Index(s, sep);
      if k == -1 then [s] else [s[..k]] + Split(s[k + |sep|..], sep)
  }

  function Join(parts: seq<string>, sep: string): string {
    if parts == [] then "" else if |parts| == 1 then parts[0] else parts[0] + sep + Join(parts[1..], sep)
  }

  lemma JoinCons(first: string, rest: seq<string>, sep: string)
    requires |rest| > 0
    ensures Join([first] + rest, sep) == first + sep + Join(rest, sep)
  {
    assert ([first] + rest)[1..] == rest;
  }

  lemma JoinOne(s: string)
    ensures forall sep :: Join([s], sep) == s && Join([], sep) == ""
  {
  }

  /** Splitting loses nothing. */
  lemma {:induction false} JoinOfSplit(s: string, sep: string)
    ensures Join(Split(s, sep), sep) == s
    decreases |s|
  {
    hide Join, Contains, OccursAt, Index;
    JoinOne(s);
    if sep == "" {
      if |s| > 1 {
        JoinOfSplit(s[1..], sep);
        assert s[..1] + sep + s[1..] == s;
        JoinCons(s[..1], Split(s[1..], sep), sep);
      } else if s != "" {
        assert s[..1] == s && Split(s, sep) == [s];
      }
    } else {
      var k := Index(s, sep);
      if k != -1 {
        var rest := s[k + |sep|..];
        JoinOfSplit(rest, sep);
        JoinCons(s[..k], Split(rest, sep), sep);
        assert s == s[..k] + sep + rest;
      }
    }
  }

  lemma PrefixInside(s: string, k: nat)
    requires k <= |s|
    ensures Contains(s, s[..k])
  {
    assert OccursAt(s, s[..k], 0);
  }

  lemma InsideSuffix(s: string, k: nat, part: string)
    requires k <= |s| && Contains(s[k..], part)
    ensures Contains(s, part)
  {
    var i :| 0 <= i <= |s[k..]| && OccursAt(s[k..], part, i);
    assert s[k..][i..i + |part|] == s[k + i..k + i + |part|];
    assert OccursAt(s, part, k + i);
  }

  /** Every piece of a split is a substring of what was split. */
  lemma {:induction false} PartsAreInside(s: string, sep: string, part: string)
    requires part in Split(s, sep)
    ensures Contains(s, part)
    decreases |s|
  {
    hide Contains, OccursAt, Index;
    var k := if sep == "" then 1 else Index(s, sep);
    if sep != "" && k == -1 {
      PrefixInside(s, |s|);
      assert s[..|s|] == s;
    } else if part == s[..k] {
      PrefixInside(s, k);
    } else {
      assert Split(s, sep) == [s[..k]] + Split(s[k + |sep|..], sep);
      PartsAreInside(s[k + |sep|..], sep, part);
      InsideSuffix(s, k + |sep|, part);
    }
  }

  lemma ContainsTrans(a: string, b: string, c: string)
    requires Contains(a, b) && Contains(b, c)
    ensures Contains(a, c)
  {
    var i :| 0 <= i <= |a| && OccursAt(a, b, i);
    var j :| 0 <= j <= |b| && OccursAt(b, c, j);
    forall x | 0 <= x < |c|
      ensures a[i + j..i + j + |c|][x] == c[x]
    {
      assert c[x] == b[j..j + |c|][x] == b[j + x] == a[i..i + |b|][j + x];
    }
    assert OccursAt(a, c, i + j);
  }

  lemma IndexOfByte(s: string, c: char, k: nat)
    requires k <= |s| && c !in s[..k] && (k < |s| ==> s[k] == c)
    ensures Index(s, [c]) == if k == |s| then -1 else k
  {
    hide Contains;
    forall j | 0 <= j <= |s|
      ensures OccursAt(s, [c], j) <==> j < |s| && s[j] == c
    {
      assert j < |s| ==> s[j..j + 1] == [s[j]];
    }
    forall j | 0 <= j < k
      ensures !OccursAt(s, [c], j)
    {
      assert s[j] == s[..k][j];
    }
  }

  /** Cutting at a separator byte that is known to be the first one. */
  lemma SplitAtFirst(s: string, c: char, k: nat)
    requires k <= |s| && c !in s[..k] && (k < |s| ==> s[k] == c)
    ensures Split(s, [c]) == if k == |s| then [s] else [s[..k]] + Split(s[k + 1..], [c])
  {
    hide Contains, OccursAt, Index;
    IndexOfByte(s, c, k);
  }

  /** Splitting a list of separator-free pieces that were joined gives the list back. */
  lemma {:induction false} SplitOfJoin(parts: seq<string>, c: char)
    requires |parts| > 0 && forall p :: p in parts ==> c !in p
    ensures Split(Join(parts, [c]), [c]) == parts
    decreases |parts|
  {
    hide Split;
    var s := Join(parts, [c]);
    var k := |parts[0]|;
    assert s[..k] == parts[0];
    SplitAtFirst(s, c, k);
    if |parts| > 1 {
      assert s[k + 1..] == Join(parts[1..], [c]);
      SplitOfJoin(parts[1..], c);
      assert parts == [parts[0]] + parts[1..];
    }
  }

  function FirstByte(s: string, c: char): (k: nat)
    ensures k <= |s| && c !in s[..k] && (k < |s| ==> s[k] == c)
  {
    if s == "" || s[0] == c then 0
    else
      var k := FirstByte(s[1..], c);
      assert s[..k + 1] == [s[0]] + s[1..][..k];
      k + 1
  }

  /** A separator between two texts keeps their pieces apart. */
  lemma {:induction false} SplitSum(a: string, c: char, b: string)
    ensures Split(a + [c] + b, [c]) == Split(a, [c]) + Split(b, [c])
    decreases |a|
  {
    hide Split;
    var k, whole := FirstByte(a, c), a + [c] + b;
    assert whole[..k] == a[..k] && whole[k] == c;
    SplitAtFirst(whole, c, k);
    SplitAtFirst(a, c, k);
    if k < |a| {
      assert whole[k + 1..] == a[k + 1..] + [c] + b;
      SplitSum(a[k + 1..], c, b);
    } else {
      assert whole[k + 1..] == b && a[..k] == a;
    }
  }

  lemma NoneBefore(s: string, sep: string, k: nat)
    requires k <= |s| && sep != "" && forall j :: 0 <= j < k ==> !OccursAt(s, sep, j)
    ensures !Contains(s[..k], sep)
  {
    if i :| 0 <= i <= k && OccursAt(s[..k], sep, i) {
      assert s[..k][i..i + |sep|] == s[i..i + |sep|];
      assert OccursAt(s, sep, i);
    }
  }

  /** An empty separator leaves single bytes. */
  lemma {:induction false} PiecesOfNothing(s: string, part: string)
    requires part in Split(s, "")
    ensures |part| == 1
    decreases |s|
  {
    if part != s[..1] {
      PiecesOfNothing(s[1..], part);
    }
  }

  /** A split takes what stands before the first separator, or all of the text. */
  lemma FirstPiece(s: string, sep: string) returns (k: int)
    requires sep != ""
    ensures k == -1 ==> Split(s, sep) == [s] && !Contains(s, sep)
    ensures k != -1 ==> 0 <= k && k + |sep| <= |s|
                        && Split(s, sep) == [s[..k]] + Split(s[k + |sep|..], sep) && !Contains(s[..k], sep)
  {
    hide Contains, OccursAt;
    k := Index(s, sep);
    if k != -1 {
      NoneBefore(s, sep, k);
    }
  }

  /** No piece holds the separator. */
  lemma {:induction false} PiecesLackSeparator(s: string, sep: string, part: string)
    requires sep != "" && part in Split(s, sep)
    ensures !Contains(part, sep)
    decreases |s|
  {
    hide *;
    var k := FirstPiece(s, sep);
    if k != -1 && part != s[..k] {
      PiecesLackSeparator(s[k + |sep|..], sep, part);
    }
  }

  /** No piece holds the separator byte. */
  lemma {:induction false} PartsHaveNoSeparator(s: string, c: char, part: string)
    requires part in Split(s, [c])
    ensures c !in part
    decreases |s|
  {
    var k := FirstByte(s, c);
    SplitAtFirst(s, c, k);
    if k < |s| && part != s[..k] {
      PartsHaveNoSeparator(s[k + 1..], c, part);
    } else {
      assert s[..k] == if k == |s| then s else part;
    }
  }
}

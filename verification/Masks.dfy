/** Wildcard masks (`utils/utils.go`): what a mask means, the greedy matcher that decides it
    with one remembered star, and the comma-separated mask lists built on top. */
module Masks {
  import opened Strings

  // ---------- What a mask means ----------

  /** '*' stands for any, possibly empty, run of bytes; every other byte for itself. */
  predicate Glob(value: string, mask: string)
    decreases |value| + |mask|
  {
    if mask == "" then value == ""
    else if mask[0] == '*' then Glob(value, mask[1..]) || (value != "" && Glob(value[1..], mask))
    else value != "" && value[0] == mask[0] && Glob(value[1..], mask[1..])
  }

  predicate StarFree(s: string) { '*' !in s }

  predicate OnlyStars(s: string) { forall i :: 0 <= i < |s| ==> s[i] == '*' }

  /** A leading star matches exactly the values some suffix of which the rest matches. */
  lemma {:induction false} StarMeaning(value: string, rest: string)
    ensures Glob(value, "*" + rest) <==> exists k :: 0 <= k <= |value| && Glob(value[k..], rest)
    decreases |value|
  {
    assert ("*" + rest)[1..] == rest;
    assert value[0..] == value;
    if value != "" {
      StarMeaning(value[1..], rest);
      forall k | 0 <= k < |value|
        ensures value[1..][k..] == value[k + 1..]
      {
      }
      if Glob(value[1..], "*" + rest) {
        var k :| 0 <= k <= |value[1..]| && Glob(value[1..][k..], rest);
        assert Glob(value[k + 1..], rest);
      }
      if k :| 1 <= k <= |value| && Glob(value[k..], rest) {
        assert value[1..][k - 1..] == value[k..];
      }
    }
  }

  /** A star-free head of a mask must be read off the front of the value. */
  lemma {:induction false} LiteralMeaning(value: string, head: string, rest: string)
    requires StarFree(head)
    ensures Glob(value, head + rest) <==> head <= value && Glob(value[|head|..], rest)
    decreases |head|
  {
    if head == "" {
      assert head + rest == rest && value[0..] == value;
    } else {
      assert (head + rest)[1..] == head[1..] + rest;
      if value != "" {
        LiteralMeaning(value[1..], head[1..], rest);
        if |head| <= |value| {
          assert value[1..][|head[1..]|..] == value[|head|..];
        }
        assert head <= value <==> head[0] == value[0] && head[1..] <= value[1..] by {
          if head[0] == value[0] && head[1..] <= value[1..] {
            assert head == [head[0]] + head[1..] && value == [value[0]] + value[1..];
          }
        }
      }
    }
  }

  /** A mask that opens with a star still matches when bytes are put in front of the value. */
  lemma {:induction false} StarAbsorbs(value: string, k: nat, rest: string)
    requires k <= |value| && Glob(value[k..], "*" + rest)
    ensures Glob(value, "*" + rest)
  {
    hide Glob;
    StarMeaning(value[k..], rest);
    StarMeaning(value, rest);
    var j :| 0 <= j <= |value[k..]| && Glob(value[k..][j..], rest);
    assert value[k..][j..] == value[k + j..];
  }

  /** Only the last star seen matters: once the text between two stars has been placed as far
      left as it goes, the earlier star can be forgotten without losing a match. */
  lemma {:induction false} ForgetEarlierStar(segment: string, value: string, rest: string)
    requires StarFree(segment)
    ensures Glob(segment + value, "*" + segment + "*" + rest) <==> Glob(value, "*" + rest)
  {
    hide Glob;
    var whole, tail := segment + value, "*" + rest;
    assert "*" + segment + "*" + rest == "*" + (segment + tail);
    StarMeaning(whole, segment + tail);
    if Glob(value, tail) {
      LiteralMeaning(whole, segment, tail);
      assert whole[|segment|..] == value && whole[0..] == whole;
    }
    if k :| 0 <= k <= |whole| && Glob(whole[k..], segment + tail) {
      LiteralMeaning(whole[k..], segment, tail);
      assert whole[k..][|segment|..] == value[k..];
      StarAbsorbs(value, k, rest);
    }
  }

  lemma {:induction false} EmptyValueMatches(mask: string)
    ensures Glob("", mask) <==> OnlyStars(mask)
    decreases |mask|
  {
    if mask != "" {
      EmptyValueMatches(mask[1..]);
      assert forall i :: 0 < i < |mask| ==> mask[i] == mask[1..][i - 1];
      assert OnlyStars(mask) <==> mask[0] == '*' && OnlyStars(mask[1..]);
    }
  }

  function Literals(mask: string): (n: nat) {
    if mask == "" then 0 else (if mask[0] == '*' then 0 else 1) + Literals(mask[1..])
  }

  lemma {:induction false} LiteralsNeedBytes(value: string, mask: string)
    requires Glob(value, mask)
    ensures Literals(mask) <= |value|
    decreases |value| + |mask|
  {
    if mask != "" {
      if mask[0] == '*' && !Glob(value, mask[1..]) {
        LiteralsNeedBytes(value[1..], mask);
      } else if mask[0] == '*' {
        LiteralsNeedBytes(value, mask[1..]);
      } else {
        LiteralsNeedBytes(value[1..], mask[1..]);
      }
    }
  }

  lemma {:induction false} LiteralsOfSum(head: string, rest: string)
    requires StarFree(head)
    ensures Literals(head + rest) == |head| + Literals(rest)
    decreases |head|
  {
    if head == "" {
      assert head + rest == rest;
    } else {
      assert (head + rest)[1..] == head[1..] + rest;
      LiteralsOfSum(head[1..], rest);
    }
  }

  lemma {:induction false} NoLiterals(mask: string)
    ensures Literals(mask) == 0 <==> OnlyStars(mask)
    decreases |mask|
  {
    if mask != "" {
      NoLiterals(mask[1..]);
      assert forall i :: 0 < i < |mask| ==> mask[i] == mask[1..][i - 1];
      assert OnlyStars(mask) <==> mask[0] == '*' && OnlyStars(mask[1..]);
    }
  }

  // ---------- The iterative matcher ----------

  /** The matcher's state: `segment` is the mask text between the last star and `eIdx`, which
      the bytes from `backtrackV` to `vIdx` spell out; the answer is still what it was. */
  ghost predicate Placed(value: string, expr: string, vIdx: int, eIdx: int, backtrackV: int, backtrackE: int) {
    && 0 <= vIdx <= |value| && 0 <= eIdx <= |expr|
    && if backtrackE == -1 then
         backtrackV == -1 && vIdx == eIdx && StarFree(expr[..eIdx]) && expr[..eIdx] == value[..vIdx]
       else
         && 0 <= backtrackE < eIdx && 0 <= backtrackV <= vIdx
         && expr[backtrackE] == '*'
         && StarFree(expr[backtrackE + 1..eIdx]) && expr[backtrackE + 1..eIdx] == value[backtrackV..vIdx]
         && (Glob(value, expr) <==> Glob(value[backtrackV..], expr[backtrackE..]))
  }

  lemma CutTail(s: string, a: nat, b: nat)
    requires a <= b <= |s|
    ensures s[a..] == s[a..b] + s[b..]
  {
  }

  /** What the invariant says, as text: the mask and the value read so far. */
  lemma PlacedText(value: string, expr: string, vIdx: int, eIdx: int, backtrackV: int, backtrackE: int)
    returns (segment: string)
    requires Placed(value, expr, vIdx, eIdx, backtrackV, backtrackE)
    ensures 0 <= vIdx <= |value| && 0 <= eIdx <= |expr| && StarFree(segment)
    ensures backtrackE == -1 ==>
              expr == segment + expr[eIdx..] && segment <= value && value[|segment|..] == value[vIdx..]
    ensures backtrackE != -1 ==>
              && 0 <= backtrackE < |expr| && expr[backtrackE] == '*' && 0 <= backtrackV <= vIdx
              && expr[backtrackE..] == "*" + (segment + expr[eIdx..])
              && value[backtrackV..] == segment + value[vIdx..]
              && (Glob(value, expr) <==> Glob(value[backtrackV..], expr[backtrackE..]))
  {
    hide Glob;
    if backtrackE == -1 {
      segment := expr[..eIdx];
      assert expr == expr[..eIdx] + expr[eIdx..];
    } else {
      segment := expr[backtrackE + 1..eIdx];
      CutTail(expr, backtrackE + 1, eIdx);
      CutTail(value, backtrackV, vIdx);
      assert expr[backtrackE..] == "*" + expr[backtrackE + 1..];
    }
  }

  lemma PlacedAnew(value: string, expr: string, backtrackV: nat, backtrackE: nat)
    requires backtrackV <= |value| && backtrackE < |expr| && expr[backtrackE] == '*'
    requires Glob(value, expr) <==> Glob(value[backtrackV..], expr[backtrackE..])
    ensures Placed(value, expr, backtrackV, backtrackE + 1, backtrackV, backtrackE)
  {
    hide Glob;
    assert expr[backtrackE + 1..backtrackE + 1] == "" == value[backtrackV..backtrackV];
  }

  lemma MeetStar(value: string, expr: string, vIdx: int, eIdx: int, backtrackV: int, backtrackE: int)
    requires Placed(value, expr, vIdx, eIdx, backtrackV, backtrackE)
    requires eIdx < |expr| && expr[eIdx] == '*'
    ensures Placed(value, expr, vIdx, eIdx + 1, vIdx, eIdx)
  {
    hide Glob, Placed;
    var segment := PlacedText(value, expr, vIdx, eIdx, backtrackV, backtrackE);
    var rest := expr[eIdx + 1..];
    assert expr[eIdx..] == "*" + rest;
    if backtrackE == -1 {
      LiteralMeaning(value, segment, expr[eIdx..]);
    } else {
      assert expr[backtrackE..] == "*" + segment + "*" + rest;
      ForgetEarlierStar(segment, value[vIdx..], rest);
    }
    PlacedAnew(value, expr, vIdx, eIdx);
  }

  lemma OneMore(s: string, a: nat, b: nat)
    requires a <= b < |s|
    ensures s[a..b + 1] == s[a..b] + [s[b]]
    ensures StarFree(s[a..b]) && s[b] != '*' ==> StarFree(s[a..b + 1])
  {
  }

  lemma MeetByte(value: string, expr: string, vIdx: int, eIdx: int, backtrackV: int, backtrackE: int)
    requires Placed(value, expr, vIdx, eIdx, backtrackV, backtrackE)
    requires vIdx < |value| && eIdx < |expr| && expr[eIdx] != '*' && expr[eIdx] == value[vIdx]
    ensures Placed(value, expr, vIdx + 1, eIdx + 1, backtrackV, backtrackE)
  {
    hide Glob;
    if backtrackE == -1 {
      OneMore(expr, 0, eIdx);
      OneMore(value, 0, vIdx);
      assert expr[0..eIdx] == expr[..eIdx] && expr[0..eIdx + 1] == expr[..eIdx + 1];
      assert value[0..vIdx] == value[..vIdx] && value[0..vIdx + 1] == value[..vIdx + 1];
    } else {
      OneMore(expr, backtrackE + 1, eIdx);
      OneMore(value, backtrackV, vIdx);
    }
  }

  lemma StarOrByte(value: string, mask: string)
    requires value != "" && mask != "" && mask[0] == '*'
    ensures Glob(value, mask) <==> Glob(value, mask[1..]) || Glob(value[1..], mask)
  {
  }

  /** When the rest of the mask fails behind a placed segment, the star takes one byte more. */
  lemma MoveOn(segment: string, value: string, rest: string)
    requires StarFree(segment) && value != "" && !Glob(value, rest)
    ensures Glob(segment + value, "*" + (segment + rest)) <==> Glob((segment + value)[1..], "*" + (segment + rest))
  {
    var whole, mask := segment + value, "*" + (segment + rest);
    assert mask[1..] == segment + rest;
    StarOrByte(whole, mask);
    hide Glob;
    LiteralMeaning(whole, segment, rest);
    assert whole[|segment|..] == value;
  }

  lemma CannotStart(value: string, mask: string)
    requires value != "" && (mask != "" ==> mask[0] != '*' && mask[0] != value[0])
    ensures !Glob(value, mask)
  {
  }

  /** At a mismatch the text after the last star cannot start at `backtrackV`. */
  lemma Mismatch(value: string, expr: string, vIdx: int, eIdx: int, backtrackV: int, backtrackE: int)
    requires Placed(value, expr, vIdx, eIdx, backtrackV, backtrackE)
    requires vIdx < |value| && (eIdx < |expr| ==> expr[eIdx] != '*' && expr[eIdx] != value[vIdx])
    ensures backtrackE == -1 ==> !Glob(value, expr)
    ensures backtrackE != -1 ==> Placed(value, expr, backtrackV + 1, backtrackE + 1, backtrackV + 1, backtrackE)
  {
    hide Glob, Placed;
    var segment := PlacedText(value, expr, vIdx, eIdx, backtrackV, backtrackE);
    CannotStart(value[vIdx..], expr[eIdx..]);
    if backtrackE == -1 {
      LiteralMeaning(value, segment, expr[eIdx..]);
    } else {
      MoveOn(segment, value[vIdx..], expr[eIdx..]);
      assert value[backtrackV..][1..] == value[backtrackV + 1..];
      PlacedAnew(value, expr, backtrackV + 1, backtrackE);
    }
  }

  /** Text exactly as long as the segment behind a star leaves nothing for the rest. */
  lemma TextFits(segment: string, rest: string)
    requires StarFree(segment)
    ensures Glob(segment, "*" + (segment + rest)) <==> OnlyStars(rest)
  {
    hide Glob;
    StarMeaning(segment, segment + rest);
    if OnlyStars(rest) {
      EmptyValueMatches(rest);
      LiteralMeaning(segment, segment, rest);
      assert segment[0..] == segment && segment[|segment|..] == "";
    }
    if k :| 0 <= k <= |segment| && Glob(segment[k..], segment + rest) {
      LiteralsNeedBytes(segment[k..], segment + rest);
      LiteralsOfSum(segment, rest);
      NoLiterals(rest);
    }
  }

  /** With the value used up, what is left of the mask must be stars. */
  lemma Finish(value: string, expr: string, eIdx: int, backtrackV: int, backtrackE: int)
    requires Placed(value, expr, |value|, eIdx, backtrackV, backtrackE)
    ensures Glob(value, expr) <==> OnlyStars(expr[eIdx..])
  {
    hide Glob, Placed;
    var segment := PlacedText(value, expr, |value|, eIdx, backtrackV, backtrackE);
    var rest := expr[eIdx..];
    assert value[|value|..] == "";
    EmptyValueMatches(rest);
    if backtrackE == -1 {
      LiteralMeaning(value, segment, rest);
    } else {
      assert value[backtrackV..] == segment;
      TextFits(segment, rest);
    }
  }

  /** How many turns the main loop may have taken, by the position of the last backtrack. */
  ghost predicate Paid(turns: nat, backtrackV: int, eIdx: int, vLen: nat, eLen: nat) {
    -1 <= backtrackV <= vLen && turns <= (backtrackV + 1) * (eLen + 1) + if backtrackV == vLen then 0 else eIdx
  }

  lemma PayForward(turns: nat, backtrackV: int, eIdx: int, vLen: nat, eLen: nat, nextV: int)
    requires Paid(turns, backtrackV, eIdx, vLen, eLen) && 0 <= eIdx
    requires backtrackV <= nextV < vLen
    ensures Paid(turns + 1, nextV, eIdx + 1, vLen, eLen)
  {
    assert (backtrackV + 1) * (eLen + 1) <= (nextV + 1) * (eLen + 1);
  }

  lemma PayBacktrack(turns: nat, backtrackV: int, eIdx: int, vLen: nat, eLen: nat, nextE: nat)
    requires Paid(turns, backtrackV, eIdx, vLen, eLen) && eIdx <= eLen
    requires backtrackV < vLen
    ensures Paid(turns + 1, backtrackV + 1, nextE, vLen, eLen)
  {
    assert (backtrackV + 2) * (eLen + 1) == (backtrackV + 1) * (eLen + 1) + eLen + 1;
  }

  lemma PaidInAll(turns: nat, backtrackV: int, eIdx: int, vLen: nat, eLen: nat)
    requires Paid(turns, backtrackV, eIdx, vLen, eLen) && eIdx <= eLen
    ensures turns <= (vLen + 1) * (eLen + 1)
    ensures backtrackV < vLen ==> turns + 1 <= (vLen + 1) * (eLen + 1)
  {
    if backtrackV < vLen {
      assert (backtrackV + 2) * (eLen + 1) == (backtrackV + 1) * (eLen + 1) + eLen + 1;
      assert (backtrackV + 2) * (eLen + 1) <= (vLen + 1) * (eLen + 1);
    }
  }

  /** The greedy matcher decides the glob relation, and its main loop turns at most
      (len(value)+1)*(len(expr)+1) times. */
  method MatchIterative(value: string, expr: string) returns (matched: bool, ghost turns: nat)
    ensures matched <==> Glob(value, expr)
    ensures turns <= (|value| + 1) * (|expr| + 1)
  {
    hide Glob;
    var vIdx, eIdx := 0, 0;
    var backtrackV, backtrackE := -1, -1;
    turns := 0;
    while vIdx < |value|
      invariant Placed(value, expr, vIdx, eIdx, backtrackV, backtrackE)
      invariant Paid(turns, backtrackV, eIdx, |value|, |expr|)
      decreases |value| - backtrackV, |expr| - eIdx
    {
      if eIdx < |expr| && expr[eIdx] == '*' {
        MeetStar(value, expr, vIdx, eIdx, backtrackV, backtrackE);
        PayForward(turns, backtrackV, eIdx, |value|, |expr|, vIdx);
        backtrackV := vIdx;
        backtrackE := eIdx;
        eIdx := eIdx + 1;
      } else if eIdx < |expr| && expr[eIdx] == value[vIdx] {
        MeetByte(value, expr, vIdx, eIdx, backtrackV, backtrackE);
        PayForward(turns, backtrackV, eIdx, |value|, |expr|, backtrackV);
        vIdx, eIdx := vIdx + 1, eIdx + 1;
      } else if backtrackE != -1 {
        Mismatch(value, expr, vIdx, eIdx, backtrackV, backtrackE);
        PayBacktrack(turns, backtrackV, eIdx, |value|, |expr|, backtrackE + 1);
        backtrackV := backtrackV + 1;
        vIdx := backtrackV;
        eIdx := backtrackE + 1;
      } else {
        Mismatch(value, expr, vIdx, eIdx, backtrackV, backtrackE);
        PaidInAll(turns, backtrackV, eIdx, |value|, |expr|);
        return false, turns + 1;
      }
      turns := turns + 1;
    }
    PaidInAll(turns, backtrackV, eIdx, |value|, |expr|);
    Finish(value, expr, eIdx, backtrackV, backtrackE);
    ghost var left := eIdx;
    while eIdx < |expr| && expr[eIdx] == '*'
      invariant left <= eIdx <= |expr|
      invariant forall i :: left <= i < eIdx ==> expr[i] == '*'
    {
      eIdx := eIdx + 1;
    }
    assert eIdx < |expr| ==> expr[left..][eIdx - left] != '*';
    matched := eIdx == |expr|;
  }

  // ---------- One mask: fast paths in front of the matcher ----------

  lemma StarsMatchAnything(value: string, stars: string)
    requires OnlyStars(stars) && stars != ""
    ensures Glob(value, stars)
    decreases |stars|
  {
    assert stars == "*" + stars[1..];
    StarMeaning(value, stars[1..]);
    assert value[|value|..] == "";
    EmptyValueMatches(stars[1..]);
  }

  lemma {:induction false} LeadingStars(value: string, stars: string, rest: string)
    requires OnlyStars(stars) && stars != ""
    ensures Glob(value, stars + rest) <==> exists k :: 0 <= k <= |value| && Glob(value[k..], rest)
    decreases |stars|
  {
    var more := stars[1..];
    assert stars + rest == "*" + (more + rest);
    StarMeaning(value, more + rest);
    if more == "" {
      assert more + rest == rest;
    } else {
      forall k | 0 <= k <= |value|
        ensures Glob(value[k..], more + rest) <==> exists j :: k <= j <= |value| && Glob(value[j..], rest)
      {
        LeadingStars(value[k..], more, rest);
        forall j | 0 <= j <= |value| - k
          ensures value[k..][j..] == value[k + j..]
        {
        }
        if j :| k <= j <= |value| && Glob(value[j..], rest) {
          assert value[k..][j - k..] == value[j..];
        }
      }
      assert value[0..] == value;
    }
  }

  /** What a mask means when stars stand only at its ends. */
  lemma StarsAtTheEnds(value: string, before: string, text: string, after: string)
    requires OnlyStars(before) && StarFree(text) && OnlyStars(after)
    ensures Glob(value, before + text + after) <==>
            if before == "" && after == "" then value == text
            else if before == "" then text <= value
            else if after == "" then HasSuffix(value, text)
            else Contains(value, text)
  {
    assert Glob("", "") && (forall y: string :: y != "" ==> !Glob(y, ""));
    hide Glob;
    assert before + text + after == before + (text + after);
    forall k | 0 <= k <= |value|
      ensures Glob(value[k..], text + after) <==>
              OccursAt(value, text, k) && (after == "" ==> k + |text| == |value|)
    {
      LiteralMeaning(value[k..], text, after);
      if text <= value[k..] {
        assert value[k..][..|text|] == value[k..k + |text|];
        if after != "" {
          StarsMatchAnything(value[k..][|text|..], after);
        }
      }
    }
    if before == "" {
      assert before + (text + after) == text + after && value[0..] == value;
      assert OccursAt(value, text, 0) <==> text <= value;
      assert |text| == |value| ==> value[0..|text|] == value;
    } else {
      LeadingStars(value, before, text + after);
      if HasSuffix(value, text) {
        assert OccursAt(value, text, |value| - |text|);
      }
    }
  }

  /** The meaning of one mask: empty arguments never match. */
  predicate SingleMatches(value: string, expr: string) {
    value != "" && expr != "" && Glob(value, expr)
  }

  lemma StarAbsent(s: string)
    requires !Contains(s, "*")
    ensures StarFree(s)
  {
    forall i | 0 <= i < |s|
      ensures s[i] != '*'
    {
      assert !OccursAt(s, "*", i);
      assert s[i..i + 1] == [s[i]];
    }
  }

  /** Every fast path and the fallback give the one answer the glob relation gives. */
  method MatchSingle(value: string, expr: string) returns (matched: bool)
    ensures matched <==> value != "" && expr != "" && Glob(value, expr)
  {
    if expr == "" || value == "" {
      return false;
    }
    if expr == "*" {
      StarsMatchAnything(value, expr);
      return true;
    }
    if !Contains(expr, "*") {
      StarAbsent(expr);
      StarsAtTheEnds(value, "", expr, "");
      assert "" + expr + "" == expr;
      return value == expr;
    } else if "*" <= expr && HasSuffix(expr, "*") && !Contains(expr[1..|expr| - 1], "*") {
      var text := expr[1..|expr| - 1];
      StarAbsent(text);
      StarsAtTheEnds(value, "*", text, "*");
      assert expr == "*" + text + "*";
      return Contains(value, text);
    } else if "*" <= expr && !Contains(expr[1..], "*") {
      var text := expr[1..];
      StarAbsent(text);
      StarsAtTheEnds(value, "*", text, "");
      assert expr == "*" + text + "";
      return HasSuffix(value, text);
    } else if HasSuffix(expr, "*") && !Contains(expr[..|expr| - 1], "*") {
      var text := expr[..|expr| - 1];
      StarAbsent(text);
      StarsAtTheEnds(value, "", text, "*");
      assert expr == "" + text + "*";
      return text <= value;
    } else {
      ghost var turns: nat;
      matched, turns := MatchIterative(value, expr);
    }
  }

  // ---------- Mask lists ----------

  function TrimSpaces(token: string): (mask: string)
    ensures mask != "" ==> mask[0] != ' ' && mask[|mask| - 1] != ' '
  {
    if token != "" && token[0] == ' ' then TrimSpaces(token[1..])
    else if token != "" && token[|token| - 1] == ' ' then TrimSpaces(token[..|token| - 1])
    else token
  }

  function Spaces(n: nat): string { seq(n, _ => ' ') }

  lemma SpacesStep(n: nat)
    requires n > 0
    ensures Spaces(n) == " " + Spaces(n - 1) == Spaces(n - 1) + " " && Spaces(0) == ""
  {
  }

  /** Trimming takes away spaces at both ends only. */
  lemma {:induction false} TrimSpacesMeaning(token: string) returns (left: nat, right: nat)
    ensures token == Spaces(left) + TrimSpaces(token) + Spaces(right)
    decreases |token|
  {
    var mask := TrimSpaces(token);
    left, right := 0, 0;
    SpacesStep(1);
    hide Spaces;
    if token != "" && token[0] == ' ' {
      assert mask == TrimSpaces(token[1..]);
      hide TrimSpaces;
      left, right := TrimSpacesMeaning(token[1..]);
      left := left + 1;
      SpacesStep(left);
      assert token == " " + token[1..];
      assert " " + (Spaces(left - 1) + mask + Spaces(right)) == " " + Spaces(left - 1) + mask + Spaces(right);
    } else if token != "" && token[|token| - 1] == ' ' {
      assert mask == TrimSpaces(token[..|token| - 1]);
      hide TrimSpaces;
      left, right := TrimSpacesMeaning(token[..|token| - 1]);
      right := right + 1;
      SpacesStep(right);
      assert token == token[..|token| - 1] + " ";
      assert Spaces(left) + mask + Spaces(right - 1) + " " == Spaces(left) + mask + (Spaces(right - 1) + " ");
    } else {
      assert token == "" + token + "";
    }
  }

  predicate IncludeHit(value: string, token: string) {
    var mask := TrimSpaces(token);
    mask != "" && mask[0] != '!' && SingleMatches(value, mask)
  }

  predicate ExcludeHit(value: string, token: string) {
    var mask := TrimSpaces(token);
    mask != "" && mask[0] == '!' && SingleMatches(value, mask[1..])
  }

  predicate SomeInclude(value: string, tokens: seq<string>) {
    exists t :: t in tokens && IncludeHit(value, t)
  }

  predicate SomeExclude(value: string, tokens: seq<string>) {
    exists t :: t in tokens && ExcludeHit(value, t)
  }

  /** The rule for a mask list: some include mask matches and no exclude mask does. */
  predicate ListMatches(value: string, pattern: string) {
    SomeInclude(value, Split(pattern, ",")) && !SomeExclude(value, Split(pattern, ","))
  }

  /** Which tokens the scan has dealt with when it stands at `start`. */
  ghost predicate Scanned(pattern: string, start: nat, done: nat) {
    var tokens := Split(pattern, ",");
    && done <= |tokens| && start <= |pattern| + 1
    && if start == |pattern| + 1 then done == |tokens| else tokens[done..] == Split(pattern[start..], ",")
  }

  lemma TailOfTail<T>(s: seq<T>, k: nat)
    requires k <= |s| && s[k..] != []
    ensures k < |s| && s[k] == s[k..][0] && s[k + 1..] == s[k..][1..]
  {
  }

  /** The first token of what is left, and what is left behind it. */
  lemma SplitHere(pattern: string, start: nat, i: nat)
    requires start <= i <= |pattern|
    requires (forall j :: start <= j < i ==> pattern[j] != ',') && (i < |pattern| ==> pattern[i] == ',')
    ensures var rest := Split(pattern[start..], ",");
            && rest != [] && rest[0] == pattern[start..i]
            && rest[1..] == if i == |pattern| then [] else Split(pattern[i + 1..], ",")
  {
    hide Split;
    var rest := pattern[start..];
    assert rest[..i - start] == pattern[start..i];
    SplitAtFirst(rest, ',', i - start);
    if i < |pattern| {
      assert rest[i - start + 1..] == pattern[i + 1..];
    } else {
      assert rest == pattern[start..i];
    }
  }

  lemma ScanToken(pattern: string, start: nat, i: nat, done: nat)
    requires start <= i <= |pattern| && Scanned(pattern, start, done)
    requires (forall j :: start <= j < i ==> pattern[j] != ',') && (i < |pattern| ==> pattern[i] == ',')
    ensures done < |Split(pattern, ",")| && Split(pattern, ",")[done] == pattern[start..i]
    ensures Scanned(pattern, i + 1, done + 1)
  {
    hide Split;
    var tokens := Split(pattern, ",");
    var rest := Split(pattern[start..], ",");
    SplitHere(pattern, start, i);
    assert tokens[done..] == rest;
    TailOfTail(tokens, done);
  }

  /** The scan stands at `start`, saw no exclude hit so far, and an include hit iff `found`. */
  ghost predicate Swept(value: string, pattern: string, start: nat, done: nat, found: bool) {
    && Scanned(pattern, start, done)
    && (found <==> SomeInclude(value, Split(pattern, ",")[..done]))
    && !SomeExclude(value, Split(pattern, ",")[..done])
  }

  lemma EmptyNeverMatches(value: string, pattern: string)
    ensures value == "" || pattern == "" ==> !ListMatches(value, pattern)
  {
    if pattern == "" {
      SplitAtFirst(pattern, ',', 0);
    }
  }

  lemma SweepStart(value: string, pattern: string)
    ensures Swept(value, pattern, 0, 0, false)
  {
    assert pattern[0..] == pattern;
  }

  lemma SweepToken(value: string, pattern: string, start: nat, i: nat, done: nat, found: bool)
    requires start <= i <= |pattern| && Swept(value, pattern, start, done, found)
    requires (forall j :: start <= j < i ==> pattern[j] != ',') && (i < |pattern| ==> pattern[i] == ',')
    ensures ExcludeHit(value, pattern[start..i]) ==> !ListMatches(value, pattern)
    ensures !ExcludeHit(value, pattern[start..i]) ==>
              Swept(value, pattern, i + 1, done + 1, found || IncludeHit(value, pattern[start..i]))
  {
    hide Split, IncludeHit, ExcludeHit, Scanned;
    ScanToken(pattern, start, i, done);
    var tokens := Split(pattern, ",");
    assert tokens[..done + 1] == tokens[..done] + [tokens[done]];
  }

  lemma SweepEnd(value: string, pattern: string, done: nat, found: bool)
    requires Swept(value, pattern, |pattern| + 1, done, found)
    ensures found <==> ListMatches(value, pattern)
  {
    assert Split(pattern, ",")[..done] == Split(pattern, ",");
  }

  lemma TrimStep(token: string, a: nat, b: nat)
    requires a < b <= |token|
    ensures token[a] == ' ' ==> TrimSpaces(token[a..b]) == TrimSpaces(token[a + 1..b])
    ensures token[a] != ' ' && token[b - 1] == ' ' ==> TrimSpaces(token[a..b]) == TrimSpaces(token[a..b - 1])
    ensures token[a] != ' ' && token[b - 1] != ' ' ==> TrimSpaces(token[a..b]) == token[a..b]
  {
    var t := token[a..b];
    assert t[1..] == token[a + 1..b] && t[..|t| - 1] == token[a..b - 1];
  }

  method TrimToken(token: string) returns (tokenStart: nat, tokenEnd: nat)
    ensures tokenStart <= tokenEnd <= |token| && token[tokenStart..tokenEnd] == TrimSpaces(token)
  {
    tokenStart, tokenEnd := 0, |token|;
    assert token[0..|token|] == token;
    assert TrimSpaces("") == "";
    hide TrimSpaces;
    while tokenStart < tokenEnd && token[tokenStart] == ' '
      invariant tokenStart <= tokenEnd == |token|
      invariant TrimSpaces(token[tokenStart..tokenEnd]) == TrimSpaces(token)
    {
      TrimStep(token, tokenStart, tokenEnd);
      tokenStart := tokenStart + 1;
    }
    while tokenEnd > tokenStart && token[tokenEnd - 1] == ' '
      invariant tokenStart <= tokenEnd <= |token|
      invariant tokenStart < tokenEnd ==> token[tokenStart] != ' '
      invariant TrimSpaces(token[tokenStart..tokenEnd]) == TrimSpaces(token)
    {
      TrimStep(token, tokenStart, tokenEnd);
      tokenEnd := tokenEnd - 1;
    }
    if tokenStart < tokenEnd {
      TrimStep(token, tokenStart, tokenEnd);
    }
  }

  /** One token of a list: trim it, then test it as an include or as an exclude mask. */
  method CheckToken(value: string, token: string) returns (included: bool, excluded: bool)
    ensures included <==> IncludeHit(value, token)
    ensures excluded <==> ExcludeHit(value, token)
  {
    hide Glob;
    included, excluded := false, false;
    var tokenStart, tokenEnd := TrimToken(token);
    if tokenStart != tokenEnd {
      var mask := token[tokenStart..tokenEnd];
      if mask[0] == '!' {
        excluded := MatchSingle(value, mask[1..]);
      } else {
        included := MatchSingle(value, mask);
      }
    }
  }

  /** The in-place scan of a mask list, early return included, decides the declarative rule. */
  method Match(value: string, pattern: string) returns (matched: bool)
    ensures matched <==> ListMatches(value, pattern)
  {
    hide *;
    EmptyNeverMatches(value, pattern);
    if pattern == "" || value == "" {
      return false;
    }
    SweepStart(value, pattern);
    var found := false;
    var start, i := 0, 0;
    ghost var done := 0;
    while i <= |pattern|
      invariant start <= i <= |pattern| + 1
      invariant i == |pattern| + 1 ==> start == i
      invariant forall j :: start <= j < i && j < |pattern| ==> pattern[j] != ','
      invariant Swept(value, pattern, start, done, found)
    {
      if i == |pattern| || pattern[i] == ',' {
        SweepToken(value, pattern, start, i, done, found);
        var included, excluded := CheckToken(value, pattern[start..i]);
        if excluded {
          return false;
        }
        found := found || included;
        start := i + 1;
        done := done + 1;
      }
      i := i + 1;
    }
    SweepEnd(value, pattern, done, found);
    return found;
  }

  lemma {:induction false} TrimLast(s: string)
    ensures TrimSpaces(s + " ") == TrimSpaces(s)
    decreases |s|
  {
    if s == "" {
      assert s + " " == " " && " "[1..] == "";
    } else if s[0] == ' ' {
      assert (s + " ")[1..] == s[1..] + " ";
      TrimLast(s[1..]);
    } else {
      assert (s + " ")[..|s|] == s;
    }
  }

  lemma {:induction false} TrimPadding(token: string, left: nat, right: nat)
    ensures TrimSpaces(Spaces(left) + token + Spaces(right)) == TrimSpaces(token)
    decreases left + right
  {
    if left > 0 {
      assert (Spaces(left) + token + Spaces(right))[1..] == Spaces(left - 1) + token + Spaces(right);
      TrimPadding(token, left - 1, right);
    } else if right > 0 {
      assert Spaces(0) + token + Spaces(right) == (Spaces(0) + token + Spaces(right - 1)) + " ";
      TrimLast(Spaces(0) + token + Spaces(right - 1));
      TrimPadding(token, 0, right - 1);
    } else {
      assert Spaces(0) + token + Spaces(0) == token;
    }
  }

  function MaskSet(tokens: seq<string>): set<string> {
    set t | t in tokens :: TrimSpaces(t)
  }

  lemma SameHits(value: string, tokens: seq<string>, others: seq<string>)
    requires MaskSet(tokens) <= MaskSet(others)
    ensures SomeInclude(value, tokens) ==> SomeInclude(value, others)
    ensures SomeExclude(value, tokens) ==> SomeExclude(value, others)
  {
    if t :| t in tokens && IncludeHit(value, t) {
      assert TrimSpaces(t) in MaskSet(tokens);
      var u :| u in others && TrimSpaces(u) == TrimSpaces(t);
      assert IncludeHit(value, u);
    }
    if t :| t in tokens && ExcludeHit(value, t) {
      assert TrimSpaces(t) in MaskSet(tokens);
      var u :| u in others && TrimSpaces(u) == TrimSpaces(t);
      assert ExcludeHit(value, u);
    }
  }

  /** Only the set of trimmed masks counts: writing the same masks in another order, more than
      once or padded with spaces gives the same answer, in spite of the early return. */
  lemma MatchDependsOnMaskSet(value: string, tokens: seq<string>, others: seq<string>)
    requires |tokens| > 0 && |others| > 0
    requires forall t :: t in tokens || t in others ==> ',' !in t
    requires MaskSet(tokens) == MaskSet(others)
    ensures ListMatches(value, Join(tokens, ",")) <==> ListMatches(value, Join(others, ","))
  {
    SplitOfJoin(tokens, ',');
    SplitOfJoin(others, ',');
    SameHits(value, tokens, others);
    SameHits(value, others, tokens);
  }

  // ---------- The deprecated matcher ----------

  function RemoveStars(s: string): (r: string)
    ensures StarFree(r)
  {
    if s == "" then "" else (if s[0] == '*' then "" else [s[0]]) + RemoveStars(s[1..])
  }

  /** What the deprecated matcher takes one unnegated mask to mean. */
  predicate LegacyMask(value: string, mask: string) {
    var text := RemoveStars(mask);
    if mask == "*" then true
    else if "*" <= mask && !HasSuffix(mask, "*") then HasSuffix(value, text)
    else if !("*" <= mask) && HasSuffix(mask, "*") then text <= value
    else if "*" <= mask && HasSuffix(mask, "*") then Contains(value, text)
    else value == text
  }

  predicate LegacyHit(value: string, token: string) {
    token != "" && if token[0] == '!' then !LegacyMask(value, token[1..]) else LegacyMask(value, token)
  }

  predicate LegacyMatches(value: string, pattern: string) {
    exists t :: t in Split(pattern, ",") && LegacyHit(value, t)
  }

  method Any(value: string, pattern: string) returns (matched: bool)
    ensures matched <==> LegacyMatches(value, pattern)
  {
    if pattern == "" {
      assert Split(pattern, ",") == [""];
      return false;
    }
    hide Split, RemoveStars, Contains, HasSuffix;
    var tokens := Split(pattern, ",");
    for n := 0 to |tokens|
      invariant forall k :: 0 <= k < n ==> !LegacyHit(value, tokens[k])
    {
      var exp := tokens[n];
      if |exp| == 0 {
        continue;
      }
      var reverse, ok := false, false;
      if exp[..1] == "!" {
        exp := exp[1..];
        reverse := true;
      }
      ghost var mask := exp;
      assert reverse <==> tokens[n][0] == '!';
      if exp != "*" {
        var prefix, suffix := "*" <= exp, HasSuffix(exp, "*");
        exp := RemoveStars(exp);
        if prefix && !suffix {
          ok := HasSuffix(value, exp);
        } else if !prefix && suffix {
          ok := exp <= value;
        } else if prefix && suffix {
          ok := Contains(value, exp);
        } else {
          ok := value == exp;
        }
      } else {
        ok := true;
      }
      assert ok <==> LegacyMask(value, mask);
      if reverse {
        ok := !ok;
      }
      assert ok <==> LegacyHit(value, tokens[n]);
      if ok {
        return true;
      }
    }
    return false;
  }

  /** The mask without the stars at its two ends. */
  function Core(mask: string): string {
    if mask != "" && mask[0] == '*' then Core(mask[1..])
    else if mask != "" && mask[|mask| - 1] == '*' then Core(mask[..|mask| - 1])
    else mask
  }

  lemma StarsGrow(stars: string)
    requires OnlyStars(stars)
    ensures OnlyStars("*" + stars) && OnlyStars(stars + "*")
  {
  }

  lemma {:induction false} CoreInside(mask: string) returns (before: string, after: string)
    ensures OnlyStars(before) && OnlyStars(after)
    ensures mask == before + Core(mask) + after
    decreases |mask|
  {
    assert OnlyStars("");
    hide OnlyStars;
    if mask != "" && mask[0] == '*' {
      before, after := CoreInside(mask[1..]);
      assert mask == "*" + mask[1..];
      StarsGrow(before);
      assert mask == ("*" + before) + Core(mask[1..]) + after;
      before := "*" + before;
    } else if mask != "" && mask[|mask| - 1] == '*' {
      before, after := CoreInside(mask[..|mask| - 1]);
      assert mask == mask[..|mask| - 1] + "*";
      StarsGrow(after);
      assert mask == before + Core(mask[..|mask| - 1]) + (after + "*");
      after := after + "*";
    } else {
      before, after := "", "";
    }
  }

  lemma {:induction false} RemoveStarsOfSum(a: string, b: string)
    ensures RemoveStars(a + b) == RemoveStars(a) + RemoveStars(b)
    decreases |a|
  {
    if a == "" {
      assert a + b == b;
    } else {
      assert (a + b)[1..] == a[1..] + b;
      RemoveStarsOfSum(a[1..], b);
    }
  }

  lemma {:induction false} RemoveStarsKeeps(s: string)
    ensures StarFree(s) ==> RemoveStars(s) == s
    ensures OnlyStars(s) ==> RemoveStars(s) == ""
    decreases |s|
  {
    if s != "" {
      assert s == [s[0]] + s[1..];
      RemoveStarsKeeps(s[1..]);
    }
  }

  lemma StrippedMask(mask: string, before: string, after: string)
    requires OnlyStars(before) && OnlyStars(after) && StarFree(Core(mask))
    requires mask == before + Core(mask) + after
    ensures RemoveStars(mask) == Core(mask)
  {
    var text := Core(mask);
    RemoveStarsOfSum(before + text, after);
    RemoveStarsOfSum(before, text);
    RemoveStarsKeeps(before);
    RemoveStarsKeeps(text);
    RemoveStarsKeeps(after);
  }

  lemma StarsShow(before: string, text: string, after: string)
    requires OnlyStars(before) && OnlyStars(after) && text != "" && StarFree(text)
    ensures "*" <= before + text + after <==> before != ""
    ensures HasSuffix(before + text + after, "*") <==> after != ""
  {
    var mask := before + text + after;
    assert mask[|mask| - 1..] == [mask[|mask| - 1]];
    assert after == "" ==> mask[|mask| - 1] == text[|text| - 1];
    assert after != "" ==> mask[|mask| - 1] == after[|after| - 1];
    assert before == "" ==> mask[0] == text[0];
  }

  /** A mask without inner stars means the same to the deprecated matcher. */
  lemma LegacyMaskAgrees(value: string, mask: string)
    requires mask != "" && StarFree(Core(mask))
    ensures LegacyMask(value, mask) <==> Glob(value, mask)
  {
    var before, after := CoreInside(mask);
    StrippedMask(mask, before, after);
    if Core(mask) == "" {
      assert OnlyStars(mask);
      StarsMatchAnything(value, mask);
      assert OccursAt(value, "", 0);
      assert mask[|mask| - 1..] == "*";
    } else {
      StarsShow(before, Core(mask), after);
      StarsAtTheEnds(value, before, Core(mask), after);
    }
  }

  /** `Any` and `Match` agree on a non-empty value when the list has no '!' masks, no padded
      masks and no mask with a star between two other bytes. */
  lemma LegacyAgrees(value: string, pattern: string)
    requires value != ""
    requires forall t :: t in Split(pattern, ",") && t != "" ==> t[0] != '!' && TrimSpaces(t) == t && StarFree(Core(t))
    ensures LegacyMatches(value, pattern) <==> ListMatches(value, pattern)
  {
    var tokens := Split(pattern, ",");
    forall t | t in tokens
      ensures LegacyHit(value, t) <==> IncludeHit(value, t)
      ensures !ExcludeHit(value, t)
    {
      if t != "" {
        LegacyMaskAgrees(value, t);
      }
    }
  }

  // ---------- An inner star always breaks the agreement ----------

  lemma GlobSkipStar(v: string, m: string)
    requires Glob(v, m)
    ensures Glob(v, "*" + m)
  {
    assert ("*" + m)[1..] == m;
  }

  lemma GlobEatByte(x: char, v: string, m: string)
    requires m != "" && m[0] == '*' && Glob(v, m)
    ensures Glob([x] + v, m)
  {
    assert ([x] + v)[1..] == v;
  }

  lemma GlobSameByte(x: char, v: string, m: string)
    requires x != '*' && Glob(v, m)
    ensures Glob([x] + v, [x] + m)
  {
    assert ([x] + v)[1..] == v && ([x] + m)[1..] == m;
  }

  /** Values matched one after the other are matched by the masks one after the other. */
  lemma {:induction false} GlobSum(v: string, m: string, w: string, n: string)
    requires Glob(v, m) && Glob(w, n)
    ensures Glob(v + w, m + n)
    decreases |v| + |m|
  {
    if m == "" {
      assert v + w == w && m + n == n;
    } else if m[0] == '*' && Glob(v, m[1..]) {
      GlobSum(v, m[1..], w, n);
      GlobSkipStar(v + w, m[1..] + n);
      assert "*" + (m[1..] + n) == m + n;
    } else if m[0] == '*' {
      GlobSum(v[1..], m, w, n);
      GlobEatByte(v[0], v[1..] + w, m + n);
      assert [v[0]] + (v[1..] + w) == v + w;
    } else {
      GlobSum(v[1..], m[1..], w, n);
      GlobSameByte(m[0], v[1..] + w, m[1..] + n);
      assert [v[0]] + (v[1..] + w) == v + w && [m[0]] + (m[1..] + n) == m + n;
    }
  }

  /** The text of a mask matches the mask. */
  lemma {:induction false} TextMatches(mask: string)
    ensures Glob(RemoveStars(mask), mask)
    decreases |mask|
  {
    if mask != "" {
      var rest := RemoveStars(mask[1..]);
      TextMatches(mask[1..]);
      assert mask == [mask[0]] + mask[1..];
      if mask[0] == '*' {
        GlobSkipStar(rest, mask[1..]);
        assert "" + rest == rest;
      } else {
        GlobSameByte(mask[0], rest, mask[1..]);
      }
    }
  }

  lemma {:induction false} TextLeft(s: string, k: nat)
    requires k < |s| && s[k] != '*'
    ensures RemoveStars(s) != ""
    decreases k
  {
    if k > 0 {
      TextLeft(s[1..], k - 1);
    }
  }

  /** Whatever the deprecated reading accepts holds the text of the mask in one piece. */
  lemma LegacyHoldsText(value: string, mask: string)
    requires LegacyMask(value, mask) && mask != "*"
    ensures Contains(value, RemoveStars(mask))
  {
    var text := RemoveStars(mask);
    if HasSuffix(value, text) {
      assert OccursAt(value, text, |value| - |text|);
    }
    if text <= value {
      assert OccursAt(value, text, 0);
    }
  }

  /** One byte put between two texts, other than its neighbours, leaves no room for both. */
  lemma TornApart(a: string, x: char, b: string)
    requires a != "" && b != "" && a[|a| - 1] != x && b[0] != x
    ensures !Contains(a + [x] + b, a + b)
  {
    var v, text := a + [x] + b, a + b;
    forall i | 0 <= i <= |v|
      ensures !OccursAt(v, text, i)
    {
      if i == 0 {
        assert v[0..|text|][|a|] == x && text[|a|] == b[0];
      } else if i == 1 {
        assert v[1..1 + |text|][|a| - 1] == x && text[|a| - 1] == a[|a| - 1];
      }
    }
  }

  lemma {:induction false} CoreEnds(mask: string)
    ensures Core(mask) != "" ==> Core(mask)[0] != '*' && Core(mask)[|Core(mask)| - 1] != '*'
    decreases |mask|
  {
    if mask != "" && mask[0] == '*' {
      CoreEnds(mask[1..]);
    } else if mask != "" && mask[|mask| - 1] == '*' {
      CoreEnds(mask[..|mask| - 1]);
    }
  }

  lemma CutAt(s: string, i: nat)
    requires i < |s|
    ensures s == s[..i] + [s[i]] + s[i + 1..]
  {
  }

  /** A star with other bytes on both sides of it. */
  lemma InnerStar(mask: string) returns (before: string, after: string)
    requires !StarFree(Core(mask))
    ensures mask == before + "*" + after && RemoveStars(before) != "" && RemoveStars(after) != ""
  {
    var left, right := CoreInside(mask);
    var core := Core(mask);
    CoreEnds(mask);
    var k :| 0 <= k < |core| && core[k] == '*';
    hide Core, RemoveStars, OnlyStars, StarFree;
    CutAt(core, k);
    before, after := left + core[..k], core[k + 1..] + right;
    assert mask == before + "*" + after;
    assert before[|left|] == core[0];
    TextLeft(before, |left|);
    assert after[|core| - 2 - k] == core[|core| - 1];
    TextLeft(after, |core| - 2 - k);
  }

  /** The texts on both sides of an inner star with a byte torn between them. */
  lemma TornMatches(before: string, x: char, after: string)
    ensures Glob(RemoveStars(before) + [x] + RemoveStars(after), before + "*" + after)
  {
    hide Glob, RemoveStars;
    assert Glob([x], "*") by {
      StarsMatchAnything([x], "*");
    }
    TextMatches(before);
    TextMatches(after);
    GlobSum(RemoveStars(before), before, [x], "*");
    GlobSum(RemoveStars(before) + [x], before + "*", RemoveStars(after), after);
  }

  lemma TextAroundStar(before: string, after: string)
    ensures RemoveStars(before + "*" + after) == RemoveStars(before) + RemoveStars(after)
  {
    assert OnlyStars("*");
    hide RemoveStars, OnlyStars;
    RemoveStarsOfSum(before + "*", after);
    RemoveStarsOfSum(before, "*");
    RemoveStarsKeeps("*");
    assert RemoveStars(before) + "" == RemoveStars(before);
  }

  function OtherByte(a: char, b: char): (x: char)
    ensures x != a && x != b
  {
    if 'a' != a && 'a' != b then 'a' else if 'b' != a && 'b' != b then 'b' else 'c'
  }

  /** A value on which the two readings of a mask with an inner star differ. */
  lemma Torn(mask: string) returns (value: string)
    requires !StarFree(Core(mask))
    ensures value != "" && Glob(value, mask) && !LegacyMask(value, mask)
  {
    var before, after := InnerStar(mask);
    hide Glob, RemoveStars, LegacyMask, Core, StarFree, Contains;
    var a, b := RemoveStars(before), RemoveStars(after);
    var x := OtherByte(a[|a| - 1], b[0]);
    value := a + [x] + b;
    TornMatches(before, x, after);
    TextAroundStar(before, after);
    TornApart(a, x, b);
    if LegacyMask(value, mask) {
      LegacyHoldsText(value, mask);
    }
  }

  /** The deprecated matcher reads a mask as it is meant exactly when no star stands between two
      other bytes. */
  lemma LegacyMaskAgreesIff(mask: string)
    requires mask != ""
    ensures (forall value :: value != "" ==> (LegacyMask(value, mask) <==> Glob(value, mask))) <==> StarFree(Core(mask))
  {
    if StarFree(Core(mask)) {
      forall value | value != ""
        ensures LegacyMask(value, mask) <==> Glob(value, mask)
      {
        LegacyMaskAgrees(value, mask);
      }
    } else {
      var value := Torn(mask);
    }
  }

  /** Such a mask and value. */
  lemma InnerStarDiffers()
    ensures Glob("axb", "a*b") && !LegacyMask("axb", "a*b")
  {
    assert Core("a*b") == "a*b" && !StarFree("a*b");
    TextMatches("a*b");
    GlobSum("a", "a", "x", "*");
    GlobSum("ax", "a*", "b", "b");
    assert "a" + "x" + "b" == "axb" && "a" + "*" + "b" == "a*b";
    assert RemoveStars("a*b") == "ab";
  }

  // ---------- Spaces inside a mask ----------

  /** The mask as documented: without any of its spaces. */
  function Squeeze(mask: string): (m: string)
    ensures ' ' !in m
  {
    if mask == "" then "" else (if mask[0] == ' ' then "" else [mask[0]]) + Squeeze(mask[1..])
  }

  lemma {:induction false} SqueezeSum(a: string, b: string)
    ensures Squeeze(a + b) == Squeeze(a) + Squeeze(b)
    decreases |a|
  {
    if a == "" {
      assert a + b == b;
    } else {
      assert (a + b)[1..] == a[1..] + b;
      SqueezeSum(a[1..], b);
    }
  }

  lemma {:induction false} SqueezeOfTrimmed(token: string)
    ensures Squeeze(TrimSpaces(token)) == Squeeze(token)
    decreases |token|
  {
    if token != "" && token[0] == ' ' {
      SqueezeOfTrimmed(token[1..]);
      assert "" + Squeeze(token[1..]) == Squeeze(token[1..]);
    } else if token != "" && token[|token| - 1] == ' ' {
      SqueezeOfTrimmed(token[..|token| - 1]);
      SqueezeSum(token[..|token| - 1], " ");
      assert token == token[..|token| - 1] + " ";
      assert Squeeze(" ") == "";
    }
  }

  lemma {:induction false} SqueezeKeeps(mask: string)
    requires ' ' !in mask
    ensures Squeeze(mask) == mask
    decreases |mask|
  {
    if mask != "" {
      SqueezeKeeps(mask[1..]);
      assert mask == [mask[0]] + mask[1..];
    }
  }

  /** A value that matches a mask holds every byte of it but the stars. */
  lemma {:induction false} MatchHoldsBytes(value: string, mask: string, c: char)
    requires Glob(value, mask) && c in mask && c != '*'
    ensures c in value
    decreases |value| + |mask|
  {
    if mask[0] == '*' && !Glob(value, mask[1..]) {
      MatchHoldsBytes(value[1..], mask, c);
    } else if mask[0] == '*' {
      MatchHoldsBytes(value, mask[1..], c);
    } else if mask[0] != c {
      MatchHoldsBytes(value[1..], mask[1..], c);
    }
  }

  lemma {:induction false} NoTextLeft(mask: string)
    requires RemoveStars(mask) == ""
    ensures OnlyStars(mask)
  {
    forall k | 0 <= k < |mask|
      ensures mask[k] == '*'
    {
      if mask[k] != '*' {
        TextLeft(mask, k);
      }
    }
  }

  lemma {:induction false} RemoveStarsInside(s: string)
    ensures forall c :: c in RemoveStars(s) ==> c in s
    decreases |s|
  {
    if s != "" {
      RemoveStarsInside(s[1..]);
    }
  }

  /** A value without spaces that matches the squeezed mask. */
  lemma SqueezedValue(mask: string) returns (value: string)
    requires Squeeze(mask) != ""
    ensures value != "" && ' ' !in value && Glob(value, Squeeze(mask))
  {
    var m := Squeeze(mask);
    value := RemoveStars(m);
    TextMatches(m);
    if value == "" {
      NoTextLeft(m);
      value := "x";
      StarsMatchAnything(value, m);
    } else {
      RemoveStarsInside(m);
    }
  }

  lemma {:induction false} TrimmedHasText(token: string)
    ensures Squeeze(token) == "" ==> TrimSpaces(token) == ""
    decreases |token|
  {
    if token != "" && token[0] == ' ' {
      TrimmedHasText(token[1..]);
    }
  }

  /** The spaces of a mask are ignored, as documented, exactly when they all stand at its ends. */
  lemma SpacesIgnoredIff(token: string)
    ensures (forall value :: SingleMatches(value, TrimSpaces(token)) <==> SingleMatches(value, Squeeze(token)))
            <==> ' ' !in TrimSpaces(token)
  {
    var mask := TrimSpaces(token);
    SqueezeOfTrimmed(token);
    if ' ' !in mask {
      SqueezeKeeps(mask);
    } else {
      TrimmedHasText(token);
      var value := SqueezedValue(mask);
      if Glob(value, mask) {
        MatchHoldsBytes(value, mask, ' ');
      }
      assert SingleMatches(value, Squeeze(token)) && !SingleMatches(value, mask);
    }
  }

  /** A mask and value on which documentation and code differ. */
  lemma InnerSpaceCounts()
    ensures TrimSpaces("a b") == "a b" && Squeeze("a b") == "ab"
    ensures SingleMatches("ab", "ab") && !SingleMatches("ab", "a b")
  {
    assert "a b"[1..] == " b" && " b"[1..] == "b" && "b"[1..] == "" && "ab"[1..] == "b";
    LiteralMeaning("ab", "ab", "");
    assert "ab"[2..] == "" && "ab" + "" == "ab" && Glob("", "");
    LiteralMeaning("ab", "a b", "");
    assert "a b" + "" == "a b";
  }

  // ---------- One more mask in a list ----------

  /** Text of a mask as one writes it: not empty, no comma, no space at its ends. */
  predicate Written(mask: string) {
    mask != "" && ',' !in mask && mask[0] != ' ' && mask[|mask| - 1] != ' '
  }

  lemma SplitAppend(list: string, mask: string)
    requires ',' !in mask
    ensures Split(list + "," + mask, ",") == Split(list, ",") + [mask]
  {
    hide Split;
    SplitSum(list, ',', mask);
    assert mask[..|mask|] == mask;
    SplitAtFirst(mask, ',', |mask|);
  }

  lemma HitsAppend(value: string, tokens: seq<string>, t: string)
    ensures SomeInclude(value, tokens + [t]) <==> SomeInclude(value, tokens) || IncludeHit(value, t)
    ensures SomeExclude(value, tokens + [t]) <==> SomeExclude(value, tokens) || ExcludeHit(value, t)
  {
    hide IncludeHit, ExcludeHit;
    if u :| u in tokens && IncludeHit(value, u) {
      assert u in tokens + [t];
    }
    if u :| u in tokens && ExcludeHit(value, u) {
      assert u in tokens + [t];
    }
    assert t in tokens + [t];
  }

  lemma SingleHits(value: string, mask: string)
    requires value != "" && Written(mask)
    ensures mask[0] != '!' ==> (IncludeHit(value, mask) <==> Glob(value, mask)) && !ExcludeHit(value, mask)
    ensures mask[0] == '!' && mask != "!" ==> !IncludeHit(value, mask) && (ExcludeHit(value, mask) <==> Glob(value, mask[1..]))
  {
    hide Glob;
    assert TrimSpaces(mask) == mask;
  }

  /** Appending an exclude mask takes away exactly the values it matches. */
  lemma ExcludeAdded(value: string, list: string, mask: string)
    requires value != "" && mask != "" && ',' !in mask && mask[|mask| - 1] != ' '
    ensures ListMatches(value, list + ",!" + mask) <==> ListMatches(value, list) && !Glob(value, mask)
  {
    hide Split, Glob, IncludeHit, ExcludeHit, SomeInclude, SomeExclude;
    var token := "!" + mask;
    assert list + ",!" + mask == list + "," + token && token[1..] == mask;
    SplitAppend(list, token);
    HitsAppend(value, Split(list, ","), token);
    SingleHits(value, token);
  }

  /** The masks of a list, trimmed. */
  function Names(list: string): set<string> { MaskSet(Split(list, ",")) }

  /** What a value meets that some exclude mask of a list names. */
  ghost predicate Excluded(value: string, list: string) {
    exists mask :: "!" + mask in Names(list) && mask != "" && Glob(value, mask)
  }

  lemma ExcludedIs(value: string, list: string)
    requires value != ""
    ensures Excluded(value, list) <==> SomeExclude(value, Split(list, ","))
  {
    hide Glob, Split;
    var tokens := Split(list, ",");
    if mask :| "!" + mask in Names(list) && mask != "" && Glob(value, mask) {
      var t :| t in tokens && TrimSpaces(t) == "!" + mask;
      assert ("!" + mask)[1..] == mask;
      assert ExcludeHit(value, t);
    }
    if t :| t in tokens && ExcludeHit(value, t) {
      var mask := TrimSpaces(t)[1..];
      assert TrimSpaces(t) == "!" + mask;
      assert TrimSpaces(t) in Names(list);
    }
  }

  /** Appending an include mask adds exactly the values it matches, but none that an exclude mask
      of the list names. */
  lemma IncludeAdded(value: string, list: string, mask: string)
    requires value != "" && Written(mask) && mask[0] != '!'
    ensures ListMatches(value, list + "," + mask) <==>
            ListMatches(value, list) || (Glob(value, mask) && !Excluded(value, list))
  {
    ExcludedIs(value, list);
    hide Split, Glob, IncludeHit, ExcludeHit, SomeInclude, SomeExclude;
    SplitAppend(list, mask);
    HitsAppend(value, Split(list, ","), mask);
    SingleHits(value, mask);
  }

  /** A list of one mask means that mask; empty arguments match nothing. */
  lemma OneMaskList(value: string, mask: string)
    ensures ListMatches(value, "") == ListMatches("", mask) == false
    ensures value != "" && Written(mask) ==>
              (ListMatches(value, mask) <==> mask[0] != '!' && Glob(value, mask))
  {
    EmptyNeverMatches(value, "");
    EmptyNeverMatches("", mask);
    if value != "" && Written(mask) {
      assert mask[..|mask|] == mask;
      SplitAtFirst(mask, ',', |mask|);
      hide Split, Glob;
      if mask == "!" {
        assert TrimSpaces(mask) == mask && mask[1..] == "";
      } else {
        SingleHits(value, mask);
      }
      assert mask in [mask];
    }
  }

  // ---------- The deprecated lists ----------

  lemma EndsShow(before: string, core: string, after: string)
    requires OnlyStars(before) && OnlyStars(after) && core != "" && core[0] != '*' && core[|core| - 1] != '*'
    ensures "*" <= before + core + after <==> before != ""
    ensures HasSuffix(before + core + after, "*") <==> after != ""
    ensures before + core + after != "*"
  {
    var mask := before + core + after;
    assert mask[|mask| - 1..] == [mask[|mask| - 1]];
    assert after == "" ==> mask[|mask| - 1] == core[|core| - 1];
    assert after != "" ==> mask[|mask| - 1] == after[|after| - 1];
    assert before == "" ==> mask[0] == core[0];
    assert core[0] == mask[|before|];
  }

  lemma TextOfMask(mask: string, before: string, core: string, after: string)
    requires OnlyStars(before) && OnlyStars(after) && mask == before + core + after
    ensures RemoveStars(mask) == RemoveStars(core)
  {
    hide RemoveStars;
    RemoveStarsOfSum(before + core, after);
    RemoveStarsOfSum(before, core);
    RemoveStarsKeeps(before);
    RemoveStarsKeeps(after);
    assert "" + RemoveStars(core) + "" == RemoveStars(core);
  }

  /** The mask without the stars between two other bytes. */
  lemma LegacyMeansGlob(value: string, mask: string) returns (before: string, after: string)
    requires mask != ""
    ensures OnlyStars(before) && OnlyStars(after) && mask == before + Core(mask) + after
    ensures LegacyMask(value, mask) <==> Glob(value, before + RemoveStars(Core(mask)) + after)
  {
    before, after := CoreInside(mask);
    var core := Core(mask);
    CoreEnds(mask);
    TextOfMask(mask, before, core, after);
    if core == "" {
      assert OnlyStars(mask) && before + "" + after == mask && RemoveStars("") == "";
      StarsMatchAnything(value, mask);
      assert OccursAt(value, "", 0);
      assert mask[|mask| - 1..] == "*";
    } else {
      EndsShow(before, core, after);
      hide Glob, RemoveStars, Core, Contains;
      StarsAtTheEnds(value, before, RemoveStars(core), after);
    }
  }

  lemma LegacyAppend(value: string, list: string, t: string)
    requires ',' !in t
    ensures LegacyMatches(value, list + "," + t) <==> LegacyMatches(value, list) || LegacyHit(value, t)
  {
    hide Split, LegacyHit;
    SplitAppend(list, t);
    if u :| u in Split(list, ",") && LegacyHit(value, u) {
      assert u in Split(list + "," + t, ",");
    }
    assert t in Split(list, ",") + [t];
  }

  lemma NothingInEmptyList(value: string)
    ensures !LegacyMatches(value, "")
  {
    SplitAtFirst("", ',', 0);
    assert Split("", ",") == [""];
  }

  /** Appending a mask to a deprecated list adds the values it matches; appending its negation adds
      all the others. */
  lemma LegacyAdded(value: string, list: string, mask: string)
    requires mask != "" && ',' !in mask && StarFree(Core(mask))
    ensures mask[0] != '!' ==>
              (LegacyMatches(value, list + "," + mask) <==> LegacyMatches(value, list) || Glob(value, mask))
    ensures LegacyMatches(value, list + ",!" + mask) <==> LegacyMatches(value, list) || !Glob(value, mask)
    ensures !LegacyMatches(value, "")
  {
    hide Split, Glob, LegacyMatches, LegacyMask;
    LegacyMaskAgrees(value, mask);
    LegacyAppend(value, list, mask);
    LegacyAppend(value, list, "!" + mask);
    assert ("!" + mask)[1..] == mask;
    assert list + ",!" + mask == list + "," + ("!" + mask);
    NothingInEmptyList(value);
  }
}

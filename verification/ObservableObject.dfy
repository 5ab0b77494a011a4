/** The registry as the object that callbacks are registered with (`observable/`). */
module ObservableObject {
  import opened Strings
  import opened Observables

  class Callback {
    const event: string
    const fn: int          // identity of the function value
    const isUnique: bool
    const isTyped: bool
    var wasCalled: bool

    constructor (event: string, fn: int, isUnique: bool, isTyped: bool)
      ensures this.event == event && this.fn == fn && this.isUnique == isUnique && this.isTyped == isTyped && !wasCalled
    {
      this.event, this.fn, this.isUnique, this.isTyped := event, fn, isUnique, isTyped;
      wasCalled := false;
    }
  }

  function Fn(c: Callback): int { c.fn }
  predicate Unique(c: Callback) { c.isUnique }
  function EventOf(c: Callback): string { c.event }
  const LOOK := Look(EventOf, Fn, Unique)

  ghost function Spent(list: seq<Callback>): set<Callback>
    reads list
  {
    set c | c in list && c.wasCalled
  }

  ghost function Before<T>(called: seq<T>, after: After<T>): After<T> {
    after.(called := called + after.called)
  }

  lemma BeforeOne<T>(called: seq<T>, cb: T, after: After<T>)
    ensures Before(called, after.(called := [cb] + after.called)) == Before(called + [cb], after)
  {
    assert called + ([cb] + after.called) == called + [cb] + after.called;
  }

  lemma BeforeMore<T>(called: seq<T>, here: seq<T>, after: After<T>)
    ensures Before(called, after.(called := here + after.called)) == Before(called + here, after)
  {
    assert called + (here + after.called) == called + here + after.called;
  }

  /** Called are the callbacks of the words of the event and those for all events, but no spent
      once-callback; and none of them is left out. */
  ghost predicate CallsRight(reg: Registry<Callback>, spent: set<Callback>, event: string, called: seq<Callback>) {
    && (forall i :: 0 <= i < |called| ==>
          && (called[i].event in Words(event) || called[i].event == "*")
          && called[i] in Listed(reg, called[i].event) && !(called[i].isUnique && called[i] in spent))
    && forall e, i :: (e in Words(event) || e == "*") && 0 <= i < |Listed(reg, e)| ==>
         (Listed(reg, e)[i].isUnique && Listed(reg, e)[i] in spent) || Listed(reg, e)[i] in called
  }

  lemma LooksLike(c: Callback)
    ensures LOOK.eventOf(c) == c.event && LOOK.unique(c) == c.isUnique && LOOK.fnOf(c) == c.fn
  {
  }

  lemma TriggerMeans(reg: Registry<Callback>, spent: set<Callback>, event: string)
    ensures Tidy(LOOK, reg) ==>
              var after := Dispatches(LOOK, reg, spent, Targets(event));
              !after.panicked && CallsRight(reg, spent, event, after.called)
  {
    hide Dispatches, Targets, Words, Listed, Tidy;
    if Tidy(LOOK, reg) {
      TriggerCalls(LOOK, reg, spent, event);
      var after := Dispatches(LOOK, reg, spent, Targets(event));
      forall i | 0 <= i < |after.called|
        ensures (after.called[i].event in Words(event) || after.called[i].event == "*")
                && after.called[i] in Listed(reg, after.called[i].event)
                && !(after.called[i].isUnique && after.called[i] in spent)
      {
        var x := after.called[i];
        TriggerCallsOne(LOOK, reg, spent, event, x);
        LooksLike(x);
      }
      forall e, i | (e in Words(event) || e == "*") && 0 <= i < |Listed(reg, e)|
        ensures (Listed(reg, e)[i].isUnique && Listed(reg, e)[i] in spent) || Listed(reg, e)[i] in after.called
      {
        var x := Listed(reg, e)[i];
        OneFunctionEach(LOOK, reg, e);
        TriggerCallsOne(LOOK, reg, spent, event, x);
        LooksLike(x);
      }
    }
  }

  lemma BeforeNone<T>(after: After<T>)
    ensures Before([], after) == after
  {
    assert [] + after.called == after.called;
  }

  /** One more name dispatched: a panic ends it all, otherwise the rest follows. */
  lemma NextName(all: After<Callback>, called: seq<Callback>, reg: Registry<Callback>, spent: set<Callback>,
                 names: seq<string>, i: nat, last: seq<string>)
    requires i < |names| && all == Before(called, Dispatches(LOOK, reg, spent, names[i..] + last))
    ensures var first := Dispatched(LOOK, reg, spent, names[i]);
            all == if first.panicked then After(first.reg, first.spent, called + first.called, true)
                   else Before(called + first.called, Dispatches(LOOK, first.reg, first.spent, names[i + 1..] + last))
  {
    hide Dispatched, Dispatches;
    var left := names[i..] + last;
    assert left[0] == names[i] && left[1..] == names[i + 1..] + last;
    DispatchesStep(LOOK, reg, spent, left);
    var first := Dispatched(LOOK, reg, spent, names[i]);
    BeforeMore(called, first.called, Dispatches(LOOK, first.reg, first.spent, left[1..]));
  }

  lemma NoName(all: After<Callback>, called: seq<Callback>, reg: Registry<Callback>, spent: set<Callback>,
               names: seq<string>, last: seq<string>)
    requires all == Before(called, Dispatches(LOOK, reg, spent, names[|names|..] + last))
    ensures all == Before(called, Dispatches(LOOK, reg, spent, last[0..] + []))
    ensures last == [] ==> all == After(reg, spent, called, false)
  {
    assert names[|names|..] + last == last == last[0..] + [];
    hide Dispatched;
    assert called + [] == called;
  }

  class Observable {
    var callbacks: Registry<Callback>

    constructor ()
      ensures callbacks == map[]
    {
      callbacks := map[];
    }

    /** Registers a function, given by its identity, under every name; anything else panics. */
    method AddCallback(event: string, cb: Option<int>, isUnique: bool)
      returns (ghost made: seq<Callback>, panicked: bool)
      modifies this
      ensures panicked <==> cb.None?
      ensures panicked ==> callbacks == old(callbacks) && made == []
      ensures !panicked ==> |made| == |Words(event)| && callbacks == AddAll(old(callbacks), Words(event), made)
      ensures forall i :: 0 <= i < |made| ==>
                && fresh(made[i]) && made[i].event == Words(event)[i] && Some(made[i].fn) == cb
                && made[i].isUnique == isUnique && made[i].isTyped == (|made| > 1) && !made[i].wasCalled
      ensures forall i, j :: 0 <= i < j < |made| ==> made[i] != made[j]
    {
      hide Words, AddAll;
      var names := Words(event);
      made := [];
      if cb.None? {
        return made, true;
      }
      AddNone(callbacks, names[..0], made);
      for i := 0 to |names|
        invariant |made| == i
        invariant forall k :: 0 <= k < i ==>
                    && fresh(made[k]) && made[k].event == names[k] && made[k].fn == cb.value
                    && made[k].isUnique == isUnique && made[k].isTyped == (|names| > 1) && !made[k].wasCalled
        invariant forall j, k :: 0 <= j < k < i ==> made[j] != made[k]
        invariant callbacks == AddAll(old(callbacks), names[..i], made)
      {
        var record := new Callback(names[i], cb.value, isUnique, |names| > 1);
        AddOne(old(callbacks), names, i, made, record);
        callbacks := callbacks[names[i] := Listed(callbacks, names[i]) + [record]];
        made := made + [record];
      }
      assert names[..|names|] == names;
      panicked := false;
    }

    method On(event: string, cb: Option<int>) returns (ghost made: seq<Callback>, panicked: bool)
      modifies this
      ensures panicked <==> cb.None?
      ensures if panicked then callbacks == old(callbacks)
              else |made| == |Words(event)| && callbacks == AddAll(old(callbacks), Words(event), made)
      ensures forall c :: c in made ==> fresh(c) && !c.isUnique && Some(c.fn) == cb
    {
      made, panicked := AddCallback(event, cb, false);
    }

    method Once(event: string, cb: Option<int>) returns (ghost made: seq<Callback>, panicked: bool)
      modifies this
      ensures panicked <==> cb.None?
      ensures if panicked then callbacks == old(callbacks)
              else |made| == |Words(event)| && callbacks == AddAll(old(callbacks), Words(event), made)
      ensures forall c :: c in made ==> fresh(c) && c.isUnique && Some(c.fn) == cb && !c.wasCalled
    {
      made, panicked := AddCallback(event, cb, true);
    }

    /** Deletes from the list while ranging over it; a panic leaves what was done so far. */
    method Remove(s: string, fn: int) returns (panicked: bool)
      modifies this
      ensures callbacks == RemoveFrom(old(callbacks), s, Fn, fn)
      ensures panicked <==> RangePanics(Listed(old(callbacks), s), Fn, fn)
    {
      var list := Listed(callbacks, s);
      var backing := new Callback[|list|](i requires 0 <= i < |list| => list[i]);
      assert backing[..] == list;
      var n;
      n, panicked := RemoveInPlace(backing, Fn, fn);
      if n == 0 {
        callbacks := callbacks - {s};
      } else {
        callbacks := callbacks[s := backing[..n]];
      }
    }

    /** The event keeps no callback, every other event keeps its list; "*" wipes them all. */
    method CleanEvent(s: string)
      modifies this
      ensures forall e :: e in callbacks <==> e in old(callbacks) && e != s && s != ALL_EVENTS
      ensures forall e :: e in callbacks ==> callbacks[e] == old(callbacks)[e]
    {
      if s == ALL_EVENTS {
        callbacks := map[];
      } else {
        callbacks := callbacks - {s};
      }
    }

    /** Stops listening: to everything, to an event, or with one function. */
    method Off(event: string, fns: seq<int>) returns (panicked: bool)
      modifies this
      ensures (callbacks, panicked) == OffAll(old(callbacks), event, Fn, fns)
      ensures event == "*" ==> !panicked && callbacks == map[]
      ensures event != "*" && |fns| == 0 ==> !panicked && forall s ::
                Listed(callbacks, s) == if s in Words(event) || "*" in Words(event) then [] else Listed(old(callbacks), s)
      ensures event != "*" && |fns| == 1 && AllDiffer(old(callbacks), Fn) ==> !panicked && forall s ::
                Listed(callbacks, s) ==
                if s in Words(event) then Without(Listed(old(callbacks), s), Fn, fns[0]) else Listed(old(callbacks), s)
      ensures event != "*" && |fns| > 1 ==> callbacks == old(callbacks) && (panicked <==> Words(event) != [])
    {
      hide Words;
      OffMeaning(callbacks, event, Fn, fns);
      if event == ALL_EVENTS {
        CleanEvent(event);
        assert callbacks == map[];
        return false;
      }
      var names := Words(event);
      for i := 0 to |names|
        invariant OffAll(old(callbacks), event, Fn, fns) == OffNames(callbacks, names[i..], Fn, fns)
      {
        assert names[i..][0] == names[i] && names[i..][1..] == names[i + 1..];
        if |fns| == 0 {
          ghost var reg := callbacks;
          CleanEvent(names[i]);
          CleanedMeaning(reg, names[i], callbacks);
        } else if |fns| == 1 {
          var failed := Remove(names[i], fns[0]);
          if failed {
            return true;
          }
        } else {
          return true;
        }
      }
      return false;
    }

    /** Takes the callbacks of an event, marking the once-callbacks among them. */
    method GetCallbacks(s: string) returns (cbs: seq<Callback>)
      modifies set c | c in Listed(callbacks, s)
      ensures callbacks == old(callbacks)
      ensures cbs == Snapshot(Listed(callbacks, s), Unique, old(Spent(Listed(callbacks, s))))
      ensures forall c :: c in Listed(callbacks, s) ==> c.wasCalled == (old(c.wasCalled) || (c.isUnique && c in cbs))
    {
      hide Snapshot;
      var list := Listed(callbacks, s);
      ghost var spent := Spent(list);
      ghost var all := Snapshot(list, Unique, spent);
      cbs := [];
      assert list[0..] == list;
      hide Spent, Listed;
      for i := 0 to |list|
        invariant forall c :: c in list && c.isUnique ==> (c.wasCalled <==> c in spent)
        invariant forall c :: c in list ==> c.wasCalled == (old(c.wasCalled) || (c.isUnique && c in cbs))
        invariant all == cbs + Snapshot(list[i..], Unique, spent)
      {
        var cb := list[i];
        SnapshotStep(list[i..], Unique, spent);
        assert list[i..][0] == cb && list[i..][1..] == list[i + 1..];
        if cb.isUnique {
          if cb.wasCalled {
            continue;
          }
          cb.wasCalled := true;
          spent := spent + {cb};
        }
        cbs := cbs + [cb];
      }
      SnapshotStep(list[|list|..], Unique, spent);
    }

    ghost function Records(): set<Callback>
      reads this
    {
      set s, c | s in callbacks && c in callbacks[s] :: c
    }

    /** The once-callbacks marked as called are those in `spent`. */
    ghost predicate Marks(spent: set<Callback>)
      reads this, Records()
    {
      forall c :: c in Records() && c.isUnique ==> (c.wasCalled <==> c in spent)
    }

    /** Calls the callbacks in turn and removes each once-callback after its call. */
    method CallEach(cbs: seq<Callback>, ghost spent: set<Callback>) returns (called: seq<Callback>, panicked: bool)
      requires forall c :: c in cbs && c.isUnique ==> c.wasCalled
      modifies this
      ensures Retire(LOOK, old(callbacks), spent, cbs) == After(callbacks, spent, called, panicked)
    {
      hide Retire, RemoveFrom, RangePanics, Listed;
      ghost var all := Retire(LOOK, callbacks, spent, cbs);
      called, panicked := [], false;
      assert cbs[0..] == cbs && [] + all.called == all.called;
      for i := 0 to |cbs|
        invariant all == Before(called, Retire(LOOK, callbacks, spent, cbs[i..]))
      {
        var cb := cbs[i];
        RetireStep(LOOK, callbacks, spent, cbs[i..]);
        assert cbs[i..][0] == cb && cbs[i..][1..] == cbs[i + 1..];
        ghost var before := called;
        called := called + [cb];
        if cb.isUnique && cb.wasCalled {
          panicked := Remove(cb.event, cb.fn);
          if panicked {
            return;
          }
        }
        BeforeOne(before, cb, Retire(LOOK, callbacks, spent, cbs[i + 1..]));
      }
      RetireStep(LOOK, callbacks, spent, cbs[|cbs|..]);
      assert called + [] == called;
    }

    /** One dispatch whose callbacks leave the registry alone: calls its snapshot in turn and
        removes each once-callback after its call. */
    method DispatchEvents(s: string, ghost spent: set<Callback>) returns (called: seq<Callback>, panicked: bool)
      requires Marks(spent)
      modifies this, Records()
      ensures var after := Dispatched(LOOK, old(callbacks), spent, s);
              callbacks == after.reg && called == after.called && panicked == after.panicked && Marks(after.spent)
      ensures Records() <= old(Records())
    {
      hide Retire, Snapshot, Sweep;
      ghost var reg, list := callbacks, Listed(callbacks, s);
      assert forall c :: c in list ==> c in Records();
      SnapshotSame(list, Unique, Spent(list), spent);
      var cbs := GetCallbacks(s);
      ghost var marked := Spend(LOOK, spent, cbs);
      assert Marks(marked);
      RetireInside(LOOK, reg, marked, cbs);
      called, panicked := CallEach(cbs, marked);
      forall c | c in Records()
        ensures c in old(Records())
      {
        var e :| e in callbacks && c in callbacks[e];
        assert c in Listed(callbacks, e);
      }
    }

    /** One trigger whose callbacks leave the registry alone: word by word, then "*". */
    method Trigger(event: string) returns (called: seq<Callback>, panicked: bool)
      modifies this, Records()
      ensures var after := Dispatches(LOOK, old(callbacks), old(SpentRecords()), Targets(event));
              callbacks == after.reg && called == after.called && panicked == after.panicked && Marks(after.spent)
      ensures Tidy(LOOK, old(callbacks)) ==>
                !panicked && CallsRight(old(callbacks), old(SpentRecords()), event, called)
    {
      TriggerMeans(callbacks, SpentRecords(), event);
      ghost var spent := SpentRecords();
      ghost var all := Dispatches(LOOK, callbacks, spent, Targets(event));
      var events := Words(event);
      ghost var last := if event == ALL_EVENTS then [] else [ALL_EVENTS];
      assert Targets(event) == events[0..] + last;
      assert Marks(spent);
      hide *;
      called, panicked := [], false;
      BeforeNone(all);
      for i := 0 to |events|
        invariant Marks(spent) && Records() <= old(Records())
        invariant all == Before(called, Dispatches(LOOK, callbacks, spent, events[i..] + last))
      {
        NextName(all, called, callbacks, spent, events, i, last);
        ghost var first := Dispatched(LOOK, callbacks, spent, events[i]);
        var here;
        here, panicked := DispatchEvents(events[i], spent);
        spent := first.spent;
        called := called + here;
        if panicked {
          return;
        }
      }
      NoName(all, called, callbacks, spent, events, last);
      if event != ALL_EVENTS {
        NextName(all, called, callbacks, spent, last, 0, []);
        ghost var first := Dispatched(LOOK, callbacks, spent, ALL_EVENTS);
        var here;
        here, panicked := DispatchEvents(ALL_EVENTS, spent);
        spent := first.spent;
        called := called + here;
        if !panicked {
          NoName(all, called, callbacks, spent, last, []);
        }
      }
    }

    ghost function SpentRecords(): set<Callback>
      reads this, Records()
    {
      set c | c in Records() && c.wasCalled
    }
  }
}
